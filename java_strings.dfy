/**
 * The java.lang.String operations the metric engine relies on: contains,
 * lastIndexOf, replace, split and trim, each with the semantics the Java
 * library gives it, and lemmas that say what each one computes.
 */
module JavaStrings {

  /** t occurs in s starting at index i. */
  predicate OccursAt(s: string, t: string, i: int) {
    0 <= i && i + |t| <= |s| && s[i..i + |t|] == t
  }

  /** String.contains: t occurs somewhere in s; the empty string occurs in every string. */
  function Contains(s: string, t: string): bool
    decreases |s|
  {
    |t| <= |s| && (t <= s || (s != [] && Contains(s[1..], t)))
  }

  lemma {:induction false} ContainsIffOccurs(s: string, t: string)
    ensures Contains(s, t) <==> exists i :: OccursAt(s, t, i)
    decreases |s|
  {
    if |t| > |s| {
    } else if t <= s {
      assert OccursAt(s, t, 0);
    } else {
      ContainsIffOccurs(s[1..], t);
      forall i | OccursAt(s[1..], t, i)
        ensures OccursAt(s, t, i + 1)
      {
        assert s[1..][i..i + |t|] == s[i + 1..i + 1 + |t|];
      }
      forall i | OccursAt(s, t, i)
        ensures OccursAt(s[1..], t, i - 1)
      {
        assert i != 0;
        assert s[1..][i - 1..i - 1 + |t|] == s[i..i + |t|];
      }
    }
  }

  /** String.lastIndexOf for a one-character string: the last index holding c, or -1. */
  function LastIndexOf(s: string, c: char): (k: int)
    ensures -1 <= k < |s|
    ensures k >= 0 ==> s[k] == c
    ensures forall j :: k < j < |s| ==> s[j] != c
    decreases |s|
  {
    if s == [] then -1
    else if s[|s| - 1] == c then |s| - 1
    else LastIndexOf(s[..|s| - 1], c)
  }

  /** String.replace(CharSequence, CharSequence): every occurrence of target, scanning
      from the left without overlaps, is replaced by replacement. */
  function Replace(s: string, target: string, replacement: string): string
    requires target != []
    decreases |s|
  {
    if |s| < |target| then s
    else if target <= s then replacement + Replace(s[|target|..], target, replacement)
    else [s[0]] + Replace(s[1..], target, replacement)
  }

  /** s with every c removed. */
  function Without(s: string, c: char): string
    decreases |s|
  {
    if s == [] then []
    else if s[0] == c then Without(s[1..], c)
    else [s[0]] + Without(s[1..], c)
  }

  lemma {:induction false} WithoutAppend(a: string, b: string, c: char)
    ensures Without(a + b, c) == Without(a, c) + Without(b, c)
    decreases |a|
  {
    if a != [] {
      assert (a + b)[1..] == a[1..] + b;
      WithoutAppend(a[1..], b, c);
    } else {
      assert a + b == b;
    }
  }

  /** Replacing ", " by "," only deletes spaces: nothing else in the string changes. */
  lemma {:induction false} CollapsingCommaSpaceOnlyDropsSpaces(s: string)
    ensures Without(Replace(s, ", ", ","), ' ') == Without(s, ' ')
    decreases |s|
  {
    if |s| < 2 {
    } else if ", " <= s {
      CollapsingCommaSpaceOnlyDropsSpaces(s[2..]);
      var rest := Replace(s[2..], ", ", ",");
      WithoutAppend(",", rest, ' ');
      assert s == ", " + s[2..];
      WithoutAppend(", ", s[2..], ' ');
    } else {
      CollapsingCommaSpaceOnlyDropsSpaces(s[1..]);
      WithoutAppend([s[0]], Replace(s[1..], ", ", ","), ' ');
      assert s == [s[0]] + s[1..];
      WithoutAppend([s[0]], s[1..], ' ');
    }
  }

  /** The pieces of s between occurrences of c, empty pieces included. */
  function Pieces(s: string, c: char): (ps: seq<string>)
    ensures |ps| >= 1
    decreases |s|
  {
    var k := LastIndexOf(s, c);
    if k < 0 then [s] else Pieces(s[..k], c) + [s[k + 1..]]
  }

  /** The pieces put back together with c between them. */
  function Join(ps: seq<string>, c: char): string
    requires ps != []
    decreases |ps|
  {
    if |ps| == 1 then ps[0] else Join(ps[..|ps| - 1], c) + [c] + ps[|ps| - 1]
  }

  /** Splitting and joining on the same character is the identity, and no piece holds c. */
  lemma {:induction false} PiecesJoin(s: string, c: char)
    ensures Join(Pieces(s, c), c) == s
    ensures forall i :: 0 <= i < |Pieces(s, c)| ==> c !in Pieces(s, c)[i]
    decreases |s|
  {
    var k := LastIndexOf(s, c);
    if k >= 0 {
      PiecesJoin(s[..k], c);
      var ps := Pieces(s[..k], c);
      assert Pieces(s, c) == ps + [s[k + 1..]];
      assert (ps + [s[k + 1..]])[..|ps|] == ps;
      assert s == s[..k] + [c] + s[k + 1..];
      NotInSuffix(s, k, c);
    }
  }

  /** Joining pieces free of c and splitting the result on c gives the pieces back. */
  lemma {:induction false} JoinPieces(ps: seq<string>, c: char)
    requires ps != []
    requires forall i :: 0 <= i < |ps| ==> c !in ps[i]
    ensures Pieces(Join(ps, c), c) == ps
    decreases |ps|
  {
    var s := Join(ps, c);
    var k := LastIndexOf(s, c);
    if |ps| == 1 {
      assert k < 0;
    } else {
      var pre := ps[..|ps| - 1];
      var last := ps[|ps| - 1];
      var joined := Join(pre, c);
      assert s == joined + [c] + last;
      assert s[|joined|] == c;
      assert k == |joined|;
      assert s[..k] == joined;
      assert s[k + 1..] == last;
      JoinPieces(pre, c);
    }
  }

  function DropTrailingEmpty(ps: seq<string>): seq<string>
    decreases |ps|
  {
    if ps != [] && ps[|ps| - 1] == [] then DropTrailingEmpty(ps[..|ps| - 1]) else ps
  }

  /** String.split with a one-character, non-meta delimiter and limit 0: when c does not
      occur, the whole string; otherwise the pieces with trailing empty pieces removed. */
  function Split(s: string, c: char): seq<string>
  {
    if LastIndexOf(s, c) < 0 then [s] else DropTrailingEmpty(Pieces(s, c))
  }

  /** s without its trailing run of c. */
  function StripTrailing(s: string, c: char): (r: string)
    ensures |r| <= |s| && r == s[..|r|]
    ensures forall j :: |r| <= j < |s| ==> s[j] == c
    ensures r != [] ==> r[|r| - 1] != c
    decreases |s|
  {
    if s != [] && s[|s| - 1] == c then StripTrailing(s[..|s| - 1], c) else s
  }

  /** What follows the last c in s (all of s when c does not occur). */
  function AfterLast(s: string, c: char): (r: string)
    ensures c !in r
  {
    var k := LastIndexOf(s, c);
    NotInSuffix(s, k, c);
    s[k + 1..]
  }

  lemma NotInSuffix(s: string, k: int, c: char)
    requires -1 <= k < |s|
    requires forall j :: k < j < |s| ==> s[j] != c
    ensures c !in s[k + 1..]
  {
    var t := s[k + 1..];
    forall j | 0 <= j < |t| ensures t[j] != c {
      assert t[j] == s[k + 1 + j];
    }
  }

  lemma DropTrailingEmptyKeeps(ps: seq<string>, last: string)
    requires last != []
    ensures DropTrailingEmpty(ps + [last]) == ps + [last]
  {
  }

  lemma DropTrailingEmptySkips(ps: seq<string>)
    ensures DropTrailingEmpty(ps + [[]]) == DropTrailingEmpty(ps)
  {
    assert (ps + [[]])[..|ps|] == ps;
  }

  /** Without the delimiter, s is its only piece and nothing trails or precedes it. */
  lemma NoDelimiter(s: string, c: char)
    requires LastIndexOf(s, c) < 0
    ensures Pieces(s, c) == [s] && StripTrailing(s, c) == s && AfterLast(s, c) == s
  {
    assert s != [] ==> s[|s| - 1] != c;
  }

  /** The last piece split keeps, and whether any is kept, as stripping trailing delimiters predicts. */
  predicate LastPieceAgrees(s: string, c: char) {
    var ps := DropTrailingEmpty(Pieces(s, c));
    (ps == [] <==> StripTrailing(s, c) == []) &&
    (ps != [] ==> ps[|ps| - 1] == AfterLast(StripTrailing(s, c), c))
  }

  /** The last piece is not empty: split keeps every piece, and nothing trails. */
  lemma LastPieceKept(s: string, c: char)
    requires 0 <= LastIndexOf(s, c) < |s| - 1
    ensures LastPieceAgrees(s, c)
  {
    var k := LastIndexOf(s, c);
    DropTrailingEmptyKeeps(Pieces(s[..k], c), s[k + 1..]);
    assert s[|s| - 1] != c;
    assert StripTrailing(s, c) == s;
  }

  /** The last piece is empty: split drops it, and so does stripping trailing delimiters. */
  lemma DroppedPiece(s: string, c: char)
    requires s != [] && LastIndexOf(s, c) == |s| - 1
    ensures DropTrailingEmpty(Pieces(s, c)) == DropTrailingEmpty(Pieces(s[..|s| - 1], c))
    ensures StripTrailing(s, c) == StripTrailing(s[..|s| - 1], c)
  {
    var k := |s| - 1;
    assert s[k + 1..] == [];
    assert Pieces(s, c) == Pieces(s[..k], c) + [[]];
    DropTrailingEmptySkips(Pieces(s[..k], c));
  }

  lemma OnlyPieceAgrees(s: string, c: char)
    requires LastIndexOf(s, c) < 0
    ensures LastPieceAgrees(s, c)
  {
    OnlyPiece(s, c);
  }

  lemma AgreesTransfer(s: string, t: string, c: char)
    requires DropTrailingEmpty(Pieces(s, c)) == DropTrailingEmpty(Pieces(t, c))
    requires StripTrailing(s, c) == StripTrailing(t, c)
    requires LastPieceAgrees(t, c)
    ensures LastPieceAgrees(s, c)
  {
  }

  lemma LastPieceDropped(s: string, c: char)
    requires s != [] && LastIndexOf(s, c) == |s| - 1
    requires LastIndexOf(s[..|s| - 1], c) >= 0 ==> LastPieceAgrees(s[..|s| - 1], c)
    ensures LastPieceAgrees(s, c)
  {
    var pre := s[..|s| - 1];
    DroppedPiece(s, c);
    if LastIndexOf(pre, c) < 0 {
      OnlyPieceAgrees(pre, c);
    }
    AgreesTransfer(s, pre, c);
  }

  /** A single piece without the delimiter: split keeps it unless it is empty. */
  lemma OnlyPiece(s: string, c: char)
    requires LastIndexOf(s, c) < 0
    ensures DropTrailingEmpty(Pieces(s, c)) == if s == [] then [] else [s]
    ensures StripTrailing(s, c) == s && AfterLast(s, c) == s
  {
    NoDelimiter(s, c);
    var ps: seq<string> := [s];
    assert ps[..0] == [];
  }

  lemma {:induction false} DropTrailingEmptyPieces(s: string, c: char)
    requires LastIndexOf(s, c) >= 0
    ensures LastPieceAgrees(s, c)
    decreases |s|
  {
    if s[|s| - 1] != c {
      LastPieceKept(s, c);
    } else {
      if LastIndexOf(s[..|s| - 1], c) >= 0 {
        DropTrailingEmptyPieces(s[..|s| - 1], c);
      }
      LastPieceDropped(s, c);
    }
  }

  /** The last element of split(" ") is what follows the last delimiter once trailing
      delimiters are stripped; the array is empty exactly when s is a non-empty run of c. */
  lemma {:induction false} SplitLastPiece(s: string, c: char)
    ensures Split(s, c) == [] <==> (s != [] && StripTrailing(s, c) == [])
    ensures Split(s, c) != [] ==>
              Split(s, c)[|Split(s, c)| - 1] == AfterLast(StripTrailing(s, c), c)
  {
    if LastIndexOf(s, c) >= 0 {
      DropTrailingEmptyPieces(s, c);
    } else {
      assert s != [] ==> s[|s| - 1] != c;
      assert StripTrailing(s, c) == s;
    }
  }

  /** String.replace(char, char) (also what replace(".", "/") does). */
  function ReplaceChar(s: string, from: char, to: char): (r: string)
    ensures |r| == |s|
    ensures forall i :: 0 <= i < |s| ==> r[i] == if s[i] == from then to else s[i]
    decreases |s|
  {
    if s == [] then [] else [if s[0] == from then to else s[0]] + ReplaceChar(s[1..], from, to)
  }

  /** Replacing from by to is undone by replacing to by from, when to did not occur. */
  lemma ReplaceCharRoundTrip(s: string, from: char, to: char)
    requires to !in s
    ensures ReplaceChar(ReplaceChar(s, from, to), to, from) == s
  {
    var r := ReplaceChar(ReplaceChar(s, from, to), to, from);
    forall i | 0 <= i < |s| ensures r[i] == s[i] {
      assert s[i] != to;
    }
  }

  /** Characters String.trim() removes: code point at most U+0020. */
  predicate IsTrimmed(ch: char) {
    ch <= ' '
  }

  function TrimLeading(s: string): (r: string)
    ensures |r| <= |s| && r == s[|s| - |r|..]
    ensures forall j :: 0 <= j < |s| - |r| ==> IsTrimmed(s[j])
    ensures r != [] ==> !IsTrimmed(r[0])
    decreases |s|
  {
    if s != [] && IsTrimmed(s[0]) then TrimLeading(s[1..]) else s
  }

  function TrimTrailing(s: string): (r: string)
    ensures |r| <= |s| && r == s[..|r|]
    ensures forall j :: |r| <= j < |s| ==> IsTrimmed(s[j])
    ensures r != [] ==> !IsTrimmed(r[|r| - 1])
    decreases |s|
  {
    if s != [] && IsTrimmed(s[|s| - 1]) then TrimTrailing(s[..|s| - 1]) else s
  }

  /** String.trim(). */
  function Trim(s: string): string
  {
    TrimTrailing(TrimLeading(s))
  }

  /** trim() yields the empty string exactly when every character is at most U+0020,
      and otherwise a string that starts and ends with a character above U+0020. */
  lemma TrimEmpty(s: string)
    ensures Trim(s) == [] <==> forall j :: 0 <= j < |s| ==> IsTrimmed(s[j])
    ensures Trim(s) != [] ==> !IsTrimmed(Trim(s)[0]) && !IsTrimmed(Trim(s)[|Trim(s)| - 1])
  {
    var l := TrimLeading(s);
    var t := TrimTrailing(l);
    assert l != [] ==> t != [] && t[0] == l[0] && l[0] == s[|s| - |l|];
  }
}

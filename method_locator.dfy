/**
 * How the extractor finds the declaration of a method named by a signature
 * string such as `a.b.C.run(int,String)`: every method declaration of the
 * compilation unit is reduced to its name and parameter types, and a
 * declaration matches when that reduced string occurs in the signature.
 */
module MethodLocator {
  import opened Wrappers
  import opened JavaStrings
  import opened Ast

  /** findAll(MethodDeclaration.class) on the compilation unit, in document order. */
  function MethodDeclarations(unit: Node): seq<Visit> {
    FindAllOf(Visit(unit, None, None), MethodDeclarationClass)
  }

  function DeclarationOf(v: Visit): string {
    if v.node.kind.MethodDeclaration? then v.node.kind.declaration else []
  }

  /**
   * The declaration string reduced to name and parameter list: ", " becomes ",",
   * the result is split on " ", and the last piece is kept. An empty split
   * array makes `parts[parts.length - 1]` throw.
   */
  function Normalised(declaration: string): Result<string> {
    var parts := Split(Replace(declaration, ", ", ","), ' ');
    if parts == [] then Failure(ArrayIndexOutOfBounds) else Success(parts[|parts| - 1])
  }

  lemma WithoutEmpty(s: string, c: char)
    ensures Without(s, c) == [] <==> forall i :: 0 <= i < |s| ==> s[i] == c
    decreases |s|
  {
    if s != [] {
      WithoutEmpty(s[1..], c);
      assert forall i :: 1 <= i < |s| ==> s[i] == s[1..][i - 1];
    }
  }

  lemma ReplaceKeepsEmptiness(s: string)
    ensures Replace(s, ", ", ",") == [] <==> s == []
  {
  }

  lemma StripTrailingEmpty(s: string, c: char)
    ensures StripTrailing(s, c) == [] <==> forall i :: 0 <= i < |s| ==> s[i] == c
  {
    var r := StripTrailing(s, c);
    if r != [] {
      assert s[|r| - 1] == r[|r| - 1];
    }
  }

  /**
   * The reduced string is the last space-separated word of the declaration once
   * ", " is collapsed, and it holds no space.
   */
  lemma NormalisedIsLastWord(declaration: string)
    ensures var s := Replace(declaration, ", ", ",");
            Normalised(declaration) ==
              if s != [] && StripTrailing(s, ' ') == [] then Failure(ArrayIndexOutOfBounds)
              else Success(AfterLast(StripTrailing(s, ' '), ' '))
    ensures Normalised(declaration).Success? ==> ' ' !in Normalised(declaration).value
  {
    var s := Replace(declaration, ", ", ",");
    var parts := Split(s, ' ');
    NormalisedUnfold(declaration);
    SplitLastPiece(s, ' ');
    if parts != [] {
      var w := AfterLast(StripTrailing(s, ' '), ' ');
      assert parts[|parts| - 1] == w;
      assert ' ' !in w;
    }
  }

  lemma NormalisedUnfold(declaration: string)
    ensures var parts := Split(Replace(declaration, ", ", ","), ' ');
            Normalised(declaration) ==
              if parts == [] then Failure(ArrayIndexOutOfBounds) else Success(parts[|parts| - 1])
  {
  }

  /** The reduction throws exactly for a non-empty declaration made only of spaces. */
  lemma NormalisedFails(declaration: string)
    ensures Normalised(declaration).Failure? <==>
              declaration != [] && forall i :: 0 <= i < |declaration| ==> declaration[i] == ' '
  {
    var s := Replace(declaration, ", ", ",");
    NormalisedIsLastWord(declaration);
    ReplaceKeepsEmptiness(declaration);
    StripTrailingEmpty(s, ' ');
    CollapsingCommaSpaceOnlyDropsSpaces(declaration);
    WithoutEmpty(s, ' ');
    WithoutEmpty(declaration, ' ');
  }

  /** A declaration reduced as the extractor's loops reduce it. */
  function Reduce(v: Visit): Result<string> {
    Normalised(DeclarationOf(v))
  }

  /** A declaration matches when its reduction succeeds and occurs in methodName. */
  predicate IsMatch(reduce: Visit -> Result<string>, v: Visit, methodName: string) {
    reduce(v).Success? && Contains(methodName, reduce(v).value)
  }

  /** Reducing the declaration throws. */
  predicate Malformed(reduce: Visit -> Result<string>, v: Visit) {
    reduce(v).Failure?
  }

  /**
   * The loop of findMethodDeclarationNode over ds: the last match so far, or the
   * exception the reduction threw. The reduction is a parameter so that what is
   * proved about the search does not depend on how a declaration is reduced.
   */
  function LastMatch(ds: seq<Visit>, reduce: Visit -> Result<string>, methodName: string): Result<Option<Visit>>
    decreases |ds|
  {
    if ds == [] then Success(None)
    else
      var previous :- LastMatch(ds[..|ds| - 1], reduce, methodName);
      var d := ds[|ds| - 1];
      var n :- reduce(d);
      Success(if Contains(methodName, n) then Some(d) else previous)
  }

  /** The loop of hasMethod over ds: true at the first match, false when none matches. */
  function FirstMatch(ds: seq<Visit>, reduce: Visit -> Result<string>, methodName: string): Result<bool>
    decreases |ds|
  {
    if ds == [] then Success(false)
    else
      var n :- reduce(ds[0]);
      if Contains(methodName, n) then Success(true) else FirstMatch(ds[1..], reduce, methodName)
  }

  /** `new MethodDeclaration()`: no parent, and an empty body. */
  function PlaceholderDeclaration(): Visit {
    Visit(Node(MethodDeclaration("empty empty()"), [Node(BlockStmt, [])]), None, None)
  }

  /** findMethodDeclarationNode on a compilation unit: always a method declaration. */
  function Locate(unit: Node, methodName: string): (r: Result<Visit>)
    ensures r.Success? ==> r.value.node.kind.MethodDeclaration?
  {
    var ds := MethodDeclarations(unit);
    var found :- LastMatch(ds, Reduce, methodName);
    FoundIsDeclaration(unit, methodName);
    Success(if found.Some? then found.value else PlaceholderDeclaration())
  }

  /** What the search over the unit's method declarations finds is a method declaration. */
  lemma FoundIsDeclaration(unit: Node, methodName: string)
    requires LastMatch(MethodDeclarations(unit), Reduce, methodName).Success?
    ensures LastMatch(MethodDeclarations(unit), Reduce, methodName).value.Some? ==>
              LastMatch(MethodDeclarations(unit), Reduce, methodName).value.value.node.kind.MethodDeclaration?
  {
    var ds := MethodDeclarations(unit);
    LastMatchWins(ds, Reduce, methodName);
    OfClassFilters(FindAll(Visit(unit, None, None)), MethodDeclarationClass);
  }

  /** hasMethod on a compilation unit. */
  function HasMatch(unit: Node, methodName: string): Result<bool> {
    FirstMatch(MethodDeclarations(unit), Reduce, methodName)
  }

  /** ds[i] matches and no later declaration does. */
  predicate IsLastMatch(ds: seq<Visit>, reduce: Visit -> Result<string>, methodName: string, i: int) {
    0 <= i < |ds| && IsMatch(reduce, ds[i], methodName) &&
    forall j :: i < j < |ds| ==> !IsMatch(reduce, ds[j], methodName)
  }

  /** One step of the loop: the search over ds in terms of the search over all but its last element. */
  lemma LastMatchStep(ds: seq<Visit>, reduce: Visit -> Result<string>, methodName: string)
    requires ds != []
    ensures var previous := LastMatch(ds[..|ds| - 1], reduce, methodName);
            var d := ds[|ds| - 1];
            LastMatch(ds, reduce, methodName) ==
              if previous.Failure? then Failure(previous.error)
              else if Malformed(reduce, d) then Failure(reduce(d).error)
              else if IsMatch(reduce, d, methodName) then Success(Some(d))
              else previous
  {
  }

  /** The search throws exactly when some declaration cannot be reduced, and then
      with the exception of the first such declaration. */
  lemma {:induction false} LastMatchFails(ds: seq<Visit>, reduce: Visit -> Result<string>, methodName: string)
    ensures LastMatch(ds, reduce, methodName).Failure? <==>
              exists i :: 0 <= i < |ds| && Malformed(reduce, ds[i])
    ensures LastMatch(ds, reduce, methodName).Failure? ==>
              exists i :: 0 <= i < |ds| && Malformed(reduce, ds[i]) &&
                LastMatch(ds, reduce, methodName).error == reduce(ds[i]).error &&
                forall j :: 0 <= j < i ==> !Malformed(reduce, ds[j])
    decreases |ds|
  {
    if ds != [] {
      var pre := ds[..|ds| - 1];
      LastMatchStep(ds, reduce, methodName);
      LastMatchFails(pre, reduce, methodName);
      assert forall i :: 0 <= i < |pre| ==> pre[i] == ds[i];
      if LastMatch(pre, reduce, methodName).Success? && Malformed(reduce, ds[|ds| - 1]) {
        assert forall j :: 0 <= j < |ds| - 1 ==> !Malformed(reduce, ds[j]);
      }
    }
  }

  /** Once the search has thrown on a prefix, the later declarations do not matter. */
  lemma {:induction false} LastMatchFailureSticks(ds: seq<Visit>, reduce: Visit -> Result<string>, methodName: string, k: int)
    requires 0 <= k <= |ds|
    requires LastMatch(ds[..k], reduce, methodName).Failure?
    ensures LastMatch(ds, reduce, methodName) == LastMatch(ds[..k], reduce, methodName)
    decreases |ds|
  {
    if k < |ds| {
      var pre := ds[..|ds| - 1];
      assert pre[..k] == ds[..k];
      LastMatchFailureSticks(pre, reduce, methodName, k);
      LastMatchStep(ds, reduce, methodName);
    } else {
      assert ds[..k] == ds;
    }
  }

  /**
   * Last match wins: a search that completes yields the last matching
   * declaration in document order, or nothing exactly when none matches.
   */
  lemma {:induction false} LastMatchWins(ds: seq<Visit>, reduce: Visit -> Result<string>, methodName: string)
    requires LastMatch(ds, reduce, methodName).Success?
    ensures LastMatch(ds, reduce, methodName).value.None? <==>
              forall i :: 0 <= i < |ds| ==> !IsMatch(reduce, ds[i], methodName)
    ensures LastMatch(ds, reduce, methodName).value.Some? ==>
              exists i :: IsLastMatch(ds, reduce, methodName, i) &&
                ds[i] == LastMatch(ds, reduce, methodName).value.value
    decreases |ds|
  {
    if ds != [] {
      var pre := ds[..|ds| - 1];
      var d := ds[|ds| - 1];
      LastMatchStep(ds, reduce, methodName);
      LastMatchWins(pre, reduce, methodName);
      assert forall i :: 0 <= i < |pre| ==> pre[i] == ds[i];
      var r := LastMatch(ds, reduce, methodName).value;
      if IsMatch(reduce, d, methodName) {
        assert IsLastMatch(ds, reduce, methodName, |ds| - 1);
      } else if r.Some? {
        var i :| IsLastMatch(pre, reduce, methodName, i) && pre[i] == r.value;
        assert IsLastMatch(ds, reduce, methodName, i);
      }
    }
  }

  /**
   * hasMethod returns true at the first matching declaration, false when no
   * declaration matches, and throws exactly when it reaches a declaration that
   * cannot be reduced before any match.
   */
  lemma {:induction false} FirstMatchSpec(ds: seq<Visit>, reduce: Visit -> Result<string>, methodName: string)
    ensures (forall i :: 0 <= i < |ds| ==> !Malformed(reduce, ds[i])) ==>
              FirstMatch(ds, reduce, methodName) ==
                Success(exists i :: 0 <= i < |ds| && IsMatch(reduce, ds[i], methodName))
    ensures FirstMatch(ds, reduce, methodName) == Success(true) ==>
              exists i :: 0 <= i < |ds| && IsMatch(reduce, ds[i], methodName)
    ensures FirstMatch(ds, reduce, methodName).Failure? <==>
              exists j :: 0 <= j < |ds| && Malformed(reduce, ds[j]) &&
                forall i :: 0 <= i < j ==> !IsMatch(reduce, ds[i], methodName)
    ensures FirstMatch(ds, reduce, methodName).Success? ==>
              FirstMatch(ds, reduce, methodName).value == exists i :: 0 <= i < |ds| && IsMatch(reduce, ds[i], methodName)
    decreases |ds|
  {
    if ds == [] {
    } else if Malformed(reduce, ds[0]) {
      assert Malformed(reduce, ds[0]);
    } else if IsMatch(reduce, ds[0], methodName) {
      forall j | 0 <= j < |ds| && Malformed(reduce, ds[j])
        ensures exists i :: 0 <= i < j && IsMatch(reduce, ds[i], methodName)
      {
        assert j != 0;
        assert 0 <= 0 < j && IsMatch(reduce, ds[0], methodName);
      }
    } else {
      var rest := ds[1..];
      FirstMatchSpec(rest, reduce, methodName);
      assert FirstMatch(ds, reduce, methodName) == FirstMatch(rest, reduce, methodName);
      assert forall i :: 1 <= i < |ds| ==> ds[i] == rest[i - 1];
      if FirstMatch(ds, reduce, methodName).Failure? {
        var j :| 0 <= j < |rest| && Malformed(reduce, rest[j]) &&
                 forall i :: 0 <= i < j ==> !IsMatch(reduce, rest[i], methodName);
        assert Malformed(reduce, ds[j + 1]);
        assert forall i :: 0 <= i < j + 1 ==> !IsMatch(reduce, ds[i], methodName);
      } else {
        forall j | 0 <= j < |ds| && Malformed(reduce, ds[j])
          ensures exists i :: 0 <= i < j && IsMatch(reduce, ds[i], methodName)
        {
          assert j != 0 && Malformed(reduce, rest[j - 1]);
          var i :| 0 <= i < j - 1 && IsMatch(reduce, rest[i], methodName);
          assert IsMatch(reduce, ds[i + 1], methodName);
        }
      }
      if exists i :: 0 <= i < |ds| && IsMatch(reduce, ds[i], methodName) {
        var i :| 0 <= i < |ds| && IsMatch(reduce, ds[i], methodName);
        assert IsMatch(reduce, rest[i - 1], methodName);
      }
    }
  }

  /**
   * hasMethod and findMethodDeclarationNode agree: whenever the search for the
   * declaration completes, hasMethod completes too and is true exactly when the
   * search found a matching declaration.
   */
  lemma HasMethodAgreesWithLocate(unit: Node, methodName: string)
    requires Locate(unit, methodName).Success?
    ensures HasMatch(unit, methodName) ==
              Success(LastMatch(MethodDeclarations(unit), Reduce, methodName).value.Some?)
  {
    var ds := MethodDeclarations(unit);
    LastMatchFails(ds, Reduce, methodName);
    LastMatchWins(ds, Reduce, methodName);
    FirstMatchSpec(ds, Reduce, methodName);
  }

  /**
   * In a compilation unit (whose root is not itself a method declaration), the
   * located declaration has no parent exactly when no declaration matched: the
   * driver's test for a method that was not found is sound and complete.
   */
  lemma NotFoundIffDetached(unit: Node, methodName: string)
    requires !unit.kind.MethodDeclaration?
    requires Locate(unit, methodName).Success?
    ensures Locate(unit, methodName).value.parent.None? <==>
              forall i :: 0 <= i < |MethodDeclarations(unit)| ==>
                !IsMatch(Reduce, MethodDeclarations(unit)[i], methodName)
    ensures Locate(unit, methodName).value.parent.None? ==> Locate(unit, methodName).value == PlaceholderDeclaration()
  {
    var root := Visit(unit, None, None);
    var ds := MethodDeclarations(unit);
    LastMatchWins(ds, Reduce, methodName);
    var found := LastMatch(ds, Reduce, methodName).value;
    if found.Some? {
      var v := found.value;
      var i :| IsLastMatch(ds, Reduce, methodName, i) && ds[i] == v;
      OfClassFilters(FindAll(root), MethodDeclarationClass);
      assert v in FindAll(root);
      assert FindAll(root) == [root] + FindAll(root)[1..];
      assert v != root;
      FoundAfterStartHaveParent(root);
    }
  }
}

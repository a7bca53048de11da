/**
 * What the per-method counters of the extractor compute, stated over the list
 * that findAll returns: the surface/nested classification by the kind of a
 * statement's grandparent, the all-if count, and the logical-operator count.
 */
module StatementCounts {
  import opened Wrappers
  import opened Ast

  /** The control-flow statements that are counted at the surface and nested. */
  datatype ControlStmt = If | Switch | While | Do | For | ForEach

  function ClassOf(t: ControlStmt): NodeClass {
    match t
    case If => IfStmtClass
    case Switch => SwitchStmtClass
    case While => WhileStmtClass
    case Do => DoStmtClass
    case For => ForStmtClass
    case ForEach => ForEachStmtClass
  }

  /** Both lookups `getParentNode().orElseThrow()` of a statement and of its parent succeed. */
  predicate Linked(v: Visit) {
    v.parent.Some? && v.grandparent.Some?
  }

  /** The node above the statement's parent is a method declaration. */
  predicate AtSurface(v: Visit) {
    v.grandparent.Some? && v.grandparent.value.MethodDeclaration?
  }

  /** The node above the statement's parent exists and is not a method declaration. */
  predicate IsNested(v: Visit) {
    v.grandparent.Some? && !v.grandparent.value.MethodDeclaration?
  }

  /** The statement's parent is an if statement: an else-if link, or an unbraced then branch. */
  predicate UnderIf(v: Visit) {
    v.parent.Some? && v.parent.value.IfStmt?
  }

  /** The lookups numberOfNestedIfIn makes for v succeed: the grandparent is looked up
      only for an if whose parent is not an if. */
  predicate NestedIfLinked(v: Visit) {
    v.parent.Some? && (UnderIf(v) || v.grandparent.Some?)
  }

  predicate CountedAsNestedIf(v: Visit) {
    !UnderIf(v) && IsNested(v)
  }

  /** An if that numberOfNestedIfIn skips and numberOfSurfaceIfIn does not count. */
  predicate SkippedIf(v: Visit) {
    UnderIf(v) && !AtSurface(v)
  }

  /** The else branch is present and is not itself an if statement. */
  predicate HasPlainElse(v: Visit) {
    var e := ElseStmt(v.node);
    e.Some? && !e.value.kind.IfStmt?
  }

  /** &&, ||, ^, & and |. */
  predicate IsLogicalOperator(op: BinaryOperator) {
    op.And? || op.Or? || op.Xor? || op.BinaryAnd? || op.BinaryOr?
  }

  predicate IsLogicalExpr(v: Visit) {
    v.node.kind.BinaryExpr? && IsLogicalOperator(v.node.kind.operator)
  }

  /** numberOfSurface*In over the statements findAll returned: NoSuchElementException
      if a lookup fails, otherwise the number of statements at the surface. */
  function SurfaceCount(stmts: seq<Visit>): Result<nat> {
    if forall i :: 0 <= i < |stmts| ==> Linked(stmts[i]) then Success(Count(stmts, AtSurface))
    else Failure(NoSuchElement)
  }

  /** numberOfNested*In over the statements of kind t that findAll returned. */
  function NestedCount(stmts: seq<Visit>, t: ControlStmt): Result<nat> {
    if t == If then
      if forall i :: 0 <= i < |stmts| ==> NestedIfLinked(stmts[i]) then Success(Count(stmts, CountedAsNestedIf))
      else Failure(NoSuchElement)
    else
      if forall i :: 0 <= i < |stmts| ==> Linked(stmts[i]) then Success(Count(stmts, IsNested))
      else Failure(NoSuchElement)
  }

  /** numberOfAllIfIn over the if statements findAll returned. */
  function AllIfCount(ifs: seq<Visit>): nat {
    |ifs| + Count(ifs, HasPlainElse)
  }

  lemma {:induction false} SurfaceAndNestedSplit(vs: seq<Visit>)
    requires forall i :: 0 <= i < |vs| ==> Linked(vs[i])
    ensures Count(vs, AtSurface) + Count(vs, IsNested) == |vs|
    decreases |vs|
  {
    if vs != [] {
      SurfaceAndNestedSplit(vs[..|vs| - 1]);
    }
  }

  lemma {:induction false} IfThreeWaySplit(vs: seq<Visit>)
    requires forall i :: 0 <= i < |vs| ==> Linked(vs[i])
    ensures Count(vs, AtSurface) + Count(vs, CountedAsNestedIf) + Count(vs, SkippedIf) == |vs|
    decreases |vs|
  {
    if vs != [] {
      IfThreeWaySplit(vs[..|vs| - 1]);
    }
  }

  lemma {:induction false} SkippedIsUnderIf(vs: seq<Visit>)
    requires forall i :: 0 <= i < |vs| ==> (UnderIf(vs[i]) ==> !AtSurface(vs[i]))
    ensures Count(vs, SkippedIf) == Count(vs, UnderIf)
    decreases |vs|
  {
    if vs != [] {
      SkippedIsUnderIf(vs[..|vs| - 1]);
    }
  }

  /**
   * For switch, while, do, for and for-each the surface and nested counts
   * partition the statements found: both succeed or both fail, no statement
   * is in both, and together they count every statement.
   */
  lemma SurfaceNestedPartition(stmts: seq<Visit>, t: ControlStmt)
    requires t != If
    ensures SurfaceCount(stmts).Success? <==> NestedCount(stmts, t).Success?
    ensures SurfaceCount(stmts).Success? ==>
              SurfaceCount(stmts).value + NestedCount(stmts, t).value == |stmts|
    ensures forall v :: Linked(v) ==> (AtSurface(v) <==> !IsNested(v))
  {
    if SurfaceCount(stmts).Success? {
      SurfaceAndNestedSplit(stmts);
    }
  }

  /**
   * For if statements, the ifs counted at the surface, those counted nested and
   * those numberOfNestedIfIn skips (parent an if, not at the surface) partition
   * the ifs found; when no if under an if sits at the surface, surface plus
   * nested is the number of ifs less those whose parent is an if.
   */
  lemma IfPartition(ifs: seq<Visit>)
    requires SurfaceCount(ifs).Success? && NestedCount(ifs, If).Success?
    ensures SurfaceCount(ifs).value + NestedCount(ifs, If).value + Count(ifs, SkippedIf) == |ifs|
    ensures (forall i :: 0 <= i < |ifs| ==> (UnderIf(ifs[i]) ==> !AtSurface(ifs[i]))) ==>
              SurfaceCount(ifs).value + NestedCount(ifs, If).value == |ifs| - Count(ifs, UnderIf)
  {
    IfThreeWaySplit(ifs);
    if forall i :: 0 <= i < |ifs| ==> (UnderIf(ifs[i]) ==> !AtSurface(ifs[i])) {
      SkippedIsUnderIf(ifs);
    }
  }

  /**
   * A property every parsed Java tree has: a method declaration's only statement
   * child is its body block, so no if statement sits directly under one.
   */
  predicate IfsInBlocks(n: Node)
    decreases n
  {
    (n.kind.MethodDeclaration? ==> forall k :: 0 <= k < |n.children| ==> !n.children[k].kind.IfStmt?) &&
    forall k :: 0 <= k < |n.children| ==> IfsInBlocks(n.children[k])
  }

  /** The visit is not an if statement whose parent is a method declaration. */
  predicate IfNotUnderMethod(v: Visit) {
    v.parent.Some? && v.parent.value.MethodDeclaration? ==> !v.node.kind.IfStmt?
  }

  /** In a well-formed tree no node found below the start is an if under an if at the surface. */
  lemma {:induction false} NoSurfaceIfUnderIf(v: Visit)
    requires IfsInBlocks(v.node) && IfNotUnderMethod(v)
    ensures forall x :: x in FindAll(v)[1..] ==> !(UnderIf(x) && AtSurface(x))
    decreases v.node, 1
  {
    NoSurfaceIfUnderIfIn(v.node.children, Some(v.node.kind), v.parent);
    assert FindAll(v)[1..] == FindAllIn(v.node.children, Some(v.node.kind), v.parent);
  }

  lemma {:induction false} NoSurfaceIfUnderIfIn(cs: seq<Node>, p: Option<Kind>, g: Option<Kind>)
    requires forall k :: 0 <= k < |cs| ==> IfsInBlocks(cs[k])
    requires p.Some? && p.value.MethodDeclaration? ==> forall k :: 0 <= k < |cs| ==> !cs[k].kind.IfStmt?
    requires !(p.Some? && p.value.IfStmt? && g.Some? && g.value.MethodDeclaration?)
    ensures forall x :: x in FindAllIn(cs, p, g) ==> !(UnderIf(x) && AtSurface(x))
    decreases cs, 0
  {
    if cs != [] {
      var first := Visit(cs[0], p, g);
      NoSurfaceIfUnderIf(first);
      NoSurfaceIfUnderIfIn(cs[1..], p, g);
      var w := FindAll(first);
      assert w == [first] + w[1..];
    }
  }

  /**
   * For an attached method declaration of a well-formed tree, surface plus
   * nested ifs is exactly the number of ifs less those whose parent is an if.
   */
  lemma AttachedIfPartition(md: Visit)
    requires md.node.kind.MethodDeclaration? && md.parent.Some? && IfsInBlocks(md.node)
    ensures var ifs := FindAllOf(md, IfStmtClass);
            SurfaceCount(ifs).Success? && NestedCount(ifs, If).Success? &&
            SurfaceCount(ifs).value + NestedCount(ifs, If).value == |ifs| - Count(ifs, UnderIf)
  {
    var ifs := FindAllOf(md, IfStmtClass);
    var all := FindAll(md);
    AttachedCountersSucceed(md, If);
    NoSurfaceIfUnderIf(md);
    OfClassFilters(all, IfStmtClass);
    assert all == [md] + all[1..];
    forall i | 0 <= i < |ifs| ensures UnderIf(ifs[i]) ==> !AtSurface(ifs[i]) {
      assert ifs[i] in all && ifs[i] != md;
      assert ifs[i] in all[1..];
    }
    IfPartition(ifs);
  }

  /** Every if adds one or two to the all-if count, so it bounds surface plus nested ifs. */
  lemma AllIfBounds(ifs: seq<Visit>)
    ensures |ifs| <= AllIfCount(ifs) <= 2 * |ifs|
    ensures SurfaceCount(ifs).Success? && NestedCount(ifs, If).Success? ==>
              SurfaceCount(ifs).value + NestedCount(ifs, If).value <= AllIfCount(ifs)
  {
    CountAtMost(ifs, HasPlainElse);
    if SurfaceCount(ifs).Success? && NestedCount(ifs, If).Success? {
      IfPartition(ifs);
    }
  }

  /**
   * Under a method declaration that has a parent, no counter can throw: every
   * statement found below it has a parent and a parent's parent.
   */
  lemma AttachedCountersSucceed(md: Visit, t: ControlStmt)
    requires md.parent.Some?
    requires !InstanceOf(md.node.kind, ClassOf(t))
    ensures SurfaceCount(FindAllOf(md, ClassOf(t))).Success?
    ensures NestedCount(FindAllOf(md, ClassOf(t)), t).Success?
  {
    var all := FindAll(md);
    FoundBelowHaveParents(md);
    assert all == [md] + all[1..];
    OfClassAppend([md], all[1..], ClassOf(t));
    assert OfClass([md], ClassOf(t)) == [];
    var stmts := FindAllOf(md, ClassOf(t));
    assert stmts == OfClass(all[1..], ClassOf(t));
    OfClassFilters(all[1..], ClassOf(t));
    forall i | 0 <= i < |stmts| ensures Linked(stmts[i]) {
      assert stmts[i] in all[1..];
    }
  }
}

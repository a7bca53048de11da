/**
 * The parsed Java source as the metric engine sees it: an immutable tree of
 * typed nodes, and the pre-order search `findAll` that the engine runs on it.
 * A node found by `findAll` is returned together with what its parent links
 * lead to, which is all the engine ever asks of a parent.
 */
module Ast {
  import opened Wrappers

  /** The operators of a binary expression. */
  datatype BinaryOperator =
    | Or | And | BinaryOr | BinaryAnd | Xor
    | Equals | NotEquals | Less | Greater | LessEquals | GreaterEquals
    | LeftShift | SignedRightShift | UnsignedRightShift
    | Plus | Minus | Multiply | Divide | Remainder

  /** The type of a node, with the attributes of it that the engine reads. */
  datatype Kind =
    | CompilationUnit
    | TypeDeclaration                              // class, interface, enum or record
    | MethodDeclaration(declaration: string)       // getDeclarationAsString(false, false, false)
    | BlockStmt
    | IfStmt(hasElse: bool)                        // when hasElse, the else branch is the last child
    | SwitchStmt
    | WhileStmt
    | DoStmt
    | ForStmt
    | ForEachStmt
    | OtherStmt
    | MethodCallExpr
    | VariableDeclarationExpr
    | BinaryExpr(operator: BinaryOperator)
    | OtherExpr
    | OtherNode

  datatype Node = Node(kind: Kind, children: seq<Node>)

  /** The class token passed to findAll; a node matches the classes it is an instance of. */
  datatype NodeClass =
    | AnyNode
    | AnyStatement
    | AnyExpression
    | MethodDeclarationClass
    | BlockStmtClass
    | IfStmtClass
    | SwitchStmtClass
    | WhileStmtClass
    | DoStmtClass
    | ForStmtClass
    | ForEachStmtClass
    | MethodCallExprClass
    | VariableDeclarationExprClass
    | BinaryExprClass

  predicate IsStatement(k: Kind) {
    k.BlockStmt? || k.IfStmt? || k.SwitchStmt? || k.WhileStmt? || k.DoStmt? ||
    k.ForStmt? || k.ForEachStmt? || k.OtherStmt?
  }

  predicate IsExpression(k: Kind) {
    k.MethodCallExpr? || k.VariableDeclarationExpr? || k.BinaryExpr? || k.OtherExpr?
  }

  /** `instanceof` between a node of kind k and the class c. */
  predicate InstanceOf(k: Kind, c: NodeClass) {
    match c
    case AnyNode => true
    case AnyStatement => IsStatement(k)
    case AnyExpression => IsExpression(k)
    case MethodDeclarationClass => k.MethodDeclaration?
    case BlockStmtClass => k.BlockStmt?
    case IfStmtClass => k.IfStmt?
    case SwitchStmtClass => k.SwitchStmt?
    case WhileStmtClass => k.WhileStmt?
    case DoStmtClass => k.DoStmt?
    case ForStmtClass => k.ForStmt?
    case ForEachStmtClass => k.ForEachStmt?
    case MethodCallExprClass => k.MethodCallExpr?
    case VariableDeclarationExprClass => k.VariableDeclarationExpr?
    case BinaryExprClass => k.BinaryExpr?
  }

  /** IfStmt.getElseStmt(). */
  function ElseStmt(n: Node): Option<Node> {
    if n.kind.IfStmt? && n.kind.hasElse && n.children != [] then Some(n.children[|n.children| - 1])
    else None
  }

  /**
   * A node as findAll returns it: the node, the kind of its parent and the
   * kind of its parent's parent. None stands for a missing parent link
   * (getParentNode() is empty).
   */
  datatype Visit = Visit(node: Node, parent: Option<Kind>, grandparent: Option<Kind>)

  /** Node.walk in pre-order from v: v first, then each child's subtree in order. */
  function FindAll(v: Visit): seq<Visit>
    decreases v.node, 1
  {
    [v] + FindAllIn(v.node.children, Some(v.node.kind), v.parent)
  }

  /** The pre-order walks of the siblings cs, whose parent has kind `parent`. */
  function FindAllIn(cs: seq<Node>, parent: Option<Kind>, grandparent: Option<Kind>): seq<Visit>
    decreases cs, 0
  {
    if cs == [] then []
    else FindAll(Visit(cs[0], parent, grandparent)) + FindAllIn(cs[1..], parent, grandparent)
  }

  /** The visits whose node is an instance of c, in their order. */
  function OfClass(vs: seq<Visit>, c: NodeClass): seq<Visit>
    decreases |vs|
  {
    if vs == [] then []
    else (if InstanceOf(vs[0].node.kind, c) then [vs[0]] else []) + OfClass(vs[1..], c)
  }

  /** findAll(c) keeps only instances of c, each taken from the walk. */
  lemma {:induction false} OfClassFilters(vs: seq<Visit>, c: NodeClass)
    ensures |OfClass(vs, c)| <= |vs|
    ensures forall x :: x in OfClass(vs, c) ==> x in vs && InstanceOf(x.node.kind, c)
    decreases |vs|
  {
    if vs != [] {
      OfClassFilters(vs[1..], c);
    }
  }

  /** Node.findAll(c) from v. */
  function FindAllOf(v: Visit, c: NodeClass): seq<Visit> {
    OfClass(FindAll(v), c)
  }

  /** How many elements of xs satisfy p. */
  function Count<T>(xs: seq<T>, p: T -> bool): nat
    decreases |xs|
  {
    if xs == [] then 0 else Count(xs[..|xs| - 1], p) + (if p(xs[|xs| - 1]) then 1 else 0)
  }

  /** The number of nodes of class c in the tree rooted at n (n included). */
  function CountOf(n: Node, c: NodeClass): nat
    decreases n, 1
  {
    (if InstanceOf(n.kind, c) then 1 else 0) + CountOfIn(n.children, c)
  }

  function CountOfIn(cs: seq<Node>, c: NodeClass): nat
    decreases cs, 0
  {
    if cs == [] then 0 else CountOf(cs[0], c) + CountOfIn(cs[1..], c)
  }

  lemma {:induction false} OfClassAppend(a: seq<Visit>, b: seq<Visit>, c: NodeClass)
    ensures OfClass(a + b, c) == OfClass(a, c) + OfClass(b, c)
    decreases |a|
  {
    if a == [] {
      assert a + b == b;
    } else {
      assert (a + b)[0] == a[0] && (a + b)[1..] == a[1..] + b;
      OfClassAppend(a[1..], b, c);
      if InstanceOf(a[0].node.kind, c) {
        assert OfClass(a + b, c) == [a[0]] + OfClass(a[1..] + b, c);
        assert OfClass(a, c) == [a[0]] + OfClass(a[1..], c);
      } else {
        assert OfClass(a + b, c) == OfClass(a[1..] + b, c);
        assert OfClass(a, c) == OfClass(a[1..], c);
      }
    }
  }

  /** Counting one more element of xs. */
  lemma CountPrefixStep<T>(xs: seq<T>, i: int, p: T -> bool)
    requires 0 <= i < |xs|
    ensures Count(xs[..i + 1], p) == Count(xs[..i], p) + (if p(xs[i]) then 1 else 0)
  {
    assert xs[..i + 1][..i] == xs[..i];
  }

  lemma {:induction false} CountAtMost<T>(xs: seq<T>, p: T -> bool)
    ensures Count(xs, p) <= |xs|
    decreases |xs|
  {
    if xs != [] {
      CountAtMost(xs[..|xs| - 1], p);
    }
  }

  /** Counting along the pre-order walk agrees with counting over the tree. */
  lemma {:induction false} FindAllOfCount(v: Visit, c: NodeClass)
    ensures |FindAllOf(v, c)| == CountOf(v.node, c)
    decreases v.node, 1
  {
    FindAllInOfCount(v.node.children, Some(v.node.kind), v.parent, c);
    OfClassAppend([v], FindAllIn(v.node.children, Some(v.node.kind), v.parent), c);
  }

  lemma {:induction false} FindAllInOfCount(cs: seq<Node>, p: Option<Kind>, g: Option<Kind>, c: NodeClass)
    ensures |OfClass(FindAllIn(cs, p, g), c)| == CountOfIn(cs, c)
    decreases cs, 0
  {
    if cs != [] {
      FindAllOfCount(Visit(cs[0], p, g), c);
      FindAllInOfCount(cs[1..], p, g, c);
      OfClassAppend(FindAll(Visit(cs[0], p, g)), FindAllIn(cs[1..], p, g), c);
    }
  }

  /**
   * Below a node whose parent link exists, every node found has a parent, and
   * a parent's parent: the parent-link lookups of the counters cannot fail there.
   */
  lemma {:induction false} FoundBelowHaveParents(v: Visit)
    requires v.parent.Some?
    ensures forall x :: x in FindAll(v)[1..] ==> x.parent.Some? && x.grandparent.Some?
    decreases v.node, 1
  {
    FoundInHaveParents(v.node.children, Some(v.node.kind), v.parent);
    assert FindAll(v)[1..] == FindAllIn(v.node.children, Some(v.node.kind), v.parent);
  }

  lemma {:induction false} FoundInHaveParents(cs: seq<Node>, p: Option<Kind>, g: Option<Kind>)
    requires p.Some?
    ensures forall x :: x in FindAllIn(cs, p, g) ==> x.parent.Some?
    ensures g.Some? ==> forall x :: x in FindAllIn(cs, p, g) ==> x.grandparent.Some?
    decreases cs, 0
  {
    if cs != [] {
      FoundBelowHaveParents(Visit(cs[0], p, g));
      FoundInHaveParents(cs[1..], p, g);
      var w := FindAll(Visit(cs[0], p, g));
      assert w == [w[0]] + w[1..];
    }
  }

  /** Every node findAll returns after its start node has a parent link. */
  lemma {:induction false} FoundAfterStartHaveParent(v: Visit)
    ensures forall x :: x in FindAll(v)[1..] ==> x.parent.Some?
  {
    FoundInHaveParents(v.node.children, Some(v.node.kind), v.parent);
    assert FindAll(v)[1..] == FindAllIn(v.node.children, Some(v.node.kind), v.parent);
  }
}

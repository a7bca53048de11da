/**
 * Small methods written out as trees, with the counts the extractor gives
 * them. They show how the surface/nested classification treats braces,
 * else-if chains and loops.
 */
module Scenarios {
  import opened Wrappers
  import opened Ast
  import opened StatementCounts
  import opened GinRunner

  /** The nodes of class c found below the siblings cs. */
  function FindAllOfIn(cs: seq<Node>, parent: Option<Kind>, grandparent: Option<Kind>, c: NodeClass): seq<Visit> {
    OfClass(FindAllIn(cs, parent, grandparent), c)
  }

  lemma Step(v: Visit, c: NodeClass)
    ensures FindAllOf(v, c) ==
              (if InstanceOf(v.node.kind, c) then [v] else []) +
              FindAllOfIn(v.node.children, Some(v.node.kind), v.parent, c)
  {
    OfClassAppend([v], FindAllIn(v.node.children, Some(v.node.kind), v.parent), c);
  }

  lemma StepIn(cs: seq<Node>, p: Option<Kind>, g: Option<Kind>, c: NodeClass)
    ensures cs == [] ==> FindAllOfIn(cs, p, g, c) == []
    ensures cs != [] ==> FindAllOfIn(cs, p, g, c) == FindAllOf(Visit(cs[0], p, g), c) + FindAllOfIn(cs[1..], p, g, c)
  {
    if cs != [] {
      OfClassAppend(FindAll(Visit(cs[0], p, g)), FindAllIn(cs[1..], p, g), c);
    }
  }

  /** A node with no children contributes itself, or nothing. */
  lemma Leaf(n: Node, p: Option<Kind>, g: Option<Kind>, c: NodeClass)
    requires n.children == []
    ensures FindAllOf(Visit(n, p, g), c) == if InstanceOf(n.kind, c) then [Visit(n, p, g)] else []
  {
    Step(Visit(n, p, g), c);
    StepIn(n.children, Some(n.kind), p, c);
  }

  lemma Two(a: Node, b: Node, p: Option<Kind>, g: Option<Kind>, c: NodeClass)
    ensures FindAllOfIn([a, b], p, g, c) == FindAllOf(Visit(a, p, g), c) + FindAllOf(Visit(b, p, g), c)
  {
    StepIn([a, b], p, g, c);
    StepIn([b], p, g, c);
    StepIn([], p, g, c);
  }

  lemma Three(a: Node, b: Node, d: Node, p: Option<Kind>, g: Option<Kind>, c: NodeClass)
    ensures FindAllOfIn([a, b, d], p, g, c) ==
              FindAllOf(Visit(a, p, g), c) + FindAllOf(Visit(b, p, g), c) + FindAllOf(Visit(d, p, g), c)
  {
    StepIn([a, b, d], p, g, c);
    assert [a, b, d][1..] == [b, d];
    Two(b, d, p, g, c);
  }

  lemma One(a: Node, p: Option<Kind>, g: Option<Kind>, c: NodeClass)
    ensures FindAllOfIn([a], p, g, c) == FindAllOf(Visit(a, p, g), c)
  {
    StepIn([a], p, g, c);
    StepIn([], p, g, c);
  }

  /** A leaf condition expression, and an empty block standing for a branch or loop body. */
  predicate Blank(cond: Node, block: Node) {
    IsExpression(cond.kind) && cond.children == [] && block.kind.BlockStmt? && block.children == []
  }

  lemma CountTwo<T>(x: T, y: T, p: T -> bool)
    ensures Count([x, y], p) == (if p(x) then 1 else 0) + (if p(y) then 1 else 0)
  {
    assert [x, y][..1] == [x];
    assert [x][..0] == [];
    assert Count([x], p) == if p(x) then 1 else 0;
  }

  lemma CountOne<T>(x: T, p: T -> bool)
    ensures Count([x], p) == if p(x) then 1 else 0
  {
    assert [x][..0] == [];
  }

  const Declaration: Kind := MethodDeclaration("void m()")

  /** `void m() { body }` declared in a class of a compilation unit. */
  function MethodWithBody(body: seq<Node>): Visit {
    Visit(Node(Declaration, [Node(BlockStmt, body)]), Some(TypeDeclaration), Some(CompilationUnit))
  }

  /** The statements of class c in a method whose body is the single statement s. */
  lemma InMethod(s: Node, c: NodeClass)
    requires !InstanceOf(BlockStmt, c) && !InstanceOf(Declaration, c)
    ensures FindAllOf(MethodWithBody([s]), c) == FindAllOf(Visit(s, Some(BlockStmt), Some(Declaration)), c)
  {
    var md := MethodWithBody([s]);
    var body := Node(BlockStmt, [s]);
    Step(md, c);
    One(body, Some(Declaration), Some(TypeDeclaration), c);
    Step(Visit(body, Some(Declaration), Some(TypeDeclaration)), c);
    One(s, Some(BlockStmt), Some(Declaration), c);
  }

  /** An if whose children are leaves with no if among them is the only if it contains. */
  lemma LeafIf(n: Node, p: Option<Kind>, g: Option<Kind>)
    requires n.kind.IfStmt? && 2 <= |n.children| <= 3
    requires forall i :: 0 <= i < |n.children| ==> n.children[i].children == [] && !n.children[i].kind.IfStmt?
    ensures FindAllOf(Visit(n, p, g), IfStmtClass) == [Visit(n, p, g)]
  {
    var c := IfStmtClass;
    var cs := n.children;
    forall i | 0 <= i < |cs| ensures FindAllOf(Visit(cs[i], Some(n.kind), p), c) == [] {
      Leaf(cs[i], Some(n.kind), p, c);
    }
    Step(Visit(n, p, g), c);
    if |cs| == 2 {
      assert cs == [cs[0], cs[1]];
      Two(cs[0], cs[1], Some(n.kind), p, c);
    } else {
      assert cs == [cs[0], cs[1], cs[2]];
      Three(cs[0], cs[1], cs[2], Some(n.kind), p, c);
    }
  }

  /** The ifs of `void m() { if (a) { if (b) { } } else { } }`, in pre-order. */
  lemma BracedIfs(cond: Node, block: Node)
    requires Blank(cond, block)
    ensures var inner := Node(IfStmt(false), [cond, block]);
            var outer := Node(IfStmt(true), [cond, Node(BlockStmt, [inner]), block]);
            FindAllOf(MethodWithBody([outer]), IfStmtClass) ==
              [Visit(outer, Some(BlockStmt), Some(Declaration)), Visit(inner, Some(BlockStmt), Some(outer.kind))]
  {
    var c := IfStmtClass;
    var inner := Node(IfStmt(false), [cond, block]);
    var thenBlock := Node(BlockStmt, [inner]);
    var outer := Node(IfStmt(true), [cond, thenBlock, block]);
    var innerV := Visit(inner, Some(BlockStmt), Some(outer.kind));
    var outerV := Visit(outer, Some(BlockStmt), Some(Declaration));
    var thenV := Visit(thenBlock, Some(outer.kind), Some(BlockStmt));
    var p, g := Some(outer.kind), Some(BlockStmt);
    LeafIf(inner, Some(BlockStmt), Some(outer.kind));
    assert FindAllOf(innerV, c) == [innerV];
    Step(thenV, c);
    One(inner, Some(BlockStmt), Some(outer.kind), c);
    assert FindAllOf(thenV, c) == [innerV];
    Leaf(cond, p, g, c);
    Leaf(block, p, g, c);
    assert FindAllOf(Visit(cond, p, g), c) == [];
    assert FindAllOf(Visit(block, p, g), c) == [];
    Three(cond, thenBlock, block, p, g, c);
    assert outer.children == [cond, thenBlock, block];
    assert FindAllOfIn(outer.children, p, g, c) == [innerV];
    Step(outerV, c);
    assert FindAllOf(outerV, c) == [outerV, innerV];
    InMethod(outer, c);
  }

  /** `void m() { if (a) { if (b) { } } else { } }`: the inner if is nested, and the plain else adds one. */
  lemma BracedInnerIfIsNested(cond: Node, block: Node)
    requires Blank(cond, block)
    ensures var inner := Node(IfStmt(false), [cond, block]);
            var md := MethodWithBody([Node(IfStmt(true), [cond, Node(BlockStmt, [inner]), block])]);
            KindCounts(md, If) == Success((1, 1)) && AllIfCount(FindAllOf(md, IfStmtClass)) == 3
  {
    var inner := Node(IfStmt(false), [cond, block]);
    var outer := Node(IfStmt(true), [cond, Node(BlockStmt, [inner]), block]);
    var outerV := Visit(outer, Some(BlockStmt), Some(Declaration));
    var innerV := Visit(inner, Some(BlockStmt), Some(outer.kind));
    BracedIfs(cond, block);
    CountTwo(outerV, innerV, AtSurface);
    CountTwo(outerV, innerV, CountedAsNestedIf);
    CountTwo(outerV, innerV, HasPlainElse);
  }

  /** The ifs of `void m() { if (a) if (b) { } }`, in pre-order. */
  lemma UnbracedIfs(cond: Node, block: Node)
    requires Blank(cond, block)
    ensures var inner := Node(IfStmt(false), [cond, block]);
            var outer := Node(IfStmt(false), [cond, inner]);
            FindAllOf(MethodWithBody([outer]), IfStmtClass) ==
              [Visit(outer, Some(BlockStmt), Some(Declaration)), Visit(inner, Some(outer.kind), Some(BlockStmt))]
  {
    var c := IfStmtClass;
    var inner := Node(IfStmt(false), [cond, block]);
    var outer := Node(IfStmt(false), [cond, inner]);
    LeafIf(inner, Some(outer.kind), Some(BlockStmt));
    Leaf(cond, Some(outer.kind), Some(BlockStmt), c);
    Step(Visit(outer, Some(BlockStmt), Some(Declaration)), c);
    Two(cond, inner, Some(outer.kind), Some(BlockStmt), c);
    InMethod(outer, c);
  }

  /**
   * `void m() { if (a) if (b) { } }`: without braces the inner if's parent is
   * the outer if, so numberOfNestedIfIn skips it as it skips an else-if link,
   * and it is counted neither at the surface nor nested.
   */
  lemma UnbracedInnerIfIsSkipped(cond: Node, block: Node)
    requires Blank(cond, block)
    ensures var inner := Node(IfStmt(false), [cond, block]);
            var md := MethodWithBody([Node(IfStmt(false), [cond, inner])]);
            KindCounts(md, If) == Success((1, 0)) && AllIfCount(FindAllOf(md, IfStmtClass)) == 2
  {
    var inner := Node(IfStmt(false), [cond, block]);
    var outer := Node(IfStmt(false), [cond, inner]);
    var outerV := Visit(outer, Some(BlockStmt), Some(Declaration));
    var innerV := Visit(inner, Some(outer.kind), Some(BlockStmt));
    UnbracedIfs(cond, block);
    CountTwo(outerV, innerV, AtSurface);
    CountTwo(outerV, innerV, CountedAsNestedIf);
    CountTwo(outerV, innerV, HasPlainElse);
  }

  /** The ifs of `void m() { if (a) { } else if (b) { } else { } }`, in pre-order. */
  lemma ElseIfs(cond: Node, block: Node)
    requires Blank(cond, block)
    ensures var inner := Node(IfStmt(true), [cond, block, block]);
            var outer := Node(IfStmt(true), [cond, block, inner]);
            FindAllOf(MethodWithBody([outer]), IfStmtClass) ==
              [Visit(outer, Some(BlockStmt), Some(Declaration)), Visit(inner, Some(outer.kind), Some(BlockStmt))]
  {
    var c := IfStmtClass;
    var inner := Node(IfStmt(true), [cond, block, block]);
    var outer := Node(IfStmt(true), [cond, block, inner]);
    LeafIf(inner, Some(outer.kind), Some(BlockStmt));
    Leaf(cond, Some(outer.kind), Some(BlockStmt), c);
    Leaf(block, Some(outer.kind), Some(BlockStmt), c);
    var outerV := Visit(outer, Some(BlockStmt), Some(Declaration));
    var innerV := Visit(inner, Some(outer.kind), Some(BlockStmt));
    var p, g := Some(outer.kind), Some(BlockStmt);
    assert FindAllOf(Visit(cond, p, g), c) == [];
    assert FindAllOf(Visit(block, p, g), c) == [];
    assert FindAllOf(innerV, c) == [innerV];
    Three(cond, block, inner, p, g, c);
    assert outer.children == [cond, block, inner];
    assert FindAllOfIn(outer.children, Some(outer.kind), Some(BlockStmt), c) == [innerV];
    Step(outerV, c);
    assert FindAllOf(outerV, c) == [outerV, innerV];
    InMethod(outer, c);
  }

  /**
   * `void m() { if (a) { } else if (b) { } else { } }`: the else-if link is
   * skipped, and the chain counts two ifs and one plain else.
   */
  lemma ElseIfChain(cond: Node, block: Node)
    requires Blank(cond, block)
    ensures var inner := Node(IfStmt(true), [cond, block, block]);
            var md := MethodWithBody([Node(IfStmt(true), [cond, block, inner])]);
            KindCounts(md, If) == Success((1, 0)) && AllIfCount(FindAllOf(md, IfStmtClass)) == 3
  {
    var inner := Node(IfStmt(true), [cond, block, block]);
    var outer := Node(IfStmt(true), [cond, block, inner]);
    var outerV := Visit(outer, Some(BlockStmt), Some(Declaration));
    var innerV := Visit(inner, Some(outer.kind), Some(BlockStmt));
    ElseIfs(cond, block);
    CountTwo(outerV, innerV, AtSurface);
    CountTwo(outerV, innerV, CountedAsNestedIf);
    CountTwo(outerV, innerV, HasPlainElse);
  }

  /** The loops of class c in `void m() { for (;;) { while (a) { } } }`. */
  lemma Loops(cond: Node, block: Node, c: NodeClass)
    requires Blank(cond, block)
    requires c == ForStmtClass || c == WhileStmtClass
    ensures var whileLoop := Node(WhileStmt, [cond, block]);
            var loopBody := Node(BlockStmt, [whileLoop]);
            var forLoop := Node(ForStmt, [loopBody]);
            FindAllOf(MethodWithBody([forLoop]), c) ==
              if c == ForStmtClass then [Visit(forLoop, Some(BlockStmt), Some(Declaration))]
              else [Visit(whileLoop, Some(BlockStmt), Some(ForStmt))]
  {
    var whileLoop := Node(WhileStmt, [cond, block]);
    var loopBody := Node(BlockStmt, [whileLoop]);
    var forLoop := Node(ForStmt, [loopBody]);
    Leaf(cond, Some(WhileStmt), Some(BlockStmt), c);
    Leaf(block, Some(WhileStmt), Some(BlockStmt), c);
    Step(Visit(whileLoop, Some(BlockStmt), Some(ForStmt)), c);
    Two(cond, block, Some(WhileStmt), Some(BlockStmt), c);
    Step(Visit(loopBody, Some(ForStmt), Some(BlockStmt)), c);
    One(whileLoop, Some(BlockStmt), Some(ForStmt), c);
    Step(Visit(forLoop, Some(BlockStmt), Some(Declaration)), c);
    One(loopBody, Some(ForStmt), Some(BlockStmt), c);
    InMethod(forLoop, c);
  }

  /** The counts of kind t when findAll finds a single, linked statement of that kind. */
  lemma SingleKindCounts(md: Visit, t: ControlStmt, v: Visit)
    requires t != If
    requires FindAllOf(md, ClassOf(t)) == [v] && Linked(v)
    ensures KindCounts(md, t) == Success(if AtSurface(v) then (1, 0) else (0, 1))
  {
    CountOne(v, AtSurface);
    CountOne(v, IsNested);
  }

  /** `void m() { for (;;) { while (a) { } } }`: the for loop is at the surface, the while loop nested. */
  lemma LoopInLoop(cond: Node, block: Node)
    requires Blank(cond, block)
    ensures var md := MethodWithBody([Node(ForStmt, [Node(BlockStmt, [Node(WhileStmt, [cond, block])])])]);
            KindCounts(md, For) == Success((1, 0)) && KindCounts(md, While) == Success((0, 1))
  {
    var whileLoop := Node(WhileStmt, [cond, block]);
    var forLoop := Node(ForStmt, [Node(BlockStmt, [whileLoop])]);
    var md := MethodWithBody([forLoop]);
    Loops(cond, block, ForStmtClass);
    SingleKindCounts(md, For, Visit(forLoop, Some(BlockStmt), Some(Declaration)));
    Loops(cond, block, WhileStmtClass);
    SingleKindCounts(md, While, Visit(whileLoop, Some(BlockStmt), Some(ForStmt)));
  }
}

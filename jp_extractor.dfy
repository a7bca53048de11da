/**
 * The metric extractor: a wrapper around one parsed compilation unit that
 * counts control-flow statements, calls, local variables and logical
 * operators in a method, and finds a method's declaration by its signature.
 */
module JPUtils {
  import opened Wrappers
  import opened JavaStrings
  import opened Ast
  import opened StatementCounts
  import opened MethodLocator

  /**
   * The check both file-path entry points make before parsing: the trimmed
   * path, or IllegalArgumentException when nothing is left once trimmed.
   */
  function CheckedPath(filePath: string): (r: Result<string>)
    ensures r.Failure? <==> forall j :: 0 <= j < |filePath| ==> IsTrimmed(filePath[j])
    ensures r.Failure? ==> r.error == IllegalArgument
    ensures r.Success? ==> r.value == Trim(filePath) && r.value != [] &&
                           !IsTrimmed(r.value[0]) && !IsTrimmed(r.value[|r.value| - 1])
  {
    TrimEmpty(filePath);
    var path := Trim(filePath);
    if path == [] then Failure(IllegalArgument) else Success(path)
  }

  /** The compilation unit a file path yields: the path is checked, then parsed. */
  function Load(filePath: string, parse: string -> Result<Node>): (r: Result<Node>)
    ensures CheckedPath(filePath).Failure? ==> r == Failure(IllegalArgument)
    ensures CheckedPath(filePath).Success? ==> r == parse(Trim(filePath))
  {
    var path :- CheckedPath(filePath);
    parse(path)
  }

  class JPExtractor {
    var compilationUnit: Node

    /** JPExtractor(CompilationUnit). */
    constructor (compilationUnit: Node)
      ensures this.compilationUnit == compilationUnit
    {
      this.compilationUnit := compilationUnit;
    }

    /** JPExtractor(String): the parser is the parameter `parse`. */
    static method FromFilePath(filePath: string, parse: string -> Result<Node>) returns (r: Result<JPExtractor>)
      ensures r.Failure? <==> Load(filePath, parse).Failure?
      ensures r.Failure? ==> r.error == Load(filePath, parse).error
      ensures r.Success? ==> fresh(r.value) && r.value.compilationUnit == Load(filePath, parse).value
    {
      var path := Trim(filePath);
      if path == [] {
        return Failure(IllegalArgument);
      }
      var unit := parse(path);
      if unit.Failure? {
        return Failure(unit.error);
      }
      var extractor := new JPExtractor(unit.value);
      return Success(extractor);
    }

    /** setCompilationUnit(CompilationUnit). */
    method SetCompilationUnit(compilationUnit: Node)
      modifies this
      ensures this.compilationUnit == compilationUnit
    {
      this.compilationUnit := compilationUnit;
    }

    /** setCompilationUnit(String): on an exception the extractor keeps its unit. */
    method SetCompilationUnitFromFilePath(filePath: string, parse: string -> Result<Node>) returns (r: Outcome)
      modifies this
      ensures Load(filePath, parse).Success? ==> r == Pass && compilationUnit == Load(filePath, parse).value
      ensures Load(filePath, parse).Failure? ==>
                r == Fail(Load(filePath, parse).error) && compilationUnit == old(compilationUnit)
    {
      var path := Trim(filePath);
      if path == [] {
        return Fail(IllegalArgument);
      }
      var unit := parse(path);
      if unit.Failure? {
        return Fail(unit.error);
      }
      compilationUnit := unit.value;
      return Pass;
    }

    /**
     * numberOfAllIfIn: every if found under the method, plus one for each else
     * branch that is not itself an if; so between one and two per if.
     */
    method NumberOfAllIfIn(md: Visit) returns (r: nat)
      requires md.node.kind.MethodDeclaration?
      ensures r == AllIfCount(FindAllOf(md, IfStmtClass))
      ensures CountOf(md.node, IfStmtClass) <= r <= 2 * CountOf(md.node, IfStmtClass)
    {
      var ifStmts := FindAllOf(md, IfStmtClass);
      r := 0;
      var i := 0;
      while i < |ifStmts|
        invariant 0 <= i <= |ifStmts|
        invariant r == AllIfCount(ifStmts[..i])
      {
        var ifStmt := ifStmts[i];
        r := r + 1;
        var elseStmt := ElseStmt(ifStmt.node);
        if elseStmt.Some? {
          if !elseStmt.value.kind.IfStmt? {
            r := r + 1;
          }
        }
        CountPrefixStep(ifStmts, i, HasPlainElse);
        i := i + 1;
      }
      assert ifStmts[..i] == ifStmts;
      AllIfBounds(ifStmts);
      FindAllOfCount(md, IfStmtClass);
    }

    /**
     * numberOfSurface{If,Switch,While,Do,For,ForEach}In: the statements of kind t
     * whose parent's parent is a method declaration; NoSuchElementException when
     * a statement or its parent has no parent.
     */
    method NumberOfSurfaceIn(md: Visit, t: ControlStmt) returns (r: Result<nat>)
      requires md.node.kind.MethodDeclaration?
      ensures r == SurfaceCount(FindAllOf(md, ClassOf(t)))
    {
      var stmts := FindAllOf(md, ClassOf(t));
      var n := 0;
      var i := 0;
      while i < |stmts|
        invariant 0 <= i <= |stmts|
        invariant forall j :: 0 <= j < i ==> Linked(stmts[j])
        invariant n == Count(stmts[..i], AtSurface)
      {
        var stmt := stmts[i];
        if stmt.parent.None? || stmt.grandparent.None? {
          return Failure(NoSuchElement);
        }
        if stmt.grandparent.value.MethodDeclaration? {
          n := n + 1;
        }
        CountPrefixStep(stmts, i, AtSurface);
        i := i + 1;
      }
      assert stmts[..i] == stmts;
      return Success(n);
    }

    /**
     * numberOfNested{Switch,While,Do,For,ForEach}In: the statements of kind t
     * whose parent's parent is not a method declaration.
     */
    method NumberOfNestedIn(md: Visit, t: ControlStmt) returns (r: Result<nat>)
      requires md.node.kind.MethodDeclaration?
      requires t != If
      ensures r == NestedCount(FindAllOf(md, ClassOf(t)), t)
    {
      var stmts := FindAllOf(md, ClassOf(t));
      var n := 0;
      var i := 0;
      while i < |stmts|
        invariant 0 <= i <= |stmts|
        invariant forall j :: 0 <= j < i ==> Linked(stmts[j])
        invariant n == Count(stmts[..i], IsNested)
      {
        var stmt := stmts[i];
        if stmt.parent.None? || stmt.grandparent.None? {
          assert !Linked(stmts[i]);
          return Failure(NoSuchElement);
        }
        if !stmt.grandparent.value.MethodDeclaration? {
          n := n + 1;
        }
        CountPrefixStep(stmts, i, IsNested);
        assert Count(stmts[..i + 1], IsNested) == n;
        i := i + 1;
      }
      assert stmts[..i] == stmts;
      assert forall j :: 0 <= j < |stmts| ==> Linked(stmts[j]);
      return Success(n);
    }

    /**
     * numberOfNestedIfIn: an if whose parent is an if is skipped before its
     * parent's parent is looked up; the others count when that node is not a
     * method declaration.
     */
    method NumberOfNestedIfIn(md: Visit) returns (r: Result<nat>)
      requires md.node.kind.MethodDeclaration?
      ensures r == NestedCount(FindAllOf(md, IfStmtClass), If)
    {
      var ifStmts := FindAllOf(md, IfStmtClass);
      var n := 0;
      var i := 0;
      while i < |ifStmts|
        invariant 0 <= i <= |ifStmts|
        invariant forall j :: 0 <= j < i ==> NestedIfLinked(ifStmts[j])
        invariant n == Count(ifStmts[..i], CountedAsNestedIf)
      {
        var ifStmt := ifStmts[i];
        if ifStmt.parent.None? {
          assert !NestedIfLinked(ifStmts[i]);
          return Failure(NoSuchElement);
        }
        if !ifStmt.parent.value.IfStmt? {
          if ifStmt.grandparent.None? {
            assert !NestedIfLinked(ifStmts[i]);
            return Failure(NoSuchElement);
          }
          if !ifStmt.grandparent.value.MethodDeclaration? {
            n := n + 1;
          }
        }
        CountPrefixStep(ifStmts, i, CountedAsNestedIf);
        i := i + 1;
      }
      assert ifStmts[..i] == ifStmts;
      return Success(n);
    }

    /** numberOfMethodCallsIn: the method call expressions in the method's subtree. */
    function NumberOfMethodCallsIn(md: Visit): (r: nat)
      ensures r == CountOf(md.node, MethodCallExprClass)
    {
      FindAllOfCount(md, MethodCallExprClass);
      |FindAllOf(md, MethodCallExprClass)|
    }

    /** numberOfLocalVariablesIn: the variable declaration expressions in the method's subtree. */
    function NumberOfLocalVariablesIn(md: Visit): (r: nat)
      ensures r == CountOf(md.node, VariableDeclarationExprClass)
    {
      FindAllOfCount(md, VariableDeclarationExprClass);
      |FindAllOf(md, VariableDeclarationExprClass)|
    }

    /**
     * numberOfLogicalOperatorsIn: the binary expressions whose operator is one
     * of &&, ||, ^, & and |; never more than the binary expressions of the method.
     */
    method NumberOfLogicalOperatorsIn(md: Visit) returns (r: nat)
      requires md.node.kind.MethodDeclaration?
      ensures r == Count(FindAllOf(md, BinaryExprClass), IsLogicalExpr)
      ensures r <= CountOf(md.node, BinaryExprClass)
    {
      var binaryExprs := FindAllOf(md, BinaryExprClass);
      r := 0;
      var i := 0;
      while i < |binaryExprs|
        invariant 0 <= i <= |binaryExprs|
        invariant r == Count(binaryExprs[..i], IsLogicalExpr)
      {
        var binaryExpr := binaryExprs[i];
        var isLogicalOperator := binaryExpr.node.kind.BinaryExpr? &&
          var op := binaryExpr.node.kind.operator;
          op == And || op == Or || op == Xor || op == BinaryAnd || op == BinaryOr;
        assert isLogicalOperator == IsLogicalExpr(binaryExpr);
        if isLogicalOperator {
          r := r + 1;
        }
        CountPrefixStep(binaryExprs, i, IsLogicalExpr);
        i := i + 1;
      }
      assert binaryExprs[..i] == binaryExprs;
      CountAtMost(binaryExprs, IsLogicalExpr);
      FindAllOfCount(md, BinaryExprClass);
    }

    /** numberOfAllByType: the nodes of class c anywhere in the compilation unit. */
    function NumberOfAllByType(c: NodeClass): (r: nat)
      reads this
      ensures r == CountOf(compilationUnit, c)
    {
      FindAllOfCount(Visit(compilationUnit, None, None), c);
      |FindAllOf(Visit(compilationUnit, None, None), c)|
    }

    /**
     * hasMethod: true at the first declaration whose reduced form occurs in
     * methodName; the reduction of a declaration before it may throw.
     */
    method HasMethod(methodName: string) returns (r: Result<bool>)
      ensures r == HasMatch(compilationUnit, methodName)
    {
      var declarations := MethodDeclarations(compilationUnit);
      var i := 0;
      assert declarations[i..] == declarations;
      while i < |declarations|
        invariant 0 <= i <= |declarations|
        invariant FirstMatch(declarations[i..], Reduce, methodName) == FirstMatch(declarations, Reduce, methodName)
      {
        var declarationString := Normalised(DeclarationOf(declarations[i]));
        assert declarations[i..][1..] == declarations[i + 1..];
        if declarationString.Failure? {
          return Failure(declarationString.error);
        }
        if Contains(methodName, declarationString.value) {
          return Success(true);
        }
        i := i + 1;
      }
      return Success(false);
    }

    /**
     * findMethodDeclarationNode: the last declaration whose reduced form occurs
     * in methodName, or a fresh parentless declaration when there is none.
     */
    method FindMethodDeclarationNode(methodName: string) returns (r: Result<Visit>)
      ensures r == Locate(compilationUnit, methodName)
    {
      var declarations := MethodDeclarations(compilationUnit);
      var target := PlaceholderDeclaration();
      ghost var found: Option<Visit> := None;
      var i := 0;
      while i < |declarations|
        invariant 0 <= i <= |declarations|
        invariant LastMatch(declarations[..i], Reduce, methodName) == Success(found)
        invariant target == if found.Some? then found.value else PlaceholderDeclaration()
      {
        var md := declarations[i];
        LastMatchStep(declarations[..i + 1], Reduce, methodName);
        assert declarations[..i + 1][..i] == declarations[..i];
        var declarationString := Normalised(DeclarationOf(md));
        if declarationString.Failure? {
          LastMatchFailureSticks(declarations, Reduce, methodName, i + 1);
          return Failure(declarationString.error);
        }
        if Contains(methodName, declarationString.value) {
          target := md;
          found := Some(md);
        }
        i := i + 1;
      }
      assert declarations[..i] == declarations;
      return Success(target);
    }
  }
}

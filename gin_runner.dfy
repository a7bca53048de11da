/**
 * The driver that measures methods of the case-study projects: it picks the
 * project a method signature belongs to, derives the path of the source file
 * that declares it, and turns the extractor's counts for the method into one
 * row of the metrics CSV.
 */
module GinRunner {
  import opened Wrappers
  import opened JavaStrings
  import opened Ast
  import opened StatementCounts
  import opened MethodLocator
  import opened JPUtils

  /** The case-study projects, in catalog order; the roots of their sources are a parameter. */
  const GithubProjects: seq<string> :=
    ["arthas", "disruptor", "druid", "gson", "jcodec", "junit", "ibatis", "opennlp", "spark", "spatial4j"]

  /**
   * getProjectIndex: the first project whose name occurs in the signature, or
   * -1 when none does.
   */
  method GetProjectIndex(signature: string) returns (r: int)
    ensures -1 <= r < |GithubProjects|
    ensures r >= 0 ==> Contains(signature, GithubProjects[r])
    ensures forall j :: 0 <= j < |GithubProjects| && (r < 0 || j < r) ==> !Contains(signature, GithubProjects[j])
  {
    var i := 0;
    while i < |GithubProjects|
      invariant 0 <= i <= |GithubProjects|
      invariant forall j :: 0 <= j < i ==> !Contains(signature, GithubProjects[j])
    {
      if Contains(signature, GithubProjects[i]) {
        return i;
      }
      i := i + 1;
    }
    return -1;
  }

  /**
   * The source file of a method: the project's root, then the qualified name
   * before the last '(' cut at its last '.', with '.' replaced by '/', then
   * ".java". A missing '(' or '.' makes substring throw, and so does an index
   * outside the roots; the exceptions come in the order the expression
   * evaluates.
   */
  function SourcePath(projectRoots: seq<string>, signature: string, projectIndex: int): Result<string> {
    var open := LastIndexOf(signature, '(');
    if open < 0 then Failure(StringIndexOutOfBounds)
    else
      var qualifiedName := signature[..open];
      if !(0 <= projectIndex < |projectRoots|) then Failure(ArrayIndexOutOfBounds)
      else
        var dot := LastIndexOf(qualifiedName, '.');
        if dot < 0 then Failure(StringIndexOutOfBounds)
        else Success(projectRoots[projectIndex] + ReplaceChar(qualifiedName[..dot], '.', '/') + ".java")
  }

  /** Which exception the path derivation throws. */
  lemma SourcePathFailures(projectRoots: seq<string>, signature: string, projectIndex: int)
    ensures '(' !in signature ==> SourcePath(projectRoots, signature, projectIndex) == Failure(StringIndexOutOfBounds)
    ensures '(' in signature && !(0 <= projectIndex < |projectRoots|) ==>
              SourcePath(projectRoots, signature, projectIndex) == Failure(ArrayIndexOutOfBounds)
    ensures '.' !in signature ==> SourcePath(projectRoots, signature, projectIndex).Failure?
    ensures '(' in signature && 0 <= projectIndex < |projectRoots| &&
            '.' !in signature[..LastIndexOf(signature, '(')] ==>
              SourcePath(projectRoots, signature, projectIndex) == Failure(StringIndexOutOfBounds)
    ensures SourcePath(projectRoots, signature, projectIndex).Success? ==>
              '(' in signature && '.' in signature && 0 <= projectIndex < |projectRoots|
  {
    var open := LastIndexOf(signature, '(');
    if open >= 0 {
      var qualifiedName := signature[..open];
      var dot := LastIndexOf(qualifiedName, '.');
      if dot >= 0 {
        assert signature[dot] == qualifiedName[dot];
      }
    }
  }

  /** A sequence is what comes before index k, the element at k, and what follows. */
  lemma CutAt<T>(s: seq<T>, k: int)
    requires 0 <= k < |s|
    ensures s == s[..k] + [s[k]] + s[k + 1..]
  {
  }

  /** A signature cut at its last '(' and, before that, at its last '.'. */
  lemma SignatureParts(signature: string, open: int, dot: int)
    requires open == LastIndexOf(signature, '(') && open >= 0
    requires dot == LastIndexOf(signature[..open], '.') && dot >= 0
    ensures signature == signature[..dot] + "." + signature[dot + 1..open] + "(" + signature[open + 1..]
    ensures '.' !in signature[dot + 1..open] && '(' !in signature[open + 1..]
  {
    var qualifiedName := signature[..open];
    NotInSuffix(qualifiedName, dot, '.');
    NotInSuffix(signature, open, '(');
    CutAt(signature, open);
    CutAt(qualifiedName, dot);
    assert qualifiedName[..dot] == signature[..dot];
    assert qualifiedName[dot + 1..] == signature[dot + 1..open];
  }

  /**
   * The derived path is the project's root followed by a '/'-separated class
   * path and ".java"; when the signature holds no '/', reading the class path
   * back with '/' as '.' gives the signature's class name, followed by a
   * member name and its parameter list.
   */
  lemma SourcePathRecoversClass(projectRoots: seq<string>, signature: string, projectIndex: int)
    requires SourcePath(projectRoots, signature, projectIndex).Success?
    requires '/' !in signature
    ensures 0 <= projectIndex < |projectRoots|
    ensures var path := SourcePath(projectRoots, signature, projectIndex).value;
            var root := projectRoots[projectIndex];
            |root| + 5 <= |path| && path[..|root|] == root && path[|path| - 5..] == ".java" &&
            var classPath := path[|root|..|path| - 5];
            '.' !in classPath &&
            exists member, parameters ::
              '.' !in member && '(' !in parameters &&
              signature == ReplaceChar(classPath, '/', '.') + "." + member + "(" + parameters
  {
    var open := LastIndexOf(signature, '(');
    var dot := LastIndexOf(signature[..open], '.');
    var className := signature[..dot];
    assert signature[..open][..dot] == className;
    var classPath := ReplaceChar(className, '.', '/');
    var root := projectRoots[projectIndex];
    assert SourcePath(projectRoots, signature, projectIndex).value == root + classPath + ".java";
    PathParts(root, classPath);
    NoneInPrefix(signature, dot, '/');
    ReplaceCharRoundTrip(className, '.', '/');
    SignatureParts(signature, open, dot);
    var member := signature[dot + 1..open];
    var parameters := signature[open + 1..];
    assert signature == ReplaceChar(classPath, '/', '.') + "." + member + "(" + parameters;
  }

  /** Where the root, the class path and the extension sit in a derived path. */
  lemma PathParts(root: string, classPath: string)
    ensures var path := root + classPath + ".java";
            |root| + 5 <= |path| && path[..|root|] == root && path[|path| - 5..] == ".java" &&
            path[|root|..|path| - 5] == classPath
  {
  }

  lemma NoneInPrefix(s: string, k: int, c: char)
    requires c !in s && 0 <= k <= |s|
    ensures c !in s[..k]
  {
    forall j | 0 <= j < k ensures s[..k][j] != c {
      assert s[..k][j] == s[j];
    }
  }


  /** The counts computeMetrics gathers for one method, before the aggregates are formed. */
  datatype Metrics = Metrics(
    surfaceIfs: nat, nestedIfs: nat,
    surfaceSwitches: nat, nestedSwitches: nat,
    surfaceFors: nat, nestedFors: nat,
    surfaceForEachs: nat, nestedForEachs: nat,
    surfaceWhiles: nat, nestedWhiles: nat,
    surfaceDos: nat, nestedDos: nat,
    methodCalls: nat, localVariables: nat, logicalOperators: nat,
    comparisonOperators: nat, numericalOperators: nat)

  function IterativeStmts(m: Metrics): nat {
    m.surfaceFors + m.nestedFors + m.surfaceForEachs + m.nestedForEachs +
    m.surfaceWhiles + m.nestedWhiles + m.surfaceDos + m.nestedDos
  }

  function ConditionalStmts(m: Metrics): nat {
    m.surfaceIfs + m.nestedIfs + m.surfaceSwitches + m.nestedSwitches
  }

  /** The columns of the CSV header the driver writes, in order. */
  const CsvHeader: seq<string> := [
    "method", "surfaceIfs", "nestedIfs", "surfaceSwitches", "nestedSwitches",
    "surfaceFors", "nestedFors", "surfaceForEachs", "nestedForEachs", "surfaceWhiles", "nestedWhiles",
    "surfaceDos", "nestedDos", "iterativeStmts", "conditionalStmts",
    "numMethodCalls", "numLocalVariables", "numLogicalOperators", "numComparisonOperators",
    "numNumericalOperators"]

  /** What a column of the header means for one method, looked up by its name. */
  function ColumnValue(m: Metrics, column: string): Option<nat> {
    if column == "surfaceIfs" then Some(m.surfaceIfs)
    else if column == "nestedIfs" then Some(m.nestedIfs)
    else if column == "surfaceSwitches" then Some(m.surfaceSwitches)
    else if column == "nestedSwitches" then Some(m.nestedSwitches)
    else if column == "surfaceFors" then Some(m.surfaceFors)
    else if column == "nestedFors" then Some(m.nestedFors)
    else if column == "surfaceForEachs" then Some(m.surfaceForEachs)
    else if column == "nestedForEachs" then Some(m.nestedForEachs)
    else if column == "surfaceWhiles" then Some(m.surfaceWhiles)
    else if column == "nestedWhiles" then Some(m.nestedWhiles)
    else if column == "surfaceDos" then Some(m.surfaceDos)
    else if column == "nestedDos" then Some(m.nestedDos)
    else if column == "iterativeStmts" then Some(IterativeStmts(m))
    else if column == "conditionalStmts" then Some(ConditionalStmts(m))
    else if column == "numMethodCalls" then Some(m.methodCalls)
    else if column == "numLocalVariables" then Some(m.localVariables)
    else if column == "numLogicalOperators" then Some(m.logicalOperators)
    else if column == "numComparisonOperators" then Some(m.comparisonOperators)
    else if column == "numNumericalOperators" then Some(m.numericalOperators)
    else None
  }

  /**
   * The int[] computeMetrics returns: one entry per numeric column of the
   * header, each holding the value its column names.
   */
  function MetricVector(m: Metrics): (row: seq<nat>)
    ensures |row| == |CsvHeader| - 1
  {
    [m.surfaceIfs, m.nestedIfs, m.surfaceSwitches, m.nestedSwitches, m.surfaceFors, m.nestedFors,
     m.surfaceForEachs, m.nestedForEachs, m.surfaceWhiles, m.nestedWhiles, m.surfaceDos, m.nestedDos,
     IterativeStmts(m), ConditionalStmts(m),
     m.methodCalls, m.localVariables, m.logicalOperators, m.comparisonOperators, m.numericalOperators]
  }

  /** Entry i of the row holds the value that column i + 1 of the header names. */
  lemma MetricVectorFollowsHeader(m: Metrics)
    ensures forall i :: 0 <= i < |MetricVector(m)| ==> ColumnValue(m, CsvHeader[i + 1]) == Some(MetricVector(m)[i])
  {
  }

  /** The surface and nested counts of the statements of kind t, in the order computeMetrics asks for them. */
  function KindCounts(md: Visit, t: ControlStmt): Result<(nat, nat)> {
    var stmts := FindAllOf(md, ClassOf(t));
    var surface :- SurfaceCount(stmts);
    var nested :- NestedCount(stmts, t);
    Success((surface, nested))
  }

  /**
   * The counts for the declaration md, gathered in the order computeMetrics
   * calls the counters; the comparison and numerical operator counters are
   * parameters.
   */
  function MetricsOf(md: Visit, comparisonOperatorsIn: Visit -> nat, numericalOperatorsIn: Visit -> nat): Result<Metrics> {
    var ifs :- KindCounts(md, If);
    var switches :- KindCounts(md, Switch);
    var fors :- KindCounts(md, For);
    var forEachs :- KindCounts(md, ForEach);
    var whiles :- KindCounts(md, While);
    var dos :- KindCounts(md, Do);
    Success(Metrics(
      ifs.0, ifs.1, switches.0, switches.1, fors.0, fors.1,
      forEachs.0, forEachs.1, whiles.0, whiles.1, dos.0, dos.1,
      CountOf(md.node, MethodCallExprClass), CountOf(md.node, VariableDeclarationExprClass),
      Count(FindAllOf(md, BinaryExprClass), IsLogicalExpr),
      comparisonOperatorsIn(md), numericalOperatorsIn(md)))
  }

  /** computeMetrics for a source file and a method signature. */
  function MetricsFor(sourceFile: string, methodName: string, parse: string -> Result<Node>,
                      comparisonOperatorsIn: Visit -> nat, numericalOperatorsIn: Visit -> nat): (r: Result<seq<nat>>)
    ensures r.Success? ==> |r.value| == |CsvHeader| - 1
    ensures Load(sourceFile, parse).Failure? ==> r == Failure(Load(sourceFile, parse).error)
  {
    var unit :- Load(sourceFile, parse);
    var md :- Locate(unit, methodName);
    var m :- MetricsOf(md, comparisonOperatorsIn, numericalOperatorsIn);
    Success(MetricVector(m))
  }

  /** The two counter calls computeMetrics makes for the statements of kind t. */
  method CountKind(extractor: JPExtractor, md: Visit, t: ControlStmt) returns (r: Result<(nat, nat)>)
    requires md.node.kind.MethodDeclaration?
    ensures r == KindCounts(md, t)
  {
    var surface :- extractor.NumberOfSurfaceIn(md, t);
    var nested: Result<nat>;
    if t == If {
      nested := extractor.NumberOfNestedIfIn(md);
    } else {
      nested := extractor.NumberOfNestedIn(md, t);
    }
    if nested.Failure? {
      return Failure(nested.error);
    }
    return Success((surface, nested.value));
  }

  /**
   * computeMetrics: load the file, locate the method, run every counter on the
   * declaration found and assemble the row.
   */
  method ComputeMetrics(sourceFile: string, methodName: string, parse: string -> Result<Node>,
                        comparisonOperatorsIn: Visit -> nat, numericalOperatorsIn: Visit -> nat)
    returns (r: Result<seq<nat>>)
    ensures r == MetricsFor(sourceFile, methodName, parse, comparisonOperatorsIn, numericalOperatorsIn)
  {
    var extractor :- JPExtractor.FromFilePath(sourceFile, parse);
    var md :- extractor.FindMethodDeclarationNode(methodName);
    var m :- CountMetrics(extractor, md, comparisonOperatorsIn, numericalOperatorsIn);
    return Success(MetricVector(m));
  }

  /** The counter calls of computeMetrics on the located declaration. */
  method CountMetrics(extractor: JPExtractor, md: Visit, comparisonOperatorsIn: Visit -> nat, numericalOperatorsIn: Visit -> nat)
    returns (r: Result<Metrics>)
    requires md.node.kind.MethodDeclaration?
    ensures r == MetricsOf(md, comparisonOperatorsIn, numericalOperatorsIn)
  {
    var ifs :- CountKind(extractor, md, If);
    var switches :- CountKind(extractor, md, Switch);
    var fors :- CountKind(extractor, md, For);
    var forEachs :- CountKind(extractor, md, ForEach);
    var whiles :- CountKind(extractor, md, While);
    var dos :- CountKind(extractor, md, Do);
    var methodCalls := extractor.NumberOfMethodCallsIn(md);
    var localVariables := extractor.NumberOfLocalVariablesIn(md);
    var logicalOperators := extractor.NumberOfLogicalOperatorsIn(md);
    return Success(Metrics(
      ifs.0, ifs.1, switches.0, switches.1, fors.0, fors.1,
      forEachs.0, forEachs.1, whiles.0, whiles.1, dos.0, dos.1,
      methodCalls, localVariables, logicalOperators,
      comparisonOperatorsIn(md), numericalOperatorsIn(md)));
  }

  /** Under an attached declaration the counts of kind t succeed and cover its statements. */
  lemma KindPartition(md: Visit, t: ControlStmt)
    requires md.node.kind.MethodDeclaration? && md.parent.Some?
    ensures KindCounts(md, t).Success?
    ensures var stmts := FindAllOf(md, ClassOf(t));
            var (surface, nested) := KindCounts(md, t).value;
            SurfaceCount(stmts) == Success(surface) && NestedCount(stmts, t) == Success(nested) &&
            |stmts| == CountOf(md.node, ClassOf(t)) &&
            (t != If ==> surface + nested == CountOf(md.node, ClassOf(t)))
  {
    AttachedCountersSucceed(md, t);
    FindAllOfCount(md, ClassOf(t));
    if t != If {
      SurfaceNestedPartition(FindAllOf(md, ClassOf(t)), t);
    }
  }

  /**
   * For a declaration attached to a tree, iterativeStmts counts every loop of
   * the method exactly once, and conditionalStmts every switch and every if
   * except those numberOfNestedIfIn skips.
   */
  lemma AggregatesCountStatements(md: Visit, comparisonOperatorsIn: Visit -> nat, numericalOperatorsIn: Visit -> nat)
    requires md.node.kind.MethodDeclaration? && md.parent.Some?
    ensures MetricsOf(md, comparisonOperatorsIn, numericalOperatorsIn).Success?
    ensures var m := MetricsOf(md, comparisonOperatorsIn, numericalOperatorsIn).value;
            IterativeStmts(m) ==
              CountOf(md.node, ForStmtClass) + CountOf(md.node, ForEachStmtClass) +
              CountOf(md.node, WhileStmtClass) + CountOf(md.node, DoStmtClass) &&
            ConditionalStmts(m) ==
              CountOf(md.node, IfStmtClass) - Count(FindAllOf(md, IfStmtClass), SkippedIf) +
              CountOf(md.node, SwitchStmtClass)
  {
    KindPartition(md, If);
    KindPartition(md, Switch);
    KindPartition(md, For);
    KindPartition(md, ForEach);
    KindPartition(md, While);
    KindPartition(md, Do);
    IfPartition(FindAllOf(md, IfStmtClass));
  }

  lemma PlaceholderCounts(c: NodeClass)
    requires c != AnyNode && c != AnyStatement && c != MethodDeclarationClass && c != BlockStmtClass
    ensures FindAllOf(PlaceholderDeclaration(), c) == []
  {
    var block := Node(BlockStmt, []);
    var p := PlaceholderDeclaration();
    assert FindAll(p) == [p, Visit(block, Some(p.node.kind), None)];
  }

  lemma PlaceholderKindCounts(t: ControlStmt)
    ensures KindCounts(PlaceholderDeclaration(), t) == Success((0, 0))
  {
    PlaceholderCounts(ClassOf(t));
  }

  /**
   * The placeholder returned for a method that is not found has an empty body,
   * so every count the extractor computes for it is zero.
   */
  lemma PlaceholderMetrics(comparisonOperatorsIn: Visit -> nat, numericalOperatorsIn: Visit -> nat)
    ensures var p := PlaceholderDeclaration();
            MetricsOf(p, comparisonOperatorsIn, numericalOperatorsIn) ==
              Success(Metrics(0, 0, 0, 0, 0, 0, 0, 0, 0, 0, 0, 0, 0, 0, 0, comparisonOperatorsIn(p), numericalOperatorsIn(p)))
  {
    var p := PlaceholderDeclaration();
    PlaceholderKindCounts(If);
    PlaceholderKindCounts(Switch);
    PlaceholderKindCounts(For);
    PlaceholderKindCounts(ForEach);
    PlaceholderKindCounts(While);
    PlaceholderKindCounts(Do);
    PlaceholderCounts(BinaryExprClass);
    PlaceholderCounts(MethodCallExprClass);
    PlaceholderCounts(VariableDeclarationExprClass);
    FindAllOfCount(p, MethodCallExprClass);
    FindAllOfCount(p, VariableDeclarationExprClass);
  }

  /**
   * Once the declaration is located in a compilation unit, no counter throws:
   * a found declaration is attached to the tree, and the placeholder has no
   * statements.
   */
  lemma LocatedMethodNeverFails(unit: Node, methodName: string, comparisonOperatorsIn: Visit -> nat, numericalOperatorsIn: Visit -> nat)
    requires !unit.kind.MethodDeclaration?
    requires Locate(unit, methodName).Success?
    ensures MetricsOf(Locate(unit, methodName).value, comparisonOperatorsIn, numericalOperatorsIn).Success?
  {
    var md := Locate(unit, methodName).value;
    if md.parent.Some? {
      AggregatesCountStatements(md, comparisonOperatorsIn, numericalOperatorsIn);
    } else {
      NotFoundIffDetached(unit, methodName);
      PlaceholderMetrics(comparisonOperatorsIn, numericalOperatorsIn);
    }
  }
}

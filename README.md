# Method metric extraction, modelled in Dafny

This project models the metric engine of the JavaParser metric calculator. The engine does two things:

- **Locating a method.** It finds the declaration of a method, named by a signature string such as `org.a.B.run(int,String)`, inside a parsed Java compilation unit.
- **Counting in a method.** Below that declaration it counts:
  - if, switch, for, for-each, while and do statements, split into *surface* and *nested* occurrences;
  - all ifs, counting a plain else once more;
  - method calls, local variable declarations and logical operators.

It also models the pure parts of the driver `GinRunner`:

- picking the case-study project that a signature belongs to;
- deriving the path of the source file that declares the method;
- assembling the 19-entry metric row written under the CSV header.

Modules, leaves first:

- `Wrappers`: `Option`, `Result`, `Outcome`, and the Java exceptions the engine can throw.
- `JavaStrings`: the `java.lang.String` operations the engine relies on (`contains`, `lastIndexOf`, `replace`, `split(" ")`, `trim`), with Java's semantics and lemmas about what each computes.
- `Ast`: the parsed tree. It holds node kinds, `instanceof` over class tokens, and `findAll` as a pre-order walk from a node, which includes that node. Each node found is paired with the kinds of its parent and its parent's parent, the only parent information the engine reads.
- `StatementCounts`: what each counter computes over the list `findAll` returns, and the partition lemmas.
- `MethodLocator`: the reduction of a declaration to its name and parameter list, and the two searches over the declarations. `hasMethod` is first-match. `findMethodDeclarationNode` is last-match-wins.
- `JPUtils`: the class `JPExtractor`. It holds its compilation unit in a field. The counters are loops proved against the functions of `StatementCounts`, and the searches are loops proved against `MethodLocator`.
- `GinRunner`: the project index loop, the path derivation, the metric record, and `computeMetrics` as a method proved equal to a function.
- `Scenarios`: small methods written as trees, with the counts proved for them.

Points where the code's behaviour is easy to misread:

- **Surface test.** A statement is *surface* when its parent's parent is a `MethodDeclaration` (`JPExtractor.java:199-206`). This is not the same as being a direct child of the method's body block: an if directly under another if, or a statement under a labelled statement, is not surface.
- **If statements are not partitioned.** `numberOfNestedIfIn` skips every if whose parent is an if statement. So surface ifs plus nested ifs equal all ifs less the skipped ones (`StatementCounts.IfPartition`). For the other five kinds the two counts do partition the statements.
- **The unbraced then branch is skipped too.** The skip covers the then branch of `if (a) if (b) ...`, not only else-if links. That inner if is counted neither at the surface nor nested (`Scenarios.UnbracedInnerIfIsSkipped`).
- **Errors propagate.** In the code a missing parent link throws `NoSuchElementException`, and an all-space declaration throws `ArrayIndexOutOfBoundsException`. These propagate out of `computeMetrics`; nothing converts them into an all-zero row. The model returns them as `Result` failures. A method that is not found is not an error: the placeholder declaration gives zeros (`GinRunner.PlaceholderMetrics`).

## Model

| member | source | states |
|---|---|---|
| JavaStrings.ContainsIffOccurs | src/JavaParserMetricCalculator/src/main/java/com/ljskinner/jputils/JPExtractor.java:721 | `contains` holds exactly when the second string occurs at some index of the first |
| JavaStrings.LastIndexOf | src/JavaParserMetricCalculator/src/main/java/com/ljskinner/app/GinRunner.java:84 | `lastIndexOf(c)` is -1 or an index holding c, and no later index holds c |
| JavaStrings.CollapsingCommaSpaceOnlyDropsSpaces | src/JavaParserMetricCalculator/src/main/java/com/ljskinner/jputils/JPExtractor.java:714 | `replace(", ", ",")` only deletes spaces: with spaces removed, the string before and after is the same |
| JavaStrings.PiecesJoin | src/JavaParserMetricCalculator/src/main/java/com/ljskinner/jputils/JPExtractor.java:714 | cutting a string at every delimiter and joining the pieces with it gives the string back, and no piece holds the delimiter |
| JavaStrings.JoinPieces | src/JavaParserMetricCalculator/src/main/java/com/ljskinner/jputils/JPExtractor.java:714 | the other direction: joining delimiter-free pieces and cutting again gives the pieces back |
| JavaStrings.SplitLastPiece | src/JavaParserMetricCalculator/src/main/java/com/ljskinner/jputils/JPExtractor.java:714-718 | `split(" ")` is empty exactly for a non-empty run of spaces; otherwise its last element is what follows the last space once trailing spaces are stripped |
| JavaStrings.StripTrailing | src/JavaParserMetricCalculator/src/main/java/com/ljskinner/jputils/JPExtractor.java:714 | the result is a prefix, only delimiters were removed, and it does not end in one (the trailing empty pieces split drops) |
| JavaStrings.ReplaceChar | src/JavaParserMetricCalculator/src/main/java/com/ljskinner/app/GinRunner.java:87 | `replace(".", "/")` keeps the length and changes exactly the characters equal to '.' |
| JavaStrings.ReplaceCharRoundTrip | src/JavaParserMetricCalculator/src/main/java/com/ljskinner/app/GinRunner.java:87 | replacing '.' by '/' is undone by replacing '/' by '.', when '/' did not occur |
| JavaStrings.TrimEmpty | src/JavaParserMetricCalculator/src/main/java/com/ljskinner/jputils/JPExtractor.java:84-86 | `trim()` is empty exactly when every character is at most U+0020, and otherwise starts and ends with a character above it |
| Ast.OfClassFilters | src/JavaParserMetricCalculator/src/main/java/com/ljskinner/jputils/JPExtractor.java:111 | `findAll(c)` keeps only nodes that are instances of c, all taken from the walk |
| Ast.FindAllOfCount | src/JavaParserMetricCalculator/src/main/java/com/ljskinner/jputils/JPExtractor.java:578 | the size of `findAll(c)` is the number of nodes of class c in the subtree, counted independently of the walk |
| Ast.FoundBelowHaveParents | src/JavaParserMetricCalculator/src/main/java/com/ljskinner/jputils/JPExtractor.java:157-165 | below a node that has a parent, every node found has a parent and a parent's parent |
| Ast.FoundAfterStartHaveParent | src/JavaParserMetricCalculator/src/main/java/com/ljskinner/app/GinRunner.java:107 | every node the walk finds after its start node has a parent |
| StatementCounts.SurfaceAndNestedSplit | src/JavaParserMetricCalculator/src/main/java/com/ljskinner/jputils/JPExtractor.java:229-281 | over linked statements, the surface and nested counts add up to the number of statements |
| StatementCounts.IfThreeWaySplit | src/JavaParserMetricCalculator/src/main/java/com/ljskinner/jputils/JPExtractor.java:151-210 | every linked if is exactly one of: at the surface, counted nested, skipped |
| StatementCounts.SkippedIsUnderIf | src/JavaParserMetricCalculator/src/main/java/com/ljskinner/jputils/JPExtractor.java:156-172 | when no if under an if sits at the surface, the skipped ifs are exactly those whose parent is an if |
| StatementCounts.SurfaceNestedPartition | src/JavaParserMetricCalculator/src/main/java/com/ljskinner/jputils/JPExtractor.java:229-281 | for switch, while, do, for and for-each: both counters succeed or both throw, no statement is in both, and the two counts sum to the statements found |
| StatementCounts.IfPartition | src/JavaParserMetricCalculator/src/main/java/com/ljskinner/jputils/JPExtractor.java:151-210 | surface ifs + nested ifs + skipped ifs = all ifs; surface + nested = all ifs less those whose parent is an if |
| StatementCounts.AllIfBounds | src/JavaParserMetricCalculator/src/main/java/com/ljskinner/jputils/JPExtractor.java:108-132 | the all-if count lies between the number of ifs and twice that, and bounds surface + nested ifs |
| StatementCounts.NoSurfaceIfUnderIf | src/JavaParserMetricCalculator/src/main/java/com/ljskinner/jputils/JPExtractor.java:156-172 | in a tree where no if sits directly under a method declaration, no node found below the start has an if as parent and a method declaration as grandparent, so no if is both skipped by `numberOfNestedIfIn` and counted at the surface |
| StatementCounts.AttachedIfPartition | src/JavaParserMetricCalculator/src/main/java/com/ljskinner/jputils/JPExtractor.java:156-172 | for an attached declaration of such a tree, both if counters succeed and surface plus nested ifs equal the ifs less those whose parent is an if, with no hypothesis left over |
| StatementCounts.AttachedCountersSucceed | src/JavaParserMetricCalculator/src/main/java/com/ljskinner/jputils/JPExtractor.java:157-165 | under a declaration that has a parent, neither counter throws `NoSuchElementException` |
| MethodLocator.NormalisedIsLastWord | src/JavaParserMetricCalculator/src/main/java/com/ljskinner/jputils/JPExtractor.java:714-718 | the reduced declaration is the last space-separated word after collapsing ", ", and it holds no space |
| MethodLocator.NormalisedFails | src/JavaParserMetricCalculator/src/main/java/com/ljskinner/jputils/JPExtractor.java:714-718 | `parts[parts.length - 1]` throws exactly for a non-empty declaration made only of spaces |
| MethodLocator.Normalised | src/JavaParserMetricCalculator/src/main/java/com/ljskinner/jputils/JPExtractor.java:714-718 | the reduction of one declaration string; what it computes is stated by `NormalisedIsLastWord` and `NormalisedFails` |
| MethodLocator.Locate | src/JavaParserMetricCalculator/src/main/java/com/ljskinner/jputils/JPExtractor.java:740-760 | whatever it returns is a method declaration |
| MethodLocator.LastMatch | src/JavaParserMetricCalculator/src/main/java/com/ljskinner/jputils/JPExtractor.java:743-757 | the loop of `findMethodDeclarationNode` as a function; its behaviour is stated by `LastMatchFails`, `LastMatchFailureSticks` and `LastMatchWins` |
| MethodLocator.FirstMatch | src/JavaParserMetricCalculator/src/main/java/com/ljskinner/jputils/JPExtractor.java:710-726 | the loop of `hasMethod` as a function; its behaviour is stated by `FirstMatchSpec` |
| MethodLocator.LastMatchFails | src/JavaParserMetricCalculator/src/main/java/com/ljskinner/jputils/JPExtractor.java:747-751 | the search throws exactly when some declaration cannot be reduced, and with the exception of the first such one |
| MethodLocator.LastMatchFailureSticks | src/JavaParserMetricCalculator/src/main/java/com/ljskinner/jputils/JPExtractor.java:743-757 | once the loop has thrown, the later declarations do not change the outcome |
| MethodLocator.LastMatchWins | src/JavaParserMetricCalculator/src/main/java/com/ljskinner/jputils/JPExtractor.java:740-760 | the result is nothing exactly when no declaration matches, and otherwise a matching declaration after which none matches |
| MethodLocator.FirstMatchSpec | src/JavaParserMetricCalculator/src/main/java/com/ljskinner/jputils/JPExtractor.java:709-727 | with every declaration reducible, `hasMethod` is true iff some declaration matches; it throws exactly when some declaration cannot be reduced and no declaration before it matches; when it completes, it is true exactly when some declaration matches |
| MethodLocator.HasMethodAgreesWithLocate | src/JavaParserMetricCalculator/src/main/java/com/ljskinner/jputils/JPExtractor.java:709-760 | when `findMethodDeclarationNode` completes, `hasMethod` completes and is true exactly when a declaration was found |
| MethodLocator.NotFoundIffDetached | src/JavaParserMetricCalculator/src/main/java/com/ljskinner/jputils/JPExtractor.java:740-760 | in a compilation unit, the declaration returned has no parent exactly when nothing matched, and it is then the empty placeholder |
| JPUtils.CheckedPath | src/JavaParserMetricCalculator/src/main/java/com/ljskinner/jputils/JPExtractor.java:84-89 | `IllegalArgumentException` exactly when the path is all characters at most U+0020; otherwise the trimmed, non-empty path |
| JPUtils.Load | src/JavaParserMetricCalculator/src/main/java/com/ljskinner/jputils/JPExtractor.java:84-91 | a path that is blank once trimmed fails with `IllegalArgumentException` before the parser is called; otherwise the parser is given the trimmed path |
| JPUtils.JPExtractor.constructor | src/JavaParserMetricCalculator/src/main/java/com/ljskinner/jputils/JPExtractor.java:60-65 | the extractor holds the given compilation unit |
| JPUtils.JPExtractor.FromFilePath | src/JavaParserMetricCalculator/src/main/java/com/ljskinner/jputils/JPExtractor.java:80-92 | a fresh extractor over the parse of the trimmed path, or the exception of the path check or of the parser |
| JPUtils.JPExtractor.SetCompilationUnit | src/JavaParserMetricCalculator/src/main/java/com/ljskinner/jputils/JPExtractor.java:667-672 | the field now holds the given unit |
| JPUtils.JPExtractor.SetCompilationUnitFromFilePath | src/JavaParserMetricCalculator/src/main/java/com/ljskinner/jputils/JPExtractor.java:686-698 | on success the field holds the parsed unit; on an exception it keeps its old unit |
| JPUtils.JPExtractor.NumberOfAllIfIn | src/JavaParserMetricCalculator/src/main/java/com/ljskinner/jputils/JPExtractor.java:108-132 | the loop returns the number of ifs plus the ifs with a plain (non-if) else, which lies between the ifs in the tree and twice that |
| JPUtils.JPExtractor.NumberOfSurfaceIn | src/JavaParserMetricCalculator/src/main/java/com/ljskinner/jputils/JPExtractor.java:194-210 | the loop (for each of if, switch, while, do, for, for-each; lines 265-281, 336-352, 407-423, 478-494, 546-562 alike) counts the statements whose parent's parent is a method declaration, or throws at the first missing link |
| JPUtils.JPExtractor.NumberOfNestedIn | src/JavaParserMetricCalculator/src/main/java/com/ljskinner/jputils/JPExtractor.java:229-246 | the loop (switch, and while, do, for, for-each at 300-317, 371-388, 442-459, 509-527) counts the statements whose parent's parent is not a method declaration, or throws |
| JPUtils.JPExtractor.NumberOfNestedIfIn | src/JavaParserMetricCalculator/src/main/java/com/ljskinner/jputils/JPExtractor.java:151-175 | the loop skips ifs whose parent is an if before looking further up, and counts the others not directly under the method body |
| JPUtils.JPExtractor.NumberOfMethodCallsIn | src/JavaParserMetricCalculator/src/main/java/com/ljskinner/jputils/JPExtractor.java:577-579 | the number of method call expressions in the method's subtree |
| JPUtils.JPExtractor.NumberOfLocalVariablesIn | src/JavaParserMetricCalculator/src/main/java/com/ljskinner/jputils/JPExtractor.java:593-595 | the number of variable declaration expressions in the method's subtree |
| JPUtils.JPExtractor.NumberOfLogicalOperatorsIn | src/JavaParserMetricCalculator/src/main/java/com/ljskinner/jputils/JPExtractor.java:610-627 | the loop counts the binary expressions with &&, \|\|, ^, & or \|, at most the binary expressions in the method |
| JPUtils.JPExtractor.NumberOfAllByType | src/JavaParserMetricCalculator/src/main/java/com/ljskinner/jputils/JPExtractor.java:644-646 | the number of nodes of the class anywhere in the compilation unit |
| JPUtils.JPExtractor.HasMethod | src/JavaParserMetricCalculator/src/main/java/com/ljskinner/jputils/JPExtractor.java:709-727 | the loop returns the first-match search over the unit's declarations (properties in FirstMatchSpec) |
| JPUtils.JPExtractor.FindMethodDeclarationNode | src/JavaParserMetricCalculator/src/main/java/com/ljskinner/jputils/JPExtractor.java:740-760 | the loop returns the last-match search, or the placeholder (properties in LastMatchWins and NotFoundIffDetached) |
| GinRunner.GetProjectIndex | src/JavaParserMetricCalculator/src/main/java/com/ljskinner/app/GinRunner.java:155-163 | the smallest index whose project name occurs in the signature, or -1 when none does |
| GinRunner.SourcePath | src/JavaParserMetricCalculator/src/main/java/com/ljskinner/app/GinRunner.java:84-88 | the path derivation; its exceptions are stated by `SourcePathFailures` and its result by `SourcePathRecoversClass` |
| GinRunner.SourcePathFailures | src/JavaParserMetricCalculator/src/main/java/com/ljskinner/app/GinRunner.java:84-88 | no '(' throws `StringIndexOutOfBoundsException`, then a bad project index throws `ArrayIndexOutOfBoundsException`, a signature without '.' never yields a path, and a name before the last '(' without '.' throws `StringIndexOutOfBoundsException` |
| GinRunner.SourcePathRecoversClass | src/JavaParserMetricCalculator/src/main/java/com/ljskinner/app/GinRunner.java:84-88 | the path is the root, a class path free of '.', and ".java"; reading '/' back as '.' gives the signature's class name, followed by a member name and its parameters |
| GinRunner.MetricVector | src/JavaParserMetricCalculator/src/main/java/com/ljskinner/app/GinRunner.java:150-152 | the row has one entry per numeric column of the header (19) |
| GinRunner.MetricVectorFollowsHeader | src/JavaParserMetricCalculator/src/main/java/com/ljskinner/app/GinRunner.java:73-77 | entry i of the row holds the value named by header column i + 1 |
| GinRunner.IterativeStmts | src/JavaParserMetricCalculator/src/main/java/com/ljskinner/app/GinRunner.java:135-136 | the iterativeStmts aggregate; `AggregatesCountStatements` states that it counts every loop of the method once |
| GinRunner.ConditionalStmts | src/JavaParserMetricCalculator/src/main/java/com/ljskinner/app/GinRunner.java:138 | the conditionalStmts aggregate; `AggregatesCountStatements` states that it counts every switch and every if not skipped |
| GinRunner.CountKind | src/JavaParserMetricCalculator/src/main/java/com/ljskinner/app/GinRunner.java:111-133 | the surface-then-nested counter calls for one kind, with the first exception they throw |
| GinRunner.CountMetrics | src/JavaParserMetricCalculator/src/main/java/com/ljskinner/app/GinRunner.java:111-148 | the counter calls in computeMetrics' order, with the first exception they throw |
| GinRunner.ComputeMetrics | src/JavaParserMetricCalculator/src/main/java/com/ljskinner/app/GinRunner.java:102-153 | load the file, locate the method, count and assemble the row, or the first exception |
| GinRunner.MetricsFor | src/JavaParserMetricCalculator/src/main/java/com/ljskinner/app/GinRunner.java:102-153 | computeMetrics as a function: a row holds one entry per numeric header column, and an exception from loading the file is the one returned |
| GinRunner.KindPartition | src/JavaParserMetricCalculator/src/main/java/com/ljskinner/app/GinRunner.java:111-133 | for an attached declaration both counts of a kind succeed; for non-if kinds they sum to the statements of that kind in the tree |
| GinRunner.AggregatesCountStatements | src/JavaParserMetricCalculator/src/main/java/com/ljskinner/app/GinRunner.java:135-138 | iterativeStmts counts every loop in the method once; conditionalStmts counts every switch and every if except the skipped ones |
| GinRunner.PlaceholderMetrics | src/JavaParserMetricCalculator/src/main/java/com/ljskinner/app/GinRunner.java:107-109 | for a method that is not found, every count the extractor computes is 0 |
| GinRunner.LocatedMethodNeverFails | src/JavaParserMetricCalculator/src/main/java/com/ljskinner/app/GinRunner.java:105-148 | once the declaration is located in a compilation unit, no counter throws |
| Scenarios.BracedInnerIfIsNested | src/JavaParserMetricCalculator/src/main/java/com/ljskinner/jputils/JPExtractor.java:151-210 | `if (a) { if (b) { } } else { }`: one surface if, one nested, all-if count 3 |
| Scenarios.UnbracedInnerIfIsSkipped | src/JavaParserMetricCalculator/src/main/java/com/ljskinner/jputils/JPExtractor.java:159-163 | `if (a) if (b) { }`: one surface if, none nested, all-if count 2 (the inner if is in neither count) |
| Scenarios.ElseIfChain | src/JavaParserMetricCalculator/src/main/java/com/ljskinner/jputils/JPExtractor.java:108-132 | `if (a) { } else if (b) { } else { }`: one surface if, none nested, all-if count 3 |
| Scenarios.LoopInLoop | src/JavaParserMetricCalculator/src/main/java/com/ljskinner/jputils/JPExtractor.java:300-317 | `for (;;) { while (a) { } }`: the for loop is at the surface, the while loop nested |

## Left out

- **Parsing and file access.** `StaticJavaParser.parse(new File(...))` is the parameter `parse`, which returns a tree or an exception: `FileNotFoundException` for a file it cannot open, `ParseProblemException` for source it cannot parse. The tree it builds is taken as given.
- **Declaration strings.** `getDeclarationAsString(false, false, false)` is a string stored on each declaration node. JavaParser's printing of it is not modelled.
- **The not-found placeholder's string.** `new MethodDeclaration()` is modelled with the stored string "empty empty()" and an empty body. Only its lack of a parent and its empty body matter to the engine.
- **Null arguments.** `Objects.requireNonNull` and its `NullPointerException` are excluded by the types.
- **getCompilationUnit.** It is a plain read of the field `compilationUnit`.
- **The two missing counters.** `numberOfComparisonOperatorsIn` and `numberOfNumericalOperatorsIn` have no body in `JPExtractor`. They are parameters of `MetricsOf` and `ComputeMetrics`.
- **The driver's I/O.** `main`, `processFiles` and the tinylog logging are not modelled: reading the method list, writing the CSV with `printf`, and the warning at line 108. The header line is modelled as its list of column names (`CsvHeader`), not as the printed string.
- **Project roots.** The hard-coded absolute `projectPaths` are the parameter `projectRoots` of `SourcePath`. `GetProjectIndex` bounds its loop by the catalog of names, which has the same length (10).
- **Integer width.** Counts are unbounded `nat`. Java's 32-bit `int` would wrap only past 2^31 - 1 statements in one method.
- **Scenarios.** The example trees take a leaf condition and an empty block as parameters. They do not enumerate other expression or statement shapes.
- JPUtils.JPExtractor.NumberOfAllByType: answers only for the class tokens of `Ast.NodeClass`: `Node`, `Statement`, `Expression`, `MethodDeclaration`, `BlockStmt`, `IfStmt`, `SwitchStmt`, `WhileStmt`, `DoStmt`, `ForStmt`, `ForEachStmt`, `MethodCallExpr`, `VariableDeclarationExpr` and `BinaryExpr`. JavaParser's other node classes are collapsed into `TypeDeclaration` (class, interface, enum, record), `OtherStmt` (return, expression, try and the other statements), `OtherExpr` (lambdas, literals, names and the other expressions) and `OtherNode` (constructors, fields, parameters, types, modifiers), because the engine asks about no class among them.

# Multi-module "resolve sealed" test driver, modelled in Dafny

This project models `AbstractFirMultiModuleResolveSealedTest.doTest` from the
Kotlin IDE's FIR low-level API tests, together with its structure reader. It
covers the logic the driver adds around IntelliJ and FIR:

- It reads `structure.json`. `fails` defaults to false. `fileToResolve` must be
  an object with `module` and `file` members, and `filePath` is built from them.
- It creates one IDE module per declared module. `associate` keeps the last
  module for a repeated name.
- It adds one dependency edge per listed dependency, looking names up with
  `getValue`. An unknown name aborts the loops; edges added before it stay.
- It looks up the module to resolve and its first source root, then finds the
  file. It fails with `File <module>/<file> not found` when the file is absent.
  All of this happens outside the `try`.
- Inside the `try` it resolves the file and selects the first top-level
  declaration that is a sealed regular class. It then compares that class's
  inheritor names with `expected.txt`, ignoring order.
- Finally it reconciles the outcome with `fails`. An exception passes only when
  `fails` is set; otherwise it is re-thrown unchanged. A normal completion with
  `fails` set raises the "please remove `"fails": true`" error.

Files and modules:

- `errors.dfy` (`Errors`): `Option`, `Result` and the `Failure` exceptions.
- `json.dfy` (`Json`): parsed JSON values and the Gson conversions the driver uses.
- `structure.dfy` (`Structure`): `FileToResolveForSealed.parse` and `filePath`, and
  `MultiModuleTestProjectStructureForSealed.fromTestProjectStructure`.
- `graph.dfy` (`ModuleGraph`): the IDE project as a class, `ProjectModel`. Module
  creation and wiring are methods with loop invariants, proved against the
  specification functions `NameMap`, `DependencyDecls` and `Wire`.
- `sealed.dfy` (`SealedTarget`): the body of the `try`, the first-sealed selection,
  the order-free comparison and the reconciliation.
- `driver.dfy` (`ResolveSealedTest`): the IDE collaborators as data (`Host`), the
  whole run as a function (`Run`), and the `DoTest` method proved equal to it.

Behaviour of `doTest` worth noting, all of it modelled as the code has it:

- Duplicate module names are not rejected: `associate` keeps the last one.
- `dependsOnModules` is a list, not a set, so order and repeats are kept.
  `doTest` does not reject a self-dependency; the IDE's `addDependency` is not
  modelled.
- A file with no sealed class is not a legitimate empty result: `toString!!`
  throws inside the `try`, so it is an exception subject to `fails`.
- `fails` is read before `fileToResolve`. A malformed `fails` therefore
  surfaces first.

## Model

| member | source | states |
|---|---|---|
| Json.AsBoolean | idea/idea-frontend-fir/idea-fir-low-level-api/tests/org/jetbrains/kotlin/idea/fir/low/level/api/AbstractFirMultiModuleResolveSealedTest.kt:93 | a boolean reads as itself; a string or number reads as `parseBoolean` of its text; null and objects fail; every failure is a JSON conversion error |
| Json.AsString | idea/idea-frontend-fir/idea-fir-low-level-api/tests/org/jetbrains/kotlin/idea/fir/low/level/api/AbstractFirMultiModuleResolveSealedTest.kt:77-78 | a string member reads as its text; null and objects fail; every failure is a JSON conversion error |
| Json.GetString | idea/idea-frontend-fir/idea-fir-low-level-api/tests/org/jetbrains/kotlin/idea/fir/low/level/api/AbstractFirMultiModuleResolveSealedTest.kt:77-78 | an absent member fails with the member's name; a string member reads as its text; a success reads exactly the present member |
| Json.GetAsJsonObject | idea/idea-frontend-fir/idea-fir-low-level-api/tests/org/jetbrains/kotlin/idea/fir/low/level/api/AbstractFirMultiModuleResolveSealedTest.kt:94 | null exactly when the member is absent; an object member is returned as is; any other member is a failed cast naming it |
| Structure.FilePathSplits | idea/idea-frontend-fir/idea-fir-low-level-api/tests/org/jetbrains/kotlin/idea/fir/low/level/api/AbstractFirMultiModuleResolveSealedTest.kt:71 | `filePath` is module + "/" + file: splitting it at its first '/' gives back exactly the module name and relative path (module names without '/') |
| Structure.FilePath | idea/idea-frontend-fir/idea-fir-low-level-api/tests/org/jetbrains/kotlin/idea/fir/low/level/api/AbstractFirMultiModuleResolveSealedTest.kt:71 | the path is the module name, one '/', then the relative path, piece by piece |
| Structure.Parse | idea/idea-frontend-fir/idea-fir-low-level-api/tests/org/jetbrains/kotlin/idea/fir/low/level/api/AbstractFirMultiModuleResolveSealedTest.kt:74-80 | succeeds iff the argument is a JSON object with readable `module` and `file`; the fields are those members; a null or non-object argument fails its `require`; a bad `module` is reported before `file`, and a bad `file` reports `file`'s error; every error is a malformed-structure kind |
| Structure.FromTestProjectStructure | idea/idea-frontend-fir/idea-fir-low-level-api/tests/org/jetbrains/kotlin/idea/fir/low/level/api/AbstractFirMultiModuleResolveSealedTest.kt:90-101 | modules pass through; `fails` is true iff the member exists and converts to true (false when absent); `fileToResolve` is the parsed object; success iff both are readable; a bad `fails` is the error reported; after a good `fails`, a present non-object `fileToResolve` is the failed cast and an unparsable one is `parse`'s own error; every error is a malformed-structure kind |
| Structure.WellFormedStructureReads | idea/idea-frontend-fir/idea-fir-low-level-api/tests/org/jetbrains/kotlin/idea/fir/low/level/api/AbstractFirMultiModuleResolveSealedTest.kt:93-94 | a structure with string `module`/`file` and no or a boolean `fails` reads as exactly those values, `fails` defaulting to false |
| ModuleGraph.ProjectModel.CreateModule | idea/idea-frontend-fir/idea-fir-low-level-api/tests/org/jetbrains/kotlin/idea/fir/low/level/api/AbstractFirMultiModuleResolveSealedTest.kt:32 | `module(name)` appends one module with that name and returns its new id; edges unchanged |
| ModuleGraph.ProjectModel.AddDependency | idea/idea-frontend-fir/idea-fir-low-level-api/tests/org/jetbrains/kotlin/idea/fir/low/level/api/AbstractFirMultiModuleResolveSealedTest.kt:37 | `addDependency` appends exactly one edge between two existing modules; modules unchanged |
| ModuleGraph.NameMap | idea/idea-frontend-fir/idea-fir-low-level-api/tests/org/jetbrains/kotlin/idea/fir/low/level/api/AbstractFirMultiModuleResolveSealedTest.kt:31-33 | the keys of `modulesByNames` are exactly the declared module names |
| ModuleGraph.NameMapPointsAtLast | idea/idea-frontend-fir/idea-fir-low-level-api/tests/org/jetbrains/kotlin/idea/fir/low/level/api/AbstractFirMultiModuleResolveSealedTest.kt:31-33 | each name maps to a module created for a declaration of that name, and no later declaration has the name (`associate` keeps the last) |
| ModuleGraph.NameMapSize | idea/idea-frontend-fir/idea-fir-low-level-api/tests/org/jetbrains/kotlin/idea/fir/low/level/api/AbstractFirMultiModuleResolveSealedTest.kt:31-33 | one map entry per distinct declared module name |
| ModuleGraph.NameMapDistinct | idea/idea-frontend-fir/idea-fir-low-level-api/tests/org/jetbrains/kotlin/idea/fir/low/level/api/AbstractFirMultiModuleResolveSealedTest.kt:31-33 | with distinct names, the i-th declared module gets the i-th created module |
| ModuleGraph.DependencyDecls | idea/idea-frontend-fir/idea-fir-low-level-api/tests/org/jetbrains/kotlin/idea/fir/low/level/api/AbstractFirMultiModuleResolveSealedTest.kt:34-39 | every (module, dependency) pair the nested loops visit belongs to a declared module |
| ModuleGraph.DependencyDeclsSplit | idea/idea-frontend-fir/idea-fir-low-level-api/tests/org/jetbrains/kotlin/idea/fir/low/level/api/AbstractFirMultiModuleResolveSealedTest.kt:34-39 | the visiting order of the nested loops splits at any module boundary |
| ModuleGraph.DependencyDeclsMembers | idea/idea-frontend-fir/idea-fir-low-level-api/tests/org/jetbrains/kotlin/idea/fir/low/level/api/AbstractFirMultiModuleResolveSealedTest.kt:34-39 | a pair is visited iff some module lists that dependency |
| ModuleGraph.Wire | idea/idea-frontend-fir/idea-fir-low-level-api/tests/org/jetbrains/kotlin/idea/fir/low/level/api/AbstractFirMultiModuleResolveSealedTest.kt:34-39 | the i-th edge joins exactly the modules named by the i-th visited pair; edges are added until the first pair with a name missing from the map, which is the name reported; no failure iff every pair was wired |
| ModuleGraph.WireStep | idea/idea-frontend-fir/idea-fir-low-level-api/tests/org/jetbrains/kotlin/idea/fir/low/level/api/AbstractFirMultiModuleResolveSealedTest.kt:36-37 | visiting one more pair does one more wiring step |
| ModuleGraph.WireFailsIff | idea/idea-frontend-fir/idea-fir-low-level-api/tests/org/jetbrains/kotlin/idea/fir/low/level/api/AbstractFirMultiModuleResolveSealedTest.kt:35-37 | wiring succeeds iff every `getValue` finds its name; on failure the name is that of the first pair that does not |
| ModuleGraph.WireStops | idea/idea-frontend-fir/idea-fir-low-level-api/tests/org/jetbrains/kotlin/idea/fir/low/level/api/AbstractFirMultiModuleResolveSealedTest.kt:37 | after a `getValue` has thrown, later declarations add nothing |
| ModuleGraph.WiredEdgesMirrorDeclarations | idea/idea-frontend-fir/idea-fir-low-level-api/tests/org/jetbrains/kotlin/idea/fir/low/level/api/AbstractFirMultiModuleResolveSealedTest.kt:34-39 | on success an edge exists iff some module lists a dependency, from that module's id to the dependency's id |
| ModuleGraph.UndeclaredDependencyFails | idea/idea-frontend-fir/idea-fir-low-level-api/tests/org/jetbrains/kotlin/idea/fir/low/level/api/AbstractFirMultiModuleResolveSealedTest.kt:37 | a dependency on an undeclared name always makes wiring fail with an undeclared name, never skipping the edge |
| ModuleGraph.DeclaredDependenciesWire | idea/idea-frontend-fir/idea-fir-low-level-api/tests/org/jetbrains/kotlin/idea/fir/low/level/api/AbstractFirMultiModuleResolveSealedTest.kt:34-39 | conversely, when every listed dependency is declared, no `getValue` throws and every declaration gets its edge |
| ModuleGraph.CreateModules | idea/idea-frontend-fir/idea-fir-low-level-api/tests/org/jetbrains/kotlin/idea/fir/low/level/api/AbstractFirMultiModuleResolveSealedTest.kt:31-33 | the `associate` loop creates one module per declaration in order and returns exactly `NameMap` |
| ModuleGraph.WireDependencies | idea/idea-frontend-fir/idea-fir-low-level-api/tests/org/jetbrains/kotlin/idea/fir/low/level/api/AbstractFirMultiModuleResolveSealedTest.kt:34-39 | the nested loops add exactly the edges `Wire` gives, in order, and report exactly its unknown name |
| ModuleGraph.AddDependenciesOf | idea/idea-frontend-fir/idea-fir-low-level-api/tests/org/jetbrains/kotlin/idea/fir/low/level/api/AbstractFirMultiModuleResolveSealedTest.kt:35-38 | the inner loop for one module extends the wiring by that module's dependencies |
| SealedTarget.FirstSealed | idea/idea-frontend-fir/idea-fir-low-level-api/tests/org/jetbrains/kotlin/idea/fir/low/level/api/AbstractFirMultiModuleResolveSealedTest.kt:53 | null iff no declaration is a sealed regular class; else the first one in declaration order |
| SealedTarget.FirstSealedIgnoresLater | idea/idea-frontend-fir/idea-fir-low-level-api/tests/org/jetbrains/kotlin/idea/fir/low/level/api/AbstractFirMultiModuleResolveSealedTest.kt:53 | the tie-break: declarations after the first sealed class never change the selection |
| SealedTarget.SelectedInheritors | idea/idea-frontend-fir/idea-fir-low-level-api/tests/org/jetbrains/kotlin/idea/fir/low/level/api/AbstractFirMultiModuleResolveSealedTest.kt:53-57 | a list exactly when a sealed class is selected and carries one; that list is the one of the first sealed regular class in declaration order |
| SealedTarget.AssertEqualsIgnoreOrder | idea/idea-frontend-fir/idea-fir-low-level-api/tests/org/jetbrains/kotlin/idea/fir/low/level/api/AbstractFirMultiModuleResolveSealedTest.kt:58 | completes iff the names equal the baseline lines as multisets; otherwise throws the mismatch carrying the baseline and the names |
| SealedTarget.AssertEqualsIgnoresOrder | idea/idea-frontend-fir/idea-fir-low-level-api/tests/org/jetbrains/kotlin/idea/fir/low/level/api/AbstractFirMultiModuleResolveSealedTest.kt:58 | permuting the names gives the same result |
| SealedTarget.TryBody | idea/idea-frontend-fir/idea-fir-low-level-api/tests/org/jetbrains/kotlin/idea/fir/low/level/api/AbstractFirMultiModuleResolveSealedTest.kt:50-58 | completes iff the file resolves, a sealed class with inheritors is selected, and they match the baseline up to order; a resolution error is thrown as is; no selection or a null inheritor list throws the null error; a mismatch throws exactly the baseline and the selected names; nothing else is thrown |
| SealedTarget.Reconcile | idea/idea-frontend-fir/idea-fir-low-level-api/tests/org/jetbrains/kotlin/idea/fir/low/level/api/AbstractFirMultiModuleResolveSealedTest.kt:60-66 | pass iff (threw iff `fails`); a throw without `fails` is re-thrown unchanged; a completion with `fails` is the "remove `fails`" error |
| SealedTarget.ReconcileFailures | idea/idea-frontend-fir/idea-fir-low-level-api/tests/org/jetbrains/kotlin/idea/fir/low/level/api/AbstractFirMultiModuleResolveSealedTest.kt:60-66 | a failing verdict is either the original exception or the unexpectedly-passing error |
| ResolveSealedTest.LocateFile | idea/idea-frontend-fir/idea-fir-low-level-api/tests/org/jetbrains/kotlin/idea/fir/low/level/api/AbstractFirMultiModuleResolveSealedTest.kt:40-46 | each outcome in both directions: an undeclared module is `getValue`'s failure for its name; no source root is its own failure; a file missing under the first source root fails with "File " + filePath + " not found"; a found file with a failing resolve state throws that failure, and otherwise is handed on with `fails` unchanged; a success is always that found file |
| ResolveSealedTest.FileUrl | idea/idea-frontend-fir/idea-fir-low-level-api/tests/org/jetbrains/kotlin/idea/fir/low/level/api/AbstractFirMultiModuleResolveSealedTest.kt:41 | the URL is the first source root, one '/', then the relative path |
| ResolveSealedTest.Prepare | idea/idea-frontend-fir/idea-fir-low-level-api/tests/org/jetbrains/kotlin/idea/fir/low/level/api/AbstractFirMultiModuleResolveSealedTest.kt:30-46 | a malformed structure and an unknown dependency name are the failures reported; once wiring succeeds the outcome is exactly the file lookup; reaching the `try` requires a readable structure and complete wiring, and carries its `fails` |
| ResolveSealedTest.Run | idea/idea-frontend-fir/idea-fir-low-level-api/tests/org/jetbrains/kotlin/idea/fir/low/level/api/AbstractFirMultiModuleResolveSealedTest.kt:29-67 | a failure before the `try` is the verdict; an exception in the `try` without `fails` is re-thrown; a completion with `fails` is the unexpectedly-passing error; past the `try` only those errors occur |
| ResolveSealedTest.PassIff | idea/idea-frontend-fir/idea-fir-low-level-api/tests/org/jetbrains/kotlin/idea/fir/low/level/api/AbstractFirMultiModuleResolveSealedTest.kt:50-66 | a run passes iff everything before the `try` succeeds and the `try` throws exactly when `fails` is declared |
| ResolveSealedTest.PreTryFailureIgnoresFails | idea/idea-frontend-fir/idea-fir-low-level-api/tests/org/jetbrains/kotlin/idea/fir/low/level/api/AbstractFirMultiModuleResolveSealedTest.kt:34-46 | a failure before the `try` ends the run with that failure whatever value `fails` is given |
| ResolveSealedTest.PrepareWithFails | idea/idea-frontend-fir/idea-fir-low-level-api/tests/org/jetbrains/kotlin/idea/fir/low/level/api/AbstractFirMultiModuleResolveSealedTest.kt:93-94 | `fails` changes nothing before the `try` except the flag it carries |
| ResolveSealedTest.UndeclaredDependencyEndsRun | idea/idea-frontend-fir/idea-fir-low-level-api/tests/org/jetbrains/kotlin/idea/fir/low/level/api/AbstractFirMultiModuleResolveSealedTest.kt:34-39 | an undeclared dependency ends the run with `getValue`'s failure for an undeclared name |
| ResolveSealedTest.UnknownModuleToResolveEndsRun | idea/idea-frontend-fir/idea-fir-low-level-api/tests/org/jetbrains/kotlin/idea/fir/low/level/api/AbstractFirMultiModuleResolveSealedTest.kt:40 | with all dependencies declared, an undeclared module to resolve ends the run with `getValue`'s failure for its name |
| ResolveSealedTest.MissingFileNamesPath | idea/idea-frontend-fir/idea-fir-low-level-api/tests/org/jetbrains/kotlin/idea/fir/low/level/api/AbstractFirMultiModuleResolveSealedTest.kt:43-44 | a run that ends in file-not-found reports "File " + filePath + " not found" |
| ResolveSealedTest.FileNotFoundIsVerdict | idea/idea-frontend-fir/idea-fir-low-level-api/tests/org/jetbrains/kotlin/idea/fir/low/level/api/AbstractFirMultiModuleResolveSealedTest.kt:43-44 | a file-not-found raised before the `try` is the verdict of the run |
| ResolveSealedTest.MissingFileEndsRun | idea/idea-frontend-fir/idea-fir-low-level-api/tests/org/jetbrains/kotlin/idea/fir/low/level/api/AbstractFirMultiModuleResolveSealedTest.kt:40-44 | with every dependency and the module to resolve declared and given a source root, a file missing under it ends the run with "File " + filePath + " not found" |
| ResolveSealedTest.FoundFileReachesTry | idea/idea-frontend-fir/idea-fir-low-level-api/tests/org/jetbrains/kotlin/idea/fir/low/level/api/AbstractFirMultiModuleResolveSealedTest.kt:40-66 | with every dependency declared and the file found under its module's first source root with a working resolve state, the run reaches the `try` on that file's FIR and its verdict is that `try` reconciled with `fails` |
| ResolveSealedTest.ExpectedFailurePasses | idea/idea-frontend-fir/idea-fir-low-level-api/tests/org/jetbrains/kotlin/idea/fir/low/level/api/AbstractFirMultiModuleResolveSealedTest.kt:60-62 | a resolution failure with `fails` declared passes, whatever the baseline holds |
| ResolveSealedTest.VerdictIgnoresInheritorOrder | idea/idea-frontend-fir/idea-fir-low-level-api/tests/org/jetbrains/kotlin/idea/fir/low/level/api/AbstractFirMultiModuleResolveSealedTest.kt:57-58 | two files whose selected inheritor lists are permutations of each other get the same verdict |
| ResolveSealedTest.ExampleReads | idea/idea-frontend-fir/idea-fir-low-level-api/tests/org/jetbrains/kotlin/idea/fir/low/level/api/AbstractFirMultiModuleResolveSealedTest.kt:90-101 | the example's structure reads as module B's file `f.src` with `fails` false |
| ResolveSealedTest.ExampleWires | idea/idea-frontend-fir/idea-fir-low-level-api/tests/org/jetbrains/kotlin/idea/fir/low/level/api/AbstractFirMultiModuleResolveSealedTest.kt:31-39 | with B depending on A, `associate` binds A to id 0 and B to id 1, and wiring adds the single edge B -> A without failing |
| ResolveSealedTest.ExampleLocates | idea/idea-frontend-fir/idea-fir-low-level-api/tests/org/jetbrains/kotlin/idea/fir/low/level/api/AbstractFirMultiModuleResolveSealedTest.kt:40-46 | with B bound to id 1, B's file is found under B's first source root and handed on with its declarations |
| ResolveSealedTest.ExamplePrepares | idea/idea-frontend-fir/idea-fir-low-level-api/tests/org/jetbrains/kotlin/idea/fir/low/level/api/AbstractFirMultiModuleResolveSealedTest.kt:30-46 | the whole example reaches the `try` with B's file and `fails` false |
| ResolveSealedTest.ExampleSelects | idea/idea-frontend-fir/idea-fir-low-level-api/tests/org/jetbrains/kotlin/idea/fir/low/level/api/AbstractFirMultiModuleResolveSealedTest.kt:53-54 | in the example the first sealed class B.S is selected, with inheritors B.X, B.Y |
| ResolveSealedTest.ExamplePassesInAnyOrder | idea/idea-frontend-fir/idea-fir-low-level-api/tests/org/jetbrains/kotlin/idea/fir/low/level/api/AbstractFirMultiModuleResolveSealedTest.kt:58 | a baseline listing the inheritors in another order passes |
| ResolveSealedTest.ExampleReportsMismatch | idea/idea-frontend-fir/idea-fir-low-level-api/tests/org/jetbrains/kotlin/idea/fir/low/level/api/AbstractFirMultiModuleResolveSealedTest.kt:58-61 | a baseline of B.X alone fails with the mismatch of the baseline and the inheritors |
| ResolveSealedTest.ExampleUnexpectedlyPasses | idea/idea-frontend-fir/idea-fir-low-level-api/tests/org/jetbrains/kotlin/idea/fir/low/level/api/AbstractFirMultiModuleResolveSealedTest.kt:64-66 | declaring `fails` turns the example's pass into the unexpectedly-passing error |
| ResolveSealedTest.DoTest | idea/idea-frontend-fir/idea-fir-low-level-api/tests/org/jetbrains/kotlin/idea/fir/low/level/api/AbstractFirMultiModuleResolveSealedTest.kt:29-67 | the method's verdict equals `Run`; the project gains exactly the declared modules and the edges `Wire` gives, or nothing when the structure is malformed |

## Left out

- IntelliJ project machinery (`module(...)`, `sourceRoots`, `VirtualFileManager`, `PsiManager`) is abstracted. Created modules are ids in `ProjectModel`. Source roots and files are maps in `Host`, and a missing key is the failure. A found file is assumed to be a Kotlin file, so the `as KtFile` cast is not modelled.
- FIR resolution (`getResolveState`, `getOrBuildFir`) is modelled as data on each file: an optional resolve-state exception, and either a declaration list or an exception. The `as FirFile` cast is assumed to succeed.
- `ClassId.asString` is not modelled: inheritors are given already as strings.
- `executeOnPooledThreadInReadAction` is a plain synchronous call. Any wrapping of exceptions by the worker thread is not modelled.
- Gson parsing and `TestProjectStructureReader` are not part of this model. The driver starts from an already-read module list and JSON object. `getString` from the IDE's JSON utilities is not part of this model either: it is taken as "member present, then Gson `getAsString`", and an absent member is an error.
- `ParseBoolean` folds ASCII case only. That is exact for comparison with "true".
- `KotlinTestUtils.assertEqualsToFileIgnoreOrder` is modelled as multiset equality against the baseline lines. Reading `expected.txt`, a missing baseline file, line splitting and the diff text are not modelled. The mismatch error carries both multisets.
- Exception classes are grouped into the `Failure` kinds rather than named one by one. For example, a null or non-object `fileToResolve` is a failed requirement or a failed cast.
- DoTest: returns the verdict instead of throwing it.
- `getTestDataPath` and the test-data path layout are not modelled. The baseline is a parameter.
- `compiler/testData/diagnostics/tests/delegatedProperty/inference/extensionProperty.fir.kt` is diagnostics test data with no logic.

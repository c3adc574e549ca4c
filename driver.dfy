/** `AbstractFirMultiModuleResolveSealedTest.doTest`: read the structure,
    build the module graph, find the file, resolve it inside the `try`, and
    reconcile the outcome with the `fails` flag. */
module ResolveSealedTest {
  import opened Errors
  import opened Json
  import opened Structure
  import opened ModuleGraph
  import opened SealedTarget

  /** A Kotlin file as the IDE hands it out: the exception `getResolveState`
      throws, if any, and what `getOrBuildFir` yields for it. */
  datatype KtFile = KtFile(resolveStateFailure: Option<string>, fir: FirResult)

  /** The IDE around the test: the source-root URLs of each created module
      (a module absent from the map has none) and the files by URL. */
  datatype Host = Host(sourceRoots: map<ModuleId, seq<string>>, files: map<string, KtFile>)

  function SourceRootsOf(host: Host, id: ModuleId): seq<string>
  {
    if id in host.sourceRoots then host.sourceRoots[id] else []
  }

  /** `sourceRoots.first().url + "/" + relativeFilePath`: where the file is
      looked up, under the first source root of its module. */
  function FileUrl(roots: seq<string>, f: FileToResolve): (url: string)
    requires roots != []
    ensures |url| == |roots[0]| + 1 + |f.relativeFilePath|
    ensures url[..|roots[0]|] == roots[0] && url[|roots[0]|] == '/'
    ensures url[|roots[0]| + 1..] == f.relativeFilePath
  {
    roots[0] + "/" + f.relativeFilePath
  }

  /** What the `try` starts from: the resolvable file and the `fails` flag. */
  datatype Prepared = Prepared(fir: FirResult, fails: bool)

  /** The module to resolve is declared and has a first source root. */
  predicate HasSourceRoot(st: SealedTestStructure, byName: map<string, ModuleId>, host: Host)
  {
    st.fileToResolve.moduleName in byName && SourceRootsOf(host, byName[st.fileToResolve.moduleName]) != []
  }

  /** `fileToAnalysePath`: the URL of the file to resolve under the first
      source root of its module. */
  function TargetUrl(st: SealedTestStructure, byName: map<string, ModuleId>, host: Host): string
    requires HasSourceRoot(st, byName, host)
  {
    FileUrl(SourceRootsOf(host, byName[st.fileToResolve.moduleName]), st.fileToResolve)
  }

  /** The file lookup after the graph is built: `getValue` of the module to
      resolve, the first source root, the file under it, its resolve state.
      Each outcome is stated in both directions. */
  function LocateFile(st: SealedTestStructure, byName: map<string, ModuleId>, host: Host): (r: Result<Prepared>)
    ensures r.Err? && r.error.FileNotFound? ==>
              r.error.message == "File " + FilePath(st.fileToResolve) + " not found"
    ensures st.fileToResolve.moduleName !in byName ==> r == Err(MissingKey(st.fileToResolve.moduleName))
    ensures st.fileToResolve.moduleName in byName && !HasSourceRoot(st, byName, host)
            ==> r == Err(NoSourceRoot(st.fileToResolve.moduleName))
    ensures HasSourceRoot(st, byName, host) && TargetUrl(st, byName, host) !in host.files
            ==> r == Err(FileNotFound("File " + FilePath(st.fileToResolve) + " not found"))
    ensures HasSourceRoot(st, byName, host) && TargetUrl(st, byName, host) in host.files
            ==> var file := host.files[TargetUrl(st, byName, host)];
                if file.resolveStateFailure.Some? then r == Err(ResolutionError(file.resolveStateFailure.value))
                else r == Ok(Prepared(file.fir, st.fails))
    ensures r.Ok? ==> HasSourceRoot(st, byName, host) && TargetUrl(st, byName, host) in host.files
                      && r.value.fir == host.files[TargetUrl(st, byName, host)].fir
                      && r.value.fails == st.fails
  {
    var f := st.fileToResolve;
    if f.moduleName !in byName then Err(MissingKey(f.moduleName))
    else
      var roots := SourceRootsOf(host, byName[f.moduleName]);
      if roots == [] then Err(NoSourceRoot(f.moduleName))
      else
        var url := FileUrl(roots, f);
        if url !in host.files then Err(FileNotFound("File " + FilePath(f) + " not found"))
        else
          var ktFile := host.files[url];
          if ktFile.resolveStateFailure.Some? then Err(ResolutionError(ktFile.resolveStateFailure.value))
          else Ok(Prepared(ktFile.fir, st.fails))
  }

  /** Everything `doTest` does before the `try`, with the modules created
      from id `base` on. Each failure here is thrown outside the `try`. */
  function Prepare(tps: TestProjectStructure, host: Host, base: nat): (r: Result<Prepared>)
    ensures FromTestProjectStructure(tps).Err? ==> r == Err(FromTestProjectStructure(tps).error)
    ensures FromTestProjectStructure(tps).Ok? ==>
              var ms := FromTestProjectStructure(tps).value.modules;
              var w := Wire(DependencyDecls(ms), NameMap(ms, base));
              w.unknown.Some? ==> r == Err(MissingKey(w.unknown.value))
    ensures FromTestProjectStructure(tps).Ok? ==>
              var st := FromTestProjectStructure(tps).value;
              Wire(DependencyDecls(st.modules), NameMap(st.modules, base)).unknown.None?
              ==> r == LocateFile(st, NameMap(st.modules, base), host)
    ensures r.Ok? ==> FromTestProjectStructure(tps).Ok?
                      && r.value.fails == FromTestProjectStructure(tps).value.fails
                      && var ms := FromTestProjectStructure(tps).value.modules;
                         Wire(DependencyDecls(ms), NameMap(ms, base)).unknown.None?
  {
    match FromTestProjectStructure(tps)
    case Err(e) => Err(e)
    case Ok(st) =>
      var byName := NameMap(st.modules, base);
      var w := Wire(DependencyDecls(st.modules), byName);
      if w.unknown.Some? then Err(MissingKey(w.unknown.value))
      else LocateFile(st, byName, host)
  }

  /** The verdict of one run of `doTest`. */
  function Run(tps: TestProjectStructure, host: Host, baseline: seq<string>, base: nat): (v: Verdict)
    ensures Prepare(tps, host, base).Err? ==> v == Fail(Prepare(tps, host, base).error)
    ensures Prepare(tps, host, base).Ok? && !Prepare(tps, host, base).value.fails
            && TryBody(Prepare(tps, host, base).value.fir, baseline).Threw?
            ==> v == Fail(TryBody(Prepare(tps, host, base).value.fir, baseline).error)
    ensures Prepare(tps, host, base).Ok? && Prepare(tps, host, base).value.fails
            && TryBody(Prepare(tps, host, base).value.fir, baseline).Completed?
            ==> v == Fail(UnexpectedlyPassing(RemoveFailsMessage))
    ensures v.Fail? && Prepare(tps, host, base).Ok? ==>
              v.error.UnexpectedlyPassing? || v.error.ResolutionError?
              || v.error.NullInheritors? || v.error.BaselineMismatch?
  {
    match Prepare(tps, host, base)
    case Err(e) => Fail(e)
    case Ok(p) => Reconcile(TryBody(p.fir, baseline), p.fails)
  }

  /** A run passes exactly when everything before the `try` succeeds and the
      `try` throws precisely when the structure declares `fails`. */
  lemma PassIff(tps: TestProjectStructure, host: Host, baseline: seq<string>, base: nat)
    ensures Run(tps, host, baseline, base) == Pass <==>
              Prepare(tps, host, base).Ok?
              && (TryBody(Prepare(tps, host, base).value.fir, baseline).Threw?
                  <==> Prepare(tps, host, base).value.fails)
  {
    match Prepare(tps, host, base)
    case Err(e) =>
    case Ok(p) => assert Run(tps, host, baseline, base) == Reconcile(TryBody(p.fir, baseline), p.fails);
  }

  /** The structure with its `fails` member set to `b`. */
  function WithFails(tps: TestProjectStructure, b: bool): TestProjectStructure
  {
    tps.(json := tps.json[FailsField := JBool(b)])
  }

  /** Failures thrown before the `try` (an undeclared dependency, an unknown
      module to resolve, a missing source root or file, a failing resolve
      state) end the run with that same failure whatever `fails` says. */
  lemma PreTryFailureIgnoresFails(tps: TestProjectStructure, host: Host, baseline: seq<string>, base: nat, b: bool)
    requires FromTestProjectStructure(tps).Ok?
    requires Prepare(tps, host, base).Err?
    ensures Run(WithFails(tps, b), host, baseline, base) == Fail(Prepare(tps, host, base).error)
  {
    var st := FromTestProjectStructure(tps).value;
    var tps' := WithFails(tps, b);
    assert FailsField != FileToResolveField;
    assert tps'.json[FileToResolveField] == tps.json[FileToResolveField];
    assert FromTestProjectStructure(tps') == Ok(st.(fails := b));
  }

  /** `fails` is read only for the reconciliation: setting it leaves what
      reaches the `try` unchanged apart from the flag itself. */
  lemma PrepareWithFails(tps: TestProjectStructure, host: Host, base: nat, b: bool)
    requires FromTestProjectStructure(tps).Ok?
    requires Prepare(tps, host, base).Ok?
    ensures Prepare(WithFails(tps, b), host, base) == Ok(Prepare(tps, host, base).value.(fails := b))
  {
    var st := FromTestProjectStructure(tps).value;
    var tps' := WithFails(tps, b);
    assert FailsField != FileToResolveField;
    assert tps'.json[FileToResolveField] == tps.json[FileToResolveField];
    assert FromTestProjectStructure(tps') == Ok(st.(fails := b));
  }

  /** A file-not-found thrown before the `try` is the verdict of the run. */
  lemma FileNotFoundIsVerdict(tps: TestProjectStructure, host: Host, baseline: seq<string>, base: nat)
    requires Prepare(tps, host, base).Err? && Prepare(tps, host, base).error.FileNotFound?
    ensures Run(tps, host, baseline, base) == Fail(Prepare(tps, host, base).error)
  {
  }

  /** With every dependency declared and the module to resolve declared and
      given a source root, a file missing under its first source root ends
      the run with "File <module>/<file> not found", whatever `fails` says. */
  lemma MissingFileEndsRun(tps: TestProjectStructure, host: Host, baseline: seq<string>, base: nat)
    requires FromTestProjectStructure(tps).Ok?
    requires var ms := tps.modules;
             forall i, k :: 0 <= i < |ms| && 0 <= k < |ms[i].dependsOnModules| ==> ms[i].dependsOnModules[k] in ModuleNames(ms)
    requires var st := FromTestProjectStructure(tps).value;
             var byName := NameMap(tps.modules, base);
             HasSourceRoot(st, byName, host) && TargetUrl(st, byName, host) !in host.files
    ensures Run(tps, host, baseline, base)
            == Fail(FileNotFound("File " + FilePath(FromTestProjectStructure(tps).value.fileToResolve) + " not found"))
  {
    DeclaredDependenciesWire(tps.modules, base);
  }

  /** With every dependency declared and the file found under the first
      source root of its declared module with a working resolve state, the
      run reaches the `try` on that file's FIR: its verdict is the
      reconciliation of the `try` body with `fails`. */
  lemma FoundFileReachesTry(tps: TestProjectStructure, host: Host, baseline: seq<string>, base: nat)
    requires FromTestProjectStructure(tps).Ok?
    requires var ms := tps.modules;
             forall i, k :: 0 <= i < |ms| && 0 <= k < |ms[i].dependsOnModules| ==> ms[i].dependsOnModules[k] in ModuleNames(ms)
    requires var st := FromTestProjectStructure(tps).value;
             var byName := NameMap(tps.modules, base);
             HasSourceRoot(st, byName, host) && TargetUrl(st, byName, host) in host.files
             && host.files[TargetUrl(st, byName, host)].resolveStateFailure.None?
    ensures var st := FromTestProjectStructure(tps).value;
            var file := host.files[TargetUrl(st, NameMap(tps.modules, base), host)];
            Prepare(tps, host, base) == Ok(Prepared(file.fir, st.fails))
            && Run(tps, host, baseline, base) == Reconcile(TryBody(file.fir, baseline), st.fails)
  {
    DeclaredDependenciesWire(tps.modules, base);
  }

  /** A dependency on an undeclared module ends the run with `getValue`'s
      failure for an undeclared name, whatever `fails` says, and never with a
      skipped edge. */
  lemma UndeclaredDependencyEndsRun(tps: TestProjectStructure, host: Host, baseline: seq<string>, base: nat, i: nat, k: nat)
    requires FromTestProjectStructure(tps).Ok?
    requires var ms := tps.modules;
             i < |ms| && k < |ms[i].dependsOnModules| && ms[i].dependsOnModules[k] !in ModuleNames(ms)
    ensures Run(tps, host, baseline, base).Fail?
    ensures Run(tps, host, baseline, base).error.MissingKey?
    ensures Run(tps, host, baseline, base).error.key !in ModuleNames(tps.modules)
  {
    UndeclaredDependencyFails(tps.modules, base, i, k);
  }

  /** With every dependency declared, a module to resolve that is not
      declared ends the run with `getValue`'s failure for its name, whatever
      `fails` says. */
  lemma UnknownModuleToResolveEndsRun(tps: TestProjectStructure, host: Host, baseline: seq<string>, base: nat)
    requires FromTestProjectStructure(tps).Ok?
    requires var ms := tps.modules;
             forall i, k :: 0 <= i < |ms| && 0 <= k < |ms[i].dependsOnModules| ==> ms[i].dependsOnModules[k] in ModuleNames(ms)
    requires FromTestProjectStructure(tps).value.fileToResolve.moduleName !in ModuleNames(tps.modules)
    ensures Run(tps, host, baseline, base) == Fail(MissingKey(FromTestProjectStructure(tps).value.fileToResolve.moduleName))
  {
    DeclaredDependenciesWire(tps.modules, base);
  }


  /** A file that cannot be found ends the run with a message naming the
      module-relative path of the file, whatever `fails` says. */
  lemma MissingFileNamesPath(tps: TestProjectStructure, host: Host, baseline: seq<string>, base: nat)
    requires Run(tps, host, baseline, base).Fail? && Run(tps, host, baseline, base).error.FileNotFound?
    ensures FromTestProjectStructure(tps).Ok?
    ensures var f := FromTestProjectStructure(tps).value.fileToResolve;
            Run(tps, host, baseline, base).error.message == "File " + FilePath(f) + " not found"
  {
  }

  /** A resolution failure inside the `try` with `fails` declared passes, and
      does so whatever the baseline holds. */
  lemma ExpectedFailurePasses(tps: TestProjectStructure, host: Host, baseline: seq<string>, other: seq<string>, base: nat)
    requires Prepare(tps, host, base).Ok?
    requires Prepare(tps, host, base).value.fails
    requires Prepare(tps, host, base).value.fir.FirError?
    ensures Run(tps, host, baseline, base) == Pass
    ensures Run(tps, host, other, base) == Pass
  {
  }

  /** The verdict depends on the inheritor names only up to order: two files
      whose selected inheritor lists are permutations of each other get the
      same verdict. */
  lemma VerdictIgnoresInheritorOrder(tps: TestProjectStructure, host: Host, host': Host, baseline: seq<string>, base: nat)
    requires Prepare(tps, host, base).Ok? && Prepare(tps, host', base).Ok?
    requires var p, p' := Prepare(tps, host, base).value, Prepare(tps, host', base).value;
             p.fir.FirFile? && p'.fir.FirFile?
             && SelectedInheritors(p.fir.declarations).Some?
             && SelectedInheritors(p'.fir.declarations).Some?
             && multiset(SelectedInheritors(p.fir.declarations).value)
                == multiset(SelectedInheritors(p'.fir.declarations).value)
    ensures Run(tps, host, baseline, base) == Run(tps, host', baseline, base)
  {
    var p, p' := Prepare(tps, host, base).value, Prepare(tps, host', base).value;
    AssertEqualsIgnoresOrder(baseline, SelectedInheritors(p.fir.declarations).value,
                             SelectedInheritors(p'.fir.declarations).value);
  }

  /** Module B depends on module A; the file `f.src` of B is resolved and
      `fails` is false. */
  function ExampleStructure(): TestProjectStructure
  {
    TestProjectStructure(
      [TestProjectModule("A", []), TestProjectModule("B", ["A"])],
      map[FileToResolveField := JObject(map["module" := JString("B"), "file" := JString("f.src")]),
          FailsField := JBool(false)])
  }

  /** The IDE for the example: one source root per module, and B's file
      declares a function and then a sealed class with inheritors B.X, B.Y. */
  function ExampleHost(): Host
  {
    Host(map[0 := ["temp:///src/A"], 1 := ["temp:///src/B"]],
         map["temp:///src/B/f.src" := KtFile(None, FirFile([
               OtherDeclaration("f"),
               RegularClass("B.S", true, Some(["B.X", "B.Y"]))]))])
  }

  /** The declarations of B's file in the example. */
  function ExampleDecls(): seq<Declaration>
  {
    [OtherDeclaration("f"), RegularClass("B.S", true, Some(["B.X", "B.Y"]))]
  }

  /** In the example A gets id 0, B id 1, and the one edge is B -> A. */
  lemma ExampleWires()
    ensures NameMap(ExampleStructure().modules, 0) == map["A" := 0, "B" := 1]
    ensures Wire(DependencyDecls(ExampleStructure().modules), NameMap(ExampleStructure().modules, 0))
            == Wiring([Edge(1, 0)], None)
  {
    var ms := ExampleStructure().modules;
    assert ms[..1] == [ms[0]];
    var byName := NameMap(ms, 0);
    assert byName == map["A" := 0, "B" := 1];
    assert DeclsOf(ms[1]) == [Decl("B", "A")];
    assert DependencyDecls(ms) == [Decl("B", "A")];
    assert Wire(DependencyDecls(ms), byName) == Wiring([Edge(1, 0)], None) by {
      assert [Decl("B", "A")][..0] == [];
    }
  }

  /** The example structure as `fromTestProjectStructure` reads it. */
  function ExampleSealed(): SealedTestStructure
  {
    SealedTestStructure(ExampleStructure().modules, FileToResolve("B", "f.src"), false)
  }

  /** The example reads as module B's file `f.src`, with `fails` false. */
  lemma ExampleReads()
    ensures FromTestProjectStructure(ExampleStructure()) == Ok(ExampleSealed())
  {
    WellFormedStructureReads(ExampleStructure(), "B", "f.src");
  }

  /** With B bound to id 1, B's file is found under B's source root. */
  lemma ExampleLocates()
    ensures LocateFile(ExampleSealed(), map["A" := 0, "B" := 1], ExampleHost())
            == Ok(Prepared(FirFile(ExampleDecls()), false))
  {
    var byName := map["A" := 0, "B" := 1];
    assert TargetUrl(ExampleSealed(), byName, ExampleHost()) == "temp:///src/B/f.src" by {
      assert FileUrl(["temp:///src/B"], FileToResolve("B", "f.src")) == "temp:///src/B/f.src";
    }
  }

  /** The example reaches the `try` with B's file and `fails` false. */
  lemma ExamplePrepares()
    ensures Prepare(ExampleStructure(), ExampleHost(), 0) == Ok(Prepared(FirFile(ExampleDecls()), false))
  {
    ExampleReads();
    ExampleWires();
    ExampleLocates();
  }

  /** In the example the selected class is B.S with inheritors B.X, B.Y. */
  lemma ExampleSelects()
    ensures SelectedInheritors(ExampleDecls()) == Some(["B.X", "B.Y"])
  {
    var ds := ExampleDecls();
    assert ds[1..][0] == ds[1];
    assert FirstSealed(ds) == Some(ds[1]);
  }

  /** The baseline in another order passes. */
  lemma ExamplePassesInAnyOrder()
    ensures Run(ExampleStructure(), ExampleHost(), ["B.Y", "B.X"], 0) == Pass
  {
    ExamplePrepares();
    ExampleSelects();
    assert multiset(["B.X", "B.Y"]) == multiset(["B.Y", "B.X"]);
  }

  /** A baseline missing one inheritor fails with the mismatch. */
  lemma ExampleReportsMismatch()
    ensures Run(ExampleStructure(), ExampleHost(), ["B.X"], 0)
            == Fail(BaselineMismatch(multiset{"B.X"}, multiset{"B.X", "B.Y"}))
  {
    ExamplePrepares();
    ExampleSelects();
    assert multiset(["B.X", "B.Y"]) == multiset{"B.X", "B.Y"};
    assert multiset(["B.X"]) == multiset{"B.X"};
  }

  /** Declaring `fails` turns the pass into the unexpectedly-passing error. */
  lemma ExampleUnexpectedlyPasses()
    ensures Run(WithFails(ExampleStructure(), true), ExampleHost(), ["B.X", "B.Y"], 0)
            == Fail(UnexpectedlyPassing(RemoveFailsMessage))
  {
    ExamplePrepares();
    ExampleSelects();
    WellFormedStructureReads(ExampleStructure(), "B", "f.src");
    PrepareWithFails(ExampleStructure(), ExampleHost(), 0, true);
  }

  /** `doTest`. The modules are created in `project` with ids from its
      current size on; the verdict is returned instead of thrown. */
  method DoTest(project: ProjectModel, tps: TestProjectStructure, host: Host, baseline: seq<string>)
    returns (v: Verdict)
    requires project.Valid()
    modifies project
    ensures project.Valid()
    ensures v == Run(tps, host, baseline, |old(project.modules)|)
    ensures FromTestProjectStructure(tps).Err? ==>
              project.modules == old(project.modules) && project.edges == old(project.edges)
    ensures FromTestProjectStructure(tps).Ok? ==>
              project.modules == old(project.modules) + Names(tps.modules)
              && project.edges == old(project.edges)
                 + Wire(DependencyDecls(tps.modules), NameMap(tps.modules, |old(project.modules)|)).edges
  {
    ghost var base := |project.modules|;
    var parsed := FromTestProjectStructure(tps);
    if parsed.Err? {
      return Fail(parsed.error);
    }
    var testStructure := parsed.value;
    var modulesByNames := CreateModules(project, testStructure.modules);
    forall n | n in modulesByNames ensures modulesByNames[n] < |project.modules| {
      NameMapPointsAtLast(testStructure.modules, base, n);
    }
    var unknown := WireDependencies(project, testStructure.modules, modulesByNames);
    if unknown.Some? {
      return Fail(MissingKey(unknown.value));
    }
    var fileToResolve := testStructure.fileToResolve;
    if fileToResolve.moduleName !in modulesByNames {
      return Fail(MissingKey(fileToResolve.moduleName));
    }
    var moduleToResolve := modulesByNames[fileToResolve.moduleName];
    var roots := SourceRootsOf(host, moduleToResolve);
    if roots == [] {
      return Fail(NoSourceRoot(fileToResolve.moduleName));
    }
    var fileToAnalysePath := FileUrl(roots, fileToResolve);
    if fileToAnalysePath !in host.files {
      return Fail(FileNotFound("File " + FilePath(fileToResolve) + " not found"));
    }
    var ktFileToAnalyse := host.files[fileToAnalysePath];
    if ktFileToAnalyse.resolveStateFailure.Some? {
      return Fail(ResolutionError(ktFileToAnalyse.resolveStateFailure.value));
    }
    var fails := testStructure.fails;
    var outcome := TryBody(ktFileToAnalyse.fir, baseline);
    if outcome.Threw? {
      if !fails {
        return Fail(outcome.error);
      }
      return Pass;
    }
    if fails {
      return Fail(UnexpectedlyPassing(RemoveFailsMessage));
    }
    return Pass;
  }
}

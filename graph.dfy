/** Assembling the module graph: one host module per declared module, then
    one dependency edge per declared dependency, looked up by name. */
module ModuleGraph {
  import opened Errors
  import opened Structure

  /** A host module is identified by the position at which it was created. */
  type ModuleId = nat

  /** One `addDependency(from, to)` call. */
  datatype Edge = Edge(from: ModuleId, to: ModuleId)

  /** The host project the test populates: the modules created in it, in
      creation order, and every dependency added to them, in call order. */
  class ProjectModel {
    var modules: seq<string>
    var edges: seq<Edge>

    /** Every edge joins two modules of this project. */
    ghost predicate Valid()
      reads this
    {
      forall e :: e in edges ==> e.from < |modules| && e.to < |modules|
    }

    constructor ()
      ensures Valid() && modules == [] && edges == []
    {
      modules := [];
      edges := [];
    }

    /** `module(name)`: creates a new module and returns its handle. */
    method CreateModule(name: string) returns (id: ModuleId)
      requires Valid()
      modifies this
      ensures Valid()
      ensures id == |old(modules)| && modules == old(modules) + [name] && edges == old(edges)
    {
      id := |modules|;
      modules := modules + [name];
    }

    /** `from.addDependency(to)`. */
    method AddDependency(from: ModuleId, to: ModuleId)
      requires Valid() && from < |modules| && to < |modules|
      modifies this
      ensures Valid()
      ensures modules == old(modules) && edges == old(edges) + [Edge(from, to)]
    {
      edges := edges + [Edge(from, to)];
    }
  }

  /** The names of the declared modules, in declaration order. */
  function Names(ms: seq<TestProjectModule>): seq<string>
  {
    seq(|ms|, i requires 0 <= i < |ms| => ms[i].name)
  }

  /** The set of declared module names. */
  function ModuleNames(ms: seq<TestProjectModule>): set<string>
  {
    set i | 0 <= i < |ms| :: ms[i].name
  }

  /** `modules.associate { it.name to module(it.name) }` when the modules are
      created from id `base` on: each declared name maps to the module created
      for the LAST declaration of that name. */
  function NameMap(ms: seq<TestProjectModule>, base: nat): (m: map<string, ModuleId>)
    ensures m.Keys == ModuleNames(ms)
    decreases |ms|
  {
    if ms == [] then map[]
    else
      ModuleNamesSnoc(ms);
      NameMap(ms[..|ms| - 1], base)[ms[|ms| - 1].name := base + |ms| - 1]
  }

  lemma ModuleNamesSnoc(ms: seq<TestProjectModule>)
    requires ms != []
    ensures ModuleNames(ms) == ModuleNames(ms[..|ms| - 1]) + {ms[|ms| - 1].name}
  {
    var prefix := ms[..|ms| - 1];
    forall n | n in ModuleNames(ms) ensures n in ModuleNames(prefix) + {ms[|ms| - 1].name} {
      var i :| 0 <= i < |ms| && ms[i].name == n;
      if i < |ms| - 1 { assert prefix[i].name == n; }
    }
    forall n | n in ModuleNames(prefix) ensures n in ModuleNames(ms) {
      var i :| 0 <= i < |prefix| && prefix[i].name == n;
      assert ms[i].name == n;
    }
  }

  /** Each name is bound to a module created for a declaration of that
      name, and no later declaration carries the name. */
  lemma {:induction false} NameMapPointsAtLast(ms: seq<TestProjectModule>, base: nat, n: string)
    requires n in NameMap(ms, base)
    ensures var id := NameMap(ms, base)[n];
            base <= id < base + |ms| && ms[id - base].name == n
            && forall j :: id - base < j < |ms| ==> ms[j].name != n
    decreases |ms|
  {
    var k := |ms| - 1;
    var prefix := ms[..k];
    var pm := NameMap(prefix, base);
    assert NameMap(ms, base) == pm[ms[k].name := base + k];
    if ms[k].name == n {
      assert NameMap(ms, base)[n] == base + k;
    } else {
      assert n in pm && NameMap(ms, base)[n] == pm[n];
      NameMapPointsAtLast(prefix, base, n);
      var i := pm[n] - base;
      assert ms[i] == prefix[i];
      forall j | i < j < |ms| ensures ms[j].name != n {
        if j < k { assert ms[j] == prefix[j]; }
      }
    }
  }

  /** The name map has exactly one entry per distinct declared name. */
  lemma NameMapSize(ms: seq<TestProjectModule>, base: nat)
    ensures |NameMap(ms, base)| == |ModuleNames(ms)|
  {
    assert NameMap(ms, base).Keys == ModuleNames(ms);
  }

  /** With distinct names, the i-th declared module gets the i-th new id. */
  lemma NameMapDistinct(ms: seq<TestProjectModule>, base: nat, i: nat)
    requires forall j, k :: 0 <= j < k < |ms| ==> ms[j].name != ms[k].name
    requires i < |ms|
    ensures ms[i].name in NameMap(ms, base) && NameMap(ms, base)[ms[i].name] == base + i
  {
    assert ms[i].name in ModuleNames(ms);
    NameMapPointsAtLast(ms, base, ms[i].name);
  }

  /** One dependency declaration: a module name and the name it depends on. */
  datatype Decl = Decl(moduleName: string, dependency: string)

  /** The declarations of one module, in its `dependsOnModules` order. */
  function DeclsOf(md: TestProjectModule): seq<Decl>
  {
    seq(|md.dependsOnModules|, k requires 0 <= k < |md.dependsOnModules| => Decl(md.name, md.dependsOnModules[k]))
  }

  /** All dependency declarations, in the order the nested loops visit them. */
  function DependencyDecls(ms: seq<TestProjectModule>): (ds: seq<Decl>)
    ensures forall d :: d in ds ==> d.moduleName in ModuleNames(ms)
    decreases |ms|
  {
    if ms == [] then [] else DependencyDecls(ms[..|ms| - 1]) + DeclsOf(ms[|ms| - 1])
  }

  /** The visiting order splits at any module boundary. */
  lemma {:induction false} DependencyDeclsSplit(ms: seq<TestProjectModule>, i: nat)
    requires i <= |ms|
    ensures DependencyDecls(ms) == DependencyDecls(ms[..i]) + DependencyDecls(ms[i..])
    decreases |ms|
  {
    if i == |ms| {
      assert ms[..i] == ms;
      assert ms[i..] == [];
    } else {
      var prefix := ms[..|ms| - 1];
      DependencyDeclsSplit(prefix, i);
      assert prefix[..i] == ms[..i];
      assert ms[i..][..|ms[i..]| - 1] == prefix[i..];
      assert ms[i..][|ms[i..]| - 1] == ms[|ms| - 1];
    }
  }

  /** A dependency declaration is visited exactly when some module lists it. */
  lemma {:induction false} DependencyDeclsMembers(ms: seq<TestProjectModule>, d: Decl)
    ensures d in DependencyDecls(ms) <==>
            exists i, k :: 0 <= i < |ms| && 0 <= k < |ms[i].dependsOnModules|
                           && d == Decl(ms[i].name, ms[i].dependsOnModules[k])
    decreases |ms|
  {
    if ms != [] {
      var prefix := ms[..|ms| - 1];
      var last := ms[|ms| - 1];
      DependencyDeclsMembers(prefix, d);
      if d in DependencyDecls(ms) {
        if d in DependencyDecls(prefix) {
          var i, k :| 0 <= i < |prefix| && 0 <= k < |prefix[i].dependsOnModules|
                      && d == Decl(prefix[i].name, prefix[i].dependsOnModules[k]);
          assert ms[i] == prefix[i];
        } else {
          assert d in DeclsOf(last);
          var k :| 0 <= k < |last.dependsOnModules| && DeclsOf(last)[k] == d;
          assert d == Decl(ms[|ms| - 1].name, ms[|ms| - 1].dependsOnModules[k]);
        }
      } else {
        forall i, k | 0 <= i < |ms| && 0 <= k < |ms[i].dependsOnModules|
          ensures d != Decl(ms[i].name, ms[i].dependsOnModules[k])
        {
          if i < |ms| - 1 {
            assert ms[i] == prefix[i];
          } else {
            assert DeclsOf(last)[k] == Decl(ms[i].name, ms[i].dependsOnModules[k]);
          }
        }
      }
    }
  }

  /** What the wiring loop leaves behind: the edges it added and, when a
      `getValue` threw, the name it could not find. */
  datatype Wiring = Wiring(edges: seq<Edge>, unknown: Option<string>)

  /** Both names of a declaration are in the map, so both `getValue` calls
      succeed. */
  predicate Resolves(d: Decl, byName: map<string, ModuleId>)
  {
    d.moduleName in byName && d.dependency in byName
  }

  /** The name whose `getValue` throws first: the module's own name is
      looked up before its dependency's. */
  function MissingName(d: Decl, byName: map<string, ModuleId>): string
  {
    if d.moduleName !in byName then d.moduleName else d.dependency
  }

  /** Wiring the declarations `ds` in order through the name map: each
      declaration adds one edge, until the first declaration with a name the
      map does not hold, which stops the loop with nothing more added. */
  function Wire(ds: seq<Decl>, byName: map<string, ModuleId>): (w: Wiring)
    ensures |w.edges| <= |ds|
    ensures forall i :: 0 <= i < |w.edges| ==>
              Resolves(ds[i], byName) && w.edges[i] == Edge(byName[ds[i].moduleName], byName[ds[i].dependency])
    ensures w.unknown.None? <==> |w.edges| == |ds|
    ensures w.unknown.Some? ==>
              !Resolves(ds[|w.edges|], byName) && w.unknown.value == MissingName(ds[|w.edges|], byName)
    decreases |ds|
  {
    if ds == [] then Wiring([], None)
    else
      WireOne(Wire(ds[..|ds| - 1], byName), ds[|ds| - 1], byName)
  }

  /** Wiring fails exactly when some declaration names an unknown module,
      and then at the first such declaration. */
  lemma WireFailsIff(ds: seq<Decl>, byName: map<string, ModuleId>)
    ensures Wire(ds, byName).unknown.None? <==> forall i :: 0 <= i < |ds| ==> Resolves(ds[i], byName)
    ensures Wire(ds, byName).unknown.Some? ==>
              exists i :: 0 <= i < |ds| && !Resolves(ds[i], byName)
                          && Wire(ds, byName).unknown.value == MissingName(ds[i], byName)
                          && forall j :: 0 <= j < i ==> Resolves(ds[j], byName)
  {
    var w := Wire(ds, byName);
    if w.unknown.Some? {
      assert !Resolves(ds[|w.edges|], byName);
    }
  }

  /** Once wiring has stopped, later declarations change nothing. */
  lemma {:induction false} WireStops(ds: seq<Decl>, rest: seq<Decl>, byName: map<string, ModuleId>)
    requires Wire(ds, byName).unknown.Some?
    ensures Wire(ds + rest, byName) == Wire(ds, byName)
    decreases |rest|
  {
    if rest == [] {
      assert ds + rest == ds;
    } else {
      var shorter := rest[..|rest| - 1];
      assert (ds + rest)[..|ds + rest| - 1] == ds + shorter;
      WireStops(ds, shorter, byName);
    }
  }

  /** One step of the wiring loop. */
  function WireOne(w: Wiring, d: Decl, byName: map<string, ModuleId>): Wiring
  {
    if w.unknown.Some? then w
    else if !Resolves(d, byName) then Wiring(w.edges, Some(MissingName(d, byName)))
    else Wiring(w.edges + [Edge(byName[d.moduleName], byName[d.dependency])], None)
  }

  /** Wiring one more declaration is one more step. */
  lemma WireStep(ds: seq<Decl>, d: Decl, byName: map<string, ModuleId>)
    ensures Wire(ds + [d], byName) == WireOne(Wire(ds, byName), d, byName)
  {
    assert (ds + [d])[..|ds + [d]| - 1] == ds;
  }

  /** On success the edge set mirrors the declarations exactly: every edge
      comes from some module's listed dependency, and every listed dependency
      gives an edge from that module to the module bound to the name. */
  lemma WiredEdgesMirrorDeclarations(ms: seq<TestProjectModule>, base: nat, e: Edge)
    requires Wire(DependencyDecls(ms), NameMap(ms, base)).unknown.None?
    ensures var byName := NameMap(ms, base);
            e in Wire(DependencyDecls(ms), byName).edges <==>
            exists i, k :: 0 <= i < |ms| && 0 <= k < |ms[i].dependsOnModules|
                           && ms[i].dependsOnModules[k] in byName
                           && e == Edge(byName[ms[i].name], byName[ms[i].dependsOnModules[k]])
  {
    var byName := NameMap(ms, base);
    var ds := DependencyDecls(ms);
    var w := Wire(ds, byName);
    if e in w.edges {
      var p :| 0 <= p < |w.edges| && w.edges[p] == e;
      DependencyDeclsMembers(ms, ds[p]);
      var i, k :| 0 <= i < |ms| && 0 <= k < |ms[i].dependsOnModules|
                  && ds[p] == Decl(ms[i].name, ms[i].dependsOnModules[k]);
    }
    if exists i, k :: 0 <= i < |ms| && 0 <= k < |ms[i].dependsOnModules|
                      && ms[i].dependsOnModules[k] in byName
                      && e == Edge(byName[ms[i].name], byName[ms[i].dependsOnModules[k]]) {
      var i, k :| 0 <= i < |ms| && 0 <= k < |ms[i].dependsOnModules|
                  && ms[i].dependsOnModules[k] in byName
                  && e == Edge(byName[ms[i].name], byName[ms[i].dependsOnModules[k]]);
      var d := Decl(ms[i].name, ms[i].dependsOnModules[k]);
      DependencyDeclsMembers(ms, d);
      var p :| 0 <= p < |ds| && ds[p] == d;
      assert w.edges[p] == e;
    }
  }

  /** The converse of `UndeclaredDependencyFails`: when every listed
      dependency names a declared module, no `getValue` throws and every
      declaration is wired. */
  lemma DeclaredDependenciesWire(ms: seq<TestProjectModule>, base: nat)
    requires forall i, k :: 0 <= i < |ms| && 0 <= k < |ms[i].dependsOnModules| ==> ms[i].dependsOnModules[k] in ModuleNames(ms)
    ensures Wire(DependencyDecls(ms), NameMap(ms, base)).unknown.None?
    ensures |Wire(DependencyDecls(ms), NameMap(ms, base)).edges| == |DependencyDecls(ms)|
  {
    var byName := NameMap(ms, base);
    var ds := DependencyDecls(ms);
    forall p | 0 <= p < |ds| ensures Resolves(ds[p], byName) {
      DependencyDeclsMembers(ms, ds[p]);
    }
    WireFailsIff(ds, byName);
  }

  /** An undeclared dependency name always makes wiring fail, with an
      undeclared dependency name; it is never skipped. */
  lemma UndeclaredDependencyFails(ms: seq<TestProjectModule>, base: nat, i: nat, k: nat)
    requires i < |ms| && k < |ms[i].dependsOnModules|
    requires ms[i].dependsOnModules[k] !in ModuleNames(ms)
    ensures Wire(DependencyDecls(ms), NameMap(ms, base)).unknown.Some?
    ensures Wire(DependencyDecls(ms), NameMap(ms, base)).unknown.value !in ModuleNames(ms)
  {
    var d := Decl(ms[i].name, ms[i].dependsOnModules[k]);
    DependencyDeclsMembers(ms, d);
    var ds := DependencyDecls(ms);
    var p :| 0 <= p < |ds| && ds[p] == d;
    WireFailsIff(ds, NameMap(ms, base));
    var w := Wire(ds, NameMap(ms, base));
    assert ds[|w.edges|] in ds;
  }

  /** The first `forEach` of `doTest`, as `associate` runs it: one module is
      created per declaration, and the map keeps the last one per name. */
  method CreateModules(project: ProjectModel, ms: seq<TestProjectModule>) returns (byName: map<string, ModuleId>)
    requires project.Valid()
    modifies project
    ensures project.Valid()
    ensures project.modules == old(project.modules) + Names(ms) && project.edges == old(project.edges)
    ensures byName == NameMap(ms, |old(project.modules)|)
  {
    ghost var base := |project.modules|;
    byName := map[];
    var i := 0;
    while i < |ms|
      invariant 0 <= i <= |ms|
      invariant project.Valid()
      invariant project.modules == old(project.modules) + Names(ms[..i]) && project.edges == old(project.edges)
      invariant byName == NameMap(ms[..i], base)
    {
      var id := project.CreateModule(ms[i].name);
      byName := byName[ms[i].name := id];
      assert ms[..i + 1][..i] == ms[..i];
      assert Names(ms[..i + 1]) == Names(ms[..i]) + [ms[i].name];
      i := i + 1;
    }
    assert ms[..i] == ms;
  }

  lemma SliceExtend<T>(a: seq<T>, b: seq<T>, j: nat)
    requires j < |b|
    ensures a + b[..j + 1] == (a + b[..j]) + [b[j]]
  {
    assert b[..j + 1] == b[..j] + [b[j]];
  }

  lemma SliceRest<T>(a: seq<T>, b: seq<T>, j: nat)
    requires j <= |b|
    ensures a + b == (a + b[..j]) + b[j..]
  {
    assert b == b[..j] + b[j..];
  }

  /** The nested `forEach` loops of `doTest`: for every module, add an edge
      to each dependency it names, looking both ends up in `byName`; a name
      the map does not hold stops the loops (`getValue` throws) and is
      returned. */
  method WireDependencies(project: ProjectModel, ms: seq<TestProjectModule>, byName: map<string, ModuleId>)
    returns (unknown: Option<string>)
    requires project.Valid()
    requires ModuleNames(ms) <= byName.Keys
    requires forall n :: n in byName ==> byName[n] < |project.modules|
    modifies project
    ensures project.Valid()
    ensures var w := Wire(DependencyDecls(ms), byName);
            unknown == w.unknown && project.modules == old(project.modules)
            && project.edges == old(project.edges) + w.edges
  {
    ghost var e0 := project.edges;
    var i := 0;
    while i < |ms|
      invariant 0 <= i <= |ms|
      invariant project.Valid() && project.modules == old(project.modules)
      invariant ModuleNames(ms[..i]) <= ModuleNames(ms)
      invariant Wire(DependencyDecls(ms[..i]), byName).unknown.None?
      invariant project.edges == e0 + Wire(DependencyDecls(ms[..i]), byName).edges
    {
      assert ms[..i + 1][..i] == ms[..i];
      assert ms[..i + 1][i] == ms[i];
      ModuleNamesSnoc(ms[..i + 1]);
      assert ms[i].name in ModuleNames(ms);
      var failed := AddDependenciesOf(project, ms[i], byName, DependencyDecls(ms[..i]), e0);
      if failed.Some? {
        DependencyDeclsSplit(ms, i + 1);
        WireStops(DependencyDecls(ms[..i + 1]), DependencyDecls(ms[i + 1..]), byName);
        assert DependencyDecls(ms[..i + 1]) + DependencyDecls(ms[i + 1..]) == DependencyDecls(ms);
        return failed;
      }
      i := i + 1;
    }
    assert ms[..i] == ms;
    unknown := None;
  }

  /** The inner `forEach` of `doTest` for one module `md`, with the
      declarations `done` of the modules before it already wired into the
      edges after `e0`. */
  method AddDependenciesOf(project: ProjectModel, md: TestProjectModule, byName: map<string, ModuleId>,
                           ghost done: seq<Decl>, ghost e0: seq<Edge>)
    returns (unknown: Option<string>)
    requires project.Valid()
    requires md.name in byName
    requires forall n :: n in byName ==> byName[n] < |project.modules|
    requires Wire(done, byName).unknown.None?
    requires project.edges == e0 + Wire(done, byName).edges
    modifies project
    ensures project.Valid() && project.modules == old(project.modules)
    ensures unknown == Wire(done + DeclsOf(md), byName).unknown
    ensures project.edges == e0 + Wire(done + DeclsOf(md), byName).edges
  {
    var moduleId := byName[md.name];
    ghost var own := DeclsOf(md);
    var deps := md.dependsOnModules;
    var j := 0;
    while j < |deps|
      invariant 0 <= j <= |deps|
      invariant project.Valid() && project.modules == old(project.modules)
      invariant Wire(done + own[..j], byName).unknown.None?
      invariant project.edges == e0 + Wire(done + own[..j], byName).edges
    {
      var dependency := deps[j];
      ghost var before := done + own[..j];
      ghost var after := done + own[..j + 1];
      assert Wire(after, byName) == WireOne(Wire(before, byName), own[j], byName) by {
        SliceExtend(done, own, j);
        WireStep(before, own[j], byName);
      }
      if dependency !in byName {
        assert Wire(done + own, byName) == Wire(after, byName) by {
          SliceRest(done, own, j + 1);
          WireStops(after, own[j + 1..], byName);
        }
        return Some(dependency);
      }
      var target := byName[dependency];
      project.AddDependency(moduleId, target);
      j := j + 1;
    }
    assert own[..j] == own;
    unknown := None;
  }
}

/** The analysis of a function's module dependencies
    (lithops/libs/multyvac/module_dependency.py, ModuleDependencyAnalyzer): a worklist over
    root modules, with packages searched in depth. */
module Dependencies {
  import opened Strings

  /** What `pkgutil.iter_modules` and `find_module` give for one entry of a package. A source
      file with a syntax error has no imports. */
  datatype Item =
    | Unfindable
    | SourceFile(imports: set<string>)
    | SubPackage(folder: Folder)
    | Extension
    | Compiled

  /** A package directory: the names `find_module` finds in it, and its entries in order. */
  datatype Folder = Folder(local: set<string>, items: seq<Item>)

  /** What `find_module` gives for a root module. */
  datatype Module =
    | Source(path: string, imports: set<string>)
    | Package(path: string, folder: Folder)
    | Binary

  type Environment = map<string, Module>

  // ----- What a package reports

  datatype Report = Report(eligible: bool, imports: set<string>)

  /** From entry i on: `eligible` starts as given, and once it is false no further sub-package
      is searched. */
  function Scan(f: Folder, i: nat, eligible: bool): Report
    requires i <= |f.items|
    decreases f, |f.items| - i
  {
    if i == |f.items| then Report(eligible, {})
    else
      match f.items[i]
      case SourceFile(imports) =>
        var rest := Scan(f, i + 1, eligible);
        rest.(imports := (imports - f.local) + rest.imports)
      case SubPackage(g) =>
        if eligible then
          var sub := Scan(g, 0, true);
          var rest := Scan(f, i + 1, sub.eligible);
          rest.(imports := sub.imports + rest.imports)
        else Scan(f, i + 1, false)
      case Extension => Scan(f, i + 1, false)
      case Unfindable => Scan(f, i + 1, eligible)
      case Compiled => Scan(f, i + 1, eligible)
  }

  function Searched(f: Folder): Report {
    Scan(f, 0, true)
  }

  /** Somewhere in the package there is a C extension. */
  predicate HasExtension(f: Folder) {
    exists i :: 0 <= i < |f.items| && ItemHasExtension(f.items[i])
  }

  predicate ItemHasExtension(item: Item) {
    item.Extension? || (item.SubPackage? && HasExtension(item.folder))
  }

  /** All imports of a package's source files, except those from the same directory. */
  function AllImports(f: Folder, i: nat): set<string>
    requires i <= |f.items|
    decreases f, |f.items| - i
  {
    if i == |f.items| then {}
    else
      (match f.items[i]
       case SourceFile(imports) => imports - f.local
       case SubPackage(g) => AllImports(g, 0)
       case _ => {}) + AllImports(f, i + 1)
  }

  lemma {:induction false} ScanEligible(f: Folder, i: nat, eligible: bool)
    requires i <= |f.items|
    ensures Scan(f, i, eligible).eligible <==>
              eligible && forall k :: i <= k < |f.items| ==> !ItemHasExtension(f.items[k])
    decreases f, |f.items| - i
  {
    if i < |f.items| {
      if f.items[i].SubPackage? && eligible {
        var g := f.items[i].folder;
        ScanEligible(g, 0, true);
        assert HasExtension(g) <==> !Scan(g, 0, true).eligible;
        ScanEligible(f, i + 1, Scan(g, 0, true).eligible);
      } else {
        ScanEligible(f, i + 1, eligible && !f.items[i].Extension?);
      }
    }
  }

  /** A package is sent exactly if there is no C extension anywhere in it. */
  lemma EligibleIff(f: Folder)
    ensures Searched(f).eligible <==> !HasExtension(f)
  {
    ScanEligible(f, 0, true);
  }

  lemma {:induction false} ScanImports(f: Folder, i: nat, eligible: bool)
    requires i <= |f.items|
    ensures Scan(f, i, eligible).imports <= AllImports(f, i)
    ensures Scan(f, i, eligible).eligible ==> Scan(f, i, eligible).imports == AllImports(f, i)
    decreases f, |f.items| - i
  {
    if i < |f.items| {
      if f.items[i].SubPackage? && eligible {
        var g := f.items[i].folder;
        ScanImports(g, 0, true);
        ScanImports(f, i + 1, Scan(g, 0, true).eligible);
        ScanEligible(f, i + 1, Scan(g, 0, true).eligible);
      } else {
        ScanImports(f, i + 1, eligible && !f.items[i].Extension?);
        ScanEligible(f, i + 1, eligible && !f.items[i].Extension?);
      }
    }
  }

  /** A package that can be sent reports all its imports. */
  lemma EligibleReportsAll(f: Folder)
    requires !HasExtension(f)
    ensures Searched(f).imports == AllImports(f, 0)
  {
    EligibleIff(f);
    ScanImports(f, 0, true);
  }

  predicate ExtensionBefore(f: Folder, k: nat)
    requires k <= |f.items|
  {
    exists i :: 0 <= i < k && ItemHasExtension(f.items[i])
  }

  /** An import in a sub-package that comes after an entry with a C extension, at any depth. */
  predicate Hidden(f: Folder, i: nat, x: string)
    requires i <= |f.items|
    decreases f, |f.items| - i, 1
  {
    i < |f.items| && (HiddenAt(f, i, x) || Hidden(f, i + 1, x))
  }

  predicate HiddenAt(f: Folder, k: nat, x: string)
    requires k < |f.items|
    decreases f, |f.items| - k, 0
  {
    f.items[k].SubPackage?
    && if ExtensionBefore(f, k) then x in AllImports(f.items[k].folder, 0) else Hidden(f.items[k].folder, 0, x)
  }

  lemma {:induction false} ScanMisses(f: Folder, i: nat, eligible: bool, x: string)
    requires i <= |f.items| && (eligible <==> !ExtensionBefore(f, i))
    ensures x in AllImports(f, i) <==> x in Scan(f, i, eligible).imports || Hidden(f, i, x)
    decreases f, |f.items| - i
  {
    if i < |f.items| {
      var next := eligible && !ItemHasExtension(f.items[i]);
      assert ExtensionBefore(f, i + 1) <==> ExtensionBefore(f, i) || ItemHasExtension(f.items[i]);
      ScanMisses(f, i + 1, next, x);
      if f.items[i].SubPackage? && eligible {
        var g := f.items[i].folder;
        ScanEligible(g, 0, true);
        assert HasExtension(g) <==> !Scan(g, 0, true).eligible;
        ScanMisses(g, 0, true, x);
      }
    }
  }

  /** An import of a source file at some depth, where no entry with a C extension comes before
      the sub-packages that lead to it. */
  predicate Shown(f: Folder, i: nat, x: string)
    requires i <= |f.items|
    decreases f, |f.items| - i, 1
  {
    i < |f.items| && (ShownAt(f, i, x) || Shown(f, i + 1, x))
  }

  predicate ShownAt(f: Folder, k: nat, x: string)
    requires k < |f.items|
    decreases f, |f.items| - k, 0
  {
    match f.items[k]
    case SourceFile(imports) => x in imports - f.local
    case SubPackage(g) => !ExtensionBefore(f, k) && Shown(g, 0, x)
    case _ => false
  }

  lemma {:induction false} ScanShows(f: Folder, i: nat, eligible: bool, x: string)
    requires i <= |f.items| && (eligible <==> !ExtensionBefore(f, i))
    ensures x in Scan(f, i, eligible).imports <==> Shown(f, i, x)
    decreases f, |f.items| - i
  {
    if i < |f.items| {
      var next := eligible && !ItemHasExtension(f.items[i]);
      assert ExtensionBefore(f, i + 1) <==> ExtensionBefore(f, i) || ItemHasExtension(f.items[i]);
      ScanShows(f, i + 1, next, x);
      if f.items[i].SubPackage? && eligible {
        var g := f.items[i].folder;
        ScanEligible(g, 0, true);
        assert HasExtension(g) <==> !Scan(g, 0, true).eligible;
        ScanShows(g, 0, true, x);
      }
    }
  }

  /** What a package reports, for every package and in terms of its entries: the imports that
      are shown. All imports are shown or hidden, so it reports all of them exactly if each
      hidden one is also shown elsewhere. */
  lemma ReportsAllIff(f: Folder)
    ensures forall x :: x in Searched(f).imports <==> Shown(f, 0, x)
    ensures forall x :: x in AllImports(f, 0) <==> Shown(f, 0, x) || Hidden(f, 0, x)
    ensures Searched(f).imports == AllImports(f, 0) <==> forall x :: Hidden(f, 0, x) ==> Shown(f, 0, x)
  {
    forall x
      ensures x in Searched(f).imports <==> Shown(f, 0, x)
      ensures x in AllImports(f, 0) <==> Shown(f, 0, x) || Hidden(f, 0, x)
    {
      ScanShows(f, 0, true, x);
      ScanMisses(f, 0, true, x);
    }
  }

  /** One that cannot may miss some: sub-packages after a C extension are not searched. */
  lemma ExtensionHidesImports(x: string)
    ensures var f := Folder({}, [Extension, SubPackage(Folder({}, [SourceFile({x})]))]);
            Searched(f).imports == {} && AllImports(f, 0) == {x}
  {
    var g := Folder({}, [SourceFile({x})]);
    var f := Folder({}, [Extension, SubPackage(g)]);
    assert AllImports(g, 1) == {} && AllImports(g, 0) == {x};
    assert AllImports(f, 2) == {} && AllImports(f, 1) == {x};
    assert Scan(f, 2, false).imports == {} && Scan(f, 1, false).imports == {};
  }

  // ----- The graph of root modules

  /** The imports a root module reports. */
  function Imports(env: Environment, m: string): set<string> {
    if m !in env then {}
    else match env[m]
      case Source(_, imports) => imports
      case Package(_, f) => Searched(f).imports
      case Binary => {}
  }

  predicate Sent(env: Environment, m: string) {
    m in env && (env[m].Source? || (env[m].Package? && Searched(env[m].folder).eligible))
  }

  /** A chain of imports through modules that are not ignored. */
  predicate Chain(env: Environment, ignored: set<string>, path: seq<string>) {
    && path != []
    && (forall i :: 0 <= i < |path| ==> path[i] !in ignored)
    && forall i :: 0 < i < |path| ==> path[i] in Imports(env, path[i - 1])
  }

  ghost predicate Reaches(env: Environment, ignored: set<string>, root: string, m: string) {
    exists path :: Chain(env, ignored, path) && path[0] == root && path[|path| - 1] == m
  }

  /** Nothing reported is left out: it is inspected, waiting or ignored. */
  predicate Closed(env: Environment, inspected: set<string>, others: set<string>) {
    forall m :: m in inspected ==> Imports(env, m) <= inspected + others
  }

  lemma ReachesExtends(env: Environment, ignored: set<string>, root: string, m: string, x: string)
    requires Reaches(env, ignored, root, m) && x in Imports(env, m) && x !in ignored
    ensures Reaches(env, ignored, root, x)
  {
    var path :| Chain(env, ignored, path) && path[0] == root && path[|path| - 1] == m;
    assert Chain(env, ignored, path + [x]);
  }

  lemma {:induction false} ClosedHoldsChain(env: Environment, ignored: set<string>, inspected: set<string>,
                                            path: seq<string>)
    requires Closed(env, inspected, ignored) && Chain(env, ignored, path) && path[0] in inspected
    ensures path[|path| - 1] in inspected
  {
    if |path| > 1 {
      var front := path[..|path| - 1];
      ClosedHoldsChain(env, ignored, inspected, front);
      assert path[|path| - 1] in Imports(env, front[|front| - 1]);
    }
  }

  function NamesIn(env: Environment): set<string> {
    set m, x | m in env && x in Imports(env, m) :: x
  }

  function RootOf(name: string): string {
    Split(name, '.')[0]
  }

  /** The root of a dotted name is what comes before the first dot. */
  lemma RootIsFirst(name: string)
    ensures RootOf(name) <= name && '.' !in RootOf(name)
    ensures RootOf(name) == name || name[|RootOf(name)|] == '.'
  {
    SplitNoneHas(name, '.');
    JoinSplit(name, '.');
  }

  /** m can be reached from the module before the first dot of the name. */
  ghost predicate ReachesFrom(env: Environment, ignored: set<string>, name: string, m: string) {
    exists root :: BeforeDot(root, name) && Reaches(env, ignored, root, m)
  }

  predicate BeforeDot(root: string, name: string) {
    root <= name && '.' !in root && (root == name || name[|root|] == '.')
  }

  lemma RootIsOnly(env: Environment, ignored: set<string>, name: string, m: string)
    ensures ReachesFrom(env, ignored, name, m) <==> Reaches(env, ignored, RootOf(name), m)
  {
    RootIsFirst(name);
    assert BeforeDot(RootOf(name), name);
    forall root | BeforeDot(root, name)
      ensures root == RootOf(name)
    {
      DotInside(root, RootOf(name), name);
      DotInside(RootOf(name), root, name);
    }
  }

  lemma DotInside(a: string, b: string, name: string)
    requires BeforeDot(a, name) && b <= name
    ensures |a| < |b| ==> '.' in b
  {
    if |a| < |b| {
      assert b[|a|] == name[|a|];
    }
  }

  // ----- The worklist in between

  /** `before` is what was inspected when `add` was called. */
  ghost predicate Searching(env: Environment, ignored: set<string>, root: string,
                            before: set<string>, inspected: set<string>, waiting: set<string>) {
    && before <= inspected
    && root in inspected + waiting + ignored
    && Closed(env, inspected, waiting + ignored)
    && (forall m :: m in inspected - before ==> Reaches(env, ignored, root, m))
    && forall m :: m in waiting - ignored ==> Reaches(env, ignored, root, m)
  }

  /** What inspecting a module adds to the worklist. */
  function Added(env: Environment, ignored: set<string>, inspected: set<string>, m: string): set<string> {
    if m in inspected || m in ignored then {} else Imports(env, m) - (inspected + {m}) - ignored
  }

  /** The module itself, unless it was inspected before or is ignored. */
  function NewlyInspected(ignored: set<string>, inspected: set<string>, m: string): set<string> {
    if m in inspected || m in ignored then {} else {m}
  }

  lemma SearchStarts(env: Environment, ignored: set<string>, root: string, before: set<string>)
    requires Closed(env, before, ignored)
    ensures Searching(env, ignored, root, before, before, {root})
  {
    if root !in ignored {
      assert Chain(env, ignored, [root]);
    }
  }

  lemma SearchContinues(env: Environment, ignored: set<string>, root: string,
                        before: set<string>, inspected: set<string>, waiting: set<string>, m: string)
    requires Searching(env, ignored, root, before, inspected, waiting) && m in waiting
    ensures Searching(env, ignored, root, before, inspected + NewlyInspected(ignored, inspected, m),
                      waiting - {m} + Added(env, ignored, inspected, m))
  {
    forall x | x in Added(env, ignored, inspected, m)
      ensures Reaches(env, ignored, root, x)
    {
      ReachesExtends(env, ignored, root, m, x);
    }
  }

  lemma SearchEnds(env: Environment, ignored: set<string>, root: string, before: set<string>, inspected: set<string>)
    requires Searching(env, ignored, root, before, inspected, {})
    ensures Closed(env, inspected, ignored)
    ensures forall m :: m in inspected <==> m in before || Reaches(env, ignored, root, m)
  {
    forall m | Reaches(env, ignored, root, m)
      ensures m in inspected
    {
      var path :| Chain(env, ignored, path) && path[0] == root && path[|path| - 1] == m;
      ClosedHoldsChain(env, ignored, inspected, path);
    }
  }

  // ----- What is sent

  function SentOf(env: Environment, names: set<string>): set<string> {
    set m | m in names && Sent(env, m)
  }

  function PathsOf(env: Environment, names: set<string>): set<string> {
    set m | m in names && Sent(env, m) :: env[m].path
  }

  lemma SentTogether(env: Environment, a: set<string>, b: set<string>)
    ensures SentOf(env, a + b) == SentOf(env, a) + SentOf(env, b)
    ensures PathsOf(env, a + b) == PathsOf(env, a) + PathsOf(env, b)
  {
  }

  class ModuleDependencyAnalyzer {
    const env: Environment
    var inspectedModules: set<string>
    var modulesToInspect: set<string>
    var modules: set<string>
    var modulesToIgnore: set<string>
    var pathsToTransmit: set<string>

    constructor (env: Environment)
      ensures this.env == env && Valid()
      ensures inspectedModules == {} && modules == {} && modulesToIgnore == {} && pathsToTransmit == {}
    {
      this.env := env;
      inspectedModules, modulesToInspect, modules, modulesToIgnore, pathsToTransmit := {}, {}, {}, {}, {};
    }

    /** Between calls. */
    predicate Valid()
      reads this
    {
      modulesToInspect == {} && Closed(env, inspectedModules, modulesToIgnore)
    }

    method Ignore(names: set<string>)
      requires Valid()
      modifies this`modulesToIgnore
      ensures Valid() && modulesToIgnore == old(modulesToIgnore) + names
    {
      modulesToIgnore := modulesToIgnore + names;
    }

    /** Queues the imports of one source file. */
    method Queue(imports: set<string>, local: set<string>)
      modifies this`modulesToInspect
      ensures modulesToInspect == old(modulesToInspect) + (imports - local - inspectedModules - modulesToIgnore)
    {
      var rest := imports;
      while rest != {}
        invariant rest <= imports
        invariant modulesToInspect ==
                    old(modulesToInspect) + (imports - rest - local - inspectedModules - modulesToIgnore)
      {
        var x :| x in rest;
        rest := rest - {x};
        if x in inspectedModules || x in modulesToInspect || x in modulesToIgnore || x in local {
          continue;
        }
        modulesToInspect := modulesToInspect + {x};
      }
    }

    method DeepInspectPath(f: Folder) returns (ret: bool)
      modifies this`modulesToInspect
      ensures ret == Searched(f).eligible
      ensures modulesToInspect == old(modulesToInspect) + (Searched(f).imports - inspectedModules - modulesToIgnore)
      decreases f
    {
      ret := true;
      ghost var before := modulesToInspect;
      ghost var known := inspectedModules + modulesToIgnore;
      ghost var queued: set<string> := {};
      for i := 0 to |f.items|
        invariant Scan(f, 0, true).eligible == Scan(f, i, ret).eligible
        invariant Scan(f, 0, true).imports == queued + Scan(f, i, ret).imports
        invariant modulesToInspect == before + (queued - known)
      {
        match f.items[i]
        case SourceFile(imports) =>
          Queue(imports, f.local);
          queued := queued + (imports - f.local);
        case SubPackage(g) =>
          if ret {
            ret := DeepInspectPath(g);
            queued := queued + Searched(g).imports;
          }
        case Extension =>
          ret := false;
        case Unfindable =>
        case Compiled =>
      }
    }

    method Inspect(m: string)
      modifies this`inspectedModules, this`modulesToInspect, this`modules, this`pathsToTransmit
      ensures inspectedModules == old(inspectedModules) + NewlyInspected(modulesToIgnore, old(inspectedModules), m)
      ensures modulesToInspect ==
                old(modulesToInspect) + Added(env, modulesToIgnore, old(inspectedModules), m)
      ensures modules == old(modules) + SentOf(env, NewlyInspected(modulesToIgnore, old(inspectedModules), m))
      ensures pathsToTransmit ==
                old(pathsToTransmit) + PathsOf(env, NewlyInspected(modulesToIgnore, old(inspectedModules), m))
    {
      if m in inspectedModules || m in modulesToIgnore {
        return;
      }
      inspectedModules := inspectedModules + {m};
      if m !in env {
        return;
      }
      match env[m]
      case Source(path, imports) =>
        modules := modules + {m};
        pathsToTransmit := pathsToTransmit + {path};
        Queue(imports, {});
      case Package(path, f) =>
        var eligible := DeepInspectPath(f);
        if eligible {
          modules := modules + {m};
          pathsToTransmit := pathsToTransmit + {path};
        }
      case Binary =>
    }

    /** The modules and paths since `add` was called are those of the modules found. */
    predicate Collected(found: set<string>, modules0: set<string>, paths0: set<string>)
      reads this
    {
      modules == modules0 + SentOf(env, found) && pathsToTransmit == paths0 + PathsOf(env, found)
    }

    /** One round of `add`: any waiting module is popped. */
    method InspectNext(ghost root: string, ghost before: set<string>, ghost found: set<string>,
                       ghost modules0: set<string>, ghost paths0: set<string>)
      returns (ghost found': set<string>)
      requires modulesToInspect != {}
      requires Searching(env, modulesToIgnore, root, before, inspectedModules, modulesToInspect)
      requires inspectedModules == before + found && found !! before
      requires Collected(found, modules0, paths0)
      modifies this`inspectedModules, this`modulesToInspect, this`modules, this`pathsToTransmit
      ensures Searching(env, modulesToIgnore, root, before, inspectedModules, modulesToInspect)
      ensures inspectedModules == before + found' && found' !! before
      ensures Collected(found', modules0, paths0)
      ensures found <= found' <= found + old(modulesToInspect)
      ensures modulesToInspect <= old(modulesToInspect) + NamesIn(env)
      ensures found' == found ==> modulesToInspect < old(modulesToInspect)
    {
      var m :| m in modulesToInspect;
      ghost var more := NewlyInspected(modulesToIgnore, inspectedModules, m);
      SearchContinues(env, modulesToIgnore, root, before, inspectedModules, modulesToInspect, m);
      AddedNames(env, modulesToIgnore, inspectedModules, m);
      found' := found + more;
      SentTogether(env, found, more);
      modulesToInspect := modulesToInspect - {m};
      Inspect(m);
    }

    /** Whatever the order in which modules are popped, the modules inspected in the end are
        those inspected before and those reachable from the root of the name. */
    method Add(moduleName: string)
      requires Valid()
      modifies this`inspectedModules, this`modulesToInspect, this`modules, this`pathsToTransmit
      ensures Valid() && old(inspectedModules) <= inspectedModules
      ensures forall m :: m in inspectedModules <==>
                m in old(inspectedModules) || ReachesFrom(env, modulesToIgnore, moduleName, m)
      ensures modules == old(modules) + SentOf(env, inspectedModules - old(inspectedModules))
      ensures pathsToTransmit == old(pathsToTransmit) + PathsOf(env, inspectedModules - old(inspectedModules))
    {
      var root := RootOf(moduleName);
      ghost var before := inspectedModules;
      ghost var found: set<string> := {};
      ghost var all := NamesIn(env) + {root};
      SearchStarts(env, modulesToIgnore, root, before);
      modulesToInspect := modulesToInspect + {root};
      assert modulesToInspect == {root};
      while modulesToInspect != {}
        invariant Searching(env, modulesToIgnore, root, before, inspectedModules, modulesToInspect)
        invariant inspectedModules == before + found && found !! before
        invariant found <= all && modulesToInspect <= all
        invariant Collected(found, old(modules), old(pathsToTransmit))
        decreases all - found, modulesToInspect
      {
        found := InspectNext(root, before, found, old(modules), old(pathsToTransmit));
      }
      SearchEnds(env, modulesToIgnore, root, before, inspectedModules);
      forall m
        ensures ReachesFrom(env, modulesToIgnore, moduleName, m) <==> Reaches(env, modulesToIgnore, root, m)
      {
        RootIsOnly(env, modulesToIgnore, moduleName, m);
      }
      assert found == inspectedModules - before;
    }
  }

  lemma AddedNames(env: Environment, ignored: set<string>, inspected: set<string>, m: string)
    ensures Added(env, ignored, inspected, m) <= NamesIn(env)
    ensures NewlyInspected(ignored, inspected, m) == {} ==> Added(env, ignored, inspected, m) == {}
  {
  }
}

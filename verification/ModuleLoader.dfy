/**
 Loading of modules: a depth-first search over the import graph, which may be cyclic. A module
 is registered before it is parsed, so that imports leading back to it find it.
 */
module ModuleLoader {
  import opened Options

  type Path = string

  /** What the analyzer meets in a module, in order. */
  datatype Item = Import(path: Path) | Declaration(valid: bool)

  /** How the emission of a module's code ends: verification of the code may reject it. */
  datatype Emission = Sound | Failing | Rejected

  /** A file: one that does not parse, or the items it parses to and what becomes of their code. */
  datatype Source = Broken | Items(items: seq<Item>, emission: Emission)

  /** Missing is a null result, for a file that does not exist or code that is rejected. */
  datatype Loaded = Module(file: Path) | Missing | Thrown

  /** The file system as the loader sees it. */
  datatype World = World(
    includes: seq<Path>,               // include paths, in search order
    candidate: (Path, Path) -> Path,   // the file an include path and an import path stand for
    disk: map<Path, Source>)
  {
    /** The first candidate that exists. */
    function Resolve(path: Path, from: nat): (r: Option<Path>)
      requires from <= |includes|
      ensures r.Some? ==> r.value in disk
      decreases |includes| - from
    {
      if from == |includes| then None
      else if candidate(includes[from], path) in disk then Some(candidate(includes[from], path))
      else Resolve(path, from + 1)
    }

    /** The i-th include path has a file for the path. */
    predicate Has(i: nat, path: Path)
      requires i < |includes|
    {
      candidate(includes[i], path) in disk
    }

    /** It is the file for the path, and no include path before it, from `from` on, has one. */
    predicate FoundAt(path: Path, from: nat, i: nat, file: Path) {
      && from <= i < |includes| && Has(i, path) && file == candidate(includes[i], path)
      && forall j :: from <= j < i ==> !Has(j, path)
    }

    /** One module imports another. */
    ghost predicate Imports(m: Path, t: Path) {
      && m in disk && disk[m].Items?
      && exists i :: 0 <= i < |disk[m].items| && ImportsAt(m, i, t)
    }

    ghost predicate ImportsAt(m: Path, i: int, t: Path)
      requires m in disk && disk[m].Items? && 0 <= i < |disk[m].items|
    {
      disk[m].items[i].Import? && Resolve(disk[m].items[i].path, 0) == Some(t)
    }

    /** An item that analysis gets past, whatever the module it may import is like. */
    predicate ItemFine(item: Item) {
      match item
      case Import(path) => Resolve(path, 0).Some?
      case Declaration(valid) => valid
    }

    /** A module that parses, with valid declarations and imports that exist. */
    predicate Analyzable(m: Path) {
      m in disk && disk[m].Items? && forall i :: 0 <= i < |disk[m].items| ==> ItemFine(disk[m].items[i])
    }

    /** A module that nothing but its imports can keep from loading. */
    predicate Fine(m: Path) {
      Analyzable(m) && disk[m].emission.Sound?
    }

    /** A module of which nothing but its code is rejected. */
    predicate RejectedOnly(m: Path) {
      Analyzable(m) && disk[m].emission.Rejected?
    }

    /** A chain of imports. */
    ghost predicate Chain(p: seq<Path>) {
      p != [] && forall i :: 0 <= i < |p| - 1 ==> Imports(p[i], p[i + 1])
    }

    ghost predicate ChainFromTo(p: seq<Path>, a: Path, b: Path) {
      Chain(p) && p[0] == a && p[|p| - 1] == b
    }

    ghost predicate Reaches(a: Path, b: Path) {
      exists p :: ChainFromTo(p, a, b)
    }

    /** Nothing that the module reaches keeps it from loading. */
    ghost predicate Loadable(file: Path) {
      forall m :: Reaches(file, m) ==> Fine(m)
    }

    /** Only the module's own code is rejected. */
    ghost predicate RejectedAlone(file: Path) {
      RejectedOnly(file) && forall m :: Reaches(file, m) && m != file ==> Fine(m)
    }

    /** A module that makes the loading of `file`, of which it may be the module itself, end with an error. */
    predicate Breaks(m: Path, file: Path) {
      !Fine(m) && !(m == file && RejectedOnly(m))
    }

    /** There is such a module, `file` itself or one not among those loaded before. */
    ghost predicate Doomed(file: Path, before: seq<Path>) {
      exists m :: Reaches(file, m) && Breaks(m, file) && (m == file || m !in before)
    }
  }

  /** A path stands for the file at the first include path that has one, and for none exactly if there is none. */
  lemma {:induction false} ResolveFindsFirst(w: World, path: Path, from: nat)
    requires from <= |w.includes|
    ensures w.Resolve(path, from).None? <==> forall i :: from <= i < |w.includes| ==> !w.Has(i, path)
    ensures forall i: nat, file :: w.FoundAt(path, from, i, file) ==> w.Resolve(path, from) == Some(file)
    ensures w.Resolve(path, from).Some? ==> exists i: nat :: w.FoundAt(path, from, i, w.Resolve(path, from).value)
    decreases |w.includes| - from
  {
    if from < |w.includes| {
      if w.Has(from, path) {
        assert w.FoundAt(path, from, from, w.candidate(w.includes[from], path));
      } else {
        ResolveFindsFirst(w, path, from + 1);
        assert forall i: nat, file :: w.FoundAt(path, from, i, file) <==> w.FoundAt(path, from + 1, i, file);
        if w.Resolve(path, from).Some? {
          var i: nat :| w.FoundAt(path, from + 1, i, w.Resolve(path, from + 1).value);
          assert w.FoundAt(path, from, i, w.Resolve(path, from).value);
        }
      }
    }
  }

  lemma ReachesSelf(w: World, a: Path)
    ensures w.Reaches(a, a)
  {
    assert w.ChainFromTo([a], a, a);
  }

  lemma ReachesStep(w: World, a: Path, b: Path, c: Path)
    requires w.Imports(a, b) && w.Reaches(b, c)
    ensures w.Reaches(a, c)
  {
    var p :| w.ChainFromTo(p, b, c);
    var q := [a] + p;
    assert forall i :: 1 <= i < |q| ==> q[i] == p[i - 1];
    assert w.ChainFromTo(q, a, c);
  }

  lemma DoomedItself(w: World, file: Path, before: seq<Path>)
    requires w.Breaks(file, file)
    ensures w.Doomed(file, before)
  {
    ReachesSelf(w, file);
  }

  lemma DoomedBefore(w: World, file: Path, before: seq<Path>, after: seq<Path>)
    requires before <= after && w.Doomed(file, after)
    ensures w.Doomed(file, before)
  {
  }

  /** A module that cannot be loaded without an error, or has its code rejected, breaks its importer. */
  lemma DoomedImport(w: World, file: Path, t: Path, before: seq<Path>)
    requires w.Imports(file, t) && file in before && t !in before
    requires w.Doomed(t, before) || w.RejectedOnly(t)
    ensures w.Doomed(file, before)
  {
    ReachesSelf(w, t);
    hide World.Reaches, World.Imports, World.Analyzable;
    var m :| w.Reaches(t, m) && !w.Fine(m) && m !in before;
    ReachesStep(w, file, t, m);
  }

  /** A set that is closed under imports holds whatever its members reach. */
  lemma {:induction false} ClosedReaches(w: World, closed: set<Path>, p: seq<Path>, a: Path, b: Path)
    requires forall m, t :: m in closed && w.Imports(m, t) ==> t in closed
    requires a in closed && w.ChainFromTo(p, a, b)
    ensures b in closed
    decreases |p|
  {
    if |p| > 1 {
      assert w.Imports(p[0], p[1]);
      assert w.ChainFromTo(p[1..], p[1], b);
      ClosedReaches(w, closed, p[1..], p[1], b);
    }
  }

  predicate Distinct(s: seq<Path>) {
    forall i, j :: 0 <= i < j < |s| ==> s[i] != s[j]
  }

  /**
   The registry is consistent, and its modules are the emitted and the open ones. Emitted
   modules are fine, their imports are registered, and each was emitted in order.
   */
  ghost predicate Consistent(w: World, modules: seq<Path>, table: map<Path, nat>, emitted: seq<Path>,
                             chains: seq<seq<Path>>, open: seq<Path>)
  {
    && Distinct(modules) && Distinct(emitted) && Distinct(open)
    && Registered(w, modules, table)
    && (forall m :: m in modules <==> m in emitted || m in open)
    && (forall m :: m in open ==> m !in emitted)
    && (open != [] ==> w.Chain(open))
    && (forall m :: m in emitted ==> w.Fine(m))
    && (forall m, t :: m in emitted && w.Imports(m, t) ==> t in modules)
    && |chains| == |emitted|
    && (forall i :: 0 <= i < |emitted| ==> InOrder(w, emitted, chains[i], i))
  }

  ghost predicate Registered(w: World, modules: seq<Path>, table: map<Path, nat>) {
    && (forall m :: m in table <==> m in modules)
    && (forall m :: m in table ==> table[m] < |modules| && modules[table[m]] == m && m in w.disk)
  }

  /**
   The i-th emission came at the end of an open chain of imports, and each import of the
   module had been emitted or was on that chain.
   */
  ghost predicate InOrder(w: World, emitted: seq<Path>, chain: seq<Path>, i: nat)
    requires i < |emitted|
  {
    && w.Chain(chain) && chain[|chain| - 1] == emitted[i]
    && forall t :: w.Imports(emitted[i], t) ==> t in emitted[..i] || t in chain
  }

  lemma RegisterConsistent(w: World, modules: seq<Path>, table: map<Path, nat>, emitted: seq<Path>,
                           chains: seq<seq<Path>>, open: seq<Path>, file: Path)
    requires Consistent(w, modules, table, emitted, chains, open)
    requires file in w.disk && file !in table
    requires open != [] ==> w.Imports(open[|open| - 1], file)
    ensures file !in modules
    ensures Consistent(w, modules + [file], table[file := |modules|], emitted, chains, open + [file])
  {
    assert w.Chain(open + [file]);
    assert file !in modules && file !in open && file !in emitted;
    hide World.Chain, World.Imports, World.Fine, InOrder;
  }

  lemma EmitConsistent(w: World, modules: seq<Path>, table: map<Path, nat>, emitted: seq<Path>,
                       chains: seq<seq<Path>>, open: seq<Path>, file: Path)
    requires Consistent(w, modules, table, emitted, chains, open + [file])
    requires w.Fine(file) && forall t :: w.Imports(file, t) ==> t in modules
    ensures Consistent(w, modules, table, emitted + [file], chains + [open + [file]], open)
  {
    hide World.Chain, World.Imports, World.Fine, Distinct, Registered, InOrder;
    CloseLast(modules, emitted, open, file);
    ChainPrefix(w, open, file);
    EmissionsInOrder(w, modules, emitted, chains, open, file);
  }

  lemma ChainPrefix(w: World, open: seq<Path>, file: Path)
    requires w.Chain(open + [file])
    ensures open != [] ==> w.Chain(open)
  {
    assert forall i :: 0 <= i < |open| ==> (open + [file])[i] == open[i];
  }

  /** Moving the last open module to the emitted ones. */
  lemma CloseLast(modules: seq<Path>, emitted: seq<Path>, open: seq<Path>, file: Path)
    requires Distinct(emitted) && Distinct(open + [file])
    requires forall m :: m in modules <==> m in emitted || m in open + [file]
    requires forall m :: m in open + [file] ==> m !in emitted
    ensures Distinct(emitted + [file]) && Distinct(open)
    ensures forall m :: m in modules <==> m in emitted + [file] || m in open
    ensures forall m :: m in open ==> m !in emitted + [file]
  {
    var chain := open + [file];
    assert chain[|open|] == file;
    assert forall i :: 0 <= i < |open| ==> chain[i] == open[i];
    assert file in chain;
  }

  lemma EmissionsInOrder(w: World, modules: seq<Path>, emitted: seq<Path>, chains: seq<seq<Path>>,
                         open: seq<Path>, file: Path)
    requires |chains| == |emitted| && w.Chain(open + [file])
    requires forall i :: 0 <= i < |emitted| ==> InOrder(w, emitted, chains[i], i)
    requires forall m :: m in modules <==> m in emitted || m in open + [file]
    requires forall t :: w.Imports(file, t) ==> t in modules
    ensures forall i :: 0 <= i <= |emitted| ==> InOrder(w, emitted + [file], (chains + [open + [file]])[i], i)
  {
    hide World.Chain, World.Imports;
    var es, cs := emitted + [file], chains + [open + [file]];
    forall i | 0 <= i <= |emitted| ensures InOrder(w, es, cs[i], i) {
      if i < |emitted| {
        assert InOrder(w, emitted, chains[i], i);
        assert es[..i] == emitted[..i] && es[i] == emitted[i] && cs[i] == chains[i];
      } else {
        assert es[..i] == emitted;
      }
    }
  }

  /** How many files are not registered yet. */
  ghost function Remaining(w: World, table: map<Path, nat>): nat {
    |w.disk.Keys - table.Keys|
  }

  lemma RemainingDrops(w: World, table: map<Path, nat>, file: Path, i: nat)
    requires file in w.disk && file !in table
    ensures Remaining(w, table[file := i]) < Remaining(w, table)
  {
    assert w.disk.Keys - table[file := i].Keys == (w.disk.Keys - table.Keys) - {file};
  }

  // ---------------------------------------------------------- order of loading

  /** The modules registered and those emitted, in order. */
  datatype Progress = Progress(modules: seq<Path>, emitted: seq<Path>)

  ghost function Unvisited(w: World, modules: seq<Path>): set<Path> {
    set m | m in w.disk && m !in modules
  }

  lemma UnvisitedShrinks(w: World, before: seq<Path>, after: seq<Path>)
    requires before <= after
    ensures |Unvisited(w, after)| <= |Unvisited(w, before)|
    ensures forall m :: m in w.disk && m !in before && m in after ==> |Unvisited(w, after)| < |Unvisited(w, before)|
  {
    Subset(Unvisited(w, after), Unvisited(w, before));
    forall m | m in w.disk && m !in before && m in after
      ensures |Unvisited(w, after)| < |Unvisited(w, before)|
    {
      Subset(Unvisited(w, after), Unvisited(w, before) - {m});
    }
  }

  lemma Subset(a: set<Path>, b: set<Path>)
    requires a <= b
    ensures |a| <= |b|
  {
    assert b == a + (b - a);
  }

  /** Depth-first search: a module is registered before its imports are visited, and emitted after them. */
  ghost function Visit(w: World, p: Progress, file: Path): (q: Progress)
    requires file in w.disk
    ensures p.modules <= q.modules
    decreases |Unvisited(w, p.modules)|, 0, 0
  {
    if file in p.modules then p
    else
      UnvisitedShrinks(w, p.modules, p.modules + [file]);
      var items := if w.disk[file].Items? then w.disk[file].items else [];
      var q := VisitImports(w, Progress(p.modules + [file], p.emitted), items);
      Progress(q.modules, q.emitted + [file])
  }

  /** The imports among the items are visited from first to last. */
  ghost function VisitImports(w: World, p: Progress, items: seq<Item>): (q: Progress)
    ensures p.modules <= q.modules
    decreases |Unvisited(w, p.modules)|, 1, |items|
  {
    if items == [] then p
    else
      var q := VisitItem(w, p, items[0]);
      UnvisitedShrinks(w, p.modules, q.modules);
      VisitImports(w, q, items[1..])
  }

  lemma VisitNext(w: World, p: Progress, items: seq<Item>, i: nat)
    requires i < |items|
    ensures VisitImports(w, p, items[i..]) == VisitImports(w, VisitItem(w, p, items[i]), items[i + 1..])
  {
    assert items[i..][0] == items[i] && items[i..][1..] == items[i + 1..];
    hide VisitItem;
  }

  lemma VisitNothing(w: World, p: Progress, items: seq<Item>)
    requires items == []
    ensures VisitImports(w, p, items) == p
  {
  }

  lemma VisitDeclaration(w: World, p: Progress, item: Item)
    requires item.Declaration?
    ensures VisitItem(w, p, item) == p
  {
  }

  lemma VisitNew(w: World, p: Progress, file: Path)
    requires file in w.disk && file !in p.modules && w.disk[file].Items?
    ensures var q := VisitImports(w, Progress(p.modules + [file], p.emitted), w.disk[file].items);
            Visit(w, p, file) == Progress(q.modules, q.emitted + [file])
  {
    hide VisitImports;
  }

  lemma VisitOld(w: World, p: Progress, file: Path)
    requires file in w.disk && file in p.modules
    ensures Visit(w, p, file) == p
  {
  }

  ghost function VisitItem(w: World, p: Progress, item: Item): (q: Progress)
    ensures p.modules <= q.modules
    decreases |Unvisited(w, p.modules)|, 0, 1
  {
    if item.Import? && w.Resolve(item.path, 0).Some? then Visit(w, p, w.Resolve(item.path, 0).value) else p
  }

  class Loader {
    const world: World
    /** All modules, in the order of their registration. */
    var modules: seq<Path>
    /** The registry: where in `modules` each file is. */
    var table: map<Path, nat>
    /** The modules whose code has been emitted, in order. */
    var emitted: seq<Path>
    /** For each emission, the chain of imports that was open when it started. */
    ghost var chains: seq<seq<Path>>

    constructor (world: World)
      ensures this.world == world && modules == [] && emitted == [] && Valid([])
    {
      this.world := world;
      modules, table, emitted, chains := [], map[], [], [];
    }

    ghost predicate Valid(open: seq<Path>)
      reads this
    {
      Consistent(world, modules, table, emitted, chains, open)
    }

    ghost function Reached(): Progress
      reads this
    {
      Progress(modules, emitted)
    }

    /** What a successful load of `file` leaves: more modules, all of them reached from it. */
    twostate predicate Grown(file: Path)
      reads this
    {
      && old(modules) <= modules && old(emitted) <= emitted && old(chains) <= chains
      && Remaining(world, table) <= old(Remaining(world, table))
      && forall m :: m in modules && m !in old(modules) ==> world.Reaches(file, m)
    }

    /** What a load of `file` leaves when its code is rejected: all it imports is loaded, and it stays open. */
    ghost predicate LeftOpen(file: Path, open: seq<Path>)
      reads this
    {
      world.RejectedOnly(file) && Valid(open + [file]) && forall t :: world.Imports(file, t) ==> t in modules
    }

    /** Looks a module up, or loads it and, through its imports, everything it needs. */
    method GetModule(path: Path, ghost open: seq<Path>) returns (r: Loaded)
      requires Valid(open)
      requires open != [] ==> forall t :: world.Resolve(path, 0) == Some(t) ==> world.Imports(open[|open| - 1], t)
      modifies this
      ensures world.Resolve(path, 0) == None ==> r.Missing?
      ensures r.Missing? && world.Resolve(path, 0).Some? ==>
                var t := world.Resolve(path, 0).value;
                t !in old(modules) && LeftOpen(t, open)
      ensures r.Module? ==>
                && world.Resolve(path, 0) == Some(r.file)
                && Valid(open) && r.file in modules && Grown(r.file)
                && Reached() == Visit(world, old(Reached()), r.file)
      ensures r.Thrown? ==>
                && world.Resolve(path, 0).Some?
                && var t := world.Resolve(path, 0).value;
                   t !in old(modules) && world.Doomed(t, old(modules))
      decreases Remaining(world, table), 1
    {
      hide World.Fine, World.Reaches, World.Imports, World.Doomed, InOrder, LeftOpen, Visit, VisitImports;
      var i := 0;
      while i < |world.includes|
        invariant i <= |world.includes| && world.Resolve(path, 0) == world.Resolve(path, i)
      {
        var file := world.candidate(world.includes[i], path);
        if file in table {
          VisitOld(world, Reached(), file);
          return Module(modules[table[file]]);
        }
        if file in world.disk {
          r := Load(file, open);
          return;
        }
        i := i + 1;
      }
      return Missing;
    }

    /** Registers a file, analyzes it, and emits its code. */
    method Load(file: Path, ghost open: seq<Path>) returns (r: Loaded)
      requires Valid(open) && file in world.disk && file !in table
      requires open != [] ==> world.Imports(open[|open| - 1], file)
      modifies this
      ensures r.Module? ==> r.file == file && Valid(open) && file in modules && Grown(file)
      ensures r.Module? ==> Reached() == Visit(world, old(Reached()), file)
      ensures r.Missing? ==> file !in old(modules) && LeftOpen(file, open)
      ensures r.Thrown? ==> file !in old(modules) && world.Doomed(file, old(modules))
      decreases Remaining(world, table), 0
    {
      hide World.Analyzable, World.Doomed, World.Breaks, World.Reaches, World.Imports, Consistent, Remaining, LeftOpen,
           Visit, VisitImports;
      ReachesSelf(world, file);
      ghost var before, reached := modules, Reached();
      Register(file, open);
      r := Analyze(file, open + [file]);
      if r.Thrown? {
        DoomedBefore(world, file, before, before + [file]);
        return;
      }
      assert modules[|before|] == file;
      r := Emit(file, open);
      if r.Thrown? { DoomedItself(world, file, before); }
      VisitNew(world, reached, file);
    }

    /** Adds a file to the registry, which is then the last one open. */
    method Register(file: Path, ghost open: seq<Path>)
      requires Valid(open) && file in world.disk && file !in table
      requires open != [] ==> world.Imports(open[|open| - 1], file)
      modifies this`modules, this`table
      ensures Valid(open + [file]) && modules == old(modules) + [file] && file !in old(modules)
      ensures Remaining(world, table) < old(Remaining(world, table))
    {
      hide Consistent, Remaining;
      RegisterConsistent(world, modules, table, emitted, chains, open, file);
      RemainingDrops(world, table, file, |modules|);
      modules := modules + [file];
      table := table[file := |modules| - 1];
    }

    /** Emits the code of a module that has been analyzed. */
    method Emit(file: Path, ghost open: seq<Path>) returns (r: Loaded)
      requires Valid(open + [file]) && world.Analyzable(file) && forall t :: world.Imports(file, t) ==> t in modules
      modifies this`emitted, this`chains
      ensures r.Module? ==> r.file == file && Valid(open) && emitted == old(emitted) + [file] && old(chains) <= chains
      ensures r.Missing? ==> LeftOpen(file, open)
      ensures r.Thrown? ==> world.Breaks(file, file)
    {
      hide World.Imports, Consistent;
      match world.disk[file].emission {
        case Failing => return Thrown;
        case Rejected => return Missing;
        case Sound =>
      }
      EmitConsistent(world, modules, table, emitted, chains, open, file);
      emitted := emitted + [file];
      chains := chains + [open + [file]];
      return Module(file);
    }

    /** Parses a registered module and analyzes it, loading each import when it is met. */
    method Analyze(file: Path, ghost chain: seq<Path>) returns (r: Loaded)
      requires chain != [] && chain[|chain| - 1] == file && Valid(chain) && file in world.disk
      modifies this
      ensures r == Module(file) || r == Thrown
      ensures r.Module? ==>
                && Valid(chain) && world.Analyzable(file) && world.disk[file].Items? && Grown(file)
                && (forall t :: world.Imports(file, t) ==> t in modules)
                && Reached() == VisitImports(world, old(Reached()), world.disk[file].items)
      ensures r.Thrown? ==> world.Doomed(file, old(modules))
      decreases Remaining(world, table), 3
    {
      hide World.Reaches, Consistent, Remaining, Visit, VisitImports, VisitItem;
      ReachesSelf(world, file);
      ghost var reached := Reached();
      if world.disk[file].Broken? { return Thrown; }
      var items := world.disk[file].items;
      for i := 0 to |items|
        invariant Valid(chain) && Grown(file)
        invariant forall k, t :: 0 <= k < i && world.ImportsAt(file, k, t) ==> t in modules
        invariant forall k :: 0 <= k < i ==> world.ItemFine(items[k])
        invariant VisitImports(world, reached, items) == VisitImports(world, Reached(), items[i..])
      {
        VisitNext(world, Reached(), items, i);
        match items[i] {
          case Declaration(valid) =>
            if !valid {
              assert !world.ItemFine(items[i]);
              return Thrown;
            }
            VisitDeclaration(world, Reached(), items[i]);
          case Import(path) =>
            r := AnalyzeImport(file, i, path, chain);
            if r.Thrown? { return; }
        }
      }
      VisitNothing(world, Reached(), items[|items|..]);
      return Module(file);
    }

    /** One import met by the analysis of `file`; a module that does not exist is an error. */
    method AnalyzeImport(file: Path, ghost i: nat, path: Path, ghost chain: seq<Path>) returns (r: Loaded)
      requires chain != [] && chain[|chain| - 1] == file && Valid(chain)
      requires file in world.disk && world.disk[file].Items? && i < |world.disk[file].items|
      requires world.disk[file].items[i] == Import(path)
      modifies this
      ensures r.Module? || r.Thrown?
      ensures r.Module? ==>
                && Valid(chain) && world.Resolve(path, 0) == Some(r.file) && r.file in modules && Grown(file)
                && Reached() == VisitItem(world, old(Reached()), Import(path))
      ensures r.Thrown? ==> world.Doomed(file, old(modules))
      decreases Remaining(world, table), 2
    {
      assert file in modules;
      hide World.Reaches, World.Doomed, Consistent, Remaining, Visit;
      assert world.Resolve(path, 0) == None ==> !world.ItemFine(world.disk[file].items[i]) && world.Breaks(file, file);
      if world.Resolve(path, 0).Some? { assert world.ImportsAt(file, i, world.Resolve(path, 0).value); }
      hide World.Imports, World.Breaks, World.RejectedOnly;
      ghost var before := modules;
      r := GetModule(path, chain);
      match r
      case Missing =>
        if world.Resolve(path, 0) == None {
          DoomedItself(world, file, before);
        } else {
          DoomedImport(world, file, world.Resolve(path, 0).value, before);
        }
        return Thrown;
      case Module(t) =>
        forall m | world.Reaches(t, m) ensures world.Reaches(file, m) { ReachesStep(world, file, t, m); }
      case Thrown =>
        DoomedImport(world, file, world.Resolve(path, 0).value, before);
    }
  }

  // ------------------------------------------------------------ whole programs

  /** The tail of a chain leads from any of its modules to its last. */
  lemma ChainTail(w: World, p: seq<Path>, i: nat)
    requires w.Chain(p) && i < |p|
    ensures w.Reaches(p[i], p[|p| - 1])
  {
    assert w.ChainFromTo(p[i..], p[i], p[|p| - 1]);
  }

  /** Only a cycle of imports defers a module: an import is emitted first unless it leads back. */
  lemma OnlyCyclesDefer(w: World, emitted: seq<Path>, chain: seq<Path>, i: nat, t: Path)
    requires i < |emitted| && InOrder(w, emitted, chain, i) && w.Imports(emitted[i], t)
    ensures t in emitted[..i] || w.Reaches(t, emitted[i])
  {
    if t !in emitted[..i] {
      var k :| 0 <= k < |chain| && chain[k] == t;
      ChainTail(w, chain, k);
    }
  }

  /** With every chain closed, the registry holds exactly what the first module reaches. */
  lemma RegistryIsReachable(w: World, modules: seq<Path>, table: map<Path, nat>, emitted: seq<Path>,
                            chains: seq<seq<Path>>, first: Path)
    requires Consistent(w, modules, table, emitted, chains, [])
    requires first in modules && forall m :: m in modules ==> w.Reaches(first, m)
    ensures forall m :: m in modules <==> w.Reaches(first, m)
    ensures forall m :: w.Reaches(first, m) ==> w.Fine(m) && m in emitted
  {
    var closed := set m | m in modules;
    forall m | w.Reaches(first, m) ensures m in modules {
      var p :| w.ChainFromTo(p, first, m);
      ClosedReaches(w, closed, p, first, m);
    }
  }

  /** With only the first module open, every other module it reaches is fine. */
  lemma OthersFine(w: World, modules: seq<Path>, table: map<Path, nat>, emitted: seq<Path>,
                   chains: seq<seq<Path>>, first: Path)
    requires Consistent(w, modules, table, emitted, chains, [first])
    requires forall t :: w.Imports(first, t) ==> t in modules
    ensures forall m :: w.Reaches(first, m) && m != first ==> w.Fine(m)
  {
    var closed := set m | m in modules;
    hide World.Imports, World.Fine;
    forall m | w.Reaches(first, m) && m != first ensures w.Fine(m) {
      var p :| w.ChainFromTo(p, first, m);
      ClosedReaches(w, closed, p, first, m);
    }
  }

  lemma DoomedNeither(w: World, file: Path, before: seq<Path>)
    requires w.Doomed(file, before)
    ensures !w.Loadable(file) && !w.RejectedAlone(file)
  {
  }

  lemma RejectedNotLoadable(w: World, file: Path)
    requires w.RejectedOnly(file)
    ensures !w.Loadable(file)
  {
    ReachesSelf(w, file);
  }

  /**
   Loading a program succeeds exactly if its main module exists and everything it reaches is
   fine, and gives null exactly if the main module does not exist or nothing but its own code is
   rejected; otherwise it ends with an error. On success each module reached is registered once
   and emitted once, and nothing else is; and the loader is consistent, so each import was
   emitted before its importer or was on the chain of imports open at that time.
   */
  method LoadProgram(world: World, main: Path) returns (loader: Loader, r: Loaded)
    ensures fresh(loader) && loader.world == world
    ensures var file := world.Resolve(main, 0);
            && (r.Module? <==> file.Some? && world.Loadable(file.value))
            && (r.Missing? <==> file.None? || world.RejectedAlone(file.value))
    ensures r.Module? ==>
              && world.Resolve(main, 0) == Some(r.file) && loader.Valid([])
              && Progress(loader.modules, loader.emitted) == Visit(world, Progress([], []), r.file)
              && Distinct(loader.modules) && Distinct(loader.emitted)
              && (forall m :: m in loader.modules <==> world.Reaches(r.file, m))
              && (forall m :: m in loader.emitted <==> world.Reaches(r.file, m))
              && (forall i, t :: 0 <= i < |loader.emitted| && world.Imports(loader.emitted[i], t) ==>
                    t in loader.emitted[..i] || world.Reaches(t, loader.emitted[i]))
  {
    loader := new Loader(world);
    r := loader.GetModule(main, []);
    hide World.Imports, World.Fine, World.Reaches, World.Resolve, World.RejectedOnly, World.Doomed, Visit;
    ghost var file := world.Resolve(main, 0);
    if r.Missing? && file.Some? {
      assert [] + [file.value] == [file.value];
      OthersFine(world, loader.modules, loader.table, loader.emitted, loader.chains, file.value);
      RejectedNotLoadable(world, file.value);
    }
    if r.Thrown? { DoomedNeither(world, file.value, []); }
    if r.Module? {
      ReachesSelf(world, r.file);
      RegistryIsReachable(world, loader.modules, loader.table, loader.emitted, loader.chains, r.file);
      forall i, t | 0 <= i < |loader.emitted| && world.Imports(loader.emitted[i], t)
        ensures t in loader.emitted[..i] || world.Reaches(t, loader.emitted[i])
      {
        OnlyCyclesDefer(world, loader.emitted, loader.chains[i], i, t);
      }
    }
  }
}

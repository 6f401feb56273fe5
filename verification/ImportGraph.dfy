/** The import graph: what it holds, which files reach which, and the worklist that collects them. */
module ImportGraph {
  import opened Optional
  import opened Ordering
  import opened ModulePaths

  /** `internal` is settled when the edge is recorded and not looked at again. */
  datatype Edge = Edge(from: Path, target: string, internal: bool)

  datatype Graph = Graph(modules: map<string, Path>, edges: set<Edge>)

  const EMPTY: Graph := Graph(map[], {})

  function Registered(g: Graph, path: Path): Graph {
    match ModulePath(path)
    case None => g
    case Some(m) => g.(modules := g.modules[m := path])
  }

  function EdgeTo(g: Graph, from: Path, target: string): Edge {
    Edge(from, target, Resolved(g.modules, target).Some?)
  }

  function Recorded(g: Graph, from: Path, targets: seq<string>): Graph {
    g.(edges := g.edges + set t | t in targets :: EdgeTo(g, from, t))
  }

  function Removed(g: Graph, path: Path): Graph {
    Graph(map m | m in g.modules && g.modules[m] != path :: g.modules[m],
          set e | e in g.edges && e.from != path)
  }

  // ----- reaching -----

  /** `e` says that one file imports another, as far as the graph can tell. */
  ghost predicate Leads(g: Graph, e: Edge, a: Path, b: Path) {
    e in g.edges && e.internal && e.from == a && Resolved(g.modules, e.target) == Some(b)
  }

  ghost predicate Imports(g: Graph, a: Path, b: Path) {
    exists e :: Leads(g, e, a, b)
  }

  ghost predicate ReachesIn(g: Graph, a: Path, b: Path, n: nat)
    decreases n
  {
    if n == 0 then a == b else exists mid: Path :: Imports(g, a, mid) && ReachesIn(g, mid, b, n - 1)
  }

  /** Some chain of internal imports, possibly empty, leads from `a` to `b`. */
  ghost predicate Reaches(g: Graph, a: Path, b: Path) {
    exists n: nat :: ReachesIn(g, a, b, n)
  }

  predicate IsModule(g: Graph, path: Path) { path in g.modules.Values }

  /** The files a change of `path` may break: those that reach it, itself included, when it is registered at all. */
  ghost predicate DependsOn(g: Graph, f: Path, path: Path) {
    IsModule(g, path) && Reaches(g, f, path)
  }

  lemma ReachesSelf(g: Graph, a: Path)
    ensures Reaches(g, a, a)
  {
    assert ReachesIn(g, a, a, 0);
  }

  lemma ImportThenReach(g: Graph, a: Path, b: Path, c: Path)
    requires Imports(g, a, b) && Reaches(g, b, c)
    ensures Reaches(g, a, c)
  {
    var n: nat :| ReachesIn(g, b, c, n);
    assert ReachesIn(g, a, c, n + 1);
  }

  lemma {:induction false} ReachingIsTransitive(g: Graph, a: Path, b: Path, c: Path, n: nat)
    requires ReachesIn(g, a, b, n) && Reaches(g, b, c)
    ensures Reaches(g, a, c)
    decreases n
  {
    if n > 0 {
      var mid: Path :| Imports(g, a, mid) && ReachesIn(g, mid, b, n - 1);
      ReachingIsTransitive(g, mid, b, c, n - 1);
      ImportThenReach(g, a, mid, c);
    }
  }

  /** A set that holds `path` and every importer of what it holds has everything that reaches `path`. */
  lemma {:induction false} ClosedHoldsAll(g: Graph, s: set<Path>, f: Path, path: Path, n: nat)
    requires path in s && forall a: Path, b: Path :: b in s && Imports(g, a, b) ==> a in s
    requires ReachesIn(g, f, path, n)
    ensures f in s
    decreases n
  {
    if n > 0 {
      var mid: Path :| Imports(g, f, mid) && ReachesIn(g, mid, path, n - 1);
      ClosedHoldsAll(g, s, mid, path, n - 1);
    }
  }

  // ----- the worklist -----

  /** All files that can ever be visited. */
  ghost function Universe(g: Graph, path: Path): set<Path> {
    {path} + set e | e in g.edges :: e.from
  }

  /** Everything found so far reaches `path`; only the frontier may still have importers to add. */
  ghost predicate Exploring(g: Graph, path: Path, visited: set<Path>, frontier: seq<Path>) {
    && path in visited && visited <= Universe(g, path)
    && (forall v :: v in visited ==> Reaches(g, v, path))
    && (forall v :: v in frontier ==> v in visited)
    && (forall a: Path, b: Path :: b in visited && b !in frontier && Imports(g, a, b) ==> a in visited)
  }

  /** The same while the importers of `current` are being added: those by `rest` are still missing. */
  ghost predicate Expanding(g: Graph, path: Path, visited: set<Path>, frontier: seq<Path>, current: Path, rest: set<Edge>) {
    && path in visited && visited <= Universe(g, path) && rest <= g.edges && current in visited
    && (forall v :: v in visited ==> Reaches(g, v, path))
    && (forall v :: v in frontier ==> v in visited)
    && (forall a: Path, b: Path :: b in visited && b !in frontier && b != current && Imports(g, a, b) ==> a in visited)
    && (forall e, a :: Leads(g, e, a, current) && e !in rest ==> a in visited)
  }

  lemma StartExploring(g: Graph, path: Path)
    ensures Exploring(g, path, {path}, [path])
  {
    ReachesSelf(g, path);
  }

  lemma StartExpanding(g: Graph, path: Path, visited: set<Path>, frontier: seq<Path>)
    requires Exploring(g, path, visited, frontier) && frontier != []
    ensures Expanding(g, path, visited, frontier[..|frontier| - 1], frontier[|frontier| - 1], g.edges)
  {
    var last := |frontier| - 1;
    assert frontier == frontier[..last] + [frontier[last]];
    assert frontier[last] in frontier;
  }

  lemma DoneExpanding(g: Graph, path: Path, visited: set<Path>, frontier: seq<Path>, current: Path)
    requires Expanding(g, path, visited, frontier, current, {})
    ensures Exploring(g, path, visited, frontier)
  {
    forall a: Path, b: Path | b in visited && b !in frontier && Imports(g, a, b) ensures a in visited {
      if b == current {
        var e :| Leads(g, e, a, b);
      }
    }
  }

  predicate IsTarget(g: Graph, e: Edge, current: Path) {
    e.internal && Resolved(g.modules, e.target) == Some(current)
  }

  /** One edge looked at. */
  lemma ExpandOne(g: Graph, path: Path, visited: set<Path>, frontier: seq<Path>, current: Path, rest: set<Edge>, e: Edge)
    requires Expanding(g, path, visited, frontier, current, rest) && e in rest
    ensures if !IsTarget(g, e, current) then Expanding(g, path, visited, frontier, current, rest - {e})
            else if e.from in visited then Expanding(g, path, visited, frontier, current, rest - {e})
            else Expanding(g, path, visited + {e.from}, frontier + [e.from], current, rest - {e})
                 && visited + {e.from} <= Universe(g, path)
  {
    hide Reaches;
    if IsTarget(g, e, current) {
      assert Leads(g, e, e.from, current);
      assert Imports(g, e.from, current);
      ImportThenReach(g, e.from, current, path);
    }
  }

  lemma ExploredAll(g: Graph, path: Path, visited: set<Path>)
    requires Exploring(g, path, visited, []) && IsModule(g, path)
    ensures forall f: Path :: f in visited <==> DependsOn(g, f, path)
  {
    hide Imports, ReachesIn;
    forall f: Path | Reaches(g, f, path) ensures f in visited {
      var n: nat :| ReachesIn(g, f, path, n);
      ClosedHoldsAll(g, visited, f, path, n);
    }
  }

  lemma CountLeft(universe: set<Path>, visited: set<Path>, more: Path)
    requires more !in visited && visited + {more} <= universe
    ensures |universe - (visited + {more})| < |universe - visited|
  {
    assert universe - visited == (universe - (visited + {more})) + {more};
  }

  class DependencyGraph {
    var edges: set<Edge>
    var modules: map<string, Path>
    const normalise: (Path, string) -> string

    constructor (normalise: (Path, string) -> string)
      ensures Value() == EMPTY && this.normalise == normalise
    {
      edges, modules, this.normalise := {}, map[], normalise;
    }

    function Value(): Graph
      reads this
    {
      Graph(modules, edges)
    }

    method RegisterModule(path: Path)
      modifies this
      ensures Value() == Registered(old(Value()), path)
    {
      match ModulePath(path) {
        case None =>
        case Some(m) => modules := modules[m := path];
      }
    }

    /** Segments stripped from the right until a registered module is left. */
    method Resolve(name: string) returns (path: Option<Path>)
      ensures path == Resolved(modules, name)
    {
      var candidate := name;
      ghost var n := |name|;
      assert name[..n] == name;
      while true
        invariant n <= |name| && candidate == name[..n]
        invariant Resolved(modules, name) == ResolveFrom(modules, name, n)
        decreases n
      {
        if candidate in modules {
          return Some(modules[candidate]);
        }
        CutOfPrefix(name, n);
        match LastCut(candidate, |candidate|) {
          case None => return None;
          case Some(i) =>
            candidate := candidate[..i];
            n := i;
        }
      }
    }

    method RecordImports(from: Path, imports: seq<string>)
      modifies this
      ensures Value() == Recorded(old(Value()), from, Normalised(normalise, from, imports))
    {
      ghost var was := Value();
      ghost var targets := Normalised(normalise, from, imports);
      for i := 0 to |imports|
        invariant modules == was.modules
        invariant Value() == Recorded(was, from, targets[..i])
      {
        var normalised := normalise(from, imports[i]);
        var internal := Resolve(normalised);
        edges := edges + {Edge(from, normalised, internal.Some?)};
        RecordedOneMore(was, from, targets, i);
      }
      assert targets[..|imports|] == targets;
    }

    method RemoveFile(path: Path)
      modifies this
      ensures Value() == Removed(old(Value()), path)
    {
      modules := map m | m in modules && modules[m] != path :: modules[m];
      edges := set e | e in edges && e.from != path;
    }

    /** Exactly the files that reach `path`, in path order; nothing for a file that is not registered. */
    method Dependents(path: Path) returns (out: seq<Path>)
      ensures Ascending(PATH_LESS, out)
      ensures forall f: Path :: f in out <==> DependsOn(Value(), f, path)
    {
      hide DependsOn, Exploring, PATH_LESS;
      if !IsModule(Value(), path) {
        NotAModule(Value(), path);
        return [];
      }
      var visited := {path};
      var frontier := [path];
      StartExploring(Value(), path);
      ghost var universe := Universe(Value(), path);
      while frontier != []
        invariant Exploring(Value(), path, visited, frontier)
        decreases |universe - visited|, |frontier|
      {
        StartExpanding(Value(), path, visited, frontier);
        var current := frontier[|frontier| - 1];
        frontier := frontier[..|frontier| - 1];
        visited, frontier := Expand(path, current, visited, frontier);
      }
      ExploredAll(Value(), path, visited);
      PathOrder();
      out := Sorted(PATH_LESS, visited);
    }

    /** The importers of `current` that have not been visited join the frontier. */
    method Expand(path: Path, current: Path, visited: set<Path>, frontier: seq<Path>)
      returns (visited': set<Path>, frontier': seq<Path>)
      requires Expanding(Value(), path, visited, frontier, current, edges)
      ensures Exploring(Value(), path, visited', frontier')
      ensures var universe := Universe(Value(), path);
              |universe - visited'| < |universe - visited| || (visited' == visited && frontier' == frontier)
    {
      hide Exploring, Expanding, Universe;
      ghost var universe := Universe(Value(), path);
      visited', frontier' := visited, frontier;
      var rest := edges;
      while rest != {}
        invariant Expanding(Value(), path, visited', frontier', current, rest)
        invariant |universe - visited'| < |universe - visited| || (visited' == visited && frontier' == frontier)
        decreases |rest|
      {
        var e :| e in rest;
        ExpandOne(Value(), path, visited', frontier', current, rest, e);
        rest := rest - {e};
        if e.internal {
          var target := Resolve(e.target);
          if target == Some(current) && e.from !in visited' {
            CountLeft(universe, visited', e.from);
            visited' := visited' + {e.from};
            frontier' := frontier' + [e.from];
          }
        }
      }
      DoneExpanding(Value(), path, visited', frontier', current);
    }
  }

  function Normalised(normalise: (Path, string) -> string, from: Path, imports: seq<string>): (targets: seq<string>)
    ensures |targets| == |imports| && forall i :: 0 <= i < |imports| ==> targets[i] == normalise(from, imports[i])
  {
    seq(|imports|, i requires 0 <= i < |imports| => normalise(from, imports[i]))
  }

  lemma RecordedOneMore(g: Graph, from: Path, targets: seq<string>, i: nat)
    requires i < |targets|
    ensures Recorded(g, from, targets[..i + 1]).edges == Recorded(g, from, targets[..i]).edges + {EdgeTo(g, from, targets[i])}
  {
    assert targets[..i + 1] == targets[..i] + [targets[i]];
  }

  lemma NotAModule(g: Graph, path: Path)
    requires !IsModule(g, path)
    ensures forall f :: !DependsOn(g, f, path)
  {
  }

  /** Separators of a prefix are separators of the whole. */
  lemma CutOfPrefix(s: string, n: nat)
    requires n <= |s|
    ensures LastCut(s[..n], n) == LastCut(s, n)
  {
    var (a, b) := (LastCut(s[..n], n), LastCut(s, n));
    assert forall k: nat :: k + 2 <= n ==> CutAt(s[..n], k) == CutAt(s, k);
    if a.Some? && b.Some? {
      assert !(a.value < b.value) && !(b.value < a.value);
    }
  }
}

/** The index and its import graph under watcher events, against a rebuild from scratch. */
module DigestState {
  import opened Optional
  import opened Octets
  import opened Ordering
  import opened ModulePaths
  import opened ImportGraph

  /** What the parsers say: whether a source is harvested, the imports it declares, and how those are rewritten. */
  datatype Reader = Reader(parses: (Path, Bytes) -> bool, imports: (Path, Bytes) -> seq<string>, normalise: (Path, string) -> string) {
    function Targets(f: Path, source: Bytes): seq<string> { Normalised(normalise, f, imports(f, source)) }
  }

  type Files = map<Path, Bytes>

  datatype State = State(files: Files, graph: Graph)

  /** One path of a watcher event; a write comes with what could be read. */
  datatype Event = Remove(path: Path) | Write(path: Path, source: Option<Bytes>)

  function Indexed(reader: Reader, files: Files, path: Path, source: Bytes): Files {
    if reader.parses(path, source) then files[path := source] else files - {path}
  }

  function Apply(reader: Reader, s: State, event: Event): State {
    match event
    case Remove(path) => State(s.files - {path}, Removed(s.graph, path))
    case Write(_, None) => s
    case Write(path, Some(source)) =>
      if path in s.files && s.files[path] == source then s
      else
        var files := Indexed(reader, s.files, path, source);
        var without := Removed(s.graph, path);
        State(files, if path in files then Recorded(Registered(without, path), path, reader.Targets(path, source)) else without)
  }

  /** The sources on disk that the parser accepts. */
  function Harvested(reader: Reader, disk: Files): Files {
    map f | f in disk && reader.parses(f, disk[f]) :: disk[f]
  }

  // ----- the graph built from scratch -----

  function RegisterAll(order: seq<Path>): Graph {
    if order == [] then EMPTY else Registered(RegisterAll(order[..|order| - 1]), order[|order| - 1])
  }

  function RecordAll(reader: Reader, g: Graph, files: Files, order: seq<Path>): Graph
    requires forall f :: f in order ==> f in files
  {
    if order == [] then g
    else
      var last := order[|order| - 1];
      Recorded(RecordAll(reader, g, files, order[..|order| - 1]), last, reader.Targets(last, files[last]))
  }

  /** Modules of all files first, in path order, then the imports of each. */
  function Rebuilt(reader: Reader, files: Files): Graph {
    PathOrder();
    var order := Sorted(PATH_LESS, files.Keys);
    RecordAll(reader, RegisterAll(order), files, order)
  }

  // ----- what a graph should say about a set of files -----

  /** No two of the files go by the same module name. */
  ghost predicate Injective(keys: set<Path>) {
    forall f, g :: f in keys && g in keys && ModulePath(f).Some? && ModulePath(f) == ModulePath(g) ==> f == g
  }

  ghost predicate NamesFile(modules: map<string, Path>, m: string, f: Path) { m in modules && modules[m] == f }

  ghost predicate ModulesAre(modules: map<string, Path>, keys: set<Path>) {
    forall m: string, f: Path :: NamesFile(modules, m, f) <==> f in keys && ModulePath(f) == Some(m)
  }

  ghost predicate Declares(reader: Reader, files: Files, f: Path, target: string) {
    f in files && target in reader.Targets(f, files[f])
  }

  ghost predicate EdgesAre(edges: set<Edge>, reader: Reader, files: Files) {
    && (forall e :: e in edges ==> Declares(reader, files, e.from, e.target))
    && (forall f, t :: Declares(reader, files, f, t) ==> Edge(f, t, true) in edges || Edge(f, t, false) in edges)
  }

  /** The graph's modules are those of the files, and its edges their imports; only the `internal` marks may be out of date. */
  ghost predicate Tracks(reader: Reader, s: State) {
    ModulesAre(s.graph.modules, s.files.Keys) && EdgesAre(s.graph.edges, reader, s.files)
  }

  /** Every import that resolves now was marked internal when it was recorded. */
  ghost predicate NothingStale(reader: Reader, s: State) {
    forall f, t :: Declares(reader, s.files, f, t) && Resolved(s.graph.modules, t).Some? ==> Edge(f, t, true) in s.graph.edges
  }

  lemma ModulesRegistered(modules: map<string, Path>, keys: set<Path>, f: Path)
    requires ModulesAre(modules, keys) && f !in keys && Injective(keys + {f})
    ensures ModulesAre(Registered(Graph(modules, {}), f).modules, keys + {f})
  {
    var next := Registered(Graph(modules, {}), f).modules;
    forall m: string, g: Path ensures NamesFile(next, m, g) <==> g in keys + {f} && ModulePath(g) == Some(m) {
      assert NamesFile(modules, m, g) <==> g in keys && ModulePath(g) == Some(m);
    }
  }

  lemma ModulesRemoved(g: Graph, keys: set<Path>, f: Path)
    requires ModulesAre(g.modules, keys)
    ensures ModulesAre(Removed(g, f).modules, keys - {f})
  {
    forall m: string, h: Path ensures NamesFile(Removed(g, f).modules, m, h) <==> h in keys - {f} && ModulePath(h) == Some(m) {
      assert NamesFile(g.modules, m, h) <==> h in keys && ModulePath(h) == Some(m);
    }
  }

  lemma ModulesAreOne(a: map<string, Path>, b: map<string, Path>, keys: set<Path>)
    requires ModulesAre(a, keys) && ModulesAre(b, keys)
    ensures a == b && Injective(keys)
  {
    forall m ensures m in a <==> m in b {
      assert m in a ==> NamesFile(a, m, a[m]) && NamesFile(b, m, a[m]);
      assert m in b ==> NamesFile(b, m, b[m]) && NamesFile(a, m, b[m]);
    }
    forall m | m in a ensures a[m] == b[m] {
      assert NamesFile(a, m, a[m]) && NamesFile(b, m, a[m]);
    }
    forall f, g | f in keys && g in keys && ModulePath(f).Some? && ModulePath(f) == ModulePath(g) ensures f == g {
      var m := ModulePath(f).value;
      assert NamesFile(a, m, f) && NamesFile(a, m, g);
    }
  }

  function Members(order: seq<Path>): set<Path> { set f | f in order }

  /** What recording leaves: the modules, and one edge per import, marked by what resolves. */
  lemma {:induction false} RecordAllRecords(reader: Reader, g: Graph, files: Files, order: seq<Path>)
    requires (forall f :: f in order ==> f in files) && g.edges == {}
    ensures var r := RecordAll(reader, g, files, order);
            && r.modules == g.modules
            && forall e :: e in r.edges <==> e.from in order && Declares(reader, files, e.from, e.target) && e == EdgeTo(g, e.from, e.target)
    decreases |order|
  {
    if order != [] {
      var n := |order| - 1;
      assert order == order[..n] + [order[n]];
      RecordAllRecords(reader, g, files, order[..n]);
    }
  }

  /** Every registered name is one of a file that is there. */
  ghost predicate ModulesAmong(modules: map<string, Path>, keys: set<Path>) {
    forall m: string, f: Path :: NamesFile(modules, m, f) ==> f in keys && ModulePath(f) == Some(m)
  }

  /** What holds whatever names the files share: names of files that are there, and exactly their imports. */
  ghost predicate Follows(reader: Reader, s: State) {
    ModulesAmong(s.graph.modules, s.files.Keys) && EdgesAre(s.graph.edges, reader, s.files)
  }

  /** Of the files that share a module name, the last in path order has it. */
  ghost predicate LastHasIt(modules: map<string, Path>, f: Path) {
    ModulePath(f).Some? ==>
      var m := ModulePath(f).value;
      m in modules && (modules[m] == f || PATH_LESS(f, modules[m]))
  }

  lemma {:induction false} RegisterAllLastWins(order: seq<Path>)
    requires Ascending(PATH_LESS, order)
    ensures ModulesAmong(RegisterAll(order).modules, Members(order)) && RegisterAll(order).edges == {}
    ensures forall f :: f in order ==> LastHasIt(RegisterAll(order).modules, f)
    decreases |order|
  {
    hide PATH_LESS, ModulePath;
    if order != [] {
      var n := |order| - 1;
      var (front, last) := (order[..n], order[n]);
      assert order == front + [last];
      RegisterAllLastWins(front);
      forall f | f in order ensures LastHasIt(RegisterAll(order).modules, f) {
        if f in front {
          assert PATH_LESS(f, last);
          assert LastHasIt(RegisterAll(front).modules, f);
        }
      }
      RegisteredAmong(RegisterAll(front), Members(front), last);
      assert Members(order) == Members(front) + {last};
    }
  }

  lemma RegisteredAmong(g: Graph, keys: set<Path>, f: Path)
    requires ModulesAmong(g.modules, keys)
    ensures ModulesAmong(Registered(g, f).modules, keys + {f}) && Registered(g, f).edges == g.edges
  {
    forall m: string, h: Path | NamesFile(Registered(g, f).modules, m, h) ensures h in keys + {f} && ModulePath(h) == Some(m) {
      assert h == f || NamesFile(g.modules, m, h);
    }
  }

  /** Whatever names the files share, a rebuild has their imports, marked by what resolves, and each name belongs to the last file that has it. */
  lemma RebuildNamesTheLast(reader: Reader, files: Files)
    ensures Follows(reader, State(files, Rebuilt(reader, files))) && NothingStale(reader, State(files, Rebuilt(reader, files)))
    ensures forall e :: e in Rebuilt(reader, files).edges ==> e == EdgeTo(Rebuilt(reader, files), e.from, e.target)
    ensures forall f :: f in files ==> LastHasIt(Rebuilt(reader, files).modules, f)
  {
    hide ModulesAmong, LastHasIt, Resolved, PATH_LESS;
    PathOrder();
    var order := Sorted(PATH_LESS, files.Keys);
    assert Members(order) == files.Keys;
    RegisterAllLastWins(order);
    var g := RegisterAll(order);
    RecordAllRecords(reader, g, files, order);
    forall f, t | Declares(reader, files, f, t) ensures EdgeTo(g, f, t) in Rebuilt(reader, files).edges {
      assert f in order;
    }
  }

  /** When no two share a name, the names are exactly those of the files. */
  lemma RebuildTracks(reader: Reader, files: Files)
    requires Injective(files.Keys)
    ensures Tracks(reader, State(files, Rebuilt(reader, files))) && NothingStale(reader, State(files, Rebuilt(reader, files)))
    ensures forall e :: e in Rebuilt(reader, files).edges ==> e == EdgeTo(Rebuilt(reader, files), e.from, e.target)
  {
    RebuildNamesTheLast(reader, files);
    hide EdgesAre, NothingStale, Rebuilt;
    var modules := Rebuilt(reader, files).modules;
    forall m: string, f: Path | f in files.Keys && ModulePath(f) == Some(m) ensures NamesFile(modules, m, f) {
      assert LastHasIt(modules, f);
      assert NamesFile(modules, m, modules[m]);
    }
  }

  // ----- one event -----

  lemma RemovalTracks(reader: Reader, s: State, path: Path)
    requires Tracks(reader, s)
    ensures Tracks(reader, State(s.files - {path}, Removed(s.graph, path)))
  {
    ModulesRemoved(s.graph, s.files.Keys, path);
    assert (s.files - {path}).Keys == s.files.Keys - {path};
    hide ModulesAre, Reader.Targets;
  }

  lemma AdditionTracks(reader: Reader, s: State, path: Path, source: Bytes)
    requires Tracks(reader, s) && path !in s.files && Injective(s.files.Keys + {path})
    ensures Tracks(reader, State(s.files[path := source], Recorded(Registered(s.graph, path), path, reader.Targets(path, source))))
  {
    ModulesRegistered(s.graph.modules, s.files.Keys, path);
    assert s.files[path := source].Keys == s.files.Keys + {path};
    hide ModulesAre, Injective, Reader.Targets, Registered, Resolved;
    RegisteredKeepsEdges(s.graph, path);
    RecordedTracks(reader, s.graph.edges, s.files, Registered(s.graph, path), path, source);
  }

  lemma RegisteredKeepsEdges(g: Graph, path: Path)
    ensures Registered(g, path) == Graph(Registered(Graph(g.modules, {}), path).modules, g.edges)
  {
  }

  lemma RecordedTracks(reader: Reader, edges: set<Edge>, files: Files, g: Graph, path: Path, source: Bytes)
    requires EdgesAre(edges, reader, files) && path !in files && g.edges == edges
    ensures EdgesAre(Recorded(g, path, reader.Targets(path, source)).edges, reader, files[path := source])
    ensures Recorded(g, path, reader.Targets(path, source)).modules == g.modules
  {
    hide Reader.Targets, Resolved;
    var (now, next) := (files[path := source], Recorded(g, path, reader.Targets(path, source)).edges);
    forall f, t | Declares(reader, now, f, t) ensures Edge(f, t, true) in next || Edge(f, t, false) in next {
      if f == path {
        assert EdgeTo(g, path, t) in next;
      } else {
        assert Declares(reader, files, f, t);
      }
    }
    forall e | e in next ensures Declares(reader, now, e.from, e.target) {
      if e in edges {
        assert Declares(reader, files, e.from, e.target);
      }
    }
  }

  lemma RemovalFollows(reader: Reader, s: State, path: Path)
    requires Follows(reader, s)
    ensures Follows(reader, State(s.files - {path}, Removed(s.graph, path)))
  {
    hide Reader.Targets, ModulePath;
    var modules := Removed(s.graph, path).modules;
    forall m: string, f: Path | NamesFile(modules, m, f) ensures f in s.files.Keys - {path} && ModulePath(f) == Some(m) {
      assert NamesFile(s.graph.modules, m, f);
    }
  }

  lemma AdditionFollows(reader: Reader, s: State, path: Path, source: Bytes)
    requires Follows(reader, s) && path !in s.files
    ensures Follows(reader, State(s.files[path := source], Recorded(Registered(s.graph, path), path, reader.Targets(path, source))))
  {
    RegisteredAmong(s.graph, s.files.Keys, path);
    assert s.files[path := source].Keys == s.files.Keys + {path};
    hide ModulesAmong, Reader.Targets, Registered, Resolved;
    RecordedTracks(reader, s.graph.edges, s.files, Registered(s.graph, path), path, source);
  }

  /** Every event, whatever names the files share, leaves names of files that are there and exactly their imports. */
  lemma EventFollows(reader: Reader, s: State, event: Event)
    requires Follows(reader, s)
    ensures Follows(reader, Apply(reader, s, event))
  {
    hide Follows, Registered, Recorded, Removed, Reader.Targets;
    match event
    case Remove(path) => RemovalFollows(reader, s, path);
    case Write(_, None) =>
    case Write(path, Some(source)) =>
      if !(path in s.files && s.files[path] == source) {
        RemovalFollows(reader, s, path);
        if reader.parses(path, source) {
          var without := State(s.files - {path}, Removed(s.graph, path));
          assert without.files[path := source] == s.files[path := source];
          AdditionFollows(reader, without, path, source);
        }
      }
  }
}

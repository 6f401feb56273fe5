/** Patching against rebuilding, over whole runs of watcher events. */
module DigestRuns {
  import opened Optional
  import opened Octets
  import opened Ordering
  import opened ModulePaths
  import opened ImportGraph
  import opened DigestState

  // ----- every event keeps the graph on track -----

  lemma EventTracks(reader: Reader, s: State, event: Event)
    requires Tracks(reader, s) && Injective(Apply(reader, s, event).files.Keys)
    ensures Tracks(reader, Apply(reader, s, event))
  {
    hide Tracks, Injective, Registered, Recorded, Removed, Reader.Targets;
    match event
    case Remove(path) => RemovalTracks(reader, s, path);
    case Write(_, None) =>
    case Write(path, Some(source)) =>
      if !(path in s.files && s.files[path] == source) {
        RemovalTracks(reader, s, path);
        if reader.parses(path, source) {
          var without := State(s.files - {path}, Removed(s.graph, path));
          assert without.files[path := source] == s.files[path := source];
          assert without.files.Keys + {path} == s.files[path := source].Keys;
          AdditionTracks(reader, without, path, source);
        }
      }
  }

  // ----- the patched graph and the rebuilt one -----

  ghost predicate SameRadius(a: Graph, b: Graph) {
    forall f: Path, path: Path :: DependsOn(a, f, path) <==> DependsOn(b, f, path)
  }

  /** `f` imports by `t` a file that is there now, but the edge was marked external when it was recorded. */
  ghost predicate Stale(reader: Reader, s: State, f: Path, t: string) {
    Declares(reader, s.files, f, t) && Resolved(s.graph.modules, t).Some? && Edge(f, t, true) !in s.graph.edges
  }

  lemma TrackedModules(reader: Reader, s: State)
    requires Tracks(reader, s)
    ensures Rebuilt(reader, s.files).modules == s.graph.modules
    ensures Tracks(reader, State(s.files, Rebuilt(reader, s.files))) && NothingStale(reader, State(s.files, Rebuilt(reader, s.files)))
  {
    hide ModulesAre, EdgesAre, Rebuilt, NothingStale;
    ModulesAreOne(s.graph.modules, s.graph.modules, s.files.Keys);
    RebuildTracks(reader, s.files);
    ModulesAreOne(s.graph.modules, Rebuilt(reader, s.files).modules, s.files.Keys);
  }

  /** An import of the patched graph is one of the rebuilt graph. */
  lemma ImportIsKnown(reader: Reader, s: State, a: Path, b: Path)
    requires Tracks(reader, s) && Imports(s.graph, a, b)
    ensures Imports(Rebuilt(reader, s.files), a, b)
  {
    hide ModulesAre, Rebuilt, Resolved;
    TrackedModules(reader, s);
    var e :| Leads(s.graph, e, a, b);
    assert Declares(reader, s.files, a, e.target);
    assert Leads(Rebuilt(reader, s.files), Edge(a, e.target, true), a, b);
  }

  lemma {:induction false} ReachIsKnown(reader: Reader, s: State, a: Path, b: Path, n: nat)
    requires Tracks(reader, s) && ReachesIn(s.graph, a, b, n)
    ensures Reaches(Rebuilt(reader, s.files), a, b)
    decreases n
  {
    hide Tracks, Imports, Rebuilt, Reaches;
    if n == 0 {
      ReachesSelf(Rebuilt(reader, s.files), a);
    } else {
      var mid: Path :| Imports(s.graph, a, mid) && ReachesIn(s.graph, mid, b, n - 1);
      ReachIsKnown(reader, s, mid, b, n - 1);
      ImportIsKnown(reader, s, a, mid);
      ImportThenReach(Rebuilt(reader, s.files), a, mid, b);
    }
  }

  /** The patched radius is never larger than the rebuilt one. */
  lemma RadiusIsSubset(reader: Reader, s: State, f: Path, path: Path)
    requires Tracks(reader, s) && DependsOn(s.graph, f, path)
    ensures DependsOn(Rebuilt(reader, s.files), f, path)
  {
    hide Tracks, Rebuilt, ReachesIn;
    TrackedModules(reader, s);
    var n: nat :| ReachesIn(s.graph, f, path, n);
    ReachIsKnown(reader, s, f, path, n);
  }

  /** The importer behind every stale edge is in the patched radius of what it imports anyway. */
  ghost predicate StaleEdgesCovered(reader: Reader, s: State) {
    forall f, t :: Stale(reader, s, f, t) ==> DependsOn(s.graph, f, Resolved(s.graph.modules, t).value)
  }

  lemma ImportIsCovered(reader: Reader, s: State, a: Path, b: Path)
    requires Tracks(reader, s) && StaleEdgesCovered(reader, s) && Imports(Rebuilt(reader, s.files), a, b)
    ensures Reaches(s.graph, a, b)
  {
    hide ModulesAre, Rebuilt, Resolved, Reaches;
    TrackedModules(reader, s);
    var e :| Leads(Rebuilt(reader, s.files), e, a, b);
    assert Declares(reader, s.files, a, e.target);
    if Stale(reader, s, a, e.target) {
      assert DependsOn(s.graph, a, b);
    } else {
      assert Leads(s.graph, Edge(a, e.target, true), a, b);
      ReachesSelf(s.graph, b);
      ImportThenReach(s.graph, a, b, b);
    }
  }

  lemma {:induction false} ReachIsCovered(reader: Reader, s: State, a: Path, b: Path, n: nat)
    requires Tracks(reader, s) && StaleEdgesCovered(reader, s) && ReachesIn(Rebuilt(reader, s.files), a, b, n)
    ensures Reaches(s.graph, a, b)
    decreases n
  {
    hide Tracks, StaleEdgesCovered, Imports, Rebuilt;
    if n == 0 {
      ReachesSelf(s.graph, a);
    } else {
      var mid: Path :| Imports(Rebuilt(reader, s.files), a, mid) && ReachesIn(Rebuilt(reader, s.files), mid, b, n - 1);
      ReachIsCovered(reader, s, mid, b, n - 1);
      ImportIsCovered(reader, s, a, mid);
      var k: nat :| ReachesIn(s.graph, a, mid, k);
      ReachingIsTransitive(s.graph, a, mid, b, k);
    }
  }

  lemma StaleEdgeIsRebuilt(reader: Reader, s: State, f: Path, t: string)
    requires Tracks(reader, s) && Stale(reader, s, f, t)
    ensures DependsOn(Rebuilt(reader, s.files), f, Resolved(s.graph.modules, t).value)
  {
    TrackedModules(reader, s);
    ResolvedIsRegistered(s.graph.modules, t, |t|);
    hide ModulesAre, EdgesAre, Rebuilt, ReachesIn;
    var b := Resolved(s.graph.modules, t).value;
    assert Leads(Rebuilt(reader, s.files), Edge(f, t, true), f, b);
    ReachesSelf(Rebuilt(reader, s.files), b);
    ImportThenReach(Rebuilt(reader, s.files), f, b, b);
  }

  /** Where the modules are those of the files: the same radius for every file exactly when every stale edge is covered. */
  lemma TrackedRadiusIffCovered(reader: Reader, s: State)
    requires Tracks(reader, s)
    ensures SameRadius(s.graph, Rebuilt(reader, s.files)) <==> StaleEdgesCovered(reader, s)
  {
    hide Tracks, Rebuilt, ReachesIn, ResolveFrom, Declares;
    if StaleEdgesCovered(reader, s) {
      forall f: Path, path: Path ensures DependsOn(s.graph, f, path) <==> DependsOn(Rebuilt(reader, s.files), f, path) {
        if DependsOn(s.graph, f, path) {
          RadiusIsSubset(reader, s, f, path);
        }
        if DependsOn(Rebuilt(reader, s.files), f, path) {
          TrackedModules(reader, s);
          var n: nat :| ReachesIn(Rebuilt(reader, s.files), f, path, n);
          ReachIsCovered(reader, s, f, path, n);
        }
      }
    }
    if SameRadius(s.graph, Rebuilt(reader, s.files)) {
      forall f, t | Stale(reader, s, f, t) ensures DependsOn(s.graph, f, Resolved(s.graph.modules, t).value) {
        StaleEdgeIsRebuilt(reader, s, f, t);
      }
    }
  }

  lemma NameIsItsOwn(g: Graph, keys: set<Path>, m: string, f: Path)
    requires ModulesAmong(g.modules, keys) && m in g.modules && g.modules[m] == f
    ensures ModulePath(f) == Some(m) && NamesFile(g.modules, m, f)
  {
    assert NamesFile(g.modules, m, f);
  }

  lemma DependsOnItself(g: Graph, f: Path)
    ensures DependsOn(g, f, f) <==> IsModule(g, f)
  {
    ReachesSelf(g, f);
  }

  /** Every indexed file that has a module name is registered under it. */
  ghost predicate AllRegistered(s: State) {
    forall f :: f in s.files && ModulePath(f).Some? ==> IsModule(s.graph, f)
  }

  lemma RegisteredTracks(reader: Reader, s: State)
    requires Follows(reader, s)
    ensures Tracks(reader, s) <==> Injective(s.files.Keys) && AllRegistered(s)
  {
    hide EdgesAre, ModulePath;
    if Injective(s.files.Keys) && AllRegistered(s) {
      forall m: string, f: Path | f in s.files.Keys && ModulePath(f) == Some(m) ensures NamesFile(s.graph.modules, m, f) {
        var k :| k in s.graph.modules && s.graph.modules[k] == f;
        NameIsItsOwn(s.graph, s.files.Keys, k, f);
      }
    }
    if Tracks(reader, s) {
      ModulesAreOne(s.graph.modules, s.graph.modules, s.files.Keys);
      forall f | f in s.files && ModulePath(f).Some? ensures IsModule(s.graph, f) {
        assert NamesFile(s.graph.modules, ModulePath(f).value, f);
      }
    }
  }

  lemma RebuildRegistersAll(reader: Reader, files: Files)
    requires Injective(files.Keys)
    ensures AllRegistered(State(files, Rebuilt(reader, files)))
  {
    RebuildTracks(reader, files);
    RegisteredTracks(reader, State(files, Rebuilt(reader, files)));
  }

  /**
   In every state that events can reach and in which no two indexed files share
   a name now: patched and rebuilt graph agree on every file exactly when every
   file is still registered - an earlier collision may have cost it its name -
   and every stale edge is covered.
   */
  lemma SameRadiusIffStaleEdgesCovered(reader: Reader, s: State)
    requires Follows(reader, s) && Injective(s.files.Keys)
    ensures SameRadius(s.graph, Rebuilt(reader, s.files)) <==> AllRegistered(s) && StaleEdgesCovered(reader, s)
  {
    hide Follows, Rebuilt, StaleEdgesCovered, ModulePath, Injective;
    RegisteredTracks(reader, s);
    if AllRegistered(s) {
      hide AllRegistered;
      TrackedRadiusIffCovered(reader, s);
    } else {
      RebuildRegistersAll(reader, s.files);
      var f :| f in s.files && ModulePath(f).Some? && !IsModule(s.graph, f);
      DependsOnItself(s.graph, f);
      DependsOnItself(Rebuilt(reader, s.files), f);
      hide DependsOn, IsModule;
      assert SameRadius(s.graph, Rebuilt(reader, s.files)) ==> (DependsOn(s.graph, f, f) <==> DependsOn(Rebuilt(reader, s.files), f, f));
    }
  }

  // ----- any two graphs -----

  /** The radius in `a` of every file lies within its radius in `b`. */
  ghost predicate Within(a: Graph, b: Graph) {
    forall f: Path, path: Path :: DependsOn(a, f, path) ==> DependsOn(b, f, path)
  }

  /** The files of `a` are registered in `b`, and what one edge of `a` says some chain of `b` says. */
  ghost predicate StepsCovered(a: Graph, b: Graph) {
    a.modules.Values <= b.modules.Values && forall x: Path, y: Path :: Imports(a, x, y) ==> Reaches(b, x, y)
  }

  lemma {:induction false} StepsCoverChains(a: Graph, b: Graph, x: Path, y: Path, n: nat)
    requires StepsCovered(a, b) && ReachesIn(a, x, y, n)
    ensures Reaches(b, x, y)
    decreases n
  {
    hide Imports;
    if n == 0 {
      ReachesSelf(b, x);
    } else {
      var mid: Path :| Imports(a, x, mid) && ReachesIn(a, mid, y, n - 1);
      StepsCoverChains(a, b, mid, y, n - 1);
      var k: nat :| ReachesIn(b, x, mid, k);
      ReachingIsTransitive(b, x, mid, y, k);
    }
  }

  lemma OneStepDepends(g: Graph, x: Path, y: Path)
    requires Imports(g, x, y)
    ensures DependsOn(g, x, y)
  {
    hide ResolveFrom;
    var e :| Leads(g, e, x, y);
    ResolvedIsRegistered(g.modules, e.target, |e.target|);
    ReachesSelf(g, y);
    ImportThenReach(g, x, y, y);
  }

  /** For any two graphs, whatever names their files share: one radius never overstates the other exactly when its files and single edges do not. */
  lemma WithinIffStepsCovered(a: Graph, b: Graph)
    ensures Within(a, b) <==> StepsCovered(a, b)
  {
    hide Imports, ReachesIn;
    if Within(a, b) {
      forall path | path in a.modules.Values ensures path in b.modules.Values {
        ReachesSelf(a, path);
        assert DependsOn(a, path, path);
      }
      forall x: Path, y: Path | Imports(a, x, y) ensures Reaches(b, x, y) {
        OneStepDepends(a, x, y);
      }
    }
    if StepsCovered(a, b) {
      forall f: Path, path: Path | DependsOn(a, f, path) ensures DependsOn(b, f, path) {
        var n: nat :| ReachesIn(a, f, path, n);
        StepsCoverChains(a, b, f, path, n);
      }
    }
  }

  /** And two graphs agree on every radius exactly when each covers the other's files and edges. */
  lemma SameRadiusIffStepsCovered(a: Graph, b: Graph)
    ensures SameRadius(a, b) <==> StepsCovered(a, b) && StepsCovered(b, a)
  {
    hide DependsOn, StepsCovered;
    WithinIffStepsCovered(a, b);
    WithinIffStepsCovered(b, a);
  }

  // ----- events that add no file -----

  ghost predicate AddsNothing(reader: Reader, s: State, event: Event) {
    Apply(reader, s, event).files.Keys <= s.files.Keys
  }

  lemma ModuleKeysShrink(small: map<string, Path>, a: set<Path>, large: map<string, Path>, b: set<Path>)
    requires ModulesAre(small, a) && ModulesAre(large, b) && a <= b
    ensures small.Keys <= large.Keys
  {
    forall m | m in small ensures m in large {
      assert NamesFile(small, m, small[m]);
      assert NamesFile(large, m, small[m]);
    }
  }

  /** Modules that only go away leave nothing stale. */
  lemma NothingGrowsStale(reader: Reader, s: State, next: State, path: Path)
    requires Tracks(reader, s) && NothingStale(reader, s) && Tracks(reader, next)
    requires next.files.Keys <= s.files.Keys
    requires forall f :: f in next.files && f != path ==> next.files[f] == s.files[f]
    requires forall e :: e in s.graph.edges && e.from != path ==> e in next.graph.edges
    requires forall t :: Declares(reader, next.files, path, t) ==> EdgeTo(next.graph, path, t) in next.graph.edges
    ensures NothingStale(reader, next)
  {
    hide EdgesAre, Reader.Targets, ResolveFrom;
    ModuleKeysShrink(next.graph.modules, next.files.Keys, s.graph.modules, s.files.Keys);
    hide ModulesAre;
    forall f, t | Declares(reader, next.files, f, t) && Resolved(next.graph.modules, t).Some? ensures Edge(f, t, true) in next.graph.edges {
      if f != path {
        assert Declares(reader, s.files, f, t);
        ResolvingIsMonotone(next.graph.modules, s.graph.modules, t, |t|);
      }
    }
  }

  /** The edges of other files stay, and the file's own are recorded against the modules there now. */
  lemma WriteRecords(reader: Reader, s: State, path: Path, source: Bytes)
    requires !(path in s.files && s.files[path] == source)
    ensures var next := Apply(reader, s, Write(path, Some(source)));
            && (forall f :: f in next.files && f != path ==> f in s.files && next.files[f] == s.files[f])
            && (forall e :: e in s.graph.edges && e.from != path ==> e in next.graph.edges)
            && (forall t :: Declares(reader, next.files, path, t) ==> EdgeTo(next.graph, path, t) in next.graph.edges)
  {
    hide Reader.Targets, Resolved, ModulePath;
  }

  lemma HarmlessEventKeepsFresh(reader: Reader, s: State, event: Event)
    requires Tracks(reader, s) && NothingStale(reader, s) && AddsNothing(reader, s, event)
    ensures Tracks(reader, Apply(reader, s, event)) && NothingStale(reader, Apply(reader, s, event))
  {
    FewerStayInjective(reader, s, event);
    EventTracks(reader, s, event);
    hide Tracks, NothingStale, Reader.Targets, Registered, Recorded, Resolved;
    match event
    case Remove(path) =>
      NothingGrowsStale(reader, s, Apply(reader, s, event), path);
    case Write(_, None) =>
    case Write(path, Some(source)) =>
      if !(path in s.files && s.files[path] == source) {
        WriteRecords(reader, s, path, source);
        NothingGrowsStale(reader, s, Apply(reader, s, event), path);
      }
  }

  lemma FewerStayInjective(reader: Reader, s: State, event: Event)
    requires Tracks(reader, s) && AddsNothing(reader, s, event)
    ensures Injective(Apply(reader, s, event).files.Keys)
  {
    ModulesAreOne(s.graph.modules, s.graph.modules, s.files.Keys);
  }

  // ----- runs -----

  function Run(reader: Reader, s: State, events: seq<Event>): State
    decreases |events|
  {
    if events == [] then s else Run(reader, Apply(reader, s, events[0]), events[1..])
  }

  ghost predicate NeverAdds(reader: Reader, s: State, events: seq<Event>)
    decreases |events|
  {
    events == [] || (AddsNothing(reader, s, events[0]) && NeverAdds(reader, Apply(reader, s, events[0]), events[1..]))
  }

  ghost predicate StaysInjective(reader: Reader, s: State, events: seq<Event>)
    decreases |events|
  {
    Injective(s.files.Keys) && (events != [] ==> StaysInjective(reader, Apply(reader, s, events[0]), events[1..]))
  }

  lemma {:induction false} RunTracks(reader: Reader, s: State, events: seq<Event>)
    requires Tracks(reader, s) && StaysInjective(reader, s, events)
    ensures Tracks(reader, Run(reader, s, events))
    decreases |events|
  {
    hide Tracks, Apply, Injective;
    if events != [] {
      var next := Apply(reader, s, events[0]);
      assert StaysInjective(reader, next, events[1..]);
      EventTracks(reader, s, events[0]);
      RunTracks(reader, next, events[1..]);
    }
  }

  lemma {:induction false} HarmlessRunStaysFresh(reader: Reader, s: State, events: seq<Event>)
    requires Tracks(reader, s) && NothingStale(reader, s) && NeverAdds(reader, s, events)
    ensures Tracks(reader, Run(reader, s, events)) && NothingStale(reader, Run(reader, s, events))
    decreases |events|
  {
    hide Tracks, NothingStale, Apply, AddsNothing;
    if events != [] {
      HarmlessEventKeepsFresh(reader, s, events[0]);
      HarmlessRunStaysFresh(reader, Apply(reader, s, events[0]), events[1..]);
    }
  }

  /** Whatever names files come to share on the way, every state a scan and events lead to has names of indexed files and exactly their imports. */
  lemma {:induction false} RunFollows(reader: Reader, s: State, events: seq<Event>)
    requires Follows(reader, s)
    ensures Follows(reader, Run(reader, s, events))
    decreases |events|
  {
    hide Follows, Apply;
    if events != [] {
      EventFollows(reader, s, events[0]);
      RunFollows(reader, Apply(reader, s, events[0]), events[1..]);
    }
  }

  /** After any run of events from a scan that adds no file, every radius is the one a rebuild gives. */
  lemma PatchingAgreesWithRebuild(reader: Reader, files: Files, events: seq<Event>)
    requires Injective(files.Keys) && NeverAdds(reader, State(files, Rebuilt(reader, files)), events)
    ensures var s := Run(reader, State(files, Rebuilt(reader, files)), events);
            SameRadius(s.graph, Rebuilt(reader, s.files))
  {
    RebuildTracks(reader, files);
    hide Tracks, Rebuilt, Run, NeverAdds, Injective, Resolved;
    var s := Run(reader, State(files, Rebuilt(reader, files)), events);
    HarmlessRunStaysFresh(reader, State(files, Rebuilt(reader, files)), events);
    assert StaleEdgesCovered(reader, s);
    hide StaleEdgesCovered;
    TrackedRadiusIffCovered(reader, s);
  }

  /** After any run at all the patched radius is within the rebuilt one. */
  lemma PatchingNeverOverstates(reader: Reader, files: Files, events: seq<Event>, f: Path, path: Path)
    requires StaysInjective(reader, State(files, Rebuilt(reader, files)), events)
    ensures var s := Run(reader, State(files, Rebuilt(reader, files)), events);
            DependsOn(s.graph, f, path) ==> DependsOn(Rebuilt(reader, s.files), f, path)
  {
    hide Tracks, Rebuilt, Apply, DependsOn, Injective;
    RebuildTracks(reader, files);
    var s := Run(reader, State(files, Rebuilt(reader, files)), events);
    RunTracks(reader, State(files, Rebuilt(reader, files)), events);
    if DependsOn(s.graph, f, path) {
      RadiusIsSubset(reader, s, f, path);
    }
  }

  // ----- where patching and rebuilding part -----

  lemma NoInternalEdgeNoReach(g: Graph, f: Path, path: Path, n: nat)
    requires f != path && forall e :: e in g.edges && e.from == f ==> !e.internal
    ensures !ReachesIn(g, f, path, n)
  {
    hide Resolved;
    if n > 0 {
      forall mid: Path ensures !Imports(g, f, mid) {
      }
    }
  }

  /** An importer that is indexed before what it imports: its only edge is external. */
  lemma LoneImporter(reader: Reader, f: Path, text: Bytes, t: string)
    requires ModulePath(f).Some? && reader.Targets(f, text) == [t] && Resolved(map[ModulePath(f).value := f], t).None?
    ensures var g := Rebuilt(reader, map[f := text]);
            Injective({f}) && forall e :: e in g.edges ==> e == Edge(f, t, false)
  {
    hide ResolveFrom, ModulePath, Reader.Targets, PATH_LESS, Rebuilt;
    var files := map[f := text];
    var g := Rebuilt(reader, files);
    RebuildTracks(reader, files);
    var modules := map[ModulePath(f).value := f];
    forall m: string, h: Path ensures NamesFile(modules, m, h) <==> h in files.Keys && ModulePath(h) == Some(m) {
    }
    ModulesAreOne(g.modules, modules, files.Keys);
    forall e | e in g.edges ensures e == Edge(f, t, false) {
      assert Declares(reader, files, e.from, e.target);
    }
  }

  lemma OnlyItself(g: Graph, f: Path, p: Path, n: nat)
    requires (forall a: Path :: !Imports(g, a, p)) && ReachesIn(g, f, p, n)
    ensures f == p
    decreases n
  {
    hide Imports;
    if n > 0 {
      var mid: Path :| Imports(g, f, mid) && ReachesIn(g, mid, p, n - 1);
      OnlyItself(g, mid, p, n - 1);
    }
  }

  /**
   A file that appears after its importers were scanned. Every import that did
   not resolve before and now leads to it is stale: the rebuilt radius has the
   importer, and the patched one has nobody but the file itself unless some
   internal edge happens to lead to it.
   */
  lemma AddedFileIsMissed(reader: Reader, files: Files, f: Path, p: Path, source: Bytes, t: string)
    requires p !in files && Injective(files.Keys + {p}) && reader.parses(p, source)
    requires Declares(reader, files, f, t) && Resolved(Rebuilt(reader, files).modules, t).None?
    requires Resolved(Registered(Rebuilt(reader, files), p).modules, t) == Some(p)
    ensures var s := Apply(reader, State(files, Rebuilt(reader, files)), Write(p, Some(source)));
            && Stale(reader, s, f, t) && DependsOn(Rebuilt(reader, s.files), f, p)
            && ((forall a: Path :: !Imports(s.graph, a, p)) ==> forall h: Path :: DependsOn(s.graph, h, p) ==> h == p)
  {
    var before := State(files, Rebuilt(reader, files));
    var s := Apply(reader, before, Write(p, Some(source)));
    AddedState(reader, files, f, p, source, t);
    hide Apply, Rebuilt, ResolveFrom, Injective, Stale, ReachesIn, Declares;
    StaleEdgeIsRebuilt(reader, s, f, t);
    if forall a: Path :: !Imports(s.graph, a, p) {
      forall h: Path | DependsOn(s.graph, h, p) ensures h == p {
        var n: nat :| ReachesIn(s.graph, h, p, n);
        OnlyItself(s.graph, h, p, n);
      }
    }
  }

  /** The new file is registered, the edges of the others stay as they were. */
  lemma AddedState(reader: Reader, files: Files, f: Path, p: Path, source: Bytes, t: string)
    requires p !in files && Injective(files.Keys + {p}) && reader.parses(p, source)
    requires Declares(reader, files, f, t) && Resolved(Rebuilt(reader, files).modules, t).None?
    requires Resolved(Registered(Rebuilt(reader, files), p).modules, t) == Some(p)
    ensures var s := Apply(reader, State(files, Rebuilt(reader, files)), Write(p, Some(source)));
            && Tracks(reader, s) && Stale(reader, s, f, t) && Resolved(s.graph.modules, t) == Some(p)
            && s.graph.modules == Registered(Rebuilt(reader, files), p).modules
  {
    hide ModulePath, Reader.Targets, Rebuilt, ResolveFrom;
    var before := State(files, Rebuilt(reader, files));
    var s := Apply(reader, before, Write(p, Some(source)));
    assert s.files == files[p := source] && s.files.Keys == files.Keys + {p};
    RebuildTracks(reader, files);
    NothingToRemove(reader, before, p);
    EventTracks(reader, before, Write(p, Some(source)));
    RegisteredKeepsEdges(before.graph, p);
    hide ModulesAre, EdgesAre, Registered;
    assert Edge(f, t, true) !in before.graph.edges;
  }

  /** A path that is not indexed has left nothing in the graph. */
  lemma NothingToRemove(reader: Reader, s: State, p: Path)
    requires Tracks(reader, s) && p !in s.files
    ensures Removed(s.graph, p) == s.graph
  {
    hide ModulePath, Reader.Targets;
    forall m | m in s.graph.modules ensures s.graph.modules[m] != p {
      assert NamesFile(s.graph.modules, m, s.graph.modules[m]);
    }
    forall e | e in s.graph.edges ensures e.from != p {
      assert Declares(reader, s.files, e.from, e.target);
    }
  }

  /** In a tree of one file: its only edge is external, so the new file's importer is missed. */
  lemma LoneImporterIsMissed(reader: Reader, f: Path, text: Bytes, p: Path, source: Bytes, t: string)
    requires ModulePath(f).Some? && ModulePath(p) == Some(t) && Injective({f, p}) && f != p && reader.parses(p, source)
    requires reader.Targets(f, text) == [t] && Resolved(map[ModulePath(f).value := f], t).None?
    ensures var s := Apply(reader, State(map[f := text], Rebuilt(reader, map[f := text])), Write(p, Some(source)));
            !DependsOn(s.graph, f, p) && DependsOn(Rebuilt(reader, s.files), f, p)
  {
    hide ModulePath, Reader.Targets, PATH_LESS, Rebuilt, Registered;
    var files := map[f := text];
    var before := State(files, Rebuilt(reader, files));
    var s := Apply(reader, before, Write(p, Some(source)));
    LoneImporter(reader, f, text, t);
    RebuildTracks(reader, files);
    assert s.files == files[p := source] && s.files.Keys == {f, p};
    EventTracks(reader, before, Write(p, Some(source)));
    RegisteredKeepsEdges(Removed(before.graph, p), p);
    assert forall e :: e in s.graph.edges && e.from == f ==> !e.internal;
    hide Apply;
    forall n: nat ensures !ReachesIn(s.graph, f, p, n) {
      NoInternalEdgeNoReach(s.graph, f, p, n);
    }
    assert NamesFile(s.graph.modules, t, p);
    assert t[..|t|] == t;
    assert Declares(reader, s.files, f, t);
    StaleEdgeIsRebuilt(reader, s, f, t);
  }

  /** Such a pair of files exists: `a.rs` importing `b` before there is a `b.rs`. */
  lemma AddedFileExists() returns (reader: Reader, f: Path, p: Path)
    ensures var s := Apply(reader, State(map[f := []], Rebuilt(reader, map[f := []])), Write(p, Some([])));
            !DependsOn(s.graph, f, p) && DependsOn(Rebuilt(reader, s.files), f, p)
  {
    reader, f, p := Reader((_, _) => true, (g, _) => if g == ["a.rs"] then ["b"] else [], (_, t) => t), ["a.rs"], ["b.rs"];
    ModuleOfRustFile("a");
    ModuleOfRustFile("b");
    assert "a" + ".rs" == "a.rs" && "b" + ".rs" == "b.rs";
    assert reader.Targets(f, []) == ["b"];
    assert !CutAt("b", 0) && "b"[..1] == "b";
    LoneImporterIsMissed(reader, f, [], p, [], "b");
  }

  lemma ModuleOfRustFile(name: string)
    requires name != "" && name != "." && name != "mod" && name != "__init__"
    ensures ModulePath([name + ".rs"]) == Some(name)
  {
    var file := name + ".rs";
    assert file[|name|] == '.' && file[..|name|] == name;
    assert LastDot(file) == Some(|name|);
    assert [] + [name] == [name];
  }
}

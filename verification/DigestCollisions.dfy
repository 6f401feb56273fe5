/** Files that share a module name, such as a source and its header. */
module DigestCollisions {
  import opened Optional
  import opened Octets
  import opened Ordering
  import opened ModulePaths
  import opened ImportGraph
  import opened DigestState
  import opened DigestRuns

  /** `f` goes by a name that a rebuild gives to another file. */
  ghost predicate Shadowed(reader: Reader, files: Files, f: Path) {
    && f in files && ModulePath(f).Some?
    && !NamesFile(Rebuilt(reader, files).modules, ModulePath(f).value, f)
  }

  lemma NotNamed(g: Graph, keys: set<Path>, f: Path)
    requires ModulesAmong(g.modules, keys) && (ModulePath(f).Some? ==> !NamesFile(g.modules, ModulePath(f).value, f))
    ensures !IsModule(g, f)
  {
    if m :| m in g.modules && g.modules[m] == f {
      NameIsItsOwn(g, keys, m, f);
    }
  }

  // ----- too little -----

  /**
   Removing the file that holds a shared name: the patched graph no longer knows
   any file of that name, and the rebuilt graph knows the last one left.
   */
  lemma RemovedNameIsForgotten(reader: Reader, files: Files, f: Path) returns (g: Path, h: Path)
    requires Shadowed(reader, files, f)
    ensures g in files && ModulePath(g) == ModulePath(f)
    ensures var s := Apply(reader, State(files, Rebuilt(reader, files)), Remove(g));
            && AddsNothing(reader, State(files, Rebuilt(reader, files)), Remove(g))
            && (forall k :: k in s.files && ModulePath(k) == ModulePath(f) ==> !IsModule(s.graph, k) && (k == h || PATH_LESS(k, h)))
            && h in s.files && ModulePath(h) == ModulePath(f)
            && !DependsOn(s.graph, h, h) && DependsOn(Rebuilt(reader, s.files), h, h)
  {
    hide ModulePath, PATH_LESS, EdgesAre, NothingStale, Rebuilt, ModulesAmong;
    var before := State(files, Rebuilt(reader, files));
    var m := ModulePath(f).value;
    RebuildNamesTheLast(reader, files);
    assert LastHasIt(before.graph.modules, f);
    g := before.graph.modules[m];
    NameIsItsOwn(before.graph, files.Keys, m, g);
    HolderIsThere(before.graph, files.Keys, m);
    var s := Apply(reader, before, Remove(g));
    EventFollows(reader, before, Remove(g));
    RebuildNamesTheLast(reader, s.files);
    assert f in s.files && LastHasIt(Rebuilt(reader, s.files).modules, f);
    h := Rebuilt(reader, s.files).modules[m];
    NameIsItsOwn(Rebuilt(reader, s.files), s.files.Keys, m, h);
    HolderIsThere(Rebuilt(reader, s.files), s.files.Keys, m);
    assert m !in s.graph.modules;
    forall k | k in s.files && ModulePath(k) == ModulePath(f) ensures !IsModule(s.graph, k) && (k == h || PATH_LESS(k, h)) {
      NotNamed(s.graph, s.files.Keys, k);
      assert LastHasIt(Rebuilt(reader, s.files).modules, k);
    }
    DependsOnItself(s.graph, h);
    DependsOnItself(Rebuilt(reader, s.files), h);
  }

  lemma HolderIsThere(g: Graph, keys: set<Path>, m: string)
    requires ModulesAmong(g.modules, keys) && m in g.modules
    ensures g.modules[m] in keys
  {
    assert NamesFile(g.modules, m, g.modules[m]);
  }

  // ----- too much -----

  /** Rewriting a file whose name another one holds: the patched graph gives it the name, the rebuilt one does not. */
  lemma RewrittenFileIsOverstated(reader: Reader, files: Files, f: Path, source: Bytes)
    requires Shadowed(reader, files, f) && reader.parses(f, source) && files[f] != source
    ensures var s := Apply(reader, State(files, Rebuilt(reader, files)), Write(f, Some(source)));
            && AddsNothing(reader, State(files, Rebuilt(reader, files)), Write(f, Some(source)))
            && DependsOn(s.graph, f, f) && !DependsOn(Rebuilt(reader, s.files), f, f)
  {
    hide ModulePath, PATH_LESS, EdgesAre, NothingStale, ModulesAmong, Resolved, Reader.Targets;
    var before := State(files, Rebuilt(reader, files));
    var m := ModulePath(f).value;
    var s := Apply(reader, before, Write(f, Some(source)));
    assert s.files.Keys == files.Keys;
    SameKeysSameModules(reader, files, s.files);
    RebuildNamesTheLast(reader, s.files);
    assert NamesFile(s.graph.modules, m, f);
    NotNamed(Rebuilt(reader, s.files), s.files.Keys, f);
    DependsOnItself(s.graph, f);
    DependsOnItself(Rebuilt(reader, s.files), f);
  }

  lemma SameKeysSameModules(reader: Reader, a: Files, b: Files)
    requires a.Keys == b.Keys
    ensures Rebuilt(reader, a).modules == Rebuilt(reader, b).modules
  {
    hide PATH_LESS, RegisterAll;
    PathOrder();
    var order := Sorted(PATH_LESS, a.Keys);
    RecordKeepsModules(reader, RegisterAll(order), a, order);
    RecordKeepsModules(reader, RegisterAll(order), b, order);
  }

  lemma {:induction false} RecordKeepsModules(reader: Reader, g: Graph, files: Files, order: seq<Path>)
    requires forall f :: f in order ==> f in files
    ensures RecordAll(reader, g, files, order).modules == g.modules
    decreases |order|
  {
    if order != [] {
      RecordKeepsModules(reader, g, files, order[..|order| - 1]);
    }
  }

  // ----- exactly when -----

  lemma SharingShadows(reader: Reader, files: Files)
    requires !Injective(files.Keys)
    ensures exists f :: Shadowed(reader, files, f)
  {
    hide ModulePath, Rebuilt;
    var f, g :| f in files.Keys && g in files.Keys && ModulePath(f).Some? && ModulePath(f) == ModulePath(g) && f != g;
    assert Shadowed(reader, files, f) || Shadowed(reader, files, g);
  }

  /** Patching and rebuilding agree after every run of events from a scan that adds no file. */
  ghost predicate PatchingIsSafe(reader: Reader, files: Files) {
    forall events :: NeverAdds(reader, State(files, Rebuilt(reader, files)), events) ==> AgreesAfter(reader, files, events)
  }

  ghost predicate AgreesAfter(reader: Reader, files: Files, events: seq<Event>) {
    var s := Run(reader, State(files, Rebuilt(reader, files)), events);
    SameRadius(s.graph, Rebuilt(reader, s.files))
  }

  lemma OneEventRun(reader: Reader, s: State, event: Event)
    ensures Run(reader, s, [event]) == Apply(reader, s, event)
    ensures NeverAdds(reader, s, [event]) <==> AddsNothing(reader, s, event)
  {
    hide Apply;
    assert [event][1..] == [];
  }

  /** That is so if and only if no two of the files share a module name. */
  lemma PatchingIsSafeIffInjective(reader: Reader, files: Files)
    ensures PatchingIsSafe(reader, files) <==> Injective(files.Keys)
  {
    hide Rebuilt, Apply, Run, NeverAdds, AddsNothing, Injective, DependsOn, Shadowed;
    var start := State(files, Rebuilt(reader, files));
    if Injective(files.Keys) {
      forall events | NeverAdds(reader, start, events) ensures AgreesAfter(reader, files, events) {
        PatchingAgreesWithRebuild(reader, files, events);
      }
    } else {
      SharingShadows(reader, files);
      var f :| Shadowed(reader, files, f);
      var g, h := RemovedNameIsForgotten(reader, files, f);
      OneEventRun(reader, start, Remove(g));
      assert NeverAdds(reader, start, [Remove(g)]) && !AgreesAfter(reader, files, [Remove(g)]);
    }
  }

  // ----- events of every kind -----

  /** What a scan leaves: every indexed source parses. */
  ghost predicate AllParse(reader: Reader, files: Files) {
    forall f :: f in files ==> reader.parses(f, files[f])
  }

  /** No two paths that can be indexed go by one module name. */
  ghost predicate NamesApart(reader: Reader) {
    forall f, x, g, y :: reader.parses(f, x) && reader.parses(g, y) && ModulePath(f).Some? && ModulePath(f) == ModulePath(g) ==> f == g
  }

  ghost predicate WithinAfter(reader: Reader, files: Files, events: seq<Event>) {
    var s := Run(reader, State(files, Rebuilt(reader, files)), events);
    Within(s.graph, Rebuilt(reader, s.files))
  }

  /** After no run at all does the patched radius overstate. */
  ghost predicate NeverOverstates(reader: Reader, files: Files) {
    forall events :: WithinAfter(reader, files, events)
  }

  lemma {:induction false} ApartStaysInjective(reader: Reader, s: State, events: seq<Event>)
    requires NamesApart(reader) && AllParse(reader, s.files)
    ensures StaysInjective(reader, s, events)
    decreases |events|
  {
    hide ModulePath;
    assert Injective(s.files.Keys);
    if events != [] {
      ApplyKeepsParse(reader, s, events[0]);
      hide Apply, NamesApart, AllParse, Injective;
      ApartStaysInjective(reader, Apply(reader, s, events[0]), events[1..]);
    }
  }

  lemma ApplyKeepsParse(reader: Reader, s: State, event: Event)
    requires AllParse(reader, s.files)
    ensures AllParse(reader, Apply(reader, s, event).files)
  {
    hide Registered, Recorded, Removed;
  }

  lemma FourEvents(reader: Reader, s: State, a: Event, b: Event, c: Event, d: Event)
    ensures Run(reader, s, [a, b, c, d]) == Apply(reader, Apply(reader, Apply(reader, Apply(reader, s, a), b), c), d)
  {
    hide Apply;
    assert [a, b, c, d][1..] == [b, c, d] && [b, c, d][1..] == [c, d] && [c, d][1..] == [d];
    var first := Apply(reader, s, a);
    var second := Apply(reader, first, b);
    OneEventRun(reader, Apply(reader, second, c), d);
    assert Run(reader, second, [c, d]) == Run(reader, Apply(reader, second, c), [d]);
    assert Run(reader, first, [b, c, d]) == Run(reader, second, [c, d]);
  }

  /** The file that has just been written has its name. */
  lemma WrittenFileIsNamed(reader: Reader, s: State, path: Path, source: Bytes)
    requires path !in s.files && reader.parses(path, source)
    ensures var next := Apply(reader, s, Write(path, Some(source)));
            next.files == s.files[path := source]
            && (ModulePath(path).Some? ==> NamesFile(next.graph.modules, ModulePath(path).value, path))
  {
    hide ModulePath, Removed, EdgeTo;
  }

  /** Two files of one name, the earlier in path order written last: the patched graph gives it the name, a rebuild the other. */
  lemma LaterWriteOverstates(reader: Reader, files: Files, g: Path, y: Bytes, f: Path, x: Bytes)
    requires PATH_LESS(g, f) && ModulePath(f).Some? && ModulePath(f) == ModulePath(g) && reader.parses(f, x) && reader.parses(g, y)
    ensures !WithinAfter(reader, files, [Remove(f), Remove(g), Write(f, Some(x)), Write(g, Some(y))])
  {
    hide ModulePath, PATH_LESS, Rebuilt, Run, Removed, Registered, Recorded;
    var start := State(files, Rebuilt(reader, files));
    PathOrder();
    var cleared := Apply(reader, Apply(reader, start, Remove(f)), Remove(g));
    var one := Apply(reader, cleared, Write(f, Some(x)));
    var two := Apply(reader, one, Write(g, Some(y)));
    FourEvents(reader, start, Remove(f), Remove(g), Write(f, Some(x)), Write(g, Some(y)));
    WrittenFileIsNamed(reader, cleared, f, x);
    WrittenFileIsNamed(reader, one, g, y);
    hide Apply;
    RebuildNamesTheLast(reader, two.files);
    hide EdgesAre, NothingStale, ModulesAmong, Resolved;
    assert f in two.files && LastHasIt(Rebuilt(reader, two.files).modules, f);
    NotNamed(Rebuilt(reader, two.files), two.files.Keys, g);
    DependsOnItself(two.graph, g);
    DependsOnItself(Rebuilt(reader, two.files), g);
    hide DependsOn;
    assert DependsOn(two.graph, g, g) && !DependsOn(Rebuilt(reader, two.files), g, g);
  }

  /** From any scan: no run ever overstates a radius if and only if no two paths that can be indexed share a module name. */
  lemma NeverOverstatesIffNamesApart(reader: Reader, files: Files)
    requires AllParse(reader, files)
    ensures NeverOverstates(reader, files) <==> NamesApart(reader)
  {
    hide ModulePath, PATH_LESS, Rebuilt, Run, StaysInjective, DependsOn;
    var start := State(files, Rebuilt(reader, files));
    if NamesApart(reader) {
      forall events ensures WithinAfter(reader, files, events) {
        ApartStaysInjective(reader, start, events);
        forall f: Path, path: Path ensures var s := Run(reader, start, events); DependsOn(s.graph, f, path) ==> DependsOn(Rebuilt(reader, s.files), f, path) {
          PatchingNeverOverstates(reader, files, events, f, path);
        }
      }
    } else {
      var f, x, g, y :| reader.parses(f, x) && reader.parses(g, y) && ModulePath(f).Some? && ModulePath(f) == ModulePath(g) && f != g;
      PathOrder();
      hide WithinAfter;
      if PATH_LESS(g, f) {
        LaterWriteOverstates(reader, files, g, y, f, x);
      } else {
        LaterWriteOverstates(reader, files, f, x, g, y);
      }
    }
  }

  /** A source and its header: rewriting one overstates, removing the other forgets. */
  lemma SourceAndHeaderCollide(reader: Reader, source: Bytes, header: Bytes, rewritten: Bytes)
    requires reader.parses(["a.c"], rewritten) && rewritten != source
    ensures var files: Files := map[["a.c"] := source, ["a.h"] := header];
            && !Injective(files.Keys) && !PatchingIsSafe(reader, files)
            && var s := Apply(reader, State(files, Rebuilt(reader, files)), Write(["a.c"], Some(rewritten)));
               DependsOn(s.graph, ["a.c"], ["a.c"]) && !DependsOn(Rebuilt(reader, s.files), ["a.c"], ["a.c"])
  {
    var files: Files := map[["a.c"] := source, ["a.h"] := header];
    BothAreA();
    SourceComesFirst();
    hide ModulePath, PATH_LESS, Rebuilt, Apply, DependsOn;
    assert ["a.c"] in files.Keys && ["a.h"] in files.Keys;
    PatchingIsSafeIffInjective(reader, files);
    RebuildNamesTheLast(reader, files);
    assert LastHasIt(Rebuilt(reader, files).modules, ["a.h"]);
    LaterHolds(reader, files, ["a.c"], ["a.h"]);
    RewrittenFileIsOverstated(reader, files, ["a.c"], rewritten);
  }

  lemma LaterHolds(reader: Reader, files: Files, f: Path, g: Path)
    requires f in files && g in files && PATH_LESS(f, g) && ModulePath(f).Some? && ModulePath(f) == ModulePath(g)
    ensures Shadowed(reader, files, f)
  {
    hide ModulePath, PATH_LESS, Rebuilt;
    RebuildNamesTheLast(reader, files);
    assert LastHasIt(Rebuilt(reader, files).modules, g);
    PathOrder();
  }

  lemma ModuleOf(name: string, extension: string)
    requires name != "" && name != "." && name != "mod" && name != "__init__" && '.' !in extension && name + "." + extension != ".."
    ensures ModulePath([name + "." + extension]) == Some(name)
  {
    var file := name + "." + extension;
    assert file[|name|] == '.' && file[..|name|] == name;
    assert forall k :: |name| < k < |file| ==> file[k] == extension[k - |name| - 1];
    assert LastDot(file) == Some(|name|);
    assert [] + [name] == [name];
  }

  lemma BothAreA()
    ensures ModulePath(["a.c"]) == ModulePath(["a.h"]) == Some("a")
  {
    ModuleOf("a", "c");
    ModuleOf("a", "h");
    assert "a" + "." + "c" == "a.c" && "a" + "." + "h" == "a.h";
  }

  lemma SourceComesFirst()
    ensures PATH_LESS(["a.c"], ["a.h"]) && ["a.c"] != ["a.h"]
  {
    var c, h := "a.c", "a.h";
    assert c[1..] == ".c" && h[1..] == ".h" && c[1..][1..] == "c" && h[1..][1..] == "h";
    assert LexLess(CHAR_LESS, c, h);
    assert STRING_LESS(c, h);
    assert c[2] != h[2];
    var left: Path, right: Path := [c], [h];
    assert left[0] != right[0];
  }
}

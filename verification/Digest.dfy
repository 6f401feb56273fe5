/** The digest: an index and an import graph that watcher events patch in place. */
module Digest {
  import opened Optional
  import opened Octets
  import opened Ordering
  import opened ImportGraph
  import opened DigestState

  class SymbolIndex {
    var files: Files
    const reader: Reader

    constructor (reader: Reader)
      ensures files == map[] && this.reader == reader
    {
      files, this.reader := map[], reader;
    }

    /** A source that parses replaces the entry; one that does not removes it. */
    method IndexBytes(path: Path, source: Bytes)
      modifies this
      ensures files == Indexed(reader, old(files), path, source)
    {
      if reader.parses(path, source) {
        files := files[path := source];
      } else {
        files := files - {path};
      }
    }

    method RemoveFile(path: Path) returns (there: bool)
      modifies this
      ensures files == old(files) - {path} && there == (path in old(files))
    {
      there := path in files;
      files := files - {path};
    }

    predicate IsCurrent(path: Path, source: Bytes)
      reads this
    {
      path in files && files[path] == source
    }

    method IndexedPaths() returns (paths: seq<Path>)
      ensures StrictTotalOrder(PATH_LESS) && paths == Sorted(PATH_LESS, files.Keys)
    {
      PathOrder();
      paths := Sorted(PATH_LESS, files.Keys);
    }
  }

  /** Every file of the tree, in whatever order the walk meets them. */
  method ScanTree(reader: Reader, disk: Files) returns (index: SymbolIndex)
    ensures fresh(index) && index.reader == reader && index.files == Harvested(reader, disk)
  {
    index := new SymbolIndex(reader);
    var left := disk.Keys;
    while left != {}
      invariant index.reader == reader && fresh(index) && left <= disk.Keys
      invariant index.files == Harvested(reader, disk - left)
      decreases |left|
    {
      var path :| path in left;
      index.IndexBytes(path, disk[path]);
      left := left - {path};
    }
    assert disk - {} == disk;
  }

  method RegisterPaths(graph: DependencyGraph, paths: seq<Path>)
    requires graph.Value() == EMPTY
    modifies graph
    ensures graph.Value() == RegisterAll(paths)
  {
    hide Registered;
    for i := 0 to |paths|
      invariant graph.Value() == RegisterAll(paths[..i])
    {
      assert paths[..i + 1][..i] == paths[..i];
      graph.RegisterModule(paths[i]);
    }
    assert paths[..|paths|] == paths;
  }

  method RecordPaths(graph: DependencyGraph, reader: Reader, files: Files, paths: seq<Path>)
    requires graph.normalise == reader.normalise && forall f :: f in paths ==> f in files
    modifies graph
    ensures graph.Value() == RecordAll(reader, old(graph.Value()), files, paths)
  {
    hide Recorded;
    ghost var modules := graph.Value();
    for i := 0 to |paths|
      invariant graph.Value() == RecordAll(reader, modules, files, paths[..i])
    {
      assert paths[..i + 1][..i] == paths[..i];
      graph.RecordImports(paths[i], reader.imports(paths[i], files[paths[i]]));
    }
    assert paths[..|paths|] == paths;
  }

  /** Modules of all files first, then their imports. */
  method BuildGraph(index: SymbolIndex) returns (graph: DependencyGraph)
    ensures fresh(graph) && graph.normalise == index.reader.normalise
    ensures graph.Value() == Rebuilt(index.reader, index.files)
  {
    hide PATH_LESS, RegisterAll, RecordAll;
    graph := new DependencyGraph(index.reader.normalise);
    var paths := index.IndexedPaths();
    RegisterPaths(graph, paths);
    RecordPaths(graph, index.reader, index.files, paths);
  }

  const NEVER: nat := 0xFFFF_FFFF_FFFF_FFFF
  const MAX_I64: int := 0x7FFF_FFFF_FFFF_FFFF

  /** A difference of clock readings, saturated to the word. */
  function Elapsed(last: int, now: int): int {
    if now - last > MAX_I64 then MAX_I64 else if now - last < -MAX_I64 - 1 then -MAX_I64 - 1 else now - last
  }

  /** A scan is due once the interval has passed; an interval too long to count in milliseconds is the longest that can be counted. */
  predicate Due(rescanSecs: nat, last: int, now: int) {
    && rescanSecs < NEVER
    && (now - last >= rescanSecs * 1000 || now - last >= MAX_I64)
  }

  class Digest {
    var index: SymbolIndex
    var graph: DependencyGraph
    const reader: Reader
    /** Seconds between scans; `NEVER` turns rescanning off. */
    const rescanSecs: nat
    /** When the last scan ended, in milliseconds. */
    var lastScan: int

    ghost predicate Valid()
      reads this, index, graph
    {
      index.reader == reader && graph.normalise == reader.normalise && rescanSecs <= NEVER
    }

    ghost function Value(): State
      reads this, index, graph
    {
      State(index.files, graph.Value())
    }

    /** A first scan. */
    constructor (reader: Reader, disk: Files, rescanSecs: nat, now: int)
      requires rescanSecs <= NEVER
      ensures Valid() && fresh(index) && fresh(graph) && this.rescanSecs == rescanSecs && lastScan == now
      ensures Value() == State(Harvested(reader, disk), Rebuilt(reader, Harvested(reader, disk)))
    {
      var scanned := ScanTree(reader, disk);
      var built := BuildGraph(scanned);
      this.reader, index, graph := reader, scanned, built;
      this.rescanSecs, lastScan := rescanSecs, now;
    }

    method ApplyEvent(event: Event)
      requires Valid()
      modifies index, graph
      ensures Valid() && Value() == Apply(reader, old(Value()), event)
    {
      hide Registered, Recorded, Removed;
      match event {
        case Remove(path) =>
          var there := index.RemoveFile(path);
          graph.RemoveFile(path);
        case Write(_, None) =>
        case Write(path, Some(source)) =>
          if index.IsCurrent(path, source) {
            return;
          }
          index.IndexBytes(path, source);
          graph.RemoveFile(path);
          if path in index.files {
            graph.RegisterModule(path);
            graph.RecordImports(path, reader.imports(path, source));
          }
      }
    }

    /** A scan that is due and succeeds replaces index and graph together; one that is not due, or fails, leaves both and the clock. */
    method RescanIfStale(now: int, disk: Option<Files>, ended: int) returns (ok: bool)
      requires Valid()
      modifies this
      ensures Valid() && ok == (disk.Some? || !Due(rescanSecs, old(lastScan), now))
      ensures if Due(rescanSecs, old(lastScan), now) && disk.Some?
              then Value() == State(Harvested(reader, disk.value), Rebuilt(reader, Harvested(reader, disk.value))) && lastScan == ended
              else Value() == old(Value()) && lastScan == old(lastScan)
    {
      if rescanSecs == NEVER {
        return true;
      }
      var interval := if rescanSecs * 1000 > MAX_I64 then MAX_I64 else rescanSecs * 1000;
      if Elapsed(lastScan, now) < interval {
        return true;
      }
      if disk.None? {
        return false;
      }
      var scanned := ScanTree(reader, disk.value);
      var built := BuildGraph(scanned);
      index, graph, lastScan := scanned, built, ended;
      return true;
    }

    method BlastRadius(path: Path) returns (out: seq<Path>)
      requires Valid()
      ensures Ascending(PATH_LESS, out)
      ensures forall f: Path :: f in out <==> DependsOn(Value().graph, f, path)
    {
      out := graph.Dependents(path);
    }
  }
}

/** The patched index against the disk it follows. */
module DigestDisk {
  import opened Optional
  import opened Octets
  import opened Ordering
  import opened ImportGraph
  import opened DigestState
  import opened DigestRuns

  /** What an event says has happened on disk; a write that could not be read says nothing. */
  function DiskAfter(disk: Files, event: Event): Files {
    match event
    case Remove(path) => disk - {path}
    case Write(_, None) => disk
    case Write(path, Some(source)) => disk[path := source]
  }

  function DiskAfterAll(disk: Files, events: seq<Event>): Files
    decreases |events|
  {
    if events == [] then disk else DiskAfterAll(DiskAfter(disk, events[0]), events[1..])
  }

  /** One event keeps the index at what a scan of the disk would find: a file that no longer parses is dropped, one that parses again is back. */
  lemma EventFollowsTheDisk(reader: Reader, disk: Files, graph: Graph, event: Event)
    ensures Apply(reader, State(Harvested(reader, disk), graph), event).files == Harvested(reader, DiskAfter(disk, event))
  {
    hide Registered, Recorded, Removed;
    match event
    case Remove(path) =>
    case Write(_, None) =>
    case Write(path, Some(source)) =>
      var files := Harvested(reader, disk);
      if path in files && files[path] == source {
        assert disk[path := source] == disk;
      }
  }

  /** After any run of events from a scan the index is that of a scan of the disk as it is then. */
  lemma {:induction false} IndexFollowsTheDisk(reader: Reader, disk: Files, graph: Graph, events: seq<Event>)
    ensures Run(reader, State(Harvested(reader, disk), graph), events).files == Harvested(reader, DiskAfterAll(disk, events))
    decreases |events|
  {
    hide Apply, Harvested, DiskAfter;
    if events != [] {
      var next := Apply(reader, State(Harvested(reader, disk), graph), events[0]);
      EventFollowsTheDisk(reader, disk, graph, events[0]);
      IndexFollowsTheDisk(reader, DiskAfter(disk, events[0]), next.graph, events[1..]);
    }
  }

  /** So where no two files share a name and none is added, every patched radius is the one a fresh scan and rebuild would give. */
  lemma PatchedIsRescanned(reader: Reader, disk: Files, events: seq<Event>)
    requires var start := State(Harvested(reader, disk), Rebuilt(reader, Harvested(reader, disk)));
             Injective(Harvested(reader, disk).Keys) && NeverAdds(reader, start, events)
    ensures var start := State(Harvested(reader, disk), Rebuilt(reader, Harvested(reader, disk)));
            SameRadius(Run(reader, start, events).graph, Rebuilt(reader, Harvested(reader, DiskAfterAll(disk, events))))
  {
    var files := Harvested(reader, disk);
    IndexFollowsTheDisk(reader, disk, Rebuilt(reader, files), events);
    PatchingAgreesWithRebuild(reader, files, events);
    hide Harvested, Run, Rebuilt, SameRadius, NeverAdds;
  }
}

/** What a module name says: the directories and the stem of its file, in order. */
module ModuleNames {
  import opened Optional
  import opened Octets
  import opened Ordering
  import opened ModulePaths
  import opened ImportGraph
  import opened DigestState
  import opened DigestRuns

  // ----- names split where they were joined -----

  /** Where the first separator stands, or the length when there is none. */
  function FirstCut(s: string): (i: nat)
    ensures i <= |s| && (i < |s| ==> CutAt(s, i))
  {
    if s == "" || CutAt(s, 0) then 0
    else
      var i := FirstCut(s[1..]);
      assert i < |s[1..]| ==> s[1..][i] == s[i + 1] && s[1..][i + 1] == s[i + 2];
      i + 1
  }

  /** `split("::")`. */
  function Segments(s: string): seq<string>
    decreases |s|
  {
    var i := FirstCut(s);
    if i == |s| then [s] else [s[..i]] + Segments(s[i + 2..])
  }

  lemma {:induction false} CutAfter(head: string, tail: string)
    requires ':' !in head
    ensures FirstCut(head + "::" + tail) == |head|
    decreases |head|
  {
    var s := head + "::" + tail;
    if head == "" {
      assert CutAt(s, 0);
    } else {
      CutAfter(head[1..], tail);
      assert s[1..] == head[1..] + "::" + tail;
      assert s[0] == head[0];
    }
  }

  lemma {:induction false} NoCut(s: string)
    requires ':' !in s
    ensures FirstCut(s) == |s|
    decreases |s|
  {
    if s != "" {
      NoCut(s[1..]);
    }
  }

  lemma {:induction false} OneSegment(head: string, tail: string)
    requires ':' !in head
    ensures Segments(head + "::" + tail) == [head] + Segments(tail)
  {
    CutAfter(head, tail);
    var s := head + "::" + tail;
    assert s[..|head|] == head && s[|head| + 2..] == tail;
    hide FirstCut;
  }

  ghost predicate Plain(parts: seq<string>) { forall i :: 0 <= i < |parts| ==> ':' !in parts[i] }

  /** Joining loses nothing: the parts come back in order. */
  lemma {:induction false} SegmentsOfJoin(parts: seq<string>)
    requires parts != [] && Plain(parts)
    ensures Segments(Join(parts)) == parts
    decreases |parts|
  {
    if |parts| == 1 {
      NoCut(parts[0]);
    } else {
      var (head, tail) := (parts[0], Join(parts[1..]));
      SegmentsOfJoin(parts[1..]);
      OneSegment(head, tail);
      hide Segments;
      assert parts == [head] + parts[1..];
    }
  }

  // ----- the name of a file -----

  /** A file name is its stem, a dot, and an extension without one. */
  lemma StemOf(name: string, extension: string)
    requires name != "" && '.' !in extension && name + "." + extension != ".."
    ensures Stem(name + "." + extension) == name
  {
    var file := name + "." + extension;
    assert file[|name|] == '.' && file[..|name|] == name;
    assert forall k :: |name| < k < |file| ==> file[k] == extension[k - |name| - 1];
    assert LastDot(file) == Some(|name|);
  }

  /**
   The module name of a file splits into its directories and its stem. A file
   called `mod` or `__init__` has the name of its directory, and none at the top.
   */
  lemma ModuleNameSplits(dirs: seq<string>, name: string, extension: string)
    requires name != "" && '.' !in extension && name + "." + extension != ".." && Plain(dirs) && ':' !in name
    ensures var m := ModulePath(dirs + [name + "." + extension]);
            if name == "mod" || name == "__init__"
            then (if dirs == [] then m.None? else m.Some? && Segments(m.value) == dirs)
            else m.Some? && Segments(m.value) == dirs + [name]
  {
    hide Stem, Join, Segments;
    var path := dirs + [name + "." + extension];
    StemOf(name, extension);
    assert path[..|path| - 1] == dirs;
    if dirs != [] {
      SegmentsOfJoin(dirs);
    }
    SegmentsOfJoin(dirs + [name]);
  }

  /** A file name without a dot, or with only a leading one, is its own stem. */
  lemma BareStem(name: string)
    requires '.' !in name || (name != "" && name[0] == '.' && '.' !in name[1..])
    ensures Stem(name) == name
  {
    assert forall k :: 1 <= k < |name| ==> name[k] == name[1..][k - 1];
  }

  // ----- imports by that name -----

  /** In a rebuild, a file that imports another by its module name is in that one's radius. */
  lemma ImporterIsInRadius(reader: Reader, files: Files, f: Path, p: Path, t: string)
    requires Injective(files.Keys) && Declares(reader, files, f, t) && p in files && ModulePath(p) == Some(t)
    ensures DependsOn(Rebuilt(reader, files), f, p)
  {
    hide ModulePath, Reader.Targets, Rebuilt;
    RebuildTracks(reader, files);
    var g := Rebuilt(reader, files);
    assert NamesFile(g.modules, t, p);
    assert t[..|t|] == t;
    assert Resolved(g.modules, t) == Some(p);
    hide ResolveFrom;
    assert Leads(g, Edge(f, t, true), f, p);
    OneStepDepends(g, f, p);
  }

  /** `src/main.rs` importing `src::turns` depends on `src/turns.rs`. */
  lemma MainDependsOnTurns(reader: Reader, main: Bytes, turns: Bytes)
    requires reader.Targets(["src", "main.rs"], main) == ["src::turns"]
    ensures DependsOn(Rebuilt(reader, map[["src", "main.rs"] := main, ["src", "turns.rs"] := turns]), ["src", "main.rs"], ["src", "turns.rs"])
  {
    var files: Files := map[["src", "main.rs"] := main, ["src", "turns.rs"] := turns];
    TwoNames("src", "main");
    TwoNames("src", "turns");
    assert "main" + "." + "rs" == "main.rs" && "turns" + "." + "rs" == "turns.rs";
    assert "src" + "::" + "turns" == "src::turns" && "src" + "::" + "main" == "src::main";
    assert "src::turns"[5] == 't' && "src::main"[5] == 'm';
    hide ModulePath, Rebuilt, Reader.Targets;
    assert Declares(reader, files, ["src", "main.rs"], "src::turns");
    ImporterIsInRadius(reader, files, ["src", "main.rs"], ["src", "turns.rs"], "src::turns");
  }

  lemma TwoNames(directory: string, name: string)
    requires name != "" && name != "." && name != "mod" && name != "__init__"
    ensures ModulePath([directory, name + "." + "rs"]) == Some(directory + "::" + name)
  {
    StemOf(name, "rs");
    hide Stem;
    var path := [directory, name + "." + "rs"];
    assert path[..1] == [directory] && [directory] + [name] == [directory, name];
    assert Join([directory, name][1..]) == name;
  }
}

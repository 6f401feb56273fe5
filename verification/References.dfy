/** Which files mention a name, and where. */
module References {
  import opened Optional
  import opened Octets
  import opened Ordering
  import opened SyntaxTree
  import opened Mentions
  import opened ImportGraph

  /** A name, the file that defines it, the import graph, and the sources to look in. */
  datatype Query = Query(name: Bytes, defining: Path, graph: Graph,
                         candidates: map<Path, Bytes>, detect: Path -> Option<Grammar>)

  /** The defining file and whatever reaches it by internal imports. */
  ghost predicate Reachable(q: Query, f: Path) { f == q.defining || DependsOn(q.graph, f, q.defining) }

  ghost predicate SoundQuery(q: Query) {
    forall f :: q.detect(f).Some? ==> Sound(q.detect(f).value)
  }

  /** Offsets of the name in one file; none when the file cannot see the defining module or has no tree. */
  ghost function OffsetsIn(q: Query, f: Path): seq<nat>
    requires f in q.candidates
  {
    if !Reachable(q, f) then []
    else
      match q.detect(f)
      case None => []
      case Some(grammar) =>
        match grammar(q.candidates[f])
        case None => []
        case Some(tree) => Occurrences(tree, q.candidates[f], q.name)
  }

  ghost function Mentioning(q: Query): set<Path> {
    set f | f in q.candidates && OffsetsIn(q, f) != []
  }

  datatype Reference = Reference(file: Path, occurrences: seq<nat>)

  /** One entry per mentioning file, in path order, with all its offsets in byte order. */
  ghost predicate Lists(refs: seq<Reference>, q: Query) {
    && (forall i :: 0 <= i < |refs| ==> refs[i].file in q.candidates && refs[i].file in Mentioning(q) && refs[i].occurrences == OffsetsIn(q, refs[i].file))
    && (forall f :: f in Mentioning(q) ==> exists i :: 0 <= i < |refs| && refs[i].file == f)
    && (forall i, j :: 0 <= i < j < |refs| ==> PATH_LESS(refs[i].file, refs[j].file))
  }

  /** Occurrences are in order, inside the source, apart from each other, and read the name. */
  lemma OffsetsReadTheName(q: Query, f: Path)
    requires f in q.candidates && SoundQuery(q)
    ensures Spaced(OffsetsIn(q, f), |q.name|, 0, |q.candidates[f]|)
    ensures forall x :: x in OffsetsIn(q, f) ==> x + |q.name| <= |q.candidates[f]| && q.candidates[f][x..x + |q.name|] == q.name
  {
    if OffsetsIn(q, f) != [] {
      OccurrencesReadTheName(q.detect(f).value(q.candidates[f]).value, q.candidates[f], q.name);
    }
  }

  lemma OccurrencesReadTheName(tree: Node, source: Bytes, name: Bytes)
    requires WellFormed(tree)
    ensures Spaced(Occurrences(tree, source, name), |name|, 0, |source|)
    ensures forall x :: x in Occurrences(tree, source, name) ==> x + |name| <= |source| && source[x..x + |name|] == name
  {
    hide WellFormed, Occurrences;
    OccurrencesAreSpaced(tree, source, name);
    var offsets := Occurrences(tree, source, name);
    forall x | x in offsets ensures x + |name| <= |source| && source[x..x + |name|] == name {
      OccurrencesAreTheMentions(tree, source, name, x);
    }
    assert forall i :: 0 <= i < |offsets| ==> offsets[i] in offsets;
  }

  method OffsetsOf(imports: DependencyGraph, q: Query, f: Path) returns (offsets: seq<nat>)
    requires imports.Value() == q.graph && f in q.candidates && SoundQuery(q)
    ensures offsets == OffsetsIn(q, f)
  {
    hide SoundQuery, DependsOn;
    if f != q.defining {
      var dependents := imports.Dependents(q.defining);
      if f !in dependents {
        return [];
      }
    }
    offsets := OffsetsInTree(q, f);
  }

  method OffsetsInTree(q: Query, f: Path) returns (offsets: seq<nat>)
    requires f in q.candidates && SoundQuery(q) && Reachable(q, f)
    ensures offsets == OffsetsIn(q, f)
  {
    hide DependsOn;
    var grammar := q.detect(f);
    if grammar.None? {
      return [];
    }
    var tree := grammar.value(q.candidates[f]);
    if tree.None? {
      return [];
    }
    offsets := FindOccurrences(tree.value, q.candidates[f], q.name);
  }

  /** `found` holds the mentioning files among the first `n`. */
  ghost predicate Found(found: map<Path, seq<nat>>, q: Query, order: seq<Path>, n: nat)
    requires n <= |order| && forall f :: f in order ==> f in q.candidates
  {
    && (forall f :: f in found <==> f in order[..n] && OffsetsIn(q, f) != [])
    && (forall f :: f in found ==> found[f] == OffsetsIn(q, f))
  }

  lemma FoundNext(found: map<Path, seq<nat>>, q: Query, order: seq<Path>, n: nat, offsets: seq<nat>)
    requires n < |order| && forall f :: f in order ==> f in q.candidates
    requires Found(found, q, order, n) && order[n] in q.candidates && offsets == OffsetsIn(q, order[n])
    ensures Found(if offsets != [] then found[order[n] := offsets] else found, q, order, n + 1)
  {
    hide OffsetsIn;
    assert order[..n + 1] == order[..n] + [order[n]];
  }

  lemma FoundAll(found: map<Path, seq<nat>>, q: Query, order: seq<Path>)
    requires forall f :: f in order <==> f in q.candidates
    requires Found(found, q, order, |order|)
    ensures found.Keys == Mentioning(q) && forall f :: f in found ==> found[f] == OffsetsIn(q, f)
  {
    hide OffsetsIn;
    assert order[..|order|] == order;
  }

  method Collect(imports: DependencyGraph, q: Query, order: seq<Path>) returns (found: map<Path, seq<nat>>)
    requires imports.Value() == q.graph && SoundQuery(q)
    requires forall f :: f in order <==> f in q.candidates
    ensures found.Keys == Mentioning(q) && forall f :: f in found ==> found[f] == OffsetsIn(q, f)
  {
    hide SoundQuery, OffsetsIn, Found, Mentioning;
    found := map[];
    assert Found(found, q, order, 0) by { FoundNone(q, order); }
    for i := 0 to |order|
      invariant Found(found, q, order, i)
    {
      assert order[i] in order;
      var offsets := OffsetsOf(imports, q, order[i]);
      FoundNext(found, q, order, i, offsets);
      if offsets != [] {
        found := found[order[i] := offsets];
      }
    }
    FoundAll(found, q, order);
  }

  lemma FoundNone(q: Query, order: seq<Path>)
    requires forall f :: f in order ==> f in q.candidates
    ensures Found(map[], q, order, 0)
  {
  }

  /** Entries for these files, in their order, with what was found in each. */
  ghost predicate EntriesFor(refs: seq<Reference>, files: seq<Path>, found: map<Path, seq<nat>>) {
    && |refs| == |files|
    && forall k :: 0 <= k < |refs| ==> files[k] in found && refs[k] == Reference(files[k], found[files[k]])
  }

  method Entries(found: map<Path, seq<nat>>, files: seq<Path>) returns (refs: seq<Reference>)
    requires forall f :: f in files ==> f in found
    ensures EntriesFor(refs, files, found)
  {
    refs := [];
    for i := 0 to |files|
      invariant EntriesFor(refs, files[..i], found)
    {
      assert files[i] in files;
      refs := refs + [Reference(files[i], found[files[i]])];
    }
    assert files[..|files|] == files;
  }

  lemma EntriesAreSorted(refs: seq<Reference>, files: seq<Path>, found: map<Path, seq<nat>>)
    requires EntriesFor(refs, files, found) && Ascending(PATH_LESS, files) && forall f :: f in found <==> f in files
    ensures forall i :: 0 <= i < |refs| ==> refs[i].file in found && refs[i].occurrences == found[refs[i].file]
    ensures forall f :: f in found ==> exists i :: 0 <= i < |refs| && refs[i].file == f
    ensures forall i, j :: 0 <= i < j < |refs| ==> PATH_LESS(refs[i].file, refs[j].file)
  {
    hide PATH_LESS;
    forall f | f in found ensures exists i :: 0 <= i < |refs| && refs[i].file == f {
      var i :| 0 <= i < |files| && files[i] == f;
      assert refs[i].file == f;
    }
  }

  /** What was found, sorted by file. */
  method SortedReferences(found: map<Path, seq<nat>>) returns (refs: seq<Reference>)
    ensures forall i :: 0 <= i < |refs| ==> refs[i].file in found && refs[i].occurrences == found[refs[i].file]
    ensures forall f :: f in found ==> exists i :: 0 <= i < |refs| && refs[i].file == f
    ensures forall i, j :: 0 <= i < j < |refs| ==> PATH_LESS(refs[i].file, refs[j].file)
  {
    hide PATH_LESS, EntriesFor;
    PathOrder();
    var files := Sorted(PATH_LESS, found.Keys);
    refs := Entries(found, files);
    EntriesAreSorted(refs, files, found);
  }

  /** The candidates in the order they come in, each file once. */
  ghost predicate Presents(order: seq<Path>, q: Query) {
    && (forall f :: f in order <==> f in q.candidates)
    && forall i, j :: 0 <= i < j < |order| ==> order[i] != order[j]
  }

  /** The files that mention the name, whatever order the candidates come in. */
  method QueryReferences(imports: DependencyGraph, q: Query, order: seq<Path>) returns (refs: seq<Reference>)
    requires imports.Value() == q.graph && SoundQuery(q) && Presents(order, q)
    ensures Lists(refs, q)
  {
    hide SoundQuery, OffsetsIn, PATH_LESS, Mentioning;
    assert forall f :: f in Mentioning(q) ==> f in q.candidates by { MentioningAreCandidates(q); }
    var found := Collect(imports, q, order);
    refs := SortedReferences(found);
  }

  lemma MentioningAreCandidates(q: Query)
    ensures Mentioning(q) <= q.candidates.Keys
  {
  }
}

/** The rename over all candidate files: every file verified, or no file returned. */
module RenameFiles {
  import opened Optional
  import opened Octets
  import opened Ordering
  import opened SyntaxTree
  import opened Mentions
  import opened Splicing
  import opened ImportGraph
  import opened References
  import opened Rename

  datatype RenamedFile = RenamedFile(file: Path, bytes: Bytes, rewritten: nat)

  /** Names the harvest of a file declares, or none when the file does not parse cleanly. */
  type Harvest = (Path, Bytes) -> Option<seq<Bytes>>

  ghost predicate Degenerate(q: Query, new': Bytes) {
    q.name == [] || new' == [] || q.name == new' || Mentioning(q) == {}
  }

  /** A file in which the new name would capture references, or whose declarations are not known. */
  predicate Barred(q: Query, f: Path, new': Bytes, declared: Harvest)
    requires f in q.candidates
  {
    var names := declared(f, q.candidates[f]);
    names.None? || new' in names.value
  }

  ghost function NewBytes(q: Query, f: Path, new': Bytes): Bytes
    requires f in q.candidates && SoundQuery(q)
  {
    OffsetsReadTheName(q, f);
    Substituted(q.candidates[f], OffsetsIn(q, f), |q.name|, new', 0)
  }

  ghost predicate GatesPass(q: Query, f: Path, new': Bytes)
    requires f in q.candidates && SoundQuery(q)
  {
    OffsetsReadTheName(q, f);
    q.detect(f).Some? && AllPassGates(q.detect(f).value, q.candidates[f], OffsetsIn(q, f), |q.name|, new')
  }

  ghost predicate Renameable(q: Query, f: Path, new': Bytes, declared: Harvest)
    requires f in q.candidates && SoundQuery(q)
  {
    !Barred(q, f, new', declared) && GatesPass(q, f, new')
  }

  /** The mentioning files in path order, each with every occurrence exchanged and nothing else changed. */
  ghost predicate Rewrites(files: seq<RenamedFile>, q: Query, new': Bytes)
    requires SoundQuery(q)
  {
    && (forall i :: 0 <= i < |files| ==>
          files[i].file in q.candidates && files[i].file in Mentioning(q)
          && files[i].bytes == NewBytes(q, files[i].file, new') && files[i].rewritten == |OffsetsIn(q, files[i].file)|)
    && (forall f :: f in Mentioning(q) ==> exists i :: 0 <= i < |files| && files[i].file == f)
    && (forall i, j :: 0 <= i < j < |files| ==> PATH_LESS(files[i].file, files[j].file))
  }

  /** Substituting the old name back at the shifted offsets restores the file, and its length tells the count. */
  lemma RenameCanBeUndone(q: Query, f: Path, new': Bytes, back: seq<nat>)
    requires f in q.candidates && SoundQuery(q)
    requires back == Landed(OffsetsIn(q, f), |q.name|, |new'|, 0)
    ensures var t := NewBytes(q, f, new');
            && |t| == |q.candidates[f]| + |OffsetsIn(q, f)| * (|new'| - |q.name|)
            && Spaced(back, |new'|, 0, |t|) && AllRead(t, back, new')
            && Substituted(t, back, |new'|, q.name, 0) == q.candidates[f]
  {
    hide OffsetsIn, Spaced, Substituted, Landed, SoundQuery;
    var s, offsets := q.candidates[f], OffsetsIn(q, f);
    OffsetsReadTheName(q, f);
    EachReads(s, offsets, q.name);
    SubstitutedLength(s, offsets, |q.name|, new', 0);
    SubstitutionUndone(s, offsets, q.name, new', 0, [], back);
    assert [] + NewBytes(q, f, new') == NewBytes(q, f, new');
    assert s[0..] == s;
  }

  lemma EachReads(s: Bytes, offsets: seq<nat>, name: Bytes)
    requires forall x :: x in offsets ==> x + |name| <= |s| && s[x..x + |name|] == name
    ensures AllRead(s, offsets, name)
  {
    assert forall i :: 0 <= i < |offsets| ==> offsets[i] in offsets;
  }

  method RenameOne(grammar: Option<Grammar>, source: Bytes, offsets: seq<nat>, width: nat, new': Bytes) returns (r: Result<Bytes>)
    requires grammar.Some? && Sound(grammar.value)
    ensures r == Renamed(grammar.value, source, offsets, width, new')
  {
    hide Replaced;
    var bytes := source;
    var i := |offsets|;
    assert offsets[..i] == offsets;
    while i > 0
      invariant 0 <= i <= |offsets|
      invariant Renamed(grammar.value, source, offsets, width, new') == Renamed(grammar.value, bytes, offsets[..i], width, new')
    {
      i := i - 1;
      assert offsets[..i + 1][..i] == offsets[..i];
      var spliced := ReplaceNode(grammar, bytes, offsets[i], offsets[i] + width, new');
      if spliced.Err? {
        return spliced;
      }
      bytes := spliced.value;
    }
    return Ok(bytes);
  }

  function Bar(q: Query, f: Path, declared: Harvest): AstError
    requires f in q.candidates
  {
    if declared(f, q.candidates[f]).None? then GateRefused else WouldShadow
  }

  ghost predicate FirstBarred(q: Query, refs: seq<Reference>, i: nat, new': Bytes, declared: Harvest)
    requires i < |refs| && forall i :: 0 <= i < |refs| ==> refs[i].file in q.candidates
  {
    Barred(q, refs[i].file, new', declared) && forall j :: 0 <= j < i ==> !Barred(q, refs[j].file, new', declared)
  }

  /** The first file that bars the rename decides the refusal. */
  method CheckShadows(q: Query, refs: seq<Reference>, new': Bytes, declared: Harvest) returns (problem: Option<AstError>)
    requires forall i :: 0 <= i < |refs| ==> refs[i].file in q.candidates
    ensures problem.None? <==> forall i :: 0 <= i < |refs| ==> !Barred(q, refs[i].file, new', declared)
    ensures problem.Some? ==> exists i :: 0 <= i < |refs| && FirstBarred(q, refs, i, new', declared)
                                          && problem.value == Bar(q, refs[i].file, declared)
  {
    for i := 0 to |refs|
      invariant forall j :: 0 <= j < i ==> !Barred(q, refs[j].file, new', declared)
    {
      var f := refs[i].file;
      var names := declared(f, q.candidates[f]);
      if names.None? {
        assert FirstBarred(q, refs, i, new', declared);
        return Some(GateRefused);
      }
      if new' in names.value {
        assert FirstBarred(q, refs, i, new', declared);
        return Some(WouldShadow);
      }
    }
    return None;
  }

  lemma OneFile(q: Query, f: Path, new': Bytes)
    requires f in q.candidates && SoundQuery(q) && OffsetsIn(q, f) != []
    ensures q.detect(f).Some? && Sound(q.detect(f).value)
    ensures var r := Renamed(q.detect(f).value, q.candidates[f], OffsetsIn(q, f), |q.name|, new');
            && (r.Ok? <==> GatesPass(q, f, new'))
            && (r.Ok? ==> r.value == NewBytes(q, f, new'))
            && (r.Err? ==> r.error in {HasErrors, RangeIsNotANode, GateRefused})
  {
    OffsetsReadTheName(q, f);
    hide Renamed, Spaced, AllPassGates, Occurrences;
    RenamedIsSimultaneous(q.detect(f).value, q.candidates[f], OffsetsIn(q, f), |q.name|, new');
  }

  /** What the splices of one file come to. */
  ghost function FileResult(q: Query, f: Path, new': Bytes): Result<Bytes>
    requires f in q.candidates && q.detect(f).Some?
  {
    Renamed(q.detect(f).value, q.candidates[f], OffsetsIn(q, f), |q.name|, new')
  }

  ghost predicate FirstRefused(q: Query, refs: seq<Reference>, i: nat, new': Bytes)
    requires i < |refs| && SoundQuery(q) && forall i :: 0 <= i < |refs| ==> refs[i].file in q.candidates
  {
    !GatesPass(q, refs[i].file, new') && forall j :: 0 <= j < i ==> GatesPass(q, refs[j].file, new')
  }

  ghost predicate RefusedWith(q: Query, f: Path, new': Bytes, error: AstError)
    requires f in q.candidates
  {
    q.detect(f).Some? && FileResult(q, f, new') == Err(error)
  }

  lemma RefusedHere(q: Query, refs: seq<Reference>, i: nat, new': Bytes, error: AstError)
    requires i < |refs| && SoundQuery(q) && forall i :: 0 <= i < |refs| ==> refs[i].file in q.candidates
    requires q.detect(refs[i].file).Some? && FileResult(q, refs[i].file, new') == Err(error)
    requires !GatesPass(q, refs[i].file, new') && forall j :: 0 <= j < i ==> GatesPass(q, refs[j].file, new')
    ensures FirstRefused(q, refs, i, new') && RefusedWith(q, refs[i].file, new', error)
  {
    hide SoundQuery, GatesPass, FileResult;
  }

  /** Every referencing file in turn; the first refusal ends it. */
  method RenameEach(q: Query, refs: seq<Reference>, new': Bytes) returns (r: Result<seq<RenamedFile>>)
    requires SoundQuery(q) && Lists(refs, q)
    ensures r.Ok? <==> forall i :: 0 <= i < |refs| ==> GatesPass(q, refs[i].file, new')
    ensures r.Ok? ==> |r.value| == |refs| && forall i :: 0 <= i < |refs| ==>
              r.value[i] == RenamedFile(refs[i].file, NewBytes(q, refs[i].file, new'), |refs[i].occurrences|)
    ensures r.Err? ==> r.error in {HasErrors, RangeIsNotANode, GateRefused}
    ensures r.Err? ==> exists i :: 0 <= i < |refs| && FirstRefused(q, refs, i, new') && RefusedWith(q, refs[i].file, new', r.error)
  {
    hide SoundQuery, GatesPass, NewBytes, Renamed, PATH_LESS, OffsetsIn, FirstRefused, RefusedWith;
    var files := [];
    for i := 0 to |refs|
      invariant |files| == i
      invariant forall k :: 0 <= k < i ==> GatesPass(q, refs[k].file, new')
      invariant forall k :: 0 <= k < i ==>
                  files[k] == RenamedFile(refs[k].file, NewBytes(q, refs[k].file, new'), |refs[k].occurrences|)
    {
      var f, offsets := refs[i].file, refs[i].occurrences;
      OneFile(q, f, new');
      var bytes := RenameOne(q.detect(f), q.candidates[f], offsets, |q.name|, new');
      if bytes.Err? {
        RefusedHere(q, refs, i, new', bytes.error);
        return Err(bytes.error);
      }
      files := files + [RenamedFile(f, bytes.value, |offsets|)];
    }
    return Ok(files);
  }

  /** The first mentioning file in path order that bars the rename. */
  ghost predicate FirstBarredFile(q: Query, f: Path, new': Bytes, declared: Harvest) {
    && f in q.candidates && f in Mentioning(q) && Barred(q, f, new', declared)
    && forall h :: h in q.candidates && h in Mentioning(q) && PATH_LESS(h, f) ==> !Barred(q, h, new', declared)
  }

  /** The first mentioning file in path order whose splices do not all pass. */
  ghost predicate FirstFailingFile(q: Query, f: Path, new': Bytes)
    requires SoundQuery(q)
  {
    && f in q.candidates && f in Mentioning(q) && !GatesPass(q, f, new')
    && forall h :: h in q.candidates && h in Mentioning(q) && PATH_LESS(h, f) ==> GatesPass(q, h, new')
  }

  ghost predicate NoneBarred(q: Query, new': Bytes, declared: Harvest) {
    forall f :: f in q.candidates && f in Mentioning(q) ==> !Barred(q, f, new', declared)
  }

  /** Files before an entry of the list are entries before it. */
  lemma EarlierInList(q: Query, refs: seq<Reference>, i: nat, h: Path) returns (j: nat)
    requires Lists(refs, q) && i < |refs| && h in Mentioning(q) && PATH_LESS(h, refs[i].file)
    ensures j < i && refs[j].file == h
  {
    hide PATH_LESS, Mentioning;
    PathOrder();
    j :| 0 <= j < |refs| && refs[j].file == h;
  }

  lemma FirstInPathOrder(q: Query, refs: seq<Reference>, i: nat, new': Bytes, declared: Harvest)
    requires SoundQuery(q) && Lists(refs, q) && i < |refs|
    ensures FirstBarred(q, refs, i, new', declared) ==> FirstBarredFile(q, refs[i].file, new', declared)
    ensures FirstRefused(q, refs, i, new') ==> FirstFailingFile(q, refs[i].file, new')
  {
    hide PATH_LESS, Mentioning, Barred, GatesPass, SoundQuery;
    forall h | h in q.candidates && h in Mentioning(q) && PATH_LESS(h, refs[i].file)
      ensures FirstBarred(q, refs, i, new', declared) ==> !Barred(q, h, new', declared)
      ensures FirstRefused(q, refs, i, new') ==> GatesPass(q, h, new')
    {
      var j := EarlierInList(q, refs, i, h);
    }
  }

  /**
   All files or none: success exactly when every mentioning file can be renamed,
   and then each is the simultaneous substitution. A barred file wins over a
   failing one, and the first in path order over the others.
   */
  method RenameAll(imports: DependencyGraph, q: Query, new': Bytes, declared: Harvest) returns (r: Result<seq<RenamedFile>>)
    requires imports.Value() == q.graph && SoundQuery(q)
    ensures r == Err(NothingToRename) <==> Degenerate(q, new')
    ensures r.Ok? <==> !Degenerate(q, new') && forall f :: f in Mentioning(q) ==> Renameable(q, f, new', declared)
    ensures r.Ok? ==> Rewrites(r.value, q, new')
    ensures !Degenerate(q, new') && !NoneBarred(q, new', declared) ==>
              exists f :: FirstBarredFile(q, f, new', declared) && r == Err(Bar(q, f, declared))
    ensures !Degenerate(q, new') && NoneBarred(q, new', declared) && r.Err? ==>
              exists f :: FirstFailingFile(q, f, new') && RefusedWith(q, f, new', r.error)
  {
    hide SoundQuery, GatesPass, NewBytes, PATH_LESS, Barred, OffsetsIn, RefusedWith, Mentioning, Lists, Presents;
    hide FirstBarredFile, FirstFailingFile, FirstBarred, FirstRefused, Rewrites, NoneBarred, Renameable;
    if q.name == [] || new' == [] || q.name == new' {
      return Err(NothingToRename);
    }
    var order := CandidateOrder(q);
    var refs := QueryReferences(imports, q, order);
    ListedFiles(q, refs, new', declared);
    if refs == [] {
      return Err(NothingToRename);
    }
    var problem := CheckShadows(q, refs, new', declared);
    if problem.Some? {
      ghost var i :| 0 <= i < |refs| && FirstBarred(q, refs, i, new', declared) && problem.value == Bar(q, refs[i].file, declared);
      FirstInPathOrder(q, refs, i, new', declared);
      FirstBarredIsBarred(q, refs, i, new', declared);
      return Err(problem.value);
    }
    r := RenameEach(q, refs, new');
    if r.Err? {
      ghost var i :| 0 <= i < |refs| && FirstRefused(q, refs, i, new') && RefusedWith(q, refs[i].file, new', r.error);
      FirstInPathOrder(q, refs, i, new', declared);
    } else {
      AllRewritten(q, refs, r.value, new');
    }
  }

  method CandidateOrder(q: Query) returns (order: seq<Path>)
    ensures Presents(order, q)
  {
    hide PATH_LESS;
    PathOrder();
    order := Sorted(PATH_LESS, q.candidates.Keys);
    AscendingIsDistinct(PATH_LESS, order);
  }

  /** What holds of all entries holds of all mentioning files. */
  lemma ListedFiles(q: Query, refs: seq<Reference>, new': Bytes, declared: Harvest)
    requires SoundQuery(q) && Lists(refs, q)
    ensures refs == [] <==> Mentioning(q) == {}
    ensures forall i :: 0 <= i < |refs| ==> refs[i].file in q.candidates
    ensures NoneBarred(q, new', declared) <==> forall i :: 0 <= i < |refs| ==> !Barred(q, refs[i].file, new', declared)
    ensures forall f :: f in Mentioning(q) ==> f in q.candidates
    ensures (forall f :: f in Mentioning(q) ==> Renameable(q, f, new', declared))
            <==> forall i :: 0 <= i < |refs| ==> !Barred(q, refs[i].file, new', declared) && GatesPass(q, refs[i].file, new')
  {
    hide SoundQuery, GatesPass, PATH_LESS, Barred, OffsetsIn;
    if refs != [] {
      assert refs[0].file in Mentioning(q);
    }
  }

  lemma FirstBarredIsBarred(q: Query, refs: seq<Reference>, i: nat, new': Bytes, declared: Harvest)
    requires i < |refs| && (forall i :: 0 <= i < |refs| ==> refs[i].file in q.candidates) && FirstBarred(q, refs, i, new', declared)
    ensures Barred(q, refs[i].file, new', declared) && Bar(q, refs[i].file, declared) != NothingToRename
  {
    hide Barred;
  }

  lemma AllRewritten(q: Query, refs: seq<Reference>, files: seq<RenamedFile>, new': Bytes)
    requires SoundQuery(q) && Lists(refs, q) && |files| == |refs|
    requires forall i :: 0 <= i < |refs| ==> refs[i].file in q.candidates
    requires forall i :: 0 <= i < |refs| ==>
               files[i] == RenamedFile(refs[i].file, NewBytes(q, refs[i].file, new'), |refs[i].occurrences|)
    ensures Rewrites(files, q, new')
  {
    hide SoundQuery, NewBytes, PATH_LESS, OffsetsIn, Mentioning;
    forall f | f in Mentioning(q) ensures exists i :: 0 <= i < |files| && files[i].file == f {
      var i :| 0 <= i < |refs| && refs[i].file == f;
      assert files[i].file == f;
    }
  }
}

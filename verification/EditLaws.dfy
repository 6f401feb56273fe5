/** What the structural edits promise, with node kinds, spans and imports written out. */
module EditLaws {
  import opened Optional
  import opened Octets
  import opened Ordering
  import opened SyntaxTree
  import opened Mentions
  import opened Splicing
  import ImportGraph
  import opened References
  import opened RenameFiles

  // ----- identifiers -----

  /** The node at `route` is an identifier of one of the three kinds, starts at `x`, and reads `name`. */
  ghost predicate IdentifierAt(n: Node, route: Route, source: Bytes, name: Bytes, x: nat) {
    && Reaches(n, route)
    && var m := NodeAt(n, route);
    && (m.kind == "identifier" || m.kind == "type_identifier" || m.kind == "property_identifier")
    && m.start == x && x <= m.end <= |source| && source[x..m.end] == name
  }

  /** An offset is listed exactly when such a node stands there. */
  lemma OccurrencesAreTheIdentifiers(n: Node, source: Bytes, name: Bytes, x: nat)
    ensures x in Occurrences(n, source, name) <==> exists route: Route :: IdentifierAt(n, route, source, name, x)
  {
    OccurrencesAreTheMentions(n, source, name, x);
    forall route: Route ensures IdentifierAt(n, route, source, name, x) <==> MentionAt(n, route, source, name, x) {
    }
    hide IdentifierAt, MentionAt, Occurrences;
  }

  /** A file is listed exactly when it is a candidate that is or reaches the defining file, has a grammar and a tree, and that tree has such a node. */
  lemma MentioningFilesAre(q: Query, f: Path)
    ensures f in Mentioning(q) <==>
              && f in q.candidates && (f == q.defining || ImportGraph.DependsOn(q.graph, f, q.defining))
              && q.detect(f).Some? && q.detect(f).value(q.candidates[f]).Some?
              && exists x: nat, route: Route :: IdentifierAt(q.detect(f).value(q.candidates[f]).value, route, q.candidates[f], q.name, x)
  {
    hide ImportGraph.DependsOn, IdentifierAt, Occurrences;
    if f in q.candidates && q.detect(f).Some? && q.detect(f).value(q.candidates[f]).Some? {
      var (tree, source) := (q.detect(f).value(q.candidates[f]).value, q.candidates[f]);
      var offsets := Occurrences(tree, source, q.name);
      if offsets != [] {
        OccurrencesAreTheIdentifiers(tree, source, q.name, offsets[0]);
        assert offsets[0] in offsets;
      }
      if x: nat, route: Route :| IdentifierAt(tree, route, source, q.name, x) {
        OccurrencesAreTheIdentifiers(tree, source, q.name, x);
      }
    }
  }

  // ----- the two gates of a splice -----

  /** No error node and no missing node anywhere. */
  ghost predicate Spotless(tree: Node) {
    forall route: Route :: Reaches(tree, route) ==> NodeAt(tree, route).kind != "ERROR" && !NodeAt(tree, route).missing
  }

  lemma ErrorFreeIsSpotless(tree: Node)
    ensures HasError(tree) <==> !Spotless(tree)
  {
    HasErrorIsAnywhere(tree);
    hide HasError;
    if route: Route :| ErrorAt(tree, route) {
    }
    if !Spotless(tree) {
      var route: Route :| Reaches(tree, route) && (NodeAt(tree, route).kind == "ERROR" || NodeAt(tree, route).missing);
      assert ErrorAt(tree, route);
    }
  }

  /** The outermost node that spans the range has this kind. */
  ghost predicate OutermostKind(tree: Node, from: nat, upto: nat, kind: string) {
    exists route: Route :: Outermost(tree, route, from, upto) && NodeAt(tree, route).kind == kind
  }

  lemma KindOfTheOutermost(tree: Node, from: nat, upto: nat, kind: string)
    requires from != upto
    ensures ExactKind(tree, from, upto) == Some(kind) <==> OutermostKind(tree, from, upto, kind)
  {
    if a: Route :| Outermost(tree, a, from, upto) && NodeAt(tree, a).kind == kind {
      forall b: Route | Outermost(tree, b, from, upto) ensures b == a {
        OutermostIsUnique(tree, b, a, from, upto);
      }
    }
  }

  /** An edit goes through exactly when both texts parse without error or missing nodes, and the range and what replaces it are each spanned by a node of one kind. */
  lemma AdmittedEditsAre(grammar: Grammar, source: Bytes, from: nat, upto: nat, replacement: Bytes)
    ensures Admissible(grammar, source, from, upto, replacement) <==>
              && from < upto <= |source| && replacement != []
              && var spliced := source[..from] + replacement + source[upto..];
              && grammar(source).Some? && Spotless(grammar(source).value)
              && grammar(spliced).Some? && Spotless(grammar(spliced).value)
              && exists kind :: OutermostKind(grammar(source).value, from, upto, kind)
                               && OutermostKind(grammar(spliced).value, from, from + |replacement|, kind)
  {
    if from < upto <= |source| {
      var spliced := Splice(source, from, upto, replacement);
      CleanIs(grammar, source, from, upto);
      CleanIs(grammar, spliced, from, from + |replacement|);
      hide Clean, Spotless, OutermostKind;
    }
  }

  lemma CleanIs(grammar: Grammar, bytes: Bytes, from: nat, upto: nat)
    ensures forall kind :: Clean(grammar, bytes, from, upto, kind) <==>
              from != upto && grammar(bytes).Some? && Spotless(grammar(bytes).value) && OutermostKind(grammar(bytes).value, from, upto, kind)
  {
    hide Spotless, OutermostKind, HasError, ExactKind;
    if grammar(bytes).Some? {
      var tree := grammar(bytes).value;
      ErrorFreeIsSpotless(tree);
      EmptyRangeHasNoKind(tree, from);
      if from != upto {
        forall kind ensures ExactKind(tree, from, upto) == Some(kind) <==> OutermostKind(tree, from, upto, kind) {
          KindOfTheOutermost(tree, from, upto, kind);
        }
      }
    }
  }

  lemma EmptyRangeHasNoKind(tree: Node, at: nat)
    ensures ExactKind(tree, at, at) == None
  {
  }

  /** The reason for a refusal: a range that is no node of the text, a text that has no clean tree, or, both being in order, the edit itself. */
  lemma RefusalsAre(grammar: Grammar, source: Bytes, from: nat, upto: nat, replacement: Bytes)
    requires Replaced(grammar, source, from, upto, replacement).Err?
    ensures var error := Replaced(grammar, source, from, upto, replacement).error;
            var inside := from < upto <= |source|;
            && (error == RangeIsNotANode <==>
                  !inside || (grammar(source).Some? && forall kind :: !OutermostKind(grammar(source).value, from, upto, kind)))
            && (error == HasErrors <==>
                  inside && (grammar(source).None? || ((exists kind :: OutermostKind(grammar(source).value, from, upto, kind))
                                                     && !Spotless(grammar(source).value))))
            && (error == GateRefused <==>
                  inside && grammar(source).Some? && Spotless(grammar(source).value)
                  && exists kind :: OutermostKind(grammar(source).value, from, upto, kind))
  {
    hide Admissible, Spotless, OutermostKind, HasError, ExactKind;
    if from < upto <= |source| && grammar(source).Some? {
      var tree := grammar(source).value;
      ErrorFreeIsSpotless(tree);
      forall kind ensures ExactKind(tree, from, upto) == Some(kind) <==> OutermostKind(tree, from, upto, kind) {
        KindOfTheOutermost(tree, from, upto, kind);
      }
      if ExactKind(tree, from, upto).Some? {
        assert OutermostKind(tree, from, upto, ExactKind(tree, from, upto).value);
      }
    }
  }

  // ----- the rename -----

  /** A file can be renamed only when its declarations are known and the new name is not among them. */
  lemma NothingIsShadowed(q: Query, f: Path, new': Bytes, declared: Harvest)
    requires f in q.candidates && SoundQuery(q) && Renameable(q, f, new', declared)
    ensures declared(f, q.candidates[f]).Some? && new' !in declared(f, q.candidates[f]).value
  {
    hide GatesPass, SoundQuery;
  }
}

/** Replacing one node of a file, gated by a parse before and a parse after. */
module Splicing {
  import opened Optional
  import opened Octets
  import opened SyntaxTree

  datatype AstError =
    | UnsupportedLanguage
    | HasErrors
    | RangeIsNotANode
    | GateRefused
    | NothingToRename
    | WouldShadow

  datatype Result<+T> = Ok(value: T) | Err(error: AstError)

  function Splice(source: Bytes, from: nat, upto: nat, replacement: Bytes): Bytes
    requires from <= upto <= |source|
  {
    source[..from] + replacement + source[upto..]
  }

  /** The kind of the outermost node that spans the range. */
  ghost function ExactKind(root: Node, from: nat, upto: nat): Option<string> {
    if from != upto && exists route: Route :: Outermost(root, route, from, upto)
    then var route: Route :| Outermost(root, route, from, upto); Some(NodeAt(root, route).kind)
    else None
  }

  lemma FoundIsExact(root: Node, from: nat, upto: nat, found: Option<Node>)
    requires found.Some? <==> from != upto && exists route: Route :: SpansAt(root, route, from, upto)
    requires found.Some? ==> exists route: Route :: Outermost(root, route, from, upto) && NodeAt(root, route) == found.value
    ensures ExactKind(root, from, upto) == if found.Some? then Some(found.value.kind) else None
  {
    if found.Some? {
      var mine: Route :| Outermost(root, mine, from, upto) && NodeAt(root, mine) == found.value;
      forall other: Route | Outermost(root, other, from, upto) ensures other == mine {
        OutermostIsUnique(root, other, mine, from, upto);
      }
    } else if from != upto {
      assert forall route: Route :: Outermost(root, route, from, upto) ==> SpansAt(root, route, from, upto);
    }
  }

  /** An error-free parse in which the range is exactly one node of this kind. */
  ghost predicate Clean(grammar: Grammar, bytes: Bytes, from: nat, upto: nat, kind: string) {
    grammar(bytes).Some? && !HasError(grammar(bytes).value) && ExactKind(grammar(bytes).value, from, upto) == Some(kind)
  }

  /** What a replacement must satisfy: a real node of an error-free file, that is a node of the same kind afterwards. */
  ghost predicate Admissible(grammar: Grammar, source: Bytes, from: nat, upto: nat, replacement: Bytes) {
    && from < upto <= |source|
    && exists kind :: Clean(grammar, source, from, upto, kind)
        && Clean(grammar, Splice(source, from, upto, replacement), from, from + |replacement|, kind)
  }

  /** Why a source is turned away before anything is spliced. */
  ghost function Refusal(grammar: Grammar, source: Bytes, from: nat, upto: nat): AstError {
    if from >= upto || upto > |source| then RangeIsNotANode
    else
      match grammar(source)
      case None => HasErrors
      case Some(tree) =>
        if ExactKind(tree, from, upto).None? then RangeIsNotANode
        else if HasError(tree) then HasErrors
        else GateRefused
  }

  ghost function Replaced(grammar: Grammar, source: Bytes, from: nat, upto: nat, replacement: Bytes): Result<Bytes> {
    if Admissible(grammar, source, from, upto, replacement)
    then Ok(Splice(source, from, upto, replacement))
    else Err(Refusal(grammar, source, from, upto))
  }

  method ExactNodeKind(root: Node, from: nat, upto: nat) returns (kind: Option<string>)
    requires WellFormed(root)
    ensures kind == ExactKind(root, from, upto)
  {
    hide ExactKind, WellFormed;
    var found := FindExact(root, from, upto);
    FoundIsExact(root, from, upto, found);
    kind := if found.Some? then Some(found.value.kind) else None;
  }

  /** The spliced file when both gates pass; otherwise the reason, with the source as it was. */
  method ReplaceNode(grammar: Option<Grammar>, source: Bytes, from: nat, upto: nat, replacement: Bytes)
    returns (r: Result<Bytes>)
    requires grammar.Some? ==> Sound(grammar.value)
    ensures r == if grammar.None? then Err(UnsupportedLanguage) else Replaced(grammar.value, source, from, upto, replacement)
  {
    hide ExactKind, HasError, WellFormed;
    if grammar.None? {
      return Err(UnsupportedLanguage);
    }
    if from >= upto || upto > |source| {
      return Err(RangeIsNotANode);
    }
    var tree := grammar.value(source);
    if tree.None? {
      return Err(HasErrors);
    }
    var before := ExactNodeKind(tree.value, from, upto);
    if before.None? {
      return Err(RangeIsNotANode);
    }
    if HasError(tree.value) {
      return Err(HasErrors);
    }
    var spliced := Splice(source, from, upto, replacement);
    var after := grammar.value(spliced);
    if after.None? || HasError(after.value) {
      return Err(GateRefused);
    }
    var kind := ExactNodeKind(after.value, from, from + |replacement|);
    if kind != before {
      return Err(GateRefused);
    }
    assert Clean(grammar.value, source, from, upto, before.value);
    assert Clean(grammar.value, spliced, from, from + |replacement|, before.value);
    return Ok(spliced);
  }
}

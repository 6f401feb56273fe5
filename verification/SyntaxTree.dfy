/**
 Concrete syntax trees as the grammar delivers them, the descent to the node
 that spans a byte range, and the walk that collects identifiers.
 */
module SyntaxTree {
  import opened Optional
  import opened Octets

  datatype Node = Node(kind: string, start: nat, end: nat, missing: bool, children: seq<Node>) {
    predicate Spans(from: nat, upto: nat) { start == from && end == upto }

    predicate Contains(from: nat, upto: nat) { start <= from && end >= upto }
  }

  predicate IsIdentifier(kind: string) {
    kind == "identifier" || kind == "type_identifier" || kind == "property_identifier"
  }

  /** Children lie inside their parent, in order and without overlap; identifiers are leaves. */
  ghost predicate WellFormed(n: Node) {
    && n.start <= n.end
    && (forall i :: 0 <= i < |n.children| ==>
          n.start <= n.children[i].start && n.children[i].end <= n.end && WellFormed(n.children[i]))
    && (forall i, j :: 0 <= i < j < |n.children| ==> n.children[i].end <= n.children[j].start)
    && (IsIdentifier(n.kind) ==> n.children == [])
  }

  /** A grammar, not looked into: some tree, or none when the parser gives up. */
  type Grammar = Bytes -> Option<Node>

  ghost predicate Sound(grammar: Grammar) {
    forall b: Bytes :: grammar(b).Some? ==> WellFormed(grammar(b).value)
  }

  // ----- nodes by their path from the root -----

  type Route = seq<nat>

  predicate Reaches(n: Node, route: Route)
    decreases |route|
  {
    route == [] || (route[0] < |n.children| && Reaches(n.children[route[0]], route[1..]))
  }

  function NodeAt(n: Node, route: Route): Node
    requires Reaches(n, route)
    decreases |route|
  {
    if route == [] then n else NodeAt(n.children[route[0]], route[1..])
  }

  ghost predicate SpansAt(n: Node, route: Route, from: nat, upto: nat) {
    Reaches(n, route) && NodeAt(n, route).Spans(from, upto)
  }

  lemma {:induction false} DescendantIsInside(n: Node, route: Route)
    requires WellFormed(n) && Reaches(n, route)
    ensures WellFormed(NodeAt(n, route)) && n.Contains(NodeAt(n, route).start, NodeAt(n, route).end)
    decreases |route|
  {
    if route != [] {
      DescendantIsInside(n.children[route[0]], route[1..]);
    }
  }

  lemma {:induction false} RouteExtends(n: Node, route: Route, k: nat)
    requires Reaches(n, route) && k < |NodeAt(n, route).children|
    ensures Reaches(n, route + [k]) && NodeAt(n, route + [k]) == NodeAt(n, route).children[k]
    decreases |route|
  {
    if route != [] {
      RouteExtends(n.children[route[0]], route[1..], k);
      assert (route + [k])[1..] == route[1..] + [k];
    }
  }

  lemma {:induction false} RouteSplits(n: Node, route: Route, tail: Route)
    requires Reaches(n, route + tail)
    ensures Reaches(n, route) && Reaches(NodeAt(n, route), tail) && NodeAt(n, route + tail) == NodeAt(NodeAt(n, route), tail)
    decreases |route|
  {
    if route == [] {
      assert route + tail == tail;
    } else {
      assert (route + tail)[1..] == route[1..] + tail;
      RouteSplits(n.children[route[0]], route[1..], tail);
    }
  }

  // ----- the exact node -----

  /** Every node that spans the range sits at or below `route`. */
  ghost predicate AllBelow(n: Node, route: Route, from: nat, upto: nat) {
    forall r: Route :: SpansAt(n, r, from, upto) ==> route <= r
  }

  /** `route` leads to the outermost node that spans the range. */
  ghost predicate Outermost(n: Node, route: Route, from: nat, upto: nat) {
    SpansAt(n, route, from, upto) && AllBelow(n, route, from, upto)
  }

  lemma OutermostIsUnique(n: Node, a: Route, b: Route, from: nat, upto: nat)
    requires Outermost(n, a, from, upto) && Outermost(n, b, from, upto)
    ensures a == b
  {
    assert a <= b && b <= a;
  }

  /** Indices of the children that contain the range, in order. */
  function Containing(children: seq<Node>, from: nat, upto: nat): (r: seq<nat>)
    ensures forall k: nat :: k in r <==> k < |children| && children[k].Contains(from, upto)
    ensures forall i, j :: 0 <= i < j < |r| ==> r[i] < r[j]
  {
    if children == [] then []
    else
      var last := |children| - 1;
      var earlier := Containing(children[..last], from, upto);
      assert forall i :: 0 <= i < |earlier| ==> earlier[i] in earlier;
      if children[last].Contains(from, upto) then earlier + [last] else earlier
  }

  /** A spanning node strictly below `n` lies under a child that contains the range, and for a real range that child is alone. */
  lemma SpanningChild(n: Node, route: Route, from: nat, upto: nat)
    requires WellFormed(n) && SpansAt(n, route, from, upto) && from != upto && route != []
    ensures Containing(n.children, from, upto) == [route[0]]
  {
    DescendantIsInside(n, route);
    var k, r := route[0], Containing(n.children, from, upto);
    DescendantIsInside(n.children[k], route[1..]);
    assert from < upto && k in r;
    forall j | j in r ensures j == k {
      assert n.children[j].Contains(from, upto);
    }
    assert r[0] in r && r[|r| - 1] in r;
  }

  /** One step of the descent loses no spanning node. */
  lemma DescentStep(root: Node, route: Route, from: nat, upto: nat)
    requires WellFormed(root) && Reaches(root, route) && AllBelow(root, route, from, upto) && from != upto
    requires !NodeAt(root, route).Spans(from, upto)
    ensures var found := Containing(NodeAt(root, route).children, from, upto);
            if |found| == 1 then AllBelow(root, route + found, from, upto)
            else forall r: Route :: !SpansAt(root, r, from, upto)
  {
    hide WellFormed, Containing;
    var n := NodeAt(root, route);
    var found := Containing(n.children, from, upto);
    DescendantIsInside(root, route);
    forall r: Route | SpansAt(root, r, from, upto) ensures |found| == 1 && route + found <= r {
      assert route <= r;
      var tail := r[|route|..];
      assert r == route + tail;
      RouteSplits(root, route, tail);
      assert SpansAt(n, tail, from, upto);
      SpanningChild(n, tail, from, upto);
    }
  }

  /** The node that spans the range exactly: one is found whenever there is one, the outermost, and never another. */
  method FindExact(root: Node, from: nat, upto: nat) returns (found: Option<Node>)
    requires WellFormed(root)
    ensures found.Some? <==> from != upto && exists route: Route :: SpansAt(root, route, from, upto)
    ensures found.Some? ==> exists route: Route :: Outermost(root, route, from, upto) && NodeAt(root, route) == found.value
  {
    hide WellFormed, Containing;
    var current := root;
    ghost var route: Route := [];
    while true
      invariant Reaches(root, route) && NodeAt(root, route) == current && AllBelow(root, route, from, upto)
      decreases current
    {
      if from == upto {
        return None;
      }
      if current.Spans(from, upto) {
        assert Outermost(root, route, from, upto);
        return Some(current);
      }
      DescentStep(root, route, from, upto);
      var containing := Containing(current.children, from, upto);
      if |containing| != 1 {
        return None;
      }
      assert containing[0] in containing && containing == [containing[0]];
      RouteExtends(root, route, containing[0]);
      route := route + containing;
      current := current.children[containing[0]];
    }
  }

  // ----- error nodes -----

  predicate IsError(n: Node) { n.kind == "ERROR" || n.missing }

  predicate HasError(n: Node) {
    IsError(n) || exists i :: 0 <= i < |n.children| && HasError(n.children[i])
  }

  ghost predicate ErrorAt(n: Node, route: Route) {
    Reaches(n, route) && IsError(NodeAt(n, route))
  }

  lemma {:induction false} ErrorIsSeen(n: Node, route: Route)
    requires ErrorAt(n, route)
    ensures HasError(n)
    decreases |route|
  {
    if route != [] {
      ErrorIsSeen(n.children[route[0]], route[1..]);
    }
  }

  lemma {:induction false} SeenErrorExists(n: Node) returns (route: Route)
    requires HasError(n)
    ensures ErrorAt(n, route)
  {
    if IsError(n) {
      return [];
    }
    var i :| 0 <= i < |n.children| && HasError(n.children[i]);
    var below := SeenErrorExists(n.children[i]);
    route := [i] + below;
    assert route[1..] == below;
  }

  /** The check sees an error node wherever in the tree it is. */
  lemma HasErrorIsAnywhere(n: Node)
    ensures HasError(n) <==> exists route: Route :: ErrorAt(n, route)
  {
    if HasError(n) {
      var route := SeenErrorExists(n);
    }
    if route: Route :| ErrorAt(n, route) {
      ErrorIsSeen(n, route);
    }
  }
}

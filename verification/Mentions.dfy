/** The walk that finds every identifier with a given text. */
module Mentions {
  import opened Octets
  import opened SyntaxTree

  predicate Mentions(n: Node, source: Bytes, name: Bytes) {
    IsIdentifier(n.kind) && n.start <= n.end <= |source| && source[n.start..n.end] == name
  }

  /** Starts of the identifiers that read `name`, node before children, left to right. */
  function Occurrences(n: Node, source: Bytes, name: Bytes): seq<nat>
    decreases n
  {
    (if Mentions(n, source, name) then [n.start] else []) + OccurrencesIn(n.children, source, name)
  }

  function OccurrencesIn(forest: seq<Node>, source: Bytes, name: Bytes): seq<nat>
    decreases forest
  {
    if forest == [] then []
    else Occurrences(forest[0], source, name) + OccurrencesIn(forest[1..], source, name)
  }

  function Size(n: Node): (s: nat)
    ensures s > 0
    decreases n
  {
    1 + SizeOf(n.children)
  }

  function SizeOf(forest: seq<Node>): nat
    decreases forest
  {
    if forest == [] then 0 else Size(forest[0]) + SizeOf(forest[1..])
  }

  lemma {:induction false} ForestSplits(a: seq<Node>, b: seq<Node>, source: Bytes, name: Bytes)
    ensures OccurrencesIn(a + b, source, name) == OccurrencesIn(a, source, name) + OccurrencesIn(b, source, name)
    ensures SizeOf(a + b) == SizeOf(a) + SizeOf(b)
    decreases |a|
  {
    if a == [] {
      assert a + b == b;
    } else {
      assert (a + b)[1..] == a[1..] + b;
      ForestSplits(a[1..], b, source, name);
    }
  }

  lemma OneTree(n: Node, source: Bytes, name: Bytes)
    ensures OccurrencesIn([n], source, name) == Occurrences(n, source, name) && SizeOf([n]) == Size(n)
  {
    assert [n][1..] == [];
  }

  /** What popping a node and pushing its children does. */
  lemma PopAndPush(stack: seq<Node>, source: Bytes, name: Bytes)
    requires stack != []
    ensures var (below, n) := (stack[..|stack| - 1], stack[|stack| - 1]);
            && SizeOf(below + n.children) < SizeOf(stack)
            && multiset(OccurrencesIn(stack, source, name))
               == multiset(if Mentions(n, source, name) then [n.start] else []) + multiset(OccurrencesIn(below + n.children, source, name))
  {
    var below, n := stack[..|stack| - 1], stack[|stack| - 1];
    assert stack == below + [n];
    ForestSplits(below, [n], source, name);
    ForestSplits(below, n.children, source, name);
    OneTree(n, source, name);
  }

  // ----- what the walk finds, in order -----

  /** Offsets in increasing order, each with room for `width` bytes before the next and before `upto`. */
  ghost predicate Spaced(offsets: seq<nat>, width: nat, from: nat, upto: nat) {
    && (forall i :: 0 <= i < |offsets| ==> from <= offsets[i] && offsets[i] + width <= upto)
    && (forall i, j :: 0 <= i < j < |offsets| ==> offsets[i] + width <= offsets[j])
  }

  /** Children from some index on, still in order. */
  ghost predicate InOrder(forest: seq<Node>, from: nat, upto: nat) {
    && (forall i :: 0 <= i < |forest| ==> from <= forest[i].start && forest[i].end <= upto && WellFormed(forest[i]))
    && (forall i, j :: 0 <= i < j < |forest| ==> forest[i].end <= forest[j].start)
  }

  lemma SpacedJoins(a: seq<nat>, b: seq<nat>, width: nat, from: nat, mid: nat, upto: nat)
    requires from <= mid <= upto && Spaced(a, width, from, mid) && Spaced(b, width, mid, upto)
    ensures Spaced(a + b, width, from, upto)
  {
  }

  lemma {:induction false} OccurrencesAreSpaced(n: Node, source: Bytes, name: Bytes)
    requires WellFormed(n)
    ensures Spaced(Occurrences(n, source, name), |name|, n.start, n.end)
    decreases n, 1
  {
    if IsIdentifier(n.kind) {
      assert OccurrencesIn(n.children, source, name) == [];
    } else {
      assert Occurrences(n, source, name) == OccurrencesIn(n.children, source, name);
      ForestIsSpaced(n.children, source, name, n.start, n.end);
    }
  }

  lemma {:induction false} ForestIsSpaced(forest: seq<Node>, source: Bytes, name: Bytes, from: nat, upto: nat)
    requires from <= upto && InOrder(forest, from, upto)
    ensures Spaced(OccurrencesIn(forest, source, name), |name|, from, upto)
    decreases forest, 0
  {
    if forest != [] {
      var first := forest[0];
      OccurrencesAreSpaced(first, source, name);
      ForestIsSpaced(forest[1..], source, name, first.end, upto);
      SpacedJoins(Occurrences(first, source, name), OccurrencesIn(forest[1..], source, name), |name|, from, first.end, upto);
    }
  }

  /** `x` is listed exactly when some node of the tree starts there and reads `name`. */
  lemma {:induction false} OccurrencesAreTheMentions(n: Node, source: Bytes, name: Bytes, x: nat)
    ensures x in Occurrences(n, source, name)
            <==> exists route: Route :: MentionAt(n, route, source, name, x)
    decreases n
  {
    if x in Occurrences(n, source, name) {
      if x in OccurrencesIn(n.children, source, name) {
        var k := FromOneTree(n.children, source, name, x);
        OccurrencesAreTheMentions(n.children[k], source, name, x);
        var below: Route :| MentionAt(n.children[k], below, source, name, x);
        assert ([k] + below)[1..] == below;
        assert MentionAt(n, [k] + below, source, name, x);
      } else {
        assert MentionAt(n, [], source, name, x);
      }
    }
    if route: Route :| MentionAt(n, route, source, name, x) {
      if route != [] {
        assert MentionAt(n.children[route[0]], route[1..], source, name, x);
        OccurrencesAreTheMentions(n.children[route[0]], source, name, x);
        TreeInForest(n.children, source, name, route[0]);
      }
    }
  }

  ghost predicate MentionAt(n: Node, route: Route, source: Bytes, name: Bytes, x: nat) {
    Reaches(n, route) && Mentions(NodeAt(n, route), source, name) && NodeAt(n, route).start == x
  }

  lemma {:induction false} FromOneTree(forest: seq<Node>, source: Bytes, name: Bytes, x: nat) returns (k: nat)
    requires x in OccurrencesIn(forest, source, name)
    ensures k < |forest| && x in Occurrences(forest[k], source, name)
    decreases |forest|
  {
    if x in Occurrences(forest[0], source, name) {
      return 0;
    }
    k := FromOneTree(forest[1..], source, name, x);
    k := k + 1;
  }

  lemma {:induction false} TreeInForest(forest: seq<Node>, source: Bytes, name: Bytes, k: nat)
    requires k < |forest|
    ensures forall x :: x in Occurrences(forest[k], source, name) ==> x in OccurrencesIn(forest, source, name)
    decreases |forest|
  {
    if k > 0 {
      TreeInForest(forest[1..], source, name, k - 1);
    }
  }

  // ----- sorting -----

  function Inserted(s: seq<nat>, x: nat): seq<nat> {
    if s == [] || x <= s[0] then [x] + s else [s[0]] + Inserted(s[1..], x)
  }

  /** `sort_unstable`. */
  function SortOffsets(s: seq<nat>): seq<nat> {
    if s == [] then [] else Inserted(SortOffsets(s[1..]), s[0])
  }

  ghost predicate NonDecreasing(s: seq<nat>) {
    forall i, j :: 0 <= i < j < |s| ==> s[i] <= s[j]
  }

  lemma {:induction false} InsertedBag(s: seq<nat>, x: nat)
    ensures multiset(Inserted(s, x)) == multiset(s) + multiset{x}
  {
    if s != [] && x > s[0] {
      InsertedBag(s[1..], x);
      assert s == [s[0]] + s[1..];
    }
  }

  lemma {:induction false} InsertedSorts(s: seq<nat>, x: nat)
    requires NonDecreasing(s)
    ensures NonDecreasing(Inserted(s, x))
  {
    if s != [] && x > s[0] {
      InsertedSorts(s[1..], x);
      InsertedMembers(s[1..], x);
      hide Inserted;
      LeastInFront(s[0], Inserted(s[1..], x));
      assert Inserted(s, x) == [s[0]] + Inserted(s[1..], x) by { InsertedLater(s, x); }
    }
  }

  lemma InsertedLater(s: seq<nat>, x: nat)
    requires s != [] && x > s[0]
    ensures Inserted(s, x) == [s[0]] + Inserted(s[1..], x)
  {
  }

  lemma {:induction false} InsertedMembers(s: seq<nat>, x: nat)
    ensures forall y :: y in Inserted(s, x) ==> y == x || y in s
  {
    if s != [] && x > s[0] {
      InsertedMembers(s[1..], x);
    }
  }

  lemma LeastInFront(x: nat, s: seq<nat>)
    requires NonDecreasing(s) && forall y :: y in s ==> x <= y
    ensures NonDecreasing([x] + s)
  {
    assert forall i :: 0 <= i < |s| ==> s[i] in s;
  }

  lemma {:induction false} SortingSorts(s: seq<nat>)
    ensures NonDecreasing(SortOffsets(s)) && multiset(SortOffsets(s)) == multiset(s)
  {
    if s != [] {
      SortingSorts(s[1..]);
      InsertedSorts(SortOffsets(s[1..]), s[0]);
      InsertedBag(SortOffsets(s[1..]), s[0]);
      assert s == [s[0]] + s[1..];
    }
  }

  function Bag(s: seq<nat>): (b: multiset<nat>)
    ensures forall x :: x in b <==> x in s
  {
    if s == [] then multiset{} else multiset{s[0]} + Bag(s[1..])
  }

  lemma {:induction false} BagIsMultiset(s: seq<nat>)
    ensures Bag(s) == multiset(s)
  {
    if s != [] {
      BagIsMultiset(s[1..]);
      assert s == [s[0]] + s[1..];
    }
  }

  lemma HeadIsLeast(a: seq<nat>, b: seq<nat>)
    requires NonDecreasing(a) && Bag(a) == Bag(b)
    ensures |b| > 0 ==> |a| > 0 && a[0] <= b[0]
  {
    if b != [] {
      assert b[0] in Bag(b);
    }
  }

  lemma TailsAgree(a: seq<nat>, b: seq<nat>)
    requires a != [] && b != [] && a[0] == b[0] && Bag(a) == Bag(b)
    ensures Bag(a[1..]) == Bag(b[1..])
  {
    assert Bag(a[1..]) == Bag(a) - multiset{a[0]};
    assert Bag(b[1..]) == Bag(b) - multiset{b[0]};
  }

  lemma TailIsNonDecreasing(a: seq<nat>)
    requires a != [] && NonDecreasing(a)
    ensures NonDecreasing(a[1..])
  {
  }

  lemma {:induction false} SameBagSameOrder(a: seq<nat>, b: seq<nat>)
    requires NonDecreasing(a) && NonDecreasing(b) && Bag(a) == Bag(b)
    ensures a == b
    decreases |a|
  {
    hide Bag, NonDecreasing;
    HeadIsLeast(a, b);
    HeadIsLeast(b, a);
    if a != [] {
      TailsAgree(a, b);
      TailIsNonDecreasing(a);
      TailIsNonDecreasing(b);
      SameBagSameOrder(a[1..], b[1..]);
      assert a == [a[0]] + a[1..] && b == [b[0]] + b[1..];
    }
  }

  /** Every identifier that reads `name`, in byte order, whatever order the stack visits them in. */
  method FindOccurrences(root: Node, source: Bytes, name: Bytes) returns (offsets: seq<nat>)
    requires WellFormed(root)
    ensures offsets == Occurrences(root, source, name)
  {
    hide Mentions, WellFormed;
    offsets := [];
    var stack := [root];
    OneTree(root, source, name);
    while stack != []
      invariant multiset(offsets) + multiset(OccurrencesIn(stack, source, name)) == multiset(Occurrences(root, source, name))
      decreases SizeOf(stack)
    {
      PopAndPush(stack, source, name);
      var n := stack[|stack| - 1];
      stack := stack[..|stack| - 1];
      if Mentions(n, source, name) {
        offsets := offsets + [n.start];
      }
      stack := stack + n.children;
    }
    SortingSorts(offsets);
    OccurrencesAreSpaced(root, source, name);
    BagIsMultiset(SortOffsets(offsets));
    BagIsMultiset(Occurrences(root, source, name));
    SameBagSameOrder(SortOffsets(offsets), Occurrences(root, source, name));
    offsets := SortOffsets(offsets);
  }
}

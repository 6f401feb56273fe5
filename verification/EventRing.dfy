/**
 One subscription's bounded, drop-oldest ring and its loss accounting.

 `Offered`, `Popped` and `Drained` say what the slot's critical sections do to
 its state; `Tiles` is the independent reading of the gap counts against the
 log of everything that was offered. The class `Slot` runs the code's own
 steps on mutable fields and is proved against both.
 */
module EventRing {

  type Topic = nat

  datatype Event = Event(topic: Topic, payload: nat)

  /** A published event together with the sequence number the bus gave it. */
  datatype Stamp = Stamp(number: nat, event: Event)

  datatype Delivery = Delivery(number: nat, event: Event, missedBefore: nat) {
    function AsStamp(): Stamp { Stamp(number, event) }
  }

  datatype Ring = Ring(items: seq<Delivery>, pending: nat, total: nat)

  datatype RecvError = Empty | Timeout | Closed

  datatype Received = Got(delivery: Delivery) | Failed(error: RecvError)

  const EMPTY_RING: Ring := Ring([], 0, 0)

  /** Events a run of deliveries stands for: each one and the gap before it. */
  function Width(ds: seq<Delivery>): nat {
    if ds == [] then 0 else Width(ds[..|ds| - 1]) + ds[|ds| - 1].missedBefore + 1
  }

  function MissedSum(ds: seq<Delivery>): nat {
    if ds == [] then 0 else MissedSum(ds[..|ds| - 1]) + ds[|ds| - 1].missedBefore
  }

  /** How many deliveries a full ring discards before the next push. */
  function Evicted(held: nat, capacity: nat): (n: nat)
    requires capacity > 0
    ensures n <= held && held - n < capacity
    ensures n > 0 ==> held - n == capacity - 1
  {
    if held < capacity then 0 else held - capacity + 1
  }

  /** The front delivery also reports a gap of `loss` more events. */
  function Carry(items: seq<Delivery>, loss: nat): seq<Delivery>
    requires items != []
  {
    items[0 := items[0].(missedBefore := items[0].missedBefore + loss)]
  }

  /** What one offer does; `acquired` says whether `try_lock` took the queue. */
  function Offered(r: Ring, capacity: nat, acquired: bool, stamp: Stamp): Ring {
    if !acquired || capacity == 0 then
      r.(pending := r.pending + 1, total := r.total + 1)
    else
      var n := Evicted(|r.items|, capacity);
      var loss := Width(r.items[..n]);
      var kept := r.items[n..];
      if kept == [] then
        Ring([Delivery(stamp.number, stamp.event, r.pending + loss)], 0, r.total + n)
      else
        Ring(Carry(kept, loss) + [Delivery(stamp.number, stamp.event, r.pending)], 0, r.total + n)
  }

  /** What handing out the oldest delivery does. */
  function Popped(r: Ring): Ring
    requires r.items != []
  {
    r.(items := r.items[1..])
  }

  // ----- what the gap counts mean -----

  /**
   Read from the newest end: the last `tail` events of the log were lost, the
   one before them is the newest delivery, and its `missedBefore` is the tail
   of the log in front of it, and so on down to an empty run.
   */
  ghost predicate Tiles(log: seq<Stamp>, ds: seq<Delivery>, tail: nat)
    decreases |ds|
  {
    if ds == [] then |log| == tail
    else
      var at := |log| - tail - 1;
      && at >= 0
      && log[at] == ds[|ds| - 1].AsStamp()
      && Tiles(log[..at], ds[..|ds| - 1], ds[|ds| - 1].missedBefore)
  }

  /** Positions in the log, one per delivery, with every gap count spelled out. */
  ghost predicate GapsExact(log: seq<Stamp>, ds: seq<Delivery>, tail: nat, at: seq<nat>) {
    && |at| == |ds|
    && (forall j :: 0 <= j < |at| ==> at[j] < |log| && log[at[j]] == ds[j].AsStamp())
    && (forall i, j :: 0 <= i < j < |at| ==> at[i] < at[j])
    && (forall j :: 0 < j < |at| ==> ds[j].missedBefore == at[j] - at[j - 1] - 1)
    && (at != [] ==> ds[0].missedBefore == at[0])
    && tail == (if at == [] then |log| else |log| - at[|at| - 1] - 1)
  }

  ghost predicate Increasing(log: seq<Stamp>) {
    forall i, j :: 0 <= i < j < |log| ==> log[i].number < log[j].number
  }

  /** Everything a slot must satisfy, given what was offered and handed out. */
  ghost predicate Accounts(log: seq<Stamp>, handed: seq<Delivery>, r: Ring, capacity: nat) {
    && Tiles(log, handed + r.items, r.pending)
    && |log| == |handed| + |r.items| + r.total
    && |r.items| <= capacity
  }

  /** Never contended: nothing is lost behind the ring or inside it. */
  ghost predicate Gapless(r: Ring, capacity: nat) {
    capacity > 0 ==> r.pending == 0 && forall j :: 0 < j < |r.items| ==> r.items[j].missedBefore == 0
  }

  lemma {:induction false} TilesGiveExactGaps(log: seq<Stamp>, ds: seq<Delivery>, tail: nat) returns (at: seq<nat>)
    requires Tiles(log, ds, tail)
    ensures GapsExact(log, ds, tail, at)
    decreases |ds|
  {
    if ds == [] {
      at := [];
    } else {
      var last := |log| - tail - 1;
      var before := TilesGiveExactGaps(log[..last], ds[..|ds| - 1], ds[|ds| - 1].missedBefore);
      hide Tiles;
      NewestGap(log, ds, tail, before);
      at := before + [last];
    }
  }

  lemma NewestGap(log: seq<Stamp>, ds: seq<Delivery>, tail: nat, before: seq<nat>)
    requires ds != [] && tail < |log| && log[|log| - tail - 1] == ds[|ds| - 1].AsStamp()
    requires GapsExact(log[..|log| - tail - 1], ds[..|ds| - 1], ds[|ds| - 1].missedBefore, before)
    ensures GapsExact(log, ds, tail, before + [|log| - tail - 1])
  {
    var (last, at) := (|log| - tail - 1, before + [|log| - tail - 1]);
    forall j | 0 <= j < |at| ensures at[j] < |log| && log[at[j]] == ds[j].AsStamp() {
      assert j < |before| ==> ds[..|ds| - 1][j] == ds[j] && log[..last][at[j]] == log[at[j]];
    }
    NewestGapWidth(log, ds, tail, before);
  }

  lemma NewestGapWidth(log: seq<Stamp>, ds: seq<Delivery>, tail: nat, before: seq<nat>)
    requires ds != [] && tail < |log|
    requires GapsExact(log[..|log| - tail - 1], ds[..|ds| - 1], ds[|ds| - 1].missedBefore, before)
    ensures var at := before + [|log| - tail - 1];
            && (forall i, j :: 0 <= i < j < |at| ==> at[i] < at[j])
            && (forall j :: 0 < j < |at| ==> ds[j].missedBefore == at[j] - at[j - 1] - 1)
            && ds[0].missedBefore == at[0]
  {
    var at := before + [|log| - tail - 1];
    forall j | 0 < j < |at| ensures ds[j].missedBefore == at[j] - at[j - 1] - 1 {
      assert j < |before| ==> ds[..|ds| - 1][j] == ds[j] && at[j] == before[j] && at[j - 1] == before[j - 1];
    }
  }

  lemma {:induction false} ExactGapsGiveTiles(log: seq<Stamp>, ds: seq<Delivery>, tail: nat, at: seq<nat>)
    requires GapsExact(log, ds, tail, at)
    ensures Tiles(log, ds, tail)
    decreases |ds|
  {
    if ds != [] {
      var n := |ds| - 1;
      ExactGapsGiveTiles(log[..at[n]], ds[..n], ds[n].missedBefore, at[..n]);
    }
  }

  // ----- the counts agree -----

  lemma {:induction false} WidthSplits(a: seq<Delivery>, b: seq<Delivery>)
    ensures Width(a + b) == Width(a) + Width(b)
    ensures MissedSum(a + b) == MissedSum(a) + MissedSum(b)
  {
    if b == [] {
      assert a + b == a;
    } else {
      assert (a + b)[..|a + b| - 1] == a + b[..|b| - 1];
      WidthSplits(a, b[..|b| - 1]);
    }
  }

  lemma {:induction false} WidthCounts(ds: seq<Delivery>)
    ensures Width(ds) == MissedSum(ds) + |ds|
  {
    if ds != [] {
      WidthCounts(ds[..|ds| - 1]);
    }
  }

  lemma {:induction false} TilesCover(log: seq<Stamp>, ds: seq<Delivery>, tail: nat)
    requires Tiles(log, ds, tail)
    ensures Width(ds) + tail == |log|
    decreases |ds|
  {
    if ds != [] {
      TilesCover(log[..|log| - tail - 1], ds[..|ds| - 1], ds[|ds| - 1].missedBefore);
    }
  }

  /** The two ways of asking about loss agree: gaps received, buffered and pending add up to the total. */
  lemma GapsAddUpToTotal(log: seq<Stamp>, handed: seq<Delivery>, r: Ring, capacity: nat)
    requires Accounts(log, handed, r, capacity)
    ensures MissedSum(handed) + MissedSum(r.items) + r.pending == r.total
  {
    TilesCover(log, handed + r.items, r.pending);
    WidthCounts(handed + r.items);
    WidthSplits(handed, r.items);
  }

  /** Deliveries come out in strictly increasing sequence order, each one an offered event. */
  lemma DeliveriesIncrease(log: seq<Stamp>, handed: seq<Delivery>, r: Ring, capacity: nat)
    requires Accounts(log, handed, r, capacity) && Increasing(log)
    ensures var ds := handed + r.items;
            && (forall j :: 0 <= j < |ds| ==> ds[j].AsStamp() in log)
            && (forall i, j :: 0 <= i < j < |ds| ==> ds[i].number < ds[j].number)
  {
    var ds := handed + r.items;
    var at := TilesGiveExactGaps(log, ds, r.pending);
    forall i, j | 0 <= i < j < |ds| ensures ds[i].number < ds[j].number {
      assert log[at[i]].number < log[at[j]].number;
    }
  }

  /** With no contended offer, the ring is exactly the newest stretch of the log. */
  lemma GaplessRingIsSuffix(log: seq<Stamp>, handed: seq<Delivery>, r: Ring, capacity: nat)
    requires Accounts(log, handed, r, capacity) && Gapless(r, capacity)
    ensures forall j :: 0 <= j < |r.items| ==> r.items[j].AsStamp() == log[|log| - |r.items| + j]
  {
    if capacity > 0 {
      var ds := handed + r.items;
      var at := TilesGiveExactGaps(log, ds, r.pending);
      assert forall j :: |handed| < j < |ds| ==> ds[j] == r.items[j - |handed|];
      SuffixPositions(log, ds, at, |handed|);
      assert forall j :: 0 <= j < |r.items| ==> r.items[j] == ds[|handed| + j];
    }
  }

  lemma {:induction false} SuffixPositions(log: seq<Stamp>, ds: seq<Delivery>, at: seq<nat>, from: nat)
    requires GapsExact(log, ds, 0, at) && from <= |ds|
    requires forall j :: from < j < |ds| ==> ds[j].missedBefore == 0
    ensures forall j :: from <= j < |ds| ==> at[j] == |log| - |ds| + j
    decreases |ds| - from
  {
    if from < |ds| {
      assert from + 1 < |ds| ==> ds[from + 1].missedBefore == at[from + 1] - at[from + 1 - 1] - 1;
      SuffixPositions(log, ds, at, from + 1);
    }
  }

  // ----- each critical section keeps the accounts -----

  lemma LosingExtends(log: seq<Stamp>, extra: seq<Stamp>, ds: seq<Delivery>, tail: nat)
    requires Tiles(log, ds, tail)
    ensures Tiles(log + extra, ds, tail + |extra|)
  {
    if ds != [] {
      var at := |log| - tail - 1;
      assert (log + extra)[..at] == log[..at];
    }
  }

  /** Forgetting the deliveries `x` at the newest end turns all they stood for into loss. */
  lemma {:induction false} Absorb(log: seq<Stamp>, a: seq<Delivery>, x: seq<Delivery>, tail: nat)
    requires Tiles(log, a + x, tail)
    ensures Tiles(log, a, tail + Width(x))
    decreases |x|
  {
    if x == [] {
      assert a + x == a;
    } else {
      var at := |log| - tail - 1;
      var n := |x| - 1;
      assert (a + x)[..|a + x| - 1] == a + x[..n];
      Absorb(log[..at], a, x[..n], x[n].missedBefore);
      LosingExtends(log[..at], log[at..], a, x[n].missedBefore + Width(x[..n]));
      assert log[..at] + log[at..] == log;
    }
  }

  /** Evicting `x` from between `a` and `k` is exact when the front of `k` carries the loss. */
  lemma {:induction false} EvictionCarries(log: seq<Stamp>, a: seq<Delivery>, x: seq<Delivery>, k: seq<Delivery>, tail: nat)
    requires Tiles(log, a + x + k, tail) && k != []
    ensures Tiles(log, a + Carry(k, Width(x)), tail)
    decreases |k|
  {
    var at := |log| - tail - 1;
    var n := |k| - 1;
    var k' := Carry(k, Width(x));
    assert (a + x + k)[..|a + x + k| - 1] == a + x + k[..n];
    assert (a + k')[..|a + k'| - 1] == a + k'[..n];
    if n == 0 {
      assert a + x + k[..n] == a + x;
      assert a + k'[..n] == a;
      Absorb(log[..at], a, x, k[0].missedBefore);
    } else {
      EvictionCarries(log[..at], a, x, k[..n], k[n].missedBefore);
      assert k'[..n] == Carry(k[..n], Width(x));
    }
  }

  /** A pushed delivery that carries the pending count leaves nothing pending. */
  lemma PushingTiles(log: seq<Stamp>, ds: seq<Delivery>, tail: nat, stamp: Stamp)
    requires Tiles(log, ds, tail)
    ensures Tiles(log + [stamp], ds + [Delivery(stamp.number, stamp.event, tail)], 0)
  {
    var ds' := ds + [Delivery(stamp.number, stamp.event, tail)];
    assert ds'[..|ds|] == ds;
    assert (log + [stamp])[..|log|] == log;
  }

  /** The deliveries an uncontended offer leaves behind, before and after the push. */
  lemma EvictingTiles(log: seq<Stamp>, handed: seq<Delivery>, items: seq<Delivery>, tail: nat, n: nat)
    requires Tiles(log, handed + items, tail) && n <= |items|
    ensures if items[n..] == [] then Tiles(log, handed, tail + Width(items[..n]))
            else Tiles(log, handed + Carry(items[n..], Width(items[..n])), tail)
  {
    hide Tiles, Width;
    var x, k := items[..n], items[n..];
    assert handed + items == handed + x + k;
    if k == [] {
      assert handed + x + k == handed + x;
      Absorb(log, handed, x, tail);
    } else {
      EvictionCarries(log, handed, x, k, tail);
    }
  }

  /** An offer, contended or not, keeps every gap count exact for the longer log. */
  lemma OfferKeepsAccounts(log: seq<Stamp>, handed: seq<Delivery>, r: Ring, capacity: nat, acquired: bool, stamp: Stamp)
    requires Accounts(log, handed, r, capacity)
    ensures Accounts(log + [stamp], handed, Offered(r, capacity, acquired, stamp), capacity)
  {
    hide Tiles, Width;
    if !acquired || capacity == 0 {
      LosingExtends(log, [stamp], handed + r.items, r.pending);
    } else {
      var n := Evicted(|r.items|, capacity);
      var loss, kept := Width(r.items[..n]), r.items[n..];
      EvictingTiles(log, handed, r.items, r.pending, n);
      if kept == [] {
        PushingTiles(log, handed, r.pending + loss, stamp);
      } else {
        var last := Delivery(stamp.number, stamp.event, r.pending);
        PushingTiles(log, handed + Carry(kept, loss), r.pending, stamp);
        assert handed + Carry(kept, loss) + [last] == handed + (Carry(kept, loss) + [last]);
      }
    }
  }

  lemma PopKeepsAccounts(log: seq<Stamp>, handed: seq<Delivery>, r: Ring, capacity: nat)
    requires Accounts(log, handed, r, capacity) && r.items != []
    ensures Accounts(log, handed + [r.items[0]], Popped(r), capacity)
  {
    assert handed + r.items == handed + [r.items[0]] + r.items[1..];
  }

  lemma DrainKeepsAccounts(log: seq<Stamp>, handed: seq<Delivery>, r: Ring, capacity: nat)
    requires Accounts(log, handed, r, capacity)
    ensures Accounts(log, handed + r.items, r.(items := []), capacity)
  {
    assert handed + r.items == handed + r.items + [];
  }

  /** An uncontended offer leaves no gap inside the ring; popping and draining make none. */
  lemma OfferKeepsGapless(r: Ring, capacity: nat, stamp: Stamp)
    requires Gapless(r, capacity) && |r.items| <= capacity
    ensures Gapless(Offered(r, capacity, true, stamp), capacity)
  {
  }

  // ----- what an offer leaves in the ring -----

  function Least(a: nat, b: nat): nat { if a <= b then a else b }

  /** The new event is the newest buffered, as many of the older ones as fit stand before it in order, and no loss is left unreported. */
  ghost predicate BuffersNewest(before: Ring, capacity: nat, stamp: Stamp, after: Ring) {
    && |after.items| == Least(|before.items| + 1, capacity) > 0
    && after.items[|after.items| - 1].AsStamp() == stamp
    && after.pending == 0
    && forall j :: 0 <= j < |after.items| - 1 ==>
         after.items[j].AsStamp() == before.items[|before.items| - (|after.items| - 1) + j].AsStamp()
  }

  /** Nothing buffered moves, and one more loss waits to be reported. */
  ghost predicate CountsOneLoss(before: Ring, after: Ring) {
    after.items == before.items && after.pending == before.pending + 1 && after.total == before.total + 1
  }

  /** An offer that gets the lock of a ring with room for anything buffers the event; any other is one counted loss. */
  lemma OfferBuffersOrCounts(r: Ring, capacity: nat, acquired: bool, stamp: Stamp)
    requires |r.items| <= capacity
    ensures if acquired && capacity > 0 then BuffersNewest(r, capacity, stamp, Offered(r, capacity, acquired, stamp))
            else CountsOneLoss(r, Offered(r, capacity, acquired, stamp))
  {
    hide Width;
  }

  // ----- the slot itself -----

  class Slot {
    const topics: set<Topic>
    const capacity: nat
    var ring: seq<Delivery>
    var closed: bool
    var pendingMissed: nat
    var missedTotal: nat
    /** Everything offered, and everything handed out, since the subscription began. */
    ghost var log: seq<Stamp>
    ghost var handed: seq<Delivery>

    ghost function State(): Ring reads this { Ring(ring, pendingMissed, missedTotal) }

    ghost predicate Valid() reads this {
      Accounts(log, handed, State(), capacity) && Increasing(log)
    }

    constructor (topics: set<Topic>, capacity: nat)
      ensures Valid() && this.topics == topics && this.capacity == capacity
      ensures State() == EMPTY_RING && !closed && log == [] && handed == []
    {
      this.topics, this.capacity := topics, capacity;
      ring, closed, pendingMissed, missedTotal := [], false, 0, 0;
      log, handed := [], [];
    }

    /** Never waits: a lock that `try_lock` cannot take costs one counted loss. */
    method Offer(acquired: bool, number: nat, event: Event)
      requires Valid() && (log != [] ==> log[|log| - 1].number < number)
      modifies this
      ensures Valid() && log == old(log) + [Stamp(number, event)]
      ensures State() == Offered(old(State()), capacity, acquired, Stamp(number, event))
      ensures if acquired && capacity > 0 then BuffersNewest(old(State()), capacity, Stamp(number, event), State())
              else CountsOneLoss(old(State()), State())
      ensures handed == old(handed) && closed == old(closed)
    {
      hide Tiles, Width;
      OfferBuffersOrCounts(State(), capacity, acquired, Stamp(number, event));
      ghost var after := Offered(State(), capacity, acquired, Stamp(number, event));
      OfferKeepsAccounts(log, handed, State(), capacity, acquired, Stamp(number, event));
      if acquired && capacity > 0 {
        PushEvicting(number, event);
      } else {
        pendingMissed, missedTotal := pendingMissed + 1, missedTotal + 1;
      }
      log := log + [Stamp(number, event)];
      assert State() == after;
      assert Accounts(log, handed, after, capacity);
    }

    /** The critical section proper: make room at the old end, then push. */
    method PushEvicting(number: nat, event: Event)
      requires capacity > 0
      modifies this`ring, this`pendingMissed, this`missedTotal
      ensures State() == Offered(old(State()), capacity, true, Stamp(number, event))
    {
      ghost var was := ring;
      var loss := 0;
      ghost var n := 0;
      while |ring| >= capacity
        modifies this`ring, this`missedTotal
        invariant n <= |was| && ring == was[n..]
        invariant n > 0 ==> |ring| >= capacity - 1
        invariant loss == Width(was[..n]) && missedTotal == old(missedTotal) + n
      {
        var dropped := ring[0];
        assert was[..n + 1][..n] == was[..n];
        ring := ring[1..];
        loss := loss + (dropped.missedBefore + 1);
        missedTotal := missedTotal + 1;
        n := n + 1;
      }
      assert n == Evicted(|was|, capacity);
      if loss > 0 {
        if ring != [] {
          ring := ring[0 := ring[0].(missedBefore := ring[0].missedBefore + loss)];
        } else {
          pendingMissed := pendingMissed + loss;
        }
      }
      assert was[n..] != [] ==> ring == Carry(was[n..], loss);
      var missedBefore := pendingMissed;
      pendingMissed := 0;
      ring := ring + [Delivery(number, event, missedBefore)];
    }

    method TryRecv() returns (r: Received)
      requires Valid()
      modifies this`ring, this`handed
      ensures Valid()
      ensures old(ring) != [] ==> r == Got(old(ring)[0]) && ring == old(ring)[1..] && handed == old(handed) + [old(ring)[0]]
      ensures old(ring) == [] ==>
                r == Failed(if closed then RecvError.Closed else Empty) && ring == [] && handed == old(handed)
    {
      if ring != [] {
        PopKeepsAccounts(log, handed, State(), capacity);
        r := Got(ring[0]);
        handed := handed + [ring[0]];
        ring := ring[1..];
      } else if closed {
        r := Failed(RecvError.Closed);
      } else {
        r := Failed(Empty);
      }
    }

    /**
     The part of a timed receive after the wait. The wait ends when its predicate
     turns false or the deadline passes, so `Empty` is never the answer.
     */
    method RecvTimeout(timedOut: bool) returns (r: Received)
      requires Valid() && (timedOut || ring != [] || closed)
      modifies this`ring, this`handed
      ensures Valid()
      ensures old(ring) != [] ==> r == Got(old(ring)[0]) && ring == old(ring)[1..] && handed == old(handed) + [old(ring)[0]]
      ensures old(ring) == [] ==> r == Failed(if closed then RecvError.Closed else Timeout)
      ensures old(ring) == [] ==> ring == [] && handed == old(handed)
    {
      if ring != [] {
        PopKeepsAccounts(log, handed, State(), capacity);
        r := Got(ring[0]);
        handed := handed + [ring[0]];
        ring := ring[1..];
        return;
      }
      if closed {
        return Failed(RecvError.Closed);
      }
      if timedOut {
        return Failed(Timeout);
      }
      r := Failed(Empty);
    }

    method Drain() returns (out: seq<Delivery>)
      requires Valid()
      modifies this`ring, this`handed
      ensures Valid() && out == old(ring) && ring == [] && handed == old(handed) + out
    {
      DrainKeepsAccounts(log, handed, State(), capacity);
      out := ring;
      handed := handed + ring;
      ring := [];
    }

    method Close()
      modifies this`closed
      ensures closed
    {
      closed := true;
    }
  }
}

/**
 The bus as a step system: one publisher at a time behind the registry lock,
 any number of consumers each behind its own queue lock, and every interleaving
 of their steps. A consumer may sit inside its critical section for as long as
 it likes, or die there and leave the lock poisoned.
 */
module EventRuns {
  import opened EventRing

  datatype Subscriber = Subscriber(
    topics: set<Topic>,
    capacity: nat,
    birth: nat,
    upTo: nat,
    ring: Ring,
    closed: bool,
    live: bool,
    held: bool,
    poisoned: bool,
    contended: bool,
    log: seq<Stamp>,
    handed: seq<Delivery>)

  /** Who holds the registry lock, and how far along the registry it is. */
  datatype Flight = Idle | Publishing(stamp: Stamp, cursor: nat) | Closing(cursor: nat) | Gone

  datatype BusState = BusState(published: seq<Event>, subs: seq<Subscriber>, registry: seq<nat>, flight: Flight)

  datatype Step =
    | Subscribe(topics: set<Topic>, capacity: nat)
    | PublishBegin(event: Event)
    | Visit
    | PublishEnd
    | CloseBegin
    | CloseNext
    | CloseEnd
    | Lock(who: nat)
    | Receive(who: nat)
    | TakeAll(who: nat)
    | Unlock(who: nat)
    | Panic(who: nat)
    | Unsubscribe(who: nat)

  const START: BusState := BusState([], [], [], Idle)

  predicate Enabled(s: BusState, step: Step) {
    match step
    case Subscribe(_, _) => s.flight.Idle?
    case PublishBegin(_) => s.flight.Idle?
    case Visit => s.flight.Publishing? && s.flight.cursor < |s.registry|
    case PublishEnd => s.flight.Publishing? && s.flight.cursor >= |s.registry|
    case CloseBegin => s.flight.Idle?
    case CloseNext =>
      && s.flight.Closing? && s.flight.cursor < |s.registry|
      && var id := s.registry[s.flight.cursor];
      id < |s.subs| && (s.subs[id].live ==> !s.subs[id].held)
    case CloseEnd => s.flight.Closing? && s.flight.cursor >= |s.registry|
    case Lock(who) => who < |s.subs| && s.subs[who].live && !s.subs[who].held
    case Receive(who) => who < |s.subs| && s.subs[who].held
    case TakeAll(who) => who < |s.subs| && s.subs[who].held
    case Unlock(who) => who < |s.subs| && s.subs[who].held
    case Panic(who) => who < |s.subs| && s.subs[who].held
    case Unsubscribe(who) => who < |s.subs| && s.subs[who].live && !s.subs[who].held
  }

  /** One subscription at the publisher's turn; a held or poisoned lock is not taken. */
  function Serve(sub: Subscriber, stamp: Stamp): Subscriber {
    if stamp.event.topic !in sub.topics then sub.(upTo := stamp.number + 1)
    else
      var acquired := !sub.held && !sub.poisoned;
      sub.(upTo := stamp.number + 1,
           ring := Offered(sub.ring, sub.capacity, acquired, stamp),
           log := sub.log + [stamp],
           contended := sub.contended || !acquired)
  }

  function LiveIds(registry: seq<nat>, subs: seq<Subscriber>): seq<nat> {
    if registry == [] then []
    else
      var id := registry[|registry| - 1];
      LiveIds(registry[..|registry| - 1], subs) + (if id < |subs| && subs[id].live then [id] else [])
  }

  function Newcomer(topics: set<Topic>, capacity: nat, birth: nat): Subscriber {
    Subscriber(topics, capacity, birth, birth, EMPTY_RING, false, true, false, false, false, [], [])
  }

  function HandOne(sub: Subscriber): Subscriber {
    if sub.ring.items == [] then sub
    else sub.(ring := Popped(sub.ring), handed := sub.handed + [sub.ring.items[0]])
  }

  function HandAll(sub: Subscriber): Subscriber {
    sub.(ring := sub.ring.(items := []), handed := sub.handed + sub.ring.items)
  }

  function Apply(s: BusState, step: Step): BusState
    requires Enabled(s, step)
  {
    match step
    case Subscribe(topics, capacity) =>
      s.(subs := s.subs + [Newcomer(topics, capacity, |s.published|)],
         registry := LiveIds(s.registry, s.subs) + [|s.subs|])
    case PublishBegin(event) =>
      s.(published := s.published + [event], flight := Publishing(Stamp(|s.published|, event), 0))
    case Visit =>
      var c := s.flight.cursor;
      var id := s.registry[c];
      if id < |s.subs| && s.subs[id].live then
        s.(subs := s.subs[id := Serve(s.subs[id], s.flight.stamp)], flight := Publishing(s.flight.stamp, c + 1))
      else
        s.(registry := s.registry[..c] + s.registry[c + 1..])
    case PublishEnd => s.(flight := Idle)
    case CloseBegin => s.(flight := Closing(0))
    case CloseNext =>
      var id := s.registry[s.flight.cursor];
      s.(subs := if s.subs[id].live then s.subs[id := s.subs[id].(closed := true)] else s.subs,
         flight := Closing(s.flight.cursor + 1))
    case CloseEnd => s.(flight := Gone)
    case Lock(who) => s.(subs := s.subs[who := s.subs[who].(held := true)])
    case Receive(who) => s.(subs := s.subs[who := HandOne(s.subs[who])])
    case TakeAll(who) => s.(subs := s.subs[who := HandAll(s.subs[who])])
    case Unlock(who) => s.(subs := s.subs[who := s.subs[who].(held := false)])
    case Panic(who) => s.(subs := s.subs[who := s.subs[who].(held := false, poisoned := true)])
    case Unsubscribe(who) => s.(subs := s.subs[who := s.subs[who].(live := false)])
  }

  /** Some interleaving `steps` leads from `s` to `t`. */
  ghost predicate Run(s: BusState, steps: seq<Step>, t: BusState)
    decreases |steps|
  {
    if steps == [] then s == t
    else Enabled(s, steps[0]) && Run(Apply(s, steps[0]), steps[1..], t)
  }

  // ----- the invariant -----

  /** The matching events published from `lo` up to `hi`, stamped. */
  function Matching(published: seq<Event>, topics: set<Topic>, lo: nat, hi: nat): seq<Stamp>
    requires hi <= |published|
    decreases hi
  {
    if hi <= lo then []
    else Matching(published, topics, lo, hi - 1)
         + (if published[hi - 1].topic in topics then [Stamp(hi - 1, published[hi - 1])] else [])
  }

  /** Whether the publish in flight has still to reach this subscription. */
  ghost predicate Awaits(s: BusState, id: nat) {
    s.flight.Publishing? && exists j :: s.flight.cursor <= j < |s.registry| && s.registry[j] == id
  }

  /** How much of the published sequence a live subscription has been offered. */
  ghost function Horizon(s: BusState, id: nat): nat {
    if Awaits(s, id) && |s.published| > 0 then |s.published| - 1 else |s.published|
  }

  /** `birth` and `upTo` bound the stretch of published events this log was filtered from. */
  ghost predicate SubscriberOk(sub: Subscriber, published: seq<Event>) {
    && sub.birth <= sub.upTo <= |published|
    && sub.log == Matching(published, sub.topics, sub.birth, sub.upTo)
    && Accounts(sub.log, sub.handed, sub.ring, sub.capacity)
    && (!sub.contended ==> Gapless(sub.ring, sub.capacity))
  }

  ghost predicate RegistryOk(s: BusState) {
    && (forall j :: 0 <= j < |s.registry| ==> s.registry[j] < |s.subs|)
    && (forall i, j :: 0 <= i < j < |s.registry| ==> s.registry[i] != s.registry[j])
    && (forall id :: 0 <= id < |s.subs| && s.subs[id].live ==> id in s.registry)
  }

  ghost predicate FlightOk(s: BusState)
    requires RegistryOk(s)
  {
    match s.flight
    case Publishing(stamp, cursor) =>
      && cursor <= |s.registry|
      && |s.published| > 0
      && stamp == Stamp(|s.published| - 1, s.published[|s.published| - 1])
    case Closing(cursor) =>
      && cursor <= |s.registry|
      && forall j :: 0 <= j < cursor && s.subs[s.registry[j]].live ==> s.subs[s.registry[j]].closed
    case Gone => forall id :: 0 <= id < |s.subs| && s.subs[id].live ==> s.subs[id].closed
    case Idle => true
  }

  ghost predicate Inv(s: BusState) {
    && RegistryOk(s)
    && FlightOk(s)
    && (forall id :: 0 <= id < |s.subs| ==> SubscriberOk(s.subs[id], s.published))
    && (forall id :: 0 <= id < |s.subs| && s.subs[id].live ==> s.subs[id].upTo == Horizon(s, id))
  }

  // ----- facts about the log of matching events -----

  lemma {:induction false} MatchingGrows(published: seq<Event>, event: Event, topics: set<Topic>, lo: nat, hi: nat)
    requires hi <= |published|
    ensures Matching(published + [event], topics, lo, hi) == Matching(published, topics, lo, hi)
    decreases hi
  {
    if hi > lo {
      MatchingGrows(published, event, topics, lo, hi - 1);
    }
  }

  ghost predicate FilterOf(log: seq<Stamp>, published: seq<Event>, topics: set<Topic>, lo: nat, hi: nat)
    requires hi <= |published|
  {
    && (forall j :: 0 <= j < |log| ==> lo <= log[j].number < hi && published[log[j].number] == log[j].event)
    && (forall j :: 0 <= j < |log| ==> log[j].event.topic in topics)
    && (forall n :: lo <= n < hi && published[n].topic in topics ==> Stamp(n, published[n]) in log)
    && Increasing(log)
  }

  /** The log holds the matching events of its stretch, all of them, in order, and nothing else. */
  lemma {:induction false} MatchingIsTheFilter(published: seq<Event>, topics: set<Topic>, lo: nat, hi: nat)
    requires hi <= |published|
    ensures FilterOf(Matching(published, topics, lo, hi), published, topics, lo, hi)
    decreases hi
  {
    if hi > lo {
      MatchingIsTheFilter(published, topics, lo, hi - 1);
      FilterStep(Matching(published, topics, lo, hi - 1), published, topics, lo, hi);
    }
  }

  lemma FilterStep(front: seq<Stamp>, published: seq<Event>, topics: set<Topic>, lo: nat, hi: nat)
    requires lo < hi <= |published| && FilterOf(front, published, topics, lo, hi - 1)
    ensures FilterOf(front + (if published[hi - 1].topic in topics then [Stamp(hi - 1, published[hi - 1])] else []),
                     published, topics, lo, hi)
  {
  }

  // ----- each step keeps the invariant -----

  lemma SubscriberSurvivesPublish(sub: Subscriber, published: seq<Event>, event: Event)
    requires SubscriberOk(sub, published)
    ensures SubscriberOk(sub, published + [event])
  {
    MatchingGrows(published, event, sub.topics, sub.birth, sub.upTo);
  }

  lemma ServeKeeps(sub: Subscriber, published: seq<Event>)
    requires |published| > 0 && SubscriberOk(sub, published) && sub.upTo == |published| - 1
    ensures SubscriberOk(Serve(sub, Stamp(|published| - 1, published[|published| - 1])), published)
  {
    var stamp := Stamp(|published| - 1, published[|published| - 1]);
    if stamp.event.topic in sub.topics {
      var acquired := !sub.held && !sub.poisoned;
      OfferKeepsAccounts(sub.log, sub.handed, sub.ring, sub.capacity, acquired, stamp);
      if acquired && !sub.contended {
        OfferKeepsGapless(sub.ring, sub.capacity, stamp);
      }
    }
  }

  lemma HandOneKeeps(sub: Subscriber, published: seq<Event>)
    requires SubscriberOk(sub, published)
    ensures SubscriberOk(HandOne(sub), published)
  {
    if sub.ring.items != [] {
      PopKeepsAccounts(sub.log, sub.handed, sub.ring, sub.capacity);
    }
  }

  lemma HandAllKeeps(sub: Subscriber, published: seq<Event>)
    requires SubscriberOk(sub, published)
    ensures SubscriberOk(HandAll(sub), published)
  {
    DrainKeepsAccounts(sub.log, sub.handed, sub.ring, sub.capacity);
  }

  lemma {:induction false} LiveIdsAreTheLive(registry: seq<nat>, subs: seq<Subscriber>)
    ensures forall j :: 0 <= j < |LiveIds(registry, subs)| ==>
              var id := LiveIds(registry, subs)[j]; id in registry && id < |subs| && subs[id].live
    ensures forall id :: id in registry && id < |subs| && subs[id].live ==> id in LiveIds(registry, subs)
    ensures (forall i, j :: 0 <= i < j < |registry| ==> registry[i] != registry[j]) ==>
              forall i, j :: 0 <= i < j < |LiveIds(registry, subs)| ==> LiveIds(registry, subs)[i] != LiveIds(registry, subs)[j]
  {
    if registry != [] {
      LiveIdsAreTheLive(registry[..|registry| - 1], subs);
      assert registry == registry[..|registry| - 1] + [registry[|registry| - 1]];
    }
  }

  /** A step that only touches one subscription, and neither its registration nor its log. */
  lemma LocalStepKeeps(s: BusState, who: nat, sub: Subscriber)
    requires Inv(s) && who < |s.subs| && SubscriberOk(sub, s.published)
    requires sub.live ==> s.subs[who].live
    requires sub.upTo == s.subs[who].upTo && sub.closed == s.subs[who].closed
    ensures Inv(s.(subs := s.subs[who := sub]))
  {
    var t := s.(subs := s.subs[who := sub]);
    assert forall id :: Awaits(t, id) <==> Awaits(s, id);
  }

  lemma VisitServesOne(s: BusState)
    requires Inv(s) && Enabled(s, Visit) && s.subs[s.registry[s.flight.cursor]].live
    ensures var (here, t) := (s.registry[s.flight.cursor], Apply(s, Visit));
            && Awaits(s, here) && t == s.(subs := s.subs[here := Serve(s.subs[here], s.flight.stamp)], flight := t.flight)
            && t.flight == Publishing(s.flight.stamp, s.flight.cursor + 1)
            && forall id :: Awaits(t, id) <==> Awaits(s, id) && id != here
  {
    hide SubscriberOk, Serve;
    var (here, t) := (s.registry[s.flight.cursor], Apply(s, Visit));
    assert Awaits(s, here);
    forall id ensures Awaits(t, id) <==> Awaits(s, id) && id != here {
      if Awaits(s, id) && id != here {
        var j :| s.flight.cursor <= j < |s.registry| && s.registry[j] == id;
        assert t.registry[j] == id;
      }
    }
  }

  lemma VisitPrunesOne(s: BusState)
    requires Inv(s) && Enabled(s, Visit) && !s.subs[s.registry[s.flight.cursor]].live
    ensures var t := Apply(s, Visit);
            && t == s.(registry := t.registry) && |t.registry| == |s.registry| - 1
            && forall id :: 0 <= id < |s.subs| && s.subs[id].live ==> (Awaits(t, id) <==> Awaits(s, id))
  {
    hide SubscriberOk, Serve;
    var (t, c) := (Apply(s, Visit), s.flight.cursor);
    assert forall j :: 0 <= j < |t.registry| ==> t.registry[j] == s.registry[if j < c then j else j + 1];
    forall id | 0 <= id < |s.subs| && s.subs[id].live ensures Awaits(t, id) <==> Awaits(s, id) {
      if Awaits(s, id) {
        var k :| c <= k < |s.registry| && s.registry[k] == id;
        assert t.registry[k - 1] == id;
      }
    }
  }

  lemma ServedIsCurrent(s: BusState, here: nat)
    requires Inv(s) && s.flight.Publishing? && here < |s.subs| && s.subs[here].live && Awaits(s, here)
    ensures s.subs[here].upTo == |s.published| - 1
    ensures var after := Serve(s.subs[here], s.flight.stamp);
            after.upTo == |s.published| && after.live && after.closed == s.subs[here].closed
  {
    hide SubscriberOk, Offered;
  }

  lemma VisitLiveKeeps(s: BusState)
    requires Inv(s) && Enabled(s, Visit) && s.subs[s.registry[s.flight.cursor]].live
    ensures Inv(Apply(s, Visit))
  {
    VisitServesOne(s);
    var here := s.registry[s.flight.cursor];
    ServedIsCurrent(s, here);
    ServeKeeps(s.subs[here], s.published);
    hide SubscriberOk, Serve, Apply, Awaits;
  }

  /** Pruning a dead entry: every other entry keeps its place relative to the cursor. */
  lemma VisitDeadKeeps(s: BusState)
    requires Inv(s) && Enabled(s, Visit) && !s.subs[s.registry[s.flight.cursor]].live
    ensures Inv(Apply(s, Visit))
  {
    VisitPrunesOne(s);
    RegistryPruned(s, s.flight.cursor);
    hide SubscriberOk, Serve, Awaits;
    var t := Apply(s, Visit);
    assert t.registry == s.registry[..s.flight.cursor] + s.registry[s.flight.cursor + 1..];
    hide Apply;
  }

  lemma RegistryPruned(s: BusState, c: nat)
    requires RegistryOk(s) && c < |s.registry| && !s.subs[s.registry[c]].live
    ensures RegistryOk(s.(registry := s.registry[..c] + s.registry[c + 1..]))
  {
    var t := s.registry[..c] + s.registry[c + 1..];
    assert forall j :: 0 <= j < |t| ==> t[j] == s.registry[if j < c then j else j + 1];
    forall id | 0 <= id < |s.subs| && s.subs[id].live ensures id in t {
      var j :| 0 <= j < |s.registry| && s.registry[j] == id;
      assert id == t[if j < c then j else j - 1];
    }
  }

  lemma NewcomerOk(topics: set<Topic>, capacity: nat, published: seq<Event>)
    ensures SubscriberOk(Newcomer(topics, capacity, |published|), published)
  {
    assert Tiles([], [] + [], 0);
  }

  lemma SubscribeKeeps(s: BusState, topics: set<Topic>, capacity: nat)
    requires Inv(s) && s.flight.Idle?
    ensures Inv(Apply(s, Subscribe(topics, capacity)))
  {
    LiveIdsAreTheLive(s.registry, s.subs);
    NewcomerOk(topics, capacity, s.published);
    hide SubscriberOk, LiveIds;
    var t := Apply(s, Subscribe(topics, capacity));
    assert t.registry[|t.registry| - 1] == |s.subs|;
    forall id | 0 <= id < |t.subs| && t.subs[id].live ensures id in t.registry {
      if id < |s.subs| {
        assert id in LiveIds(s.registry, s.subs);
      }
    }
  }

  lemma PublishBeginKeeps(s: BusState, event: Event)
    requires Inv(s) && s.flight.Idle?
    ensures Inv(Apply(s, PublishBegin(event)))
  {
    var t := Apply(s, PublishBegin(event));
    forall id | 0 <= id < |s.subs| ensures SubscriberOk(t.subs[id], t.published) {
      SubscriberSurvivesPublish(s.subs[id], s.published, event);
    }
    assert forall id :: 0 <= id < |t.subs| && t.subs[id].live ==> Awaits(t, id);
  }

  lemma ClosingKeepsOk(s: BusState)
    requires Inv(s)
    ensures forall id :: 0 <= id < |s.subs| ==> SubscriberOk(s.subs[id].(closed := true), s.published)
  {
    hide Accounts, Gapless, Matching;
  }

  lemma CloseNextKeeps(s: BusState)
    requires Inv(s) && Enabled(s, CloseNext)
    ensures Inv(Apply(s, CloseNext))
  {
    ClosingKeepsOk(s);
    hide SubscriberOk, Serve;
    var t := Apply(s, CloseNext);
    assert forall id :: !Awaits(s, id) && !Awaits(t, id);
    assert forall id :: 0 <= id < |s.subs| ==> t.subs[id] == s.subs[id] || t.subs[id] == s.subs[id].(closed := true);
  }

  lemma RegistryStepKeeps(s: BusState, step: Step)
    requires Inv(s) && Enabled(s, step) && (step.PublishEnd? || step.CloseBegin? || step.CloseEnd?)
    ensures Inv(Apply(s, step))
  {
    var t := Apply(s, step);
    assert forall id :: !Awaits(s, id) && !Awaits(t, id);
  }

  lemma StepKeepsInv(s: BusState, step: Step)
    requires Inv(s) && Enabled(s, step)
    ensures Inv(Apply(s, step))
  {
    match step
    case Subscribe(topics, capacity) => SubscribeKeeps(s, topics, capacity);
    case PublishBegin(event) => PublishBeginKeeps(s, event);
    case Visit =>
      if s.subs[s.registry[s.flight.cursor]].live {
        VisitLiveKeeps(s);
      } else {
        VisitDeadKeeps(s);
      }
    case PublishEnd => RegistryStepKeeps(s, step);
    case CloseBegin => RegistryStepKeeps(s, step);
    case CloseNext => CloseNextKeeps(s);
    case CloseEnd => RegistryStepKeeps(s, step);
    case Lock(who) => LocalStepKeeps(s, who, s.subs[who].(held := true));
    case Receive(who) =>
      HandOneKeeps(s.subs[who], s.published);
      LocalStepKeeps(s, who, HandOne(s.subs[who]));
    case TakeAll(who) =>
      HandAllKeeps(s.subs[who], s.published);
      LocalStepKeeps(s, who, HandAll(s.subs[who]));
    case Unlock(who) => LocalStepKeeps(s, who, s.subs[who].(held := false));
    case Panic(who) => LocalStepKeeps(s, who, s.subs[who].(held := false, poisoned := true));
    case Unsubscribe(who) => LocalStepKeeps(s, who, s.subs[who].(live := false));
  }

  lemma {:induction false} RunKeepsInv(s: BusState, steps: seq<Step>, t: BusState)
    requires Inv(s) && Run(s, steps, t)
    ensures Inv(t)
    decreases |steps|
  {
    if steps != [] {
      StepKeepsInv(s, steps[0]);
      RunKeepsInv(Apply(s, steps[0]), steps[1..], t);
    }
  }

  // ----- what every run from an empty bus guarantees -----

  /** Loss accounting, order and conservation for every subscription, whatever was interleaved. */
  lemma EverySubscriberIsToldTheTruth(steps: seq<Step>, t: BusState, id: nat) returns (at: seq<nat>)
    requires Run(START, steps, t) && id < |t.subs|
    ensures var sub := t.subs[id]; var ds := sub.handed + sub.ring.items;
            && sub.birth <= sub.upTo <= |t.published|
            && sub.log == Matching(t.published, sub.topics, sub.birth, sub.upTo)
            && GapsExact(sub.log, ds, sub.ring.pending, at)
            && |sub.handed| + |sub.ring.items| + sub.ring.total == |sub.log|
            && MissedSum(sub.handed) + MissedSum(sub.ring.items) + sub.ring.pending == sub.ring.total
            && (forall i, j :: 0 <= i < j < |ds| ==> ds[i].number < ds[j].number)
            && (forall j :: 0 <= j < |ds| ==> ds[j].number < |t.published| && t.published[ds[j].number] == ds[j].event)
            && |sub.ring.items| <= sub.capacity
  {
    RunKeepsInv(START, steps, t);
    var sub := t.subs[id];
    MatchingIsTheFilter(t.published, sub.topics, sub.birth, sub.upTo);
    GapsAddUpToTotal(sub.log, sub.handed, sub.ring, sub.capacity);
    DeliveriesIncrease(sub.log, sub.handed, sub.ring, sub.capacity);
    at := TilesGiveExactGaps(sub.log, sub.handed + sub.ring.items, sub.ring.pending);
  }

  /** Between publishes a live subscription has been offered every matching event since it began. */
  lemma LiveSubscribersMissNothingSilently(steps: seq<Step>, t: BusState, id: nat)
    requires Run(START, steps, t) && id < |t.subs| && t.subs[id].live && !t.flight.Publishing?
    ensures t.subs[id].log == Matching(t.published, t.subs[id].topics, t.subs[id].birth, |t.published|)
  {
    RunKeepsInv(START, steps, t);
  }

  /** Never contended: the ring is exactly the newest stretch of the matching events. */
  lemma UncontendedRingIsTheNewestStretch(steps: seq<Step>, t: BusState, id: nat)
    requires Run(START, steps, t) && id < |t.subs| && !t.subs[id].contended
    ensures var sub := t.subs[id]; var n := |sub.ring.items|;
            && n <= |sub.log|
            && forall j :: 0 <= j < n ==> sub.ring.items[j].AsStamp() == sub.log[|sub.log| - n + j]
  {
    RunKeepsInv(START, steps, t);
    var sub := t.subs[id];
    GaplessRingIsSuffix(sub.log, sub.handed, sub.ring, sub.capacity);
  }

  /** Once the bus is gone, every subscription still held knows it. */
  lemma AfterCloseEveryoneKnows(steps: seq<Step>, t: BusState, id: nat)
    requires Run(START, steps, t) && t.flight.Gone? && id < |t.subs| && t.subs[id].live
    ensures t.subs[id].closed
  {
    RunKeepsInv(START, steps, t);
  }

  // ----- a publish never waits -----

  /** Publisher steps left before the publish in flight has returned. */
  function Remaining(s: BusState): nat {
    if s.flight.Publishing? && s.flight.cursor <= |s.registry| then |s.registry| - s.flight.cursor + 1 else 0
  }

  function PublisherSteps(steps: seq<Step>): nat {
    if steps == [] then 0
    else (if steps[0].Visit? || steps[0].PublishEnd? then 1 else 0) + PublisherSteps(steps[1..])
  }

  /** Until the publish returns, its own steps are the only ones that count against it. */
  lemma {:induction false} PublishIsBoundedByTheRegistry(s: BusState, steps: seq<Step>, t: BusState)
    requires Inv(s) && s.flight.Publishing? && Run(s, steps, t)
    requires forall j :: 0 <= j < |steps| ==> !steps[j].PublishEnd?
    ensures t.flight.Publishing? && t.flight.stamp == s.flight.stamp
    ensures Remaining(t) + PublisherSteps(steps) == Remaining(s) <= |s.registry| + 1
    decreases |steps|
  {
    if steps != [] {
      StepKeepsInv(s, steps[0]);
      PublishIsBoundedByTheRegistry(Apply(s, steps[0]), steps[1..], t);
    }
  }

  /** Every live subscription the publish had still to reach has had its one offer, and nothing else has moved. */
  ghost predicate ServedOnce(s: BusState, t: BusState)
    requires s.flight.Publishing?
  {
    && t.published == s.published && |t.subs| == |s.subs|
    && forall id :: 0 <= id < |s.subs| ==>
         t.subs[id] == if Awaits(s, id) && s.subs[id].live then Serve(s.subs[id], s.flight.stamp) else s.subs[id]
  }

  lemma ServedAfterOne(s: BusState, t: BusState)
    requires Inv(s) && Enabled(s, Visit) && Apply(s, Visit).flight.Publishing? && ServedOnce(Apply(s, Visit), t)
    ensures ServedOnce(s, t)
  {
    hide Inv, Serve, Awaits;
    assert s.registry[s.flight.cursor] < |s.subs| by { RegisteredExists(s); }
    if s.subs[s.registry[s.flight.cursor]].live {
      VisitServesOne(s);
    } else {
      VisitPrunesOne(s);
    }
  }

  lemma RegisteredExists(s: BusState)
    requires Inv(s) && Enabled(s, Visit)
    ensures s.registry[s.flight.cursor] < |s.subs|
  {
    hide SubscriberOk;
  }

  lemma VisitCountsDown(s: BusState)
    requires Enabled(s, Visit)
    ensures Apply(s, Visit).flight.Publishing? && Apply(s, Visit).flight.stamp == s.flight.stamp
    ensures Remaining(Apply(s, Visit)) == Remaining(s) - 1
  {
    hide Serve;
  }

  /**
   A publish in flight needs nobody: its own steps, as many as remain, bring it
   to its end whatever locks are held or poisoned, and by then each live
   subscription it had still to reach has had exactly one offer.
   */
  lemma {:induction false} PublishFinishesAlone(s: BusState) returns (steps: seq<Step>, t: BusState)
    requires Inv(s) && s.flight.Publishing?
    ensures Run(s, steps, t) && t.flight.Idle? && |steps| == Remaining(s)
    ensures forall j :: 0 <= j < |steps| ==> steps[j].Visit? || steps[j].PublishEnd?
    ensures ServedOnce(s, t)
    decreases Remaining(s)
  {
    if s.flight.cursor < |s.registry| {
      hide Serve;
      StepKeepsInv(s, Visit);
      VisitCountsDown(s);
      var more;
      more, t := PublishFinishesAlone(Apply(s, Visit));
      hide Inv, ServedOnce;
      steps := [Visit] + more;
      assert steps[1..] == more;
      ServedAfterOne(s, t);
    } else {
      hide SubscriberOk, Serve;
      steps, t := [PublishEnd], Apply(s, PublishEnd);
      assert steps[1..] == [] && Run(t, [], t);
      assert forall id :: !Awaits(s, id);
    }
  }

  /** A subscription whose lock is held or poisoned at that moment pays for it with one counted loss and nothing else. */
  lemma LockedSubscribersLoseOne(s: BusState, id: nat) returns (steps: seq<Step>, t: BusState)
    requires Inv(s) && id < |s.subs| && Awaits(s, id) && s.subs[id].live
    requires (s.subs[id].held || s.subs[id].poisoned) && s.flight.stamp.event.topic in s.subs[id].topics
    ensures Run(s, steps, t) && t.flight.Idle? && |steps| == Remaining(s) && id < |t.subs|
    ensures t.subs[id].ring == s.subs[id].ring.(pending := s.subs[id].ring.pending + 1, total := s.subs[id].ring.total + 1)
    ensures t.subs[id].handed == s.subs[id].handed
  {
    steps, t := PublishFinishesAlone(s);
    hide Inv, Run, Awaits;
  }

  /** A live, matching subscription whose lock is free when the publisher comes to it has the event newest in its ring. */
  lemma FreeSubscribersGetTheEvent(s: BusState)
    requires Inv(s) && Enabled(s, Visit)
    requires var sub := s.subs[s.registry[s.flight.cursor]];
             sub.live && !sub.held && !sub.poisoned && sub.capacity > 0 && s.flight.stamp.event.topic in sub.topics
    ensures var id := s.registry[s.flight.cursor];
            var (before, after) := (s.subs[id], Apply(s, Visit).subs[id]);
            && BuffersNewest(before.ring, before.capacity, s.flight.stamp, after.ring)
            && after.handed == before.handed && after.log == before.log + [s.flight.stamp]
  {
    var sub := s.subs[s.registry[s.flight.cursor]];
    OfferBuffersOrCounts(sub.ring, sub.capacity, true, s.flight.stamp);
    hide Offered;
  }

  /** And so has each such subscription once a publish that was left alone has ended. */
  lemma LonePublishReachesTheFree(s: BusState, id: nat) returns (steps: seq<Step>, t: BusState)
    requires Inv(s) && id < |s.subs| && Awaits(s, id) && s.subs[id].live && s.subs[id].capacity > 0
    requires !s.subs[id].held && !s.subs[id].poisoned && s.flight.stamp.event.topic in s.subs[id].topics
    ensures Run(s, steps, t) && t.flight.Idle? && id < |t.subs|
    ensures BuffersNewest(s.subs[id].ring, s.subs[id].capacity, s.flight.stamp, t.subs[id].ring)
  {
    steps, t := PublishFinishesAlone(s);
    var sub := s.subs[id];
    OfferBuffersOrCounts(sub.ring, sub.capacity, true, s.flight.stamp);
    hide Offered, Run, Awaits;
  }

  // ----- a poisoned lock -----

  /** What a subscription has received or will ever find in its ring. */
  function Obtainable(sub: Subscriber): seq<Delivery> { sub.handed + sub.ring.items }

  lemma ServingPoisoned(sub: Subscriber, stamp: Stamp)
    requires sub.poisoned
    ensures var after := Serve(sub, stamp);
            && after.poisoned && after.handed == sub.handed && after.ring.items == sub.ring.items
            && after.ring.total - sub.ring.total == |after.log| - |sub.log|
  {
  }

  lemma PoisonedStep(s: BusState, step: Step, who: nat)
    requires Enabled(s, step) && who < |s.subs| && s.subs[who].poisoned
    ensures who < |Apply(s, step).subs|
    ensures var (before, after) := (s.subs[who], Apply(s, step).subs[who]);
            && after.poisoned && Obtainable(after) == Obtainable(before)
            && after.ring.total - before.ring.total == |after.log| - |before.log|
  {
    ServingPoisoned(s.subs[who], if s.flight.Publishing? then s.flight.stamp else Stamp(0, Event(0, 0)));
    hide Serve, LiveIds;
    var before := s.subs[who];
    assert before.ring.items != [] ==> before.handed + before.ring.items == before.handed + [before.ring.items[0]] + before.ring.items[1..];
    assert before.handed + before.ring.items + [] == before.handed + before.ring.items;
  }

  /**
   A consumer that panics while it holds the queue lock poisons it for good:
   whatever happens after, its subscription never buffers another event, and
   every later offer is a counted loss.
   */
  lemma {:induction false} PoisonedNeverBuffersAgain(s: BusState, steps: seq<Step>, t: BusState, who: nat)
    requires Run(s, steps, t) && who < |s.subs| && s.subs[who].poisoned
    ensures who < |t.subs| && t.subs[who].poisoned && Obtainable(t.subs[who]) == Obtainable(s.subs[who])
    ensures t.subs[who].ring.total - s.subs[who].ring.total == |t.subs[who].log| - |s.subs[who].log|
    decreases |steps|
  {
    hide Obtainable, Apply, Enabled;
    if steps != [] {
      PoisonedStep(s, steps[0], who);
      PoisonedNeverBuffersAgain(Apply(s, steps[0]), steps[1..], t, who);
    }
  }
}

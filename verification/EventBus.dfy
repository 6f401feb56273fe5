/**
 The registry side of the bus: one publish, as the code runs it over its list
 of subscriptions. Which handles are still alive and which queue locks are free
 are not the publisher's to decide, so both are parameters.
 */
module EventBus {
  import opened EventRing

  /** `retain`: the subscriptions whose handle is still alive, in order. */
  function Kept(slots: seq<Slot>, strong: set<Slot>): seq<Slot> {
    if slots == [] then []
    else Kept(slots[..|slots| - 1], strong)
         + (if slots[|slots| - 1] in strong then [slots[|slots| - 1]] else [])
  }

  ghost predicate Distinct(slots: seq<Slot>) {
    forall i, j :: 0 <= i < j < |slots| ==> slots[i] != slots[j]
  }

  lemma {:induction false} KeptIsLiveSublist(slots: seq<Slot>, strong: set<Slot>)
    ensures forall i :: 0 <= i < |Kept(slots, strong)| ==> Kept(slots, strong)[i] in slots && Kept(slots, strong)[i] in strong
    ensures forall i :: 0 <= i < |slots| && slots[i] in strong ==> slots[i] in Kept(slots, strong)
    ensures Distinct(slots) ==> Distinct(Kept(slots, strong))
  {
    if slots != [] {
      var front := slots[..|slots| - 1];
      KeptIsLiveSublist(front, strong);
      assert slots == front + [slots[|slots| - 1]];
    }
  }

  /** `kept` stands at the increasing places `at` of the list. */
  ghost predicate StandsAt(kept: seq<Slot>, slots: seq<Slot>, at: seq<nat>) {
    && |at| == |kept|
    && (forall j :: 0 <= j < |at| ==> at[j] < |slots| && slots[at[j]] == kept[j])
    && forall i, j :: 0 <= i < j < |at| ==> at[i] < at[j]
  }

  lemma OneMoreStands(kept: seq<Slot>, slots: seq<Slot>, at: seq<nat>)
    requires slots != [] && StandsAt(kept, slots[..|slots| - 1], at)
    ensures StandsAt(kept, slots, at) && StandsAt(kept + [slots[|slots| - 1]], slots, at + [|slots| - 1])
  {
    var n := |slots| - 1;
    forall j | 0 <= j < |at| ensures at[j] < n && slots[at[j]] == kept[j] {
      assert slots[..n][at[j]] == slots[at[j]];
    }
  }

  /** What is kept is kept in order. */
  lemma {:induction false} KeptKeepsOrder(slots: seq<Slot>, strong: set<Slot>) returns (at: seq<nat>)
    ensures StandsAt(Kept(slots, strong), slots, at)
  {
    hide StandsAt;
    if slots == [] {
      at := [];
      NothingStands();
    } else {
      var n := |slots| - 1;
      at := KeptKeepsOrder(slots[..n], strong);
      OneMoreStands(Kept(slots[..n], strong), slots, at);
      assert Kept(slots[..n], strong) + [] == Kept(slots[..n], strong);
      if slots[n] in strong {
        at := at + [n];
      }
    }
  }

  lemma NothingStands()
    ensures StandsAt([], [], [])
  {
  }

  lemma KeptNext(slots: seq<Slot>, strong: set<Slot>, i: nat)
    requires i < |slots|
    ensures Kept(slots[..i + 1], strong) == Kept(slots[..i], strong) + (if slots[i] in strong then [slots[i]] else [])
  {
    assert slots[..i + 1][..i] == slots[..i];
  }

  lemma NoneKept(slots: seq<Slot>, strong: set<Slot>)
    ensures Kept(slots[..0], strong) == []
  {
  }

  ghost predicate LogBelow(log: seq<Stamp>, bound: nat) {
    forall j :: 0 <= j < |log| ==> log[j].number < bound
  }

  ghost predicate Registered(slot: Slot, bound: nat)
    reads slot
  {
    slot.Valid() && LogBelow(slot.log, bound)
  }

  /** What one publish leaves of one subscription. */
  twostate predicate Served(slot: Slot, stamp: Stamp, strong: set<Slot>, free: set<Slot>)
    reads slot
  {
    if slot in strong && stamp.event.topic in slot.topics then
      && slot.State() == Offered(old(slot.State()), slot.capacity, slot in free, stamp)
      && (if slot in free && slot.capacity > 0 then BuffersNewest(old(slot.State()), slot.capacity, stamp, slot.State())
          else CountsOneLoss(old(slot.State()), slot.State()))
      && slot.log == old(slot.log) + [stamp]
      && slot.handed == old(slot.handed)
      && slot.closed == old(slot.closed)
    else unchanged(slot)
  }

  class Bus {
    var subscriptions: seq<Slot>
    var nextSeq: nat

    ghost predicate Valid() reads this, subscriptions {
      && Distinct(subscriptions)
      && forall j :: 0 <= j < |subscriptions| ==> Registered(subscriptions[j], nextSeq)
    }

    constructor ()
      ensures Valid() && subscriptions == [] && nextSeq == 0
    {
      subscriptions, nextSeq := [], 0;
    }

    method SubscribeWithCapacity(topics: set<Topic>, capacity: nat, strong: set<Slot>) returns (slot: Slot)
      requires Valid()
      modifies this`subscriptions
      ensures Valid() && fresh(slot) && slot.topics == topics && slot.capacity == capacity
      ensures slot.State() == EMPTY_RING && slot.log == []
      ensures subscriptions == Kept(old(subscriptions), strong) + [slot]
    {
      slot := new Slot(topics, capacity);
      KeptIsLiveSublist(subscriptions, strong);
      subscriptions := Kept(subscriptions, strong) + [slot];
    }

    /** The closure a publish hands to `retain`: offer if alive and matching, keep if alive. */
    static method Deliver(slot: Slot, stamp: Stamp, strong: set<Slot>, free: set<Slot>) returns (keep: bool)
      requires Registered(slot, stamp.number)
      modifies slot
      ensures keep <==> slot in strong
      ensures Served(slot, stamp, strong, free) && Registered(slot, stamp.number + 1)
    {
      keep := slot in strong;
      if keep && stamp.event.topic in slot.topics {
        slot.Offer(slot in free, stamp.number, stamp.event);
      }
    }

    /** The `retain` pass: offer to every slot in order, collect the ones to keep. */
    static method FanOut(all: seq<Slot>, stamp: Stamp, strong: set<Slot>, free: set<Slot>) returns (retained: seq<Slot>)
      requires Distinct(all) && forall j :: 0 <= j < |all| ==> Registered(all[j], stamp.number)
      modifies all
      ensures retained == Kept(all, strong)
      ensures forall j :: 0 <= j < |all| ==> Registered(all[j], stamp.number + 1)
      ensures forall j :: 0 <= j < |all| ==> Served(all[j], stamp, strong, free)
    {
      hide Kept;
      retained := [];
      NoneKept(all, strong);
      for i := 0 to |all|
        invariant retained == Kept(all[..i], strong)
        invariant forall j :: 0 <= j < i ==> Registered(all[j], stamp.number + 1)
        invariant forall j :: 0 <= j < i ==> Served(all[j], stamp, strong, free)
        invariant forall j :: i <= j < |all| ==> unchanged(all[j])
      {
        KeptNext(all, strong, i);
        var slot := all[i];
        assert forall j :: 0 <= j < |all| && j != i ==> all[j] != slot;
        label Turn:
        var keep := Deliver(slot, stamp, strong, free);
        assert forall j :: 0 <= j < |all| && j != i ==> unchanged@Turn(all[j]);
        if keep {
          retained := retained + [slot];
        }
      }
      assert all[..|all|] == all;
    }

    /**
     Number the event, offer it to every live subscription whose filter matches,
     and prune the dead ones. A lock outside `free` never delays it.
     */
    method Publish(event: Event, strong: set<Slot>, free: set<Slot>) returns (number: nat)
      requires Valid()
      modifies this, subscriptions
      ensures Valid()
      ensures number == old(nextSeq) && nextSeq == number + 1
      ensures subscriptions == Kept(old(subscriptions), strong)
      ensures forall j :: 0 <= j < |old(subscriptions)| ==>
                Served(old(subscriptions)[j], Stamp(number, event), strong, free)
    {
      hide Kept, Registered;
      number := nextSeq;
      nextSeq := nextSeq + 1;
      KeptIsLiveSublist(subscriptions, strong);
      subscriptions := FanOut(subscriptions, Stamp(number, event), strong, free);
    }
  }
}

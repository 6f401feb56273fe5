/**
 Incremental quorum accounting: stop as soon as the answer is known, and be
 right whatever the arrival order.
 */
module Quorum {

  datatype Vote = Yes | No | Abstain

  datatype QuorumStatus = Open | Reached | Unreachable

  datatype Recorded = Counted(tally: Tally, status: QuorumStatus) | Overfull(k: nat)

  /** Votes in favour needed to carry a claim: the least n with 3n >= 2k. */
  function Needed(k: nat): (n: nat)
    ensures 3 * n >= 2 * k && (n > 0 ==> 3 * (n - 1) < 2 * k)
    ensures n <= k
  {
    if k == 0 then 0 else (2 * k + 2) / 3
  }

  /** The cohort size and the three counters, kept as the multiplicities of one multiset. */
  datatype Tally = Tally(k: nat, cast: multiset<Vote>) {
    function Yeses(): nat { cast[Yes] }

    ghost predicate Valid() { cast[Yes] + cast[No] + cast[Abstain] <= k }

    function Pending(): nat
      requires Valid()
    {
      k - cast[Yes] - cast[No] - cast[Abstain]
    }

    function Status(): QuorumStatus
      requires Valid()
    {
      if Yeses() >= Needed(k) then Reached
      else if Yeses() + Pending() < Needed(k) then Unreachable
      else Open
    }

    function Plus(vote: Vote): (t: Tally)
      ensures t.cast[Yes] + t.cast[No] + t.cast[Abstain] == cast[Yes] + cast[No] + cast[Abstain] + 1
    {
      assert vote == Yes || vote == No || vote == Abstain;
      this.(cast := cast + multiset{vote})
    }

    function Record(vote: Vote): (r: Recorded)
      requires Valid()
      ensures r.Counted? <==> Pending() > 0
      ensures r.Counted? ==> r.tally.Valid() && r.status == r.tally.Status() && r.tally.Pending() == Pending() - 1
    {
      if Pending() == 0 then Overfull(k)
      else Counted(Plus(vote), Plus(vote).Status())
    }
  }

  function NewTally(k: nat): (t: Tally)
    ensures t.Valid() && t.Pending() == k
  {
    Tally(k, multiset{})
  }

  /** All of `votes` counted onto `t`, in order. */
  function CountAll(t: Tally, votes: seq<Vote>): (r: Tally)
    requires t.Valid() && |votes| <= t.Pending()
    ensures r.Valid() && r.k == t.k && r.Pending() == t.Pending() - |votes|
    decreases |votes|
  {
    if votes == [] then t else CountAll(t, votes[..|votes| - 1]).Plus(votes[|votes| - 1])
  }

  /** The board's rule: read votes one at a time and stop at the first status that is not Open. */
  function StopEarly(t: Tally, votes: seq<Vote>): (r: (Tally, nat))
    requires t.Valid() && |votes| <= t.Pending()
    ensures r.0.Valid() && r.1 <= |votes|
    decreases |votes|
  {
    if t.Status() != Open || votes == [] then (t, 0)
    else
      var rest := StopEarly(t.Plus(votes[0]), votes[1..]);
      (rest.0, rest.1 + 1)
  }

  // ----- the verdict of a full count -----

  /** Whoever has spoken, an open claim still has someone to wait for. */
  lemma OpenMeansPending(t: Tally)
    requires t.Valid() && t.Status() == Open
    ensures t.Pending() > 0
  {
  }

  /** A status that is not Open is final: no vote that can still arrive changes it. */
  lemma {:induction false} TerminalIsFinal(t: Tally, votes: seq<Vote>)
    requires t.Valid() && t.Status() != Open && |votes| <= t.Pending()
    ensures CountAll(t, votes).Status() == t.Status()
    decreases |votes|
  {
    if votes != [] {
      TerminalIsFinal(t, votes[..|votes| - 1]);
    }
  }

  lemma {:induction false} CountAllCounts(t: Tally, votes: seq<Vote>)
    requires t.Valid() && |votes| <= t.Pending()
    ensures CountAll(t, votes).cast == t.cast + multiset(votes)
    decreases |votes|
  {
    if votes != [] {
      CountAllCounts(t, votes[..|votes| - 1]);
      assert votes == votes[..|votes| - 1] + [votes[|votes| - 1]];
    }
  }

  lemma CountAllFromTheFront(t: Tally, votes: seq<Vote>)
    requires t.Valid() && votes != [] && |votes| <= t.Pending()
    ensures t.Plus(votes[0]).Valid() && t.Plus(votes[0]).Pending() == t.Pending() - 1
    ensures CountAll(t, votes) == CountAll(t.Plus(votes[0]), votes[1..])
  {
    CountAllCounts(t, votes);
    CountAllCounts(t.Plus(votes[0]), votes[1..]);
    assert votes == [votes[0]] + votes[1..];
  }

  lemma PrefixShifts(votes: seq<Vote>, n: nat)
    requires n < |votes|
    ensures votes[..n + 1][0] == votes[0] && votes[..n + 1][1..] == votes[1..][..n]
  {
  }

  /** What early stopping returns is the count of the votes it read. */
  lemma {:induction false} StopEarlyReadsAPrefix(t: Tally, votes: seq<Vote>)
    requires t.Valid() && |votes| <= t.Pending()
    ensures StopEarly(t, votes).0 == CountAll(t, votes[..StopEarly(t, votes).1])
    decreases |votes|
  {
    if t.Status() == Open && votes != [] {
      var next := t.Plus(votes[0]);
      var n := StopEarly(next, votes[1..]).1;
      StopEarlyReadsAPrefix(next, votes[1..]);
      PrefixShifts(votes, n);
      CountAllFromTheFront(t, votes[..n + 1]);
    }
  }

  /** And its status is the verdict of counting every vote: the first status that is not Open was right. */
  lemma {:induction false} StopEarlyIsSound(t: Tally, votes: seq<Vote>)
    requires t.Valid() && |votes| == t.Pending()
    ensures StopEarly(t, votes).0.Status() == CountAll(t, votes).Status() != Open
    decreases |votes|
  {
    if t.Status() != Open {
      TerminalIsFinal(t, votes);
    } else {
      OpenMeansPending(t);
      CountAllFromTheFront(t, votes);
      StopEarlyIsSound(t.Plus(votes[0]), votes[1..]);
    }
  }

  /** The full count itself is a plain comparison of the yes votes with the quorum. */
  lemma FullCountVerdict(t: Tally, votes: seq<Vote>)
    requires t.Valid() && |votes| == t.Pending()
    ensures CountAll(t, votes).Status() == (if t.cast[Yes] + multiset(votes)[Yes] >= Needed(t.k) then Reached else Unreachable)
  {
    CountAllCounts(t, votes);
  }

  /** The same votes in any two arrival orders close the claim the same way and leave the same full count. */
  lemma ArrivalOrderDoesNotMatter(t: Tally, first: seq<Vote>, second: seq<Vote>)
    requires t.Valid() && |first| == t.Pending() && multiset(first) == multiset(second)
    ensures |second| == |first|
    ensures CountAll(t, first) == CountAll(t, second)
    ensures StopEarly(t, first).0.Status() == StopEarly(t, second).0.Status() != Open
  {
    assert |multiset(first)| == |first| && |multiset(second)| == |second|;
    assert CountAll(t, first) == CountAll(t, second) by {
      CountAllCounts(t, first);
      CountAllCounts(t, second);
    }
    StopEarlyIsSound(t, first);
    StopEarlyIsSound(t, second);
  }

  /** Every status read before the stop was Open, so nothing was decided later than it could be. */
  lemma {:induction false} StopsAtTheFirstVerdict(t: Tally, votes: seq<Vote>, n: nat)
    requires t.Valid() && |votes| <= t.Pending() && n < StopEarly(t, votes).1
    ensures CountAll(t, votes[..n]).Status() == Open
    decreases |votes|
  {
    assert t.Status() == Open && votes != [];
    if n == 0 {
      assert votes[..n] == [];
    } else {
      var next := t.Plus(votes[0]);
      assert n - 1 < StopEarly(next, votes[1..]).1;
      StopsAtTheFirstVerdict(next, votes[1..], n - 1);
      assert CountAll(t, votes[..n]) == CountAll(next, votes[1..][..n - 1]) by {
        PrefixShifts(votes, n - 1);
        CountAllFromTheFront(t, votes[..n]);
      }
    }
  }
}

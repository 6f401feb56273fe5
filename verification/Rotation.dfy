/**
 Proposer rotation: least-used candidate first, ties by id. Over a whole turn
 that is a strict round robin.
 */
module Rotation {
  import opened Optional
  import opened Ordering
  import opened Board

  ghost function ProposedBy(claims: map<ClaimId, ClaimState>, turn: TurnId, agent: AgentId): set<ClaimId> {
    set c | c in claims && claims[c].turn == turn && claims[c].proposer == agent
  }

  ghost function Proposals(claims: map<ClaimId, ClaimState>, turn: TurnId, agent: AgentId): nat {
    |ProposedBy(claims, turn, agent)|
  }

  /** The candidate that has proposed least within the turn, the smallest id among equals. */
  ghost predicate IsNext(claims: map<ClaimId, ClaimState>, turn: TurnId, candidates: seq<AgentId>, agent: AgentId) {
    && agent in candidates
    && forall b :: b in candidates ==>
         var mine, theirs := Proposals(claims, turn, agent), Proposals(claims, turn, b);
         mine < theirs || (mine == theirs && agent <= b)
  }

  ghost predicate CountsSoFar(counts: map<AgentId, nat>, claims: map<ClaimId, ClaimState>, seen: set<ClaimId>, turn: TurnId) {
    forall a :: a in counts ==> counts[a] == |ProposedBy(claims, turn, a) * seen|
  }

  lemma CountOneMore(counts: map<AgentId, nat>, claims: map<ClaimId, ClaimState>, seen: set<ClaimId>, turn: TurnId, c: ClaimId)
    requires CountsSoFar(counts, claims, seen, turn) && c in claims && c !in seen
    ensures var p := claims[c].proposer;
            CountsSoFar(if claims[c].turn == turn && p in counts then counts[p := counts[p] + 1] else counts, claims, seen + {c}, turn)
  {
    hide ProposedBy;
    forall a | a in counts
      ensures |ProposedBy(claims, turn, a) * (seen + {c})|
              == |ProposedBy(claims, turn, a) * seen| + (if claims[c].turn == turn && claims[c].proposer == a then 1 else 0)
    {
      OneMoreSeen(claims, turn, a, seen, c);
    }
  }

  lemma OneMoreSeen(claims: map<ClaimId, ClaimState>, turn: TurnId, a: AgentId, seen: set<ClaimId>, c: ClaimId)
    requires c in claims && c !in seen
    ensures |ProposedBy(claims, turn, a) * (seen + {c})|
            == |ProposedBy(claims, turn, a) * seen| + (if claims[c].turn == turn && claims[c].proposer == a then 1 else 0)
  {
    var mine := ProposedBy(claims, turn, a);
    if claims[c].turn == turn && claims[c].proposer == a {
      assert mine * (seen + {c}) == mine * seen + {c};
    } else {
      assert mine * (seen + {c}) == mine * seen;
    }
  }

  lemma AllCounted(counts: map<AgentId, nat>, claims: map<ClaimId, ClaimState>, turn: TurnId)
    requires CountsSoFar(counts, claims, claims.Keys - {}, turn)
    ensures forall a :: a in counts ==> counts[a] == Proposals(claims, turn, a)
  {
    forall a | a in counts ensures counts[a] == Proposals(claims, turn, a) {
      assert ProposedBy(claims, turn, a) * (claims.Keys - {}) == ProposedBy(claims, turn, a);
    }
  }

  function Buckets(candidates: seq<AgentId>): (counts: map<AgentId, nat>)
    ensures counts.Keys == Members(candidates)
  {
    map a | a in Members(candidates) :: 0
  }

  lemma NothingCounted(claims: map<ClaimId, ClaimState>, turn: TurnId, candidates: seq<AgentId>)
    ensures CountsSoFar(Buckets(candidates), claims, claims.Keys - claims.Keys, turn)
  {
    assert forall a :: ProposedBy(claims, turn, a) * (claims.Keys - claims.Keys) == {};
  }

  /** One claim into its proposer's bucket, if it is of the turn and its proposer has one. */
  function Counted(counts: map<AgentId, nat>, st: ClaimState, turn: TurnId): (next: map<AgentId, nat>)
    ensures next.Keys == counts.Keys
  {
    if st.turn == turn && st.proposer in counts then counts[st.proposer := counts[st.proposer] + 1] else counts
  }

  lemma CountNext(counts: map<AgentId, nat>, claims: map<ClaimId, ClaimState>, rest: set<ClaimId>, turn: TurnId, c: ClaimId)
    requires c in rest && rest <= claims.Keys && CountsSoFar(counts, claims, claims.Keys - rest, turn)
    ensures CountsSoFar(Counted(counts, claims[c], turn), claims, claims.Keys - (rest - {c}), turn)
  {
    hide CountsSoFar;
    CountOneMore(counts, claims, claims.Keys - rest, turn, c);
    assert claims.Keys - (rest - {c}) == (claims.Keys - rest) + {c};
  }

  /** Count every claim of the turn into its proposer's bucket. */
  method CountProposals(claims: map<ClaimId, ClaimState>, turn: TurnId, candidates: seq<AgentId>) returns (counts: map<AgentId, nat>)
    ensures counts.Keys == Members(candidates)
    ensures forall a :: a in counts ==> counts[a] == Proposals(claims, turn, a)
  {
    hide CountsSoFar, Proposals, Members, Buckets, Counted;
    counts := Buckets(candidates);
    var rest := claims.Keys;
    NothingCounted(claims, turn, candidates);
    while rest != {}
      invariant rest <= claims.Keys && counts.Keys == Members(candidates)
      invariant CountsSoFar(counts, claims, claims.Keys - rest, turn)
      decreases |rest|
    {
      var c :| c in rest;
      CountNext(counts, claims, rest, turn, c);
      rest := rest - {c};
      counts := Counted(counts, claims[c], turn);
    }
    AllCounted(counts, claims, turn);
  }

  /** The least count wins, the smaller id among equals. */
  method NextProposer(claims: map<ClaimId, ClaimState>, turn: TurnId, candidates: seq<AgentId>) returns (r: Option<AgentId>)
    ensures r.None? <==> candidates == []
    ensures r.Some? ==> IsNext(claims, turn, candidates, r.value)
  {
    if candidates == [] {
      return None;
    }
    var counts := CountProposals(claims, turn, candidates);
    hide Proposals;
    var best := candidates[0];
    for i := 0 to |candidates|
      invariant best in candidates
      invariant forall b :: b in candidates[..i] ==> counts[best] < counts[b] || (counts[best] == counts[b] && best <= b)
    {
      var b := candidates[i];
      assert candidates[..i + 1] == candidates[..i] + [b];
      if counts[b] < counts[best] || (counts[b] == counts[best] && b < best) {
        best := b;
      }
    }
    assert candidates[..|candidates|] == candidates;
    r := Some(best);
  }

  /** A successful publish of either kind is one more proposal for its proposer, and for nobody else. */
  lemma PublishIsOneProposal(claims: map<ClaimId, ClaimState>, claim: ClaimId, st: ClaimState, turn: TurnId, agent: AgentId)
    requires claim !in claims
    ensures Proposals(claims[claim := st], turn, agent)
            == Proposals(claims, turn, agent) + (if st.turn == turn && st.proposer == agent then 1 else 0)
  {
    var before, after := ProposedBy(claims, turn, agent), ProposedBy(claims[claim := st], turn, agent);
    assert after == if st.turn == turn && st.proposer == agent then before + {claim} else before;
  }

  /** Votes leave every proposal count alone. */
  lemma VotingIsNoProposal(claims: map<ClaimId, ClaimState>, claim: ClaimId, st: ClaimState, turn: TurnId, agent: AgentId)
    requires claim in claims && st.turn == claims[claim].turn && st.proposer == claims[claim].proposer
    ensures Proposals(claims[claim := st], turn, agent) == Proposals(claims, turn, agent)
  {
    assert ProposedBy(claims[claim := st], turn, agent) == ProposedBy(claims, turn, agent);
  }

  // ----- a whole turn -----

  /**
   One turn: it starts with no proposals of its own, and whatever else happens to
   the board between claims, claim `j` is proposed by the next proposer then.
   */
  ghost predicate TurnRun(boards: seq<map<ClaimId, ClaimState>>, turn: TurnId, candidates: seq<AgentId>, proposers: seq<AgentId>) {
    && |boards| == |proposers| + 1
    && (forall a :: a in candidates ==> Proposals(boards[0], turn, a) == 0)
    && (forall j :: 0 <= j < |proposers| ==> IsNext(boards[j], turn, candidates, proposers[j]))
    && (forall j, a :: 0 <= j < |proposers| && a in candidates ==>
          Proposals(boards[j + 1], turn, a) == Proposals(boards[j], turn, a) + (if a == proposers[j] then 1 else 0))
  }

  /** The candidates in id order, repeats dropped. */
  function InOrder(candidates: seq<AgentId>): seq<AgentId> {
    NatOrder();
    Sorted(NAT_LESS, Members(candidates))
  }

  /** How far `j` turns of a wheel with `n` places have come: full rounds and the place in this one. */
  function Place(j: nat, n: nat): (p: (nat, nat))
    requires n > 0
    ensures p.1 < n && j == p.0 * n + p.1
  {
    if j == 0 then (0, 0)
    else
      var before := Place(j - 1, n);
      if before.1 + 1 == n then (before.0 + 1, 0) else (before.0, before.1 + 1)
  }

  lemma PlaceIsDivMod(j: nat, n: nat)
    requires n > 0
    ensures Place(j, n) == (j / n, j % n)
  {
    var p := Place(j, n);
    DivModUnique(j, n, p.0, p.1, j / n, j % n);
  }

  lemma Spread(q: nat, d: nat, n: nat)
    ensures (q + d) * n == q * n + d * n
    ensures d > 0 ==> d * n >= n
  {
    if d > 0 {
      assert d * n == n + (d - 1) * n;
    }
  }

  lemma DivModUnique(j: nat, n: nat, q: nat, r: nat, q': nat, r': nat)
    requires j == q * n + r && j == q' * n + r' && r < n && r' < n
    ensures q == q' && r == r'
  {
    if q <= q' {
      Spread(q, q' - q, n);
    } else {
      Spread(q', q - q', n);
    }
  }

  ghost predicate Lists(order: seq<AgentId>, candidates: seq<AgentId>) {
    && (forall i :: 0 <= i < |order| ==> order[i] in candidates)
    && (forall a :: a in candidates ==> exists i :: 0 <= i < |order| && order[i] == a)
    && (forall i, j :: 0 <= i < j < |order| ==> order[i] < order[j])
  }

  /** The first `place` candidates in id order are one proposal ahead of the rest. */
  ghost predicate CountsAt(claims: map<ClaimId, ClaimState>, turn: TurnId, order: seq<AgentId>, round: nat, place: nat) {
    forall i :: 0 <= i < |order| ==> Proposals(claims, turn, order[i]) == round + (if i < place then 1 else 0)
  }

  lemma NextIsAtThePlace(claims: map<ClaimId, ClaimState>, turn: TurnId, candidates: seq<AgentId>, order: seq<AgentId>, round: nat, place: nat, next: AgentId)
    requires Lists(order, candidates) && place < |order| && CountsAt(claims, turn, order, round, place)
    requires IsNext(claims, turn, candidates, next)
    ensures next == order[place]
  {
    hide Proposals;
    var k :| 0 <= k < |order| && order[k] == next;
    assert order[place] in candidates;
  }

  lemma OneStepRound(before: map<ClaimId, ClaimState>, after: map<ClaimId, ClaimState>, turn: TurnId, order: seq<AgentId>, round: nat, place: nat)
    requires place < |order| && CountsAt(before, turn, order, round, place)
    requires forall i, j :: 0 <= i < j < |order| ==> order[i] < order[j]
    requires forall i :: 0 <= i < |order| ==>
               Proposals(after, turn, order[i]) == Proposals(before, turn, order[i]) + (if order[i] == order[place] then 1 else 0)
    ensures if place + 1 == |order| then CountsAt(after, turn, order, round + 1, 0) else CountsAt(after, turn, order, round, place + 1)
  {
    hide Proposals;
    assert forall i :: 0 <= i < |order| && i != place ==> order[i] != order[place];
  }

  lemma InOrderLists(candidates: seq<AgentId>)
    ensures Lists(InOrder(candidates), candidates)
    ensures candidates != [] ==> |InOrder(candidates)| > 0
  {
    NatOrder();
    var order := InOrder(candidates);
    assert order == Sorted(NAT_LESS, Members(candidates));
    assert candidates != [] ==> candidates[0] in Members(candidates) && candidates[0] in order;
    forall i, j | 0 <= i < j < |order| ensures order[i] < order[j] {
      assert NAT_LESS(order[i], order[j]);
    }
    forall i | 0 <= i < |order| ensures order[i] in candidates {
      assert order[i] in order && order[i] in Members(candidates);
    }
    forall a | a in candidates ensures exists i :: 0 <= i < |order| && order[i] == a {
      assert a in Members(candidates) && a in order;
    }
  }

  lemma {:induction false} CountsGoRound(boards: seq<map<ClaimId, ClaimState>>, turn: TurnId, candidates: seq<AgentId>, proposers: seq<AgentId>, order: seq<AgentId>, j: nat)
    requires TurnRun(boards, turn, candidates, proposers) && j <= |proposers|
    requires |order| > 0 && Lists(order, candidates)
    ensures CountsAt(boards[j], turn, order, Place(j, |order|).0, Place(j, |order|).1)
    ensures j < |proposers| ==> proposers[j] == order[Place(j, |order|).1]
  {
    hide Proposals;
    if j > 0 {
      var before := Place(j - 1, |order|);
      CountsGoRound(boards, turn, candidates, proposers, order, j - 1);
      forall i | 0 <= i < |order|
        ensures Proposals(boards[j], turn, order[i]) == Proposals(boards[j - 1], turn, order[i]) + (if order[i] == proposers[j - 1] then 1 else 0)
      {
        assert boards[j] == boards[(j - 1) + 1] && order[i] in candidates;
      }
      OneStepRound(boards[j - 1], boards[j], turn, order, before.0, before.1);
    }
    if j < |proposers| {
      NextIsAtThePlace(boards[j], turn, candidates, order, Place(j, |order|).0, Place(j, |order|).1, proposers[j]);
    }
  }

  /** Claim number `j` of a turn is proposed by candidate number `j mod n` in id order. */
  lemma RotationIsRoundRobin(boards: seq<map<ClaimId, ClaimState>>, turn: TurnId, candidates: seq<AgentId>, proposers: seq<AgentId>, j: nat)
    requires TurnRun(boards, turn, candidates, proposers) && candidates != [] && j < |proposers|
    ensures |InOrder(candidates)| > 0 && proposers[j] == InOrder(candidates)[j % |InOrder(candidates)|]
  {
    InOrderLists(candidates);
    hide TurnRun, InOrder;
    CountsGoRound(boards, turn, candidates, proposers, InOrder(candidates), j);
    PlaceIsDivMod(j, |InOrder(candidates)|);
  }

  /** At no point of a turn are two candidates' counts more than one apart. */
  lemma RotationIsFair(boards: seq<map<ClaimId, ClaimState>>, turn: TurnId, candidates: seq<AgentId>, proposers: seq<AgentId>, j: nat, a: AgentId, b: AgentId)
    requires TurnRun(boards, turn, candidates, proposers) && j <= |proposers| && a in candidates && b in candidates
    ensures Proposals(boards[j], turn, a) <= Proposals(boards[j], turn, b) + 1
  {
    InOrderLists(candidates);
    hide Proposals, InOrder;
    var order := InOrder(candidates);
    CountsGoRound(boards, turn, candidates, proposers, order, j);
    var i :| 0 <= i < |order| && order[i] == a;
    var k :| 0 <= k < |order| && order[k] == b;
  }

  lemma PlaceShifts(start: nat, i: nat, n: nat)
    requires i < n
    ensures (start + i) % n == (if start % n + i < n then start % n + i else start % n + i - n)
  {
    var p, q := start % n, start / n;
    assert start == q * n + p;
    Spread(q, 1, n);
    if p + i < n {
      DivModUnique(start + i, n, q, p + i, (start + i) / n, (start + i) % n);
    } else {
      DivModUnique(start + i, n, q + 1, p + i - n, (start + i) / n, (start + i) % n);
    }
  }

  /** The entry `i` places on from place `p`, going round. */
  function Turned(order: seq<AgentId>, p: nat, i: nat): AgentId
    requires p < |order| && i < |order|
  {
    order[if p + i < |order| then p + i else p + i - |order|]
  }

  /** Reading the list round from any place visits each entry exactly once. */
  lemma TurningVisitsAll(order: seq<AgentId>, p: nat, window: seq<AgentId>, candidates: seq<AgentId>)
    requires p < |order| == |window| && Lists(order, candidates)
    requires forall i :: 0 <= i < |order| ==> window[i] == Turned(order, p, i)
    ensures NoRepeats(window) && Members(window) == Members(order)
  {
    forall a | a in order ensures a in window {
      var k :| 0 <= k < |order| && order[k] == a;
      assert window[if k >= p then k - p else k - p + |order|] == a;
    }
  }

  lemma WindowTurns(boards: seq<map<ClaimId, ClaimState>>, turn: TurnId, candidates: seq<AgentId>, proposers: seq<AgentId>, start: nat, order: seq<AgentId>, i: nat)
    requires TurnRun(boards, turn, candidates, proposers) && candidates != [] && order == InOrder(candidates)
    requires i < |order| && start + |order| <= |proposers|
    ensures proposers[start + i] == Turned(order, Place(start, |order|).1, i)
  {
    hide TurnRun, InOrder;
    RotationIsRoundRobin(boards, turn, candidates, proposers, start + i);
    PlaceIsDivMod(start, |order|);
    PlaceShifts(start, i, |order|);
  }

  /** Any n claims in a row, wherever they start, use each candidate exactly once. */
  lemma EveryWindowUsesEachOnce(boards: seq<map<ClaimId, ClaimState>>, turn: TurnId, candidates: seq<AgentId>, proposers: seq<AgentId>, start: nat, n: nat)
    requires TurnRun(boards, turn, candidates, proposers) && candidates != []
    requires n == |InOrder(candidates)| && start + n <= |proposers|
    ensures NoRepeats(proposers[start..start + n]) && Members(proposers[start..start + n]) == Members(candidates)
  {
    var order := InOrder(candidates);
    InOrderLists(candidates);
    hide TurnRun, InOrder, Lists, Members, NoRepeats, Turned, Place;
    SameMembers(order, candidates);
    var p, window := Place(start, n).1, proposers[start..start + n];
    forall i | 0 <= i < n ensures window[i] == Turned(order, p, i) {
      WindowTurns(boards, turn, candidates, proposers, start, order, i);
    }
    TurningVisitsAll(order, p, window, candidates);
  }

  lemma SameMembers(order: seq<AgentId>, candidates: seq<AgentId>)
    requires Lists(order, candidates)
    ensures Members(order) == Members(candidates)
  {
  }
}

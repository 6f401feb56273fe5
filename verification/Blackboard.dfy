/**
 The board and its store as the code runs them: rows written statement by
 statement inside a transaction, memory touched only after the commit, and
 `open` replaying the rows in nested loops.
 */
module Blackboard {
  import opened Optional
  import opened Ordering
  import opened Quorum
  import opened Board
  import opened BoardRuns
  import opened Reopening

  class Store {
    var claims: map<ClaimId, ClaimRow>
    var validators: set<(ClaimId, AgentId)>
    var votes: map<(ClaimId, AgentId), string>

    function Rows(): Tables
      reads this
    {
      Tables(claims, validators, votes)
    }

    constructor ()
      ensures Rows() == NO_ROWS
    {
      claims, validators, votes := map[], {}, map[];
    }

    /** One INSERT for the claim and one per validator; stops at the first constraint violated. */
    method InsertClaim(claim: ClaimId, row: ClaimRow, roster: seq<AgentId>) returns (ok: bool)
      modifies this
      ensures ok <==> CanInsert(old(Rows()), claim, row, roster)
      ensures ok ==> Rows() == Inserted(old(Rows()), claim, row, roster)
    {
      if claim in claims || !RowAllowed(row) {
        return false;
      }
      claims := claims[claim := row];
      for i := 0 to |roster|
        invariant claims == old(claims)[claim := row] && votes == old(votes)
        invariant NoRepeats(roster[..i]) && forall a :: a in roster[..i] ==> (claim, a) !in old(validators)
        invariant validators == old(validators) + (set a | a in roster[..i] :: (claim, a))
      {
        var key := (claim, roster[i]);
        assert roster[..i + 1] == roster[..i] + [roster[i]];
        if key in validators {
          assert roster[i] in roster;
          return false;
        }
        validators := validators + {key};
      }
      assert roster[..|roster|] == roster;
      ok := true;
    }

    /** UPDATE ... WHERE status = 'open'; says whether a row changed. */
    method UpdateStatus(claim: ClaimId, status: string) returns (changed: bool)
      modifies this`claims
      ensures changed <==> claim in old(claims) && old(claims)[claim].status == "open"
      ensures claims == if changed then old(claims)[claim := old(claims)[claim].(status := status)] else old(claims)
    {
      changed := claim in claims && claims[claim].status == "open";
      if changed {
        claims := claims[claim := claims[claim].(status := status)];
      }
    }

    method InsertVote(claim: ClaimId, voter: AgentId, vote: Vote) returns (ok: bool)
      modifies this`votes
      ensures ok <==> (claim, voter) !in old(votes)
      ensures votes == if ok then old(votes)[(claim, voter) := VoteText(vote)] else old(votes)
    {
      ok := (claim, voter) !in votes;
      if ok {
        votes := votes[(claim, voter) := VoteText(vote)];
      }
    }

    /** A transaction that fails leaves the rows it began with. */
    method Rollback(began: Tables)
      modifies this
      ensures Rows() == began
    {
      claims, validators, votes := began.claims, began.validators, began.votes;
    }
  }

  /** The votes of one claim parsed in voter order; `None` at the first text that is not a vote. */
  method ReadVotes(rows: Tables, claim: ClaimId) returns (r: Option<seq<(AgentId, Vote)>>)
    ensures r == ParsedVotes(rows, claim, VotersOf(rows, claim))
  {
    var voters := VotersOf(rows, claim);
    hide VotersOf, SortedNats;
    var votes: seq<(AgentId, Vote)> := [];
    var bad := false;
    for i := 0 to |voters|
      invariant ParsedVotes(rows, claim, voters[..i]) == if bad then None else Some(votes)
    {
      var key := (claim, voters[i]);
      assert voters[..i + 1][..i] == voters[..i];
      if !bad {
        if key !in rows.votes {
          bad := true;
        } else {
          var parsed := VoteFromText(rows.votes[key]);
          match parsed
          case Some(vote) => votes := votes + [(voters[i], vote)];
          case None => bad := true;
        }
      }
    }
    assert voters[..|voters|] == voters;
    r := if bad then None else Some(votes);
  }

  /** Feed a claim's stored votes back into an empty roster, one slot at a time. */
  method HydrateOne(row: ClaimRow, roster: seq<AgentId>, votes: seq<(AgentId, Vote)>) returns (r: Option<ClaimState>)
    ensures r == Hydrated(row, roster, votes)
  {
    var start := StartReplay(row, roster);
    var tally, validators, inconsistent := start.tally, start.validators, false;
    for i := 0 to |votes|
      invariant tally.Valid()
      invariant ReplayAll(start, votes[..i]) == Replay(tally, validators, !inconsistent)
    {
      assert votes[..i + 1][..i] == votes[..i];
      var voter, vote := votes[i].0, votes[i].1;
      if voter in validators && validators[voter].None? {
        validators := validators[voter := Some(vote)];
        var recorded := tally.Record(vote);
        match recorded
        case Counted(next, _) => tally := next;
        case Overfull(_) => inconsistent := true;
      } else {
        inconsistent := true;
      }
    }
    assert votes[..|votes|] == votes;
    if inconsistent {
      return None;
    }
    var status: QuorumStatus;
    if row.status == "open" {
      status := tally.Status();
    } else if row.status == "reached" {
      status := Reached;
    } else if row.status == "unreachable" {
      status := Unreachable;
    } else {
      return None;
    }
    r := Some(ClaimState(row.turn, row.proposer, row.body, StoredCohort(row), tally, status, validators));
  }

  method HydrateClaim(rows: Tables, claim: ClaimId) returns (r: Option<ClaimState>)
    requires claim in rows.claims
    ensures r == HydratedClaim(rows, claim)
  {
    var votes := ReadVotes(rows, claim);
    if votes.None? {
      return None;
    }
    r := HydrateOne(rows.claims[claim], RosterOf(rows, claim), votes.value);
  }

  lemma OneBadClaimRefusesAll(rows: Tables, c: ClaimId)
    requires c in rows.claims && HydratedClaim(rows, c).None?
    ensures Reopened(rows).None?
  {
  }

  lemma AllHydrated(rows: Tables, claims: map<ClaimId, ClaimState>)
    requires claims.Keys == rows.claims.Keys
    requires forall c :: c in claims ==> HydratedClaim(rows, c) == Some(claims[c])
    ensures Reopened(rows) == Some(claims)
  {
    hide HydratedClaim;
    assert claims == map c | c in rows.claims :: HydratedClaim(rows, c).value;
  }

  /** Every stored claim in id order; the first that cannot be reproduced refuses the whole store. */
  method ReadAll(rows: Tables) returns (r: Option<map<ClaimId, ClaimState>>)
    ensures r == Reopened(rows)
  {
    hide HydratedClaim, Reopened, SortedNats;
    var ids := SortedNats(rows.claims.Keys);
    var claims: map<ClaimId, ClaimState> := map[];
    for i := 0 to |ids|
      invariant forall j :: 0 <= j < i ==> ids[j] in claims
      invariant forall c :: c in claims ==> c in rows.claims && HydratedClaim(rows, c) == Some(claims[c])
    {
      var c := ids[i];
      var hydrated := HydrateClaim(rows, c);
      if hydrated.None? {
        OneBadClaimRefusesAll(rows, c);
        return None;
      }
      claims := claims[c := hydrated.value];
    }
    forall c | c in rows.claims ensures c in claims {
      assert c in ids;
    }
    AllHydrated(rows, claims);
    r := Some(claims);
  }

  class Blackboard {
    const store: Store
    var claims: map<ClaimId, ClaimState>

    function State(): BoardState
      reads this, store
    {
      BoardState(claims, store.Rows())
    }

    ghost predicate Valid()
      reads this, store
    {
      BoardInv(State())
    }

    constructor (store: Store, claims: map<ClaimId, ClaimState>)
      ensures this.store == store && this.claims == claims
    {
      this.store, this.claims := store, claims;
    }

    /** Hydrate every stored claim, or refuse the store as malformed. */
    static method Open(store: Store) returns (board: Blackboard?)
      ensures board == null <==> Reopened(store.Rows()).None?
      ensures board != null ==> fresh(board) && board.store == store && board.claims == Reopened(store.Rows()).value
    {
      var rows := store.Rows();
      var claims := ReadAll(rows);
      if claims.None? {
        return null;
      }
      board := new Blackboard(store, claims.value);
    }

    method Publish(claim: ClaimId, turn: TurnId, proposer: AgentId, validators: seq<AgentId>, body: string, commits: bool)
      returns (r: Published)
      requires Valid()
      modifies this`claims, store
      ensures Valid()
      ensures (State(), r) == PublishOn(old(State()), claim, turn, proposer, validators, body, commits)
    {
      PublishKeepsInv(State(), claim, turn, proposer, validators, body, commits);
      hide BoardInv;
      var k := |validators| + 1;
      if proposer in validators {
        return PublishRefused(NotAProposer);
      }
      if Utf8Length(body) > MAX_BODY_BYTES {
        return PublishRefused(StoreRefused);
      }
      var began := store.Rows();
      var inserted := store.InsertClaim(claim, ClaimRow(turn, proposer, body, k, "open"), validators);
      if !inserted || !commits {
        store.Rollback(began);
        return PublishRefused(StoreRefused);
      }
      claims := claims[claim := Fresh(turn, proposer, body, k, OrdinaryTally(k), validators)];
      r := PublishedAs(claim);
    }

    method PublishBlind(claim: ClaimId, turn: TurnId, proposer: AgentId, body: string, commits: bool) returns (r: Published)
      requires Valid()
      modifies this`claims, store
      ensures Valid()
      ensures (State(), r) == PublishBlindOn(old(State()), claim, turn, proposer, body, commits)
    {
      PublishKeepsInv(State(), claim, turn, proposer, [], body, commits);
      hide BoardInv;
      if Utf8Length(body) > MAX_BODY_BYTES {
        return PublishRefused(StoreRefused);
      }
      var began := store.Rows();
      var inserted := store.InsertClaim(claim, ClaimRow(turn, proposer, body, BLIND_COHORT, "open"), [proposer]);
      if !inserted || !commits {
        store.Rollback(began);
        return PublishRefused(StoreRefused);
      }
      claims := claims[claim := Fresh(turn, proposer, body, BLIND_COHORT, NewTally(BLIND_COHORT), [proposer])];
      r := PublishedAs(claim);
    }

    method Vote(claim: ClaimId, voter: AgentId, vote: Vote, commits: bool) returns (r: Voted)
      requires Valid()
      modifies this`claims, store
      ensures Valid() && TalliesValid(old(State()))
      ensures (State(), r) == VoteOn(old(State()), claim, voter, vote, commits)
    {
      VoteKeepsInv(State(), claim, voter, vote, commits);
      hide BoardInv;
      if claim !in claims {
        return VoteRefused(UnknownClaim);
      }
      var state := claims[claim];
      if state.status != QuorumStatus.Open {
        return VoteRefused(ClaimClosed);
      }
      if voter == state.proposer {
        return VoteRefused(NotAProposer);
      }
      r := RecordVote(claim, voter, vote, commits);
    }

    method VoteBlind(claim: ClaimId, voter: AgentId, vote: Vote, commits: bool) returns (r: Voted)
      requires Valid()
      modifies this`claims, store
      ensures Valid() && TalliesValid(old(State()))
      ensures (State(), r) == VoteBlindOn(old(State()), claim, voter, vote, commits)
    {
      VoteKeepsInv(State(), claim, voter, vote, commits);
      hide BoardInv;
      if claim !in claims {
        return VoteRefused(UnknownClaim);
      }
      var state := claims[claim];
      if state.status != QuorumStatus.Open {
        return VoteRefused(ClaimClosed);
      }
      if state.proposer != voter || state.k != 1 || |state.validators| != 1 {
        return VoteRefused(NotInCohort);
      }
      r := RecordVote(claim, voter, vote, commits);
    }

    /** The tally is tried on a copy; memory changes only once the vote and any closing have committed together. */
    method RecordVote(claim: ClaimId, voter: AgentId, vote: Vote, commits: bool) returns (r: Voted)
      requires claim in claims && claims[claim].tally.Valid()
      modifies this`claims, store
      ensures (State(), r) == RecordOn(old(State()), claim, voter, vote, commits)
    {
      var state := claims[claim];
      if voter !in state.validators {
        return VoteRefused(NotInCohort);
      }
      if state.validators[voter].Some? {
        return VoteRefused(DuplicateVote);
      }
      var recorded := state.tally.Record(vote);
      if recorded.Overfull? {
        return VoteRefused(TallyRefused);
      }
      var tally, status := recorded.tally, recorded.status;
      var began := store.Rows();
      var ok := store.InsertVote(claim, voter, vote);
      if ok && status != QuorumStatus.Open {
        ok := store.UpdateStatus(claim, StatusText(status));
      }
      if !ok || !commits {
        store.Rollback(began);
        return VoteRefused(StoreRefused);
      }
      claims := claims[claim := state.(tally := tally, status := status, validators := state.validators[voter := Some(vote)])];
      r := VotedTo(status, tally);
    }
  }
}

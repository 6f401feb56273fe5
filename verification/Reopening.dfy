/**
 Re-opening the store: every run of the board, with failed transactions and
 restarts anywhere in it, and what hydration then gives back.
 */
module Reopening {
  import opened Optional
  import opened Ordering
  import opened Quorum
  import opened Board
  import opened BoardRuns

  // ----- one claim -----

  /** The slots as they stand once only the voters in `done` have been replayed. */
  ghost function Partial(m: map<AgentId, Option<Vote>>, done: seq<AgentId>): map<AgentId, Option<Vote>> {
    map a | a in m :: if a in done then m[a] else None
  }

  ghost predicate Spoke(m: map<AgentId, Option<Vote>>, voters: seq<AgentId>) {
    && (forall a :: a in voters ==> a in m && m[a].Some?)
    && (forall i, j :: 0 <= i < j < |voters| ==> voters[i] != voters[j])
  }

  ghost function Ballots(m: map<AgentId, Option<Vote>>, voters: seq<AgentId>): seq<(AgentId, Vote)>
    requires Spoke(m, voters)
  {
    seq(|voters|, i requires 0 <= i < |voters| => (voters[i], m[voters[i]].value))
  }

  lemma PartialStep(m: map<AgentId, Option<Vote>>, front: seq<AgentId>, a: AgentId)
    requires a in m && m[a].Some? && a !in front
    ensures a in Partial(m, front) && Partial(m, front)[a].None? && |Partial(m, front)| == |m|
    ensures Partial(m, front)[a := m[a]] == Partial(m, front + [a])
  {
    assert Partial(m, front).Keys == m.Keys;
  }

  /** Replaying distinct voters fills exactly their slots and counts exactly their votes. */
  lemma {:induction false} ReplayFillsTheSlots(base: Tally, m: map<AgentId, Option<Vote>>, voters: seq<AgentId>)
    requires base.Valid() && base.Pending() == |m| && Spoke(m, voters)
    ensures var r := ReplayAll(Replay(base, EmptyRoster(m.Keys), true), Ballots(m, voters));
            r.consistent && r.validators == Partial(m, voters) && Counts(r.tally, base, r.validators)
    decreases |voters|
  {
    var start := Replay(base, EmptyRoster(m.Keys), true);
    var votes := Ballots(m, voters);
    if voters == [] {
      NothingFilledYet(base, m.Keys);
      assert EmptyRoster(m.Keys) == Partial(m, voters);
    } else {
      var front, a := voters[..|voters| - 1], voters[|voters| - 1];
      assert voters == front + [a];
      ReplayFillsTheSlots(base, m, front);
      assert votes[..|votes| - 1] == Ballots(m, front);
      var r := ReplayAll(start, Ballots(m, front));
      PartialStep(m, front, a);
      FillingCountsOne(r.tally, base, r.validators, a, m[a].value);
    }
  }

  /** The voters of a claim are those with a row for it, each once. */
  lemma VotersHaveRows(t: Tables, c: ClaimId)
    ensures forall a :: a in VotersOf(t, c) <==> (c, a) in t.votes
    ensures forall i, j :: 0 <= i < j < |VotersOf(t, c)| ==> VotersOf(t, c)[i] != VotersOf(t, c)[j]
  {
    NatOrder();
    AscendingIsDistinct(NAT_LESS, VotersOf(t, c));
    var stored := set p | p in t.votes && p.0 == c :: p.1;
    forall a ensures a in stored <==> (c, a) in t.votes {
      assert (c, a) in t.votes ==> (c, a).1 in stored;
    }
  }

  lemma VotersSpoke(t: Tables, c: ClaimId, st: ClaimState)
    requires RowSound(t, c, st)
    ensures Spoke(st.validators, VotersOf(t, c))
    ensures Partial(st.validators, VotersOf(t, c)) == st.validators
  {
    VotersHaveRows(t, c);
    hide VotersOf;
  }

  lemma {:induction false} StoredVotesParse(t: Tables, c: ClaimId, st: ClaimState, voters: seq<AgentId>)
    requires RowSound(t, c, st) && Spoke(st.validators, voters)
    ensures ParsedVotes(t, c, voters) == Some(Ballots(st.validators, voters))
    decreases |voters|
  {
    if voters == [] {
      assert Ballots(st.validators, voters) == [];
    } else {
      var front, a := voters[..|voters| - 1], voters[|voters| - 1];
      assert voters == front + [a];
      SpokeFront(st.validators, voters);
      StoredVotesParse(t, c, st, front);
      StoredVoteIsCast(t, c, st, a);
      hide RowSound, VoteFromText;
      assert Ballots(st.validators, voters) == Ballots(st.validators, front) + [(a, st.validators[a].value)];
      assert ParsedVotes(t, c, front) == Some(Ballots(st.validators, front));
      assert ParsedVotes(t, c, voters) == Some(Ballots(st.validators, front) + [(a, st.validators[a].value)]);
    }
  }

  lemma SpokeFront(m: map<AgentId, Option<Vote>>, voters: seq<AgentId>)
    requires Spoke(m, voters) && voters != []
    ensures Spoke(m, voters[..|voters| - 1]) && voters[|voters| - 1] in m && m[voters[|voters| - 1]].Some?
  {
    assert voters[|voters| - 1] in voters;
    assert forall a :: a in voters[..|voters| - 1] ==> a in voters;
  }

  lemma StoredVoteIsCast(t: Tables, c: ClaimId, st: ClaimState, a: AgentId)
    requires RowSound(t, c, st) && a in st.validators && st.validators[a].Some?
    ensures (c, a) in t.votes && VoteFromText(t.votes[(c, a)]) == Some(st.validators[a].value)
  {
    assert (c, a) in t.votes && t.votes[(c, a)] == VoteText(st.validators[a].value);
  }

  /** The roster is read back whole, and the claim's kind can be read off it. */
  lemma RosterComesBack(t: Tables, c: ClaimId, st: ClaimState)
    requires RowSound(t, c, st) && (Blind(st) || Ordinary(st))
    ensures Members(RosterOf(t, c)) == st.validators.Keys
    ensures LooksBlind(t.claims[c], RosterOf(t, c)) <==> Blind(st)
    ensures StartReplay(t.claims[c], RosterOf(t, c)) == Replay(Base(st), EmptyRoster(st.validators.Keys), true)
  {
    NatOrder();
    var roster := RosterOf(t, c);
    var stored := set p | p in t.validators && p.0 == c :: p.1;
    assert forall a :: a in stored ==> (c, a) in t.validators;
    assert forall a :: a in st.validators ==> (c, a) in t.validators && (c, a).1 in stored;
    assert stored == st.validators.Keys;
    assert Members(roster) == stored;
    if |roster| == 1 {
      assert roster[0] in st.validators.Keys;
      assert Members(roster) == {roster[0]};
    }
    if Blind(st) {
      assert |roster| == |{st.proposer}| == 1;
      assert roster[0] in st.validators.Keys;
    }
  }

  /** Hydration undoes the code's one slip: a claim with no validators comes back closed. */
  ghost function Settled(st: ClaimState): ClaimState {
    if st.validators == map[] then st.(status := Reached) else st
  }

  lemma HydrationSettles(t: Tables, c: ClaimId, st: ClaimState)
    requires RowSound(t, c, st) && ClaimSound(st)
    ensures HydratedClaim(t, c) == Some(Settled(st))
  {
    hide VotersOf, RosterOf, Counts, ReplayAll, ParsedVotes, LooksBlind;
    var voters, base := VotersOf(t, c), Base(st);
    VotersSpoke(t, c, st);
    StoredVotesParse(t, c, st, voters);
    RosterComesBack(t, c, st);
    EveryoneElseIsPending(st);
    ReplayFillsTheSlots(base, st.validators, voters);
    var r := ReplayAll(Replay(base, EmptyRoster(st.validators.Keys), true), Ballots(st.validators, voters));
    CountsIsExact(r.tally, st.tally, base, st.validators);
    if st.validators == map[] {
      AloneIsReached(st);
    }
  }

  /** With no validators to ask, the proposer's own vote already carries the claim. */
  lemma AloneIsReached(st: ClaimState)
    requires ClaimSound(st) && st.validators == map[]
    ensures st.tally.Status() == Reached
  {
    assert st.k == 1;
    assert Backers(st.validators, Yes) == {};
  }

  // ----- the whole board -----

  lemma RowsAndMemoryNameTheSameClaims(s: BoardState)
    requires BoardInv(s)
    ensures s.tables.claims.Keys == s.claims.Keys
  {
    forall c | c in s.claims ensures c in s.tables.claims {
      assert HeldClaimOk(s, c);
    }
  }

  lemma EveryClaimHydrates(s: BoardState, c: ClaimId)
    requires BoardInv(s) && c in s.tables.claims
    ensures c in s.claims && HydratedClaim(s.tables, c) == Some(Settled(s.claims[c]))
  {
    assert HeldClaimOk(s, c);
    HydrationSettles(s.tables, c, s.claims[c]);
  }

  /** Re-opening succeeds, and is `Settled` on the claim asked about. */
  lemma ReopenSettles(s: BoardState, c: ClaimId)
    requires BoardInv(s)
    ensures Reopened(s.tables).Some? && Reopened(s.tables).value.Keys == s.claims.Keys
    ensures c in s.claims ==> HeldClaimOk(s, c) && Reopened(s.tables).value[c] == Settled(s.claims[c])
  {
    hide HydratedClaim, HeldClaimOk;
    RowsAndMemoryNameTheSameClaims(s);
    forall x | x in s.tables.claims ensures HydratedClaim(s.tables, x).Some? {
      EveryClaimHydrates(s, x);
    }
    if c in s.claims {
      EveryClaimHydrates(s, c);
    }
  }

  // ----- runs -----

  datatype Op =
    | Publish(claim: ClaimId, turn: TurnId, proposer: AgentId, validators: seq<AgentId>, body: string, commits: bool)
    | PublishBlind(claim: ClaimId, turn: TurnId, proposer: AgentId, body: string, commits: bool)
    | CastVote(claim: ClaimId, voter: AgentId, vote: Vote, commits: bool)
    | CastBlind(claim: ClaimId, voter: AgentId, vote: Vote, commits: bool)
    | Restart

  const EMPTY_BOARD: BoardState := BoardState(map[], NO_ROWS)

  ghost predicate TalliesValid(s: BoardState) {
    forall c :: c in s.claims ==> s.claims[c].tally.Valid()
  }

  ghost function Do(s: BoardState, op: Op): BoardState
    requires TalliesValid(s)
  {
    match op
    case Publish(claim, turn, proposer, validators, body, commits) => PublishOn(s, claim, turn, proposer, validators, body, commits).0
    case PublishBlind(claim, turn, proposer, body, commits) => PublishBlindOn(s, claim, turn, proposer, body, commits).0
    case CastVote(claim, voter, vote, commits) => VoteOn(s, claim, voter, vote, commits).0
    case CastBlind(claim, voter, vote, commits) => VoteBlindOn(s, claim, voter, vote, commits).0
    case Restart =>
      match Reopened(s.tables)
      case Some(claims) => BoardState(claims, s.tables)
      case None => s
  }

  ghost predicate Run(s: BoardState, ops: seq<Op>, t: BoardState)
    decreases |ops|
  {
    if ops == [] then s == t
    else TalliesValid(s) && Run(Do(s, ops[0]), ops[1..], t)
  }

  lemma EmptyBoardOk()
    ensures BoardInv(EMPTY_BOARD)
  {
  }

  lemma InvMakesTalliesValid(s: BoardState)
    requires BoardInv(s)
    ensures TalliesValid(s)
  {
    forall c | c in s.claims ensures s.claims[c].tally.Valid() {
      assert HeldClaimOk(s, c);
    }
  }

  lemma WhatSettlingChanges(st: ClaimState)
    requires ClaimSound(st)
    ensures Settled(st) == st <==> !(st.validators == map[] && st.status == Open)
  {
  }

  lemma SettledIsSound(t: Tables, c: ClaimId, st: ClaimState)
    requires ClaimSound(st) && RowSound(t, c, st)
    ensures ClaimSound(Settled(st)) && RowSound(t, c, Settled(st))
  {
  }

  lemma RestartKeepsClaim(s: BoardState, c: ClaimId)
    requires BoardInv(s) && TalliesValid(s) && c in Do(s, Restart).claims
    ensures HeldClaimOk(Do(s, Restart), c)
  {
    hide HydratedClaim, ClaimSound, RowSound;
    ReopenSettles(s, c);
    SettledIsSound(s.tables, c, s.claims[c]);
  }

  lemma RestartKeepsInv(s: BoardState)
    requires BoardInv(s) && TalliesValid(s)
    ensures BoardInv(Do(s, Restart))
  {
    var s' := Do(s, Restart);
    forall c | c in s'.claims ensures HeldClaimOk(s', c) {
      RestartKeepsClaim(s, c);
    }
    assert s'.claims.Keys == s.claims.Keys && s'.tables == s.tables by { ReopenSettles(s, 0); }
    RowsAndMemoryNameTheSameClaims(s);
  }

  lemma PublishKeepsInv(s: BoardState, claim: ClaimId, turn: TurnId, proposer: AgentId, validators: seq<AgentId>, body: string, commits: bool)
    requires BoardInv(s)
    ensures BoardInv(PublishOn(s, claim, turn, proposer, validators, body, commits).0)
    ensures BoardInv(PublishBlindOn(s, claim, turn, proposer, body, commits).0)
  {
    hide BoardInv, Insert, Utf8Length;
    var k := |validators| + 1;
    if proposer !in validators && Utf8Length(body) <= MAX_BODY_BYTES {
      InsertKeepsInv(s, claim, Fresh(turn, proposer, body, k, OrdinaryTally(k), validators), validators, commits);
    }
    if Utf8Length(body) <= MAX_BODY_BYTES {
      var st := Fresh(turn, proposer, body, BLIND_COHORT, NewTally(BLIND_COHORT), [proposer]);
      InsertKeepsInv(s, claim, st, [proposer], commits);
    }
  }

  /** Either kind of vote changes the board only through the shared tail, and only on an open claim. */
  lemma VotesOnlyRecord(s: BoardState, claim: ClaimId, voter: AgentId, vote: Vote, commits: bool)
    requires TalliesValid(s)
    ensures VoteOn(s, claim, voter, vote, commits).0 == s
            || (claim in s.claims && s.claims[claim].status == Open
                && VoteOn(s, claim, voter, vote, commits).0 == RecordOn(s, claim, voter, vote, commits).0)
    ensures VoteBlindOn(s, claim, voter, vote, commits).0 == s
            || (claim in s.claims && s.claims[claim].status == Open
                && VoteBlindOn(s, claim, voter, vote, commits).0 == RecordOn(s, claim, voter, vote, commits).0)
  {
  }

  lemma VoteKeepsInv(s: BoardState, claim: ClaimId, voter: AgentId, vote: Vote, commits: bool)
    requires BoardInv(s)
    ensures TalliesValid(s)
    ensures BoardInv(VoteOn(s, claim, voter, vote, commits).0)
    ensures BoardInv(VoteBlindOn(s, claim, voter, vote, commits).0)
  {
    InvMakesTalliesValid(s);
    VotesOnlyRecord(s, claim, voter, vote, commits);
    assert claim in s.claims ==> HeldClaimOk(s, claim);
    hide BoardInv, HeldClaimOk, VoteOn, VoteBlindOn, RecordOn;
    if claim in s.claims && s.claims[claim].status == Open {
      RecordKeepsInv(s, claim, voter, vote, commits);
    }
  }

  lemma DoKeepsInv(s: BoardState, op: Op)
    requires BoardInv(s)
    ensures TalliesValid(s) && BoardInv(Do(s, op))
  {
    InvMakesTalliesValid(s);
    hide BoardInv, TalliesValid;
    match op
    case Publish(claim, turn, proposer, validators, body, commits) =>
      PublishKeepsInv(s, claim, turn, proposer, validators, body, commits);
    case PublishBlind(claim, turn, proposer, body, commits) =>
      PublishKeepsInv(s, claim, turn, proposer, [], body, commits);
    case CastVote(claim, voter, vote, commits) => VoteKeepsInv(s, claim, voter, vote, commits);
    case CastBlind(claim, voter, vote, commits) => VoteKeepsInv(s, claim, voter, vote, commits);
    case Restart => RestartKeepsInv(s);
  }

  lemma {:induction false} RunKeepsInv(s: BoardState, ops: seq<Op>, t: BoardState)
    requires BoardInv(s) && Run(s, ops, t)
    ensures BoardInv(t)
    decreases |ops|
  {
    if ops != [] {
      DoKeepsInv(s, ops[0]);
      RunKeepsInv(Do(s, ops[0]), ops[1..], t);
    }
  }

  // ----- the promises -----

  /**
   After any run, re-opening succeeds and gives back every claim exactly as
   memory had it - except, and only except, a claim published with an empty
   roster that memory still calls open.
   */
  lemma ReopeningReproducesTheBoard(ops: seq<Op>, t: BoardState, c: ClaimId)
    requires Run(EMPTY_BOARD, ops, t)
    ensures Reopened(t.tables).Some? && Reopened(t.tables).value.Keys == t.claims.Keys
    ensures c in t.claims ==>
              (Reopened(t.tables).value[c] == t.claims[c] <==> !(t.claims[c].validators == map[] && t.claims[c].status == Open))
    ensures c in t.claims ==>
              Reopened(t.tables).value[c].(status := Open) == t.claims[c].(status := Open)
  {
    hide HydratedClaim, Reopened, Do, ClaimSound, RowSound;
    EmptyBoardOk();
    RunKeepsInv(EMPTY_BOARD, ops, t);
    ReopenSettles(t, c);
    if c in t.claims {
      WhatSettlingChanges(t.claims[c]);
    }
  }

  lemma PendingAreTheSilent(st: ClaimState)
    requires ClaimSound(st)
    ensures st.tally.Pending() == |Silent(st.validators)|
  {
    EveryoneElseIsPending(st);
    SlotsPartition(st.validators);
    var base, m := Base(st), st.validators;
    assert st.tally.cast[Yes] == base.cast[Yes] + |Backers(m, Yes)|;
    assert st.tally.cast[No] == base.cast[No] + |Backers(m, No)|;
    assert st.tally.cast[Abstain] == base.cast[Abstain] + |Backers(m, Abstain)|;
  }

  /**
   On every board a run can reach, an open claim with a roster still waits for
   one of its validators - so it closes by its last accepted vote - and a closed
   one has the status that counting any votes of the silent ones would give.
   */
  lemma OpenClaimsAwaitSomeone(ops: seq<Op>, t: BoardState, c: ClaimId, votes: seq<Vote>)
    requires Run(EMPTY_BOARD, ops, t) && c in t.claims && t.claims[c].validators != map[]
    ensures t.claims[c].tally.Valid()
    ensures t.claims[c].tally.Pending() == |Silent(t.claims[c].validators)|
    ensures t.claims[c].status == Open ==> |Silent(t.claims[c].validators)| > 0
    ensures t.claims[c].status != Open && |votes| == |Silent(t.claims[c].validators)| ==>
              CountAll(t.claims[c].tally, votes).Status() == t.claims[c].status
  {
    hide Do, RowSound;
    EmptyBoardOk();
    RunKeepsInv(EMPTY_BOARD, ops, t);
    assert HeldClaimOk(t, c);
    PendingAreTheSilent(t.claims[c]);
    if t.claims[c].status == Open {
      OpenMeansPending(t.claims[c].tally);
    } else if |votes| == |Silent(t.claims[c].validators)| {
      TerminalIsFinal(t.claims[c].tally, votes);
    }
  }

  // ----- the verdict, told by the slots -----

  /** The proposer of a claim with other validators has spoken for it by publishing it. */
  function OwnYes(st: ClaimState): nat { if st.proposer in st.validators then 0 else 1 }

  /**
   On every board a run can reach, a claim with a roster is Reached when its yes
   votes, the proposer's own among them, are two thirds of the cohort, and
   Unreachable when even every silent validator could not make them so.
   */
  lemma StatusIsTwoThirds(ops: seq<Op>, t: BoardState, c: ClaimId)
    requires Run(EMPTY_BOARD, ops, t) && c in t.claims && t.claims[c].validators != map[]
    ensures var st := t.claims[c];
            var (yes, silent) := (|Backers(st.validators, Yes)|, |Silent(st.validators)|);
            && st.k == |st.validators| + OwnYes(st)
            && (st.status == Reached <==> 3 * (OwnYes(st) + yes) >= 2 * st.k)
            && (st.status == Unreachable <==> 3 * (OwnYes(st) + yes + silent) < 2 * st.k)
  {
    hide Do, RowSound;
    EmptyBoardOk();
    RunKeepsInv(EMPTY_BOARD, ops, t);
    assert HeldClaimOk(t, c);
    hide BoardInv, Run;
    SoundStatusIsTwoThirds(t.claims[c]);
  }

  lemma SoundStatusIsTwoThirds(st: ClaimState)
    requires ClaimSound(st) && st.validators != map[]
    ensures var (yes, silent) := (|Backers(st.validators, Yes)|, |Silent(st.validators)|);
            && st.k == |st.validators| + OwnYes(st)
            && (st.status == Reached <==> 3 * (OwnYes(st) + yes) >= 2 * st.k)
            && (st.status == Unreachable <==> 3 * (OwnYes(st) + yes + silent) < 2 * st.k)
  {
    PendingAreTheSilent(st);
    OwnYesIsCounted(st);
    hide ClaimSound, Counts, Silent, Backers;
    QuorumIsTwoThirds(st.k);
  }

  lemma OwnYesIsCounted(st: ClaimState)
    requires ClaimSound(st) && st.validators != map[]
    ensures st.tally.Valid() && st.tally.k == st.k == |st.validators| + OwnYes(st) && st.status == st.tally.Status()
    ensures st.tally.cast[Yes] == OwnYes(st) + |Backers(st.validators, Yes)|
  {
    EveryoneElseIsPending(st);
    if Blind(st) {
      assert |st.validators| == |st.validators.Keys| == 1;
      assert st.proposer in st.validators.Keys;
    }
  }

  lemma QuorumIsTwoThirds(k: nat)
    ensures forall n: nat :: n >= Needed(k) <==> 3 * n >= 2 * k
  {
  }

  // ----- what a vote writes down -----

  /** A vote that counts is written in its voter's slot as it was cast, in memory and in the rows, and nothing else of any claim but its tally and status changes. */
  ghost predicate WritesDown(s: BoardState, claim: ClaimId, voter: AgentId, vote: Vote, after: BoardState) {
    && claim in s.claims && claim in after.claims && after.claims.Keys == s.claims.Keys
    && after.claims[claim] == s.claims[claim].(tally := after.claims[claim].tally, status := after.claims[claim].status,
                                               validators := s.claims[claim].validators[voter := Some(vote)])
    && (forall c :: c in s.claims && c != claim ==> after.claims[c] == s.claims[c])
    && after.tables.votes == s.tables.votes[(claim, voter) := match vote case Yes => "yes" case No => "no" case Abstain => "abstain"]
  }

  lemma AcceptedVotesAreWrittenDown(s: BoardState, claim: ClaimId, voter: AgentId, vote: Vote, commits: bool)
    requires TalliesValid(s)
    ensures VoteOn(s, claim, voter, vote, commits).1.VotedTo? ==> WritesDown(s, claim, voter, vote, VoteOn(s, claim, voter, vote, commits).0)
    ensures VoteBlindOn(s, claim, voter, vote, commits).1.VotedTo? ==> WritesDown(s, claim, voter, vote, VoteBlindOn(s, claim, voter, vote, commits).0)
    ensures VoteOn(s, claim, voter, vote, commits).1.VoteRefused? ==> VoteOn(s, claim, voter, vote, commits).0 == s
    ensures VoteBlindOn(s, claim, voter, vote, commits).1.VoteRefused? ==> VoteBlindOn(s, claim, voter, vote, commits).0 == s
  {
    if claim in s.claims {
      RecordWritesDown(s, claim, voter, vote, commits);
    }
    hide RecordOn, WritesDown;
  }

  lemma RecordWritesDown(s: BoardState, claim: ClaimId, voter: AgentId, vote: Vote, commits: bool)
    requires claim in s.claims && s.claims[claim].tally.Valid()
    ensures var r := RecordOn(s, claim, voter, vote, commits);
            if r.1.VotedTo? then WritesDown(s, claim, voter, vote, r.0) else r.0 == s
  {
  }

  // ----- exactly when an operation is accepted -----

  lemma InsertSucceedsExactlyWhen(s: BoardState, claim: ClaimId, st: ClaimState, roster: seq<AgentId>, commits: bool)
    requires BoardInv(s)
    ensures var r := Insert(s, claim, st, roster, commits);
            && (r.1.PublishedAs? <==> 0 < SqlLength(st.body) <= 2048 && 1 <= st.k <= 80 && NoRepeats(roster) && claim !in s.claims && commits)
            && (r.1.PublishRefused? ==> r.0 == s)
            && (r.1.PublishedAs? ==> r.0.claims == s.claims[claim := st])
  {
    RowsAndMemoryNameTheSameClaims(s);
    forall a ensures claim !in s.claims ==> (claim, a) !in s.tables.validators {
    }
    hide BoardInv, SqlLength;
    assert claim in s.claims.Keys <==> claim in s.tables.claims.Keys;
  }

  /** On a reachable board a claim goes up exactly when nobody is listed twice, the cohort is not too large, the body has something in it and fits, the id is new and the store commits. */
  lemma PublishSucceedsExactlyWhen(s: BoardState, claim: ClaimId, turn: TurnId, proposer: AgentId, validators: seq<AgentId>, body: string, commits: bool)
    requires BoardInv(s)
    ensures var r := PublishOn(s, claim, turn, proposer, validators, body, commits);
            && (r.1.PublishedAs? <==>
                  && proposer !in validators && NoRepeats(validators) && |validators| <= 79
                  && Utf8Length(body) <= 2048 && body != "" && body[0] != '\0' && claim !in s.claims && commits)
            && (r.1.PublishRefused? ==> r.0 == s)
            && (r.1.PublishedAs? ==> claim in r.0.claims && r.0.claims[claim].validators == map a | a in validators :: None)
            && (r.1.PublishedAs? ==> r.0.claims[claim].proposer == proposer && r.0.claims[claim].turn == turn && r.0.claims[claim].body == body)
  {
    var k := |validators| + 1;
    InsertSucceedsExactlyWhen(s, claim, Fresh(turn, proposer, body, k, OrdinaryTally(k), validators), validators, commits);
    BodyCounts(body);
    hide BoardInv, Utf8Length, SqlLength, Insert;
  }

  /** A blind claim goes up exactly when the body has something in it and fits, the id is new and the store commits; its proposer is its one validator. */
  lemma PublishBlindSucceedsExactlyWhen(s: BoardState, claim: ClaimId, turn: TurnId, proposer: AgentId, body: string, commits: bool)
    requires BoardInv(s)
    ensures var r := PublishBlindOn(s, claim, turn, proposer, body, commits);
            && (r.1.PublishedAs? <==> Utf8Length(body) <= 2048 && body != "" && body[0] != '\0' && claim !in s.claims && commits)
            && (r.1.PublishRefused? ==> r.0 == s)
            && (r.1.PublishedAs? ==> claim in r.0.claims && r.0.claims[claim].validators == map[proposer := None] && r.0.claims[claim].k == 1)
            && (r.1.PublishedAs? ==> r.0.claims[claim].proposer == proposer && r.0.claims[claim].turn == turn && r.0.claims[claim].body == body)
  {
    var st := Fresh(turn, proposer, body, BLIND_COHORT, NewTally(BLIND_COHORT), [proposer]);
    InsertSucceedsExactlyWhen(s, claim, st, [proposer], commits);
    BodyCounts(body);
    assert EmptyRoster(Members([proposer])) == map[proposer := None];
    hide BoardInv, Utf8Length, SqlLength, Insert;
  }

  /** On a reachable board a vote of either kind counts exactly when its claim is open, the store commits, and the voter is a validator who has not spoken - not the proposer for the one kind, nobody else for the other. */
  lemma VotesSucceedExactlyWhen(s: BoardState, claim: ClaimId, voter: AgentId, vote: Vote, commits: bool)
    requires BoardInv(s) && TalliesValid(s) && claim in s.claims
    ensures var st := s.claims[claim];
            && (VoteOn(s, claim, voter, vote, commits).1.VotedTo? <==>
                  st.status == Open && voter != st.proposer && voter in st.validators && st.validators[voter] == None && commits)
            && (VoteBlindOn(s, claim, voter, vote, commits).1.VotedTo? <==>
                  st.status == Open && voter == st.proposer && st.validators == map[voter := None] && commits)
  {
    assert HeldClaimOk(s, claim);
    BlindRoster(s.claims[claim], voter);
    if s.claims[claim].status == Open {
      RecordedExactlyWhen(s, claim, voter, vote, commits);
    }
    hide BoardInv, HeldClaimOk, TalliesValid, RecordOn;
  }

  lemma RecordedExactlyWhen(s: BoardState, claim: ClaimId, voter: AgentId, vote: Vote, commits: bool)
    requires HeldClaimOk(s, claim) && s.claims[claim].status == Open
    ensures s.claims[claim].tally.Valid()
    ensures RecordOn(s, claim, voter, vote, commits).1.VotedTo?
            <==> voter in s.claims[claim].validators && s.claims[claim].validators[voter] == None && commits
  {
    hide ClaimSound, RowSound, RecordOn;
    assert Countable(s, claim, voter) <==> voter in s.claims[claim].validators && s.claims[claim].validators[voter] == None;
    if Countable(s, claim, voter) {
      CountableVoteIsCounted(s, claim, voter, vote, commits);
      UncountableIsRefused(s, claim, voter, vote, commits);
    } else {
      UncountableIsRefused(s, claim, voter, vote, commits);
    }
  }

  lemma UncountableIsRefused(s: BoardState, claim: ClaimId, voter: AgentId, vote: Vote, commits: bool)
    requires HeldClaimOk(s, claim) && s.claims[claim].status == Open
    ensures s.claims[claim].tally.Valid()
    ensures !Countable(s, claim, voter) ==> RecordOn(s, claim, voter, vote, commits).1.VoteRefused?
  {
  }

  lemma BlindRoster(st: ClaimState, voter: AgentId)
    requires ClaimSound(st)
    ensures voter == st.proposer && st.k == 1 && |st.validators| == 1 && voter in st.validators && st.validators[voter] == None
            <==> voter == st.proposer && st.validators == map[voter := None]
  {
    if voter == st.proposer && voter in st.validators {
      assert Blind(st);
      assert st.validators[voter] == None ==> st.validators == map[voter := None];
      assert |st.validators| == |st.validators.Keys| == 1;
    }
  }

  /** The stored status of a claim with a roster, in the words of the table. */
  lemma RowsTellTheStatus(ops: seq<Op>, t: BoardState, c: ClaimId)
    requires Run(EMPTY_BOARD, ops, t) && c in t.claims && t.claims[c].validators != map[]
    ensures c in t.tables.claims
    ensures t.tables.claims[c].status == match t.claims[c].status case Open => "open" case Reached => "reached" case Unreachable => "unreachable"
  {
    hide Do, ClaimSound;
    EmptyBoardOk();
    RunKeepsInv(EMPTY_BOARD, ops, t);
    assert HeldClaimOk(t, c);
  }

  lemma BodyCounts(body: string)
    ensures SqlLength(body) > 0 <==> body != "" && body[0] != '\0'
    ensures SqlLength(body) <= Utf8Length(body)
  {
    hide Utf8Length;
  }

  /** The exception happens: one publish with no validators and then a restart. */
  lemma EmptyRosterChangesStatusOnReopen()
    ensures var s := Do(EMPTY_BOARD, Publish(0, 0, 7, [], "x", true));
            && 0 in s.claims && s.claims[0].status == Open
            && Reopened(s.tables).Some? && 0 in Reopened(s.tables).value
            && Reopened(s.tables).value[0].status == Reached
  {
    DoKeepsInv(EMPTY_BOARD, Publish(0, 0, 7, [], "x", true));
    var s := Do(EMPTY_BOARD, Publish(0, 0, 7, [], "x", true));
    assert Utf8Length("x") == 1;
    assert 0 in s.claims;
    ReopenSettles(s, 0);
    assert s.claims[0].validators == map[];
  }

  lemma InsertKeepsClaim(s: BoardState, claim: ClaimId, st: ClaimState, roster: seq<AgentId>, commits: bool, c: ClaimId)
    requires BoardInv(s) && c in s.claims
    ensures c in Insert(s, claim, st, roster, commits).0.claims && Insert(s, claim, st, roster, commits).0.claims[c] == s.claims[c]
  {
    RowsAndMemoryNameTheSameClaims(s);
    hide BoardInv;
    assert c in s.tables.claims.Keys;
  }

  lemma RecordKeepsOtherClaims(s: BoardState, claim: ClaimId, voter: AgentId, vote: Vote, commits: bool, c: ClaimId)
    requires c in s.claims
    ensures claim in s.claims && claim != c && s.claims[claim].tally.Valid() ==>
              c in RecordOn(s, claim, voter, vote, commits).0.claims && RecordOn(s, claim, voter, vote, commits).0.claims[c] == s.claims[c]
  {
  }

  /** A claim that has closed is never touched again, by any operation or restart. */
  lemma ClosedClaimsStayClosed(s: BoardState, op: Op, c: ClaimId)
    requires BoardInv(s) && TalliesValid(s) && c in s.claims && s.claims[c].status != Open
    ensures c in Do(s, op).claims && Do(s, op).claims[c] == s.claims[c]
  {
    hide HydratedClaim, BoardInv, ClaimSound, RowSound, RecordOn, Insert, Utf8Length, Reopened;
    match op
    case Restart =>
      ReopenSettles(s, c);
      WhatSettlingChanges(s.claims[c]);
    case Publish(claim, turn, proposer, validators, body, commits) =>
      var k := |validators| + 1;
      InsertKeepsClaim(s, claim, Fresh(turn, proposer, body, k, OrdinaryTally(k), validators), validators, commits, c);
    case PublishBlind(claim, turn, proposer, body, commits) =>
      InsertKeepsClaim(s, claim, Fresh(turn, proposer, body, BLIND_COHORT, NewTally(BLIND_COHORT), [proposer]), [proposer], commits, c);
    case CastVote(claim, voter, vote, commits) => RecordKeepsOtherClaims(s, claim, voter, vote, commits, c);
    case CastBlind(claim, voter, vote, commits) => RecordKeepsOtherClaims(s, claim, voter, vote, commits, c);
  }

  // ----- what hydration refuses -----

  ghost predicate VotersDistinct(votes: seq<(AgentId, Vote)>) {
    forall i, j :: 0 <= i < j < |votes| ==> votes[i].0 != votes[j].0
  }

  /** Each stored vote can be given to an empty slot of its own, and the tally has room for all of them. */
  ghost predicate Replayable(r: Replay, votes: seq<(AgentId, Vote)>)
    requires r.tally.Valid()
  {
    && VotersDistinct(votes) && |votes| <= r.tally.Pending()
    && forall i :: 0 <= i < |votes| ==> votes[i].0 in r.validators && r.validators[votes[i].0].None?
  }

  lemma {:induction false} ReplayIsConsistentExactlyWhen(r: Replay, votes: seq<(AgentId, Vote)>)
    requires r.tally.Valid() && r.consistent
    ensures ReplayAll(r, votes).consistent <==> Replayable(r, votes)
    ensures ReplayAll(r, votes).consistent ==>
              && ReplayAll(r, votes).tally.Pending() == r.tally.Pending() - |votes|
              && ReplayAll(r, votes).validators.Keys == r.validators.Keys
              && forall a :: a in r.validators ==>
                   (ReplayAll(r, votes).validators[a].None? <==> r.validators[a].None? && !VotedIn(votes, a))
    decreases |votes|
  {
    if votes != [] {
      var n := |votes| - 1;
      var (front, last) := (votes[..n], votes[n]);
      ReplayIsConsistentExactlyWhen(r, front);
      var before := ReplayAll(r, front);
      assert ReplayAll(r, votes) == ReplayOne(before, last.0, last.1);
      hide ReplayAll;
      OneReplayed(before, last.0, last.1);
      hide ReplayOne;
      OneMoreReplayable(r, votes);
      hide Replayable, VotersDistinct;
      assert forall a :: VotedIn(votes, a) <==> VotedIn(front, a) || a == last.0 by {
        OneMoreVoted(votes);
      }
    }
  }

  ghost predicate VotedIn(votes: seq<(AgentId, Vote)>, a: AgentId) {
    exists i :: 0 <= i < |votes| && votes[i].0 == a
  }

  lemma OneMoreVoted(votes: seq<(AgentId, Vote)>)
    requires votes != []
    ensures forall a :: VotedIn(votes, a) <==> VotedIn(votes[..|votes| - 1], a) || a == votes[|votes| - 1].0
  {
    var front := votes[..|votes| - 1];
    forall a ensures VotedIn(votes, a) <==> VotedIn(front, a) || a == votes[|votes| - 1].0 {
      if i :| 0 <= i < |votes| && votes[i].0 == a {
        assert i < |front| ==> front[i] == votes[i];
      }
      if i :| 0 <= i < |front| && front[i].0 == a {
        assert votes[i].0 == a;
      }
    }
  }

  lemma OneReplayed(r: Replay, voter: AgentId, vote: Vote)
    requires r.tally.Valid()
    ensures var t := ReplayOne(r, voter, vote);
            && (t.consistent <==> r.consistent && voter in r.validators && r.validators[voter].None? && r.tally.Pending() > 0)
            && (t.consistent ==> t.tally.Pending() == r.tally.Pending() - 1 && t.validators == r.validators[voter := Some(vote)])
  {
  }

  lemma OneMoreReplayable(r: Replay, votes: seq<(AgentId, Vote)>)
    requires r.tally.Valid() && votes != []
    ensures var n := |votes| - 1;
            Replayable(r, votes)
            <==> Replayable(r, votes[..n]) && n < r.tally.Pending()
                 && votes[n].0 in r.validators && r.validators[votes[n].0].None? && !VotedIn(votes[..n], votes[n].0)
  {
    var n := |votes| - 1;
    assert forall i :: 0 <= i < n ==> votes[..n][i] == votes[i];
  }

  function YesAmong(votes: seq<(AgentId, Vote)>): nat {
    if votes == [] then 0 else YesAmong(votes[..|votes| - 1]) + (if votes[|votes| - 1].1 == Yes then 1 else 0)
  }

  lemma {:induction false} ReplayCountsYes(r: Replay, votes: seq<(AgentId, Vote)>)
    requires r.tally.Valid()
    ensures ReplayAll(r, votes).consistent ==> r.consistent && ReplayAll(r, votes).tally.cast[Yes] == r.tally.cast[Yes] + YesAmong(votes)
    decreases |votes|
  {
    if votes != [] {
      ReplayCountsYes(r, votes[..|votes| - 1]);
      hide Tally.Status;
    }
  }

  /** And then its yes votes are the stored ones, and the proposer's own unless it alone was asked. */
  lemma HydratedYesVotes(row: ClaimRow, roster: seq<AgentId>, votes: seq<(AgentId, Vote)>)
    requires Hydrated(row, roster, votes).Some?
    ensures Hydrated(row, roster, votes).value.tally.cast[Yes]
            == YesAmong(votes) + (if row.k <= 1 && roster == [row.proposer] then 0 else 1)
  {
    hide ReplayAll, StartReplay, YesAmong, Hydrated;
    HydratedIsReplayed(row, roster, votes);
    ReplayCountsYes(StartReplay(row, roster), votes);
    StartingYes(row, roster);
  }

  lemma HydratedIsReplayed(row: ClaimRow, roster: seq<AgentId>, votes: seq<(AgentId, Vote)>)
    requires Hydrated(row, roster, votes).Some?
    ensures ReplayAll(StartReplay(row, roster), votes).consistent
    ensures Hydrated(row, roster, votes).value.tally == ReplayAll(StartReplay(row, roster), votes).tally
  {
    hide ReplayAll, StartReplay, StoredCohort;
  }

  lemma StartingYes(row: ClaimRow, roster: seq<AgentId>)
    ensures StartReplay(row, roster).consistent
    ensures StartReplay(row, roster).tally.cast[Yes] == if row.k <= 1 && roster == [row.proposer] then 0 else 1
  {
    assert |roster| == 1 && roster[0] == row.proposer <==> roster == [row.proposer];
  }

  /** A stored claim comes back exactly when its status is one of the three words, its voters are of its roster, none votes twice, and there are no more of them than the cohort has members who have not spoken by publishing. */
  lemma HydratesExactlyWhen(row: ClaimRow, roster: seq<AgentId>, votes: seq<(AgentId, Vote)>)
    ensures Hydrated(row, roster, votes).Some? <==>
              && row.status in {"open", "reached", "unreachable"}
              && VotersDistinct(votes) && (forall i :: 0 <= i < |votes| ==> votes[i].0 in roster)
              && |votes| + (if row.k <= 1 && roster == [row.proposer] then 0 else 1) <= if row.k == 0 then 1 else row.k
  {
    var start := StartReplay(row, roster);
    assert |roster| == 1 && roster[0] == row.proposer <==> roster == [row.proposer];
    ReplayIsConsistentExactlyWhen(start, votes);
    hide ReplayAll, VotersDistinct;
    assert forall a :: a in start.validators <==> a in roster;
  }

  // ----- the length of a body -----

  lemma {:induction false} Utf8LengthAdds(a: string, b: string)
    ensures Utf8Length(a + b) == Utf8Length(a) + Utf8Length(b)
  {
    if a == "" {
      assert a + b == b;
    } else {
      assert (a + b)[1..] == a[1..] + b;
      Utf8LengthAdds(a[1..], b);
    }
  }

  /** One byte up to U+007F, two up to U+07FF, three up to U+FFFF, four beyond. */
  lemma Utf8Widths()
    ensures Utf8Length(['\U{7F}']) == 1 && Utf8Length(['\U{80}']) == 2 && Utf8Length(['\U{7FF}']) == 2
    ensures Utf8Length(['\U{800}']) == 3 && Utf8Length(['\U{FFFF}']) == 3 && Utf8Length(['\U{10000}']) == 4
  {
    assert Utf8Length("") == 0;
  }
}

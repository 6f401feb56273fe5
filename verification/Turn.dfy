/**
 One turn over the blackboard: a proposal, then verdicts one at a time, an
 answer sealed at most once.
 */
module Turn {
  import opened Optional
  import opened Quorum
  import opened Board
  import opened BoardRuns
  import opened Reopening

  const PEER_CEILING: nat := 80

  datatype Step = Collecting | QuorumMet | Escalate

  datatype Event =
    | TurnStarted(turn: TurnId)
    | ClaimPublished(claim: ClaimId, proposer: AgentId)
    | VoteCast(claim: ClaimId, voter: AgentId, vote: Vote)
    | QuorumReached(claim: ClaimId, yes: nat, needed: nat)
    | QuorumUnreachable(claim: ClaimId, reachable: nat, needed: nat)
    | CohortAborted
    | SegmentSealed
    | TurnCompleted(turn: TurnId)

  datatype TurnError = NoAnswer | EmptyClaim | LedgerRefused

  datatype Recorded = Stepped(step: Step) | RecordRefused(why: TurnError)

  datatype PeerAnswer = PeerAnswer(agent: AgentId, text: Option<string>, verdict: Option<Vote>)

  datatype TurnState = TurnState(
    id: TurnId,
    session: seq<AgentId>,
    board: BoardState,
    claim: ClaimId,
    answer: Option<string>,
    votesSeen: nat,
    steps: seq<Step>,
    finished: bool,
    blind: bool,
    events: seq<Event>,
    sealed: seq<string>)

  // ----- the operations, on values -----

  function Others(agents: seq<AgentId>, proposer: AgentId): seq<AgentId> {
    if agents == [] then []
    else Others(agents[..|agents| - 1], proposer) + (if agents[|agents| - 1] != proposer then [agents[|agents| - 1]] else [])
  }

  function PublishCandidate(board: BoardState, claim: ClaimId, turn: TurnId, agents: seq<AgentId>, commits: bool): (BoardState, Published)
    requires agents != []
  {
    if |agents| == 1 then PublishBlindOn(board, claim, turn, agents[0], "turn candidate", commits)
    else PublishOn(board, claim, turn, agents[0], Others(agents, agents[0]), "turn candidate", commits)
  }

  function Started(board: BoardState, claim: ClaimId, turn: TurnId, task: string, agents: seq<AgentId>, commits: bool): Option<TurnState> {
    if agents == [] || |agents| > PEER_CEILING || task == "" then None
    else
      var published := PublishCandidate(board, claim, turn, agents, commits);
      if published.1.PublishRefused? then None
      else Some(TurnState(turn, agents, published.0, claim, None, 0, [], false, |agents| == 1,
                          [TurnStarted(turn), ClaimPublished(claim, agents[0])], []))
  }

  function StepFor(status: QuorumStatus): Step {
    match status
    case Open => Collecting
    case Reached => QuorumMet
    case Unreachable => Escalate
  }

  /** What the bus hears about one counted vote. */
  function EventsFor(claim: ClaimId, voter: AgentId, vote: Vote, status: QuorumStatus, tally: Tally): seq<Event>
    requires tally.Valid()
  {
    [VoteCast(claim, voter, vote)]
    + match status
      case Open => []
      case Reached => [QuorumReached(claim, tally.Yeses(), Needed(tally.k)), CohortAborted]
      case Unreachable => [QuorumUnreachable(claim, tally.Yeses() + tally.Pending(), Needed(tally.k)), CohortAborted]
  }

  function VoteOnClaim(s: TurnState, voter: AgentId, vote: Vote, commits: bool): (r: (BoardState, Voted))
    requires TalliesValid(s.board) && s.session != []
    ensures r.1.VotedTo? ==> r.1.tally.Valid()
  {
    if s.blind && voter == s.session[0] then VoteBlindOn(s.board, s.claim, voter, vote, commits)
    else VoteOn(s.board, s.claim, voter, vote, commits)
  }

  function RecordOnTurn(s: TurnState, a: PeerAnswer, commits: bool): (TurnState, Recorded)
    requires TalliesValid(s.board) && s.session != []
  {
    if a.text.Some? then
      if a.verdict.Some? then (s, RecordRefused(NoAnswer))
      else if a.agent != s.session[0] then (s, RecordRefused(NoAnswer))
      else if a.text.value == "" then (s, RecordRefused(EmptyClaim))
      else if s.answer.Some? then (s, RecordRefused(NoAnswer))
      else (s.(answer := a.text), Stepped(Collecting))
    else if s.answer.None? then (s, RecordRefused(NoAnswer))
    else if a.verdict.None? then (s, RecordRefused(NoAnswer))
    else
      var (board, voted) := VoteOnClaim(s, a.agent, a.verdict.value, commits);
      if voted.VoteRefused? then (s.(board := board), RecordRefused(NoAnswer))
      else
        var step := StepFor(voted.status);
        (s.(board := board,
            events := s.events + EventsFor(s.claim, a.agent, a.verdict.value, voted.status, voted.tally),
            votesSeen := s.votesSeen + 1,
            steps := s.steps + [step]),
         Stepped(step))
  }

  function FinishOn(s: TurnState, ledgerAccepts: bool): (TurnState, Option<TurnError>) {
    if s.finished then (s, Some(NoAnswer))
    else if s.claim !in s.board.claims || s.board.claims[s.claim].status != Reached then (s, Some(NoAnswer))
    else if s.answer.None? then (s, Some(NoAnswer))
    else if s.answer.value == "" then (s, Some(EmptyClaim))
    else if !ledgerAccepts then (s, Some(LedgerRefused))
    else (s.(sealed := s.sealed + [s.answer.value],
             events := s.events + [SegmentSealed, TurnCompleted(s.id)],
             finished := true), None)
  }

  // ----- what holds throughout a turn -----

  function Voters(events: seq<Event>): seq<AgentId> {
    if events == [] then []
    else Voters(events[..|events| - 1]) + (if events[|events| - 1].VoteCast? then [events[|events| - 1].voter] else [])
  }

  predicate Terminal(e: Event) { e.QuorumReached? || e.QuorumUnreachable? }

  function Terminals(events: seq<Event>): nat {
    if events == [] then 0 else Terminals(events[..|events| - 1]) + (if Terminal(events[|events| - 1]) then 1 else 0)
  }

  lemma {:induction false} EventsAdd(a: seq<Event>, b: seq<Event>)
    ensures Voters(a + b) == Voters(a) + Voters(b) && Terminals(a + b) == Terminals(a) + Terminals(b)
  {
    if b == [] {
      assert a + b == a;
    } else {
      assert (a + b)[..|a + b| - 1] == a + b[..|b| - 1];
      EventsAdd(a, b[..|b| - 1]);
    }
  }

  /** The bus announced each counted voter once, and nobody else. */
  ghost predicate VotersMatch(voters: seq<AgentId>, st: ClaimState) {
    NoRepeats(voters) && forall a :: a in voters <==> a in st.validators && st.validators[a].Some?
  }

  /** Every step collects, except that the last one reports how the claim closed. */
  ghost predicate StepsMatch(steps: seq<Step>, terminals: nat, st: ClaimState) {
    && (forall i :: 0 <= i < |steps| - 1 ==> steps[i] == Collecting)
    && (if steps == [] then st.status == Open else steps[|steps| - 1] == StepFor(st.status))
    && terminals == (if st.status == Open then 0 else 1)
  }

  ghost predicate ClaimFollowed(s: TurnState) {
    && HeldClaimOk(s.board, s.claim)
    && s.session != []
    && s.board.claims[s.claim].proposer == s.session[0]
    && VotersMatch(Voters(s.events), s.board.claims[s.claim])
    && StepsMatch(s.steps, Terminals(s.events), s.board.claims[s.claim])
  }

  ghost predicate TurnInv(s: TurnState) {
    && s.session != []
    && BoardInv(s.board)
    && |s.steps| == s.votesSeen == |Voters(s.events)|
    && (s.answer.None? ==> s.votesSeen == 0)
    && (s.answer.Some? ==> s.answer.value != "")
    && (s.finished ==> s.answer.Some? && s.steps != [] && s.steps[|s.steps| - 1] == QuorumMet && s.sealed == [s.answer.value])
    && (!s.finished ==> s.sealed == [])
    && ClaimFollowed(s)
  }

  lemma TurnHasABoard(s: TurnState)
    requires TurnInv(s)
    ensures s.session != [] && BoardInv(s.board)
  {
  }

  lemma {:induction false} OthersAreOthers(agents: seq<AgentId>, proposer: AgentId)
    ensures proposer !in Others(agents, proposer)
  {
    if agents != [] {
      OthersAreOthers(agents[..|agents| - 1], proposer);
    }
  }

  /** What publishing leaves on the board: the candidate claim, open and with nobody heard. */
  ghost predicate Candidate(b: BoardState, claim: ClaimId, proposer: AgentId) {
    && claim in b.claims
    && b.claims[claim].proposer == proposer && b.claims[claim].status == Open
    && forall a :: a in b.claims[claim].validators ==> b.claims[claim].validators[a].None?
  }

  lemma InsertedCandidate(board: BoardState, claim: ClaimId, st: ClaimState, roster: seq<AgentId>, commits: bool)
    requires Insert(board, claim, st, roster, commits).1.PublishedAs?
    requires st.status == Open && st.validators == EmptyRoster(Members(roster))
    ensures Candidate(Insert(board, claim, st, roster, commits).0, claim, st.proposer)
  {
    hide CanInsert;
  }

  lemma BlindCandidate(board: BoardState, claim: ClaimId, turn: TurnId, proposer: AgentId, body: string, commits: bool)
    requires PublishBlindOn(board, claim, turn, proposer, body, commits).1.PublishedAs?
    ensures Candidate(PublishBlindOn(board, claim, turn, proposer, body, commits).0, claim, proposer)
  {
    hide Insert, Utf8Length, Candidate;
    InsertedCandidate(board, claim, Fresh(turn, proposer, body, BLIND_COHORT, NewTally(BLIND_COHORT), [proposer]), [proposer], commits);
  }

  lemma OrdinaryCandidate(board: BoardState, claim: ClaimId, turn: TurnId, proposer: AgentId, roster: seq<AgentId>, body: string, commits: bool)
    requires PublishOn(board, claim, turn, proposer, roster, body, commits).1.PublishedAs?
    ensures Candidate(PublishOn(board, claim, turn, proposer, roster, body, commits).0, claim, proposer)
  {
    hide Insert, Utf8Length, Candidate;
    var k := |roster| + 1;
    InsertedCandidate(board, claim, Fresh(turn, proposer, body, k, OrdinaryTally(k), roster), roster, commits);
  }

  lemma CandidateIsPublished(board: BoardState, claim: ClaimId, turn: TurnId, agents: seq<AgentId>, commits: bool)
    requires BoardInv(board) && agents != []
    requires PublishCandidate(board, claim, turn, agents, commits).1.PublishedAs?
    ensures BoardInv(PublishCandidate(board, claim, turn, agents, commits).0)
    ensures Candidate(PublishCandidate(board, claim, turn, agents, commits).0, claim, agents[0])
  {
    hide BoardInv, Others, Candidate, PublishOn, PublishBlindOn;
    var body, roster := "turn candidate", Others(agents, agents[0]);
    PublishKeepsInv(board, claim, turn, agents[0], roster, body, commits);
    if |agents| == 1 {
      BlindCandidate(board, claim, turn, agents[0], body, commits);
    } else {
      OrdinaryCandidate(board, claim, turn, agents[0], roster, body, commits);
    }
  }

  lemma HeldOnABoard(board: BoardState, claim: ClaimId)
    requires BoardInv(board) && claim in board.claims
    ensures HeldClaimOk(board, claim)
  {
  }

  lemma StartEstablishesInv(board: BoardState, claim: ClaimId, turn: TurnId, task: string, agents: seq<AgentId>, commits: bool)
    requires BoardInv(board) && Started(board, claim, turn, task, agents, commits).Some?
    ensures TurnInv(Started(board, claim, turn, task, agents, commits).value)
  {
    hide BoardInv, HeldClaimOk, PublishCandidate;
    var s := Started(board, claim, turn, task, agents, commits).value;
    CandidateIsPublished(board, claim, turn, agents, commits);
    HeldOnABoard(s.board, claim);
    assert s.events == [TurnStarted(turn)] + [ClaimPublished(claim, agents[0])];
    EventsAdd([TurnStarted(turn)], [ClaimPublished(claim, agents[0])]);
  }

  /** The shared tail of a vote: either one empty slot of the claim is filled, or nothing changes. */
  ghost predicate FilledOne(b: BoardState, claim: ClaimId, voter: AgentId, vote: Vote, after: BoardState, voted: Voted) {
    && Countable(b, claim, voter)
    && b.claims[claim].tally.Plus(vote).Valid()
    && claim in after.claims
    && after.claims[claim] == Filled(b.claims[claim], voter, vote)
    && voted == VotedTo(after.claims[claim].status, after.claims[claim].tally)
  }

  lemma RecordOutcome(b: BoardState, claim: ClaimId, voter: AgentId, vote: Vote, commits: bool)
    requires HeldClaimOk(b, claim) && b.claims[claim].status == Open
    ensures var r := RecordOn(b, claim, voter, vote, commits);
            if r.1.VoteRefused? then r.0 == b else FilledOne(b, claim, voter, vote, r.0, r.1)
  {
    if Countable(b, claim, voter) {
      CountableVoteIsCounted(b, claim, voter, vote, commits);
    } else {
      OtherVotesAreRefused(b, claim, voter, vote, commits);
    }
  }

  lemma VoteIsRecordOrRefusal(s: TurnState, voter: AgentId, vote: Vote, commits: bool)
    requires TalliesValid(s.board) && s.session != [] && s.claim in s.board.claims
    ensures var r := VoteOnClaim(s, voter, vote, commits);
            (r.0 == s.board && r.1.VoteRefused?)
            || (s.board.claims[s.claim].status == Open && r == RecordOn(s.board, s.claim, voter, vote, commits))
  {
  }

  /** A counted vote filled one empty slot of the turn's claim; any other vote changed nothing. */
  lemma VoteOutcome(s: TurnState, voter: AgentId, vote: Vote, commits: bool)
    requires BoardInv(s.board) && s.session != [] && HeldClaimOk(s.board, s.claim)
    ensures TalliesValid(s.board) && BoardInv(VoteOnClaim(s, voter, vote, commits).0)
    ensures var r := VoteOnClaim(s, voter, vote, commits);
            if r.1.VoteRefused? then r.0 == s.board else FilledOne(s.board, s.claim, voter, vote, r.0, r.1)
  {
    VoteKeepsInv(s.board, s.claim, voter, vote, commits);
    VoteIsRecordOrRefusal(s, voter, vote, commits);
    hide BoardInv, VoteOn, VoteBlindOn, RecordOn, FilledOne;
    if s.board.claims[s.claim].status == Open {
      RecordOutcome(s.board, s.claim, voter, vote, commits);
    }
  }

  lemma EventsForOneVote(claim: ClaimId, voter: AgentId, vote: Vote, status: QuorumStatus, tally: Tally)
    requires tally.Valid()
    ensures Voters(EventsFor(claim, voter, vote, status, tally)) == [voter]
    ensures Terminals(EventsFor(claim, voter, vote, status, tally)) == (if status == Open then 0 else 1)
  {
    var cast := [VoteCast(claim, voter, vote)];
    OneEvent(cast[0]);
    match status
    case Open => assert EventsFor(claim, voter, vote, status, tally) == cast;
    case Reached =>
      TwoEvents(QuorumReached(claim, tally.Yeses(), Needed(tally.k)), CohortAborted);
      EventsAdd(cast, [QuorumReached(claim, tally.Yeses(), Needed(tally.k)), CohortAborted]);
    case Unreachable =>
      TwoEvents(QuorumUnreachable(claim, tally.Yeses() + tally.Pending(), Needed(tally.k)), CohortAborted);
      EventsAdd(cast, [QuorumUnreachable(claim, tally.Yeses() + tally.Pending(), Needed(tally.k)), CohortAborted]);
  }

  lemma OneEvent(e: Event)
    ensures Voters([e]) == (if e.VoteCast? then [e.voter] else [])
    ensures Terminals([e]) == (if Terminal(e) then 1 else 0)
  {
    assert Voters([e][..0]) == [] && Terminals([e][..0]) == 0;
  }

  lemma TwoEvents(a: Event, b: Event)
    requires !a.VoteCast? && !b.VoteCast?
    ensures Voters([a, b]) == [] && Terminals([a, b]) == (if Terminal(a) then 1 else 0) + (if Terminal(b) then 1 else 0)
  {
    OneEvent(a);
    OneEvent(b);
    EventsAdd([a], [b]);
    assert [a, b] == [a] + [b];
  }

  /** The turn after one counted vote. */
  function AfterVote(s: TurnState, voter: AgentId, vote: Vote, board: BoardState, voted: Voted): TurnState
    requires voted.VotedTo? && voted.tally.Valid()
  {
    s.(board := board,
       events := s.events + EventsFor(s.claim, voter, vote, voted.status, voted.tally),
       votesSeen := s.votesSeen + 1,
       steps := s.steps + [StepFor(voted.status)])
  }

  lemma VoteAddsItsVoter(s: TurnState, voter: AgentId, vote: Vote, board: BoardState, voted: Voted)
    requires voted.VotedTo? && voted.tally.Valid()
    ensures var s' := AfterVote(s, voter, vote, board, voted);
            && Voters(s'.events) == Voters(s.events) + [voter]
            && Terminals(s'.events) == Terminals(s.events) + (if voted.status == Open then 0 else 1)
  {
    EventsForOneVote(s.claim, voter, vote, voted.status, voted.tally);
    EventsAdd(s.events, EventsFor(s.claim, voter, vote, voted.status, voted.tally));
  }

  lemma VoterJoins(voters: seq<AgentId>, st: ClaimState, voter: AgentId, vote: Vote)
    requires VotersMatch(voters, st) && voter in st.validators && st.validators[voter].None?
    requires st.tally.Plus(vote).Valid()
    ensures VotersMatch(voters + [voter], Filled(st, voter, vote))
  {
    assert voter !in voters;
  }

  lemma StepJoins(steps: seq<Step>, terminals: nat, st: ClaimState, st': ClaimState)
    requires StepsMatch(steps, terminals, st) && st.status == Open
    ensures StepsMatch(steps + [StepFor(st'.status)], terminals + (if st'.status == Open then 0 else 1), st')
  {
  }

  /** Counting one more vote keeps the record of the turn in step with the board. */
  lemma CountedVoteIsFollowed(s: TurnState, voter: AgentId, vote: Vote, board: BoardState, voted: Voted)
    requires ClaimFollowed(s) && HeldClaimOk(board, s.claim) && FilledOne(s.board, s.claim, voter, vote, board, voted)
    requires voted.tally.Valid()
    ensures ClaimFollowed(AfterVote(s, voter, vote, board, voted))
  {
    var st := s.board.claims[s.claim];
    hide HeldClaimOk, EventsFor, Voters, Terminals, VotersMatch, StepsMatch, StepFor;
    VoteAddsItsVoter(s, voter, vote, board, voted);
    VoterJoins(Voters(s.events), st, voter, vote);
    StepJoins(s.steps, Terminals(s.events), st, Filled(st, voter, vote));
  }

  lemma VoteKeepsTurnInv(s: TurnState, voter: AgentId, vote: Vote, commits: bool)
    requires TurnInv(s) && TalliesValid(s.board) && s.answer.Some?
    ensures var r := VoteOnClaim(s, voter, vote, commits);
            TurnInv(if r.1.VoteRefused? then s.(board := r.0) else AfterVote(s, voter, vote, r.0, r.1))
  {
    hide BoardInv, HeldClaimOk, VoteOnClaim, TalliesValid, FilledOne, EventsFor, Voters, Terminals, VotersMatch;
    VoteOutcome(s, voter, vote, commits);
    var r := VoteOnClaim(s, voter, vote, commits);
    if r.1.VotedTo? {
      OutcomeStillHolds(s.board, s.claim, voter, vote, r.0, r.1);
      CountedVoteIsFollowed(s, voter, vote, r.0, r.1);
      VoteAddsItsVoter(s, voter, vote, r.0, r.1);
      assert !s.finished;
      hide ClaimFollowed;
    } else {
      assert s.(board := r.0) == s;
    }
  }

  lemma ProposalKeepsTurnInv(s: TurnState, text: string)
    requires TurnInv(s) && s.answer.None? && text != ""
    ensures TurnInv(s.(answer := Some(text)))
  {
    hide BoardInv, HeldClaimOk, Voters, Terminals, VotersMatch, StepsMatch;
  }

  /** One response does one of three things. */
  lemma RecordShape(s: TurnState, a: PeerAnswer, commits: bool)
    requires TalliesValid(s.board) && s.session != []
    ensures var s' := RecordOnTurn(s, a, commits).0;
            || s' == s
            || (s.answer.None? && a.text.Some? && a.text.value != "" && s' == s.(answer := a.text))
            || (a.verdict.Some? && s.answer.Some? &&
                var r := VoteOnClaim(s, a.agent, a.verdict.value, commits);
                s' == if r.1.VoteRefused? then s.(board := r.0) else AfterVote(s, a.agent, a.verdict.value, r.0, r.1))
  {
    hide VoteOnClaim, EventsFor, TalliesValid;
  }

  lemma RecordKeepsTurnInv(s: TurnState, a: PeerAnswer, commits: bool)
    requires TurnInv(s)
    ensures TalliesValid(s.board) && TurnInv(RecordOnTurn(s, a, commits).0)
  {
    InvMakesTalliesValid(s.board);
    RecordShape(s, a, commits);
    assert s.session != [];
    hide TurnInv, RecordOnTurn, AfterVote, VoteOnClaim, TalliesValid;
    if s.answer.None? && a.text.Some? && a.text.value != "" {
      ProposalKeepsTurnInv(s, a.text.value);
    }
    if s.answer.Some? && a.verdict.Some? {
      VoteKeepsTurnInv(s, a.agent, a.verdict.value, commits);
    }
  }

  lemma OutcomeStillHolds(b: BoardState, claim: ClaimId, voter: AgentId, vote: Vote, after: BoardState, voted: Voted)
    requires FilledOne(b, claim, voter, vote, after, voted) && BoardInv(after)
    ensures HeldClaimOk(after, claim) && b.claims[claim].status == Open
  {
  }

  lemma FinishKeepsTurnInv(s: TurnState, ledgerAccepts: bool)
    requires TurnInv(s)
    ensures TurnInv(FinishOn(s, ledgerAccepts).0)
  {
    hide BoardInv, HeldClaimOk;
    if FinishOn(s, ledgerAccepts).1.None? {
      var sealing := [SegmentSealed, TurnCompleted(s.id)];
      TwoEvents(SegmentSealed, TurnCompleted(s.id));
      EventsAdd(s.events, sealing);
    }
  }

  // ----- runs -----

  datatype TurnOp = Record(answer: PeerAnswer, commits: bool) | Finish(ledgerAccepts: bool)

  ghost function DoTurn(s: TurnState, op: TurnOp): TurnState
    requires TalliesValid(s.board) && s.session != []
  {
    match op
    case Record(answer, commits) => RecordOnTurn(s, answer, commits).0
    case Finish(ledgerAccepts) => FinishOn(s, ledgerAccepts).0
  }

  ghost predicate RunTurn(s: TurnState, ops: seq<TurnOp>, t: TurnState)
    decreases |ops|
  {
    if ops == [] then s == t
    else TalliesValid(s.board) && s.session != [] && RunTurn(DoTurn(s, ops[0]), ops[1..], t)
  }

  lemma {:induction false} RunKeepsTurnInv(s: TurnState, ops: seq<TurnOp>, t: TurnState)
    requires TurnInv(s) && RunTurn(s, ops, t)
    ensures TurnInv(t)
    decreases |ops|
  {
    hide TurnInv, RecordOnTurn, FinishOn;
    if ops != [] {
      match ops[0]
      case Record(answer, commits) => RecordKeepsTurnInv(s, answer, commits);
      case Finish(ledgerAccepts) => FinishKeepsTurnInv(s, ledgerAccepts);
    }
    if ops != [] {
      RunKeepsTurnInv(DoTurn(s, ops[0]), ops[1..], t);
    }
  }

  /** What any run of any started turn shows, in the order the bus and the ledger saw it. */
  lemma EveryTurnIsWellBehaved(
      board: BoardState, claim: ClaimId, turn: TurnId, task: string, agents: seq<AgentId>, commits: bool, ops: seq<TurnOp>, t: TurnState)
    requires BoardInv(board) && Started(board, claim, turn, task, agents, commits).Some?
    requires RunTurn(Started(board, claim, turn, task, agents, commits).value, ops, t)
    ensures t.answer.None? ==> t.votesSeen == 0
    ensures NoRepeats(Voters(t.events)) && |t.steps| == t.votesSeen == |Voters(t.events)|
    ensures forall i :: 0 <= i < |t.steps| - 1 ==> t.steps[i] == Collecting
    ensures Terminals(t.events) == (if t.steps == [] || t.steps[|t.steps| - 1] == Collecting then 0 else 1)
    ensures t.finished ==> t.answer.Some? && t.sealed == [t.answer.value] && t.steps != [] && t.steps[|t.steps| - 1] == QuorumMet
    ensures !t.finished ==> t.sealed == []
  {
    hide RunTurn, BoardInv, HeldClaimOk, Started, Voters, Terminals;
    StartEstablishesInv(board, claim, turn, task, agents, commits);
    RunKeepsTurnInv(Started(board, claim, turn, task, agents, commits).value, ops, t);
  }

  /** The accepted proposal is never replaced, and a finished turn stays finished with the same seal. */
  lemma AnswerAndSealAreFinal(s: TurnState, op: TurnOp)
    requires TurnInv(s) && TalliesValid(s.board)
    ensures s.answer.Some? ==> DoTurn(s, op).answer == s.answer
    ensures s.finished ==> DoTurn(s, op).finished && DoTurn(s, op).sealed == s.sealed
  {
    hide BoardInv, HeldClaimOk, TalliesValid, VoteOnClaim, EventsFor, Voters, Terminals, VotersMatch, StepsMatch;
  }

  /** Finishing succeeds exactly when quorum was reached, nothing was sealed yet, and the ledger takes the segment. */
  lemma FinishSucceedsOnceAfterQuorum(s: TurnState, ledgerAccepts: bool)
    requires TurnInv(s)
    ensures FinishOn(s, ledgerAccepts).1.None?
            <==> ledgerAccepts && !s.finished && s.steps != [] && s.steps[|s.steps| - 1] == QuorumMet
    ensures FinishOn(s, ledgerAccepts).1.Some? ==> FinishOn(s, ledgerAccepts).0 == s
    ensures FinishOn(s, ledgerAccepts).1.None? ==> FinishOn(s, ledgerAccepts).0.sealed == [s.answer.value]
  {
    hide BoardInv, ClaimSound, RowSound, Voters, Terminals, VotersMatch;
  }

  /** Why finishing fails, and what it announces when it does not. */
  lemma FinishAnswers(s: TurnState, ledgerAccepts: bool)
    requires TurnInv(s)
    ensures var (r, met) := (FinishOn(s, ledgerAccepts), s.steps != [] && s.steps[|s.steps| - 1] == QuorumMet);
            && r.1 == (if s.finished || !met then Some(NoAnswer) else if !ledgerAccepts then Some(LedgerRefused) else None)
            && (r.1.None? ==> s.answer.Some? && r.0 == s.(sealed := [s.answer.value], finished := true,
                                                          events := s.events + [SegmentSealed, TurnCompleted(s.id)]))
  {
    hide BoardInv, ClaimSound, RowSound, Voters, Terminals, VotersMatch;
  }

  /** A verdict that arrives before the proposal, or a second one from the same agent, changes nothing. */
  lemma EarlyAndRepeatedVerdictsAreRefused(s: TurnState, voter: AgentId, vote: Vote, commits: bool)
    requires TurnInv(s) && TalliesValid(s.board)
    requires s.answer.None? || voter in Voters(s.events)
    ensures RecordOnTurn(s, PeerAnswer(voter, None, Some(vote)), commits) == (s, RecordRefused(NoAnswer))
  {
    if s.answer.Some? {
      VoteOutcome(s, voter, vote, commits);
      hide BoardInv, HeldClaimOk, VoteOnClaim, Voters, Terminals, StepsMatch;
      assert s.(board := s.board) == s;
    }
  }

  // ----- whose text is accepted -----

  /** A text is accepted exactly when the cohort's first agent sends it, without a verdict, with something in it, and before any other; it then is the answer. */
  lemma TextIsAcceptedExactlyWhen(s: TurnState, a: PeerAnswer, commits: bool)
    requires TalliesValid(s.board) && s.session != [] && a.text.Some?
    ensures var r := RecordOnTurn(s, a, commits);
            && (r.1.Stepped? <==> a.agent == s.session[0] && a.verdict.None? && a.text.value != "" && s.answer.None?)
            && (r.1.Stepped? ==> r == (s.(answer := a.text), Stepped(Collecting)))
            && (r.1.RecordRefused? ==> r.0 == s)
            && (r.1 == RecordRefused(EmptyClaim) <==> a.agent == s.session[0] && a.verdict.None? && a.text.value == "")
  {
  }

  /** Only an accepted text makes an answer out of none. */
  lemma AnswersComeFromTexts(s: TurnState, op: TurnOp)
    requires TalliesValid(s.board) && s.session != []
    ensures DoTurn(s, op).session == s.session
    ensures s.answer.None? && DoTurn(s, op).answer.Some? ==>
              op.Record? && op.answer == PeerAnswer(s.session[0], DoTurn(s, op).answer, None)
  {
    hide VoteOnClaim, EventsFor, TalliesValid;
  }

  ghost predicate ProposalAmong(ops: seq<TurnOp>, proposer: AgentId, text: Option<string>) {
    exists i :: 0 <= i < |ops| && ops[i].Record? && ops[i].answer == PeerAnswer(proposer, text, None)
  }

  lemma {:induction false} AnswerStays(s: TurnState, ops: seq<TurnOp>, t: TurnState)
    requires TurnInv(s) && RunTurn(s, ops, t) && s.answer.Some?
    ensures t.answer == s.answer
    decreases |ops|
  {
    hide TurnInv, RecordOnTurn, FinishOn;
    if ops != [] {
      TurnStepKeepsInv(s, ops[0]);
      AnswerAndSealAreFinal(s, ops[0]);
      AnswerStays(DoTurn(s, ops[0]), ops[1..], t);
    }
  }

  lemma TurnStepKeepsInv(s: TurnState, op: TurnOp)
    requires TurnInv(s)
    ensures s.session != [] && TalliesValid(s.board) && TurnInv(DoTurn(s, op))
  {
    hide BoardInv, HeldClaimOk, RecordOnTurn, FinishOn, TalliesValid;
    match op
    case Record(answer, commits) => RecordKeepsTurnInv(s, answer, commits);
    case Finish(ledgerAccepts) =>
      RecordKeepsTurnInv(s, PeerAnswer(0, None, None), true);
      FinishKeepsTurnInv(s, ledgerAccepts);
  }

  lemma {:induction false} AnswerWasProposed(s: TurnState, ops: seq<TurnOp>, t: TurnState)
    requires TurnInv(s) && RunTurn(s, ops, t) && s.answer.None? && s.session != []
    ensures t.session == s.session
    ensures t.answer.Some? ==> ProposalAmong(ops, s.session[0], t.answer)
    decreases |ops|
  {
    hide TurnInv, RecordOnTurn, FinishOn;
    if ops != [] {
      var next := DoTurn(s, ops[0]);
      TurnStepKeepsInv(s, ops[0]);
      AnswersComeFromTexts(s, ops[0]);
      hide DoTurn;
      if next.answer.Some? {
        AnswerStays(next, ops[1..], t);
        SessionStays(next, ops[1..], t);
        assert ops[0].Record? && ops[0].answer == PeerAnswer(s.session[0], t.answer, None);
      } else {
        AnswerWasProposed(next, ops[1..], t);
        if t.answer.Some? {
          var i :| 0 <= i < |ops[1..]| && ops[1..][i].Record? && ops[1..][i].answer == PeerAnswer(s.session[0], t.answer, None);
          assert ops[i + 1] == ops[1..][i];
        }
      }
    }
  }

  lemma {:induction false} SessionStays(s: TurnState, ops: seq<TurnOp>, t: TurnState)
    requires TurnInv(s) && RunTurn(s, ops, t)
    ensures t.session == s.session
    decreases |ops|
  {
    hide TurnInv, RecordOnTurn, FinishOn;
    if ops != [] {
      TurnStepKeepsInv(s, ops[0]);
      AnswersComeFromTexts(s, ops[0]);
      SessionStays(DoTurn(s, ops[0]), ops[1..], t);
    }
  }

  /** Whatever is answered and whatever is sealed, over every run of a started turn, is a text the cohort's first agent sent. */
  lemma TheProposersTextIsSealed(
      board: BoardState, claim: ClaimId, turn: TurnId, task: string, agents: seq<AgentId>, commits: bool, ops: seq<TurnOp>, t: TurnState)
    requires BoardInv(board) && Started(board, claim, turn, task, agents, commits).Some?
    requires RunTurn(Started(board, claim, turn, task, agents, commits).value, ops, t)
    ensures agents != [] && t.session == agents
    ensures t.answer.Some? ==> ProposalAmong(ops, agents[0], t.answer)
    ensures forall x :: x in t.sealed ==> ProposalAmong(ops, agents[0], Some(x))
  {
    var s := Started(board, claim, turn, task, agents, commits).value;
    StartEstablishesInv(board, claim, turn, task, agents, commits);
    assert s.session == agents && s.answer.None?;
    EveryTurnIsWellBehaved(board, claim, turn, task, agents, commits, ops, t);
    hide TurnInv, RunTurn, Started, BoardInv, ProposalAmong;
    AnswerWasProposed(s, ops, t);
    if t.finished {
      assert t.sealed == [t.answer.value];
    }
  }

  // ----- what the bus hears of a counted verdict -----

  lemma RecordIsAfterVote(s: TurnState, voter: AgentId, vote: Vote, commits: bool)
    requires TalliesValid(s.board) && s.session != []
    requires RecordOnTurn(s, PeerAnswer(voter, None, Some(vote)), commits).1.Stepped?
    ensures s.answer.Some? && VoteOnClaim(s, voter, vote, commits).1.VotedTo?
    ensures var (board, voted) := VoteOnClaim(s, voter, vote, commits);
            && voted.tally.Valid()
            && RecordOnTurn(s, PeerAnswer(voter, None, Some(vote)), commits)
               == (AfterVote(s, voter, vote, board, voted), Stepped(StepFor(voted.status)))
  {
    hide VoteOnClaim, EventsFor, TalliesValid, StepFor;
  }

  /** The step, and the events it adds, in terms of the claim's status and two counts. */
  ghost predicate Announces(s: TurnState, voter: AgentId, vote: Vote, t: TurnState, step: Step, status: QuorumStatus, yes: nat, silent: nat, k: nat) {
    && step == (match status case Open => Collecting case Reached => QuorumMet case Unreachable => Escalate)
    && t.steps == s.steps + [step] && t.votesSeen == s.votesSeen + 1 && t.answer == s.answer && t.claim == s.claim
    && t.events == s.events + ([VoteCast(s.claim, voter, vote)] + match status
                                case Open => []
                                case Reached => [QuorumReached(s.claim, yes, Needed(k)), CohortAborted]
                                case Unreachable => [QuorumUnreachable(s.claim, yes + silent, Needed(k)), CohortAborted])
  }

  lemma AfterVoteAnnounces(s: TurnState, voter: AgentId, vote: Vote, board: BoardState, voted: Voted)
    requires voted.VotedTo? && voted.tally.Valid()
    ensures Announces(s, voter, vote, AfterVote(s, voter, vote, board, voted), StepFor(voted.status),
                      voted.status, voted.tally.cast[Yes], voted.tally.Pending(), voted.tally.k)
  {
  }

  /**
   A verdict that counts takes one step - collecting while the claim is open,
   quorum when it is reached, escalation when it cannot be - and announces the
   vote as cast. A claim that closes is announced with its numbers, read off the
   slots: the yes votes, the proposer's own included, or those and the silent.
   */
  lemma CountedVerdictIsAnnounced(s: TurnState, voter: AgentId, vote: Vote, commits: bool)
    requires TurnInv(s) && TalliesValid(s.board)
    requires RecordOnTurn(s, PeerAnswer(voter, None, Some(vote)), commits).1.Stepped?
    ensures var (t, r) := RecordOnTurn(s, PeerAnswer(voter, None, Some(vote)), commits);
            && s.claim in t.board.claims
            && var st := t.board.claims[s.claim];
            && voter in st.validators && st.validators[voter] == Some(vote)
            && Announces(s, voter, vote, t, r.step, st.status, OwnYes(st) + |Backers(st.validators, Yes)|, |Silent(st.validators)|, st.k)
  {
    TurnHasABoard(s);
    RecordIsAfterVote(s, voter, vote, commits);
    var (board, voted) := VoteOnClaim(s, voter, vote, commits);
    CountedClaim(s, voter, vote, commits);
    AfterVoteAnnounces(s, voter, vote, board, voted);
    hide TurnInv, RecordOnTurn, VoteOnClaim, TalliesValid, Announces, StepFor;
  }

  lemma CountedClaim(s: TurnState, voter: AgentId, vote: Vote, commits: bool)
    requires TurnInv(s) && TalliesValid(s.board) && s.session != [] && VoteOnClaim(s, voter, vote, commits).1.VotedTo?
    ensures var (board, voted) := VoteOnClaim(s, voter, vote, commits);
            && voted.tally.Valid() && s.claim in board.claims
            && var st := board.claims[s.claim];
            && voter in st.validators && st.validators[voter] == Some(vote)
            && st.status == voted.status && voted.tally.k == st.k
            && voted.tally.cast[Yes] == OwnYes(st) + |Backers(st.validators, Yes)| && voted.tally.Pending() == |Silent(st.validators)|
  {
    VoteOutcome(s, voter, vote, commits);
    var (board, voted) := VoteOnClaim(s, voter, vote, commits);
    hide VoteOnClaim, TalliesValid, RecordOnTurn;
    OutcomeStillHolds(s.board, s.claim, voter, vote, board, voted);
    hide TurnInv, BoardInv;
    var st := board.claims[s.claim];
    assert st.validators[voter] == Some(vote) by { FilledSlot(s.board, s.claim, voter, vote, board, voted); }
    OwnYesIsCounted(st);
    PendingAreTheSilent(st);
    hide HeldClaimOk, ClaimSound, Backers, Silent, Counts;
  }

  lemma FilledSlot(b: BoardState, claim: ClaimId, voter: AgentId, vote: Vote, after: BoardState, voted: Voted)
    requires FilledOne(b, claim, voter, vote, after, voted)
    ensures after.claims[claim].validators != map[] && voter in after.claims[claim].validators
    ensures after.claims[claim].validators[voter] == Some(vote)
    ensures voted.tally == after.claims[claim].tally && voted.status == after.claims[claim].status
  {
    hide HeldClaimOk;
    assert voter in after.claims[claim].validators.Keys;
  }
}

/** Which verdicts count, exactly, and why a turn that is still open can always go on. */
module TurnProgress {
  import opened Optional
  import opened Quorum
  import opened Board
  import opened BoardRuns
  import opened Reopening
  import opened Turn

  /** A turn of one agent follows a blind claim, a larger one an ordinary claim. */
  ghost predicate KindKnown(s: TurnState) {
    s.claim in s.board.claims && if s.blind then Blind(s.board.claims[s.claim]) else Ordinary(s.board.claims[s.claim])
  }

  lemma InsertedClaim(board: BoardState, claim: ClaimId, st: ClaimState, roster: seq<AgentId>, commits: bool)
    requires Insert(board, claim, st, roster, commits).1.PublishedAs?
    ensures NoRepeats(roster) && claim in Insert(board, claim, st, roster, commits).0.claims
    ensures Insert(board, claim, st, roster, commits).0.claims[claim] == st
  {
  }

  lemma OrdinaryIsOrdinary(board: BoardState, claim: ClaimId, turn: TurnId, proposer: AgentId, roster: seq<AgentId>, body: string, commits: bool)
    requires PublishOn(board, claim, turn, proposer, roster, body, commits).1.PublishedAs?
    ensures claim in PublishOn(board, claim, turn, proposer, roster, body, commits).0.claims
    ensures Ordinary(PublishOn(board, claim, turn, proposer, roster, body, commits).0.claims[claim])
  {
    hide Insert, Utf8Length, CanInsert;
    var k := |roster| + 1;
    InsertedClaim(board, claim, Fresh(turn, proposer, body, k, OrdinaryTally(k), roster), roster, commits);
    RosterShape(roster);
  }

  lemma BlindIsBlind(board: BoardState, claim: ClaimId, turn: TurnId, proposer: AgentId, body: string, commits: bool)
    requires PublishBlindOn(board, claim, turn, proposer, body, commits).1.PublishedAs?
    ensures claim in PublishBlindOn(board, claim, turn, proposer, body, commits).0.claims
    ensures Blind(PublishBlindOn(board, claim, turn, proposer, body, commits).0.claims[claim])
  {
    hide Insert, Utf8Length, CanInsert;
    InsertedClaim(board, claim, Fresh(turn, proposer, body, BLIND_COHORT, NewTally(BLIND_COHORT), [proposer]), [proposer], commits);
    RosterShape([proposer]);
  }

  lemma StartKnowsItsKind(board: BoardState, claim: ClaimId, turn: TurnId, task: string, agents: seq<AgentId>, commits: bool)
    requires Started(board, claim, turn, task, agents, commits).Some?
    ensures KindKnown(Started(board, claim, turn, task, agents, commits).value)
  {
    hide PublishOn, PublishBlindOn, Others, Blind, Ordinary;
    if |agents| == 1 {
      BlindIsBlind(board, claim, turn, agents[0], "turn candidate", commits);
    } else {
      OrdinaryIsOrdinary(board, claim, turn, agents[0], Others(agents, agents[0]), "turn candidate", commits);
    }
  }

  lemma FilledKeepsKind(st: ClaimState, voter: AgentId, vote: Vote)
    requires st.tally.Plus(vote).Valid() && voter in st.validators
    ensures Blind(Filled(st, voter, vote)) == Blind(st) && Ordinary(Filled(st, voter, vote)) == Ordinary(st)
  {
    var m := st.validators[voter := Some(vote)];
    assert m.Keys == st.validators.Keys && |m| == |m.Keys| == |st.validators|;
  }

  lemma StepKeepsKind(s: TurnState, op: TurnOp)
    requires TurnInv(s) && KindKnown(s) && TalliesValid(s.board)
    ensures KindKnown(DoTurn(s, op))
  {
    match op
    case Finish(_) =>
    case Record(a, commits) =>
      RecordShape(s, a, commits);
      hide BoardInv, HeldClaimOk, RecordOnTurn, VoteOnClaim, Blind, Ordinary, Voters, Terminals;
      if a.verdict.Some? {
        VoteOutcome(s, a.agent, a.verdict.value, commits);
        if VoteOnClaim(s, a.agent, a.verdict.value, commits).1.VotedTo? {
          FilledKeepsKind(s.board.claims[s.claim], a.agent, a.verdict.value);
        }
      }
  }

  lemma {:induction false} RunKeepsKind(s: TurnState, ops: seq<TurnOp>, t: TurnState)
    requires TurnInv(s) && KindKnown(s) && RunTurn(s, ops, t)
    ensures TurnInv(t) && KindKnown(t)
    decreases |ops|
  {
    hide TurnInv, KindKnown, RecordOnTurn, FinishOn;
    if ops != [] {
      match ops[0] {
        case Record(answer, commits) => RecordKeepsTurnInv(s, answer, commits);
        case Finish(ledgerAccepts) => FinishKeepsTurnInv(s, ledgerAccepts);
      }
      StepKeepsKind(s, ops[0]);
      RunKeepsKind(DoTurn(s, ops[0]), ops[1..], t);
    }
  }

  /** The guards of either vote let a countable vote through to the shared tail. */
  lemma CountableVoteIsRecorded(s: TurnState, voter: AgentId, vote: Vote, commits: bool)
    requires TalliesValid(s.board) && s.session != [] && KindKnown(s) && Countable(s.board, s.claim, voter)
    requires s.board.claims[s.claim].proposer == s.session[0]
    ensures VoteOnClaim(s, voter, vote, commits) == RecordOn(s.board, s.claim, voter, vote, commits)
  {
    hide RecordOn, HeldClaimOk;
    var st := s.board.claims[s.claim];
    if s.blind {
      assert |st.validators| == |st.validators.Keys| == 1;
    }
  }

  /** A verdict counts exactly when the proposal is in, the claim is open, the voter is a listed validator who has not spoken, and the store commits. */
  lemma VerdictCountsExactlyWhen(s: TurnState, voter: AgentId, vote: Vote, commits: bool)
    requires TurnInv(s) && KindKnown(s) && TalliesValid(s.board)
    ensures RecordOnTurn(s, PeerAnswer(voter, None, Some(vote)), commits).1.Stepped?
            <==> s.answer.Some? && commits && Countable(s.board, s.claim, voter)
  {
    hide BoardInv, HeldClaimOk, Voters, Terminals, VotersMatch, StepsMatch, VoteOnClaim, EventsFor, RecordOn;
    if s.answer.Some? {
      VoteOutcome(s, voter, vote, commits);
      if Countable(s.board, s.claim, voter) {
        CountableVoteIsRecorded(s, voter, vote, commits);
        CountableVoteIsCounted(s.board, s.claim, voter, vote, commits);
      }
    }
  }

  // ----- cohorts that leave nobody to ask -----

  /** A cohort that repeats one agent and lists no other. */
  predicate OneAgentRepeated(agents: seq<AgentId>) {
    |agents| > 1 && forall i :: 0 <= i < |agents| ==> agents[i] == agents[0]
  }

  lemma {:induction false} OthersAreEmptyWhen(agents: seq<AgentId>, proposer: AgentId)
    ensures Others(agents, proposer) == [] <==> forall i :: 0 <= i < |agents| ==> agents[i] == proposer
    decreases |agents|
  {
    if agents != [] {
      var n := |agents| - 1;
      OthersAreEmptyWhen(agents[..n], proposer);
      assert forall i :: 0 <= i < n ==> agents[..n][i] == agents[i];
    }
  }

  /** The started claim's validators, by the cohort list alone. */
  lemma RosterIsEmptyExactlyWhen(board: BoardState, claim: ClaimId, turn: TurnId, task: string, agents: seq<AgentId>, commits: bool)
    requires Started(board, claim, turn, task, agents, commits).Some?
    ensures var s := Started(board, claim, turn, task, agents, commits).value;
            && s.claim in s.board.claims && s.board.claims[s.claim].status == Open
            && (s.board.claims[s.claim].validators == map[] <==> OneAgentRepeated(agents))
  {
    hide Insert, Utf8Length, CanInsert, Others;
    var proposer, body := agents[0], "turn candidate";
    if |agents| == 1 {
      InsertedClaim(board, claim, Fresh(turn, proposer, body, BLIND_COHORT, NewTally(BLIND_COHORT), [proposer]), [proposer], commits);
      RosterShape([proposer]);
    } else {
      var roster := Others(agents, proposer);
      var k := |roster| + 1;
      InsertedClaim(board, claim, Fresh(turn, proposer, body, k, OrdinaryTally(k), roster), roster, commits);
      RosterShape(roster);
      OthersAreEmptyWhen(agents, proposer);
    }
  }

  lemma {:induction false} OthersAreTheRest(agents: seq<AgentId>, proposer: AgentId)
    ensures forall a :: a in Others(agents, proposer) <==> a in agents && a != proposer
    ensures |Others(agents, proposer)| <= |agents| && (proposer in agents ==> |Others(agents, proposer)| < |agents|)
    decreases |agents|
  {
    if agents != [] {
      var n := |agents| - 1;
      OthersAreTheRest(agents[..n], proposer);
      assert agents == agents[..n] + [agents[n]];
    }
  }

  /** Nobody but the first agent is listed twice. */
  predicate OthersListedOnce(agents: seq<AgentId>, proposer: AgentId) {
    forall i, j :: 0 <= i < j < |agents| && agents[i] != proposer ==> agents[i] != agents[j]
  }

  lemma {:induction false} OthersRepeatWhen(agents: seq<AgentId>, proposer: AgentId)
    ensures NoRepeats(Others(agents, proposer)) <==> OthersListedOnce(agents, proposer)
    decreases |agents|
  {
    if agents != [] {
      var n := |agents| - 1;
      var (front, last) := (agents[..n], agents[n]);
      OthersRepeatWhen(front, proposer);
      OthersAreTheRest(front, proposer);
      OneMoreRepeat(Others(front, proposer), last);
      OneMoreListed(agents, proposer);
      assert Others(front, proposer) + [] == Others(front, proposer);
      hide NoRepeats, OthersListedOnce;
    }
  }

  lemma OneMoreRepeat(s: seq<AgentId>, a: AgentId)
    ensures NoRepeats(s + [a]) <==> NoRepeats(s) && a !in s
  {
    if NoRepeats(s + [a]) {
      assert forall i :: 0 <= i < |s| ==> (s + [a])[i] == s[i] && (s + [a])[i] != (s + [a])[|s|];
    }
  }

  lemma OneMoreListed(agents: seq<AgentId>, proposer: AgentId)
    requires agents != []
    ensures var n := |agents| - 1;
            OthersListedOnce(agents, proposer) <==> OthersListedOnce(agents[..n], proposer) && (agents[n] != proposer ==> agents[n] !in agents[..n])
  {
    var n := |agents| - 1;
    var front := agents[..n];
    if OthersListedOnce(agents, proposer) {
      forall i, j | 0 <= i < j < n && front[i] != proposer ensures front[i] != front[j] {
        assert agents[i] != agents[j];
      }
      forall i | 0 <= i < n && agents[n] != proposer ensures front[i] != agents[n] {
        assert agents[i] == front[i];
      }
    }
    if OthersListedOnce(front, proposer) && (agents[n] != proposer ==> agents[n] !in front) {
      forall i, j | 0 <= i < j < |agents| && agents[i] != proposer ensures agents[i] != agents[j] {
        assert agents[i] == front[i] && front[i] in front;
        assert j < n ==> agents[j] == front[j];
      }
    }
  }

  /**
   A turn starts exactly when it has a cohort, not too large, in which nobody but
   the first agent is listed twice, a task, an unused claim id and a store that
   commits. The first agent proposes; the others validate, or it itself when it
   is alone.
   */
  lemma StartsExactlyWhen(board: BoardState, claim: ClaimId, turn: TurnId, task: string, agents: seq<AgentId>, commits: bool)
    requires BoardInv(board)
    ensures Started(board, claim, turn, task, agents, commits).Some?
            <==> agents != [] && |agents| <= 80 && task != "" && OthersListedOnce(agents, agents[0]) && claim !in board.claims && commits
    ensures Started(board, claim, turn, task, agents, commits).Some? ==>
              var s := Started(board, claim, turn, task, agents, commits).value;
              && s.claim == claim && claim in s.board.claims
              && s.board.claims[claim].proposer == agents[0] && s.board.claims[claim].turn == turn
              && s.board.claims[claim].validators
                 == (if |agents| == 1 then map[agents[0] := None] else map a | a in agents && a != agents[0] :: None)
              && s.id == turn && s.session == agents && s.answer.None? && s.steps == [] && s.votesSeen == 0 && s.sealed == [] && !s.finished
              && s.events == [TurnStarted(turn), ClaimPublished(claim, agents[0])]
  {
    hide BoardInv, PublishOn, PublishBlindOn, Utf8Length, Others, NoRepeats, OthersListedOnce;
    if agents != [] {
      CandidateFits();
      var (proposer, roster) := (agents[0], Others(agents, agents[0]));
      OthersAreTheRest(agents, proposer);
      OthersRepeatWhen(agents, proposer);
      AloneListedOnce(agents);
      PublishSucceedsExactlyWhen(board, claim, turn, proposer, roster, "turn candidate", commits);
      PublishBlindSucceedsExactlyWhen(board, claim, turn, proposer, "turn candidate", commits);
      var slots: map<AgentId, Option<Vote>> := map a | a in roster :: None;
      assert slots == map a | a in agents && a != proposer :: None;
    }
  }

  lemma AloneListedOnce(agents: seq<AgentId>)
    requires agents != []
    ensures |agents| == 1 ==> OthersListedOnce(agents, agents[0])
  {
  }

  lemma CandidateFits()
    ensures Utf8Length("turn candidate") <= 2048 && "turn candidate"[0] != '\0'
  {
    hide Utf8Length;
    CandidateText("turn candidate");
  }

  /** The claim of the turn has this roster, and is open if it is empty. */
  ghost predicate RosterIs(s: TurnState, roster: set<AgentId>) {
    && s.claim in s.board.claims && s.board.claims[s.claim].validators.Keys == roster
    && (roster == {} ==> s.board.claims[s.claim].status == Open)
  }

  lemma FilledOneKeepsRoster(b: BoardState, claim: ClaimId, voter: AgentId, vote: Vote, after: BoardState, voted: Voted)
    requires FilledOne(b, claim, voter, vote, after, voted)
    ensures claim in b.claims && claim in after.claims && after.claims[claim].validators.Keys == b.claims[claim].validators.Keys != {}
  {
    hide ClaimSound, RowSound;
    assert voter in b.claims[claim].validators.Keys;
  }

  lemma StepKeepsRoster(s: TurnState, op: TurnOp, roster: set<AgentId>)
    requires TurnInv(s) && TalliesValid(s.board) && RosterIs(s, roster)
    ensures RosterIs(DoTurn(s, op), roster)
  {
    match op
    case Finish(_) =>
    case Record(a, commits) =>
      RecordShape(s, a, commits);
      TurnClaimIsHeld(s);
      hide TurnInv, BoardInv, HeldClaimOk, RecordOnTurn, VoteOnClaim, FilledOne;
      if a.verdict.Some? {
        VoteOutcome(s, a.agent, a.verdict.value, commits);
        var r := VoteOnClaim(s, a.agent, a.verdict.value, commits);
        if r.1.VotedTo? {
          FilledOneKeepsRoster(s.board, s.claim, a.agent, a.verdict.value, r.0, r.1);
        }
      }
  }

  lemma {:induction false} RunKeepsRoster(s: TurnState, ops: seq<TurnOp>, t: TurnState, roster: set<AgentId>)
    requires TurnInv(s) && RosterIs(s, roster) && RunTurn(s, ops, t)
    ensures RosterIs(t, roster)
    decreases |ops|
  {
    hide TurnInv, RosterIs, RecordOnTurn, FinishOn;
    if ops != [] {
      match ops[0] {
        case Record(answer, commits) => RecordKeepsTurnInv(s, answer, commits);
        case Finish(ledgerAccepts) => FinishKeepsTurnInv(s, ledgerAccepts);
      }
      StepKeepsRoster(s, ops[0], roster);
      RunKeepsRoster(DoTurn(s, ops[0]), ops[1..], t, roster);
    }
  }

  /** What every state of a run of a started turn knows. */
  lemma ReachedState(
      board: BoardState, claim: ClaimId, turn: TurnId, task: string, agents: seq<AgentId>, commits: bool, ops: seq<TurnOp>, t: TurnState)
    requires BoardInv(board) && Started(board, claim, turn, task, agents, commits).Some?
    requires RunTurn(Started(board, claim, turn, task, agents, commits).value, ops, t)
    ensures TurnInv(t) && KindKnown(t) && TalliesValid(t.board) && t.session != []
    ensures t.claim in t.board.claims && HeldClaimOk(t.board, t.claim)
    ensures t.board.claims[t.claim].validators == map[] <==> OneAgentRepeated(agents)
    ensures OneAgentRepeated(agents) ==> t.board.claims[t.claim].status == Open
  {
    hide TurnInv, KindKnown, Started, RunTurn, BoardInv, HeldClaimOk;
    var s := Started(board, claim, turn, task, agents, commits).value;
    StartEstablishesInv(board, claim, turn, task, agents, commits);
    StartKnowsItsKind(board, claim, turn, task, agents, commits);
    RosterIsEmptyExactlyWhen(board, claim, turn, task, agents, commits);
    var roster := s.board.claims[s.claim].validators.Keys;
    RunKeepsKind(s, ops, t);
    RunKeepsRoster(s, ops, t, roster);
    TurnClaimIsHeld(t);
    InvMakesTalliesValid(t.board);
  }

  /**
   In every state a turn can reach with its proposal in and its claim open, each
   silent validator's verdict counts once the store commits, and there is such a
   validator exactly when the cohort is not one agent repeated.
   */
  lemma OpenTurnsCanGoOn(
      board: BoardState, claim: ClaimId, turn: TurnId, task: string, agents: seq<AgentId>, commits: bool, ops: seq<TurnOp>, t: TurnState,
      voter: AgentId, vote: Vote)
    requires BoardInv(board) && Started(board, claim, turn, task, agents, commits).Some?
    requires RunTurn(Started(board, claim, turn, task, agents, commits).value, ops, t)
    requires t.answer.Some? && t.claim in t.board.claims && t.board.claims[t.claim].status == Open
    ensures TalliesValid(t.board) && t.session != []
    ensures Silent(t.board.claims[t.claim].validators) != {} <==> !OneAgentRepeated(agents)
    ensures voter in Silent(t.board.claims[t.claim].validators) ==>
              RecordOnTurn(t, PeerAnswer(voter, None, Some(vote)), true).1.Stepped?
  {
    hide TurnInv, KindKnown, Started, RunTurn, RecordOnTurn, BoardInv;
    ReachedState(board, claim, turn, task, agents, commits, ops, t);
    VerdictCountsExactlyWhen(t, voter, vote, true);
    var st := t.board.claims[t.claim];
    PendingAreTheSilent(st);
    if st.validators != map[] {
      OpenMeansPending(st.tally);
      assert Silent(st.validators) != {};
    }
  }

  /** A turn of one agent repeated never closes: in every state it reaches every verdict is refused and finishing fails. */
  lemma RepeatedAgentIsStuck(
      board: BoardState, claim: ClaimId, turn: TurnId, task: string, agents: seq<AgentId>, commits: bool, ops: seq<TurnOp>, t: TurnState,
      voter: AgentId, vote: Vote, now: bool, ledgerAccepts: bool)
    requires BoardInv(board) && Started(board, claim, turn, task, agents, commits).Some? && OneAgentRepeated(agents)
    requires RunTurn(Started(board, claim, turn, task, agents, commits).value, ops, t)
    ensures TalliesValid(t.board) && t.session != []
    ensures t.claim in t.board.claims && t.board.claims[t.claim].status == Open
    ensures RecordOnTurn(t, PeerAnswer(voter, None, Some(vote)), now).1.RecordRefused?
    ensures FinishOn(t, ledgerAccepts) == (t, Some(NoAnswer))
  {
    hide TurnInv, KindKnown, Started, RunTurn, RecordOnTurn, BoardInv, HeldClaimOk;
    ReachedState(board, claim, turn, task, agents, commits, ops, t);
    VerdictCountsExactlyWhen(t, voter, vote, now);
    RecordAnswers(t, PeerAnswer(voter, None, Some(vote)), now);
  }

  lemma RecordAnswers(t: TurnState, a: PeerAnswer, commits: bool)
    requires TalliesValid(t.board) && t.session != []
    ensures RecordOnTurn(t, a, commits).1.Stepped? || RecordOnTurn(t, a, commits).1.RecordRefused?
  {
    hide RecordOnTurn;
  }

  /** Such a turn does start: agent 7 listed twice, on an empty board. */
  lemma RepeatedAgentStarts()
    ensures Started(EMPTY_BOARD, 0, 0, "x", [7, 7], true).Some? && OneAgentRepeated([7, 7]) && BoardInv(EMPTY_BOARD)
  {
    hide PublishOn, Others, Utf8Length, SqlLength;
    EmptyBoardOk();
    OthersAreEmptyWhen([7, 7], 7);
    CandidateText("turn candidate");
    LoneProposalIsAccepted("turn candidate");
  }

  lemma CandidateText(body: string)
    requires body == "turn candidate"
    ensures 0 < SqlLength(body) <= 2048 && Utf8Length(body) <= MAX_BODY_BYTES
  {
    hide Utf8Length, SqlLength;
    AsciiLength(body);
  }

  lemma LoneProposalIsAccepted(body: string)
    requires 0 < SqlLength(body) <= 2048 && Utf8Length(body) <= MAX_BODY_BYTES
    ensures PublishOn(EMPTY_BOARD, 0, 0, 7, [], body, true).1.PublishedAs?
  {
    hide Utf8Length, SqlLength;
  }

  lemma {:induction false} AsciiLength(s: string)
    requires forall i :: 0 <= i < |s| ==> s[i] < 128 as char
    ensures Utf8Length(s) == |s|
    decreases |s|
  {
    if s != "" {
      AsciiLength(s[1..]);
    }
  }

  lemma TurnClaimIsHeld(t: TurnState)
    requires TurnInv(t)
    ensures t.session != [] && BoardInv(t.board) && HeldClaimOk(t.board, t.claim)
  {
  }
}

/** The turn as the code drives it: a board it owns, a bus it reports to, a ledger it seals into. */
module TurnLoop {
  import opened Optional
  import opened Quorum
  import opened Board
  import opened BoardRuns
  import opened Reopening
  import opened Blackboard
  import T = Turn

  class TurnLoop {
    const id: TurnId
    const session: seq<AgentId>
    const blackboard: Blackboard
    const claim: ClaimId
    const blind: bool
    var answer: Option<string>
    var votesSeen: nat
    var stepsSeen: seq<T.Step>
    var finished: bool
    var published: seq<T.Event>
    var sealed: seq<string>

    ghost function State(): T.TurnState
      reads this, blackboard, blackboard.store
    {
      T.TurnState(id, session, blackboard.State(), claim, answer, votesSeen, stepsSeen, finished, blind, published, sealed)
    }

    ghost predicate Valid()
      reads this, blackboard, blackboard.store
    {
      T.TurnInv(State())
    }

    constructor (id: TurnId, session: seq<AgentId>, blackboard: Blackboard, claim: ClaimId)
      requires session != []
      ensures this.blackboard == blackboard
      ensures State() == T.TurnState(id, session, blackboard.State(), claim, None, 0, [], false, |session| == 1,
                                     [T.TurnStarted(id), T.ClaimPublished(claim, session[0])], [])
    {
      this.id, this.session, this.blackboard, this.claim, this.blind := id, session, blackboard, claim, |session| == 1;
      answer, votesSeen, stepsSeen, finished := None, 0, [], false;
      published, sealed := [T.TurnStarted(id), T.ClaimPublished(claim, session[0])], [];
    }

    /** Publish the candidate and open the turn; `null` when the cohort, the task or the board refuses. */
    static method StartShared(blackboard: Blackboard, claim: ClaimId, id: TurnId, task: string, agents: seq<AgentId>, commits: bool)
      returns (turn: TurnLoop?)
      requires blackboard.Valid()
      modifies blackboard`claims, blackboard.store
      ensures turn == null <==> T.Started(old(blackboard.State()), claim, id, task, agents, commits).None?
      ensures turn != null ==>
                && turn.Valid() && turn.blackboard == blackboard && fresh(turn)
                && turn.State() == T.Started(old(blackboard.State()), claim, id, task, agents, commits).value
    {
      if agents == [] || |agents| > T.PEER_CEILING || task == "" {
        return null;
      }
      ghost var was := blackboard.State();
      var proposer := agents[0];
      var validators := FilterOthers(agents, proposer);
      var r;
      if |agents| == 1 {
        r := blackboard.PublishBlind(claim, id, proposer, "turn candidate", commits);
      } else {
        r := blackboard.Publish(claim, id, proposer, validators, "turn candidate", commits);
      }
      assert (blackboard.State(), r) == T.PublishCandidate(was, claim, id, agents, commits);
      hide T.PublishCandidate;
      if r.PublishRefused? {
        return null;
      }
      turn := new TurnLoop(id, agents, blackboard, claim);
      assert turn.State() == T.Started(was, claim, id, task, agents, commits).value;
      T.StartEstablishesInv(was, claim, id, task, agents, commits);
    }

    static method FilterOthers(agents: seq<AgentId>, proposer: AgentId) returns (others: seq<AgentId>)
      ensures others == T.Others(agents, proposer)
    {
      others := [];
      for i := 0 to |agents|
        invariant others == T.Others(agents[..i], proposer)
      {
        assert agents[..i + 1][..i] == agents[..i];
        if agents[i] != proposer {
          others := others + [agents[i]];
        }
      }
      assert agents[..|agents|] == agents;
    }

    /** One peer response: store the proposal, or count a verdict and report where the claim stands. */
    method Record(a: T.PeerAnswer, commits: bool) returns (r: T.Recorded)
      requires Valid()
      modifies this, blackboard`claims, blackboard.store
      ensures Valid()
      ensures TalliesValid(old(State()).board) && (State(), r) == T.RecordOnTurn(old(State()), a, commits)
    {
      hide T.TurnInv, TalliesValid, BoardInv, VoteOn, VoteBlindOn;
      ghost var was := State();
      T.RecordKeepsTurnInv(was, a, commits);
      T.TurnHasABoard(was);
      if a.text.Some? {
        if a.verdict.Some? || a.agent != session[0] {
          return T.RecordRefused(T.NoAnswer);
        }
        if a.text.value == "" {
          return T.RecordRefused(T.EmptyClaim);
        }
        if answer.Some? {
          return T.RecordRefused(T.NoAnswer);
        }
        answer := a.text;
        return T.Stepped(T.Collecting);
      }
      if answer.None? || a.verdict.None? {
        return T.RecordRefused(T.NoAnswer);
      }
      var vote := a.verdict.value;
      var voted;
      if blind && a.agent == session[0] {
        voted := blackboard.VoteBlind(claim, a.agent, vote, commits);
      } else {
        voted := blackboard.Vote(claim, a.agent, vote, commits);
      }
      if voted.VoteRefused? {
        return T.RecordRefused(T.NoAnswer);
      }
      published := published + [T.VoteCast(claim, a.agent, vote)];
      votesSeen := votesSeen + 1;
      var step;
      match voted.status {
        case Open =>
          step := T.Collecting;
        case Reached =>
          published := published + [T.QuorumReached(claim, voted.tally.Yeses(), Needed(voted.tally.k))];
          published := published + [T.CohortAborted];
          step := T.QuorumMet;
        case Unreachable =>
          published := published + [T.QuorumUnreachable(claim, voted.tally.Yeses() + voted.tally.Pending(), Needed(voted.tally.k))];
          published := published + [T.CohortAborted];
          step := T.Escalate;
      }
      assert published == was.events + T.EventsFor(claim, a.agent, vote, voted.status, voted.tally);
      stepsSeen := stepsSeen + [step];
      r := T.Stepped(step);
    }

    /** Seal the agreed answer, once, after quorum. */
    method Finish(ledgerAccepts: bool) returns (r: Option<T.TurnError>)
      requires Valid()
      modifies this`sealed, this`published, this`finished
      ensures Valid()
      ensures (State(), r) == T.FinishOn(old(State()), ledgerAccepts)
    {
      hide T.TurnInv;
      T.FinishKeepsTurnInv(State(), ledgerAccepts);
      if finished {
        return Some(T.NoAnswer);
      }
      if claim !in blackboard.claims || blackboard.claims[claim].status != Reached {
        return Some(T.NoAnswer);
      }
      if answer.None? {
        return Some(T.NoAnswer);
      }
      if answer.value == "" {
        return Some(T.EmptyClaim);
      }
      if !ledgerAccepts {
        return Some(T.LedgerRefused);
      }
      sealed := sealed + [answer.value];
      published := published + [T.SegmentSealed, T.TurnCompleted(id)];
      finished := true;
      r := None;
    }
  }
}

/** Rotation over runs of the board itself: votes, failed commits, other turns and restarts anywhere between the claims. */
module RotationRuns {
  import opened Quorum
  import opened Board
  import opened BoardRuns
  import opened Reopening
  import opened Rotation

  predicate Published(op: Op) { op.Publish? || op.PublishBlind? }

  /** The operation puts a claim of this turn on the board. */
  ghost predicate Proposes(s: BoardState, op: Op, turn: TurnId): (p: bool)
    ensures p ==> Published(op)
  {
    match op
    case Publish(claim, t, proposer, validators, body, commits) =>
      t == turn && PublishOn(s, claim, t, proposer, validators, body, commits).1.PublishedAs?
    case PublishBlind(claim, t, proposer, body, commits) =>
      t == turn && PublishBlindOn(s, claim, t, proposer, body, commits).1.PublishedAs?
    case _ => false
  }

  function ProposerOf(op: Op): AgentId
    requires Published(op)
  {
    op.proposer
  }

  /** Every claim of the turn is proposed by whom `next_proposer` names at that moment; everything else is free. */
  ghost predicate Rotates(s: BoardState, ops: seq<Op>, turn: TurnId, candidates: seq<AgentId>)
    decreases |ops|
  {
    ops == []
    || (&& TalliesValid(s)
        && (Proposes(s, ops[0], turn) ==> IsNext(s.claims, turn, candidates, ProposerOf(ops[0])))
        && Rotates(Do(s, ops[0]), ops[1..], turn, candidates))
  }

  /** Who proposed the claims of the turn, in order. */
  ghost function Proposers(s: BoardState, ops: seq<Op>, turn: TurnId): seq<AgentId>
    decreases |ops|
  {
    if ops == [] || !TalliesValid(s) then []
    else (if Proposes(s, ops[0], turn) then [ProposerOf(ops[0])] else []) + Proposers(Do(s, ops[0]), ops[1..], turn)
  }

  // ----- what one operation does to the counts -----

  /** The same claims of the same proposers and turns. */
  ghost predicate SameProposals(a: map<ClaimId, ClaimState>, b: map<ClaimId, ClaimState>) {
    a.Keys == b.Keys && forall c :: c in a ==> a[c].turn == b[c].turn && a[c].proposer == b[c].proposer
  }

  lemma SameCounts(a: map<ClaimId, ClaimState>, b: map<ClaimId, ClaimState>, turn: TurnId, agent: AgentId)
    requires SameProposals(a, b)
    ensures Proposals(a, turn, agent) == Proposals(b, turn, agent)
  {
    assert ProposedBy(a, turn, agent) == ProposedBy(b, turn, agent);
  }

  lemma RestartKeepsProposer(s: BoardState, c: ClaimId)
    requires BoardInv(s) && TalliesValid(s)
    ensures Do(s, Restart).claims.Keys == s.claims.Keys
    ensures c in s.claims ==> Do(s, Restart).claims[c].turn == s.claims[c].turn && Do(s, Restart).claims[c].proposer == s.claims[c].proposer
  {
    hide BoardInv, HeldClaimOk, Reopened;
    ReopenSettles(s, c);
  }

  lemma RestartMovesNoCount(s: BoardState, turn: TurnId, agent: AgentId)
    requires BoardInv(s) && TalliesValid(s)
    ensures Proposals(Do(s, Restart).claims, turn, agent) == Proposals(s.claims, turn, agent)
  {
    hide BoardInv, TalliesValid, Do, Proposals;
    var after := Do(s, Restart).claims;
    RestartKeepsProposer(s, 0);
    forall c | c in after ensures after[c].turn == s.claims[c].turn && after[c].proposer == s.claims[c].proposer {
      RestartKeepsProposer(s, c);
    }
    SameCounts(after, s.claims, turn, agent);
  }

  lemma RecordMovesNoCount(s: BoardState, claim: ClaimId, voter: AgentId, vote: Vote, commits: bool, turn: TurnId, agent: AgentId)
    requires claim in s.claims && s.claims[claim].tally.Valid()
    ensures Proposals(RecordOn(s, claim, voter, vote, commits).0.claims, turn, agent) == Proposals(s.claims, turn, agent)
  {
    hide Proposals;
    var after := RecordOn(s, claim, voter, vote, commits).0.claims;
    if after != s.claims {
      assert after == s.claims[claim := after[claim]];
      VotingIsNoProposal(s.claims, claim, after[claim], turn, agent);
    }
  }

  lemma VoteMovesNoCount(s: BoardState, claim: ClaimId, voter: AgentId, vote: Vote, commits: bool, turn: TurnId, agent: AgentId)
    requires TalliesValid(s)
    ensures Proposals(VoteOn(s, claim, voter, vote, commits).0.claims, turn, agent) == Proposals(s.claims, turn, agent)
    ensures Proposals(VoteBlindOn(s, claim, voter, vote, commits).0.claims, turn, agent) == Proposals(s.claims, turn, agent)
  {
    VotesOnlyRecord(s, claim, voter, vote, commits);
    hide Proposals, VoteOn, VoteBlindOn, RecordOn;
    if claim in s.claims {
      RecordMovesNoCount(s, claim, voter, vote, commits, turn, agent);
    }
  }

  lemma InsertMovesOneCount(s: BoardState, claim: ClaimId, st: ClaimState, roster: seq<AgentId>, commits: bool, turn: TurnId, agent: AgentId)
    requires BoardInv(s)
    ensures var r := Insert(s, claim, st, roster, commits);
            Proposals(r.0.claims, turn, agent)
            == Proposals(s.claims, turn, agent) + (if r.1.PublishedAs? && st.turn == turn && st.proposer == agent then 1 else 0)
  {
    RowsAndMemoryNameTheSameClaims(s);
    hide BoardInv, Proposals;
    if Insert(s, claim, st, roster, commits).1.PublishedAs? {
      assert claim !in s.claims.Keys;
      PublishIsOneProposal(s.claims, claim, st, turn, agent);
    }
  }

  lemma PublishMovesOneCount(s: BoardState, op: Op, turn: TurnId, agent: AgentId)
    requires BoardInv(s) && TalliesValid(s) && Published(op)
    ensures Proposals(Do(s, op).claims, turn, agent)
            == Proposals(s.claims, turn, agent) + (if Proposes(s, op, turn) && ProposerOf(op) == agent then 1 else 0)
  {
    hide BoardInv, Proposals, Insert, Utf8Length;
    match op
    case Publish(claim, t, proposer, validators, body, commits) =>
      var k := |validators| + 1;
      InsertMovesOneCount(s, claim, Fresh(t, proposer, body, k, OrdinaryTally(k), validators), validators, commits, turn, agent);
    case PublishBlind(claim, t, proposer, body, commits) =>
      InsertMovesOneCount(s, claim, Fresh(t, proposer, body, BLIND_COHORT, NewTally(BLIND_COHORT), [proposer]), [proposer], commits, turn, agent);
  }

  /** Only a claim of the turn that goes up moves a count, its proposer's, by one. */
  lemma OperationMovesCounts(s: BoardState, op: Op, turn: TurnId, agent: AgentId)
    requires BoardInv(s) && TalliesValid(s)
    ensures Proposals(Do(s, op).claims, turn, agent)
            == Proposals(s.claims, turn, agent) + (if Proposes(s, op, turn) && ProposerOf(op) == agent then 1 else 0)
  {
    hide BoardInv, Proposals, PublishOn, PublishBlindOn, VoteOn, VoteBlindOn, Reopened;
    match op
    case Publish(_, _, _, _, _, _) => PublishMovesOneCount(s, op, turn, agent);
    case PublishBlind(_, _, _, _, _) => PublishMovesOneCount(s, op, turn, agent);
    case CastVote(claim, voter, vote, commits) => VoteMovesNoCount(s, claim, voter, vote, commits, turn, agent);
    case CastBlind(claim, voter, vote, commits) => VoteMovesNoCount(s, claim, voter, vote, commits, turn, agent);
    case Restart => RestartMovesNoCount(s, turn, agent);
  }

  // ----- a run of the board is a run of the turn -----

  ghost predicate SameTurnCounts(a: map<ClaimId, ClaimState>, b: map<ClaimId, ClaimState>, turn: TurnId) {
    forall agent :: Proposals(a, turn, agent) == Proposals(b, turn, agent)
  }

  /** The boards before each claim of the turn, and the last one. */
  ghost predicate TurnSteps(boards: seq<map<ClaimId, ClaimState>>, turn: TurnId, candidates: seq<AgentId>, proposers: seq<AgentId>) {
    && |boards| == |proposers| + 1
    && (forall j :: 0 <= j < |proposers| ==> IsNext(boards[j], turn, candidates, proposers[j]))
    && (forall j, a :: 0 <= j < |proposers| && a in candidates ==>
          Proposals(boards[j + 1], turn, a) == Proposals(boards[j], turn, a) + (if a == proposers[j] then 1 else 0))
  }

  lemma StepInFront(
      now: map<ClaimId, ClaimState>, boards: seq<map<ClaimId, ClaimState>>, turn: TurnId, candidates: seq<AgentId>, proposers: seq<AgentId>, p: AgentId)
    requires TurnSteps(boards, turn, candidates, proposers) && IsNext(now, turn, candidates, p)
    requires forall a :: Proposals(boards[0], turn, a) == Proposals(now, turn, a) + (if a == p then 1 else 0)
    ensures TurnSteps([now] + boards, turn, candidates, [p] + proposers)
  {
    hide Proposals, IsNext;
    var (bs, ps) := ([now] + boards, [p] + proposers);
    forall j | 0 <= j < |ps| ensures IsNext(bs[j], turn, candidates, ps[j]) {
      assert j > 0 ==> IsNext(boards[j - 1], turn, candidates, proposers[j - 1]);
    }
    forall j, a | 0 <= j < |ps| && a in candidates
      ensures Proposals(bs[j + 1], turn, a) == Proposals(bs[j], turn, a) + (if a == ps[j] then 1 else 0)
    {
      assert j > 0 ==> bs[j] == boards[j - 1] && bs[j + 1] == boards[j - 1 + 1];
    }
  }

  lemma {:induction false} RunTakesTurns(s: BoardState, ops: seq<Op>, t: BoardState, turn: TurnId, candidates: seq<AgentId>)
    returns (boards: seq<map<ClaimId, ClaimState>>)
    requires BoardInv(s) && Run(s, ops, t) && Rotates(s, ops, turn, candidates)
    ensures TurnSteps(boards, turn, candidates, Proposers(s, ops, turn))
    ensures SameTurnCounts(boards[0], s.claims, turn) && SameTurnCounts(boards[|boards| - 1], t.claims, turn)
    decreases |ops|
  {
    hide BoardInv, Proposals, IsNext, Proposes, Do;
    if ops == [] {
      boards := [s.claims];
    } else {
      DoKeepsInv(s, ops[0]);
      var next := Do(s, ops[0]);
      forall a ensures Proposals(next.claims, turn, a)
                       == Proposals(s.claims, turn, a) + (if Proposes(s, ops[0], turn) && ProposerOf(ops[0]) == a then 1 else 0) {
        OperationMovesCounts(s, ops[0], turn, a);
      }
      var rest := RunTakesTurns(next, ops[1..], t, turn, candidates);
      boards := rest;
      if Proposes(s, ops[0], turn) {
        StepInFront(s.claims, rest, turn, candidates, Proposers(next, ops[1..], turn), ProposerOf(ops[0]));
        boards := [s.claims] + rest;
      }
    }
  }

  /** A run from a board that holds nothing of the turn yet, in which the turn's claims are proposed in rotation. */
  ghost predicate RotatingRun(s: BoardState, ops: seq<Op>, t: BoardState, turn: TurnId, candidates: seq<AgentId>) {
    && BoardInv(s) && Run(s, ops, t) && Rotates(s, ops, turn, candidates)
    && forall a :: a in candidates ==> Proposals(s.claims, turn, a) == 0
  }

  lemma RotatingRunIsATurn(s: BoardState, ops: seq<Op>, t: BoardState, turn: TurnId, candidates: seq<AgentId>)
    returns (boards: seq<map<ClaimId, ClaimState>>)
    requires RotatingRun(s, ops, t, turn, candidates)
    ensures TurnRun(boards, turn, candidates, Proposers(s, ops, turn))
    ensures SameTurnCounts(boards[|boards| - 1], t.claims, turn)
  {
    hide BoardInv, Proposals, IsNext, Rotates, Run;
    boards := RunTakesTurns(s, ops, t, turn, candidates);
  }

  // ----- the promises -----

  /** On every board such a run reaches, no two candidates are more than one proposal apart. */
  lemma BoardsRotateFairly(s: BoardState, ops: seq<Op>, t: BoardState, turn: TurnId, candidates: seq<AgentId>, a: AgentId, b: AgentId)
    requires RotatingRun(s, ops, t, turn, candidates) && a in candidates && b in candidates
    ensures Proposals(t.claims, turn, a) <= Proposals(t.claims, turn, b) + 1
  {
    hide RotatingRun, Proposals, TurnRun, Proposers;
    var boards := RotatingRunIsATurn(s, ops, t, turn, candidates);
    var proposers := Proposers(s, ops, turn);
    TurnLength(boards, turn, candidates, proposers);
    RotationIsFair(boards, turn, candidates, proposers, |proposers|, a, b);
  }

  lemma TurnLength(boards: seq<map<ClaimId, ClaimState>>, turn: TurnId, candidates: seq<AgentId>, proposers: seq<AgentId>)
    requires TurnRun(boards, turn, candidates, proposers)
    ensures |boards| == |proposers| + 1
  {
  }

  /** Claim number `j` of the turn went to candidate number `j mod n` in id order. */
  lemma BoardsGoRoundRobin(s: BoardState, ops: seq<Op>, t: BoardState, turn: TurnId, candidates: seq<AgentId>, j: nat)
    requires RotatingRun(s, ops, t, turn, candidates) && candidates != [] && j < |Proposers(s, ops, turn)|
    ensures |InOrder(candidates)| > 0 && Proposers(s, ops, turn)[j] == InOrder(candidates)[j % |InOrder(candidates)|]
  {
    hide RotatingRun, TurnRun, Proposers, InOrder;
    var boards := RotatingRunIsATurn(s, ops, t, turn, candidates);
    RotationIsRoundRobin(boards, turn, candidates, Proposers(s, ops, turn), j);
  }

  /** Any n claims of the turn in a row, wherever they start, were proposed by each candidate exactly once. */
  lemma BoardsUseEachOnce(s: BoardState, ops: seq<Op>, t: BoardState, turn: TurnId, candidates: seq<AgentId>, start: nat, n: nat)
    requires RotatingRun(s, ops, t, turn, candidates) && candidates != []
    requires n == |InOrder(candidates)| && start + n <= |Proposers(s, ops, turn)|
    ensures var window := Proposers(s, ops, turn)[start..start + n]; NoRepeats(window) && Members(window) == Members(candidates)
  {
    hide RotatingRun, TurnRun, Proposers, InOrder, NoRepeats, Members;
    var boards := RotatingRunIsATurn(s, ops, t, turn, candidates);
    EveryWindowUsesEachOnce(boards, turn, candidates, Proposers(s, ops, turn), start, n);
  }

  // ----- and such runs go on -----

  lemma {:induction false} RunExtends(s: BoardState, ops: seq<Op>, t: BoardState, op: Op)
    requires Run(s, ops, t) && TalliesValid(t)
    ensures Run(s, ops + [op], Do(t, op))
    decreases |ops|
  {
    hide Do, TalliesValid;
    if ops == [] {
      assert [] + [op] == [op] && [op][1..] == [];
    } else {
      assert (ops + [op])[1..] == ops[1..] + [op];
      RunExtends(Do(s, ops[0]), ops[1..], t, op);
    }
  }

  lemma {:induction false} RotationExtends(s: BoardState, ops: seq<Op>, t: BoardState, op: Op, turn: TurnId, candidates: seq<AgentId>)
    requires Run(s, ops, t) && TalliesValid(t) && Rotates(s, ops, turn, candidates)
    requires Proposes(t, op, turn) ==> IsNext(t.claims, turn, candidates, ProposerOf(op))
    ensures Rotates(s, ops + [op], turn, candidates)
    ensures Proposers(s, ops + [op], turn) == Proposers(s, ops, turn) + (if Proposes(t, op, turn) then [ProposerOf(op)] else [])
    decreases |ops|
  {
    hide Do, TalliesValid, Proposes, IsNext;
    if ops == [] {
      assert [] + [op] == [op] && [op][1..] == [];
      assert Rotates(Do(t, op), [], turn, candidates) && Proposers(Do(t, op), [], turn) == [];
    } else {
      assert (ops + [op])[1..] == ops[1..] + [op];
      RotationExtends(Do(s, ops[0]), ops[1..], t, op, turn, candidates);
    }
  }

  lemma UnusedIdCanGoIn(t: BoardState, claim: ClaimId, agent: AgentId)
    requires BoardInv(t) && claim !in t.claims
    ensures claim !in t.tables.claims && (claim, agent) !in t.tables.validators
  {
    RowsAndMemoryNameTheSameClaims(t);
    hide HeldClaimOk;
    assert claim !in t.tables.claims.Keys;
  }

  lemma BlindClaimGoesUp(t: BoardState, claim: ClaimId, turn: TurnId, proposer: AgentId, body: string)
    requires BoardInv(t) && claim !in t.claims && 0 < SqlLength(body) <= 2048 && Utf8Length(body) <= MAX_BODY_BYTES
    ensures Proposes(t, PublishBlind(claim, turn, proposer, body, true), turn)
  {
    UnusedIdCanGoIn(t, claim, proposer);
    hide BoardInv, Utf8Length, SqlLength;
    var row := ClaimRow(turn, proposer, body, BLIND_COHORT, "open");
    assert CanInsert(t.tables, claim, row, [proposer]);
  }

  /** Whatever has happened so far, a claim with an unused id by the next proposer goes up and the run is still one. */
  lemma RotatingRunsGoOn(
      s: BoardState, ops: seq<Op>, t: BoardState, turn: TurnId, candidates: seq<AgentId>, claim: ClaimId, p: AgentId, body: string)
    requires RotatingRun(s, ops, t, turn, candidates) && IsNext(t.claims, turn, candidates, p)
    requires claim !in t.claims && 0 < SqlLength(body) <= 2048 && Utf8Length(body) <= MAX_BODY_BYTES
    ensures TalliesValid(t)
    ensures var op := PublishBlind(claim, turn, p, body, true);
            && RotatingRun(s, ops + [op], Do(t, op), turn, candidates)
            && Proposers(s, ops + [op], turn) == Proposers(s, ops, turn) + [p]
  {
    hide BoardInv, Utf8Length, Do, IsNext, Proposals, TalliesValid, Proposes;
    var op := PublishBlind(claim, turn, p, body, true);
    Reopening.RunKeepsInv(s, ops, t);
    InvMakesTalliesValid(t);
    BlindClaimGoesUp(t, claim, turn, p, body);
    RunExtends(s, ops, t, op);
    RotationExtends(s, ops, t, op, turn, candidates);
  }
}

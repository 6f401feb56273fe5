/**
 The persistent peer blackboard: claims in memory, rows in a transactional
 store, and the promise that re-opening the store gives the memory back.
 */
module Board {
  import opened Optional
  import opened Ordering
  import opened Quorum

  type ClaimId = nat
  type TurnId = nat
  type AgentId = nat

  const MAX_BODY_BYTES: nat := 2048
  const MAX_COHORT: nat := 80

  /** A blind re-derivation is a cohort of one that still gets one more vote. */
  const BLIND_COHORT: nat := 1

  // ----- rows -----

  datatype ClaimRow = ClaimRow(turn: TurnId, proposer: AgentId, body: string, k: nat, status: string)

  /** The three tables. Keys are the tables' primary keys. */
  datatype Tables = Tables(
    claims: map<ClaimId, ClaimRow>,
    validators: set<(ClaimId, AgentId)>,
    votes: map<(ClaimId, AgentId), string>)

  const NO_ROWS: Tables := Tables(map[], {}, map[])

  function StatusText(status: QuorumStatus): string {
    match status
    case Open => "open"
    case Reached => "reached"
    case Unreachable => "unreachable"
  }

  function VoteText(vote: Vote): string {
    match vote
    case Yes => "yes"
    case No => "no"
    case Abstain => "abstain"
  }

  function VoteFromText(text: string): (vote: Option<Vote>)
    ensures forall v :: vote == Some(v) <==> text == VoteText(v)
  {
    if text == "yes" then Some(Yes)
    else if text == "no" then Some(No)
    else if text == "abstain" then Some(Abstain)
    else None
  }

  /** Bytes of the UTF-8 encoding. */
  function Utf8Length(s: string): (n: nat)
    ensures n >= |s|
  {
    if s == "" then 0
    else
      var c := s[0] as int;
      (if c < 0x80 then 1 else if c < 0x800 then 2 else if c < 0x1_0000 then 3 else 4) + Utf8Length(s[1..])
  }

  /** SQLite's `length` of a text: the characters before the first NUL. */
  function SqlLength(s: string): (n: nat)
    ensures n <= |s| && (n < |s| ==> s[n] == '\0')
    ensures forall i :: 0 <= i < n ==> s[i] != '\0'
  {
    if s == "" || s[0] == '\0' then 0 else 1 + SqlLength(s[1..])
  }

  /** The CHECK constraints of `bb_claim` that a caller can violate. */
  predicate RowAllowed(row: ClaimRow) {
    && 0 < SqlLength(row.body) <= 2048
    && 1 <= row.k <= MAX_COHORT
    && (row.status == "open" || row.status == "reached" || row.status == "unreachable")
  }

  predicate NoRepeats(agents: seq<AgentId>) {
    forall i, j :: 0 <= i < j < |agents| ==> agents[i] != agents[j]
  }

  /** Whether the INSERTs of one claim and its roster all respect the constraints. */
  predicate CanInsert(t: Tables, claim: ClaimId, row: ClaimRow, roster: seq<AgentId>) {
    && claim !in t.claims
    && RowAllowed(row)
    && NoRepeats(roster)
    && forall a :: a in roster ==> (claim, a) !in t.validators
  }

  function Inserted(t: Tables, claim: ClaimId, row: ClaimRow, roster: seq<AgentId>): Tables {
    t.(claims := t.claims[claim := row], validators := t.validators + (set a | a in roster :: (claim, a)))
  }

  // ----- memory -----

  datatype ClaimState = ClaimState(
    turn: TurnId,
    proposer: AgentId,
    body: string,
    k: nat,
    tally: Tally,
    status: QuorumStatus,
    validators: map<AgentId, Option<Vote>>)

  datatype BoardState = BoardState(claims: map<ClaimId, ClaimState>, tables: Tables)

  datatype Refusal = NotAProposer | UnknownClaim | ClaimClosed | NotInCohort | DuplicateVote | TallyRefused | StoreRefused

  datatype Published = PublishedAs(claim: ClaimId) | PublishRefused(why: Refusal)

  datatype Voted = VotedTo(status: QuorumStatus, tally: Tally) | VoteRefused(why: Refusal)

  /** The proposer's publication is its own affirmative vote. */
  function OrdinaryTally(k: nat): (t: Tally)
    requires k > 0
    ensures t.Valid() && t.k == k && t.Pending() == k - 1
  {
    NewTally(k).Plus(Yes)
  }

  function Members(agents: seq<AgentId>): set<AgentId> {
    set a | a in agents
  }

  function EmptyRoster(agents: set<AgentId>): map<AgentId, Option<Vote>> {
    map a | a in agents :: None
  }

  function Fresh(turn: TurnId, proposer: AgentId, body: string, k: nat, tally: Tally, roster: seq<AgentId>): ClaimState {
    ClaimState(turn, proposer, body, k, tally, Open, EmptyRoster(Members(roster)))
  }

  // ----- the operations, on values -----

  function Insert(s: BoardState, claim: ClaimId, state: ClaimState, roster: seq<AgentId>, commits: bool): (BoardState, Published) {
    var row := ClaimRow(state.turn, state.proposer, state.body, state.k, "open");
    if CanInsert(s.tables, claim, row, roster) && commits then
      (BoardState(s.claims[claim := state], Inserted(s.tables, claim, row, roster)), PublishedAs(claim))
    else (s, PublishRefused(StoreRefused))
  }

  function PublishOn(s: BoardState, claim: ClaimId, turn: TurnId, proposer: AgentId, validators: seq<AgentId>, body: string, commits: bool)
    : (BoardState, Published)
  {
    var k := |validators| + 1;
    if proposer in validators then (s, PublishRefused(NotAProposer))
    else if Utf8Length(body) > MAX_BODY_BYTES then (s, PublishRefused(StoreRefused))
    else Insert(s, claim, Fresh(turn, proposer, body, k, OrdinaryTally(k), validators), validators, commits)
  }

  function PublishBlindOn(s: BoardState, claim: ClaimId, turn: TurnId, proposer: AgentId, body: string, commits: bool)
    : (BoardState, Published)
  {
    if Utf8Length(body) > MAX_BODY_BYTES then (s, PublishRefused(StoreRefused))
    else Insert(s, claim, Fresh(turn, proposer, body, BLIND_COHORT, NewTally(BLIND_COHORT), [proposer]), [proposer], commits)
  }

  /** The shared tail of both kinds of vote, on a claim the board holds. */
  function RecordOn(s: BoardState, claim: ClaimId, voter: AgentId, vote: Vote, commits: bool): (r: (BoardState, Voted))
    requires claim in s.claims && s.claims[claim].tally.Valid()
    ensures r.1.VotedTo? ==> r.1.tally.Valid()
  {
    var state := s.claims[claim];
    if voter !in state.validators then (s, VoteRefused(NotInCohort))
    else if state.validators[voter].Some? then (s, VoteRefused(DuplicateVote))
    else
      match state.tally.Record(vote)
      case Overfull(_) => (s, VoteRefused(TallyRefused))
      case Counted(tally, status) =>
        var rowOpen := claim in s.tables.claims && s.tables.claims[claim].status == "open";
        if !commits || (claim, voter) in s.tables.votes || (status != Open && !rowOpen) then
          (s, VoteRefused(StoreRefused))
        else
          var votes := s.tables.votes[(claim, voter) := VoteText(vote)];
          var rows := if status == Open then s.tables.claims
                      else s.tables.claims[claim := s.tables.claims[claim].(status := StatusText(status))];
          (BoardState(
             s.claims[claim := state.(tally := tally, status := status, validators := state.validators[voter := Some(vote)])],
             s.tables.(claims := rows, votes := votes)),
           VotedTo(status, tally))
  }

  function VoteOn(s: BoardState, claim: ClaimId, voter: AgentId, vote: Vote, commits: bool): (r: (BoardState, Voted))
    requires claim in s.claims ==> s.claims[claim].tally.Valid()
    ensures r.1.VotedTo? ==> r.1.tally.Valid()
  {
    if claim !in s.claims then (s, VoteRefused(UnknownClaim))
    else if s.claims[claim].status != Open then (s, VoteRefused(ClaimClosed))
    else if voter == s.claims[claim].proposer then (s, VoteRefused(NotAProposer))
    else RecordOn(s, claim, voter, vote, commits)
  }

  function VoteBlindOn(s: BoardState, claim: ClaimId, voter: AgentId, vote: Vote, commits: bool): (r: (BoardState, Voted))
    requires claim in s.claims ==> s.claims[claim].tally.Valid()
    ensures r.1.VotedTo? ==> r.1.tally.Valid()
  {
    if claim !in s.claims then (s, VoteRefused(UnknownClaim))
    else if s.claims[claim].status != Open then (s, VoteRefused(ClaimClosed))
    else
      var state := s.claims[claim];
      if state.proposer != voter || state.k != 1 || |state.validators| != 1 then (s, VoteRefused(NotInCohort))
      else RecordOn(s, claim, voter, vote, commits)
  }

  // ----- re-opening -----

  datatype Replay = Replay(tally: Tally, validators: map<AgentId, Option<Vote>>, consistent: bool)

  /** One stored vote fed back into a claim being hydrated. */
  function ReplayOne(r: Replay, voter: AgentId, vote: Vote): (r': Replay)
    requires r.tally.Valid()
    ensures r'.tally.Valid()
  {
    if voter in r.validators && r.validators[voter].None? then
      match r.tally.Record(vote)
      case Counted(tally, _) => Replay(tally, r.validators[voter := Some(vote)], r.consistent)
      case Overfull(_) => Replay(r.tally, r.validators[voter := Some(vote)], false)
    else r.(consistent := false)
  }

  function ReplayAll(r: Replay, votes: seq<(AgentId, Vote)>): (r': Replay)
    requires r.tally.Valid()
    ensures r'.tally.Valid()
  {
    if votes == [] then r
    else ReplayOne(ReplayAll(r, votes[..|votes| - 1]), votes[|votes| - 1].0, votes[|votes| - 1].1)
  }

  /** The blind kind is not stored; it is read off the roster. */
  predicate LooksBlind(row: ClaimRow, roster: seq<AgentId>) {
    row.k <= 1 && |roster| == 1 && roster[0] == row.proposer
  }

  function StoredCohort(row: ClaimRow): (k: nat)
    ensures k > 0
  {
    if row.k == 0 then 1 else row.k
  }

  function StartReplay(row: ClaimRow, roster: seq<AgentId>): (r: Replay)
    ensures r.tally.Valid()
  {
    var k := StoredCohort(row);
    var tally := if LooksBlind(row, roster) then NewTally(k) else OrdinaryTally(k);
    Replay(tally, EmptyRoster(Members(roster)), true)
  }

  function Hydrated(row: ClaimRow, roster: seq<AgentId>, votes: seq<(AgentId, Vote)>): Option<ClaimState> {
    var r := ReplayAll(StartReplay(row, roster), votes);
    var k := StoredCohort(row);
    if !r.consistent then None
    else if row.status == "open" then Some(ClaimState(row.turn, row.proposer, row.body, k, r.tally, r.tally.Status(), r.validators))
    else if row.status == "reached" then Some(ClaimState(row.turn, row.proposer, row.body, k, r.tally, Reached, r.validators))
    else if row.status == "unreachable" then Some(ClaimState(row.turn, row.proposer, row.body, k, r.tally, Unreachable, r.validators))
    else None
  }

  /** `SELECT agent ... ORDER BY agent`. */
  function RosterOf(t: Tables, claim: ClaimId): seq<AgentId> {
    SortedNats(set p | p in t.validators && p.0 == claim :: p.1)
  }

  /** `SELECT voter ... ORDER BY voter`. */
  function VotersOf(t: Tables, claim: ClaimId): seq<AgentId> {
    SortedNats(set p | p in t.votes && p.0 == claim :: p.1)
  }

  /** The stored votes of one claim, or `None` when a text is not a vote. */
  function ParsedVotes(t: Tables, claim: ClaimId, voters: seq<AgentId>): Option<seq<(AgentId, Vote)>> {
    if voters == [] then Some([])
    else
      var a := voters[|voters| - 1];
      if (claim, a) !in t.votes then None
      else
        match (ParsedVotes(t, claim, voters[..|voters| - 1]), VoteFromText(t.votes[(claim, a)]))
        case (Some(front), Some(vote)) => Some(front + [(a, vote)])
        case _ => None
  }

  function HydratedClaim(t: Tables, claim: ClaimId): Option<ClaimState>
    requires claim in t.claims
  {
    match ParsedVotes(t, claim, VotersOf(t, claim))
    case None => None
    case Some(votes) => Hydrated(t.claims[claim], RosterOf(t, claim), votes)
  }

  /** What `open` makes of a store: every claim hydrated, or nothing at all. */
  function Reopened(t: Tables): Option<map<ClaimId, ClaimState>> {
    if forall c :: c in t.claims ==> HydratedClaim(t, c).Some? then
      Some(map c | c in t.claims :: HydratedClaim(t, c).value)
    else None
  }
}

/**
 What every run of the blackboard keeps, failed transactions and restarts
 included, and why re-opening the store reproduces the board.
 */
module BoardRuns {
  import opened Optional
  import opened Quorum
  import opened Board

  // ----- the tally a roster of slots stands for -----

  ghost function Backers(m: map<AgentId, Option<Vote>>, vote: Vote): set<AgentId> {
    set a | a in m && m[a] == Some(vote)
  }

  ghost function Silent(m: map<AgentId, Option<Vote>>): set<AgentId> {
    set a | a in m && m[a].None?
  }

  /** The tally counts the slots and nothing else: arrival order has left no trace. */
  ghost predicate Counts(t: Tally, base: Tally, m: map<AgentId, Option<Vote>>) {
    t.k == base.k && forall v :: t.cast[v] == base.cast[v] + |Backers(m, v)|
  }

  lemma CountsIsExact(t: Tally, t': Tally, base: Tally, m: map<AgentId, Option<Vote>>)
    requires Counts(t, base, m) && Counts(t', base, m)
    ensures t == t'
  {
    assert forall v :: t.cast[v] == t'.cast[v];
  }

  lemma SlotsPartition(m: map<AgentId, Option<Vote>>)
    ensures |Backers(m, Yes)| + |Backers(m, No)| + |Backers(m, Abstain)| + |Silent(m)| == |m|
  {
    var y, n, a, s := Backers(m, Yes), Backers(m, No), Backers(m, Abstain), Silent(m);
    forall x | x in m.Keys ensures x in y + n + a + s {
      match m[x]
      case None =>
      case Some(Yes) =>
      case Some(No) =>
      case Some(Abstain) =>
    }
    assert m.Keys == y + n + a + s;
    assert |y + n| == |y| + |n| && |y + n + a| == |y + n| + |a|;
    assert |m.Keys| == |y + n + a| + |s|;
  }

  lemma FillingBacksOne(m: map<AgentId, Option<Vote>>, voter: AgentId, vote: Vote, v: Vote)
    requires voter in m && m[voter].None?
    ensures |Backers(m[voter := Some(vote)], v)| == |Backers(m, v)| + (if v == vote then 1 else 0)
  {
    var m' := m[voter := Some(vote)];
    assert voter !in Backers(m, v);
    assert Backers(m', v) == if v == vote then Backers(m, v) + {voter} else Backers(m, v);
  }

  lemma SomeoneIsSilent(m: map<AgentId, Option<Vote>>, voter: AgentId)
    requires voter in m && m[voter].None?
    ensures |Silent(m)| > 0
  {
    assert voter in Silent(m);
  }

  /** Filling an empty slot is recording one vote, whichever slot it is. */
  lemma FillingCountsOne(t: Tally, base: Tally, m: map<AgentId, Option<Vote>>, voter: AgentId, vote: Vote)
    requires base.Valid() && base.Pending() == |m| && voter in m && m[voter].None? && Counts(t, base, m)
    ensures t.Valid() && t.Pending() > 0
    ensures Counts(t.Plus(vote), base, m[voter := Some(vote)])
  {
    SlotsPartition(m);
    SomeoneIsSilent(m, voter);
    forall v: Vote ensures |Backers(m[voter := Some(vote)], v)| == |Backers(m, v)| + (if v == vote then 1 else 0) {
      FillingBacksOne(m, voter, vote, v);
    }
  }

  lemma NothingFilledYet(base: Tally, agents: set<AgentId>)
    ensures Counts(base, base, EmptyRoster(agents))
  {
    forall v: Vote ensures |Backers(EmptyRoster(agents), v)| == 0 {
      assert Backers(EmptyRoster(agents), v) == {};
    }
  }

  // ----- the invariant -----

  ghost predicate Blind(st: ClaimState) { st.k == 1 && st.validators.Keys == {st.proposer} }

  ghost predicate Ordinary(st: ClaimState) { st.proposer !in st.validators && st.k == |st.validators| + 1 }

  ghost function Base(st: ClaimState): (t: Tally)
    requires st.k > 0
    ensures t.Valid()
  {
    if Blind(st) then NewTally(st.k) else OrdinaryTally(st.k)
  }

  lemma EveryoneElseIsPending(st: ClaimState)
    requires Blind(st) || Ordinary(st)
    ensures Base(st).Pending() == |st.validators|
  {
    if Blind(st) {
      assert |st.validators| == |st.validators.Keys| == 1;
    }
  }

  /** The slots determine the tally, and the tally the status. */
  ghost predicate ClaimSound(st: ClaimState) {
    && (Blind(st) || Ordinary(st))
    && Counts(st.tally, Base(st), st.validators)
    && st.tally.Valid()
    && (if st.validators == map[] then st.status != Unreachable else st.status == st.tally.Status())
  }

  ghost predicate RowSound(t: Tables, c: ClaimId, st: ClaimState) {
    && c in t.claims
    && t.claims[c] == ClaimRow(st.turn, st.proposer, st.body, st.k,
                               if st.validators == map[] then "open" else StatusText(st.status))
    && (forall a :: (c, a) in t.validators <==> a in st.validators)
    && (forall a :: (c, a) in t.votes <==> a in st.validators && st.validators[a].Some?)
    && (forall a :: (c, a) in t.votes ==> t.votes[(c, a)] == VoteText(st.validators[a].value))
  }

  ghost predicate HeldClaimOk(s: BoardState, c: ClaimId) {
    c in s.claims && ClaimSound(s.claims[c]) && RowSound(s.tables, c, s.claims[c])
  }

  ghost predicate BoardInv(s: BoardState) {
    && (forall c :: c in s.claims ==> HeldClaimOk(s, c))
    && (forall c :: c in s.tables.claims ==> c in s.claims)
    && (forall c, a :: (c, a) in s.tables.validators ==> c in s.claims)
    && (forall c, a :: (c, a) in s.tables.votes ==> c in s.claims)
  }

  // ----- publishing and voting keep it -----

  lemma {:induction false} DistinctCount(agents: seq<AgentId>)
    requires NoRepeats(agents)
    ensures |Members(agents)| == |agents|
  {
    if agents == [] {
      assert Members(agents) == {};
    } else {
      var front := agents[..|agents| - 1];
      DistinctCount(front);
      assert agents == front + [agents[|agents| - 1]];
      assert Members(agents) == Members(front) + {agents[|agents| - 1]};
    }
  }

  /** A claim as either kind of publish makes it. */
  ghost predicate NewClaim(st: ClaimState, roster: seq<AgentId>) {
    && NoRepeats(roster)
    && st.status == Open
    && st.validators == EmptyRoster(Members(roster))
    && ((st.proposer !in roster && st.k == |roster| + 1 && st.tally == OrdinaryTally(st.k))
        || (roster == [st.proposer] && st.k == 1 && st.tally == NewTally(st.k)))
  }

  lemma RosterShape(roster: seq<AgentId>)
    requires NoRepeats(roster)
    ensures EmptyRoster(Members(roster)).Keys == Members(roster)
    ensures |EmptyRoster(Members(roster))| == |roster|
    ensures EmptyRoster(Members(roster)) == map[] ==> roster == []
    ensures forall a :: roster == [a] ==> Members(roster) == {a}
  {
    assert EmptyRoster(Members(roster)).Keys == Members(roster);
    DistinctCount(roster);
  }

  lemma NewClaimIsSound(st: ClaimState, roster: seq<AgentId>)
    requires NewClaim(st, roster)
    ensures ClaimSound(st)
  {
    assert st.k > 0 && (Blind(st) || Ordinary(st)) by { RosterShape(roster); }
    assert Base(st) == st.tally by { RosterShape(roster); }
    assert st.validators == map[] ==> roster == [] by { RosterShape(roster); }
    NothingFilledYet(Base(st), Members(roster));
    assert st.tally.Valid();
  }

  lemma InsertedRows(t: Tables, claim: ClaimId, row: ClaimRow, roster: seq<AgentId>)
    ensures forall c, a :: (c, a) in Inserted(t, claim, row, roster).validators
                           <==> (c, a) in t.validators || (c == claim && a in roster)
  {
  }

  lemma InsertKeepsOthers(t: Tables, claim: ClaimId, row: ClaimRow, roster: seq<AgentId>, c: ClaimId, st: ClaimState)
    requires RowSound(t, c, st) && c != claim
    ensures RowSound(Inserted(t, claim, row, roster), c, st)
  {
    InsertedRows(t, claim, row, roster);
  }

  lemma InsertMakesRow(t: Tables, claim: ClaimId, st: ClaimState, roster: seq<AgentId>)
    requires NewClaim(st, roster)
    requires forall a :: (claim, a) !in t.validators && (claim, a) !in t.votes
    ensures RowSound(Inserted(t, claim, ClaimRow(st.turn, st.proposer, st.body, st.k, "open"), roster), claim, st)
  {
    InsertedRows(t, claim, ClaimRow(st.turn, st.proposer, st.body, st.k, "open"), roster);
  }

  lemma InsertKeepsInv(s: BoardState, claim: ClaimId, st: ClaimState, roster: seq<AgentId>, commits: bool)
    requires BoardInv(s) && (NoRepeats(roster) ==> NewClaim(st, roster))
    ensures BoardInv(Insert(s, claim, st, roster, commits).0)
  {
    var row := ClaimRow(st.turn, st.proposer, st.body, st.k, "open");
    if CanInsert(s.tables, claim, row, roster) && commits {
      var s' := Insert(s, claim, st, roster, commits).0;
      forall c | c in s'.claims ensures HeldClaimOk(s', c) {
        if c == claim {
          NewClaimIsSound(st, roster);
          InsertMakesRow(s.tables, claim, st, roster);
        } else {
          assert HeldClaimOk(s, c);
          InsertKeepsOthers(s.tables, claim, row, roster, c, s.claims[c]);
        }
      }
      InsertedRows(s.tables, claim, row, roster);
    }
  }

  /** The memory of a claim once `vote` has been counted in `voter`'s slot. */
  function Filled(st: ClaimState, voter: AgentId, vote: Vote): ClaimState
    requires st.tally.Plus(vote).Valid()
  {
    var tally := st.tally.Plus(vote);
    st.(tally := tally, status := tally.Status(), validators := st.validators[voter := Some(vote)])
  }

  /** The rows once that vote has committed. */
  function FilledRows(t: Tables, claim: ClaimId, voter: AgentId, vote: Vote, status: QuorumStatus): Tables
    requires claim in t.claims
  {
    t.(claims := if status == Open then t.claims else t.claims[claim := t.claims[claim].(status := StatusText(status))],
       votes := t.votes[(claim, voter) := VoteText(vote)])
  }

  lemma VoteKeepsClaim(st: ClaimState, voter: AgentId, vote: Vote)
    requires ClaimSound(st) && voter in st.validators && st.validators[voter].None?
    ensures st.tally.Pending() > 0 && st.tally.Plus(vote).Valid()
    ensures ClaimSound(Filled(st, voter, vote))
  {
    var base, m := Base(st), st.validators;
    assert base.Pending() == |m| by { EveryoneElseIsPending(st); }
    FillingCountsOne(st.tally, base, m, voter, vote);
    assert m[voter := Some(vote)].Keys == m.Keys;
    assert Base(Filled(st, voter, vote)) == base;
  }

  lemma VoteKeepsRow(t: Tables, claim: ClaimId, st: ClaimState, voter: AgentId, vote: Vote)
    requires RowSound(t, claim, st) && voter in st.validators && st.validators[voter].None? && st.status == Open
    requires st.tally.Plus(vote).Valid()
    ensures RowSound(FilledRows(t, claim, voter, vote, Filled(st, voter, vote).status), claim, Filled(st, voter, vote))
  {
  }

  lemma VoteKeepsOthers(t: Tables, claim: ClaimId, voter: AgentId, vote: Vote, status: QuorumStatus, c: ClaimId, st: ClaimState)
    requires claim in t.claims && c != claim && RowSound(t, c, st)
    ensures RowSound(FilledRows(t, claim, voter, vote, status), c, st)
  {
  }

  /** A claim the board is willing to count a vote on. */
  ghost predicate Countable(s: BoardState, claim: ClaimId, voter: AgentId) {
    && HeldClaimOk(s, claim)
    && s.claims[claim].status == Open
    && voter in s.claims[claim].validators
    && s.claims[claim].validators[voter].None?
  }

  /** Such a vote is refused only by a store that does not commit. */
  lemma CountableVoteIsCounted(s: BoardState, claim: ClaimId, voter: AgentId, vote: Vote, commits: bool)
    requires Countable(s, claim, voter)
    ensures s.claims[claim].tally.Plus(vote).Valid()
    ensures var st' := Filled(s.claims[claim], voter, vote);
            RecordOn(s, claim, voter, vote, commits) ==
            if commits then
              (BoardState(s.claims[claim := st'], FilledRows(s.tables, claim, voter, vote, st'.status)), VotedTo(st'.status, st'.tally))
            else (s, VoteRefused(StoreRefused))
  {
    VoteKeepsClaim(s.claims[claim], voter, vote);
  }

  /** Any other vote leaves memory and rows alone. */
  lemma OtherVotesAreRefused(s: BoardState, claim: ClaimId, voter: AgentId, vote: Vote, commits: bool)
    requires HeldClaimOk(s, claim) && s.claims[claim].status == Open && !Countable(s, claim, voter)
    ensures RecordOn(s, claim, voter, vote, commits).0 == s
  {
  }

  lemma CountingKeepsInv(s: BoardState, claim: ClaimId, voter: AgentId, vote: Vote)
    requires BoardInv(s) && Countable(s, claim, voter) && claim in s.tables.claims
    requires s.claims[claim].tally.Plus(vote).Valid()
    ensures var st' := Filled(s.claims[claim], voter, vote);
            BoardInv(BoardState(s.claims[claim := st'], FilledRows(s.tables, claim, voter, vote, st'.status)))
  {
    hide ClaimSound, RowSound;
    var st' := Filled(s.claims[claim], voter, vote);
    var s' := BoardState(s.claims[claim := st'], FilledRows(s.tables, claim, voter, vote, st'.status));
    forall c | c in s'.claims ensures HeldClaimOk(s', c) {
      if c == claim {
        VoteKeepsClaim(s.claims[claim], voter, vote);
        VoteKeepsRow(s.tables, claim, s.claims[claim], voter, vote);
      } else {
        assert HeldClaimOk(s, c);
        VoteKeepsOthers(s.tables, claim, voter, vote, st'.status, c, s.claims[c]);
      }
    }
  }

  lemma RecordKeepsInv(s: BoardState, claim: ClaimId, voter: AgentId, vote: Vote, commits: bool)
    requires BoardInv(s) && HeldClaimOk(s, claim) && s.claims[claim].status == Open
    ensures BoardInv(RecordOn(s, claim, voter, vote, commits).0)
  {
    if !Countable(s, claim, voter) {
      OtherVotesAreRefused(s, claim, voter, vote, commits);
    } else {
      CountableVoteIsCounted(s, claim, voter, vote, commits);
      CountingKeepsInv(s, claim, voter, vote);
    }
  }
}

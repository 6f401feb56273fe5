# Verified model of supra's stateful cores

This project models the parts of supra whose correctness spans more than one
call, and proves what those parts are for. It is written in Dafny; the command
`dafny verify dfyconfig.toml` checks all of it.

Each component comes in two layers. A *specification* on values says what one
step does (`Offered`, `RecordOn`, `Swept`, `Apply`, ...), and everything the
source promises is proved of it, over every run or every input. Where the source
changes state in place, a *class* or a method with the source's own loop is then
proved to compute exactly that specification. What a specification computes is
itself pinned by laws that do not name it: in terms of slots, fields, node kinds,
path segments, positions in a log, and the conditions a caller can see.

## What is modelled

- **Event bus** (`EventRing`, `EventBus`, `EventRuns`). One subscription's
  drop-oldest ring with its three loss counters; the registry pass of a publish;
  and a step system with one publisher, any number of consumers, lock windows,
  panics that poison a lock, pruning and shutdown. The gap counts are read
  against the log of all matching events.
- **Peer quorum over a persistent board** (`Quorum`, `Board`, `BoardRuns`,
  `Reopening`, `Blackboard`, `Rotation`, `RotationRuns`, `Turn`, `TurnProgress`,
  `TurnLoop`). Early-stopping
  tallies, claims in memory and rows in a transactional store whose commits may
  fail, re-opening, proposer rotation, and the turn built on top.
- **Import graph** (`ModulePaths`, `ModuleNames`, `ImportGraph`, `DigestState`,
  `DigestRuns`, `DigestCollisions`, `DigestDisk`, `Digest`). Module resolution, reachability over a graph with cycles, and
  watcher patches compared with a rebuild. An edge's `internal` mark is set when
  the edge is recorded and may go stale, as in the code.
- **Structural edits** (`SyntaxTree`, `Mentions`, `Splicing`, `References`,
  `Rename`, `RenameFiles`, `EditLaws`, `Outline`, `OutlineLoop`). Exact-node lookup, the
  identifier walk, gated splices, the rename across files, and the depth
  relaxation of the outline.
- **Debug adapter wire** (`Octets`, `Piped`, `Decimal`, `Framing`, `DapClient`,
  `DapHeaders`, `DapWaits`).
  Content-Length framing as in section "Base Protocol" of the Debug Adapter
  Protocol specification, over a reader that sees arbitrary chunks, silences and
  faults.
- **Smaller cores** (`TaskShape`, `ConfigResolve`, `ConfigLaws`,
  `CommandRegistry`).
- `Ordering` and `Optional` are shared helpers.

## Where the code and its documentation differ

The model follows the code.

- Reopening: an ordinary claim published with no validators is Open in memory
  although its tally has already reached quorum, and comes back Reached
  (`crates/supra_blackboard/src/board.rs:138-162`). `ReopeningReproducesTheBoard`
  says that this is the only claim that changes, and
  `EmptyRosterChangesStatusOnReopen` gives one.
- A cohort that repeats one agent and lists no other starts a turn on such a
  claim (`crates/supra_core/src/turn.rs:121-131`). `RosterIsEmptyExactlyWhen` says
  that no other cohort does, and `RepeatedAgentIsStuck` that in every state of
  that turn every verdict is refused and finishing fails. A repeated validator is
  refused by the store; further mentions of the proposer are dropped.
- `crates/supra_blackboard/README.md:11` says a proposer's vote never counts for
  its own claim; the code records it as the first yes
  (`crates/supra_blackboard/src/board.rs:30-37`).
- Resolution strips `::` segments from the right. With three colons in a row it
  steps over a registered prefix; `ResolvesToLongestIffNoTriple` is the exact
  condition.
- The patched import graph misses importers of a file that appears later
  (`AddedFileIsMissed`). With files that share a module name, such as `a.c` and
  `a.h`, it can also forget a file that a rebuild knows
  (`RemovedNameIsForgotten`) and know one that a rebuild does not
  (`RewrittenFileIsOverstated`). Runs that add no file agree with a rebuild if and
  only if no two scanned files share a name (`PatchingIsSafeIffInjective`); runs of
  every kind never overstate if and only if no two paths that can be indexed do
  (`NeverOverstatesIffNamesApart`). For a single state,
  `SameRadiusIffStaleEdgesCovered` is exact where no two indexed files share a name
  at that moment, and `SameRadiusIffStepsCovered` everywhere.
- A Content-Length that takes the end of the body past the machine word panics in
  `read_frame`, on the addition or on the slice the wrapped sum asks for
  (`crates/supra_dap/src/framing.rs:61-66`). The model's `Panic` and `Panicked` stand
  for that. `read_framed_body` goes by the first Content-Length and `read_frame` by
  the last, so a message can pass the one and panic in the other:
  `TwoLengthsStopTheClient` gives one and `WaitingPanicsExactlyWhen` the condition.
- The outline's loop never ends on declarations that are each other's parents
  (`MutualParentsNeverEnd`); `EndsIffSettles` is the exact condition, which
  `Settles` lets a caller compute.
- `read_until` documents 0 as "closed without the byte"; the code returns the
  length of the tail it hands over, and 0 only when there is none
  (`crates/supra_ffi/src/piped.rs:57-79`).
- `wait_event` documents that events are held rather than discarded; it pops held
  events until one matches, and the ones it pops are gone
  (`crates/supra_dap/src/client.rs:171-187`).
- `crates/supra_eventbus/src/bus.rs:39-41` and `crates/supra_eventbus/README.md:81`
  say that locks ignore poisoning. `offer` takes `try_lock` and treats a poisoned
  lock like a held one, so that subscription never buffers again
  (`PoisonedNeverBuffersAgain`).
- `crates/supra_ast/src/splice.rs` documents that a range addresses exactly one node,
  and the descent as stopping at the deepest one that spans it (lines 5-6, 182 and
  193-194). Of several nodes with one span the code returns the outermost.
- `TaskShape::key` documents that fields are sorted before encoding; it encodes
  them in the order given (`crates/supra_cohort/src/profile.rs:43-66`).

## Assumptions

- Counters are unbounded; the machine word matters, and is modelled, only where a
  declared Content-Length could overflow it. Identifiers are naturals ordered as
  their text is.
- Each critical section is one atomic step. A lock that `try_lock` cannot take,
  held or poisoned, is a contended offer. Which locks are free, which handles are
  alive, whether a store transaction commits and whether a wait timed out are
  parameters.
- Parsers, grammars, JSON, UTF-8 checks, import extraction and rewriting, and
  case folding are uninterpreted functions. A grammar's trees are well formed:
  children lie inside their parent, in order and apart, and identifiers are leaves.
- Fingerprints are equal exactly when the bytes are.
- A file is read with the bytes that its event or scan reports.

## Model

| member | source | states |
|---|---|---|
| EventRing.TilesGiveExactGaps | crates/supra_eventbus/src/bus.rs:84-98 | the recursive reading of the counters means: every delivery is an offered event, and its `missed_before` is exactly the number of matching events between it and the delivery before it |
| EventRing.ExactGapsGiveTiles | crates/supra_eventbus/src/bus.rs:84-98 | and conversely, so the two readings of the gap counts are the same |
| EventRing.GapsAddUpToTotal | crates/supra_eventbus/src/bus.rs:369-377 | gaps handed out, gaps buffered and the pending count always add up to `missed_total` |
| EventRing.DeliveriesIncrease | crates/supra_eventbus/src/bus.rs:142-188 | what a subscriber gets and will get is a strictly increasing subsequence of what was offered |
| EventRing.EvictionCarries | crates/supra_eventbus/src/bus.rs:155-180 | evicting any run of deliveries keeps every gap exact when the survivor at the front carries what they stood for |
| EventRing.OfferKeepsAccounts | crates/supra_eventbus/src/bus.rs:142-188 | an offer, contended or not, at any capacity including zero, keeps every gap exact for the longer log |
| EventRing.OfferBuffersOrCounts | crates/supra_eventbus/src/bus.rs:142-188 | an offer that gets the lock of a ring with any capacity leaves the event newest in it, behind as many of the older ones as fit, with no loss unreported; any other offer is one counted loss and moves nothing |
| EventRing.OfferKeepsGapless | crates/supra_eventbus/src/bus.rs:142-188 | an uncontended offer leaves no gap inside or behind the ring |
| EventRing.GaplessRingIsSuffix | crates/supra_eventbus/src/bus.rs:142-188 | with no contended offer the ring is the newest contiguous stretch of the matching log |
| EventRing.Slot.Offer | crates/supra_eventbus/src/bus.rs:142-188 | the in-place eviction loop and counters buffer the event newest when the lock is got, whatever was lost before, count one loss otherwise, and keep every gap exact |
| EventRing.Slot.TryRecv | crates/supra_eventbus/src/bus.rs:391-398 | the oldest delivery is handed out, or Empty or Closed is told apart, and the accounts stay exact |
| EventRing.Slot.RecvTimeout | crates/supra_eventbus/src/bus.rs:407-427 | a buffered delivery is handed out even when closed; an empty ring is Closed before it is Timeout |
| EventRing.Slot.Drain | crates/supra_eventbus/src/bus.rs:434-437 | everything buffered comes out in order and nothing stays |
| EventBus.Bus.Publish | crates/supra_eventbus/src/bus.rs:255-274 | numbers are dense, dead handles are pruned, and every live matching subscription, and no other, has the event newest in its ring if its lock was free and one counted loss if not |
| EventBus.KeptKeepsOrder | crates/supra_eventbus/src/bus.rs:255-274 | pruning keeps the subscriptions that are left in their order |
| EventBus.Bus.SubscribeWithCapacity | crates/supra_eventbus/src/bus.rs:227-244 | a new subscription starts with empty accounts and joins the live ones |
| EventRuns.MatchingIsTheFilter | crates/supra_eventbus/src/bus.rs:255-274 | a subscription's log is all the published events on its topics in its lifetime, in order, and nothing else |
| EventRuns.StepKeepsInv | crates/supra_eventbus/src/bus.rs:142-274 | every step of publisher, consumers, locks, panics, pruning and shutdown keeps the accounts |
| EventRuns.EverySubscriberIsToldTheTruth | crates/supra_eventbus/src/bus.rs:142-274 | over every interleaving: gaps exact, order strict, handed out + buffered + lost equals matching events offered |
| EventRuns.LiveSubscribersMissNothingSilently | crates/supra_eventbus/src/bus.rs:255-274 | between publishes a live subscription has been offered every matching event since it began |
| EventRuns.UncontendedRingIsTheNewestStretch | crates/supra_eventbus/src/bus.rs:142-188 | over every run, a subscription whose offers were never contended holds exactly the newest stretch |
| EventRuns.AfterCloseEveryoneKnows | crates/supra_eventbus/src/bus.rs:322-335 | once the bus is gone every live subscription is marked closed |
| EventRuns.PublishIsBoundedByTheRegistry | crates/supra_eventbus/src/bus.rs:255-274 | a publish takes at most one step per registered subscription and one to return, whatever locks are held and whatever runs beside it |
| EventRuns.PublishFinishesAlone | crates/supra_eventbus/src/bus.rs:255-274 | from every reachable state in mid-publish, the publisher's own remaining steps end it whatever locks are held or poisoned, and by then every live subscription still to be reached has had exactly one offer and nothing else has moved |
| EventRuns.LockedSubscribersLoseOne | crates/supra_eventbus/src/bus.rs:142-147 | a matching subscription whose lock is held or poisoned then pays exactly one counted loss |
| EventRuns.FreeSubscribersGetTheEvent | crates/supra_eventbus/src/bus.rs:255-274 | in every reachable state, when the publisher comes to a live matching subscription whose lock is free, that one has the event newest in its ring |
| EventRuns.LonePublishReachesTheFree | crates/supra_eventbus/src/bus.rs:255-274 | and every such subscription has it once a publish left alone has ended |
| EventRuns.PoisonedNeverBuffersAgain | crates/supra_eventbus/src/bus.rs:142-147 | once a consumer has panicked holding the queue lock, no step of anyone ever buffers another event for it, and every later offer is a counted loss |
| Quorum.OpenMeansPending | crates/supra_types/src/cohort.rs:470-484 | an open claim still has a voter to wait for |
| Quorum.TerminalIsFinal | crates/supra_types/src/cohort.rs:446-484 | no votes that can still arrive change a status that is not Open |
| Quorum.FullCountVerdict | crates/supra_types/src/cohort.rs:59-72 | a full count is Reached exactly when the yes votes meet two thirds, and Unreachable otherwise |
| Quorum.StopEarlyIsSound | crates/supra_blackboard/src/board.rs:257-291 | the first status that is not Open is the verdict of counting every vote |
| Quorum.StopsAtTheFirstVerdict | crates/supra_blackboard/src/board.rs:257-291 | no vote is read after the verdict was known |
| Quorum.ArrivalOrderDoesNotMatter | crates/supra_blackboard/src/board.rs:257-291 | the same votes in any two orders close a claim the same way |
| BoardRuns.FillingCountsOne | crates/supra_blackboard/src/board.rs:257-291 | filling an empty slot is recording one vote, so the tally is a function of the slots and order leaves no trace |
| BoardRuns.InsertKeepsInv | crates/supra_blackboard/src/board.rs:131-204 | publishing either kind keeps rows and memory in step, committed or not |
| BoardRuns.CountableVoteIsCounted | crates/supra_blackboard/src/board.rs:257-291 | a first vote of a listed validator on an open claim is refused only by a store that does not commit |
| BoardRuns.RecordKeepsInv | crates/supra_blackboard/src/board.rs:257-291 | recording a vote keeps tally, slots, status and rows in step, whatever the transaction does |
| Reopening.ReplayFillsTheSlots | crates/supra_blackboard/src/board.rs:95-112 | replaying distinct voters in any order fills exactly their slots and counts exactly their votes |
| Reopening.RosterComesBack | crates/supra_blackboard/src/board.rs:69-123 | the roster is read back whole and tells blind claims from ordinary ones |
| Reopening.ReopeningReproducesTheBoard | crates/supra_blackboard/src/board.rs:69-123 | after any run with failing transactions and restarts, re-opening succeeds and reproduces every claim, if and only if it is not an open claim with an empty roster; and then only its status differs |
| Reopening.EmptyRosterChangesStatusOnReopen | crates/supra_blackboard/src/board.rs:138-162 | one publish without validators is Open before and Reached after re-opening |
| Reopening.OpenClaimsAwaitSomeone | crates/supra_blackboard/src/board.rs:257-291 | on every reachable board an open claim with a roster waits for a silent validator, and a closed one has the verdict any remaining votes would give |
| Reopening.StatusIsTwoThirds | crates/supra_blackboard/src/board.rs:30-37 | on every reachable board a claim with a roster is Reached if and only if the yes slots, and the proposer's own yes where it is no validator, are two thirds of the cohort, and Unreachable if and only if even all silent validators could not make them so |
| Reopening.PublishSucceedsExactlyWhen | crates/supra_blackboard/src/board.rs:131-165 | the conditions under which a claim goes up, and who then may vote on it |
| Reopening.PublishBlindSucceedsExactlyWhen | crates/supra_blackboard/src/board.rs:175-204 | the same for a blind claim |
| Reopening.VotesSucceedExactlyWhen | crates/supra_blackboard/src/board.rs:215-291 | a vote of either kind counts if and only if the claim is open, the store commits and the voter is one of its validators who has not spoken, not the proposer for the one kind and nobody else for the other |
| Reopening.AcceptedVotesAreWrittenDown | crates/supra_blackboard/src/board.rs:257-291 | a counted vote stands in its voter's slot and row as it was cast and touches no other claim; a refused one changes nothing |
| Reopening.RowsTellTheStatus | crates/supra_blackboard/src/board.rs:357-363 | the stored status word is that of the claim |
| Reopening.HydratesExactlyWhen | crates/supra_blackboard/src/board.rs:69-123 | a stored claim comes back if and only if its status is one of the three words, its voters are of its roster, none votes twice and the cohort has room for them |
| Reopening.HydratedYesVotes | crates/supra_blackboard/src/board.rs:69-123 | and then its tally has the stored yes votes, and the proposer's own unless it alone was asked |
| Reopening.Utf8LengthAdds | crates/supra_blackboard/src/board.rs:138-150 | the body's size is counted in bytes, character by character |
| Reopening.Utf8Widths | crates/supra_blackboard/src/board.rs:138-150 | one byte up to U+007F, two up to U+07FF, three up to U+FFFF, four beyond |
| Reopening.ClosedClaimsStayClosed | crates/supra_blackboard/src/board.rs:215-255 | no operation and no restart touches a closed claim |
| Blackboard.Store.InsertClaim | crates/supra_blackboard/src/schema.rs:20-87 | claim and roster rows are written exactly when every table constraint holds, a body's length counted as SQLite does, up to the first NUL |
| Blackboard.Store.UpdateStatus | crates/supra_blackboard/src/schema.rs:90-101 | only a row that is still open changes status |
| Blackboard.Store.InsertVote | crates/supra_blackboard/src/schema.rs:104-121 | one vote row per claim and voter |
| Blackboard.ReadAll | crates/supra_blackboard/src/schema.rs:169-234 | all claims hydrate or none do, votes read in voter order |
| Blackboard.HydrateOne | crates/supra_blackboard/src/board.rs:69-123 | the replay loop refuses a stray, repeated or surplus vote and an unknown status text |
| Blackboard.Blackboard.Open | crates/supra_blackboard/src/board.rs:69-123 | a board is opened exactly when every stored claim hydrates |
| Blackboard.Blackboard.Publish | crates/supra_blackboard/src/board.rs:131-165 | the refusals in order, one transaction, and memory changed only after it commits |
| Blackboard.Blackboard.PublishBlind | crates/supra_blackboard/src/board.rs:175-204 | a cohort of one whose proposer is its only validator |
| Blackboard.Blackboard.Vote | crates/supra_blackboard/src/board.rs:215-229 | unknown, closed and proposer refusals before the vote is recorded |
| Blackboard.Blackboard.VoteBlind | crates/supra_blackboard/src/board.rs:241-255 | only a blind claim's own proposer may use it |
| Blackboard.Blackboard.RecordVote | crates/supra_blackboard/src/board.rs:257-291 | vote and terminal status go in one transaction, rolled back whole when any part fails |
| Rotation.NextProposer | crates/supra_blackboard/src/board.rs:327-342 | the candidate with the fewest proposals in the turn, the smaller id among equals, or none without candidates |
| RotationRuns.OperationMovesCounts | crates/supra_blackboard/src/board.rs:69-342 | of all operations, committed or not, and of a restart, only a claim of the turn that goes up moves a proposal count, its proposer's, by one |
| RotationRuns.BoardsRotateFairly | crates/supra_blackboard/src/board.rs:327-342 | on every board reached by publishing the turn's claims as next_proposer says, with votes, failed commits, other turns and restarts anywhere between, no two candidates are more than one proposal apart |
| RotationRuns.BoardsGoRoundRobin | crates/supra_blackboard/src/board.rs:327-342 | on such a run claim number j of the turn went to candidate number j mod n in id order |
| RotationRuns.BoardsUseEachOnce | crates/supra_blackboard/src/board.rs:327-342 | on such a run any n successive claims of the turn, wherever they start, use each candidate exactly once |
| RotationRuns.RotatingRunsGoOn | crates/supra_blackboard/src/board.rs:175-204 | such a run can always go on: a claim with an unused id by the next proposer goes up |
| Turn.EveryTurnIsWellBehaved | crates/supra_core/src/turn.rs:99-299 | over every run: no verdict counts before the proposal, each agent once, votes = steps = vote events, only the last step is not Collecting, one terminal event at most, and what is sealed is the accepted text after quorum |
| Turn.FinishSucceedsOnceAfterQuorum | crates/supra_core/src/turn.rs:267-299 | finish succeeds exactly when the last step met quorum, nothing is sealed and the ledger accepts; otherwise it changes nothing |
| Turn.FinishAnswers | crates/supra_core/src/turn.rs:267-299 | why finishing fails, and that success announces the seal and the end |
| Turn.TextIsAcceptedExactlyWhen | crates/supra_core/src/turn.rs:183-215 | a text becomes the answer if and only if the cohort's first agent sends it, without a verdict, not empty, and first |
| Turn.TheProposersTextIsSealed | crates/supra_core/src/turn.rs:99-299 | over every run of a started turn, whatever is answered or sealed is a text that the cohort's first agent sent |
| Turn.CountedVerdictIsAnnounced | crates/supra_core/src/turn.rs:215-253 | a counted verdict is announced as cast, takes the step its claim's status calls for, and a closing claim is announced with the numbers its slots show |
| Turn.AnswerAndSealAreFinal | crates/supra_core/src/turn.rs:183-299 | the accepted proposal is never replaced and a seal never undone |
| Turn.EarlyAndRepeatedVerdictsAreRefused | crates/supra_core/src/turn.rs:183-253 | a verdict before the proposal and a second verdict of an agent change nothing |
| TurnProgress.VerdictCountsExactlyWhen | crates/supra_core/src/turn.rs:183-253 | a verdict counts if and only if the proposal is in, the claim is open, the voter is a listed validator who has not spoken, and the store commits |
| TurnProgress.StartsExactlyWhen | crates/supra_core/src/turn.rs:99-147 | when a turn starts, who proposes, who validates, and what is announced |
| TurnProgress.RosterIsEmptyExactlyWhen | crates/supra_core/src/turn.rs:121-131 | a started turn's claim has no validators if and only if the cohort repeats one agent and lists no other |
| TurnProgress.OpenTurnsCanGoOn | crates/supra_core/src/turn.rs:99-253 | in every reachable state with the proposal in and the claim open, each silent validator's verdict would count, and there is one if and only if the cohort is not one agent repeated |
| TurnProgress.RepeatedAgentIsStuck | crates/supra_core/src/turn.rs:99-299 | a turn of one agent repeated stays open: in every state it reaches, every verdict is refused and finishing fails |
| TurnProgress.RepeatedAgentStarts | crates/supra_core/src/turn.rs:99-147 | such a turn does start: one agent listed twice, on an empty board |
| TurnLoop.TurnLoop.StartShared | crates/supra_core/src/turn.rs:99-147 | the cohort's first agent proposes and the others validate, a cohort of one by a blind claim |
| TurnLoop.TurnLoop.Record | crates/supra_core/src/turn.rs:183-253 | proposal, refusals, vote, step and events in the code's order, on the shared board |
| ModulePaths.ResolvesToLongestIffNoTriple | crates/supra_digest/src/graph.rs:102-116 | resolution finds the longest registered `::`-prefix in every registry if and only if the name has no three colons in a row |
| ModulePaths.LongestIsLongest | crates/supra_digest/src/graph.rs:102-116 | the reference: the registered prefix that no longer one beats, or none |
| ModuleNames.ModuleNameSplits | crates/supra_digest/src/graph.rs:233-267 | a file's module name splits at `::` into its directories and its stem, in order; `mod` and `__init__` stand for their directory, and for nothing at the top |
| ModuleNames.BareStem | crates/supra_digest/src/graph.rs:233-234 | a file name without a dot, or with only a leading one, is its own stem |
| ModuleNames.ImporterIsInRadius | crates/supra_digest/src/digest.rs:414-428 | in a rebuild, a file that imports another by its module name is in that one's radius |
| ModuleNames.MainDependsOnTurns | crates/supra_digest/src/graph.rs:64-67 | `src/main.rs` importing `src::turns` is in the radius of `src/turns.rs` |
| ModulePaths.ResolvingIsMonotone | crates/supra_digest/src/graph.rs:102-116 | fewer modules never resolve more names |
| ImportGraph.DependencyGraph.Resolve | crates/supra_digest/src/graph.rs:102-116 | the stripping loop computes the specified resolution |
| ImportGraph.DependencyGraph.RecordImports | crates/supra_digest/src/graph.rs:81-87 | one edge per import, marked by what resolves at that moment |
| ImportGraph.DependencyGraph.Dependents | crates/supra_digest/src/graph.rs:130-159 | on every graph, cycles included, exactly the files that reach the path by internal imports, in path order, and nothing for a file that is not registered |
| ImportGraph.ClosedHoldsAll | crates/supra_digest/src/graph.rs:130-159 | a set closed under importers holds everything that reaches the path |
| DigestState.RebuildNamesTheLast | crates/supra_digest/src/digest.rs:414-428 | whatever names files share, a graph built from scratch has exactly their imports, nothing stale, and gives each module name to the last file in path order that has it |
| DigestState.RemovalFollows | crates/supra_digest/src/graph.rs:95-98 | after a removal the graph still has names of indexed files and exactly their imports |
| DigestState.AdditionFollows | crates/supra_digest/src/index.rs:81-97 | and after a file is indexed and recorded, too |
| DigestState.EventFollows | crates/supra_digest/src/digest.rs:321-350 | every event, whatever names files share, keeps the graph's names those of indexed files and its edges exactly their imports; only `internal` marks may be old |
| DigestRuns.RunFollows | crates/supra_digest/src/digest.rs:321-350 | and so does every run of events |
| DigestDisk.IndexFollowsTheDisk | crates/supra_digest/src/index.rs:81-103 | after any run of events the index is what a scan of the disk as it then is would find: files that stopped parsing are gone, files that parse again are back |
| DigestDisk.PatchedIsRescanned | crates/supra_digest/src/digest.rs:321-374 | where no two files share a name and none is added, every patched radius is the one a fresh scan and rebuild would give |
| DigestCollisions.PatchingIsSafeIffInjective | crates/supra_digest/src/digest.rs:321-350 | patching agrees with a rebuild on every file after every run of events from a scan that adds no file, if and only if no two of the scanned files share a module name |
| DigestCollisions.NeverOverstatesIffNamesApart | crates/supra_digest/src/digest.rs:321-350 | from any scan, after no run of any events is a patched radius larger than the rebuilt one, if and only if no two paths that can be indexed share a module name |
| DigestRuns.SameRadiusIffStaleEdgesCovered | crates/supra_digest/src/digest.rs:321-350 | in every reachable state in which no two indexed files share a name now, patched and rebuilt graph agree on every file if and only if every file is still registered, which an earlier collision may have undone, and the importer behind every stale edge is in the patched radius anyway |
| DigestRuns.SameRadiusIffStepsCovered | crates/supra_digest/src/graph.rs:130-159 | any two graphs, whatever names their files share, agree on every file if and only if they register the same files and what one edge of either says some chain of the other says |
| DigestRuns.AddedFileIsMissed | crates/supra_digest/src/digest.rs:321-350 | an import that resolved to nothing when it was scanned and leads to a file added later is stale: the rebuilt radius of the new file has the importer, and the patched one has only the file itself unless some internal edge leads to it |
| DigestRuns.AddedFileExists | crates/supra_digest/src/digest.rs:321-350 | such files exist: `a.rs` importing `b` before there is a `b.rs` |
| DigestCollisions.RemovedNameIsForgotten | crates/supra_digest/src/graph.rs:95-98 | removing the file that holds a shared name leaves no file of that name registered in the patched graph, while a rebuild registers the last in path order of those left |
| DigestCollisions.RewrittenFileIsOverstated | crates/supra_digest/src/digest.rs:321-350 | rewriting a file whose name another file holds puts it in its own patched radius but not in the rebuilt one |
| DigestCollisions.SourceAndHeaderCollide | crates/supra_digest/src/graph.rs:233-267 | `a.c` beside `a.h` is such a pair |
| Digest.ScanTree | crates/supra_digest/src/index.rs:174-227 | whatever order files are met in, the index holds exactly those that parse |
| Digest.BuildGraph | crates/supra_digest/src/digest.rs:414-428 | all modules are registered before any import is resolved |
| Digest.Digest.ApplyEvent | crates/supra_digest/src/digest.rs:321-350 | index and graph move together as the event function says, unchanged bytes changing nothing |
| Digest.Digest.RescanIfStale | crates/supra_digest/src/digest.rs:358-374 | a scan that is due and succeeds replaces index and graph together and sets the clock; one that is not due or fails leaves all three |
| Digest.Digest.BlastRadius | crates/supra_digest/src/digest.rs:303-305 | exactly the files that depend on the path |
| SyntaxTree.FindExact | crates/supra_ast/src/splice.rs:188-215 | a node is found if and only if the range is not empty and some node spans it exactly; it is the outermost, and never another span |
| SyntaxTree.SpanningChild | crates/supra_ast/src/splice.rs:202-213 | a spanning node below lies under the one child that contains the range |
| SyntaxTree.HasErrorIsAnywhere | crates/supra_ast/src/splice.rs:173-180 | the check is true exactly when an error or missing node stands anywhere in the tree |
| EditLaws.OccurrencesAreTheIdentifiers | crates/supra_ast/src/query.rs:169-176 | an offset is listed if and only if a node of kind identifier, type_identifier or property_identifier starts there and reads the name |
| EditLaws.MentioningFilesAre | crates/supra_ast/src/query.rs:138-191 | a file is listed if and only if it is a candidate that is or reaches the defining file and its tree has such a node |
| EditLaws.AdmittedEditsAre | crates/supra_ast/src/splice.rs:53-129 | an edit goes through if and only if both texts parse with no ERROR and no missing node anywhere, and the range and its replacement are each spanned by a node of one kind |
| EditLaws.RefusalsAre | crates/supra_ast/src/splice.rs:53-129 | which of the three refusals an edit that does not go through gets |
| Mentions.OccurrencesAreTheMentions | crates/supra_ast/src/query.rs:169-181 | an offset is listed exactly when an identifier node starts there and reads the name |
| Mentions.OccurrencesAreSpaced | crates/supra_ast/src/query.rs:169-187 | the offsets of one tree are in byte order and do not overlap |
| Mentions.FindOccurrences | crates/supra_ast/src/query.rs:169-187 | the stack walk followed by the sort lists every such identifier once, in byte order |
| References.OffsetsReadTheName | crates/supra_ast/src/query.rs:138-191 | at every offset the source reads the name, so nothing else is ever rewritten |
| References.QueryReferences | crates/supra_ast/src/query.rs:138-191 | one entry per candidate that mentions the name and is the defining file or one of its dependents in the import graph, in path order, whatever order candidates come in |
| Splicing.ReplaceNode | crates/supra_ast/src/splice.rs:53-129 | the splice is returned exactly when the range is one node of an error-free file and one node of the same kind afterwards; each refusal has the code's reason |
| Rename.BackToFrontIsSimultaneous | crates/supra_ast/src/rename.rs:111-126 | splicing back to front is the one-pass substitution of all offsets |
| Rename.RenamedIsSimultaneous | crates/supra_ast/src/rename.rs:111-126 | a file succeeds if and only if every intermediate text passes the gate, and then it is that substitution |
| Rename.SubstitutedLength | crates/supra_ast/src/rename.rs:111-126 | the length changes by the number of occurrences times the difference of the names |
| Rename.SubstitutionUndone | crates/supra_ast/src/rename.rs:111-126 | the new name stands at the shifted offsets and substituting back there restores the file |
| Rename.LandedAt | crates/supra_ast/src/rename.rs:111-126 | each occurrence moves by what the ones before it grew |
| RenameFiles.RenameCanBeUndone | crates/supra_ast/src/rename.rs:111-137 | the same for every file of a rename, at the offsets the query found |
| RenameFiles.RenameAll | crates/supra_ast/src/rename.rs:76-137 | all files or none: success if and only if something mentions the name and every such file passes all gates and is not shadowed; a shadowed or unparsable file wins over a failing splice, and the first in path order over the others |
| RenameFiles.CheckShadows | crates/supra_ast/src/rename.rs:92-110 | the first file that declares the new name, or cannot be parsed, decides the refusal |
| EditLaws.NothingIsShadowed | crates/supra_ast/src/rename.rs:92-110 | a file that is renamed parses, and declares nothing of the new name |
| Outline.DepthEquation | crates/supra_ast/src/query.rs:44-49 | a depth is one more than the least depth among other symbols named like the parent, and zero when there is none |
| Outline.DepthIsNesting | crates/supra_ast/src/query.rs:44-49 | the same in terms of names: zero when no other symbol has the parent's name, else one more than the least depth among those that do |
| Outline.DepthsAreLeast | crates/supra_ast/src/query.rs:79-103 | no assignment that satisfies the inequalities is anywhere below the depths |
| Outline.SolvableIffSettles | crates/supra_ast/src/query.rs:79-103 | a finite assignment exists if and only if every symbol has a chain of parents, no longer than the file, to one without |
| OutlineLoop.EndsIffSettles | crates/supra_ast/src/query.rs:79-103 | the loop stops if and only if every symbol has such a chain |
| OutlineLoop.MutualParentsNeverEnd | crates/supra_ast/src/query.rs:79-103 | two declarations that are each other's parents keep it going forever |
| OutlineLoop.SweepStandsStill | crates/supra_ast/src/query.rs:79-103 | a sweep moves nothing exactly when every inequality holds already |
| OutlineLoop.Sweep | crates/supra_ast/src/query.rs:81-101 | one in-place pass computes the specified sweep and reports exactly whether it moved anything |
| OutlineLoop.OutlineOf | crates/supra_ast/src/query.rs:56-104 | every declaration gets the length of its shortest chain of parents within the file |
| Piped.PipedInput.Fill | crates/supra_ffi/src/piped.rs:101-139 | a poll moves bytes into the buffer and never changes what is pending |
| Piped.PipedInput.ReadUntil | crates/supra_ffi/src/piped.rs:65-79 | the line, or the tail at end of stream, as the whole stream would give it; an interrupted call loses nothing |
| Piped.PipedInput.ReadExactTo | crates/supra_ffi/src/piped.rs:88-98 | the exact count or nothing, with every byte kept when it fails |
| Piped.ServeAll | crates/supra_ffi/src/piped.rs:65-139 | any list of requests put to the reader, over any pieces, silences and faults: the calls that were not interrupted are answered as on the whole stream at once, and what was handed over followed by what is pending is the stream |
| Piped.ChunkingIsInvisible | crates/supra_ffi/src/piped.rs:65-139 | any sequence of calls over any chunking and any interruptions is answered as on the whole stream at once |
| Piped.BytesAreConserved | crates/supra_ffi/src/piped.rs:65-139 | what was handed over, followed by what is pending, is the original stream |
| Framing.ReadFrame | crates/supra_dap/src/framing.rs:46-88 | the header scan and bounds checks compute the specified parse; anything short of a message leaves the offset alone, and the code panics if and only if a whole header announces an end past the machine word |
| Framing.PrintedHeaderPanicsExactlyWhen | crates/supra_dap/src/framing.rs:57-66 | a printed header stops the parser exactly when the end it announces is past the word |
| Framing.LargestLengthPanics | crates/supra_dap/src/framing.rs:57-66 | the largest length that parses does |
| Framing.FrameReadsBack | crates/supra_dap/src/framing.rs:15-88 | a printed frame is parsed back whole, whatever follows it and whatever bytes its body holds |
| Framing.StrictPrefixIsRefused | crates/supra_dap/src/framing.rs:46-64 | every strict prefix of a frame is refused with nothing consumed |
| Framing.NumbersAreReadLeniently | crates/supra_dap/src/framing.rs:53-54 | white space around a length and a plus sign before it do not matter |
| Framing.StreamReadsBackInOrder | crates/supra_dap/src/framing.rs:46-88 | over concatenated frames each offset yields its body and the next offset |
| DapClient.FrameIsReadWhole | crates/supra_dap/src/client.rs:274-303 | a frame at the head of the stream is returned whole and exactly it is consumed |
| DapClient.FramesArriveInOrder | crates/supra_dap/src/client.rs:274-303 | successive calls return exactly the frames sent, in order |
| DapClient.ReadMessages | crates/supra_dap/src/client.rs:274-303 | however a stream of frames is cut into pieces, running the reader as often returns exactly them, in order, and what follows stays pending |
| DapHeaders.AcceptedMessageParsesBackExactlyWhen | crates/supra_dap/src/client.rs:264-303 | the client takes the first Content-Length and the parser the last: an accepted message parses back whole if and only if the last one is its body's length too, and otherwise that one tells the outcome |
| DapHeaders.TheyDisagree | crates/supra_dap/src/client.rs:264-303 | a header with two lengths on which they part |
| DapHeaders.OtherLinesChangeNothing | crates/supra_dap/src/client.rs:274-303 | another header line before or after the length changes nothing for either reader |
| DapWaits.BareLineFeedsEndLines | crates/supra_dap/src/client.rs:290-292 | the client also takes header lines that end in a bare line feed |
| DapWaits.ContentTypeIsAnother | crates/supra_dap/src/framing.rs:52-55 | a Content-Type line is such a line |
| DapWaits.EmptyFrame | crates/supra_dap/src/framing.rs:15-18 | the frame of an empty body, byte by byte |
| DapHeaders.WaitingPanicsExactlyWhen | crates/supra_dap/src/client.rs:243-272 | waiting for a response panics if and only if a message arrives before the answer whose last length ends past the word |
| DapHeaders.WaitingForEventsPanicsExactlyWhen | crates/supra_dap/src/client.rs:171-187 | waiting for an event panics, once no held one has the name, if and only if such a message arrives before the event |
| DapHeaders.TwoLengthsStopTheClient | crates/supra_dap/src/client.rs:171-272 | a length of zero followed by the largest that parses stops either wait |
| DapClient.TheFirstMatchingResponseAnswers | crates/supra_dap/src/client.rs:243-262 | the first response with the awaited number answers; events before it are queued in order and no byte after it is touched |
| DapWaits.AwaitedThrough | crates/supra_dap/src/client.rs:243-262 | messages that do not end a wait are passed in order, their events queued in order, and the wait goes on behind them |
| DapWaits.ClosedStreamEndsTheWait | crates/supra_dap/src/client.rs:264-272 | a stream that ends without another header is a transport error, with the events met still queued |
| DapWaits.MalformedMessageEndsTheWait | crates/supra_dap/src/client.rs:243-262 | a malformed message is a protocol error, with nothing behind it read |
| DapWaits.CutBodyEndsTheWait | crates/supra_dap/src/client.rs:298-303 | a stream that ends inside a body is a transport error, and what there is of the body stays unread |
| DapWaits.NoLengthEndsTheWait | crates/supra_dap/src/client.rs:288-297 | a header that announces no length is a protocol error |
| DapWaits.TheFirstNamedEventIsFound | crates/supra_dap/src/client.rs:171-187 | with none held, the first event of the name in the stream ends the wait and nothing behind it is read |
| DapClient.Client.ReadFramedBody | crates/supra_dap/src/client.rs:274-303 | over any chunking the loop returns what the whole stream gives; a failed read loses no byte behind the ones it took |
| DapClient.Client.AwaitResponse | crates/supra_dap/src/client.rs:243-262 | the loop computes the specified wait, a panic of the parser included, and only appends to the event queue |
| DapClient.Client.WaitEvent | crates/supra_dap/src/client.rs:171-187 | the first held event with the name is returned without reading and every event popped before it is gone; otherwise the loop computes the specified search of the stream |
| Decimal.TextReadsBack | crates/supra_cohort/src/profile.rs:50-59 | reading a printed number gives it back |
| TaskShape.ComputeKey | crates/supra_cohort/src/profile.rs:49-66 | the pushing loop builds the specified key |
| TaskShape.KeyIsWritten | crates/supra_cohort/src/profile.rs:49-66 | one key, character by character |
| TaskShape.DecodeUndoesEncode | crates/supra_cohort/src/profile.rs:50-59 | element boundaries are unambiguous whatever characters the values hold |
| TaskShape.UnkeyUndoesKey | crates/supra_cohort/src/profile.rs:49-66 | the key has a left inverse |
| TaskShape.KeyIsInjective | crates/supra_cohort/src/profile.rs:43-66 | two shapes have one key if and only if they are one shape |
| ConfigResolve.SpokenIsHighest | crates/supra_config/src/resolve.rs:269-312 | the last speaker in precedence order is the highest speaker in whatever order the layers came |
| ConfigLaws.EachFieldIsItsOwn | crates/supra_config/src/resolve.rs:257-296 | each scalar but the mode is what the highest layer on the ladder that sets that field says, with its name, and else the documented default |
| ConfigLaws.ProvidersAreWhole | crates/supra_config/src/resolve.rs:292-311 | a provider is configured if and only if some layer names it, and then is the whole entry of the highest that does |
| ConfigLaws.OperatorDecidesAlone | crates/supra_config/src/resolve.rs:276-291 | without repository layers the mode is what the highest layer that sets it says, auto when none does |
| ConfigLaws.RepositoryOnlyTightens | crates/supra_config/src/resolve.rs:314-328 | with them it is the stricter, in the order yolo, auto, ask, plan, of that mode and what they ask for, attributed to the repository only when it is stricter |
| ConfigLaws.AddingProjectNeverLoosens | crates/supra_config/src/source.rs:25-33 | adding a repository layer anywhere never makes the mode looser |
| ConfigResolve.OrderDoesNotMatter | crates/supra_config/src/resolve.rs:246-257 | layers with distinct sources resolve to one configuration in any order |
| ConfigResolve.Resolve | crates/supra_config/src/resolve.rs:257-340 | the two passes compute the configuration these laws are about |
| CommandRegistry.Subsequence | crates/supra_command/src/registry.rs:124-136 | the greedy scan is true if and only if a strictly increasing embedding of the needle exists |
| CommandRegistry.Registry.Register | crates/supra_command/src/registry.rs:68-81 | a name that cannot be typed is refused before a duplicate, and only an accepted command changes the registry |
| CommandRegistry.Registry.Search | crates/supra_command/src/registry.rs:115-122 | exactly the commands that hold the query's characters in order, in name order |

## Left out

- Turn.EveryTurnIsWellBehaved: the verdict's reason and evidence text, and the accessors, are not modelled; distinct agents are not required.
- DapClient.Client.AwaitResponse: writing requests, process handling and the set-up sequence are not modelled, and an interrupted wait says only that held events are kept.
- OutlineLoop.OutlineOf: asks that every symbol be grounded, because without it the code does not return.
- RenameFiles.RenameAll: takes the harvested declarations as given, so it presupposes that the outline of each mentioning file returns.
- ImportGraph.DependencyGraph.RecordImports: how an import is rewritten before it is recorded is a parameter.
- Digest.ScanTree: the directory walk, the skipped directories and the unreadable-file errors; a scan is a map of sources or a failure.
- References.QueryReferences: asks that each candidate file be given once, as the rename does; the code pushes one entry for each time it is given.
- Framing.ReadFrame: trimming knows the ASCII white space only, and lossy decoding of headers and bodies is taken as the identity on bytes.
- Blackboard.Store.InsertClaim: column lengths of identifiers, timestamps and the schema version.
- Blackboard.Store.InsertVote: the reason and evidence columns and their lengths, which the verdict type bounds already.
- Blackboard.ReadAll: identifier texts that do not parse.
- Blackboard.Blackboard.Open: a migration of the store that fails.
- CommandRegistry.Registry.Search: the authority check of `resolve` is a case distinction on a type defined elsewhere.
- ConfigResolve.Resolve: parsing, validation and discovery of layers, and credentials.
- Condition-variable wakeups, memory ordering and wall-clock time.
- Anchor ranking, embeddings, churn and gist rendering of the digest; tree-sitter harvesting.
- Cohort scoring, admission and escalation tables; sandboxing, terminal handling, hooks and the command line.

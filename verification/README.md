# Verification of the shared crossword room

A Dafny model of the parts of the repository that decide things: the room that sequences cell
writes and check votes, the actor that persists it, the projections drawn once a game is over,
and the cursor. Each core file is modelled in its own form. Expressions are functions; loops are
methods with invariants; objects whose fields are updated in place are classes whose methods are
proved equal to a specification function of their old state; and what the repository promises is
then proved about those functions, for every input, every run and every reachable state.

| files | what they model |
|---|---|
| `Text`, `Engine`, `RoomLaws`, `RoomRuns`, `Ballots`, `Verdicts` | the reducer, level-triggered completion and the attributed check vote; one invariant kept by every command; runs; that closing a vote early never changes its result; and what each command is answered, told without the engine |
| `Journal`, `Store`, `Snapshots`, `Actor`, `GameActor`, `Persistence` | the actor with its write-behind buffer, the transactional store, and the snapshot round trip; a history of stamped events that memory, buffer and tables all reflect |
| `World`, `LogReading`, `Durability`, `RunLogs`, `Messages`, `Writes`, `Timers`, `StaleExpiry`, `Broadcast`, `Statistics`, `Handoff` | the whole system for one game under every flush fault, crash and rehydration: what becomes of a client's message, when a task writes, what the tables say, row by row, what a crash loses, when a command can run twice, what the timers leave waiting, when a vote is closed early, what a client sees, what the frozen statistics mean and how long they last, and exactly when the end is announced |
| `Evictions`, `Hauntings`, `Passivation`, `Sites` | evicted actors, whose timers and mailboxes run on: exactly when nobody can tell, what happens when somebody can, and the registry and its actors as one room |
| `Mailbox`, `Registry`, `Tenants`, `RateLimit` | the task queue, the actor cache with its eviction sweep over whole runs, and the per-socket frame cap, as transition systems over the code between awaits |
| `SolveLog`, `Sittings`, `Timeline`, `Moments`, `Ribbon` | who filled what first, idle time, sittings, the named moments and what is drawn of them |
| `Tallies`, `StatColumns`, `SlotScan`, `StatSheet`, `TitleStats`, `SheetColumns` | the stat sheet, what it conserves, and each column as a count of what one can point at |
| `Awards`, `Ladder`, `PostGame` | the award ladder, title by title, from the log to the cards |
| `Words`, `Cursor`, `Tab`, `Gridlines` | words and clues, cursor steps, typing, Backspace and the Tab cycle, and where each lands by cell numbers alone |
| `Basics`, `Sorting` | shared vocabulary: options, sets, a stable sort under a comparison |

## Reading the model

- A step of the system is one mailbox task run to its end. `Mailboxes.AlwaysSerial` is what allows
  that: whatever is posted in between, the state is that of whole tasks in post order.
- A flush meets one of three fates: it commits, it rolls back, or it commits and its answer is
  lost. A crash inside a flush is the flush's fate followed by a crash. A timer firing is a step that
  posts a task, the vote's at its deadline or later; how long the task then waits is free.
- `World.LedgerOf` is the run's own history: what its tasks accepted, cut back by each crash to what
  the tables hold.
- Assumed of a puzzle: blocks lie on the grid, answers lie on playable cells, at least one cell is
  playable (`RoomLaws.PuzzleOk`). Assumed of a log given to the projections where a lemma says so:
  no two events share a sequence number (the table's primary key).
- Nothing is assumed of the electorate inside the system: the session assembles it, and
  `Actor.ElectorateIs` proves what the engine needs.
- A specification function says how a thing is computed. `Verdicts`, `Messages`, `Writes`, `RunLogs`,
  `Tenants`, `SheetColumns`, `Ribbon`, `Ladder` and `Gridlines` say what comes out in elementary terms,
  with the shipped constants written as numbers.
- Times are integer milliseconds, ratios and seconds exact reals, user ids strings ordered by code
  unit.

## Where the code and its documentation differ

The model follows the code; each difference is a lemma.

- "Persisted before broadcast, exactly once" (INV-3): it is at most once. The end is announced, once,
  exactly when the step that reached it had a flush that met no fault
  (`Handoff.AnnouncedExactlyWhenAHealthyEnd`). Otherwise memory is over and nobody is told
  (`Handoff.FailedCompletionIsSilent`), and the flush that catches up writes the completed row with
  memory's statistics, which are none, even over those an unreported commit had stored
  (`Handoff.RetriedCompletionStaysSilent`, `Statistics.StatisticsLastUntilErased`). A client that
  synchronises during the ending flush reads the end before any row says it
  (`Broadcast.EndIsReadableBeforeItIsDurable`).
- "Nothing is lost" by eviction: an abandon whose own flush failed is buffered nowhere, so the
  drain succeeds without writing it (`Handoff.FailedAbandonIsForgotten`); it is the only such loss
  (`Handoff.OnlyAnAbandonIsLost`, `Handoff.DrainHandsOver`).
- Eviction "preserving the single writer": the recheck looks at sockets only, and the evicted
  actor's timers and mailbox keep reaching the tables. Eviction is invisible exactly when the evicted
  actor is quiet (`Hauntings.EvictionIsInvisibleIffQuiet`); after a drain, when no vote is open and no
  task behind the drain does anything (`Passivation.PassivationHandsOver`). A write behind the drain
  makes a second writer (`Passivation.WriteBehindTheDrainIsASecondWriter`). An idle window no shorter
  than the timebox rules out the open vote, provided no command ran after the last socket left and the
  timers are prompt (`Sites.CoveredIsQuiet`, `Sites.SiteIsOneRoom`).
- The vote timebox: a vote can be closed as expired ahead of its deadline, by a task that an earlier
  vote's timer posted and that was still waiting in the mailbox while that vote was closed and this one
  opened, and only then (`StaleExpiry.ClosedEarlyIffAnExpiryWaited`,
  `StaleExpiry.SecondVoteIsClosedByTheFirstsExpiry`).
- After a fault "the next trigger retries", but the timer is gone: nothing does until somebody writes
  or drains (`Timers.FaultyFlushIsUnattended`).
- The turning point is documented as null for a trace of fewer than two entries; it is null as well for
  a longer one whose every step goes backward under clock skew (`Moments.TurningPointExists`,
  `Moments.TwoEntriesAndNoTurningPoint`).

## Model

| member | source | states |
|---|---|---|
| `Text.AsciiUpperLoop` | packages/engine/src/casing.ts:7-19 | The character loop yields a string of the same length in which exactly a to z are raised and everything else is kept. |
| `Text.NormalizeValue` | packages/engine/src/reducer.ts:11-15 | A raw value is accepted iff it is one to ten letters of either case or digits, and what is stored is each of its characters raised on its own. |
| `Text.NormalizeIsIdempotent` | packages/engine/src/reducer.ts:11-15 | Normalising an accepted value again changes nothing. |
| `Text.MatchesIgnoresCase` | packages/engine/src/comparator.ts:9-15 | The comparator gives the same answer whatever the case of either side, rebus first letters included. |
| `Text.MatchesMeans` | packages/engine/src/comparator.ts:9-15 | The comparator accepts exactly the whole answer letter for letter, or its first character alone, case apart. |
| `Engine.BoardIsCorrect` | packages/engine/src/completion.ts:44-52 | In whatever order the answers are visited, the early-exit loop says yes exactly when no answered cell fails the comparator. |
| `Engine.ComparatorFailures` | packages/engine/src/completion.ts:54-71 | In whatever order the answers are visited, the result is the ascending list of all failing cells. |
| `RoomLaws.EmptyBoardIsSound` | apps/session/src/hydrate.ts:118-168 | The board of a game nobody has played satisfies the room invariant. |
| `RoomLaws.FullMeansEveryCell` | packages/engine/src/completion.ts:34-42 | The cheap count gate is exact: the cached count equals the playable count iff every playable cell holds a value. |
| `RoomLaws.FilledAfterWrite` | packages/engine/src/reducer.ts:48-59 | The incremental fill count is the number of filled cells after the write, for every old and new value. |
| `RoomLaws.WriteLaws` | packages/engine/src/reducer.ts:48-91 | A cell write keeps cells, count and marks sound (a mark survives only while its cell still fails) and its one event rebuilds the new board. |
| `RoomLaws.ReduceLaws` | packages/engine/src/reducer.ts:30-92 | A refused command returns the same board and no event; an accepted one is a lawful write on an ongoing board. |
| `RoomLaws.MutateLaws` | packages/engine/src/completion.ts:342-402 | A write with completion and vote cancellation keeps the invariant, numbers its events without gaps, and its events rebuild the board. |
| `RoomLaws.FreshMarks` | packages/engine/src/completion.ts:165-204 | Marks taken from a full board sit on filled cells that fail, and there is at least one when the board is not correct. |
| `RoomLaws.ResolveLaws` | packages/engine/src/completion.ts:222-239 | Settling the tally closes a decided vote or leaves an undecided one open, and either way the invariant holds again. |
| `RoomLaws.OpenLaws` | packages/engine/src/completion.ts:241-278 | A proposal is refused silently or opens a well-shaped vote that is settled at once. |
| `RoomLaws.AddVoter` | packages/engine/src/completion.ts:160-163 | Adding a voter keeps the list sorted, duplicate-free and inside the electorate, and grows it by exactly that voter. |
| `RoomLaws.BallotRecorded` | packages/engine/src/completion.ts:304-319 | Recording a ballot keeps approvals and rejections disjoint, sorted and inside the electorate. |
| `RoomLaws.CastLaws` | packages/engine/src/completion.ts:280-321 | A ballot is refused silently or recorded and settled, keeping the invariant. |
| `RoomLaws.ExpireLaws` | packages/engine/src/completion.ts:323-340 | Expiry closes an open vote with one event, and is silent with none open. |
| `RoomLaws.ApplyLaws` | packages/engine/src/completion.ts:404-425 | Every command keeps the invariant: count exact, ongoing and full means wrong, an open vote undecided on a full board, marks true; its events are contiguous, end with any terminal one, and rebuild the board. |
| `Verdicts.RefusalsAreExact` | packages/engine/src/completion.ts:241-425 | Each error is the answer in exactly its own case, and a refused command changes and emits nothing. |
| `Verdicts.WriteSays` | packages/engine/src/completion.ts:342-402 | An accepted write first says the cell, the raised value or none, the sender, the id and the time; the board holds just that there; and it ends the game, breaks an open vote, or neither, by what the board then is. |
| `Verdicts.TallyIs` | packages/engine/src/completion.ts:156-239 | A vote passes once twice its approvals exceed the electorate, fails once that cannot happen any more, and stays open otherwise; a pass lists exactly the wrong cells in the name of the proposer. |
| `Verdicts.ProposalSays` | packages/engine/src/completion.ts:241-278 | An accepted proposal opens a vote at the next number among exactly the electors given, announces the least number that is more than half of them, and is settled with the approval of the proposer. |
| `Verdicts.BallotSaid` | packages/engine/src/completion.ts:280-321 | An accepted ballot is announced with its voter and his answer, recorded on that side alone, and settled. |
| `RoomRuns.RunLaws` | packages/engine/src/completion.ts:404-425 | For every command list: invariant at the end, sequence numbers contiguous from the start, nothing after a terminal event, and replaying the events gives the final board. |
| `RoomRuns.RunFromEmpty` | packages/engine/src/completion.ts:404-425 | From the empty board the final sequence number is the number of events and the check count is the number of check events. |
| `RoomRuns.SnapshotPlusTail` | apps/session/src/adapt.ts:226-267 | A board at number n plus the events after n is the board at the end, for every n. |
| `RoomRuns.FinishedStaysFinished` | packages/engine/src/completion.ts:410-425 | A completed or abandoned game answers any further command list with no event and no change. |
| `RoomRuns.AcceptedChecksAreHonest` | packages/engine/src/completion.ts:171-204 | Every check among an accepted command's events lists exactly the cells that fail, at least one, and the marks are that list. |
| `RoomRuns.CompletedBoardHasNoMarks` | packages/engine/src/completion.ts:361-400 | No mark is standing on a completed board. |
| `RoomRuns.VoteFreeWritesAgree` | packages/engine/src/completion.ts:342-348 | With no vote open a cell write is exactly the two-phase completion path. |
| `RoomRuns.SoloProposalIsTheImmediateCheck` | packages/engine/src/completion.ts:84-108 | A proposal in a room of one has the verdict, marks and count of the immediate check, two numbers later. |
| `RoomRuns.FilledNeverExceeds` | packages/engine/src/completion.ts:84-92 | The fill count never passes the playable count, so testing for less and testing for different agree. |
| `Ballots.Turnout` | packages/engine/src/completion.ts:286-321 | Ballots cast and ballots to come add up to the electorate. |
| `Ballots.RoundDecidesByTally` | packages/engine/src/completion.ts:228-321 | For every electorate, assignment and order of ballots: closed by the last ballot, and passed exactly when more than half of the electorate approved, the proposer included. |
| `Ballots.OrderOfBallotsIsIrrelevant` | packages/engine/src/completion.ts:286-321 | Two orders of the same ballots leave the same marks, count, cells and status. |
| `Ballots.LateBallotsAreRefused` | packages/engine/src/completion.ts:293-295 | Ballots after the close change nothing. |
| `Journal.RecentIsTheWindow` | apps/session/src/actor.ts:1027-1033 | The remembered ids are the newest 64 accepted ids of the whole history, in order. |
| `Journal.WindowGrows` | apps/session/src/actor.ts:552-601 | An id that is not remembered can be added without a repeat inside the window. |
| `Journal.FoldIsReplay` | apps/session/src/actor.ts:600-650 | The room part of the history's image is the plain replay of its events. |
| `Store.GameStore.InsertEvents` | apps/session/src/writer.ts:119-134 | Rows whose number is already in the cell log are skipped, the others appended in order. |
| `Store.GameStore.InsertCheckEvents` | apps/session/src/writer.ts:136-152 | The same for the check log. |
| `Store.GameStore.InsertVoteEvents` | apps/session/src/writer.ts:154-182 | The same for the vote log. |
| `Store.GameStore.UpsertSnapshot` | apps/session/src/writer.ts:197-233 | The row is replaced exactly when the guard admits the snapshot, and left alone otherwise. |
| `Store.GameStore.FlushToPostgres` | apps/session/src/writer.ts:294-308 | All three logs and the row change together or not at all; a commit may go unreported. |
| `Store.GameStore.FlushTerminalToPostgres` | apps/session/src/writer.ts:318-342 | As above, with the snapshot built from the logs as this transaction leaves them. |
| `Store.AnyWritersOnlyAdvance` | apps/session/src/writer.ts:184-233 | Under any sequence of flushes by any writers with any faults, the stored number never falls, a terminal status never changes, and the logs only grow at the end. |
| `Snapshots.BoardCellsLoop` | apps/session/src/adapt.ts:226-239 | One entry per grid cell: empty for blocks and never-written cells, else the last value and writer. |
| `Snapshots.HydrateGame` | apps/session/src/hydrate.ts:118-193 | The loop keeps exactly the entries that name a writer and counts the filled ones. |
| `Snapshots.HydrationUndoesFlushing` | apps/session/src/actor.ts:953-1016 | Hydrating the row a flush wrote gives back the same cells, count, marks, vote, deadline, times and recent ids. |
| `Sittings.ActiveGaps` | packages/engine/src/analysis.ts:311-337 | Each consecutive active step is the raw step when it is under the threshold and nothing otherwise, backward steps included. |
| `Sittings.GaplessIsIdentity` | packages/engine/src/analysis.ts:318-320 | A log without a long step keeps its times and has one sitting at most. |
| `Sittings.FoldingTwiceIsFoldingOnce` | packages/engine/src/analysis.ts:324-337 | Folding idle time is idempotent. |
| `Sittings.FoldedIsIdle` | apps/session/src/actor.ts:1059-1075 | The time folded away is the sum of the steps of half an hour or more, and they are what parts one sitting from the next. |
| `Sittings.SolveTimesOf` | apps/session/src/actor.ts:1043-1094 | The seconds from the first fill to the completion, to the nearest and never below nought; the same with every step of half an hour or more left out; and one more sitting than there are such steps. |
| `Sittings.ActiveWithinSolve` | apps/session/src/actor.ts:1059-1085 | Active time lies between nought and the solve time, and equals it when there is no long step. |
| `Actor.ElectorateIs` | apps/session/src/actor.ts:682-696 | The electorate is the proposer and every connected host and solver, once each, ascending. |
| `Actor.AssembleElectorateLoop` | apps/session/src/actor.ts:688-696 | The loop over connections builds that electorate. |
| `GameActors.GameActor.constructor` | apps/session/src/actor.ts:249-318 | A hydrated actor starts from the stored row, with a vote past its deadline already closed and that close buffered. |
| `GameActors.GameActor.ReconcileHydratedVote` | apps/session/src/actor.ts:276-318 | A running vote re-arms its timer; one past its deadline is closed and buffered, not broadcast. |
| `GameActors.GameActor.EmitVoteEvents` | apps/session/src/actor.ts:644-680 | Each event is buffered for its own log and broadcast in order; a completion is neither, only its number is returned. |
| `GameActors.GameActor.RecordCommandId` | apps/session/src/actor.ts:1027-1033 | The id is pushed and the list cut to the newest 64. |
| `GameActors.GameActor.CancelVoteTimer` | apps/session/src/actor.ts:737-744 | The timer and the deadline go together; nothing else changes. |
| `GameActors.GameActor.ReconcileVoteTimer` | apps/session/src/actor.ts:704-717 | No vote cancels the timer, a fresh opening arms it, a ballot leaves it running. |
| `GameActors.GameActor.DoFlush` | apps/session/src/actor.ts:926-942 | An empty buffer writes nothing; otherwise one transaction, and the buffer clears only on a reported commit. |
| `GameActors.GameActor.AfterMutationFlush` | apps/session/src/actor.ts:898-919 | At the threshold it flushes; below it the timer is armed when something is buffered and stays armed if it was. |
| `GameActors.GameActor.CompleteGame` | apps/session/src/actor.ts:775-806 | The completed row commits before the broadcast; on a fault nothing is broadcast and the buffer stays. |
| `GameActors.GameActor.HandleMutation` | apps/session/src/actor.ts:533-633 | Role gate, duplicate drop, engine, broadcast, timer and flush, step by step, as the specification that `Messages` reads. |
| `GameActors.GameActor.HandleExpiry` | apps/session/src/actor.ts:745-767 | Closes whatever vote is open and flushes as after a mutation; clears the timer either way. |
| `GameActors.GameActor.DoAbandon` | apps/session/src/actor.ts:838-872 | Closes an open vote first, takes the next number, commits, and only then broadcasts. |
| `Messages.UnheardMessages` | apps/session/src/actor.ts:541-554 | A spectator is told so and a remembered id is dropped in silence; nothing else happens. |
| `Messages.PlacementsAreHeard` | apps/session/src/actor.ts:556-650 | A placement is refused in exactly its cases; an accepted one is broadcast first as a fill of its cell by its sender at that time with its letters raised, and that is what the board holds. |
| `Messages.ClearsAreHeard` | apps/session/src/actor.ts:556-650 | The same of a clear, with no value. |
| `Messages.BallotsAreHeard` | apps/session/src/actor.ts:575-584 | An accepted ballot is broadcast first as cast by its sender on the vote of the message with the answer of the message, recorded so, and settled. |
| `Messages.ProposalsAreHeard` | apps/session/src/actor.ts:563-574 | An accepted proposal is broadcast first as an opening in the name of its sender among exactly him and the hosts and solvers present, with the deadline a timebox away, and settled with his approval. |
| `Writes.CommandWritesAtTheThreshold` | apps/session/src/actor.ts:889-919 | An accepted command that does not end the game adds one buffered row for each frame it sent; below the threshold (25 as shipped) nothing is written and the timer is armed, at it one flush is tried, and its fate decides the buffer. |
| `Writes.ExpirySays` | apps/session/src/actor.ts:745-767 | An expiry task closes an open vote as expired, says so, and writes at the threshold; with none open it clears the timer and nothing else. |
| `Writes.AbandonSays` | apps/session/src/actor.ts:838-872 | Abandoning a finished game does nothing; a running one has its open vote cancelled first, takes the next number, flushes at once, and is announced in the name of the caller only if that is answered. |
| `Writes.ArrivalSays` | apps/session/src/actor.ts:249-318 | A hydrated actor starts from exactly the stored room: a vote with time left arms its timer, one at or past its deadline is closed, buffered as one row and flushed behind the hydration, and nothing is broadcast. |
| `Persistence.AddOverlap` | apps/session/src/writer.ts:119-182 | Offering a log rows it partly has leaves the log of both stretches of history, with nothing doubled and nothing missing. |
| `Persistence.LogsCatchUp` | apps/session/src/writer.ts:294-308 | Whatever an unreported commit already wrote, flushing the whole buffer brings all three logs to the whole history. |
| `Persistence.SoleWriterIsNeverRefused` | apps/session/src/writer.ts:184-233 | The row guard always admits the game's only writer. |
| `Persistence.FlushCatchesUp` | apps/session/src/writer.ts:294-308 | A flush that is not rolled back leaves the tables holding exactly the whole history. |
| `Persistence.DoFlushAgrees` | apps/session/src/actor.ts:923-942 | A flush keeps memory, buffer and tables in agreement whatever it meets. |
| `Persistence.AfterMutationAgrees` | apps/session/src/actor.ts:890-919 | So does the threshold flush. |
| `Persistence.EmitBuffers` | apps/session/src/actor.ts:644-680 | What is buffered is exactly the log rows of the emitted events, per log and in order. |
| `Persistence.AcceptedShape` | packages/engine/src/completion.ts:241-402 | An accepted command carries its id on its first event and on no other, and a close is among its events iff a vote ended. |
| `Persistence.PrepareIsFold` | apps/session/src/actor.ts:600-622 | Applying, remembering the id and reconciling the timer by hand is folding the stamped events. |
| `World.SubmitAgrees` | apps/session/src/actor.ts:533-633 | A command task keeps the agreement under every fault, and only lengthens the history. |
| `World.CompleteAgrees` | apps/session/src/actor.ts:775-806 | So does a completion. |
| `World.ExpiryAgrees` | apps/session/src/actor.ts:745-767 | So does an expiry. |
| `World.AbandonAgrees` | apps/session/src/actor.ts:838-872 | So does an abandon. |
| `World.HydrateAgrees` | apps/session/src/actor.ts:249-318 | A fresh actor agrees with the tables it was read from, one close ahead at most. |
| `World.NextTells` | apps/session/src/actor.ts:512-521 | Every step says what becomes of the history: a task appends its own stamped events, a timer none, a crash cuts it back to what the tables hold; and the result explains memory, buffer and tables. |
| `World.EveryRunIsCoherent` | apps/session/src/actor.ts:533-680 | In every state reachable by commands, timers, expiries, flushes, abandons, crashes and arrivals with any faults, the run's own history explains memory, buffer and tables. |
| `LogReading.LastRowWins` | apps/session/src/adapt.ts:226-239 | The newest log row of a cell is what the board holds there. |
| `LogReading.OneRowPerCheck` | apps/session/src/actor.ts:657-661 | There is one check row per accepted check. |
| `LogReading.VoteRowsTell` | apps/session/src/actor.ts:662-673 | The open vote is its standing opening row with the ballots after it, and no row stands when none is open. |
| `LogReading.NumbersArePartitioned` | apps/session/src/writer.ts:119-182 | Every number up to last_seq is in exactly one log, or is the terminal event. |
| `Durability.TablesAlwaysTell` | apps/session/src/writer.ts:294-342 | In every reachable state: the logs and the terminal number partition 1 to last_seq, each stored cell is its last row, the count is the number of check rows, the marks ascend, the stored vote is its standing opening with its ballots. |
| `Durability.MemoryIsTablesPlusTail` | apps/session/src/actor.ts:926-972 | Memory is the stored snapshot with a tail of events folded on, and the buffer ends with that tail's rows. |
| `Durability.CrashLosesOnlyTheTail` | apps/session/src/hydrate.ts:111-193 | A crash cuts the run's own history at the stored number: what is lost is exactly its events past that, which memory had on top of the stored image, and the successor takes up the image of the rest. |
| `Durability.StoredIsForever` | apps/session/src/writer.ts:294-308 | What has reached the tables stays in the run's history through every later crash. |
| `Durability.AcceptedIsRecorded` | apps/session/src/actor.ts:600-601 | An accepted submission adds its id to the run's history, once. |
| `Durability.NoIdIsAppliedTwice` | apps/session/src/actor.ts:552-554 | While an accepted command is still in the run's history and fewer than 64 have been accepted since, submitting its id again changes nothing, sends nothing and is not accepted, through any faults, crashes and rehydrations in between. |
| `Durability.UncrashedHistoryGrows` | apps/session/src/actor.ts:512-521 | Without a crash nothing accepted leaves the history. |
| `Durability.RememberedAreTheRunsOwn` | apps/session/src/actor.ts:1027-1033 | The remembered ids, in memory and in the row, are the newest 64 of the run's own accepted ids, and no two within 64 of each other are equal. |
| `RunLogs.TablesHoldTheRun` | apps/session/src/writer.ts:119-182 | In every reachable state every event of the run up to last_seq has its own row with its number, user, value and time (the end has the snapshot row), and each log ascends. |
| `RunLogs.StoredFirstFillIsTheLogs` | packages/engine/src/reducer.ts:60-75 | In every reachable state the stored first fill is the time of the first row of the cell log with a value. |
| `RunLogs.FinishedGameIsCounted` | apps/session/src/actor.ts:1084-1088 | The rows of a finished game are one fewer than its terminal number. |
| `Durability.ExpiryClosesWhateverIsOpen` | apps/session/src/actor.ts:745-767 | An expiry task closes whichever vote is open when it runs, whatever the time. |
| `Durability.TerminalRowIsMemory` | apps/session/src/writer.ts:184-233 | A terminal row means memory is at the very same event. |
| `Durability.FinishedActorIsInert` | apps/session/src/actor.ts:838-839 | On a finished, flushed game no task writes or broadcasts anything. |
| `Durability.TerminalIsAnnouncedOnce` | apps/session/src/actor.ts:769-806 | Over every run, completion and abandonment together are broadcast at most once, and then the stored row says the same status, number, time and statistics. |
| `Durability.AnnouncedIsFinal` | apps/session/src/actor.ts:769-872 | After that broadcast tables and broadcasts never change again. |
| `Timers.EveryRunIsTimed` | apps/session/src/actor.ts:704-744 | Through every run with any faults: the vote timer is armed for an open vote only, an open vote has its timer armed or its expiry posted, and the flush timer is armed only while something is buffered. |
| `Timers.HealthyCommandRearms` | apps/session/src/actor.ts:898-919 | An accepted command whose flush, if it tries one, meets no fault leaves whatever is buffered with a flush coming, even after one that failed. |
| `Timers.FaultlessBufferIsAttended` | apps/session/src/actor.ts:898-919 | While no flush faults, whatever is buffered has its timer armed or a flush posted. |
| `Timers.FaultyFlushIsUnattended` | apps/session/src/actor.ts:923-942 | A flush that faults keeps its rows and leaves no timer, so a flush is still coming iff another was posted as well. |
| `Timers.DeadlinesFollowCommands` | apps/session/src/actor.ts:560-573 | An open vote's deadline, in memory or in the row, is at most the last command's time plus the timebox. |
| `Timers.NoVoteOutlivesTheTimebox` | apps/session/src/actor.ts:719-735 | Once the timebox has passed since the last command, with due timers fired and what they posted run, no vote is open. |
| `StaleExpiry.StepKeepsVote` | apps/session/src/actor.ts:704-717 | While a vote stays open its deadline stays, and an expiry is posted only by its own timer, at the deadline or later. |
| `StaleExpiry.ClosedEarlyIffAnExpiryWaited` | apps/session/src/actor.ts:719-767 | A vote can be closed as expired ahead of its deadline, under a clock that never goes back, iff an expiry was already posted and waiting when it opened. |
| `StaleExpiry.SecondVoteIsClosedByTheFirstsExpiry` | apps/session/src/actor.ts:719-767 | It does happen: the run in which a vote opened at 30.000 s with deadline 60 s is closed as expired at 30.001 s by the task the first vote's timer posted. |
| `Broadcast.FramesShowEvents` | apps/session/src/actor.ts:644-680 | The frames of events that do not end the game show exactly those events, in order. |
| `Broadcast.AcceptShows` | apps/session/src/actor.ts:600-633 | An accepted command's frames take a client from the old board to the new one, whatever its flush met, short of an unannounced end. |
| `Broadcast.NextShows` | apps/session/src/actor.ts:512-521 | The same of every task. |
| `Broadcast.StepBroadcastsWhatItRecords` | apps/session/src/actor.ts:644-680 | A task sends, apart from the announcement of an end, exactly the frames of the events it adds to the history, in order. |
| `Broadcast.WatchersKeepUp` | apps/session/src/adapt.ts:241-267 | While one actor lives, a client applying every frame since its welcome holds the actor's board, or is exactly one unannounced end behind it. |
| `Broadcast.SyncDuringACommand` | apps/session/src/actor.ts:600-622 | A board read while a command's flush is awaited is the one the task ends with, and what is sent after the await leaves it there. |
| `Broadcast.SyncedWatchersKeepUp` | apps/session/src/server.ts:631-637 | The same as for a welcome holds for a client that synchronised while a task awaited its flush. |
| `Broadcast.EndIsReadableBeforeItIsDurable` | apps/session/src/actor.ts:780-797 | While the ending step awaits its flush no stored row is over, and if that flush rolls back the step never writes one. |
| `Statistics.CompletionFreezes` | apps/session/src/actor.ts:780-798 | A completion leaves statistics that describe the logs as its own transaction left them, or none. |
| `Statistics.StoredStatisticsAreTheLogs` | apps/session/src/actor.ts:1035-1094 | In every reachable state, stored statistics sum up the stored logs: events are the rows of the three logs, participants the users of the cell log, checks the check rows, seconds and sittings those of its times from its first row with a value to the completion. |
| `Statistics.StatisticsLastUntilErased` | apps/session/src/actor.ts:926-942 | From any moment at which the completed row holds statistics, they are there at the end of the run iff no committing flush since was by an actor without them; otherwise there are none. |
| `Handoff.HealthyFlushLands` | apps/session/src/actor.ts:926-942 | The sole writer's flush without a fault commits and empties the buffer. |
| `Handoff.FaultlessBufferStaysSmall` | apps/session/src/actor.ts:890-919 | With no flush fault the buffer is below the threshold between tasks, crashes included. |
| `Handoff.FewerThanTheThresholdAreBuffered` | apps/session/src/actor.ts:267-270 | With the shipped settings fewer than 25 rows are buffered between tasks. |
| `Handoff.FaultlessEndIsAnnouncedExactlyOnce` | apps/session/src/actor.ts:769-872 | With no flush fault a finished game has been announced exactly once, and only a finished one. |
| `Handoff.EndIsAnnouncedIffItsFlushIsHealthy` | apps/session/src/actor.ts:775-872 | A step that ends the game announces it iff its own flush meets no fault, and no other step announces anything. |
| `Handoff.AnnouncedExactlyWhenAHealthyEnd` | apps/session/src/actor.ts:769-889 | Over every run with any faults and crashes: the end is announced exactly once iff some step ended the game with a flush that met no fault, and otherwise never. |
| `Handoff.DrainHandsOver` | apps/session/src/actor.ts:944-951 | A successful drain hands on exactly this room iff something was buffered or the row was already at memory's number. |
| `Handoff.OnlyAnAbandonIsLost` | apps/session/src/actor.ts:926-942 | The only thing a drain can lose by finding nothing buffered is an abandon. |
| `Handoff.FailedAbandonIsForgotten` | apps/session/src/actor.ts:857-867 | It does happen, on every puzzle: an abandon whose flush rolls back survives no drain. |
| `Handoff.FailedCompletionIsSilent` | apps/session/src/actor.ts:780-806 | A completion whose flush faults is announced by nobody and leaves memory completed with its buffer; rolled back, the tables are as before, and unreported, they hold the whole history, the completed row and statistics memory does not have. |
| `Handoff.RetriedCompletionStaysSilent` | apps/session/src/actor.ts:926-942 | The next flush that commits writes the completed row with memory's statistics over whatever was stored, unannounced. |
| `Mailboxes.Mailbox.Post` | apps/session/src/mailbox.ts:22-35 | The task joins the back of the queue; an idle mailbox starts it. |
| `Mailboxes.Mailbox.Drain` | apps/session/src/mailbox.ts:42-55 | A second drain does nothing; the first takes the loop's next turn. |
| `Mailboxes.Mailbox.LoopTurn` | apps/session/src/mailbox.ts:46-54 | The head of the queue starts, or the loop stops and stops draining. |
| `Mailboxes.Mailbox.Advance` | apps/session/src/mailbox.ts:22-35 | The running task makes its next change or settles towards its own poster. |
| `Mailboxes.AlwaysSerial` | apps/session/src/mailbox.ts:22-55 | Any interleaving of posts and progress: tasks start in post order, never overlap, and the shared state is theirs run one after another. |
| `Mailboxes.NoLostWakeup` | apps/session/src/mailbox.ts:42-55 | A non-empty queue always has a drain loop at work. |
| `Mailboxes.EverythingSettles` | apps/session/src/mailbox.ts:22-55 | Left alone the mailbox comes to rest with every posted task run and every poster told its own outcome, whichever tasks threw. |
| `Registry.ActorRegistry.GetOrHydrate` | apps/session/src/registry.ts:61-74 | The cached entry, or a new one cached before its hydration resolves. |
| `Registry.ActorRegistry.HydrationResolved` | apps/session/src/registry.ts:184-197 | The promise resolves once, to an actor or to a miss. |
| `Registry.ActorRegistry.HandleMiss` | apps/session/src/registry.ts:67-72 | A miss is dropped from the cache. |
| `Registry.ActorRegistry.AddConnection` | apps/session/src/actor.ts:349-357 | An evicted actor refuses the socket; any other takes it. |
| `Registry.ActorRegistry.RemoveConnection` | apps/session/src/actor.ts:365-375 | The last socket to leave restarts the idle clock. |
| `Registry.ActorRegistry.BeginSweep` | apps/session/src/registry.ts:137-142 | A sweep takes a snapshot unless one is under way. |
| `Registry.ActorRegistry.InspectNext` | apps/session/src/registry.ts:142-150 | Only the inspected, still cached, socket-free and long-idle entry goes on to be drained. |
| `Registry.ActorRegistry.Passivate` | apps/session/src/registry.ts:166-182 | After the drain a fault, a socket or another entry aborts; otherwise mark and delete in one step. |
| `Registry.MissDropsOnlyItself` | apps/session/src/registry.ts:67-72 | Though it deletes by game id alone, the miss handler only ever removes its own entry. |
| `Registry.AtMostOneActor` | apps/session/src/registry.ts:60-74 | Through any interleaving, two current entries of one game are the same entry, and an evicted actor holds no socket. |
| `Tenants.SocketsAreCounted` | apps/session/src/actor.ts:349-375 | Over any run an entry holds as many sockets as joined it while it was not evicted, less those that left. |
| `Tenants.IdleClockTells` | apps/session/src/actor.ts:365-384 | The clock of an actor without a socket shows when its last socket left, or when it was hydrated, and none has been held since. |
| `Tenants.SweepGoesThroughItsSnapshot` | apps/session/src/registry.ts:137-156 | What a sweep still has to look at is the rest of the snapshot of the cache it began with, and no second sweep begins meanwhile. |
| `Tenants.SweepPicksExactlyTheIdle` | apps/session/src/registry.ts:146-156 | The next entry of the snapshot is picked for draining exactly when it is a cached actor without a socket that has idled for the window. |
| `Tenants.GoneIsExact` | apps/session/src/registry.ts:60-74 | An entry is evicted exactly when some drain of it ended well with no socket on it and the entry still cached, and dropped exactly when its miss was handled. |
| `Tenants.EvictedHadIdled` | apps/session/src/registry.ts:146-182 | Whoever is evicted was picked by a sweep after idling for its window before its drain ended. |
| `Evictions.HauntIsHarmless` | apps/session/src/actor.ts:902-919 | Whatever a harmless evicted actor still does, timers and mailbox, the tables stay as they are and it stays harmless. |
| `Evictions.NextGoesPast` | apps/session/src/writer.ts:184-233 | A number once reached stays behind: every step of the current actor leaves the row alone or takes it past, and the logs only grow. |
| `Evictions.QuietEvictionsAreInvisible` | apps/session/src/registry.ts:146-182 | If every eviction of a run is of a quiet actor, then actor, tables and broadcasts are at every moment those of the run in which each evicted actor vanished, whatever the evicted ones go on to do. |
| `Hauntings.UnquietReachesTheTables` | apps/session/src/actor.ts:719-735 | An evicted actor that is not quiet changes the tables by some further steps of its own timers and mailbox. |
| `Hauntings.EvictionIsInvisibleIffQuiet` | apps/session/src/registry.ts:146-182 | After any run: no continuation can ever tell that the evicted actor is still there iff at its eviction no vote was open, nothing in its mailbox did anything, and what was buffered had no flush coming or was stored already. |
| `Passivation.PassivationHandsOver` | apps/session/src/registry.ts:158-182 | After any run and a drain without fault: the eviction is invisible for ever iff no vote is open and no task behind the drain does anything; and the successor, whenever opened, starts from exactly that room iff the drain wrote or the row was at memory's number. |
| `Passivation.WriteBehindTheDrainIsASecondWriter` | apps/session/src/registry.ts:171-182 | A write behind the drain, on every puzzle: the evicted actor flushes it under a successor that never saw it, and once the successor writes too the stored board is no longer what the log says. |
| `Passivation.PassedFlushIsRefused` | apps/session/src/writer.ts:184-233 | Once the row has passed an evicted actor, its flush throws and writes nothing. |
| `Passivation.SecondWriterIsHalfLost` | apps/session/src/writer.ts:184-233 | Two writers at one number both report success while the second's row is skipped and its snapshot stored. |
| `Sites.HydratesAlone` | apps/session/src/registry.ts:60-74 | A hydration resolves only while its game has no actor. |
| `Sites.CoveredIsQuiet` | apps/session/src/registry.ts:137-182 | If nothing was posted behind the drain, no command ran after the last socket left, the timers were prompt and the idle window is no shorter than the timebox, the evicted actor is quiet. |
| `Sites.SiteIsOneRoom` | apps/session/src/registry.ts:60-182 | Registry, actors and evicted actors together, through any interleaving, faults and restarts: with every eviction so covered there is an actor exactly while the cache has one, and all states are those of one actor that only crashes and is hydrated again. |
| `SolveLog.SolveTraceLoop` | packages/engine/src/analysis.ts:88-117 | The seen-set loop yields the trace of the ordered log. |
| `SolveLog.FirstCorrect` | packages/engine/src/first-correct.ts:43-63 | The owner loop, which keeps no trace, yields exactly the trace's cells and users. |
| `SolveLog.WalkCells` | packages/engine/src/analysis.ts:96-113 | A cell is in the trace iff some event ever claimed it. |
| `SolveLog.TraceIsEarliestClaims` | packages/engine/src/analysis.ts:82-117 | The trace holds exactly the accepted writes that no accepted write to the same cell precedes. |
| `SolveLog.TraceAscends` | packages/engine/src/analysis.ts:82-87 | The trace is in sequence order and names no cell twice. |
| `SolveLog.ShuffleChangesNothing` | packages/engine/src/analysis.ts:95-96 | The order events are given in never matters. |
| `SolveLog.LaterEventsOnlyAdd` | packages/engine/src/first-correct.ts:38-63 | Appending later events only extends the trace at its end and never moves an owner. |
| `SolveLog.RetimingKeepsClaims` | packages/engine/src/analysis.ts:88-117 | Changing times changes no claim. |
| `SolveLog.CompletedGameIsFullyOwned` | packages/engine/src/first-correct.ts:43-63 | The log of a completed game gives an owner to every cell with an answer and to no other. |
| `SolveLog.CompletedTablesAreFullyOwned` | packages/engine/src/first-correct.ts:43-63 | The same of the stored log in every reachable state whose row is completed. |
| `Timeline.CollapseIdleLoop` | packages/engine/src/analysis.ts:324-337 | The shift loop puts every event on the axis with idle time folded away. |
| `Timeline.CollapseLaws` | packages/engine/src/analysis.ts:311-337 | Short steps kept, long steps gone, idempotent, and the identity on a log without a long step. |
| `Timeline.CollapseKeepsClaims` | packages/engine/src/analysis.ts:321-322 | Folding idle time changes only the times in the trace and no owner. |
| `Timeline.SittingIndicesLoop` | packages/engine/src/analysis.ts:298-309 | The loop numbers every event with its sitting. |
| `Timeline.SittingIndicesCount` | packages/engine/src/analysis.ts:289-309 | Numbers start at nought, step by one exactly at a long step, and end at the count less one. |
| `Timeline.LogTimesAgree` | apps/session/src/writer.ts:254-263 | The times read by sequence number are the analysis's ordered times. |
| `Timeline.SittingCountsAgree` | apps/session/src/actor.ts:1043-1094 | The sitting count frozen at completion is the one the analysis numbers. |
| `Moments.TraceBounds` | packages/engine/src/analysis.ts:339-351 | The loop finds the least and greatest time, or nothing for an empty trace. |
| `Moments.SeamInstants` | packages/engine/src/analysis.ts:379-391 | The seams are the active instants right after each long step. |
| `Moments.Cuts` | packages/engine/src/analysis.ts:401-411 | Each cut is the furthest seam so far, kept inside the axis; cuts never step back. |
| `Moments.Spans` | packages/engine/src/analysis.ts:413-420 | The spans tile the axis: start at nought, touch end to start, end at the duration. |
| `Moments.SittingsView` | packages/engine/src/analysis.ts:353-423 | For any timestamps: one span per sitting, tiling the active axis, and the wall span of the raw trace. |
| `Moments.BreakIsEarliestLongest` | packages/engine/src/analysis.ts:182-209 | The chosen break ends the longest step, the earliest on a tie, and there is none when every step goes backward. |
| `Moments.ScanLoop` | packages/engine/src/analysis.ts:180-209 | One pass finds the first, the last and the break. |
| `Moments.MomentsLoop` | packages/engine/src/analysis.ts:172-245 | The named moments of the trace, with the burst counted over the closed window after the break. |
| `Moments.MomentsAreInRange` | packages/engine/src/analysis.ts:215-244 | The first square falls at nought, the last at the extent; stall and break lie inside it and the burst counts the break. |
| `Moments.TurningPointExists` | packages/engine/src/analysis.ts:165-209 | There is a turning point iff some step does not go backward. |
| `Moments.TwoEntriesAndNoTurningPoint` | packages/engine/src/analysis.ts:180-209 | Two squares, the second claimed under a clock a second behind, have no turning point. |
| `Moments.SequenceIsTimed` | packages/engine/src/analysis.ts:247-259 | The replay starts at nought, never steps back and ends at the trace's extent. |
| `Ribbon.EveryTraceHasItsMoments` | packages/engine/src/analysis.ts:172-245 | First and last square are the earliest and latest fill by time and number; the turning point ends the earliest longest step, with its seconds, its place and the fills in the half minute from it, and there is none iff every step goes backward. |
| `Ribbon.EveryTraceIsReplayed` | packages/engine/src/analysis.ts:247-259 | The replay is the same fills in order of time and number, each at its seconds from the first. |
| `Ribbon.EveryViewSays` | packages/engine/src/analysis.ts:353-423 | The spans tile the axis from nought to the seconds between the least and the greatest time, one more than there are long steps, each ending at its furthest seam so far inside the axis. |
| `Tallies.Conserved` | packages/engine/src/titles.ts:424-478 | Counting per row and adding up counts every item once, provided everybody counted has a row. |
| `StatColumns.TallySolvers` | packages/engine/src/titles.ts:440-447 | The running tallies count the fills of a stretch per solver. |
| `StatColumns.ReplayWrites` | packages/engine/src/titles.ts:449-478 | The replay with a running board counts writes, wrong writes and destroyed right values of others, per writer. |
| `StatColumns.MarqueeMeans` | packages/engine/src/titles.ts:384-401 | A star anywhere decides alone; without one a slot is marquee iff it is long enough and outranked by one length at most. |
| `SlotScan.ScanSlot` | packages/engine/src/titles.ts:484-494 | The scan of a slot finds its first and last traced fill and each solver's share. |
| `SlotScan.FindLeader` | packages/engine/src/titles.ts:508-527 | The best-and-tied loop finds the one solver with strictly more than everybody else, or nobody. |
| `SlotScan.LeaderIs` | packages/engine/src/titles.ts:508-527 | A solver is reported as leader iff nobody else has as many. |
| `SlotScan.TallySlots` | packages/engine/src/titles.ts:480-528 | The slot loop counts starters, finishers, meddlers, touchers and marquee leaders. |
| `StatSheet.BurstLoop` | packages/engine/src/titles.ts:587-598 | The anchored scan computes the best window that opens on a fill. |
| `StatSheet.BurstIsTheMaximum` | packages/engine/src/titles.ts:587-598 | No closed window of that length, wherever it opens, holds more, and one reaches it. |
| `StatSheet.HomeLoop` | packages/engine/src/titles.ts:600-629 | The pass over a solver's fills counts the busiest quadrant and the distinct rows and columns. |
| `StatSheet.HomeIsAtLeastAQuarter` | packages/engine/src/titles.ts:617-629 | The home quadrant holds at least a quarter of the fills, rounded up, and at most all. |
| `StatSheet.BreakOwnerLoop` | packages/engine/src/titles.ts:539-556 | Looking the stall's seconds up again finds the very entry the moments chose. |
| `StatSheet.AttendanceIsWithinTheSittings` | packages/engine/src/titles.ts:558-575 | Who writes attends at least one sitting, and nobody more than were held. |
| `TitleStats.StatsLoop` | packages/engine/src/titles.ts:411-658 | A row for exactly the users who wrote, every column counting what it says, and the room header. |
| `SheetColumns.EverySheetSays` | packages/engine/src/titles.ts:411-658 | From any log: every column of the row of any user, and the header, is the number of fills, writes, slots or sittings one can point at, with what is counted over pinned to the log. |
| `SheetColumns.FillColumnsCount` | packages/engine/src/titles.ts:435-629 | Fills, the first and last fifth, the fullest half minute, the fullest quadrant, its share, and the distinct rows and columns, counted over the fills. |
| `SheetColumns.WriteColumnsCount` | packages/engine/src/titles.ts:449-478 | Writes, wrong writes, and writes that put a wrong value or none over a right one somebody else was first with, counted over the log. |
| `SheetColumns.SlotColumnsCount` | packages/engine/src/titles.ts:480-528 | Slots begun, finished, finished but not begun, touched, and marquee slots led, counted over the slots. |
| `SheetColumns.AttendanceCounts` | packages/engine/src/titles.ts:558-575 | Attendance counts the sittings a user wrote in, and the stall is broken by whoever filled its end. |
| `TitleStats.TheSheetConserves` | packages/engine/src/titles.ts:417-528 | Fills sum to the trace, writes to the log, opening and closing fills each to a fifth of the trace rounded up, starts and finishes each to the slots with a traced cell. |
| `TitleStats.MarksAreTheEnds` | packages/engine/src/titles.ts:582-652 | First and last fill are the solver's earliest and latest by time and number, and the span is the whole seconds between them. |
| `TitleStats.StretchesAreTheEnds` | packages/engine/src/titles.ts:435-447 | Opening and closing stretches are the first and last fifth of the trace in time order. |
| `TitleStats.RowRelations` | packages/engine/src/titles.ts:449-503 | An overwrite is a wrong write or a clear; a meddle is a finish, and any other finish is of a slot the same user started. |
| `TitleStats.RowBounds` | packages/engine/src/titles.ts:577-655 | Home quadrant, focus, burst and attendance stay in their bounds in every row. |
| `TitleStats.BreakOwnerIsTheMoment` | packages/engine/src/titles.ts:530-556 | A row broke the stall iff its user filled the earliest longest step of the folded trace. |
| `TitleStats.SheetIgnoresInputOrder` | packages/engine/src/titles.ts:408-421 | The order the events are given in never matters to the sheet. |
| `Awards.UniversalIsTotal` | packages/engine/src/titles.ts:666-683 | The universal tie-break is a strict total order on distinct users. |
| `Awards.RungIsTotal` | packages/engine/src/titles.ts:685-706 | So is every rung's order. |
| `Awards.WinnerLoop` | packages/engine/src/titles.ts:741-748 | The loop over the pool computes the rung's winner. |
| `Awards.WinnerIs` | packages/engine/src/titles.ts:741-749 | The winner is untitled, passes the gate and is ahead of every other such solver; there is none only if nobody is eligible. |
| `Awards.AwardTitles` | packages/engine/src/titles.ts:719-765 | The ladder walk computes the awards whose terms `Ladder.EveryTitleIsDeserved` states title by title. |
| `Awards.AwardsAreOrderly` | packages/engine/src/titles.ts:708-718 | No user and no title twice, ranks strictly increasing, and a room of one titles nobody. |
| `Awards.PoolOrderIsIrrelevant` | packages/engine/src/titles.ts:666-706 | The same solvers listed in any order get the same awards. |
| `Awards.EachAwardIsDeserved` | packages/engine/src/titles.ts:740-763 | Walking the ladder, each award goes to the untitled gate-passer ahead of all others at that rung, given who was titled before. |
| `Ladder.EveryTitleIsDeserved` | packages/engine/src/titles.ts:215-335 | Each of the sixteen titles, with its own threshold, column, tie rule and number on the card: awarded iff somebody without a higher one passes its gate, to the one ahead of all such others. |
| `Ladder.AheadIsRung` | packages/engine/src/titles.ts:671-706 | Ahead means more of the column the title claims, then more fills where they count, then the earlier first fill, any before none, then the smaller id; for the cameo the later first fill. |
| `Awards.FillersAreTitled` | packages/engine/src/titles.ts:208-214 | With two or more in the pool, at least six of those with a fill are titled, or all of them. |
| `PostGame.FillersAreTheSolvers` | packages/engine/src/titles.ts:428-433 | Those with a fill in the sheet are exactly the users in the trace. |
| `PostGame.SolversAreTitled` | packages/engine/src/titles.ts:719-765 | From any log with two writers: at least six of the solvers are titled, or all of them, whatever order the log came in. |
| `PostGame.OwnersAreTheFirstRight` | packages/engine/src/first-correct.ts:43-63 | In every reachable state the owner of a cell is the user of the first stored row that was right there. |
| `PostGame.EveryTitleGoesByTheSheet` | packages/engine/src/titles.ts:719-765 | From any log with two writers the pool is everybody who wrote, once each, under the columns of his row, and every title goes by them. |
| `Words.StepLaws` | packages/engine/src/navigation.ts:36-52 | A step along the line stays on the grid, moves the position by one and is undone by the step back. |
| `Words.WordBounds` | packages/engine/src/navigation.ts:58-76 | The two scans find the ends of the maximal run around the cell. |
| `Words.RunLaws` | packages/engine/src/navigation.ts:120-139 | Everything in a run is playable and shares its word's ends. |
| `Words.Clues` | packages/engine/src/navigation.ts:120-139 | The loop lists the words of an axis in order of their start. |
| `Words.WordsPartition` | packages/engine/src/navigation.ts:115-139 | On each axis every playable cell lies in exactly one clue, the one that starts where its word starts, and starts ascend. |
| `Words.ClueShape` | packages/engine/src/navigation.ts:115-139 | A clue's cells go by strides from its word's start to its end. |
| `Gridlines.WordIsSameWord` | packages/engine/src/navigation.ts:58-76 | The word the scans find around a cell is the cells of its line with no block between. |
| `Gridlines.EndsAreEnds` | packages/engine/src/navigation.ts:58-76 | The bounds the scans find are the first and the last of those cells. |
| `Gridlines.ClueIsItsWord` | packages/engine/src/navigation.ts:115-139 | A clue starts at the first cell of a word and holds exactly its cells. |
| `Cursor.FirstPlayable` | packages/engine/src/navigation.ts:24-29 | The smallest playable cell, or 0 on a grid with none. |
| `Cursor.GetNextCell` | packages/engine/src/navigation.ts:85-108 | The loop computes the step whose landing `Cursor.FreeStepLands`, `Gridlines.ConfinedStepLands` and `Gridlines.OffGridStepLands` state for every cell. |
| `Cursor.StepIsUndone` | packages/engine/src/navigation.ts:103-107 | A free step that moves is undone by the opposite step iff it did not start on a block. |
| `Cursor.FreeStepLands` | packages/engine/src/navigation.ts:103-107 | A free step goes to the nearest cell on the axis that is no block, everything before it being one, and stays exactly when every cell that way on the grid is a block. |
| `Cursor.ConfinedStep` | packages/engine/src/navigation.ts:97-101 | A confined step is the next cell of the word, or none at its end. |
| `Gridlines.ConfinedStepLands` | packages/engine/src/navigation.ts:97-101 | From any cell of the grid a confined step goes to the next cell of the line if it is on the line and no block, and stays otherwise. |
| `Gridlines.OffGridStepLands` | packages/engine/src/navigation.ts:92-93 | From off the grid any step goes to the first cell that is no block, or to 0. |
| `Cursor.TypingAdvance` | packages/engine/src/navigation.ts:218-235 | The two scans find the next gap onward, else the word's first gap, else its end. |
| `Cursor.TypingStaysInTheWord` | packages/engine/src/navigation.ts:212-235 | The cursor stays in its word, on an empty cell unless the word is full. |
| `Gridlines.TypingLands` | packages/engine/src/navigation.ts:212-235 | After a letter the cursor goes to the least gap of the word past it, else to its least gap, else to its last cell. |
| `Cursor.TypingFillsTheWord` | packages/engine/src/navigation.ts:212-235 | Typing on from an empty cell writes an empty cell every time until the word is full, and then the cursor rests on its last cell. |
| `Cursor.BackspaceStepsBack` | packages/engine/src/navigation.ts:237-250 | Backspace stays on a filled cell; on an empty one it goes to the nearest cell back on the axis that is no block, staying only if every cell that way is one, and a forward step returns. |
| `Tab.WrapGoesRound` | packages/engine/src/navigation.ts:197-197 | The double remainder on the scan's index goes round the cycle in either direction. |
| `Tab.CurrentIsFound` | packages/engine/src/navigation.ts:185-191 | From any playable cell the current clue is found in the cycle. |
| `Tab.NothingIsEmpty` | packages/engine/src/navigation.ts:194-205 | The scan comes up empty iff no clue of the cycle has an empty cell. |
| `Tab.TabTargetLoop` | packages/engine/src/navigation.ts:175-210 | The scan computes the landing cell and direction, with the clamps. |
| `Tab.TabLands` | packages/engine/src/navigation.ts:162-174 | With any playable cell empty, Tab lands on the first empty cell of the next incomplete clue in cyclic order; otherwise on the adjacent clue. |
| `Gridlines.TabGoesThere` | packages/engine/src/navigation.ts:162-210 | Going round the across clues and then the down clues from the one of the cursor, itself last: the first gap of the first clue met that has one; with nothing empty, the first cell of the first clue met, or its last going backward. |
| `Gridlines.TabFromNowhere` | packages/engine/src/navigation.ts:182-183 | From a block or off the grid, Tab goes to the first cell that is no block and keeps the axis. |
| `Tab.RepeatedTabVisitsAll` | packages/engine/src/navigation.ts:193-201 | Repeated Tab comes to every incomplete clue within one round. |
| `Tab.TabIsUndone` | packages/engine/src/navigation.ts:175-210 | Shift+Tab after Tab is back at the starting clue iff that clue was incomplete or nothing is empty. |
| `RateLimit.Limiter.Allow` | apps/session/src/server.ts:439-466 | Old times are cut from the front; the frame is let through iff fewer than the cap are left. |
| `RateLimit.NoWindowExceedsTheCap` | apps/session/src/server.ts:439-466 | For any clock that never goes back, no window of a second holds more accepted frames than the cap, and the kept list never exceeds it. |
| `RateLimit.PresenceIsCapped` | apps/session/src/server.ts:98-102 | In any second at most ten cursors and five reactions pass, each family on its own list. |
| `RateLimit.DroppedExactlyWhenFull` | apps/session/src/server.ts:439-466 | A frame is dropped iff the second up to and including it already holds the cap. |

## Left out

- Sockets, HTTP, the handshake and the rest of the session server; the wire decoders; the client
  store; the web interface and the extensions; token verification. None is part of this model.
- SQL and the driver: the store is an abstract atomic transaction. A transaction still in flight
  when its writer crashes is taken to have settled before the next actor reads the row.
- Presence (cursors, connect notices), push facts and analytics calls of the actor: never sequenced.
- Frames carry the event, its time and its deadline; the first-fill time that rides one cell frame
  and the display fields the wire adds to a frame are not modelled.
- Stored board shapes older than the check state, and the backfill of old statistics: one branch each.
- `apply` commands with a cell that is not an integer: the model's cells are integers, so the
  integer test always passes.
- The proposer is absent from an immediate check's event; it is written here as the empty id.
- Momentum samples and solo display copy: single-branch facts about the trace.
- Object key order of the stat sheet: rows are a map; `TitleStats.SheetIgnoresInputOrder` and
  `Awards.PoolOrderIsIrrelevant` show that nothing read from it depends on order.
- Words.WordBounds: it and what rests on it are stated for a cell on the grid, as every caller
  ensures; the two exported operations that clamp other cells are modelled with their clamps.
- Cursor.TypingAdvance: stated for a playable cell, the one the letter was just typed into.
- TitleStats.StatsLoop: stated for a grid of at least one column, as every stored puzzle has.
- JavaScript rounding, string collation beyond code units, and ISO date parsing.
- Exact timer timing, and liveness beyond the mailbox's: a timer that is due may fire at any moment
  or never, and none fires early.
- The order of an evicted actor's remaining tasks among themselves is left free, and a task that had
  begun when the eviction was marked counts as one still to run: nobody reads its memory any more.

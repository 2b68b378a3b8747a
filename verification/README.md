# Hollow agent kernel: a verified model

The repository is an operating system for language-model agents. Below the prompts and the HTTP calls lie
small kernels with real state: graphs walked recursively, a line wrapper that understands colour codes, a voting
protocol with a reaper, a goal loop with a staged transaction, a stall scheduler, stores whose parts must agree,
locks, checkpoints, a message bus and a batch queue. This project models fourteen of those kernels and proves what they keep.

Each module has the same shape. Functions over values say what one operation does to the state; a class with the
program's own fields does it step by step, and its methods are proved against the functions, loop by loop; where a
contract says less, "Left out" names it. Lemmas about the functions then give the properties: over every graph,
every text, every run, every interleaving.

| file | models |
|---|---|
| `Graphs.dfy`, `Lineage.dfy` | agents/lineage.py: call trees, blast radius, critical path, on graphs that may have cycles |
| `Thoughts.dfy`, `Wrapping.dfy` | thoughts.py: the colour-preserving line wrapper (control sequences as in section 5.4 of ECMA-48, SGR as in section 8.3.117): its scanners and when its loop ends, and the lines it makes |
| `Consensus.dfy` | agents/consensus.py: proposals, votes, withdrawal, the expiry reaper, events emitted outside the lock |
| `AutonomyLoop.dfy` | agents/autonomy_loop.py: the progress meter, the bounded plan loop, its transaction, validation strikes |
| `Daemon.dfy` | agents/daemon.py: the stall scheduler, as written and repaired |
| `Lessons.dfy` | agents/lessons.py: near-duplicate merging, the three trimming passes, promotion, the per-agent lock |
| `CapabilityGraph.dfy` | agents/capability_graph.py: registry, index and embedding rows; ranked search |
| `ResourceManager.dfy` | agents/resource_manager.py: pruning of semantic memory |
| `Registry.dfy` | registry_backup.py: named locks with expiry, spawn depth, orphan adoption, lineage |
| `Checkpoint.dfy` | agents/checkpoint.py: save, restore and diff against registry, heap and bus |
| `Bus.dfy`, `BusRuns.dfy` | agents/bus.py: queues of shared message objects, read flags, expiry, broadcast, reload; and its runs from any loaded bus |
| `BatchLlm.dfy` | agents/batch_llm.py: submitting threads, one worker, futures |
| `AgentQuorum.dfy`, `CapabilityQuorum.dfy` | agents/agent_quorum.py and agents/capability_quorum.py: the proposal log with its row index, and a round of votes |
| `Sorting.dfy`, `Sequences.dfy`, `Wrappers.dfy` | stable sorting as Python's `sort` does it, sequences without repeats, and `Option` |

## What the code does not do

Some properties one would expect are false of the code. Each is stated with the condition under which it holds and
with inputs for which it fails; the code is modelled as it is.

- **The daemon never returns some agents to rotation.** Release clears only the no-progress count, but the goal-age
  rule and the four-equal-capabilities rule are cleared only by an outcome, which needs a run. `StuckForever` proves
  that such an agent never runs again; `ReleasedRunsIffNotStuck` gives the exact condition, `OneGoalEightCycles` the
  family of runs that reach it, and `AgeIsReached` and `RepetitionIsReached` one run from the start for each rule. The
  `Repaired…` lemmas show that clearing the two maps on skipping is enough: `k` cooling agents are released within
  ten cycles for every two of them, with nothing held against them (`RepairedReleasesInTime`), and run again.
- **Recording a lesson blocks itself whenever it promotes.** The recording holds the agent's lock, which is not
  re-entrant, and promotion calls the compaction, which takes it again. `BlocksIffRipe` gives the condition in terms of
  the store before the call, `FirstHighRecordingBlocks` a family of inputs that meet it in an empty store, and
  `LockedForEver` says what follows: a store that starts empty never holds more than one lesson (`OneLessonAtMost`).
  `RecordCandidateRepaired` compacts under the lock already held, and promotes under the same condition.
- **Participants listed twice can leave a proposal pending with all votes in.** `AlwaysDecidedIffDistinct`,
  `Undecided`; and in the quorum round `RepeatedNameStaysPending`, with the exact count in `DecidedIff`.
- **A new plan can lose its first steps.** A plan made after a failed step takes the place of the slots from the
  current turn on; when the plan before it had run out, it is appended there instead, behind the index, and loses one
  step for every turn spent beyond the end. `ReplanStarts` says at which step a new plan starts, whatever the call was
  given; `NewStepIsLost` gives a call whose one new step is never planned.
- **Finishing a goal does not clear the count of cycles without progress**: `CountIsIdleOutcomes` gives the count for
  every sequence of outcomes, and finished goals neither add to it nor clear it.
- **The critical path is the longest chain only where no dependency cycle can be entered**
  (`CriticalPathIsLongestIffAcyclic`); otherwise it is the longest chain that repeats no task before its last.
- **The descendant count counts paths, not agents** (`CountIsNumberOfPaths`, `CountIsAgentsIffSinglePaths`), and the
  list of affected agents repeats an agent once for each path.
- **A transaction can outlive its goal call.** It is neither committed nor rolled back exactly when the goal is full
  when the call starts and no turn gets to a completion check, because every planned tool is passed over or the goal
  is gone (`LeftOpen`, which `PursueGoal` is proved to decide). A plan of tools known to be broken does it, and so
  does a call without steps (`BrokenPlanLeavesOpen`); a call resolves its transaction whatever it is given if and
  only if the goal is not full (`AlwaysResolvedIffNotFull`).
- **The wrapper's loop can run for ever.** A colour code with a parameter that the stripping pattern does not know is
  skipped as a code, counted as text, and carried to the next line whole. The loop ends exactly when what remains
  fits at some turn up to the first that finds fewer glyphs than its limit, or the codes carried from that turn fit
  the width of a continuation (`LoopEndsIff`). It ends at every width if and only if every incomplete colour code is
  followed by a reset and another colour, the colour before the reset or with codes alone between the two
  (`EndsAtEveryWidthIff`); so complete colour codes are enough, whatever other escapes there are
  (`CompleteColorsEnd`), and on a line without resets they are needed (`ResetFreeIff`). A malformed code alone is the simplest line that fails,
  at the widths too narrow to show it whole (`MalformedAloneEndsIff`).
- **A broadcast appends one shared object to every queue**, so at most one agent gets it as unread
  (`BroadcastReachesOneAtMost`): without a reload it can reach everybody exactly when there is at most one queue
  (`BroadcastReachesAllIff`), and one agent's receive leaves another's alone exactly when the two would get no object
  in common (`ReceivesIndependentIff`). A reload makes separate objects, after which every agent is owed a copy of its
  own (`LoadQueues`, `ReloadSeparates`, `UnreadIsOwed`, `ReloadRestoresOrder`). The comment in agents/bus.py promises
  each queue a copy; the model follows the code.
- **A restore writes saved locks back unchecked.** The lock invariant survives it exactly when no other agent holds a
  saved name (`RestoreKeepsExclusiveIff`); `RestoreCanShareALock` gives the run that ends with two holders. The
  inbox does not come back either: the agent finds what the save found exactly when that was nothing
  (`InboxIsNotRestored`), and over no run does it find any of it again (`InboxNeverComesBack`).
- **Finalising and withdrawing a quorum proposal check and write in two lock sections**, so a proposal can be approved
  and then withdrawn (`RaceLeavesPendingTwice`). A decided status can still change exactly when a check of the proposal
  is waiting to write another one (`DecidedCanChangeIff`); without rival checks it is decided once
  (`UnrivalledDecidesOnce`).
  A vote is accepted at any time. `LateVoteKeepsIff` says when one more vote leaves a decision borne out by the votes.
  Over runs a contradiction can be reached for an approval exactly when the percentage is positive, and for a rejection
  exactly when it is at most a hundred (`LateVotesCanContradict`): at every percentage from one to a hundred both can.
- **A batch run that returns fewer results than prompts leaves the rest of the batch without an outcome for ever**
  (`AnsweredIffResult` with `SettledOnce`).

## Model

| member | source | states |
|---|---|---|
| Graphs.Shorten | agents/lineage.py:121-157 | cutting the loops out of any walk leaves one with the same ends that repeats no node before its last |
| Graphs.Pump | agents/lineage.py:196-225 | once a cycle can be entered there are walks of every length, so no path can be longest |
| Lineage.PathsAreWalks | agents/lineage.py:121-149 | the node paths of the call tree are exactly the walks that repeat no node before their last, on every edge set |
| Lineage.AffectedAreReachable | agents/lineage.py:151-157 | the affected agents are exactly those reachable over one or more edges, cycles included, although `visited` is local to a path |
| Lineage.CountIsNumberOfPaths | agents/lineage.py:237-249 | the descendant count and the length of the affected list are the number of distinct node paths |
| Lineage.PathsFollowNodes | agents/lineage.py:237-249 | the collected agents are the ends of the node paths, in the same order |
| Lineage.AcyclicCountsEveryWalk | agents/lineage.py:237-249 | without cycles every walk from the root is one of the counted paths |
| Lineage.CountIsAgentsIffSinglePaths | agents/lineage.py:237-249 | the count equals the number of distinct affected agents if and only if each has a single path |
| Lineage.ForwardEdges | agents/lineage.py:196-210 | the forward map relates a task to exactly the tasks that name it as a dependency |
| Lineage.LongestIsWalk | agents/lineage.py:211-225 | what the recursion returns is a real dependency chain that avoids `visited` before its last task |
| Lineage.LongestIsMaximal | agents/lineage.py:211-225 | no such chain from the same task is longer |
| Lineage.CriticalPathIsLongestSimple | agents/lineage.py:196-225 | on every task graph, cyclic or not, the critical path starts at the task, is a chain, and is longest among chains that repeat no task before their last |
| Lineage.CriticalPathIsLongestIffAcyclic | agents/lineage.py:196-225 | it is longest among all chains if and only if no cycle can be entered from the task |
| Lineage.AncestorChainUnique | agents/lineage.py:102-119 | the specification of a lineage (linked by parents, no repeats, cannot go on) has one solution only |
| Lineage.LineageGraph.RecordEdge | agents/lineage.py:80-100 | edges are appended, none lost |
| Lineage.LineageGraph.GetLineage | agents/lineage.py:102-119 | the loop returns the ancestor chain; without a registry nothing |
| Lineage.LineageGraph.BuildNode | agents/lineage.py:129-149 | the recursion over the edges terminates on every graph and builds the call tree |
| Lineage.LineageGraph.GetSubtree | agents/lineage.py:121-149 | the annotated tree with its descendant count |
| Lineage.LineageGraph.GetBlastRadius | agents/lineage.py:151-194 | the list holds exactly the reachable agents, and the count is its length |
| Lineage.LineageGraph.CountDescendants | agents/lineage.py:237-241 | the count that the path lemmas are about |
| Lineage.LineageGraph.CollectDescendants | agents/lineage.py:244-249 | the list that the reachability lemma is about |
| Lineage.LineageGraph.BuildForward | agents/lineage.py:200-210 | the loop over tasks and their dependencies builds the forward map |
| Lineage.LineageGraph.LongestPath | agents/lineage.py:211-223 | the recursion terminates, measured by the tasks not yet visited, and returns the longest chain |
| Lineage.LineageGraph.CriticalPath | agents/lineage.py:196-225 | the critical path; the task alone without a scheduler |
| Thoughts.TextOfTokens | thoughts.py:39-40 | reading a text as codes and glyphs and writing them out again gives the text |
| Thoughts.TokensOfText | thoughts.py:109-120 | writing codes and glyphs out and reading them again gives the same ones, when the codes are whole |
| Thoughts.VisibleIsGlyphs | thoughts.py:39-40 | on lines whose escapes are colour codes, stripping by pattern and skipping by scanner see the same visible text |
| Thoughts.VisibleBounds | thoughts.py:39-40 | on every line the measured width is at least the number of glyphs, and at least two when there is an escape that the pattern does not strip |
| Thoughts.ActiveSinceReset | thoughts.py:46-64 | the active colours are those after the last reset, or all if there was none |
| Thoughts.DominantSpec | thoughts.py:67-85 | the dominant colour is the last one set, and empty only if none is |
| Thoughts.CarryEmptyIffColourless | thoughts.py:143-147 | a continuation starts uncoloured only if nothing in the line sets a colour |
| Thoughts.SplitAt | thoughts.py:109-128 | a line with fewer glyphs than the limit is not split; otherwise the split is at the limit or at the last blank before it, blanks after the cut are dropped, and codes stay whole |
| Thoughts.CutWidth | thoughts.py:109-128 | what is cut off is at most as wide as the limit, and not empty unless a blank follows |
| Thoughts.ActiveColor | thoughts.py:46-64 | the scanner finds exactly the colour codes in force at the end |
| Thoughts.DominantColor | thoughts.py:67-85 | the scanner finds exactly the last colour code |
| Wrapping.CarryOver | thoughts.py:147 | the first of the three fallbacks that is not empty |
| Thoughts.TurnFacts | thoughts.py:136-152 | on every line a turn keeps within its limit, loses nothing but blanks and colour codes, and leaves nothing but codes and text of the line; a cut leaves fewer glyphs |
| Thoughts.PartsUnique | thoughts.py:109-128 | where a remainder is cut is determined, so the loop has one course |
| Thoughts.GlyphsFall | thoughts.py:136-152 | every turn that finds as many glyphs as its limit leaves fewer, although the carry is put back in front |
| Thoughts.AfterShortTurn | thoughts.py:136-152 | from the first turn that finds fewer on, the carry is all that remains, and it stays the same |
| Thoughts.LoopEndsIff | thoughts.py:136-152 | on every line and at every width the loop ends if and only if what remains fits by then, or that carry fits the width of a continuation |
| Thoughts.CompleteColorsEnd | thoughts.py:136-152 | it ends at every width when every colour code is complete, whatever other escapes the line has |
| Thoughts.RelievedEnds | thoughts.py:136-152 | the loop ends at every width when each incomplete colour code is followed by a reset and another colour, the colour before the reset or with codes alone between the two |
| Thoughts.EndsAtEveryWidthIff | thoughts.py:136-152 | on every line it ends at every width if and only if that is so; otherwise it never ends at width one |
| Thoughts.ResetFreeIff | thoughts.py:136-152 | on a line without resets that is so if and only if every colour code is complete |
| Wrapping.TurnsAreRight | thoughts.py:136-152 | on every line, at every width and at every turn, the piece put on the line is the codes carried to it and then exactly the tokens of the line from one position to another, blanks included; the second is where the limit cuts, and only blanks lie between it and the first position of the next turn |
| Wrapping.WrapLines | thoughts.py:130-153 | the loop itself, on every line on which it ends: line by line it puts out the indent and the piece that its turn cuts off, as long as the remainder is too wide, and last the remainder; every line has at most as many glyphs as the width, and all but blanks and colour codes comes out once and in order |
| Wrapping.AllAreLaidOut | thoughts.py:130-153 | such lines are the pieces that `TurnsAreRight` describes |
| Wrapping.LinesOfJoined | thoughts.py:153 | the joined text, read as lines again, is those lines, when no line end is within one |
| Wrapping.GoodLinesFit | thoughts.py:88-153 | where all escapes are complete colour codes, those lines measure at most the width |
| Thoughts.ShownIsSolid | thoughts.py:39-40 | where colour codes are complete, what the stripping pattern leaves visible is the same for lines that differ in blanks and colour codes alone, whatever other escapes they have, broken-off ones included |
| Wrapping.WrappedShown | thoughts.py:88-153 | joined, with the resets and line ends put in, such lines show what the whole line shows |
| Wrapping.Wrap | thoughts.py:88-153 | for every line on which the loop ends: returned as it is if it fits, otherwise the joined lines of its turns, each the indent and a stretch of the line as `TurnsAreRight` describes it; where colour codes are complete no visible non-blank character is lost, added or moved |
| Thoughts.IndentIs | thoughts.py:103-106 | a continuation is indented by half the width, and by thirty at most |
| Thoughts.MalformedAloneEndsIff | thoughts.py:136-152 | on a malformed code alone the loop ends if and only if the width shows it whole |
| Thoughts.MalformedCodeExists | thoughts.py:136-152 | there is such a code, eight characters wide |
| Consensus.VoteAllDecides | agents/consensus.py:197-225 | after any votes of distinct participants the stored status and votes are the ones the tally decides |
| Consensus.EarlyDecisionIsExact | agents/consensus.py:197-225 | with everybody heard a proposal is accepted if and only if the accepts reach the requirement, in whatever order they voted |
| Consensus.PendingIffBothPossible | agents/consensus.py:197-225 | it is pending exactly while the remaining votes can still end it either way |
| Consensus.AlwaysDecidedIffDistinct | agents/consensus.py:116-118 | a full round decides, whatever the votes, if and only if no participant is listed twice |
| Consensus.Undecided | agents/consensus.py:116-118 | with a repeated participant there are votes that leave the proposal pending with everybody heard |
| Consensus.StepKeepsSound | agents/consensus.py:173-257 | every step of a vote, a withdrawal or the reaper keeps votes within the participants and a status that its votes bear out |
| Consensus.ResolvedIsFinal | agents/consensus.py:173-257 | no step changes a resolved proposal, and none removes one |
| Consensus.StepPays | agents/consensus.py:218-257 | what a step puts in the outbox resolves exactly what it newly owes |
| Consensus.StepMatches | agents/consensus.py:218-257 | every event, waiting or emitted, agrees with the stored status |
| Consensus.StepKeepsInv | agents/consensus.py:362-392 | every step of every thread, the reaper's stale reads included, keeps the whole invariant |
| Consensus.RunKeepsInv | agents/consensus.py:362-392 | so does every interleaving |
| Consensus.ResolvedForever | agents/consensus.py:173-257 | after it leaves pending a proposal's status, votes and result never change |
| Consensus.Stored | agents/consensus.py:116-135 | over every run a stored proposal is the one of the step that proposed it, with its proposer, participants and expiry, and requires what that step asked for, brought between one and the number of participants |
| Consensus.VotesWereCast | agents/consensus.py:197-201 | over every run each vote that a proposal holds was cast by that voter in a step, with that reason and at that time, no later than the expiry |
| Consensus.AcceptedIsEarned | agents/consensus.py:116-225 | over every run accepted means that, of the participants of the step that proposed it, as many as it asked for, or all if it asked for more, and one at least, voted to accept in later steps by the expiry |
| Consensus.RunKeepsTimely | agents/consensus.py:362-392 | over every run what the reaper has read and noted is not ahead of the clock, and what it marked had expired |
| Consensus.TooLateWasLate | agents/consensus.py:189-195 | over every run a proposal marked by a late vote had such a vote, after its expiry |
| Consensus.ExpiredIsLate | agents/consensus.py:189-195 | over every run expired means that a vote came after the expiry, or that the reaper read a time past it |
| Consensus.OneResolutionEvent | agents/consensus.py:187-257 | over every run at most one resolution event, and none exactly when pending or when a late vote marked the expiry |
| Consensus.ConsensusManager.Submit | agents/consensus.py:100-159 | the stored proposal field by field, pending, without votes, requiring what was asked for if that is from one to the number of participants, else the nearer of the two; its events in order; nothing without participants |
| Consensus.ConsensusManager.CastBallot | agents/consensus.py:161-269 | the locked section: which error, and what it leaves; otherwise the vote stored, its events, and the tally returned |
| Consensus.ConsensusManager.WithdrawProposal | agents/consensus.py:303-334 | only the proposer, only while pending; that proposal alone becomes rejected, with its event |
| Consensus.ConsensusManager.ExpireStale | agents/consensus.py:362-392 | a pass alone expires exactly the listed proposals that are pending and past their expiry, changes nothing else, and queues one event for each in the order of the list |
| AutonomyLoop.SteppedStaysMetered | agents/autonomy_loop.py:715-742 | over every run of steps progress stays in 0..1 and beyond 0.90 only with output |
| AutonomyLoop.StepsBoundProgress | agents/autonomy_loop.py:715-742 | n steps add at most 0.20 n |
| AutonomyLoop.FiveStepsNeeded | agents/autonomy_loop.py:715-742 | no new goal is full in fewer than five steps |
| AutonomyLoop.FiveStepsSuffice | agents/autonomy_loop.py:715-742 | some five steps fill it |
| AutonomyLoop.GateHolds | agents/autonomy_loop.py:715-742 | without a successful output step the meter never passes 0.90 |
| AutonomyLoop.MeterIsSum | agents/autonomy_loop.py:715-742 | below the gate the meter rises by exactly 0.20 for each success of an output capability, 0.10 for each of another one, and 0.02 for each that repeats the capability before it |
| AutonomyLoop.CourseIsUnique | agents/autonomy_loop.py:787-1126 | the plan, the broken tools and the turns determine what every turn of a call executes, how many steps it takes and how it ends |
| AutonomyLoop.GaveUpIff | agents/autonomy_loop.py:918-958 | a call gives up if and only if its last step fails and is at least the fourth failed step or unregistered tool that no success with a result comes after; no step before it is one |
| AutonomyLoop.TurnsExecutePlanned | agents/autonomy_loop.py:620-633 | every turn executes the capability planned for it, or the reasoned one where none is planned, with the success of that turn, and nothing where that one is passed over, rejected or missing |
| AutonomyLoop.ExecOfTurn | agents/autonomy_loop.py:866-916 | the executed steps of a call are those of its turns, in their order |
| AutonomyLoop.PlannedAt | agents/autonomy_loop.py:866-917 | what is planned for a turn: by the first plan its own slot, by a new plan the slot counted from the turn it was made at, less those it lost |
| AutonomyLoop.ReplanStarts | agents/autonomy_loop.py:974-1007 | a new plan starts with its first step if the plan before had not run out, and otherwise later by the number of turns spent beyond its end |
| AutonomyLoop.NewStepIsLost | agents/autonomy_loop.py:974-1007 | a plan of one step followed by a new one of one step, which is never planned |
| AutonomyLoop.BlacklistedIff | agents/autonomy_loop.py:875-960 | a tool is passed over at a turn if and only if it was broken before the call, or a turn found it unregistered, returning nothing again or failed for the third time |
| AutonomyLoop.CourseIsCall | agents/autonomy_loop.py:787-1126 | the goal after a course is what its executed steps and its ending make of it |
| AutonomyLoop.OpenIff | agents/autonomy_loop.py:866-900 | a course runs out on a full goal if and only if the goal was full at the start and no turn gets to a completion check |
| AutonomyLoop.Pursuit.ExecuteStep | agents/autonomy_loop.py:600-785 | executes the planned capability, the reasoned one where none is planned, and nothing without a goal, on a rejected command or without either; the goal moves exactly by it |
| AutonomyLoop.Pursuit.Check | agents/autonomy_loop.py:1018-1124 | a full goal is committed, validated once, and completed, struck or struck out; any other is left alone |
| AutonomyLoop.Pursuit.Blacklist | agents/autonomy_loop.py:933-965 | exactly the tools that keep returning nothing or failed three times join the list |
| AutonomyLoop.Pursuit.SkipUnusable | agents/autonomy_loop.py:875-900 | blacklisted and unknown capabilities use up their turn without executing |
| AutonomyLoop.Pursuit.Recover | agents/autonomy_loop.py:925-1016 | how failures are counted, which tools are blacklisted and when the plan is replaced |
| AutonomyLoop.Pursuit.Judge | agents/autonomy_loop.py:941-958 | after a step: four failures in a row abandon and roll back, otherwise a full goal ends the call, and any other goes on |
| AutonomyLoop.Pursuit.TakeTurn | agents/autonomy_loop.py:866-1124 | one turn of the loop executes what its plan says, leaves the next plan, and ends the call exactly when it gives up, fills the goal or finds none, with the transaction resolved in the first two cases |
| AutonomyLoop.Pursuit.PursueGoal | agents/autonomy_loop.py:787-1126 | the loop takes the one course that its arguments determine, so the lemmas on courses hold of it; one validation at most; a transaction begun is resolved once, and left open exactly in the case that `LeftOpen` states of the arguments; the progress reported is that of a goal still active, full for a completed one and zero for an abandoned one |
| AutonomyLoop.BrokenPlanLeavesOpen | agents/autonomy_loop.py:875-890 | a full goal and a plan wholly of tools known to be broken, or no steps, leave it open |
| AutonomyLoop.AlwaysResolvedIffNotFull | agents/autonomy_loop.py:840-866 | a transaction is resolved whatever the plan, the tools and the turns if and only if the goal is not full at the start |
| AutonomyLoop.CommitIffReached | agents/autonomy_loop.py:840-866 | the transaction is committed if and only if the goal became full during the call |
| AutonomyLoop.CallKeepsSound | agents/autonomy_loop.py:1055-1113 | a call keeps the meter, adds one strike exactly on a failed validation, and an active goal is below 1.0 again |
| AutonomyLoop.FailedValidationClosesTheGate | agents/autonomy_loop.py:1055-1113 | after a failed validation the goal is at 0.85 with the gate closed, and only a successful output step fills it again |
| AutonomyLoop.CallsStaySound | agents/autonomy_loop.py:1055-1113 | so over every run of calls: fewer than five strikes while active, the fifth abandons |
| Daemon.RunsIff | agents/daemon.py:2362-2390 | an agent runs if and only if it has a goal, is not cooling and no stall rule holds |
| Daemon.StuckStays | agents/daemon.py:448-492 | the goal-age rule and the equal-capabilities rule hold again after every cycle in which they held |
| Daemon.StuckForever | agents/daemon.py:2556-2564 | an agent they hold of never runs again, in any run, release or not |
| Daemon.ReleasedRunsIffNotStuck | agents/daemon.py:2556-2564 | an agent just released runs in its next cycle with a goal if and only if neither rule holds |
| Daemon.OneGoalEightCycles | agents/daemon.py:487-491 | eight cycles on one unfinished goal make an agent stuck, whatever progress it makes |
| Daemon.AgeIsReached | agents/daemon.py:487-491 | a run from the start in which the agent runs and makes progress in each of eight cycles, and which ends stuck by age |
| Daemon.RepetitionIsReached | agents/daemon.py:480-485 | a run from the start in which the agent runs and makes progress in each of four cycles, and which ends stuck by repetition |
| Daemon.NoProgressIsReached | agents/daemon.py:470-479 | from the start an agent that makes no progress runs in each of five cycles and is skipped in the sixth, by that rule alone |
| Daemon.CountIsIdleOutcomes | agents/daemon.py:448-474 | over every sequence of outcomes the count of an agent is the number of its errors and outcomes without progress since its last progress, added to what it was if there was none |
| Daemon.CountOverRun | agents/daemon.py:2362-2564 | over every run in which an agent is neither skipped nor released, its count is that of its outcomes |
| Daemon.NoProgressRule | agents/daemon.py:470-479 | so over every such run, whatever happens to others, and the agent is stalled once there are five |
| Daemon.SkippedIsZero | agents/daemon.py:2369-2390 | an agent skipped for a stall begins to cool with a count of zero |
| Daemon.HistoryIsLastFive | agents/daemon.py:456-468 | while an agent keeps to one unfinished goal its history is the last five capabilities named in its outcomes |
| Daemon.RepetitionRule | agents/daemon.py:480-485 | so the repetition rule holds if and only if at least four were named and the last four are the same |
| Daemon.CountersTell | agents/daemon.py:450-454 | the counters of goals finished and of errors grow by exactly the outcomes of that kind |
| Daemon.AllReleasedInTime | agents/daemon.py:2556-2564 | while nobody is skipped anew, k cooling agents are all released within ten cycles for every two of them |
| Daemon.RepairedKeepsCooling | agents/daemon.py:2369-2390 | with the maps cleared on skipping, whatever cools has nothing held against it |
| Daemon.RepairedRunKeepsCooling | agents/daemon.py:2369-2390 | so over every run from the start |
| Daemon.ReleasedIsCleared | agents/daemon.py:2556-2564 | repaired, an agent leaves the cooling set clear |
| Daemon.RepairedReturns | agents/daemon.py:2556-2564 | repaired, a clear agent runs in the first cycle that finds it a goal, however long it waited |
| Daemon.RepairedReleasesInTime | agents/daemon.py:2556-2564 | repaired, each of them leaves within that time with nothing held against it |
| Daemon.DaemonMetrics.RecordOutcome | agents/daemon.py:448-474 | each counter and map afterwards, for a finished goal, for an outcome with progress and for one without, on a new goal and on the same one |
| Daemon.DaemonMetrics.SelectRunnable | agents/daemon.py:2362-2390 | the split into agents that run and agents that newly cool |
| Daemon.DaemonMetrics.CollectOutcomes | agents/daemon.py:2531-2537 | outcomes in the order of arrival, errors counted towards a stall |
| Daemon.DaemonMetrics.Drain | agents/daemon.py:2556-2564 | every tenth cycle the agents picked leave the cooling set with a count of zero, and nothing else changes |
| Daemon.DaemonMetrics.RunCycle | agents/daemon.py:2362-2564 | the whole cycle is the function that the run lemmas are about |
| Lessons.SimilarIsSymmetric | agents/lessons.py:187-249 | similarity does not depend on the order of its texts |
| Lessons.SimilarToItself | agents/lessons.py:187-249 | a text is similar to itself unless it has neither family nor content word |
| Lessons.SimilarIsNotTransitive | agents/lessons.py:179-248 | chains of similar texts do not close: three texts of plain words fail under every reading that, as the code does with them, splits them into those words and finds no family |
| Lessons.DedupePreservesEvidence | agents/lessons.py:377-402 | merging loses no evidence |
| Lessons.DedupeFacts | agents/lessons.py:377-402 | the merged bucket is pairwise dissimilar, newest first, made of old entries, and every old entry has a kept one that is similar and at least as recent |
| Lessons.TrimmedFacts | agents/lessons.py:403-410 | at most fifteen entries, still dissimilar |
| Lessons.TrimDropsOldest | agents/lessons.py:403-410 | what is dropped is no newer than anything kept, and fifteen stay if there were more |
| Lessons.DropOldestFacts | agents/lessons.py:411-428 | the byte pass drops a front of the time-sorted list, and no longer one than needed |
| Lessons.ByteTrimmedBucket | agents/lessons.py:411-428 | each category keeps its most recent part |
| Lessons.ByteTrimmedFits | agents/lessons.py:411-428 | the serialised categories fit the limit afterwards |
| Lessons.ByteTrimDropsOldest | agents/lessons.py:411-428 | no dropped entry, of whatever category, is newer than a kept one |
| Lessons.CompactedFacts | agents/lessons.py:365-430 | after compaction every category is pairwise dissimilar with at most fifteen entries, and all fit the limit |
| Lessons.NotedIsSound | agents/lessons.py:273-320 | recording keeps candidates pairwise dissimilar with distinct, counted evidence |
| Lessons.PromotionIsEarned | agents/lessons.py:320-362 | in a sound store promotion needs two distinct pieces of evidence or high confidence, and leaves the lessons pairwise dissimilar |
| Lessons.RemoveIsSound | agents/lessons.py:320-342 | dropping a candidate keeps the others sound |
| Lessons.StepKeepsSound | agents/lessons.py:254-430 | every call keeps the store sound, the one that ends blocked included |
| Lessons.RunKeepsSound | agents/lessons.py:254-430 | so over every run from the empty store, as written and repaired |
| Lessons.RunIsBacked | agents/lessons.py:273-320 | over every run all evidence of a candidate was recorded in its category for its very text or a similar one, its first date is that of a recording of its text and its last one that of a recording of its text or a similar one, and high confidence comes from two pieces or from a recording of its very text with high confidence |
| Lessons.NotedNotes | agents/lessons.py:284-318 | the first similar candidate keeps its text and first date and takes the new date and the evidence, the newest ten; otherwise a candidate of the recorded text is added |
| Lessons.PromotionsAreEarned | agents/lessons.py:320-362 | over every run whatever becomes a lesson was earned by recordings of its text or similar ones with two different pieces of evidence, or by one of its very text with high confidence, and is dissimilar to the other lessons |
| Lessons.PromotionStores | agents/lessons.py:345-362 | over every run a promotion stores the text of the candidate, the date of a recording of that text, the date of this recording and the number of its pieces of evidence; as written the candidate stays, repaired it leaves |
| Lessons.KnownLeaves | agents/lessons.py:301-319 | recording what a lesson says already changes no lesson and takes the first similar candidate out |
| Lessons.BlocksIffRipe | agents/lessons.py:254-342 | in every store, a recording that is not refused blocks if and only if the lock is taken or, before the call, no lesson is similar to the text and either the text is new, of high confidence and similar to itself, or its first similar candidate repeats no lesson and has high confidence or, with this evidence, two pieces; repaired it promotes under that condition |
| Lessons.OneLessonAtMost | agents/lessons.py:345-386 | as written, over every run from the empty store, there is no lesson while the lock is free and exactly one once it is taken for ever |
| Lessons.LockedForEver | agents/lessons.py:345-377 | after that no run changes the store |
| Lessons.FirstHighRecordingBlocks | agents/lessons.py:273-377 | in an empty store the first recording with high confidence blocks, for every text with a family or a content word |
| Lessons.SomeTextIsValid | agents/lessons.py:109-122 | there is a text that is not refused |
| Lessons.LessonsStore.FindSimilar | agents/lessons.py:241-249 | the first similar entry, or none if there is none |
| Lessons.LessonsStore.DedupeBucket | agents/lessons.py:377-402 | the loop over a bucket with merging in place |
| Lessons.LessonsStore.TrimBytes | agents/lessons.py:411-428 | the loop that drops the oldest entry until the rest fits |
| Lessons.LessonsStore.CompactBody | agents/lessons.py:377-430 | the three passes in their order |
| Lessons.LessonsStore.Compact | agents/lessons.py:365-430 | takes the lock itself, so it blocks when the caller holds it |
| Lessons.LessonsStore.Note | agents/lessons.py:273-320 | a similar candidate absorbs the observation, otherwise a new one is added |
| Lessons.LessonsStore.RecordCandidate | agents/lessons.py:254-342 | which inputs are refused, what each verdict answers and changes, and that promotion ends blocked with the lock held; a sound store stays sound |
| Lessons.LessonsStore.RecordCandidateRepaired | agents/lessons.py:254-362 | compacting under the lock already held, the call always returns, and promotion moves the candidate over |
| CapabilityGraph.RegisteredKeepsValid | agents/capability_graph.py:140-183 | registering with or without an embedding keeps registry, index and rows in agreement |
| CapabilityGraph.UsedFacts | agents/capability_graph.py:352-375 | using a capability changes its own record only |
| CapabilityGraph.RunKeepsValid | agents/capability_graph.py:140-183 | over every run of registering and using, the ids agree, once each, and the rows in use are one to one with the embedding rows |
| CapabilityGraph.RegisteredIsKept | agents/capability_graph.py:135-183 | over every run what the first registration of an id brought is there at the end: its description with the uses counted since, and its embedding in the row that the index names, or no row if it came without one |
| CapabilityGraph.HitsFacts | agents/capability_graph.py:194-215 | the hits are exactly the rows at or above the threshold |
| CapabilityGraph.BestFacts | agents/capability_graph.py:215-238 | the best hits are genuine, ranked, as many as asked for if there are that many, and beat all others |
| CapabilityGraph.OwnerIsUnique | agents/capability_graph.py:215-238 | a row belongs to one record |
| CapabilityGraph.CapabilityGraph.Register | agents/capability_graph.py:140-183 | a known id is left alone; a new one enters all three files together |
| CapabilityGraph.CapabilityGraph.Get | agents/capability_graph.py:310-333 | finds the record exactly when the id is indexed |
| CapabilityGraph.CapabilityGraph.UpdateUsage | agents/capability_graph.py:352-375 | counts one use in one record, everything else unchanged |
| CapabilityGraph.CapabilityGraph.Find | agents/capability_graph.py:185-238 | the best hits, each with the record that owns its row |
| ResourceManager.KeptAreTheBest | agents/resource_manager.py:116-142 | exactly the limit is kept, in old order, and each kept line beats every dropped one |
| ResourceManager.BeatsIff | agents/resource_manager.py:126-141 | a dated memory beats another exactly when it counts for more days: its date, twenty for each access, two hundred for a completed goal, a hundred for a self-directed thought, sixty for a failure; of two alike the earlier line |
| ResourceManager.UndatedIsNew | agents/resource_manager.py:137-139 | a memory without a date counts as one written now |
| ResourceManager.KeptHaveMoreDays | agents/resource_manager.py:126-142 | so every kept memory counts for more days than every dropped one, or for as many on an earlier line |
| ResourceManager.KeptIsTimeless | agents/resource_manager.py:126-142 | what is kept of dated memories does not depend on when they are pruned, although every score reads the clock |
| ResourceManager.IndexAgreesIffNamesDistinct | agents/resource_manager.py:143-159 | every kept line is found at its new position if and only if the kept names are distinct |
| ResourceManager.PartsStayTogether | agents/resource_manager.py:116-159 | with distinct names and an embedding per line, line j, row j and the index entry come from the same old record |
| ResourceManager.SemanticStore.PruneMemories | agents/resource_manager.py:103-164 | the three files afterwards; nothing is touched at or below the limit, without files, or with too few embeddings |
| Registry.GrantedIff | registry_backup.py:472-498 | an acquire succeeds if and only if the agent is known and nobody else holds the name unexpired |
| Registry.AcquiredLocks | registry_backup.py:472-498 | a lock that is granted runs from now for the time asked for, stale locks go, and no other lock changes |
| Registry.StepKeepsExclusive | registry_backup.py:472-507 | every registration, acquire, release, termination and tick keeps each name with one agent |
| Registry.NoNameHeldTwice | registry_backup.py:472-507 | over every run no lock name is held by two agents |
| Registry.HeldUntilExpiry | registry_backup.py:472-507 | a lock stays with its holder until it expires whatever others do, its holder's termination included, and nobody else is granted it |
| Registry.LockLastsExactly | registry_backup.py:472-507 | over every run in which its holder does not release a lock and nobody asks for it, another agent would be granted the name exactly when the time asked for is over |
| Registry.EndedIsRight | registry_backup.py:388-417 | the ended agent is terminated, its living children become children of root, and nothing else changes |
| Registry.EndKeepsDepthsFall | registry_backup.py:388-417 | adopting orphans keeps the spawn depth falling along parent links |
| Registry.RunKeepsDepthsFall | registry_backup.py:197-249 | over every run depth falls along parent links and stays within the limit |
| Registry.ChainIsAncestors | registry_backup.py:284-296 | the check for repeats never cuts a lineage short |
| Registry.ChainIsLinked | registry_backup.py:284-296 | a lineage starts at the agent, follows the parent links, and ends at one without a known parent or before a repeat |
| Registry.LineageIsShort | registry_backup.py:284-296 | over every run a lineage is complete and has at most one agent more than its spawn depth |
| Registry.AgentRegistry.Register | registry_backup.py:197-266 | refused exactly beyond the depth limit, otherwise a fresh record, one deeper than its known parent, with no locks and no usage |
| Registry.AgentRegistry.AcquireLock | registry_backup.py:472-498 | stale locks of all agents go first, also when the answer is no; a lock granted runs for the time asked for |
| Registry.AgentRegistry.ReleaseLock | registry_backup.py:500-507 | that lock of that agent goes, and nothing else changes |
| Registry.AgentRegistry.Terminate | registry_backup.py:388-417 | not for root; living children become children of root; locks stay |
| Registry.AgentRegistry.GetLineage | registry_backup.py:284-296 | the loop returns the chain of ancestors |
| Checkpoint.RunKeepsFile | agents/checkpoint.py:191-195 | a run that saves nothing under its name keeps a checkpoint file, whatever it does to heaps, records, locks and messages |
| Checkpoint.RunsRecover | agents/checkpoint.py:124-253 | from every world, over every run between save and restore that saves nothing under that name, the heap, usage, metadata and locks are again those saved, and nothing else moves |
| Checkpoint.RestoreRecovers | agents/checkpoint.py:207-253 | the restore alone, from any world that has the file |
| Checkpoint.RestoreWithoutAgent | agents/checkpoint.py:235-244 | a checkpoint of an unregistered agent recovers the heap and leaves the records alone |
| Checkpoint.SnapshotTells | agents/checkpoint.py:124-195 | a save holds the heap, each saved field of the record and the unread messages of the agent as they are |
| Checkpoint.TakenIsFront | agents/checkpoint.py:139-146 | the saved messages are the live unread ones of a front of the queue, of all of it unless two hundred are taken |
| Checkpoint.DiffTells | agents/checkpoint.py:315-355 | a comparison tells each key by its presence and content in the two files, each field exactly when it differs, how many messages of the second are not in the first, and whether the digests differ |
| Checkpoint.FreshSaveComparesEqual | agents/checkpoint.py:296-356 | a save after the restore shows no new, removed or changed key and an equal digest, and status and task as changed exactly when they were |
| Checkpoint.RunsCompareEqual | agents/checkpoint.py:296-356 | so over every such run |
| Checkpoint.RunsCompareExactly | agents/checkpoint.py:296-356 | over every run between two saves the comparison tells exactly by which keys the heap, and in which fields the record, differ at the end from the beginning |
| Checkpoint.OneWriteComparesExactly | agents/checkpoint.py:296-356 | one object stored or freed between two saves is told as that key and nothing else |
| Checkpoint.InboxNeverComesBack | agents/checkpoint.py:139-146 | over every run between save and restore, and however much later, no message that the save took is taken as unread again |
| Checkpoint.InboxIsNotRestored | agents/checkpoint.py:139-146 | whenever the agent looks after the restore, no message of the saved inbox is unread, so it finds what the save found if and only if that was nothing |
| Checkpoint.RestoreKeepsExclusiveIff | agents/checkpoint.py:235-244 | the lock invariant survives a restore if and only if no other agent holds a saved name |
| Checkpoint.SafeRunsKeepExclusive | agents/checkpoint.py:207-253 | over every run of registry steps, saves and restores that pass that check, no name is held twice |
| Checkpoint.RestoreCanShareALock | agents/checkpoint.py:235-244 | from every world with two agents and a free name there is a run that ends with both holding it |
| Checkpoint.CheckpointManager.Save | agents/checkpoint.py:124-205 | the file with what `SnapshotTells` says, the heap made on demand, and the inbox marked read |
| Checkpoint.CheckpointManager.Restore | agents/checkpoint.py:207-253 | found or not, and the whole world afterwards |
| Checkpoint.CheckpointManager.Compare | agents/checkpoint.py:296-356 | refused if a checkpoint is missing, otherwise a comparison that tells exactly the keys, fields, messages and digest that differ |
| BusRuns.OnceInOrderOrQueued | agents/bus.py:107-146 | from every loaded bus, over every broadcast-free run, reloads included, each message reaches its recipient alone, at most once and in send order, and one not yet returned is queued or expired |
| BusRuns.LoadedIsInv | agents/bus.py:167-174 | every bus whose queues share no object, as a load makes them, starts its runs in order |
| BusRuns.ReloadKeepsInv | agents/bus.py:167-174 | a reload in the middle of a run keeps the order, and owes nothing twice |
| BusRuns.ReloadKeepsContents | agents/bus.py:167-174 | a reload leaves the contents of queues and histories as they are |
| BusRuns.RunKeepsInv | agents/bus.py:107-146 | the invariant behind it: queue, returned list, read flags and expiries agree with what was sent |
| BusRuns.PickExtends | agents/bus.py:135-142 | taking the first unread messages extends what was given, in order |
| BusRuns.PrunedIsMinus | agents/bus.py:131-133 | pruning takes out the expired messages and keeps the order of the rest |
| BusRuns.BroadcastReachesOneAtMost | agents/bus.py:80-88 | over every run without a reload, broadcasts included, no message is given twice, to one agent or to two |
| BusRuns.BroadcastReachesAllIff | agents/bus.py:80-88 | without a reload a broadcast can reach everybody if and only if there is at most one queue |
| BusRuns.ReceivesIndependentIff | agents/bus.py:126-146 | one agent's receive leaves what another would get as it is if and only if the two share no object of it |
| BusRuns.QueuesStayDistinct | agents/bus.py:80-124 | over every run, broadcasts and reloads included, no queue holds an object twice |
| BusRuns.ReloadSeparates | agents/bus.py:167-174 | after a reload no object is in two places, however they were shared |
| BusRuns.UnreadIsOwed | agents/bus.py:167-174 | and every agent is owed a copy of everything unread in its queue |
| BusRuns.ReloadRestoresOrder | agents/bus.py:167-174 | so after any run, broadcasts included, and a reload the laws of broadcast-free runs hold again |
| Bus.LoadQueues | agents/bus.py:167-174 | loading rebuilds the stored queues from fresh objects, no two in the same place |
| Bus.PickIsFront | agents/bus.py:135-142 | a receive takes the unread messages of a front of the queue, each once, of all of it unless the limit is reached |
| Bus.PickAllIsFront | agents/bus.py:135-142 | one that asks for read messages too takes the front up to the limit, one message at least |
| Bus.PrunedIsLive | agents/bus.py:131-133 | what is left of a queue is exactly what has not expired |
| Bus.MessageBus.Send | agents/bus.py:57-105 | one new unread object in the recipient's queue, or the same object in every existing queue |
| Bus.MessageBus.DeliverEvent | agents/bus.py:107-124 | a new unread event in that agent's queue |
| Bus.MessageBus.Receive | agents/bus.py:126-146 | the queue pruned, the messages taken marked on the shared objects, and their copies returned; no other flag changes |
| Bus.MessageBus.Take | agents/bus.py:135-142 | the marking loop; the limit is looked at only after a message is taken |
| BatchLlm.RunKeepsInv | agents/batch_llm.py:95-143 | over every interleaving the requests done with, the worker's batch and the queue are the submitted requests in order |
| BatchLlm.InOnePlace | agents/batch_llm.py:95-143 | every request is in exactly one of the three |
| BatchLlm.LoadingEndsOnce | agents/batch_llm.py:184-212 | the model is ready, or has its error, exactly as the first step that ended loading says |
| BatchLlm.SubmittedAreWanted | agents/batch_llm.py:80-101 | over every interleaving the requests taken in are exactly those submitted after the model was loaded, in order |
| BatchLlm.NothingIsLost | agents/batch_llm.py:95-143 | so over every interleaving those are, in order, the requests done with, the batch and the queue |
| BatchLlm.RequeueUnreachable | agents/batch_llm.py:125-130 | a non-empty queue implies readiness, so the requeue branch does nothing in any run |
| BatchLlm.NextIsOpen | agents/batch_llm.py:136-138 | the future about to be set is always open |
| BatchLlm.SettledOnce | agents/batch_llm.py:136-143 | an outcome never changes in any further run, and a request done with gets none later |
| BatchLlm.AnswersFitPrompts | agents/batch_llm.py:132-138 | whatever relation results have to prompts by position, every answer has it to its own prompt |
| BatchLlm.EnoughSettlesAll | agents/batch_llm.py:132-143 | with a result per prompt every request whose turn has come has an outcome |
| BatchLlm.AnsweredIffResult | agents/batch_llm.py:132-138 | after a batch request i has outcome i if and only if there is a result i |
| BatchLlm.AllFail | agents/batch_llm.py:139-143 | when running the model fails every request of the batch gets that error, and no other is touched |
| BatchLlm.BatchLlmServer.LoadModel | agents/batch_llm.py:184-212 | loading ends in readiness or with its error, and touches neither the queue nor any future |
| BatchLlm.BatchLlmServer.Generate | agents/batch_llm.py:80-101 | refused before loading ends or after it failed, with nothing changed; otherwise queued last, and the trigger set at twenty-four |
| BatchLlm.BatchLlmServer.TakeBatch | agents/batch_llm.py:115-123 | the whole queue is taken, however long, and the trigger cleared |
| BatchLlm.BatchLlmServer.HandOut | agents/batch_llm.py:136-138 | the loop that sets futures until results or requests run out |
| BatchLlm.BatchLlmServer.Turn | agents/batch_llm.py:113-143 | a whole turn of the worker, requeue and error paths included |
| AgentQuorum.PendingLeftOnce | agents/agent_quorum.py:256-316 | over every sequential run a decided proposal keeps status, time and author |
| AgentQuorum.OthersUntouched | agents/agent_quorum.py:187-205 | operations on other proposals leave a proposal as it is |
| AgentQuorum.ApprovedWasEarned | agents/agent_quorum.py:256-289 | an approved proposal had enough votes and enough in favour at the step that decided it |
| AgentQuorum.LateVoteKeepsIff | agents/agent_quorum.py:181-221 | one more vote leaves an approval borne out if and only if it is in favour (at a percentage of at most a hundred) or the share is reached without the voter's earlier vote, and a rejection if and only if votes are still too few or the share is still missed |
| AgentQuorum.LateVotesCanContradict | agents/agent_quorum.py:181-289 | some run ends with votes that contradict the decision if and only if the percentage is positive for an approval, at most a hundred for a rejection; votes alone are enough |
| AgentQuorum.AtomicIsSequential | agents/agent_quorum.py:256-316 | a check followed at once by its write is the sequential operation |
| AgentQuorum.UnrivalledDecidesOnce | agents/agent_quorum.py:256-316 | in every interleaving without rival checks pending is left at most once |
| AgentQuorum.DecidedCanChangeIff | agents/agent_quorum.py:256-316 | some continuation changes a decided status if and only if a check of the proposal is waiting to write another one |
| AgentQuorum.RaceLeavesPendingTwice | agents/agent_quorum.py:256-316 | for every pending proposal an interleaving finalises it and then withdraws it |
| AgentQuorum.RowRewritten | agents/agent_quorum.py:194-205 | rewriting one line changes one proposal of the map and keeps the index right |
| AgentQuorum.RowAppended | agents/agent_quorum.py:142-155 | appending a line adds one proposal and keeps the index right |
| AgentQuorum.OldestArePending | agents/agent_quorum.py:238-254 | the listed proposals are pending ones of the store, each once, by age |
| AgentQuorum.OldestAreOldest | agents/agent_quorum.py:238-254 | none left out is older than a listed one, and none is left out below the limit |
| AgentQuorum.AgentQuorum.Propose | agents/agent_quorum.py:114-157 | one more pending proposal, field by field, and the log still means the map |
| AgentQuorum.AgentQuorum.GetProposal | agents/agent_quorum.py:159-179 | found exactly when the map has it |
| AgentQuorum.AgentQuorum.CastVote | agents/agent_quorum.py:181-221 | only that proposal's vote of that voter changes, and the history grows by it |
| AgentQuorum.AgentQuorum.FinalizeProposal | agents/agent_quorum.py:256-289 | approved exactly when pending with enough votes and enough in favour, rejected otherwise while pending, and dated; no other proposal changes |
| AgentQuorum.AgentQuorum.WithdrawProposal | agents/agent_quorum.py:291-316 | only by the proposer and only while pending; then its status alone changes |
| AgentQuorum.AgentQuorum.CountVotes | agents/agent_quorum.py:265-266 | the counts of votes in favour and of all votes |
| AgentQuorum.AgentQuorum.GetPendingProposals | agents/agent_quorum.py:238-254 | filter, stable sort and cut give the listed proposals |
| CapabilityQuorum.EachGetsItsOutcome | agents/capability_quorum.py:79-106 | every listed proposal ends with its own outcome, no other is touched |
| CapabilityQuorum.DecidedIff | agents/capability_quorum.py:94-99 | a capability proposal is decided if and only if its voters are no fewer than the names listed |
| CapabilityQuorum.DistinctVotersDecide | agents/capability_quorum.py:86-106 | with distinct voters it is decided by their earlier votes and the judgements of all others, and approved if and only if the votes required are there and the share in favour is reached (a proposal requires one) |
| CapabilityQuorum.RoundDecidesOldest | agents/capability_quorum.py:79-106 | a round decides every capability proposal among the twenty oldest pending, and changes nothing else |
| CapabilityQuorum.RepeatedNameStaysPending | agents/capability_quorum.py:86-99 | with a name listed twice and no other voters the proposal stays pending, and the next round changes nothing |
| CapabilityQuorum.ReportIsTruthful | agents/capability_quorum.py:99-107 | every report gives the status and votes its proposal has after the round |
| CapabilityQuorum.DecisionsAreReported | agents/capability_quorum.py:99-107 | every decision of the round is reported |
| CapabilityQuorum.CapabilityQuorum.CastBallots | agents/capability_quorum.py:87-92 | those who had voted before the round are passed over, all others vote |
| CapabilityQuorum.CapabilityQuorum.VoteOnPending | agents/capability_quorum.py:70-122 | the loop over the listed proposals is the round that the lemmas are about |
| Sorting.SortAscSorts | agents/agent_quorum.py:251 | sorting gives the same elements in order |
| Sorting.SortDescTies | agents/capability_graph.py:215-238 | elements of equal score keep their order |

## Left out

- Language-model calls, embeddings, HTTP, prompts, the semantic and fact-check validation, regular-expression heuristics, user interface and installers: their outcomes are parameters or nondeterministic inputs here.
- JSON, files and identifiers: storage is lossless, fresh identifiers are new, digests are a function of the stored content. File errors and half-written files are not modelled.
- Time: each call reads the clock once, and the clock does not run backwards. `Bus.MessageBus.Send` uses one reading for the timestamp and the expiry, where the code takes two.
- Arithmetic: progress is in hundredths, shares are exact ratios (0.55, 0.66), times and scores are reals; the rounding of floating point is not modelled.
- Threads: a locked section is one step. Interleavings are modelled for the consensus store, the batch queue and the quorum's check and write. That the calls of all other modules do not overlap is an assumption, which their locks do not give: a registration reads its parent's depth outside the lock (registry_backup.py:226-229), a save holds no lock of its own over its parts (agents/checkpoint.py:124-195), and a capability is registered in two sections (agents/capability_graph.py:147-154).
- Lineage.LineageGraph.GetBlastRadius: the locked resources, open transactions and running tasks listed beside the affected agents are not modelled.
- Wrapping.Wrap: called at widths of at least 1 and on lines on which the loop ends, since there is no result on others; that the text as a whole shows the same characters is claimed where colour codes are complete, since an incomplete one is carried to the next line and shows there again. Only line ends are stripped from the end of a line.
- Consensus.AcceptedIsEarned: the expiry test and the time of the vote are one reading of the clock, where the code reads it twice.
- Thoughts: terminal width, narration and log tailing.
- AutonomyLoop.Pursuit.PursueGoal: the planner, the tools and the validator are inputs of each turn; synthesis of follow-on goals, reflection and memory writes are not part of this model.
- AutonomyLoop.Pursuit.ExecuteStep: how a step's parameters are built and how its result is judged a success are not modelled; the success is an input.
- Daemon: worker threads, hung workers and goal assignment; which agents have goals and which two leave the cooling set (an unordered set) are inputs.
- Lessons.LessonsStore.Compact: the limit is on the compact serialisation of the categories, as the code measures it; the file is written with indentation and a header and can be larger. Stemming, stop words and lesson families are an uninterpreted reading of a text; the similarity built from it is modelled.
- Lessons.LessonsStore.RecordCandidate: case folding and stripping are for ASCII text.
- CapabilityGraph.CapabilityGraph.Find: a negative `top_k`, which Python would read from the end, is not modelled; nor are schema search and composition.
- ResourceManager.SemanticStore.PruneMemories: `Contains` is exact substring search; other pruning operations of the manager are averages and list caps.
- Registry: authentication and budgets (both end in an undefined name in registry_backup.py), tokens, workspaces, tombstones, suspension, groups and events.
- Registry.AgentRegistry.Register: names, roles, capabilities, budgets and tokens of a record are not followed.
- Registry.AgentRegistry.Terminate: the tombstone, the token index and the event are not modelled.
- Checkpoint.CheckpointManager.Save: the scheduler's snapshot of the current task and the events are not modelled, and a heap asked for the first time starts empty where the code would load it from disk; that the records are untouched is in the `modifies` clause.
- Checkpoint.CheckpointManager.Compare: key lists are sets, their sorting is not modelled, and of a changed field only that it changed; two messages are the same if their fields are.
- Checkpoint: replaying a task, whose answers are the language model's.
- Bus: threads of replies, statistics, the index of all messages by id, and the event announced after a send. What is on disk between saves is not followed: a load is from any stored content, and a reload in a run from the queues as they stand (the file may still hold messages that have expired).
- BatchLlm.BatchLlmServer.Generate: waiting for the model and for the future, with their timeouts, is left out; the test for readiness and the append are one step, which no other step can undo since readiness never ends.
- AgentQuorum: abstentions (`None` votes), which no operation writes; embeddings; malformed or missing files.
- CapabilityQuorum.CapabilityQuorum.VoteOnPending: an agent's judgement is a function of agent and proposal; identities and vote histories of agents are not part of this model.
- Modules whose claims are averages, counters, list caps or record keeping (routing, audit, governance evolution, events, delegation, distributed memory and swarm, migration, introspection, benchmarks) would only add easy members.

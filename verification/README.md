# Serf in Dafny: gossip, snapshot log and smaller cores

This project models three parts of a gossip-based cluster membership daemon and
proves what they are for.

1. **Lamport-stamped gossip with anti-entropy.** Each node has a Lamport clock
   and a fixed ring of item groups. A message is witnessed, checked against a
   minimum time, offered to the ring and, if the ring takes it, queued for
   broadcast and emitted. A push/pull merge replays a peer's ring through the
   same handler. The ring forgets, yet the node behaves like one that never
   forgets an accepted message, and merging is a join on what nodes know.
2. **The snapshot log.** A text log of joins, leaves and clock values, written
   through a buffer and rewritten when it grows too large. Reading it back gives
   the live state at every moment of every run, reading a torn one gives the live
   state of an earlier moment, and a restarted node never repeats an action it
   had durably recorded.
3. **Smaller cores.** The Vivaldi coordinate step over the reals, the two indexed
   lists of inactive nodes, and the ring of recent log lines that new log
   streamers are fed from.

## How it is arranged

Code that changes state is a class whose methods are proved against a
specification function of its abstract value; the theorems are about those
functions, and so hold of the classes.

| part | objects and methods | specification | theorems |
|---|---|---|---|
| clock | `Lamport` | `Lamport` | `Lamport`, `LamportThreads` |
| ring | `Buffer` | `Buffer` | `History` |
| node | `SerfNode` | `Gossip` | `NodeRuns`, `AntiEntropy` |
| cluster | | `Cluster` | `Cluster`, `Causality`, `Convergence` |
| snapshot | `Snapshotter` | `SnapshotText`, `Snapshot` | `Snapshot`, `CrashSafety`, `TornRestart`, `SizeBound` |
| inactive nodes | `InactiveNodes` | `Inactive` | `Inactive` |
| log streams | `LogStreamManager` | `LogStream` | `LogStream` |
| coordinates | `Coordinate`, `VivaldiNode` | `Coordinate`, `Vivaldi` | `Coordinate`, `Vivaldi`, `VivaldiStep`, `VivaldiRuns` |

## Conventions

- Logical times are 64-bit and wrap; most theorems about clocks ask that the
  largest time is never witnessed, and `WitnessedIsMax` says that this is exactly
  when witnessing works. The cluster theorems derive it instead: it is asked only
  of the node that issues an action or a query.
- A nil byte slice and an empty one are different payloads, because the
  duplicate test treats them differently.
- `actionsQueued`, `queriesQueued` and `events` list everything ever put on the
  broadcast queues and the event channel, and `verdicts` what the filters of each
  queued query said; deliveries may pick any queued message, any number of times,
  in any order.
- A merge and the taking of a local state are each one step of a node.
- In the snapshot log a character is one byte. How many pending bytes a write
  passes on to the file and the order in which the map of live nodes is walked
  are parameters, so the theorems hold for every choice.
- Readings of the wall clock, random unit vectors, encoded message lengths and
  the verdict of a query's filters are parameters too. The square root is any
  function that is one.

## What turned out not to hold

Each of these is stated as a lemma with its exact condition, most with a concrete
run as well.

- Witnessing the largest time sends the clock back to zero (`WitnessedIsMax`); a
  snapshot clock of that size makes a restarted node take every old action again
  (`NothingBelowSnapshotClock`).
- A merge is a join only while no stored nil payload, or empty payload facing a
  nil one, hides a new item of the same time and the minimum time bars none
  (`MergeIsJoinIff`); an exchange agrees exactly if that is so on both sides
  (`ExchangeAgreesIff`), and in a run of a new cluster it is not
  (`Convergence.NilPayloadDiverges`).
- A forwarded broadcast carries its issuer's time only, so receiving it from a
  node does not order what follows after that node's own actions
  (`ForwardedOrderIff`, `ForwardingLosesOrder`).
- A node's own action is reported as sent but dropped exactly while the clock is
  below the minimum time (`OwnActionEmittedIff`), as it is after a restart
  (`RestartDropsFirstAction`).
- A log that ends in a torn line is not trimmed, so the first record behind it is
  lost (`NextRecordSurvivesIff`, `SurvivesSecondCrashIff`).
- A log cannot be read at all if and only if it has an alive line without a space
  (`HandleLinePanicsIff`, `ReplayPanicsIff`); a torn join followed by a leave
  writes one (`LeaveBehindTornJoin`).
- A name with a newline, or an address with a newline or space, is not read back
  (`JoinReplaysIff`).
- A batch of left nodes is added only up to the first one already known or
  repeated, so the rest of the batch is lost (`BatchAddsFreshPrefix`).
- The per-peer latency filter never stores a ring, so it has no effect
  (`FilterIsInert`).
- A sample takes a node's error out of its range exactly if it fails a condition
  on both errors and the deviation (`ErrorStaysIff`, `RunKeepsRangeIff`), which a
  peer that claims a negative error can make happen (`NegativePeerErrorEscapes`).
- A detour through a point of negative height can be shorter
  (`TriangleInequalityIff`).

## Model

| member | source | states |
|---|---|---|
| Lamport.WitnessedIsMax | lamport.go:22-33 | witnessing t gives max(clock, t+1), above t exactly if t is not the largest 64-bit time |
| Lamport.LamportClock.Time | lamport.go:14-16 | reads the clock |
| Lamport.LamportClock.Next | lamport.go:18-20 | returns and stores the successor, wrapping |
| Lamport.LamportClock.CompareAndSwap | lamport.go:28-31 | swaps exactly if the expected time is the current one |
| Lamport.LamportClock.Witness | lamport.go:22-33 | the retry loop ends with the witnessed time |
| LamportThreads.StepKeepsInv | lamport.go:18-33 | every load, swap and add, by any thread, keeps the bound on every thread's lost swaps and never lowers the clock |
| LamportThreads.WitnessUnderConcurrency | lamport.go:18-33 | in every interleaving the clock never goes back, is above t once Witness(t) returned, and a Witness(t) that first read t0 lost at most t-t0+1 swaps |
| LamportThreads.NoFurtherThanNeeded | lamport.go:18-33 | in every interleaving the clock passes the start and the times witnessed by no more than one and the adds |
| LamportThreads.UndisturbedThread | lamport.go:18-33 | a thread nobody disturbs leaves the clock as one call of Witness does and returns; an add takes the next time |
| Buffer.GroupItem.Has | buffer.go:29-36 | the scan finds an item exactly if a stored one is Equal to it |
| Buffer.GroupItem.Add | buffer.go:38-40 | appends one item |
| Buffer.LBuffer.IsTooOld | buffer.go:48-53 | too old means below clock minus length, never while the clock is at most the length |
| Buffer.LBuffer.IsLTimeNew | buffer.go:55-59 | the slot is empty or holds an older time |
| Buffer.LBuffer.AddNewLTime | buffer.go:61-67 | replaces one slot by a new group and leaves the others |
| Buffer.LBuffer.AddItem | buffer.go:69-84 | refuses old items and duplicates, replaces an older group, extends an equal one |
| History.LatestIsLatest | buffer.go:55-67 | the reference slot time is the largest accepted time congruent to the slot |
| History.OfferRefinesHistory | buffer.go:69-84 | after the witness, an item is taken exactly if it is at or above the minimum time, inside the window and not a duplicate of anything ever accepted; slots stay a function of the accepted history |
| History.RunRefinesHistory | net_handlers.go:151-171 | over every run the ring takes the same items in the same order as a gate without a ring that forgets nothing |
| History.OnceHandledAlwaysRefused | net_handlers.go:156-164 | what was processed once, taken or not, is refused in every later state |
| History.AcceptedOnce | buffer.go:29-36 | no item is accepted twice |
| History.AcceptedRespectMinTime | net_handlers.go:158-160 | nothing below the minimum time is accepted, and the minimum never falls |
| SerfNode.ActionManager.constructor | action.go:25-30 | clock 1, empty ring, no minimum time |
| SerfNode.ActionManager.AddToBuffer | action.go:32-40 | offers the (time, payload) of a message at the current clock |
| SerfNode.ActionManager.GetBuffer | action.go:42-62 | copies every slot, empty ones as groups of time 0 |
| SerfNode.ActionManager.SetActionMinTime | action.go:64-68 | stores the minimum time |
| SerfNode.ActionManager.GetActionMinTime | action.go:70-74 | reads the minimum time |
| SerfNode.QueryManager.AddToBuffer | query.go:124-132 | offers the (time, id) of a query at the current clock |
| SerfNode.Serf.constructor | serf.go:175-177 | a started node drops actions at or below the snapshot's clock |
| SerfNode.Serf.HandleAction | net_handlers.go:151-171 | witness, minimum time, ring, then queue and emit; a refused action changes the clock only |
| SerfNode.Serf.HandleQuery | net_handlers.go:68-105 | witness, ring, then queue; emits unless filtered out or the internal query |
| SerfNode.Serf.Action | action.go:79-97 | an oversized action changes nothing, any other is handled at the current clock |
| SerfNode.Serf.Query | query.go:137-175 | the same for queries |
| SerfNode.Serf.SetJoin | serf.go:239-242 | marks an address as being joined, with its ignore flag |
| SerfNode.Serf.UnsetJoin | user_state_delegate.go:72-88 | removes both marks |
| SerfNode.Serf.LocalState | user_state_delegate.go:90-104 | both clocks and a copy of the ring |
| SerfNode.Serf.WitnessPeer | user_state_delegate.go:117-122 | witnesses the peer's clocks minus one |
| SerfNode.Serf.IgnoreOnJoin | user_state_delegate.go:123-128 | raises the minimum time to the peer's clock if the address is joined ignoring |
| SerfNode.Serf.ReplayGroup | user_state_delegate.go:131-138 | handles each item of a group as a nameless action of the group's time |
| SerfNode.Serf.ReplayActions | user_state_delegate.go:131-144 | handles the groups in slot order |
| Gossip.HandleActionsConcat | user_state_delegate.go:131-144 | replaying groups one after the other is replaying all their items |
| SerfNode.Serf.Merge | user_state_delegate.go:106-146 | the whole merge: witness, ignore, unmark, replay |
| NodeRuns.StepFollows | net_handlers.go:68-171 | every node operation is a sequence of witnesses, raises and offers on its two gates, and queues exactly what they take |
| NodeRuns.RunKeepsInv | net_handlers.go:68-171 | through every run both rings are functions of what was queued, and the events are the queued actions and the queued queries that are wanted and not internal, in order and with all fields |
| NodeRuns.NewNodeInv | serf.go:175-177 | a new node has its address, both clocks at 1, empty rings and queues, and joins nobody |
| NodeRuns.ActionTakenIff | net_handlers.go:151-171 | an action is queued and emitted, with time, name and payload, if and only if it is at or above the minimum time, in the window, and none queued of its time has its content or a nil payload |
| NodeRuns.QueryTakenIff | net_handlers.go:68-105 | a query is queued if and only if it is in the window and none queued has both its time and its id, and is then emitted with time, id, name and payload exactly if wanted and not internal |
| NodeRuns.OwnActionEmittedIff | action.go:79-97 | an action over the size limit is refused and changes nothing; any other is reported as sent, and queued and emitted with all its fields exactly if the clock has reached the minimum time |
| NodeRuns.OwnQueryIsQueued | query.go:137-175 | a query over the size limit is refused and changes nothing; any other is reported as sent, queued, and emitted with all its fields unless filtered out or internal |
| NodeRuns.RestartDropsFirstAction | serf.go:177 | a node restarted from a snapshot that knew an action drops its first own action and reports success |
| NodeRuns.EmitsAtMostOnce | net_handlers.go:151-171 | an incarnation queues and emits each action and query at most once |
| NodeRuns.OnceHandledActionIsDropped | net_handlers.go:151-171 | a later copy of a handled action is dropped after any run, merges included |
| NodeRuns.OnceHandledQueryIsDropped | net_handlers.go:68-81 | the same for queries |
| NodeRuns.IgnoredOnJoin | user_state_delegate.go:123-144 | after a merge from an address joined ignoring, no action below the sender's clock is queued or emitted, in its own replay or ever after |
| NodeRuns.RunKeepsQueryFloor | query.go:124-132 | nothing ever gives queries a minimum time |
| NodeRuns.FirstOfferIsTaken | serf.go:177 | a new node takes the first action it is offered unless that is below its minimum time, which the largest snapshot clock wraps to zero |
| NodeRuns.NothingBelowSnapshotClock | serf.go:177 | over all runs, a restarted node never queues or emits an action of time t or less, its own included, if and only if t is at or below the snapshot's clock and that clock is not the largest time |
| AntiEntropy.ViewIsRecentHistory | buffer.go:48-84 | the ring holds exactly the accepted items of the window, and nothing that was not accepted |
| AntiEntropy.OfferedItems | action.go:42-62 | replaying a copied ring offers each of its items once |
| AntiEntropy.ReplayTakes | user_state_delegate.go:131-144 | a gate offered distinct items from its past takes each exactly as if it were offered alone |
| AntiEntropy.MergeTakes | user_state_delegate.go:131-144 | the replay takes exactly what the gate admits, independent of slot order |
| AntiEntropy.MergeKeepsInv | user_state_delegate.go:106-146 | a merge keeps the node invariant |
| AntiEntropy.MergeExact | user_state_delegate.go:106-146 | a merge takes the larger clock and exactly the peer's items in the new window, at or above the minimum time and not blocked |
| AntiEntropy.MergeIsJoinIff | user_state_delegate.go:106-146 | it is the join of both views if and only if every new item is at or above the minimum time and not masked by a nil or empty payload |
| AntiEntropy.MaskedItemDiverges | buffer.go:14-22 | an item masked on one side is missing there after an exchange and present on the other |
| AntiEntropy.MergeIsWithin | user_state_delegate.go:106-146 | a merge keeps the node's own items of the window and takes nothing from outside the join |
| AntiEntropy.ExchangeAgreesIff | user_state_delegate.go:90-146 | a two-way exchange leaves both sides with the same view if and only if neither side's new items are masked or below the other's minimum time |
| AntiEntropy.MergeIsJoin | user_state_delegate.go:106-146 | between ordinary nodes a merge is the join and leaves an ordinary node |
| AntiEntropy.MergeJoinsQueryClocks | user_state_delegate.go:120-122 | of queries a merge passes on the larger clock and nothing else |
| AntiEntropy.MergeEndsJoining | user_state_delegate.go:123-130 | a merge ends the joining of its sender and of nobody else, so a second state does not raise the minimum time |
| AntiEntropy.JoinMarks | serf.go:239-248 | a join makes its address ignored exactly if asked to and no other, and its end unmarks it |
| AntiEntropy.CopyIsRing | action.go:42-62 | the copied ring is the ring, with groups of time 0 for empty slots |
| AntiEntropy.SentStateIsOwn | user_state_delegate.go:90-104 | whatever a node has been through, the state it sends carries its own address, both clocks, and all it queued that is still in its window |
| AntiEntropy.JoiningIgnoresOldActions | user_state_delegate.go:106-146 | joining a node at its own address and merging its state raises the minimum time to its clock if told to ignore, after which nothing below it is ever queued or emitted, and leaves the minimum otherwise; the node is then no longer joined, and other addresses are as they were |
| AntiEntropy.JoiningAnotherIgnoresNothing | user_state_delegate.go:123-128 | joining another address does not affect a node's state |
| AntiEntropy.MergeEmitsNameless | user_state_delegate.go:131-144 | what a merge queues and emits has no name and is of the peer's queued actions |
| AntiEntropy.MergeCommutes | user_state_delegate.go:106-146 | merging a into b or b into a leaves the same view |
| AntiEntropy.MergeIsIdempotent | user_state_delegate.go:106-146 | merging the same state again changes no view, whatever is masked or barred |
| AntiEntropy.MergeAssociates | user_state_delegate.go:106-146 | grouping of merges does not matter |
| AntiEntropy.ExchangeAgrees | user_state_delegate.go:90-146 | a two-way exchange leaves both sides with the same view |
| AntiEntropy.MergeAllPools | user_state_delegate.go:106-146 | after any merges a view is the largest clock and all known items in its window |
| AntiEntropy.SameStatesSameView | user_state_delegate.go:106-146 | nodes that merged the same set of states, in any order and number, know the same |
| Cluster.NextKeepsInv | net_handlers.go:39-171 | every move of the cluster keeps every node's invariant, clocks never fall, sent states hold only issued actions below their clock |
| Cluster.ExecKeepsInv | net_handlers.go:39-171 | so does every run, without any assumption on what is received |
| Cluster.QueuedPerNode | net_handlers.go:151-171 | n nodes queue a message at most n times |
| Cluster.GossipIsBoundedAndHonest | net_handlers.go:151-171 | in every run each action is queued at most once per node, and only issued actions are emitted |
| Causality.DirectlyBeforeClocks | action.go:79-97 | a direct predecessor leaves its node's clock at or below the time of what the successor issues |
| Causality.ChainClocks | user_state_delegate.go:117-119 | clocks never fall along a chain of moves through nodes, messages and merges |
| Causality.CausalOrder | action.go:79-97 | an action that happens before another has a strictly smaller time |
| Causality.ForwardedOrderIff | net_handlers.go:151-165 | the clock passes a forwarder's time after a delivery exactly if it had already, or the message is not older |
| Causality.ForwardingLosesOrder | net_handlers.go:162-165 | a run in which a forwarder's earlier action and the receiver's later one carry the same time |
| Convergence.SendersSent | user_state_delegate.go:90-104 | in a run of exchanges every state there is is the one its sender had when it sent it |
| Convergence.HeardIsKnown | user_state_delegate.go:106-146 | at every moment a node's view pools the initial views of the nodes it has heard of, directly or through others |
| Convergence.HeardIffReaches | user_state_delegate.go:106-146 | a node has heard of another if and only if a chain of sends, merges and moves of one node leads from it |
| Convergence.KnowsWhatReachesIt | user_state_delegate.go:106-146 | in the end a node knows exactly what the nodes that reach it by a chain knew at the start, cut to the window of the largest of their clocks |
| Convergence.EquallyReachedAgree | user_state_delegate.go:106-146 | nodes that the same nodes reach end with the same view, so fully connected nodes agree |
| Convergence.NilPayloadDiverges | buffer.go:14-22 | a run of a new cluster in which both nodes issue an action, exchange states, and end with equal clocks and different views |
| SnapshotText.DecimalRoundTrip | snapshot.go:408-422 | parsing the decimal form of a 64-bit time gives it back |
| SnapshotText.ParseUintIff | snapshot.go:408-422 | a text is a valid number if and only if it is one or more digits whose number in base ten fits 64 bits, and is that number |
| SnapshotText.LTimeLength | snapshot.go:229-245 | a time takes one to twenty digits |
| SnapshotText.HandleAliveLine | snapshot.go:384-404 | an alive line with a space-free address sets that node |
| SnapshotText.HandleNotAliveLine | snapshot.go:405-407 | a not-alive line removes that node |
| SnapshotText.HandleActionLine | snapshot.go:408-415 | an action-clock line sets that clock |
| SnapshotText.HandleQueryLine | snapshot.go:416-422 | a query-clock line sets that clock |
| SnapshotText.OtherLinesAreIgnored | snapshot.go:384-426 | a line that begins with none of the four words changes nothing |
| SnapshotText.BadClockLines | snapshot.go:408-422 | a bad number leaves the action clock, but sets the query clock to 0 or the largest time |
| SnapshotText.HandleLinePanicsIff | snapshot.go:397-404 | a line panics if and only if it is an alive line without a space |
| SnapshotText.ReplayPanicsIff | snapshot.go:428-443 | a log panics if and only if one of its terminated lines is an alive line without a space |
| SnapshotText.ReplayConcat | snapshot.go:428-443 | reading a terminated log and then more is reading both in turn |
| SnapshotText.ReplayTorn | snapshot.go:434-438 | an unterminated rest is ignored |
| SnapshotText.ReplayAppend | snapshot.go:428-443 | one more line acts on what the log gave |
| SnapshotText.ReplayStaysTorn | snapshot.go:434-438 | what follows a torn tail without a newline stays unread |
| SnapshotText.ReplayGlued | snapshot.go:428-443 | the next line is read together with the torn tail before it |
| SnapshotText.AppendPanicsIff | snapshot.go:428-443 | an appended line makes the log unreadable if and only if the tail and the line together are an alive line without a space |
| Snapshot.ReplayedNamesAreClean | snapshot.go:384-443 | whatever log is read, names and addresses come back without newline, addresses without space |
| Snapshot.RecordedLine | snapshot.go:192-245 | the line an operation appends says exactly how it changed the live state |
| Snapshot.RecordsOnlyNews | snapshot.go:192-245 | a clock is recorded exactly if the time seen is larger, and events without a joined, failed or left member record nothing |
| Snapshot.DumpReplays | snapshot.go:294-341 | a dump rebuilds the live state, in whatever order the map is walked |
| Snapshot.LeaveIsDumped | snapshot.go:294-341 | the dumps before and after leaving differ in the leave line |
| Snapshot.CompactIsConsistent | snapshot.go:343-382 | a compaction keeps the live state and the log in step |
| Snapshot.StepIsConsistent | snapshot.go:142-258 | every operation keeps: the log is terminated, replays to the live state, and offset is its length |
| Snapshot.OpenIsConsistent | snapshot.go:61-109 | opening a log keeps it, takes up what it says and its length; a terminated one starts consistent |
| Snapshot.ReplayEqualsLive | snapshot.go:142-443 | at every moment of every run, through flushes and compactions, replaying gives the live state |
| Snapshot.LeavingMeans | snapshot.go:142-206 | leaving is set exactly after the first leave |
| Snapshot.StepLive | snapshot.go:192-258 | what a step makes of the live state does not depend on the log, a compaction included |
| Snapshot.NamesStayClean | snapshot.go:210-227 | through every run the live names and addresses stay free of newlines, addresses of spaces |
| Snapshot.LiveMeans | snapshot.go:192-245 | the live state means what was recorded before the leave: the last word on each node, the largest time for each clock |
| CrashSafety.StepLog | snapshot.go:247-258 | a step extends the log by nothing or one line, or replaces it by a dump |
| CrashSafety.DiskHoldsBase | snapshot.go:343-382 | the file holds at least the last dump and at most the log |
| CrashSafety.TornLog | snapshot.go:434-438 | a prefix covering the last dump is the whole log of some moment and an unterminated piece |
| CrashSafety.TornWrite | snapshot.go:384-443 | replaying such a prefix gives the live state of the last moment it covers |
| CrashSafety.CrashLosesOnlyASuffix | snapshot.go:142-258 | a crash outside compaction loses at most a suffix of the operations since the last dump |
| CrashSafety.DurableClockSurvives | snapshot.go:229-236 | the clock restored is at least any durably recorded one |
| CrashSafety.FlushedIsDurable | snapshot.go:142-189 | a flush, or a leave, makes everything recorded so far durable |
| CrashSafety.DurableLasts | snapshot.go:142-382 | what is durable stays durable, through later records and dumps |
| CrashSafety.NoRedeliveryAfterRestart | serf.go:177 | after a crash the log can be read, and the restarted node never queues or emits an action of a durably recorded time or less if and only if the restored clock is not the largest time |
| CrashSafety.FlushedIsNotRedelivered | serf.go:177 | in particular after any crash later than a flush or leave that follows the record |
| CrashSafety.JoinReplaysIff | snapshot.go:210-227 | a join is read back exactly if the name has no newline and the address no newline or space |
| CrashSafety.TornTailIsNoClock | snapshot.go:384-415 | whatever line is read together with a torn tail before it sets no action clock |
| CrashSafety.NextRecordSurvivesIff | snapshot.go:428-443 | the first clock recorded after reopening is read back exactly if the log ended in a newline |
| TornRestart.DumpRepairs | snapshot.go:343-382 | from the first dump on the log replays to the live state, whatever log the run began with |
| TornRestart.ReplayBehindTear | snapshot.go:384-443 | before it, the log gives the clock the run has now unless that is what its first line left, or nothing if that line behind the tail is an alive line without a space |
| TornRestart.DiskIsMoment | snapshot.go:434-438 | what a crash leaves of such a log reads as the whole log of the last moment on disk |
| TornRestart.SurvivesSecondCrashIff | snapshot.go:384-443 | a time durably recorded behind a torn log is recalled after the second crash if and only if a dump came in between, or the first line written did not make the log unreadable and was not itself the record with no later one on disk |
| TornRestart.NoRedeliveryAfterSecondCrashIff | serf.go:177 | and exactly then, unless the restored clock is the largest time, the node can start and never takes an action of that time or less again |
| TornRestart.TornJoinHappens | snapshot.go:210-220 | a run whose crash leaves nine bytes of an alive line |
| TornRestart.LeaveBehindTornJoin | snapshot.go:397-404 | the next incarnation reads that log and leaves, and no later one can start |
| SizeBound.DumpSize | snapshot.go:294-341 | a dump takes at most 128 bytes a node and 75 more |
| SizeBound.AppendIsWithin | snapshot.go:247-258 | after every append the offset is at most the minimum size or 256 bytes a node |
| SizeBound.LogStaysWithin | snapshot.go:247-291 | and stays so at every later moment of the run |
| SizeBound.AppendLineIff | snapshot.go:247-258 | an appended line is kept behind all that was there if and only if the offset is then at most the minimum size or 256 bytes a live node; otherwise the log becomes a dump |
| SizeBound.CompactsIff | snapshot.go:247-291 | a step rewrites the log exactly if it recovers or its line makes the log too long by that measure |
| SizeBound.DumpsAreApart | snapshot.go:282-291 | between two dumps triggered by size with n small-line nodes at both, at least 128 n - 74 bytes are appended |
| Snapshotter.Snapshotter.NewSnapshotter | snapshot.go:61-109 | opens a log as replayed, or panics if and only if it has an alive line without a space |
| Snapshotter.Snapshotter.HandleLine | snapshot.go:384-426 | one line's effect; panics if and only if it is an alive line without a space |
| Snapshotter.Snapshotter.Replay | snapshot.go:428-443 | the reading loop handles the terminated lines in order, and panics if and only if one is an alive line without a space |
| Snapshotter.Snapshotter.SnapshotThreshold | snapshot.go:282-291 | 256 bytes a live node, at least the minimum size |
| Snapshotter.Snapshotter.Dump | snapshot.go:294-341 | writes nodes, clocks and a leave if leaving |
| Snapshotter.Snapshotter.Flush | snapshot.go:142-189 | passes everything buffered on to the file |
| Snapshotter.Snapshotter.Compact | snapshot.go:343-382 | the log becomes the dump, the offset its length |
| Snapshotter.Snapshotter.AppendLine | snapshot.go:247-258 | buffers the line and compacts beyond the threshold, as `SizeBound.AppendLineIff` writes out |
| Snapshotter.Snapshotter.RecordMemberJoin | snapshot.go:210-220 | sets the node and appends its line |
| Snapshotter.Snapshotter.RecordMemberGone | snapshot.go:221-227 | removes the node and appends its line |
| Snapshotter.Snapshotter.RecordActionClock | snapshot.go:229-236 | records only a larger time |
| Snapshotter.Snapshotter.RecordQueryClock | snapshot.go:238-245 | records only a larger time |
| Snapshotter.Snapshotter.RecordLeave | snapshot.go:142-189 | sets leaving, appends the leave line and flushes |
| Snapshotter.Snapshotter.RecordEvent | snapshot.go:192-206 | dispatches, dropping everything after a leave |
| Snapshotter.Snapshotter.Receive | snapshot.go:142-189 | one turn of the event loop |
| Inactive.SwapDeleteExact | inactive.go:114-131 | deleting by swap removes exactly the entry with the id |
| Inactive.AddAgrees | inactive.go:38-50 | adding keeps list and map in agreement |
| Inactive.RemoveUndoesAdd | inactive.go:38-60 | removing what was added restores list and map |
| Inactive.RemoveEachKeeps | inactive.go:155-160 | removing nodes one by one keeps exactly the other entries |
| Inactive.ExpiredInOrder | inactive.go:150-154 | the expired nodes are picked in list order |
| Inactive.RemoveTimeoutsExact | inactive.go:146-161 | returns exactly the expired nodes in list order, keeps exactly the others; a zero timeout does nothing |
| Inactive.BatchAddsFreshPrefix | inactive.go:82-96 | a batch adds its longest prefix of new, distinct nodes, so all of it exactly if none is known or repeated |
| Inactive.StepAgrees | inactive.go:38-169 | every operation keeps both maps in agreement with their lists |
| Inactive.IndexesAlwaysAgree | inactive.go:38-169 | through every run each map is true for exactly the ids in its list, each once |
| Inactive.AliveForgets | inactive.go:133-144 | a node seen alive is in neither list or map, and nothing else changed |
| Inactive.OneNodeOnly | inactive.go:38-80 | adding a failed or left node, or removing a failed one, changes that node in that list only, and keeps the time of one already listed |
| Inactive.BatchIsLeft | inactive.go:82-96 | a batch goes to the list of left nodes with the time of the call |
| Inactive.ReapExact | inactive.go:163-169 | a reap takes failed nodes by the failed timeout and left ones by the left timeout, keeps the others, and returns the failed ones first, each in list order |
| InactiveNodes.RemoveFromList | inactive.go:114-131 | search, swap with the last, cut |
| InactiveNodes.CollectAndRemove | inactive.go:146-161 | collects the expired nodes, then removes each |
| InactiveNodes.InactiveNodes.AddFail | inactive.go:38-50 | adds a failed node unless known |
| InactiveNodes.InactiveNodes.RemoveFailed | inactive.go:52-60 | removes a known failed node |
| InactiveNodes.InactiveNodes.AddLeft | inactive.go:68-80 | adds a left node unless known |
| InactiveNodes.InactiveNodes.AddLeftBatch | inactive.go:82-96 | stops at the first known node |
| InactiveNodes.InactiveNodes.HandleAlive | inactive.go:133-144 | removes the node from both lists |
| InactiveNodes.InactiveNodes.Reap | inactive.go:163-169 | removes the expired of both lists, failed ones first |
| LogStream.RingHoldsLatest | rpc/server/log.go:53-73 | the ring is the last 512 lines, oldest first from its index |
| LogStream.LineIs | rpc/server/log.go:107-111 | one final newline is taken off a write and nothing else |
| LogStream.LinesAreWritten | rpc/server/log.go:107-112 | the lines of newline-terminated writes are the texts before the newlines |
| LogStream.NonEmptyKeeps | rpc/server/log.go:65-73 | a dump drops the empty lines and keeps each other as often as it is there |
| LogStream.StreamsEveryLine | rpc/server/log.go:103-117 | a registered streamer is offered every line once and in order, any other nothing |
| LogStream.AttachIsGapFree | rpc/server/log.go:90-117 | registering offers exactly the non-empty lines among the last 512, then every later line |
| LogStream.DetachIsSilent | rpc/server/log.go:97-101 | after deregistering nothing is offered |
| LogStreamManager.RingLogBuf.Write | rpc/server/log.go:59-62 | overwrites the oldest slot and advances |
| LogStreamManager.RingLogBuf.Dump | rpc/server/log.go:65-73 | offers the non-empty slots from the oldest |
| LogStreamManager.LogStreamManager.Register | rpc/server/log.go:90-95 | adds a streamer and dumps the ring to it |
| LogStreamManager.LogStreamManager.Deregister | rpc/server/log.go:97-101 | removes a streamer |
| LogStreamManager.LogStreamManager.FanOut | rpc/server/log.go:113-115 | offers one line to every streamer once |
| LogStreamManager.LogStreamManager.Write | rpc/server/log.go:103-117 | strips one newline, writes the ring, offers the line to all and reports the length; an empty write panics and changes nothing |
| Coordinate.AddVec | coordinate/coordinate.go:106-112 | componentwise sum |
| Coordinate.DiffVec | coordinate/coordinate.go:114-120 | componentwise difference |
| Coordinate.ScaleVec | coordinate/coordinate.go:122-128 | componentwise product |
| Coordinate.ComputeMagnitude | coordinate/coordinate.go:131-137 | the root of the sum of squares |
| Coordinate.ComputeForce | coordinate/coordinate.go:73-85 | moves along the line between the points and adjusts the height |
| Coordinate.ApplyForce | coordinate/coordinate.go:73-85 | keeps dimension, error and adjustment, and never takes the height below its minimum |
| Coordinate.CauchySchwarz | coordinate/coordinate.go:131-137 | the inequality in any dimension, over the magnitude loop |
| Coordinate.TriangleInequality | coordinate/coordinate.go:102-104 | a detour through a point of non-negative height is no shorter |
| Coordinate.TriangleInequalityIff | coordinate/coordinate.go:102-104 | a detour through a point is no shorter, for all ends, if and only if its height is not negative |
| Coordinate.DistanceIsSymmetric | coordinate/coordinate.go:89-104 | both ends measure the same, never negative for non-negative heights |
| Coordinate.SpringSeparation | coordinate/coordinate.go:73-85 | between distinct points the step leaves a separation of exactly the absolute value of separation plus force |
| Coordinate.SpringScalesDistanceIff | coordinate/coordinate.go:73-85 | the distance is scaled by (separation + force)/separation exactly if the force does not overshoot and the height clamp does not bite; otherwise it ends larger |
| Coordinate.CoincidingPointsPart | coordinate/coordinate.go:140-146 | coinciding points are moved apart by the force, and the height stays |
| Vivaldi.RingHoldsLatest | coordinate/node.go:33-45 | after any adds the ring holds exactly the last samples, counted back from its index |
| Vivaldi.AddSample | coordinate/node.go:33-45 | keeps the index on the last write and the size |
| Vivaldi.SortedSorts | coordinate/node.go:47-55 | the median is taken from an ascending permutation of the samples |
| Vivaldi.AdjustmentIsOfLatest | coordinate/node.go:60-66 | the adjustment is the sum of the latest samples over twice the window |
| Vivaldi.AdjustmentOverRun | coordinate/node.go:182-191 | after every accepted sample of a run it is that of the latest latency differences |
| Vivaldi.RingIsDifferences | coordinate/node.go:182-191 | the ring is always that of the differences of all accepted samples |
| Vivaldi.ErrorMovesTowardsSample | coordinate/node.go:161-173 | the new error lies between the old one and the sample's deviation, unless cut at the maximum |
| Vivaldi.ForceTowardsMeasurement | coordinate/node.go:160-176 | the force pushes out exactly if the sample is longer than the distance, and by at most its share |
| VivaldiStep.ReportedDistance | coordinate/coordinate.go:87-104 | the distance reported is the adjusted one if positive and the plain one if not, in whole nanoseconds |
| VivaldiStep.RelaxMoves | coordinate/node.go:154-178 | the separation after relaxing is the old one plus cc times error over total error times latency difference, and the error moves by ce times that share, all written out with their limits |
| VivaldiStep.ForcedHeight | coordinate/coordinate.go:80-83 | a force changes the height by its proportion of both heights to the separation, down to the minimum |
| VivaldiStep.DifferenceIsPlain | coordinate/node.go:182-191 | the difference added is the filtered round trip less the plain distance from where the node relaxed to |
| VivaldiStep.NudgePullsInward | coordinate/node.go:195-199 | the nudge takes the squared reported distance over gravityRho off the distance from the origin, which shrinks exactly if the reported distance is not zero and that square is below twice the old one |
| VivaldiStep.NudgeFromOrigin | coordinate/node.go:195-199 | a node at the origin is moved off it by that square |
| VivaldiStep.RelaxPullsInward | coordinate/node.go:202-223 | an unusable sample changes nothing; otherwise the coordinate returned is that pull from the relaxed and adjusted one, or a fresh one after a drift, with one more reset |
| VivaldiStep.MedianIsMiddle | coordinate/node.go:47-55 | the median is a sample with the lower half of the sorted samples at or below it and the upper half at or above |
| VivaldiRuns.DriftsAreCounted | coordinate/node.go:217-220 | every drift of a run is counted, and a window of zero leaves the adjustment at zero |
| VivaldiRuns.ShapeStaysBounded | coordinate/node.go:154-223 | through every run, whatever peers claim, the dimension is fixed and the height at least its minimum |
| VivaldiRuns.CoordinateStaysBounded | coordinate/node.go:154-223 | with peer errors that are not negative the error also stays between zero and its maximum |
| VivaldiRuns.ErrorStaysIff | coordinate/node.go:163-173 | one sample keeps the error in range if and only if the error is zero or the tuned fall of the error is at most the sum of both errors, or its lower limit |
| VivaldiRuns.RunKeepsRangeIff | coordinate/node.go:202-223 | the error is in range at every moment of a run if and only if every accepted sample that does not reset the node meets that condition when it comes |
| VivaldiRuns.NegativePeerErrorEscapes | coordinate/node.go:202-223 | a new node with the default configuration accepts a sample from a peer that claims a negative error, and has a negative error afterwards |
| VivaldiRuns.SteadyAdjustment | coordinate/node.go:182-191 | after a window of round trips within a jitter of one value, at distances within a drift of one, the adjustment is half their difference up to half of both |
| VivaldiRuns.SteadyRoundTripIsReported | coordinate/coordinate.go:89-99 | if for a whole window both ends measured round trips within a jitter of one value, and their coordinates ended within a drift of the distances they had then, the distance they report is that value up to jitter and drift; exact if the round trip was constant and neither moved |
| Vivaldi.FilterIsInert | coordinate/node.go:144-151 | in every run the filtered round trip is the one just measured |
| VivaldiNode.LatencyRing.Add | coordinate/node.go:33-45 | advances and overwrites or extends |
| VivaldiNode.LatencyRing.Median | coordinate/node.go:47-55 | the middle of the sorted samples, 0 if none |
| VivaldiNode.LatencyRing.GetAdjustment | coordinate/node.go:60-66 | the summing loop |
| VivaldiNode.Compare | coordinate/node.go:156-167 | latency difference and deviation, and this node's share of the error, each with its lower limit |
| VivaldiNode.Relaxation | coordinate/node.go:169-176 | the new error and the force |
| VivaldiNode.Node.constructor | coordinate/node.go:83-94 | a node at the origin with no samples |
| VivaldiNode.Node.ForgetNode | coordinate/node.go:115-120 | drops a peer's ring |
| VivaldiNode.Node.AddLatency | coordinate/node.go:144-151 | updates a stored ring, drops a new one, and returns the median |
| VivaldiNode.Node.RelaxStep | coordinate/node.go:154-178 | updates the error, then applies the force |
| VivaldiNode.Node.Adjust | coordinate/node.go:182-191 | adds the difference and sets the adjustment, unless the window is 0 |
| VivaldiNode.Node.CenterNudge | coordinate/node.go:195-199 | applies the pull towards the origin |
| VivaldiNode.Node.Relax | coordinate/node.go:202-223 | refuses bad samples unchanged; otherwise filter, relax, adjust, nudge, and start again after a drift |

## Left out

- The memberlist library, gRPC, commands, mDNS, TLS, scripts, syslog and the wire encoding: a message is the value it encodes.
- SerfNode.Serf.Query: the response handler, which the original registers before its second size check, and the error for a missing address are not modelled.
- SerfNode.Serf.LocalState: the list of left nodes in the message is not modelled.
- SerfNode.Serf.Merge: the merging of the peer's left nodes at the end is not modelled; it is one batch add (`Inactive.BatchAddsFreshPrefix`).
- SerfNode.Serf.HandleQuery: the sender's address and node, the number of relays and the deadline of a query event, and the response to an internal query, are not modelled.
- Query responses, relays, event filters, tags and key lists: they add only easy members.
- The coalescer: it promises no property that spans its flushes.
- Trimming of the broadcast queues and bounded channels: queues and events are logs of what was put on them, so what a full channel drops is not modelled.
- Locks: a merge, the taking of a local state and each handler are one step; only the clock is interleaved.
- File system errors: their recovery is a compaction without an event. A crash inside a compaction, between the removal of the old file and the renaming, is not modelled.
- Dump: the code ignores write errors of its buffered writer until the flush; the model has none.
- Rounding, overflow and invalid floating-point numbers: coordinates are over the reals, and whether a number is finite is a parameter of a sample. Convergence of the coordinates is not stated.
- VivaldiNode.Node.AddLatency: the per-peer rings are values in the map, so aliasing between them is not modelled; `Vivaldi.FilterIsInert` shows the map stays empty.
- VivaldiNode.LatencyRing.Median: sorting is a specification function, because the original calls its library.
- Buffer.LBuffer.AddItem: the payload's bytes are values, so a caller that changes a slice after handing it over is not modelled.
- The level filter and the bounded channel of a log streamer: a streamer's offers are recorded before them.
- Reconnecting to failed nodes, and reading several wall clocks in one reap: a reap has one reading.

# A verified model of HPPS

This Dafny project models the algorithms of the HPPS parameter server and proves what they promise. `dafny verify
dfyconfig.toml` checks all of it. The modules follow the program's components.

**Collective communication.** `Blocks`, `BruckMap`, `Allgather`, `HalvingTopo`, `HalvingMap`, `Reduction`,
`ReduceScatter`, `BlockSplit` and `Allreduce` describe the Bruck all-gather, the recursive-halving reduce-scatter and
the two all-reduce paths as functions of what each rank receives. `Engine` and `Linkers` are the imperative code of one
rank: its methods take the received messages as a ghost history and are proved to post and compute exactly what those
functions say. `Network` is a generic asynchronous network with one ordered channel for every pair of machines (the
non-overtaking order of section 3.5 of MPI 3.1), in which a round is a post, a receive and the wait for the own send.
When that send completes is open; `Completion` says when it is bound to (the receiver has taken the message, or has the
receive open that takes it, as for the synchronous sends of section 3.4) and which protocols then complete. `Successive`
runs protocols in a row on the same channels. `Collective` puts both collectives on the network, `AllreduceNetwork` the
all-reduce of any size and any number of them in a row, and `EngineNetwork` the imperative engine. The main results hold
for every number of machines, every block partition and every interleaving.

**The synchronous scheduler.** `VectorClock` and `SyncScheduler` are the clocks and the two handlers with their drain
loops; `Lockstep` is the reason why workers with a common program stay level; `SyncState` and `SyncHandlers` show that
every handler keeps the invariant; `SyncProtocol` is the transition system of workers and server and holds the main
invariant. There a worker may have many Adds outstanding but sends nothing past a Get that is not answered, and its
messages arrive in the order sent. That order is an assumption: the worker actor has two threads on one mailbox
(hpps/frame/worker.cc:15-20), so a request can overtake an earlier one that is still being cut up. `Overtaking` delivers
any message under way and holds the main results, by a simulation; `OvertakenAdds` shows that the waiting it asks for is
needed. The common program is arbitrary. `Cluster` has several servers, with requests that go to some of them (the same
for all workers), and the array they hold. A key-value request reaches only the servers of its keys
(hpps/table/kv_table.h:57-84), so workers with different keys do not send a server the same requests, and
`UnevenWorkers` shows what then happens there: a Get behind more Adds than some other worker sends that server in all is
never answered. `AvgUpdater` and `AvgRounds` add the window average.

**Sharded tables.** `KVLayout` and `KVStore` are the open-addressing store, refining a map; `Sharding`, `KVTable` and
`KVGlobal` cut requests up, answer them and gather replies, refining one global map. `ArrayTable` and `Requests` do the
same for the array table, with the countdown that releases the caller; `Waiting` is that caller asleep.

**Samples.** `Feeder` cuts and joins samples into batches; `RecordIO` writes and reads record files; `Tensors`,
`Buffers` and `Bytes` are what they share.

**Smaller machines.** `SizeClass` and `Allocator` are the pooling allocator, `MpiFrame` the message framing, `AppMaster`,
`AppMasterOutcomes` and `AppMasterRuns` the callbacks of the YARN application master and their accounting of tasks.

Seven promises are false of the code as it stands, and are stated with the exact condition:

- After an abort the application master's main loop need not end: callbacks are accepted from the moment the resource
  manager's client is started, before the tasks are submitted, and tasks submitted to an aborted job stay pending until
  the job is aborted once more (`AppMasterRuns.AbortThenSubmission` is the shortest such run, and
  `AppMasterRuns.AbortedOnceMore` the way out). After an abort nothing is pending or running if and only if the job is
  not stuck in this way, or had no tasks (`AppMasterRuns.AbortEndsTheLoop`).
- The synchronous scheduler does not keep its promise for a Get sent directly behind an Add that is not waited for: the
  Get may overtake the Add, is answered without it, and the other workers' Gets are never answered
  (`SyncProtocol.OvertakenGetBlocks` is the shortest such run). With two workers or more all requests are handled over
  every run if and only if messages arrive in the order sent or workers wait before every such Get
  (`OvertakenAdds.CarefulIsExact`); then the promise holds (`Overtaking.SameParameters`).
- An all-reduce can hang when sends complete only once they are received, as MPI permits: rounding the block size up can
  leave the last block empty, and a message of no bytes is posted but never received. On several machines it completes if
  and only if no block is empty (`AllreduceNetwork.CompletesIfSync`); five elements over four machines hang
  (`AllreduceNetwork.FiveOverFour`). In a row of all-reduces a last one with an empty block hangs
  (`AllreduceNetwork.RowHangs`). When sends of no bytes complete at once all of them complete
  (`AllreduceNetwork.RowCompletes`).
- Waiting for a request need not end: setting the countdown wakes nobody, so a caller already asleep on a request without
  parts, such as a Get of no keys, is never woken. The wait ends if and only if the request has parts or the caller was
  not asleep yet (`Waiting.WaitReturns`, `Waiting.NeverWoken`).
- A tensor name in a record file comes back if and only if it is shorter than its field and has no zero byte
  (`RecordIO.KeptWhole`).
- A message with an empty blob can be sent but not received (`MpiFrame.Deserialize`): the receiver's blob checks that
  its size is positive. It comes back unchanged if and only if no blob is empty.
- The allocator's size class is the least sufficient power of two up to 2^63 (`SizeClass.ClassIsLeast`) and zero for
  every larger request (`SizeClass.ClassWraps`).

Modelling choices that hold throughout: integers are unbounded except where a width matters (offset flag, allocator
size, serialised fields); a failing check or fatal log is a result or a flag after which nothing happens; buffers of the
engine hold elements, and the byte counts are proved to be multiples of the element size; a history of received messages
stands for what the network delivers, and `Network` shows which histories are possible; hash maps are walked in an
arbitrary order.

## Model

| member | source | states |
|---|---|---|
| Bits.PowerOfTwoTest | hpps/net/allreduce_engine.cc:125 | `n & (n - 1)` is zero exactly when n is a power of two, for every n |
| BruckMap.Construct | hpps/net/allreduce_topo.cc:24-41 | the number of rounds is the least k with 2^k >= n, and round i pairs a rank with those 2^i ahead and behind, around the ring |
| BruckMap.InOutInverse | hpps/net/allreduce_topo.cc:32-39 | in every round sending and receiving ranks are inverse to each other, and nobody is its own peer |
| BruckMap.PeersDistinct | hpps/net/allreduce_topo.cc:32-39 | a rank hears from a different rank in every round |
| BruckMap.CountsMatch | hpps/net/allreduce_engine.cc:101-110 | the bytes a rank sends in a round are as many as its receiver awaits, for any block lengths |
| Allgather.HoldsRing | hpps/net/allreduce_engine.cc:97-115 | invariant of the rounds: after round i every rank holds, in order, the blocks of the min(2^i, n) ranks from its own on around the ring |
| Blocks.ThreeReversals | hpps/net/allreduce_engine.cc:116-119 | the three reversals rotate the buffer so that its last `head` elements come first |
| Allgather.AllgatherCorrect | hpps/net/allreduce_engine.cc:93-120 | for every n and any block lengths, zeros included, when the messages match every rank ends with block 0 ++ ... ++ block n-1 |
| Engine.Engine.Allgather | hpps/net/allreduce_engine.cc:93-120 | the imperative all-gather, with its write pointer and in-place reversals, posts exactly the messages of the model and leaves exactly its result; nothing beyond is touched |
| Engine.Engine.RotateRight | hpps/net/allreduce_engine.cc:117-119 | the in-place reversals on the array are the rotation |
| Blocks.ReverseRange | hpps/net/allreduce_engine.cc:117-119 | reversing a range in place reverses that range and nothing else |
| HalvingMap.Construct | hpps/net/allreduce_topo.cc:62-170 | the table of a rank is the closed form of grouping, partner and block ranges, with or without grouping, for every n |
| HalvingMap.ConstructGrouped | hpps/net/allreduce_topo.cc:95-168 | the grouped construction from the scanned tables gives the closed form |
| HalvingMap.ConstructUngrouped | hpps/net/allreduce_topo.cc:74-92 | the power-of-two construction gives the same closed form |
| HalvingMap.NodeTypes | hpps/net/allreduce_topo.cc:99-110 | exactly the last pairs of machines are leaders and others |
| HalvingMap.ScanMachines | hpps/net/allreduce_topo.cc:111-128 | the scan gives every machine its group and every group its first machine and its size |
| HalvingMap.BuildTables | hpps/net/allreduce_topo.cc:111-133 | the start of a group is its first machine: `group_block_start[g] == group_to_node[g]` |
| HalvingTopo.GroupsAndNodes | hpps/net/allreduce_topo.cc:97-128 | groups have one machine before the pairs and two from there on; group of first machine is the group, and first machines are never `Other` |
| HalvingTopo.NodesAndGroups | hpps/net/allreduce_topo.cc:97-145 | every machine lies in its group, an `Other` right behind its leader, and a leader always has its `Other` |
| HalvingTopo.PartnerInvolution | hpps/net/allreduce_topo.cc:146-148 | the partner is somebody else, and its partner is oneself |
| HalvingTopo.RunsTile | hpps/net/allreduce_topo.cc:149-166 | the two ranges of a round are the halves of the range of the round before |
| HalvingTopo.ResiduesSplit | hpps/net/allreduce_topo.cc:146-148 | the ranks whose inputs a rank holds after a round split into those it held and those its partner held |
| HalvingMap.MapsMirror | hpps/net/allreduce_topo.cc:144-167 | what one side sends in a round is what the other side receives, both ways, for every n |
| HalvingMap.RangesTile | hpps/net/allreduce_topo.cc:144-167 | send and receive range are adjacent and together make up the receive range of the round before, from all blocks down |
| ReduceScatter.ContributorsOnce | hpps/net/allreduce_engine.cc:126-159 | after each round a rank holds the inputs of exactly the ranks of its residue class, each once |
| ReduceScatter.ContributorsAll | hpps/net/allreduce_engine.cc:126-159 | at the end the contributions are all n ranks, each exactly once, including those relayed by leaders |
| ReduceScatter.HoldsPartial | hpps/net/allreduce_engine.cc:139-159 | invariant of the rounds: every element still in the range of a rank is the reduction of the contributions so far |
| Reduction.FoldPermutation | hpps/net/allreduce_engine.cc:157 | for an associative and commutative reducer the order of the contributions does not matter |
| Reduction.FoldNext | hpps/net/allreduce_engine.cc:76-78 | each next value is the second operand of the reducer |
| ReduceScatter.SourcesAreTargets | hpps/net/allreduce_engine.cc:127-171 | rank v awaits a message of w in a round exactly when w sends one to v |
| ReduceScatter.MessageLength | hpps/net/allreduce_engine.cc:128-170 | every message is as long as its receiver awaits |
| ReduceScatter.ReduceScatterCorrect | hpps/net/allreduce_engine.cc:122-175 | for every n, block partition and associative commutative reducer rank r ends with block r of the reduction of all inputs |
| Engine.Engine.ReduceScatter | hpps/net/allreduce_engine.cc:122-175 | the imperative reduce-scatter, reducing in place into the input, posts exactly the messages of the model and leaves its result |
| Engine.Engine.ExchangeAndReduce | hpps/net/allreduce_engine.cc:155-157 | one exchange sends the range of the partner and folds what comes back into the own range |
| Linkers.Reduce | hpps/net/allreduce_engine.cc:157 | the reducer combines element by element and changes only its range |
| Linkers.Link.SendRecv | hpps/net/mpi_net.h:202-217 | the message posted is the one before anything is received, and what is received fills exactly its range; the wait that follows is a step of `Network` |
| BlockSplit.SplitBytes | hpps/net/allreduce_engine.cc:43-52 | for every input size the starts are multiples of the step, clipped, and the lengths cover the input; when it consists of whole elements both are the element ones scaled, so aligned |
| BlockSplit.ByteStartIs | hpps/net/allreduce_engine.cc:43-50 | a block starts at a multiple of the elements divided by the machines, rounded up, but of one element at least |
| BlockSplit.NoBlockLonger | hpps/net/allreduce_engine.cc:43-51 | no block is longer than it has to be: any block size of which n hold the input is at least as long |
| BlockSplit.StartIsSum | hpps/net/allreduce_engine.cc:47-51 | the starts are the sums of the lengths before them |
| BlockSplit.SplitCovers | hpps/net/allreduce_engine.cc:43-52 | the blocks cover the input exactly, for every count and n |
| BlockSplit.NoBlockEmpty | hpps/net/allreduce_engine.cc:43-52 | no block is empty if and only if n - 1 times the elements divided by n, rounded up, are fewer than the elements |
| Engine.Engine.AllreduceByAllGather | hpps/net/allreduce_engine.cc:60-80 | gather and fold gives the fold of the gathered blocks; the buffer grows when it has to |
| Engine.Engine.FoldBuffer | hpps/net/allreduce_engine.cc:76-78 | folding the blocks onto the first one in place gives their fold in rank order |
| Allreduce.FoldBlocksIsFold | hpps/net/allreduce_engine.cc:76-78 | the fold of the blocks is, element by element, the left fold of the inputs in rank order |
| Allreduce.SmallCorrect | hpps/net/allreduce_engine.cc:59-80 | the gathering path gives every rank the left fold of all inputs, for any reducer |
| Allreduce.LargeCorrect | hpps/net/allreduce_engine.cc:41-56 | the scatter and gather path gives every rank the same left fold, for associative commutative reducers |
| Allreduce.PathsAgree | hpps/net/allreduce_engine.cc:35-80 | the two paths give the same result, on any two ranks and for any split into blocks |
| Engine.Engine.Allreduce | hpps/net/allreduce_engine.cc:35-57 | the method takes the path by the two tests on the sizes, leaves the result of that path, posts exactly the packets of its phases in order and receives no more than they await |
| Allreduce.AllreduceCorrect | hpps/net/allreduce_engine.cc:35-80 | whichever path is taken the result is the left fold of all inputs in rank order |
| Network.ReceiveLoop | hpps/net/mpi_net.h:190-200 | the receive loop returns the first non-empty message when that is as long as it awaits, dropping empty ones before it, and blocks while there are only empty ones |
| Network.ReceiveExact | hpps/net/mpi_net.h:205-217 | a receive that awaits as much as the first non-empty message brings gets just that message |
| Network.NeverTruncated | hpps/net/mpi_net.h:202-220 | over every interleaving of sends and receives no receive is cut short or joins two messages |
| Network.DoneIsMatched | hpps/net/mpi_net.h:202-220 | when all are done each received in every round what its peer posted in it |
| Network.NextMayStart | hpps/net/mpi_net.h:202-220 | a finished run leaves only empty messages behind, so whatever protocol comes next may start from its channels |
| Completion.OnlyEmptySendsBlock | hpps/net/mpi_net.h:202-220 | when no machine is bound to move on, some machine waits for a send of no cells that it made while also receiving |
| Completion.Progress | hpps/net/mpi_net.h:202-220 | until all are done some machine is bound to move on, with sends that complete only once received, if no exchange is empty; and for any exchanges if sends of no cells complete at once |
| Completion.SyncCompletes | hpps/net/mpi_net.h:202-220 | with synchronous sends and no empty exchange every run can be continued until all are done |
| Completion.EmptyExchangeBlocks | hpps/net/mpi_net.h:202-220 | with synchronous sends a machine never gets past an empty exchange whose receiver awaits no cells of it again |
| Completion.RunsAreFinite | hpps/net/mpi_net.h:202-220 | no run takes more steps than three a machine and round: post, receive, wait |
| Successive.EachMatched | hpps/net/allreduce_engine.cc:35-120 | protocols run one after the other without waiting for each other in between: each gets matched histories of its own |
| Collective.AllgatherOverNetwork | hpps/net/allreduce_engine.cc:93-120 | over every complete asynchronous run the all-gather gives every rank all blocks in order |
| Collective.AllreduceOverNetwork | hpps/net/allreduce_engine.cc:41-56 | over every complete asynchronous run the large all-reduce gives every rank the fold of all inputs |
| Collective.GatherCompletesIfSync | hpps/net/allreduce_engine.cc:93-120 | with synchronous sends an all-gather of several blocks completes if and only if no block is empty |
| Collective.LargeCompletesIfSync | hpps/net/allreduce_engine.cc:41-56 | with synchronous sends scatter and gather over several machines completes if and only if no block is empty |
| AllreduceNetwork.AllreduceInRun | hpps/net/allreduce_engine.cc:35-80 | over every complete asynchronous run an all-reduce of any size gives every rank the fold of all inputs, on the path its size selects |
| AllreduceNetwork.AllreducesInARow | hpps/net/allreduce_engine.cc:35-80 | of any number of all-reduces in a row, interleaved anyhow, each gives every rank the fold of its own inputs |
| AllreduceNetwork.RowCompletes | hpps/net/allreduce_engine.cc:35-80 | such a row neither goes on for ever nor deadlocks, when sends of no cells complete at once or no block is empty |
| AllreduceNetwork.RowHangs | hpps/net/allreduce_engine.cc:35-80 | with synchronous sends a row whose last all-reduce has an empty block never completes |
| AllreduceNetwork.RowNeverTruncated | hpps/net/allreduce_engine.cc:35-80 | nor is any of its receives cut short |
| AllreduceNetwork.CompletesIfSync | hpps/net/allreduce_engine.cc:35-57 | with synchronous sends an all-reduce completes if and only if its sizes leave no block empty, which is a test on machines and elements |
| AllreduceNetwork.SizesDecide | hpps/net/allreduce_engine.cc:38-46 | an input takes the small path when it is shorter than 4096 bytes or has fewer elements than machines; on the other path some block is empty if and only if no block size lets n of them, but not n - 1, hold the input |
| AllreduceNetwork.FourKilobytes | hpps/net/allreduce_engine.cc:38-41 | over two machines 1024 floats are scattered and 1023 gathered whole |
| AllreduceNetwork.FiveOverFour | hpps/net/allreduce_engine.cc:43-52 | five elements of 1024 bytes over four machines leave the last block empty, and no run of synchronous sends completes |
| AllreduceNetwork.EightOverFour | hpps/net/allreduce_engine.cc:43-52 | eight elements of 1024 bytes over four machines make blocks of two, and every run of synchronous sends goes on to the end |
| EngineNetwork.PostsSentPackets | hpps/net/mpi_net.h:181-220 | a post in the network appends to a channel exactly the packets of that round for its receiver |
| EngineNetwork.EngineInRun | hpps/net/allreduce_engine.cc:35-120 | the imperative all-reduce of one rank, fed with what the network delivers in any complete run, outputs the fold of all inputs and posts exactly the packets the protocol posts |
| VectorClock.VectorClock.Update | hpps/frame/scheduler/sync_scheduler.h:34-44 | one more event of worker i, whose effect `VectorClock.TickInStep` describes |
| VectorClock.VectorClock.MinElement | hpps/frame/scheduler/sync_scheduler.h:79-81 | the scan finds the least local count |
| VectorClock.VectorClock.MaxElement | hpps/frame/scheduler/sync_scheduler.h:72-78 | the scan finds the greatest count |
| VectorClock.TickInStep | hpps/frame/scheduler/sync_scheduler.h:33-44 | the global count stays the least local one, and the answer is true exactly when all counts are equal now |
| VectorClock.TickHeldBack | hpps/frame/scheduler/sync_scheduler.h:33-44 | while another worker is behind, an event moves only the own count and the answer is false |
| SyncScheduler.SyncScheduler.ProcessAdd | hpps/frame/scheduler/sync_scheduler.cc:29-51 | the handler with its drain loop takes the scheduler from the old to the specified new state, checks included |
| SyncScheduler.SyncScheduler.ProcessGet | hpps/frame/scheduler/sync_scheduler.cc:53-76 | the same for Gets |
| SyncScheduler.GetsInOrder | hpps/frame/scheduler/sync_scheduler.cc:43-49 | unless a check fails all cached Gets are answered, in the order they came |
| SyncScheduler.AddsInOrder | hpps/frame/scheduler/sync_scheduler.cc:67-74 | unless a check fails all cached Adds are applied, in the order they came |
| Lockstep.NobodyAhead | hpps/frame/scheduler/sync_scheduler.cc:14-20 | a worker whose next request is an Add is behind nobody in Gets, and the other way round |
| Lockstep.TakeKeepsLockstep | hpps/frame/scheduler/sync_scheduler.cc:29-76 | a request taken while not ahead keeps the workers in lockstep, and finds all of them level in requests of the other kind |
| Lockstep.SameBefore | hpps/frame/scheduler/sync_scheduler.cc:14-20 | requests at the same place of the program find the same requests of the other kind done, in the same order |
| SyncState.ServeAll | hpps/frame/scheduler/sync_scheduler.cc:43-49 | draining the cached Gets keeps every invariant, fails no check and empties the cache |
| SyncState.ApplyAll | hpps/frame/scheduler/sync_scheduler.cc:67-74 | draining the cached Adds keeps every invariant, fails no check, keeps waiting Gets rightly waiting and empties the cache |
| SyncHandlers.NoCachedAdd | hpps/frame/scheduler/sync_scheduler.cc:42 | an Add that is not cached finds no cached Add, so the check of line 42 holds |
| SyncHandlers.AddGood | hpps/frame/scheduler/sync_scheduler.cc:29-51 | handling an Add in a good state leads to a good state |
| SyncHandlers.GetGood | hpps/frame/scheduler/sync_scheduler.cc:53-76 | handling a Get in a good state leads to a good state |
| SyncProtocol.NoCheckFails | hpps/frame/scheduler/sync_scheduler.cc:29-76 | with messages in the order sent: in every reachable state no check has failed, a cached Add has its worker ahead in Gets, a cached Get has it ahead in Adds or with cached ones |
| SyncProtocol.ProgramOrder | hpps/frame/scheduler/sync_scheduler.cc:29-76 | with messages in the order sent: in every reachable state the requests handled for a worker are the first of its program, in order, once each |
| SyncProtocol.GetSeesItsAdds | hpps/frame/scheduler/sync_scheduler.cc:17-20 | with messages in the order sent: when a Get is answered the Adds applied of every worker are exactly those the program puts before it, in that order |
| SyncProtocol.TableNext | hpps/frame/scheduler/sync_scheduler.cc:29-76 | the table is what the updater makes of the Adds one after the other; Gets leave it |
| SyncProtocol.SameParameters | hpps/frame/scheduler/sync_scheduler.cc:17-20 | with messages in the order sent: Gets at one place of the program read the same table, for any updater, any number of workers and any interleaving |
| SyncProtocol.NoDeadlock | hpps/frame/scheduler/sync_scheduler.cc:29-76 | with messages in the order sent: a reachable state where nobody can send and nothing is to be delivered has empty caches and every worker's whole program handled in order |
| SyncProtocol.RunsAreFinite | hpps/frame/scheduler/sync_scheduler.cc:29-76 | with messages in the order sent: no run takes more steps than two a request |
| SyncProtocol.PipelinedGetsSeeMore | hpps/frame/scheduler/sync_scheduler.cc:53-76 | a concrete order of messages, with a worker sending past its Get, in which another Get sees two Adds of that worker instead of one |
| SyncProtocol.OvertakenGetBlocks | hpps/frame/scheduler/sync_scheduler.cc:29-76 | a concrete order of messages, with a Get that overtakes its worker's Add: it is answered before any Add, and at the end that Add and the other worker's Get are left in the caches |
| Overtaking.Simulated | hpps/frame/scheduler/sync_scheduler.cc:29-76 | messages may overtake each other: over every run in which messages arrive in order, or workers wait before each Get directly behind an Add, the scheduler behaves as in some run in order |
| Overtaking.GetSeesItsAdds | hpps/frame/scheduler/sync_scheduler.cc:17-20 | over every such run a Get is answered when the Adds applied of every worker are, as a multiset, exactly those the program puts before it |
| Overtaking.SameParameters | hpps/frame/scheduler/sync_scheduler.cc:17-20 | so Gets at one place of the program read the same table, for any updater, any number of workers, any interleaving and any overtaking |
| Overtaking.NoDeadlock | hpps/frame/scheduler/sync_scheduler.cc:29-76 | where nobody can send and nothing is under way over such a run, the caches are empty and every request of every worker is handled, once |
| Overtaking.RunsAreFinite | hpps/frame/scheduler/sync_scheduler.cc:29-76 | no run, by any rules, takes more steps than two a request |
| OvertakenAdds.StaysBlocked | hpps/frame/scheduler/sync_scheduler.cc:29-76 | once one worker got ahead in Gets and all others in Adds the scheduler stays so whatever arrives, and applies no Add of the first |
| OvertakenAdds.GetTooEarly | hpps/frame/worker.cc:15-20 | when workers do not wait before some Get directly behind an Add, and messages may overtake, some run answers a Get without the Adds before it |
| OvertakenAdds.WaitingIsNeeded | hpps/frame/worker.cc:15-20 | and, with two workers or more, some run ends with requests never handled |
| OvertakenAdds.CarefulIsExact | hpps/frame/scheduler/sync_scheduler.cc:14-76 | with two workers or more every run that cannot go on has handled all requests if and only if messages arrive in the order sent or workers wait before every Get directly behind an Add |
| Cluster.SameAnswers | hpps/frame/scheduler/sync_scheduler.cc:17-20 | with several servers, each with a scheduler of its own, and every request sent to any set of them (the same for all workers), each server asked answers the Gets at one place from the same table |
| Cluster.SameArray | hpps/frame/scheduler/sync_scheduler.cc:17-20 | so the Gets at one place that go to all servers read the same whole array, though the servers apply the Adds of a round in different orders |
| Cluster.NoDeadlock | hpps/frame/scheduler/sync_scheduler.cc:29-76 | with several servers, too, and requests to any sets of them, a state where nothing moves has every request handled once at every server it goes to |
| UnevenWorkers.OthersWait | hpps/frame/scheduler/sync_scheduler.cc:29-76 | when one worker sends a server nothing, the server answers exactly the Gets whose worker sent no Add before and applies exactly the Adds whose worker did not begin with a Get; all else stays in the caches |
| UnevenWorkers.NeverAnswered | hpps/frame/scheduler/sync_scheduler.cc:29-76 | over any arrivals at one server, a Get is never answered when its worker has sent more Adds before it than some other worker sends in all |
| AvgUpdater.AvgUpdater.Update | hpps/updater/avg_updater.h:21-33 | the loops add the delta up and, when all workers have, write the averages from the offset on and clear the sum |
| AvgUpdater.UpdateIs | hpps/updater/avg_updater.h:21-33 | the last delta of a round writes sum over workers at the offset and nothing else, and clears sum and count; the others are only added up |
| AvgRounds.AddsInRound | hpps/frame/scheduler/sync_scheduler.cc:14-20 | with the program Add, Get, ... just before an Add every worker has added as often as it, or once more |
| AvgRounds.RoundStep | hpps/updater/avg_updater.h:21-33 | each update adds one worker to the round; the one that completes it leaves the mean and an empty accumulator |
| AvgRounds.MeanAtGet | hpps/updater/avg_updater.h:21-33 | at every Get the accumulator is empty and the data is the mean of all workers' deltas of that round |
| Bits.MaskIsModulo | hpps/kvstore/kvstore.cc:45 | masking by a power of two less one is the remainder, for every number and power |
| KVLayout.FlagFacts | hpps/kvstore/kvstore.cc:67-68 | for offsets below the flag bit setting, clearing and testing it are adding, subtracting and comparing |
| KVLayout.NextSlot | hpps/kvstore/kvstore.cc:73 | one probe further is one slot further around the end |
| KVLayout.OnPath | hpps/kvstore/kvstore.cc:47-74 | a stored key is met within the probe limit and before any empty slot |
| KVLayout.NotFound | hpps/kvstore/kvstore.cc:48-64 | a search that ends at an empty slot, or without probes left, proves the key absent |
| KVLayout.InsertLaid | hpps/kvstore/kvstore.cc:52-61 | an insertion keeps keys unique, paths gap-free and stretches distinct |
| KVLayout.InsertView | hpps/kvstore/kvstore.cc:52-61 | an insertion adds one entry to the map and changes no other |
| KVLayout.RoomLeft | hpps/kvstore/kvstore.cc:29-30 | while a slot is empty there is a stretch of data for one more key |
| Buffers.OtherRegion | hpps/kvstore/kvstore.cc:60 | writing one key's stretch leaves every other one alone |
| KVLayout.OverwriteView | hpps/kvstore/kvstore.cc:105-111 | writing values and flag of one key changes its entry and no other |
| KVStore.KVStore.constructor | hpps/kvstore/kvstore.cc:19-33 | the capacity is the least power of two not below the request, and the store holds key 0 with immutable zeros and nothing else |
| KVStore.KVStore.Get | hpps/kvstore/kvstore.cc:42-77 | a look-up finds exactly the map's entry; it is fatal if and only if the key is missing and its 32 slots are taken; a read-only one changes nothing; another one adds the key |
| KVStore.KVStore.EmptySlotOnPath | hpps/kvstore/kvstore.cc:13-74 | with an empty slot among the 32 from the remainder of the key on, around the end, the path is not full, so no look-up of the key is fatal |
| KVStore.KVStore.EmptySlotOf | hpps/kvstore/kvstore.cc:13-74 | and when the path is not full one of these 32 slots is empty |
| KVStore.KVStore.FullPathIsLong | hpps/kvstore/kvstore.cc:13-74 | no look-up is fatal while fewer than 32 keys are stored and a slot is empty |
| KVStore.KVStore.AddEntry | hpps/kvstore/kvstore.cc:52-61 | the new entry takes the next stretch of data |
| KVStore.KVStore.Set | hpps/kvstore/kvstore.cc:99-112 | after a Set the map has the key with these values and this flag, and is otherwise unchanged |
| KVStore.KVStore.AddBlackList | hpps/kvstore/kvstore.cc:133-136 | key 0 holds immutable zeros |
| KVTable.Partition | hpps/table/kv_table.h:57-84 | every server with keys gets exactly its keys, in order, each with its own row; the number returned is that of the servers |
| KVTable.KVServerTable.ProcessGet | hpps/table/kv_table.h:106-129 | the reply holds for every key its values, or the initial ones when it is new, duplicates included |
| KVTable.KVServerTable.ProcessAdd | hpps/table/kv_table.h:131-149 | when all keys are known nothing is fatal and each row is added to its key in order; immutable keys are left alone |
| KVTable.FetchServed | hpps/table/kv_table.h:106-129 | a Get changes the answer for no key; a new key has the initial values and may be added to |
| KVTable.AddElsewhere | hpps/table/kv_table.h:131-149 | adding leaves other keys and immutable entries alone |
| KVTable.AddOne | hpps/table/kv_table.h:143-147 | one row is added to its key by the updater, the entry first and the row second |
| KVTable.AddInTurn | hpps/table/kv_table.h:131-149 | rows are added one after the other, also those of one key |
| KVTable.SetLast | hpps/table/kv_table.h:86-95 | of the rows of one key the last one stays |
| KVTable.SetElsewhere | hpps/table/kv_table.h:86-95 | and other keys keep their entries |
| Sharding.SelectAt | hpps/table/kv_table.h:73-82 | every key and its row stand at their place: behind those of the same server before them |
| KVGlobal.KVWorkerTable.ProcessReplyGet | hpps/table/kv_table.h:86-95 | the rows of a reply are set in order; it is fatal only at a key that is not stored and has no free slot on its path, with the rows before it set |
| KVGlobal.KVWorkerTable.GetFromLocal | hpps/table/kv_table.cc:20-32 | the rows read are those of the keys; it is short of one exactly when a key is missing |
| KVGlobal.FetchSharded | hpps/table/kv_table.h:63-82 | Gets on the parts keep the servers in agreement with one map |
| KVGlobal.AddSharded | hpps/table/kv_table.h:63-82 | Adds on the parts keep the servers in agreement with one map |
| KVGlobal.ShardsStandForOneMap | hpps/table/kv_table.h:57-149 | over any run of Gets and Adds each server holds its share of the one map |
| KVGlobal.ReadAfterAdd | hpps/table/kv_table.h:131-149 | what a Get reads of a known key after an Add of a row is the updated value |
| KVGlobal.KnownAfterGet | hpps/table/kv_table.h:106-129 | after a Get its keys are known, new ones with the initial values |
| KVGlobal.OrdersMayDiffer | hpps/table/kv_table.h:57-149 | the operations of different clients may reach the servers in different orders: each server holds its share of one map, made key by key by the order of the key's server |
| KVGlobal.GetReadsOneMap | hpps/table/kv_table.cc:14-32 | after the replies, in any order, reading locally gives the one map's values for every key asked |
| KVGlobal.GetReadsPrefixes | hpps/table/kv_table.h:57-149 | a Get among the operations of others, each server answering at a point of its own order: the value read of a key is the one its server's operations up to that point leave in the one map |
| KVGlobal.KeyZeroStays | hpps/table/kv_table.h:143-147 | key 0 keeps its zeros over any run |
| ArrayTable.SizesAgree | hpps/table/array_table.cc:18-22 | the stretches cut by the worker are as long as the servers' stores, so the size checks hold |
| ArrayTable.StretchIs | hpps/table/array_table.cc:14-25 | all stretches are the size divided by the servers, rounded down, one behind the other, and the last one has the rest |
| ArrayTable.ArrayWorker.constructor | hpps/table/array_table.cc:14-25 | the offsets are the closed form |
| ArrayTable.ArrayWorker.Partition | hpps/table/array_table.cc:74-91 | every server gets its stretch |
| ArrayTable.ArrayWorker.ProcessReplyGet | hpps/table/array_table.cc:94-100 | a reply goes to its place and the rest is unchanged |
| ArrayTable.AddSharded | hpps/table/array_table.cc:123-133 | updating the stretches is updating the array, for element-wise updaters with any state an element |
| Requests.WorkerTable.NewRequest | hpps/frame/table_interface.cc:75-80 | every request has a number and a waiter of its own |
| Requests.WorkerTable.Notify | hpps/frame/table_interface.cc:140-145 | a reply counts down its own request only |
| Requests.WorkerTable.Forget | hpps/frame/table_interface.cc:118-131 | a request waited for loses its waiter, the others keep theirs |
| Requests.NextInv | hpps/frame/worker.cc:47-101 | sending, copying and counting, interleaved anyhow, keep the countdown equal to the replies not yet counted and copied stretches in place |
| Requests.WaitReturnsTheArray | hpps/frame/worker.cc:95-101 | whenever the countdown lets Wait return, all replies were copied and the caller holds the whole array |
| Waiting.WaitReturns | hpps/common/waiter.h:17-29 | when nothing is left to happen the caller has returned if and only if its request has parts or it had not fallen asleep before the countdown was set |
| Waiting.NeverWoken | hpps/common/waiter.h:17-29 | the caller of a request without parts falls asleep, then the countdown is set to zero, and nobody wakes it |
| Waiting.RunsAreFinite | hpps/common/waiter.h:17-29 | every run of a request ends |
| Feeder.Split | hpps/feeder/record_io.cc:162-250 | without auxiliary tensors the two parts of a sample are its first rows and its other rows, in every column |
| Feeder.Task.ReadBatchTensor | hpps/feeder/feeder.cc:110-148 | the samples taken make up exactly one batch and, with what is cached and unread, all rows there were, in order |
| Feeder.MergeColumn | hpps/feeder/feeder.cc:153-182 | the joined column holds the columns of the samples one after the other and has the sum of their rows |
| Feeder.Task.AssembleBatch | hpps/feeder/feeder.cc:89-108 | a batch holds the first rows of those cached and unread |
| Feeder.Task.ProduceBatch | hpps/feeder/feeder.cc:64-87 | a batch is pushed exactly when a full one is left; no row is lost, repeated or moved; the task goes back exactly while rows are left |
| Feeder.Task.RunTask | hpps/feeder/feeder.cc:50-87 | a file yields exactly sample_count / batch_size batches |
| Feeder.BatchIsSlice | hpps/feeder/feeder.cc:64-183 | batch k is rows k * batch_size up to (k + 1) * batch_size of the file, in every column |
| RecordIO.RecordIO.WriteHeader | hpps/feeder/record_io.cc:23-42 | the bytes of the header |
| RecordIO.KeptWhole | hpps/feeder/record_io.cc:34-37 | a name is kept in its field if and only if it is shorter than the field and has no zero byte |
| RecordIO.KeptCut | hpps/feeder/record_io.cc:34-37 | another name is cut before its first zero, and to 31 characters |
| RecordIO.RecordIO.ReadHeader | hpps/feeder/record_io.cc:53-80 | reading a header gives back version, count, configurations and of every name what its field keeps |
| RecordIO.RecordIO.WriteSample | hpps/feeder/record_io.cc:86-112 | a sample is appended and its rows counted; it fails exactly when a tensor is missing |
| RecordIO.RecordIO.ReadSampleAsArray | hpps/feeder/record_io.cc:114-141 | reading a sample gives back shapes and data and stops right behind it |
| RecordIO.RecordIO.WriteFinalize | hpps/feeder/record_io.cc:152-160 | only the eight bytes of the count change |
| RecordIO.PatchedHeader | hpps/feeder/record_io.cc:152-155 | the patched file is the one a header with the final count would have begun |
| RecordIO.PrimaryRows | hpps/feeder/record_io.cc:90-111 | when all tensors of level 0 that are no auxiliary ones have the same number of rows, that is what is counted |
| RecordIO.LastPrimaryCounts | hpps/feeder/record_io.cc:82-111 | the rows counted are those of the last tensor of level 0 that is no auxiliary one |
| RecordIO.OthersCountOne | hpps/feeder/record_io.cc:82-111 | a sample without such a tensor counts as one |
| RecordIO.HeaderLength | hpps/feeder/record_io.cc:22-41 | a header takes 14 bytes and 38 for every tensor |
| RecordIO.TensorLength | hpps/feeder/record_io.cc:99-109 | a tensor takes a byte, four for every dimension and the bytes of its elements, eight or four each by its type |
| RecordIO.WriteFile | hpps/feeder/record_io.cc:23-160 | header, any samples and the patch give a file whose count is the sum of the rows of all samples |
| RecordIO.ReadFile | hpps/feeder/record_io.cc:53-141 | reading that file gives back everything written |
| SizeClass.ClassIsLeast | hpps/common/allocator.cc:92-104 | the smeared size is the least power of two that is at least 32 and at least the request, up to 2^63 |
| SizeClass.ClassWraps | hpps/common/allocator.cc:96-103 | beyond 2^63 the sum wraps around to zero |
| Allocator.FreeList.Pop | hpps/common/allocator.cc:49-57 | a block handed out had no owner; the list stays acyclic and holds exactly the blocks without owners |
| Allocator.FreeList.Push | hpps/common/allocator.cc:59-63 | a block without owners becomes the first of the list |
| Allocator.MemoryBlock.Unlink | hpps/common/allocator.cc:76-80 | one owner fewer; exactly the last one returns the block |
| Allocator.MemoryBlock.Link | hpps/common/allocator.cc:87-89 | one owner more |
| Allocator.SmartAllocator.Alloc | hpps/common/allocator.cc:91-114 | the block is of the request's class, nobody owned it, and all other owners are as before |
| Allocator.SmartAllocator.Free | hpps/common/allocator.cc:116-118 | one owner fewer, and back to the list with the last; no other block is affected |
| Allocator.SmartAllocator.Refer | hpps/common/allocator.cc:120-122 | one owner more |
| MpiFrame.Serialize | hpps/net/mpi_net.h:222-249 | the buffer, allocated before, is filled exactly with header, sized blobs and end marker |
| MpiFrame.FrameLength | hpps/net/mpi_net.h:225-242 | a frame takes 32 bytes of header, 8 for every size and the end marker, and the blobs |
| MpiFrame.Deserialize | hpps/net/mpi_net.h:251-276 | the very message comes back and exactly the bytes written are read, whatever the payload; receiving fails if and only if a blob is empty |
| Bytes.DecodeEncode | hpps/net/mpi_net.h:235-242 | an integer that fits survives the copy through its bytes |
| Bytes.DecodeSplit | hpps/net/mpi_net.h:235-242 | bytes further on weigh more |
| AppMaster.ApplicationMaster.OnContainersAllocated | binding/yarn/src/main/java/org/apache/hadoop/yarn/hpps/ApplicationMaster.java:476-496 | containers go to the pending tasks in order, others to the dummy task |
| AppMaster.ApplicationMaster.AbortJob | binding/yarn/src/main/java/org/apache/hadoop/yarn/hpps/ApplicationMaster.java:504-524 | pending and running tasks are killed, once each, and running containers stopped |
| AppMaster.ApplicationMaster.HandleFailure | binding/yarn/src/main/java/org/apache/hadoop/yarn/hpps/ApplicationMaster.java:531-564 | failed tasks are counted and pending again, or killed when the job is aborted meanwhile |
| AppMaster.ApplicationMaster.OnContainersCompleted | binding/yarn/src/main/java/org/apache/hadoop/yarn/hpps/ApplicationMaster.java:572-608 | successes finish, failures are handled together, and a memory kill aborts at once |
| AppMasterOutcomes.AllocationOutcome | binding/yarn/src/main/java/org/apache/hadoop/yarn/hpps/ApplicationMaster.java:476-496 | after an abort all containers run dummies; before, those on failed hosts do, and every other one gets a pending task, in order, as long as there are any |
| AppMasterOutcomes.AbortOutcome | binding/yarn/src/main/java/org/apache/hadoop/yarn/hpps/ApplicationMaster.java:504-524 | every pending and running task is killed and no other, running containers are stopped, and what finished stays |
| AppMasterOutcomes.FailureOutcome | binding/yarn/src/main/java/org/apache/hadoop/yarn/hpps/ApplicationMaster.java:531-564 | the handler aborts if and only if a failed task has used up its attempts; if not, exactly the failed tasks are pending again, with one attempt more and no container, and nothing is killed |
| AppMasterOutcomes.FailedHosts | binding/yarn/src/main/java/org/apache/hadoop/yarn/hpps/ApplicationMaster.java:545-550 | if the job goes on exactly the hosts of failed containers join the black list, and these containers are stopped |
| AppMasterOutcomes.SuccessesFinish | binding/yarn/src/main/java/org/apache/hadoop/yarn/hpps/ApplicationMaster.java:572-608 | without a memory kill exactly the tasks finish whose running container reported success |
| AppMasterOutcomes.LastFailureAborts | binding/yarn/src/main/java/org/apache/hadoop/yarn/hpps/ApplicationMaster.java:572-608 | without a memory kill completions abort the job if and only if a task that failed has used up its attempts |
| AppMasterOutcomes.FailuresAreRetried | binding/yarn/src/main/java/org/apache/hadoop/yarn/hpps/ApplicationMaster.java:572-608 | if they do not, exactly the failed tasks are pending again, nothing is killed and the other containers run on |
| AppMasterOutcomes.MemoryKillAborts | binding/yarn/src/main/java/org/apache/hadoop/yarn/hpps/ApplicationMaster.java:585-602 | a memory kill of a running container aborts the job; all running tasks without a success are killed |
| AppMasterRuns.AllStopped | binding/yarn/src/main/java/org/apache/hadoop/yarn/hpps/ApplicationMaster.java:508-516 | walking the running tasks in any order kills each exactly once |
| AppMasterRuns.AbortInv | binding/yarn/src/main/java/org/apache/hadoop/yarn/hpps/ApplicationMaster.java:504-524 | an abort keeps every task in exactly one place and leaves nothing pending or running |
| AppMasterRuns.FailAllInv | binding/yarn/src/main/java/org/apache/hadoop/yarn/hpps/ApplicationMaster.java:531-558 | handling failures, with aborts in between, keeps every task in exactly one place |
| AppMasterRuns.AlwaysAccounted | binding/yarn/src/main/java/org/apache/hadoop/yarn/hpps/ApplicationMaster.java:300-608 | over every order of callbacks each task is in exactly one of pending, running, finished and killed, and never tried more often than allowed |
| AppMasterOutcomes.FinishedBySuccess | binding/yarn/src/main/java/org/apache/hadoop/yarn/hpps/ApplicationMaster.java:572-584 | over every order of callbacks a task is finished only if its container reported success while it ran |
| AppMasterOutcomes.StartErrorRetries | binding/yarn/src/main/java/org/apache/hadoop/yarn/hpps/ApplicationMaster.java:456-458 | a container that cannot be started has its task tried again, unless that was the last attempt |
| AppMasterOutcomes.AbortHasReason | binding/yarn/src/main/java/org/apache/hadoop/yarn/hpps/ApplicationMaster.java:504-608 | over every order of callbacks a job is aborted only after an abort call, a memory kill of a running container or a task that used up its attempts |
| AppMasterOutcomes.WhyAborted | binding/yarn/src/main/java/org/apache/hadoop/yarn/hpps/ApplicationMaster.java:504-608 | over every orderly run without the first two some killed task failed exactly as often as allowed |
| AppMasterRuns.DoneIsComplete | binding/yarn/src/main/java/org/apache/hadoop/yarn/hpps/ApplicationMaster.java:270-277 | when the main loop's test holds finished and killed tasks are all tasks |
| AppMasterRuns.StuckIsPending | binding/yarn/src/main/java/org/apache/hadoop/yarn/hpps/ApplicationMaster.java:226-275 | while a job is stuck (submitted to after an abort, and not aborted since) exactly the submitted tasks are pending and none runs |
| AppMasterRuns.SubmittedTooLate | binding/yarn/src/main/java/org/apache/hadoop/yarn/hpps/ApplicationMaster.java:226-275 | tasks submitted to an aborted job stay pending whatever callbacks follow, short of another abort |
| AppMasterRuns.AbortThenSubmission | binding/yarn/src/main/java/org/apache/hadoop/yarn/hpps/ApplicationMaster.java:226-275 | the shortest such run: an abort and then the submission leave every task pending |
| AppMasterRuns.AbortEndsTheLoop | binding/yarn/src/main/java/org/apache/hadoop/yarn/hpps/ApplicationMaster.java:268-275 | over every order of callbacks, once a job is aborted nothing is pending or running, as the main loop's end needs, if and only if the job is not stuck (or had no tasks) |
| AppMasterRuns.AbortedOnceMore | binding/yarn/src/main/java/org/apache/hadoop/yarn/hpps/ApplicationMaster.java:504-524 | one more abort of a stuck job, whatever came before, ends the main loop with every task finished or killed |

## Left out

- Linkers.Link.SendRecv: the wait for the own send and the reuse of its buffer are not part of the method; `Network` has the wait as a step of its own, which any run may take at any time after the receive.
- The MPI and ZMQ calls, sockets, files, HDFS, YARN client calls, logging, timers, the dashboard and the bindings: they are I/O or foreign code; their results are parameters.
- Floating-point rounding: reducers are arbitrary functions and averages are exact.
- `KVStore::Clear`, `Store` and `Load`: they touch only the first slots, so they do not fit scattered keys.
- `RecordIO::Split` with auxiliary tensors: only samples without them are split here.
- `ProcessFinishTrain`: its only caller is commented out.
- SyncProtocol.NoCheckFails: assumes that messages arrive in the order sent; `Overtaking.NoDeadlock` does without.
- SyncProtocol.ProgramOrder: assumes that messages arrive in the order sent; the Adds between two Gets may else be handled in any order (`Overtaking.GetSeesItsAdds`).
- SyncProtocol.GetSeesItsAdds: assumes that messages arrive in the order sent; `Overtaking.GetSeesItsAdds` does without.
- SyncProtocol.SameParameters: assumes that messages arrive in the order sent; `Overtaking.SameParameters` does without.
- SyncProtocol.NoDeadlock: assumes that messages arrive in the order sent; `Overtaking.NoDeadlock` does without.
- SyncProtocol.RunsAreFinite: assumes that messages arrive in the order sent; `Overtaking.RunsAreFinite` does without.
- Cluster.NoDeadlock: the requests of all workers at one place go to the same servers; for different ones `UnevenWorkers` says which Gets are never answered, without an exact condition unless one worker sends the server nothing.
- More than one server thread, pipelined Gets and workers with different programs: outside the contract of the synchronous scheduler; for pipelined Gets `SyncProtocol.PipelinedGetsSeeMore` shows the promise failing.
- Requests without payload: the plain scheduler ignores a message without blobs, and every request of the model has one.
- KVTable.KVServerTable.ProcessAdd: says nothing of the values of keys that were never fetched, whose memory is not initialised in the source.
- KVTable.KVServerTable.ProcessGet: new keys get one constant row; random initial values are not part of this model.
- Stateful updaters of the key-value table: their state is indexed without the key's offset.
- AllreduceNetwork.RowHangs: says nothing of an empty block before the last all-reduce of a row.
- Engine.Engine.Allreduce: the input is whole elements; a size that is no multiple of the element size is only covered by `BlockSplit.SplitBytes`.
- KVTable.Partition: blobs are values that are updated at an index; sharing of blobs between messages is not modelled.
- Feeder.Task.RunTask: the task is run by one thread at a time, as it is taken off the queue while it is worked on; the order in which the batches of different files reach the queue is not modelled.
- RecordIO.RecordIO.WriteHeader: names are without percent signs, because the name is used as a format; types are the declared ones.
- AppMaster.ApplicationMaster.OnContainersAllocated: the launch context, environment and resource requests are left out; task records are values, as no two collections share one.
- Allocator: destructors, locking and the plain `Allocator` without pools.
- Requests.WorkerTable.Forget: says when Wait may return; the sleeping caller and who wakes it are module `Waiting`, where a wake-up without a cause is left out.
- ArrayTable.ArrayWorker.Partition: the key blob, which stands for the whole array, and the option blob, passed on as it is, are left out.
- URI, flag and string parsing, hashing, random distributions, node registration: easy members, or no strong property.

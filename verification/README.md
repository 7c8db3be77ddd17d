# A verified model of the GNU Radio runtime

This project models, in Dafny, the parts of the GNU Radio runtime where samples, tags and shutdown
messages move between threads and hosts, and proves what they promise. Code that changes things step by
step is modelled by classes and loops; each is tied to specification functions over values, and the
properties of whole runs are proved about those.

| file | what it models |
|---|---|
| `DoubleMapped.dfy` | the circular buffer that mirrors itself, one producer and any number of readers, as a concurrent broadcast FIFO |
| `SingleMapped.dfy` | the circular buffer without a mirror, which tells full from empty by its totals and can relocate its contents |
| `Monitor.dfy` | the two-phase shutdown loop of one host's monitor |
| `Shutdown.dfy` | the monitors of any number of hosts, linked by proxies |
| `Proxy.dfy` | one direction of a proxy link: when it is a FIFO channel |
| `Tags.dfy` | the tag list of a buffer and its readers |
| `Channelizer.dfy` | the index arithmetic of the polyphase commutator |
| `MovingAverage.dfy` | the running sum with state carried across calls |
| `FlatGraph.dfy` | depth-first topological sort and partition into connected groups |
| `GraphSplit.dfy` | splitting a graph across schedulers, and its crossings |
| `ItemSize.dfy` | propagation of item sizes along connections |
| `FileSource.dfy` | the file source as a periodic stream |
| `NetReader.dfy` | reassembly of network messages into whole items |
| `StateCache.dfy` | the circular undo/redo cache |
| `BufferSizing.dfy` | page rounding of the memory-mapped circular buffer |
| `Arith.dfy`, `Memory.dfy`, `Sequences.dfy`, `Wrappers.dfy` | shared arithmetic, memcpy and memmove, facts about sequences, optional values |

The pattern is the same throughout. A state is a datatype, a step a function `Apply`, `AfterWork`, `Turn`,
`Handle` or the like, and `Inv` says what every step keeps; lemmas about `Run` carry it over every run. A
class holds the fields of the source's object, its `Valid()` says that they are those of a state, and each
method's contract says which step the state takes. History that the source does not store (the stream
written so far, the bytes a reader has consumed, the tags a reader is due) is part of the state.

## Where the code does not do what one would expect

The model keeps the code as it is. These are proved, with the exact condition under which things are right.

- **Relocation in the single-mapped buffer** multiplies a byte index by the item size, so its memcpy stays in
  the array only for items of one byte (`SingleMapped.RelocationInArrayIff`); and it leaves a reader intact
  only if that reader is a lap behind, or idle at the start (`SingleMapped.RelocationKeepsReaderIff`). Rings in
  which each goes wrong are `SingleMapped.TwoByteItemsOverrun` and `SingleMapped.ReaderBehindIsLost`. It takes the
  buffer's lock only, so it could come while windows are out (`SingleMapped.RelocationHitsGrant`,
  `SingleMapped.HeldWindowIsGranted`). All of that needs a caller that asks for two items or more, and there is
  none: the executor asks for one, and then nothing is ever moved (`SingleMapped.OneItemNeverRelocates`).
- **A block that needs several items** at once is therefore not helped by that callback: it waits for ever unless
  they fit before the end of the array (`SingleMapped.ServedIff`).
- **The callback of a blocked producer** moves data but no read index, and so loses every reader's place whenever
  it moves something (`SingleMapped.OutputBlockedKeepsInvIff`). The executor calls it when there is less space than
  the block's minimum; `SingleMapped.ShiftConfusesReader` is a ring in which that happens with a minimum of two.
- **The moving average** subtracts length - 1 from the iterations of its first call in unsigned arithmetic, so
  that call has to fill the window (`MovingAverage.FirstCallGoodIff`, `MovingAverage.ShortFirstCallRepeats`).
- **The topological sort** never colours a finished block black, so it throws on every block with two upstream
  blocks, cycle or not (`FlatGraph.FlatGraph.TopologicalSort`, `FlatGraph.JoinIsRefused`).
- **Item-size propagation** overwrites its "something changed" flag at every port of unknown size and may stop
  a pass too early (`ItemSize.PropagationCompleteIff`, `ItemSize.StopsTooEarly`).
- **The channelizer** rounds the rounds it consumes, and so reports items it has not written, or writes and
  consumes items it does not report, except as `Channelizer.ReportedIsWrittenIff` says; inputs for both are
  `Channelizer.ReportedButNotWritten` and `Channelizer.WrittenButNotReported`. Calls that do not end with a whole
  turn skip samples (`Channelizer.CallsGoOnIff`).
- **A monitor** counts a downstream host as flushed when one of its own schedulers has the same id
  (`Monitor.OwnFlushedSufficeIff`, and `Monitor.OwnFlushedSuffice` for an input); ids are set in
  `gr/lib/runtime.cc:24-68`, and one of the two overloads of `add_scheduler` there leaves proxies the ids they have,
  so unique ids are a premise of the distributed results.
- **A proxy** drops what is pushed before its connection is up and what arrives before it knows its monitor
  (`Proxy.LinkIsFifoIff`); with several schedulers `gr/lib/runtime.cc:86-98` never sets the monitor, so set-up in
  time is a premise of the distributed results.
- **The network reader** delivers everything exactly if all messages are whole numbers of items
  (`NetReader.DeliversIff`); on a message that ends in part of an item it comes to spin for ever, whatever the
  grants (`NetReader.PartOfItemSticks`, `NetReader.StuckForever`). If a receive did fail, it would misread its
  counters (`NetReader.FailedReceiveIff`); the source sets no timeout that lets one fail.
- **Tags** added after a reader has passed their item are lost to it (`Tags.LateTagIsLost`).

Verify with `dafny verify dfyconfig.toml` in this directory.

## Model

| member | source | states |
|---|---|---|
| DoubleMapped.BroadcastFifo | gr/lib/buffer_cpu_simple.cc:26-74 | in every state reached by any interleaving of grants, stores, the two mirror copies, index moves, attaching readers and reads, each reader has consumed exactly the stream from where it attached to its position |
| DoubleMapped.HeldIsStream | gr/lib/buffer.cc:129-139 | a window handed out by read_info and not yet posted shows exactly the stream bytes from the reader's position on |
| DoubleMapped.HeldWindowIsStable | gr/lib/buffer.cc:129-139 | no run of steps of the producer or of other readers changes the place or the contents of a window that is out |
| DoubleMapped.WindowIsStream | gr/lib/buffer.cc:119-139 | what read_info offers lies inside the doubled array and equals all of the stream that is unread, in whole items |
| DoubleMapped.AvailableIsUnread | gr/lib/buffer.cc:119-127 | the difference of the two wrapped indices is exactly the number of unread bytes |
| DoubleMapped.RunKeepsInv | gr/lib/buffer_cpu_simple.cc:26-74 | every run keeps the invariant that unread bytes are mirrored and never fill the buffer |
| DoubleMapped.StepKeepsInv | gr/lib/buffer_cpu_simple.cc:26-74 | each single step keeps it, also between the two mirror copies |
| DoubleMapped.StepInBounds | gr/lib/buffer_cpu_simple.cc:36-48 | no legal step reads or writes outside the array of twice the size |
| DoubleMapped.MirrorUpKeepsInv | gr/lib/buffer_cpu_simple.cc:36-39 | the first copy leaves every unread window as it was and puts the new bytes below the end into the upper half |
| DoubleMapped.MirrorDownKeepsInv | gr/lib/buffer_cpu_simple.cc:40-41 | after the second copy the new bytes are mirrored completely, wrap-around included |
| DoubleMapped.AdvanceKeepsInv | gr/lib/buffer_cpu_simple.cc:44-50 | moving the index appends exactly the mirrored bytes to every reader's unread window |
| DoubleMapped.AttachKeepsInv | gr/lib/buffer_cpu_simple.cc:53-61 | a reader may attach at any time and then has nothing unread |
| DoubleMapped.PostReadKeepsInv | gr/lib/buffer_cpu_simple.cc:64-74 | post_read within the window hands over the oldest unread bytes |
| DoubleMapped.StoredIsPosted | gr/lib/buffer_cpu_simple.cc:26-51 | a producer that asks for space, stores values within the grant and posts them takes a legal run, which appends exactly those values to the stream and moves no reader |
| DoubleMapped.PostReadTakes | gr/lib/buffer_cpu_simple.cc:64-74 | a reader that posts a number of items has consumed the next bytes of the stream, that many items of them, and nothing else changes |
| DoubleMapped.AskForItemsShows | gr/lib/buffer.cc:119-139 | a reader is shown as many whole items as it has unread |
| DoubleMapped.StreamStep | gr/lib/buffer_cpu_simple.cc:26-51 | no step but the last one of a post changes stream or totals written, and that one appends what the window held when the post began |
| DoubleMapped.GrantInBytes | gr/lib/buffer.cc:16-23 | the grant fits what the slowest reader leaves free, one item kept in reserve, and is half the buffer or all that fits |
| DoubleMapped.GrantIsLargest | gr/lib/buffer.cc:5-24 | a number of items is granted exactly if it is at most half the buffer and, with what the slowest reader has unread and one item more, fits the buffer; so the grant is the largest such number |
| DoubleMapped.GrantLeavesRoom | gr/lib/buffer.cc:5-24 | after a full use of the grant every reader still has an item of distance |
| DoubleMapped.ScanLeavesRoom | gr/lib/buffer.cc:7-23 | readers may read on while the loop looks at one after the other; the grant it ends with still leaves an item before every reader |
| DoubleMapped.WritingKeepsUnread | gr/lib/buffer_cpu_simple.cc:36-41 | stores and copies inside the granted region, in either half, touch no unread byte |
| DoubleMapped.NeverBlocksBoth | gr/lib/buffer.cc:5-24 | with two items or more, no space means that some reader has bytes to read; with one item there is never space |
| DoubleMapped.RunNeverBlocksBoth | gr/lib/buffer.cc:5-24 | with two items or more and readers of the same item size, in every reachable state there is space or some reader has a whole item to read |
| DoubleMapped.UnwrappedWriteIndexReadsSame | gr/lib/buffer_cpu_simple.cc:44-48 | a reader that sees the write index between the addition and the wrap computes the bytes it will compute after the wrap |
| DoubleMapped.UnwrappedReadIndexReadsSame | gr/lib/buffer_cpu_simple.cc:64-72 | so does the producer with a read index |
| DoubleMapped.MaxAvailableBounds | gr/lib/buffer.cc:7-14 | the loop's maximum bounds every reader and is attained by one |
| DoubleMapped.Buffer.constructor | gr/lib/buffer_cpu_simple.cc:5-14 | a fresh buffer is a valid start state |
| DoubleMapped.Buffer.Space | gr/lib/buffer.cc:5-24 | the loop over the readers returns the largest number of items that is at most half the buffer and leaves one item free before the slowest reader |
| DoubleMapped.Buffer.WriteInfo | gr/lib/buffer.cc:25-37 | hands out the write position and that largest grant |
| DoubleMapped.Buffer.Fill | gr/lib/buffer.cc:25-37 | one byte stored through the granted pointer |
| DoubleMapped.Buffer.MirrorUp | gr/lib/buffer_cpu_simple.cc:36-39 | the first memcpy is the specification's first mirror step |
| DoubleMapped.Buffer.MirrorDown | gr/lib/buffer_cpu_simple.cc:40-41 | the second memcpy is the second mirror step |
| DoubleMapped.Buffer.AdvanceIndex | gr/lib/buffer_cpu_simple.cc:44-50 | the index and total updates are the posting step |
| DoubleMapped.Buffer.PostWrite | gr/lib/buffer_cpu_simple.cc:26-51 | post_write appends to the stream exactly the bytes in the producer's window, and no reader moves |
| DoubleMapped.Buffer.AddReader | gr/lib/buffer_cpu_simple.cc:53-61 | the new reader starts at the write index with total 0 |
| DoubleMapped.BufferReader.BytesUnread | gr/lib/buffer.cc:119-127 | bytes_available from the two indices |
| DoubleMapped.BufferReader.ReadInfo | gr/lib/buffer.cc:129-139 | shows the reader its window and keeps all others |
| DoubleMapped.BufferReader.PostRead | gr/lib/buffer_cpu_simple.cc:64-74 | moves index and total of this reader alone |
| SingleMapped.RunKeepsInv | gr/lib/buffer_sm.cc:43-269 | over every run write index = read index + outstanding bytes around the array, outstanding in 0..size, for every reader |
| SingleMapped.StepKeepsInv | gr/lib/buffer_sm.cc:43-343 | each legal step keeps that invariant; a relocation is one with one-byte items, movable readers, no space granted and no window out for others than the reader that asks, and a callback of the producer if it moves nothing |
| SingleMapped.EveryWindowIsStream | gr/lib/buffer_sm.cc:302-343 | in every reachable state the window of every reader is inside the array and is the right slice of the stream |
| SingleMapped.WindowIsContiguousPart | gr/lib/buffer_sm.cc:302-343 | bytes_available is all that is unread up to the end of the array, and never 0 when something is unread |
| SingleMapped.TotalsTellFullFromEmpty | gr/lib/buffer_sm.cc:142-149 | equal indices mean full or empty, told apart exactly by the totals |
| SingleMapped.SpaceIsContiguousFree | gr/lib/buffer_sm.cc:125-162 | the space before halving is exactly the free bytes of the slowest reader up to the end of the array, in whole items, so no granted cell holds an unread byte |
| SingleMapped.GrantLeavesRoom | gr/lib/buffer_sm.cc:125-162 | the grant lies before the end of the array and within the free bytes of every reader |
| SingleMapped.GrantIsLargest | gr/lib/buffer_sm.cc:125-162 | a number of items is granted exactly if it is at most half the buffer and fits both before the end of the array and into what the slowest reader leaves free |
| SingleMapped.StepInBounds | gr/lib/buffer_sm.cc:52-57 | a legal step stays in the array, so the wrote-too-far throw is unreachable |
| SingleMapped.NeverBlocksBoth | gr/lib/buffer_sm.cc:125-162 | space and slowest reader are both blocked exactly when there is one item and nothing to read |
| SingleMapped.RunNeverBlocksBoth | gr/lib/buffer_sm.cc:125-162 | so with two items or more no reachable state is blocked on both sides |
| SingleMapped.SlowestHasMostUnread | gr/lib/buffer_sm.cc:127-138 | the reader with the smallest total has the most outstanding bytes |
| SingleMapped.PostWriteKeepsInv | gr/lib/buffer_sm.cc:43-59 | post_write appends the window's bytes for all readers |
| SingleMapped.PostReadKeepsInv | gr/lib/buffer_sm.cc:245-269 | post_read hands over the oldest unread bytes of one reader |
| SingleMapped.StoredIsPosted | gr/lib/buffer_sm.cc:43-59 | a producer that asks for space, stores values within the grant and posts them takes a legal run, which appends exactly those values to the stream and moves no reader |
| SingleMapped.PostWriteAppends | gr/lib/buffer_sm.cc:43-59 | after post_write the stream has grown by the bytes that lie from the write index on, and total and phase are the only other changes the readers could see |
| SingleMapped.PostReadTakes | gr/lib/buffer_sm.cc:245-269 | a reader that posts a number of items has consumed the next bytes of the stream, that many items of them, and nothing else changes |
| SingleMapped.AskForItemsShows | gr/lib/buffer_sm.cc:302-343 | a reader is shown as many whole items as it has unread before the end of the array |
| SingleMapped.WillRelocateIff | gr/lib/buffer_sm.cc:178-300 | the callback of a reader moves data exactly if the reader sees less than it asks for, its index is ahead of the write index, and the first index ahead is at most as far from the end of the array as from the write index |
| SingleMapped.RelocatedIndexIs | gr/lib/buffer_sm.cc:221-227 | a relocated reader gets the number of items from the smallest index ahead up to the end of the array, less the items it could see, in unsigned arithmetic |
| SingleMapped.WillShiftIff | gr/lib/buffer_sm.cc:61-123 | the callback of the producer moves data exactly if there is space or it is forced, and the smallest read index lies above 0, below the write index and at least half way to it |
| SingleMapped.ShiftMoves | gr/lib/buffer_sm.cc:61-123 | and then the bytes from that index up to the write index go to the start of the array, and nothing else moves but the write index |
| SingleMapped.StepKeepsBoundaries | gr/lib/buffer_sm.cc:43-59 | indices stay on item boundaries |
| SingleMapped.RelocationInArrayIff | gr/lib/buffer_sm.cc:216-219 | the source of the memcpy lies in the array exactly for items of one byte, because an index in bytes is multiplied by the item size |
| SingleMapped.RelocationKeepsReaderIff | gr/lib/buffer_sm.cc:221-230 | with one-byte items a reader comes out of relocation intact exactly if it was a lap behind, or had nothing to read with both indices at 0 |
| SingleMapped.RelocationMakesContiguous | gr/lib/buffer_sm.cc:178-233 | with one-byte items and movable readers, whatever windows are out, every reader then sees all its outstanding bytes as one window |
| SingleMapped.RelocationKeepsInv | gr/lib/buffer_sm.cc:178-233 | with one-byte items, movable readers and no space granted the buffer invariant holds again afterwards, whatever windows readers hold |
| SingleMapped.HeldWindowIsStable | gr/lib/buffer_sm.cc:178-233 | what the premise on the windows of other readers is for: in a legal run the place and the contents of a window that is out change by steps of its own reader only |
| SingleMapped.GrantIsStable | gr/lib/buffer_sm.cc:178-233 | and in a legal run no step of a reader moves the write index, changes the array or takes the room while space is granted |
| SingleMapped.OneItemNeverRelocates | schedulers/nbt/lib/graph_executor.cc:52-70 | a callback that asks for one item, as the executor does right after read_info, is legal in any state with indices on item boundaries, and moves nothing |
| SingleMapped.ExecutorRunIsLegal | schedulers/nbt/lib/graph_executor.cc:52-70 | so runs in which every input callback asks for one item need no premise on relocation at all |
| SingleMapped.ExecutorRunIsFifo | schedulers/nbt/lib/graph_executor.cc:43-115 | in them, if no callback of the producer moves data, every reader is shown the stream in order, for items of any size, any readers and any windows, and the buffer blocks both sides exactly with one item and nothing to read |
| SingleMapped.ServedIff | schedulers/nbt/lib/graph_executor.cc:49-70 | a block that needs k items before it reads can get them in some such run exactly if they fit between its read index and the end of the array |
| SingleMapped.OutputBlockedKeepsInvIff | gr/lib/buffer_sm.cc:61-123 | the callback of the producer keeps the invariant exactly if it moves nothing |
| SingleMapped.ShiftLosesEveryReader | gr/lib/buffer_sm.cc:99-114 | if it moves data, every reader loses its place, because the read indices are not adjusted |
| SingleMapped.ShiftConfusesReader | gr/lib/buffer_sm.cc:61-123 | a ring in which a producer that needs space for two items makes a reader of one item see two |
| SingleMapped.UnwrappedWriteIndexReadsSame | gr/lib/buffer_sm.cc:50-54 | a reader that looks between the addition and the wrap of the write index computes what it will compute after post_write |
| SingleMapped.WrappedWriteIndexReadsSameIff | gr/lib/buffer_sm.cc:52-58 | so does one that looks after the wrap and before the new total, exactly if the post does not fill the whole buffer |
| SingleMapped.GrantNeverFills | gr/lib/buffer_sm.cc:156-160 | and no grant is as large as that |
| SingleMapped.ScanLeavesRoom | gr/lib/buffer_sm.cc:127-161 | readers may read on while the loop looks at one after the other; the grant it ends with still leaves room before every reader |
| SingleMapped.RelocatedBytes | gr/lib/buffer_sm.cc:211-219 | the memmove before the memcpy clobbers nothing that is still needed |
| SingleMapped.RelocationHitsGrant | gr/lib/buffer_sm.cc:178-233 | after a relocation the old write index holds an unread byte: a producer that was granted it before and stores another value there loses a reader's data |
| SingleMapped.RelocationFreesWindow | gr/lib/buffer_sm.cc:178-233 | a window out for a reader a lap behind keeps its bytes for the moment, but lies behind the new write index |
| SingleMapped.HeldWindowIsGranted | gr/lib/buffer_sm.cc:178-233 | a ring in which the cells of such a window are granted to the producer right after the relocation |
| SingleMapped.TwoByteItemsOverrun | gr/lib/buffer_sm.cc:216-219 | a ring with items of two bytes in which relocation is due and its memcpy reads past the array |
| SingleMapped.ReaderBehindIsLost | gr/lib/buffer_sm.cc:221-230 | a ring of one-byte items in which relocation keeps one reader's place and loses the other's |
| SingleMapped.Buffer.Space | gr/lib/buffer_sm.cc:125-162 | the loop over the readers returns the largest number of items that is at most half the buffer, ends before the end of the array and fits what the slowest reader leaves free |
| SingleMapped.Buffer.WriteInfo | gr/lib/buffer_sm.cc:164-176 | hands out write position and that largest grant |
| SingleMapped.Buffer.PostWrite | gr/lib/buffer_sm.cc:43-59 | never throws within a grant; the new state is the posting step |
| SingleMapped.Buffer.SmallestIndexAhead | gr/lib/buffer_sm.cc:181-195 | the loop finds the smallest read index ahead of the write index |
| SingleMapped.Buffer.AdjustBufferData | gr/lib/buffer_sm.cc:178-233 | moves data exactly under its two guards, and then to the relocated state, whatever windows are out |
| SingleMapped.Buffer.ShiftData | gr/lib/buffer_sm.cc:211-219 | memmove, then memcpy, as one change of the array |
| SingleMapped.Buffer.FollowReaders | gr/lib/buffer_sm.cc:221-227 | every reader index is recomputed from the old write index |
| SingleMapped.BufferReader.BytesUnread | gr/lib/buffer_sm.cc:302-343 | bytes_available from indices and totals |
| SingleMapped.BufferReader.PostRead | gr/lib/buffer_sm.cc:245-269 | moves this reader alone |
| SingleMapped.BufferReader.InputBlockedCallback | gr/lib/buffer_sm.cc:271-300 | gives up the window of the reader that calls it, and relocates exactly when too little is available and the reader is a lap behind |
| SingleMapped.Buffer.OutputBlockedCallback | gr/lib/buffer_sm.cc:61-123 | loop, guards and memmove are the specified callback |
| Monitor.ExitIff | gr/lib/runtime_monitor.cc:69-134 | a monitor exits if and only if, after a DONE with no KILL before it, everyone it waits for has reported FLUSHED with no KILL before the last report, in any order, with repetitions and other messages in between |
| Monitor.ExitIsFinal | gr/lib/runtime_monitor.cc:130-134 | nothing changes after the exit |
| Monitor.ExitSendsOnce | gr/lib/runtime_monitor.cc:106-131 | by then each scheduler was sent one DONE and one EXIT, each proxy one DONE, each downstream host one KILL, each upstream host one FLUSHED |
| Monitor.DoneSentAtMostOnce | gr/lib/runtime_monitor.cc:44-58 | DONE is forwarded at most once over each proxy, whatever arrives |
| Monitor.SentExactly | gr/lib/runtime_monitor.cc:18-134 | everything ever sent, in order, as a function of the phase and the number of STARTs |
| Monitor.FlushedFollowsDone | gr/lib/runtime_monitor.cc:106-114 | FLUSHED goes upstream only, only from a monitor that exits, directly after DONE |
| Monitor.RunningIff | gr/lib/runtime_monitor.cc:18-60 | the first loop lasts exactly until the first DONE or KILL |
| Monitor.OwnFlushedSufficeIff | gr/lib/runtime_monitor.cc:62-104 | if only a host's own schedulers have flushed, it exits exactly when every downstream id collides with a scheduler id: why ids must be unique |
| Monitor.OwnFlushedSuffice | gr/lib/runtime.cc:24-68 | ids as add_proxy and then twice the first add_scheduler give them: the monitor exits while the downstream host has reported nothing |
| Monitor.StillWaitsFor | gr/lib/runtime_monitor.cc:90-104 | a monitor still collecting misses somebody it waits for |
| Monitor.DrainingHasSentDone | gr/lib/runtime_monitor.cc:49-57 | past the first loop every proxy has been told DONE |
| Monitor.KillIsSentBy | gr/lib/runtime_monitor.cc:26-30 | KILL goes out only from a killed monitor, or downstream from one that exits |
| Monitor.StartsArePassedOn | gr/lib/runtime_monitor.cc:32-43 | each START popped in the first loop goes to every scheduler and to every downstream host, ahead of all else, none goes upstream, and there are no others |
| Monitor.DoneThenExit | gr/lib/runtime_monitor.cc:44-131 | past the first loop everybody has been told DONE after any STARTs; on exit schedulers are told to exit, downstream hosts KILL and upstream hosts FLUSHED, and nothing follows |
| Monitor.KilledHasSent | gr/lib/runtime_monitor.cc:22-129 | a monitor killed in its first loop has sent KILL over every proxy, and its schedulers neither DONE nor EXIT; one killed in its second loop has sent everybody DONE and then its downstream hosts KILL |
| Monitor.KilledIff | gr/lib/runtime_monitor.cc:22-129 | a monitor is killed exactly if a KILL was popped before it could exit, and then in its second loop exactly if there was a DONE before the first KILL |
| Monitor.RuntimeMonitor.NewSchedDone | gr/lib/runtime_monitor.cc:62-68 | the map has the ids of all schedulers and all proxies as its keys, each not done |
| Monitor.RuntimeMonitor.EverybodyDone | gr/lib/runtime_monitor.cc:90-104 | the two loops decide whether all schedulers and all downstream hosts are done |
| Monitor.RuntimeMonitor.Execute | gr/lib/runtime_monitor.cc:18-134 | the whole thread: what it has sent and whether it has stopped is what the messages popped lead to, and unless it stops it pops all there are |
| Monitor.RuntimeMonitor.WaitForDone | gr/lib/runtime_monitor.cc:18-60 | the first loop: it hands over to the second exactly in the draining state, with nobody done |
| Monitor.RuntimeMonitor.OnRunning | gr/lib/runtime_monitor.cc:22-58 | one message of the first loop sends what its case sends |
| Monitor.RuntimeMonitor.OnDraining | gr/lib/runtime_monitor.cc:70-131 | one message of the second loop marks a report, and stops on a KILL or when everybody is done |
| Shutdown.ExitOnlyAfterDownstreamFlushed | gr/lib/runtime_monitor.cc:86-131 | in every run over any linked hosts, a monitor that has exited has all its schedulers, and all schedulers of every host downstream, reported FLUSHED |
| Shutdown.ExitIsJustified | gr/lib/runtime_monitor.cc:86-131 | the same for the host itself and its direct downstream hosts, which have exited |
| Shutdown.RunKeepsInv | gr/lib/runtime_proxy.cc:35-61 | every FLUSHED in a queue comes from a scheduler that reported or from a downstream host that has exited, over all interleavings |
| Shutdown.NoFlushedPoppedWhileRunning | gr/lib/runtime_monitor.cc:44-58 | no FLUSHED is popped in the first loop, where it would be lost |
| Shutdown.DoneCrossesLink | gr/lib/runtime_proxy.cc:39-52 | when nothing is in flight, DONE on one side of a link means DONE on the other |
| Shutdown.QuietMonitorExits | gr/lib/runtime_monitor.cc:69-134 | a host whose schedulers and downstream hosts are finished exits once its queue is empty |
| Shutdown.EveryRankExits | gr/lib/runtime_monitor.cc:69-134 | so hosts exit from the leaves up |
| Shutdown.QuietMeansAllExited | gr/lib/runtime_monitor.cc:18-134 | in a quiet network without user KILLs, with a DONE somewhere and connected hosts, every monitor has exited |
| Shutdown.NoMonitorIsKilled | gr/lib/runtime_monitor.cc:120-128 | the KILLs that exits send downstream never kill a monitor that is still waiting |
| Shutdown.DeliveredFlushed | gr/lib/runtime_proxy.cc:44-52 | a FLUSHED that crosses a link is restamped with the id the receiver waits for |
| Shutdown.StartCrossesLink | gr/lib/runtime_monitor.cc:32-43 | a START that the first loop of a monitor pops comes into the queue of each downstream host as soon as anything has come over the link |
| Shutdown.QuietMeansStarted | gr/lib/runtime_monitor.cc:32-43 | in a quiet network a downstream host that is still running has sent StartCmd to each of its schedulers |
| Shutdown.DeliveredKeepsKind | gr/lib/runtime_proxy.cc:39-53 | every message delivered over a link has come into the queue with the kind it was sent with, and on the upstream side with the id of the proxy there |
| Shutdown.WhatArrives | gr/lib/runtime_proxy.cc:39-53 | a step adds at most the one message it is about, at the end of one queue |
| Shutdown.AssignedIdsAreUnique | gr/lib/runtime.cc:39-68 | ids are unique if all are assigned at once, as add_proxy and the overload of add_scheduler for one scheduler do, counting up from 1 |
| Proxy.LinkIsFifoIff | gr/lib/runtime_proxy.cc:35-82 | message by message: what was pushed is queued or in flight, each once, in order and with its kind, with the id of the end on the upstream side and its own id elsewhere, exactly when no message is pushed before the connection and none received before the monitor is set |
| Proxy.PushedIsPushedBy | gr/lib/runtime_proxy.cc:73-82 | what counts as pushed are the messages of the push steps, in order |
| Proxy.RestampIs | gr/lib/runtime_proxy.cc:44-52 | the receiving end changes the id alone, and on the upstream side only |
| Proxy.DropsIff | gr/lib/runtime_proxy.cc:49-52 | messages are dropped exactly in the other runs |
| Proxy.RunKeepsInv | gr/lib/runtime_proxy.cc:35-82 | at any time queue and wire hold all pushed messages but the two dropped stretches |
| Proxy.RuntimeProxy.PushMessage | gr/lib/runtime_proxy.cc:73-82 | puts the message at the end of the socket when connected, and nowhere otherwise |
| Proxy.RuntimeProxy.ReceiveTurn | gr/lib/runtime_proxy.cc:39-53 | takes the first message of the socket, and when a monitor is set queues it with its kind, with the id of the proxy on the upstream side |
| Channelizer.Channelizer.Commutate | blocklib/filter/pfb_channelizer/pfb_channelizer_cpu.cc:139-173 | on turn k arm i filters the window that starts at interleaved position N + k*r - 1 - i into its slot; exactly toconsume*N/r turns |
| Channelizer.Channelizer.Work | blocklib/filter/pfb_channelizer/pfb_channelizer_cpu.cc:139-176 | work from the rounding on: the turns written, the input consumed and the items reported |
| Channelizer.Channelizer.Turn | blocklib/filter/pfb_channelizer/pfb_channelizer_cpu.cc:141-162 | one turn feeds every arm and every slot once, whichever inner loop takes it |
| Channelizer.Channelizer.TurnMeans | blocklib/filter/pfb_channelizer/pfb_channelizer_cpu.cc:139-162 | in samples: the window of arm i on turn k starts at N + k*r - 1 - i and its output goes to slot N - 1 - ((k*r - 1 - i + r) mod N) |
| Channelizer.Channelizer.FeedNewRound | blocklib/filter/pfb_channelizer/pfb_channelizer_cpu.cc:145-151 | the first inner loop |
| Channelizer.Channelizer.FeedOldRound | blocklib/filter/pfb_channelizer/pfb_channelizer_cpu.cc:153-160 | the second inner loop, one sample earlier |
| Channelizer.LutIsPermutation | blocklib/filter/pfb_channelizer/pfb_channelizer_cpu.cc:56-60 | the index table is a permutation of the slots for every ratio in 1..N |
| Channelizer.SlotsArePermutation | blocklib/filter/pfb_channelizer/pfb_channelizer_cpu.cc:56-60 | on every turn the slots fed are a permutation |
| Channelizer.LutIsSlot | blocklib/filter/pfb_channelizer/pfb_channelizer_cpu.cc:58-60 | the table entry of the j-th sample is the slot of the arm it goes to |
| Channelizer.Deinterleave | blocklib/filter/pfb_channelizer/pfb_channelizer_cpu.cc:115-122 | row j holds every N-th sample from j on |
| Channelizer.RowWindow | blocklib/filter/pfb_channelizer/pfb_channelizer_cpu.cc:146-148 | a window of a row is a window of the interleaved input |
| Channelizer.OutputMultiple | blocklib/filter/pfb_channelizer/pfb_channelizer_cpu.cc:62-67 | the loop finds the smallest number of turns after which the commutator is back in place |
| Channelizer.WholeRoundsIff | blocklib/filter/pfb_channelizer/pfb_channelizer_cpu.cc:62-67 | m turns move the input on by whole rounds exactly if that number divides m |
| Channelizer.SlotsRepeatIff | blocklib/filter/pfb_channelizer/pfb_channelizer_cpu.cc:62-67 | turns m apart use the same slots exactly if the output multiple that the loop computes divides m |
| Channelizer.ReportedIsWrittenIff | blocklib/filter/pfb_channelizer/pfb_channelizer_cpu.cc:139-176 | with m the remainder of reported * r by N, the items written are as many as reported exactly if m = 0, or the division rounds up and N - m is less than r |
| Channelizer.ReportedItemsAreFilledIff | blocklib/filter/pfb_channelizer/pfb_channelizer_cpu.cc:139-176 | at least the items reported are written exactly if m = 0 or the division rounds up |
| Channelizer.WrittenItems | blocklib/filter/pfb_channelizer/pfb_channelizer_cpu.cc:139-176 | the number written: as reported, or (N - m) / r more, or fewer |
| Channelizer.ToConsumeIsNearest | blocklib/filter/pfb_channelizer/pfb_channelizer_cpu.cc:140 | the rounds consumed are the nearest integer to reported * r / N, and the even one in the middle, as rintf rounds |
| Channelizer.ReportedButNotWritten | blocklib/filter/pfb_channelizer/pfb_channelizer_cpu.cc:139-176 | four channels, ratio 1: one item is reported and none written |
| Channelizer.WrittenButNotReported | blocklib/filter/pfb_channelizer/pfb_channelizer_cpu.cc:139-176 | four channels, ratio 1: three items are reported and four written, the input of all four consumed |
| Channelizer.WindowsFit | blocklib/filter/pfb_channelizer/pfb_channelizer_cpu.cc:112-147 | all windows lie inside the deinterleaved rows, for the rounds that rintf gives |
| Channelizer.CallsGoOnIff | blocklib/filter/pfb_channelizer/pfb_channelizer_cpu.cc:139-176 | the commutator restarts with each call; a sequence of calls works as one commutator over the stream, in windows and slots, exactly if each call consumes a multiple of r samples |
| Channelizer.CallsConcat | blocklib/filter/pfb_channelizer/pfb_channelizer_cpu.cc:139-176 | what calls consume and the turns they take add up |
| Channelizer.NextCallIsAhead | blocklib/filter/pfb_channelizer/pfb_channelizer_cpu.cc:139-176 | otherwise the windows of the next call are ahead by the samples the calls before consumed beyond their last turn |
| Channelizer.Channelizer.TurnGoesOn | blocklib/filter/pfb_channelizer/pfb_channelizer_cpu.cc:139-176 | what a turn computes from the rest of the stream is then the turn of that one commutator |
| Channelizer.UnroundedCallGoesOn | blocklib/filter/pfb_channelizer/pfb_channelizer_cpu.cc:140-174 | a call for which nothing is rounded consumes a multiple of r samples |
| Channelizer.ReportedWrapsIff | blocklib/filter/pfb_channelizer/pfb_channelizer_cpu.cc:103-125 | with the input it insists on, the number of items reported wraps below zero exactly if the output has room for fewer than the history, less its rounds, less 1 |
| MovingAverage.RunIsMovingAverage | blocklib/filter/moving_average/moving_average_cpu.cc:56-87 | for any sequence of calls whose first effective call fills the window, output k is the scale times the sum of items max(0, k + 1 - length) to k of the whole stream, and the carried sums are those of the unconsumed items |
| MovingAverage.CorrectMeans | blocklib/filter/moving_average/moving_average_cpu.cc:62-82 | each element of each output is the scale times that sum, written out |
| MovingAverage.ChunkingIsIrrelevant | blocklib/filter/moving_average/moving_average_cpu.cc:56-87 | two runs that cut the stream differently agree on every output both produced |
| MovingAverage.FirstCallGoodIff | blocklib/filter/moving_average/moving_average_cpu.cc:62-86 | the first call leaves a state to go on from exactly if it iterates at least length times, or length is 1 and it does not iterate |
| MovingAverage.ShortFirstCallRepeats | blocklib/filter/moving_average/moving_average_cpu.cc:62-86 | after length - 1 iterations nothing is consumed and the next call takes item 0 in where item length - 1 belongs |
| MovingAverage.FirstCallOutput | blocklib/filter/moving_average/moving_average_cpu.cc:62-71 | the outputs of the first call are right however far it gets, as `MovingAverage.CorrectMeans` spells out |
| MovingAverage.SteadyCallOutput | blocklib/filter/moving_average/moving_average_cpu.cc:73-81 | so are those of a later call |
| MovingAverage.SteadyCallSums | blocklib/filter/moving_average/moving_average_cpu.cc:73-81 | a later call keeps the carried sums right |
| MovingAverage.OutputMeans | blocklib/filter/moving_average/moving_average_cpu.cc:62-82 | whatever sum a call starts with, its output i is the scale times that sum with the items come in and without the items gone, also where the first call repeats items |
| MovingAverage.SumStep | blocklib/filter/moving_average/moving_average_cpu.cc:63-82 | one iteration takes one item in and lets at most one go |
| MovingAverage.Averager.Work | blocklib/filter/moving_average/moving_average_cpu.cc:33-88 | from any good state the rows written are the scaled sums of the last length items of the stream; a call without enough input does nothing, any other ends with the input, the room in the output or max_iter, and reports what it consumed in unsigned arithmetic |
| MovingAverage.Averager.FirstItem | blocklib/filter/moving_average/moving_average_cpu.cc:64-70 | the inner loop without history |
| MovingAverage.Averager.SteadyItem | blocklib/filter/moving_average/moving_average_cpu.cc:75-80 | the inner loop with history |
| FlatGraph.FlatGraph.TopologicalSort | gr/lib/flat_graph.cc:165-182 | on a set closed under edges it returns exactly if no block has two different upstream blocks and there is no directed cycle, and then the result is a permutation in which every edge points forward |
| FlatGraph.FlatGraph.Partition | gr/lib/flat_graph.cc:98-114 | returns exactly if that holds for all used blocks; the groups are disjoint, non-empty, cover them and are each in topological order |
| FlatGraph.UsedAre | gr/lib/flat_graph.cc:98-114 | the blocks to partition are those at an end of an edge, and the orphans |
| FlatGraph.GroupsAreComponents | gr/lib/flat_graph.cc:98-114 | two blocks share a group exactly if an undirected path connects them |
| FlatGraph.ComponentIsConnectivityClass | gr/lib/flat_graph.cc:116-133 | a reachable set is the connectivity class of each of its members |
| FlatGraph.JoinIsRefused | gr/lib/flat_graph.cc:206-226 | an acyclic graph in which one block joins two others still throws |
| FlatGraph.FlatGraph.TopologicalDfsVisit | gr/lib/flat_graph.cc:206-230 | the recursion terminates; it completes with a post-order of what it visited, or a throw shows two upstream blocks or a root with an incoming edge |
| FlatGraph.FlatGraph.CalcReachableBlocks | gr/lib/flat_graph.cc:116-133 | exactly the component of the given block, whatever colours were left before |
| FlatGraph.FlatGraph.ReachableDfsVisit | gr/lib/flat_graph.cc:135-147 | the recursion terminates and blackens a set closed under neighbours |
| FlatGraph.FlatGraph.SortSourcesFirst | gr/lib/flat_graph.cc:184-202 | the same blocks, sources before the others |
| FlatGraph.FlatGraph.CalcDownstreamBlocks | gr/lib/flat_graph.cc:69-78 | each downstream block once |
| FlatGraph.FlatGraph.CalcAdjacentBlocks | gr/lib/flat_graph.cc:149-163 | each neighbour once |
| FlatGraph.FlatGraph.SourceP | gr/lib/flat_graph.cc:204 | no incoming edge |
| FlatGraph.SortedIsForest | gr/lib/flat_graph.cc:165-182 | a completed sort has seen each edge from the only upstream block of its target |
| FlatGraph.StuckMeansCycle | gr/lib/flat_graph.cc:175-178 | with all sources visited, an unvisited block lies behind a cycle |
| FlatGraph.RevisitMeansTwo | gr/lib/flat_graph.cc:217-218 | meeting a visited block again means a second upstream block or a root |
| FlatGraph.ForwardHasNoCycle | gr/lib/flat_graph.cc:165-182 | a list in which all edges lead forward has no cycle |
| FlatGraph.NoSourceMeansCycle | gr/lib/flat_graph.cc:184-204 | a finite set in which everything is fed from the set has a cycle |
| FlatGraph.FlatGraph.EraseAll | gr/lib/flat_graph.cc:109-110 | the erase loop removes exactly the group |
| GraphSplit.EdgesConserved | gr/lib/graph_utils.cc:17-54 | subgraph edges and crossings together are the input edges, none lost or doubled |
| GraphSplit.SubgraphHoldsTouchingEdges | gr/lib/graph_utils.cc:125-143 | after connect_crossings a subgraph holds exactly the input edges that touch its group, each once; so a crossing is in exactly two |
| GraphSplit.CrossingsAreProper | gr/lib/graph_utils.cc:83-119 | every crossing names the two different subgraphs of its ends |
| GraphSplit.LocalCount | gr/lib/graph_utils.cc:29-42 | a subgraph gets exactly the edges with both ends in its group |
| GraphSplit.CrossCount | gr/lib/graph_utils.cc:43-47 | the crossings are exactly the edges that enter a group from outside |
| GraphSplit.Partition | gr/lib/graph_utils.cc:8-122 | throws exactly when an edge inside a group joins different known sizes; otherwise subgraphs, orphans and crossings are as specified |
| GraphSplit.GroupsMatchIff | gr/lib/graph_utils.cc:29-42 | that is, exactly if an edge with both ends in one group joins two different sizes, none of them 0 |
| GraphSplit.FilledMeans | gr/lib/graph_utils.cc:29-79 | a finished subgraph holds the edges inside its group, each once, the stream edges among them, and uses exactly the nodes of the group |
| GraphSplit.FindSides | gr/lib/graph_utils.cc:81-119 | both sides of every crossing are found, so the second throw is unreachable |
| GraphSplit.SplitGroup | gr/lib/graph_utils.cc:17-54 | the first pass over one group |
| GraphSplit.SplitNode | gr/lib/graph_utils.cc:29-49 | all input ports of one node |
| GraphSplit.AddOrphans | gr/lib/graph_utils.cc:56-79 | afterwards a subgraph uses exactly the nodes of its group |
| GraphSplit.FindGraph | gr/lib/graph_utils.cc:86-106 | finds the subgraph of a node's group |
| GraphSplit.ConnectCrossings | gr/lib/graph_utils.cc:125-143 | each crossing is appended to both of its subgraphs and to no other |
| GraphSplit.Graph.Connect | gr/lib/graph.cc:5-23 | throws exactly on two different sizes, none of them 0; otherwise appends the edge |
| GraphSplit.Graph.AddEdge | gr/lib/graph.cc:214-222 | appends without a check and keeps the stream edges in step |
| GraphSplit.StreamEdgesCount | gr/lib/graph.cc:214-222 | stream edges are those with a stream port at an end, as often as they are in the graph |
| GraphSplit.Graph.FindEdge | gr/lib/graph.cc:195-212 | all edges on a port, in order |
| GraphSplit.EdgesOfCount | gr/lib/graph.cc:195-212 | an edge is found once for each of its ends on the port |
| GraphSplit.Graph.CalcUsedNodes | gr/lib/graph.cc:162-178 | exactly the ends of edges and the orphans |
| GraphSplit.EdgesOfInput | gr/lib/graph.cc:195-212 | an input port finds the one edge that ends there |
| Tags.TagsReachReaders | gr/lib/buffer.cc:91-171 | over any run a reader is handed a tag once for each time it was added while its item was ahead of the reader, when it passes the item; until then the list holds it |
| Tags.ExactlyOnce | gr/lib/buffer.cc:149-171 | a tag added once in time is returned exactly once |
| Tags.LateTagIsLost | gr/lib/buffer.cc:161-162 | a tag added after a reader has passed its item never reaches it |
| Tags.PruneKeepsExactlyUnread | gr/lib/buffer.cc:91-115 | pruning drops exactly the tags behind the writer and all readers |
| Tags.PruneKeepsInv | gr/lib/buffer.cc:91-115 | so no reader loses a tag it is still due |
| Tags.RunKeepsInv | gr/lib/buffer.cc:38-171 | over any interleaving the list holds what is due and the readers have had the rest |
| Tags.PassedIsMinimal | gr/lib/buffer.cc:95-102 | the loop finds the slowest reader, or the writer |
| Tags.CountsStep | gr/lib/buffer.cc:38-171 | the total written grows by exactly what is posted, the total read of a reader by exactly what it takes |
| Tags.ListStep | gr/lib/buffer.cc:38-171 | added tags go to the end of the list, only pruning takes tags out, and nothing else changes it |
| Tags.AcceptedAre | gr/lib/buffer.cc:38-49 | of tags added with a write, exactly those are taken whose items lie in that write, each as often as given |
| Tags.Buffer.AddTags | gr/lib/buffer.cc:38-49 | appends exactly the tags of the items just written |
| Tags.Buffer.PruneTags | gr/lib/buffer.cc:91-115 | loop and erase together are the pruning step |
| Tags.Buffer.EraseBefore | gr/lib/buffer.cc:104-114 | erasing while walking keeps exactly the later tags, in order |
| Tags.Buffer.GetTags | gr/lib/buffer.cc:149-171 | the tags of the next items, in list order |
| Tags.Buffer.TakeTags | gr/lib/buffer.cc:149-171 | get_tags and post_read of the same number of items |
| FileSource.FileSource.Work | blocklib/fileio/file_source/file_source_cpu.cc:255-332 | from any point of a run: produces all asked for when repeating, else what is left, then reports done; item k of the output is file item start + k mod len; the tags added are exactly those of the passes begun |
| FileSource.TagsMarkPasses | blocklib/fileio/file_source/file_source_cpu.cc:281-289 | begin tags sit exactly at the multiples of the length, counting up from 0 |
| FileSource.TagsInOrder | blocklib/fileio/file_source/file_source_cpu.cc:281-289 | each tag comes once, in order: the c-th at item c * len, with count c |
| FileSource.TagCount | blocklib/fileio/file_source/file_source_cpu.cc:281-289 | and there are as many as passes are needed for the items produced |
| FileSource.StreamIsPeriodic | blocklib/fileio/file_source/file_source_cpu.cc:309-321 | the output repeats with the length, and a pass is the requested part of the file |
| FileSource.OpensIff | blocklib/fileio/file_source/file_source_cpu.cc:154-216 | open passes its two throws exactly if an item lies behind the start offset; the offset 2^64 - 1, whose successor wraps, passes the size check and is refused by the seek |
| FileSource.OpenStaysInFile | blocklib/fileio/file_source/file_source_cpu.cc:154-223 | an opened source has at least one item and never passes the end of the file, whatever length was asked for |
| FileSource.Open | blocklib/fileio/file_source/file_source_cpu.cc:154-223 | for every 64-bit offset: throws exactly if no item lies behind it; else the length asked for, cut to the file |
| FileSource.FileSource.Turn | blocklib/fileio/file_source/file_source_cpu.cc:279-328 | one turn reads at least one item, so the loop ends |
| FileSource.FileSource.AfterRead | blocklib/fileio/file_source/file_source_cpu.cc:305-327 | rewinds exactly at the end of a repeating pass |
| FileSource.FileSource.TagBegin | blocklib/fileio/file_source/file_source_cpu.cc:281-289 | one tag for the pass begun, unless it has been sent |
| FileSource.FileSource.constructor | blocklib/fileio/file_source/file_source_cpu.cc:170-223 | a newly opened source has produced nothing |
| NetReader.RunKeepsStream | gr/lib/buffer_net_zmq.cc:112-148 | at every loop head posted bytes, rest of the message and messages to come are together all messages, in order |
| NetReader.DeliversIff | gr/lib/buffer_net_zmq.cc:112-148 | some grants bring the thread to the end of all messages exactly if every message, and the rest of the one in hand, is a whole number of items |
| NetReader.RunDelivers | gr/lib/buffer_net_zmq.cc:112-148 | for every run: a thread that waits on an empty socket has posted everything; with whole items and space a run as long as the work ends there; with a part of an item anywhere something is left unposted |
| NetReader.RunIsBounded | gr/lib/buffer_net_zmq.cc:112-148 | with whole items every turn with space brings the end nearer |
| NetReader.TurnMakesProgress | gr/lib/buffer_net_zmq.cc:118-148 | with whole items, a turn with space posts at least one item, replaces an exhausted message or comes to wait |
| NetReader.TurnKeepsWholeItems | gr/lib/buffer_net_zmq.cc:118-148 | a turn neither makes nor mends parts of items |
| NetReader.StuckIff | gr/lib/buffer_net_zmq.cc:118-148 | a turn with space changes nothing exactly when part of an item is left |
| NetReader.StuckForever | gr/lib/buffer_net_zmq.cc:112-148 | and then no further turn does |
| NetReader.PartOfItemSticks | gr/lib/buffer_net_zmq.cc:112-148 | a message that ends in part of an item comes down to exactly that part, whatever the grants, after at most as many turns with space as it has items, and no further message is taken |
| NetReader.FailedReceiveIff | gr/lib/buffer_net_zmq.cc:114-148 | if a receive returned without a message, the next turn would copy nothing from the empty message exactly if the message before was empty too |
| NetReader.ToWriteBounds | gr/lib/buffer_net_zmq.cc:118-122 | the bytes copied fit message and grant and are whole items |
| NetReader.ToWriteIsMost | gr/lib/buffer_net_zmq.cc:118-122 | as many whole items as fit message and grant are copied, and no more would |
| NetReader.TurnPosts | gr/lib/buffer_net_zmq.cc:118-135 | a turn posts exactly those, and none without space |
| NetReader.Receiver.LoopTurn | gr/lib/buffer_net_zmq.cc:112-148 | the loop body is that turn and stays within the grant |
| NetReader.Receiver.Receive | gr/lib/buffer_net_zmq.cc:136-147 | takes the next message from its start, or waits |
| ItemSize.FinalSizes | gr/lib/flowgraph.cc:71-114 | every visited port ends with a size; a known one is unchanged; any other is the default or an initial size found along first connections |
| ItemSize.OrderHolds | gr/lib/flowgraph.cc:74-96 | visited are all outputs and all inputs of all nodes, and no other port |
| ItemSize.OrderAt | gr/lib/flowgraph.cc:74-96 | node after node, and of each node first the outputs and then the inputs |
| ItemSize.FinalIs | gr/lib/flowgraph.cc:99-114 | what propagation has found stays, and what it has not found becomes 8 |
| ItemSize.NearIsResolved | gr/lib/flowgraph.cc:75-96 | one pass gives a port of unknown size the size its peer had before the pass, if it had one |
| ItemSize.FlagMeansProgress | gr/lib/flowgraph.cc:72-97 | whenever the loop goes round again fewer ports lack a size, so it ends |
| ItemSize.PropagationCompleteIff | gr/lib/flowgraph.cc:72-97 | where each input port has one connection, every size that could be found is found exactly if no port waits for a peer visited later, or the last port of unknown size is resolved in the first pass |
| ItemSize.IdealIffSourced | gr/lib/flowgraph.cc:72-97 | the size that could be found for a port is the one at the end of a chain of first connections from it, and there is one exactly if such a chain exists |
| ItemSize.StopsTooEarly | gr/lib/flowgraph.cc:83-93 | five ports on which the loop stops early: an input ends with the default while its output has size 4 |
| ItemSize.FirstFlag | gr/lib/flowgraph.cc:83-93 | the flag of the first pass is decided by the last unknown port alone |
| ItemSize.FirstPass | gr/lib/flowgraph.cc:75-96 | what the first pass resolves |
| ItemSize.PropagateCompletes | gr/lib/flowgraph.cc:72-97 | once the peers are known, the loop completes the sizes |
| ItemSize.PropagateGrows | gr/lib/flowgraph.cc:72-97 | no known size is ever changed |
| ItemSize.FlowGraph.CheckConnections | gr/lib/flowgraph.cc:71-114 | passes until the flag stays down, then defaults: every output and every input of every node ends with a size, a known one as it was, any other 8 or an initial size found along first connections |
| ItemSize.FlowGraph.VisitPorts | gr/lib/flowgraph.cc:76-95 | one of the two inner loops |
| ItemSize.FlowGraph.VisitNodes | gr/lib/flowgraph.cc:74-96 | one pass over the outputs and inputs of all nodes: each port next to one of known size gets that size |
| ItemSize.FlowGraph.SetDefaults | gr/lib/flowgraph.cc:99-114 | every output and every input of every node that still has no size gets 8 |
| StateCache.RunKeepsBound | grc/gui/StateCache.py:34-89 | over any run at most capacity - 1 undos and redos are on offer |
| StateCache.UndoRedoInverse | grc/gui/StateCache.py:61-89 | prev and next undo each other |
| StateCache.CursorMoves | grc/gui/StateCache.py:61-89 | with nothing to undo or nothing to redo the history stays; otherwise the cursor moves by one state |
| StateCache.UndoingSavesRestores | grc/gui/StateCache.py:34-74 | as many undos as saves restore the saved-over state and leave the saved ones to redo |
| StateCache.SavesKeepMostRecent | grc/gui/StateCache.py:34-48 | saves evict only the oldest states |
| StateCache.SaveHolds | grc/gui/StateCache.py:42-48 | a save in the circular array is a save in the history |
| StateCache.UndoHolds | grc/gui/StateCache.py:68-73 | a step back in the array is an undo |
| StateCache.RedoHolds | grc/gui/StateCache.py:83-88 | a step forward in the array is a redo |
| StateCache.StateCache.SaveNewState | grc/gui/StateCache.py:34-49 | for any capacity of at least 1 |
| StateCache.StateCache.GetCurrentState | grc/gui/StateCache.py:51-59 | the state at the cursor |
| StateCache.StateCache.GetPrevState | grc/gui/StateCache.py:61-74 | none exactly if nothing is left to undo |
| StateCache.StateCache.GetNextState | grc/gui/StateCache.py:76-89 | none exactly if nothing is left to redo |
| StateCache.StateCache.constructor | grc/gui/StateCache.py:20-32 | a history of one state |
| BufferSizing.PageRounded | gr/lib/buffer_cpu_vmcirc.cc:46-64 | the smallest number of items, at least the requested one, that fills whole pages; bytes and items then agree exactly |
| BufferSizing.WholePagesIff | gr/lib/buffer_cpu_vmcirc.cc:46-48 | a number of items fills whole pages exactly if it is a multiple of the page size over the gcd |
| BufferSizing.RoundUpIsLeast | gr/lib/buffer_cpu_vmcirc.cc:47-48 | the rounding gives the least multiple |
| BufferSizing.GcdIsCombination | gr/lib/buffer_cpu_vmcirc.cc:46 | the gcd is a combination of item and page size |
| BufferSizing.GcdDivides | gr/lib/buffer_cpu_vmcirc.cc:46 | and divides both |

## Left out

- DoubleMapped.Buffer.AdvanceIndex: takes adding to the write index and wrapping it as one step. In the source a reader without the lock may look in between; it then computes the same (`DoubleMapped.UnwrappedWriteIndexReadsSame`, `DoubleMapped.UnwrappedReadIndexReadsSame`), so only a reader that attaches just there is not covered.
- DoubleMapped.BroadcastFifo: readers may have item sizes of their own, but the conversion of the space to a 32-bit signed integer is not modelled, nor are waits and notifications.
- SingleMapped.StepKeepsInv: readers attach before the first write and share the item size. A relocation that moves data is a legal step with one-byte items, all readers movable, no space granted, and no window out for a reader other than the one that asks; the source does not hold its callers to that. The if-and-only-if lemmas show why for items and readers, `SingleMapped.RelocationHitsGrant` for the grant. The windows of others do not matter for the invariant, only for `SingleMapped.HeldWindowIsStable`, as `SingleMapped.HeldWindowIsGranted` shows. A callback of the producer is a legal step if it moves nothing, which is when it keeps the invariant.
- SingleMapped.OutputBlockedKeepsInvIff: the smallest read index is kept in 32 bits in the source; buffers of 2^32 bytes or more are not covered.
- Shutdown.ExitOnlyAfterDownstreamFlushed: messages carry their kind and scheduler id only; block ids, the 100 ms sleep and the JSON form on the wire are not modelled. Premises are unique ids, linked proxies and one upstream side to each link.
- Shutdown.QuietMeansAllExited: liveness is stated for quiet networks (nothing in flight, every scheduler told DONE has reported); fairness of threads is not modelled.
- Proxy.LinkIsFifoIff: sockets are ordered and lose nothing; reconnects and socket errors are not modelled.
- Channelizer.Channelizer.Commutate: filters and FFT are uninterpreted; history, channel map and tag policy are not modelled.
- Channelizer.Channelizer.Work: takes the number of items reported as it is when it does not wrap. When it wraps (`Channelizer.ReportedWrapsIff` says exactly when), the source converts a number far beyond the range of int to int, which C++ leaves undefined.
- Channelizer.ToConsumeIsNearest: the oversampling rate is exactly N / r, as the constructor checks up to 0.00001, and the quotient that rintf rounds is exact; the rounding of the floating-point division itself is not modelled.
- MovingAverage.RunIsMovingAverage: samples are reals, and an item is a row of elements where the source has a flat array; rounding, overflow of integer sample types and a change of length or scale during a run are not modelled.
- FlatGraph.FlatGraph.TopologicalSort: blocks only, without ports; `unique_vector` is any list of the same elements without repetition.
- FlatGraph.FlatGraph.Partition: both ends of every edge belong to the graph; edges that `add_edge` brings in from another domain are not covered.
- GraphSplit.Partition: edges are values with two nodes; null nodes and the list `nodes()`, aliases and connected ports that `connect` updates on the side are not modelled.
- Tags.TagsReachReaders: reader and buffer have the same item size, and get_tags and post_read cover the same items; rescaling and `propagate_tags` are left out. The 64-bit totals do not overflow.
- FileSource.FileSource.Work: regular files at the granularity of items; seek, non-seekable files, close and re-opening during a run are left out, and a constant begin tag is set before the first call.
- FileSource.Open: file sizes are signed 64-bit offsets and an item is at most 2^63 bytes; a file that cannot be opened at all is left out.
- NetReader.RunDelivers: the messages to come are given beforehand, and an empty socket stays empty; when they arrive is not modelled. Receives succeed, and the grants of the circular buffer are arbitrary numbers.
- ItemSize.PropagationCompleteIff: stated for graphs in which first connections pair up, as they do when every input port has one connection; format descriptors and the checks on unconnected ports are left out.
- StateCache.StateCache.SaveNewState: `update_actions` is left out.
- BufferSizing.PageRounded: sizes do not overflow.
- The indices of the memory-mapped circular buffer (`gr/lib/buffer_cpu_vmcirc.cc:70-104`) move as those of the mirrored buffer do, with the mirror kept by the page tables: nothing new to prove.
- `get_buffer_num_items` (`gr/lib/buffer_management.cc:94-153`) takes the maximum of a few requirements and holds no state.
- `make_flat` and hierarchical blocks: the flattening in `gr/include/gnuradio/flat_graph.h` is not modelled.
- CUDA buffers, shared memory and mmap set-up, logging, JSON, Python bindings, schedulers, GRC and Qt.
- Element-wise blocks and parameter tables: computations without state or order.

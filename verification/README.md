# Verification of the server library's containers, streams and queues

A Dafny model of the parts of the library whose algorithms stand in its headers, with proofs. `dafny verify dfyconfig.toml` checks the whole project.

| files | what they model |
|---|---|
| `Ranking`, `SkipTowers`, `SkipInsertion`, `SkipRemoval`, `SkipList`, `SkipRuns` | the order-statistic skip list `CTCSkipList`. `SkipList` and `Node` are classes whose methods do the source's assignments. Two ghost fields mirror the heap: `spine`, the nodes in rank order, and `links`, the links by rank. `LinkAt` says what every link must be as a function of the spine and the tower heights alone, and the invariant `Linked` says that every link of a level in use is that. What insertion and erasure do to `LinkAt` is proved on plain sequences |
| `Framing`, `TcpSocket`, `Connection` | the receive and send buffers of `CTCPSocket` as arrays with head and tail. Ghost fields record the streams: bytes received and frames delivered, payloads accepted; `wire` holds the bytes that the kernel has taken. What `recv` and `send` report is a parameter. `Framing` holds the reference parser of length-prefixed frames |
| `Threads`, `ThreadQueue`, `BlockingQueue` | `TC_ThreadQueue` over `TC_Monitor`, and `blocking_queue`, as transition systems: labelled steps of threads and scheduler, and states reached by runs of them. Locking, sleeping, every single signal, time-outs and spurious wake-ups are steps of their own. `Threads` holds what both need of threads, calls and results; each is compared call by call with a sequential queue |
| `DynArray`, `MemPool` | the growing array and the item pool of tinyxml2 |
| `Timer` | `CTCTimer`, its multimap a sequence ordered by due time |
| `RollBySize` | size-based log rotation over a map from file name to content |
| `Strings`, `Bits`, `Base64`, `Division` | splitting and joining, binary digits and bit count, base-64 encoding |

Three things the code does differently from what one would expect of it are stated and proved as the code has them: `FindByRank` may return the end for the last rank, `swap` can lose a wake-up with every batch that is not empty and breaks the counter with every batch of two elements or more, and rotation with a limit of at most one file, where the comment on `_maxNum` names only `xxx.log`, leaves the base file alone and loses text written in between. In each case the exact condition is proved (`FindByRank`, `WakeUpsKeptExactly`, `AssertionHoldsExactly`, `RotationKeepsExactly`).

## Model

| member | source | states |
|---|---|---|
| `SkipTowers.Node.constructor` | include/util/tc_skiplist.h:46-59 | a tower has the asked number of levels, at least one, and starts with null links and zero spans |
| `SkipLists.SkipList.constructor` | include/util/tc_skiplist.h:199-213 | a new list satisfies the invariant `Linked`, is empty, orders by greater-than and has one level in use |
| `SkipLists.SkipList.Search` | include/util/tc_skiplist.h:260-274 | the descent stops, on every level in use, at the last node before one common place, with that node's rank; the place is behind every key the new key does not precede on its way |
| `SkipInsertion.StillStops` | include/util/tc_skiplist.h:264-274 | a walk on a lower level never passes the successor at which a higher level stopped, even when the list is not in order |
| `SkipLists.SkipList.RaiseLevels` | include/util/tc_skiplist.h:276-287 | levels coming into use become correct empty circles: the header's stale span is rewritten before anything reads it |
| `SkipInsertion.InsertLink` | include/util/tc_skiplist.h:289-305 | how the link that each old node must have changes, field by field, when a node enters at a position |
| `SkipInsertion.InsertOwnLink` | include/util/tc_skiplist.h:292-298 | the link the new node must have, computed from its predecessor's old link; the span subtraction does not underflow |
| `SkipLists.SkipList.LinkTurn` | include/util/tc_skiplist.h:290-300 | one turn of the linking loop turns one level into the level of the longer list and leaves all other levels alone |
| `SkipLists.SkipList.Widen` | include/util/tc_skiplist.h:302-305 | links that pass over the new node become one longer, so the levels above its tower are again exact |
| `SkipInsertion.LinkingDone` | include/util/tc_skiplist.h:289-307 | when both loops are through, every link of every level in use is what the longer spine demands |
| `SkipLists.SkipList.Insert` | include/util/tc_skiplist.h:258-310 | keeps `Linked` for every tower height; the keys are the old ones with the new key put in at the returned rank; in an ordered list all keys before it score at least as high and all keys behind it lower (at most as high and higher when ascending), and the order is kept |
| `SkipLists.SkipList.OrderedScores` | include/util/tc_skiplist.h:209-209 | a list is in order exactly when the scores never increase from rank to rank, or never decrease when ascending |
| `SkipRemoval.UninsertedLink` | include/util/tc_skiplist.h:370-379 | the three assignments of the unlinking loop undo an insertion link by link, and the backward span is positive before 1 is taken from it |
| `SkipLists.SkipList.Unlink` | include/util/tc_skiplist.h:369-379 | after the loop every level of the removed tower is exact for the shorter list |
| `SkipRemoval.ClimbBack` | include/util/tc_skiplist.h:398-401 | a step backward in the climb goes strictly left and misses no node that is taller than the level looked for; it never starts from the header |
| `SkipRemoval.ClimbFound` | include/util/tc_skiplist.h:393-397 | a node of the climb that is tall enough is the predecessor of the removed node on that level |
| `SkipLists.SkipList.Climb` | include/util/tc_skiplist.h:389-402 | the backward climb terminates and shortens exactly the links that passed over the removed node |
| `SkipRemoval.AloneOnLevel` | include/util/tc_skiplist.h:381-383 | the removed node has the header on both sides of its top level exactly when no other node reaches that level |
| `SkipRemoval.LowerLevel` | include/util/tc_skiplist.h:381-386 | a level that no node reaches can go out of use without harm to the others |
| `SkipLists.SkipList.Settle` | include/util/tc_skiplist.h:381-403 | the level count goes down by one exactly when the removed tower was the only one to reach the top level in use, otherwise it stays |
| `SkipLists.SkipList.Erase` | include/util/tc_skiplist.h:362-409 | keeps `Linked`; removes exactly the key at the iterator's rank, returns its successor or the end, and does nothing for the end |
| `SkipLists.SkipList.FindFirst` | include/util/tc_skiplist.h:312-335 | in an ordered list, the leftmost element of the score with its rank, none of the score before it; (0, end) exactly when no element has the score |
| `SkipLists.SkipList.FindLast` | include/util/tc_skiplist.h:337-360 | in an ordered list, the rightmost element of the score with its rank, none of the score behind it; (0, end) exactly when no element has the score |
| `Ranking.BoundsCountScore` | include/util/tc_skiplist.h:312-360 | in an ordered sequence the elements of a score are exactly those between the two bounds, so last rank minus first rank plus 1 counts them |
| `SkipLists.SkipList.GetRank` | include/util/tc_skiplist.h:411-441 | the spans summed on the way back to the header are the element's 1-based position; 0 for the end |
| `SkipLists.SkipList.FindByRank` | include/util/tc_skiplist.h:443-467 | finds every rank below the length; finds the last rank exactly when that node's tower reaches the top level in use, and otherwise returns the end, as it does for 0 and for ranks beyond the length |
| `SkipRuns.LastRankMissed` | include/util/tc_skiplist.h:455-466 | a list of two elements whose last one is not found by its rank |
| `SkipLists.SkipList.SpansFit` | include/util/tc_skiplist.h:31-32 | a span in use never reaches beyond the length of the list |
| `SkipLists.SkipList.Iterate` | include/util/tc_skiplist.h:90-94 | walking from `begin` to `end` meets the keys in rank order |
| `SkipLists.SkipList.SetCmp` | include/util/tc_skiplist.h:249-255 | changes the comparison and nothing else |
| `Ranking.SortedBothWays` | include/util/tc_skiplist.h:249-255 | a list in order for one comparison is in order for the other exactly when all scores are equal |
| `Ranking.ReplaySorted` | include/util/tc_skiplist.h:258-310 | after any run of insertions and erasures the plain sequence is in order |
| `SkipRuns.Run` | include/util/tc_skiplist.h:258-409 | any run of insertions and erasures on a fresh list, with any tower heights, reports the ranks and leaves the keys that the plain sorted sequence does |
| `SkipRuns.SameForAllHeights` | include/util/tc_skiplist.h:517-529 | two lists given the same operations and different random heights report the same ranks and iterate in the same order |
| `Framing.PeekReads` | include/common/common_socket.h:622-649 | the length in front of a stream is its first two, or four, bytes with the first byte counting most; it decides between too few bytes, an invalid length and a whole frame |
| `Framing.FieldMakesFrame` | include/common/common_socket.h:622-631 | every payload whose length fits, behind its length written most significant byte first, is a frame |
| `Framing.ParseFlatten` | include/common/common_socket.h:590-670 | cutting a stream into frames loses no byte and stops only where no whole frame is in front |
| `Framing.ParseAppend` | include/common/common_socket.h:590-670 | parsing a stream in two parts gives the same frames as parsing it at once |
| `Framing.ParseFrames` | include/common/common_socket.h:622-669 | parsing the concatenation of whole frames gives back these frames with nothing left over |
| `Framing.ParsePart` | include/common/common_socket.h:622-669 | a prefix of such a stream parses to a prefix of the frames; a last frame cut short does not appear |
| `TcpSockets.TcpSocket.constructor` | include/common/common_socket.h:102-120 | the stream invariant `Valid` holds for a connection just made |
| `TcpSockets.TcpSocket.CloseSocket` | include/common/common_socket.h:145-164 | closing empties both buffers and keeps what is known about the streams so far |
| `TcpSockets.TcpSocket.RecvData` | include/common/common_socket.h:403-467 | received bytes go behind the buffered ones, exactly as many as there is room for behind the tail; not-enough-buffer is reported exactly when the buffer is full of bytes not taken out; the socket closes exactly on end of stream and on errors other than EAGAIN |
| `TcpSockets.TcpSocket.MakeRoom` | include/common/common_socket.h:413-441 | starting over or moving down keeps the buffered bytes, and afterwards the tail is at the end only if the buffer is full |
| `TcpSockets.TcpSocket.GetOneCode` | include/common/common_socket.h:590-670 | the length in the first two or four bytes, big-endian, and the size limit decide the answer; the frame handed out is the one the reference parser sees in front; after no-data a full buffer means a frame larger than the buffer, so otherwise there is room to receive |
| `TcpSockets.TcpSocket.Compact` | include/common/common_socket.h:611-617 | moving an unfinished frame to the front keeps the buffered bytes |
| `TcpSockets.TcpSocket.Drain` | server/connector/connector_frame.cpp:922-946 | the draining loop terminates and hands out exactly the parser's frames up to the first that exceeds the caller's buffer |
| `TcpSockets.TcpSocket.SendData` | include/common/common_socket.h:469-588 | keeps: bytes on the wire followed by the queued bytes are the payloads accepted with 0, in order; the answer, the bytes put on the wire and those left queued are what the stretch of calls of `send` for the queued bytes and then the one for the payload come to; a refused payload adds nothing and does not fit behind the queued bytes |
| `TcpSockets.SendsUntil` | include/common/common_socket.h:490-581 | in a stretch of calls of `send` the first one that finds no room decides, if it comes before everything has been taken, and the bytes taken are what the calls before it had room for |
| `TcpSockets.TcpSocket.Flush` | include/common/common_socket.h:490-552 | sending queued bytes, in whatever portions, moves to the wire in order just the bytes taken before the first call that finds no room, and that call decides the answer |
| `TcpSockets.TcpSocket.Enqueue` | include/common/common_socket.h:514-533 | a payload is queued behind the pending bytes, after moving them down if need be, exactly when both together fit; otherwise nothing changes |
| `TcpSockets.TcpSocket.SendDirectly` | include/common/common_socket.h:554-581 | with an empty queue the bytes of the payload taken before the first call that finds no room are on the wire; after EAGAIN the rest is queued, after another error the socket is closed |
| `Connections.NothingLost` | include/common/common_socket.h:404-588 | delivered frames, received bytes not yet cut, bytes under way and bytes queued are together exactly the accepted payloads |
| `Connections.Session` | include/common/common_socket.h:404-670 | any run of two fresh sockets in which both ends send, receive, take out frames and close as they like, whatever the system calls meet: the frames handed out at each end are a prefix of those accepted at the other, byte for byte |
| `Connections.Exchange` | include/common/common_socket.h:404-670 | any frames sent one after the other over a connection that stays up come out complete and in order, whatever room the kernel has for each call of `send` and in whatever chunks the bytes arrive |
| `Connections.FramesArrive` | include/common/common_socket.h:404-670 | the same for any two sockets in valid states of which one has received a part of what the other sent; a payload broken off never comes out |
| `Connections.AllFramesArrive` | include/common/common_socket.h:404-670 | once everything has arrived and has been drained, all accepted frames have come out |
| `Connections.ChunksDoNotMatter` | include/common/common_socket.h:403-467 | receivers of the same bytes in different chunks have handed out the same frames and buffer the same rest, once drained |
| `Connections.DrainedIsParsed` | include/common/common_socket.h:590-670 | a drained receiver has handed out exactly the reference parser's frames of all it received |
| `ThreadQueues.KeepsCovered` | include/util/tc_monitor.h:42-166 | with empty batches, every step of every thread keeps: while somebody sleeps unsignalled, a wake-up is under way for every element (threads awake, notifications counted, signals being delivered), or a broadcast is |
| `ThreadQueues.WakeUpsKeptExactly` | include/util/tc_thread_queue.h:106-235 | for every family of batches: in all runs whose calls of swap are given batches of the family, in every state with the mutex free and a sleeper, at least as many threads are awake as there are elements, exactly when all batches of the family are empty |
| `ThreadQueues.NoLostWakeUp` | include/util/tc_thread_queue.h:106-235 | the positive half, for every run with empty batches, under deferred counts, batch pushes, broadcasts, timeouts and spurious wake-ups |
| `ThreadQueues.SomebodyTakes` | include/util/tc_thread_queue.h:106-142 | hence from such a state with an element in the queue a thread already awake can lock and take it |
| `ThreadQueues.NoWaitReturns` | include/util/tc_thread_queue.h:110-115 | in every run a call of `pop_front` or `swap` with 0 milliseconds never waits: its one look with the mutex gives the result, without data exactly when the queue is empty |
| `ThreadQueues.OthersSleep` | include/util/tc_thread_queue.h:108-131 | any other such call that finds the queue empty goes to sleep before it can come back without data |
| `ThreadQueues.TimedOutReturns` | include/util/tc_thread_queue.h:119-126 | only a call with a number of milliseconds times out, and then it returns without data whatever the queue holds |
| `ThreadQueues.WokenReturns` | include/util/tc_thread_queue.h:129-132 | a call woken in time looks once more and returns without data exactly when the queue is empty |
| `ThreadQueues.SignalsCounted` | include/util/tc_monitor.h:118-166 | in every run a thread that leaves has exactly one signal to deliver for each element it pushed, a broadcast for `notifyT`, and none otherwise |
| `ThreadQueues.FinishSignals` | include/util/tc_monitor.h:143-166 | the deliverer can go on alone until it has released the mutex, and each signal has then woken one sleeper as long as there was one, a broadcast all |
| `ThreadQueues.NeverStuck` | include/util/tc_thread_queue.h:106-255 | no deadlock: from every reachable state every thread that is not asleep can be brought to return or to sleep, unless the assertion fails |
| `ThreadQueues.AnythingMayHappen` | include/util/tc_monitor.h:59-116 | the model leaves clients and system free: any call by an idle thread, any sleeper signalled, spurious wake-ups, and time-outs of waits with a number of milliseconds |
| `ThreadQueues.BatchLosesWakeUp` | include/util/tc_thread_queue.h:231-232 | the other half: for every non-empty batch, a run that gives swap no other batch and ends with a thread asleep beside the whole batch, nobody awake and no other call open |
| `ThreadQueues.MutualExclusion` | include/util/tc_monitor.h:42-57 | in no reachable state are two threads between locking and unlocking |
| `ThreadQueues.SizeIsOff` | include/util/tc_thread_queue.h:135-138 | in every reachable state `_size` exceeds the length of the queue by exactly what the last successful swap since the last clear left over |
| `ThreadQueues.AssertionHoldsExactly` | include/util/tc_thread_queue.h:135-138 | for every family of batches: the assertion of `pop_front` holds in all runs whose calls of swap are given batches of the family, and so does `_size` at least the length of the queue, exactly when no batch of the family has two elements |
| `ThreadQueues.FailsExactly` | include/util/tc_thread_queue.h:135-138 | a step runs into the assertion exactly when it pops while length plus that difference is not positive |
| `ThreadQueues.NeverFails` | include/util/tc_thread_queue.h:135-138 | the positive half, for every run with batches of at most one element |
| `ThreadQueues.SizeIsLength` | include/util/tc_thread_queue.h:244-249 | `_size` is the length of the queue until a swap succeeds and again right after a clear |
| `ThreadQueues.BatchBreaksCounter` | include/util/tc_thread_queue.h:231-232 | the other half: for every batch of at least two elements, a run that gives swap no other batch and ends in the assertion |
| `ThreadQueues.EffectIsServed` | include/util/tc_thread_queue.h:106-255 | the step that carries an operation out changes queue and counter as the sequential operation with that result does; every other step leaves them alone, but for the elements of a batch push whose loop is still running |
| `ThreadQueues.Linearizable` | include/util/tc_thread_queue.h:106-255 | in every interleaving each call is carried out once, at one moment between its start and its return, and its result and, with the mutex free, queue and counter are those of a sequential queue given the calls in that order |
| `ThreadQueues.Conserved` | include/util/tc_thread_queue.h:106-255 | in every run what threads put in is what came out, was cleared or is still in the queue, as multisets |
| `ThreadQueues.FifoRun` | include/util/tc_thread_queue.h:106-235 | with pushes at the back and no clear, elements come out in the order they went in, whatever batches swap is given |
| `ThreadQueues.TakenOnce` | include/util/tc_thread_queue.h:94-104 | for every possible history of the sequential queue, what went in is what came out plus what is left, as multisets |
| `ThreadQueues.FirstInFirstOut` | include/util/tc_thread_queue.h:94-104 | for histories without front pushes and clears, this holds as sequences |
| `BlockingQueues.KeepsCovered` | include/utility/blocking_queue.hpp:25-104 | every step keeps: while somebody sleeps, the queue is not stopped and a wake-up is under way for every element, or notify_all is pending |
| `BlockingQueues.NoLostWakeUp` | include/utility/blocking_queue.hpp:25-104 | in every reachable state with the mutex free and a sleeper, the queue is not stopped and at least as many threads are awake as there are elements |
| `BlockingQueues.SomebodyTakes` | include/utility/blocking_queue.hpp:69-97 | hence from such a state with an element in the queue a pop already awake can lock and take it |
| `BlockingQueues.WokenGoesOn` | include/utility/blocking_queue.hpp:69-97 | a pop that is awake can lock and look again: it takes the element at its own end, returns nullopt from an empty stopped queue, and sleeps otherwise |
| `BlockingQueues.NotifiesDue` | include/utility/blocking_queue.hpp:25-104 | exactly the pushes notify one and exactly stop notifies all, after their change of the queue |
| `BlockingQueues.NotificationWakes` | include/utility/blocking_queue.hpp:25-104 | notify_one wakes one sleeper if there is any, notify_all leaves none asleep |
| `BlockingQueues.NeverStuck` | include/utility/blocking_queue.hpp:25-104 | no deadlock: from every reachable state every thread that is not asleep can be brought to return or to sleep |
| `BlockingQueues.AnythingMayHappen` | include/utility/blocking_queue.hpp:25-104 | the model leaves clients and system free: any call by an idle thread, any sleeper notified, spurious wake-ups |
| `BlockingQueues.Linearizable` | include/utility/blocking_queue.hpp:25-104 | in every interleaving each call is carried out once, at one moment between its start and its return, and its result and the final queue are those of a sequential deque given the calls in that order |
| `BlockingQueues.PoppedOnce` | include/utility/blocking_queue.hpp:25-97 | in every run each pushed element is returned by at most one pop or is still in the queue, and nothing else is returned |
| `BlockingQueues.EffectIsServed` | include/utility/blocking_queue.hpp:25-104 | the step that carries an operation out changes the queue as the sequential operation with that result does; every other step leaves it alone |
| `BlockingQueues.NullOptMeansStopped` | include/utility/blocking_queue.hpp:69-97 | nullopt has been returned only if stop was called |
| `BlockingQueues.StopWakesAll` | include/utility/blocking_queue.hpp:99-104 | after stop, with the mutex free, nobody sleeps |
| `DynArrays.DynArray.EnsureCapacity` | include/common/common_tinyxml2.h:303-317 | makes room, by doubling the capacity asked for, without changing the contents |
| `DynArrays.DynArray.AmortizedCopying` | include/common/common_tinyxml2.h:303-317 | over any run the elements copied in growing are at most twice the elements pushed |
| `DynArrays.DynArray.Clear` | include/common/common_tinyxml2.h:222-224 | empties the array and keeps the bound on copying |
| `DynArrays.DynArray.Push` | include/common/common_tinyxml2.h:226-231 | appends one element |
| `DynArrays.DynArray.PushArr` | include/common/common_tinyxml2.h:233-240 | adds room for a number of elements behind the old contents and returns where it begins |
| `DynArrays.DynArray.Pop` | include/common/common_tinyxml2.h:242-246 | takes off and returns the last element |
| `DynArrays.DynArray.PopArr` | include/common/common_tinyxml2.h:248-252 | takes a number of elements off the end |
| `DynArrays.DynArray.SwapRemove` | include/common/common_tinyxml2.h:282-287 | the last element takes the removed one's place and all others stay where they are; exactly one occurrence of the removed element is gone |
| `MemPools.MemPool.constructor` | include/common/common_tinyxml2.h:350-350 | an empty pool satisfies the partition invariant `Valid`, with as many items to a block as 4 kB hold |
| `MemPools.MemPool.NewBlock` | include/common/common_tinyxml2.h:378-386 | the items of a new block are distinct and chained in order with a null end |
| `MemPools.MemPool.Alloc` | include/common/common_tinyxml2.h:375-400 | never returns an item in use; keeps: items in use and the acyclic free list partition all items of all blocks; adds a block only when the free list is empty |
| `MemPools.MemPool.Free` | include/common/common_tinyxml2.h:401-412 | an item in use goes to the front of the free list and the partition is kept; null is ignored |
| `MemPools.MemPool.Clear` | include/common/common_tinyxml2.h:355-366 | leaves an empty valid pool |
| `MemPools.MemPool.BlocksNeeded` | include/common/common_tinyxml2.h:392-395 | in every reachable state the blocks hold the high-water mark and one block less would not, which is its quotient by the items per block, rounded up |
| `Timers.Timer.SetTimerTask` | include/util/tc_timer.h:42-55 | puts the task in its place by due time, now plus the interval set; an interval that is not positive counts as 1 |
| `Timers.Timer.Schedule` | include/util/tc_timer.h:57-79 | terminates; runs exactly the tasks due, each once, in order of due time; all tasks left are due later; the multimap stays ordered |
| `Timers.MidwayTurn` | include/util/tc_timer.h:60-73 | one turn of the loop: the iterator stays on the next due task although the erased one is inserted again, wherever that is |
| `Timers.ScheduleCounts` | include/util/tc_timer.h:57-79 | no task is lost or doubled: the tasks after a schedule are one for one the tasks before, those due put off by their interval |
| `Timers.Play` | include/util/tc_timer.h:42-79 | a timer that goes through any sequence of `SetTimerTask` and `Schedule` calls has the tasks, and has made the callbacks, that `Tasks` and `AllRun` say |
| `Timers.TaskOnItsOwn` | include/util/tc_timer.h:42-79 | over any such run from the empty timer, the entry of a callback set once is there exactly once and depends on its own setting and the times of the schedules alone, whenever other tasks are set |
| `Timers.RunsOnce` | include/util/tc_timer.h:57-79 | in such a run a schedule makes the callback exactly when its own entry is due, and then once |
| `Timers.Punctual` | include/util/tc_timer.h:42-79 | in such a run, consecutive calls of a callback are at least the interval set (1 if that is not positive) and less than it plus the largest gap between schedules apart |
| `Timers.FirstRun` | include/util/tc_timer.h:42-79 | the first call comes at least the interval after the task was set, and, if any schedule went before it, less than interval plus gap after |
| `RollBySizes.RollBySize.Roll` | include/util/tc_logger.h:941-1031 | one call is `Rolled` on values; with at least two files allowed it keeps: the files joined from the highest index down are a suffix of everything written, and it decides exactly when files are shifted, what each then holds and what is dropped; with fewer allowed the base file only grows, and the whole disk is stated for every call |
| `RollBySizes.RotationKeepsExactly` | include/util/tc_logger.h:941-1031 | for every size and limit: in all runs of a new log the files joined from the highest number down are a suffix of everything written exactly when the limit is at least 2, and there are never more files than the limit in exactly the same case |
| `RollBySizes.RunKeepsSuffix` | include/util/tc_logger.h:941-1031 | the positive half, for every run, also one that starts with files left over from before |
| `RollBySizes.TextLost` | include/util/tc_logger.h:996-1026 | the other half: for every limit of at most 1 and every size, a run of three rolls after which two files stand on the disk, the base file was never rotated and what was written in between is gone |
| `RollBySizes.Play` | include/util/tc_logger.h:941-1031 | a new object that goes through a run of calls is in the state that `Run` says |
| `RollBySizes.RollBySize.Rotate` | include/util/tc_logger.h:996-1026 | the removal, the renaming loop and the reopening do `Rotated` to the disk |
| `RollBySizes.RotatingKeeps` | include/util/tc_logger.h:996-1026 | with at least two files allowed, the highest index allowed is deleted, every other file moves up by one, the base file starts empty, and the files joined lose only what was deleted |
| `RollBySizes.RotatingFew` | include/util/tc_logger.h:996-1026 | with a limit of at most 1 nothing moves: another file is emptied and opened |
| `RollBySizes.ShiftingStep` | include/util/tc_logger.h:1007-1023 | one turn of the renaming loop, for a file that exists and for one that does not |
| `RollBySizes.ShiftingDone` | include/util/tc_logger.h:1007-1026 | after the loop and the reopening the files joined are what they were before |
| `RollBySizes.RollBySize.FilesBounded` | include/util/tc_logger.h:1045-1049 | there are never more files than allowed |
| `Strings.Sepstr` | include/util/tc_common.h:465-516 | returns exactly the tokens between the separator characters, or only the non-empty ones |
| `Strings.RangeTostr` | include/util/tc_common.h:571-593 | returns the elements joined by the separator |
| `Strings.JoinSplit` | include/util/tc_common.h:465-593 | joining the tokens of a string gives the string back exactly when the separator is one character or none of its characters occurs |
| `Strings.SplitJoinExactly` | include/util/tc_common.h:465-593 | splitting joined tokens gives them back exactly when there is at least one token, none contains a separator character, and the separator is one character or there is but one token |
| `Strings.WeaveSplit` | include/util/tc_common.h:465-516 | for any separator characters, the tokens with the separator characters of the string put back between them are the string |
| `Strings.SplitWeave` | include/util/tc_common.h:465-516 | whatever tokens free of separator characters are woven with separator characters are the tokens found |
| `Strings.NonEmptyInOrder` | include/util/tc_common.h:494-505 | dropping empty tokens keeps the others in their order |
| `Strings.SplitClean` | include/util/tc_common.h:476-492 | no token contains a separator character |
| `Strings.NonEmptyMeans` | include/util/tc_common.h:494-505 | without empty tokens exactly the others remain, each as often as before |
| `Bits.Int2Bin` | include/common/common_tools.h:20-38 | the string has the number as its base-2 value and no leading zero, except "0" for 0, and fits the width |
| `Bits.Bin1Num` | include/common/common_tools.h:40-50 | counts the ones, in exactly as many turns of the loop |
| `Bits.ClearsLowest` | include/common/common_tools.h:44-48 | n & (n - 1) has one 1 less than n and is smaller |
| `Bits.AndBits` | include/common/common_tools.h:44-48 | a bit of the conjunction is 1 exactly when it is in both numbers |
| `Bits.OnesAreDigits` | include/common/common_tools.h:20-50 | the ones of a number are the digits 1 of any of its binary notations, so the two functions agree |
| `Base64.Base64Encode` | include/common/common_smtp163_socket.h:12-43 | the first 4*ceil(len/3) characters are canonical and decode to the source by the decoder of section 4 of RFC 4648; four NULs follow exactly when the length is a multiple of 3 |
| `Base64.EncodingIs` | include/common/common_smtp163_socket.h:16-40 | the encoding of a source is the one string of whole groups of four that decodes to it and in which only characters of the alphabet stand, padding only at the end and all unused bits zero |
| `Base64.DecodesBack` | include/common/common_smtp163_socket.h:16-40 | groups of three bytes and the padded rest decode back, for every source |
| `Base64.Recovered` | include/common/common_smtp163_socket.h:17-20 | three bytes are recovered from the four masked and shifted values |

## Left out

- SkipLists.SkipList.Insert: heights are a parameter in 1..32, as `GetRandomLevel` draws them; their distribution is not modelled. Ranks and spans are unbounded numbers; `SpansFit` shows that the 32-bit spans do not wrap below 2^32 elements.
- SkipLists.SkipList.Erase: the rank of the iterator is a ghost parameter; iterators into other lists, dangling iterators and keys changed through an iterator are not modelled. `Dump` and the destructor are left out.
- TcpSockets.TcpSocket.SendData: payloads are at most one buffer long (the second loop caches its rest without a check), and `send` with bytes to send does not return 0 (the first loop would not end).
- TcpSockets.TcpSocket.GetOneCode: the destination array is long enough for what the limit admits, as the source's comment demands of its callers.
- `get_one_code_ex`, opening and connecting sockets, the encoding of message headers and the second `send_data` of the SMTP socket.
- Exceptions of the condition variable and the recursive variant `TC_ThreadRecLock`; the lock is non-recursive.
- ThreadQueues.KeepsCovered: a signal wakes one sleeper; that it may wake more is covered by spurious wake-ups.
- BlockingQueues.NoLostWakeUp: destruction of the queue is not modelled.
- MemPools.MemPool.Alloc: the list of blocks is a sequence rather than a `DynArray`; overlaying user bytes on the link of an item in use is modelled only in that nothing is said about that link.
- MemPools.MemPool.Free: only items in use, or null, are given back.
- DynArrays.DynArray.PushArr: capacities that pass `INT_MAX / 2` are excluded, as the source's own assertion does.
- Timers.Timer.Schedule: callbacks do not touch the timer, time is a parameter, and due times are unbounded numbers.
- RollBySizes.RollBySize.Roll: all file operations succeed, nobody else touches the files, the path and limits do not change, and the position after a write is the file's size. Time-based rolling and log formatting are left out.
- Strings.Sepstr: only for strings; conversion of tokens to other types is left out.
- Bits.Int2Bin: unsigned types only.
- Base64.Base64Encode: the 65-entry table is a function with the same values.
- The object pool, shared memory, ciphers, UTF-8, MD5, thread pool, XML parser and printer, whose code is not in the headers or is not part of this model.

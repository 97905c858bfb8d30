# NetFast in Dafny

NetFast is a userspace TCP/IP stack. This project models the parts of it whose correctness depends on
long histories, and proves what they keep:

- **Lock-free queues and completions.** Every atomic access of the C code is one step of a step relation,
  so a run is any interleaving of any number of threads. `MpscQueue` is the intrusive queue with a stub,
  `NotifyQueue` the eventfd protocol with its budgeted consumer, `AsyncCq` the completion queue with many
  waiters, `MpmcRing` the bounded ring in its batch and single-entry forms.
- **TCP data path.** `TcpSeq` is arithmetic modulo 2^32. `TcpSendQueue` and `TcpSender` are the two send
  queues over the connection's sequence space, `TcpReceiver` the reorder list and the receive queue,
  `TcpTimers` the seven deadlines behind one timer task.
- **Timers.** `TimerWheel` is the two-level wheel, proved to agree with a plain table of deadlines.
- **Packets.** `Skbuff` is the buffer chain, proved to act like one flat string. `Checksum` is the Internet
  checksum over it. `Ipv6Queue`, `Ipv6Wire` and `Ipv6Reassembly` are IPv6 fragmentation and reassembly.
- **Congestion.** `Cubic` is the exact integer arithmetic of the CUBIC curve, `Congestion` the state machine.
- **Memory and routes.** `Slab` is the slot cache over packet frames, `RouteTrie` the prefix trie with its
  route lists. `ListIndex` holds the intrusive lists that the wheel and the slab cache share.

Code that changes state in loops is written as classes and methods with loops. Where several operations
must be reasoned about together, each method is tied to a function on values, and the lemmas are about that
function. History variables (`h`, `log`, `order`, `stage`, and the ghost fields) record what the proofs talk
about; they never influence the modelled code. Allocations, the output path and clock readings may give
any result the real ones may; where a parameter `healthy` or `alloc` is set, none of them fails, and the
contract says what must then be achieved.

Some properties one would expect of the code do not hold as they stand. For each there is a lemma with a
concrete input and a lemma that says exactly when the property does hold:

- A TCP segment that starts before `rcv_nxt` is cut twice when what is left of it is longer than what was
  cut off, and then the application reads wrong octets (`TcpReceiver.StraddleExample`,
  `TcpReceiver.ReceiveRightIff`).
- A timer a positive multiple of 2^32 ms ahead is linked back into the slot being processed, for ever, and
  so is one whose callback arms it again at or before now (`TimerWheel.StuckExample`,
  `TimerWheel.RearmExample`, `TimerWheel.SlotLoopEndsIff`).
- A push to the frame pool can fail on a pool with room, even on an empty one, because its full test compares
  a position it read before with a dequeue position it reads now (`MpmcRing.PushFailsOnEmpty`,
  `MpmcRing.PoolPushFails`).
- Appending a buffer without copying keeps the node count right only if neither side is without data nodes
  (`Skbuff.AppendToEmpty`, `Skbuff.AppendIs`).
- An IPv6 datagram whose fragments have all arrived is not always handed over. It is thrown away if its
  headers take more than 2080 octets, although one extension header alone can make them 2088
  (`Ipv6Queue.LongHeaders`, `Ipv6Wire.LongestHeader`); if headers and payload together exceed the payload
  length field, although each fragment passes its own check (`Ipv6Queue.LongPayload`); or if the joined
  buffer would have more than 32 nodes, as for a packet of 65535 octets cut for an MTU of 1280
  (`Ipv6Wire.GreatestPacket`). `Ipv6Queue.CompletesExactlyThen` says exactly when it is handed over, and
  `Ipv6Wire.RoundTrip` and `Ipv6Wire.NodesFitIff` say it for the packets the stack itself fragments.

The comment in `skb_data_append` says that a non-empty node is never extended; the code extends the last
node whenever it has room, and the model follows the code. The comment in `do_timer_tasks` speaks of 10 ms
slots; the constant is 1 ms, and the model follows the constant.

## Model

| member | source | states |
|---|---|---|
| `MpscQueue.NextPreserves` | lib/queue.c:71-123 | every atomic access of any producer or of the consumer keeps the chain linked in exchange order, with every missing link owed by exactly one agent |
| `MpscQueue.RunInv` | lib/queue.c:76-123 | that holds in every state of every interleaving from the initial queue |
| `MpscQueue.PopsFollowPushOrder` | lib/queue.c:83-123 | the nodes returned so far followed by the nodes still chained are all pushed nodes in exchange order, nothing lost or repeated, and the stub is chained at most once |
| `MpscQueue.NullMeansBlocked` | lib/queue.c:90-123 | when pop returns NULL the record says that the queue was empty or the first link missing during this pop |
| `MpscQueue.BlockedHasWitness` | lib/queue.c:90-123 | the moment recorded for that is a real state of the run within the same pop |
| `MpscQueue.NullHasWitness` | lib/queue.c:90-123 | in every run a pop that returns NULL was preceded, within the same pop, by a state in which the queue was empty or the first link missing |
| `MpscQueue.PoppedNodeIsFree` | lib/queue.c:104-120 | once a node is returned it is out of the chain and no agent holds a link that would still write to it |
| `MpscQueue.PopAloneDelivers` | lib/queue.c:90-123 | with no push in flight and a node queued, a pop run to its end returns the oldest node not yet returned |
| `MpscQueue.PopAloneEmpty` | lib/queue.c:90-123 | with nothing queued a pop run alone returns NULL |
| `MpscQueue.ExchangeAppends` | lib/queue.c:83-88 | in every run the exchange of a push puts exactly the node the push was given at the end of the order |
| `NotifyQueue.PushPreserves` | lib/queue.c:174-178 | a producer's push keeps the wakeup invariant, because linking a node leaves the producer owing a notification |
| `NotifyQueue.NotifyPreserves` | lib/queue.c:157-172 | every step of notify keeps it: `pending` is never left set with nobody bound to make the eventfd readable or to clear it |
| `NotifyQueue.ConsumePreserves` | main/stack.c:112-129 | every step of the consumer keeps it, across the read of the eventfd, the clearing of `pending` and the exit at the budget |
| `NotifyQueue.RunInv` | lib/queue.c:150-178 | the invariant holds in every state of every interleaving |
| `NotifyQueue.NoLostWakeup` | lib/queue.c:150-178 | a sleeping consumer with a linked node has a readable eventfd or a producer that has not finished notifying |
| `NotifyQueue.RestMeansDelivered` | main/stack.c:110-129 | when all is at rest every node ever pushed has been popped, in order, and `pending` is clear |
| `NotifyQueue.WakeUpPops` | main/stack.c:109-129 | from sleep with the eventfd readable, a pass run alone drains it, clears `pending`, and pops the first 128 of the nodes queued, or all if there are fewer |
| `AsyncCq.MinNeedBelow` | main/req_async.c:50-53 | the recomputed wait_need is at most the need of every waiter |
| `AsyncCq.UnlistedSub` | main/req_async.c:40-48 | what is left after removing a waiter are entries of other waiters |
| `AsyncCq.UnlistedKeeps` | main/req_async.c:40-48 | every other waiter's entry is still there |
| `AsyncCq.WaitingPreserved` | main/req_async.c:28-54 | in every step wait_need is the minimum over the listed waiters, and a thread is listed with its own need exactly while it is armed |
| `AsyncCq.LivesPreserved` | main/req.c:347-404 | every step keeps the recorded stage of every request true, and complete_count equal to the requests counted and not yet handed out |
| `AsyncCq.UncountKeepsLives` | main/req_async.c:83-102 | the count is not zero when async_cq_pop subtracts from it |
| `AsyncCq.CountExact` | main/req_async.c:83-92 | over every run complete_count is exactly the number of requests completed and not yet popped, so the assertion holds |
| `AsyncCq.StepSources` | main/req_async.c:226-330 | the count grows only in a thread that then checks it against the needs, the eventfd is emptied only by a waiter that then looks again, and a thread falls asleep only with its need unmet |
| `AsyncCq.ComingProgress` | lib/queue.c:150-172 | a thread on its way to signal stays on its way, hands over to another, makes the eventfd readable, or finds the need unmet |
| `AsyncCq.WakeupsPreserved` | main/req_async.c:226-330 | every step keeps: no waiter sleeps with its need met unless the eventfd is readable or someone is coming |
| `AsyncCq.RunInv` | main/req_async.c:142-330 | all invariants of counts, stages, needs and wake-ups hold in every state of every interleaving of submitters, workers and waiters |
| `AsyncCq.NoSleeperForgotten` | main/req_async.c:226-330 | in every run, a waiter asleep with its need met has a readable eventfd or a thread still on its way to signal it |
| `AsyncCq.StageAdvances` | main/req.c:357-404 | one step moves a request at most one stage forward and never changes a returned one |
| `AsyncCq.ReturnedOnce` | main/req_async.c:226-330 | over every run the recorded stage of a request only moves forward and the thread it was returned to never changes |
| `AsyncCq.RunResults` | main/req_async.c:226-330 | in every run whatever is in the results of a waiter has been returned to that waiter, and is there once |
| `AsyncCq.HandedOutOnce` | main/req_async.c:226-330 | in every run a request gets into the results of one async_wait of one thread, once |
| `AsyncCq.WaitEnds` | main/req_async.c:226-330 | in every run an async_wait ends with at most the `max` it was called with and at least the `min`; with fewer only if its deadline had passed when it looked, or its poll had failed |
| `AsyncCq.WaitGoesOn` | main/req_async.c:258-269 | it goes on waiting only while short of `min` with its deadline not passed |
| `AsyncCq.CollectsUpToMax` | main/req_async.c:251-256 | it may collect as long as it has fewer than `max` |
| `AsyncCq.RestMeansUnmet` | main/req_async.c:226-330 | when nothing moves and the eventfd is silent, every sleeper lacks completions, and the count is the length of the queue |
| `MpmcRing.InitInv` | lib/xdp.c:282-293 | the pool that starts full and the cache that starts empty both satisfy the invariant |
| `MpmcRing.CheckedRunIsFree` | lib/frame_cache.c:67-124 | the slots checked one by one are all still free when the enqueuer's compare-and-swap wins |
| `MpmcRing.CheckedRunIsFilled` | lib/frame_cache.c:126-186 | the entries checked one by one are all still there when the dequeuer's compare-and-swap wins |
| `MpmcRing.NextPreserves` | lib/frame_cache.c:67-186 | every atomic access of any thread keeps the relation between positions, sequence numbers, owners and entries |
| `MpmcRing.RunInv` | lib/xdp.c:126-243 | it holds in every state of every interleaving, batch and single-entry operations mixed |
| `MpmcRing.RunArgs` | lib/frame_cache.c:67-186 | in every run, through all retries, a call works with exactly the entries or the maximum it was given |
| `MpmcRing.DeliveredOnce` | lib/frame_cache.c:67-186 | a step never changes what was delivered at a position, and what is delivered is what was enqueued there |
| `MpmcRing.HandedOverInOrder` | lib/frame_cache.c:67-186 | over every run entries keep their place in claim order and each position is delivered with its own entry for good |
| `MpmcRing.NeverOverwritten` | lib/frame_cache.c:67-124 | when an entry is about to be stored, the slot's entry of the previous turn has been delivered |
| `MpmcRing.ReadsFreshEntry` | lib/frame_cache.c:126-186 | a dequeuer reads a position nobody read before and gets the entry enqueued there |
| `MpmcRing.EntryAccountedFor` | lib/frame_cache.c:67-186 | every enqueued position is being written, in the ring, being taken out, or delivered |
| `MpmcRing.DequeueFailsWhenEmpty` | lib/xdp.c:126-179 | a dequeue gives up only when the oldest position is absent or still being written |
| `MpmcRing.EnqueueFailsWhenFull` | lib/frame_cache.c:67-124 | an enqueue finds no room only when the slot of the next position still belongs to the previous turn |
| `MpmcRing.PoolPushFails` | lib/xdp.c:207-222 | at its full test the pool's push fails with room in the pool exactly if the position it looked at has been overtaken by the dequeuers; if nothing was put in since, it fails exactly when the pool is full |
| `MpmcRing.PushFailsOnEmpty` | lib/xdp.c:207-222 | a run of a pool with two frames in which a push fails although the pool is empty |
| `MpmcRing.EnqueueAppends` | lib/frame_cache.c:67-124 | in every run, through all retries, a winning compare-and-swap puts into the order of the ring exactly the first `ready` of the entries its call was given |
| `MpmcRing.EnqueueReturns` | lib/xdp.c:182-243 | what an enqueue or a push stores are the first entries it was given, at consecutive positions |
| `MpmcRing.DequeueReturns` | lib/frame_cache.c:126-186 | a finished dequeue returns the entries of consecutive positions in ring order, at least one and at most what it asked for |
| `MpmcRing.EnqueueAlone` | lib/frame_cache.c:67-124 | an enqueue run alone puts in as many entries as there are free positions in a row, and ends |
| `MpmcRing.DequeueAlone` | lib/frame_cache.c:126-186 | a dequeue run alone takes as many entries as there are filled positions in a row, up to its maximum |
| `TcpSeq.Compare` | main/tcp.h:22-26 | the comparison macros order sequence numbers as the positions they stand for, across any number of wraps, within 2^31 |
| `TcpSeq.AckNamesSentNumber` | main/tcp.c:1360-1407 | an acknowledgment that passes the tests of tcp_input names a number that was sent and not yet acknowledged |
| `TcpSendQueue.CutUnits` | main/tcp.c:1775-1854 | cutting a segment cuts its sequence numbers in two, flags and payload each on their own side |
| `TcpSendQueue.SentUnits` | main/tcp.c:1704-1758 | the packet built under a budget carries exactly the first numbers of the segment |
| `TcpSendQueue.TrimUnits` | main/tcp.c:723-756 | trimming an acknowledged prefix drops exactly those numbers, the SYN first |
| `TcpSendQueue.SpanBound` | main/tcp.c:41-46 | what is outstanding uses at most two numbers more than it has octets |
| `TcpSendQueue.RowMerge` | main/tcp.c:121-152 | merging a small sent segment into the last one covers the same numbers with the same octets |
| `TcpSender.QueuesTileTheSpace` | main/tcp.c:1775-1937 | the retransmit queue is exactly [snd_una, snd_nxt), the send queue exactly [snd_nxt, snd_end), and send_buffer_len is their payload |
| `TcpSender.SpanSmall` | main/tcp.c:2204-2244 | the outstanding span stays below 2^31, so the macros are exact on it |
| `TcpSender.WireNeverContradicts` | main/tcp.c:1704-1937 | any two packets ever sent that cover the same number carry the same octet or flag there, the one the application wrote |
| `TcpSender.BudgetExact` | main/tcp.c:1866-1890 | the budget computed modulo 2^32 is the true room left in the window |
| `TcpSender.WindowTest` | main/tcp.c:1868-1873 | the modular test before sending says exactly that the window is used up |
| `TcpSender.Sender.XmitSegment` | main/tcp.c:1704-1758 | one packet goes out with the first numbers of the segment, or nothing changes |
| `TcpSender.Sender.RetransmitEnqueue` | main/tcp.c:121-152 | the sent queue grows by exactly the segment, merged or appended |
| `TcpSender.Sender.XmitNew` | main/tcp.c:1775-1854 | on success exactly min(budget, length) numbers move from unsent to sent and go on the wire once; on failure nothing is sent |
| `TcpSender.Sender.WriteXmit` | main/tcp.c:1856-1905 | the packets follow each other from snd_nxt on, inside min(window, cwnd) from snd_una, at most 64; on success nothing is left to send, or the window is used up, or 64 went out, or cork holds back one short segment; and it succeeds unless an allocation or the output fails |
| `TcpSender.Sender.Retransmit` | main/tcp.c:1907-1925 | exactly one packet goes out from snd_una: one number as a probe, all of a SYN, else as much of the oldest segment as min(window, cwnd) allows; only a closed window keeps it back |
| `TcpSender.Sender.UpdateRetransmitQueue` | main/tcp.c:723-756 | everything below the acknowledged number is released, a segment acknowledged in part is trimmed, the rest still tiles |
| `TcpSender.Sender.Acknowledge` | main/tcp.c:1360-1415 | snd_una moves to an acceptable acknowledgment by exactly the numbers acknowledged, any other changes nothing |
| `TcpSender.Sender.Write` | main/tcp.c:2204-2244 | exactly the octets taken get the next sequence numbers, in order; as many are taken as the send buffer has room for, unless an allocation fails |
| `TcpSender.Sender.SendFin` | main/tcp.c:3020-3039 | the FIN takes the number after the last octet, unless a segment is needed for it and cannot be made |
| `TcpSender.Sender.Probe` | main/tcp.c:1927-1937 | exactly one packet goes out, with one number from the oldest unacknowledged place, unless output fails, and then nothing changes on the wire; the queues stay tiled |
| `TcpReceiver.InsertSorted` | main/tcp.c:229-239 | the reorder list stays sorted by position across wraps, and refuses only a segment that starts where a held one does |
| `TcpReceiver.DrainKeeps` | main/tcp.c:285-311 | the drain loop moves rcv_nxt exactly as far as contiguous data reaches, hands over exactly the peer's octets, and leaves only what lies beyond a gap |
| `TcpReceiver.TrimmedIs` | main/tcp.c:241-266 | both cuts, computed modulo 2^32, keep exactly the octets between rcv_nxt and the right edge |
| `TcpReceiver.ReceiveKeeps` | main/tcp.c:241-317 | for any arrival order, duplication and overlap of segments from rcv_nxt on, the receive queue is the peer's stream up to rcv_nxt, the buffer stays within its size and the right edge stays |
| `TcpReceiver.NothingLost` | main/tcp.c:268-311 | no octet held before is lost, and none of an accepted segment inside the window |
| `TcpReceiver.InOrderAdvances` | main/tcp.c:241-311 | a segment that starts at rcv_nxt is always taken, as far as the window allows |
| `TcpReceiver.StraddleIs` | main/tcp.c:249-258 | a segment that starts before rcv_nxt is either dropped or delivered from the wrong place |
| `TcpReceiver.StraddleExample` | main/tcp.c:249-305 | a concrete segment after which the application reads octets 13, 14 where the peer sent 12, 13 |
| `TcpReceiver.ReceiveRightIff` | main/tcp.c:241-317 | the octets handed over are right whatever octet stands at rcv_nxt if and only if the overlap is not between zero and what is left of the segment |
| `TcpReceiver.ReadKeeps` | main/tcp.c:2323-2360 | reading returns the next octets of the stream and opens the window by exactly that many |
| `TcpReceiver.RunDelivers` | main/tcp.c:241-317 | over every run of arrivals and reads, what was read followed by what is queued is the peer's stream, and the right edge never moves left |
| `TcpReceiver.Receiver.AddNode` | lib/list.c:24-45 | the insertion loop is the sorted insertion |
| `TcpReceiver.Receiver.DrainList` | main/tcp.c:285-311 | the loop over the list is the drain function |
| `TcpReceiver.Receiver.RecvData` | main/tcp.c:241-317 | the whole of tcp_recv_data is the function the theorems are about, and a refused segment changes nothing |
| `TcpReceiver.Receiver.ReadData` | main/tcp.c:2323-2360 | the copy loop returns the first octets of the queue and leaves the rest |
| `TcpTimers.TaskDueIff` | main/tcp.c:417-501 | the shared task is due exactly when one of the seven deadlines is |
| `TcpTimers.AgreesUnique` | main/tcp.c:367-415 | only one registration agrees with given deadlines, so the shortcut and the recomputation cannot differ |
| `TcpTimers.ShortcutAgrees` | main/tcp.c:373-387 | changing a deadline that is not the earliest moves the earliest only if the new one is earlier |
| `TcpTimers.Timer.Reset` | main/tcp.c:390-415 | from any state the task ends up registered iff some deadline is set, at exactly their minimum |
| `TcpTimers.Timer.Update` | main/tcp.c:367-388 | the deadline changes under the stated condition and the task still agrees |
| `TcpTimers.Timer.DeadlineDue` | main/tcp.c:160-171 | a due deadline is stopped and the task agrees again; one that is not due changes nothing |
| `TcpTimers.Timer.Fire` | main/tcp.c:417-501 | a fired task always finds a due deadline, serves the first in its order, and agrees again after any updates the service makes |
| `TimerWheel.SlotForInTime` | lib/thread.c:60-79 | the chosen list is visited no later than the deadline, and it is the current one exactly for a timer that is due or a multiple of 2^32 ms ahead |
| `TimerWheel.ActKeeps` | lib/thread.c:81-132 | registering, re-registering and unregistering keep every timer in exactly one list that is visited in time |
| `TimerWheel.RequeueKeeps` | lib/thread.c:87-94 | a timer put back leaves the current list unless it is due or stuck, and stays in time |
| `TimerWheel.LowerKeeps` | lib/thread.c:96-106 | moving a timer down from the second level keeps it in time |
| `TimerWheel.TickedKeeps` | lib/thread.c:134-143 | a tick with the current list empty keeps all timers in time, but for the list about to be cascaded |
| `TimerWheel.NothingDue` | lib/thread.c:425-442 | with the current list empty no registered timer is due |
| `TimerWheel.SlotLoopEndsIff` | lib/thread.c:394-423 | with callbacks that do nothing or arm their own timer again, the loop ends if and only if no timer in the list is a positive multiple of 2^32 ms ahead and none that is due is armed again at or before now or such a multiple ahead |
| `TimerWheel.StuckExample` | lib/thread.c:60-94 | a timer 2^32 ms ahead keeps the loop going for ever |
| `TimerWheel.RearmExample` | lib/thread.c:394-423 | a timer whose callback arms it again at the same instant keeps the loop going for ever |
| `TimerWheel.ExactlyTheDueFire` | lib/thread.c:381-442 | among timers the callbacks do not touch, exactly those with timeout at or before now fire, each with its own deadline |
| `TimerWheel.FiresOnce` | lib/thread.c:381-392 | between two firings of a timer it has been armed |
| `TimerWheel.Wheel.Register` | lib/thread.c:274-286 | the table of deadlines gains exactly this one and the index stays valid |
| `TimerWheel.Wheel.Unregister` | lib/thread.c:308-327 | the table of deadlines loses exactly this one |
| `TimerWheel.Wheel.ProcessCurrentSlot` | lib/thread.c:394-423 | the loop ends with nothing left in the current list, for any callbacks of which all but finitely many arm only deadlines after now; the log is each firing followed by exactly what its own callback did, and the number returned counts the firings |
| `TimerWheel.LaterSettles` | lib/thread.c:381-423 | callbacks that arm only deadlines after now meet that condition |
| `TimerWheel.Wheel.Cascade` | lib/thread.c:96-106 | after the cascade every timer is in time again |
| `TimerWheel.Wheel.Advance` | lib/thread.c:134-143 | one tick keeps the invariant |
| `TimerWheel.Wheel.DoTimerTasks` | lib/thread.c:425-442 | with such callbacks it ends, and afterwards no registered timer is due, none fired early, and the table changed only by firings of due timers, each followed by exactly what its own callback did |
| `Skbuff.ConsumeIs` | main/skbuff.c:42-90 | consuming drops exactly the first octets and keeps data_num and data_total_len right |
| `Skbuff.ConsumeLinearIs` | main/skbuff.c:47-66 | linear consuming stops at the end of the first node |
| `Skbuff.TruncateIs` | main/skbuff.c:149-191 | truncating keeps exactly the first octets and the bookkeeping |
| `Skbuff.SplitIs` | main/skbuff.c:557-630 | a split cuts the octets in two at the given place, keeps both bookkeepings, and is refused exactly at or past the end, or at 0 before a non-empty node |
| `Skbuff.AppendIs` | main/skbuff.c:632-670 | appending concatenates, and the node count stays right if and only if both sides have a data node |
| `Skbuff.AppendToEmpty` | main/skbuff.c:632-670 | appended to a buffer without data nodes, the next consume of one octet drops everything |
| `Skbuff.SplitThenAppend` | main/skbuff.c:557-670 | splitting and appending again gives back the same octets, and succeeds if and only if the two parts have at most 32 nodes together |
| `Skbuff.PushIs` | main/skbuff.c:92-139 | pushing puts the new octets in front, and fails only without headroom at 32 nodes |
| `Skbuff.SkBuff.ConsumeBytes` | main/skbuff.c:42-90 | the loop in place is the consume function |
| `Skbuff.SkBuff.TruncateTo` | main/skbuff.c:149-191 | the loop in place is the truncate function |
| `Skbuff.SkBuff.SplitOff` | main/skbuff.c:557-630 | the split in place leaves the head and a fresh buffer with the tail; a refusal changes nothing |
| `Skbuff.SkBuff.AppendSkb` | main/skbuff.c:632-670 | takes the other buffer's nodes over within 32 nodes, or changes nothing |
| `Skbuff.SkBuff.AppendCopy` | main/skbuff.c:637-654 | copies the other buffer's octets into the room after the last one, exactly when there is enough |
| `Skbuff.SkBuff.CopyBits` | main/skbuff.c:257-287 | returns exactly the asked range, and succeeds exactly when it lies inside or is empty, although the range test wraps |
| `Skbuff.SkBuff.DataAppend` | main/skbuff.c:193-253 | all octets are appended or nothing changes, with at most 32 nodes; if no allocation fails it succeeds exactly when the last node and the nodes to spare have room |
| `Checksum.Partial` | lib/base.c:7-25 | the loop is the sum of 16-bit words modulo 2^32 |
| `Checksum.FoldSum` | lib/base.c:36-42 | the folding loop is one's-complement folding in closed form |
| `Checksum.Flat` | lib/base.c:36-42 | the checksum of flat octets is the complement of the folded word sum |
| `Checksum.OverChain` | main/skbuff.c:289-330 | the checksum of a chain is that of its flat octets, odd node lengths included |
| `Checksum.CutsDoNotMatter` | main/skbuff.c:289-330 | chains with the same octets have the same checksum however they are cut |
| `Checksum.NoOverflow` | lib/base.c:7-25 | no 32-bit sum overflows at packet lengths |
| `Checksum.FlatProtocol` | lib/base.c:44-55 | the checksum with the IPv4 pseudo header over a flat segment |
| `Checksum.Protocol4` | main/skbuff.c:332-344 | the same over a chain, and without a buffer the folded pseudo header |
| `Checksum.Protocol6` | main/skbuff.c:346-359 | the same with the IPv6 pseudo header |
| `Checksum.StoredVerifies` | main/skbuff.c:332-359 | a segment with its checksum stored verifies to zero |
| `Checksum.ChangeNoticed` | main/skbuff.c:332-359 | two values of one word that both verify are equal, but for 0x0000 against 0xffff |
| `Checksum.OffloadAgrees` | main/skbuff.c:341-342 | the card's sum over the segment with the seed in its field is the checksum the software computes |
| `Ipv6Queue.ArriveKeeps` | main/ipv6_ext.c:198-263 | whatever arrives, a queue that goes on or completes is sorted, disjoint and within its total, with received_len the sum of lengths |
| `Ipv6Queue.ArriveCases` | main/ipv6_ext.c:204-249 | other headers or an end that contradicts what is held destroy the queue, an overlap changes nothing, anything else is put in |
| `Ipv6Queue.ReadyTiles` | main/ipv6_ext.c:258-306 | reaching the total forces an exact tiling, so the counts agree, there is no hole and the first fragment is there |
| `Ipv6Queue.FinishIs` | main/ipv6_ext.c:261-361 | a queue that has received enough is handed over exactly if it is within the limits on headers, length and nodes, and destroyed otherwise; the mismatch, the hole and the missing first fragment never occur |
| `Ipv6Queue.CompleteIs` | main/ipv6_ext.c:261-361 | a completed queue hands over every accepted fragment at its own offset, nothing missing, nothing twice, within the limits |
| `Ipv6Queue.ArriveFragment` | main/ipv6_ext.c:198-263 | for a datagram's own fragment, whatever is held, a repeat changes nothing and a new one goes to its place |
| `Ipv6Queue.RunHolds` | main/ipv6_ext.c:198-361 | after any arrivals of a datagram's fragments the queue holds exactly those seen since the datagram was last seen in full, each in the buffer it first came in |
| `Ipv6Queue.CompletesExactlyThen` | main/ipv6_ext.c:157-361 | for every order, repeats and buffers an arrival completes the datagram if and only if it is the last one missing and the limits hold, and destroys it if and only if it is the last one missing and they do not |
| `Ipv6Queue.FitsIff` | main/ipv6_ext.c:283-343 | with one node a fragment the limits are: headers up to 2080 octets, length up to 65535, at most 32 fragments, or 31 without room for the headers |
| `Ipv6Queue.NeverCompletes` | main/ipv6_ext.c:283-341 | a datagram beyond the header or the length limit is never handed over, in whatever order and buffers it comes |
| `Ipv6Queue.LongHeaders` | main/ipv6_ext.c:279-288 | two fragments with 2088 octets of headers are thrown away when both have arrived |
| `Ipv6Queue.LongPayload` | main/ipv6_ext.c:336-341 | two fragments with 48 octets of headers and 65535 of payload are thrown away when both have arrived |
| `Ipv6Wire.LongestHeader` | main/ipv6_ext.c:106-143 | a packet with one extension header of the greatest length has its fragment header found at octet 2088 |
| `Ipv6Wire.ChainFound` | main/ipv6_ext.c:93-143 | by its chain of headers: a fragment header is found, and where it is named, exactly behind at most seven hop-by-hop, routing and destination headers of any lengths |
| `Ipv6Wire.ParsedIs` | main/ipv6_ext.c:150-199 | whatever is accepted as a fragment is octet for octet some headers, a fragment header with legal values and zero reserved bits, and the payload |
| `Ipv6Wire.ParseFragment` | main/ipv6_ext.c:363-386 | a fragment built by push_frag_headers parses back to its offset, flag, payload, headers and key |
| `Ipv6Wire.FragmentIs` | main/ipv6_ext.c:399-461 | every fragment fits the MTU, every one but the last carries a multiple of 8 octets, and is received as the matching piece |
| `Ipv6Wire.EveryRun` | main/ipv6_ext.c:67-263 | after any packets in any order and any expiries every queue in the table keeps the invariant and holds only fragments received with its own key and headers |
| `Ipv6Wire.EveryCompletion` | main/ipv6_ext.c:150-361 | in any run a packet that is handed over consists of received fragments of one key and the same headers, each at its own offset, without a gap, and within the limits |
| `Ipv6Wire.KeyRun` | main/ipv6_ext.c:67-263 | among any other traffic the queue of a packet is the one its own fragments alone would have made |
| `Ipv6Wire.RoundTrip` | main/ipv6_ext.c:150-461 | fragments received in any order, with any repeats, in any buffers, among any other traffic give back the identical packet exactly when the last missing one arrives, if and only if the joined buffers stay within 32 nodes |
| `Ipv6Wire.NodesFitIff` | main/ipv6_ext.c:318-343 | with one node a fragment that is so if and only if the payload is no longer than 32 fragments |
| `Ipv6Wire.TooManyFragments` | main/ipv6_ext.c:318-324 | a packet of more than 32 fragments never comes through |
| `Ipv6Wire.GreatestPacket` | main/ipv6_ext.c:318-324 | a payload of 65535 octets at the least MTU takes 54 fragments and never comes through |
| `Ipv6Reassembly.FindHeader` | main/ipv6_ext.c:106-143 | the loop finds the fragment header behind at most seven extension headers, as the function does |
| `Ipv6Reassembly.Scan` | main/ipv6_ext.c:222-236 | the list loop reports exactly an overlap, or octets beyond a last fragment |
| `Ipv6Reassembly.InsertHeld` | main/ipv6_ext.c:245-248 | insertion sorted by offset |
| `Ipv6Reassembly.Accept` | main/ipv6_ext.c:222-263 | a fragment changes the queue on real buffers as it changes the flat queue |
| `Ipv6Reassembly.Join` | main/ipv6_ext.c:293-330 | the collecting loop on buffers concatenates the payloads, and stops at a hole or past 32 nodes exactly as the flat queue's does, if memory lasts |
| `Ipv6Reassembly.AddHeaders` | main/ipv6_ext.c:336-356 | the first fragment's headers go in front with next header and length put back, if and only if the length fits and there is room or a spare node, if memory lasts |
| `Ipv6Reassembly.Finish` | main/ipv6_ext.c:265-361 | on buffers a queue that has received enough gives the rebuilt packet exactly when the flat queue is handed over, if memory lasts |
| `Ipv6Reassembly.FragmentNodes` | main/skbuff.c:42-94 | a received fragment brings at least one node, and one that came in a single node brings one with the room its headers took |
| `Ipv6Reassembly.Reassembler.Defrag` | main/ipv6_ext.c:150-361 | for every packet the table moves as the flat table does, and the result is exactly what the flat queue says, if memory lasts |
| `Ipv6Reassembly.Reassembler.Expire` | main/ipv6_ext.c:48-84 | giving up a queue moves the table as in the flat run |
| `Ipv6Reassembly.Fragment` | main/ipv6_ext.c:399-461 | a packet that fits is left alone, a small MTU or an empty packet is refused, and otherwise success means exactly the fragments of the packet; if memory lasts it succeeds if and only if the fixed header lies in the first node and every fragment has room for its headers or a node to spare |
| `Cubic.Root` | main/tcp_congestion.c:49-63 | the exact floor of the cube root of every 64-bit value |
| `Cubic.RootUnique` | main/tcp_congestion.c:49-63 | there is only one such number |
| `Cubic.KMs` | main/tcp_congestion.c:94-102 | K is the exact root of distance / C in ms, saturated to 64 bits |
| `Cubic.DeltaFits` | main/tcp_congestion.c:104-111 | no product overflows 64 bits and the 32-bit clamp is never taken |
| `Cubic.TargetAboveStart` | main/tcp_congestion.c:132-142 | within an epoch the target never falls below the window the epoch started with, and the fallback to 1 is unreachable |
| `Cubic.TargetMono` | main/tcp_congestion.c:132-142 | the target does not decrease with elapsed time |
| `Cubic.TargetAtK` | main/tcp_congestion.c:132-142 | at K the target is the origin |
| `Cubic.TargetOnCurve` | main/tcp_congestion.c:104-142 | d ms from K the target lies the floor of C * d^3 packets from the origin, below it before K and above it after |
| `Cubic.KBounds` | main/tcp_congestion.c:94-102 | K is the longest whole number of ms at which the curve has not passed the distance |
| `Cubic.StepsClosed` | main/tcp_congestion.c:157-161 | the closed form is the same as subtracting the threshold in a loop |
| `Congestion.Amortised` | main/tcp_congestion.c:183-185 | with a count of at least 2, twice the growth plus the rest is at most the credit, and the quotient fits 32 bits |
| `Congestion.SlowStartedIs` | main/tcp_congestion.c:80-92 | slow start never shrinks the window, grows it by at most what was acknowledged, and stops at ssthresh |
| `Congestion.CntBounds` | main/tcp_congestion.c:144-169 | the count is at least 2 and no larger than the Reno-friendly estimate asks |
| `Congestion.CurveCntIs` | main/tcp_congestion.c:144-150 | while the curve is above the window the count is the largest at which a window of acknowledgments, one packet for each count, reaches the target, but at least 1 and, with no maximum remembered, at most 20 |
| `Congestion.GrewIs` | main/tcp_congestion.c:172-188 | the two steps taken together: one packet of window for each acknowledged below ssthresh, one for each count after that |
| `Congestion.Congestion.TakeAck` | main/tcp_congestion.c:250-254 | an acknowledgment in OPEN widens the window by exactly that, with octets and credit left over kept |
| `Congestion.Congestion.TakeAcked` | main/tcp_congestion.c:70-78 | no acknowledged octet is lost or counted twice, and the clamp is unused |
| `Congestion.Congestion.Update` | main/tcp_congestion.c:113-170 | an epoch keeps its start, the target is the curve at the elapsed time and never below the epoch's window |
| `Congestion.Congestion.Friendly` | main/tcp_congestion.c:154-161 | the estimate advances as the loop would |
| `Congestion.Congestion.CongAvoid` | main/tcp_congestion.c:172-188 | slow start takes what it may, the rest is credit spent at the count for the curve at this moment, and the window grows by exactly that |
| `Congestion.Congestion.Grow` | main/tcp_congestion.c:183-187 | growth times the count plus the leftover is exactly the credit |
| `Congestion.Congestion.RecalcSsthresh` | main/tcp_congestion.c:190-211 | the threshold is 717/1024 of the window, at least two segments or saturated, and the maximum remembered is the window or, below the last maximum, 1741/2048 of it |
| `Congestion.Congestion.OnAck` | main/tcp_congestion.c:232-256 | in OPEN the acknowledged octets make whole packets and a remainder; each packet below ssthresh widens the window by one, of the others one for each count does, with the rest kept as credit; ssthresh never changes and recovery ends exactly at its recorded number |
| `Congestion.Congestion.OnDuplicateAck` | main/tcp_congestion.c:258-275 | the third duplicate in OPEN enters recovery, lowers ssthresh and starts a new epoch; any other leaves ssthresh and state alone |
| `Congestion.Congestion.OnTimeout` | main/tcp_congestion.c:277-287 | the window falls to one segment, and ssthresh changes only when OPEN is left |
| `Slab.SlotsApart` | lib/frame_cache.c:363-379 | the slots of a frame lie inside it, after its header, and apart |
| `Slab.AtLeastOne` | lib/frame_cache.c:363-367 | every class gets at least one slot out of a frame |
| `Slab.SizeClassLeast` | lib/frame_cache.c:211-220 | the class of a request is the least with room for it, and there is none only if none has |
| `Slab.FrameCache.FindClass` | lib/frame_cache.c:211-220 | the loop finds that class |
| `Slab.OnePlace` | lib/frame_cache.c:265-344 | every slot of a frame in use is live, in exactly one cache once, or given up |
| `Slab.EvictKeeps` | lib/frame_cache.c:288-291 | giving up a slot keeps every page's count equal to its slots not given up, and frees the frame exactly with the last one |
| `Slab.FrameCache.Spill` | lib/frame_cache.c:276-292 | exactly the first 32 slots stay, those after them go to the shared cache in order as far as it accepts them, and no slot a user holds is disturbed |
| `Slab.FrameCache.PushLocal` | lib/frame_cache.c:265-274 | puts the slot in the local cache exactly when it is not full |
| `Slab.FrameCache.Keep` | lib/frame_cache.c:295-309 | after a spill the second push always succeeds, so the assertion holds, and the slot ends up last in the worker's cache |
| `Slab.FrameCache.Pop` | lib/frame_cache.c:311-331 | the last slot of the worker's cache has no references, so the assertion holds, and is handed out to one user; None exactly when that cache is empty |
| `Slab.FrameCache.Refill` | lib/frame_cache.c:333-344 | the oldest slots of the shared cache move in order to the worker's, at most 32 and within its limit |
| `Slab.FrameCache.AllocPage` | lib/frame_cache.c:357-392 | a frame is cut into slots, the first handed out, the others put in the worker's cache in order if it has room, with the page's count right throughout |
| `Slab.FrameCache.Put` | lib/frame_cache.c:414-421 | dropping the last reference takes exactly this slot from its user, and no other from anyone, and puts it in the worker's cache |
| `Slab.FrameCache.Alloc` | lib/frame_cache.c:394-412 | the slot handed out was held by nobody and is of the least class with room; it fails only for a request too long or, unless pool or shared cache fail to give what they have, with every cache and the pool empty |
| `RouteTrie.SelectPicks` | main/route_arp_ndp.c:388-430 | the running minimum picks the first route of least metric below 2^32 - 1 on the wanted interface, or nothing if there is none |
| `RouteTrie.AddedIs` | main/route_arp_ndp.c:329-361 | after an add the list has the route with the new attributes and every other route as before, and a route that was not there in front |
| `RouteTrie.ScanIsLongest` | lib/trie.c:102-123 | scanning prefixes from the longest down gives the route of the longest prefix that has an eligible one |
| `RouteTrie.HungKeeps` | lib/trie.c:9-17 | a new cell hung below a node keeps every link true to the paths, with no cell shared or lost |
| `RouteTrie.CutOffKeeps` | lib/trie.c:19-31 | so does freeing a leaf after clearing its parent's link to it, on the side the code picks |
| `RouteTrie.RefilledKeeps` | main/route_arp_ndp.c:329-386 | so does changing the routes of a node |
| `RouteTrie.Trie.Find` | lib/trie.c:38-68 | following the links leads to the cell of the deepest prefix of the key that holds routes or, exactly, to the cell of the key |
| `RouteTrie.Trie.Add` | lib/trie.c:70-81 | the plain table changes at this prefix only, by the added or refreshed route, and a successful add leaves no dead branch; it fails only for a mask too long or for want of memory, leaving the plain table alone but perhaps the cells made so far |
| `RouteTrie.Trie.AddRoute` | main/route_arp_ndp.c:329-361 | a known route gets the new attributes, a new one goes in front, and only want of memory fails, changing nothing |
| `RouteTrie.Trie.Delete` | lib/trie.c:83-100 | the plain table loses exactly this route, the prefix with its last route, and no dead branch is left |
| `RouteTrie.Trie.ClearEmptyBranch` | lib/trie.c:19-31 | unlinks dead ends from their parents and frees them, those only and all of them, and leaves no dangling link |
| `RouteTrie.Trie.SelectRoute` | main/route_arp_ndp.c:388-430 | the loop of the search callbacks picks as stated above |
| `RouteTrie.Trie.Search` | lib/trie.c:102-123 | climbing the parent links is the scan of the plain table, with fall-back past prefixes without an eligible route; exact search looks at one prefix |

## Left out

- Weak memory: atomic accesses are sequentially consistent steps, and 64-bit positions and counters do not wrap.
- MpmcRing: rings of one slot are not covered; the ring sizes in use are 1024 and larger.
- AsyncCq: the completion queue is used through the interface proved in MpscQueue, one step per push and pop; `async_close`, cancellation and the migration of requests between workers are not modelled.
- NotifyQueue: an eventfd write fails only at the counter's maximum, and reads are not interrupted.
- TcpSender: handshake, options, PSH, round-trip measurement, persist and Nagle timers, and the contents of headers other than sequence number, SYN, FIN and payload; what runs when the window changes.
- TcpSender.Sender.Write: requires a positive segment limit and a send buffer below 2^31 - 3 octets; larger values of SO_SNDBUF would let the span reach 2^31.
- TcpSender.Sender.Acknowledge: assumes a peer window below 2^31.
- TcpReceiver.ReceiveKeeps: segments are pieces of one stream within 2^31 of the window, and the receive buffer size is fixed and below 2^31; the notification of readers is not modelled.
- TcpTimers: what each expired deadline sends is a list of later deadline updates; destroying the connection from its own callback is not modelled.
- TimerWheel.Wheel.DoTimerTasks: assumes a clock that does not go back, no timer stuck at a multiple of 2^32 ms, and only finitely many callbacks that arm a deadline at or before now, as without that the loop need not end; locks, migration between threads and descriptor tasks are not modelled.
- Skbuff: slots, reference counts, cloning and copying of buffers; `skb_data_append` is given a prefix no longer than its segment length.
- Checksum: little-endian machines.
- Ipv6Reassembly: the hash table is a map; a queue may expire at any time, so when exactly it does is not modelled, and neither is IPv4 fragmentation, which has the same shape.
- Ipv6Reassembly.Fragment: does not say what is left of the packet when it fails for want of memory or nodes.
- Congestion: the MSS is fixed and at most 65535; what a change of the window sends is not modelled.
- Slab: the shared cache is a queue that takes and gives any prefix, as proved in MpmcRing; operations of different workers are whole steps; resets at shutdown and frames released by the receive path without their slots are not modelled.
- RouteTrie: cells are entries of a map from addresses, and a freed address may be used again; keys are bit strings; read-write locks, and the neighbour tables that use the same trie, are left out.
- AF_XDP rings, BPF, netlink, interfaces, ARP and NDP, ICMP, UDP, sockets, epoll, configuration and logging: plumbing around foreign calls.
- Bind table, tuple hash, descriptor table, RTO estimator, RSS hash: easier members than those above.

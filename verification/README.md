# Data structures and scheduling cores of catnet

The repository vendors two C libraries whose data structures and schedulers do the real work: the
search-tree macros of `lib/tree.h`, and libevent. This project models those cores in Dafny and
proves what they keep over every input and every run.

| files | what they model |
|---|---|
| `RedBlackShape.dfy`, `RedBlackTree.dfy` | the red-black tree with parent links of `lib/tree.h`: rotations, insertion, deletion, search, iteration |
| `SplayTree.dfy` | the top-down splay tree of `lib/tree.h` |
| `EvbufferShape.dfy`, `Evbuffer.dfy`, `EvbufferSearch.dfy`, `EvbufferRuns.dfy` | the evbuffer of `libevent/buffer.c`: chunks, `last_with_datap`, splices, pullup, searches, line reading, and whole runs on two evbuffers |
| `MinHeap.dfy` | the heap of timeouts of `libevent/minheap-internal.h` |
| `EventShape.dfy`, `EventState.dfy`, `EventLaws.dfy`, `EventBase.dfy`, `EventLoop.dfy` | the event base of `libevent/event.c`: queues, counts, common timeouts, priorities, what each call does to the fields of the events, and the loop |
| `WakeUp.dfy` | the wake-up of a waiting loop by other threads, as interleaved steps |
| `Changelist.dfy`, `EventMap.dfy`, `PollArray.dfy` | interest counters, the coalescing changelist, epoll and poll |
| `TokenBucket.dfy`, `Suspension.dfy`, `SuspensionLaws.dfy`, `RateLimiter.dfy` | token buckets in machine integers, suspension and refill between threads with try-locks, and the bandwidth over whole runs |
| `Inet6.dfy`, `Inet6Language.dfy` | printing and parsing of IPv6 addresses, and exactly which texts are taken for addresses |
| `HashTable.dfy` | the growing hash table of `libevent/ht-internal.h` |

Code that changes things in place is modelled by classes and methods that change fields, arrays
and links; each method is proved against a function of ghost values, and the laws are proved about
those functions, in terms of fields and sequences: a ghost tree and its context for the trees, the list of chunks and the flat
string for the evbuffer, one immutable `State` for the event base. Protocols between threads
(`WakeUp`, `Suspension`) are state machines whose runs are sequences of steps.

`dafny verify dfyconfig.toml` checks the whole project.

## What the code does not do

Some promises turn out not to hold of the code; each has a member with an input for which it fails,
and one with the exact condition under which it holds.

- `epoll_apply_one_change` drops EV_PRI when another event of the descriptor is deleted
  (`Changelist.PriIsLost`; exactly when: `Changelist.AppliedIsTarget`).
- A token bucket above its maximum, after tokens were given back as event2/bufferevent.h allows, is
  not clipped by an update but grows (`TokenBucket.CreditAboveMaximumGrows`; exactly when:
  `TokenBucket.UpdateIsMin`), and with very large limits it overflows: then its stream may move
  nothing, is not suspended, and no timer is set (`Suspension.CreditEmptiesBucket`; exactly when:
  `TokenBucket.UpdateIsPositive`, and over whole runs `Suspension.ExhaustedIsSuspended`). That a
  suspended side is never forgotten holds in every run (`Suspension.NeverStranded`).
- A group with a smallest share of 0 opens again with an empty bucket and can then be overdrawn
  without being suspended (`Suspension.OverdrawnButOpen`; exactly when, for one call:
  `Suspension.AdjustedIsClosed`, and over whole runs `Suspension.ExhaustedIsSuspended`).
- Such a group can also let a stream try to move 0 bytes, which reading takes for the end of the
  data (`Suspension.NothingButNotSuspended`; exactly when: `Suspension.NothingMeansSuspended`).
- The limit of 16384 bytes for one operation is replaced, not applied, when a stream has its own
  configuration, although the comment beside the constant says otherwise
  (`Suspension.MoveAboveTheCap`; exactly when: `Suspension.MoveIsCapped`).
- `evutil_inet_ntop` loses the last character of a text that just fills the buffer
  (`Inet6.TextIsCut`; exactly when: `Inet6.RoundTripThroughBuffer`).
- `evutil_inet_pton` takes texts that are no addresses: with a single colon behind the last word, like
  "1::2:" (`Inet6Language.ColonAtTheEnd`), and with 0x in front of a word
  (`Inet6Language.HexPrefixIsTaken`); exactly which texts it takes, and for which address:
  `Inet6Language.ParseIff`.
- `SPLAY_REMOVE` returns its argument and not the element that it removed
  (`SplayTree.Tops.RemoveAnother`; exactly when the two are the same: `SplayTree.Tops.Remove`).

## Assumptions

Allocation succeeds, except where the hash table chooses between its two ways to grow; backend
calls succeed, except for one change of epoll (`Changelist.ApplyOne`) and the dispatch of the loop;
descriptors of events in the base are not negative. Signed 64-bit limits do not overflow when
tokens are taken or given back, which C leaves undefined. Clocks, ticks, the outcome of
try-locks, random starting points, and what callbacks and other threads do are parameters, so the
results hold for all of them. The contents of memory that is not initialised are arbitrary.

`MinHeap` is about the header alone: there `min_heap_idx` is -1 exactly outside the heap. In the
event base the field shares a union with the links of the common-timeout lists
(`libevent/include/event2/event_struct.h:89-94`), so an event that comes from such a list need not
hold -1; the base tells the two structures apart by the timeout itself.

## Model

The members without a row are the steps that these are made of.

| member | source | states |
|---|---|---|
| `RedBlackTree.Head.constructor` | lib/tree.h:305-307 | RB_INIT: a valid tree without elements |
| `RedBlackTree.Head.RotateLeft` | lib/tree.h:341-359 | the rotated tree is linked, parent links included, as the rotation of the ghost tree says, wherever in the tree it happens; contents and all other links are kept |
| `RedBlackTree.Head.RotateRight` | lib/tree.h:361-379 | the mirror image |
| `RedBlackTree.Head.InsertStepLeft` | lib/tree.h:413-428 | one turn of the insertion repair below a left child: the focus moves to where the new violation may be |
| `RedBlackTree.Head.InsertStepRight` | lib/tree.h:429-444 | the mirror image |
| `RedBlackTree.Head.InsertColor` | lib/tree.h:406-448 | the repair ends, with a red-black tree (no red child of a red node, equal black heights, black root) with the same in-order sequence |
| `RedBlackTree.Head.Insert` | lib/tree.h:597-625 | an element with an equal key is returned and nothing changes; otherwise null is returned, the tree is a valid red-black search tree again, and its in-order sequence is the old one with exactly the new element at its place |
| `RedBlackTree.Head.RemoveTurn` | lib/tree.h:456-522 | one turn of the loop of RB_REMOVE_COLOR, on the links and colours |
| `RedBlackTree.Head.RemoveColor` | lib/tree.h:450-526 | the loop ends, and the black heights are equal again; the in-order sequence is unchanged |
| `RedBlackTree.Head.Cut` | lib/tree.h:544-555 | a node with at most one child is replaced by that child, in its parent or at the root |
| `RedBlackTree.Head.Swap` | lib/tree.h:558-569 | the unlinked successor takes the links and colour of the removed node |
| `RedBlackTree.Head.Exchange` | lib/tree.h:543-569 | the successor, possibly the direct right child, is cut out and takes the place of the removed node |
| `RedBlackTree.Head.RemoveOuter` | lib/tree.h:578-592 | the cases without two children: exactly the node leaves |
| `RedBlackTree.Head.RemoveInner` | lib/tree.h:538-577 | the two-child case: exactly the node leaves |
| `RedBlackTree.Head.Remove` | lib/tree.h:528-594 | removing any node from a valid red-black tree ends, leaves a valid one, and its in-order sequence is the old one without exactly that node |
| `RedBlackTree.Head.Find` | lib/tree.h:627-644 | the element with the key, or null exactly when there is none |
| `RedBlackTree.Head.NFind` | lib/tree.h:646-666 | the first element whose key is not below the key, or null exactly when there is none |
| `RedBlackTree.Head.MinMax` | lib/tree.h:713-726 | the first or the last element of the in-order sequence |
| `RedBlackTree.Head.Next` | lib/tree.h:668-688 | the element that follows in the in-order sequence, through child and parent links |
| `RedBlackTree.Head.Prev` | lib/tree.h:690-711 | the element that comes before |
| `RedBlackTree.Head.Foreach` | lib/tree.h:740-743 | RB_MIN and then RB_NEXT again and again visit exactly the in-order sequence |
| `RedBlackShape.InsertStepKeeps` | lib/tree.h:413-444 | one turn of the insertion repair keeps every black height and confines the violation to the new focus |
| `RedBlackShape.RemoveStepKeeps` | lib/tree.h:456-522 | one turn of the deletion repair pays the missing black node or moves the debt one level up, in each of the cases for the sibling |
| `RedBlackShape.HeightBound` | lib/tree.h:59-60 | the height is at most 2 lg (n + 1), for every red-black tree |
| `RedBlackShape.SuccessorContents` | lib/tree.h:538-577 | taking out the successor and putting it in the place of the node removes exactly the node from the in-order sequence |
| `RedBlackShape.UnplugBalanced` | lib/tree.h:450-526 | any subtree of a red-black tree is balanced, and what is around it expects exactly its black height and colour |
| `SplayTree.Tops.TurnLeft` | lib/tree.h:218-227 | one turn of the top-down splay for a smaller key, zig-zig and zig: the three partial trees keep the in-order sequence |
| `SplayTree.Tops.TurnRight` | lib/tree.h:228-237 | the mirror image |
| `SplayTree.Tops.Assemble` | lib/tree.h:111-116 | the three partial trees become one with the same in-order sequence |
| `SplayTree.Tops.Splay` | lib/tree.h:208-241 | splaying ends, keeps the in-order sequence, and brings the key to the root if it is there, and otherwise an in-order neighbour of its place |
| `SplayTree.Stopped` | lib/tree.h:208-240 | when the loop stops, nothing on the left reaches the key and nothing on the right falls below it |
| `SplayTree.Tops.Find` | lib/tree.h:126-136 | the element with the key, or null exactly when there is none; the in-order sequence is kept |
| `SplayTree.Tops.Insert` | lib/tree.h:163-185 | an equal element is returned and none is added; otherwise exactly the new element joins in order |
| `SplayTree.Tops.RemoveRoot` | lib/tree.h:195-202 | the left subtree, splayed again, has no right child, so the join loses nothing |
| `SplayTree.NoneAbove` | lib/tree.h:195-202 | splaying for a key above all others leaves the root without a right child |
| `SplayTree.Tops.Remove` | lib/tree.h:187-206 | exactly the element with an equal key leaves, which the contract names; null exactly when there is none, and otherwise the argument: that is the element that left exactly when the argument was in the tree |
| `SplayTree.Tops.RemoveAnother` | lib/tree.h:187-206 | with one element in the tree, removing another one with the same key returns the other one |
| `SplayTree.Tops.Next` | lib/tree.h:138-150 | the next element in order, or null |
| `SplayTree.Tops.MinMax` | lib/tree.h:152-157 | the minimum or the maximum comes to the root; the in-order sequence is kept |
| `EvbufferShape.Chain.Align` | libevent/buffer.c:1693-1701 | realigning a chunk keeps its bytes |
| `EvbufferShape.Chain.Prepend` | libevent/buffer.c:1650-1653 | bytes are put before those of a chunk |
| `Evbuffer.Buffer.constructor` | libevent/buffer.c:338-352 | an empty evbuffer; `last_with_datap` is the link in the evbuffer itself |
| `Evbuffer.Buffer.FindVictim` | libevent/buffer.c:267-270 | the link to the first chunk without data at the end of the list |
| `Evbuffer.Buffer.ChainInsert` | libevent/buffer.c:279-311 | a chunk joins the list, in the place of an empty one or behind the last, and `last_with_datap` leads to the last chunk with data |
| `Evbuffer.Buffer.Add` | libevent/buffer.c:1531-1617 | -1 and no change when the end is frozen; otherwise the bytes are appended: in the last chunk, after realigning it, or spilling into a new one |
| `Evbuffer.Buffer.Prepend` | libevent/buffer.c:1619-1691 | -1 and no change when the start is frozen; otherwise the bytes are put first: before those of the first chunk, or spilling into a new one |
| `Evbuffer.Buffer.SkipChunks` | libevent/buffer.c:981-998 | the chunks that a drain frees, and what is left of the next one |
| `Evbuffer.Buffer.Drain` | libevent/buffer.c:950-1016 | the first bytes go, at most all; frozen and empty evbuffers as the source treats them |
| `Evbuffer.Buffer.CopyOut` | libevent/buffer.c:1034-1078 | the number of bytes copied is the lesser of what is asked and what is there; they are the first ones, and the evbuffer keeps them |
| `Evbuffer.Buffer.Remove` | libevent/buffer.c:1019-1032 | as copyout, and the bytes leave the evbuffer |
| `Evbuffer.Buffer.AddBuffer` | libevent/buffer.c:860-902 | all bytes of the one evbuffer move behind those of the other: no byte is lost or made up |
| `Evbuffer.Buffer.PrependBuffer` | libevent/buffer.c:904-948 | the same, in front |
| `Evbuffer.Buffer.SplitChunks` | libevent/buffer.c:1113-1126 | the whole chunks that can move, and how many bytes of the next one are wanted |
| `Evbuffer.Buffer.RemoveBuffer` | libevent/buffer.c:1080-1171 | the first bytes move behind those of the other evbuffer, whole chunks as they are and the rest copied |
| `Evbuffer.Buffer.AdvanceLastWithData` | libevent/buffer.c:646-659 | `last_with_datap` moves on to the link to the last chunk with data |
| `Evbuffer.Buffer.JoinChunks` | libevent/buffer.c:1130-1140 | the moved chunks are linked in behind those with data, in the place of an empty one |
| `Evbuffer.Buffer.PullChunks` | libevent/buffer.c:1243-1257 | the copying loop of pullup: which chunks are used up, and whether the last one or the one that leads to it is among them |
| `Evbuffer.Buffer.PullUp` | libevent/buffer.c:1173-1283 | the bytes stay the same, and the wanted number of them (all, for a negative one) are in the first chunk; null when there are not so many |
| `Evbuffer.Buffer.FreeTrailingEmptyChains` | libevent/buffer.c:258-277 | the empty chunk, if any, is gone, and the link to the next chunk is the one in the last chunk |
| `EvbufferRuns.RunCalls` | libevent/evbuffer-internal.h:84-97 | every run of add, prepend, drain, copyout, remove, pullup, add_buffer, prepend_buffer, remove_buffer, freeze and unfreeze on two evbuffers is the run of the flat operations on two byte strings: the contents, every return value, and the bytes that copyout and remove give to their callers; both stay valid: `total_len` is the length and `last_with_datap` leads to the last chunk with data |
| `EvbufferRuns.StepConserves` | libevent/buffer.c:860-1171 | no call but evbuffer_drain loses a byte, and none makes one up, over both evbuffers and what was handed out |
| `EvbufferRuns.PipelineKeepsOrder` | libevent/buffer.c:1080-1171 | in any run of a pipeline of two evbuffers, what was handed out, followed by what is on the way, is what was accepted, in order |
| `EvbufferSearch.PtrSet` | libevent/buffer.c:2410-2450 | an index maps to its chunk and offset exactly when it is below the length (the end itself to no chunk), else -1 |
| `EvbufferSearch.PtrAdd` | libevent/buffer.c:2410-2450 | the same for a step from a pointer |
| `EvbufferSearch.FindEolChar` | libevent/buffer.c:1320-1346 | the search in pieces of 128 bytes finds the first CR or LF |
| `EvbufferSearch.MemCmpParts` | libevent/buffer.c:2470-2482 | comparing in pieces is comparing at once: the first piece that differs decides |
| `EvbufferSearch.PtrMemcmp` | libevent/buffer.c:2452-2488 | the comparison with the bytes from the pointer on, across chunks, is memcmp on the flat string; -1 when there are not enough bytes |
| `EvbufferSearch.MemCmpDecides` | libevent/buffer.c:2470-2482 | the first bytes that differ decide a comparison |
| `EvbufferSearch.SearchRange` | libevent/buffer.c:2496-2559 | the least match at or after the start that ends before the end, or -1 exactly when there is none |
| `EvbufferSearch.Scan` | libevent/buffer.c:1295-1318 | the first of the given bytes at or after the pointer, across chunks, or none |
| `EvbufferSearch.StrSpn` | libevent/buffer.c:1373-1411 | the number of bytes from the pointer on that are among the given ones, and where the pointer is left: at the first other byte, or, when there is none, at the start of the last chunk |
| `EvbufferSearch.SearchCrlf` | libevent/buffer.c:1448-1464 | the first LF, with the CR before it, also when a chunk ends between the two |
| `EvbufferSearch.SearchEol` | libevent/buffer.c:1423-1488 | the first line end of each style, and its length |
| `EvbufferSearch.ReadLn` | libevent/buffer.c:1490-1527 | the contents were the line, its line end and what is left; there is no line end within the line; null exactly when there is none or the start is frozen |
| `EvbufferSearch.GetChr` | libevent/buffer.c:1414-1421 | the byte of the flat string at the pointer |
| `EvbufferSearch.ComparePiece` | libevent/buffer.c:2470-2482 | the piece of the chunk is compared with the same piece of the string |
| `MinHeap.EraseHole` | libevent/minheap-internal.h:90-107 | without its last key the heap has one hole; the last key fits there from above or from below, and one look at the parent tells which, also when the erased element is the last |
| `MinHeap.MinHeap.ShiftUp` | libevent/minheap-internal.h:127-138 | the heap order and every back index are restored from below |
| `MinHeap.MinHeap.ShiftDown` | libevent/minheap-internal.h:140-154 | the heap order and every back index are restored from above |
| `MinHeap.MinHeap.Push` | libevent/minheap-internal.h:65-71 | exactly the event joins, with its back index; heap order kept |
| `MinHeap.MinHeap.Pop` | libevent/minheap-internal.h:73-83 | a least event leaves, and gets the index -1 |
| `MinHeap.MinHeap.Erase` | libevent/minheap-internal.h:90-107 | exactly the event leaves, wherever it is, and gets the index -1; -1 is returned when it was in no heap; every event inside has its position as its index |
| `MinHeap.MinHeap.Top` | libevent/minheap-internal.h:63 | a least event, or null |
| `MinHeap.TopIsLeast` | libevent/minheap-internal.h:63 | the first element of a heap is a least one |
| `MinHeap.ShiftedOrder` | libevent/event.c:2447-2456 | the same amount off every key keeps the heap order |
| `MinHeap.MinHeap.CorrectAll` | libevent/event.c:2447-2456 | the correction of all timeouts in place keeps the heap |
| `EventBase.Base.constructor` | libevent/event.c:550-661 | a base without events; all counts are right |
| `EventBase.Base.Assign` | libevent/event.c:1717-1781 | a new event is in no queue and counts nowhere; every other event keeps its flags, times and place |
| `EventBase.Base.InitCommonTimeout` | libevent/event.c:1182-1259 | the queue of the duration, a new one with a driver unless there is one; no common timeout is lost |
| `EventBase.Base.FindPlace` | libevent/event.c:2543-2571 | the search from the end of the list finds that place |
| `EventBase.Base.QueueInserted` | libevent/event.c:2573-2597 | queue, flag and event_count move together; internal events are not counted |
| `EventBase.Base.QueueActive` | libevent/event.c:2573-2602 | queue of its priority, flag and both counts move together; event_continue is set for an event more urgent than what runs |
| `EventBase.Base.QueueTimeout` | libevent/event.c:2142-2156 | the timer goes into the heap, or in order into its common-timeout list, never both |
| `EventBase.Base.DequeueTimeout` | libevent/event.c:2503-2539 | the timer leaves the one structure it is in |
| `EventBase.Base.CommonTimeoutSchedule` | libevent/event.c:1141-1152 | the driver is set to the time of the first event of the list |
| `EventBase.Base.EventAdd` | libevent/event.c:2024-2171 | event_add_internal: with a time the event has exactly that timer, counted from now when the time is relative; a persistent timer remembers its interval unless the time is absolute; it is inserted if it waits for input and is not active; an earlier timer no longer keeps it active; no other event of the user changes a flag, time or interval, and active events keep their order |
| `EventBase.Base.EventDel` | libevent/event.c:2191-2259 | event_del: the event is in no queue any more, every other event is as before, and the active ones keep their order |
| `EventBase.Base.EventActive` | libevent/event.c:2283-2328 | the event becomes active behind all others of its priority, with EV_TIMEOUT in its result exactly as asked; if it is active already its result grows; every other event is as before |
| `EventBase.Base.ExpireList` | libevent/event.c:1166-1174 | the due events of a common-timeout list are deleted and made active, one by one |
| `EventBase.Base.CommonTimeoutCallback` | libevent/event.c:1157-1178 | exactly the due events of the list become active for their timeout and lose their timers, and the driver is set to the time of the first of the others; no other event of the user changes |
| `EventBase.Base.TimeoutProcess` | libevent/event.c:2477-2500 | exactly the timers of the heap that are due have timed out: they are active with EV_TIMEOUT and in no timer structure; nothing else changed and nothing due is left |
| `EventBase.Base.TimeoutNext` | libevent/event.c:2380-2415 | the wait is none exactly when there is no timer; otherwise it ends no later than any timer of the heap or of a common timeout, and not before the earliest |
| `EventBase.Base.CorrectTimers` | libevent/event.c:2451-2470 | every timer, in the heap or in a list, is moved exactly once |
| `EventBase.Base.TimeoutCorrect` | libevent/event.c:2424-2475 | nothing moves unless the clock went back; then every timer moves by the difference, and nothing but times changes |
| `EventShape.Place` | libevent/event.c:2543-2571 | the place behind the last event that is not later, so that a common-timeout list stays sorted |
| `EventState.ScheduledKeeps` | libevent/event.c:1143-1152 | setting the driver makes up for the one list that had lost its driver |
| `EventState.AddedKeeps` | libevent/event.c:2027-2171 | event_add keeps every flag equal to membership, both counts, the sorted lists, and the driver of every list in time |
| `EventState.AddEventEffect` | libevent/event.c:2079-2163 | an event that waits for input is inserted unless it is active; with a time it has exactly that timer, and an earlier activation by a timer is taken back; no other event of the user changes |
| `EventState.DelEvent` | libevent/event.c:2191-2259 | exactly this event leaves the inserted events, the active events and the timers |
| `EventState.DelEventKeeps` | libevent/event.c:2191-2259 | deleting an event loses no common timeout |
| `EventState.ActivateKeeps` | libevent/event.c:2283-2328 | activating an event, a driver too, loses no common timeout |
| `EventState.ExpiredEffect` | libevent/event.c:1166-1174 | the callback of a common timeout makes exactly its due events active |
| `EventState.CommonCallbackKeeps` | libevent/event.c:1157-1178 | when the callback of a driver ends, its list is empty or its driver is in the heap in time: no common timer is lost |
| `EventState.CorrectedKeeps` | libevent/event.c:2424-2475 | moving every timer by the same amount keeps lists sorted and drivers in time |
| `EventState.NothingLeftIsRight` | libevent/event.c:1596-1600 | the exit test of the loop holds exactly when no event that is not internal is in any queue, none is active, and there is no virtual event or deferred callback |
| `EventState.EarliestInHeap` | libevent/event.c:2380-2400 | while no callback runs or waits to run, no timer, in the heap or in a common timeout, is earlier than every timer of the heap |
| `EventLaws.AddedDoes` | libevent/event.c:2027-2171 | the same as a law of the specification function: the timer, the interval, the insertion and the activation of the event, and that all other events of the user are as before |
| `EventLaws.AddedInOrder` | libevent/event.c:2027-2171 | event_add lets the events that stay active wait in the same order |
| `EventLaws.DeletedDoes` | libevent/event.c:2191-2259 | the law for event_del |
| `EventLaws.ActivatedDoes` | libevent/event.c:2283-2328 | the law for event_active, with EV_TIMEOUT |
| `EventLaws.ActivatedInOrder` | libevent/event.c:2573-2602 | events of one priority wait in the order in which they became active |
| `EventLaws.CommonCallbackDoes` | libevent/event.c:1157-1178 | what the callback of a common timeout does to every event of the user, to its list and to its driver |
| `EventLaws.CorrectedDoes` | libevent/event.c:2424-2475 | every timer moves by the difference, and nothing else changes |
| `EventLoop.CalledKeeps` | libevent/event.c:2027-2328 | every call of a callback or another thread keeps the base right |
| `EventLoop.CalledDoes` | libevent/event.c:2027-2328 | every call does what it is for, and leaves the other events of the user and the order of the active ones alone |
| `EventLoop.CallsInTurn` | libevent/event.c:1344-1358 | calls take effect one after the other, in their order |
| `EventLoop.ChosenKeeps` | libevent/event.c:1326-1342 | an event that is taken out for its callback keeps the base right: a driver counts as running, so its list is not lost |
| `EventLoop.ChosenDoes` | libevent/event.c:1326-1332 | an event that is chosen is not active any more, leaves its other queues unless it persists, and the others keep their places and order |
| `EventLoop.PersistClosure` | libevent/event.c:1254-1300 | a persistent event with a timeout is added again: an interval after the time it was scheduled for if that is not past, else an interval from now, and from now if it did not time out |
| `EventLoop.QuietIsRenewed` | libevent/event.c:1254-1300 | a persistent timer whose callback calls nothing is set again when it returns, for an interval after the time it was scheduled for or after now |
| `EventLoop.UserRan` | libevent/event.c:1344-1358 | while another callback of the user runs, the base sees exactly the calls that are made |
| `EventLoop.DriverRan` | libevent/event.c:1157-1178 | the callback of a common timeout does its work between the calls |
| `EventLoop.ProcessOne` | libevent/event.c:1326-1358 | the first event of the queue is chosen while every more urgent queue is empty, leaves the queue, and its callback runs; the new state is exactly what that leaves |
| `EventLoop.ProcessQueue` | libevent/event.c:1317-1370 | the callbacks follow one another, each on the state that the one before has left, with no more urgent event active, and none after one that breaks the loop or makes a more urgent event active; the loop ends only when the queue is empty, event_break or event_continue is set, or the callbacks are used up; event_break and event_gotterm are set exactly by the callbacks that set them |
| `EventLoop.ProcessLevels` | libevent/event.c:1411-1430 | the first callback is that of the first event of the most urgent queue that is not empty, the callbacks follow one another across the queues, and the next queue is only looked at when all events so far were internal |
| `EventLoop.ProcessActive` | libevent/event.c:1403-1435 | the same, and then exactly the deferred callbacks unless event_break is set |
| `EventLoop.ChainAt` | libevent/event.c:1326-1430 | any callback of a run of the queues is the right one, runs on the state that the one before has left, and that one has neither broken the loop nor made a more urgent event active |
| `EventLoop.Prepare` | libevent/event.c:1576-1602 | when the clock has gone back every timer moves; the backend is told to wait no longer than any timer of the base allows, not at all when something is active or the loop may not block, and without end exactly when there is no timer; the loop asks to end exactly when nothing could ever run |
| `EventLoop.Dispatch` | libevent/event.c:1604-1622 | the state is that after the calls of the backend and other threads, with exactly the due timers of the heap timed out |
| `EventLoop.LoopTurn` | libevent/event.c:1570-1632 | one turn, from state to state: the correction of the timers, the wait, the dispatch, the timeouts, the callbacks and the deferred ones, and why the loop ends; a turn that goes on or has had enough runs first the first event of the most urgent queue that is not empty after the dispatch, so that a turn that begins with an active event, and in whose dispatch nobody calls, runs a callback |
| `EventLoop.TurnAdds` | libevent/event.c:1576-1632 | every turn of a run is right, and its callbacks are part of those of the run |
| `EventLoop.UrgedRuns` | libevent/event.c:1624-1630 | what is active when a turn begins is still active after a dispatch in which nobody calls, so a callback is chosen |
| `EventLoop.Loop` | libevent/event.c:1536-1646 | over any number of turns, with any calls of callbacks and other threads: every turn begins where the last one ended and does what a turn does, and every turn that begins with an active event, and in whose dispatch nobody calls, adds a callback; priorities are respected; no common timeout is lost; 1 is returned exactly when the last turn found nothing left that could ever run, -1 when the backend failed, and 0 after event_base_loopexit or event_base_loopbreak, or when the flags ask for no more and nothing is active, with EVLOOP_ONCE alone only after a callback that is not internal |
| `EventLoop.RunCallback` | libevent/event.c:1344-1358 | a persistent timer is added again, the calls before the lock are made, a driver does its work, and the calls after it are made, each on the state that the one before has left; the base stays right |
| `WakeUp.NextInv` | libevent/event.c:1977-2020 | every step of the loop thread and of any other thread keeps the invariant: the notify flag implies that the descriptor is readable, or the drain callback has read it and not yet cleared the flag |
| `WakeUp.NoLostWakeUp` | libevent/event.c:2713-2747 | in every run, when the loop waits although something is active or changed, the descriptor is readable, or the thread that holds the lock is about to make it so |
| `WakeUp.PendingWakes` | libevent/epoll.c:426-433 | in every run, when the notify flag is set and the lock free, the wait can end |
| `WakeUp.LockIsExclusive` | libevent/event.c:1570-1628 | the loop and the other threads never hold the lock together |
| `Changelist.AddedTarget` | libevent/evmap.c:659-695 | folding an addition into a change has the effect of the change and then the addition |
| `Changelist.DeletedTarget` | libevent/evmap.c:697-755 | the same for a deletion, also for one that takes back an addition |
| `Changelist.ApplyOne` | libevent/epoll.c:173-350 | one change brings the kernel to what the specification function says, through the retries after ENOENT and EEXIST; for a descriptor that was closed or that epoll cannot watch nothing is registered, and -1 is returned exactly when something was to be (EBADF and EPERM after a deletion are no error) |
| `Changelist.AppliedIsTarget` | libevent/epoll.c:250-276 | the kernel mask becomes what the change asks for if and only if the change leaves nothing behind that it does not name |
| `Changelist.PriIsLost` | libevent/epoll.c:250-276 | deleting EV_READ next to a kept EV_PRI loses the latter |
| `Changelist.WithoutPri` | libevent/epoll.c:250-276 | for EV_READ and EV_WRITE the condition always holds |
| `EventMap.UnionHas` | libevent/evmap.c:260-337 | the union wants what some event wants |
| `EventMap.CountsAreUnion` | libevent/evmap.c:291-314 | the counters are positive exactly for what some event wants |
| `EventMap.IoMap.GetOrConstruct` | libevent/evmap.c:627-657 | the one entry of the descriptor, made when there is none; slots and entries know each other's places |
| `EventMap.IoMap.ChangelistAdd` | libevent/evmap.c:659-695 | the addition is folded into the entry |
| `EventMap.IoMap.ChangelistDel` | libevent/evmap.c:697-755 | the deletion is folded into the entry |
| `EventMap.IoMap.IoAdd` | libevent/evmap.c:260-337 | the event joins; 1 exactly when what is wanted changed, -1 exactly when there are too many; what is kept back still leads from what the kernel knows to what is wanted |
| `EventMap.IoMap.IoDel` | libevent/evmap.c:339-405 | exactly one registration of the event leaves, the others stay in order; 1 exactly when what is wanted changed; what is kept back still leads from what the kernel knows to what is wanted |
| `EventMap.WithoutIsOneLess` | libevent/evmap.c:397-401 | the events that are left are the old ones without one place of the event: a sequence, and a multiset, less one |
| `EventMap.IoMap.ApplyChanges` | libevent/epoll.c:352-368 | every change is applied, once |
| `EventMap.IoMap.RemoveAll` | libevent/evmap.c:578-597 | the list is empty and no slot has a place in it |
| `EventMap.OneEntry` | libevent/evmap.c:627-657 | there is one change for a descriptor at most |
| `EventMap.DispatchedMatches` | libevent/epoll.c:352-368 | after a dispatch the kernel watches for exactly what is wanted if and only if the change leaves nothing behind |
| `EventMap.IoMap.Dispatch` | libevent/epoll.c:425-426 | for every descriptor: the kernel mask is the union of what its events want if and only if its change leaves nothing behind |
| `EventMap.RunThenDispatch` | libevent/epoll.c:411-426 | after any run of additions, deletions and dispatches for EV_READ and EV_WRITE, and one more dispatch: an event is registered exactly when it was added more often than it was deleted, a deletion is done exactly when there is a registration left, and every kernel mask is the union of what the registered events of its descriptor want |
| `EventMap.IoMap.CountUp` | libevent/evmap.c:291-314 | the counters grow by what the event wants; what is wanted is the old union and the result |
| `EventMap.IoMap.CountDown` | libevent/evmap.c:365-385 | the counters shrink; what is wanted is the old union without the result |
| `EventMap.NotedKeeps` | libevent/evmap.c:319-334 | once the change is noted and the slot counts its events, what is kept back leads to what they want |
| `PollArray.PollOp.Grow` | libevent/poll.c:220-240 | the array grows before it is full, and keeps its slots |
| `PollArray.PollOp.Add` | libevent/poll.c:210-261 | the descriptor is watched for the union, every other as before; slots and places stay inverse to each other |
| `PollArray.PollOp.Del` | libevent/poll.c:271-318 | the descriptor is watched for the rest, and loses its slot, which the last one takes, when there is none; -1 exactly when it had no slot |
| `PollArray.NoDuplicates` | libevent/poll.c:210-261 | no descriptor has two slots |
| `PollArray.Run` | libevent/poll.c:210-318 | under any mix of calls every descriptor is watched for exactly what was asked for it |
| `PollArray.PollMap.IoAdd` | libevent/evmap.c:260-337 | the event map over poll: counters, events and array agree |
| `PollArray.PollMap.IoDel` | libevent/evmap.c:339-405 | exactly one registration of the event leaves, the others stay in order; the backend never finds its slot missing |
| `PollArray.PollMap.WatchesTheUnion` | libevent/evmap.c:497-506 | each slot is for exactly the union of what the events of its descriptor want: for input exactly when some event reads, for output exactly when some event writes |
| `TokenBucket.CfgNewIsOk` | libevent/bufferevent_ratelim.c:141-172 | a configuration is made exactly from rates and bursts that fit together, and holds them, and the length of a tick in milliseconds |
| `TokenBucket.TickIsWhole` | libevent/bufferevent_ratelim.c:126-139 | the tick of a time is the number of whole ticks in it |
| `TokenBucket.ElapsedIsTrue` | libevent/bufferevent_ratelim.c:79-82 | 32-bit tick differences are the true ones, wherever the counter wraps around, as long as they have 32 bits |
| `TokenBucket.UpdateIsMin` | libevent/bufferevent_ratelim.c:87-104 | the update in machine integers is min(maximum, limit + ticks * rate), for negative limits too and without overflow, if and only if the limit was not above the maximum (or so many tokens come in that the unsigned difference hides it) |
| `TokenBucket.UpdateAboveMaximum` | libevent/bufferevent_ratelim.c:87-104 | above its maximum a limit takes all tokens in 64-bit arithmetic, or jumps to the maximum when very many come in |
| `TokenBucket.CreditAboveMaximumGrows` | libevent/bufferevent_ratelim.c:95-98 | a limit above the maximum is not clipped by the update but grows |
| `TokenBucket.UpdateIsPositive` | libevent/bufferevent_ratelim.c:87-104 | an update leaves a bucket with tokens if and only if the limit was not above the maximum, or the sum does not overflow, or it overflows so far that the unsigned difference hides it |
| `TokenBucket.OverfullIsEmptied` | libevent/bufferevent_ratelim.c:95-98 | a full bucket of 2^62 tokens that gets one more back has a negative limit after the next tick |
| `TokenBucket.RefilledFits` | libevent/bufferevent_ratelim.c:73-109 | an update of a bucket that is not above its maximum leaves it so, and takes nothing away |
| `TokenBucket.Bucket.Init` | libevent/bufferevent_ratelim.c:48-70 | a new bucket has one tick's worth in each direction; a reconfigured one keeps what fits its new maxima |
| `TokenBucket.Bucket.Update` | libevent/bufferevent_ratelim.c:72-109 | nothing for no ticks or more than INT_MAX; otherwise both limits are the minimum above, unless they were above their maximum |
| `TokenBucket.GainIsBounded` | libevent/bufferevent_ratelim.c:73-109 | from one look at the clock to the next a bucket gains at most the ticks' worth, over any gap, also one that the update refuses and one in which the counter wraps around |
| `TokenBucket.BandwidthIsBounded` | libevent/bufferevent_ratelim.c:199-345 | reading or writing, in any part of any run, a stream that never takes more than it may takes at most the maximum and the rate for every tick that passes |
| `TokenBucket.BandwidthSinceSet` | libevent/bufferevent_ratelim.c:558-606 | from the moment the limit is set, a stream takes at most one tick's worth and the rate for every tick that has passed |
| `TokenBucket.DebtIsPaid` | libevent/bufferevent_ratelim.c:413-425 | a bucket has any amount up to its maximum exactly when the counted ticks have paid for it |
| `Suspension.CallbackLetsGo` | libevent/bufferevent_ratelim.c:418-438 | the refill callback lets a side go exactly when it was suspended and its bucket has tokens, and otherwise sets the timer again; so exactly the exhausted buckets are left suspended, if and only if the refill does not overflow |
| `Suspension.SweptKeeps` | libevent/bufferevent_ratelim.c:351-391 | closing or opening a group keeps the invariant whichever locks could be taken: a member that was missed finds out itself, or the group comes back to it |
| `Suspension.StepKeeps` | libevent/bufferevent_ratelim.c:199-806 | every step of every thread keeps: the bandwidth flag implies a timer or its running callback; a member suspended for its group implies a suspended or pending group, or a thread that is about to clear the flag |
| `Suspension.NeverStranded` | libevent/bufferevent_ratelim.c:558-806 | in every run, a side that the user wants moves data, or is suspended for another reason, or a timer, a callback, a suspended or pending group, or a thread will come back to it |
| `Suspension.StepHolds` | libevent/bufferevent_ratelim.c:274-556 | after any step an exhausted bucket suspends its side, or closes its group, as it did before, if and only if the step is no refill that overflows the bucket and no callback that opens a group with nothing in it |
| `Suspension.ExhaustedIsSuspended` | libevent/bufferevent_ratelim.c:274-556 | at every moment of a run an exhausted bucket suspends its side, and that of a group closes the group, if and only if no refill in the run overflows the bucket and no callback opens the group with nothing in it; then the side does nothing, and its timer is set or its callback running |
| `Suspension.ModestIsSuspended` | libevent/bufferevent_ratelim.c:274-556 | in every run that gives back no more than the bucket has room for, with a smallest share of 1 at least for a group, an exhausted bucket always suspends its side or closes its group |
| `Suspension.CreditEmptiesBucket` | libevent/bufferevent_ratelim.c:900-926 | a run: a full bucket of 2^62 gets a token back, the next tick empties it, and the stream is neither suspended nor has a timer |
| `Suspension.CallbackOpensForAll` | libevent/bufferevent_ratelim.c:527-556 | when the callback of the group may open it and reaches everyone, no member is left suspended for it |
| `Suspension.WaitingOpens` | libevent/bufferevent_ratelim.c:527-556 | in any run in which nobody takes from its bucket, a closed group is opened by its callbacks exactly when they have counted as many ticks as bring the bucket to the smallest share |
| `Suspension.NothingMeansSuspended` | libevent/bufferevent_ratelim.c:199-260 | a stream that may move nothing is suspended, as long as exhausted buckets suspend, except exactly in an open group whose smallest share is nothing and whose bucket has less than a byte for each member |
| `Suspension.NothingButNotSuspended` | libevent/bufferevent_ratelim.c:229-260 | a run: two streams join a group with one token and no smallest share, and may read nothing without being suspended |
| `Suspension.MoveIsCapped` | libevent/bufferevent_ratelim.c:199-228 | 16384 bytes is the most for one operation exactly when there is no configuration, or little in the bucket or in the group's share |
| `Suspension.MoveAboveTheCap` | libevent/bufferevent_ratelim.c:179-184 | a configured bucket of 20000 bytes allows 20000 at once |
| `Suspension.AdjustedIsClosed` | libevent/bufferevent_ratelim.c:956-994 | when tokens of a group are taken or given back, an exhausted bucket closes the group if and only if it was not exhausted before, or is not now, or the group was closed |
| `Suspension.OverdrawnButOpen` | libevent/bufferevent_ratelim.c:527-994 | a run: a group of 5 tokens without a smallest share is charged 5, opened again by its callback in the same tick, and then overdrawn by 5 while it is open |
| `SuspensionLaws.ChargedDoes` | libevent/bufferevent_ratelim.c:283-295 | exactly the bytes are taken from the limit of their direction and nothing from the other; the side is suspended for bandwidth exactly when nothing is left; when the timer is set |
| `SuspensionLaws.AdjustedDoes` | libevent/bufferevent_ratelim.c:900-954 | the same for tokens that the user takes or gives back, where only crossing zero changes a suspension |
| `SuspensionLaws.CalledBackDoes` | libevent/bufferevent_ratelim.c:395-441 | the refill callback lets go exactly the sides with tokens, and sets the timer exactly for the rest |
| `SuspensionLaws.ConfiguredDoes` | libevent/bufferevent_ratelim.c:558-635 | a first configuration fills the bucket with one tick's worth, a later one clips it; suspensions and timer fit the limits; without one nothing is suspended for bandwidth |
| `SuspensionLaws.MaxMoveIsLeast` | libevent/bufferevent_ratelim.c:199-260 | what a stream may move is exactly the lesser of its own limit and its share |
| `SuspensionLaws.ShareIsPart` | libevent/bufferevent_ratelim.c:245-250 | a member's share is the limit divided by the number of members, or the smallest share |
| `SuspensionLaws.SweptDoes` | libevent/bufferevent_ratelim.c:351-391 | closing or opening a group changes exactly the members that it reaches, and remembers whether it missed one when it opens |
| `SuspensionLaws.GroupChargedDoes` | libevent/bufferevent_ratelim.c:298-306 | exactly the bytes are taken from the group, which is closed exactly when nothing is left; its members follow |
| `SuspensionLaws.GroupAdjustedDoes` | libevent/bufferevent_ratelim.c:956-994 | the same for tokens that the user takes from the group or gives back, where only crossing zero makes a difference |
| `SuspensionLaws.GroupCalledBackDoes` | libevent/bufferevent_ratelim.c:527-556 | the refill callback of a group opens a direction exactly when a member was missed or the smallest share is there, and lets go exactly the members that it reaches |
| `SuspensionLaws.JoinFinishedDoes` | libevent/bufferevent_ratelim.c:769-772 | who joins a suspended group is suspended for it |
| `SuspensionLaws.LeftDoes` | libevent/bufferevent_ratelim.c:791-803 | who leaves a group is no member, and not suspended for it |
| `SuspensionLaws.RefreshedThenCharged` | libevent/bufferevent_ratelim.c:199-345 | in the protocol, a refill and then a charge leave the bucket as a take of the bandwidth law does |
| `SuspensionLaws.BandwidthOfRuns` | libevent/bufferevent_ratelim.c:199-345 | in any part of any run of the protocol, whatever the other threads do, a stream whose operations look at the clock and at their limit first moves at most its maximum and the rate for every tick that passes |
| `SuspensionLaws.ConfiguredIsFresh` | libevent/bufferevent_ratelim.c:558-606 | a stream meets the condition of that law from its first configuration on |
| `RateLimiter.Bufferevent.Suspend` | libevent/bufferevent.c:65-75 | the reason joins those of its side and nothing else changes; the side is armed exactly when it is wanted and nothing suspends it |
| `RateLimiter.Bufferevent.Unsuspend` | libevent/bufferevent.c:77-87 | the reason leaves those of its side; the same |
| `RateLimiter.Bufferevent.Enable` | libevent/bufferevent.c:406-427 | a suspended side is not armed |
| `RateLimiter.Bufferevent.Disable` | libevent/bufferevent.c:497-510 | the side is not wanted, and not armed, except that writing stays armed while the socket connects |
| `RateLimiter.Bufferevent.Connected` | libevent/bufferevent_sock.c:221-258 | after connecting, writing is armed exactly when it is wanted and nothing suspends it |
| `RateLimiter.Bufferevent.DecrementBuckets` | libevent/bufferevent_ratelim.c:283-295 | exactly the bytes are taken from the limit of their direction; the side is suspended for bandwidth exactly when nothing is left, and then it is not armed and the timer is set; exhausted buckets go on suspending |
| `RateLimiter.Bufferevent.DecrementLimit` | libevent/bufferevent_ratelim.c:900-954 | exactly the tokens that the user takes or gives back; only crossing zero suspends the side or lets it go |
| `RateLimiter.Bufferevent.RefillCallback` | libevent/bufferevent_ratelim.c:395-441 | the bucket is refilled; a side stays suspended for bandwidth exactly when it was and has no tokens, whatever the limits were, and the timer is set exactly for such sides or when it was; exhausted buckets go on suspending exactly when the refill does not overflow |
| `RateLimiter.Bufferevent.SetRateLimit` | libevent/bufferevent_ratelim.c:558-635 | a new configuration, or none: a side is suspended exactly when its limit is exhausted, and the timer is set exactly then |
| `RateLimiter.Bufferevent.RlimMax` | libevent/bufferevent_ratelim.c:199-260 | exactly the lesser of the own limit and the group's share, never negative; a member of a suspended group suspends itself |
| `RateLimiter.RateGroup.constructor` | libevent/bufferevent_ratelim.c:637-665 | a new group is open, its bucket holds one tick's worth, and its smallest share is between 1 and that |
| `RateLimiter.RateGroup.SetMinShare` | libevent/bufferevent_ratelim.c:699-718 | the least of the share and both rates; nothing for a share that is too large |
| `RateLimiter.RateGroup.SetCfg` | libevent/bufferevent_ratelim.c:667-697 | the group has the configuration, each limit is clipped to its maximum, and the smallest share that was asked for is clipped to the new rates |
| `RateLimiter.RateGroup.SuspendAll` | libevent/bufferevent_ratelim.c:351-391 | the group and its members become those of the sweep of the protocol: closed, with every member suspended for it that could be locked |
| `RateLimiter.RateGroup.Visit` | libevent/bufferevent_ratelim.c:473-484 | from any random member on, every member is seen; the answer is whether some lock could not be taken |
| `RateLimiter.RateGroup.UnsuspendAll` | libevent/bufferevent_ratelim.c:486-522 | the group and its members become those of the sweep of the protocol: open, with every member let go that could be locked, and pending exactly when some could not |
| `RateLimiter.RateGroup.Decrement` | libevent/bufferevent_ratelim.c:297-307 | exactly the bytes are taken from the group, which is closed exactly when nothing is left; the members are those of the protocol |
| `RateLimiter.RateGroup.DecrementLimit` | libevent/bufferevent_ratelim.c:956-994 | exactly the tokens are taken or given back; only crossing zero closes or opens the group; the members are those of the protocol |
| `RateLimiter.RateGroup.RefillCallback` | libevent/bufferevent_ratelim.c:527-556 | the group is refilled, and a direction stays closed exactly when it was, no member was missed, and the smallest share is not there; the members are those of the protocol |
| `Inet6.GapIsFirstLongest` | libevent/evutil.c:1634-1651 | the gap is the first of the longest runs of zero words, of two words at least; there is none exactly when no such run is |
| `Inet6.FindGap` | libevent/evutil.c:1634-1651 | the loops find that gap |
| `Inet6.WriteWords` | libevent/evutil.c:1653-1669 | the words and the gap are written in order, with the colons between them |
| `Inet6.Ntop` | libevent/evutil.c:1606-1674 | the text of the address, null when it is too long for the buffer, and without its last character when it just fills it |
| `Inet6.TextOfGap` | libevent/evutil.c:1634-1669 | the first of the longest runs of at least two zero words is the gap of the text |
| `Inet6.TextOfWords` | libevent/evutil.c:1634-1669 | without such a run the text has no gap |
| `Inet6.TextOfIpv4` | libevent/evutil.c:1617-1628 | exactly what the text of an embedded IPv4 address is |
| `Inet6.ScanQuadBack` | libevent/evutil.c:1718-1732 | scanning undoes printing of a dotted quad |
| `Inet6.StandBack` | libevent/evutil.c:1736-1764 | words with colons behind them are read one by one |
| `Inet6.WithGapBack` | libevent/evutil.c:1735-1784 | parsing undoes printing with a gap of any length at any place |
| `Inet6.Ipv4Back` | libevent/evutil.c:1616-1628 | parsing undoes printing of the forms that hold an IPv4 address |
| `Inet6.SixAndQuadBack` | libevent/evutil.c:1766-1784 | a dotted quad behind six words is read as the last two words |
| `Inet6.GapAndQuadBack` | libevent/evutil.c:1766-1784 | so is one behind a gap, wherever it is among the six words and however long |
| `Inet6.RoundTrip` | libevent/evutil.c:1606-1786 | parsing undoes printing, for every address |
| `Inet6.TextIsInjective` | libevent/evutil.c:1606-1674 | different addresses have different texts |
| `Inet6.RoundTripThroughBuffer` | libevent/evutil.c:1671-1674 | the whole text is stored exactly when the buffer is longer than it, as one of 46 characters always is, and then parsing gives the address back; it loses its last character when it just fills the buffer, and is refused when it is longer |
| `Inet6.TextIsCut` | libevent/evutil.c:1671-1674 | the address of zeros, printed as "::", is stored as ":" in a buffer of two characters, and this is no address |
| `Inet6.ReadWords` | libevent/evutil.c:1735-1764 | the loop reads words and at most one gap, and refuses exactly what the specification refuses |
| `Inet6.FillGap` | libevent/evutil.c:1771-1780 | the words behind the gap move to the end and the gap is filled with zeros |
| `Inet6.Pton` | libevent/evutil.c:1701-1786 | exactly the texts of the specification are accepted, with its bytes, and nothing is written otherwise |
| `Inet6.PrintThenParse` | libevent/evutil.c:1606-1786 | the two loops after each other give the address back |
| `Inet6Language.ParseIff` | libevent/evutil.c:1701-1786 | the parser accepts a text, for these bytes, if and only if it spells eight words: at most four characters each with colons between them, with or without one gap for at least one zero word, and with or without a dotted quad of four bytes for the last two; no other text is an address |
| `Inet6Language.WordsIff` | libevent/evutil.c:1735-1764 | the loop over the words reads exactly what is spelled |
| `Inet6Language.QuadIff` | libevent/evutil.c:1718-1732 | a dotted quad is four numbers with a dot between them and nothing behind |
| `Inet6Language.ValueIsPlace` | libevent/evutil.c:1739-1741 | a hexadecimal digit, small or capital, stands for its place among them |
| `Inet6Language.NumeralIsSmall` | libevent/evutil.c:1664-1666 | words are printed with small digits |
| `Inet6Language.TrailingColon` | libevent/evutil.c:1751-1754 | a single colon behind the last word changes nothing: the text is taken, for the same address, or refused as it is without the colon |
| `Inet6Language.ColonAtTheEnd` | libevent/evutil.c:1751-1754 | so every printed address that ends in a word is also taken with a colon at its end |
| `Inet6Language.HexPrefixIsTaken` | libevent/evutil.c:1739-1747 | "0x1::" is taken for the address 1:: |
| `HashTable.MoveAll` | libevent/ht-internal.h:328-345 | growth into a new table: every element, and only those, is in the bucket of its hash |
| `HashTable.SortChain` | libevent/ht-internal.h:353-363 | growth within the table: the walk over one old bucket ends, though elements move to buckets that are still to be walked, and leaves only elements that are at home |
| `HashTable.SortAll` | libevent/ht-internal.h:352-364 | after the walk over all old buckets every element, and only those, is in the bucket of its hash |
| `HashTable.Table.ChooseLength` | libevent/ht-internal.h:322-327 | the first longer prime length with room for more than the size, if there is one |
| `HashTable.HalfIsOk` | libevent/evmap.c:109-110 | with the load factor of one half the limit rises from each length to the next by more than one |
| `HashTable.Table.FullCanGrow` | libevent/ht-internal.h:313-327 | then a full table always finds a longer length, or has the last one |
| `HashTable.Table.Grow` | libevent/ht-internal.h:312-371 | the same elements, the same count, and room for more than the size unless the table has the last length, on both paths |
| `HashTable.Table.FindP` | libevent/ht-internal.h:139-152 | the place of the element with the key, or the end of its chain when there is none anywhere |
| `HashTable.Table.Find` | libevent/ht-internal.h:155-163 | the element that the key maps to, or null exactly when there is none |
| `HashTable.Table.Insert` | libevent/ht-internal.h:166-177 | exactly the element joins, through growth if there is no room; a table of the last length takes it in any case |
| `HashTable.Table.Remove` | libevent/ht-internal.h:202-215 | exactly the element with the key leaves, or nothing when there is none |
| `HashTable.Table.Clear` | libevent/ht-internal.h:374-381 | the table is empty |
| `HashTable.Table.OrderIsAll` | libevent/ht-internal.h:120-123 | the order of iteration has every element exactly once |
| `HashTable.Table.Start` | libevent/ht-internal.h:246-256 | the first element of that order, or null |
| `HashTable.Table.Next` | libevent/ht-internal.h:262-276 | the next element of that order, or null |
| `HashTable.Table.ForEach` | libevent/ht-internal.h:120-123 | exactly that order |
| `HashTable.Table.RepIsBad` | libevent/ht-internal.h:384-417 | 0 exactly when length, limit, counts and buckets are consistent |
| `HashTable.Table.ValidIsConsistent` | libevent/ht-internal.h:384-417 | a valid table is consistent if and only if it has no more elements than its limit |
| `HashTable.Run` | libevent/ht-internal.h:137-417 | after any run of insertions, removals and clearings, of any size and whatever memory there was for growth, the table holds exactly the elements that the calls leave in a map from keys to elements, and iteration visits each once; HT_REP_IS_BAD returns 0 if and only if there are no more elements than the limit, which only a table of the last length can exceed |

## Left out

- System calls, sockets, signals, fork, files, OpenSSL and Windows: the kernel is a map from descriptors to masks (epoll), an array (poll), or one readable bit (the notify descriptor).
- `catnet`, `client`, `configs` and `libbcm2835`: plumbing, command strings and hardware registers.
- evbuffer: reserve and commit, reading and writing of descriptors, callbacks, and pinned, immutable, reference and file chunks. These can leave an empty chunk behind data, which evbuffer_add and chain_insert do not expect.
- evbuffer: the memory of a chunk is a sequence in a field, so that a memcpy replaces a part of the sequence; sizes are unbounded, so the checks for EV_SIZE_MAX do not fail.
- Evbuffer.Buffer.PrependChain: the case of a destination without data is not modelled, because evbuffer_prepend_buffer never reaches it.
- Evbuffer.Buffer.PullChunks: the `off` of the new chunk grows as it is filled, where the source sets it at the end.
- Byte counts for evbuffer callbacks after a prepend.
- EventBase.Base.HeapTop: the heap of timeouts is a set with a least element; that the array heap keeps its order and indices is proved in `MinHeap`, apart from the base.
- EventBase: times are single numbers, with the index of their common-timeout queue beside them instead of in the high bits of the microseconds; the evmap calls of event_add and event_del are taken to succeed; EV_SIGNAL events with ev_ncalls, event_base_once, event debugging and the configuration of backends are not modelled.
- EventLoop.RunDeferred: deferred callbacks are what they do to the base, and how many remain.
- EventLoop.Loop: that only one thread is in the loop (`running_loop`), the time cache, and signals are not modelled.
- That event_del waits for a running callback: the single wait does not establish it for persistent events that become active again.
- Changelist.ApplyOne: EV_ET, and errors of epoll_ctl other than EEXIST, ENOENT, EBADF and EPERM, are not modelled; in `EventMap` every descriptor stays open and can be watched.
- EV_ET, and EV_PRI in the theorem about runs of the changelist; `Changelist.AppliedIsTarget` says exactly when EV_PRI is kept.
- The copy of the poll array for other threads, and revents.
- TokenBucket.BandwidthIsBounded: the ticks at which a stream looks at the clock do not decrease.
- SuspensionLaws.BandwidthOfRuns: the same; what a stream moves is counted at the tick at which it looked at its limit, so a clock that moves on during the operation counts for the next one.
- TokenBucket.GetTick: a tick of less than a millisecond gives a divisor of 0; the model asks for a positive one.
- Suspension.StepKeeps: streams are not freed, and recursive locking is not counted.
- RateLimiter.Bufferevent.Connected: a connection that fails ends the bufferevent and is not modelled.
- Inet6.ScanInt: a decimal number that is too large for an int is unbounded here and refused, where sscanf leaves the result open. The IPv4 form of the two functions is only modelled inside an IPv6 address.
- HashTable: HT_REPLACE, which miscounts an element that is there already, HT_NEXT_RMV, HT_FOREACH_FN, cached hash values, and growth for which neither way finds memory.
- HashTable.Table.Grow: asks that some longer length has room, unless the table has the last length or room already: otherwise HT_GROW reads past its list of primes. With the load factor of the source this never happens (`HashTable.Table.FullCanGrow`).
- RB_HEAD and SPLAY_HEAD types, augmentation, and the unused parts of `lib/tree.h`.

# Verified models of the non-coherent run-time

The repository is a run-time for machines whose caches are not coherent.  This
project models its hardest parts and proves what they are for.

- **The concurrent tree** (`NodeHeap`, `TreeShape`, `PlainTree`, `CbTree`,
  `TreeRuns`).  One writer rebuilds parts by copying and publishes single
  pointers; any number of readers walk the nodes meanwhile.  The writer is a class over a map of nodes,
  and it records every store it makes.  Detached nodes are not required to be
  ordered: what is kept for them is what a search from them answers.  `PlainTree`
  is the tree without addresses, whose balanced insertion and deletion the writer
  computes.
- **Timed reclamation** (`QscRing`, `TimedSmr`, `ReclaimRuns`).  The cache, ring,
  quiescence computation and reclaim loop as they are written; and the protocol as single
  steps of readers, copies, clock and writer, of which the former are runs.
- **Tree, deferred free and read sections together** (`SafeReads`, `TreeServer`).
- **Two-phase commit between two servers** (`McServer`, `TwoPhase`,
  `Progress`), the hash table of items (`Assoc`), and the message ring under it
  (`MsgQueue`, `Rpc`), for the shipped configuration without KEY_SKEW.
- **Allocators** (`PsList`, `MemMgr`, `SlabMemory`, `BiSlab`, `PsSlab`,
  `Malloc`): intrusive circular lists, the chunk pool, the node-local slabs,
  the slabs with cross-core frees, and malloc.
- **The key hash** (`JenkinsHash`): three read paths, one function.

Where a failed C assertion stops the program, the model reports a failure
result or a halt.  The clock, scheduling, what memory held before it was
initialised and what the system's allocator answers are parameters.

Bounds and assumptions that carry meaning:

- Reclamation: a copied table word is at most `age` old, a clock reading at most
  `skew` behind, `age + skew < FLUSH_GRACE_PERIOD`, and clock values are at least
  FLUSH_GRACE_PERIOD.  The copies may be torn: every word is copied by itself.
  The readings the writer stamps with never decrease.
- Two-phase commit: one client a server, one request outstanding a client; all
  keys have the same length, so that the prefix comparison of logged keys is
  equality.
- The composition takes tree nodes as coherent memory.
- The step methods of `PsSlab.PsMem` are the sections under a queue's lock and
  the steps private to a core.  Each keeps the invariant whatever any other core
  is in the middle of, so it holds in every interleaving.  An allocation is
  `Tick` followed by `AllocStep`.
- `Malloc`: taking fresh memory and cutting it up are two steps, as are taking a
  block and labelling it.  Each step leaves the blocks other cores are working on
  alone, so the cores may interleave them; the call for one list id excludes
  others by its lock.

Results that differ from what the code's authors seem to have meant:

- With one object a slab, freeing leaves the list of full slabs pointing to
  memory given back, exactly when the slab is the first of that list
  (`BiSlab.SlabInfo.Free`, with an example in `BiSlab.OneToASlab`).
- The check at slab creation admits three families of sizes whose slabs have no
  room for an object (`BiSlab.AcceptedExactly`, `BiSlab.AcceptedFits`, examples in
  `BiSlab.AcceptedWithoutRoom`).  Slabs are modelled for the other sizes.
- A request within 24 bytes of the top of the word is served with too small a
  block (`Malloc.NeedCovers`), and a large request can move the bump pointer
  backwards, so that blocks overlap (`Malloc.Heap.Alloc`, `Malloc.Overlap`).
- A second free of an object that is still queued for its owner is not noticed,
  and leaves no consistent state (`PsSlab.PsMem.IsFree`, `PsSlab.QueuedOnce`,
  `PsSlab.FreedOnce`).
- The free list of a new slab does not end in NULL: its last link is never
  written.  Free lists are therefore the first `nfree` links.

## Model

| member | source | states |
|---|---|---|
| NodeHeap.StoreKeeps | rb_tree/cbtree.c:134-156 | A pointer store at a node the search for the operation key reaches leaves the answer of every search from every node (live or detached) unchanged, except that the operation key may move to its final answer, and then at a moment when the root gives that answer too |
| NodeHeap.GrowKeeps | rb_tree/cbtree.c:19-31 | A node that appears at a new address changes the answer of no existing node |
| NodeHeap.SizeKeeps | rb_tree/cbtree.c:149-149 | A store to a size field changes no answer of any node |
| NodeHeap.KeepsTrans | rb_tree/cbtree.c:158-182 | Keeping answers composes over any number of stores |
| NodeHeap.AnswersUnique | rb_tree/cbtree.c:259-290 | A search from a node has at most one answer in a given memory |
| NodeHeap.PathAnswers | rb_tree/cbtree.c:259-290 | A search that passes through a node answers what the search from that node answers |
| TreeShape.RepAnswers | rb_tree/cbtree.c:248-290 | The pointer search over a heap that represents a tree answers what the tree lookup answers, for every key |
| TreeShape.RepFrame | rb_tree/cbtree.c:117-156 | A tree stays represented when only nodes outside it change |
| TreeShape.SingleLMap | rb_tree/cbtree.c:33-41 | A single left rotation gives an ordered tree with the same meaning for every key |
| TreeShape.SingleRMap | rb_tree/cbtree.c:57-66 | The same for the single right rotation |
| TreeShape.DoubleLMap | rb_tree/cbtree.c:43-55 | The same for the double left rotation |
| TreeShape.DoubleRMap | rb_tree/cbtree.c:68-80 | The same for the double right rotation |
| TreeShape.ContentsLook | rb_tree/cbtree.c:248-290 | The finite map a tree stands for is exactly what lookups in it answer |
| TreeShape.KeysCount | rb_tree/cbtree.c:19-31 | In an ordered tree the node count is the number of keys |
| PlainTree.BalanceMoves | rb_tree/cbtree.c:117-132 | With ln and rn nodes below: a side over four times the other gives nodes to it, the key that comes to the top being decided by the node counts one level down; otherwise the node stays as it is |
| PlainTree.AscendingThree | rb_tree/cbtree.c:158-182 | Three ascending keys put into the empty tree end up as one node over two leaves |
| PlainTree.RotateLIs | rb_tree/cbtree.c:82-90 | The choice between single and double left rotation by node counts |
| PlainTree.RotateRIs | rb_tree/cbtree.c:92-100 | The mirror image |
| PlainTree.BalanceIs | rb_tree/cbtree.c:117-132 | The choice between rotating left, right and not at all, by node counts |
| CbTree.RewritesTrans | rb_tree/cbtree.c:33-80 | Node conservation, frames and kept answers of consecutive rewrites add up |
| CbTree.LinkKeeps | rb_tree/cbtree.c:134-150 | Publishing a changed child in place keeps the answers of every node |
| CbTree.KidsInside | rb_tree/cbtree.c:117-237 | From a node of the live tree only nodes of the live tree are reached |
| CbTree.AccountedFor | rb_tree/cbtree.c:33-80 | Nodes before plus nodes made equal nodes after plus nodes discarded, as bags: each unreachable node is discarded exactly once and no reachable one is, and allocations minus discards is the change in map size |
| CbTree.UpdatedLeft | rb_tree/cbtree.c:174-176 | Replacing the left subtree by one updated at a smaller key updates the whole tree at that key and nowhere else |
| CbTree.UpdatedRight | rb_tree/cbtree.c:177-180 | The mirror image for the right subtree |
| CbTree.DeleteLifts | rb_tree/cbtree.c:230-236 | The tree over the lifted minimum is the old tree without the deleted key |
| CbTree.SettleAnswers | rb_tree/cbtree.c:184-190 | Switching to the new root keeps every answer, or moves the operation key to its final answer |
| CbTree.DueAfter | rb_tree/cbtree.c:158-182 | After a subtree has been rewritten the store that publishes it is again one that keeps answers |
| CbTree.Writer.TreeBBNewNode | rb_tree/imple_bi.c:26-36 | Returns an address no allocated node has |
| CbTree.Writer.TreeBBFreeNode | rb_tree/imple_bi.c:38-43 | Appends the node to the buffer of discards and changes no memory a reader can see |
| CbTree.Writer.MkNode | rb_tree/cbtree.c:19-31 | A new node over two trees represents the tree with an exact size, and no other node changes |
| CbTree.Writer.SingleL | rb_tree/cbtree.c:33-41 | Builds the rotated copy, discards one node, keeps every answer from every node while doing so |
| CbTree.Writer.SingleR | rb_tree/cbtree.c:57-66 | The mirror image |
| CbTree.Writer.DoubleL | rb_tree/cbtree.c:43-55 | Builds the doubly rotated copy, discards two nodes, keeps every answer |
| CbTree.Writer.DoubleR | rb_tree/cbtree.c:68-80 | The mirror image |
| CbTree.Writer.MkBalancedL | rb_tree/cbtree.c:82-90 | With exact sizes, at least two nodes below and a right side over four times the left, the inner grandchild that the double rotation dereferences exists; the tree is rotated as the node counts one level down demand, and keeps its meaning |
| CbTree.Writer.MkBalancedR | rb_tree/cbtree.c:92-100 | The mirror image |
| CbTree.Writer.LinkInPlace | rb_tree/cbtree.c:134-150 | At most two stores, of which the last leaves every link as it was, so that one at most is visible; the node represents the new tree and every node keeps its answers |
| CbTree.Writer.MkBalanced | rb_tree/cbtree.c:117-156 | The result is exactly the balanced tree of left, key and right, rotated whenever one side has over four times the nodes of the other, with their meaning; nodes are conserved, at most three of them discarded; every intermediate store keeps answers; without the in-place flag no existing node is written |
| CbTree.Writer.Insert | rb_tree/cbtree.c:158-182 | The subtree is updated to put-if-absent of the key, balanced on every level of the way; it stays ordered with exact sizes, and every store on the way keeps answers |
| CbTree.Writer.DeleteMin | rb_tree/cbtree.c:192-208 | Returns the least node and the tree without its key, balanced on the way; no node that was there, on the way to the minimum or elsewhere, is written |
| CbTree.Writer.Delete | rb_tree/cbtree.c:210-237 | The subtree loses the key and is balanced on every level of the way; the deleted value is returned, or 0 when the key is absent |
| CbTree.Writer.DeleteFound | rb_tree/cbtree.c:225-236 | The node found gives way to its only child, or to the balanced tree over the least node of its right side; the meaning for every other key stays |
| CbTree.Writer.PublishRoot | rb_tree/cbtree.c:189-189 | The root is written only if it changed, and the store keeps answers |
| CbTree.Writer.TreeBB_Insert | rb_tree/cbtree.c:184-190 | Refines put-if-absent on a finite map, and the shape of the tree is exactly that of the recursive balanced insertion; ordered tree and exact sizes afterwards; every store recorded and answer-keeping; every node accounted for; at most three discards for each level of the tree |
| CbTree.Writer.TreeBB_Delete | rb_tree/cbtree.c:239-246 | Refines remove-and-return-value on a finite map, with the same guarantees, the shape of the balanced deletion and one discard more |
| TreeRuns.OneStoreSwitches | rb_tree/cbtree.c:134-154 | In the run of one operation at most one store changes the map seen from the root, and it goes straight from the old map to the new one |
| TreeRuns.OperationSwitches | rb_tree/cbtree.c:184-246 | For a finished operation that map is the tree before up to some store and the tree after from it on; rotations published on the way leave it alone |
| TreeRuns.ReclaimIsViewStep | rb_tree/imple_bi.c:45-59 | Taking away nodes a reader cannot stand on changes no answer the reader can get |
| TreeRuns.AnswerCarries | rb_tree/cbtree.c:259-290 | While the writer works, a standing reader can still get an answer the map had at some instant of the call |
| TreeRuns.TreeBB_Find | rb_tree/cbtree.c:248-291 | Under any interleaving of finitely many steps the search reads allocated nodes only and returns what the map answered for the key at some instant of the call |
| QscRing.ExpiredExactly | libs/bi/bi_smr.c:283-290 | When stamps never decrease, the entries up to the first late one are exactly all entries stamped at or before the quiescent time |
| QscRing.InOrderAppend | libs/bi/bi_smr.c:51-64 | Entries stamped by later clock readings keep the stamps of the ring in order |
| QscRing.SlotsPush | libs/bi/bi_smr.c:51-64 | Writing the slot at the moving end appends to the ring contents |
| QscRing.SlotsPop | libs/bi/bi_smr.c:34-43 | Moving the head takes the first entry and leaves the others in order |
| QscRing.Reclaimer.RingLen | libs/bi/bi_smr.c:21-25 | The modular length is the number of entries, at most capacity minus one |
| QscRing.Reclaimer.EnqueueBatch | libs/bi/bi_smr.c:45-69 | Appends the whole batch, stamped, or fails with the queue unchanged, exactly when there is no room; stamps stay in order |
| QscRing.Reclaimer.CacheFlush | libs/bi/bi_smr.c:86-94 | Everything in the cache moves to the ring, in order and with its sizes and stamps; cache, ring and returned objects together are unchanged |
| QscRing.Reclaimer.SmrFree | libs/bi/bi_smr.c:255-267 | The object joins the end of the pipeline with its size: of the cache, or of the ring if the cache is full; nothing else moves |
| QscRing.Reclaimer.QuiesceSmr | libs/bi/bi_smr.c:202-238 | The result is the least of the time and the entry times of the cores found inside, over all nodes starting anywhere |
| QscRing.Reclaimer.SmrReclaim | libs/bi/bi_smr.c:269-294 | Returns exactly all entries stamped at or before the quiescent time, in order, leaves exactly the later ones, and conserves every object |
| TimedSmr.NoWrap | libs/bi/bi_smr.c:240-244 | The unsigned subtraction is exact for clock values of at least the grace period |
| TimedSmr.NextInv | libs/bi/bi_smr.c:202-294 | The protocol invariant survives every step: ticks, both writes of bi_enter, bi_exit, word-by-word copies, frees, stamps, each read of the scan, each return |
| TimedSmr.ReturnIsSafe | libs/bi/bi_smr.c:269-294 | With copies at most `age` old, clocks at most `skew` behind and age + skew below the grace period, an object goes back to its slab only when every open section began after it was unlinked |
| TimedSmr.Reachable | libs/bi/bi_smr.c:202-294 | The invariant holds in every state of every run from the initial state |
| TimedSmr.RunIsSafe | libs/bi/bi_smr.c:269-294 | So in every run no object goes back to its slab while a section is open that began before the object was unlinked |
| TimedSmr.ScannedNext | libs/bi/bi_smr.c:202-238 | The minimum of the scan is at every step the least of the clock reading it began with and of the entry times of the word pairs read that show a core inside; draining begins with a pair of every core read |
| TimedSmr.ReachableScan | libs/bi/bi_smr.c:202-238 | So it is in every state of every run |
| TimedSmr.QuietScan | libs/bi/bi_smr.c:222-238 | While all cores stay out with copies up to date, the minimum is the clock reading the reclaim began with, whatever their last sections were |
| TimedSmr.HeadReturns | libs/bi/bi_smr.c:283-290 | And then an object stamped a grace period before goes back |
| TimedSmr.ReaderGoesOn | libs/bi/bi_smr.c:438-461 | In every phase a reader can take its next step, whatever the writer is doing |
| ReclaimRuns.ScanRun | libs/bi/bi_smr.c:222-238 | The scan of all cores is a run of single steps, and its minimum is the least value over their copies |
| ReclaimRuns.OneMinimum | libs/bi/bi_smr.c:222-238 | The quiescent time does not depend on the order of nodes and cores |
| ReclaimRuns.ReclaimAsSteps | libs/bi/bi_smr.c:269-294 | bi_smr_reclaim on ring and table is a run of the protocol that begins, reads the pair of every core, returns the same objects in the same order and ends |
| ReclaimRuns.FreeAsSteps | libs/bi/bi_smr.c:255-267 | bi_smr_free is a run of the protocol, from a mirrored cache and ring to a mirrored cache and ring |
| SafeReads.CurrentClosed | rb_tree/imple_bi.c:172-182 | From the nodes reachable at this moment only such nodes are reached |
| SafeReads.SysNextInv | rb_tree/imple_bi.c:101-117 | The invariant of writer, readers and reclamation together survives every step of any of them |
| SafeReads.ReclaimOutside | libs/bi/bi_smr.c:283-290 | A node going back to its slab is outside every open read section |
| SafeReads.StepIsViewStep | rb_tree/imple_bi.c:172-182 | Whatever step the system takes, an open section sees an answer-keeping store, a harmless reclaim or nothing |
| SafeReads.SectionIsViewRun | rb_tree/imple_bi.c:172-182 | An open section is a run in which the search is safe |
| SafeReads.InitInv | rb_tree/imple_bi.c:184-200 | The empty tree with empty queues and no reader inside meets the invariant of the whole system |
| SafeReads.Reachable | rb_tree/imple_bi.c:101-117 | So it holds in every state of every run |
| SafeReads.NeverReused | rb_tree/imple_bi.c:26-59 | In every run, a node a section may stand on when it opens is not given back or handed out again before the section ends, and keeps its key and value |
| SafeReads.CbFind | rb_tree/imple_bi.c:172-182 | In every run cb_find answers what the map answered at some instant of its section, while updates, frees and reclaims go on |
| TreeServer.StoresRun | rb_tree/cbtree.c:134-154 | The stores an operation really makes are steps the system allows |
| TreeServer.OperationRun | rb_tree/imple_bi.c:61-71 | A finished operation is a run of the system that ends with its discards in the buffer |
| TreeServer.FreeNodes | rb_tree/imple_bi.c:53-59 | The buffered discards go to deferred free, last one first, after the operation |
| TreeServer.RbtreeMsgHandler | rb_tree/imple_bi.c:101-117 | The handler refines the map operations, replies the deleted value, and its stores and frees are a run of the system |
| TreeServer.Serve | rb_tree/imple_bi.c:119-133 | Whatever the server is asked, from the empty tree on, the map is what the requests mean, and all it does is a run from the initial state |
| TreeServer.HandlerCan | rb_tree/imple_bi.c:101-117 | A step of the handler is possible in every state that has the same writer side |
| TreeServer.WovenSame | rb_tree/imple_bi.c:101-117 | In every interleaving of a handler run with steps of readers, copies and the clock, the writer side goes through the same states |
| TreeServer.WovenGoesOn | rb_tree/imple_bi.c:101-117 | Every such interleaving is a run of the system: nothing the others do can hold the handler up, and between any two of its steps they go on |
| McServer.EmptySlot | mc_code/2pc_mc/servers/server.c:244-251 | The last empty slot, or -1 exactly when there is none |
| McServer.FindSlot | mc_code/2pc_mc/servers/server.c:263-270 | The first slot with the key, or the number of slots |
| McServer.Server.McCommit | mc_code/2pc_mc/servers/server.c:229-256 | Logs the key in the last empty slot, or answers 1 for a key already there, or fails without room; otherwise the log is untouched |
| McServer.Server.McUpdate | mc_code/2pc_mc/servers/server.c:258-273 | Clears the first slot with the key and stores the value, or fails exactly when the log lacks the key |
| Assoc.Table.Find | mc_code/2pc_mc/servers/assoc.c:45-60 | Walks the chain of the bucket and finds the item with the key exactly if the table has one |
| Assoc.Table.Set | mc_code/2pc_mc/servers/server.c:276-314 | An item there is overwritten in place, otherwise exactly one is added; either way the map of the table is changed at the key alone, and no item changes its key or bucket |
| Assoc.Table.Insert | mc_code/2pc_mc/servers/assoc.c:78-86 | A new item at the front of its chain leaves every chain complete and every key in the table once |
| McServer.Server.HandleMessage | mc_code/2pc_mc/servers/server.c:342-489 | One turn of the event loop does exactly what the message handling function says, halting where an assertion fails |
| TwoPhase.NextInv | mc_code/2pc_mc/servers/server.c:379-489 | The invariant of both servers, channels and clients survives every step that does not halt |
| TwoPhase.Reachable | mc_code/2pc_mc/servers/server.c:342-489 | It holds in every reachable unhalted world |
| TwoPhase.UnloggedAgree | mc_code/2pc_mc/servers/server.c:445-474 | A key in neither log has the same value, or none, in both stores |
| TwoPhase.SetOkMeansBoth | mc_code/2pc_mc/servers/server.c:475-489 | A client is sent SET_OK only when both stores hold the value it set |
| TwoPhase.HaltsOnlyOnConflict | mc_code/2pc_mc/servers/server.c:251-270 | A world halts if and only if a server logs a key whose other SET it still has logged: the slot, log entry and ring assertions never fail |
| TwoPhase.AtMostTwoPending | mc_code/2pc_mc/share/rpc.h:163-167 | At most two messages of one direction are unconsumed, in different buffers, and the eight-slot ring is never full |
| TwoPhase.SendKeeps | mc_code/2pc_mc/share/rpc.h:163-167 | With at most one message unfinished, sending overwrites no buffer that is unread or being handled |
| TwoPhase.ClashStays | mc_code/2pc_mc/servers/server.c:387-432 | Two prepared SETs of one key get no further: every step keeps the clash or halts |
| TwoPhase.ClashNeverCommits | mc_code/2pc_mc/servers/server.c:387-432 | So in no run does either of them change a store |
| TwoPhase.OneAfterTheOther | mc_code/2pc_mc/servers/server.c:463-489 | Any other pair of running SETs of one key is sequential: the first is in both stores already |
| TwoPhase.StartGet | mc_code/2pc_mc/servers/server.c:358-378 | A GET is answered from the local store and changes nothing but what its client has |
| TwoPhase.ServePrepareOk | mc_code/2pc_mc/servers/server.c:445-462 | A PREPARE_OK always finds its log entry and room for the COMMIT |
| TwoPhase.ServeCommit | mc_code/2pc_mc/servers/server.c:463-474 | So does a COMMIT |
| TwoPhase.ServeCommitOk | mc_code/2pc_mc/servers/server.c:475-489 | A COMMIT_OK never halts; both stores hold the value its client is told about |
| Progress.HelpPossible | mc_code/2pc_mc/servers/server.c:342-489 | While a SET waits for its answer, the server it waits for can take or handle a message of its peer |
| Progress.Closer | mc_code/2pc_mc/servers/server.c:379-489 | Each such step brings the SET closer to its answer, no other step takes it further away, and the waiting ends with SET_OK and with nothing else |
| Progress.AnsweredInTime | mc_code/2pc_mc/servers/server.c:342-489 | In every run, whatever goes on in between, a SET is answered, or the world halts on a conflict, before the servers it waits for have made 24 steps on messages of their peers |
| Progress.CanBeAnswered | mc_code/2pc_mc/servers/server.c:342-489 | From every world with a waiting SET the servers alone can bring it to SET_OK or to the conflict that stops them |
| Progress.ClientGoesOn | mc_code/2pc_mc/servers/server.c:342-378 | A client that is not waiting for a SET goes on as well: it can ask, its request is taken up, and it can receive the answer |
| MsgQueue.IndexApart | mc_code/2pc_mc/share/rpc.h:66-76 | Fewer than eight places apart, two indices name different slots |
| MsgQueue.FullTest | mc_code/2pc_mc/share/rpc.h:66-72 | The slot comparison says full exactly when seven entries lie between the tail and the head looked at, however old that head is |
| MsgQueue.Ring.HeadCopyRefills | mc_code/2pc_mc/share/rpc.h:66-66 | The producer's copy of the head may turn into any value the head has had since, at any moment, without disturbing the queue |
| MsgQueue.Ring.TailCopyRefills | mc_code/2pc_mc/share/rpc.h:85-85 | The same for the consumer's copy of the tail |
| MsgQueue.Ring.EnqueueCheck | mc_code/2pc_mc/share/rpc.h:66-72 | Room is denied exactly when the ring is full at the reload |
| MsgQueue.Ring.EnqueueWrite | mc_code/2pc_mc/share/rpc.h:73-73 | The entry goes to a slot that holds no unread entry |
| MsgQueue.Ring.EnqueuePublish | mc_code/2pc_mc/share/rpc.h:75-75 | The tail store appends the entry to the queue |
| MsgQueue.Ring.DequeueCheck | mc_code/2pc_mc/share/rpc.h:84-89 | Empty is answered exactly when the ring is empty at the reload |
| MsgQueue.Ring.DequeueRead | mc_code/2pc_mc/share/rpc.h:91-91 | The entry read is the oldest one sent |
| MsgQueue.Ring.DequeueRelease | mc_code/2pc_mc/share/rpc.h:92-92 | The head store removes exactly that entry |
| MsgQueue.Ring.Enqueue | mc_code/2pc_mc/share/rpc.h:61-77 | The whole enqueue appends, or answers -1 exactly when full |
| MsgQueue.Ring.Dequeue | mc_code/2pc_mc/share/rpc.h:79-94 | The whole dequeue removes the oldest entry, or answers -1 exactly when empty |
| Rpc.Direction.RpcSend | mc_code/2pc_mc/share/rpc.h:113-125 | Two alternating buffers and the ring refine the sending of the protocol channel, while the receiver may be anywhere in its own operation |
| Rpc.Direction.RpcRecv | mc_code/2pc_mc/share/rpc.h:127-143 | And the taking of the oldest message |
| PsList.Rotate | include/ps_list.h:125-134 | A ring may be listed from any of its nodes |
| PsList.AddLast | include/ps_list.h:83-90 | The four stores of an insertion put the node into the ring, order kept |
| PsList.RemFirst | include/ps_list.h:92-98 | The four stores of a removal close the ring and leave the node a ring of one |
| PsList.LinkMemory.Init | include/ps_list.h:67-69 | A ring of one; nothing else changes |
| PsList.LinkMemory.Singleton | include/ps_list.h:75-77 | The emptiness test is right for any ring |
| PsList.LinkMemory.Add | include/ps_list.h:83-90 | The ring grows by the node, other nodes are untouched |
| PsList.LinkMemory.Rem | include/ps_list.h:92-98 | The ring loses the node, other nodes are untouched |
| PsList.Freelist.Add | libs/bi/bi_slab.c:54-63 | The slab becomes the first of the list |
| PsList.Freelist.Rem | libs/bi/bi_slab.c:43-52 | The slab leaves its ring wherever it stands; the list pointer moves only if it pointed to that slab |
| MemMgr.ItemsApart | libs/mem/mem_mgr.c:123-138 | Chunks of different items never overlap |
| MemMgr.Pool.Init | libs/mem/mem_mgr.c:123-142 | Every item is free once, in order, with its own chunk |
| MemMgr.Pool.Alloc | libs/mem/mem_mgr.c:145-157 | Takes the first free item; free and handed-out items are always the original set |
| MemMgr.Pool.Free | libs/mem/mem_mgr.c:159-163 | The item goes to the end of the list |
| SlabMemory.MaskBits | include/bi_slab.h:6-6 | And-ing a word with a negated power of two takes the remainder away |
| SlabMemory.RoundUpLeast | include/bi_slab.h:6-6 | On words, negate and mask and negate gives the least multiple not below its argument, except for the last few words, where it gives zero |
| SlabMemory.Fits | include/bi_slab.h:92-98 | As many objects as counted fit behind the slab header |
| SlabMemory.SlabMemory.CutStep | libs/bi/bi_slab.c:77-80 | Each round threads one more header; the last header keeps whatever `next` it had |
| SlabMemory.SlabMemory.ThreadHeaders | libs/bi/bi_slab.c:77-80 | All headers know their slab and all but the last lead to the following one |
| SlabMemory.SlabMemory.Thread | libs/bi/bi_slab.c:65-82 | The chunk becomes a slab whose first nfree links run through all its headers; no other object changes |
| SlabMemory.SlabMemory.Take | libs/bi/bi_slab.c:169-174 | The first free object becomes the only new one handed out |
| SlabMemory.SlabMemory.Give | libs/bi/bi_slab.c:127-131 | The object becomes the first free one; nothing else changes hands |
| SlabMemory.SlabMemory.AllFree | libs/bi/bi_slab.c:132-136 | When the count reaches the capacity the free list holds every object of the slab |
| SlabMemory.SlabMemory.NfreeBound | libs/bi/bi_slab.c:127-136 | The free count never exceeds the capacity |
| SlabMemory.SlabMemory.Conserved | include/bi_slab.h:95-97 | Objects handed out plus free objects are slabs times capacity, for any set of slabs |
| SlabMemory.SlabMemory.LiveApart | include/bi_slab.h:92-101 | Objects handed out never overlap and lie inside their slab behind its header |
| BiSlab.Spacing | include/bi_slab.h:92-94 | The object spacing over all word sizes: right, then zero, then one cache line |
| BiSlab.AcceptedExactly | libs/bi/bi_slab.c:195-205 | The assertion at creation admits a size if and only if size and header stay a cache line below a chunk, or come within a cache line of the top of the word or over it |
| BiSlab.AcceptedFits | libs/bi/bi_slab.c:195-205 | Of the admitted sizes a slab has room for an object if and only if size and header stay a slab header below a chunk |
| BiSlab.AcceptedWithoutRoom | libs/bi/bi_slab.c:195-205 | A size from each of the three admitted families without room |
| BiSlab.SortedFull | libs/bi/bi_slab.c:176-181 | A slab that lost its last free object belongs on el, and the sorting of all others stands |
| BiSlab.SortedBack | libs/bi/bi_slab.c:137-145 | A slab with a first free object again belongs on fl |
| BiSlab.SortedGone | libs/bi/bi_slab.c:132-136 | A slab given back leaves no trace on either list |
| BiSlab.SlabInfo.Alloc | libs/bi/bi_slab.c:151-185 | Hands out the first free object of the first slab of fl, or of a fresh chunk only when fl is empty; fl holds exactly the partly free slabs and el exactly the full ones; what others hold of the pool is untouched; fails only when fl and the pool are empty |
| BiSlab.SlabInfo.Free | libs/bi/bi_slab.c:109-149 | Frees exactly that object, which is the next its slab hands out; a slab with an object free again is the first of fl; the lists are right afterwards if and only if slabs hold more than one object or the slab is not the first of el |
| BiSlab.OneToASlab | libs/bi/bi_slab.c:132-136 | With objects of 600000 bytes, one allocation and one free leave el pointing into the pool |
| PsSlab.PlacedQueued | mc_code/2pc_mc/servers/ps_global.h:76-84 | Enqueuing a remote free keeps every object in exactly one place, every queue linked to NULL and owned by its core |
| PsSlab.PlacedDetached | mc_code/2pc_mc/servers/ps_global.h:99-107 | Taking over a queue moves exactly its objects to the list being drained |
| PsSlab.PlacedPopped | mc_code/2pc_mc/servers/ps_slab.c:171-176 | The first detached object comes off, and the saved `next` leads on |
| PsSlab.SortedStep | mc_code/2pc_mc/servers/ps_slab.h:171-185 | A change at one slab of a core keeps every list of every core right |
| PsSlab.PsMem.AllocStep | mc_code/2pc_mc/servers/ps_slab.h:205-232 | Hands out the first free object of the first slab on the core's list, or of fresh memory only when there is no such slab; fails only when it gets no memory then |
| PsSlab.PsMem.FreeHere | mc_code/2pc_mc/servers/ps_slab.h:165-188 | The object is free and the next its slab hands out; a slab with an object free again becomes the first of the list; only that slab is given back, and only if entirely free |
| PsSlab.PsMem.RemoteFree | mc_code/2pc_mc/servers/ps_slab.c:128-142 | The object joins the queue of the core that owns it, whatever every other core is doing |
| PsSlab.PsMem.Detach | mc_code/2pc_mc/servers/ps_slab.c:162-166 | The queue is taken over whole and left empty |
| PsSlab.PsMem.DrainOne | mc_code/2pc_mc/servers/ps_slab.c:171-176 | Frees the first detached object, whose slab is still in use when its header is read |
| PsSlab.PsMem.RemoteProcess | mc_code/2pc_mc/servers/ps_slab.c:152-177 | Frees exactly one queue, the first that is not empty in turn, or none when all are empty; the turn moves on behind it |
| PsSlab.PsMem.Tick | mc_code/2pc_mc/servers/ps_slab.h:200-203 | Exactly with every batch-th allocation one queue is freed, as the search for it finds it; objects with the program stay with the program |
| PsSlab.PsMem.IsFree | mc_code/2pc_mc/servers/ps_slab.h:154-157 | The assertion notices exactly the frees of free objects; a second free of a queued object passes |
| PsSlab.QueuedOnce | mc_code/2pc_mc/servers/ps_global.h:76-84 | After a remote free every object can have one place only if the program held the object freed |
| PsSlab.FreedOnce | mc_code/2pc_mc/servers/ps_slab.h:165-169 | The same after a free by the owner |
| PsSlab.PsMem.MemFree | mc_code/2pc_mc/servers/ps_slab.h:143-189 | A free object stops the program; an object of the program becomes free, or queued for its owner |
| PsSlab.PsMem.QueuedCount | mc_code/2pc_mc/servers/ps_slab.c:87-111 | The lengths of a core's queues count the objects queued for it |
| PsSlab.PsMem.Balance | mc_code/2pc_mc/servers/ps_slab.c:87-111 | With the program, queued, being drained and free objects of a core add up to its slabs times capacity |
| Malloc.GetIndex | libs/mem/bi_malloc.c:61-68 | The shift loop computes the bit length of the masked size |
| Malloc.ClassFits | libs/mem/bi_malloc.c:10-13 | For every size from 1 to 32768 the class is the least that holds it, and the block size is in the same class again |
| Malloc.NeedCovers | libs/mem/bi_malloc.c:157-175 | The need covers the request and its header if and only if adding the header does not wrap around |
| Malloc.NeedTooSmall | libs/mem/bi_malloc.c:157-175 | A request 23 bytes below the top of the word gets 64 bytes |
| Malloc.TilesPartition | libs/mem/bi_malloc.c:70-80 | Every address handed out by the bump pointer lies in exactly one block |
| Malloc.TiledAppendCells | libs/mem/bi_malloc.c:111-117 | Cutting a memory block extends the tiling by equal cells |
| Malloc.CellsFill | libs/mem/bi_malloc.c:113-117 | For every class the cells fill the memory block without remainder |
| Malloc.CutLeads | libs/mem/bi_malloc.c:113-128 | The stores of a cut leave all cells but the first leading on into the list that was there, and nothing else changed |
| Malloc.ListedCut | libs/mem/bi_malloc.c:118-128 | So the other lists stand and the own list has grown by the cells |
| Malloc.ListedPush | libs/mem/bi_malloc.c:82-94 | A freed block goes to the front of the list of its own class; all other lists stand |
| Malloc.ListedPop | libs/mem/bi_malloc.c:131-136 | An allocated block comes off the front of the list of its own class |
| Malloc.Heap.Mmap | libs/mem/bi_malloc.c:70-80 | Succeeds exactly below the end of the area or when the addition wraps around, and then the bump pointer has moved backwards |
| Malloc.Heap.Reserve | libs/mem/bi_malloc.c:107-111 | A fresh memory block becomes cells that belong to the caller alone |
| Malloc.Heap.Cut | libs/mem/bi_malloc.c:113-129 | All cells but the first join their list as it is by then; blocks of others are untouched |
| Malloc.Heap.SmallMalloc | libs/mem/bi_malloc.c:96-137 | The first block of the list of its class, with no fresh memory used; a fresh memory block is cut only for an empty list; all other blocks stay what and where they are |
| Malloc.Heap.Free | libs/mem/bi_malloc.c:139-155 | Only that block changes state: small ones are free again at the front of their list, under the list id and class they always had, large ones are never used again |
| Malloc.Heap.ReachStays | libs/mem/bi_malloc.c:157-175 | A test a caller can make beforehand that the bump pointer will not wrap around |
| Malloc.Heap.Alloc | libs/mem/bi_malloc.c:157-180 | For every request: the first block of the list, or fresh memory if that is empty, with the bump pointer moved by exactly what is fresh; a block not with anybody else, of which list id and class are kept for life, in an area that stays tiled if and only if the bump pointer does not wrap around; it covers the request if and only if adding the header does not; stopped exactly when the area is used up |
| Malloc.Overlap | libs/mem/bi_malloc.c:70-80 | A request of 2^64 - 25 bytes succeeds, and the next fresh memory block overlaps its block |
| Malloc.Heap.LiveApart | libs/mem/bi_malloc.c:70-80 | Blocks never overlap and lie between the start and the bump pointer |
| Malloc.FreeThenAlloc | libs/mem/bi_malloc.c:96-180 | What is freed is what the next call for its class and list gets, at the same address and without fresh memory |
| JenkinsHash.MixReversible | mc_code/bi_mc/jenkins_hash.c:79-87 | mix is a bijection on triples of words: the explicit inverse undoes it both ways |
| JenkinsHash.FinalReversible | mc_code/bi_mc/jenkins_hash.c:114-123 | final is a bijection as well |
| JenkinsHash.AddWordAdds | mc_code/bi_mc/jenkins_hash.c:169-184 | A masked word read adds exactly the key bytes at that offset |
| JenkinsHash.AddHalvesAdds | mc_code/bi_mc/jenkins_hash.c:223-251 | So do the half-word reads with an odd last byte |
| JenkinsHash.AddBytesUpAdds | mc_code/bi_mc/jenkins_hash.c:260-271 | So do four bytes, lowest first |
| JenkinsHash.AddBytesDownAdds | mc_code/bi_mc/jenkins_hash.c:277-293 | So do the fall-through byte additions, highest first |
| JenkinsHash.HashWords | mc_code/bi_mc/jenkins_hash.c:140-184 | The word path returns the hash of the key; bytes of memory beyond it have no influence |
| JenkinsHash.HashHalves | mc_code/bi_mc/jenkins_hash.c:206-251 | The half-word path returns the same value |
| JenkinsHash.HashBytes | mc_code/bi_mc/jenkins_hash.c:253-294 | The byte path returns the same value |
| JenkinsHash.JenkinsHash | mc_code/bi_mc/jenkins_hash.c:125-298 | Whatever the address, the result is the same function of the key bytes alone |
| JenkinsHash.KnownAnswers | mc_code/bi_mc/jenkins_hash.c:125-298 | At every address, five known keys have their known hashes |
| JenkinsHash.AnswerNone | mc_code/bi_mc/jenkins_hash.c:125-298 | The empty key hashes to deadbeef |
| JenkinsHash.AnswerOne | mc_code/bi_mc/jenkins_hash.c:125-298 | The hash of "a", by its bytes |
| JenkinsHash.AnswerSeven | mc_code/bi_mc/jenkins_hash.c:125-298 | The hash of "abcdefg" |
| JenkinsHash.AnswerEleven | mc_code/bi_mc/jenkins_hash.c:125-298 | The hash of "abcdefghijk", with all three words used |
| JenkinsHash.AnswerFour | mc_code/bi_mc/jenkins_hash.c:125-298 | The published hash of the thirty-byte key "Four score and seven years ago" |

## Left out

- CbTree.Writer.MkNode: the initialising stores of a node nobody can reach yet are one step.
- CbTree.Writer.TreeBBNewNode: a failed allocation, which stops the program.
- CbTree.Writer.TreeBBFreeNode: does not model the 1024-entry limit of the free buffer, because an operation discards at most three nodes a level and one more, so the limit is kept by all trees of height up to 341.
- CbTree.Writer.MkBalanced: sizes are unbounded integers; `WEIGHT * size` is assumed to fit an int.
- Weight balance and height bounds of the tree are not claimed: the code does not keep them (left size 8 and right size 33 with children 16 and 16, the inner one 12 and 3, make a node over 3 and 16).
- The debugging block inside TreeBB_Find, printing and logging.
- Cache-line write-backs, flushes, prefetching and lazily dereferenced stale tree pointers; table copies and ring indices are where staleness is modelled.
- TreeRuns.TreeBB_Find: endless interference, under which a search need not end.
- TimedSmr.ReturnIsSafe: the scan visits cores in index order; the order does not matter to the minimum.
- ReclaimRuns.ReclaimAsSteps: the run it gives has no step of others in between; the theorems of `TimedSmr` are about every interleaving.
- Progress.AnsweredInTime: that a server goes on taking and handling messages is the scheduler's part.
- The write-ahead log rings, wlog flush and reclaim, and the free marks bi_smr_free leaves in headers.
- SafeReads.CbFind: answers the value; the original hands out a pointer into the node, which its caller may follow after bi_exit, where nothing protects it. The assertion on the value read speaks about the caller's choice of values and is left out.
- TwoPhase.StartGet: GETs are local reads; linearizability across the servers is not claimed and does not hold.
- Assoc.Table.Set: item headers, LRU order, the length of values (all alike in the shipped clients) and the spin on a failed item allocation are not modelled; a message carries the hash of its key.
- KEY_SKEW eviction, MC_BEGIN and MC_EXIT, status counters, latency tracking and the page balancer.
- Rpc.Direction.RpcSend: the message counter is unbounded, an int in the original; the polling order over senders is any order.
- BiSlab.SlabInfo.Alloc: one object size a value of the class; several share a pool, and the contract says that each leaves what the others hold alone.
- SlabMemory.SlabMemory.Thread: the memory base of a slab is the slab itself, as both default allocators make it.
- PsSlab.PsMem.AllocStep: the system's allocator answers memory apart from all slabs in use; the shipped platform layer fixes one core and one locality, and the model has any number.
- PsSlab.PsMem.MemFree: excludes a second free of a queued or detached object, because after it no state is consistent; `PsSlab.QueuedOnce` and `PsSlab.FreedOnce` prove this.
- Malloc.Heap.Alloc: when the bump pointer has wrapped around, what the stores to cells past the top of the address space do.
- Malloc.Heap.Mmap: the compare-and-swap loop is its one successful round.
- JenkinsHash.JenkinsHash: the big-endian variant and the variant for memory checkers are compiled out.
- mmap, files, threads, affinity, traces, benchmarks, drivers, and the variants on library RCU and MCS locks.

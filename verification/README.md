# Cenix in Dafny

Cenix is a small capability microkernel with a compacting heap. This project models its hard parts
and proves what they keep, undo and compute, over every input, every reachable state and every run.

| part | modules | what is proved |
|---|---|---|
| relocating heap | `HeapBlocks`, `HeapSearch`, `HeapEvacuation`, `HeapClaim`, `HeapRelease`, `KernelHeap`, `HeapRuns` | the blocks tile the region at all times; every allocation survives every call, at any depth of recursion and also on failure, and its owner knows where it is; which blocks an allocation and a release leave; when an allocation succeeds, when it fails, and the one state in which it never returns |
| capability trees | `WordBits`, `CapabilityTree` | where the slots of nested nodes are, what a packed address leads to, exactly as long as it fits a word, and what moving a node does to all that lies in it |
| capability lists | `SlotLists`, `ResourceLists`, `Derivations`, `CapabilityTable`, `NodeMoves` | one table with both lists of each capability, changed link by link: what copy, move, delete and revoke do to the resource lists and to the two-level derivation tree; exactly when the lists survive a move of a node's block |
| heap, lists and trees | `CapabilityHeap`, `CapabilitySystem`, `LookUpLocks` | one state with heap, capability lists and trees: every operation keeps that each block header has the address of the first capability of its resource and that each capability is found under the address it stores, or exactly when it does; after any allocation every capability points at the block that carries on its allocation, unless a node that is linked with itself moved; locks are restored |
| IPC and scheduler | `KernelState`, `KernelInvariants`, `KernelCalls`, `KernelRuns`, `ThreadQueues`, `Kernel` | what each call and each context switch does to every field; invariants of every run of traps; the i-th send meets the i-th receive, which gets the bytes in the sender's buffer and the badge; a queued thread is dispatched in a bounded number of switches; a machine with a linked run queue does the same over every run in which no stale head is suspended |
| intrusive lists | `ContainerLists`, `ContainerlessLists` | the pointer macros refine operations on sequences, or exactly when they do |
| fast forms and formats | `Memory`, `Jax`, `InitrdFs`, `Bflt`, `MountIndex` | overlapping word-wise copy, the archive round trip, directory listing, simultaneous relocation, a hash index that agrees with a list |

The main theorems are `KernelHeap.Heap.HeapAlloc` with `HeapEvacuation.RoundRelocated`,
`CapabilitySystem.System.Allocate` with `CapabilityHeap.CapabilitiesFollow`, `NodeMoves.RenewedIff` and `NodeMoves.FamilyIff`,
`CapabilitySystem.System.UpdateAddresses` with `CapabilityTree.OnwardLeads`, `CapabilitySystem.System.Transfer`,
`CapabilitySystem.System.NodeMove` with `CapabilityTree.LeftBehind`, `CapabilitySystem.System.NodeDelete`,
`CapabilitySystem.System.NodeRevoke`, `LookUpLocks.LocksRestored`,
`KernelCalls.CallDoes`, `KernelRuns.RunPairs`, `KernelRuns.PairMeets`, `KernelRuns.DispatchBound`, `Kernel.Machine.Run`, `Memory.Memcpy`, `Jax.RoundTrip`,
`InitrdFs.List`, `Bflt.LoadedGot`, `Bflt.TwoBases` and `MountIndex.Namespace.Find`.

State that the kernel changes in place is a class whose methods are proved against functions on values;
the properties are lemmas about those functions. What an operation does is besides stated on the fields of the state
before and after it, by relations that no operation is defined with: `HeapSearch.Cut`, `HeapClaim.Carved` and
`HeapRelease.Returned` on block headers, `CapabilityTable.CopiedTo`, `MovedTo`, `DeletedFrom`, `RevokedFrom`, `NewIn` and
`PointedTo` on capabilities, `KernelCalls.Called`, `KernelCalls.Switched` and `KernelCalls.Arrives` on threads, queues
and messages. Machine words are 32 bits wide and big-endian, as on the
68000; wrap-around is written out where it can happen (`KernelHeap.RoundSize`, `WordBits.Word`,
`Jax.Advance`, `Bflt.Place.Address`). A block header is 26 bytes and writing one overwrites the bytes it covers.

Where the code does not do what its comments say, the exact condition under which the promise holds is
proved, and an input on which it fails is given:

- the search of `heap_alloc` repeats itself for ever when it meets a movable block larger than free memory
  (`KernelHeap.BaseStuck`); it never fails to return in any other state (`KernelHeap.Heap.HeapAlloc`), and two
  calls lead into that one (`KernelHeap.StuckRun`);
- `heap_alloc` can fail although a free block fits (`HeapRuns.FragmentedRun`), and although a run could be vacated, because
  after a run with too much to move the search begins again with the last block of that (`HeapRuns.SkippedRun`); when no run
  is too much to move, the search is first fit (`HeapSearch.FirstFit`);
- rounding a request wraps around near the top of the word, and the block is then too small
  (`KernelHeap.ServedPayload`);
- `heap_free` leaves a well-formed list if and only if the next block is not available
  (`KernelHeap.Heap.HeapFree`);
- the address of a slot deeper than a word may be that of another slot: a slot is found under what it stores
  if and only if its packed address fits a word (`CapabilityTree.OnwardLeads`, `CapabilitySystem.System.SetRoot`); five
  nested nodes of seven bits suffice for a collision (`CapabilityTree.CollisionExample`);
- `node_copy`, `node_move` and an IPC transfer do not clear the bits of an address beyond its depth: the new address leads
  to the capability exactly under `CapabilitySystem.Reached` and `CapabilitySystem.Leads`, which come down to
  fitting a word when there are no such bits (`CapabilitySystem.ReachedIff`, `CapabilitySystem.LeadsIff`);
- after a transfer to an address without a depth, a node is not found under what it stores (`CapabilitySystem.System.Transfer`);
- `node_move` renews only the address of the moved capability: whatever lies in a moved node is no longer found under
  what it stores (`CapabilityTree.LeftBehind`), so that all stays well if and only if the capability is no node, or one
  without occupied slots that does not move into itself (`CapabilitySystem.System.NodeMove`);
- `set_root_node` overwrites a root that the thread already has (`CapabilitySystem.System.SetRoot`);
- when the heap moves a node, `on_node_moved` renews its slots one by one: a list survives if and only if no two neighbours
  are in the node and its first and last element, if they are, come after all others; the pointers between a
  capability and its derivations survive if and only if moreover the first derivation is not in the node of its
  parent and the others there come before it (`NodeMoves.RenewedIff`, `NodeMoves.FamilyIff`). An original and its only
  copy in one node suffice for a failure (`NodeMoves.TwoInOneNode`, `CapabilitySystem.PairTorn`). An allocation leaves
  every capability pointing at its block unless it moved such a node (`CapabilitySystem.System.Allocate`);
- `node_copy` and `node_move` do not refuse an empty source slot, and then splice the empty destination into
  whatever lists the old links lead to (`CapabilitySystem.System.NodeCopy`, `CapabilitySystem.System.NodeMove`,
  `CapabilityTable.Table.Splice`); with an occupied source slot, which a caller can check, the lists stay consistent;
- `node_delete` leaves a consistent derivation tree if and only if the capability has no derivations; for a
  badged copy that has some and is not alone on its list it never returns (`CapabilityTable.Table.Remove`,
  `CapabilityTable.MergeEnds`, `ContainerlessLists.SpliceBeforeLast`, `ContainerlessLists.WalkOn`); for a node it deletes
  everything in it too (`CapabilitySystem.System.NodeDelete`);
- `LIST_REMOVE` and `LIST_UPDATE_ADDRESS` fail on the new head after a `LIST_POP_FROM_START`
  (`ContainerLists.Remove`, `ContainerLists.UpdateAddress`), so a suspended thread can run
  (`Kernel.Machine.SuspendedThreadRuns`). `KernelState.Suspend` is the repaired suspension, which takes the
  thread out of its queue; `Kernel.Machine` works on the linked queue, `Kernel.Machine.SuspendThread` says when the two
  agree, and `Kernel.Machine.Run` that they agree over a whole run if and only if no step is unsafe;
- `LIST_INSERT_NO_CONTAINER` drops elements from the fourth on (`ContainerlessLists.Insert`,
  `ContainerlessLists.InsertAll`). The capability lists are stated for its documented effect;
  `ResourceLists.CopyByMacro` and `Derivations.CopyByMacro` say exactly when the macro has it, and
  `CapabilitySystem.System.NodeCopy` reports whether a copy leaves the list of its resource linked both ways, which it
  does if and only if the source was the only capability for it;
- `write_registers` on the running thread is lost at the next context switch (`KernelRuns.StepContexts`);
- the archive reader loses a last record without data (`Jax.RoundTrip`), trusts a size field that it should
  not (`Jax.ParseInBounds`), which can take a search round in circles or out of the image (`Jax.Iterator.Find`), and finds
  a file by a prefix of its name (`Jax.FirstNamed`);
- directory entries outside the root carry two bytes too many (`InitrdFs.ReportedExactly`), and opening a
  file compares one byte of its description length (`InitrdFs.OpensExactly`);
- a word with two relocation entries is relocated twice (`Bflt.PatchTwice`), a relocation whose address wraps around to
  NULL is skipped (`Bflt.SkippedFlat`, `Bflt.SkippedGot`), and the loader writes outside the allocation exactly when another relocation or
  a table without an end mark makes it (`Bflt.Load`).

Verify with `dafny verify dfyconfig.toml`.

## Model

| member | source | states |
|---|---|---|
| `HeapBlocks.UsedIsLiveBytes` | core/kernel/heap.c:206-210 | in every state between operations, `used_memory` is the sum of the sizes of the immovable and movable blocks |
| `HeapBlocks.TiledTotal` | core/kernel/heap.c:193-411 | the sizes of the linked blocks up to any block add up to the region they cover: no gap, no overlap |
| `HeapBlocks.SplitTiled` | core/kernel/heap.c:10-33 | splitting a block keeps the tiling and both directions of every link |
| `HeapBlocks.SplitBytes` | core/kernel/heap.c:10-33 | how a split changes the bytes of each kind |
| `HeapBlocks.MergeTiled` | core/kernel/heap.c:384-391 | turning a run into one block keeps the tiling and the links |
| `HeapBlocks.RelocatedThen` | core/kernel/heap.c:302-381 | relocations compose: what each nested call carries on is carried on by the whole |
| `HeapBlocks.RelocatedOwned` | core/kernel/heap.c:349-372 | after any relocation every owner points at the payload of its block |
| `HeapSearch.ScanAdvances` | core/kernel/heap.c:220-261 | one iteration of the search, in every case: it advances start or end, finds a run that can be evacuated, gives up only when nothing was missed, or stands on an oversized block |
| `HeapSearch.ScanOutcome` | core/kernel/heap.c:220-261 | wherever the search stands, what it goes on to return is right: a found run fits and can be evacuated, nothing was missed, or it stands on an oversized block |
| `HeapSearch.FitIsFree` | core/kernel/heap.c:212-218 | without movable blocks, a request for which a run exists is never refused for lack of free memory |
| `HeapSearch.FirstFit` | core/kernel/heap.c:220-261 | if no run would have more to move than there is room for elsewhere, the search ends with the run that ends first, from where that can begin first, and fails only if no run is long enough |
| `HeapSearch.SplitCuts` | core/kernel/heap.c:268-282 | the end of the found run is cut where the request ends: exactly if its last block is available and both parts are larger than a header, that keeps its part of the request and an available block of the rest follows |
| `HeapSearch.CutUnique` | core/kernel/heap.c:268-282 | which leaves one possible list of headers |
| `HeapEvacuation.RunStays` | core/kernel/heap.c:284-320 | a nested allocation leaves the pinned run untouched and puts no header inside it |
| `HeapEvacuation.RoundRelocated` | core/kernel/heap.c:302-381 | one round, seen with the pins undone, carries every allocation on: kind, owner, contents, and the address of every immovable one |
| `HeapEvacuation.RoundOwned` | core/kernel/heap.c:349-372 | after the round every movable block, moved or still to move, is known to its owner |
| `HeapEvacuation.RoundCount` | core/kernel/heap.c:302-381 | the number of movable blocks, pins undone, is the same after the round |
| `HeapEvacuation.FailRelocated` | core/kernel/heap.c:322-338 | a failed nested allocation, with everything it moved, loses no allocation |
| `HeapEvacuation.EvacuatingUndone` | core/kernel/heap.c:322-338 | undoing the pins gives every block that was not moved its kind back and loses nothing |
| `HeapEvacuation.NestedSmaller` | core/kernel/heap.c:312-317 | the nested call starts with strictly fewer movable blocks than its caller had |
| `HeapClaim.SplitAvailable` | core/kernel/heap.c:268-282 | splitting the available end of the run changes no allocation and no byte count |
| `HeapClaim.ClaimedRelocated` | core/kernel/heap.c:384-401 | claiming the vacated run disturbs no allocation outside it |
| `HeapClaim.ClaimedLive` | core/kernel/heap.c:384-401 | the claimed block is the only new allocation |
| `HeapClaim.ClaimBytes` | core/kernel/heap.c:384-395 | the byte count after claiming, whether or not blocks had to move |
| `HeapClaim.ClaimedCarved` | core/kernel/heap.c:384-401 | the headers after claiming a run: one immovable block of the size served, an available one of the rest exactly if that is larger than a header, every other as it was |
| `HeapRelease.BackwardAbsorbs` | core/kernel/heap.c:430-439 | the backward merge of a well-formed list is well-formed and keeps the free bytes |
| `HeapRelease.ForwardBreaks` | core/kernel/heap.c:419-428 | once the next block was swallowed but stays linked, no backward merge makes the list well-formed |
| `HeapRelease.BackwardReturns` | core/kernel/heap.c:413-440 | the headers after a release: the block is available, or part of the available one before it, every other as it was |
| `KernelHeap.RoundSize` | core/kernel/heap.c:194 | a multiple of four that holds payload and header with less than four bytes to spare, unless the sum wraps around |
| `KernelHeap.ServedPayload` | core/kernel/heap.c:194 | the returned block has room for the request if and only if rounding did not wrap around |
| `KernelHeap.BaseStuck` | core/kernel/heap.c:241-252 | whenever the first block is movable and larger than free memory, every request that free memory could hold stays in the search for ever |
| `KernelHeap.StuckRun` | core/kernel/heap.c:241-252 | two allocations and an unlock on a fresh heap: the second never returns, although the free block would serve it |
| `KernelHeap.ServedFirst` | core/kernel/heap.c:220-261 | if no run is too much to move, the block that serves a request begins the run that ends first |
| `HeapRuns.CutRun` | core/kernel/heap.c:268-282 | a run of calls on a fresh heap in which only what is cut off the end of the run has room for the block that must move: the last request is served, at the first block |
| `HeapRuns.FragmentedRun` | core/kernel/heap.c:302-338 | a run of calls on a fresh heap after which a request fails although either of two free blocks fits it |
| `HeapRuns.FragmentedFails` | core/kernel/heap.c:302-338 | the same of every heap with such blocks |
| `HeapRuns.SkippedRun` | core/kernel/heap.c:241-252 | a run of calls on a fresh heap after which a request fails because the search begins again with the last block of a refused run |
| `HeapRuns.SkippedFits` | core/kernel/heap.c:241-252 | in that heap a run is long enough that the search skipped, and the one block in it that must move has a home outside |
| `KernelHeap.Heap.FindRun` | core/kernel/heap.c:206-261 | the loop returns what Scan says: a found run has no immovable block, is long enough but not without its last block, and its contents fit the free memory elsewhere; a stuck search stands on a movable block larger than free memory and no other outcome passes one; an exhausted search missed no single free block, and no run at all when nothing is movable |
| `KernelHeap.Heap.SplitHeader` | core/kernel/heap.c:10-33 | splits if and only if both parts are larger than a header; other payloads are kept |
| `KernelHeap.Heap.MarkRun` | core/kernel/heap.c:285-300 | pins the run, remembers the kinds, keeps tiling, accounting and payloads |
| `KernelHeap.Heap.RestoreRun` | core/kernel/heap.c:323-335 | gives every block of the run its remembered kind back, with the byte count |
| `KernelHeap.Heap.MoveBlock` | core/kernel/heap.c:340-374 | the payload is a prefix of the new payload, the owner points at the new block and was told so, nobody else was told, other payloads stay |
| `KernelHeap.Heap.EvacuateBlock` | core/kernel/heap.c:302-376 | a round succeeds, fails with nothing lost, or diverges, and then only with a movable block larger than free memory; if nothing else is movable it succeeds exactly when a home exists |
| `KernelHeap.Heap.EvacuateRun` | core/kernel/heap.c:302-382 | afterwards no block of the run is movable, or the heap is as before up to relocation, or it is stuck on an oversized block; for a single movable block exactly when it has a home |
| `KernelHeap.Heap.MergeRun` | core/kernel/heap.c:384-391 | the run is one immovable block, payloads outside are kept |
| `KernelHeap.Heap.ClaimRun` | core/kernel/heap.c:384-401 | one immovable block of the requested size, at most a header more, and an available one of the rest; every other header is as it was but for links; `used_memory` is exact |
| `KernelHeap.Heap.TakeRun` | core/kernel/heap.c:284-411 | serves the request or fails with nothing lost, or is stuck on an oversized block; exactly when, if nothing or only one block is movable |
| `KernelHeap.Heap.CutEnd` | core/kernel/heap.c:268-282 | cuts the end of the run where the request ends, and nothing else; every allocation stays |
| `KernelHeap.Heap.ServeFrom` | core/kernel/heap.c:263-411 | the same from the found run on: its last block is cut where the request ends before the run is evacuated, so that the rest can be a home; the exact size of the block that serves, and if nothing had to move the exact headers |
| `KernelHeap.Heap.HeapAlloc` | core/kernel/heap.c:193-411 | from any well-formed heap, at every level of recursion: the result is well-formed, every allocation survives with its contents, immovable ones in place; success yields a fresh immovable block of at least the rounded size, at the run that the search finds, and if nothing had to move the exact headers; NULL restores all, and comes always when the search is exhausted; it fails to return only in a state with a movable block larger than free memory, and always when the search stands on one; without movable blocks it succeeds if and only if a run exists, with a single one that is not oversized if and only if a run is found and that block, if it is in the way, has a home once the end of the run is cut off where the request ends; the movable count is kept |
| `KernelHeap.Heap.constructor` | core/kernel/heap.c:57-63 | one contiguous available block is a well-formed heap |
| `KernelHeap.Heap.Allocate` | core/kernel/heap.h:80-81 | as HeapAlloc, and every owner knows its block; the notices in order account for all that the owners know, and only owners of allocations were told; the payload fits if and only if the size did not wrap |
| `KernelHeap.Heap.Lock` | core/kernel/heap.h:86-99 | reports true exactly when the block was movable; only its kind changes |
| `KernelHeap.Heap.Unlock` | core/kernel/heap.h:101-105 | makes the block movable and changes nothing else |
| `KernelHeap.Heap.SetRef` | core/kernel/heap.h:123-155 | the header names the owner, which points at the block; list, accounting and payloads are kept whatever other owners know |
| `KernelHeap.Heap.SetUpdateRef` | core/kernel/heap.h:123-155 | the new owner points at the block; every owner goes on knowing its own block if and only if no other block names this one |
| `KernelHeap.Heap.HeapFree` | core/kernel/heap.c:413-440 | ends in a well-formed list if and only if the next block is not available; then exactly that allocation is gone, the headers are the old ones with the block available or part of the available one before it, and `used_memory` is less by its size |
| `WordBits.ShiftOr` | core/kernel/capabilities.c:148-158 | the shifted index or-ed with the address, on words, is their sum cut off at the word |
| `WordBits.OrTwice` | core/kernel/capabilities.c:148-158 | two indices or-ed onto an address one after the other, cut off at the word each time, are the same as both at once |
| `WordBits.OrBits` | core/kernel/capabilities.c:148-158 | each bit of an address with an index or-ed onto it is set exactly if it is in either |
| `CapabilityTree.WayDown` | core/kernel/capabilities.c:465-499 | going down from a node towards any slot under it, the next slot on the way is occupied and its packed address is a beginning of that of the slot |
| `CapabilityTree.OneSpot` | core/kernel/capabilities.c:448-500 | no two slots, occupied or not, are at the same depth of the same packed address |
| `CapabilityTree.NothingThere` | core/kernel/capabilities.c:478-484 | when look-up gives up at a node, no slot anywhere is at the address |
| `CapabilityTree.FirstLeaf` | core/kernel/capabilities.c:469-476 | the first slot on the way that holds no node is the only occupied one on the way that holds none |
| `CapabilityTree.AddressOnce` | core/kernel/capabilities.c:816-835 | one stored address leads to at most one capability, with or without a depth |
| `CapabilityTree.PlacesUnique` | core/kernel/capabilities.c:448-500 | the nodes and what is in them leave no choice of where slots are |
| `CapabilityTree.WordLeads` | core/kernel/capabilities.c:448-500 | the packed address of a slot, cut off at the word, leads to it if and only if it fits a word, as it does whenever its depth is at most 32 |
| `CapabilityTree.OnwardLeads` | core/kernel/capabilities.c:121-162 | once a slot has an address that leads to it, the address that the recursion computes for anything under it leads there if and only if the packed address fits a word |
| `CapabilityTree.OnwardChild` | core/kernel/capabilities.c:147-160 | the recursion through a slot of a node computes the same address as the closed form from above |
| `CapabilityTree.ContinuedLeads` | core/kernel/capabilities.c:271 | the address that node_copy and node_move compute leads to the slot if and only if its low bits are the packed address, which without bits beyond the depth means that this fits a word |
| `CapabilityTree.SlotsCollide` | core/kernel/capabilities.c:121-162 | beyond the word, slots of a node that differ by a multiple of what is left of the word get the same address |
| `CapabilityTree.CollisionExample` | core/kernel/capabilities.c:121-162 | in five nested nodes of seven bits, slots 0 and 16 of the innermost get the same address, and it leads to slot 0 |
| `CapabilityTree.Transplanted` | core/kernel/capabilities.c:32-36 | when a capability moves to a free slot outside itself, everything in it goes along, and the places of all are the old ones with the beginning replaced |
| `CapabilityTree.LeftBehind` | core/kernel/capabilities.c:301-315 | after a move inside a tree, whatever lies in a moved node is not found under the address that led to it before |
| `CapabilityTree.IntoItself` | core/kernel/capabilities.c:283-320 | a node that moves into itself is in no tree any more |
| `ResourceLists.CopyConsistent` | core/kernel/capabilities.c:164-176 | a copy that stores any address keeps: each capability is on the list of its resource and points at its block, and the header has the address that the first on the list stores |
| `ResourceLists.CopyByMacro` | core/kernel/capabilities.c:164-176 | with LIST_INSERT_NO_CONTAINER as it is, a copy keeps that if and only if the last capability on the list points back at the one before it |
| `ResourceLists.MoveConsistent` | core/kernel/capabilities.c:32-36 | so does a move, before the address is renewed |
| `ResourceLists.ReaddressConsistent` | core/kernel/capabilities.c:122-140 | so does a new address, which the header gets too if the capability is the first on its list |
| `ResourceLists.PopulateConsistent` | core/kernel/capabilities.c:624-644 | so does the first capability for a new resource |
| `ResourceLists.DeleteConsistent` | core/kernel/capabilities.c:76-103 | so does a deletion, with the hand-over to the next in the list |
| `ResourceLists.BlockMoveConsistent` | core/kernel/capabilities.c:843-845 | so does the new address of a block |
| `ResourceLists.OnList` | core/kernel/capabilities.c:843-845 | the list of a resource holds exactly its capabilities |
| `Derivations.TwoLevels` | core/kernel/capabilities.c:182-197 | every capability that is not an original descends from one in at most two steps |
| `Derivations.AllDescend` | core/kernel/capabilities.c:347-391 | every other capability for the resource of an original descends from it |
| `Derivations.PopulateConsistent` | core/kernel/capabilities.c:624-630 | a new original for a fresh resource keeps the shape of the tree |
| `Derivations.CopyConsistent` | core/kernel/capabilities.c:164-207 | copies and badged copies keep the shape of the tree |
| `Derivations.CopyByMacro` | core/kernel/capabilities.c:182-197 | with LIST_INSERT_NO_CONTAINER as it is, if and only if the last derivation points back at the one before it |
| `Derivations.MoveConsistent` | core/kernel/capabilities.c:14-36 | a tree in which everything that named the source names the destination keeps its shape |
| `Derivations.RevokeConsistent` | core/kernel/capabilities.c:347-391 | so does a revocation |
| `Derivations.RevokedAlone` | core/kernel/capabilities.c:347-391 | a revoked original is the only capability for its resource |
| `CapabilityTable.WalkReaches` | core/kernel/capabilities.c:18-23 | the walk along the derivation pointer reaches every capability derived from the moved one, and no other |
| `CapabilityTable.PointsAt` | core/kernel/capabilities.c:25-29 | the only derivation pointer that leads to a capability is its parent's, and it does exactly when the capability is the first of its list |
| `CapabilityTable.MovedTree` | core/kernel/capabilities.c:14-36 | the link updates of a move rename the slot wherever the tree names it |
| `CapabilityTable.CopiedTree` | core/kernel/capabilities.c:178-207 | the link updates of a copy put it under the right parent: the source, or the source's own parent |
| `CapabilityTable.DeletedTree` | core/kernel/capabilities.c:67-73 | the link updates of a deletion take the slot off its parent's list and nothing else |
| `CapabilityTable.RevokedTree` | core/kernel/capabilities.c:347-391 | what the loops of a revocation leave is the tree without the descendants |
| `CapabilityTable.Table.CopyOccupied` | core/kernel/capabilities.c:164-207 | the copy joins the list of its resource and hangs under the right parent. Field by field: same resource and place, not an original, badged exactly if a badge is given, that badge or else the one of the source, the given address; every other capability keeps its fields, but that a parent without derivations learns of its first |
| `CapabilityTable.Table.Splice` | core/kernel/capabilities.c:250-271 | what copying or moving an empty slot does: consistent if and only if its memory leads to no list and to no parent |
| `CapabilityTable.Table.UpdateReferences` | core/kernel/capabilities.c:14-30 | sibling list, children and parent, step by step |
| `CapabilityTable.Table.MoveCapability` | core/kernel/capabilities.c:32-36 | both lists name the new slot in place of the old, the lists stay consistent; every field of every capability is as it was, but that the slot is renamed in derived_from and derivation; the stored address and the header are the old ones |
| `CapabilityTable.Table.Overwrite` | core/kernel/threads.c:141-142 | moving a capability over another leaves the list of the latter wrong |
| `CapabilityTable.Table.SetAddress` | core/kernel/capabilities.c:122-140 | the slot stores the address, and the header gets it exactly if the capability is the first on its list |
| `CapabilityTable.Table.DeleteCapability` | core/kernel/capabilities.c:76-104 | by the test of the resource list alone: the last capability frees the resource, the first hands it over to the next |
| `CapabilityTable.Table.Remove` | core/kernel/capabilities.c:38-104 | one deletion with its merge: consistent afterwards if and only if there were no derivations, and then every field of the others is as it was, but that a parent goes on to the next derivation; the resource goes exactly with an original; does not return exactly for a badged copy with derivations that is not alone on its list |
| `CapabilityTable.MergeEnds` | core/kernel/capabilities.c:49-64 | the splice of such lists, link by link, and the loop over them: it has not ended after any number of steps |
| `CapabilityTable.InsertLinks` | core/kernel/linked_list.h:119-140 | the macro run on any list, link by link: the documented list is linked both ways afterwards if and only if the list had one element |
| `CapabilityTable.Table.DeleteDerivations` | core/kernel/capabilities.c:375-388 | removes exactly what was derived in one step or two, leaves every field of the rest but the derivation pointer of the revoked capability, and never frees the resource, although each deletion decides that by the list; a revoked original is the only capability for its resource; only the header of that resource can change |
| `CapabilityTable.Table.Populate` | core/kernel/capabilities.c:624-644 | a new original that owns its resource: without badge, parent and derivations, at the given place and address; the others are as they were |
| `CapabilityTable.Table.BlockMoved` | core/kernel/capabilities.c:843-845 | every capability for the moved block, and no other, points at the new address, and no other field changes |
| `CapabilityTable.Table.NodeMoved` | core/kernel/capabilities.c:393-402 | renews every occupied slot of a moved node, link by link: some list is torn if and only if the node is not safe |
| `CapabilityTable.PairUnsafe` | core/kernel/capabilities.c:18-29 | a node that holds a capability and the first derived from it is not safe |
| `NodeMoves.Renew` | core/kernel/linked_list.h:142-162 | LIST_UPDATE_ADDRESS_NO_CONTAINER on the copy of one element when its neighbours may have been copied too: which links lead to copies afterwards |
| `NodeMoves.RenewedIff` | core/kernel/capabilities.c:393-402 | when all slots of the node were renewed in order, the list is well linked if and only if no two neighbours are in the node and its ends, if they are, came last |
| `NodeMoves.RenewList` | core/kernel/capabilities.c:393-402 | builds any list, copies the slots of the node at once, renews them in order and looks at the links: right if and only if safe |
| `NodeMoves.RenewChild` | core/kernel/capabilities.c:25-29 | a renewed first derivation tells the capability that its own derived_from names, moved or not |
| `NodeMoves.RenewParent` | core/kernel/capabilities.c:18-23 | the walk that sets derived_from reaches exactly the copies that were renewed before |
| `NodeMoves.FamilyIff` | core/kernel/capabilities.c:14-30 | the pointers between a capability and its derivations are right afterwards if and only if moreover the first derivation is not in the node of its parent and the others there were renewed before it |
| `NodeMoves.RenewFamily` | core/kernel/capabilities.c:393-402 | the same, built and renewed link by link |
| `NodeMoves.TwoInOneNode` | core/kernel/capabilities.c:393-402 | an original and its only copy in any two slots of one node: neither list nor pointers are right afterwards |
| `CapabilityHeap.OwnersApart` | core/kernel/heap.h:147-155 | while every owner knows its block, no two headers have the address of the same capability |
| `CapabilityHeap.HeardInStep` | core/kernel/capabilities.c:816-852 | over any sequence of notices, the tables have each resource where the first of its capabilities was told last |
| `CapabilityHeap.CapabilitiesFollow` | core/kernel/heap.c:349-374 | after any relocation with its notices the tables are consistent, the header of every block has the address of the first capability of its resource, and every capability points at the block that carries on its allocation |
| `CapabilityHeap.HeaderRenewed` | core/kernel/heap.h:147-155 | when a resource gets a new first capability, or that one a new address, and the header learns of it, headers and tables stay in step |
| `CapabilityHeap.HeaderAdded` | core/kernel/capabilities.c:638-644 | so they do when a new resource gets its first capability |
| `CapabilityHeap.HeaderFreed` | core/kernel/capabilities.c:92-99 | so they do when the block is freed with the last capability |
| `CapabilityHeap.ClashesEnd` | core/kernel/capabilities.c:121-162 | however the names of many headers clash while they are written one after the other, everybody knows its block in the end if the names differ then |
| `CapabilitySystem.System.constructor` | core/kernel/heap.c:57-63 | with a fresh heap and no capabilities all is well |
| `CapabilitySystem.System.LookUp` | core/kernel/capabilities.c:448-500 | finds the slot at the address, or the first on the way that is no node, and fails exactly when there is none; a failure leaves every lock as it was and a success locks at most the container |
| `CapabilitySystem.System.UnlockLookedUp` | core/kernel/capabilities.c:502-506 | unlocks the container exactly when the look-up locked it |
| `CapabilitySystem.FoundInvoked` | core/kernel/capabilities.c:854-879 | a node that is found for an invocation was looked up with a depth, and its place is the address cut off there, whatever bits follow |
| `CapabilitySystem.System.MidDecides` | core/kernel/capabilities.c:122-140 | once headers and lists agree, heap, lists and trees are all well if and only if every capability is found under what it stores |
| `CapabilitySystem.System.SetOne` | core/kernel/capabilities.c:122-140 | the header exactly if the capability is first on its list, and the slot; headers and lists still agree |
| `CapabilitySystem.System.UpdateAddresses` | core/kernel/capabilities.c:121-162 | everything under the slot stores the address that continues the given one, all other capabilities are unchanged, and the header of every resource whose first capability is among them has the new address |
| `CapabilitySystem.System.NodeCopy` | core/kernel/capabilities.c:231-281 | refuses bad and taken slots, nodes, and badges on copies of copies; else the copy joins its lists, as documented, with the badge that is given or else that of the source, badged exactly if one is given, no original, and stores the or-ed address; every other capability keeps its fields but for a first derivation; all stays well if and only if that address leads to it; the macro links the list both ways if and only if the source was the only capability for its resource; with an empty source all stays well if and only if its memory leads to no list |
| `CapabilitySystem.ReachedIff` | core/kernel/capabilities.c:271 | for an address without bits beyond its depth, the computed one leads to the slot if and only if the sum fits a word |
| `CapabilitySystem.System.NodeMove` | core/kernel/capabilities.c:283-320 | refuses bad and taken slots; else the slot is renamed everywhere, it stores the or-ed address and no other field of any capability changes; all stays well if and only if that address leads to it and it is no node or an empty one that does not move into itself, and exactly what lay in a moved node is no longer found |
| `CapabilitySystem.MovedWithin` | core/kernel/capabilities.c:301-315 | the same about the trees alone: a move into itself leaves no tree, any other the tree with the capability in its new place |
| `CapabilitySystem.System.MoveTree` | core/kernel/capabilities.c:32-36 | a capability with everything in it goes to another slot and gets new addresses; all stays well if and only if those lead to what stores them |
| `CapabilitySystem.System.Transfer` | core/kernel/ipc.c:22-80 | exactly which entries are transferred; field by field, a copy is a copy without a badge of its own, and a move changes no field but renamed slots and the addresses under the new one; a copy, or the move of a capability that is no node, keeps all well, and the move of a node if and only if the address has a depth and leads on to everything in it; a copy is linked both ways as in NodeCopy |
| `CapabilitySystem.LeadsIff` | core/kernel/ipc.c:48-75 | if the given address has no bits beyond its depth, it leads on to a slot if and only if the packed address of that fits a word |
| `CapabilitySystem.System.SetRoot` | core/kernel/threads.c:118-157 | refuses what is no node; the tree under the new root gets new addresses and all stays well if and only if every packed address fits a word; a root that was there is overwritten, and then lists are wrong |
| `CapabilitySystem.System.Populate` | core/kernel/capabilities.c:568-649 | refuses what is not found, taken slots and too much nesting, and then frees the block, well if and only if heap_free leaves a list; else a new original without badge that is found under the address as given, and all stays well |
| `CapabilitySystem.System.Plant` | core/kernel/main.c:67-92 | the root of the first thread, with its header |
| `CapabilitySystem.System.RemoveOne` | core/kernel/capabilities.c:322-345 | the exact outcome for a capability with nothing in it: gone with the block of its resource freed or handed over and every other capability as it was but for a first derivation, or endless, or derivations left behind, or a broken heap list |
| `CapabilitySystem.System.DeleteTree` | core/kernel/capabilities.c:404-414 | a node goes with everything in it, resources with their last capability; every field of what is left is as it was, but for first derivations that are gone, and all is well; nothing but heap_free can go wrong if nothing in it has derivations |
| `CapabilitySystem.System.NodeDelete` | core/kernel/capabilities.c:322-345 | refuses bad and empty slots; else as DeleteTree, and what goes is the one capability if and only if it is no node with occupied slots |
| `CapabilitySystem.System.NodeRevoke` | core/kernel/capabilities.c:347-391 | refuses bad and empty slots, nodes and plain copies; else exactly what was derived in one step or two goes, every field of the rest is as it was, no resource is freed, a header is handed over if need be, and all stays well |
| `CapabilitySystem.System.UpdateResource` | core/kernel/capabilities.c:816-852 | the address in the header leads to the first capability, all for the resource and no others point at the new place, no other field changes, a moved node has its slots renewed, torn if and only if it is not safe, and all locks are as before |
| `CapabilitySystem.System.Deliver` | core/kernel/heap.c:349-362 | the notices of an allocation, delivered in order through look-ups, retarget exactly the capabilities concerned, up to the first node that is torn; torn if and only if such a node is among them |
| `CapabilitySystem.System.Allocate` | core/kernel/heap.c:193-411 | heap_alloc with the notices its moves give to capabilities: torn if and only if a node that is not safe was moved; else heap, lists and trees are all well and every capability points at the block that carries on its allocation |
| `CapabilitySystem.System.AddressSpaceAlloc` | core/kernel/capabilities.c:735-807 | a request for a new resource from allocation to the slot: which error comes when, and on success a new original that is found under the given address, in a block that may move, with every other capability pointing at its own block and all well |
| `CapabilitySystem.PairTorn` | core/kernel/capabilities.c:393-402 | an allocation that moves a node with a capability and its first derivation in it tears their links |
| `LookUpLocks.RunOwed` | core/kernel/capabilities.c:448-540 | over every interleaving of look-ups and unlocks, each lock taken is owed by exactly one look-up |
| `LookUpLocks.LocksRestored` | core/kernel/capabilities.c:448-540 | once every look-up was undone, in any order and however they overlapped, every lock is as before |
| `LookUpLocks.LookUpStep` | core/kernel/capabilities.c:448-500 | a look-up does to the locks what one operation of the interleaving does |
| `LookUpLocks.UnlockStep` | core/kernel/capabilities.c:502-506 | so does undoing it |
| `KernelState.Highest` | core/kernel/scheduler.c:93-102 | the highest queue that is not empty |
| `KernelInvariants.HandleInv` | core/kernel/scheduler.c:23-60 | every call keeps: running threads are current or queued once, queued threads run, blocked bits, `blocked_on` and endpoint queues agree, and no endpoint has both kinds of waiters; suspension is the repaired one |
| `KernelInvariants.SendInv` | core/kernel/ipc.c:83-128 | a send keeps the invariant, whether or not a receiver waits |
| `KernelInvariants.ReceiveInv` | core/kernel/ipc.c:130-175 | a receive keeps the invariant, whether or not a sender waits |
| `KernelInvariants.ResumeScheduled` | core/kernel/scheduler.c:33-43 | resuming keeps threads and run queues in agreement |
| `KernelInvariants.SuspendScheduled` | core/kernel/scheduler.c:45-56 | so does suspending, for any reason, with LIST_REMOVE repaired |
| `KernelInvariants.WriteRegistersInv` | core/kernel/threads.c:66-84 | so does writing the registers of a thread |
| `KernelInvariants.SwitchInv` | core/kernel/scheduler.c:79-153 | a switch keeps the invariant, runs the first queued thread, and idles only when nobody is queued |
| `KernelInvariants.SwitchEffect` | core/kernel/scheduler.c:79-153 | what a switch does to every thread and to the queue, preemption and pause included |
| `KernelCalls.ResumeWakes` | core/kernel/scheduler.c:23-43 | resuming takes away exactly the given reason to wait; the thread is queued, at the end and once, exactly if no reason is left, and a switch is due if moreover the processor idles; no other field of any thread changes |
| `KernelCalls.SuspendStops` | core/kernel/scheduler.c:45-56 | suspending, with LIST_REMOVE repaired, adds exactly the given reason, takes exactly that thread off the queue, and makes a switch due exactly if it is running or one was due |
| `KernelCalls.SendDoes` | core/kernel/ipc.c:83-128 | a send takes the first receiver off the endpoint, puts the bytes of the caller's message and the badge into that receiver's buffer and wakes it, or queues and blocks the caller with its message and badge; nothing else changes |
| `KernelCalls.ReceiveDoes` | core/kernel/ipc.c:130-175 | a receive takes the first sender off the endpoint, gets the bytes in that sender's buffer with its badge and wakes it, or queues and blocks the caller; nothing else changes |
| `KernelCalls.CallDoes` | core/kernel/arch/68000/interrupts.c:143-158 | every call has its effect and no other: besides sends and receives, resume and suspend as above, a fault suspends the caller, yield only makes a switch due, registers are written in one thread, and the two creating calls add one fresh entry unless it is there |
| `KernelCalls.SwitchDoes` | core/kernel/scheduler.c:79-153 | the exact fields of every thread, the queue and the processor after a switch |
| `KernelRuns.RunInv` | core/kernel/arch/68000/interrupts.c:143-158 | the invariant holds after every run of traps with the repaired suspension; Kernel.Machine.Run has the linked queue |
| `KernelRuns.SwitchUndisturbed` | core/kernel/scheduler.c:112-146 | a switch never loses or mixes up the registers of a thread |
| `KernelRuns.StepContexts` | core/kernel/threads.c:66-84 | a whole trap changes the register context of a thread exactly when the caller writes the registers of another thread, and to what was written; a write to the running thread is lost |
| `KernelRuns.SendLogs` | core/kernel/ipc.c:83-128 | after a send the queues of every endpoint hold exactly the unpaired end of its log; a send that completes pair i puts the bytes that the sender's buffer held, none if there was no entry, and that send's badge into the i-th receiver's buffer, every other entry is unchanged, and a send that completes none changes no entry |
| `KernelRuns.ReceiveLogs` | core/kernel/ipc.c:130-175 | after a receive, the same |
| `KernelRuns.StepLogs` | core/kernel/ipc.c:83-175 | one trap: the logs grow by exactly the invocation, the queues go on holding the unpaired end of each log, message memory changes as a completed pair calls for, and the state goes through what the call does and then what the switch does, field by field |
| `KernelRuns.RunPairs` | core/kernel/ipc.c:83-175 | over every run, each call moves logs, message memory and state like that, from the first state to the last |
| `KernelRuns.PairMeets` | core/kernel/ipc.c:83-175 | the i-th send on an endpoint meets its i-th receive in one call of the run, and in that call the receiver's buffer gets the bytes that the sender's buffer then holds, with the sender's badge; no other buffer changes |
| `KernelRuns.StepPosition` | core/kernel/scheduler.c:79-153 | a queued thread moves up by one place at each switch, or runs |
| `KernelRuns.DispatchBound` | core/kernel/scheduler.c:79-153 | a queued thread with k ahead of it runs within k + 1 switches unless it is suspended |
| `KernelRuns.QuietIsSafe` | core/kernel/linked_list.h:68-81 | a run in which nobody suspends a queued thread or resumes the running one has no unsafe step |
| `Kernel.Machine.QueueThread` | core/kernel/scheduler.c:23-31 | the linked queue holds the thread once, at its end if it was not there before, and nothing else about the queue changes |
| `Kernel.Machine.ResumeThread` | core/kernel/scheduler.c:33-43 | the thread loses exactly the given reason to wait, joins the end of the linked queue exactly when it has no other and is not there, and a switch becomes due if the processor idles; no other field changes |
| `Kernel.Machine.SuspendThread` | core/kernel/scheduler.c:45-56 | the thread leaves the linked queue if and only if it is not a head that points back at a popped thread, and then that, the added reason to wait and a due switch are all that changes; otherwise the queue goes on starting with it |
| `Kernel.Machine.EndpointSend` | core/kernel/ipc.c:83-128 | the linked machine sends field by field as above, unless it blocks a stale head |
| `Kernel.Machine.EndpointReceive` | core/kernel/ipc.c:130-175 | so it receives |
| `Kernel.Machine.TryContextSwitch` | core/kernel/scheduler.c:79-153 | the scan over all priorities, the pop from the linked queue and the hand-over refine Switch of KernelState, and when the new head points back |
| `Kernel.Machine.Boot` | core/kernel/main.c:53-65 | from the empty machine to a running first thread |
| `Kernel.Machine.Trap` | core/kernel/arch/68000/interrupts.c:143-158 | for any call: exactly if it does not suspend a stale head the invariant holds again, the state moves field by field as the call and then the switch are told to, sends and receives stay paired, and a completed pair delivers the sender's bytes and badge and changes no other entry; otherwise the suspended thread still heads the linked queue |
| `Kernel.Machine.Run` | core/kernel/arch/68000/interrupts.c:143-158 | for any run: exactly if it has no such step the machine with the linked queue ends where the run of the value ends, its logs and memory too, and each call on the way moves as told |
| `Kernel.Machine.SuspendedThreadRuns` | core/kernel/scheduler.c:45-56 | in every state with two threads queued, a yield and the suspension of the new head make a suspended thread the next to run |
| `ThreadQueues.ThreadQueue.Append` | core/kernel/scheduler.c:23-31 | a container with a link in each thread stands for the sequence with the thread at its end |
| `ThreadQueues.ThreadQueue.Pop` | core/kernel/scheduler.c:93-102 | the first thread, and the rest with a head that points back unless it is empty |
| `ThreadQueues.ThreadQueue.Remove` | core/kernel/scheduler.c:45-56 | the sequence without the thread if and only if it is not a stale head |
| `ContainerLists.Append` | core/kernel/linked_list.h:24-36 | the list is the old sequence with the item at its end |
| `ContainerLists.Pop` | core/kernel/linked_list.h:53-63 | returns the first item and leaves the rest, fully linked only if that is empty |
| `ContainerLists.Remove` | core/kernel/linked_list.h:68-81 | the list is the sequence without the item if and only if the item is not a head that points back at a popped one |
| `ContainerLists.UpdateAddress` | core/kernel/linked_list.h:38-51 | the sequence with only the address replaced, under the same condition |
| `ContainerLists.Iterate` | core/kernel/linked_list.h:83-85 | visits exactly the sequence |
| `ContainerlessLists.Insert` | core/kernel/linked_list.h:119-140 | the resulting list, and that it is the documented one if and only if the back link of the last item is right |
| `ContainerlessLists.InsertAll` | core/kernel/linked_list.h:119-140 | however many items are inserted one after the other, the list holds at most three |
| `ContainerlessLists.Append` | core/kernel/linked_list.h:105-117 | the sequence with the item at its end, the end pointer of every item renewed; the one of the new item itself is set by the loop, which passes it too |
| `ContainerlessLists.InsertThroughDeleted` | core/kernel/linked_list.h:119-140 | inserting through an item that was deleted puts the new one into the list it came from |
| `ContainerlessLists.Delete` | core/kernel/linked_list.h:168-190 | the sequence without the item, every start and end pointer renewed; the item keeps its own links |
| `ContainerlessLists.SpliceBeforeLast` | core/kernel/capabilities.c:50-65 | the lists that merge_derivation_lists splices: the last spliced item is linked to itself |
| `ContainerlessLists.WalkOn` | core/kernel/capabilities.c:60-63 | the loop over them is not at the end after any number of steps |
| `ContainerlessLists.UpdateAddress` | core/kernel/linked_list.h:142-162 | the sequence with only the address replaced, every start and end pointer included |
| `ContainerlessLists.Iterate` | core/kernel/linked_list.h:164-166 | visits exactly the sequence, from any item |
| `Memory.CopyUp` | core/common/memcpy.c:66-91 | the forward copy, bytes then words then bytes, equals copying all bytes at once |
| `Memory.CopyDown` | core/common/memcpy.c:92-118 | so does the backward copy |
| `Memory.HeadBytes` | core/common/memcpy.c:70-82 | after that many bytes both operands are aligned or less than a word is left |
| `Memory.TailBytes` | core/common/memcpy.c:100-111 | the same, from the end |
| `Memory.Memcpy` | core/common/memcpy.c:50-121 | for any overlap, alignment and length the destination equals the source as it was and nothing else changes (memmove, section 7.24.2.2 of ISO C11) |
| `Memory.Spread` | core/common/memset.c:79-80 | every byte of the word is the fill byte |
| `Memory.Memset` | core/common/memset.c:31-88 | exactly the n bytes are filled (section 7.24.6.1 of ISO C11) |
| `Jax.ReadU16` | core/common/jax.c:18-20 | the value of the two bytes, least significant first |
| `Jax.ReadI64` | core/common/jax.c:22-29 | the signed 64-bit value of the eight bytes |
| `Jax.ReadI64Back` | utils/jax/endianness.c:58-66 | what the writer encodes is read back, for every signed 64-bit number |
| `Jax.ReadU16Back` | utils/jax/endianness.c:49-56 | the same for 16 bits |
| `Jax.ParseInBounds` | core/common/jax.c:31-62 | for any bytes, a record that was read ends inside the image, where its size says, if and only if its size field is one the image can hold |
| `Jax.ParseReads` | core/common/jax.c:31-62 | for any bytes: exactly when a record is read, and each of its fields and the next start by their offsets in the image |
| `Jax.Layout` | utils/jax/create.c:49-84 | the writer's layout byte by byte: kind, the two lengths ahead of name and description, timestamp, mode, owner, group, size, data |
| `Jax.ParseEncoded` | utils/jax/create.c:49-84 | a record of the writer's layout is read back exactly unless nothing follows its header |
| `Jax.ReadAt` | core/common/jax.c:31-62 | the reader at each record of an archive, in every case |
| `Jax.RoundTrip` | utils/jax/create.c:49-84 | iterating returns exactly the written records if and only if the archive is empty or its last record has data |
| `Jax.TrailDistinct` | core/common/jax.c:31-62 | in any image, a reading that ends comes by no offset twice |
| `Jax.TrailFrom` | core/common/jax.c:31-62 | reading ends, from any offset, in every image whose size fields it can hold |
| `Jax.RouteFrom` | core/common/jax.c:31-62 | from any offset of any image, reading comes by finitely many offsets and then ends, turns back or leaves the image |
| `Jax.TrailIsRoute` | core/common/jax.c:31-62 | a reading that ends is a route that does not stray |
| `Jax.ArchiveTrail` | utils/jax/create.c:49-84 | an archive is read from each record on by exactly the readable records |
| `Jax.FirstNamed` | core/common/jax.c:76-81 | the record with the wanted name is the first match if and only if no earlier one has a longer name that starts with it |
| `Jax.Iterator.Open` | core/common/jax.c:7-16 | accepts exactly images that begin with the magic number |
| `Jax.Iterator.NextFile` | core/common/jax.c:31-62 | advances and fills in the record as Parse says, on failure too |
| `Jax.Iterator.Find` | core/common/jax.c:64-90 | in any image: finds the first record of the wanted kind whose name starts with the wanted one, without its leading slash, its data and its size as a 32-bit number; says that there is none exactly when reading ends without one, and is lost exactly when it turns back or leaves the image without one |
| `Jax.StartsWith` | core/common/jax.c:76-81 | the comparison is a prefix test |
| `InitrdFs.ChildOf` | core/initrd_fs/main.c:41-68 | a direct child is the directory's path, a slash, and a name without slashes |
| `InitrdFs.InDir` | core/initrd_fs/main.c:41-68 | the loops decide exactly that |
| `InitrdFs.NextFileInDir` | core/initrd_fs/main.c:30-80 | in any image along which reading from the address ends: the first child at or after the address, its own address and the next one |
| `InitrdFs.ReadEntry` | core/initrd_fs/main.c:85-131 | at any position from which reading ends: the entry for the first child at or after it, `next_entry_position` 0 exactly when no child follows, EINVAL exactly when there is none |
| `InitrdFs.ReportedExactly` | core/initrd_fs/main.c:125-130 | the reported name is the file's own name if and only if the directory is the root or the read leaves no room for more |
| `InitrdFs.List` | core/initrd_fs/main.c:97-123 | a client that follows `next_entry_position` gets, in order, the entries of exactly the children, and the last says 0; EINVAL exactly when there are none |
| `InitrdFs.ChildrenExact` | core/initrd_fs/main.c:30-80 | these are exactly the records that are children, once each |
| `InitrdFs.ArchiveChildren` | core/initrd_fs/main.c:30-80 | in an archive, exactly the readable records that are children |
| `InitrdFs.OpensExactly` | core/initrd_fs/main.c:172-179 | a file opens under exactly its own name when its description is empty; with another low byte of the description length, under what its name and that byte begin |
| `InitrdFs.NameMatches` | core/initrd_fs/main.c:173-179 | the comparison loop takes the byte after the name into account |
| `InitrdFs.Open` | core/initrd_fs/main.c:150-210 | the first child that matches, or the error code, for every combination of flags, ENOMEM when the name cannot be locked included |
| `Bflt.Index` | core/common/bflt.c:49-64 | the word to relocate lies inside the allocation |
| `Bflt.AddressFlat` | core/common/bflt.c:49-64 | without a global offset table every offset moves by the base |
| `Bflt.AddressGot` | core/common/bflt.c:49-75 | with one, an offset below the data segment is in the file behind its header, any other in the allocation, cut off at the word |
| `Bflt.IndexAddress` | core/common/bflt.c:49-64 | the address to relocate, unless it is skipped, is inside the allocation if and only if the offset is, whatever the wrap-around, and it is that word |
| `Bflt.SkippedFlat` | core/common/bflt.c:100-107 | in a flat binary exactly the relocation whose address wraps around to NULL is skipped, and none inside the allocation is |
| `Bflt.SkippedGot` | core/common/bflt.c:49-64 | in a position-independent binary exactly the relocations for the text segment are skipped, and the one that wraps around to NULL |
| `Bflt.PatchAllSimultaneous` | core/common/bflt.c:96-110 | for words that do not overlap, the in-place loop translates each listed word once, from its original value, and changes nothing else |
| `Bflt.PatchTwice` | core/common/bflt.c:100-110 | a word listed twice is translated twice |
| `Bflt.LoadedFlat` | core/common/bflt.c:84-110 | bytes that no listed word covers are the file's in text and data, zero in bss and as they were on the stack; listed words hold base plus offset, and any other entry is the one that wraps around to NULL |
| `Bflt.LoadedGot` | core/common/bflt.c:66-124 | the same of a position-independent binary: bytes that no listed word covers are the file's data, zero or the stack's; listed words and then the entries of the table hold, for an offset below the data segment, the place behind the file's header, else the place in the allocation |
| `Bflt.TwoBases` | core/common/bflt.c:66-110 | two loads differ exactly by the difference of the bases at the listed words of the segments |
| `Bflt.CopyIn` | core/common/bflt.c:84-92 | text and data from the file, zeroes for bss, the stack untouched |
| `Bflt.RelocateAll` | core/common/bflt.c:96-110 | the loop stays inside the allocation if and only if every entry does that is not skipped, NULL addresses included, and then it refines PatchAll |
| `Bflt.FixGot` | core/common/bflt.c:112-124 | the loop ends inside the allocation if and only if the table has an end mark, and then exactly the entries before the first are translated |
| `Bflt.Load` | core/common/bflt.c:66-143 | the whole load, segments, relocations, table and registers, or that it touches memory outside the allocation: exactly when |
| `MountIndex.LatestInBucket` | core/vfs_server/namespaces.c:245-270 | searching one bucket finds what searching the whole list finds, for any hash |
| `MountIndex.LatestExact` | core/vfs_server/namespaces.h:28-31 | that is the most recent mount on this inode of this enclosing filesystem, or none |
| `MountIndex.SearchLatest` | core/vfs_server/namespaces.c:253-270 | a refused lock can only lose the answer |
| `MountIndex.PushedIndexed` | core/vfs_server/namespaces.c:206-230 | adding a mount to its bucket adds it to the front of the list; all chains stay linked both ways |
| `MountIndex.Namespace.constructor` | core/vfs_server/namespaces.c:31-36 | an empty namespace stands for the empty list |
| `MountIndex.Namespace.Add` | core/vfs_server/namespaces.c:186-235 | the root first, then the front of the list; ENOMEM exactly when a structure or a lock is refused, and then nothing changes |
| `MountIndex.Namespace.Find` | core/vfs_server/namespaces.c:237-274 | the most recently added mount on this inode of this enclosing filesystem, or none if there is none; a refused lock can only lose it |

## Left out

- `heap_init`, `heap_lock_existing_region`, `heap_add_memory_block`: boot-time memory maps can leave gaps between blocks, and `heap_alloc` relies on there being none; the heap model starts from one contiguous available block.
- HeapAlloc: with two or more movable blocks no condition for success is stated beyond what the search finds, nor the exact headers when blocks had to move; what is stated then is that nothing is lost, where the request is served, and when it can fail to return.
- SetUpdateRef: the three kinds of owner in a block header (pointer cell, function, capability) are told in the same way, through one table; `CapabilitySystem.System.UpdateResource` is what the capability kind does.
- HeapBlocks: the bytes of a header in memory are not given a layout, only that writing a header overwrites them.
- CopyConsistent: resource and derivation lists take `LIST_INSERT_NO_CONTAINER` at its documented effect; `CopyByMacro` beside it says when the macro has that effect, which it does on lists of up to two, and what the macro does is in `ContainerlessLists`.
- NodeCopy: `LIST_INSERT_NO_CONTAINER` is taken at its documented effect, so that what is said of later operations is the code's as long as every copy reports that it is linked; access rights are not modelled; the links that an empty source still has are a parameter.
- NodeDelete: once something has gone wrong the rest of the call is not followed, and for a node with derivations inside no condition for its outcome is stated beyond what is promised when there are none. The last capability for a thread also deletes the root capability of the thread (`thread_destructor`), which is not modelled; nor is what the destructor of an endpoint does to threads.
- NodeRevoke: the header of the resource is written once at the end, with what the last hand-over writes.
- Allocate: the notices of one allocation are delivered after it, which is the same because the allocator does not look at the capabilities; after a node was torn the rest is not followed. The block of a thread holds one slot, its root, which is alone on its lists, so that `on_thread_moved` tears nothing.
- Populate: the depth of nesting (`nested_nodes`) is not modelled, and whether the limit refuses a node is a parameter, as it is of `SetRoot`; nodes have at least one bit, since a node without bits has the same address as its only slot.
- Transfer: sender and receiver are different threads, as the one is running and the other blocked.
- AddressSpaceAlloc: the type of the resource decides its size, which is a parameter, and access rights are not modelled.
- CapabilityTable: capabilities whose resource is not heap-managed; for these `update_capability_addresses` would write to a header that is not there.
- LookUp: the locks that look-ups take are kept apart from the kinds of heap blocks; `Allocate` holds whatever blocks are locked. The lock on the thread around a look-up is one more lock of the kind that LookUpLocks covers. The thread of an address is found by its number, not through the hash table of threads.
- WordBits: shifts by 32 bits or more, which C leaves undefined, give zero.
- Trap: after a step that suspends a head that points back at a popped thread the links no longer stand for a queue, and the rest of the step is not followed; `SuspendedThreadRuns` says what it leads to.
- KernelState: endpoint queues are sequences, because endpoints only append and pop; destruction of threads and endpoints, access rights and timer preemption are not modelled; the capabilities in a message are transferred in `CapabilitySystem.System.Transfer`, apart from the message.
- StepContexts: the result that the trap handler writes to the caller's data register is not modelled.
- `alloc_thread`, `look_up_thread_by_id` and `on_thread_moved`: the id bitmap and the thread hash table; what a moved thread does to its queues is `ContainerLists.UpdateAddress`, once for each queue.
- NextFile: an iterator that a negative size took before the image reads memory that is not the image's, and is not followed.
- Jax: the image lies at least 65561 bytes below the top of the address space, so that only the size field can make a pointer wrap.
- NextFileInDir: a scan that goes round in circles or leaves the image, which a negative size field can cause, is excluded.
- ReadEntry: so is a position from which the scan does that.
- Open: so is a directory from which it does that.
- List: the trail stays behind the magic number, as `handle_read` refuses positions before.
- InitrdFs: reading file data, FD_STAT and the system calls around them. File names have no NUL bytes, as the writer's C strings.
- Load: the file holds what its header names; word alignment is not modelled, and `bflt_verify` is a plain comparison of fields.
- MountIndex: there is no unmount in the source; the fresh structure has the links `mount` gives it, and reference counts are not followed.
- The vfs server's directory proxying, the process server, 68000 assembly, drivers, debug printing, the jax command line tool and the build files.

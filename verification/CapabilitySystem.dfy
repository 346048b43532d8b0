/**
Heap, capability lists and capability trees as one state, with the operations that change more than one of them
(core/kernel/capabilities.c, core/kernel/ipc.c, core/kernel/threads.c).
*/
module CapabilitySystem {
  import opened Basics
  import opened SlotLists
  import opened WordBits
  import opened CapabilityTree
  import opened CapabilityHeap
  import H = HeapBlocks
  import K = KernelHeap
  import HR = HeapRelease
  import R = ResourceLists
  import D = Derivations
  import T = CapabilityTable

  /// The outcome of look_up_capability: the slot, how many bits led to it, and the node that it is in.
  datatype Result = NotFound | Found(slot: Slot, depth: nat, container: Res, mustUnlock: bool)

  /// What look-up says is so: the slot at the end of the address, or without a depth the first on the way that holds
  /// no node.
  ghost predicate FoundBy(sh: Shape, pl: Places, t: nat, a: nat, depth: Option<nat>, r: Result) {
    if r.NotFound? then
      if depth.None? then Root(t) !in sh else forall x :: !Spot(sh, pl, x, Place(t, Low(a, depth.value), depth.value))
    else
      && r.slot.In? && r.container == r.slot.node && Spot(sh, pl, r.slot, Place(t, Low(a, r.depth), r.depth))
      && (if depth.Some? then r.depth == depth.value
          else !IsNode(sh, r.slot) && forall s {:trigger OnTheWay(sh, pl, s, t, a)} :: OnTheWay(sh, pl, s, t, a) ==> s == r.slot)
  }

  /// An occupied slot without a node on the way of the address.
  ghost predicate OnTheWay(sh: Shape, pl: Places, s: Slot, t: nat, a: nat) {
    s in sh && s in pl && !IsNode(sh, s) && pl[s] == Place(t, Low(a, pl[s].depth), pl[s].depth)
  }

  /// The lock on the container is the only change, and it is to be undone if it was not there before.
  ghost predicate LockedBy(before: set<Res>, after: set<Res>, r: Result) {
    if r.NotFound? then after == before else after == before + {r.container} && r.mustUnlock == (r.container !in before)
  }

  lemma NothingFound(sh: Shape, pl: Places, h: Slot, t: nat, a: nat, d: nat)
    requires Rooted(sh, pl) && OnWay(sh, pl, h, t, a) && (pl[h].depth < d || d == 0)
    requires d < pl[h].depth + Bits(sh, h) || (pl[h].depth + Bits(sh, h) < d && !IsNode(sh, Next(sh, h, pl[h].depth, a)))
    ensures forall x :: !Spot(sh, pl, x, Place(t, Low(a, d), d))
  {
    hide Rooted, OnWay, Spot, Low;
    forall x ensures !Spot(sh, pl, x, Place(t, Low(a, d), d)) {
      if d == 0 {
        NoDepth(sh, pl, x, Place(t, Low(a, d), d));
      } else {
        NothingThere(sh, pl, h, t, a, d, x);
      }
    }
  }

  lemma NoRoot(sh: Shape, pl: Places, t: nat, a: nat, d: nat)
    requires Rooted(sh, pl) && Root(t) !in sh
    ensures forall x :: !Spot(sh, pl, x, Place(t, Low(a, d), d))
  {
    hide Low;
    forall x ensures !Spot(sh, pl, x, Place(t, Low(a, d), d)) {
      if h :| Contains(sh, h, x) && h in pl && Place(t, Low(a, d), d) == Inside(pl[h], x.index, Bits(sh, h)) {
        HasRoot(sh, pl, h);
      }
    }
  }

  lemma LeafFound(sh: Shape, pl: Places, h: Slot, t: nat, a: nat)
    requires Rooted(sh, pl) && OnWay(sh, pl, h, t, a) && !IsNode(sh, Next(sh, h, pl[h].depth, a))
    ensures forall s {:trigger OnTheWay(sh, pl, s, t, a)} :: OnTheWay(sh, pl, s, t, a) ==> s == Next(sh, h, pl[h].depth, a)
  {
    hide Rooted, Low;
    forall s {:trigger OnTheWay(sh, pl, s, t, a)} | OnTheWay(sh, pl, s, t, a) ensures s == Next(sh, h, pl[h].depth, a) {
      FirstLeaf(sh, pl, h, t, a, s);
    }
  }

  /// 0, ENOCAPABILITY, EINVAL, ECAPEXISTS, ECAPINVAL and ETOOMUCHNESTING.
  datatype Status = Done | NoCapability | BadSlot | Exists | Invalid | TooDeep

  /// invoke_capability has found the node in `h` under the address.
  ghost predicate Invoked(caps: T.Caps, pl: Places, t: nat, address: nat, depth: nat, h: Slot) {
    h in caps && caps[h].isNode && h in pl && pl[h] == Place(t, Low(address, depth), depth) && IsWord(address)
  }

  lemma FoundInvoked(caps: T.Caps, pl: Places, t: nat, address: nat, depth: Option<nat>, r: Result)
    requires Rooted(T.ShapeOf(caps), pl) && IsWord(address) && FoundBy(T.ShapeOf(caps), pl, t, address, depth, r)
    requires r.Found? && r.slot in caps && caps[r.slot].isNode
    ensures depth.Some? && Invoked(caps, pl, t, address, depth.value, r.slot)
  {
    SpotPlace(T.ShapeOf(caps), pl, r.slot, Place(t, Low(address, r.depth), r.depth));
  }

  /// The address that the kernel computes for slot `i` of a node of `bits` bits found under `address`, whose bits
  /// beyond the depth it does not clear, leads to that slot.
  predicate Reached(address: nat, depth: nat, i: nat, bits: nat) {
    Low(Or(Word(Shift(i, depth)), address), depth + bits) == Low(address, depth) + Shift(i, depth)
  }

  /// Without such bits, exactly when the packed address of the slot fits a word.
  lemma ReachedIff(address: nat, depth: nat, i: nat, bits: nat)
    requires IsWord(address) && address < Pow2(depth) && i < Pow2(bits)
    ensures Reached(address, depth, i, bits) <==> IsWord(address + Shift(i, depth))
    ensures depth + bits <= WORD_BITS ==> IsWord(address + Shift(i, depth))
  {
    hide Low, Shift, Or;
    var p, d := address + Shift(i, depth), depth + bits;
    LowSmall(address, depth);
    ShiftOr(i, depth, address);
    PackedBound(address, depth, i, bits);
    LowBound(p, WORD_BITS);
    LowLess(p, WORD_BITS);
    LowLess(Word(p), d);
    PowPositive(WORD_BITS);
    if d <= WORD_BITS {
      PowGrows(d, WORD_BITS);
    }
    if IsWord(p) {
      LowSmall(p, WORD_BITS);
      LowSmall(p, d);
    }
  }

  class System {
    const heap: K.Heap
    const table: T.Table
    /// The nodes that a look-up has locked.
    var locked: set<Res>
    ghost var places: Places

    ghost predicate Placed()
      reads this`places, table`caps
    {
      Rooted(T.ShapeOf(table.caps), places)
    }

    /// Heap and lists agree. The headers of the slots `done` may have taken the names of others.
    ghost predicate Half(done: set<Slot>)
      reads heap, table
    {
      && heap.Sized() && table.Valid() && Coupled(heap.headers, table.owner, table.at)
      && Clashes(heap.Snap(), HeadBlocks(table.lists, table.at, done))
    }

    /// All but that every capability is found under the address it stores.
    ghost predicate Mid(done: set<Slot>)
      reads this`places, heap, table
    {
      Half(done) && Placed()
    }

    /// Heap, lists and trees agree: every owner knows its block, every capability is on its lists and points at the
    /// block of its resource, the block's header has the address of the first, and every capability is found under
    /// the address that it stores.
    ghost predicate Ok()
      reads this`places, heap, table
    {
      && heap.Valid() && table.Valid() && Placed() && Coupled(heap.headers, table.owner, table.at)
      && AllAddressed(table.caps, places)
    }

    /// A heap without allocations, and no capability.
    constructor (heap: K.Heap)
      requires heap.Valid() && H.Live(heap.headers) == {}
      ensures Ok() && this.heap == heap && fresh(table) && table.caps == map[] && locked == {}
    {
      this.heap := heap;
      table := new T.Table();
      locked, places := {}, map[];
      new;
      forall b | b in heap.headers ensures Known(heap.headers, table.at, b) {
        assert b !in H.Live(heap.headers);
      }
    }

    // -------------------------------------------------------------- look-up

    /// heap_lock on the block of a node.
    method Lock(n: Res) returns (was: bool)
      modifies this`locked
      ensures locked == old(locked) + {n} && was == (n !in old(locked))
    {
      was := n !in locked;
      locked := locked + {n};
    }

    /// heap_unlock
    method Unlock(n: Res)
      modifies this`locked
      ensures locked == old(locked) - {n}
    {
      locked := locked - {n};
    }

    /// look_up_capability from the root of thread `t`; no depth stands for SIZE_MAX. Locks travel hand over hand,
    /// and in the end at most the container of the found slot has been locked.
    method LookUp(t: nat, address: nat, depth: Option<nat>) returns (r: Result)
      requires Placed()
      modifies this`locked
      ensures FoundBy(T.ShapeOf(table.caps), places, t, address, depth, r) && LockedBy(old(locked), locked, r)
    {
      hide Rooted, Spot, Low, High, T.ShapeOf, OnWay;
      ghost var sh := T.ShapeOf(table.caps);
      if Root(t) !in table.caps {
        ShapeAt(table.caps, Root(t));
        if depth.Some? {
          NoRoot(sh, places, t, address, depth.value);
        }
        return NotFound;
      }
      var a: nat := if depth.Some? then Low(address, depth.value) else address;
      ghost var a0 := a;
      var left: nat := if depth.Some? then depth.value else 0;
      var h := Root(t);
      StartsAtRoot(table.caps, places, t, a0);
      var mustUnlock := Lock(table.caps[h].res);
      var actual: nat := 0;
      while true
        invariant h in table.caps && table.caps[h].isNode && OnWay(sh, places, h, t, a0) && h in places && actual == places[h].depth
        invariant locked == old(locked) + {table.caps[h].res} && mustUnlock == (table.caps[h].res !in old(locked))
        invariant a == High(a0, actual) && (depth.Some? ==> actual + left == depth.value && (actual == 0 || left > 0))
        decreases |Subtree(sh, places, h)|
      {
        var node, bits := table.caps[h].res, table.caps[h].bits;
        var slot := In(node, Low(a, bits));
        StepDown(table.caps, places, h, t, a0);
        if (depth.None? && !(slot in table.caps && table.caps[slot].isNode)) || (depth.Some? && left == bits) {
          r := Found(slot, actual + bits, node, mustUnlock);
          FoundThere(sh, places, h, t, address, a0, depth, r);
          return r;
        }
        if (depth.Some? && left < bits) || !(slot in table.caps && table.caps[slot].isNode) {
          NothingFound(sh, places, h, t, a0, depth.value);
          LowOfLow(address, depth.value);
          if mustUnlock {
            Unlock(node);
          }
          return NotFound;
        }
        HighHigh(a0, actual, bits);
        a := High(a, bits);
        left := if depth.Some? then left - bits else 0;
        actual := actual + bits;
        var next := Lock(table.caps[slot].res);
        if mustUnlock {
          Unlock(node);
        }
        mustUnlock := next;
        h := slot;
      }
    }

    /// unlock_looked_up_capability
    method UnlockLookedUp(r: Result)
      requires r.Found?
      modifies this`locked
      ensures locked == if r.mustUnlock then old(locked) - {r.container} else old(locked)
    {
      if r.mustUnlock {
        Unlock(r.container);
      }
    }

    // -------------------------------------------------------------- addresses

    lemma OkMid()
      requires Ok()
      ensures Mid({})
    {
      hide H.Tiled, H.Accounted, R.Consistent, T.FamiliesOk, Rooted, Coupled;
      ClashesStart(heap.Snap());
      assert HeadBlocks(table.lists, table.at, {}) == {};
    }

    /// When all headers are written, only the addresses decide.
    lemma MidDecides(done: set<Slot>)
      requires Mid(done)
      ensures Ok() <==> AllAddressed(table.caps, places)
    {
      hide H.Tiled, H.Accounted, R.Consistent, T.FamiliesOk, Rooted, Coupled, H.AllOwned, H.MovablesOwned, HeadBlocks;
      if AllAddressed(table.caps, places) {
        OwnersOnce(table.caps, table.View(), places);
        HeadRefs(heap.headers, table.View(), done);
        ClashesEnd(heap.Snap(), HeadBlocks(table.lists, table.at, done), table.owner, table.at);
        AllMovables(heap.Snap());
      }
    }

    /// One slot of update_capability_addresses: the header if the capability is the first on its list, and the slot.
    method SetOne(s: Slot, w: Where, ghost done: set<Slot>)
      requires Half(done) && s in table.caps && s !in done
      modifies heap`headers, heap`mem, heap`refs, table`caps, table`owner
      ensures Half(done + {s}) && table.caps == old(table.caps)[s := old(table.caps)[s].(stored := w)]
      ensures T.Tree(table.caps, table.families) == T.Tree(old(table.caps), table.families)
      ensures table.caps[s].res in table.lists && table.lists[table.caps[s].res] != []
      ensures table.owner == if table.lists[table.caps[s].res][0] == s then old(table.owner)[table.caps[s].res := w] else old(table.owner)
    {
      hide H.Tiled, H.Accounted, R.Consistent, T.FamiliesOk, T.Tree, T.ShapeOf, Rooted, Coupled, HeadBlocks, Clashes, H.PayloadsKept;
      ghost var v := table.View();
      HeadOf(heap.headers, v, s, done);
      var first := table.SetAddress(s, w);
      if first {
        heap.SetRef(table.caps[s].ptr, H.Capability(w));
        HeaderRenewed(old(heap.headers), heap.headers, v.owner, v.at, table.caps[s].res, w);
        ClashesStep(old(heap.Snap()), heap.Snap(), HeadBlocks(v.lists, v.at, done), table.caps[s].ptr, w);
      }
    }

    /// update_capability_addresses: the capability in `s`, and everything under it, stores an address that continues
    /// the given one, and so does the header of every resource whose first capability is among them.
    method UpdateAddresses(s: Slot, w: Where, ghost done: set<Slot>)
      requires Mid(done) && s in table.caps && s in places && done !! Subtree(T.ShapeOf(table.caps), places, s)
      modifies heap`headers, heap`mem, heap`refs, table`caps, table`owner
      ensures Mid(done + Subtree(T.ShapeOf(old(table.caps)), places, s))
      ensures Readdressed(old(table.caps), table.caps, places, s, w, Subtree(T.ShapeOf(old(table.caps)), places, s))
      decreases |Subtree(T.ShapeOf(table.caps), places, s)|
    {
      hide Half, T.ShapeOf, Onward, Under, Subtree, UpTo, Rooted, Readdressed;
      ghost var caps0, sh := table.caps, T.ShapeOf(table.caps);
      ghost var done0 := done;
      MidPlaced(done);
      ShapeKeys(caps0);
      InOwnTree(sh, places, s);
      SetOne(s, w, done);
      ReaddressedOne(caps0, table.caps, places, s, w);
      ReaddressedShape(caps0, table.caps, places, s, w, {s});
      if table.caps[s].isNode {
        var bits := table.caps[s].bits;
        ShapeAt(caps0, s);
        UpToNone(sh, places, s);
        for i := 0 to Pow2(bits)
          invariant Mid(done0 + UpTo(sh, places, s, i)) && Readdressed(caps0, table.caps, places, s, w, UpTo(sh, places, s, i))
        {
          UpdateChild(s, w, i, done0, caps0);
        }
        UpToAll(sh, places, s);
      } else {
        ShapeAt(caps0, s);
        LeafTree(sh, places, s);
      }
    }

    /// One slot of a node.
    method UpdateChild(s: Slot, w: Where, i: nat, ghost done: set<Slot>, ghost caps0: T.Caps)
      requires s in places && Rooted(T.ShapeOf(caps0), places) && IsNode(T.ShapeOf(caps0), s) && i < Pow2(Bits(T.ShapeOf(caps0), s))
      requires Mid(done + UpTo(T.ShapeOf(caps0), places, s, i)) && done !! Subtree(T.ShapeOf(caps0), places, s)
      requires Readdressed(caps0, table.caps, places, s, w, UpTo(T.ShapeOf(caps0), places, s, i))
      modifies heap`headers, heap`mem, heap`refs, table`caps, table`owner
      ensures Mid(done + UpTo(T.ShapeOf(caps0), places, s, i + 1))
      ensures Readdressed(caps0, table.caps, places, s, w, UpTo(T.ShapeOf(caps0), places, s, i + 1))
      decreases |Subtree(T.ShapeOf(caps0), places, s)|, 0
    {
      hide Mid, T.ShapeOf, Onward, Continued, Under, Subtree, UpTo, Rooted, Readdressed;
      ghost var sh := T.ShapeOf(caps0);
      ghost var before := table.caps;
      ReaddressedShape(caps0, table.caps, places, s, w, UpTo(sh, places, s, i));
      ShapeAt(table.caps, s);
      UpToStep(sh, places, s, i);
      var child, bits := In(table.caps[s].res, i), table.caps[s].bits;
      ShapeAt(table.caps, child);
      if child in table.caps {
        ghost var done' := done + UpTo(sh, places, s, i);
        ShapeKeys(caps0);
        ChildFirst(sh, places, s, child);
        UpdateAddresses(child, Continued(w, i, bits), done');
        assert done' + Subtree(sh, places, child) == done + UpTo(sh, places, s, i + 1);
        ReaddressedChild(caps0, before, table.caps, places, s, w, child);
      }
    }

    lemma MidPlaced(done: set<Slot>)
      requires Mid(done)
      ensures Placed()
    {
    }

    lemma OkHalf()
      requires Ok()
      ensures Half({}) && Placed()
    {
      OkMid();
    }

    // -------------------------------------------------------------- the invocations of a node

    /// The look-up of node_copy and node_move, undone again: both hold on to the slot for no longer than the call.
    method LookUpOnce(t: nat, address: nat, depth: Option<nat>) returns (r: Result)
      requires Placed()
      modifies this`locked
      ensures FoundBy(T.ShapeOf(table.caps), places, t, address, depth, r) && locked == old(locked)
      ensures r.Found? && r.slot in table.caps ==> r.slot in places && places[r.slot] == Place(t, Low(address, r.depth), r.depth)
    {
      hide FoundBy, Rooted;
      r := LookUp(t, address, depth);
      if r.Found? {
        FoundPlace(table.caps, places, t, address, depth, r);
        UnlockLookedUp(r);
      }
    }

    /// node_copy on the node in `h`, which was found under `address`. Nodes are not copied, and a badge may be set on
    /// copies of an original only. An empty source is not refused: the destination stays empty, the call reports
    /// success, and all stays well exactly when the memory of the source leads to no list. The lists are the documented
    /// ones; `linked` says whether the macro links that of the resource both ways.
    method NodeCopy(t: nat, address: nat, depth: nat, h: Slot, index: nat, from: nat, fromDepth: Option<nat>, badge: Option<nat>, remains: T.Remains)
      returns (st: Status, r: Result, linked: bool)
      requires Ok() && Invoked(table.caps, places, t, address, depth, h) && T.LeadsInto(remains, table.lists, table.families, table.caps)
      modifies this, table
      ensures locked == old(locked)
      ensures st == if index >= Pow2(old(table.caps)[h].bits) then BadSlot
        else if In(old(table.caps)[h].res, index) in old(table.caps) then Exists
        else if r.NotFound? then NoCapability
        else if r.slot in old(table.caps) && old(table.caps)[r.slot].isNode then Invalid
        else if badge.Some? && !(if r.slot in old(table.caps) then old(table.caps)[r.slot].original else remains.original) then Invalid else Done
      ensures !st.BadSlot? && !st.Exists? ==> FoundBy(T.ShapeOf(old(table.caps)), old(places), t, from, fromDepth, r)
      ensures !st.Done? ==> Ok() && unchanged(table)
      ensures st.Done? && r.slot !in old(table.caps) ==>
        table.caps == old(table.caps) && (Ok() <==> remains.list.None? && remains.family.None?)
      ensures st.Done? && r.slot in old(table.caps) ==>
        && CopyMade(old(table.caps), old(table.families), old(table.View()), table.caps, table.families, table.View(), r.slot,
                    In(old(table.caps)[h].res, index), Continued(Where(t, address, Some(depth)), index, old(table.caps)[h].bits), badge)
        && T.CopiedTo(old(table.caps), table.caps, r.slot, In(old(table.caps)[h].res, index),
                      Where(t, Or(Word(Shift(index, depth)), address), Some(depth + old(table.caps)[h].bits)), badge)
        && (Ok() <==> Reached(address, depth, index, old(table.caps)[h].bits))
        && (linked <==> Alone(old(table.caps), old(table.lists), r.slot))
    {
      hide Ok, FoundBy, Invoked, T.ShapeOf, Pow2, CopyMade, T.CopiedTo;
      InvokedNode(table.caps, places, t, address, depth, h);
      r, linked := NotFound, true;
      var dst := In(table.caps[h].res, index);
      if index >= Pow2(table.caps[h].bits) {
        return BadSlot, r, linked;
      }
      if dst in table.caps {
        return Exists, r, linked;
      }
      OkPlaced();
      r := LookUpOnce(t, from, fromDepth);
      OkUnlocked();
      if r.NotFound? {
        return NoCapability, r, linked;
      }
      if r.slot in table.caps && table.caps[r.slot].isNode {
        return Invalid, r, linked;
      }
      if badge.Some? && !(if r.slot in table.caps then table.caps[r.slot].original else remains.original) {
        return Invalid, r, linked;
      }
      if r.slot !in table.caps {
        SpliceOnly(dst, remains.(parent := None));
      } else {
        linked := CopyInto(t, address, depth, h, index, r.slot, badge);
      }
      return Done, r, linked;
    }

    /// What is copied or moved from an empty slot.
    method SpliceOnly(dst: Slot, remains: T.Remains)
      requires Ok() && dst !in table.caps && T.LeadsInto(remains, table.lists, table.families, table.caps)
      modifies table
      ensures table.caps.Keys == old(table.caps).Keys && (remains.parent.None? ==> table.caps == old(table.caps))
      ensures Ok() <==> T.Blank(remains)
    {
      hide R.Consistent, T.FamiliesOk, Rooted, Coupled, AllAddressed, H.WF, H.AllOwned;
      table.Splice(dst, remains);
    }

    /// A capability is copied to slot `index` of the node in `h`.
    method CopyInto(t: nat, address: nat, depth: nat, h: Slot, index: nat, src: Slot, badge: Option<nat>) returns (linked: bool)
      requires Ok() && Invoked(table.caps, places, t, address, depth, h) && index < Pow2(table.caps[h].bits)
      requires src in table.caps && In(table.caps[h].res, index) !in table.caps && !table.caps[src].isNode && (badge.Some? ==> table.caps[src].original)
      requires src in places && places[src].thread == t
      modifies this`places, table
      ensures CopyMade(old(table.caps), old(table.families), old(table.View()), table.caps, table.families, table.View(), src,
                       In(old(table.caps)[h].res, index), Continued(Where(t, address, Some(depth)), index, old(table.caps)[h].bits), badge)
      ensures T.CopiedTo(old(table.caps), table.caps, src, In(old(table.caps)[h].res, index),
                         Where(t, Or(Word(Shift(index, depth)), address), Some(depth + old(table.caps)[h].bits)), badge)
      ensures Ok() <==> Reached(address, depth, index, old(table.caps)[h].bits)
      ensures linked <==> Alone(old(table.caps), old(table.lists), src)
    {
      hide H.Tiled, H.Accounted, H.AllOwned, H.MovablesOwned, R.Consistent, T.FamiliesOk, T.Tree, T.ShapeOf, Rooted, Coupled, AllAddressed, Reached, R.AfterCopy, D.AfterCopy;
      hide Pow2, Continued, Clashes, HeadBlocks, T.CopiedTo;
      OkMid();
      OkStored(src);
      var c, bits := table.caps[h], table.caps[h].bits;
      var dst := In(c.res, index);
      var w := Where(table.caps[src].stored.thread, Or(Word(Shift(index, depth)), address), Some(depth + bits));
      assert w == Continued(Where(t, address, Some(depth)), index, bits) by {
        ContinuedIs(t, address, depth, index, bits);
      }
      ghost var caps0 := table.caps;
      T.TreeKeys(caps0, table.families);
      linked := CopyLinks(src);
      table.CopyOccupied(src, dst, w, badge);
      ghost var pl := places;
      places := places[dst := Inside(places[h], index, bits)];
      CopyStored(caps0, old(table.View()), table.caps, table.View(), src, dst, w);
      CopiedAddresses(caps0, table.caps, pl, t, address, depth, h, index, w);
      assert HeadBlocks(table.lists, table.at, {}) == HeadBlocks(old(table.lists), table.at, {}) by {
        NoHeads(table.lists, old(table.lists), table.at);
      }
      MidDecides({});
    }

    /// node_move on the node in `h`, which was found under `address`. Only the address of the moved capability itself
    /// is renewed: all stays well exactly when the new one leads to it, and it is no node, or one without
    /// occupied slots that does not move into itself.
    method NodeMove(t: nat, address: nat, depth: nat, h: Slot, index: nat, from: nat, fromDepth: Option<nat>, remains: T.Remains)
      returns (st: Status, r: Result)
      requires Ok() && Invoked(table.caps, places, t, address, depth, h) && T.LeadsInto(remains, table.lists, table.families, table.caps)
      modifies this, heap, table
      ensures locked == old(locked)
      ensures st == if index >= Pow2(old(table.caps)[h].bits) then BadSlot
        else if In(old(table.caps)[h].res, index) in old(table.caps) then Exists
        else if r.NotFound? then NoCapability else Done
      ensures !st.BadSlot? && !st.Exists? ==> FoundBy(T.ShapeOf(old(table.caps)), old(places), t, from, fromDepth, r)
      ensures !st.Done? ==> Ok() && unchanged(table) && unchanged(heap)
      ensures st.Done? && r.slot !in old(table.caps) ==> table.caps.Keys == old(table.caps).Keys && (Ok() <==> T.Blank(remains))
      ensures st.Done? && r.slot in old(table.caps) ==>
        && var dst := In(old(table.caps)[h].res, index);
        && MoveMade(old(table.caps), old(table.families), old(table.View()), table.caps, table.families, table.View(), r.slot, dst, {dst})
        && T.MovedTo(old(table.caps), table.caps, r.slot, dst, {dst}) && dst in table.caps
        && table.caps[dst].stored ==
           Where(old(table.caps)[r.slot].stored.thread, Or(Word(Shift(index, depth)), address), Some(depth + old(table.caps)[h].bits))
        && (Ok() <==>
              && Reached(address, depth, index, old(table.caps)[h].bits)
              && (old(table.caps)[r.slot].isNode ==> r.slot != h && Hollow(old(table.caps), old(table.caps)[r.slot].res)))
        && h in old(places) && r.slot in old(places)
        && (!Under(old(places)[h], old(places)[r.slot]) ==> FoundUnless(old(table.caps), old(places), r.slot, table.caps, places))
    {
      hide Ok, FoundBy, Invoked, T.ShapeOf, Pow2, MoveMade, T.MovedTo, FoundUnless, Under;
      InvokedNode(table.caps, places, t, address, depth, h);
      r := NotFound;
      var dst := In(table.caps[h].res, index);
      if index >= Pow2(table.caps[h].bits) {
        return BadSlot, r;
      }
      if dst in table.caps {
        return Exists, r;
      }
      OkPlaced();
      r := LookUpOnce(t, from, fromDepth);
      OkUnlocked();
      if r.NotFound? {
        return NoCapability, r;
      }
      if r.slot !in table.caps {
        SpliceOnly(dst, remains);
      } else {
        MoveInto(t, address, depth, h, index, r.slot);
      }
      return Done, r;
    }

    /// A capability is moved to slot `index` of the node in `h`.
    method MoveInto(t: nat, address: nat, depth: nat, h: Slot, index: nat, src: Slot)
      requires Ok() && Invoked(table.caps, places, t, address, depth, h) && index < Pow2(table.caps[h].bits)
      requires src in table.caps && In(table.caps[h].res, index) !in table.caps && src in places && places[src].thread == t
      modifies this`places, heap, table
      ensures var dst := In(old(table.caps)[h].res, index);
        && MoveMade(old(table.caps), old(table.families), old(table.View()), table.caps, table.families, table.View(), src, dst, {dst})
        && T.MovedTo(old(table.caps), table.caps, src, dst, {dst}) && dst in table.caps
        && table.caps[dst].stored ==
           Where(old(table.caps)[src].stored.thread, Or(Word(Shift(index, depth)), address), Some(depth + old(table.caps)[h].bits))
      ensures Ok() <==>
        && Reached(address, depth, index, old(table.caps)[h].bits)
        && (old(table.caps)[src].isNode ==> src != h && Hollow(old(table.caps), old(table.caps)[src].res))
      ensures h in old(places) && (!Under(old(places)[h], old(places)[src]) ==> FoundUnless(old(table.caps), old(places), src, table.caps, places))
    {
      hide H.Tiled, H.Accounted, H.AllOwned, H.MovablesOwned, R.Consistent, T.FamiliesOk, T.Tree, T.ShapeOf, Rooted, Coupled, AllAddressed, Reached, D.AfterMove;
      hide Pow2, Continued, Clashes, HeadBlocks, Hollow, Under, Transplant, MoveMade, T.MovedTo, FoundUnless;
      OkHalf();
      OkStored(src);
      var bits := table.caps[h].bits;
      var dst := In(table.caps[h].res, index);
      var w := Where(table.caps[src].stored.thread, Or(Word(Shift(index, depth)), address), Some(depth + bits));
      ghost var caps0, pl := table.caps, places;
      ShiftInto(src, dst, w);
      MovedWithin(caps0, table.caps, pl, t, address, depth, h, index, src, w);
      if !Under(pl[h], pl[src]) {
        places := Transplant(pl, src, dst, Inside(pl[h], index, bits));
        MidDecides({dst});
      }
    }

    /// move_capability, and the new address of the moved capability.
    method ShiftInto(src: Slot, dst: Slot, w: Where)
      requires Half({}) && src in table.caps && dst !in table.caps
      modifies heap, table
      ensures Half({dst}) && T.ShapeOf(table.caps) == (T.ShapeOf(old(table.caps)) - {src})[dst := T.ShapeOf(old(table.caps))[src]]
      ensures table.caps.Keys == old(table.caps).Keys - {src} + {dst} && table.caps[dst].stored == w
      ensures forall s :: s in old(table.caps) && s != src ==> table.caps[s].stored == old(table.caps)[s].stored
      ensures MoveMade(old(table.caps), old(table.families), old(table.View()), table.caps, table.families, table.View(), src, dst, {dst})
      ensures T.MovedTo(old(table.caps), table.caps, src, dst, {dst})
    {
      hide H.Tiled, H.Accounted, R.Consistent, T.FamiliesOk, T.Tree, T.ShapeOf, Coupled, Clashes, HeadBlocks, D.AfterMove, R.AfterMove;
      ghost var v0, caps0 := table.View(), table.caps;
      T.TreeKeys(caps0, table.families);
      table.MoveCapability(src, dst);
      ghost var caps1 := table.caps;
      MoveStored(caps0, v0, caps1, table.View(), src, dst);
      NoHeads(v0.lists, table.lists, table.at);
      SetOne(dst, w, {});
      assert {} + {dst} == {dst};
      RestoredShape(caps1, table.caps, dst, w);
      RestoredView(caps1, R.AfterMove(v0, src, dst), table.caps, table.View(), dst, w);
    }

    // -------------------------------------------------------------- transfers

    /// move_capability, when the capability takes all under it along.
    method Uproot(src: Slot, dst: Slot, ghost to: Place)
      requires Ok() && src in table.caps && Free(T.ShapeOf(table.caps), places, src, dst, to)
      modifies this`places, table
      ensures Mid({}) && src in old(places) && places == Transplant(old(places), src, dst, to) && dst in places
      ensures T.ShapeOf(table.caps) == (T.ShapeOf(old(table.caps)) - {src})[dst := T.ShapeOf(old(table.caps))[src]]
      ensures table.caps.Keys == old(table.caps).Keys - {src} + {dst}
      ensures forall s :: s in old(table.caps) && s != src ==> table.caps[s].stored == old(table.caps)[s].stored
      ensures MoveMade(old(table.caps), old(table.families), old(table.View()), table.caps, table.families, table.View(), src, dst, {})
      ensures T.MovedTo(old(table.caps), table.caps, src, dst, {})
    {
      hide H.Tiled, H.Accounted, H.AllOwned, H.MovablesOwned, R.Consistent, T.FamiliesOk, T.Tree, T.ShapeOf, Rooted, Coupled, AllAddressed, D.AfterMove, R.AfterMove;
      hide Clashes, HeadBlocks, Transplant, Free, T.MovedTo;
      OkHalf();
      ghost var v0, caps0, pl := table.View(), table.caps, places;
      T.TreeKeys(caps0, table.families);
      FreeDst(caps0, pl, src, dst, to);
      table.MoveCapability(src, dst);
      MoveStored(caps0, v0, table.caps, table.View(), src, dst);
      NoHeads(v0.lists, table.lists, table.at);
      Transplanted(T.ShapeOf(caps0), pl, src, dst, to);
      TransplantDst(pl, src, dst, to);
      places := Transplant(pl, src, dst, to);
    }

    /// move_capability, and update_capability_addresses from the new slot on.
    method MoveTree(src: Slot, dst: Slot, w: Where, ghost to: Place)
      requires Ok() && src in table.caps && Free(T.ShapeOf(table.caps), places, src, dst, to)
      modifies this`places, heap, table
      ensures src in old(places) && places == Transplant(old(places), src, dst, to) && dst in places && dst in table.caps
      ensures T.ShapeOf(table.caps) == (T.ShapeOf(old(table.caps)) - {src})[dst := T.ShapeOf(old(table.caps))[src]]
      ensures var moved := Subtree(T.ShapeOf(table.caps), places, dst);
        && Mid(moved) && StoreOnward(table.caps, places, dst, w, moved)
        && MoveMade(old(table.caps), old(table.families), old(table.View()), table.caps, table.families, table.View(), src, dst, moved)
        && T.MovedTo(old(table.caps), table.caps, src, dst, moved) && table.caps[dst].stored == w
        && (Ok() <==> forall x :: x in moved ==> Stored(table.caps, places, x))
    {
      hide Ok, Mid, T.ShapeOf, AllAddressed, Transplant, Subtree, Readdressed, StoreOnward, Free, MoveMade, T.MovedTo, Stored;
      ghost var v0, caps0, families0, pl := table.View(), table.caps, table.families, places;
      OkAddressed();
      Uproot(src, dst, to);
      MidPlaced({});
      ghost var caps1, v1 := table.caps, table.View();
      ghost var moved := Subtree(T.ShapeOf(caps1), places, dst);
      UpdateAddresses(dst, w, {});
      assert {} + moved == moved;
      ReaddressedShape(caps1, table.caps, places, dst, w, moved);
      MadeOnward(caps0, families0, v0, caps1, v1, table.caps, table.families, table.View(), src, places, dst, w, moved);
      TreeAddresses(caps0, caps1, table.caps, pl, src, dst, to, w);
      StoresFirst(table.caps, places, dst, w, moved);
      MidDecides(moved);
    }

    lemma OkAddressed()
      requires Ok()
      ensures Placed() && AllAddressed(table.caps, places)
    {
    }

    /// One capability of transfer_capabilities, from the thread that sends to the one that receives; a depth of zero
    /// marks an unused entry. Afterwards everything that was moved is found under what it stores exactly when
    /// the address that the receiver gave leads on to it.
    method Transfer(sender: nat, from: nat, fromDepth: Option<nat>, receiver: nat, address: nat, depth: Option<nat>, copy: bool)
      returns (done: bool, r: Result, d: Result, linked: bool)
      requires Ok() && sender != receiver && IsWord(address)
      modifies this, heap, table
      ensures locked == old(locked)
      ensures fromDepth != Some(0) && depth != Some(0) ==> FoundBy(T.ShapeOf(old(table.caps)), old(places), sender, from, fromDepth, r)
      ensures fromDepth != Some(0) && depth != Some(0) && Sent(old(table.caps), r, copy) ==>
        FoundBy(T.ShapeOf(old(table.caps)), old(places), receiver, address, depth, d)
      ensures done <==>
        fromDepth != Some(0) && depth != Some(0) && Sent(old(table.caps), r, copy) && d.Found? && d.slot !in old(table.caps)
      ensures !done ==> Ok() && unchanged(table) && unchanged(heap)
      ensures done && copy ==> Ok() && CopyMade(old(table.caps), old(table.families), old(table.View()), table.caps, table.families, table.View(),
                                                r.slot, d.slot, Where(receiver, address, depth), None)
      ensures done && copy ==> T.CopiedTo(old(table.caps), table.caps, r.slot, d.slot, Where(receiver, address, depth), None)
      ensures done && copy ==> (linked <==> Alone(old(table.caps), old(table.lists), r.slot))
      ensures done && !copy ==>
        && d.slot in places && var moved := Subtree(T.ShapeOf(table.caps), places, d.slot);
        && MoveMade(old(table.caps), old(table.families), old(table.View()), table.caps, table.families, table.View(), r.slot, d.slot, moved)
        && T.MovedTo(old(table.caps), table.caps, r.slot, d.slot, moved)
        && d.slot in table.caps && table.caps[d.slot].stored == Where(receiver, address, depth)
        && (!old(table.caps)[r.slot].isNode ==> Ok())
        && (old(table.caps)[r.slot].isNode ==>
              (Ok() <==> depth.Some? && forall x :: x in moved ==> Leads(places, d.slot, address, x)))
    {
      hide Ok, FoundBy, T.ShapeOf, MoveMade, T.MovedTo, CopyMade, T.CopiedTo, Leads, Subtree, Invoked;
      r, d, linked := NotFound, NotFound, true;
      if fromDepth == Some(0) || depth == Some(0) {
        return false, r, d, linked;
      }
      OkPlaced();
      r := LookUpOnce(sender, from, fromDepth);
      OkUnlocked();
      if r.NotFound? || r.slot !in table.caps || (copy && table.caps[r.slot].isNode) {
        return false, r, d, linked;
      }
      d := LookUpOnce(receiver, address, depth);
      OkUnlocked();
      if d.NotFound? || d.slot in table.caps {
        return false, r, d, linked;
      }
      if copy {
        linked := CopyLinks(r.slot);
        CopyAcross(r.slot, d, receiver, address, depth);
      } else {
        MoveAcross(r.slot, d, receiver, address, depth);
      }
      return true, r, d, linked;
    }

    /// copy_capability, and of update_capability_addresses what it does for a capability that is no node.
    method CopyAcross(src: Slot, d: Result, receiver: nat, address: nat, depth: Option<nat>)
      requires Ok() && src in table.caps && !table.caps[src].isNode && IsWord(address)
      requires FoundBy(T.ShapeOf(table.caps), places, receiver, address, depth, d) && d.Found? && d.slot !in table.caps
      modifies this`places, heap, table
      ensures Ok() && CopyMade(old(table.caps), old(table.families), old(table.View()), table.caps, table.families, table.View(),
                               src, d.slot, Where(receiver, address, depth), None)
      ensures T.CopiedTo(old(table.caps), table.caps, src, d.slot, Where(receiver, address, depth), None)
    {
      hide H.Tiled, H.Accounted, H.AllOwned, H.MovablesOwned, R.Consistent, T.FamiliesOk, T.Tree, T.ShapeOf, Rooted, Coupled, AllAddressed, R.AfterCopy, D.AfterCopy;
      hide Clashes, HeadBlocks, FoundBy, Low, T.CopiedTo;
      OkHalf();
      ghost var to := Place(receiver, Low(address, d.depth), d.depth);
      ghost var caps0, v0, pl := table.caps, table.View(), places;
      T.TreeKeys(caps0, table.families);
      var w, w0 := Where(receiver, address, depth), Where(table.caps[src].stored.thread, address, depth);
      table.CopyOccupied(src, d.slot, w0, None);
      ghost var caps1, v1 := table.caps, table.View();
      CopyStored(caps0, v0, caps1, v1, src, d.slot, w0);
      NoHeads(v0.lists, table.lists, table.at);
      SetOne(d.slot, w, {});
      CopyReadd(v0, v1, caps1, table.caps, table.View(), src, d.slot, w0, w);
      RestoredShape(caps1, table.caps, d.slot, w);
      RestoredCopy(caps0, caps1, table.caps, src, d.slot, w0, w);
      places := places[d.slot := to];
      AcrossAddresses(caps0, table.caps, pl, d, receiver, address, depth);
      MidDecides({} + {d.slot});
    }

    method MoveAcross(src: Slot, d: Result, receiver: nat, address: nat, depth: Option<nat>)
      requires Ok() && src in table.caps && src in places && places[src].thread != receiver && IsWord(address)
      requires FoundBy(T.ShapeOf(table.caps), places, receiver, address, depth, d) && d.Found? && d.slot !in table.caps
      modifies this`places, heap, table
      ensures d.slot in places && var moved := Subtree(T.ShapeOf(table.caps), places, d.slot);
        && MoveMade(old(table.caps), old(table.families), old(table.View()), table.caps, table.families, table.View(), src, d.slot, moved)
        && T.MovedTo(old(table.caps), table.caps, src, d.slot, moved)
        && d.slot in table.caps && table.caps[d.slot].stored == Where(receiver, address, depth)
        && (!old(table.caps)[src].isNode ==> Ok())
        && (old(table.caps)[src].isNode ==>
              (Ok() <==> depth.Some? && forall x :: x in moved ==> Leads(places, d.slot, address, x)))
    {
      hide Ok, Mid, FoundBy, T.ShapeOf, MoveMade, T.MovedTo, Leads, Subtree, Free, Transplant, Low, Stored, StoreOnward;
      ghost var to := Place(receiver, Low(address, d.depth), d.depth);
      ghost var caps0, pl := table.caps, places;
      OkPlaced();
      FreeAcross(caps0, pl, src, d, receiver, address, depth);
      MoveTree(src, d.slot, Where(receiver, address, depth), to);
      MidPlaced(Subtree(T.ShapeOf(table.caps), places, d.slot));
      AcrossLeads(caps0, table.caps, pl, src, d, receiver, address, depth);
    }

    /// set_root_node on the thread `thread`; whether the nodes would be nested too deep is not modelled. The tree under
    /// the new root gets new addresses, which all lead to their capabilities exactly when they fit a word. A root
    /// that the thread already had is overwritten, and its resource is left with a list that leads to another's
    /// capability.
    method SetRoot(t: nat, from: nat, fromDepth: Option<nat>, thread: nat, tooDeep: bool) returns (st: Status, r: Result)
      requires Ok()
      modifies this, heap, table
      ensures locked == old(locked) && FoundBy(T.ShapeOf(old(table.caps)), old(places), t, from, fromDepth, r)
      ensures st == if r.NotFound? then NoCapability
        else if r.slot !in old(table.caps) || !old(table.caps)[r.slot].isNode || tooDeep then Invalid else Done
      ensures !st.Done? ==> Ok() && unchanged(table) && unchanged(heap)
      ensures st.Done? && Root(thread) in old(table.caps) ==> !Ok()
      ensures st.Done? && Root(thread) !in old(table.caps) ==>
        && Root(thread) in places && var moved := Subtree(T.ShapeOf(table.caps), places, Root(thread));
        && MoveMade(old(table.caps), old(table.families), old(table.View()), table.caps, table.families, table.View(), r.slot, Root(thread), moved)
        && T.MovedTo(old(table.caps), table.caps, r.slot, Root(thread), moved)
        && Root(thread) in table.caps && table.caps[Root(thread)].stored == Where(thread, 0, Some(0))
        && moved <= places.Keys && (Ok() <==> forall x :: x in moved ==> IsWord(places[x].pack))
    {
      hide Ok, FoundBy, T.ShapeOf, MoveMade, T.MovedTo, Subtree, IsWord;
      OkPlaced();
      r := LookUpOnce(t, from, fromDepth);
      OkUnlocked();
      if r.NotFound? {
        return NoCapability, r;
      }
      if r.slot !in table.caps || !table.caps[r.slot].isNode || tooDeep {
        return Invalid, r;
      }
      SlotFound(T.ShapeOf(table.caps), places, t, from, fromDepth, r);
      if Root(thread) in table.caps {
        OverRoot(r.slot, thread);
      } else {
        NewRoot(r.slot, thread);
      }
      return Done, r;
    }

    method OverRoot(src: Slot, thread: nat)
      requires Ok() && src in table.caps && table.caps[src].isNode && src.In? && Root(thread) in table.caps
      modifies table
      ensures !Ok()
    {
      hide H.WF, H.AllOwned, R.Consistent, T.FamiliesOk, T.ShapeOf, Rooted, Coupled, AllAddressed;
      OtherRoot(table.caps, places, src, thread);
      table.Overwrite(src, Root(thread));
    }

    method NewRoot(src: Slot, thread: nat)
      requires Ok() && src in table.caps && table.caps[src].isNode && src.In? && Root(thread) !in table.caps
      modifies this`places, heap, table
      ensures Root(thread) in places && var moved := Subtree(T.ShapeOf(table.caps), places, Root(thread));
        && MoveMade(old(table.caps), old(table.families), old(table.View()), table.caps, table.families, table.View(), src, Root(thread), moved)
        && T.MovedTo(old(table.caps), table.caps, src, Root(thread), moved)
        && Root(thread) in table.caps && table.caps[Root(thread)].stored == Where(thread, 0, Some(0))
        && moved <= places.Keys && (Ok() <==> forall x :: x in moved ==> IsWord(places[x].pack))
    {
      hide Ok, Mid, T.ShapeOf, MoveMade, T.MovedTo, Subtree, Free, Transplant, Stored, StoreOnward, IsWord;
      OkPlaced();
      FreeRoot(table.caps, places, src, thread);
      ghost var pl := places;
      MoveTree(src, Root(thread), Where(thread, 0, Some(0)), Place(thread, 0, 0));
      TransplantDst(pl, src, Root(thread), Place(thread, 0, 0));
      ghost var moved := Subtree(T.ShapeOf(table.caps), places, Root(thread));
      MidPlaced(moved);
      RootLeads(table.caps, places, thread, moved);
    }

    // -------------------------------------------------------------- new capabilities

    /// The block at `p` is an allocation that is not locked.
    ghost predicate MayMove(p: Ptr)
      reads heap
    {
      heap.Allocated(p) && heap.headers[p - H.HEADER].kind == H.Movable
    }

    /// The end of populate_capability_slot: a new original for the resource `r`, which is in the block at `p`. The block
    /// may move from now on.
    method Install(slot: Slot, r: Res, p: Ptr, isNode: bool, bits: nat, w: Where, ghost place: Place)
      requires Ok() && slot !in table.caps && r !in table.lists && heap.Allocated(p) && Unclaimed(heap.headers, p)
      requires var kind := if isNode then Node(r, bits) else Leaf;
        && Rooted(T.ShapeOf(table.caps)[slot := kind], places[slot := place])
        && Addressed(T.ShapeOf(table.caps)[slot := kind], places[slot := place], slot, w)
      modifies this`places, heap, table
      ensures Ok() && T.NewIn(old(table.caps), table.caps, slot, r, p, isNode, bits, w) && places == old(places)[slot := place]
      ensures MayMove(p)
    {
      hide H.Tiled, H.Accounted, R.Consistent, T.FamiliesOk, T.ShapeOf, Rooted, Coupled, AllAddressed, Clashes, HeadBlocks, Addressed, H.PayloadsKept, Unclaimed;
      ghost var caps0, v0, s0, pl := table.caps, table.View(), heap.Snap(), places;
      OkMid();
      SameKeys(v0);
      NoHeads(v0.lists, v0.lists, v0.at);
      table.Populate(slot, r, p, isNode, bits, w);
      heap.SetRef(p, H.Capability(w));
      HeaderAdded(s0.hs, heap.headers, v0.owner, v0.at, r, p, w);
      ClashesStep(s0, heap.Snap(), {}, p, w);
      assert {} + {p - H.HEADER} == {p - H.HEADER};
      NewHead(v0, slot, r, p);
      places := places[slot := place];
      InstalledAddresses(caps0, table.caps, pl, slot, place, if isNode then Node(r, bits) else Leaf);
      MidDecides({slot});
      UnlockBlock(p);
    }

    /// heap_unlock
    method UnlockBlock(p: Ptr)
      requires Ok() && heap.Allocated(p)
      modifies heap
      ensures Ok() && MayMove(p)
    {
      hide H.WF, H.AllOwned, R.Consistent, T.FamiliesOk, T.ShapeOf, Rooted, Coupled, AllAddressed, H.PayloadsKept;
      ghost var hs := heap.headers;
      heap.Unlock(p);
      KindChanged(hs, heap.headers, table.owner, table.at, p - H.HEADER, H.Movable);
    }

    /// populate_capability_slot for a resource that the heap manages, in a block that was just allocated; whether nodes
    /// would be nested too deep is not modelled. The slot is found under the address as given. On failure the
    /// block is freed, and all is well exactly when heap_free leaves a list; false stands for its access to NULL.
    method Populate(t: nat, address: nat, depth: Option<nat>, r: Res, p: Ptr, isNode: bool, bits: nat, tooDeep: bool)
      returns (st: Status, found: Result, ok: bool)
      requires Ok() && IsWord(address) && r !in table.lists && (isNode ==> 1 <= bits)
      requires heap.Allocated(p) && Unclaimed(heap.headers, p)
      modifies this, heap, table
      ensures locked == old(locked) && FoundBy(T.ShapeOf(old(table.caps)), old(places), t, address, depth, found)
      ensures st == if found.NotFound? then NoCapability
        else if found.slot in old(table.caps) then Exists
        else if isNode && tooDeep then TooDeep else Done
      ensures !st.Done? ==> unchanged(table) && (ok && Ok() <==> !HR.NextAvailable(old(heap.headers), p - H.HEADER))
      ensures !st.Done? && ok && Ok() ==> HR.Returned(old(heap.headers), heap.headers, p - H.HEADER) && !heap.Allocated(p)
      ensures st.Done? ==>
        && ok && Ok() && T.NewIn(old(table.caps), table.caps, found.slot, r, p, isNode, bits, Where(t, address, Some(found.depth)))
        && MayMove(p)
    {
      hide Ok, FoundBy, T.ShapeOf, IsWord, HR.NextAvailable, HR.Returned, Low;
      OkPlaced();
      found := LookUpOnce(t, address, depth);
      OkUnlocked();
      if found.NotFound? {
        ok := Discard(p);
        return NoCapability, found, ok;
      }
      if found.slot in table.caps {
        ok := Discard(p);
        return Exists, found, ok;
      }
      if isNode && tooDeep {
        ok := Discard(p);
        return TooDeep, found, ok;
      }
      OkConsistent();
      PopulatedPlace(table.caps, table.View(), places, t, address, depth, found, r, isNode, bits);
      Install(found.slot, r, p, isNode, bits, Where(t, address, Some(found.depth)), Place(t, Low(address, found.depth), found.depth));
      return Done, found, true;
    }

    /// heap_free for a block that belongs to no capability.
    method Discard(p: Ptr) returns (ok: bool)
      requires Ok() && heap.Allocated(p) && Unclaimed(heap.headers, p)
      modifies heap
      ensures ok && Ok() <==> !HR.NextAvailable(old(heap.headers), p - H.HEADER)
      ensures ok && Ok() ==> HR.Returned(old(heap.headers), heap.headers, p - H.HEADER) && !heap.Allocated(p)
    {
      hide H.Tiled, H.Accounted, R.Consistent, T.FamiliesOk, T.ShapeOf, Rooted, Coupled, AllAddressed, HR.OnlyReleased, HR.NextAvailable;
      ghost var s := heap.Snap();
      ok := heap.HeapFree(p);
      if !HR.NextAvailable(s.hs, p - H.HEADER) {
        UnknownFreed(s, heap.Snap(), table.owner, table.at, p);
      }
    }

    /// The root of the first thread, as the kernel makes it at boot.
    method Plant(thread: nat, r: Res, p: Ptr, bits: nat)
      requires Ok() && Root(thread) !in table.caps && r !in table.lists && 1 <= bits
      requires heap.Allocated(p) && Unclaimed(heap.headers, p)
      modifies this`places, heap, table
      ensures Ok() && T.NewIn(old(table.caps), table.caps, Root(thread), r, p, true, bits, Where(thread, 0, Some(0)))
      ensures MayMove(p)
    {
      hide Ok, T.ShapeOf;
      OkPlaced();
      OkConsistent();
      PlantedPlace(table.caps, table.View(), places, thread, r, bits);
      Install(Root(thread), r, p, true, bits, Where(thread, 0, Some(0)), Place(thread, 0, 0));
    }

    // -------------------------------------------------------------- deletion

    /// delete_capability for a capability that is no node, or one without occupied slots, with the merge before it.
    method RemoveOne(slot: Slot, steps: nat) returns (out: Outcome)
      requires Ok() && slot in table.caps && (table.caps[slot].isNode ==> Hollow(table.caps, table.caps[slot].res))
      modifies this`places, heap, table
      ensures out == OutcomeOf(old(table.caps), old(table.families), old(heap.headers), slot)
      ensures out.Tangled? ==> !Ok()
      ensures out.Gone? ==>
        && Ok() && places == old(places) - {slot} && T.ShapeOf(table.caps) == T.ShapeOf(old(table.caps)) - {slot}
        && DeleteMade(old(table.caps), old(table.families), old(table.View()), table.caps, table.families, table.View(), slot)
        && T.DeletedFrom(old(table.caps), old(table.families), table.caps, slot)
        && FreedMade(old(table.lists), table.lists, old(table.freed), table.freed)
      ensures out.Gone? && old(table.caps)[slot].original ==> BlockReturned(old(heap.headers), heap.headers, old(table.caps)[slot].ptr)
    {
      hide H.Tiled, H.Accounted, H.AllOwned, H.MovablesOwned, R.Consistent, T.FamiliesOk, T.Tree, T.ShapeOf, Rooted, Coupled, AllAddressed, R.AfterDelete, D.AfterDelete;
      hide HR.NextAvailable, HR.Returned, Hollow, T.Merges, R.CapOk, R.ListOk, T.DeletedFrom;
      ghost var caps0, v0, pl := table.caps, table.View(), places;
      T.TreeKeys(caps0, table.families);
      TreeParent(caps0, table.families, slot);
      DeleteFacts(heap.headers, caps0, table.families, v0, slot);
      var c := table.caps[slot];
      var head := table.lists[c.res][0] == slot;
      var hangs := table.Remove(slot, steps);
      if hangs {
        return Hangs;
      }
      if c.first.Some? {
        return Tangled;
      }
      RemovedPlaces(caps0, table.caps, v0, table.View(), pl, slot);
      places := places - {slot};
      if c.original {
        out := Release(c.res, c.ptr, v0.owner, v0.at);
      } else {
        if head {
          HandOver(c.res, c.ptr, v0.owner);
        }
        out := Gone;
      }
    }

    /// delete_capability with the merge before it. The destructor of a node does the same to everything in it, which
    /// goes before the node does. If anything goes wrong on the way, the rest is not followed.
    method DeleteTree(slot: Slot, steps: nat) returns (out: Outcome)
      requires Ok() && slot in table.caps && slot in places
      modifies this`places, heap, table
      ensures out.Gone? ==> Ok() && PrunedTo(old(table.caps), old(places), table.caps, places, Subtree(T.ShapeOf(old(table.caps)), old(places), slot))
      ensures out.Gone? ==> FreedMade(old(table.lists), table.lists, old(table.freed), table.freed)
      ensures AllChildless(old(table.caps), Subtree(T.ShapeOf(old(table.caps)), old(places), slot)) ==> out.Gone? || out.HeapBroken?
      decreases |Subtree(T.ShapeOf(table.caps), places, slot)|
    {
      hide Ok, T.ShapeOf, Under, Subtree, UpTo, Rooted, PrunedTo, AllChildless, Pow2;
      ghost var caps0, sh, pl := table.caps, T.ShapeOf(table.caps), places;
      OkPlaced();
      ShapeAt(caps0, slot);
      PrunedNone(caps0, pl);
      if table.caps[slot].isNode {
        var bits := table.caps[slot].bits;
        UpToNone(sh, pl, slot);
        assert UpTo(sh, pl, slot, 0) - {slot} == {};
        for i := 0 to Pow2(bits)
          invariant Ok() && PrunedTo(caps0, pl, table.caps, places, UpTo(sh, pl, slot, i) - {slot})
          invariant FreedMade(old(table.lists), table.lists, old(table.freed), table.freed)
        {
          out := DeleteChild(slot, i, steps, caps0, pl);
          if !out.Gone? {
            return out;
          }
        }
        UpToAll(sh, pl, slot);
      } else {
        LeafTree(sh, pl, slot);
        assert Subtree(sh, pl, slot) - {slot} == {};
      }
      out := DeleteLast(slot, steps, caps0, pl);
    }

    /// node_delete on the node in `h`; `steps` is how long a loop may run before it counts as endless. What goes is the
    /// capability and, if it is a node, everything in it, and with each resource's last capability the resource. The
    /// rest is what node_delete promises of a single capability exactly when a deleted node was empty.
    method NodeDelete(h: Slot, index: nat, steps: nat) returns (st: Status, out: Outcome)
      requires Ok() && h in table.caps && table.caps[h].isNode
      modifies this`places, heap, table
      ensures st == if index >= Pow2(old(table.caps)[h].bits) then BadSlot
        else if In(old(table.caps)[h].res, index) !in old(table.caps) then NoCapability else Done
      ensures !st.Done? ==> out.Gone? && Ok() && unchanged(table) && unchanged(heap)
      ensures st.Done? && out.Gone? ==>
        && var slot := In(old(table.caps)[h].res, index);
        && Ok() && slot in old(places)
        && PrunedTo(old(table.caps), old(places), table.caps, places, Subtree(T.ShapeOf(old(table.caps)), old(places), slot))
        && FreedMade(old(table.lists), table.lists, old(table.freed), table.freed)
      ensures st.Done? ==>
        && var slot := In(old(table.caps)[h].res, index); var c := old(table.caps)[slot];
        && slot in old(places)
        && (AllChildless(old(table.caps), Subtree(T.ShapeOf(old(table.caps)), old(places), slot)) ==> out.Gone? || out.HeapBroken?)
        && (c.isNode && !Hollow(old(table.caps), c.res) ==>
              table.caps.Keys != old(table.caps).Keys - {slot} || !out.Gone?)
        && (!c.isNode || Hollow(old(table.caps), c.res) ==>
              && out == OutcomeOf(old(table.caps), old(table.families), old(heap.headers), slot)
              && (out.Tangled? ==> !Ok())
              && (out.Gone? ==>
                    && DeleteMade(old(table.caps), old(table.families), old(table.View()), table.caps, table.families, table.View(), slot)
                    && T.DeletedFrom(old(table.caps), old(table.families), table.caps, slot)
                    && (c.original ==> BlockReturned(old(heap.headers), heap.headers, c.ptr))))
    {
      hide Ok, T.ShapeOf, Under, Subtree, Rooted, Hollow, DeleteMade, T.DeletedFrom, OutcomeOf, AllChildless, Pow2, T.FamiliesOk, T.Tree;
      var slot := In(table.caps[h].res, index);
      if index >= Pow2(table.caps[h].bits) {
        return BadSlot, Gone;
      }
      if slot !in table.caps {
        return NoCapability, Gone;
      }
      ghost var caps0, families0, pl := table.caps, table.families, places;
      OkPlaced();
      ShapeKeys(caps0);
      PlacedKeys(T.ShapeOf(caps0), pl);
      if table.caps[slot].isNode && !Hollow(table.caps, table.caps[slot].res) {
        out := DeleteTree(slot, steps);
        NotAlone(caps0, pl, slot);
      } else {
        ghost var childless := AllChildless(caps0, Subtree(T.ShapeOf(caps0), pl, slot));
        AloneOutcome(caps0, families0, heap.headers, pl, slot);
        out := RemoveOne(slot, steps);
        if out.Gone? {
          OneLess(caps0, families0, table.caps, pl, slot);
        }
      }
      return Done, out;
    }

    /// node_revoke on the node in `h`: everything derived from the capability goes, and nothing else does. No resource
    /// is freed, and all stays well.
    method NodeRevoke(h: Slot, index: nat) returns (st: Status)
      requires Ok() && h in table.caps && table.caps[h].isNode
      modifies this`places, heap, table
      ensures Ok() && table.freed == old(table.freed)
      ensures st == if index >= Pow2(old(table.caps)[h].bits) then BadSlot
        else
          var slot := In(old(table.caps)[h].res, index);
          if slot !in old(table.caps) then NoCapability
          else if old(table.caps)[slot].isNode || !(old(table.caps)[slot].original || old(table.caps)[slot].badged) then Invalid else Done
      ensures !st.Done? ==> unchanged(table) && unchanged(heap)
      ensures st.Done? ==>
        && var slot := In(old(table.caps)[h].res, index);
        && T.Tree(table.caps, table.families) == D.AfterRevoke(T.Tree(old(table.caps), old(table.families)), slot)
        && T.RevokedFrom(old(table.caps), table.caps, slot)
        && table.View().caps == old(table.View()).caps - D.Descendants(T.Tree(old(table.caps), old(table.families)), slot)
        && (old(table.caps)[slot].original ==> forall x :: x in table.caps && table.caps[x].res == old(table.caps)[slot].res ==> x == slot)
    {
      hide Ok, Pow2, T.Tree, D.AfterRevoke, D.Descendants, T.RevokedFrom;
      var slot := In(table.caps[h].res, index);
      if index >= Pow2(table.caps[h].bits) {
        return BadSlot;
      }
      if slot !in table.caps {
        return NoCapability;
      }
      if table.caps[slot].isNode || !(table.caps[slot].original || table.caps[slot].badged) {
        return Invalid;
      }
      RevokeSlot(slot);
      return Done;
    }

    /// The deletions, and the header of the resource if its first capability was among them.
    method RevokeSlot(slot: Slot)
      requires Ok() && slot in table.caps
      modifies this`places, heap, table
      ensures Ok() && table.freed == old(table.freed)
      ensures T.Tree(table.caps, table.families) == D.AfterRevoke(T.Tree(old(table.caps), old(table.families)), slot)
      ensures T.RevokedFrom(old(table.caps), table.caps, slot)
      ensures table.View().caps == old(table.View()).caps - D.Descendants(T.Tree(old(table.caps), old(table.families)), slot)
      ensures old(table.caps)[slot].original ==> forall x :: x in table.caps && table.caps[x].res == old(table.caps)[slot].res ==> x == slot
    {
      hide H.Tiled, H.Accounted, H.AllOwned, H.MovablesOwned, R.Consistent, T.FamiliesOk, T.Tree, T.ShapeOf, Rooted, Coupled, AllAddressed, D.AfterRevoke, D.Descendants, T.RevokedFrom;
      ghost var caps0, families0, v0, pl := table.caps, table.families, table.View(), places;
      ghost var gone := D.Descendants(T.Tree(caps0, families0), slot);
      var r := table.caps[slot].res;
      T.OnAList(v0, slot);
      SameKeys(v0);
      var was := table.owner[r];
      table.DeleteDerivations(slot);
      RevokedPlaces(caps0, families0, table.caps, v0, table.View(), pl, slot, gone);
      places := places - gone;
      assert table.owner == v0.owner[r := table.owner[r]];
      if table.owner[r] != was {
        HandOver(r, table.at[r], v0.owner);
      } else {
        assert table.owner == v0.owner;
      }
    }

    /// One slot of a node.
    method DeleteChild(slot: Slot, i: nat, steps: nat, ghost caps0: T.Caps, ghost pl: Places) returns (out: Outcome)
      requires Ok() && Rooted(T.ShapeOf(caps0), pl) && slot in pl && IsNode(T.ShapeOf(caps0), slot) && i < Pow2(Bits(T.ShapeOf(caps0), slot))
      requires PrunedTo(caps0, pl, table.caps, places, UpTo(T.ShapeOf(caps0), pl, slot, i) - {slot})
      modifies this`places, heap, table
      ensures out.Gone? ==> Ok() && PrunedTo(caps0, pl, table.caps, places, UpTo(T.ShapeOf(caps0), pl, slot, i + 1) - {slot})
      ensures out.Gone? ==> FreedMade(old(table.lists), table.lists, old(table.freed), table.freed)
      ensures AllChildless(caps0, Subtree(T.ShapeOf(caps0), pl, slot)) ==> out.Gone? || out.HeapBroken?
      decreases |Subtree(T.ShapeOf(caps0), pl, slot)|, 0
    {
      hide Ok, T.ShapeOf, Under, Subtree, UpTo, Rooted, PrunedTo, AllChildless, Pow2;
      ghost var sh, before, pl1 := T.ShapeOf(caps0), table.caps, places;
      ShapeAt(caps0, slot);
      PrunedSlot(caps0, pl, table.caps, places, slot, i);
      UpToStep(sh, pl, slot, i);
      UpToHas(sh, pl, slot, i);
      var child := In(table.caps[slot].res, i);
      PrunedChild(caps0, pl, table.caps, places, slot, i);
      if child in table.caps {
        out := DeleteTree(child, steps);
        if out.Gone? {
          PrunedMore(caps0, pl, before, pl1, table.caps, places, UpTo(sh, pl, slot, i) - {slot}, Subtree(sh, pl, child));
          assert UpTo(sh, pl, slot, i) - {slot} + Subtree(sh, pl, child) == UpTo(sh, pl, slot, i + 1) - {slot};
        }
      } else {
        out := Gone;
      }
    }

    /// The node itself.
    method DeleteLast(slot: Slot, steps: nat, ghost caps0: T.Caps, ghost pl: Places) returns (out: Outcome)
      requires Ok() && Rooted(T.ShapeOf(caps0), pl) && slot in caps0 && slot in pl
      requires PrunedTo(caps0, pl, table.caps, places, Subtree(T.ShapeOf(caps0), pl, slot) - {slot})
      modifies this`places, heap, table
      ensures out.Gone? ==> Ok() && PrunedTo(caps0, pl, table.caps, places, Subtree(T.ShapeOf(caps0), pl, slot))
      ensures out.Gone? ==> FreedMade(old(table.lists), table.lists, old(table.freed), table.freed)
      ensures AllChildless(caps0, Subtree(T.ShapeOf(caps0), pl, slot)) ==> out.Gone? || out.HeapBroken?
    {
      hide Ok, T.ShapeOf, Under, Subtree, Rooted, DeleteMade, T.DeletedFrom, PrunedTo, Hollow, T.Tree, R.AfterDelete, T.FamiliesOk;
      ghost var sh, caps1, families1, pl1 := T.ShapeOf(caps0), table.caps, table.families, places;
      OkPlaced();
      ShapeKeys(caps0);
      InOwnTree(sh, pl, slot);
      PrunedHollow(caps0, pl, caps1, pl1, slot);
      out := RemoveOne(slot, steps);
      if out.Gone? {
        OneLess(caps1, families1, table.caps, pl1, slot);
        PrunedMore(caps0, pl, caps1, pl1, table.caps, places, Subtree(sh, pl, slot) - {slot}, {slot});
        assert Subtree(sh, pl, slot) - {slot} + {slot} == Subtree(sh, pl, slot);
      }
    }

    /// The last capability of a resource frees it.
    method Release(r: Res, p: Ptr, ghost owner: Owned, ghost at: Blocks) returns (out: Outcome)
      requires heap.Valid() && table.Valid() && Placed() && AllAddressed(table.caps, places)
      requires Coupled(heap.headers, owner, at) && r in at && at[r] == p && heap.Allocated(p) && table.owner == owner - {r} && table.at == at - {r}
      modifies heap
      ensures out == if HR.NextAvailable(old(heap.headers), p - H.HEADER) then HeapBroken else Gone
      ensures out.Gone? ==> Ok() && HR.Returned(old(heap.headers), heap.headers, p - H.HEADER)
    {
      hide HR.Returned, H.Tiled, H.Accounted, H.AllOwned, H.MovablesOwned, R.Consistent, T.FamiliesOk, T.ShapeOf, Rooted, Coupled, AllAddressed, HR.NextAvailable, HR.OnlyReleased;
      var broken := HR.NextAvailable(heap.headers, p - H.HEADER);
      ghost var s := heap.Snap();
      var ok := heap.HeapFree(p);
      if broken {
        return HeapBroken;
      }
      HeaderFreed(s, heap.Snap(), owner, at, r);
      return Gone;
    }

    /// The next capability on the list owns the resource.
    method HandOver(r: Res, p: Ptr, ghost owner: Owned)
      requires heap.Valid() && table.Valid() && Placed() && AllAddressed(table.caps, places)
      requires Coupled(heap.headers, owner, table.at) && r in table.at && table.at[r] == p && r in table.owner && table.owner == owner[r := table.owner[r]]
      modifies heap
      ensures Ok()
    {
      hide H.Tiled, H.Accounted, R.Consistent, T.FamiliesOk, T.ShapeOf, Rooted, Coupled, AllAddressed, HeadBlocks, Clashes, H.PayloadsKept;
      ghost var s := heap.Snap();
      ClashesStart(s);
      BlockOf(heap.headers, owner, table.at, r);
      heap.SetRef(p, H.Capability(table.owner[r]));
      HeaderRenewed(s.hs, heap.headers, owner, table.at, r, table.owner[r]);
      ClashesStep(s, heap.Snap(), {}, p, table.owner[r]);
      assert {} + {p - H.HEADER} == {p - H.HEADER};
      OneHead(heap.headers, table.View(), r);
      MidDecides({table.lists[r][0]});
    }

    // -------------------------------------------------------------- blocks that move

    /// update_capability_resource for the address `w` in the header of resource `r`: the capability there is looked up,
    /// all on its list learn of the new address, and if the resource is a node, so do the neighbours of what is in it.
    method UpdateResource(w: Where, ptr: Ptr, ghost r: Res) returns (torn: bool)
      requires table.Valid() && Placed() && AllAddressed(table.caps, places) && Named(table.owner, w, r)
      modifies this`locked, table`caps, table`at
      ensures locked == old(locked) && table.Valid() && table.View() == R.AfterBlockMove(old(table.View()), r, ptr)
      ensures T.PointedTo(old(table.caps), table.caps, r, ptr) && OnlyPointers(old(table.caps), table.caps)
      ensures torn <==> Torn(old(table.caps), table.lists, table.families, r)
    {
      hide R.Consistent, T.FamiliesOk, T.ShapeOf, Rooted, AllAddressed, FoundBy, R.AfterBlockMove, T.Tree, T.NodeSafe, Addressed;
      ghost var caps0 := table.caps;
      ghost var s := HeaderLeads(table.caps, table.families, table.View(), places, w, r);
      var found := NotFound;
      var slot := Root(w.thread);
      if !(w.address == 0 && w.depth == Some(0)) {
        found := LookUp(w.thread, w.address, w.depth);
        LooksUp(table.caps, places, s, w, found);
        slot := found.slot;
      } else {
        RootLeadsTo(table.caps, places, s, w);
      }
      table.BlockMoved(slot, ptr);
      torn := false;
      if table.caps[slot].isNode {
        NodeWithin(caps0, places, slot);
        SafeSame(caps0, table.caps, table.lists, table.families, r);
        torn := table.NodeMoved(table.caps[slot].res, Pow2(table.caps[slot].bits));
      }
      if found.Found? {
        UnlockLookedUp(found);
      }
    }

    /// Delivers the notices of one allocation to the capabilities among the owners, as long as no list is torn.
    method Deliver(told: seq<K.Notice>) returns (torn: bool)
      requires table.Valid() && Placed() && AllAddressed(table.caps, places) && OneEach(table.owner) && Addressees(table.owner, told)
      modifies this`locked, table`caps, table`at
      ensures locked == old(locked) && table.Valid() && OnlyPointers(old(table.caps), table.caps)
      ensures !torn ==> table.View() == Heard(old(table.View()), told)
      ensures torn <==> TornBy(old(table.caps), table.lists, table.families, table.owner, told)
    {
      hide R.Consistent, T.FamiliesOk, T.ShapeOf, Rooted, AllAddressed, R.AfterBlockMove, Torn, HearOne, OneEach, OnlyPointers;
      ghost var caps0, owner := table.caps, table.owner;
      var i := 0;
      torn := false;
      SamePointers(caps0);
      assert told[..0] == [];
      while i < |told| && !torn
        invariant 0 <= i <= |told| && locked == old(locked) && table.Valid() && OnlyPointers(caps0, table.caps)
        invariant !torn ==> table.View() == Heard(old(table.View()), told[..i])
        invariant torn <==> TornBy(caps0, table.lists, table.families, owner, told[..i])
      {
        assert told[..i + 1][..i] == told[..i] && told[i] in told;
        var n := told[i];
        PointersPlaced(caps0, table.caps, places);
        if n.owner.Capability? {
          ghost var r :| Named(owner, n.owner.address, r);
          ghost var caps1 := table.caps;
          HearsOne(table.View(), n, r);
          torn := UpdateResource(n.owner.address, n.at, r);
          PointersThen(caps0, caps1, table.caps, table.lists, table.families, r);
          TornNext(caps0, table.lists, table.families, owner, told, i, r);
        } else {
          NoneOfTheirs(table.View(), n);
          NotTornNext(caps0, table.lists, table.families, owner, told, i);
        }
        i := i + 1;
      }
      assert !torn ==> told[..i] == told;
      if torn {
        TornMore(caps0, table.lists, table.families, owner, told, i);
      }
    }

    /// heap_alloc with what the moves set off. The allocator does not look at the capabilities, so the notices
    /// may come at the end. Unless a node was moved that is linked with itself, every capability points afterwards
    /// at the block that carries on its allocation, and all is well.
    method Allocate(actual: nat) returns (r: K.Alloc, torn: bool, ghost moved: map<H.Addr, H.Addr>)
      requires Ok() && actual < WORD
      modifies this`locked, heap, table`caps, table`at
      ensures locked == old(locked)
      ensures torn <==> TornBy(old(table.caps), table.lists, table.families, table.owner, heap.told)
      ensures (forall n :: !Torn(old(table.caps), table.lists, table.families, n)) ==> !torn
      ensures !r.Diverges? && !torn ==>
        && Ok() && H.Relocated(old(heap.Snap()), heap.Snap(), moved)
        && forall s :: s in old(table.caps) ==> Follows(old(heap.Snap()), heap.Snap(), old(table.View()), table.View(), moved, s)
      ensures OnlyPointers(old(table.caps), table.caps)
      ensures r.Pointer? ==> heap.Allocated(r.p) && Unclaimed(heap.headers, r.p)
    {
      hide H.WF, H.AllOwned, H.Relocated, R.Consistent, T.FamiliesOk, T.ShapeOf, Rooted, AllAddressed, Coupled, K.LoneDecides, K.ServedFrom, K.StuckState;
      hide Heard, K.Tell, K.SentTo, K.Owners, K.RoundSize, Follows, OneEach, Addressees, OnlyPointers, TornBy, Torn, R.AfterBlockMove;
      ghost var s0, t, caps0 := heap.Snap(), table.View(), table.caps;
      SameKeys(t);
      OwnersApart(s0, table.owner, table.at);
      r, moved := heap.Allocate(actual);
      TheyAreThere(s0.hs, table.owner, table.at, heap.told);
      torn := Deliver(heap.told);
      NeverTorn(caps0, table.lists, table.families, table.owner, heap.told);
      if !r.Diverges? && !torn {
        CapabilitiesFollow(s0, heap.Snap(), t, moved, heap.told, if r.Null? then {} else {r.p - H.HEADER});
        PointersPlaced(caps0, table.caps, places);
      }
    }

    /// address_space_alloc: a block for a new resource, and its first capability in the slot at the given address. The
    /// blocks that move on the way are followed by their capabilities, so that on success the new capability is found
    /// under the address it stores, its block may move, and all is well.
    method AddressSpaceAlloc(t: nat, address: nat, depth: Option<nat>, actual: nat, n: Res, isNode: bool, bits: nat, tooDeep: bool)
      returns (a: K.Alloc, torn: bool, st: Status, found: Result, ok: bool)
      requires Ok() && actual < WORD && IsWord(address) && n !in table.lists && (isNode ==> 1 <= bits)
      modifies this, heap, table
      ensures locked == old(locked) && (torn ==> !(forall r :: !Torn(old(table.caps), old(table.lists), old(table.families), r)))
      ensures !a.Diverges? && !torn && a.Null? ==> Ok() && OnlyPointers(old(table.caps), table.caps)
      ensures !torn && a.Pointer? ==>
        && FoundBy(T.ShapeOf(old(table.caps)), old(places), t, address, depth, found)
        && st == if found.NotFound? then NoCapability
          else if found.slot in old(table.caps) then Exists
          else if isNode && tooDeep then TooDeep else Done
      ensures !torn && a.Pointer? && st.Done? ==>
        && Ok() && T.NewIn(table.caps - {found.slot}, table.caps, found.slot, n, a.p, isNode, bits, Where(t, address, Some(found.depth)))
        && OnlyPointers(old(table.caps), table.caps - {found.slot})
        && MayMove(a.p)
      ensures !torn && a.Pointer? && !st.Done? && ok && Ok() ==> OnlyPointers(old(table.caps), table.caps) && !heap.Allocated(a.p)
    {
      hide Ok, FoundBy, T.ShapeOf, IsWord, Torn, TornBy, OnlyPointers, Unclaimed, H.Relocated, Follows, HR.NextAvailable;
      st, found, ok := NoCapability, NotFound, true;
      ghost var moved;
      ghost var caps0, pl := table.caps, places;
      a, torn, moved := Allocate(actual);
      if torn || !a.Pointer? {
        return;
      }
      PointersPlaced(caps0, table.caps, pl);
      ghost var caps1 := table.caps;
      st, found, ok := Populate(t, address, depth, n, a.p, isNode, bits, tooDeep);
      PointersKeys(caps0, caps1);
      if st.Done? {
        OneMore(caps0, caps1, table.caps, found.slot);
      }
    }

    lemma OkConsistent()
      requires Ok()
      ensures R.Consistent(table.View())
    {
    }

    /// What LIST_INSERT_NO_CONTAINER does to the links of the list that a copy joins.
    method CopyLinks(src: Slot) returns (linked: bool)
      requires Ok() && src in table.caps
      ensures linked <==> Alone(table.caps, table.lists, src)
    {
      hide T.FamiliesOk, R.CapOk, R.ListOk, R.Consistent, Rooted, Coupled, AllAddressed, H.WF, H.AllOwned;
      OnList(table.caps, table.View(), src);
      linked := T.InsertLinks(|table.lists[table.caps[src].res]|);
    }

    lemma OkStored(s: Slot)
      requires Ok() && s in table.caps
      ensures Stored(table.caps, places, s)
    {
    }

    lemma OkPlaced()
      requires Ok()
      ensures Placed()
    {
    }

    twostate lemma OkUnlocked()
      requires old(Ok()) && unchanged(heap) && unchanged(table) && places == old(places)
      ensures Ok()
    {
    }
  }

  /// Every capability is found under the address that it stores.
  ghost predicate AllAddressed(caps: T.Caps, pl: Places) {
    forall s {:trigger Stored(caps, pl, s)} :: s in caps ==> Stored(caps, pl, s)
  }

  ghost predicate Stored(caps: T.Caps, pl: Places, s: Slot) { s in caps && Addressed(T.ShapeOf(caps), pl, s, caps[s].stored) }

  /// The blocks of the resources on whose lists one of `done` is the first.
  ghost function HeadBlocks(lists: map<Res, seq<Slot>>, at: Blocks, done: set<Slot>): set<H.Addr> {
    set r | r in lists && r in at && lists[r] != [] && lists[r][0] in done && H.HEADER <= at[r] :: at[r] - H.HEADER
  }

  /// Headers name different capabilities when all are found under what they store.
  lemma OwnersOnce(caps: T.Caps, v: R.Tables, pl: Places)
    requires Rooted(T.ShapeOf(caps), pl) && AllAddressed(caps, pl) && R.Consistent(v) && v == T.Resources(caps, v.lists, v.owner, v.at)
    ensures OneEach(v.owner)
  {
    hide Rooted, Addressed, T.ShapeOf;
    forall r, q | r in v.owner && q in v.owner && v.owner[r] == v.owner[q] ensures r == q {
      assert R.ListOk(v, r) && R.ListOk(v, q);
      var s, x := v.lists[r][0], v.lists[q][0];
      assert s in v.lists[r] && x in v.lists[q];
      assert Stored(caps, pl, s) && Stored(caps, pl, x);
      AddressOnce(T.ShapeOf(caps), pl, s, x, v.owner[r]);
    }
  }

  lemma HeadRefs(hs: H.Headers, v: R.Tables, done: set<Slot>)
    requires Coupled(hs, v.owner, v.at)
    ensures forall b :: b in HeadBlocks(v.lists, v.at, done) && b in hs && hs[b].ref.Ref? ==> hs[b].ref.owner.Capability?
  {
    forall b | b in HeadBlocks(v.lists, v.at, done) && b in hs && hs[b].ref.Ref? ensures hs[b].ref.owner.Capability? {
      var r :| r in v.at && H.HEADER <= v.at[r] && b == v.at[r] - H.HEADER;
      assert Backed(hs, v.owner, v.at, r);
    }
  }

  lemma AllMovables(s: H.Snapshot)
    requires H.AllOwned(s)
    ensures H.MovablesOwned(s)
  {
  }

  /// The block of a capability, and whether it is among those of the first capabilities `done`.
  lemma HeadOf(hs: H.Headers, v: R.Tables, s: Slot, done: set<Slot>)
    requires R.Consistent(v) && Coupled(hs, v.owner, v.at) && s in v.caps && s !in done
    ensures var r, p := v.caps[s].res, v.caps[s].ptr;
      && r in v.at && v.at[r] == p && H.HEADER <= p && p - H.HEADER in hs && hs[p - H.HEADER].kind != H.Available
      && r in v.lists && v.lists[r] != []
      && (v.lists[r][0] == s ==> p - H.HEADER !in HeadBlocks(v.lists, v.at, done))
      && HeadBlocks(v.lists, v.at, done + {s}) ==
         if v.lists[r][0] == s then HeadBlocks(v.lists, v.at, done) + {p - H.HEADER} else HeadBlocks(v.lists, v.at, done)
  {
    var r, p := v.caps[s].res, v.caps[s].ptr;
    assert R.CapOk(v, s) && R.ListOk(v, r) && Backed(hs, v.owner, v.at, r);
    hide Coupled;
    assert Separate(v.at) by {
      CoupledSeparate(hs, v.owner, v.at);
    }
    forall q | q in v.lists && v.lists[q] != [] && v.lists[q][0] == s ensures q == r {
      assert R.ListOk(v, q) && v.lists[q][0] in v.lists[q];
    }
  }

  // ---------------------------------------------------------------- blocks that move

  /// Resource `r` is a node, and its slots are linked so that a move of its block breaks the links.
  ghost predicate Torn(caps: T.Caps, lists: map<Res, seq<Slot>>, families: T.Families, r: Res) {
    (exists s :: s in caps && caps[s].isNode && caps[s].res == r) && !T.NodeSafe(caps, lists, families, r)
  }

  /// One of the notices is for such a node.
  ghost predicate TornBy(caps: T.Caps, lists: map<Res, seq<Slot>>, families: T.Families, owner: Owned, told: seq<K.Notice>) {
    exists n, r :: n in told && n.owner.Capability? && Named(owner, n.owner.address, r) && Torn(caps, lists, families, r)
  }

  ghost predicate OnlyPointers(caps: T.Caps, caps': T.Caps) {
    caps'.Keys == caps.Keys && forall s :: s in caps ==> caps'[s] == caps[s].(ptr := caps'[s].ptr)
  }

  /// Every notice to a capability is for the header of a resource.
  ghost predicate Addressees(owner: Owned, told: seq<K.Notice>) {
    forall n :: n in told && n.owner.Capability? ==> exists r :: Named(owner, n.owner.address, r)
  }

  lemma TheyAreThere(hs: H.Headers, owner: Owned, at: Blocks, told: seq<K.Notice>)
    requires Coupled(hs, owner, at) && K.SentTo(told, K.Owners(hs))
    ensures Addressees(owner, told)
  {
    forall n | n in told && n.owner.Capability? ensures exists r :: Named(owner, n.owner.address, r) {
      assert n.owner in K.Owners(hs);
      var b :| b in hs && hs[b].kind != H.Available && hs[b].ref == H.Ref(n.owner);
      assert Known(hs, at, b);
      var r :| r in at && at[r] == b + H.HEADER;
      assert Backed(hs, owner, at, r);
      assert Named(owner, n.owner.address, r);
    }
  }

  /// The header of a resource has the address of the first capability on its list; a node has only one.
  lemma HeaderLeads(caps: T.Caps, families: T.Families, v: R.Tables, pl: Places, w: Where, r: Res) returns (s: Slot)
    requires R.Consistent(v) && T.FamiliesOk(caps, families) && v == T.Resources(caps, v.lists, v.owner, v.at)
    requires AllAddressed(caps, pl) && Named(v.owner, w, r)
    ensures s in caps && caps[s].res == r && Addressed(T.ShapeOf(caps), pl, s, w)
    ensures caps[s].isNode <==> exists x :: x in caps && caps[x].isNode && caps[x].res == r
  {
    hide T.FamiliesOk, Addressed;
    assert R.ListOk(v, r);
    s := v.lists[r][0];
    assert s in v.lists[r] && Stored(caps, pl, s);
    forall x | x in caps && caps[x].isNode && caps[x].res == r ensures x == s {
      NodeAlone(caps, families, v, x);
    }
  }

  lemma NodeAlone(caps: T.Caps, families: T.Families, v: R.Tables, x: Slot)
    requires R.Consistent(v) && T.FamiliesOk(caps, families) && v == T.Resources(caps, v.lists, v.owner, v.at) && x in caps && caps[x].isNode
    ensures caps[x].res in v.lists && v.lists[caps[x].res] == [x]
  {
    assert D.Links(T.Tree(caps, families), x);
    hide T.FamiliesOk, R.Consistent;
    T.KidsFacts(caps, families, x);
    T.OnlyCapability(caps, families, v.lists, v.owner, v.at, x);
  }

  /// Look-up finds the capability that is found there.
  lemma LooksUp(caps: T.Caps, pl: Places, s: Slot, w: Where, found: Result)
    requires Rooted(T.ShapeOf(caps), pl) && Addressed(T.ShapeOf(caps), pl, s, w) && !(w.address == 0 && w.depth == Some(0))
    requires FoundBy(T.ShapeOf(caps), pl, w.thread, w.address, w.depth, found)
    ensures found.Found? && found.slot == s
  {
    hide Low;
    var sh := T.ShapeOf(caps);
    var h := Holder(sh, pl, s);
    assert Spot(sh, pl, s, pl[s]);
    if w.depth.None? {
      assert OnTheWay(sh, pl, s, w.thread, w.address);
      HasRoot(sh, pl, s);
    } else {
      assert pl[s] == Place(w.thread, Low(w.address, w.depth.value), w.depth.value);
      OneSpot(sh, pl, s, found.slot, pl[s]);
    }
  }

  lemma RootLeadsTo(caps: T.Caps, pl: Places, s: Slot, w: Where)
    requires Rooted(T.ShapeOf(caps), pl) && Addressed(T.ShapeOf(caps), pl, s, w) && w.address == 0 && w.depth == Some(0)
    ensures s == Root(w.thread)
  {
    PackBound(T.ShapeOf(caps), pl, s);
    RootPlace(T.ShapeOf(caps), pl, s);
  }

  lemma NodeWithin(caps: T.Caps, pl: Places, s: Slot)
    requires Rooted(T.ShapeOf(caps), pl) && s in caps && caps[s].isNode
    ensures T.Within(caps, caps[s].res, Pow2(caps[s].bits))
  {
    hide Rooted, T.ShapeOf, Pow2;
    var sh := T.ShapeOf(caps);
    ShapeAt(caps, s);
    ShapeKeys(caps);
    forall x | x in caps && x.In? && x.node == caps[s].res ensures x.index < Pow2(caps[s].bits) {
      var g := Holder(sh, pl, x);
      Holders(sh, pl, g, s);
    }
  }

  lemma SafeSame(caps: T.Caps, caps': T.Caps, lists: map<Res, seq<Slot>>, families: T.Families, n: Res)
    requires OnlyPointers(caps, caps')
    ensures T.NodeSafe(caps', lists, families, n) <==> T.NodeSafe(caps, lists, families, n)
    ensures Torn(caps', lists, families, n) <==> Torn(caps, lists, families, n)
  {
    forall s ensures T.SlotSafe(caps', lists, families, n, s) <==> T.SlotSafe(caps, lists, families, n, s) {
    }
  }

  /// A capability and the first that was derived from it, in one node.
  lemma PairTorn(caps: T.Caps, lists: map<Res, seq<Slot>>, families: T.Families, h: Slot, i: nat, j: nat)
    requires T.FamiliesOk(caps, families) && h in caps && caps[h].isNode
    requires In(caps[h].res, i) in caps && caps[In(caps[h].res, i)].first == Some(In(caps[h].res, j))
    ensures Torn(caps, lists, families, caps[h].res)
  {
    hide T.FamiliesOk, T.NodeSafe;
    T.PairUnsafe(caps, lists, families, caps[h].res, i, j);
  }

  lemma SamePointers(caps: T.Caps)
    ensures OnlyPointers(caps, caps)
  {
  }

  lemma PointersThen(caps0: T.Caps, caps1: T.Caps, caps: T.Caps, lists: map<Res, seq<Slot>>, families: T.Families, r: Res)
    requires OnlyPointers(caps0, caps1) && OnlyPointers(caps1, caps)
    ensures OnlyPointers(caps0, caps) && (Torn(caps1, lists, families, r) <==> Torn(caps0, lists, families, r))
  {
    hide Torn, T.NodeSafe;
    SafeSame(caps0, caps1, lists, families, r);
  }

  lemma PointersKeys(caps: T.Caps, caps': T.Caps)
    requires OnlyPointers(caps, caps')
    ensures caps'.Keys == caps.Keys
  {
  }

  lemma OneMore(caps0: T.Caps, caps1: T.Caps, caps: T.Caps, s: Slot)
    requires OnlyPointers(caps0, caps1) && s !in caps1 && s in caps && caps == caps1[s := caps[s]]
    ensures OnlyPointers(caps0, caps - {s})
  {
    assert caps - {s} == caps1;
  }

  /// Places and addresses are as they were.
  lemma PointersPlaced(caps0: T.Caps, caps: T.Caps, pl: Places)
    requires OnlyPointers(caps0, caps)
    ensures T.ShapeOf(caps) == T.ShapeOf(caps0) && (AllAddressed(caps0, pl) ==> AllAddressed(caps, pl))
  {
    if AllAddressed(caps0, pl) {
      forall s | s in caps ensures Stored(caps, pl, s) {
        assert Stored(caps0, pl, s);
      }
    }
  }

  lemma NoneOfTheirs(t: R.Tables, n: K.Notice)
    requires !n.owner.Capability?
    ensures HearOne(t, n) == t
  {
  }

  lemma TornNext(caps: T.Caps, lists: map<Res, seq<Slot>>, families: T.Families, owner: Owned, told: seq<K.Notice>, i: nat, r: Res)
    requires i < |told| && OneEach(owner) && told[i].owner.Capability? && Named(owner, told[i].owner.address, r)
    requires !TornBy(caps, lists, families, owner, told[..i])
    ensures TornBy(caps, lists, families, owner, told[..i + 1]) <==> Torn(caps, lists, families, r)
  {
    hide Torn;
    assert told[..i + 1] == told[..i] + [told[i]];
    if Torn(caps, lists, families, r) {
      assert told[i] in told[..i + 1];
    }
  }

  lemma NotTornNext(caps: T.Caps, lists: map<Res, seq<Slot>>, families: T.Families, owner: Owned, told: seq<K.Notice>, i: nat)
    requires i < |told| && !told[i].owner.Capability? && !TornBy(caps, lists, families, owner, told[..i])
    ensures !TornBy(caps, lists, families, owner, told[..i + 1])
  {
    hide Torn;
    assert told[..i + 1] == told[..i] + [told[i]];
  }

  lemma TornMore(caps: T.Caps, lists: map<Res, seq<Slot>>, families: T.Families, owner: Owned, told: seq<K.Notice>, i: nat)
    requires i <= |told| && TornBy(caps, lists, families, owner, told[..i])
    ensures TornBy(caps, lists, families, owner, told)
  {
    hide Torn;
    var n, r :| n in told[..i] && n.owner.Capability? && Named(owner, n.owner.address, r) && Torn(caps, lists, families, r);
    assert n in told;
  }

  lemma NeverTorn(caps: T.Caps, lists: map<Res, seq<Slot>>, families: T.Families, owner: Owned, told: seq<K.Notice>)
    ensures (forall n :: !Torn(caps, lists, families, n)) ==> !TornBy(caps, lists, families, owner, told)
  {
  }

  // ---------------------------------------------------------------- deletions

  /// Gone, or what went wrong: a loop that does not end, derivations left behind, or heap_free with a free block behind
  /// the freed one.
  datatype Outcome = Gone | Hangs | Tangled | HeapBroken

  /// The block at `p` was freed.
  ghost predicate BlockReturned(hs: H.Headers, hs': H.Headers, p: Ptr) { H.HEADER <= p && HR.Returned(hs, hs', p - H.HEADER) }

  /// How the deletion of one capability ends.
  ghost function OutcomeOf(caps: T.Caps, families: T.Families, hs: H.Headers, slot: Slot): Outcome
    requires slot in caps
  {
    var c := caps[slot];
    if c.badged && c.from.Some? && c.first.Some? && c.family in families && |families[c.family]| > 1 then Hangs
    else if c.first.Some? then Tangled
    else if c.original && c.ptr >= H.HEADER && HR.NextAvailable(hs, c.ptr - H.HEADER) then HeapBroken
    else Gone
  }

  /// What the deletion of one capability leaves.
  ghost predicate DeleteMade(caps0: T.Caps, families0: T.Families, v0: R.Tables, caps: T.Caps, families: T.Families, v: R.Tables, slot: Slot) {
    && var t := T.Tree(caps0, families0);
    && slot in t && (t[slot].parent.Some? ==> D.OnListOf(t, slot, t[slot].parent.value))
    && T.Tree(caps, families) == D.AfterDelete(t, slot)
    && R.CapOk(v0, slot) && R.ListOk(v0, v0.caps[slot].res) && v == R.AfterDelete(v0, slot)
  }

  /// The resources that lost their last capability were freed.
  ghost predicate FreedMade(lists0: map<Res, seq<Slot>>, lists: map<Res, seq<Slot>>, freed0: set<Res>, freed: set<Res>) {
    lists.Keys <= lists0.Keys && freed == freed0 + (lists0.Keys - lists.Keys)
  }

  /// The slots `gone` were emptied. Whatever is left is what and where it was; its first derivation is another one only
  /// if the one that it had is gone.
  ghost predicate PrunedTo(caps0: T.Caps, pl0: Places, caps: T.Caps, pl: Places, gone: set<Slot>) {
    && pl == pl0 - gone && caps.Keys == caps0.Keys - gone && T.ShapeOf(caps) == T.ShapeOf(caps0) - gone
    && forall s :: s in caps ==>
        && caps[s] == caps0[s].(first := caps[s].first)
        && (caps[s].first != caps0[s].first ==> caps0[s].first.Some? && caps0[s].first.value in gone)
  }

  ghost predicate AllChildless(caps: T.Caps, slots: set<Slot>) { forall s :: s in slots && s in caps ==> caps[s].first.None? }

  lemma PrunedNone(caps: T.Caps, pl: Places)
    ensures PrunedTo(caps, pl, caps, pl, {})
  {
    assert pl - {} == pl && T.ShapeOf(caps) - {} == T.ShapeOf(caps);
  }

  lemma PrunedMore(caps0: T.Caps, pl0: Places, caps1: T.Caps, pl1: Places, caps: T.Caps, pl: Places, gone: set<Slot>, more: set<Slot>)
    requires PrunedTo(caps0, pl0, caps1, pl1, gone) && PrunedTo(caps1, pl1, caps, pl, more)
    ensures PrunedTo(caps0, pl0, caps, pl, gone + more)
  {
    hide T.ShapeOf;
    assert pl0 - gone - more == pl0 - (gone + more);
    assert T.ShapeOf(caps0) - gone - more == T.ShapeOf(caps0) - (gone + more);
  }

  /// The node is still there while its slots are emptied.
  lemma PrunedSlot(caps0: T.Caps, pl0: Places, caps: T.Caps, pl: Places, slot: Slot, i: nat)
    requires Rooted(T.ShapeOf(caps0), pl0) && slot in pl0 && IsNode(T.ShapeOf(caps0), slot)
    requires PrunedTo(caps0, pl0, caps, pl, UpTo(T.ShapeOf(caps0), pl0, slot, i) - {slot})
    ensures slot in caps && slot in caps0 && caps[slot].res == caps0[slot].res
  {
    hide T.ShapeOf, Rooted, UpTo;
    ShapeAt(caps0, slot);
  }

  /// And what lies under the next slot is all there.
  lemma PrunedChild(caps0: T.Caps, pl0: Places, caps: T.Caps, pl: Places, slot: Slot, i: nat)
    requires Rooted(T.ShapeOf(caps0), pl0) && slot in pl0 && IsNode(T.ShapeOf(caps0), slot) && i < Pow2(Bits(T.ShapeOf(caps0), slot))
    requires PrunedTo(caps0, pl0, caps, pl, UpTo(T.ShapeOf(caps0), pl0, slot, i) - {slot})
    ensures var sh, c := T.ShapeOf(caps0), In(T.ShapeOf(caps0)[slot].res, i);
      && (c in caps <==> c in sh)
      && (c in caps ==> c in pl && c in pl0 && Subtree(T.ShapeOf(caps), pl, c) == Subtree(sh, pl0, c))
      && (c in caps ==> |Subtree(sh, pl0, c)| < |Subtree(sh, pl0, slot)|)
      && (c in caps && AllChildless(caps0, Subtree(sh, pl0, slot)) ==> AllChildless(caps, Subtree(sh, pl0, c)))
  {
    hide T.ShapeOf, Rooted, Under, UpTo, Pow2;
    var sh, c := T.ShapeOf(caps0), In(T.ShapeOf(caps0)[slot].res, i);
    ShapeKeys(caps0);
    ShapeKeys(caps);
    PlacedKeys(sh, pl0);
    UpToStep(sh, pl0, slot, i);
    assert Contains(sh, slot, c);
    if c in sh {
      InOwnTree(sh, pl0, c);
      ChildFirst(sh, pl0, slot, c);
    } else {
      assert c !in caps;
    }
  }

  lemma PrunedHollow(caps0: T.Caps, pl0: Places, caps: T.Caps, pl: Places, slot: Slot)
    requires Rooted(T.ShapeOf(caps0), pl0) && slot in caps0 && slot in pl0 && Rooted(T.ShapeOf(caps), pl)
    requires PrunedTo(caps0, pl0, caps, pl, Subtree(T.ShapeOf(caps0), pl0, slot) - {slot})
    ensures slot in caps && (caps[slot].isNode ==> Hollow(caps, caps[slot].res))
    ensures slot in Subtree(T.ShapeOf(caps0), pl0, slot) && (AllChildless(caps0, Subtree(T.ShapeOf(caps0), pl0, slot)) ==> caps[slot].first.None?)
  {
    hide T.ShapeOf, Rooted, Under, Hollow;
    ShapeKeys(caps0);
    ShapeKeys(caps);
    PlacedKeys(T.ShapeOf(caps0), pl0);
    InOwnTree(T.ShapeOf(caps0), pl0, slot);
    if caps[slot].isNode {
      HollowAlone(caps, pl, slot);
    }
  }

  /// One deletion.
  lemma OneLess(caps0: T.Caps, families0: T.Families, caps: T.Caps, pl: Places, slot: Slot)
    requires T.DeletedFrom(caps0, families0, caps, slot)
    ensures PrunedTo(caps0, pl, caps, pl - {slot}, {slot})
  {
  }

  /// A node with an occupied slot does not go alone.
  lemma NotAlone(caps: T.Caps, pl: Places, slot: Slot)
    requires Rooted(T.ShapeOf(caps), pl) && slot in caps && slot in pl && caps[slot].isNode && !Hollow(caps, caps[slot].res)
    ensures caps.Keys - Subtree(T.ShapeOf(caps), pl, slot) != caps.Keys - {slot}
  {
    hide T.ShapeOf, Rooted, Under, Hollow;
    ShapeKeys(caps);
    HollowAlone(caps, pl, slot);
    var x :| x in caps && x in pl && x != slot && Under(pl[x], pl[slot]);
    assert x in caps.Keys - {slot} && x in Subtree(T.ShapeOf(caps), pl, slot);
  }

  /// Anything else does.
  lemma AloneOutcome(caps: T.Caps, families: T.Families, hs: H.Headers, pl: Places, slot: Slot)
    requires Rooted(T.ShapeOf(caps), pl) && slot in caps && slot in pl && (caps[slot].isNode ==> Hollow(caps, caps[slot].res))
    ensures Subtree(T.ShapeOf(caps), pl, slot) == {slot}
    ensures AllChildless(caps, {slot}) ==> OutcomeOf(caps, families, hs, slot).Gone? || OutcomeOf(caps, families, hs, slot).HeapBroken?
  {
    hide T.ShapeOf, Rooted, Under, Hollow;
    ShapeKeys(caps);
    ShapeAt(caps, slot);
    PlacedKeys(T.ShapeOf(caps), pl);
    InOwnTree(T.ShapeOf(caps), pl, slot);
    if caps[slot].isNode {
      HollowAlone(caps, pl, slot);
    } else {
      LeafTree(T.ShapeOf(caps), pl, slot);
    }
  }

  /// Derived capabilities are no nodes, so that nothing lies under them.
  lemma RevokedPlaces(caps: T.Caps, families: T.Families, caps': T.Caps, v: R.Tables, v': R.Tables, pl: Places, slot: Slot, gone: set<Slot>)
    requires Rooted(T.ShapeOf(caps), pl) && AllAddressed(caps, pl) && T.FamiliesOk(caps, families) && slot in caps
    requires gone == D.Descendants(T.Tree(caps, families), slot)
    requires v == T.Resources(caps, v.lists, v.owner, v.at) && v' == T.Resources(caps', v'.lists, v'.owner, v'.at)
    requires v'.caps == v.caps - gone && T.ShapeOf(caps') == T.ShapeOf(caps) - gone
    ensures Rooted(T.ShapeOf(caps'), pl - gone) && AllAddressed(caps', pl - gone)
  {
    hide T.FamiliesOk, T.ShapeOf, Rooted, Addressed, D.Descendants, T.Tree;
    assert caps'.Keys == v'.caps.Keys && caps.Keys == v.caps.Keys;
    forall s | s in caps' ensures s in caps && caps'[s].stored == caps[s].stored {
      assert v'.caps[s] == v.caps[s];
    }
    forall x | x in gone ensures !IsNode(T.ShapeOf(caps), x) {
      DerivedLeaf(caps, families, slot, x);
      ShapeAt(caps, x);
    }
    Shrunk(T.ShapeOf(caps), pl, gone);
    LessAddressed(caps, caps', pl, gone);
  }

  lemma DerivedLeaf(caps: T.Caps, families: T.Families, slot: Slot, x: Slot)
    requires T.FamiliesOk(caps, families) && slot in caps && x in D.Descendants(T.Tree(caps, families), slot)
    ensures x in caps && !caps[x].isNode
  {
    var t := T.Tree(caps, families);
    assert D.Descends(t, x, slot) && D.Links(t, x);
  }

  lemma TreeParent(caps: T.Caps, families: T.Families, s: Slot)
    requires s in caps
    ensures s in T.Tree(caps, families) && T.Tree(caps, families)[s].parent == caps[s].from
  {
  }

  lemma DeleteFacts(hs: H.Headers, caps: T.Caps, families: T.Families, v: R.Tables, slot: Slot)
    requires Coupled(hs, v.owner, v.at) && R.Consistent(v) && v == T.Resources(caps, v.lists, v.owner, v.at) && slot in caps && T.FamiliesOk(caps, families)
    ensures var r, p := caps[slot].res, caps[slot].ptr;
      && r in v.lists && v.lists[r] != [] && r in v.at && v.at[r] == p && H.HEADER <= p && p - H.HEADER in hs && hs[p - H.HEADER].kind != H.Available
    ensures caps[slot].first.None? ==> (v.lists[caps[slot].res] == [slot] <==> caps[slot].original)
    ensures caps[slot].first.None? ==> !T.Merges(caps, families, slot)
  {
    hide T.FamiliesOk;
    assert R.CapOk(v, slot) && R.ListOk(v, caps[slot].res) && Backed(hs, v.owner, v.at, caps[slot].res);
    if caps[slot].first.None? {
      T.OnlyCapability(caps, families, v.lists, v.owner, v.at, slot);
    }
  }

  /// The tree, the addresses, and the headers that are to be once the capability is off the lists.
  lemma RemovedPlaces(caps: T.Caps, caps': T.Caps, v: R.Tables, v': R.Tables, pl: Places, slot: Slot)
    requires Rooted(T.ShapeOf(caps), pl) && AllAddressed(caps, pl) && slot in caps && (caps[slot].isNode ==> Hollow(caps, caps[slot].res))
    requires v == T.Resources(caps, v.lists, v.owner, v.at) && v' == T.Resources(caps', v'.lists, v'.owner, v'.at)
    requires R.CapOk(v, slot) && R.ListOk(v, caps[slot].res) && v' == R.AfterDelete(v, slot) && T.ShapeOf(caps') == T.ShapeOf(caps) - {slot}
    ensures Rooted(T.ShapeOf(caps'), pl - {slot}) && AllAddressed(caps', pl - {slot})
    ensures var r, list := caps[slot].res, v.lists[caps[slot].res];
      && (list == [slot] ==> v'.owner == v.owner - {r} && v'.at == v.at - {r})
      && (list != [slot] ==> v'.at == v.at && (list[0] != slot ==> v'.owner == v.owner) && r in v'.owner && v'.owner == v.owner[r := v'.owner[r]])
  {
    hide T.ShapeOf, Rooted, Addressed;
    ShapeAt(caps, slot);
    ShapeKeys(caps);
    Emptied(T.ShapeOf(caps), pl, slot);
    assert v'.caps == v.caps - {slot};
    assert caps'.Keys == v'.caps.Keys && caps.Keys == v.caps.Keys;
    forall s | s in caps' ensures s in caps && caps'[s].stored == caps[s].stored {
      assert v'.caps[s] == v.caps[s];
    }
    LessAddressed(caps, caps', pl, {slot});
  }

  lemma Emptied(sh: Shape, pl: Places, slot: Slot)
    requires Rooted(sh, pl) && slot in sh && (IsNode(sh, slot) ==> forall s :: s in sh && s.In? ==> s.node != sh[slot].res)
    ensures Rooted(sh - {slot}, pl - {slot})
  {
    Shrunk(sh, pl, {slot});
  }

  lemma LessAddressed(caps: T.Caps, caps': T.Caps, pl: Places, gone: set<Slot>)
    requires Rooted(T.ShapeOf(caps), pl) && AllAddressed(caps, pl) && T.ShapeOf(caps') == T.ShapeOf(caps) - gone
    requires forall s :: s in caps' ==> s in caps && caps'[s].stored == caps[s].stored
    ensures AllAddressed(caps', pl - gone)
  {
    hide T.ShapeOf, Rooted, Addressed;
    ShapeKeys(caps);
    ShapeKeys(caps');
    PlacedKeys(T.ShapeOf(caps), pl);
    forall s | s in caps' ensures Stored(caps', pl - gone, s) {
      assert Stored(caps, pl, s);
      AddressedSame(T.ShapeOf(caps), pl, T.ShapeOf(caps'), pl - gone, s, caps[s].stored);
    }
  }

  lemma BlockOf(hs: H.Headers, owner: Owned, at: Blocks, r: Res)
    requires Coupled(hs, owner, at) && r in at
    ensures H.HEADER <= at[r] && at[r] - H.HEADER in hs && hs[at[r] - H.HEADER].kind != H.Available
  {
    assert Backed(hs, owner, at, r);
  }

  lemma OneHead(hs: H.Headers, v: R.Tables, r: Res)
    requires R.Consistent(v) && Coupled(hs, v.owner, v.at) && r in v.at
    ensures r in v.lists && v.lists[r] != [] && H.HEADER <= v.at[r] && HeadBlocks(v.lists, v.at, {v.lists[r][0]}) == {v.at[r] - H.HEADER}
  {
    assert R.ListOk(v, r) && v.lists[r][0] in v.lists[r];
    var s := v.lists[r][0];
    assert R.CapOk(v, s);
    NoHeads(v.lists, v.lists, v.at);
    HeadOf(hs, v, s, {});
    assert {} + {s} == {s};
  }

  // ---------------------------------------------------------------- new capabilities

  lemma NewHead(v: R.Tables, slot: Slot, r: Res, p: Ptr)
    requires R.Consistent(v) && slot !in v.caps && r !in v.lists && H.HEADER <= p
    ensures HeadBlocks(v.lists[r := [slot]], v.at[r := p], {slot}) == {p - H.HEADER}
  {
    var lists, at := v.lists[r := [slot]], v.at[r := p];
    assert lists[r] != [] && lists[r][0] in {slot};
    forall q | q in v.lists && v.lists[q] != [] ensures v.lists[q][0] != slot {
      assert R.ListOk(v, q) && v.lists[q][0] in v.lists[q];
    }
  }

  lemma InstalledAddresses(caps: T.Caps, caps': T.Caps, pl: Places, slot: Slot, place: Place, kind: Kind)
    requires Rooted(T.ShapeOf(caps), pl) && AllAddressed(caps, pl) && slot !in caps && caps'.Keys == caps.Keys + {slot}
    requires T.ShapeOf(caps') == T.ShapeOf(caps)[slot := kind] && forall s :: s in caps ==> caps'[s] == caps[s]
    requires Addressed(T.ShapeOf(caps'), pl[slot := place], slot, caps'[slot].stored)
    ensures AllAddressed(caps', pl[slot := place])
  {
    hide Rooted, T.ShapeOf, Addressed;
    ShapeKeys(caps);
    ShapeKeys(caps');
    PlacedKeys(T.ShapeOf(caps), pl);
    forall s | s in caps' ensures Stored(caps', pl[slot := place], s) {
      if s != slot {
        assert Stored(caps, pl, s);
        AddressedSame(T.ShapeOf(caps), pl, T.ShapeOf(caps'), pl[slot := place], s, caps[s].stored);
      }
    }
  }

  /// No node is for a resource without capabilities.
  lemma FreshNode(caps: T.Caps, v: R.Tables, r: Res)
    requires R.Consistent(v) && v.caps == T.Resources(caps, v.lists, v.owner, v.at).caps && r !in v.lists
    ensures forall g :: IsNode(T.ShapeOf(caps), g) ==> T.ShapeOf(caps)[g].res != r
  {
    forall g | IsNode(T.ShapeOf(caps), g) ensures T.ShapeOf(caps)[g].res != r {
      assert R.CapOk(v, g) && v.caps[g].res == caps[g].res;
    }
  }

  lemma PopulatedPlace(caps: T.Caps, v: R.Tables, pl: Places, t: nat, address: nat, depth: Option<nat>, d: Result, r: Res, isNode: bool, bits: nat)
    requires Rooted(T.ShapeOf(caps), pl) && IsWord(address) && (isNode ==> 1 <= bits)
    requires R.Consistent(v) && v.caps == T.Resources(caps, v.lists, v.owner, v.at).caps && r !in v.lists
    requires FoundBy(T.ShapeOf(caps), pl, t, address, depth, d) && d.Found? && d.slot !in caps
    ensures var sh', pl' := T.ShapeOf(caps)[d.slot := if isNode then Node(r, bits) else Leaf], pl[d.slot := Place(t, Low(address, d.depth), d.depth)];
      Rooted(sh', pl') && Addressed(sh', pl', d.slot, Where(t, address, Some(d.depth)))
  {
    hide Rooted, Low, T.ShapeOf;
    var sh := T.ShapeOf(caps);
    var h :| Contains(sh, h, d.slot) && h in pl && Place(t, Low(address, d.depth), d.depth) == Inside(pl[h], d.slot.index, Bits(sh, h));
    FreshNode(caps, v, r);
    ShapeKeys(caps);
    Grown(sh, pl, h, d.slot.index, if isNode then Node(r, bits) else Leaf);
  }

  lemma PlantedPlace(caps: T.Caps, v: R.Tables, pl: Places, thread: nat, r: Res, bits: nat)
    requires Rooted(T.ShapeOf(caps), pl) && 1 <= bits && Root(thread) !in caps
    requires R.Consistent(v) && v.caps == T.Resources(caps, v.lists, v.owner, v.at).caps && r !in v.lists
    ensures var sh', pl' := T.ShapeOf(caps)[Root(thread) := Node(r, bits)], pl[Root(thread) := Place(thread, 0, 0)];
      Rooted(sh', pl') && Addressed(sh', pl', Root(thread), Where(thread, 0, Some(0)))
  {
    hide T.ShapeOf, Rooted;
    FreshNode(caps, v, r);
    ShapeKeys(caps);
    Planted(T.ShapeOf(caps), pl, thread, Node(r, bits));
    RootAddressed(T.ShapeOf(caps)[Root(thread) := Node(r, bits)], pl[Root(thread) := Place(thread, 0, 0)], thread);
  }

  // ---------------------------------------------------------------- copies

  ghost predicate CopyMade(caps0: T.Caps, families0: T.Families, v0: R.Tables, caps: T.Caps, families: T.Families, v: R.Tables,
                           src: Slot, dst: Slot, w: Where, badge: Option<nat>) {
    && var t := T.Tree(caps0, families0);
    && src in t && D.ParentOfCopy(t, src).Some? && D.ParentOfCopy(t, src).value in t
    && T.Tree(caps, families) == D.AfterCopy(t, src, dst, badge)
    && R.CapOk(v0, src) && v == R.AfterCopy(v0, src, dst, w)
  }

  /// What a move from `src` to `dst` leaves: the derivations and lists with the slot renamed, and at most the slots
  /// `renewed` store another address.
  ghost predicate MoveMade(caps0: T.Caps, families0: T.Families, v0: R.Tables, caps: T.Caps, families: T.Families, v: R.Tables,
                           src: Slot, dst: Slot, renewed: set<Slot>) {
    && src in T.Tree(caps0, families0) && T.Tree(caps, families) == D.AfterMove(T.Tree(caps0, families0), src, dst)
    && R.CapOk(v0, src) && SameButStored(R.AfterMove(v0, src, dst), v, renewed)
  }

  ghost predicate SameButStored(v: R.Tables, v': R.Tables, renewed: set<Slot>) {
    && v'.lists == v.lists && v'.at == v.at && v'.caps.Keys == v.caps.Keys
    && forall s :: s in v.caps ==> v'.caps[s] == v.caps[s].(stored := v'.caps[s].stored) && (s !in renewed ==> v'.caps[s].stored == v.caps[s].stored)
  }

  lemma MoveStored(caps0: T.Caps, v0: R.Tables, caps: T.Caps, v: R.Tables, src: Slot, dst: Slot)
    requires v0 == T.Resources(caps0, v0.lists, v0.owner, v0.at) && v == T.Resources(caps, v.lists, v.owner, v.at)
    requires dst !in caps0 && R.CapOk(v0, src) && v == R.AfterMove(v0, src, dst)
    ensures v.owner == v0.owner && v.at == v0.at && caps.Keys == caps0.Keys - {src} + {dst}
    ensures forall s :: s in caps0 && s != src ==> caps[s].stored == caps0[s].stored
  {
    assert v.caps.Keys == caps.Keys && v0.caps.Keys == caps0.Keys;
    forall s | s in caps0 && s != src ensures caps[s].stored == caps0[s].stored {
      assert v.caps[s] == v0.caps[s];
    }
  }

  lemma RestoredCopy(caps0: T.Caps, caps1: T.Caps, caps: T.Caps, src: Slot, dst: Slot, w0: Where, w: Where)
    requires dst !in caps0 && T.CopiedTo(caps0, caps1, src, dst, w0, None) && caps == caps1[dst := caps1[dst].(stored := w)]
    ensures T.CopiedTo(caps0, caps, src, dst, w, None)
  {
  }

  lemma RestoredShape(caps: T.Caps, caps': T.Caps, s: Slot, w: Where)
    requires s in caps && caps' == caps[s := caps[s].(stored := w)]
    ensures T.ShapeOf(caps') == T.ShapeOf(caps)
  {
  }

  lemma RestoredView(caps: T.Caps, v: R.Tables, caps': T.Caps, v': R.Tables, s: Slot, w: Where)
    requires v == T.Resources(caps, v.lists, v.owner, v.at) && v' == T.Resources(caps', v.lists, v'.owner, v.at)
    requires s in caps && caps' == caps[s := caps[s].(stored := w)]
    ensures SameButStored(v, v', {s})
  {
  }

  /// Node `n` has no occupied slot.
  predicate Hollow(caps: T.Caps, n: Res) { forall s :: s in caps && s.In? ==> s.node != n }

  lemma HollowAlone(caps: T.Caps, pl: Places, s: Slot)
    requires Rooted(T.ShapeOf(caps), pl) && s in caps && caps[s].isNode
    ensures Hollow(caps, caps[s].res) <==> forall x :: x in caps && x in pl && x != s ==> !Under(pl[x], pl[s])
  {
    hide Under, T.ShapeOf, Rooted;
    var sh := T.ShapeOf(caps);
    ShapeAt(caps, s);
    ShapeKeys(caps);
    PlacedKeys(sh, pl);
    if Hollow(caps, caps[s].res) {
      forall x | x in caps && x != s ensures !Under(pl[x], pl[s]) {
        EmptyAlone(sh, pl, s, x);
      }
    } else {
      var x :| x in caps && x.In? && x.node == caps[s].res;
      var g := Holder(sh, pl, x);
      Holders(sh, pl, g, s);
      UnderChild(sh, pl, s, x, x);
      UnderSelf(sh, pl, x);
    }
  }

  lemma Holders(sh: Shape, pl: Places, g: Slot, h: Slot)
    requires Rooted(sh, pl) && IsNode(sh, g) && IsNode(sh, h) && sh[g].res == sh[h].res
    ensures g == h
  {
  }

  /// What was found under the address it stores still is, unless it lay in the node that moved.
  ghost predicate FoundUnless(caps0: T.Caps, pl0: Places, src: Slot, caps: T.Caps, pl: Places) {
    forall s {:trigger Stored(caps, pl, s)} :: s in caps0 && s in pl0 && src in pl0 && s != src ==> (Stored(caps, pl, s) <==> !Under(pl0[s], pl0[src]))
  }

  /// After a move inside a tree.
  lemma MovedWithin(caps: T.Caps, caps': T.Caps, pl: Places, t: nat, address: nat, depth: nat, h: Slot, index: nat, src: Slot, w: Where)
    requires Rooted(T.ShapeOf(caps), pl) && AllAddressed(caps, pl) && Invoked(caps, pl, t, address, depth, h) && index < Pow2(caps[h].bits)
    requires src in caps && src in pl && pl[src].thread == t && In(caps[h].res, index) !in caps
    requires var d := In(caps[h].res, index);
      && T.ShapeOf(caps') == (T.ShapeOf(caps) - {src})[d := T.ShapeOf(caps)[src]] && caps'.Keys == caps.Keys - {src} + {d}
      && caps'[d].stored == w && forall s :: s in caps && s != src ==> caps'[s].stored == caps[s].stored
    requires w == Where(t, Or(Word(Shift(index, depth)), address), Some(depth + caps[h].bits))
    ensures var to := Inside(pl[h], index, caps[h].bits); var d := In(caps[h].res, index);
      && (Under(pl[h], pl[src]) ==> (forall pl' :: !Rooted(T.ShapeOf(caps'), pl')) && caps[src].isNode && (src == h || !Hollow(caps, caps[src].res)))
      && (!Under(pl[h], pl[src]) ==>
            && src != h && Rooted(T.ShapeOf(caps'), Transplant(pl, src, d, to)) && FoundUnless(caps, pl, src, caps', Transplant(pl, src, d, to))
            && (AllAddressed(caps', Transplant(pl, src, d, to)) <==>
                  Reached(address, depth, index, caps[h].bits) && (caps[src].isNode ==> Hollow(caps, caps[src].res))))
  {
    hide Under, T.ShapeOf, Rooted, Reached, Hollow, Transplant, Low, Shift, Or, Pow2, Addressed, AllAddressed;
    var sh, d := T.ShapeOf(caps), In(caps[h].res, index);
    ShapeAt(caps, h);
    ShapeAt(caps, src);
    ShapeKeys(caps);
    assert Contains(sh, h, d);
    if Under(pl[h], pl[src]) {
      if !caps[src].isNode {
        LeafAlone(sh, pl, src, h);
      }
      HollowAlone(caps, pl, src);
      forall pl' ensures !Rooted(T.ShapeOf(caps'), pl') {
        IntoItself(sh, pl, src, d, h, pl');
      }
    } else {
      UnderSelf(sh, pl, src);
      Transplanted(sh, pl, src, d, Inside(pl[h], index, caps[h].bits));
      MovedAddresses(caps, caps', pl, t, address, depth, h, index, src, w);
    }
  }

  lemma MovedAddresses(caps: T.Caps, caps': T.Caps, pl: Places, t: nat, address: nat, depth: nat, h: Slot, index: nat, src: Slot, w: Where)
    requires Rooted(T.ShapeOf(caps), pl) && AllAddressed(caps, pl) && Invoked(caps, pl, t, address, depth, h) && index < Pow2(caps[h].bits)
    requires src in caps && src in pl && In(caps[h].res, index) !in caps && h != src
    requires var d := In(caps[h].res, index);
      && T.ShapeOf(caps') == (T.ShapeOf(caps) - {src})[d := T.ShapeOf(caps)[src]] && caps'.Keys == caps.Keys - {src} + {d}
      && caps'[d].stored == w && forall s :: s in caps && s != src ==> caps'[s].stored == caps[s].stored
    requires w == Where(t, Or(Word(Shift(index, depth)), address), Some(depth + caps[h].bits))
    requires Free(T.ShapeOf(caps), pl, src, In(caps[h].res, index), Inside(pl[h], index, caps[h].bits)) && !Under(pl[h], pl[src])
    requires Rooted(T.ShapeOf(caps'), Transplant(pl, src, In(caps[h].res, index), Inside(pl[h], index, caps[h].bits)))
    ensures var to := Inside(pl[h], index, caps[h].bits); var d := In(caps[h].res, index);
      AllAddressed(caps', Transplant(pl, src, d, to)) <==>
        Reached(address, depth, index, caps[h].bits) && (caps[src].isNode ==> Hollow(caps, caps[src].res))
    ensures var to := Inside(pl[h], index, caps[h].bits); var d := In(caps[h].res, index);
      FoundUnless(caps, pl, src, caps', Transplant(pl, src, d, to))
  {
    hide Under, T.ShapeOf, Rooted, Reached, Hollow, Low, Shift, Or, Pow2, Addressed, Free;
    var sh, sh', d, to := T.ShapeOf(caps), T.ShapeOf(caps'), In(caps[h].res, index), Inside(pl[h], index, caps[h].bits);
    var pl' := Transplant(pl, src, d, to);
    ShapeKeys(caps);
    ShapeAt(caps, src);
    ShapeAt(caps, h);
    PlacedKeys(sh, pl);
    forall s | s in caps && s != src ensures Stored(caps', pl', s) <==> !Under(pl[s], pl[src]) {
      assert Stored(caps, pl, s);
      if Under(pl[s], pl[src]) {
        LeftBehind(sh, pl, src, d, to, s, caps[s].stored);
      } else {
        AddressedSame(sh, pl, sh', pl', s, caps[s].stored);
      }
    }
    ContinuedIs(t, address, depth, index, caps[h].bits);
    ShapeAt(caps', h);
    NewSlotLeads(sh', pl', h, t, address, depth, index);
    assert Stored(caps', pl', d) <==> Reached(address, depth, index, caps[h].bits);
    if caps[src].isNode {
      HollowAlone(caps, pl, src);
    } else {
      forall s | s in caps && s != src ensures !Under(pl[s], pl[src]) {
        LeafAlone(sh, pl, src, s);
      }
    }
  }

  /// What transfer_capabilities sends.
  predicate Sent(caps: T.Caps, r: Result, copy: bool) { r.Found? && r.slot in caps && !(copy && caps[r.slot].isNode) }

  /// The address that a slot under `s` gets when `s` gets `address` leads to it.
  ghost predicate Leads(pl: Places, s: Slot, address: nat, x: Slot) {
    && s in pl && x in pl && Under(pl[x], pl[s])
    && Low(Or(Word(Shift(High(pl[x].pack, pl[s].depth), pl[s].depth)), address), pl[x].depth) == pl[x].pack
  }

  /// If `address` has no bits beyond the depth of `s`, exactly when the packed address of the slot fits a word.
  lemma LeadsIff(sh: Shape, pl: Places, s: Slot, address: nat, x: Slot)
    requires Rooted(sh, pl) && s in sh && x in sh && Under(pl[x], pl[s]) && address == pl[s].pack && IsWord(address)
    ensures Leads(pl, s, address, x) <==> IsWord(pl[x].pack)
    ensures pl[x].depth <= WORD_BITS ==> IsWord(pl[x].pack)
  {
    hide Rooted, Low, High, Shift, Or;
    PlacedKeys(sh, pl);
    var d := pl[s].depth;
    PackBound(sh, pl, s);
    PackBound(sh, pl, x);
    LowHigh(pl[x].pack, d);
    ShiftOr(High(pl[x].pack, d), d, address);
    LowLess(pl[x].pack, WORD_BITS);
    LowLess(Word(pl[x].pack), pl[x].depth);
    LowBound(pl[x].pack, WORD_BITS);
    PowPositive(WORD_BITS);
    if pl[x].depth <= WORD_BITS {
      PowGrows(pl[x].depth, WORD_BITS);
    }
    if IsWord(pl[x].pack) {
      LowSmall(pl[x].pack, WORD_BITS);
      LowSmall(pl[x].pack, pl[x].depth);
    }
  }

  /// The slots `moved` store addresses that continue `w`.
  ghost predicate StoreOnward(caps: T.Caps, pl: Places, s: Slot, w: Where, moved: set<Slot>) {
    && s in caps && s in pl && caps[s].stored == w
    && (w.depth.Some? ==> forall x :: x in moved ==> Continues(caps, pl, s, w, x))
  }

  lemma StoresFirst(caps: T.Caps, pl: Places, s: Slot, w: Where, moved: set<Slot>)
    requires StoreOnward(caps, pl, s, w, moved)
    ensures s in caps && caps[s].stored == w
  {
  }

  lemma FreeDst(caps: T.Caps, pl: Places, src: Slot, dst: Slot, to: Place)
    requires Free(T.ShapeOf(caps), pl, src, dst, to)
    ensures src in caps && src in pl && dst !in caps
  {
  }

  /// The move and the new addresses together.
  lemma MadeOnward(caps0: T.Caps, families0: T.Families, v0: R.Tables, caps1: T.Caps, v1: R.Tables, caps: T.Caps, families: T.Families, v: R.Tables,
                   src: Slot, pl: Places, dst: Slot, w: Where, moved: set<Slot>)
    requires MoveMade(caps0, families0, v0, caps1, families, v1, src, dst, {}) && T.MovedTo(caps0, caps1, src, dst, {})
    requires Readdressed(caps1, caps, pl, dst, w, moved)
    requires v1 == T.Resources(caps1, v1.lists, v1.owner, v1.at) && v == T.Resources(caps, v1.lists, v.owner, v1.at)
    ensures MoveMade(caps0, families0, v0, caps, families, v, src, dst, moved) && caps.Keys == caps1.Keys
    ensures T.MovedTo(caps0, caps, src, dst, moved)
  {
    hide T.Tree, D.AfterMove, R.AfterMove;
    T.SameTree(caps1, caps, families);
  }

  /// After the capability in `src` and all under it went to `dst` and got new addresses.
  lemma TreeAddresses(caps: T.Caps, caps1: T.Caps, caps': T.Caps, pl: Places, src: Slot, dst: Slot, to: Place, w: Where)
    requires Rooted(T.ShapeOf(caps), pl) && AllAddressed(caps, pl) && src in caps && src in pl && Free(T.ShapeOf(caps), pl, src, dst, to)
    requires T.ShapeOf(caps1) == (T.ShapeOf(caps) - {src})[dst := T.ShapeOf(caps)[src]] && caps1.Keys == caps.Keys - {src} + {dst}
    requires forall s :: s in caps && s != src ==> caps1[s].stored == caps[s].stored
    requires Rooted(T.ShapeOf(caps1), Transplant(pl, src, dst, to))
    requires var pl' := Transplant(pl, src, dst, to);
      && T.ShapeOf(caps') == T.ShapeOf(caps1) && dst in pl' && Readdressed(caps1, caps', pl', dst, w, Subtree(T.ShapeOf(caps1), pl', dst))
    ensures var pl' := Transplant(pl, src, dst, to); var moved := Subtree(T.ShapeOf(caps1), pl', dst);
      && dst in moved && StoreOnward(caps', pl', dst, w, moved)
      && (AllAddressed(caps', pl') <==> forall x :: x in moved ==> Stored(caps', pl', x))
  {
    hide Under, T.ShapeOf, Rooted, Addressed, Free, Transplant, Continues;
    var sh, sh', pl' := T.ShapeOf(caps), T.ShapeOf(caps1), Transplant(pl, src, dst, to);
    var moved := Subtree(sh', pl', dst);
    ShapeKeys(caps);
    ShapeKeys(caps1);
    PlacedKeys(sh', pl');
    InOwnTree(sh', pl', dst);
    forall s | s in caps' && s !in moved ensures Stored(caps', pl', s) {
      Untouched(sh, sh', pl, src, dst, to, s);
      assert Stored(caps, pl, s);
      AddressedSame(sh, pl, sh', pl', s, caps[s].stored);
    }
    forall x | x in moved ensures x in caps' {
    }
  }

  /// A slot outside the moved tree is where it was.
  lemma Untouched(sh: Shape, sh': Shape, pl: Places, src: Slot, dst: Slot, to: Place, s: Slot)
    requires Rooted(sh, pl) && Free(sh, pl, src, dst, to) && sh' == (sh - {src})[dst := sh[src]] && Rooted(sh', Transplant(pl, src, dst, to))
    requires s in sh' && dst in Transplant(pl, src, dst, to) && s !in Subtree(sh', Transplant(pl, src, dst, to), dst)
    ensures s in sh && s in pl && s != src && s != dst && Transplant(pl, src, dst, to)[s] == pl[s] && sh'[s] == sh[s]
  {
    hide Under;
    InOwnTree(sh', Transplant(pl, src, dst, to), dst);
    TransplantUnder(sh, pl, src, dst, to, s);
  }

  /// The tree of another thread has room.
  lemma FreeAcross(caps: T.Caps, pl: Places, src: Slot, d: Result, t: nat, address: nat, depth: Option<nat>)
    requires Rooted(T.ShapeOf(caps), pl) && src in caps && src in pl && pl[src].thread != t
    requires FoundBy(T.ShapeOf(caps), pl, t, address, depth, d) && d.Found? && d.slot !in caps
    ensures Free(T.ShapeOf(caps), pl, src, d.slot, Place(t, Low(address, d.depth), d.depth))
    ensures d.slot.In? && (depth.Some? ==> d.depth == depth.value)
  {
    hide Low, Rooted;
    var sh, to := T.ShapeOf(caps), Place(t, Low(address, d.depth), d.depth);
    var h :| Contains(sh, h, d.slot) && h in pl && to == Inside(pl[h], d.slot.index, Bits(sh, h));
    assert !Under(pl[h], pl[src]);
  }

  lemma SlotFound(sh: Shape, pl: Places, t: nat, a: nat, depth: Option<nat>, r: Result)
    requires FoundBy(sh, pl, t, a, depth, r) && r.Found?
    ensures r.slot.In?
  {
  }

  /// Two slots with nodes hold different ones.
  lemma OtherRoot(caps: T.Caps, pl: Places, src: Slot, thread: nat)
    requires Rooted(T.ShapeOf(caps), pl) && src in caps && caps[src].isNode && src.In? && Root(thread) in caps
    ensures caps[src].res != caps[Root(thread)].res
  {
    var sh := T.ShapeOf(caps);
    RootPlace(sh, pl, Root(thread));
    ShapeAt(caps, src);
    ShapeAt(caps, Root(thread));
    if caps[src].res == caps[Root(thread)].res {
      Holders(sh, pl, src, Root(thread));
    }
  }

  lemma FreeRoot(caps: T.Caps, pl: Places, src: Slot, thread: nat)
    requires Rooted(T.ShapeOf(caps), pl) && src in caps && caps[src].isNode && Root(thread) !in caps
    ensures Free(T.ShapeOf(caps), pl, src, Root(thread), Place(thread, 0, 0))
  {
  }

  /// Under a new root.
  lemma RootLeads(caps: T.Caps, pl: Places, thread: nat, moved: set<Slot>)
    requires Rooted(T.ShapeOf(caps), pl) && Root(thread) in pl && moved == Subtree(T.ShapeOf(caps), pl, Root(thread))
    requires StoreOnward(caps, pl, Root(thread), Where(thread, 0, Some(0)), moved)
    ensures moved <= pl.Keys && forall x :: x in moved ==> (Stored(caps, pl, x) <==> IsWord(pl[x].pack))
  {
    hide Rooted, Onward, Low, Under, IsWord, Addressed, T.ShapeOf;
    var sh, s, w := T.ShapeOf(caps), Root(thread), Where(thread, 0, Some(0));
    ShapeKeys(caps);
    RootPlace(sh, pl, s);
    RootAddressed(sh, pl, thread);
    forall x | x in moved ensures Stored(caps, pl, x) <==> IsWord(pl[x].pack) {
      assert Continues(caps, pl, s, w, x);
      OnwardLeads(sh, pl, s, w, x);
    }
  }

  lemma RootAddressed(sh: Shape, pl: Places, thread: nat)
    requires Rooted(sh, pl) && Root(thread) in sh
    ensures Addressed(sh, pl, Root(thread), Where(thread, 0, Some(0))) && 0 < Pow2(0)
  {
    RootPlace(sh, pl, Root(thread));
    PowPositive(WORD_BITS);
    PowPositive(0);
  }

  lemma CopyReadd(v0: R.Tables, v1: R.Tables, caps1: T.Caps, caps: T.Caps, v: R.Tables, src: Slot, dst: Slot, w0: Where, w: Where)
    requires v1 == T.Resources(caps1, v1.lists, v1.owner, v1.at) && v == T.Resources(caps, v.lists, v.owner, v.at)
    requires R.Consistent(v0) && dst !in v0.caps && R.CapOk(v0, src) && v1 == R.AfterCopy(v0, src, dst, w0)
    requires dst in caps1 && caps == caps1[dst := caps1[dst].(stored := w)] && v.lists == v1.lists && v.at == v1.at
    requires caps[dst].res in v.lists && v.lists[caps[dst].res] != []
    requires v.owner == if v.lists[caps[dst].res][0] == dst then v1.owner[caps[dst].res := w] else v1.owner
    ensures v == R.AfterCopy(v0, src, dst, w)
  {
    var r := v0.caps[src].res;
    assert R.ListOk(v0, r) && v0.lists[r][0] in v0.lists[r];
    assert v1.caps[dst].res == r && caps[dst].res == r;
    var c' := R.AfterCopy(v0, src, dst, w).caps;
    assert v.caps.Keys == caps.Keys == caps1.Keys == v1.caps.Keys == c'.Keys;
    forall s | s in v.caps ensures v.caps[s] == c'[s] {
      assert v1.caps[s] == R.Cap(caps1[s].res, caps1[s].stored, caps1[s].ptr);
    }
  }

  lemma AcrossAddresses(caps: T.Caps, caps': T.Caps, pl: Places, d: Result, t: nat, address: nat, depth: Option<nat>)
    requires Rooted(T.ShapeOf(caps), pl) && AllAddressed(caps, pl) && IsWord(address)
    requires FoundBy(T.ShapeOf(caps), pl, t, address, depth, d) && d.Found? && d.slot !in caps
    requires T.ShapeOf(caps') == T.ShapeOf(caps)[d.slot := Leaf] && caps'.Keys == caps.Keys + {d.slot} && caps'[d.slot].stored == Where(t, address, depth)
    requires forall s :: s in caps ==> caps'[s].stored == caps[s].stored
    ensures var pl' := pl[d.slot := Place(t, Low(address, d.depth), d.depth)]; Rooted(T.ShapeOf(caps'), pl') && AllAddressed(caps', pl')
  {
    hide Rooted, T.ShapeOf, Low, Addressed;
    var sh, sh', to := T.ShapeOf(caps), T.ShapeOf(caps'), Place(t, Low(address, d.depth), d.depth);
    var pl' := pl[d.slot := to];
    var h :| Contains(sh, h, d.slot) && h in pl && to == Inside(pl[h], d.slot.index, Bits(sh, h));
    ShapeKeys(caps);
    ShapeKeys(caps');
    PlacedKeys(sh, pl);
    Grown(sh, pl, h, d.slot.index, Leaf);
    forall s | s in caps' ensures Stored(caps', pl', s) {
      if s != d.slot {
        assert Stored(caps, pl, s);
        AddressedSame(sh, pl, sh', pl', s, caps[s].stored);
      } else {
        LeafStored(sh', pl', s, Where(t, address, depth));
      }
    }
  }

  lemma AcrossLeads(caps: T.Caps, caps': T.Caps, pl: Places, src: Slot, d: Result, t: nat, address: nat, depth: Option<nat>)
    requires d.Found? && d.slot.In? && src in pl && IsWord(address) && src in caps
    requires var to := Place(t, Low(address, d.depth), d.depth); var pl' := Transplant(pl, src, d.slot, to);
      && Rooted(T.ShapeOf(caps'), pl') && d.slot in caps' && d.slot in pl'
      && (depth.Some? ==> d.depth == depth.value)
      && T.ShapeOf(caps') == (T.ShapeOf(caps) - {src})[d.slot := T.ShapeOf(caps)[src]]
      && StoreOnward(caps', pl', d.slot, Where(t, address, depth), Subtree(T.ShapeOf(caps'), pl', d.slot))
    ensures var pl' := Transplant(pl, src, d.slot, Place(t, Low(address, d.depth), d.depth)); var moved := Subtree(T.ShapeOf(caps'), pl', d.slot);
      && (!caps[src].isNode ==> forall x :: x in moved ==> Stored(caps', pl', x))
      && (caps[src].isNode ==>
            ((forall x :: x in moved ==> Stored(caps', pl', x)) <==> depth.Some? && forall x :: x in moved ==> Leads(pl', d.slot, address, x)))
  {
    hide Under, T.ShapeOf, Rooted, Transplant, Low, Subtree, Leads, Addressed, Continues;
    var to := Place(t, Low(address, d.depth), d.depth);
    var sh', pl' := T.ShapeOf(caps'), Transplant(pl, src, d.slot, to);
    var moved := Subtree(sh', pl', d.slot);
    ShapeAt(caps, src);
    ShapeAt(caps', d.slot);
    assert pl'[d.slot] == to by {
      TransplantDst(pl, src, d.slot, to);
    }
    InOwnTree(sh', pl', d.slot);
    if !caps[src].isNode {
      LeafTree(sh', pl', d.slot);
      LeafStored(sh', pl', d.slot, Where(t, address, depth));
    } else if depth.Some? {
      forall x | x in moved ensures Stored(caps', pl', x) <==> Leads(pl', d.slot, address, x) {
        assert Continues(caps', pl', d.slot, Where(t, address, depth), x);
        OnwardStored(caps', pl', d.slot, Where(t, address, depth), x);
      }
    } else {
      NodeStored(sh', pl', d.slot, Where(t, address, depth));
      assert !Stored(caps', pl', d.slot);
    }
  }

  lemma TransplantDst(pl: Places, src: Slot, dst: Slot, to: Place)
    requires src in pl
    ensures dst in Transplant(pl, src, dst, to) && Transplant(pl, src, dst, to)[dst] == to
  {
  }

  lemma LeafStored(sh: Shape, pl: Places, s: Slot, w: Where)
    requires s in sh && s in pl && s.In? && !IsNode(sh, s) && w.thread == pl[s].thread && IsWord(w.address)
    requires Low(w.address, pl[s].depth) == pl[s].pack && (w.depth.Some? ==> w.depth.value == pl[s].depth)
    ensures Addressed(sh, pl, s, w)
  {
  }

  /// Without a depth, look-up goes on into a node.
  lemma NodeStored(sh: Shape, pl: Places, s: Slot, w: Where)
    requires IsNode(sh, s) && w.depth.None?
    ensures !Addressed(sh, pl, s, w)
  {
  }

  lemma OnwardStored(caps: T.Caps, pl: Places, s: Slot, w: Where, x: Slot)
    requires Rooted(T.ShapeOf(caps), pl) && s in pl && s in caps && Continues(caps, pl, s, w, x) && IsWord(w.address)
    requires w.depth == Some(pl[s].depth) && w.thread == pl[s].thread && s.In?
    ensures Stored(caps, pl, x) <==> Leads(pl, s, w.address, x)
  {
    hide Rooted, T.ShapeOf, Low, High, Or, Shift;
    var sh := T.ShapeOf(caps);
    ShapeKeys(caps);
    PackBound(sh, pl, s);
    PackBound(sh, pl, x);
    OrWord(High(pl[x].pack, pl[s].depth), pl[s].depth, w.address);
  }

  lemma CopyStored(caps0: T.Caps, v0: R.Tables, caps: T.Caps, v: R.Tables, src: Slot, dst: Slot, w: Where)
    requires v0 == T.Resources(caps0, v0.lists, v0.owner, v0.at) && v == T.Resources(caps, v.lists, v.owner, v.at)
    requires dst !in caps0 && R.CapOk(v0, src) && v == R.AfterCopy(v0, src, dst, w)
    ensures v.owner == v0.owner && v.at == v0.at && caps.Keys == caps0.Keys + {dst} && caps[dst].stored == w
    ensures forall s :: s in caps0 ==> s in caps && caps[s].stored == caps0[s].stored
  {
    assert v.caps.Keys == caps.Keys && v0.caps.Keys == caps0.Keys;
    assert caps[dst].stored == v.caps[dst].stored;
    forall s | s in caps0 ensures caps[s].stored == caps0[s].stored {
      assert v.caps[s] == v0.caps[s];
    }
  }

  /// The capability is the only one for its resource.
  ghost predicate Alone(caps: T.Caps, lists: map<Res, seq<Slot>>, s: Slot) {
    s in caps && caps[s].res in lists && lists[caps[s].res] == [s]
  }

  lemma OnList(caps: T.Caps, v: R.Tables, s: Slot)
    requires R.Consistent(v) && v == T.Resources(caps, v.lists, v.owner, v.at) && s in caps
    ensures caps[s].res in v.lists && v.lists[caps[s].res] != [] && (|v.lists[caps[s].res]| == 1 <==> v.lists[caps[s].res] == [s])
  {
    assert R.CapOk(v, s);
    var list := v.lists[caps[s].res];
    assert s in list && (|list| == 1 ==> list == [list[0]]);
  }

  lemma FoundPlace(caps: T.Caps, pl: Places, t: nat, address: nat, depth: Option<nat>, r: Result)
    requires Rooted(T.ShapeOf(caps), pl) && FoundBy(T.ShapeOf(caps), pl, t, address, depth, r) && r.Found?
    ensures r.slot in caps ==> r.slot in pl && pl[r.slot] == Place(t, Low(address, r.depth), r.depth)
  {
    if r.slot in caps {
      SpotPlace(T.ShapeOf(caps), pl, r.slot, Place(t, Low(address, r.depth), r.depth));
    }
  }

  lemma InvokedNode(caps: T.Caps, pl: Places, t: nat, address: nat, depth: nat, h: Slot)
    requires Invoked(caps, pl, t, address, depth, h)
    ensures h in caps
  {
  }

  lemma ContinuedIs(t: nat, address: nat, depth: nat, i: nat, bits: nat)
    ensures Continued(Where(t, address, Some(depth)), i, bits) == Where(t, Or(Word(Shift(i, depth)), address), Some(depth + bits))
  {
  }

  lemma NoHeads(lists: map<Res, seq<Slot>>, lists': map<Res, seq<Slot>>, at: Blocks)
    ensures HeadBlocks(lists, at, {}) == HeadBlocks(lists', at, {}) == {}
  {
  }

  /// Only the place of a slot, and whether it holds a node, matter to what leads to it.
  lemma AddressedSame(sh: Shape, pl: Places, sh': Shape, pl': Places, s: Slot, w: Where)
    requires s in sh && s in sh' && s in pl && s in pl' && pl'[s] == pl[s] && (IsNode(sh', s) <==> IsNode(sh, s))
    ensures Addressed(sh', pl', s, w) <==> Addressed(sh, pl, s, w)
  {
  }

  lemma CopiedAddresses(caps: T.Caps, caps': T.Caps, pl: Places, t: nat, address: nat, depth: nat, h: Slot, index: nat, w: Where)
    requires Rooted(T.ShapeOf(caps), pl) && AllAddressed(caps, pl) && Invoked(caps, pl, t, address, depth, h) && index < Pow2(caps[h].bits)
    requires var d := In(caps[h].res, index);
      && d !in caps && T.ShapeOf(caps') == T.ShapeOf(caps)[d := Leaf] && d in caps' && caps'[d].stored == w
      && forall s :: s in caps ==> s in caps' && caps'[s].stored == caps[s].stored
    requires w == Continued(Where(t, address, Some(depth)), index, caps[h].bits)
    ensures var d := In(caps[h].res, index); var pl' := pl[d := Inside(pl[h], index, caps[h].bits)];
      && Rooted(T.ShapeOf(caps'), pl')
      && (AllAddressed(caps', pl') <==> Reached(address, depth, index, caps[h].bits))
  {
    hide Rooted, T.ShapeOf, Low, Shift, Or, Pow2, Reached, Addressed, Continued;
    var sh, sh', d := T.ShapeOf(caps), T.ShapeOf(caps'), In(caps[h].res, index);
    var pl' := pl[d := Inside(pl[h], index, caps[h].bits)];
    ShapeKeys(caps);
    ShapeKeys(caps');
    ShapeAt(caps, h);
    PlacedKeys(sh, pl);
    Grown(sh, pl, h, index, Leaf);
    forall s | s in caps' ensures Stored(caps', pl', s) <==> s != d || Reached(address, depth, index, caps[h].bits) {
      if s != d {
        assert Stored(caps, pl, s);
        AddressedSame(sh, pl, sh', pl', s, caps[s].stored);
      } else {
        NewSlotLeads(sh', pl', h, t, address, depth, index);
      }
    }
    assert d in caps';
  }

  /// A slot of the node that was found under `address`.
  lemma NewSlotLeads(sh: Shape, pl: Places, h: Slot, t: nat, address: nat, depth: nat, i: nat)
    requires Rooted(sh, pl) && IsNode(sh, h) && IsWord(address) && h in pl && pl[h] == Place(t, Low(address, depth), depth)
    requires i < Pow2(Bits(sh, h)) && In(sh[h].res, i) in sh
    ensures Addressed(sh, pl, In(sh[h].res, i), Continued(Where(t, address, Some(depth)), i, Bits(sh, h))) <==> Reached(address, depth, i, Bits(sh, h))
  {
    hide Rooted, Low, Shift, Or, Addressed;
    ContinuedLeads(sh, pl, h, address, i);
    var d := In(sh[h].res, i);
    assert Contains(sh, h, d);
    UnderChild(sh, pl, h, d, d);
  }

  // ---------------------------------------------------------------- new addresses

  /// The slots `done` store addresses that continue `w`, and nothing else differs.
  ghost predicate Readdressed(caps0: T.Caps, caps: T.Caps, pl: Places, s: Slot, w: Where, done: set<Slot>) {
    && caps.Keys == caps0.Keys
    && (forall x :: x in caps ==> caps[x] == caps0[x].(stored := caps[x].stored) && (x !in done ==> caps[x].stored == caps0[x].stored))
    && (s in done && s in caps ==> caps[s].stored == w)
    && (w.depth.Some? ==> forall x :: x in caps && x in done ==> Continues(caps, pl, s, w, x))
  }

  ghost predicate Continues(caps: T.Caps, pl: Places, s: Slot, w: Where, x: Slot) {
    x in caps && x in pl && s in pl && w.depth.Some? && Under(pl[x], pl[s]) && caps[x].stored == Onward(w, pl[s], pl[x])
  }

  lemma ReaddressedOne(caps0: T.Caps, caps: T.Caps, pl: Places, s: Slot, w: Where)
    requires Rooted(T.ShapeOf(caps0), pl) && s in caps0 && s in pl && caps == caps0[s := caps0[s].(stored := w)]
    ensures Readdressed(caps0, caps, pl, s, w, {s})
  {
    hide Onward, Under, Rooted;
    UnderSelf(T.ShapeOf(caps0), pl, s);
    PackBound(T.ShapeOf(caps0), pl, s);
    if w.depth.Some? {
      OnwardSelf(w, pl[s]);
      assert Continues(caps, pl, s, w, s);
    }
  }

  lemma ReaddressedShape(caps0: T.Caps, caps: T.Caps, pl: Places, s: Slot, w: Where, done: set<Slot>)
    requires Readdressed(caps0, caps, pl, s, w, done)
    ensures T.ShapeOf(caps) == T.ShapeOf(caps0)
  {
  }

  lemma InOwnTree(sh: Shape, pl: Places, s: Slot)
    requires Rooted(sh, pl) && s in sh
    ensures s in Subtree(sh, pl, s)
  {
    UnderSelf(sh, pl, s);
  }

  lemma LeafTree(sh: Shape, pl: Places, s: Slot)
    requires Rooted(sh, pl) && s in sh && !IsNode(sh, s)
    ensures Subtree(sh, pl, s) == {s}
  {
    hide Under;
    assert pl.Keys == sh.Keys;
    forall x | x in sh ensures x in Subtree(sh, pl, s) <==> x == s {
      LeafAlone(sh, pl, s, x);
    }
  }

  /// A slot of a node comes after the node.
  lemma ChildFirst(sh: Shape, pl: Places, s: Slot, c: Slot)
    requires Rooted(sh, pl) && Contains(sh, s, c) && c in sh
    ensures s in pl && c in pl && |Subtree(sh, pl, c)| < |Subtree(sh, pl, s)| && Subtree(sh, pl, c) <= Subtree(sh, pl, s)
  {
    hide Under, Rooted;
    PlacedKeys(sh, pl);
    SubtreeSmaller(sh, pl, s, c);
    forall x | x in sh ensures x in Subtree(sh, pl, c) ==> x in Subtree(sh, pl, s) {
      UnderChild(sh, pl, s, c, x);
    }
  }

  lemma ReaddressedChild(caps0: T.Caps, before: T.Caps, caps: T.Caps, pl: Places, s: Slot, w: Where, c: Slot)
    requires var sh := T.ShapeOf(caps0); Rooted(sh, pl) && Contains(sh, s, c) && c in caps0 && s in pl && c in pl
    requires var sh := T.ShapeOf(caps0); Readdressed(caps0, before, pl, s, w, UpTo(sh, pl, s, c.index))
    requires var sh := T.ShapeOf(caps0);
      Readdressed(before, caps, pl, c, Continued(w, c.index, Bits(sh, s)), Subtree(sh, pl, c))
    ensures var sh := T.ShapeOf(caps0); Readdressed(caps0, caps, pl, s, w, UpTo(sh, pl, s, c.index + 1))
  {
    hide Onward, Under, Rooted, Continued, T.ShapeOf, Subtree, UpTo, Pow2;
    var sh := T.ShapeOf(caps0);
    ShapeKeys(caps0);
    UpToStep(sh, pl, s, c.index);
    UpToHas(sh, pl, s, c.index);
    InOwnTree(sh, pl, c);
    NotInChild(sh, pl, s, c);
    if w.depth.Some? {
      var w' := Continued(w, c.index, Bits(sh, s));
      assert w'.depth.Some? by {
        ContinuedDepth(w, c.index, Bits(sh, s));
      }
      forall x | x in caps && x in UpTo(sh, pl, s, c.index + 1) ensures Continues(caps, pl, s, w, x) {
        if x in Subtree(sh, pl, c) {
          assert Continues(caps, pl, c, w', x);
          ContinuesUp(sh, caps, pl, s, w, c, x);
        } else {
          assert Continues(before, pl, s, w, x);
        }
      }
    }
  }

  lemma NotInChild(sh: Shape, pl: Places, s: Slot, c: Slot)
    requires Rooted(sh, pl) && Contains(sh, s, c) && c in sh && s in sh
    ensures c in pl && s !in Subtree(sh, pl, c)
  {
    hide Under;
    UnderChild(sh, pl, s, c, s);
  }

  lemma ContinuedDepth(w: Where, i: nat, bits: nat)
    ensures Continued(w, i, bits).depth.Some?
  {
  }

  lemma UpToHas(sh: Shape, pl: Places, s: Slot, i: nat)
    requires Rooted(sh, pl) && s in pl && IsNode(sh, s)
    ensures s in UpTo(sh, pl, s, i) && s in UpTo(sh, pl, s, i + 1)
  {
    UnderSelf(sh, pl, s);
  }

  lemma ContinuesUp(sh: Shape, caps: T.Caps, pl: Places, s: Slot, w: Where, c: Slot, x: Slot)
    requires Rooted(sh, pl) && Contains(sh, s, c) && c in sh && s in pl && w.depth.Some? && x in sh
    requires Continues(caps, pl, c, Continued(w, c.index, Bits(sh, s)), x)
    ensures Continues(caps, pl, s, w, x)
  {
    hide Onward, Under, Rooted, Continued, Inside;
    UnderChild(sh, pl, s, c, x);
    PackBound(sh, pl, s);
    OnwardChild(w, pl[s], c.index, Bits(sh, s), pl[x]);
  }

  lemma ShapeKeys(caps: T.Caps)
    ensures T.ShapeOf(caps).Keys == caps.Keys
  {
  }

  lemma ShapeAt(caps: T.Caps, s: Slot)
    ensures s in T.ShapeOf(caps) <==> s in caps
    ensures IsNode(T.ShapeOf(caps), s) <==> s in caps && caps[s].isNode
    ensures IsNode(T.ShapeOf(caps), s) ==> T.ShapeOf(caps)[s] == Node(caps[s].res, caps[s].bits)
  {
  }

  lemma StartsAtRoot(caps: T.Caps, pl: Places, t: nat, a: nat)
    requires Rooted(T.ShapeOf(caps), pl) && Root(t) in caps
    ensures caps[Root(t)].isNode && Root(t) in pl && pl[Root(t)].depth == 0 && OnWay(T.ShapeOf(caps), pl, Root(t), t, a) && High(a, 0) == a
  {
    RootPlace(T.ShapeOf(caps), pl, Root(t));
  }

  /// One round of the loop.
  lemma StepDown(caps: T.Caps, pl: Places, h: Slot, t: nat, a: nat)
    requires Rooted(T.ShapeOf(caps), pl) && h in caps && caps[h].isNode && h in pl && OnWay(T.ShapeOf(caps), pl, h, t, a)
    ensures var sh, c := T.ShapeOf(caps), In(caps[h].res, Low(High(a, pl[h].depth), caps[h].bits));
      && IsNode(sh, h) && Bits(sh, h) == caps[h].bits && 1 <= caps[h].bits && Next(sh, h, pl[h].depth, a) == c
      && (IsNode(sh, c) <==> c in caps && caps[c].isNode)
      && (IsNode(sh, c) ==> c in pl && OnWay(sh, pl, c, t, a) && caps[c].res != caps[h].res)
      && (IsNode(sh, c) ==> pl[c].depth == pl[h].depth + caps[h].bits && |Subtree(sh, pl, c)| < |Subtree(sh, pl, h)|)
  {
    hide Rooted, OnWay, Spot, Low, High, T.ShapeOf;
    var sh, c := T.ShapeOf(caps), In(caps[h].res, Low(High(a, pl[h].depth), caps[h].bits));
    ShapeAt(caps, h);
    ShapeAt(caps, c);
    NodeBits(sh, pl, h);
    WayStep(sh, pl, h, t, a);
    if IsNode(sh, c) {
      SubtreeSmaller(sh, pl, h, c);
      NodeBits(sh, pl, c);
      OtherNode(sh, pl, h, c);
    }
  }

  lemma OtherNode(sh: Shape, pl: Places, h: Slot, c: Slot)
    requires Rooted(sh, pl) && IsNode(sh, h) && IsNode(sh, c) && h in pl && c in pl && pl[h].depth != pl[c].depth
    ensures sh[h].res != sh[c].res
  {
  }

  lemma FoundThere(sh: Shape, pl: Places, h: Slot, t: nat, address: nat, a: nat, depth: Option<nat>, r: Result)
    requires Rooted(sh, pl) && OnWay(sh, pl, h, t, a) && r.Found? && r.slot == Next(sh, h, pl[h].depth, a) && r.depth == pl[h].depth + Bits(sh, h)
    requires if depth.Some? then r.depth == depth.value && a == Low(address, depth.value) else a == address && !IsNode(sh, r.slot)
    requires r.container == r.slot.node
    ensures FoundBy(sh, pl, t, address, depth, r)
  {
    hide Rooted, OnWay, Spot, Low, High;
    WayStep(sh, pl, h, t, a);
    if depth.Some? {
      LowOfLow(address, depth.value);
    } else {
      LeafFound(sh, pl, h, t, a);
    }
  }

  lemma LowOfLow(a: nat, n: nat)
    ensures Low(Low(a, n), n) == Low(a, n)
  {
    LowLow(a, n, n);
  }

  lemma {:induction false} HighHigh(a: nat, m: nat, n: nat)
    ensures High(High(a, m), n) == High(a, m + n)
  {
    if m > 0 {
      HighHigh(a / 2, m - 1, n);
    }
  }
}

/**
Look-ups that overlap in any way: several may hold the same node, and their unlocks may come in any order.
*/
module LookUpLocks {
  import opened Basics
  import opened SlotLists
  import opened CapabilitySystem

  /// What a look-up and its unlock do to the locks, as CapabilitySystem.System states it.
  datatype Hold = Hold(container: Res, mustUnlock: bool)

  datatype State = State(locked: set<Res>, holds: seq<Hold>)

  /// A look-up whose slot lies in `container`, one that fails, or the unlock of the i-th outstanding one.
  datatype Op = Take(container: Res) | Fail | Drop(i: nat)

  function Apply(st: State, op: Op): State {
    match op
    case Take(c) => State(st.locked + {c}, st.holds + [Hold(c, c !in st.locked)])
    case Fail => st
    case Drop(i) =>
      if |st.holds| <= i then st
      else State(if st.holds[i].mustUnlock then st.locked - {st.holds[i].container} else st.locked, st.holds[..i] + st.holds[i + 1..])
  }

  function Run(st: State, ops: seq<Op>): State
    decreases |ops|
  {
    if ops == [] then st else Run(Apply(st, ops[0]), ops[1..])
  }

  /// Every node locked beyond `base` is owed an unlock by exactly one look-up.
  ghost predicate Owed(base: set<Res>, st: State) {
    && base <= st.locked
    && (forall i :: 0 <= i < |st.holds| && st.holds[i].mustUnlock ==> st.holds[i].container in st.locked && st.holds[i].container !in base)
    && (forall i, j :: 0 <= i < j < |st.holds| && st.holds[i].mustUnlock && st.holds[j].mustUnlock ==> st.holds[i].container != st.holds[j].container)
    && (forall c :: c in st.locked && c !in base ==> OwedBy(st.holds, c))
  }

  ghost predicate OwedBy(holds: seq<Hold>, c: Res) { exists i :: 0 <= i < |holds| && holds[i] == Hold(c, true) }

  lemma TakeOwed(base: set<Res>, st: State, c: Res)
    requires Owed(base, st)
    ensures Owed(base, Apply(st, Take(c)))
  {
    var st' := Apply(st, Take(c));
    forall d | d in st'.locked && d !in base ensures OwedBy(st'.holds, d) {
      if d in st.locked {
        assert OwedBy(st.holds, d);
        var i :| 0 <= i < |st.holds| && st.holds[i] == Hold(d, true);
        assert st'.holds[i] == Hold(d, true);
      } else {
        assert st'.holds[|st.holds|] == Hold(d, true);
      }
    }
  }

  lemma DropOwed(base: set<Res>, st: State, k: nat)
    requires Owed(base, st) && k < |st.holds|
    ensures Owed(base, Apply(st, Drop(k)))
  {
    var st' := Apply(st, Drop(k));
    assert forall i :: 0 <= i < |st'.holds| ==> st'.holds[i] == st.holds[if i < k then i else i + 1];
    forall d | d in st'.locked && d !in base ensures OwedBy(st'.holds, d) {
      assert OwedBy(st.holds, d);
      var i :| 0 <= i < |st.holds| && st.holds[i] == Hold(d, true);
      assert i != k;
      assert st'.holds[if i < k then i else i - 1] == Hold(d, true);
    }
  }

  lemma ApplyOwed(base: set<Res>, st: State, op: Op)
    requires Owed(base, st)
    ensures Owed(base, Apply(st, op))
  {
    match op {
      case Take(c) => TakeOwed(base, st, c);
      case Fail =>
      case Drop(k) => if k < |st.holds| { DropOwed(base, st, k); }
    }
  }

  lemma {:induction false} RunOwed(base: set<Res>, st: State, ops: seq<Op>)
    requires Owed(base, st)
    ensures Owed(base, Run(st, ops))
    decreases |ops|
  {
    if ops != [] {
      ApplyOwed(base, st, ops[0]);
      RunOwed(base, Apply(st, ops[0]), ops[1..]);
    }
  }

  /// A look-up does to the locks what an operation here does.
  method LookUpStep(system: System, t: nat, address: nat, depth: Option<nat>, ghost st: State) returns (r: Result, ghost op: Op)
    requires system.Placed() && system.locked == st.locked
    modifies system`locked
    ensures system.locked == Apply(st, op).locked
    ensures r.NotFound? ==> op == Fail
    ensures r.Found? ==> op == Take(r.container) && Apply(st, op).holds == st.holds + [Hold(r.container, r.mustUnlock)]
  {
    hide FoundBy;
    r := system.LookUp(t, address, depth);
    op := if r.Found? then Take(r.container) else Fail;
  }

  /// So does the unlock of the i-th outstanding look-up.
  method UnlockStep(system: System, r: Result, ghost st: State, ghost i: nat)
    requires r.Found? && system.locked == st.locked && i < |st.holds| && st.holds[i] == Hold(r.container, r.mustUnlock)
    modifies system`locked
    ensures system.locked == Apply(st, Drop(i)).locked
  {
    system.UnlockLookedUp(r);
  }

  /// However look-ups and unlocks interleave, once every look-up has been undone every lock is as before.
  lemma LocksRestored(base: set<Res>, ops: seq<Op>)
    requires Run(State(base, []), ops).holds == []
    ensures Run(State(base, []), ops).locked == base
  {
    RunOwed(base, State(base, []), ops);
    var st := Run(State(base, []), ops);
    assert forall c :: c in st.locked && c !in base ==> OwedBy(st.holds, c);
  }
}

/**
The heap and the capabilities together (core/kernel/heap.c, core/kernel/capabilities.c). The header of
a resource's block keeps the absolute address of the first capability on the resource's list. Whenever
the allocator moves the block, update_capability_resource looks that address up in the tree of its
thread and goes along the list.
*/
module CapabilityHeap {
  import opened Basics
  import opened HeapBlocks
  import opened HeapClaim
  import opened HeapRelease
  import opened KernelHeap
  import opened SlotLists
  import R = ResourceLists

  type Owned = map<Res, Where>
  type Blocks = map<Res, Ptr>

  /// Resource `r` is in a live block whose header has the address `owner[r]`.
  ghost predicate Backed(hs: Headers, owner: Owned, at: Blocks, r: Res) {
    && r in at && r in owner && HEADER <= at[r] && at[r] - HEADER in hs
    && hs[at[r] - HEADER].kind != Available && hs[at[r] - HEADER].ref == Ref(Capability(owner[r]))
  }

  /// A block whose header has the address of a capability is the block of a resource.
  ghost predicate Known(hs: Headers, at: Blocks, b: Addr) {
    b in hs && hs[b].kind != Available && hs[b].ref.Ref? && hs[b].ref.owner.Capability? ==> exists r :: r in at && at[r] == b + HEADER
  }

  ghost predicate Separate(at: Blocks) { forall r, q :: r in at && q in at && r != q ==> at[r] != at[q] }

  ghost predicate Coupled(hs: Headers, owner: Owned, at: Blocks) {
    && (forall r {:trigger Backed(hs, owner, at, r)} :: r in at ==> Backed(hs, owner, at, r))
    && (forall b {:trigger Known(hs, at, b)} :: b in hs ==> Known(hs, at, b))
    && Separate(at)
  }

  /// No two headers have the same address.
  ghost predicate OneEach(owner: Owned) { forall r, q :: r in owner && q in owner && owner[r] == owner[q] ==> r == q }

  lemma OwnersApart(s: Snapshot, owner: Owned, at: Blocks)
    requires Coupled(s.hs, owner, at) && AllOwned(s) && owner.Keys == at.Keys
    ensures OneEach(owner)
  {
    forall r, q | r in owner && q in owner && owner[r] == owner[q] ensures r == q {
      assert Backed(s.hs, owner, at, r) && Backed(s.hs, owner, at, q);
      assert OwnerKnows(s, at[r] - HEADER) && OwnerKnows(s, at[q] - HEADER);
    }
  }

  // ---------------------------------------------------------------- notices

  /// The resource whose header has the address `w`.
  ghost predicate Named(owner: Owned, w: Where, r: Res) { r in owner && owner[r] == w }

  /// What the tables are after the notices: one to a capability retargets all for the same resource, and one
  /// to anybody else is none of their business.
  ghost function Heard(t: R.Tables, told: seq<Notice>): R.Tables {
    if told == [] then t else HearOne(Heard(t, told[..|told| - 1]), told[|told| - 1])
  }

  ghost function HearOne(t: R.Tables, n: Notice): R.Tables {
    if n.owner.Capability? && exists r :: Named(t.owner, n.owner.address, r) then
      var r :| Named(t.owner, n.owner.address, r);
      R.AfterBlockMove(t, r, n.at)
    else t
  }

  lemma HearsOne(t: R.Tables, n: Notice, r: Res)
    requires OneEach(t.owner) && n.owner.Capability? && Named(t.owner, n.owner.address, r)
    ensures HearOne(t, n) == R.AfterBlockMove(t, r, n.at)
  {
  }

  /// Only pointers differ.
  ghost predicate Retargeted(t: R.Tables, t': R.Tables) {
    && t'.lists == t.lists && t'.owner == t.owner && t'.at.Keys == t.at.Keys && t'.caps.Keys == t.caps.Keys
    && forall s :: s in t.caps ==> t'.caps[s].res == t.caps[s].res && t'.caps[s].stored == t.caps[s].stored
  }

  lemma HearOneKeeps(t: R.Tables, n: Notice)
    requires R.Consistent(t)
    ensures R.Consistent(HearOne(t, n)) && Retargeted(t, HearOne(t, n))
  {
    if n.owner.Capability? && exists r :: Named(t.owner, n.owner.address, r) {
      var r :| Named(t.owner, n.owner.address, r) && HearOne(t, n) == R.AfterBlockMove(t, r, n.at);
      R.BlockMoveConsistent(t, r, n.at);
    }
  }

  lemma {:induction false} HeardKeeps(t: R.Tables, told: seq<Notice>)
    requires R.Consistent(t)
    ensures R.Consistent(Heard(t, told)) && Retargeted(t, Heard(t, told))
  {
    if told != [] {
      HeardKeeps(t, told[..|told| - 1]);
      HearOneKeeps(Heard(t, told[..|told| - 1]), told[|told| - 1]);
    }
  }

  /// The tables have each resource where the capability in its header was told last.
  ghost predicate InStep(t: R.Tables, refs: map<Owner, Addr>) {
    forall r {:trigger t.at[r]} :: r in t.at ==> r in t.owner && Capability(t.owner[r]) in refs && refs[Capability(t.owner[r])] == t.at[r]
  }

  lemma HearOneInStep(t: R.Tables, refs: map<Owner, Addr>, n: Notice)
    requires InStep(t, refs) && OneEach(t.owner)
    ensures InStep(HearOne(t, n), refs[n.owner := n.at])
  {
    if n.owner.Capability? && exists r :: Named(t.owner, n.owner.address, r) {
      var r :| Named(t.owner, n.owner.address, r);
      HearsOne(t, n, r);
    } else {
      forall r | r in t.at ensures Capability(t.owner[r]) != n.owner {
        assert Named(t.owner, t.owner[r], r);
      }
    }
  }

  lemma {:induction false} HeardInStep(t: R.Tables, refs: map<Owner, Addr>, told: seq<Notice>)
    requires R.Consistent(t) && InStep(t, refs) && OneEach(t.owner)
    ensures InStep(Heard(t, told), Tell(refs, told))
  {
    if told != [] {
      var before := told[..|told| - 1];
      HeardInStep(t, refs, before);
      HeardKeeps(t, before);
      HearOneInStep(Heard(t, before), Tell(refs, before), told[|told| - 1]);
    }
  }

  // ---------------------------------------------------------------- after heap_alloc

  /// Capability `s` points at the block that carries on the allocation it pointed at before.
  ghost predicate Follows(s0: Snapshot, s1: Snapshot, t0: R.Tables, t1: R.Tables, f: map<Addr, Addr>, s: Slot) {
    && s in t0.caps && s in t1.caps && HEADER <= t0.caps[s].ptr && t0.caps[s].ptr - HEADER in f
    && var a := t0.caps[s].ptr - HEADER;
    && t1.caps[s] == t0.caps[s].(ptr := f[a] + HEADER)
    && Carried(s0, s1, a, f[a])
  }

  /// The whole of it: after the allocator has moved what it moved and told whom it told, the tables are
  /// consistent, every resource is backed, and every capability points at its own block again.
  lemma CapabilitiesFollow(s0: Snapshot, s1: Snapshot, t: R.Tables, f: map<Addr, Addr>, told: seq<Notice>, fresh_: set<Addr>)
    requires R.Consistent(t) && Coupled(s0.hs, t.owner, t.at) && AllOwned(s0) && AllOwned(s1)
    requires Relocated(s0, s1, f) && Live(s1.hs) == f.Values + fresh_
    requires forall a :: a in fresh_ ==> a in s1.hs && s1.hs[a].ref == NoRef
    requires s1.refs == Tell(s0.refs, told)
    ensures R.Consistent(Heard(t, told)) && Coupled(s1.hs, Heard(t, told).owner, Heard(t, told).at)
    ensures forall s :: s in t.caps ==> Follows(s0, s1, t, Heard(t, told), f, s)
  {
    hide Relocated, AllOwned, R.Consistent, Coupled, Heard, Tell, Live, Follows, InStep, OneEach;
    SameKeys(t);
    HeardKeeps(t, told);
    CoupledInStep(s0, t);
    OwnersApart(s0, t.owner, t.at);
    HeardInStep(t, s0.refs, told);
    StillCoupled(s0, s1, t, Heard(t, told), f, fresh_);
    forall s | s in t.caps ensures Follows(s0, s1, t, Heard(t, told), f, s) {
      PointerFollows(s0, s1, t, Heard(t, told), f, s);
    }
  }

  lemma SameKeys(t: R.Tables)
    requires R.Consistent(t)
    ensures t.owner.Keys == t.at.Keys == t.lists.Keys
  {
  }

  lemma StillCoupled(s0: Snapshot, s1: Snapshot, t: R.Tables, t': R.Tables, f: map<Addr, Addr>, fresh_: set<Addr>)
    requires Relocated(s0, s1, f) && AllOwned(s1) && Coupled(s0.hs, t.owner, t.at) && Retargeted(t, t') && InStep(t', s1.refs)
    requires Live(s1.hs) == f.Values + fresh_
    requires forall a :: a in fresh_ ==> a in s1.hs && s1.hs[a].ref == NoRef
    ensures Coupled(s1.hs, t'.owner, t'.at)
  {
    hide Relocated, AllOwned, InStep, Live, Coupled;
    forall r | r in t'.at ensures Backed(s1.hs, t'.owner, t'.at, r) {
      StillBacked(s0, s1, t, t', f, r);
    }
    forall b | b in s1.hs ensures Known(s1.hs, t'.at, b) {
      StillKnown(s0, s1, t, t', f, fresh_, b);
    }
    forall r, q | r in t'.at && q in t'.at && r != q ensures t'.at[r] != t'.at[q] {
      StillBacked(s0, s1, t, t', f, r);
      StillBacked(s0, s1, t, t', f, q);
      StillSeparate(s0, s1, t, f, r, q);
    }
    CoupledBy(s1.hs, t'.owner, t'.at);
  }

  lemma CoupledBy(hs: Headers, owner: Owned, at: Blocks)
    requires (forall r :: r in at ==> Backed(hs, owner, at, r)) && (forall b :: b in hs ==> Known(hs, at, b)) && Separate(at)
    ensures Coupled(hs, owner, at)
  {
  }

  lemma StillSeparate(s0: Snapshot, s1: Snapshot, t: R.Tables, f: map<Addr, Addr>, r: Res, q: Res)
    requires Relocated(s0, s1, f) && Coupled(s0.hs, t.owner, t.at) && r in t.at && q in t.at && r != q
    requires t.at[r] >= HEADER && t.at[q] >= HEADER && t.at[r] - HEADER in f && t.at[q] - HEADER in f
    ensures f[t.at[r] - HEADER] != f[t.at[q] - HEADER]
  {
  }

  lemma PointerFollows(s0: Snapshot, s1: Snapshot, t: R.Tables, t': R.Tables, f: map<Addr, Addr>, s: Slot)
    requires Relocated(s0, s1, f) && AllOwned(s1) && Coupled(s0.hs, t.owner, t.at) && Retargeted(t, t') && InStep(t', s1.refs)
    requires R.Consistent(t) && R.Consistent(t') && s in t.caps
    ensures Follows(s0, s1, t, t', f, s)
  {
    hide R.Consistent, AllOwned, Coupled, InStep, Relocated, Carried;
    PointsAtBlock(t, s);
    PointsAtBlock(t', s);
    StillBacked(s0, s1, t, t', f, t.caps[s].res);
  }

  lemma PointsAtBlock(t: R.Tables, s: Slot)
    requires R.Consistent(t) && s in t.caps
    ensures t.caps[s].res in t.at && t.caps[s].ptr == t.at[t.caps[s].res]
  {
    assert R.CapOk(t, s);
  }

  lemma CoupledInStep(s: Snapshot, t: R.Tables)
    requires Coupled(s.hs, t.owner, t.at) && AllOwned(s)
    ensures InStep(t, s.refs)
  {
    forall r | r in t.at ensures r in t.owner && Capability(t.owner[r]) in s.refs && s.refs[Capability(t.owner[r])] == t.at[r] {
      assert Backed(s.hs, t.owner, t.at, r);
      assert OwnerKnows(s, t.at[r] - HEADER);
    }
  }

  lemma StillBacked(s0: Snapshot, s1: Snapshot, t: R.Tables, t': R.Tables, f: map<Addr, Addr>, r: Res)
    requires Relocated(s0, s1, f) && AllOwned(s1) && Coupled(s0.hs, t.owner, t.at)
    requires t'.owner == t.owner && InStep(t', s1.refs) && r in t'.at && r in t.at
    ensures Backed(s1.hs, t'.owner, t'.at, r) && HEADER <= t.at[r] && t.at[r] - HEADER in f && t'.at[r] == f[t.at[r] - HEADER] + HEADER
    ensures Carried(s0, s1, t.at[r] - HEADER, f[t.at[r] - HEADER])
  {
    assert Backed(s0.hs, t.owner, t.at, r);
    var a := t.at[r] - HEADER;
    assert a in Live(s0.hs);
    assert Carried(s0, s1, a, f[a]);
    assert OwnerKnows(s1, f[a]);
  }

  lemma StillKnown(s0: Snapshot, s1: Snapshot, t: R.Tables, t': R.Tables, f: map<Addr, Addr>, fresh_: set<Addr>, b: Addr)
    requires Relocated(s0, s1, f) && AllOwned(s1) && Coupled(s0.hs, t.owner, t.at) && Retargeted(t, t') && InStep(t', s1.refs)
    requires Live(s1.hs) == f.Values + fresh_ && b in s1.hs
    requires forall a :: a in fresh_ ==> a in s1.hs && s1.hs[a].ref == NoRef
    ensures Known(s1.hs, t'.at, b)
  {
    if s1.hs[b].kind != Available && s1.hs[b].ref.Ref? && s1.hs[b].ref.owner.Capability? {
      assert b in Live(s1.hs);
      var a: Addr :| a in f && f[a] == b;
      assert Carried(s0, s1, a, b) && a in Live(s0.hs);
      assert Known(s0.hs, t.at, a);
      var r :| r in t.at && t.at[r] == a + HEADER;
      StillBacked(s0, s1, t, t', f, r);
    }
  }

  // ---------------------------------------------------------------- what capability operations do to headers

  /// heap_set_update_capability: the header of the block at `p` has the address `w`.
  ghost predicate Renames(hs: Headers, hs': Headers, p: Addr, w: Where) {
    && HEADER <= p && p - HEADER in hs && hs[p - HEADER].kind != Available
    && hs' == hs[p - HEADER := hs[p - HEADER].(ref := Ref(Capability(w)))]
  }

  /// The block belongs to no capability.
  ghost predicate Unclaimed(hs: Headers, p: Addr) {
    HEADER <= p && p - HEADER in hs && (hs[p - HEADER].ref.Ref? ==> !hs[p - HEADER].ref.owner.Capability?)
  }

  /// When the header learns of a new first capability, heap and tables stay in step.
  lemma HeaderRenewed(hs: Headers, hs': Headers, owner: Owned, at: Blocks, r: Res, w: Where)
    requires Coupled(hs, owner, at) && r in at && Renames(hs, hs', at[r], w)
    ensures Coupled(hs', owner[r := w], at)
  {
    var owner' := owner[r := w];
    forall q | q in at ensures Backed(hs', owner', at, q) {
      assert Backed(hs, owner, at, q);
    }
    forall b | b in hs' ensures Known(hs', at, b) {
      assert Known(hs, at, b);
    }
  }

  /// A new resource, in a block that belonged to no capability.
  lemma HeaderAdded(hs: Headers, hs': Headers, owner: Owned, at: Blocks, r: Res, p: Addr, w: Where)
    requires Coupled(hs, owner, at) && r !in at && Renames(hs, hs', p, w) && Unclaimed(hs, p)
    ensures Coupled(hs', owner[r := w], at[r := p])
  {
    hide Backed, Known, Coupled, Renames;
    var owner', at' := owner[r := w], at[r := p];
    forall q | q in at' ensures Backed(hs', owner', at', q) {
      AddedBacked(hs, hs', owner, at, r, p, w, q);
    }
    forall q | q in at ensures at[q] != p {
      AddedBacked(hs, hs', owner, at, r, p, w, q);
    }
    forall b | b in hs' ensures Known(hs', at', b) {
      AddedKnown(hs, hs', owner, at, r, p, w, b);
    }
    assert Separate(at) by {
      CoupledSeparate(hs, owner, at);
    }
    CoupledBy(hs', owner', at');
  }

  lemma CoupledSeparate(hs: Headers, owner: Owned, at: Blocks)
    requires Coupled(hs, owner, at)
    ensures Separate(at)
  {
  }

  lemma AddedBacked(hs: Headers, hs': Headers, owner: Owned, at: Blocks, r: Res, p: Addr, w: Where, q: Res)
    requires Coupled(hs, owner, at) && r !in at && Renames(hs, hs', p, w) && Unclaimed(hs, p) && q in at[r := p]
    ensures Backed(hs', owner[r := w], at[r := p], q) && (q != r ==> at[q] != p)
  {
    if q != r {
      assert Backed(hs, owner, at, q);
    }
  }

  lemma AddedKnown(hs: Headers, hs': Headers, owner: Owned, at: Blocks, r: Res, p: Addr, w: Where, b: Addr)
    requires Coupled(hs, owner, at) && r !in at && Renames(hs, hs', p, w) && b in hs'
    ensures Known(hs', at[r := p], b)
  {
    var at' := at[r := p];
    if b == p - HEADER {
      assert r in at' && at'[r] == b + HEADER;
    } else if hs[b].kind != Available && hs[b].ref.Ref? && hs[b].ref.owner.Capability? {
      assert Known(hs, at, b);
      var q :| q in at && at[q] == b + HEADER;
      assert q in at' && at'[q] == b + HEADER;
    }
  }

  /// The block of a resource is freed with its last capability.
  lemma HeaderFreed(s: Snapshot, s': Snapshot, owner: Owned, at: Blocks, r: Res)
    requires Coupled(s.hs, owner, at) && r in at && HEADER <= at[r] && OnlyReleased(s, s', at[r] - HEADER)
    ensures Coupled(s'.hs, owner - {r}, at - {r})
  {
    var owner', at', a := owner - {r}, at - {r}, at[r] - HEADER;
    forall q | q in at' ensures Backed(s'.hs, owner', at', q) {
      assert Backed(s.hs, owner, at, q);
      var c := at[q] - HEADER;
      assert c in Live(s.hs) - {a} && OutsideKept(s, s', c);
    }
    forall b | b in s'.hs ensures Known(s'.hs, at', b) {
      if s'.hs[b].kind != Available && s'.hs[b].ref.Ref? && s'.hs[b].ref.owner.Capability? {
        assert b in Live(s'.hs);
        assert OutsideKept(s, s', b) && Known(s.hs, at, b);
        var q :| q in at && at[q] == b + HEADER;
        assert q in at' && at'[q] == b + HEADER;
      }
    }
  }

  /// Nobody's header is involved.
  lemma UnknownFreed(s: Snapshot, s': Snapshot, owner: Owned, at: Blocks, p: Addr)
    requires Coupled(s.hs, owner, at) && Unclaimed(s.hs, p) && OnlyReleased(s, s', p - HEADER)
    ensures Coupled(s'.hs, owner, at)
  {
    forall q | q in at ensures Backed(s'.hs, owner, at, q) {
      assert Backed(s.hs, owner, at, q);
      var c := at[q] - HEADER;
      assert c in Live(s.hs) - {p - HEADER} && OutsideKept(s, s', c);
    }
    forall b | b in s'.hs ensures Known(s'.hs, at, b) {
      if s'.hs[b].kind != Available && s'.hs[b].ref.Ref? && s'.hs[b].ref.owner.Capability? {
        assert b in Live(s'.hs);
        assert OutsideKept(s, s', b) && Known(s.hs, at, b);
      }
    }
  }

  /// Locking does not matter.
  lemma KindChanged(hs: Headers, hs': Headers, owner: Owned, at: Blocks, a: Addr, kind: Kind)
    requires Coupled(hs, owner, at) && a in hs && hs[a].kind != Available && kind != Available && hs' == hs[a := hs[a].(kind := kind)]
    ensures Coupled(hs', owner, at)
  {
    forall q | q in at ensures Backed(hs', owner, at, q) {
      assert Backed(hs, owner, at, q);
    }
    forall b | b in hs' ensures Known(hs', at, b) {
      assert Known(hs, at, b);
    }
  }

  // ---------------------------------------------------------------- many headers in turn

  /// Headers `done` were written, each once: whoever does not know its block shares its name with one of those.
  ghost predicate Clashes(s: Snapshot, done: set<Addr>) {
    forall a {:trigger OwnerKnows(s, a)} :: a in s.hs && s.hs[a].kind != Available ==>
      OwnerKnows(s, a) || exists b :: b in done && b != a && b in s.hs && s.hs[b].kind != Available && s.hs[b].ref == s.hs[a].ref
  }

  lemma ClashesStart(s: Snapshot)
    requires AllOwned(s)
    ensures Clashes(s, {})
  {
  }

  lemma ClashesStep(s: Snapshot, s': Snapshot, done: set<Addr>, p: Addr, w: Where)
    requires Clashes(s, done) && Renames(s.hs, s'.hs, p, w) && p - HEADER !in done && s'.refs == s.refs[Capability(w) := p]
    ensures Clashes(s', done + {p - HEADER})
  {
    var c := p - HEADER;
    forall a {:trigger OwnerKnows(s', a)} | a in s'.hs && s'.hs[a].kind != Available && !OwnerKnows(s', a)
      ensures exists b :: b in done + {c} && b != a && b in s'.hs && s'.hs[b].kind != Available && s'.hs[b].ref == s'.hs[a].ref
    {
      if !OwnerKnows(s, a) {
        var b :| b in done && b != a && b in s.hs && s.hs[b].kind != Available && s.hs[b].ref == s.hs[a].ref;
        assert b in s'.hs && s'.hs[b].ref == s'.hs[a].ref;
      } else {
        assert c in s'.hs && s'.hs[c].ref == s'.hs[a].ref;
      }
    }
  }

  /// If no two headers have the same address in the end, everybody knows.
  lemma ClashesEnd(s: Snapshot, done: set<Addr>, owner: Owned, at: Blocks)
    requires Clashes(s, done) && Coupled(s.hs, owner, at) && OneEach(owner)
    requires forall b :: b in done && b in s.hs && s.hs[b].ref.Ref? ==> s.hs[b].ref.owner.Capability?
    ensures AllOwned(s)
  {
    forall a | a in s.hs && s.hs[a].kind != Available ensures OwnerKnows(s, a) {
      if !OwnerKnows(s, a) {
        var b :| b in done && b != a && b in s.hs && s.hs[b].kind != Available && s.hs[b].ref == s.hs[a].ref;
        assert Known(s.hs, at, a) && Known(s.hs, at, b);
        var r :| r in at && at[r] == a + HEADER;
        assert Backed(s.hs, owner, at, r);
        var q :| q in at && at[q] == b + HEADER;
        OneBlock(s.hs, owner, at, r, q);
      }
    }
  }

  lemma OneBlock(hs: Headers, owner: Owned, at: Blocks, r: Res, q: Res)
    requires Coupled(hs, owner, at) && OneEach(owner) && r in at && q in at
    requires HEADER <= at[r] && HEADER <= at[q] && at[r] - HEADER in hs && at[q] - HEADER in hs && hs[at[r] - HEADER].ref == hs[at[q] - HEADER].ref
    ensures r == q
  {
    assert Backed(hs, owner, at, r) && Backed(hs, owner, at, q);
  }
}

/**
Releasing a block: what heap_free does to the list when the block after the freed one is not
available. When it is, the list is broken; KernelHeap.Heap.HeapFree states both halves.
*/
module HeapRelease {
  import opened HeapBlocks
  import opened HeapClaim

  ghost function Emptied(hs: Headers, a: Addr): Headers
    requires a in hs
  {
    hs[a := hs[a].(kind := Available, oldKind := Available)]
  }

  /// Block `a` becomes part of the available block `p` before it.
  ghost function Absorbed(hs: Headers, p: Addr, a: Addr): Headers
    requires p in hs && a in hs && p < a
  {
    Merge(hs, p, a)[p := hs[p].(size := hs[p].size + hs[a].size, next := hs[a].next)]
  }

  lemma EmptiedOk(s: Snapshot, a: Addr)
    requires Tiled(s.base, s.limit, s.hs) && Accounted(s) && a in s.hs && s.hs[a].kind != Available
    ensures Tiled(s.base, s.limit, Emptied(s.hs, a))
    ensures s.hs[a].size <= s.used
    ensures Accounted(s.(hs := Emptied(s.hs, a), used := s.used - s.hs[a].size))
  {
    var hs' := Emptied(s.hs, a);
    InRange(s.base, s.limit, s.hs);
    TiledSame(s.base, s.limit, s.hs, hs');
    BytesPut(s.base, s.limit, s.hs, a, hs'[a], Available);
    BytesAtLeast(s.hs, s.hs[a].kind, s.base, a, s.limit);
    UsedIsLiveBytes(s);
  }

  lemma AbsorbedTiled(base: Addr, limit: Addr, hs: Headers, p: Addr, a: Addr)
    requires Tiled(base, limit, hs) && a in hs && p in hs && hs[p].next == a && hs[p].kind == hs[a].kind == Available
    ensures p < a && p + hs[p].size == a
    ensures Tiled(base, limit, Absorbed(hs, p, a))
  {
    Neighbours(base, limit, hs, p);
    Neighbours(base, limit, hs, a);
    MergeTiled(base, limit, hs, p, a);
    TiledSame(base, limit, Merge(hs, p, a), Absorbed(hs, p, a));
  }

  lemma AbsorbedBytes(base: Addr, limit: Addr, hs: Headers, p: Addr, a: Addr)
    requires Tiled(base, limit, hs) && a in hs && p in hs && hs[p].next == a && hs[p].kind == hs[a].kind == Available && p < a
    ensures Bytes(Absorbed(hs, p, a), Available, base, limit) == Bytes(hs, Available, base, limit)
  {
    Neighbours(base, limit, hs, p);
    Neighbours(base, limit, hs, a);
    MergeBytes(base, limit, hs, p, a);
    forall c | c in hs && p <= c <= a ensures c == p || c == a {
      InOrder(base, limit, hs, p, c);
    }
    BytesLength(base, limit, hs, p, a, Available);
    BytesPut(base, limit, Merge(hs, p, a), p, Absorbed(hs, p, a)[p], Available);
  }

  /// Every other live block is as it was.
  ghost predicate OnlyReleased(s: Snapshot, s1: Snapshot, a: Addr) {
    && s1.base == s.base && s1.limit == s.limit && |s1.mem| == |s.mem| && s1.refs == s.refs
    && Live(s1.hs) == Live(s.hs) - {a}
    && forall c {:trigger OutsideKept(s, s1, c)} :: c in Live(s.hs) - {a} ==> OutsideKept(s, s1, c)
  }

  lemma ReleasedOwned(s: Snapshot, s1: Snapshot, a: Addr)
    requires OnlyReleased(s, s1, a) && AllOwned(s)
    ensures AllOwned(s1) && MovablesOwned(s1)
  {
    forall c | c in s1.hs && s1.hs[c].kind != Available ensures OwnerKnows(s1, c) {
      assert c in Live(s1.hs);
      assert OutsideKept(s, s1, c) && OwnerKnows(s, c);
    }
  }

  // ---------------------------------------------------------------- the steps of heap_free

  predicate NextAvailable(hs: Headers, a: Addr) {
    a in hs && hs[a].next in hs && hs[a].next != 0 && hs[hs[a].next].kind == Available
  }

  /// The backward merge as the source writes it, whatever the state of the list.
  function Backward(hs: Headers, a: Addr): Headers
    requires a in hs
  {
    var p, n := hs[a].prev, hs[a].next;
    if p != 0 && p in hs && hs[p].kind == Available then
      var m := hs[p := hs[p].(size := hs[p].size + hs[a].size, next := n)];
      var m' := if n != 0 && n in m then m[n := m[n].(prev := p)] else m;
      map c | c in m' && c != a :: m'[c]
    else
      hs
  }

  lemma BackwardAbsorbs(base: Addr, limit: Addr, hs: Headers, a: Addr)
    requires Tiled(base, limit, hs) && a in hs && hs[a].kind == Available
    ensures var p := hs[a].prev;
      if p in hs && p != 0 && hs[p].kind == Available then p < a && Backward(hs, a) == Absorbed(hs, p, a) else Backward(hs, a) == hs
    ensures Tiled(base, limit, Backward(hs, a))
    ensures Bytes(Backward(hs, a), Available, base, limit) == Bytes(hs, Available, base, limit)
  {
    Neighbours(base, limit, hs, a);
    var p := hs[a].prev;
    if p != 0 && hs[p].kind == Available {
      AbsorbedTiled(base, limit, hs, p, a);
      AbsorbedBytes(base, limit, hs, p, a);
      InRange(base, limit, hs);
      forall c | c in hs ensures !(p < c < a) {
        InOrder(base, limit, hs, p, c);
      }
      assert Backward(hs, a) == Absorbed(hs, p, a);
    }
  }

  /// With the block after `a` swallowed but still linked, the list cannot be well-formed again.
  lemma ForwardBreaks(base: Addr, limit: Addr, hs: Headers, a: Addr)
    requires a in hs && hs[a].next in hs && hs[a].next != 0 && a + hs[a].size != hs[a].next
    requires hs[a].prev != 0 ==> hs[a].prev in hs && hs[a].prev < a == hs[a].prev + hs[hs[a].prev].size
    ensures !Tiled(base, limit, Backward(hs, a))
  {
    var hs' := Backward(hs, a);
    var p := hs[a].prev;
    if p != 0 && hs[p].kind == Available {
      assert !BlockOk(base, limit, hs', p);
      assert p in hs';
    } else {
      assert !BlockOk(base, limit, hs', a);
    }
  }

  /// Block `a` is available, as part of the block before it if that was available, and nothing else differs but links.
  ghost predicate Returned(hs: Headers, hs': Headers, a: Addr) {
    && a in hs
    && var p := hs[a].prev;
    if p != 0 && p in hs && hs[p].kind == Available then
      && hs'.Keys == hs.Keys - {a} && p in hs' && hs'[p].kind == Available && hs'[p].size == hs[p].size + hs[a].size
      && forall c :: c in hs && c != a && c != p ==> c in hs' && SameButLinks(hs[c], hs'[c])
    else
      && hs'.Keys == hs.Keys && hs'[a].kind == Available && hs'[a].size == hs[a].size
      && forall c :: c in hs && c != a ==> c in hs' && SameButLinks(hs[c], hs'[c])
  }

  lemma BackwardReturns(base: Addr, limit: Addr, hs: Headers, a: Addr)
    requires Tiled(base, limit, hs) && a in hs && hs[a].kind != Available
    ensures Returned(hs, Backward(Emptied(hs, a), a), a)
  {
    Neighbours(base, limit, hs, a);
  }

  lemma ReleasedOnly(s: Snapshot, s1: Snapshot, s2: Snapshot, a: Addr)
    requires WF(s) && a in s.hs && s.hs[a].kind != Available
    requires s1.hs == Emptied(s.hs, a) && PayloadsKept(s.hs, s.mem, s1.mem) && |s1.mem| == |s.mem|
    requires s2.hs == Backward(s1.hs, a) && PayloadsKept(s1.hs, s1.mem, s2.mem) && |s2.mem| == |s.mem|
    requires s2.base == s.base && s2.limit == s.limit && s2.refs == s.refs
    ensures OnlyReleased(s, s2, a)
  {
    Neighbours(s.base, s.limit, s.hs, a);
    forall c | c in Live(s.hs) - {a} ensures OutsideKept(s, s2, c) {
      assert PayloadKept(s.hs, s.mem, s1.mem, c);
      assert PayloadKept(s1.hs, s1.mem, s2.mem, c);
    }
  }

  lemma RekindOk(s: Snapshot, s1: Snapshot, a: Addr)
    requires WF(s) && AllOwned(s) && a in s.hs && s.hs[a].kind != Available
    requires s1.base == s.base && s1.limit == s.limit && s1.refs == s.refs && s1.used == s.used && |s1.mem| == |s.mem|
    requires s1.hs.Keys == s.hs.Keys && s1.hs[a].kind != Available
    requires s1.hs == s.hs[a := s.hs[a].(kind := s1.hs[a].kind)]
    ensures WF(s1) && AllOwned(s1)
  {
    TiledSame(s.base, s.limit, s.hs, s1.hs);
    InRange(s.base, s.limit, s.hs);
    BytesPut(s.base, s.limit, s.hs, a, s1.hs[a], Available);
    forall c | c in s1.hs && s1.hs[c].kind != Available ensures OwnerKnows(s1, c) {
      assert OwnerKnows(s, c);
    }
  }

  lemma ReownSized(s: Snapshot, s1: Snapshot, a: Addr, owner: Owner)
    requires Tiled(s.base, s.limit, s.hs) && Accounted(s) && a in s.hs
    requires s1 == s.(hs := s.hs[a := s.hs[a].(ref := Ref(owner))], refs := s.refs[owner := a + HEADER], mem := s1.mem)
    ensures Tiled(s1.base, s1.limit, s1.hs) && Accounted(s1)
  {
    TiledSame(s.base, s.limit, s.hs, s1.hs);
    InRange(s.base, s.limit, s.hs);
    BytesPut(s.base, s.limit, s.hs, a, s1.hs[a], Available);
  }

  lemma ReownOk(s: Snapshot, s1: Snapshot, a: Addr, owner: Owner)
    requires WF(s) && AllOwned(s) && a in s.hs && s.hs[a].kind != Available
    requires forall c :: c in s.hs && s.hs[c].kind != Available && c != a ==> s.hs[c].ref != Ref(owner)
    requires s1 == s.(hs := s.hs[a := s.hs[a].(ref := Ref(owner))], refs := s.refs[owner := a + HEADER], mem := s1.mem)
    requires |s1.mem| == |s.mem|
    ensures WF(s1) && AllOwned(s1)
  {
    ReownSized(s, s1, a, owner);
    forall c | c in s1.hs && s1.hs[c].kind != Available ensures OwnerKnows(s1, c) {
      assert OwnerKnows(s, c);
    }
  }
}

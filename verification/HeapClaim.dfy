/**
Taking a run: splitting the available block at its end, and turning the vacated run into one
immovable block. Neither disturbs a live allocation.
*/
module HeapClaim {
  import opened HeapBlocks

  lemma SplitAvailable(s0: Snapshot, s1: Snapshot, a: Addr, at: nat)
    requires WF(s0) && a in s0.hs && s0.hs[a].kind == Available && CanSplit(s0.hs[a].size, at)
    requires BlockOk(s0.base, s0.limit, s0.hs, a)
    requires s1 == s0.(hs := SplitAt(s0.hs, a, at), mem := s1.mem) && |s1.mem| == |s0.mem|
    requires forall c :: c in s0.hs && c != a ==> PayloadKept(s0.hs, s0.mem, s1.mem, c)
    ensures WF(s1)
    ensures Relocated(s0, s1, Identity(Live(s0.hs)))
    ensures Identity(Live(s0.hs)).Values == Live(s0.hs) == Live(s1.hs) && Movables(s1.hs) == Movables(s0.hs)
  {
    hide Tiled, Relocated, SplitAt, Bytes;
    SplitKeys(s0.base, s0.limit, s0.hs, a, at);
    SplitTiled(s0.base, s0.limit, s0.hs, a, at);
    SplitBytes(s0.base, s0.limit, s0.hs, a, at, Available);
    SplitOthers(s0.base, s0.limit, s0.hs, a, at);
    SplitLive(s0.base, s0.limit, s0.hs, a, at);
    SplitOwned(s0, s1, a, at);
    hide MovablesOwned;
    forall c | c in Live(s0.hs) ensures HasPayload(s0, c) && Payload(s0, c) == Payload(s1, c) {
      assert PayloadKept(s0.hs, s0.mem, s1.mem, c);
    }
    RelocatedIdentity(s0, s1);
  }

  lemma SplitOwned(s0: Snapshot, s1: Snapshot, a: Addr, at: nat)
    requires Tiled(s0.base, s0.limit, s0.hs) && MovablesOwned(s0) && a in s0.hs && CanSplit(s0.hs[a].size, at)
    requires BlockOk(s0.base, s0.limit, s0.hs, a) && s1.hs == SplitAt(s0.hs, a, at) && s1.refs == s0.refs
    ensures MovablesOwned(s1)
  {
    hide Tiled, SplitAt;
    SplitOthers(s0.base, s0.limit, s0.hs, a, at);
    forall c | c in s1.hs && s1.hs[c].kind == Movable ensures OwnerKnows(s1, c) {
      assert OwnerKnows(s0, c);
    }
  }

  ghost predicate SameButLinks(h: Header, h': Header) {
    h'.size == h.size && h'.kind == h.kind && h'.oldKind == h.oldKind && h'.ref == h.ref
  }

  lemma SplitOthers(base: Addr, limit: Addr, hs: Headers, a: Addr, at: nat)
    requires Tiled(base, limit, hs) && a in hs && CanSplit(hs[a].size, at) && BlockOk(base, limit, hs, a)
    ensures SplitAt(hs, a, at).Keys == hs.Keys + {a + at} && a + at !in hs
    ensures forall c :: c in hs && c != a ==> SameButLinks(hs[c], SplitAt(hs, a, at)[c])
    ensures SplitAt(hs, a, at)[a].kind == hs[a].kind && SplitAt(hs, a, at)[a].ref == hs[a].ref && SplitAt(hs, a, at)[a].size == at
    ensures SplitAt(hs, a, at)[a + at].kind == Available && SplitAt(hs, a, at)[a + at].size == hs[a].size - at
  {
    SplitKeys(base, limit, hs, a, at);
    Neighbours(base, limit, hs, a);
  }

  lemma SplitLive(base: Addr, limit: Addr, hs: Headers, a: Addr, at: nat)
    requires Tiled(base, limit, hs) && a in hs && CanSplit(hs[a].size, at) && BlockOk(base, limit, hs, a)
    ensures Live(SplitAt(hs, a, at)) == Live(hs) && Movables(SplitAt(hs, a, at)) == Movables(hs)
  {
    SplitOthers(base, limit, hs, a, at);
  }

  // ---------------------------------------------------------------- the vacated run

  /// `v` is the heap `s` seen with its run free.
  ghost predicate Vacated(s: Snapshot, v: Snapshot, first: Addr, last: Addr) {
    && v.base == s.base && v.limit == s.limit && v.mem == s.mem && v.refs == s.refs
    && v.hs.Keys == s.hs.Keys
    && first in s.hs && first <= last
    && forall a :: a in s.hs ==> if InRun(first, last, a) then v.hs[a].kind == Available else v.hs[a] == s.hs[a]
  }

  ghost predicate OutsideKept(s: Snapshot, s1: Snapshot, c: Addr) {
    c in s.hs && c in s1.hs && SameButLinks(s.hs[c], s1.hs[c]) && PayloadKept(s.hs, s.mem, s1.mem, c)
  }

  /// `s1` is `s` with its run turned into the immovable block `first`.
  ghost predicate Claimed(s: Snapshot, s1: Snapshot, first: Addr, last: Addr) {
    && s1.base == s.base && s1.limit == s.limit && |s1.mem| == |s.mem| && s1.refs == s.refs
    && (forall c {:trigger OutsideKept(s, s1, c)} :: c in s.hs && !InRun(first, last, c) ==> OutsideKept(s, s1, c))
    && (forall c :: c in s1.hs && c != first && (c !in s.hs || InRun(first, last, c)) ==> s1.hs[c].kind == Available)
    && first in s1.hs && s1.hs[first].kind == Immovable && s1.hs[first].ref == NoRef
  }

  /// The run from `first` to `last` became one immovable block: of `size` bytes, with an available block of the rest
  /// behind it, if both are larger than a header, else of all its bytes.
  ghost predicate Carved(hs: Headers, hs': Headers, first: Addr, last: Addr, size: nat) {
    && first in hs && last in hs && first <= last
    && var total := last + hs[last].size - first;
    && var served := if HEADER < size && size + HEADER < total then size else total;
    && hs'.Keys == (set a | a in hs && !(first < a <= last)) + (if served < total then {first + served} else {})
    && first in hs' && hs'[first].size == served && hs'[first].kind == Immovable
    && (served < total ==> hs'[first + served].kind == Available && hs'[first + served].size == total - served)
    && forall c :: c in hs && !InRun(first, last, c) ==> c in hs' && SameButLinks(hs[c], hs'[c])
  }

  lemma ClaimedCarved(base: Addr, limit: Addr, hs: Headers, hs1: Headers, hs2: Headers, first: Addr, last: Addr, size: nat, split: bool)
    requires Tiled(base, limit, hs) && first in hs && last in hs && first <= last
    requires hs1 == Merge(hs, first, last)
    requires split <==> CanSplit(hs1[first].size, size)
    requires split ==> BlockOk(base, limit, hs1, first)
    requires hs2 == if split then SplitAt(hs1, first, size) else hs1
    ensures Carved(hs, hs2, first, last, size)
  {
    MergeTiled(base, limit, hs, first, last);
    MergeOutside(base, limit, hs, first, last);
    if split {
      SplitOthers(base, limit, hs1, first, size);
    }
  }

  lemma ClaimedLive(s: Snapshot, v: Snapshot, s1: Snapshot, first: Addr, last: Addr)
    requires Vacated(s, v, first, last) && Claimed(s, s1, first, last)
    ensures Live(s1.hs) == Live(v.hs) + {first} && first !in Live(v.hs)
    ensures Movables(s1.hs) == Movables(v.hs)
  {
    forall c | c in s.hs && !InRun(first, last, c) ensures OutsideKept(s, s1, c) {
    }
  }

  lemma ClaimedRelocated(s: Snapshot, v: Snapshot, s1: Snapshot, first: Addr, last: Addr)
    requires Vacated(s, v, first, last) && Claimed(s, s1, first, last)
    requires Tiled(v.base, v.limit, v.hs) && |v.mem| == v.limit && MovablesOwned(v)
    ensures Relocated(v, s1, Identity(Live(v.hs))) && Identity(Live(v.hs)).Values == Live(v.hs)
    ensures MovablesOwned(s1)
  {
    forall c | c in Live(v.hs) ensures OutsideKept(s, s1, c) && v.hs[c] == s.hs[c] {
    }
    RelocatedIdentity(v, s1);
    ClaimedLive(s, v, s1, first, last);
    forall c | c in s1.hs && s1.hs[c].kind == Movable ensures OwnerKnows(s1, c) {
      assert c in Movables(s1.hs) && c in Movables(v.hs);
      assert OutsideKept(s, s1, c) && OwnerKnows(v, c);
    }
  }

  lemma MergeOutside(base: Addr, limit: Addr, hs: Headers, first: Addr, last: Addr)
    requires Tiled(base, limit, hs) && first in hs && last in hs && first <= last
    ensures forall c :: c in hs && !InRun(first, last, c) ==> c in Merge(hs, first, last) && SameButLinks(hs[c], Merge(hs, first, last)[c])
    ensures forall c :: c in Merge(hs, first, last) ==> c in hs && (c == first || !InRun(first, last, c))
  {
  }

  /// The byte count after the run became one block, in both cases heap_alloc meets.
  lemma ClaimBytes(s: Snapshot, first: Addr, last: Addr)
    requires Tiled(s.base, s.limit, s.hs) && Accounted(s)
    requires first in s.hs && last in s.hs && first <= last
    ensures (forall a :: a in s.hs && InRun(first, last, a) ==> s.hs[a].kind == Available)
      ==> s.used + (last + s.hs[last].size - first) + Bytes(Merge(s.hs, first, last), Available, s.base, s.limit) == s.limit - s.base
    ensures (forall a :: a in s.hs && InRun(first, last, a) ==> s.hs[a].kind == Immovable)
      ==> s.used + Bytes(Merge(s.hs, first, last), Available, s.base, s.limit) == s.limit - s.base
  {
    MergeBytes(s.base, s.limit, s.hs, first, last);
    if forall a :: a in s.hs && InRun(first, last, a) ==> s.hs[a].kind == Available {
      BytesLength(s.base, s.limit, s.hs, first, last, Available);
    } else if forall a :: a in s.hs && InRun(first, last, a) ==> s.hs[a].kind == Immovable {
      forall a | a in s.hs && first <= a < last + s.hs[last].size ensures s.hs[a].kind != Available {
        InOrder(s.base, s.limit, s.hs, last, a);
        assert InRun(first, last, a);
      }
      BytesNone(s.hs, Available, first, last + s.hs[last].size);
    }
  }

  /// The writes that turn the run into one block touch no payload outside it.
  lemma MergeKeeps(base: Addr, limit: Addr, hs: Headers, m0: seq<bv8>, m1: seq<bv8>, m2: seq<bv8>, first: Addr, last: Addr)
    requires Tiled(base, limit, hs) && |m0| == limit && first in hs && last in hs && first <= last
    requires SameExcept(m0, m1, first, first + HEADER)
    requires if hs[last].next == 0 then m2 == m1 else SameExcept(m1, m2, hs[last].next, hs[last].next + HEADER)
    ensures PayloadsKept(hs, m0, m2)
  {
    Neighbours(base, limit, hs, last);
    HeaderWriteKeeps(base, limit, hs, m0, m1, first);
    if hs[last].next != 0 {
      HeaderWriteKeeps(base, limit, hs, m1, m2, hs[last].next);
      PayloadsKeptThen(hs, hs, m0, m1, m2);
    }
  }

  lemma ClaimedBy(s: Snapshot, s1: Snapshot, s2: Snapshot, first: Addr, last: Addr, size: nat, split: bool)
    requires Tiled(s.base, s.limit, s.hs) && |s.mem| == s.limit && first in s.hs && last in s.hs && first <= last
    requires s1.hs == Merge(s.hs, first, last) && PayloadsKept(s.hs, s.mem, s1.mem)
    requires s2.base == s.base && s2.limit == s.limit && s2.refs == s.refs && |s2.mem| == |s1.mem| == |s.mem|
    requires forall c :: c in s1.hs && c != first ==> PayloadKept(s1.hs, s1.mem, s2.mem, c)
    requires split ==> CanSplit(s1.hs[first].size, size) && BlockOk(s.base, s.limit, s1.hs, first) && s2.hs == SplitAt(s1.hs, first, size)
    requires !split ==> s2.hs == s1.hs
    ensures Claimed(s, s2, first, last)
  {
    hide Tiled, Merge, SplitAt;
    ClaimedHeaders(s.base, s.limit, s.hs, s1.hs, s2.hs, first, last, size, split);
    forall c | c in s.hs && !InRun(first, last, c) ensures OutsideKept(s, s2, c) {
      assert SameButLinks(s.hs[c], s2.hs[c]);
      assert PayloadKept(s.hs, s.mem, s1.mem, c);
      assert PayloadKept(s1.hs, s1.mem, s2.mem, c);
    }
  }

  lemma ClaimedHeaders(base: Addr, limit: Addr, hs: Headers, hs1: Headers, hs2: Headers, first: Addr, last: Addr, size: nat, split: bool)
    requires Tiled(base, limit, hs) && first in hs && last in hs && first <= last
    requires hs1 == Merge(hs, first, last)
    requires split ==> CanSplit(hs1[first].size, size) && BlockOk(base, limit, hs1, first) && hs2 == SplitAt(hs1, first, size)
    requires !split ==> hs2 == hs1
    ensures forall c :: c in hs && !InRun(first, last, c) ==> c in hs1 && c in hs2 && SameButLinks(hs[c], hs1[c]) && SameButLinks(hs[c], hs2[c])
    ensures forall c :: c in hs2 && c != first && (c !in hs || InRun(first, last, c)) ==> hs2[c].kind == Available
    ensures first in hs2 && hs2[first].kind == Immovable && hs2[first].ref == NoRef
  {
    MergeTiled(base, limit, hs, first, last);
    MergeOutside(base, limit, hs, first, last);
    if split {
      SplitOthers(base, limit, hs1, first, size);
    }
  }

  lemma UsedAtLeast(s: Snapshot, a: Addr)
    requires Tiled(s.base, s.limit, s.hs) && Accounted(s) && a in s.hs && s.hs[a].kind == Immovable
    ensures s.hs[a].size <= s.used
  {
    InRange(s.base, s.limit, s.hs);
    BytesAtLeast(s.hs, Immovable, s.base, a, s.limit);
    UsedIsLiveBytes(s);
  }

  /// There is something to move exactly when the run holds a movable block.
  lemma RunKinds(s: Snapshot, first: Addr, last: Addr)
    requires Tiled(s.base, s.limit, s.hs) && IsRun(s.hs, first, last)
    ensures Bytes(s.hs, Movable, first, last + s.hs[last].size) == 0
       <==> forall a :: a in s.hs && InRun(first, last, a) ==> s.hs[a].kind == Available
    ensures Bytes(s.hs, Movable, first, last + s.hs[last].size) != 0 ==> Movables(s.hs) != {}
  {
    InRange(s.base, s.limit, s.hs);
    if a :| a in s.hs && InRun(first, last, a) && s.hs[a].kind == Movable {
      BytesAtLeast(s.hs, Movable, first, a, last + s.hs[last].size);
      assert a in Movables(s.hs);
    } else {
      forall a | a in s.hs && first <= a < last + s.hs[last].size ensures s.hs[a].kind != Movable {
        InOrder(s.base, s.limit, s.hs, last, a);
        assert InRun(first, last, a);
      }
      BytesNone(s.hs, Movable, first, last + s.hs[last].size);
    }
  }

  lemma RunEnds(base: Addr, limit: Addr, hs: Headers, first: Addr, last: Addr)
    requires Tiled(base, limit, hs) && first in hs && last in hs && first <= last
    ensures first + HEADER <= limit
    ensures hs[last].next != 0 ==> hs[last].next in hs && last < hs[last].next && hs[last].next + HEADER <= limit
    ensures hs[last].next == 0 ==> 0 !in hs
  {
    InRange(base, limit, hs);
    Neighbours(base, limit, hs, last);
  }

  function Unlinked(hs: Headers, first: Addr, last: Addr): Headers {
    map a | a in hs && !(first < a <= last) :: hs[a]
  }

  /// What the writes of a merge leave linked is the merged list.
  lemma MergeWrites(base: Addr, limit: Addr, hs: Headers, hs': Headers, first: Addr, last: Addr)
    requires Tiled(base, limit, hs) && first in hs && last in hs && first <= last
    requires hs[last].next == 0 || hs[last].next in hs
    requires var merged := hs[first := Header(last + hs[last].size - first, Immovable, Available, NoRef, hs[last].next, hs[first].prev)];
             hs' == if hs[last].next == 0 then merged else merged[hs[last].next := merged[hs[last].next].(prev := first)]
    ensures Unlinked(hs', first, last) == Merge(hs, first, last)
  {
    RunEnds(base, limit, hs, first, last);
  }
}

/**
The block list of the relocating heap (core/kernel/heap.h) as a value: headers with their
`next`/`prev` links, the bytes of the managed region, and the places that must be told when a
block moves. This module holds what a well-formed heap is, the pure effect of each list surgery,
and what it means for one heap to carry on every allocation of another.
*/
module HeapBlocks {
  import opened Basics

  /// The size of a block header in the 68000 layout: size 4, flags and padding 2, update_ref 12, links 8.
  const HEADER: nat := 26

  /// A pointer; 0 is NULL.
  type Addr = nat

  datatype Kind = Available | Immovable | Movable

  /// Who can be told when a block moves: a pointer cell, a function, or the capability at an address.
  datatype Owner = Cell(id: nat) | Function(id: nat) | Capability(address: Where)

  /// Who is told when a block moves: nobody (a NULL absolute pointer), or some owner.
  datatype UpdateRef = NoRef | Ref(owner: Owner)

  datatype Header = Header(size: nat, kind: Kind, oldKind: Kind, ref: UpdateRef, next: Addr, prev: Addr)

  type Headers = map<Addr, Header>

  datatype Snapshot = Snapshot(base: Addr, limit: Addr, hs: Headers, mem: seq<bv8>, refs: map<Owner, Addr>, used: nat)

  // ---------------------------------------------------------------- tiling

  ghost predicate BlockOk(base: Addr, limit: Addr, hs: Headers, a: Addr) {
    && a in hs
    && var h := hs[a];
    && base <= a && HEADER <= h.size && a + h.size <= limit
    && (if a + h.size == limit then h.next == 0
        else h.next == a + h.size && h.next in hs && hs[h.next].prev == a)
    && (if a == base then h.prev == 0
        else h.prev in hs && hs[h.prev].next == a && h.prev < a)
  }

  ghost predicate Apart(hs: Headers, a: Addr, b: Addr) {
    a in hs && b in hs && a + hs[a].size <= b
  }

  /// The linked blocks cover [base, limit) exactly, without gaps or overlap, and the links agree.
  ghost predicate Tiled(base: Addr, limit: Addr, hs: Headers) {
    && 4 <= base < limit <= WORD
    && base in hs
    && (forall a {:trigger BlockOk(base, limit, hs, a)} :: a in hs ==> BlockOk(base, limit, hs, a))
    && (forall a, b {:trigger Apart(hs, a, b)} :: a in hs && b in hs && a < b ==> Apart(hs, a, b))
  }

  /// The next block, if any, starts where this one ends; so does this one where the previous ends.
  lemma Neighbours(base: Addr, limit: Addr, hs: Headers, a: Addr)
    requires Tiled(base, limit, hs) && a in hs
    ensures BlockOk(base, limit, hs, a)
    ensures hs[a].next != 0 ==> BlockOk(base, limit, hs, hs[a].next) && hs[a].next == a + hs[a].size
    ensures a != base ==> BlockOk(base, limit, hs, hs[a].prev) && hs[a].prev + hs[hs[a].prev].size == a
  {
    assert BlockOk(base, limit, hs, a);
    if hs[a].next != 0 {
      assert BlockOk(base, limit, hs, hs[a].next);
    }
    if a != base {
      assert BlockOk(base, limit, hs, hs[a].prev);
    }
  }

  /// Blocks do not overlap.
  lemma InOrder(base: Addr, limit: Addr, hs: Headers, a: Addr, b: Addr)
    requires Tiled(base, limit, hs) && a in hs && b in hs
    ensures a < b ==> a + hs[a].size <= b
    ensures b < a ==> b + hs[b].size <= a
  {
    assert a < b ==> Apart(hs, a, b);
    assert b < a ==> Apart(hs, b, a);
  }

  // ---------------------------------------------------------------- accounting

  function Weight(h: Header, k: Kind): nat { if h.kind == k then h.size else 0 }

  /// The total size of the blocks of kind `k` that start in [lo, hi).
  ghost function Bytes(hs: Headers, k: Kind, lo: Addr, hi: Addr): nat
    decreases hi
  {
    if hi <= lo then 0
    else Bytes(hs, k, lo, hi - 1) + if hi - 1 in hs then Weight(hs[hi - 1], k) else 0
  }

  lemma {:induction false} BytesConcat(hs: Headers, k: Kind, lo: Addr, mid: Addr, hi: Addr)
    requires lo <= mid <= hi
    ensures Bytes(hs, k, lo, hi) == Bytes(hs, k, lo, mid) + Bytes(hs, k, mid, hi)
    decreases hi
  {
    if mid < hi {
      BytesConcat(hs, k, lo, mid, hi - 1);
    }
  }

  ghost predicate SameWeight(hs: Headers, hs': Headers, k: Kind, a: Addr) {
    (if a in hs then Weight(hs[a], k) else 0) == (if a in hs' then Weight(hs'[a], k) else 0)
  }

  lemma {:induction false} BytesSame(hs: Headers, hs': Headers, k: Kind, lo: Addr, hi: Addr)
    requires forall a {:trigger SameWeight(hs, hs', k, a)} :: lo <= a < hi ==> SameWeight(hs, hs', k, a)
    ensures Bytes(hs, k, lo, hi) == Bytes(hs', k, lo, hi)
    decreases hi
  {
    if lo < hi {
      BytesSame(hs, hs', k, lo, hi - 1);
      assert SameWeight(hs, hs', k, hi - 1);
    }
  }

  lemma {:induction false} BytesNone(hs: Headers, k: Kind, lo: Addr, hi: Addr)
    requires forall a :: a in hs && lo <= a < hi ==> hs[a].kind != k
    ensures Bytes(hs, k, lo, hi) == 0
    decreases hi
  {
    if lo < hi {
      BytesNone(hs, k, lo, hi - 1);
    }
  }

  /// A range that holds the start of one block only.
  lemma BytesSingle(hs: Headers, k: Kind, a: Addr, hi: Addr)
    requires a in hs && a < hi
    requires forall b :: b in hs && a < b < hi ==> Weight(hs[b], k) == 0
    ensures Bytes(hs, k, a, hi) == Weight(hs[a], k)
  {
    BytesConcat(hs, k, a, a + 1, hi);
    BytesZero(hs, k, a + 1, hi);
    assert Bytes(hs, k, a, a) == 0;
  }

  lemma {:induction false} BytesZero(hs: Headers, k: Kind, lo: Addr, hi: Addr)
    requires forall b :: b in hs && lo <= b < hi ==> Weight(hs[b], k) == 0
    ensures Bytes(hs, k, lo, hi) == 0
    decreases hi
  {
    if lo < hi {
      BytesZero(hs, k, lo, hi - 1);
    }
  }

  /// Walking over one block.
  lemma BytesStep(base: Addr, limit: Addr, hs: Headers, k: Kind, lo: Addr, e: Addr)
    requires Tiled(base, limit, hs) && e in hs && lo <= e
    ensures Bytes(hs, k, lo, e + hs[e].size) == Bytes(hs, k, lo, e) + Weight(hs[e], k)
  {
    assert BlockOk(base, limit, hs, e);
    BytesConcat(hs, k, lo, e, e + hs[e].size);
    forall b | b in hs ensures e < b ==> e + hs[e].size <= b {
      InOrder(base, limit, hs, e, b);
    }
    BytesSingle(hs, k, e, e + hs[e].size);
  }

  /// A change confined to [lo, hi) changes the total by what it changes there.
  lemma BytesLocal(hs: Headers, hs': Headers, k: Kind, base: Addr, lo: Addr, hi: Addr, limit: Addr)
    requires base <= lo <= hi <= limit
    requires forall a {:trigger SameWeight(hs, hs', k, a)} :: base <= a < lo || hi <= a < limit ==> SameWeight(hs, hs', k, a)
    ensures Bytes(hs, k, base, limit) - Bytes(hs, k, lo, hi) == Bytes(hs', k, base, limit) - Bytes(hs', k, lo, hi)
  {
    BytesConcat(hs, k, base, lo, limit);
    BytesConcat(hs, k, lo, hi, limit);
    BytesConcat(hs', k, base, lo, limit);
    BytesConcat(hs', k, lo, hi, limit);
    BytesSame(hs, hs', k, base, lo);
    BytesSame(hs, hs', k, hi, limit);
  }

  lemma BytesWithin(hs: Headers, k: Kind, base: Addr, lo: Addr, hi: Addr, limit: Addr)
    requires base <= lo <= hi <= limit
    ensures Bytes(hs, k, lo, hi) <= Bytes(hs, k, base, limit)
  {
    BytesConcat(hs, k, base, lo, limit);
    BytesConcat(hs, k, lo, hi, limit);
  }

  lemma BytesAtLeast(hs: Headers, k: Kind, lo: Addr, a: Addr, hi: Addr)
    requires lo <= a < hi && a in hs && hs[a].kind == k
    ensures hs[a].size <= Bytes(hs, k, lo, hi)
  {
    BytesWithin(hs, k, lo, a, a + 1, hi);
    assert Bytes(hs, k, a, a) == 0;
  }

  /// A stretch of blocks all of kind `k` weighs its length in bytes.
  lemma {:induction false} BytesLength(base: Addr, limit: Addr, hs: Headers, lo: Addr, e: Addr, k: Kind)
    requires Tiled(base, limit, hs) && lo in hs && e in hs && lo <= e
    requires forall a :: a in hs && lo <= a <= e ==> hs[a].kind == k
    ensures Bytes(hs, k, lo, e + hs[e].size) == e + hs[e].size - lo
    decreases e
  {
    BytesStep(base, limit, hs, k, lo, e);
    if lo < e {
      assert BlockOk(base, limit, hs, lo);
      Neighbours(base, limit, hs, e);
      InOrder(base, limit, hs, hs[e].prev, lo);
      BytesLength(base, limit, hs, lo, hs[e].prev, k);
    }
  }

  ghost function Total(hs: Headers, lo: Addr, hi: Addr): nat {
    Bytes(hs, Available, lo, hi) + Bytes(hs, Immovable, lo, hi) + Bytes(hs, Movable, lo, hi)
  }

  /// The sizes of all blocks up to `e` add up to the region they cover.
  lemma {:induction false} TiledTotal(base: Addr, limit: Addr, hs: Headers, e: Addr)
    requires Tiled(base, limit, hs) && e in hs
    ensures Total(hs, base, e + hs[e].size) == e + hs[e].size - base
    decreases e
  {
    assert BlockOk(base, limit, hs, e);
    BytesStep(base, limit, hs, Available, base, e);
    BytesStep(base, limit, hs, Immovable, base, e);
    BytesStep(base, limit, hs, Movable, base, e);
    if e != base {
      Neighbours(base, limit, hs, e);
      TiledTotal(base, limit, hs, hs[e].prev);
    }
  }

  /// The list has a last block.
  lemma {:induction false} LastBlock(base: Addr, limit: Addr, hs: Headers, a: Addr) returns (e: Addr)
    requires Tiled(base, limit, hs) && a in hs
    ensures e in hs && e + hs[e].size == limit
    decreases limit - a
  {
    Neighbours(base, limit, hs, a);
    if a + hs[a].size == limit {
      e := a;
    } else {
      e := LastBlock(base, limit, hs, hs[a].next);
    }
  }

  // ---------------------------------------------------------------- well-formedness

  ghost function Live(hs: Headers): set<Addr> { set a | a in hs && hs[a].kind != Available }

  ghost function Movables(hs: Headers): set<Addr> { set a | a in hs && hs[a].kind == Movable }

  ghost predicate Accounted(s: Snapshot) { s.used + Bytes(s.hs, Available, s.base, s.limit) == s.limit - s.base }

  /// The owner of block `a`, if it has one, points at its payload.
  ghost predicate OwnerKnows(s: Snapshot, a: Addr)
    requires a in s.hs
  {
    s.hs[a].ref.Ref? ==> s.hs[a].ref.owner in s.refs && s.refs[s.hs[a].ref.owner] == a + HEADER
  }

  ghost predicate MovablesOwned(s: Snapshot) {
    forall a :: a in s.hs && s.hs[a].kind == Movable ==> OwnerKnows(s, a)
  }

  ghost predicate AllOwned(s: Snapshot) {
    forall a :: a in s.hs && s.hs[a].kind != Available ==> OwnerKnows(s, a)
  }

  ghost predicate WF(s: Snapshot) {
    && Tiled(s.base, s.limit, s.hs)
    && |s.mem| == s.limit
    && Accounted(s)
    && MovablesOwned(s)
  }

  /// `used_memory` is exactly what the allocated blocks occupy.
  lemma UsedIsLiveBytes(s: Snapshot)
    requires Tiled(s.base, s.limit, s.hs) && Accounted(s)
    ensures s.used == Bytes(s.hs, Immovable, s.base, s.limit) + Bytes(s.hs, Movable, s.base, s.limit)
  {
    var e := LastBlock(s.base, s.limit, s.hs, s.base);
    TiledTotal(s.base, s.limit, s.hs, e);
  }

  // ---------------------------------------------------------------- walking the list

  lemma InRange(base: Addr, limit: Addr, hs: Headers)
    requires Tiled(base, limit, hs)
    ensures forall b :: b in hs ==> base <= b && HEADER <= hs[b].size && b + hs[b].size <= limit
  {
    forall b | b in hs ensures base <= b && HEADER <= hs[b].size && b + hs[b].size <= limit {
      assert BlockOk(base, limit, hs, b);
    }
  }

  lemma Within(base: Addr, limit: Addr, hs: Headers, a: Addr)
    requires Tiled(base, limit, hs) && a in hs
    ensures base <= a && HEADER <= hs[a].size && a + hs[a].size <= limit
  {
    assert BlockOk(base, limit, hs, a);
  }

  /// Every later block lies at or after the next one.
  lemma ScanStep(s: Snapshot, first: Addr, last: Addr)
    requires WF(s) && first in s.hs && last in s.hs && first <= last
    ensures HEADER <= s.hs[last].size && last + s.hs[last].size <= s.limit
    ensures s.hs[last].next != 0 ==> s.hs[last].next in s.hs && s.hs[last].next == last + s.hs[last].size
    ensures forall b :: b in s.hs && last < b ==> s.hs[last].next != 0 && s.hs[last].next <= b
  {
    Neighbours(s.base, s.limit, s.hs, last);
    forall b | b in s.hs && last < b ensures s.hs[last].next != 0 && s.hs[last].next <= b {
      InOrder(s.base, s.limit, s.hs, last, b);
      assert BlockOk(s.base, s.limit, s.hs, b);
    }
  }

  lemma ScanBytes(s: Snapshot, first: Addr, last: Addr)
    requires WF(s) && first in s.hs && last in s.hs && first <= last
    ensures Bytes(s.hs, Available, first, last + s.hs[last].size) == Bytes(s.hs, Available, first, last) + Weight(s.hs[last], Available)
    ensures Bytes(s.hs, Movable, first, last + s.hs[last].size) == Bytes(s.hs, Movable, first, last) + Weight(s.hs[last], Movable)
    ensures Bytes(s.hs, Available, first, last + s.hs[last].size) <= s.limit - s.base - s.used
  {
    InRange(s.base, s.limit, s.hs);
    BytesStep(s.base, s.limit, s.hs, Available, first, last);
    BytesStep(s.base, s.limit, s.hs, Movable, first, last);
    BytesWithin(s.hs, Available, s.base, first, last + s.hs[last].size, s.limit);
  }

  // ---------------------------------------------------------------- surgery on the list

  ghost predicate SameShape(hs: Headers, hs': Headers, a: Addr) {
    a in hs && a in hs' && hs'[a].size == hs[a].size && hs'[a].next == hs[a].next && hs'[a].prev == hs[a].prev
  }

  /// Blocks of the same sizes with the same links tile alike.
  lemma TiledSame(base: Addr, limit: Addr, hs: Headers, hs': Headers)
    requires Tiled(base, limit, hs)
    requires hs.Keys == hs'.Keys
    requires forall a {:trigger SameShape(hs, hs', a)} :: a in hs ==> SameShape(hs, hs', a)
    ensures Tiled(base, limit, hs')
  {
    forall a | a in hs' ensures BlockOk(base, limit, hs', a) {
      assert BlockOk(base, limit, hs, a);
      assert SameShape(hs, hs', a);
      if hs[a].next != 0 { assert SameShape(hs, hs', hs[a].next); }
      if a != base { assert SameShape(hs, hs', hs[a].prev); }
    }
    forall a, b | a in hs' && b in hs' && a < b ensures Apart(hs', a, b) {
      assert Apart(hs, a, b);
      assert SameShape(hs, hs', a);
    }
  }

  /// split_header: the effect when it splits. The new header's update_ref is whatever the memory
  /// held; nothing reads it while the block is available.
  function SplitAt(hs: Headers, a: Addr, at: nat): Headers
    requires a in hs && at <= hs[a].size
    requires hs[a].next == 0 || hs[a].next in hs
  {
    var h := hs[a];
    var n := Header(h.size - at, Available, Available, NoRef, h.next, a);
    var m := hs[a + at := n][a := h.(size := at, next := a + at)];
    if h.next == 0 then m else m[h.next := hs[h.next].(prev := a + at)]
  }

  predicate CanSplit(size: nat, at: nat) { HEADER < at && at + HEADER < size }

  /// What a request takes of a block of `total` bytes.
  function Part(total: nat, size: nat): nat { if CanSplit(total, size) then size else total }

  lemma SplitKeys(base: Addr, limit: Addr, hs: Headers, a: Addr, at: nat)
    requires Tiled(base, limit, hs) && a in hs && CanSplit(hs[a].size, at)
    ensures BlockOk(base, limit, hs, a)
    ensures a + at !in hs
    ensures SplitAt(hs, a, at).Keys == hs.Keys + {a + at}
  {
    Neighbours(base, limit, hs, a);
    forall b | b in hs ensures b != a + at {
      InOrder(base, limit, hs, a, b);
    }
  }

  lemma SplitBlockOk(base: Addr, limit: Addr, hs: Headers, a: Addr, at: nat, c: Addr)
    requires Tiled(base, limit, hs) && a in hs && CanSplit(hs[a].size, at)
    requires BlockOk(base, limit, hs, a)
    requires c in hs || c == a + at
    ensures BlockOk(base, limit, SplitAt(hs, a, at), c)
  {
    SplitKeys(base, limit, hs, a, at);
    Neighbours(base, limit, hs, a);
    if c in hs {
      Neighbours(base, limit, hs, c);
    }
  }

  lemma SplitTiled(base: Addr, limit: Addr, hs: Headers, a: Addr, at: nat)
    requires Tiled(base, limit, hs) && a in hs && CanSplit(hs[a].size, at)
    requires BlockOk(base, limit, hs, a)
    ensures Tiled(base, limit, SplitAt(hs, a, at))
  {
    var hs' := SplitAt(hs, a, at);
    SplitKeys(base, limit, hs, a, at);
    forall c | c in hs' ensures BlockOk(base, limit, hs', c) {
      SplitBlockOk(base, limit, hs, a, at, c);
    }
    forall c, d | c in hs' && d in hs' && c < d ensures Apart(hs', c, d) {
      SplitApart(base, limit, hs, a, at, c, d);
    }
  }

  lemma SplitApart(base: Addr, limit: Addr, hs: Headers, a: Addr, at: nat, c: Addr, d: Addr)
    requires Tiled(base, limit, hs) && a in hs && CanSplit(hs[a].size, at)
    requires BlockOk(base, limit, hs, a)
    requires (c in hs || c == a + at) && (d in hs || d == a + at) && c < d
    ensures Apart(SplitAt(hs, a, at), c, d)
  {
    SplitKeys(base, limit, hs, a, at);
    if c in hs && d in hs {
      InOrder(base, limit, hs, c, d);
    } else if c == a + at {
      InOrder(base, limit, hs, a, d);
    } else {
      InOrder(base, limit, hs, c, a);
    }
  }

  lemma SplitBytes(base: Addr, limit: Addr, hs: Headers, a: Addr, at: nat, k: Kind)
    requires Tiled(base, limit, hs) && a in hs && CanSplit(hs[a].size, at)
    requires BlockOk(base, limit, hs, a)
    ensures Bytes(SplitAt(hs, a, at), k, base, limit) + Weight(hs[a], k)
         == Bytes(hs, k, base, limit) + (if hs[a].kind == k then at else 0) + (if k == Available then hs[a].size - at else 0)
  {
    hide Tiled, SplitAt;
    var hs' := SplitAt(hs, a, at);
    var hi := a + hs[a].size;
    SplitTiled(base, limit, hs, a, at);
    SplitWeights(base, limit, hs, a, at, k);
    BytesLocal(hs, hs', k, base, a, hi, limit);
    BytesStep(base, limit, hs, k, a, a);
    BytesStep(base, limit, hs', k, a, a);
    BytesStep(base, limit, hs', k, a, a + at);
  }

  lemma SplitWeights(base: Addr, limit: Addr, hs: Headers, a: Addr, at: nat, k: Kind)
    requires Tiled(base, limit, hs) && a in hs && CanSplit(hs[a].size, at) && BlockOk(base, limit, hs, a)
    ensures var hs' := SplitAt(hs, a, at);
      && (forall c :: base <= c < a || a + hs[a].size <= c < limit ==> SameWeight(hs, hs', k, c))
      && a in hs' && a + at in hs' && hs'[a].size == at && hs'[a].kind == hs[a].kind
      && hs'[a + at].size == hs[a].size - at && hs'[a + at].kind == Available
  {
    Neighbours(base, limit, hs, a);
    SplitKeys(base, limit, hs, a, at);
  }

  ghost predicate InRun(first: Addr, last: Addr, a: Addr) { first <= a <= last }

  /// A run is a stretch of consecutive blocks none of which is immovable.
  ghost predicate IsRun(hs: Headers, first: Addr, last: Addr) {
    && first in hs && last in hs && first <= last
    && forall a :: a in hs && first <= a <= last ==> hs[a].kind != Immovable
  }

  /// The run becomes one immovable block; the interior headers leave the list.
  function Merge(hs: Headers, first: Addr, last: Addr): Headers
    requires first in hs && last in hs && first <= last
  {
    var n := hs[last].next;
    var kept := map a | a in hs && !(first < a <= last) :: if a == n then hs[a].(prev := first) else hs[a];
    kept[first := Header(last + hs[last].size - first, Immovable, Available, NoRef, n, hs[first].prev)]
  }

  /// The merged list, block by block.
  lemma MergeAt(hs: Headers, first: Addr, last: Addr, c: Addr)
    requires first in hs && last in hs && first <= last
    ensures c in Merge(hs, first, last) <==> c in hs && !(first < c <= last)
    ensures var n := hs[last].next;
      c in Merge(hs, first, last) ==>
        Merge(hs, first, last)[c] ==
          if c == first then Header(last + hs[last].size - first, Immovable, Available, NoRef, n, hs[first].prev)
          else if c == n then hs[c].(prev := first)
          else hs[c]
  {
  }

  lemma MergeBlockOk(base: Addr, limit: Addr, hs: Headers, first: Addr, last: Addr, c: Addr)
    requires Tiled(base, limit, hs) && first in hs && last in hs && first <= last
    requires c in Merge(hs, first, last)
    ensures BlockOk(base, limit, Merge(hs, first, last), c)
  {
    MergeAt(hs, first, last, c);
    Neighbours(base, limit, hs, first);
    Neighbours(base, limit, hs, last);
    Neighbours(base, limit, hs, c);
    InOrder(base, limit, hs, c, first);
    InOrder(base, limit, hs, first, last);
    MergeAt(hs, first, last, hs[c].prev);
    MergeAt(hs, first, last, hs[c].next);
    MergeAt(hs, first, last, hs[last].next);
    MergeAt(hs, first, last, hs[first].prev);
    MergeAt(hs, first, last, first);
    if c > last {
      InOrder(base, limit, hs, hs[c].prev, last);
      InOrder(base, limit, hs, c, last);
    }
    hide Tiled, Merge;
  }

  lemma MergeTiled(base: Addr, limit: Addr, hs: Headers, first: Addr, last: Addr)
    requires Tiled(base, limit, hs) && first in hs && last in hs && first <= last
    ensures Tiled(base, limit, Merge(hs, first, last))
  {
    var hs' := Merge(hs, first, last);
    Neighbours(base, limit, hs, first);
    forall c | c in hs' ensures BlockOk(base, limit, hs', c) {
      MergeBlockOk(base, limit, hs, first, last, c);
    }
    forall c, d | c in hs' && d in hs' && c < d ensures Apart(hs', c, d) {
      assert Apart(hs, c, d);
      if c == first {
        assert Apart(hs, last, d);
      }
    }
  }

  lemma MergeBytes(base: Addr, limit: Addr, hs: Headers, first: Addr, last: Addr)
    requires Tiled(base, limit, hs) && first in hs && last in hs && first <= last
    ensures Bytes(hs, Available, base, limit)
         == Bytes(Merge(hs, first, last), Available, base, limit) + Bytes(hs, Available, first, last + hs[last].size)
  {
    var m := Merge(hs, first, last);
    var hi := last + hs[last].size;
    Neighbours(base, limit, hs, first);
    Neighbours(base, limit, hs, last);
    forall c | base <= c < first || hi <= c < limit ensures SameWeight(hs, m, Available, c) {
    }
    BytesLocal(hs, m, Available, base, first, hi, limit);
    MergeTiled(base, limit, hs, first, last);
    BytesStep(base, limit, m, Available, first, first);
  }

  /// What heap_alloc marks before it evacuates a run, and what undoing the marks gives back.
  ghost function Marked(hs: Headers, lo: Addr, hi: Addr): Headers {
    map a | a in hs :: if lo <= a < hi then hs[a].(oldKind := hs[a].kind, kind := Immovable) else hs[a]
  }

  ghost function Unmarked(hs: Headers, lo: Addr, hi: Addr): Headers {
    map a | a in hs :: if lo <= a < hi then hs[a].(kind := hs[a].oldKind) else hs[a]
  }

  // ---------------------------------------------------------------- relocation

  ghost function Payload(s: Snapshot, a: Addr): seq<bv8>
    requires a in s.hs && HEADER <= s.hs[a].size && a + s.hs[a].size <= |s.mem|
  {
    s.mem[a + HEADER..a + s.hs[a].size]
  }

  ghost predicate HasPayload(s: Snapshot, a: Addr) {
    a in s.hs && HEADER <= s.hs[a].size && a + s.hs[a].size <= |s.mem|
  }

  /// Block `b` of `s1` carries on the allocation that block `a` of `s0` held.
  ghost predicate Carried(s0: Snapshot, s1: Snapshot, a: Addr, b: Addr) {
    && HasPayload(s0, a) && HasPayload(s1, b)
    && s1.hs[b].kind == s0.hs[a].kind
    && s1.hs[b].ref == s0.hs[a].ref
    && (s0.hs[a].kind == Immovable ==> b == a && s1.hs[b].size == s0.hs[a].size && s1.hs[b].oldKind == s0.hs[a].oldKind)
    && Payload(s0, a) <= Payload(s1, b)
  }

  ghost predicate Unowned(s: Snapshot, o: Owner) {
    forall a :: a in s.hs && s.hs[a].kind == Movable ==> s.hs[a].ref != Ref(o)
  }

  /// Every allocation of `s0` is still there in `s1`, at `f` of its address, and nobody else was told to move.
  ghost predicate Relocated(s0: Snapshot, s1: Snapshot, f: map<Addr, Addr>) {
    && s1.base == s0.base && s1.limit == s0.limit && |s1.mem| == |s0.mem|
    && f.Keys == Live(s0.hs)
    && CarriedAll(s0, s1, f)
    && Injective(f)
    && RefsKept(s0, s1)
  }

  ghost predicate CarriedAll(s0: Snapshot, s1: Snapshot, f: map<Addr, Addr>) {
    forall a {:trigger f[a]} :: a in f ==> Carried(s0, s1, a, f[a])
  }

  ghost predicate Injective(f: map<Addr, Addr>) {
    forall a, b {:trigger f[a], f[b]} :: a in f && b in f && a != b ==> f[a] != f[b]
  }

  ghost predicate RefsKept(s0: Snapshot, s1: Snapshot) {
    && s1.refs.Keys == s0.refs.Keys
    && forall o {:trigger s1.refs[o]} :: o in s0.refs && Unowned(s0, o) ==> s1.refs[o] == s0.refs[o]
  }

  ghost function Identity(A: set<Addr>): map<Addr, Addr> { map a | a in A :: a }

  ghost function Then(f: map<Addr, Addr>, g: map<Addr, Addr>): map<Addr, Addr>
    requires f.Values <= g.Keys
  {
    map a | a in f :: g[f[a]]
  }

  lemma CarriedThen(s0: Snapshot, s1: Snapshot, s2: Snapshot, a: Addr, b: Addr, c: Addr)
    requires Carried(s0, s1, a, b) && Carried(s1, s2, b, c)
    ensures Carried(s0, s2, a, c)
  {
  }

  lemma RelocatedThen(s0: Snapshot, s1: Snapshot, s2: Snapshot, f: map<Addr, Addr>, g: map<Addr, Addr>)
    requires Relocated(s0, s1, f) && Live(s1.hs) == f.Values
    requires Relocated(s1, s2, g)
    ensures f.Values == g.Keys && Relocated(s0, s2, Then(f, g)) && Then(f, g).Values == g.Values
  {
    CarriedAllThen(s0, s1, s2, f, g);
    RefsKeptThen(s0, s1, s2, f);
    ThenValues(f, g);
  }

  lemma RefsKeptThen(s0: Snapshot, s1: Snapshot, s2: Snapshot, f: map<Addr, Addr>)
    requires CarriedAll(s0, s1, f) && Live(s1.hs) == f.Values
    requires RefsKept(s0, s1) && RefsKept(s1, s2)
    ensures RefsKept(s0, s2)
  {
    forall o | o in s0.refs && Unowned(s0, o) ensures s2.refs[o] == s0.refs[o] {
      RelocatedUnowned(s0, s1, f, o);
      assert s1.refs[o] == s0.refs[o];
    }
  }

  lemma CarriedAllThen(s0: Snapshot, s1: Snapshot, s2: Snapshot, f: map<Addr, Addr>, g: map<Addr, Addr>)
    requires CarriedAll(s0, s1, f) && CarriedAll(s1, s2, g) && f.Values <= g.Keys
    ensures CarriedAll(s0, s2, Then(f, g))
  {
    var t := Then(f, g);
    forall a | a in t ensures Carried(s0, s2, a, t[a]) {
      CarriedThen(s0, s1, s2, a, f[a], g[f[a]]);
    }
  }

  lemma RelocatedUnowned(s0: Snapshot, s1: Snapshot, f: map<Addr, Addr>, o: Owner)
    requires CarriedAll(s0, s1, f) && Live(s1.hs) == f.Values
    requires Unowned(s0, o)
    ensures Unowned(s1, o)
  {
    forall b | b in s1.hs && s1.hs[b].kind == Movable ensures s1.hs[b].ref != Ref(o) {
      assert b in Live(s1.hs);
      var a :| a in f && f[a] == b;
      assert Carried(s0, s1, a, b);
    }
  }

  lemma ThenValues(f: map<Addr, Addr>, g: map<Addr, Addr>)
    requires f.Values == g.Keys && Injective(f) && Injective(g)
    ensures Then(f, g).Values == g.Values && Injective(Then(f, g))
  {
    forall c | c in g.Values ensures c in Then(f, g).Values {
      var b :| b in g && g[b] == c;
      assert b in f.Values;
      var a :| a in f && f[a] == b;
      assert a in Then(f, g) && Then(f, g)[a] == c;
    }
  }

  /// A step that leaves every live block and every owner alone relocates nothing.
  lemma RelocatedIdentity(s0: Snapshot, s1: Snapshot)
    requires s1.base == s0.base && s1.limit == s0.limit && |s1.mem| == |s0.mem| == s0.limit
    requires Tiled(s0.base, s0.limit, s0.hs)
    requires s1.refs == s0.refs
    requires forall a :: a in Live(s0.hs) ==>
      a in s1.hs && s1.hs[a].kind == s0.hs[a].kind && s1.hs[a].size == s0.hs[a].size
      && (s0.hs[a].kind == Immovable ==> s1.hs[a].oldKind == s0.hs[a].oldKind)
      && s1.hs[a].ref == s0.hs[a].ref
      && (HasPayload(s0, a) ==> Payload(s0, a) == Payload(s1, a))
    ensures Relocated(s0, s1, Identity(Live(s0.hs)))
    ensures Identity(Live(s0.hs)).Values == Live(s0.hs)
  {
    var f := Identity(Live(s0.hs));
    forall a | a in f ensures Carried(s0, s1, a, f[a]) {
      assert BlockOk(s0.base, s0.limit, s0.hs, a);
    }
    forall a | a in Live(s0.hs) ensures a in f.Values {
      assert f[a] == a;
    }
  }

  /// Relocation keeps the promise that every allocation's owner knows where it is.
  lemma RelocatedOwned(s0: Snapshot, s1: Snapshot, f: map<Addr, Addr>, fresh_: set<Addr>)
    requires Relocated(s0, s1, f) && AllOwned(s0) && MovablesOwned(s1)
    requires Live(s1.hs) == f.Values + fresh_
    requires forall a :: a in fresh_ ==> a in s1.hs && s1.hs[a].ref == NoRef
    ensures AllOwned(s1)
  {
    forall b | b in s1.hs && s1.hs[b].kind == Immovable && s1.hs[b].ref.Ref? ensures OwnerKnows(s1, b) {
      assert b in Live(s1.hs);
      var a :| a in f && f[a] == b;
      assert Carried(s0, s1, a, b);
      assert a in Live(s0.hs) && OwnerKnows(s0, a);
      var o := s1.hs[b].ref.owner;
      forall c | c in s0.hs && s0.hs[c].kind == Movable ensures s0.hs[c].ref != Ref(o) {
        assert OwnerKnows(s0, c);
      }
      assert Unowned(s0, o);
    }
  }

  // ---------------------------------------------------------------- bytes under the headers

  ghost predicate SameExcept(m0: seq<bv8>, m1: seq<bv8>, lo: Addr, hi: Addr) {
    |m0| == |m1| && forall x {:trigger m1[x]} :: 0 <= x < |m0| && !(lo <= x < hi) ==> m1[x] == m0[x]
  }

  ghost predicate PayloadKept(hs: Headers, m0: seq<bv8>, m1: seq<bv8>, c: Addr) {
    && c in hs && HEADER <= hs[c].size && c + hs[c].size <= |m0| == |m1|
    && m0[c + HEADER..c + hs[c].size] == m1[c + HEADER..c + hs[c].size]
  }

  ghost predicate PayloadsKept(hs: Headers, m0: seq<bv8>, m1: seq<bv8>) {
    forall c {:trigger PayloadKept(hs, m0, m1, c)} :: c in hs ==> PayloadKept(hs, m0, m1, c)
  }

  /// Writing the header of a block touches no payload.
  lemma HeaderWriteKeeps(base: Addr, limit: Addr, hs: Headers, m0: seq<bv8>, m1: seq<bv8>, a: Addr)
    requires Tiled(base, limit, hs) && |m0| == limit && a in hs
    requires SameExcept(m0, m1, a, a + HEADER)
    ensures PayloadsKept(hs, m0, m1)
  {
    forall c | c in hs ensures PayloadKept(hs, m0, m1, c) {
      assert BlockOk(base, limit, hs, c);
      assert BlockOk(base, limit, hs, a);
      InOrder(base, limit, hs, a, c);
    }
  }

  /// Writing inside a block touches the payload of no other block.
  lemma BlockWriteKeeps(base: Addr, limit: Addr, hs: Headers, m0: seq<bv8>, m1: seq<bv8>, a: Addr, c: Addr)
    requires Tiled(base, limit, hs) && |m0| == limit && a in hs && c in hs && c != a
    requires SameExcept(m0, m1, a, a + hs[a].size)
    ensures PayloadKept(hs, m0, m1, c)
  {
    assert BlockOk(base, limit, hs, c);
    InOrder(base, limit, hs, a, c);
  }

  lemma PayloadsKeptThen(hs: Headers, hs': Headers, m0: seq<bv8>, m1: seq<bv8>, m2: seq<bv8>)
    requires PayloadsKept(hs, m0, m1) && PayloadsKept(hs', m1, m2)
    requires hs'.Keys == hs.Keys && forall a :: a in hs ==> hs'[a].size == hs[a].size
    ensures PayloadsKept(hs, m0, m2)
  {
    forall c | c in hs ensures PayloadKept(hs, m0, m2, c) {
      assert PayloadKept(hs, m0, m1, c);
      assert PayloadKept(hs', m1, m2, c);
    }
  }

  lemma KeptRefl(base: Addr, limit: Addr, hs: Headers, m: seq<bv8>)
    requires Tiled(base, limit, hs) && |m| == limit
    ensures PayloadsKept(hs, m, m)
  {
    forall c | c in hs ensures PayloadKept(hs, m, m, c) {
      assert BlockOk(base, limit, hs, c);
    }
  }

  /// The three header writes of a split touch the payload of the split block only.
  lemma SplitKeeps(base: Addr, limit: Addr, hs: Headers, m0: seq<bv8>, m1: seq<bv8>, m2: seq<bv8>, m3: seq<bv8>,
                   a: Addr, at: nat, c: Addr)
    requires Tiled(base, limit, hs) && |m0| == limit && a in hs && CanSplit(hs[a].size, at)
    requires c in hs && c != a
    requires SameExcept(m0, m1, a + at, a + at + HEADER)
    requires if hs[a].next == 0 then m2 == m1 else SameExcept(m1, m2, hs[a].next, hs[a].next + HEADER)
    requires SameExcept(m2, m3, a, a + HEADER)
    ensures PayloadKept(hs, m0, m3, c)
  {
    Neighbours(base, limit, hs, a);
    BlockWriteKeeps(base, limit, hs, m0, m1, a, c);
    if hs[a].next == 0 {
      HeaderWriteKeeps(base, limit, hs, m1, m3, a);
    } else {
      HeaderWriteKeeps(base, limit, hs, m1, m2, hs[a].next);
      HeaderWriteKeeps(base, limit, hs, m2, m3, a);
      assert PayloadKept(hs, m1, m2, c);
      assert PayloadKept(hs, m2, m3, c);
    }
    assert PayloadKept(hs, m0, m1, c);
    assert hs[a].next == 0 ==> PayloadKept(hs, m1, m3, c);
  }

  // ---------------------------------------------------------------- pinning

  lemma MarkedNone(hs: Headers, lo: Addr)
    ensures Marked(hs, lo, lo) == hs
  {
  }

  lemma UnmarkedNone(hs: Headers, lo: Addr)
    ensures Unmarked(hs, lo, lo) == hs
  {
  }

  /// Pins change no payload.
  lemma MarkedKept(hs: Headers, lo: Addr, hi: Addr, m0: seq<bv8>, m1: seq<bv8>, m2: seq<bv8>)
    requires PayloadsKept(hs, m0, m1)
    ensures PayloadsKept(Marked(hs, lo, hi), m1, m2) || PayloadsKept(Unmarked(hs, lo, hi), m1, m2) ==> PayloadsKept(hs, m0, m2)
  {
    if PayloadsKept(Marked(hs, lo, hi), m1, m2) {
      PayloadsKeptThen(hs, Marked(hs, lo, hi), m0, m1, m2);
    }
    if PayloadsKept(Unmarked(hs, lo, hi), m1, m2) {
      PayloadsKeptThen(hs, Unmarked(hs, lo, hi), m0, m1, m2);
    }
  }

  /// Pinning the next block of the run.
  lemma MarkedStep(base: Addr, limit: Addr, hs: Headers, lo: Addr, h: Addr)
    requires Tiled(base, limit, hs) && h in hs && lo <= h
    ensures BlockOk(base, limit, hs, h)
    ensures h in Marked(hs, lo, h) && Marked(hs, lo, h)[h] == hs[h]
    ensures Marked(hs, lo, h)[h := hs[h].(oldKind := hs[h].kind, kind := Immovable)] == Marked(hs, lo, h + 1)
    ensures Marked(hs, lo, h + 1) == Marked(hs, lo, h + hs[h].size)
    ensures forall b :: b in hs && h < b ==> hs[h].next != 0 && hs[h].next in hs && hs[h].next == h + hs[h].size <= b
  {
    Neighbours(base, limit, hs, h);
    forall b | b in hs && h < b ensures hs[h].next == h + hs[h].size <= b {
      InOrder(base, limit, hs, h, b);
      assert BlockOk(base, limit, hs, b);
    }
  }

  lemma UnmarkedStep(base: Addr, limit: Addr, hs: Headers, lo: Addr, h: Addr)
    requires Tiled(base, limit, hs) && h in hs && lo <= h
    ensures BlockOk(base, limit, hs, h)
    ensures h in Unmarked(hs, lo, h) && Unmarked(hs, lo, h)[h] == hs[h]
    ensures Unmarked(hs, lo, h)[h := hs[h].(kind := hs[h].oldKind)] == Unmarked(hs, lo, h + 1)
    ensures Unmarked(hs, lo, h + 1) == Unmarked(hs, lo, h + hs[h].size)
    ensures forall b :: b in hs && h < b ==> hs[h].next != 0 && hs[h].next in hs && hs[h].next == h + hs[h].size <= b
  {
    Neighbours(base, limit, hs, h);
    forall b | b in hs && h < b ensures hs[h].next == h + hs[h].size <= b {
      InOrder(base, limit, hs, h, b);
      assert BlockOk(base, limit, hs, b);
    }
  }

  /// Changing one header changes the byte counts by its own weight.
  lemma BytesPut(base: Addr, limit: Addr, hs: Headers, a: Addr, h: Header, k: Kind)
    requires a in hs && base <= a < limit
    ensures Bytes(hs[a := h], k, base, limit) + Weight(hs[a], k) == Bytes(hs, k, base, limit) + Weight(h, k)
  {
    var hs' := hs[a := h];
    forall c | base <= c < a || a + 1 <= c < limit ensures SameWeight(hs, hs', k, c) {
    }
    BytesLocal(hs, hs', k, base, a, a + 1, limit);
    assert Bytes(hs, k, a, a) == 0 && Bytes(hs', k, a, a) == 0;
  }

  lemma PinBytes(base: Addr, limit: Addr, hs: Headers, a: Addr)
    requires Tiled(base, limit, hs) && a in hs
    ensures var hs' := hs[a := hs[a].(oldKind := hs[a].kind, kind := Immovable)];
            Bytes(hs', Available, base, limit) + Weight(hs[a], Available) == Bytes(hs, Available, base, limit)
  {
    assert BlockOk(base, limit, hs, a);
    BytesPut(base, limit, hs, a, hs[a].(oldKind := hs[a].kind, kind := Immovable), Available);
  }

  lemma UnpinBytes(s: Snapshot, a: Addr, kind: Kind)
    requires Tiled(s.base, s.limit, s.hs) && Accounted(s) && a in s.hs && s.hs[a].kind == Immovable
    ensures var hs' := s.hs[a := s.hs[a].(kind := kind, oldKind := kind)];
            Bytes(hs', Available, s.base, s.limit) == Bytes(s.hs, Available, s.base, s.limit) + if kind == Available then s.hs[a].size else 0
    ensures s.hs[a].size <= s.used
  {
    assert BlockOk(s.base, s.limit, s.hs, a);
    BytesPut(s.base, s.limit, s.hs, a, s.hs[a].(kind := kind, oldKind := kind), Available);
    BytesAtLeast(s.hs, Immovable, s.base, a, s.limit);
    UsedIsLiveBytes(s);
  }

  // ---------------------------------------------------------------- moving one block

  ghost function Moved(hs: Headers, h: Addr, d: Addr): Headers
    requires h in hs && d in hs
  {
    hs[h := hs[h].(oldKind := Available)][d := hs[d].(kind := Movable, ref := hs[h].ref)]
  }

  lemma MovedTiled(base: Addr, limit: Addr, hs: Headers, h: Addr, d: Addr)
    requires Tiled(base, limit, hs) && h in hs && d in hs && h != d
    ensures Tiled(base, limit, Moved(hs, h, d))
  {
    TiledSame(base, limit, hs, Moved(hs, h, d));
  }

  /// The payload of block `h` in `m0` is a prefix of the payload of block `d` in `m1`.
  ghost predicate CopiedTo(hs: Headers, m0: seq<bv8>, m1: seq<bv8>, h: Addr, d: Addr) {
    && h in hs && d in hs && HEADER <= hs[h].size <= hs[d].size
    && h + hs[h].size <= |m0| == |m1| && d + hs[d].size <= |m1|
    && m0[h + HEADER..h + hs[h].size] <= m1[d + HEADER..d + hs[d].size]
  }

  lemma Prefixed(a: seq<bv8>, b: seq<bv8>, c: seq<bv8>, n: nat)
    requires |b| <= n <= |b| + |c|
    ensures b <= (a + b + c)[|a|..|a| + n]
  {
    var s := (a + b + c)[|a|..|a| + n];
    assert forall i :: 0 <= i < |b| ==> s[i] == (a + b + c)[|a| + i] == b[i];
  }

  /// Memory after copying `n` payload bytes from block `h` to block `d`.
  function PayloadCopied(m: seq<bv8>, h: Addr, d: Addr, n: nat): (m': seq<bv8>)
    requires h + HEADER + n <= |m| && d + HEADER + n <= |m|
    ensures |m'| == |m|
  {
    m[..d + HEADER] + m[h + HEADER..h + HEADER + n] + m[d + HEADER + n..]
  }

  lemma MoveKeeps(base: Addr, limit: Addr, hs: Headers, m0: seq<bv8>, m1: seq<bv8>, m2: seq<bv8>, m3: seq<bv8>, h: Addr, d: Addr)
    requires Tiled(base, limit, hs) && |m0| == limit
    requires h in hs && d in hs && h != d && HEADER <= hs[h].size <= hs[d].size && d + hs[d].size <= limit && h + hs[h].size <= limit
    requires m1 == PayloadCopied(m0, h, d, hs[h].size - HEADER)
    requires SameExcept(m1, m2, h, h + HEADER)
    requires SameExcept(m2, m3, d, d + HEADER)
    ensures CopiedTo(hs, m0, m3, h, d)
    ensures forall c :: c in hs && c != d ==> PayloadKept(hs, m0, m3, c)
  {
    HeaderWriteKeeps(base, limit, hs, m1, m2, h);
    HeaderWriteKeeps(base, limit, hs, m2, m3, d);
    PayloadsKeptThen(hs, hs, m1, m2, m3);
    assert PayloadKept(hs, m1, m3, d);
    Prefixed(m0[..d + HEADER], m0[h + HEADER..h + hs[h].size], m0[d + hs[h].size..], hs[d].size - HEADER);
    forall c | c in hs && c != d ensures PayloadKept(hs, m0, m3, c) {
      BlockWriteKeeps(base, limit, hs, m0, m1, d, c);
      assert PayloadKept(hs, m1, m3, c);
    }
  }

  lemma MarkedOwned(s: Snapshot, s': Snapshot, lo: Addr, hi: Addr)
    requires MovablesOwned(s) && s'.hs == Marked(s.hs, lo, hi) && s'.refs == s.refs
    ensures MovablesOwned(s')
  {
    forall a | a in s'.hs && s'.hs[a].kind == Movable ensures OwnerKnows(s', a) {
      assert OwnerKnows(s, a);
    }
  }
}

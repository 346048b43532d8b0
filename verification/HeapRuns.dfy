/**
Runs of calls on a fresh heap (core/kernel/heap.c) that depend on where exactly blocks begin and end.
*/
module HeapRuns {
  import opened Basics
  import opened HeapBlocks
  import opened HeapSearch
  import opened HeapClaim
  import opened HeapRelease
  import opened KernelHeap

  /// Block `a` is the last of the heap and available, and all others are immovable.
  ghost predicate OpenEnd(base: Addr, limit: Addr, hs: Headers, a: Addr) {
    && base in hs && a in hs && hs[a].kind == Available && a + hs[a].size == limit
    && forall c :: c in hs && c != a ==> c < a && hs[c].kind == Immovable
  }

  lemma {:induction false} SkipsImmovable(s: Snapshot, size: nat, c: Addr, a: Addr)
    requires WF(s) && c in s.hs && a in s.hs && c <= a && forall b :: b in s.hs && c <= b < a ==> s.hs[b].kind == Immovable
    ensures Scan(s, size, c, c) == Scan(s, size, a, a)
    decreases a - c
  {
    if c < a {
      ScanStep(s, c, c);
      SkipsImmovable(s, size, s.hs[c].next, a);
    }
  }

  /// The search finds the block at the end.
  lemma EndServes(s: Snapshot, a: Addr, size: nat)
    requires WF(s) && OpenEnd(s.base, s.limit, s.hs, a) && size <= s.hs[a].size
    ensures Scan(s, size, s.base, s.base) == Found(a, a, 0) && Movables(s.hs) == {} && SomeFit(s.hs, size)
    ensures size <= Free(s)
  {
    InRange(s.base, s.limit, s.hs);
    SkipsImmovable(s, size, s.base, a);
    BytesStep(s.base, s.limit, s.hs, Movable, a, a);
    BytesStep(s.base, s.limit, s.hs, Available, a, a);
    assert Bytes(s.hs, Movable, a, a) == Bytes(s.hs, Available, a, a) == 0;
    BytesAtLeast(s.hs, Available, s.base, a, s.limit);
    assert Fits(s.hs, a, a, size);
  }

  /// One request, served from the block at the end, which is cut in two.
  method ServeAtEnd(heap: Heap, actual: nat, ghost a: Addr) returns (p: Addr)
    requires heap.Valid() && OpenEnd(heap.base, heap.limit, heap.headers, a) && actual < WORD
    requires HEADER < RoundSize(actual) && RoundSize(actual) + HEADER < heap.headers[a].size
    modifies heap
    ensures heap.Valid() && p == a + HEADER && OpenEnd(heap.base, heap.limit, heap.headers, a + RoundSize(actual))
    ensures heap.headers.Keys == old(heap.headers).Keys + {a + RoundSize(actual)}
    ensures heap.headers[a].size == RoundSize(actual) && heap.headers[a].kind == Immovable
    ensures forall c :: c in old(heap.headers) && c != a ==>
      c in heap.headers && heap.headers[c].size == old(heap.headers)[c].size && heap.headers[c].kind == old(heap.headers)[c].kind
  {
    hide Tiled, Bytes, Accounted, MovablesOwned, AllOwned, Relocated, LoneDecides, StuckState, RoundSize, SomeFit, Scan;
    EndServes(heap.Snap(), a, RoundSize(actual));
    ghost var hs := heap.headers;
    ghost var moved;
    var r;
    r, moved := heap.Allocate(actual);
    assert (set c | c in hs && !(a < c <= a)) == hs.Keys;
    p := r.p;
  }

  /// Block `a` is there, with this size and kind.
  ghost predicate Block(hs: Headers, a: Addr, size: nat, kind: Kind) { a in hs && hs[a].size == size && hs[a].kind == kind }

  /// What a request leaves of a block that it did not take.
  lemma Keeps(hs: Headers, hs': Headers, a: Addr, c: Addr, size: nat)
    requires forall x :: x in hs && x != a ==> x in hs' && hs'[x].size == hs[x].size && hs'[x].kind == hs[x].kind
    requires Block(hs, c, size, Immovable) && c != a
    ensures Block(hs', c, size, Immovable)
  {
  }

  /// Blocks of 80 and `x` bytes, and an available one at the end.
  method TwoBlocks(end: Addr, second: nat, x: nat) returns (heap: Heap)
    requires second < WORD && RoundSize(second) == x && HEADER < x && 180 + x + HEADER < end <= WORD
    ensures fresh(heap) && heap.Valid() && heap.base == 100 && heap.limit == end && OpenEnd(100, end, heap.headers, 180 + x)
    ensures heap.headers.Keys == {100, 180, 180 + x} && Block(heap.headers, 100, 80, Immovable) && Block(heap.headers, 180, x, Immovable)
  {
    assert RoundSize(54) == 80;
    hide RoundSize, Tiled, Bytes, Accounted, MovablesOwned, AllOwned;
    heap := new Heap(100, end);
    var _ := ServeAtEnd(heap, 54, 100);
    var _ := ServeAtEnd(heap, second, 180);
  }

  /// Blocks of 80, `x` and `y` bytes, and an available one at the end.
  method ThreeBlocks(end: Addr, second: nat, third: nat, x: nat, y: nat) returns (heap: Heap)
    requires second < WORD && third < WORD && RoundSize(second) == x && RoundSize(third) == y && HEADER < x && HEADER < y
    requires 180 + x + y + HEADER < end <= WORD
    ensures fresh(heap) && heap.Valid() && heap.base == 100 && heap.limit == end && OpenEnd(100, end, heap.headers, 180 + x + y)
    ensures heap.headers.Keys == {100, 180, 180 + x, 180 + x + y}
    ensures Block(heap.headers, 100, 80, Immovable) && Block(heap.headers, 180, x, Immovable) && Block(heap.headers, 180 + x, y, Immovable)
  {
    hide RoundSize, Tiled, Bytes, Accounted, MovablesOwned, AllOwned;
    heap := TwoBlocks(end, second, x);
    ghost var hs := heap.headers;
    var _ := ServeAtEnd(heap, third, 180 + x);
    Keeps(hs, heap.headers, 180 + x, 100, 80);
    Keeps(hs, heap.headers, 180 + x, 180, x);
  }

  /// Blocks of 80, `x`, `y` and 40 bytes, and an available one at the end.
  method FourBlocks(end: Addr, second: nat, third: nat, x: nat, y: nat) returns (heap: Heap)
    requires second < WORD && third < WORD && RoundSize(second) == x && RoundSize(third) == y && HEADER < x && HEADER < y
    requires 220 + x + y + HEADER < end <= WORD
    ensures fresh(heap) && heap.Valid() && heap.base == 100 && heap.limit == end && OpenEnd(100, end, heap.headers, 220 + x + y)
    ensures heap.headers.Keys == {100, 180, 180 + x, 180 + x + y, 220 + x + y}
    ensures Block(heap.headers, 100, 80, Immovable) && Block(heap.headers, 180, x, Immovable)
    ensures Block(heap.headers, 180 + x, y, Immovable) && Block(heap.headers, 180 + x + y, 40, Immovable)
  {
    assert RoundSize(14) == 40;
    hide RoundSize, Tiled, Bytes, Accounted, MovablesOwned, AllOwned;
    heap := ThreeBlocks(end, second, third, x, y);
    ghost var hs := heap.headers;
    var _ := ServeAtEnd(heap, 14, 180 + x + y);
    Keeps(hs, heap.headers, 180 + x + y, 100, 80);
    Keeps(hs, heap.headers, 180 + x + y, 180, x);
    Keeps(hs, heap.headers, 180 + x + y, 180 + x, y);
  }

  /// Freeing a block between two that are not available.
  method FreeBetween(heap: Heap, a: Addr)
    requires heap.Valid() && a in heap.headers && heap.headers[a].kind != Available
    requires forall c :: c in heap.headers && (c + heap.headers[c].size == a || c == a + heap.headers[a].size) ==> heap.headers[c].kind != Available
    modifies heap
    ensures heap.Valid() && heap.headers.Keys == old(heap.headers).Keys && Block(heap.headers, a, old(heap.headers)[a].size, Available)
    ensures forall c :: c in old(heap.headers) && c != a ==>
      heap.headers[c].size == old(heap.headers)[c].size && heap.headers[c].kind == old(heap.headers)[c].kind
  {
    Neighbours(heap.base, heap.limit, heap.headers, a);
    assert !NextAvailable(heap.headers, a);
    hide Tiled, Bytes, Accounted, MovablesOwned, AllOwned, OnlyReleased;
    var ok := heap.HeapFree(a + HEADER);
  }

  /// 80 bytes that may move, 200 free ones, and free blocks of 40 and 60 bytes between immovable blocks of 40.
  ghost predicate NoRoomElsewhere(hs: Headers) {
    && hs.Keys == {100, 180, 380, 420, 460, 500}
    && Block(hs, 100, 80, Movable) && Block(hs, 180, 200, Available) && Block(hs, 380, 40, Immovable)
    && Block(hs, 420, 40, Available) && Block(hs, 460, 40, Immovable) && Block(hs, 500, 60, Available)
  }

  method FullHeap() returns (heap: Heap)
    ensures fresh(heap) && heap.Valid() && heap.base == 100 && heap.limit == 560 && heap.headers.Keys == {100, 180, 380, 420, 460, 500}
    ensures var hs := heap.headers;
      && Block(hs, 100, 80, Immovable) && Block(hs, 180, 200, Immovable) && Block(hs, 380, 40, Immovable)
      && Block(hs, 420, 40, Immovable) && Block(hs, 460, 40, Immovable) && Block(hs, 500, 60, Available)
  {
    assert RoundSize(174) == 200 && RoundSize(14) == 40;
    hide RoundSize, Tiled, Bytes, Accounted, MovablesOwned, AllOwned, PayloadsKept;
    heap := FourBlocks(560, 174, 14, 200, 40);
    ghost var h0 := heap.headers;
    var _ := ServeAtEnd(heap, 14, 460);
    Keeps(h0, heap.headers, 460, 100, 80);
    Keeps(h0, heap.headers, 460, 180, 200);
    Keeps(h0, heap.headers, 460, 380, 40);
    Keeps(h0, heap.headers, 460, 420, 40);
  }

  method NoRoomHeap() returns (heap: Heap)
    ensures fresh(heap) && heap.Valid() && heap.base == 100 && heap.limit == 560 && NoRoomElsewhere(heap.headers)
  {
    hide RoundSize, Tiled, Bytes, Accounted, MovablesOwned, AllOwned, PayloadsKept;
    heap := FullHeap();
    heap.Unlock(100 + HEADER);
    FreeBetween(heap, 180);
    FreeBetween(heap, 420);
  }

  /// heap_alloc cuts off the end of the run that it takes before it looks for new homes: a request of 82 bytes is served
  /// from the first two blocks, although only what is cut off the second has room for the first.
  method CutRun() returns (r: Alloc)
    ensures r == Pointer(100 + HEADER)
  {
    hide Tiled, Bytes, Accounted, MovablesOwned, AllOwned, Relocated, LoneDecides, StuckState, SomeFit, Scan, RoundSize, Movables, ServedFrom, NoRoomElsewhere;
    var heap := NoRoomHeap();
    CutServes(heap.Snap());
    ghost var s := heap.Snap();
    ghost var moved;
    r, moved := heap.Allocate(82);
    CutDecides(s, r);
    CutWhere(s, heap.headers, r);
  }

  lemma CutFree(s: Snapshot)
    requires WF(s) && s.base == 100 && s.limit == 560 && NoRoomElsewhere(s.hs)
    ensures Free(s) == 300 && Movables(s.hs) == {100}
    ensures Bytes(s.hs, Movable, 100, 180) == 80 && Bytes(s.hs, Movable, 100, 380) == 80 && Bytes(s.hs, Available, 100, 380) == 200
  {
    var hs := s.hs;
    hide WF, Bytes, Tiled;
    CutBytes(s, Available);
    CutBytes(s, Movable);
    FreeIs(s);
  }

  lemma FreeIs(s: Snapshot)
    requires WF(s)
    ensures Free(s) == Bytes(s.hs, Available, s.base, s.limit)
  {
    Unused(s);
  }

  lemma BytesEmpty(hs: Headers, k: Kind, a: Addr)
    ensures Bytes(hs, k, a, a) == 0
  {
  }

  lemma SnapTiled(s: Snapshot)
    requires WF(s)
    ensures Tiled(s.base, s.limit, s.hs)
  {
  }

  lemma CutBytes(s: Snapshot, k: Kind)
    requires WF(s) && s.base == 100 && s.limit == 560 && NoRoomElsewhere(s.hs)
    ensures var hs := s.hs;
      && Bytes(hs, k, 100, 180) == Weight(hs[100], k) && Bytes(hs, k, 100, 380) == Weight(hs[100], k) + Weight(hs[180], k)
      && Bytes(hs, k, 100, 560) == Weight(hs[100], k) + Weight(hs[180], k) + Weight(hs[380], k) + Weight(hs[420], k) + Weight(hs[460], k) + Weight(hs[500], k)
  {
    hide Bytes, WF, Tiled;
    var hs := s.hs;
    BytesEmpty(hs, k, 100);
    SnapTiled(s);
    BytesStep(100, 560, hs, k, 100, 100);
    BytesStep(100, 560, hs, k, 100, 180);
    BytesStep(100, 560, hs, k, 100, 380);
    BytesStep(100, 560, hs, k, 100, 420);
    BytesStep(100, 560, hs, k, 100, 460);
    BytesStep(100, 560, hs, k, 100, 500);
  }

  /// The search finds the first two blocks.
  lemma CutFound(s: Snapshot)
    requires WF(s) && s.base == 100 && s.limit == 560 && NoRoomElsewhere(s.hs)
    ensures Scan(s, 108, 100, 100) == Found(100, 180, 80)
  {
    CutFree(s);
    hide Bytes;
    ScanStep(s, 100, 100);
    assert s.hs[100].next == 180;
  }

  /// The rest of the second block is a home for the first.
  lemma CutHome(s: Snapshot)
    requires WF(s) && s.base == 100 && s.limit == 560 && NoRoomElsewhere(s.hs)
    ensures LoneHome(s.hs, 100, 180, 108, 100)
  {
    var hs := s.hs;
    Neighbours(100, 560, hs, 180);
    var hs' := SplitAt(hs, 180, 28);
    assert hs[180].next == 380;
    assert Cut(hs, hs', 100, 180, 108);
    var pinned := Marked(hs', 100, 181);
    assert Fits(pinned, 208, 208, 80);
    assert RoundSize(80 - HEADER) == 80;
    assert HasHome(pinned, 100);
  }

  lemma CutServes(s: Snapshot)
    requires WF(s) && s.base == 100 && s.limit == 560 && NoRoomElsewhere(s.hs)
    ensures 100 in s.hs && !Oversized(s.hs, 100, Free(s)) && Movables(s.hs) == {100}
    ensures RoundSize(82) == 108 <= Free(s) && LoneServed(s, 108, 100)
  {
    hide Scan, Bytes, LoneHome;
    CutFree(s);
    CutFound(s);
    CutHome(s);
  }

  lemma CutDecides(s: Snapshot, r: Alloc)
    requires WF(s) && s.base in s.hs && LoneDecides(s, RoundSize(82), r) && Movables(s.hs) == {100} && !Oversized(s.hs, 100, Free(s))
    requires RoundSize(82) <= Free(s) && LoneServed(s, RoundSize(82), 100)
    ensures r.Pointer?
  {
  }

  lemma CutWhere(s: Snapshot, hs: Headers, r: Alloc)
    requires WF(s) && s.base == 100 && s.limit == 560 && NoRoomElsewhere(s.hs)
    requires r.Pointer? ==> ServedFrom(s, hs, r.p, 108)
    ensures r.Pointer? ==> r.p == 100 + HEADER
  {
    hide Scan, Bytes;
    CutFound(s);
  }

  // ---------------------------------------------------------------- fragmentation

  /// 80 bytes that may move, and two free blocks of 60 bytes that immovable blocks keep apart.
  ghost predicate Fragments(hs: Headers) {
    && hs.Keys == {100, 180, 220, 280, 320}
    && Block(hs, 100, 80, Movable) && Block(hs, 180, 40, Immovable) && Block(hs, 220, 60, Available)
    && Block(hs, 280, 40, Immovable) && Block(hs, 320, 60, Available)
  }

  method UnfragmentedHeap() returns (heap: Heap)
    ensures fresh(heap) && heap.Valid() && heap.base == 100 && heap.limit == 380 && heap.headers.Keys == {100, 180, 220, 280, 320}
    ensures var hs := heap.headers;
      && Block(hs, 100, 80, Immovable) && Block(hs, 180, 40, Immovable) && Block(hs, 220, 60, Immovable)
      && Block(hs, 280, 40, Immovable) && Block(hs, 320, 60, Available)
  {
    assert RoundSize(14) == 40 && RoundSize(34) == 60;
    hide RoundSize, Tiled, Bytes, Accounted, MovablesOwned, AllOwned;
    heap := FourBlocks(380, 14, 34, 40, 60);
  }

  method FragmentedHeap() returns (heap: Heap)
    ensures fresh(heap) && heap.Valid() && heap.base == 100 && heap.limit == 380 && Fragments(heap.headers)
  {
    hide RoundSize, Tiled, Bytes, Accounted, MovablesOwned, AllOwned, PayloadsKept;
    heap := UnfragmentedHeap();
    heap.Unlock(100 + HEADER);
    FreeBetween(heap, 220);
  }

  /// Four allocations, an unlock and a release on a fresh heap: a request of 26 bytes fails then, although either free
  /// block fits it.
  method FragmentedRun() returns (r: Alloc)
    ensures r == Null
  {
    hide Tiled, Bytes, Accounted, MovablesOwned, AllOwned, Relocated, LoneDecides, StuckState, SomeFit, Scan, RoundSize, Movables, ServedFrom, Fragments;
    var heap := FragmentedHeap();
    ghost var s := heap.Snap();
    ghost var moved;
    SnapBase(s);
    r, moved := heap.Allocate(26);
    FragmentedFails(s, r);
  }

  lemma SnapBase(s: Snapshot)
    requires WF(s)
    ensures s.base in s.hs
  {
  }

  /// In every such heap: the search takes the movable block first, which has no home elsewhere.
  lemma FragmentedFails(s: Snapshot, r: Alloc)
    requires WF(s) && s.base == 100 && s.limit == 380 && Fragments(s.hs) && LoneDecides(s, RoundSize(26), r)
    ensures r == Null && Alone(s.hs, 220, RoundSize(26)) && Alone(s.hs, 320, RoundSize(26))
  {
    assert RoundSize(26) == 52;
    hide Scan, LoneHome, WF, Bytes, RoundSize;
    FragmentedFree(s);
    FragmentedScan(s);
    NoHome(s.hs);
  }

  lemma FragmentedFree(s: Snapshot)
    requires WF(s) && s.base == 100 && s.limit == 380 && Fragments(s.hs)
    ensures Free(s) == 120 && Movables(s.hs) == {100} && !Oversized(s.hs, 100, Free(s))
    ensures Bytes(s.hs, Movable, 100, 180) == 80 && Bytes(s.hs, Available, 100, 180) == 0
  {
    hide Bytes, WF, Tiled;
    var hs := s.hs;
    SnapTiled(s);
    FreeIs(s);
    BytesEmpty(hs, Available, 100);
    BytesEmpty(hs, Movable, 100);
    BytesStep(100, 380, hs, Movable, 100, 100);
    BytesStep(100, 380, hs, Available, 100, 100);
    BytesStep(100, 380, hs, Available, 100, 180);
    BytesStep(100, 380, hs, Available, 100, 220);
    BytesStep(100, 380, hs, Available, 100, 280);
    BytesStep(100, 380, hs, Available, 100, 320);
  }

  lemma FragmentedScan(s: Snapshot)
    requires WF(s) && s.base == 100 && s.limit == 380 && Fragments(s.hs)
    ensures Scan(s, 52, 100, 100) == Found(100, 100, 80)
  {
    FragmentedFree(s);
    hide Bytes;
    ScanStep(s, 100, 100);
  }

  /// Once the first block is pinned, no run is longer than 60 bytes.
  lemma ShortRuns(hs: Headers)
    requires Fragments(hs)
    ensures forall a: Addr, c: Addr :: IsRun(Marked(hs, 100, 101), a, c) ==> c + Marked(hs, 100, 101)[c].size - a <= 60
  {
    var pinned := Marked(hs, 100, 101);
    assert pinned[100].kind == pinned[180].kind == pinned[280].kind == Immovable;
    forall a: Addr, c: Addr | IsRun(pinned, a, c) ensures c + pinned[c].size - a <= 60 {
      assert !InRun(a, c, 100) && !InRun(a, c, 180) && !InRun(a, c, 280);
    }
  }

  lemma NoHome(hs: Headers)
    requires Fragments(hs)
    ensures !LoneHome(hs, 100, 100, 52, 100)
  {
    ShortRuns(hs);
    assert RoundSize(80 - HEADER) == 80;
    forall hs' | Cut(hs, hs', 100, 100, 52) ensures !HasHome(Marked(hs', 100, 101), 100) {
      assert hs' == hs;
    }
  }

  // ---------------------------------------------------------------- a run that is skipped

  /// Two movable blocks, each between free ones, and an immovable one before the last free one.
  ghost predicate Skippable(hs: Headers) {
    && hs.Keys == {100, 180, 220, 264, 304, 344}
    && Block(hs, 100, 80, Movable) && Block(hs, 180, 40, Available) && Block(hs, 220, 44, Movable)
    && Block(hs, 264, 40, Available) && Block(hs, 304, 40, Immovable) && Block(hs, 344, 44, Available)
  }

  method UnskippableHeap() returns (heap: Heap)
    ensures fresh(heap) && heap.Valid() && heap.base == 100 && heap.limit == 388 && heap.headers.Keys == {100, 180, 220, 264, 304, 344}
    ensures var hs := heap.headers;
      && Block(hs, 100, 80, Immovable) && Block(hs, 180, 40, Immovable) && Block(hs, 220, 44, Immovable)
      && Block(hs, 264, 40, Immovable) && Block(hs, 304, 40, Immovable) && Block(hs, 344, 44, Available)
  {
    assert RoundSize(14) == 40 && RoundSize(18) == 44;
    hide RoundSize, Tiled, Bytes, Accounted, MovablesOwned, AllOwned, PayloadsKept;
    heap := FourBlocks(388, 14, 18, 40, 44);
    ghost var h0 := heap.headers;
    var _ := ServeAtEnd(heap, 14, 304);
    Keeps(h0, heap.headers, 304, 100, 80);
    Keeps(h0, heap.headers, 304, 180, 40);
    Keeps(h0, heap.headers, 304, 220, 44);
    Keeps(h0, heap.headers, 304, 264, 40);
  }

  method SkippableHeap() returns (heap: Heap)
    ensures fresh(heap) && heap.Valid() && heap.base == 100 && heap.limit == 388 && Skippable(heap.headers)
  {
    hide RoundSize, Tiled, Bytes, Accounted, MovablesOwned, AllOwned, PayloadsKept;
    heap := UnskippableHeap();
    FreeBetween(heap, 180);
    FreeBetween(heap, 264);
    UnlockTwo(heap);
  }

  method UnlockTwo(heap: Heap)
    requires heap.Valid() && heap.headers.Keys == {100, 180, 220, 264, 304, 344}
    requires var hs := heap.headers;
      && Block(hs, 100, 80, Immovable) && Block(hs, 180, 40, Available) && Block(hs, 220, 44, Immovable)
      && Block(hs, 264, 40, Available) && Block(hs, 304, 40, Immovable) && Block(hs, 344, 44, Available)
    modifies heap
    ensures heap.Valid() && Skippable(heap.headers)
  {
    hide Tiled, Bytes, Accounted, MovablesOwned, AllOwned, PayloadsKept;
    heap.Unlock(100 + HEADER);
    heap.Unlock(220 + HEADER);
  }

  /// A request of 98 bytes fails although it could be served from the second, third and fourth block: the first three are
  /// too much to move, and then the search begins again with the last of them.
  method SkippedRun() returns (r: Alloc)
    ensures r == Null
  {
    hide Tiled, Bytes, Accounted, MovablesOwned, AllOwned, Relocated, LoneDecides, StuckState, SomeFit, Scan, RoundSize, Movables, ServedFrom, Skippable;
    var heap := SkippableHeap();
    SkippedScan(heap.Snap());
    assert RoundSize(98) == 124 by {
      RoundsTo(98);
    }
    ghost var moved;
    r, moved := heap.Allocate(98);
  }

  lemma RoundsTo(actual: nat)
    ensures actual == 98 ==> RoundSize(actual) == 124
  {
  }

  lemma SkippedBytes(s: Snapshot, k: Kind)
    requires WF(s) && s.base == 100 && s.limit == 388 && Skippable(s.hs)
    ensures var hs := s.hs;
      && Bytes(hs, k, 100, 264) == Weight(hs[100], k) + Weight(hs[180], k) + Weight(hs[220], k)
      && Bytes(hs, k, 100, 388) == Bytes(hs, k, 100, 264) + Weight(hs[264], k) + Weight(hs[304], k) + Weight(hs[344], k)
  {
    hide Bytes, WF, Tiled;
    var hs := s.hs;
    BytesEmpty(hs, k, 100);
    SnapTiled(s);
    BytesStep(100, 388, hs, k, 100, 100);
    BytesStep(100, 388, hs, k, 100, 180);
    BytesStep(100, 388, hs, k, 100, 220);
    BytesStep(100, 388, hs, k, 100, 264);
    BytesStep(100, 388, hs, k, 100, 304);
    BytesStep(100, 388, hs, k, 100, 344);
  }

  lemma SkippedScan(s: Snapshot)
    requires WF(s) && s.base == 100 && s.limit == 388 && Skippable(s.hs)
    ensures s.base in s.hs && Scan(s, 124, 100, 100) == Exhausted
  {
    FreeIs(s);
    SkippedBytes(s, Available);
    SkippedBytes(s, Movable);
    SkippedLinks(s);
    hide Bytes, WF, Scan;
    SkippedOn(s, 100, 100);
    SkippedOn(s, 100, 180);
    SkippedOn(s, 100, 220);
    SkippedOn(s, 220, 220);
    SkippedOn(s, 220, 264);
    SkippedOn(s, 304, 304);
    SkippedOn(s, 344, 344);
  }

  /// More would have to move out of the run than there is room for elsewhere.
  ghost predicate TooMuch(s: Snapshot, first: Addr, last: Addr)
    requires last in s.hs && first < last + s.hs[last].size
  {
    Bytes(s.hs, Movable, first, last + s.hs[last].size) + Bytes(s.hs, Available, first, last + s.hs[last].size) > Free(s)
  }

  /// One step of the search for 124 bytes.
  lemma SkippedOn(s: Snapshot, first: Addr, last: Addr)
    requires WF(s) && first in s.hs && last in s.hs && first < last + s.hs[last].size && first <= last
    requires s.hs[last].next != 0 ==> s.hs[last].next in s.hs && last < s.hs[last].next
    ensures s.hs[last].kind == Immovable && s.hs[last].next != 0 ==> Scan(s, 124, first, last) == Scan(s, 124, s.hs[last].next, s.hs[last].next)
    ensures s.hs[last].kind != Immovable && last + s.hs[last].size - first < 124 ==>
      Scan(s, 124, first, last) == if s.hs[last].next == 0 then Exhausted else Scan(s, 124, first, s.hs[last].next)
    ensures s.hs[last].kind != Immovable && 124 <= last + s.hs[last].size - first && first < last && TooMuch(s, first, last) ==>
      Scan(s, 124, first, last) == Scan(s, 124, last, last)
  {
  }

  lemma SkippedLinks(s: Snapshot)
    requires WF(s) && s.base == 100 && s.limit == 388 && Skippable(s.hs)
    ensures var hs := s.hs; hs[100].next == 180 && hs[180].next == 220 && hs[220].next == 264 && hs[264].next == 304 && hs[304].next == 344 && hs[344].next == 0
  {
    hide Bytes;
    var hs := s.hs;
    Neighbours(100, 388, hs, 100);
    Neighbours(100, 388, hs, 180);
    Neighbours(100, 388, hs, 220);
    Neighbours(100, 388, hs, 264);
    Neighbours(100, 388, hs, 304);
    Neighbours(100, 388, hs, 344);
  }

  /// The run that is skipped is long enough, and the one block in it that must move has a home outside.
  lemma SkippedFits(hs: Headers)
    requires Skippable(hs)
    ensures Fits(hs, 180, 264, RoundSize(98)) && HasHome(Marked(hs, 180, 265), 220)
    ensures forall a :: a in hs && 180 <= a <= 264 && hs[a].kind == Movable ==> a == 220
  {
    var pinned := Marked(hs, 180, 265);
    assert Fits(pinned, 344, 344, 44);
    assert RoundSize(44 - HEADER) == 44;
  }
}

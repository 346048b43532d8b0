/**
The search for a run of blocks: what the loop of heap_alloc has ruled out when it moves on.
*/
module HeapSearch {
  import opened HeapBlocks

  /// The run from `a` to `b` is long enough for `size` bytes.
  ghost predicate Fits(hs: Headers, a: Addr, b: Addr, size: nat) {
    IsRun(hs, a, b) && size <= b + hs[b].size - a
  }

  ghost predicate SomeFit(hs: Headers, size: nat) { exists a: Addr, b: Addr :: Fits(hs, a, b, size) }

  /// An available block that is large enough by itself.
  ghost predicate Alone(hs: Headers, b: Addr, size: nat) {
    b in hs && hs[b].kind == Available && size <= hs[b].size
  }

  /// No run that is long enough begins before `first` or ends before `last`.
  ghost predicate Earliest(hs: Headers, first: Addr, last: Addr, size: nat) {
    forall a: Addr, b: Addr {:trigger Fits(hs, a, b, size)} :: Fits(hs, a, b, size) ==> first <= a && last <= b
  }

  /// The search from `first` to `last` has missed no single block and, when nothing can
  /// be moved anyway, no run.
  ghost predicate Tried(hs: Headers, first: Addr, last: Addr, size: nat) {
    && (forall b: Addr {:trigger Alone(hs, b, size)} :: Alone(hs, b, size) ==> last <= b)
    && (Movables(hs) == {} ==> Earliest(hs, first, last, size))
  }

  lemma TriedStart(base: Addr, limit: Addr, hs: Headers, size: nat)
    requires Tiled(base, limit, hs)
    ensures Tried(hs, base, base, size)
  {
    InRange(base, limit, hs);
  }

  /// `n` is the first block after `last`, if there is one.
  ghost predicate NextIs(hs: Headers, last: Addr, n: Addr) {
    forall b :: b in hs && last < b ==> n != 0 && n <= b
  }

  /// No run goes through an immovable block.
  lemma EarliestImmovable(hs: Headers, first: Addr, last: Addr, n: Addr, size: nat)
    requires Earliest(hs, first, last, size) && last in hs && hs[last].kind == Immovable && NextIs(hs, last, n)
    ensures n != 0 ==> Earliest(hs, n, n, size)
    ensures n == 0 ==> !SomeFit(hs, size)
  {
    forall a: Addr, b: Addr | Fits(hs, a, b, size) ensures n != 0 && n <= a && n <= b {
      assert !InRun(a, b, last);
    }
  }

  /// No run that ends at `last` is long enough.
  lemma EarliestShort(hs: Headers, first: Addr, last: Addr, n: Addr, size: nat)
    requires Earliest(hs, first, last, size) && first <= last && last in hs && NextIs(hs, last, n)
    requires last + hs[last].size - first < size
    ensures n != 0 ==> Earliest(hs, first, n, size)
    ensures n == 0 ==> !SomeFit(hs, size)
  {
    forall a: Addr, b: Addr | Fits(hs, a, b, size) ensures n != 0 && first <= a && n <= b {
      assert last != b;
    }
  }

  lemma TriedImmovable(hs: Headers, first: Addr, last: Addr, n: Addr, size: nat)
    requires Tried(hs, first, last, size) && last in hs && hs[last].kind == Immovable && NextIs(hs, last, n)
    ensures n != 0 ==> Tried(hs, n, n, size)
    ensures n == 0 ==> Nothing(hs, size)
  {
    forall b: Addr | Alone(hs, b, size) ensures n != 0 && n <= b {
    }
    if Movables(hs) == {} {
      EarliestImmovable(hs, first, last, n, size);
    }
  }

  lemma TriedShort(hs: Headers, first: Addr, last: Addr, n: Addr, size: nat)
    requires Tried(hs, first, last, size) && first <= last && last in hs && NextIs(hs, last, n)
    requires last + hs[last].size - first < size
    ensures n != 0 ==> Tried(hs, first, n, size)
    ensures n == 0 ==> Nothing(hs, size)
  {
    forall b: Addr | Alone(hs, b, size) ensures n != 0 && n <= b {
      assert last != b;
    }
    if Movables(hs) == {} {
      EarliestShort(hs, first, last, n, size);
    }
  }

  /// Giving up the blocks before `last` loses nothing of what counts.
  lemma TriedAgain(hs: Headers, first: Addr, last: Addr, size: nat)
    requires Tried(hs, first, last, size) && Movables(hs) != {}
    ensures Tried(hs, last, last, size)
  {
  }

  /// The search was in vain.
  ghost predicate Nothing(hs: Headers, size: nat) {
    && (forall b: Addr :: !Alone(hs, b, size))
    && (Movables(hs) == {} ==> !SomeFit(hs, size))
  }

  lemma SomethingMoves(hs: Headers, lo: Addr, hi: Addr)
    requires Bytes(hs, Movable, lo, hi) > 0
    ensures Movables(hs) != {}
  {
    if Movables(hs) == {} {
      forall a | a in hs ensures hs[a].kind != Movable {
        assert a !in Movables(hs);
      }
      BytesNone(hs, Movable, lo, hi);
    }
  }

  /// Without movable blocks a run is free memory.
  lemma FitIsFree(s: Snapshot, size: nat)
    requires Tiled(s.base, s.limit, s.hs) && Accounted(s) && Movables(s.hs) == {} && SomeFit(s.hs, size)
    ensures size <= s.limit - s.base - s.used
  {
    var a: Addr, b: Addr :| Fits(s.hs, a, b, size);
    forall c | c in s.hs && a <= c <= b ensures s.hs[c].kind == Available {
      assert InRun(a, b, c) && c !in Movables(s.hs);
    }
    InRange(s.base, s.limit, s.hs);
    BytesLength(s.base, s.limit, s.hs, a, b, Available);
    BytesWithin(s.hs, Available, s.base, a, b + s.hs[b].size, s.limit);
  }

  // ---------------------------------------------------------------- the loop

  /// A movable block larger than all free memory.
  predicate Oversized(hs: Headers, a: Addr, free: nat) {
    a in hs && hs[a].kind == Movable && free < hs[a].size
  }

  ghost predicate NoneOversized(s: Snapshot, end: Addr) {
    forall b :: b in s.hs && b < end ==> !Oversized(s.hs, b, Free(s))
  }

  ghost function Free(s: Snapshot): nat { if s.base + s.used <= s.limit then s.limit - s.base - s.used else 0 }

  /// The invariant of the loop. `available` is what would be left free outside the run.
  ghost predicate Scanning(s: Snapshot, first: Addr, last: Addr, size: nat, total: int, toMove: int, available: int) {
    && first in s.hs && last in s.hs && first <= last
    && (forall a :: a in s.hs && first <= a < last ==> s.hs[a].kind != Immovable)
    && total == last + s.hs[last].size - first
    && last - first <= size
    && 0 <= toMove == Bytes(s.hs, Movable, first, last)
    && available + Bytes(s.hs, Available, first, last) == Free(s)
    && NoneOversized(s, last)
    && Tried(s.hs, first, last, size)
  }

  lemma ScanStarts(s: Snapshot, size: nat)
    requires WF(s)
    ensures s.base in s.hs && Scanning(s, s.base, s.base, size, s.hs[s.base].size, 0, s.limit - s.base - s.used)
  {
    InRange(s.base, s.limit, s.hs);
    TriedStart(s.base, s.limit, s.hs, size);
  }

  ghost predicate FoundRun(s: Snapshot, first: Addr, last: Addr, size: nat, toMove: int) {
    && IsRun(s.hs, first, last)
    && last - first <= size <= last + s.hs[last].size - first
    && toMove == Bytes(s.hs, Movable, first, last + s.hs[last].size)
    && toMove + Bytes(s.hs, Available, first, last + s.hs[last].size) <= Free(s)
    && NoneOversized(s, last + 1) && Tried(s.hs, first, last, size)
  }

  // ---------------------------------------------------------------- the search as a function

  /// How the search for a run ends. `Stuck` is the state in which the loop of the source repeats
  /// itself for ever: the block at `at` alone is big enough, and too big to move.
  datatype Search = Found(first: Addr, last: Addr, toMove: nat) | Exhausted | Stuck(at: Addr)

  /// What the search ends with from `first` and `last` on. The loop keeps running totals in place
  /// of the sums.
  ghost function Scan(s: Snapshot, size: nat, first: Addr, last: Addr): Search
    requires WF(s) && first in s.hs && last in s.hs && first <= last
    decreases s.limit - last, last - first
  {
    ScanStep(s, first, last);
    var h := s.hs[last];
    var end := last + h.size;
    if h.kind == Immovable then
      if h.next == 0 then Exhausted else Scan(s, size, h.next, h.next)
    else if size <= end - first then
      if Bytes(s.hs, Movable, first, end) + Bytes(s.hs, Available, first, end) <= Free(s) then
        Found(first, last, Bytes(s.hs, Movable, first, end))
      else if first == last then Stuck(last)
      else Scan(s, size, last, last)
    else if h.next == 0 then Exhausted
    else Scan(s, size, first, h.next)
  }

  /// The end of the run from `first` to `last` is cut off where a request of `size` bytes ends: if the last block is
  /// available, and both its part of the request and the rest are larger than a header, it keeps that part, and an
  /// available block of the rest follows it. Otherwise nothing changes.
  ghost predicate Cut(hs: Headers, hs': Headers, first: Addr, last: Addr, size: nat) {
    && last in hs && first <= last <= first + size
    && var n, h := size - (last - first), hs[last];
    if h.kind == Available && HEADER < n && n + HEADER < h.size then
      && last + n !in hs && hs'.Keys == hs.Keys + {last + n}
      && hs'[last] == h.(size := n, next := last + n)
      && hs'[last + n] == Header(h.size - n, Available, Available, NoRef, h.next, last)
      && forall c :: c in hs && c != last ==> hs'[c] == if c == h.next then hs[c].(prev := last + n) else hs[c]
    else hs' == hs
  }

  /// There is one way to do that.
  lemma CutUnique(hs: Headers, hs1: Headers, hs2: Headers, first: Addr, last: Addr, size: nat)
    requires Cut(hs, hs1, first, last, size) && Cut(hs, hs2, first, last, size)
    ensures hs1 == hs2
  {
    assert hs1.Keys == hs2.Keys;
    forall c | c in hs1 ensures hs1[c] == hs2[c] {
    }
  }

  /// split_header at the place that heap_alloc computes does that.
  lemma SplitCuts(base: Addr, limit: Addr, hs: Headers, hs': Headers, first: Addr, last: Addr, size: nat, at: nat)
    requires Tiled(base, limit, hs) && last in hs && first <= last <= first + size && (hs[last].next == 0 || hs[last].next in hs)
    requires at == if size - (last - first) >= hs[last].size then 0 else size - (last - first)
    requires hs' == if hs[last].kind == Available && CanSplit(hs[last].size, at) then SplitAt(hs, last, at) else hs
    ensures Cut(hs, hs', first, last, size)
  {
    Neighbours(base, limit, hs, last);
    InRange(base, limit, hs);
    if hs[last].kind == Available && CanSplit(hs[last].size, at) {
      SplitKeys(base, limit, hs, last, at);
    }
  }

  lemma Unused(s: Snapshot)
    requires WF(s)
    ensures Free(s) == s.limit - s.base - s.used && forall b :: b in s.hs ==> s.base <= b && HEADER <= s.hs[b].size && b + s.hs[b].size <= s.limit
  {
    InRange(s.base, s.limit, s.hs);
  }

  /// Every way on from block `last`.
  lemma ScanAdvances(s: Snapshot, first: Addr, last: Addr, size: nat, total: int, toMove: int, available: int)
    requires WF(s) && size <= s.limit - s.base - s.used && Scanning(s, first, last, size, total, toMove, available)
    ensures Free(s) == s.limit - s.base - s.used
    ensures var n, h := s.hs[last].next, s.hs[last];
      var toMove', available' := toMove + Weight(h, Movable), available - Weight(h, Available);
      && (n != 0 ==> n in s.hs)
      && (h.kind == Immovable ==>
           if n == 0 then Nothing(s.hs, size) && NoneOversized(s, s.limit)
           else Scanning(s, n, n, size, s.hs[n].size, 0, Free(s)))
      && (h.kind != Immovable && size <= total && toMove' <= available' ==> FoundRun(s, first, last, size, toMove'))
      && (h.kind != Immovable && size <= total && toMove' > available' ==>
           if first == last then Oversized(s.hs, last, Free(s))
           else Scanning(s, last, last, size, h.size, 0, Free(s)))
      && (h.kind != Immovable && size > total ==>
           if n == 0 then Nothing(s.hs, size) && NoneOversized(s, s.limit)
           else Scanning(s, first, n, size, total + s.hs[n].size, toMove', available'))
  {
    hide WF, Tiled, Accounted, MovablesOwned, Tried, Nothing, Movables;
    ScanStep(s, first, last);
    ScanBytes(s, first, last);
    Unused(s);
    var n := s.hs[last].next;
    if s.hs[last].kind == Immovable {
      TriedImmovable(s.hs, first, last, n, size);
    } else if size > total {
      TriedShort(s.hs, first, last, n, size);
    } else if toMove + Weight(s.hs[last], Movable) > available - Weight(s.hs[last], Available) && first < last {
      SomethingMoves(s.hs, first, last + s.hs[last].size);
      TriedAgain(s.hs, first, last, size);
    }
  }

  /// Without movable blocks the search decides whether there is a run, and then nothing is in its way.
  lemma FoundDecides(s: Snapshot, first: Addr, last: Addr, size: nat)
    requires IsRun(s.hs, first, last) && size <= last + s.hs[last].size - first
    ensures SomeFit(s.hs, size)
    ensures Bytes(s.hs, Movable, first, last + s.hs[last].size) > 0 ==> Movables(s.hs) != {}
  {
    assert Fits(s.hs, first, last, size);
    if Bytes(s.hs, Movable, first, last + s.hs[last].size) > 0 {
      SomethingMoves(s.hs, first, last + s.hs[last].size);
    }
  }

  /// The function goes on as the loop does.
  lemma ScanGoesOn(s: Snapshot, first: Addr, last: Addr, size: nat, total: int, toMove: int, available: int)
    requires WF(s) && Scanning(s, first, last, size, total, toMove, available)
    ensures var n, h := s.hs[last].next, s.hs[last];
      var toMove', available' := toMove + Weight(h, Movable), available - Weight(h, Available);
      && (n != 0 ==> n in s.hs && first <= n)
      && Scan(s, size, first, last) ==
        if h.kind == Immovable then
          if n == 0 then Exhausted else Scan(s, size, n, n)
        else if size <= total then
          if toMove' <= available' && 0 <= toMove' then Found(first, last, toMove')
          else if first == last then Stuck(last) else Scan(s, size, last, last)
        else if n == 0 then Exhausted else Scan(s, size, first, n)
  {
    ScanStep(s, first, last);
    ScanBytes(s, first, last);
  }

  /// What the search says about the heap. A found run has no immovable block, is long enough but not
  /// without its last block, and what must move fits the free memory outside it; no movable block up
  /// to its end is larger than free memory, and no single available block before its last is large enough. A stuck search stands on such a block. An exhausted search
  /// has met none, and has missed nothing.
  ghost predicate Outcome(s: Snapshot, size: nat, r: Search) {
    match r
    case Found(first, last, toMove) => FoundRun(s, first, last, size, toMove)
    case Stuck(at) => Oversized(s.hs, at, Free(s))
    case Exhausted => NoneOversized(s, s.limit) && Nothing(s.hs, size)
  }

  lemma {:induction false} ScanOutcome(s: Snapshot, first: Addr, last: Addr, size: nat, total: int, toMove: int, available: int)
    requires WF(s) && size <= s.limit - s.base - s.used && Scanning(s, first, last, size, total, toMove, available)
    ensures Outcome(s, size, Scan(s, size, first, last))
    decreases s.limit - last, last - first
  {
    ScanStep(s, first, last);
    ScanAdvances(s, first, last, size, total, toMove, available);
    ScanGoesOn(s, first, last, size, total, toMove, available);
    hide WF, Scan, FoundRun, Nothing, NoneOversized, Oversized;
    var n, h := s.hs[last].next, s.hs[last];
    if h.kind == Immovable {
      if n != 0 {
        ScanOutcome(s, n, n, size, s.hs[n].size, 0, Free(s));
      }
    } else if size <= total {
      if toMove + Weight(h, Movable) > available - Weight(h, Available) && first < last {
        ScanOutcome(s, last, last, size, h.size, 0, Free(s));
      }
    } else if n != 0 {
      ScanOutcome(s, first, n, size, total + s.hs[n].size, toMove + Weight(h, Movable), available - Weight(h, Available));
    }
  }

  /// No run is refused because too much would have to be moved.
  ghost predicate NoneRefused(s: Snapshot, size: nat) {
    forall a: Addr, b: Addr {:trigger Fits(s.hs, a, b, size)} :: Fits(s.hs, a, b, size) && b - a <= size ==>
      Bytes(s.hs, Movable, a, b + s.hs[b].size) + Bytes(s.hs, Available, a, b + s.hs[b].size) <= Free(s)
  }

  /// The run that ends first, from where that can begin first; or nothing, as no run of movable and available blocks is
  /// long enough.
  ghost predicate IsFirstFit(hs: Headers, size: nat, r: Search) {
    match r
    case Found(first, last, _) => Fits(hs, first, last, size) && Earliest(hs, first, last, size)
    case Exhausted => !SomeFit(hs, size)
    case Stuck(_) => false
  }

  /// Then the search is first fit.
  lemma FirstFit(s: Snapshot, size: nat)
    requires WF(s) && size <= s.limit - s.base - s.used && NoneRefused(s, size)
    ensures s.base in s.hs
    ensures IsFirstFit(s.hs, size, Scan(s, size, s.base, s.base))
  {
    ScanStarts(s, size);
    InRange(s.base, s.limit, s.hs);
    hide WF, Tiled, Scan, Scanning, NoneRefused;
    FirstFitFrom(s, s.base, s.base, size, s.hs[s.base].size, 0, s.limit - s.base - s.used);
  }

  lemma {:induction false} FirstFitFrom(s: Snapshot, first: Addr, last: Addr, size: nat, total: int, toMove: int, available: int)
    requires WF(s) && size <= s.limit - s.base - s.used && NoneRefused(s, size)
    requires Scanning(s, first, last, size, total, toMove, available) && Earliest(s.hs, first, last, size)
    ensures IsFirstFit(s.hs, size, Scan(s, size, first, last))
    decreases s.limit - last, last - first
  {
    ScanStep(s, first, last);
    ScanAdvances(s, first, last, size, total, toMove, available);
    ScanGoesOn(s, first, last, size, total, toMove, available);
    ScanBytes(s, first, last);
    var n, h := s.hs[last].next, s.hs[last];
    hide WF, Scan, Nothing, NoneOversized, Oversized, Tried, Earliest;
    if h.kind == Immovable {
      EarliestImmovable(s.hs, first, last, n, size);
      if n != 0 {
        FirstFitFrom(s, n, n, size, s.hs[n].size, 0, Free(s));
      }
    } else if size <= total {
      assert Fits(s.hs, first, last, size);
    } else {
      EarliestShort(s.hs, first, last, n, size);
      if n != 0 {
        FirstFitFrom(s, first, n, size, total + s.hs[n].size, toMove + Weight(h, Movable), available - Weight(h, Available));
      }
    }
  }
}

/**
The allocator of core/kernel/heap.c: a list of blocks that `HeapAlloc` compacts on demand. It picks
a run of blocks, pins it, calls itself to find new homes for the movable blocks inside, and rolls
back when a nested call fails.
*/
module KernelHeap {
  import opened Basics
  import opened HeapBlocks
  import opened HeapSearch
  import opened HeapEvacuation
  import opened HeapClaim
  import opened HeapRelease

  datatype Evacuation = Vacant | NoRoom | Stops

  datatype Alloc = Null | Pointer(p: Addr) | Diverges

  /// The size of the block that holds a payload of `actual` bytes, in 32-bit arithmetic.
  function RoundSize(actual: nat): (size: nat)
    ensures size % 4 == 0 && size < WORD
    ensures actual + HEADER + 3 < WORD ==> actual + HEADER <= size <= actual + HEADER + 3
    ensures WORD <= actual + HEADER + 3 < 2 * WORD ==> actual + HEADER - WORD <= size <= actual + HEADER + 3 - WORD
  {
    var x := (actual + HEADER + 3) % WORD;
    x - x % 4
  }

  /// `p` points at the payload of an immovable block that serves a request of `size` bytes, header
  /// included, and wastes less than a header and a byte.
  ghost predicate Served(hs: Headers, p: Addr, size: nat) {
    && HEADER <= p && p - HEADER in hs
    && var h := hs[p - HEADER];
    && h.kind == Immovable && h.ref == NoRef
    && size <= h.size && (HEADER < size ==> h.size <= size + HEADER)
  }

  /// There is a run of blocks that can be had for the payload of block `h`.
  ghost predicate HasHome(hs: Headers, h: Addr) {
    h in hs && HEADER <= hs[h].size && SomeFit(hs, RoundSize(hs[h].size - HEADER))
  }

  /// The one state in which the search cannot end: some movable block is larger than free memory.
  ghost predicate StuckState(s: Snapshot) { exists a :: Oversized(s.hs, a, Free(s)) }

  /// The request was served from the run that the search finds: by a block of exactly its size, if both that and the
  /// rest of the run are larger than a header, else by the whole run. If nothing had to move, that is all that happened.
  ghost predicate ServedFrom(s: Snapshot, hs: Headers, p: Addr, size: nat)
    requires WF(s) && s.base in s.hs
  {
    match Scan(s, size, s.base, s.base)
    case Found(first, last, toMove) =>
      && last in s.hs && first <= last && last - first <= size && first in s.hs
      && var total := last + s.hs[last].size - first;
      && p == first + HEADER && first in hs && hs[first].size == (if HEADER < size && size + HEADER < total then size else total)
      && (toMove == 0 ==> Carved(s.hs, hs, first, last, size))
    case _ => false
  }

  /// Whether a request can be served when `m` is the only movable block: the search must find a run,
  /// and `m`, if it is in the way, needs a home outside.
  ghost predicate LoneServed(s: Snapshot, size: nat, m: Addr)
    requires WF(s) && s.base in s.hs
  {
    match Scan(s, size, s.base, s.base)
    case Found(first, last, _) => InRun(first, last, m) ==> LoneHome(s.hs, first, last, size, m)
    case _ => false
  }

  /// Once the end of the run is cut off and the run is pinned, `m` has a home.
  ghost predicate LoneHome(hs: Headers, first: Addr, last: Addr, size: nat, m: Addr) {
    exists hs' :: Cut(hs, hs', first, last, size) && HasHome(Marked(hs', first, last + 1), m)
  }

  /// What becomes of a run, with a single movable block inside it.
  ghost predicate LoneTaken(hs: Headers, first: Addr, last: Addr, busy: bool, r: Alloc) {
    forall m :: busy && Movables(hs) == {m} && InRun(first, last, m) ==>
      !r.Diverges? && (r.Pointer? <==> HasHome(Marked(hs, first, last + 1), m))
  }

  ghost predicate LoneFrom(hs: Headers, first: Addr, last: Addr, size: nat, toMove: nat, r: Alloc) {
    forall m :: Movables(hs) == {m} && toMove > 0 ==>
      InRun(first, last, m) && !r.Diverges? && (r.Pointer? <==> LoneHome(hs, first, last, size, m))
  }

  /// Splitting the end of the run comes first.
  lemma LoneLifted(hs: Headers, hs': Headers, first: Addr, last: Addr, size: nat, toMove: nat, r: Alloc)
    requires Cut(hs, hs', first, last, size) && Movables(hs') == Movables(hs)
    requires forall m :: Movables(hs) == {m} && toMove > 0 ==> InRun(first, last, m)
    requires LoneTaken(hs', first, last, toMove > 0, r)
    ensures LoneFrom(hs, first, last, size, toMove, r)
  {
    hide Cut, HasHome;
    forall m ensures LoneHome(hs, first, last, size, m) <==> HasHome(Marked(hs', first, last + 1), m) {
      if h :| Cut(hs, h, first, last, size) && HasHome(Marked(h, first, last + 1), m) {
        CutUnique(hs, h, hs', first, last, size);
      }
    }
  }

  /// With the end cut off first, the run becomes what it would have become without.
  lemma CarvedServes(hs: Headers, hs': Headers, first: Addr, last: Addr, size: nat)
    requires Carved(hs, hs', first, last, size) && size <= last + hs[last].size - first
    ensures first in hs' && hs'[first].kind == Immovable && hs'[first].size == Part(last + hs[last].size - first, size)
    ensures size <= hs'[first].size && (HEADER < size ==> hs'[first].size <= size + HEADER)
  {
  }

  lemma CutFits(hs: Headers, v: Headers, first: Addr, last: Addr, size: nat)
    requires Cut(hs, v, first, last, size) && size <= last + hs[last].size - first
    ensures last in v && size <= last + v[last].size - first
    ensures Part(last + v[last].size - first, size) == Part(last + hs[last].size - first, size)
  {
  }

  lemma CutCarved(hs: Headers, v: Headers, hs': Headers, first: Addr, last: Addr, size: nat)
    requires Cut(hs, v, first, last, size) && first in hs && size <= last + hs[last].size - first && Carved(v, hs', first, last, size)
    requires hs[last].next == 0 || last < hs[last].next
    ensures Carved(hs, hs', first, last, size)
  {
  }

  /// The exact outcome with a single movable block that is not larger than free memory.
  ghost predicate LoneDecides(s: Snapshot, size: nat, r: Alloc)
    requires WF(s) && s.base in s.hs
  {
    forall m :: Movables(s.hs) == {m} && !Oversized(s.hs, m, Free(s)) ==>
      !r.Diverges? && (r.Pointer? <==> size <= Free(s) && LoneServed(s, size, m))
  }

  /// Block `m` of the pinned run is the only one that can be moved at all.
  ghost predicate Lone(hs: Headers, first: Addr, last: Addr, m: Addr) {
    Movables(hs) == {} && RunMovables(hs, first, last) == {m}
  }

  /// A single movable block in the run is evacuated exactly when it has a home.
  ghost predicate LoneOutcome(hs: Headers, first: Addr, last: Addr, r: Evacuation) {
    forall m :: Lone(hs, first, last, m) ==> !r.Stops? && (r.Vacant? <==> HasHome(hs, m))
  }

  /// Between rounds: nothing has happened yet, or the single movable block is gone.
  ghost predicate LoneSoFar(hs: Headers, now: Headers, first: Addr, last: Addr) {
    now == hs || forall m :: Lone(hs, first, last, m) ==> HasHome(hs, m) && RunMovables(now, first, last) == {}
  }

  lemma LoneRound(hs: Headers, now: Headers, then_: Headers, first: Addr, last: Addr, h: Addr, r: Evacuation)
    requires LoneSoFar(hs, now, first, last)
    requires h in now && InRun(first, last, h) && now[h].oldKind == Movable
    requires Movables(now) == {} ==> !r.Stops? && (r.Vacant? <==> HasHome(now, h))
    ensures LoneOutcome(hs, first, last, r)
    ensures r.Vacant? && RunAfterRound(now, then_, first, last, h) ==> LoneSoFar(hs, then_, first, last)
  {
    assert h in RunMovables(now, first, last);
    if RunAfterRound(now, then_, first, last, h) {
      assert RunMovables(then_, first, last) == RunMovables(now, first, last) - {h};
    }
  }

  lemma LoneStart(hs: Headers, first: Addr, last: Addr)
    ensures LoneSoFar(hs, hs, first, last)
  {
  }

  lemma LoneEnd(hs: Headers, now: Headers, first: Addr, last: Addr)
    requires LoneSoFar(hs, now, first, last)
    requires forall a :: a in now && InRun(first, last, a) ==> now[a].oldKind == Available
    ensures LoneOutcome(hs, first, last, Vacant)
  {
    assert RunMovables(now, first, last) == {};
  }

  lemma OversizedStuck(s: Snapshot, a: Addr)
    requires Oversized(s.hs, a, Free(s))
    ensures StuckState(s)
  {
  }

  /// What the outcome of the search settles by itself.
  lemma OutcomeDecides(s: Snapshot, size: nat, r: Search)
    requires WF(s) && Outcome(s, size, r)
    ensures r.Exhausted? ==> (Movables(s.hs) == {} ==> !SomeFit(s.hs, size))
    ensures r.Stuck? ==> Movables(s.hs) != {} && StuckState(s)
    ensures r.Found? ==>
      && IsRun(s.hs, r.first, r.last) && r.last - r.first <= size <= r.last + s.hs[r.last].size - r.first
      && r.toMove == Bytes(s.hs, Movable, r.first, r.last + s.hs[r.last].size)
      && SomeFit(s.hs, size) && (r.toMove > 0 ==> Movables(s.hs) != {})
  {
    match r {
      case Exhausted =>
      case Stuck(at) =>
        assert at in Movables(s.hs);
        OversizedStuck(s, at);
      case Found(first, last, _) =>
        FoundDecides(s, first, last, size);
    }
  }

  lemma ServedFound(s: Snapshot, hs: Headers, size: nat, r: Alloc)
    requires WF(s) && s.base in s.hs && Scan(s, size, s.base, s.base).Found?
    requires var found := Scan(s, size, s.base, s.base);
      && IsRun(s.hs, found.first, found.last) && found.last - found.first <= size
      && var total := found.last + s.hs[found.last].size - found.first;
      && (r.Pointer? ==> r.p == found.first + HEADER && found.first in hs
                         && hs[found.first].size == (if HEADER < size && size + HEADER < total then size else total)
                         && (found.toMove == 0 ==> Carved(s.hs, hs, found.first, found.last, size)))
    ensures r.Pointer? ==> ServedFrom(s, hs, r.p, size)
  {
  }

  /// If no run is refused, the block that serves a request begins the run that ends first.
  lemma ServedFirst(s: Snapshot, hs: Headers, p: Addr, size: nat) returns (last: Addr)
    requires WF(s) && s.base in s.hs && size <= Free(s) && NoneRefused(s, size) && ServedFrom(s, hs, p, size)
    ensures HEADER <= p && Fits(s.hs, p - HEADER, last, size) && Earliest(s.hs, p - HEADER, last, size)
  {
    Unused(s);
    FirstFit(s, size);
    last := Scan(s, size, s.base, s.base).last;
    hide WF, Scan, Carved, NoneRefused, Fits, Earliest;
  }

  lemma ConcludedBy(s: Snapshot, size: nat, found: Search, r: Alloc)
    requires found.Exhausted? ==> r == Null
    requires found.Stuck? ==> r == Diverges
    requires found.Found? ==> (found.toMove == 0 ==> r.Pointer?) && LoneFrom(s.hs, found.first, found.last, size, found.toMove, r)
    ensures Concluded(s, size, found, r)
  {
  }

  lemma LoneRefused(s: Snapshot, size: nat)
    requires WF(s) && s.base in s.hs && size > Free(s)
    ensures LoneDecides(s, size, Null)
  {
  }

  /// What heap_alloc makes of the outcome of the search.
  ghost predicate Concluded(s: Snapshot, size: nat, found: Search, r: Alloc) {
    match found
    case Exhausted => r == Null
    case Stuck(_) => r == Diverges
    case Found(first, last, toMove) => (toMove == 0 ==> r.Pointer?) && LoneFrom(s.hs, first, last, size, toMove, r)
  }

  lemma LoneConcluded(s: Snapshot, size: nat, r: Alloc)
    requires WF(s) && s.base in s.hs && size <= Free(s) && Outcome(s, size, Scan(s, size, s.base, s.base))
    requires Concluded(s, size, Scan(s, size, s.base, s.base), r)
    ensures LoneDecides(s, size, r)
  {
    hide Scan, LoneHome, Bytes, WF;
    forall m | Movables(s.hs) == {m} && !Oversized(s.hs, m, Free(s))
      ensures !r.Diverges? && (r.Pointer? <==> LoneServed(s, size, m))
    {
      assert forall a :: Oversized(s.hs, a, Free(s)) ==> a in Movables(s.hs);
      match Scan(s, size, s.base, s.base) {
        case Exhausted =>
        case Stuck(at) =>
        case Found(first, last, toMove) =>
          if toMove == 0 {
            NothingMoves(s, first, last, m);
          }
      }
    }
  }

  /// A run in which nothing must move does not hold a movable block.
  lemma NothingMoves(s: Snapshot, first: Addr, last: Addr, m: Addr)
    requires WF(s) && IsRun(s.hs, first, last) && Bytes(s.hs, Movable, first, last + s.hs[last].size) == 0
    requires Movables(s.hs) == {m}
    ensures !InRun(first, last, m)
  {
    RunKinds(s, first, last);
    assert m in Movables(s.hs);
  }

  /// If anything in the run must move, the only movable block is in it.
  lemma LoneInRun(s: Snapshot, first: Addr, last: Addr)
    requires Tiled(s.base, s.limit, s.hs) && IsRun(s.hs, first, last)
    ensures forall m :: Movables(s.hs) == {m} && Bytes(s.hs, Movable, first, last + s.hs[last].size) > 0 ==> InRun(first, last, m)
  {
    RunKinds(s, first, last);
    if !forall a :: a in s.hs && InRun(first, last, a) ==> s.hs[a].kind == Available {
      var a :| a in s.hs && InRun(first, last, a) && s.hs[a].kind != Available;
      assert a in Movables(s.hs);
    }
  }

  /// Pinning a run that holds the only movable block.
  lemma LoneMarked(hs: Headers, first: Addr, last: Addr, m: Addr)
    requires Movables(hs) == {m} && InRun(first, last, m)
    ensures Lone(Marked(hs, first, last + 1), first, last, m)
  {
    var hs' := Marked(hs, first, last + 1);
    forall a | a in hs' ensures a !in Movables(hs') && (a in RunMovables(hs', first, last) <==> a == m) {
      assert a in Movables(hs) <==> a == m;
    }
    assert m in Movables(hs);
  }

  /// A heap that does not change keeps all its allocations.
  lemma Unchanged(s: Snapshot)
    requires WF(s)
    ensures Relocated(s, s, Identity(Live(s.hs))) && Identity(Live(s.hs)).Values == Live(s.hs) && s.base in s.hs
    ensures s.limit - s.base - s.used >= 0 && forall a :: a in s.hs ==> s.base <= a < s.limit
  {
    InRange(s.base, s.limit, s.hs);
    RelocatedIdentity(s, s);
  }

  /// The block has room for the request exactly when rounding its size did not wrap around.
  lemma ServedPayload(base: Addr, limit: Addr, hs: Headers, p: Addr, actual: nat)
    requires Tiled(base, limit, hs) && Served(hs, p, RoundSize(actual)) && actual < WORD
    ensures actual <= hs[p - HEADER].size - HEADER <==> actual + HEADER + 3 < WORD
  {
    InRange(base, limit, hs);
  }

  // ---------------------------------------------------------------- a heap that stops the search

  /// A movable block larger than free memory at the start of the heap stops the search at once.
  lemma BaseStuck(s: Snapshot, size: nat)
    requires WF(s) && s.base in s.hs && Oversized(s.hs, s.base, Free(s)) && size <= Free(s)
    ensures Scan(s, size, s.base, s.base) == Stuck(s.base)
  {
    BytesStep(s.base, s.limit, s.hs, Movable, s.base, s.base);
    assert Bytes(s.hs, Movable, s.base, s.base) == 0;
  }

  /// An owner is told where its block is now.
  datatype Notice = Notice(owner: Owner, at: Addr)

  /// What the owners know after being told in turn.
  ghost function Tell(refs: map<Owner, Addr>, told: seq<Notice>): map<Owner, Addr> {
    if told == [] then refs else Tell(refs, told[..|told| - 1])[told[|told| - 1].owner := told[|told| - 1].at]
  }

  /// Every notice went to one of `names`.
  ghost predicate SentTo(told: seq<Notice>, names: set<Owner>) { forall n :: n in told ==> n.owner in names }

  /// A block that the allocator may move, pinned or not.
  ghost predicate Shiftable(h: Header) { h.kind == Movable || (h.kind == Immovable && h.oldKind == Movable) }

  /// The owner of every such block is one of `names`.
  ghost predicate Named(hs: Headers, names: set<Owner>) {
    forall a :: a in hs && Shiftable(hs[a]) && hs[a].ref.Ref? ==> hs[a].ref.owner in names
  }

  /// The owners of the allocations.
  ghost function Owners(hs: Headers): set<Owner> { set a | a in hs && hs[a].kind != Available && hs[a].ref.Ref? :: hs[a].ref.owner }

  /// Pinning a run without immovable blocks, and undoing that.
  lemma MarkedNamed(hs: Headers, lo: Addr, hi: Addr, names: set<Owner>)
    ensures Named(hs, names) && (forall a :: a in hs && lo <= a < hi ==> hs[a].kind != Immovable) ==> Named(Marked(hs, lo, hi), names)
    ensures Named(hs, names) && (forall a :: a in hs && lo <= a < hi ==> hs[a].kind == Immovable) ==> Named(Unmarked(hs, lo, hi), names)
  {
  }

  lemma OwnersNamed(hs: Headers)
    ensures Named(hs, Owners(hs))
  {
  }

  lemma MovedNamed(hs: Headers, h: Addr, d: Addr, names: set<Owner>)
    requires h in hs && d in hs && h != d && Shiftable(hs[h])
    ensures Named(hs, names) ==> Named(Moved(hs, h, d), names) && (hs[h].ref.Ref? ==> hs[h].ref.owner in names)
  {
  }

  class Heap {
    const base: Addr
    const limit: Addr
    var headers: Headers
    var mem: seq<bv8>
    var refs: map<Owner, Addr>
    var used: nat
    /// Who was told what, in order, since the request came in; then the owners knew `refs0`, and `names`
    /// were all the owners there were.
    var told: seq<Notice>
    ghost var refs0: map<Owner, Addr>
    ghost var names: set<Owner>

    ghost predicate Logged()
      reads this`refs, this`refs0, this`told, this`names, this`headers
    {
      refs == Tell(refs0, told) && SentTo(told, names) && Named(headers, names)
    }

    twostate predicate NamesKept()
      reads this`names, this`headers
    {
      names == old(names) && (old(Named(headers, names)) ==> Named(headers, names))
    }

    /// The log is complete and goes on from where it began.
    twostate predicate LogKept()
      reads this`refs, this`refs0, this`told, this`names, this`headers
    {
      old(Logged()) ==> Logged() && refs0 == old(refs0) && names == old(names) && old(told) <= told
    }

    ghost function Snap(): Snapshot
      reads this
    {
      Snapshot(base, limit, headers, mem, refs, used)
    }

    // -------------------------------------------------------------- the search

    /// The loop of heap_alloc that looks for a run of movable or available blocks.
    method FindRun(size: nat) returns (r: Search)
      requires WF(Snap())
      requires size <= limit - base - used
      ensures Outcome(Snap(), size, r)
      ensures base in headers && r == Scan(Snap(), size, base, base)
    {
      var free := limit - base - used;
      ScanStarts(Snap(), size);
      ScanOutcome(Snap(), base, base, size, headers[base].size, 0, free);
      hide WF, Tiled, Bytes, Scanning, Nothing, Movables, Oversized, Scan, Outcome;
      var first, last := base, base;
      var total := headers[base].size;
      var toMove := 0;
      var available := free;
      while true
        invariant Scanning(Snap(), first, last, size, total, toMove, available)
        invariant first in headers && last in headers && first <= last
        invariant Scan(Snap(), size, base, base) == Scan(Snap(), size, first, last)
        decreases limit - last, last - first
      {
        ScanStep(Snap(), first, last);
        ScanGoesOn(Snap(), first, last, size, total, toMove, available);
        ScanAdvances(Snap(), first, last, size, total, toMove, available);
        match headers[last].kind {
          case Available =>
            available := available - headers[last].size;
          case Movable =>
            toMove := toMove + headers[last].size;
          case Immovable =>
            if headers[last].next == 0 {
              return Exhausted;
            }
            last := headers[last].next;
            first := last;
            total := headers[first].size;
            toMove := 0;
            available := free;
            continue;
        }
        if size <= total {
          if toMove <= available {
            return Found(first, last, toMove);
          }
          if first == last {
            return Stuck(last);
          }
          first := last;
          total := headers[last].size;
          toMove := 0;
          available := free;
          continue;
        }
        if headers[last].next == 0 {
          return Exhausted;
        }
        last := headers[last].next;
        total := total + headers[last].size;
      }
    }

    // -------------------------------------------------------------- headers in memory

    /// The bytes that a header takes in memory; their layout does not matter here.
    static method HeaderBytes(h: Header) returns (bytes: seq<bv8>)
      ensures |bytes| == HEADER
    {
      bytes := seq(HEADER, i => 0);
    }

    /// Writing a header overwrites the bytes at its address.
    method WriteHeader(a: Addr, h: Header)
      requires a + HEADER <= |mem|
      modifies this`headers, this`mem
      ensures headers == old(headers)[a := h]
      ensures |mem| == |old(mem)| && SameExcept(old(mem), mem, a, a + HEADER)
    {
      headers := headers[a := h];
      var bytes := HeaderBytes(h);
      mem := mem[..a] + bytes + mem[a + HEADER..];
    }

    method SetKind(a: Addr, kind: Kind, oldKind: Kind)
      requires Tiled(base, limit, headers) && |mem| == limit && a in headers
      modifies this`headers, this`mem
      ensures headers == old(headers)[a := old(headers)[a].(kind := kind, oldKind := oldKind)]
      ensures Tiled(base, limit, headers)
      ensures |mem| == limit && PayloadsKept(old(headers), old(mem), mem)
    {
      assert BlockOk(base, limit, headers, a);
      WriteHeader(a, headers[a].(kind := kind, oldKind := oldKind));
      HeaderWriteKeeps(base, limit, old(headers), old(mem), mem, a);
      TiledSame(base, limit, old(headers), headers);
    }

    /// split_header
    method SplitHeader(a: Addr, at: nat) returns (ok: bool)
      requires Tiled(base, limit, headers) && |mem| == limit && a in headers
      modifies this`headers, this`mem
      ensures ok == CanSplit(old(headers)[a].size, at) && NamesKept()
      ensures !ok ==> headers == old(headers) && mem == old(mem)
      ensures ok ==> BlockOk(base, limit, old(headers), a) && headers == SplitAt(old(headers), a, at)
      ensures Tiled(base, limit, headers)
      ensures |mem| == limit
      ensures forall c :: c in old(headers) && c != a ==> PayloadKept(old(headers), old(mem), mem, c)
    {
      Neighbours(base, limit, headers, a);
      var h := headers[a];
      if at >= h.size - HEADER {
        KeptRefl(base, limit, headers, mem);
        return false;
      } else if at <= HEADER {
        KeptRefl(base, limit, headers, mem);
        return false;
      }
      SplitKeys(base, limit, headers, a, at);
      SplitTiled(base, limit, headers, a, at);
      var b := a + at;
      WriteHeader(b, Header(h.size - at, Available, Available, NoRef, h.next, a));
      ghost var m1 := mem;
      if h.next != 0 {
        WriteHeader(h.next, headers[h.next].(prev := b));
      }
      ghost var m2 := mem;
      WriteHeader(a, headers[a].(size := at, next := b));
      assert headers == SplitAt(old(headers), a, at);
      forall c | c in old(headers) && c != a ensures PayloadKept(old(headers), old(mem), mem, c) {
        SplitKeeps(base, limit, old(headers), old(mem), m1, m2, mem, a, at, c);
      }
      return true;
    }

    // -------------------------------------------------------------- pinning a run

    method PinBlock(h: Addr)
      requires Tiled(base, limit, headers) && |mem| == limit && Accounted(Snap()) && h in headers
      modifies this`headers, this`mem, this`used
      ensures headers == old(headers)[h := old(headers)[h].(oldKind := old(headers)[h].kind, kind := Immovable)]
      ensures Tiled(base, limit, headers) && |mem| == limit && Accounted(Snap())
      ensures PayloadsKept(old(headers), old(mem), mem)
    {
      PinBytes(base, limit, headers, h);
      var kind := headers[h].kind;
      SetKind(h, Immovable, kind);
      if kind == Available {
        used := used + headers[h].size;
      }
    }

    /// Pins every block of the run and remembers its kind.
    method MarkRun(first: Addr, last: Addr)
      requires WF(Snap()) && IsRun(headers, first, last)
      modifies this`headers, this`mem, this`used
      ensures headers == Marked(old(headers), first, last + 1) && NamesKept()
      ensures Tiled(base, limit, headers) && |mem| == limit && Accounted(Snap())
      ensures PayloadsKept(old(headers), old(mem), mem)
    {
      hide Tiled, Accounted, PayloadsKept, Named, Marked, Unmarked;
      var h := first;
      MarkedNamed(headers, first, last + 1, names);
      MarkedNone(headers, first);
      KeptRefl(base, limit, headers, mem);
      while true
        invariant h in old(headers) && first <= h <= last
        invariant headers == Marked(old(headers), first, h)
        invariant Tiled(base, limit, headers) && |mem| == limit && Accounted(Snap())
        invariant PayloadsKept(old(headers), old(mem), mem)
        decreases limit - h
      {
        ghost var m := mem;
        MarkedStep(base, limit, old(headers), first, h);
        PinBlock(h);
        MarkedKept(old(headers), first, h, old(mem), m, mem);
        if h == last {
          break;
        }
        h := headers[h].next;
      }
    }

    method UnpinBlock(h: Addr)
      requires Tiled(base, limit, headers) && |mem| == limit && Accounted(Snap()) && h in headers && headers[h].kind == Immovable
      modifies this`headers, this`mem, this`used
      ensures headers == old(headers)[h := old(headers)[h].(kind := old(headers)[h].oldKind)]
      ensures Tiled(base, limit, headers) && |mem| == limit && Accounted(Snap())
      ensures PayloadsKept(old(headers), old(mem), mem)
    {
      var kind := headers[h].oldKind;
      UnpinBytes(Snap(), h, kind);
      SetKind(h, kind, kind);
      if kind == Available {
        used := used - headers[h].size;
      }
    }

    /// Gives every block of the run its remembered kind back.
    method RestoreRun(first: Addr, last: Addr)
      requires Tiled(base, limit, headers) && |mem| == limit && Accounted(Snap())
      requires first in headers && last in headers && first <= last
      requires forall a :: a in headers && first <= a <= last ==> headers[a].kind == Immovable
      modifies this`headers, this`mem, this`used
      ensures headers == Unmarked(old(headers), first, last + 1) && NamesKept()
      ensures Tiled(base, limit, headers) && |mem| == limit && Accounted(Snap())
      ensures PayloadsKept(old(headers), old(mem), mem)
    {
      hide Tiled, Accounted, PayloadsKept, Named, Marked, Unmarked;
      var h := first;
      MarkedNamed(headers, first, last + 1, names);
      UnmarkedNone(headers, first);
      KeptRefl(base, limit, headers, mem);
      while true
        invariant h in old(headers) && first <= h <= last
        invariant headers == Unmarked(old(headers), first, h)
        invariant Tiled(base, limit, headers) && |mem| == limit && Accounted(Snap())
        invariant PayloadsKept(old(headers), old(mem), mem)
        decreases limit - h
      {
        ghost var m := mem;
        UnmarkedStep(base, limit, old(headers), first, h);
        UnpinBlock(h);
        MarkedKept(old(headers), first, h, old(mem), m, mem);
        if h == last {
          break;
        }
        h := headers[h].next;
      }
    }

    // -------------------------------------------------------------- moving one block

    /// The owner, if there is one, learns that its block is at `p`.
    method TellOwner(ref: UpdateRef, p: Addr)
      modifies this`refs, this`told
      ensures refs == if ref.Ref? then old(refs)[ref.owner := p] else old(refs)
      ensures old(told) <= told && (old(refs == Tell(refs0, told)) ==> refs == Tell(refs0, told))
      ensures (ref.Ref? ==> ref.owner in names) && SentTo(old(told), names) ==> SentTo(told, names)
    {
      if ref.Ref? {
        refs := refs[ref.owner := p];
        told := told + [Notice(ref.owner, p)];
        assert told[..|told| - 1] == old(told);
      }
    }

    /// Copies the payload of block `h` to the freshly allocated block `d`, tells the owner and
    /// leaves `h` free for the caller to take. `d` becomes movable.
    method MoveBlock(h: Addr, d: Addr)
      requires Tiled(base, limit, headers) && |mem| == limit
      requires h in headers && d in headers && h != d && headers[h].size <= headers[d].size && Shiftable(headers[h])
      modifies this`headers, this`mem, this`refs, this`told
      ensures LogKept()
      ensures headers == Moved(old(headers), h, d)
      ensures refs == if old(headers)[h].ref.Ref? then old(refs)[old(headers)[h].ref.owner := d + HEADER] else old(refs)
      ensures Tiled(base, limit, headers) && |mem| == limit
      ensures forall c :: c in old(headers) && c != d ==> PayloadKept(old(headers), old(mem), mem, c)
      ensures CopiedTo(old(headers), old(mem), mem, h, d)
    {
      hide Tiled, PayloadKept, CopiedTo, BlockOk, SameExcept, PayloadCopied, Tell, SentTo, Named;
      Within(base, limit, headers, h);
      Within(base, limit, headers, d);
      InOrder(base, limit, headers, h, d);
      MovedTiled(base, limit, headers, h, d);
      MovedNamed(headers, h, d, names);
      var n := headers[h].size - HEADER;
      mem := PayloadCopied(mem, h, d, n);
      ghost var m1 := mem;
      WriteHeader(h, headers[h].(oldKind := Available));
      ghost var m2 := mem;
      TellOwner(headers[h].ref, d + HEADER);
      WriteHeader(d, headers[d].(kind := Movable, ref := headers[h].ref));
      MoveKeeps(base, limit, old(headers), old(mem), m1, m2, mem, h, d);
    }

    // -------------------------------------------------------------- heap_alloc

    /// Moves block `h` of the pinned run to the block `d` that the nested allocation returned. `s` is
    /// the heap before that allocation, which relocated blocks according to `g`.
    method Rehome(first: Addr, last: Addr, h: Addr, d: Addr, ghost v0: Snapshot, ghost s: Snapshot,
                  ghost f: map<Addr, Addr>, ghost g: map<Addr, Addr>)
      returns (ghost moved: map<Addr, Addr>)
      requires Evacuating(v0, s, f, first, last) && Nested(s, Snap(), g, first, last, d)
      requires h in s.hs && InRun(first, last, h) && s.hs[h].oldKind == Movable
      requires s.hs[h].size <= headers[d].size
      modifies this`headers, this`mem, this`refs, this`told
      ensures LogKept()
      ensures Evacuating(v0, Snap(), moved, first, last) && RunAfterRound(s.hs, headers, first, last, h)
    {
      ghost var s' := Snap();
      FreshOutside(s, s', g, first, last, d);
      assert RunBlockKept(s.hs, s'.hs, h);
      MoveBlock(h, d);
      MovedBytes(s', h, d);
      EvacuatingStep(v0, s, s', Snap(), f, g, first, last, h, d);
      RoundPinned(s, s', Snap(), g, first, last, h, d);
      moved := Then(f, RoundMap(s, g, first, last, h, d));
    }

    /// Undoes the pins after a nested allocation failed; blocks already moved stay where they are. `s` is
    /// the heap before that allocation, which relocated blocks according to `g`.
    method GiveUp(first: Addr, last: Addr, ghost v0: Snapshot, ghost s: Snapshot, ghost f: map<Addr, Addr>, ghost g: map<Addr, Addr>)
      returns (ghost moved: map<Addr, Addr>)
      requires Evacuating(v0, s, f, first, last) && Attempted(s, Snap(), g, first, last) && Live(headers) == g.Values
      modifies this`headers, this`mem, this`used
      ensures WF(Snap()) && Relocated(v0, Snap(), moved) && Live(headers) == moved.Values && NamesKept()
      ensures |Movables(headers)| == |Movables(v0.hs)|
    {
      hide Relocated, Accounted, MovablesOwned, Tiled, PayloadsKept, Named;
      EvacuatingFail(v0, s, Snap(), f, g, first, last);
      moved := Then(f, FailMap(s, g, first, last));
      ghost var s' := Snap();
      RestoreRun(first, last);
      EvacuatingUndone(v0, s', Snap(), moved, first, last);
    }

    /// Finds a new home for block `h` of the pinned run by a nested allocation. If nothing
    /// else can be moved, that succeeds exactly when there is a free home.
    method EvacuateBlock(first: Addr, last: Addr, h: Addr, ghost v0: Snapshot, ghost f: map<Addr, Addr>)
      returns (r: Evacuation, ghost moved: map<Addr, Addr>)
      requires Evacuating(v0, Snap(), f, first, last)
      requires h in headers && InRun(first, last, h) && headers[h].oldKind == Movable
      modifies this
      decreases |Movables(v0.hs)|, 0
      ensures WF(Snap()) && LogKept()
      ensures r.Vacant? ==> Evacuating(v0, Snap(), moved, first, last) && RunAfterRound(old(headers), headers, first, last, h)
      ensures r.NoRoom? ==>
        && Relocated(v0, Snap(), moved) && Live(headers) == moved.Values
        && |Movables(headers)| == |Movables(v0.hs)|
      ensures r.Stops? ==> StuckState(Snap())
      ensures Movables(old(headers)) == {} ==> !r.Stops? && (r.Vacant? <==> HasHome(old(headers), h))
    {
      hide Relocated, Accounted, MovablesOwned, SomeFit, RunKept, StuckState, ServedFrom, LoneDecides, Tiled, Tell, SentTo, Named, Scan, Live, RunAfterRound;
      ghost var s := Snap();
      NestedSmaller(s, first, last, h);
      var n := headers[h].size - HEADER;
      var res, g := HeapAlloc(n);
      moved := f;
      if res.Diverges? {
        return Stops, moved;
      }
      RunStays(s, Snap(), g, first, last);
      if res.Null? {
        moved := GiveUp(first, last, v0, s, f, g);
        return NoRoom, moved;
      }
      moved := Rehome(first, last, h, res.p - HEADER, v0, s, f, g);
      return Vacant, moved;
    }

    /// Finds a new home for every movable block of the pinned run. For a single movable block that
    /// succeeds exactly when it has a home.
    method EvacuateRun(first: Addr, last: Addr, ghost v0: Snapshot) returns (r: Evacuation, ghost moved: map<Addr, Addr>)
      requires Evacuating(v0, Snap(), Identity(Live(v0.hs)), first, last)
      modifies this
      decreases |Movables(v0.hs)|, 1
      ensures WF(Snap()) && LogKept()
      ensures r.Vacant? ==>
        && Evacuating(v0, Snap(), moved, first, last)
        && (forall a :: a in headers && InRun(first, last, a) ==> headers[a].oldKind == Available)
        && headers[last].size == old(headers[last].size)
      ensures r.NoRoom? ==>
        && Relocated(v0, Snap(), moved) && Live(headers) == moved.Values
        && |Movables(headers)| == |Movables(v0.hs)|
      ensures r.Stops? ==> StuckState(Snap())
      ensures LoneOutcome(old(headers), first, last, r)
    {
      hide Relocated, Accounted, MovablesOwned, Tell, SentTo, Named, HasHome, LoneSoFar, LoneOutcome, RunMovables, Movables, StuckState;
      LoneStart(headers, first, last);
      moved := Identity(Live(v0.hs));
      var h := first;
      assert InRun(first, last, last);
      while true
        invariant LogKept()
        invariant Evacuating(v0, Snap(), moved, first, last)
        invariant h in headers && InRun(first, last, h)
        invariant forall a :: a in headers && InRun(first, last, a) && a < h ==> headers[a].oldKind == Available
        invariant headers[last].size == old(headers[last].size)
        invariant LoneSoFar(old(headers), headers, first, last)
        decreases limit - h
      {
        if headers[h].oldKind == Movable {
          ghost var hs := headers;
          ghost var f := moved;
          r, moved := EvacuateBlock(first, last, h, v0, f);
          LoneRound(old(headers), hs, headers, first, last, h, r);
          if !r.Vacant? {
            return;
          }
        }
        ScanStep(Snap(), first, h);
        if h == last {
          break;
        }
        h := headers[h].next;
      }
      LoneEnd(old(headers), headers, first, last);
      r := Vacant;
    }

    /// The run becomes one immovable block.
    method MergeRun(first: Addr, last: Addr)
      requires Tiled(base, limit, headers) && |mem| == limit
      requires first in headers && last in headers && first <= last
      modifies this`headers, this`mem
      ensures headers == Merge(old(headers), first, last) && NamesKept()
      ensures Tiled(base, limit, headers) && |mem| == limit && PayloadsKept(old(headers), old(mem), mem)
    {
      RunEnds(base, limit, headers, first, last);
      MergeTiled(base, limit, headers, first, last);
      var n := headers[last].next;
      WriteHeader(first, Header(last + headers[last].size - first, Immovable, Available, NoRef, n, headers[first].prev));
      ghost var m1 := mem;
      if n != 0 {
        WriteHeader(n, headers[n].(prev := first));
      }
      MergeKeeps(base, limit, old(headers), old(mem), m1, mem, first, last);
      // the interior headers are no longer linked
      MergeWrites(base, limit, old(headers), headers, first, last);
      headers := Unlinked(headers, first, last);
    }

    /// Turns the vacated run into one immovable block and gives back what the request does not need.
    method ClaimRun(first: Addr, last: Addr, size: nat, unused: bool)
      requires Tiled(base, limit, headers) && |mem| == limit && Accounted(Snap())
      requires first in headers && last in headers && first <= last && size <= last + headers[last].size - first
      requires forall a :: a in headers && InRun(first, last, a) ==> headers[a].kind == if unused then Available else Immovable
      modifies this`headers, this`mem, this`used
      ensures Tiled(base, limit, headers) && |mem| == limit && Accounted(Snap())
      ensures Claimed(old(Snap()), Snap(), first, last) && NamesKept()
      ensures Carved(old(headers), headers, first, last, size)
    {
      ClaimBytes(Snap(), first, last);
      MergeRun(first, last);
      hide Tiled, SplitAt, Claimed, Bytes, PayloadKept, PayloadsKept, Carved;
      if unused {
        used := used + headers[first].size;
      }
      ghost var s1 := Snap();
      var ok := TrimBlock(first, size);
      ClaimedBy(old(Snap()), s1, Snap(), first, last, size, ok);
      ClaimedCarved(base, limit, old(headers), s1.hs, headers, first, last, size, ok);
    }

    /// Gives back what the request does not need of the immovable block `a`.
    method TrimBlock(a: Addr, size: nat) returns (ok: bool)
      requires Tiled(base, limit, headers) && |mem| == limit && Accounted(Snap())
      requires a in headers && headers[a].kind == Immovable
      modifies this`headers, this`mem, this`used
      ensures Tiled(base, limit, headers) && |mem| == limit && Accounted(Snap())
      ensures ok == CanSplit(old(headers)[a].size, size) && (!ok ==> headers == old(headers)) && NamesKept()
      ensures ok ==> BlockOk(base, limit, old(headers), a) && headers == SplitAt(old(headers), a, size)
      ensures a in headers && headers[a].size == if ok then size else old(headers)[a].size
      ensures forall c :: c in old(headers) && c != a ==> PayloadKept(old(headers), old(mem), mem, c)
    {
      UsedAtLeast(Snap(), a);
      hide Tiled, SplitAt, PayloadKept;
      ghost var hs := headers;
      ok := SplitHeader(a, size);
      if ok {
        SplitOthers(base, limit, hs, a, size);
        SplitBytes(base, limit, hs, a, size, Available);
        used := used - headers[a + size].size;
      }
    }

    /// Splits the last block of the run if it is available.
    method SplitEnd(last: Addr, at: nat)
      requires WF(Snap()) && last in headers
      modifies this`headers, this`mem
      ensures WF(Snap()) && last in headers && NamesKept()
      ensures Relocated(old(Snap()), Snap(), Identity(Live(old(headers))))
      ensures Identity(Live(old(headers))).Values == Live(old(headers)) == Live(headers) && Movables(headers) == Movables(old(headers))
      ensures forall a :: a in headers && a <= last ==> a in old(headers) && headers[a].kind == old(headers)[a].kind
      ensures forall a :: a in old(headers) ==> a in headers
      ensures old(headers)[last].next == 0 || old(headers)[last].next in old(headers)
      ensures headers == if old(headers)[last].kind == Available && CanSplit(old(headers)[last].size, at) then SplitAt(old(headers), last, at) else old(headers)
    {
      hide Tiled, Bytes, Accounted, MovablesOwned, Relocated, Identity, Live, Movables, Named, SplitAt, PayloadKept, BlockOk;
      ghost var s0 := Snap();
      Unchanged(s0);
      ScanStep(s0, last, last);
      if headers[last].kind == Available {
        var ok := SplitHeader(last, at);
        if ok {
          SplitAvailable(s0, Snap(), last, at);
          SplitOthers(base, limit, s0.hs, last, at);
        }
      }
    }

    /// The part of heap_alloc after the search: evacuate the run if need be, then claim it.
    method TakeRun(first: Addr, last: Addr, size: nat, busy: bool) returns (r: Alloc, ghost moved: map<Addr, Addr>)
      requires WF(Snap()) && IsRun(headers, first, last) && size <= last + headers[last].size - first
      requires busy ==> Movables(headers) != {}
      requires !busy ==> forall a :: a in headers && InRun(first, last, a) ==> headers[a].kind == Available
      modifies this
      decreases |Movables(headers)|, 2
      ensures WF(Snap()) && LogKept()
      ensures !r.Diverges? ==> Relocated(old(Snap()), Snap(), moved) && |Movables(headers)| == |Movables(old(headers))|
      ensures r.Null? ==> Live(headers) == moved.Values
      ensures r.Pointer? ==> Served(headers, r.p, size) && Live(headers) == moved.Values + {r.p - HEADER} && r.p - HEADER !in moved.Values
      ensures r.Pointer? ==> r.p == first + HEADER && first in headers && headers[first].size == Part(last + old(headers)[last].size - first, size)
      ensures r.Pointer? && !busy ==> Carved(old(headers), headers, first, last, size)
      ensures r.Diverges? ==> Movables(old(headers)) != {} && StuckState(Snap())
      ensures !busy ==> r.Pointer?
      ensures LoneTaken(old(headers), first, last, busy, r)
    {
      hide Relocated, Accounted, MovablesOwned, Tiled, HasHome, Lone, StuckState, Tell, SentTo, Named, Live, Movables, Then, Identity, Bytes, Carved, Part;
      ghost var v0 := Snap();
      ghost var v := v0;
      moved := Identity(Live(headers));
      if busy {
        MarkRun(first, last);
        EvacuatingStart(v0, Snap(), first, last);
        forall m | Movables(v0.hs) == {m} && InRun(first, last, m) ensures Lone(headers, first, last, m) {
          LoneMarked(v0.hs, first, last, m);
        }
        var ev;
        ev, moved := EvacuateRun(first, last, v0);
        if ev.Stops? {
          return Diverges, moved;
        }
        if ev.NoRoom? {
          return Null, moved;
        }
        v := View(Snap(), first, last);
        ViewTiled(Snap(), first, last);
      } else {
        Unchanged(v0);
      }
      ghost var s := Snap();
      assert Vacated(s, v, first, last);
      ClaimRun(first, last, size, !busy);
      CarvedServes(s.hs, headers, first, last, size);
      ClaimedRelocated(s, v, Snap(), first, last);
      ClaimedLive(s, v, Snap(), first, last);
      RelocatedThen(v0, v, Snap(), moved, Identity(Live(v.hs)));
      r := Pointer(first + HEADER);
      moved := Then(moved, Identity(Live(v.hs)));
    }

    /// Splits the last block of the run where the request ends.
    method CutEnd(first: Addr, last: Addr, size: nat)
      requires WF(Snap()) && IsRun(headers, first, last)
      requires last - first <= size <= last + headers[last].size - first
      modifies this`headers, this`mem
      ensures WF(Snap()) && IsRun(headers, first, last) && size <= last + headers[last].size - first && NamesKept()
      ensures Relocated(old(Snap()), Snap(), Identity(Live(old(headers))))
      ensures Identity(Live(old(headers))).Values == Live(headers) && Movables(headers) == Movables(old(headers))
      ensures forall a :: a in headers && InRun(first, last, a) ==> a in old(headers) && headers[a].kind == old(headers)[a].kind
      ensures Cut(old(headers), headers, first, last, size)
      ensures old(headers)[last].next == 0 || last < old(headers)[last].next
    {
      hide Tiled, Bytes, Accounted, MovablesOwned, Relocated, Identity, Live, Movables, Named, Cut, SplitAt;
      RunEnds(base, limit, headers, first, last);
      ScanStep(Snap(), last, last);
      ghost var hs := headers;
      var at := size - (last - first);
      if at >= headers[last].size {
        at := 0;
      }
      SplitEnd(last, at);
      SplitCuts(base, limit, hs, headers, first, last, size, at);
      CutFits(hs, headers, first, last, size);
    }

    /// The part of heap_alloc once a run is found.
    method ServeFrom(first: Addr, last: Addr, size: nat, toMove: nat) returns (r: Alloc, ghost moved: map<Addr, Addr>)
      requires WF(Snap()) && IsRun(headers, first, last)
      requires last - first <= size <= last + headers[last].size - first
      requires toMove == Bytes(headers, Movable, first, last + headers[last].size)
      modifies this
      decreases |Movables(headers)|, 3
      ensures WF(Snap()) && LogKept()
      ensures !r.Diverges? ==> Relocated(old(Snap()), Snap(), moved) && |Movables(headers)| == |Movables(old(headers))|
      ensures r.Null? ==> Live(headers) == moved.Values
      ensures r.Pointer? ==> Served(headers, r.p, size) && Live(headers) == moved.Values + {r.p - HEADER} && r.p - HEADER !in moved.Values
      ensures r.Pointer? ==>
        && var total := last + old(headers)[last].size - first;
        && r.p == first + HEADER && first in headers && headers[first].size == (if HEADER < size && size + HEADER < total then size else total)
        && (toMove == 0 ==> Carved(old(headers), headers, first, last, size))
      ensures r.Diverges? ==> Movables(old(headers)) != {} && StuckState(Snap())
      ensures toMove == 0 ==> r.Pointer?
      ensures LoneFrom(old(headers), first, last, size, toMove, r)
    {
      hide StuckState, Relocated, Served, Bytes, Tiled, Accounted, MovablesOwned, LoneTaken, LoneFrom, Cut, Carved, Tell, SentTo, Named, Identity, Live, Movables;
      ghost var s0 := Snap();
      RunKinds(s0, first, last);
      LoneInRun(s0, first, last);
      CutEnd(first, last, size);
      ghost var v0 := Snap();
      ghost var f := Identity(Live(s0.hs));
      r, moved := TakeRun(first, last, size, toMove > 0);
      LoneLifted(s0.hs, v0.hs, first, last, size, toMove, r);
      CutFits(s0.hs, v0.hs, first, last, size);
      if r.Pointer? && toMove == 0 {
        CutCarved(s0.hs, v0.hs, headers, first, last, size);
      }
      if !r.Diverges? {
        RelocatedThen(s0, v0, Snap(), f, moved);
        moved := Then(f, moved);
      }
    }

    /// The part of heap_alloc after the comparison with free memory.
    method SearchAndServe(size: nat) returns (r: Alloc, ghost moved: map<Addr, Addr>)
      requires WF(Snap()) && size <= limit - base - used
      modifies this
      decreases |Movables(headers)|, 4
      ensures WF(Snap()) && LogKept()
      ensures !r.Diverges? ==> Relocated(old(Snap()), Snap(), moved) && |Movables(headers)| == |Movables(old(headers))|
      ensures r.Null? ==> Live(headers) == moved.Values
      ensures r.Pointer? ==> Served(headers, r.p, size) && Live(headers) == moved.Values + {r.p - HEADER} && r.p - HEADER !in moved.Values
      ensures r.Diverges? ==> Movables(old(headers)) != {} && StuckState(Snap())
      ensures base in old(headers) && (r.Pointer? ==> ServedFrom(old(Snap()), headers, r.p, size))
      ensures Scan(old(Snap()), size, base, base).Stuck? ==> r.Diverges?
      ensures Scan(old(Snap()), size, base, base).Exhausted? ==> r.Null?
      ensures Movables(old(headers)) == {} ==> (r.Pointer? <==> SomeFit(old(headers), size))
      ensures LoneDecides(old(Snap()), size, r)
    {
      hide Relocated, Accounted, MovablesOwned, Served, SomeFit, Tiled, Bytes, Identity, Scan, LoneDecides, StuckState;
      hide Outcome, FoundRun, Nothing, NoneOversized, Oversized, Movables, LoneFrom, ServedFrom, Concluded;
      moved := Identity(Live(headers));
      Unchanged(Snap());
      ghost var s := Snap();
      var search := FindRun(size);
      OutcomeDecides(s, size, search);
      match search {
        case Exhausted =>
          r := Null;
        case Stuck(at) =>
          r := Diverges;
        case Found(first, last, toMove) =>
          r, moved := ServeFrom(first, last, size, toMove);
          ServedFound(s, headers, size, r);
      }
      ConcludedBy(s, size, search, r);
      LoneConcluded(s, size, r);
    }

    method HeapAlloc(actual: nat) returns (r: Alloc, ghost moved: map<Addr, Addr>)
      requires WF(Snap()) && actual < WORD
      modifies this
      decreases |Movables(headers)|, 5
      ensures WF(Snap()) && LogKept()
      ensures !r.Diverges? ==> Relocated(old(Snap()), Snap(), moved) && |Movables(headers)| == |Movables(old(headers))|
      ensures r.Null? ==> Live(headers) == moved.Values
      ensures r.Pointer? ==>
        && Served(headers, r.p, RoundSize(actual))
        && Live(headers) == moved.Values + {r.p - HEADER} && r.p - HEADER !in moved.Values
      ensures r.Diverges? ==> Movables(old(headers)) != {} && StuckState(Snap())
      ensures base in old(headers) && (r.Pointer? ==> ServedFrom(old(Snap()), headers, r.p, RoundSize(actual)))
      ensures RoundSize(actual) <= Free(old(Snap())) && Scan(old(Snap()), RoundSize(actual), base, base).Stuck? ==> r.Diverges?
      ensures Scan(old(Snap()), RoundSize(actual), base, base).Exhausted? ==> r.Null?
      ensures Movables(old(headers)) == {} ==> (r.Pointer? <==> SomeFit(old(headers), RoundSize(actual)))
      ensures LoneDecides(old(Snap()), RoundSize(actual), r)
    {
      hide Relocated, Accounted, MovablesOwned, Served, SomeFit, Tiled, RoundSize, Identity, Scan, LoneDecides, StuckState, ServedFrom, Movables;
      var size := RoundSize(actual);
      Unchanged(Snap());
      if size > limit - base - used {
        if Movables(headers) == {} && SomeFit(headers, size) {
          FitIsFree(Snap(), size);
        }
        LoneRefused(Snap(), size);
        return Null, Identity(Live(headers));
      }
      r, moved := SearchAndServe(size);
    }

    // -------------------------------------------------------------- the other operations

    /// A heap between operations: well-formed, and every allocation's owner knows where it is.
    ghost predicate Valid()
      reads this
    {
      WF(Snap()) && AllOwned(Snap())
    }

    /// `p` is the pointer of a live allocation.
    ghost predicate Allocated(p: Addr)
      reads this
    {
      HEADER <= p && p - HEADER in headers && headers[p - HEADER].kind != Available
    }

    /// One contiguous available block.
    constructor (start: Addr, end: Addr)
      requires 4 <= start && start + HEADER <= end <= WORD
      ensures Valid() && base == start && limit == end && used == 0 && Live(headers) == {}
      ensures headers == map[start := Header(end - start, Available, Available, NoRef, 0, 0)]
    {
      base, limit := start, end;
      headers := map[start := Header(end - start, Available, Available, NoRef, 0, 0)];
      mem := seq(end, i => 0);
      refs := map[];
      used := 0;
      refs0, told, names := map[], [], {};
      new;
      assert BlockOk(base, limit, headers, base);
      BytesStep(base, limit, headers, Available, base, base);
      assert Bytes(headers, Available, base, base) == 0;
    }

    /// heap_alloc as the rest of the kernel calls it. The block has room for the request exactly
    /// when rounding the size did not wrap around.
    method Allocate(actual: nat) returns (r: Alloc, ghost moved: map<Addr, Addr>)
      requires Valid() && actual < WORD
      modifies this
      ensures refs == Tell(old(refs), told) && SentTo(told, Owners(old(headers)))
      ensures !r.Diverges? ==> Valid() && Relocated(old(Snap()), Snap(), moved)
      ensures r.Null? ==> Live(headers) == moved.Values
      ensures r.Pointer? ==>
        && Served(headers, r.p, RoundSize(actual))
        && Live(headers) == moved.Values + {r.p - HEADER} && r.p - HEADER !in moved.Values
        && (actual <= headers[r.p - HEADER].size - HEADER <==> actual + HEADER + 3 < WORD)
      ensures r.Diverges? ==> StuckState(Snap())
      ensures base in old(headers) && (r.Pointer? ==> ServedFrom(old(Snap()), headers, r.p, RoundSize(actual)))
      ensures RoundSize(actual) <= Free(old(Snap())) && Scan(old(Snap()), RoundSize(actual), base, base).Stuck? ==> r.Diverges?
      ensures Scan(old(Snap()), RoundSize(actual), base, base).Exhausted? ==> r.Null?
      ensures Movables(old(headers)) == {} ==> (r.Pointer? <==> SomeFit(old(headers), RoundSize(actual)))
      ensures LoneDecides(old(Snap()), RoundSize(actual), r)
    {
      hide Relocated, Accounted, MovablesOwned, SomeFit, RoundSize, StuckState, ServedFrom, LoneDecides;
      told := [];
      refs0, names := refs, Owners(headers);
      OwnersNamed(headers);
      r, moved := HeapAlloc(actual);
      if r.Null? {
        RelocatedOwned(old(Snap()), Snap(), moved, {});
      } else if r.Pointer? {
        RelocatedOwned(old(Snap()), Snap(), moved, {r.p - HEADER});
        ServedPayload(base, limit, headers, r.p, actual);
      }
    }

    /// heap_lock: true when the block was not locked before.
    method Lock(p: Addr) returns (was: bool)
      requires Valid() && Allocated(p)
      modifies this`headers, this`mem
      ensures Valid() && PayloadsKept(old(headers), old(mem), mem)
      ensures was <==> old(headers)[p - HEADER].kind == Movable
      ensures headers == old(headers)[p - HEADER := old(headers)[p - HEADER].(kind := Immovable)]
    {
      var a := p - HEADER;
      if headers[a].kind == Movable {
        PinBytes(base, limit, headers, a);
        SetKind(a, Immovable, headers[a].oldKind);
        RekindOk(old(Snap()), Snap(), a);
        return true;
      } else {
        KeptRefl(base, limit, headers, mem);
        return false;
      }
    }

    /// heap_unlock
    method Unlock(p: Addr)
      requires Valid() && Allocated(p)
      modifies this`headers, this`mem
      ensures Valid() && PayloadsKept(old(headers), old(mem), mem)
      ensures headers == old(headers)[p - HEADER := old(headers)[p - HEADER].(kind := Movable)]
    {
      var a := p - HEADER;
      SetKind(a, Movable, headers[a].oldKind);
      RekindOk(old(Snap()), Snap(), a);
    }

    /// The list of blocks and the account of them are right, whatever the owners know.
    ghost predicate Sized()
      reads this
    {
      Tiled(base, limit, headers) && |mem| == limit && Accounted(Snap())
    }

    /// heap_set_update_absolute, heap_set_update_function and heap_set_update_capability: the owner
    /// that is told when the block moves, which points at it already.
    method SetRef(p: Addr, owner: Owner)
      requires Sized() && Allocated(p)
      modifies this`headers, this`mem, this`refs
      ensures Sized() && PayloadsKept(old(headers), old(mem), mem)
      ensures headers == old(headers)[p - HEADER := old(headers)[p - HEADER].(ref := Ref(owner))]
      ensures refs == old(refs)[owner := p]
    {
      var a := p - HEADER;
      InRange(base, limit, headers);
      WriteHeader(a, headers[a].(ref := Ref(owner)));
      refs := refs[owner := p];
      HeaderWriteKeeps(base, limit, old(headers), old(mem), mem, a);
      ReownSized(old(Snap()), Snap(), a, owner);
    }

    /// Every owner goes on knowing its block exactly when no other block names this one.
    method SetUpdateRef(p: Addr, owner: Owner)
      requires Valid() && Allocated(p)
      modifies this`headers, this`mem, this`refs
      ensures Valid() <==> forall a :: a in old(headers) && old(headers)[a].kind != Available && a + HEADER != p ==> old(headers)[a].ref != Ref(owner)
      ensures PayloadsKept(old(headers), old(mem), mem)
      ensures headers == old(headers)[p - HEADER := old(headers)[p - HEADER].(ref := Ref(owner))]
      ensures refs == old(refs)[owner := p]
    {
      hide Tiled, Accounted, Bytes;
      var a := p - HEADER;
      SetRef(p, owner);
      if forall c :: c in old(headers) && old(headers)[c].kind != Available && c != a ==> old(headers)[c].ref != Ref(owner) {
        ReownOk(old(Snap()), Snap(), a, owner);
      } else {
        var c :| c in old(headers) && old(headers)[c].kind != Available && c != a && old(headers)[c].ref == Ref(owner);
        assert !OwnerKnows(Snap(), c);
      }
    }

    /// The forward merge of heap_free: the size grows, the link is not updated, and the block after
    /// the swallowed one is dereferenced without a check. False stands for that access to NULL.
    method MergeForward(a: Addr) returns (ok: bool)
      requires Tiled(base, limit, headers) && |mem| == limit && a in headers && headers[a].next in headers && headers[a].next != 0
      modifies this`headers, this`mem
      ensures ok ==>
        && headers.Keys == old(headers).Keys && |mem| == limit
        && a + headers[a].size != headers[a].next == old(headers)[a].next
        && headers[a].prev == old(headers)[a].prev
        && forall c :: c in headers && c != a ==> headers[c].size == old(headers)[c].size && headers[c].kind == old(headers)[c].kind
    {
      Neighbours(base, limit, headers, a);
      InRange(base, limit, headers);
      var next := headers[a].next;
      Neighbours(base, limit, headers, next);
      WriteHeader(a, headers[a].(size := headers[a].size + headers[next].size));
      next := headers[next].next;
      if next == 0 {
        return false;
      }
      Neighbours(base, limit, old(headers), next);
      var after := headers[next].next;
      if after != 0 {
        WriteHeader(after, headers[after].(prev := a));
      }
      return true;
    }

    /// The backward merge of heap_free.
    method MergeBackward(a: Addr)
      requires a in headers && forall c :: c in headers ==> c + HEADER <= |mem|
      requires headers[a].next != 0 ==> headers[a].next in headers
      requires headers[a].prev != 0 ==> headers[a].prev in headers
      modifies this`headers, this`mem
      ensures headers == Backward(old(headers), a)
      ensures |mem| == |old(mem)|
      ensures Tiled(base, limit, old(headers)) && |old(mem)| == limit ==> PayloadsKept(old(headers), old(mem), mem)
    {
      var p, n := headers[a].prev, headers[a].next;
      if p != 0 && headers[p].kind == Available {
        WriteHeader(p, headers[p].(size := headers[p].size + headers[a].size, next := n));
        ghost var m := mem;
        if n != 0 {
          WriteHeader(n, headers[n].(prev := p));
        }
        // block `a` is no longer linked
        headers := map c | c in headers && c != a :: headers[c];
        if Tiled(base, limit, old(headers)) && |old(mem)| == limit {
          HeaderWriteKeeps(base, limit, old(headers), old(mem), m, p);
          if n != 0 {
            HeaderWriteKeeps(base, limit, old(headers), m, mem, n);
            PayloadsKeptThen(old(headers), old(headers), old(mem), m, mem);
          }
        }
      } else if Tiled(base, limit, old(headers)) && |old(mem)| == limit {
        KeptRefl(base, limit, headers, mem);
      }
    }

    /// heap_free. It ends with a well-formed list exactly when the block after the freed one is not
    /// available; then nothing but that block changes.
    method HeapFree(p: Addr) returns (ok: bool)
      requires Valid() && Allocated(p)
      modifies this`headers, this`mem, this`used
      ensures ok && Tiled(base, limit, headers) <==> !NextAvailable(old(headers), p - HEADER)
      ensures !NextAvailable(old(headers), p - HEADER) ==>
        && Valid() && OnlyReleased(old(Snap()), Snap(), p - HEADER) && Returned(old(headers), headers, p - HEADER)
        && used == old(used) - old(headers)[p - HEADER].size
    {
      var a := p - HEADER;
      Neighbours(base, limit, headers, a);
      EmptiedOk(Snap(), a);
      SetKind(a, Available, Available);
      used := used - headers[a].size;
      ghost var s1 := Snap();
      InRange(base, limit, headers);
      var next := headers[a].next;
      if next != 0 && headers[next].kind == Available {
        ok := MergeForward(a);
        if ok {
          ForwardBreaks(base, limit, headers, a);
          MergeBackward(a);
        }
      } else {
        BackwardAbsorbs(base, limit, headers, a);
        BackwardReturns(base, limit, old(headers), a);
        MergeBackward(a);
        ReleasedOnly(old(Snap()), s1, Snap(), a);
        ReleasedOwned(old(Snap()), Snap(), a);
        ok := true;
      }
    }
  }

  /// The stuck state, reached by calls: after 126 bytes were allocated and unlocked, a request of ten
  /// bytes never returns, although the free block would serve it.
  method StuckRun() returns (first: Alloc, second: Alloc)
    ensures first.Pointer? && second.Diverges?
  {
    var heap := new Heap(100, 300);
    assert RoundSize(126) == 152 && RoundSize(10) == 36;
    FreshServes(heap.Snap(), 152);
    ghost var moved;
    first, moved := heap.Allocate(126);
    assert heap.headers[100].size == 152 && Live(heap.headers) == {100};
    second := UnlockAndAsk(heap, 10);
  }

  /// The only allocation lies at the start of the heap and is larger than what is left.
  method UnlockAndAsk(heap: Heap, actual: nat) returns (r: Alloc)
    requires heap.Valid() && heap.base in heap.headers && Live(heap.headers) == {heap.base} && actual < WORD
    requires RoundSize(actual) <= heap.limit - heap.base - heap.headers[heap.base].size < heap.headers[heap.base].size
    modifies heap
    ensures r.Diverges?
  {
    hide Tiled, Bytes, Relocated, LoneDecides, StuckState, RoundSize, ServedFrom, SomeFit;
    assert heap.base in Live(heap.headers);
    heap.Unlock(heap.base + HEADER);
    assert Live(heap.headers) == {heap.base};
    LoneUsed(heap.Snap(), heap.base);
    BaseStuck(heap.Snap(), RoundSize(actual));
    ghost var moved;
    r, moved := heap.Allocate(actual);
  }

  /// A fresh heap serves a request from its only block.
  lemma FreshServes(s: Snapshot, size: nat)
    requires WF(s) && s.hs.Keys == {s.base} && s.hs[s.base].kind == Available && s.used == 0
    requires s.hs[s.base].size == s.limit - s.base && size <= s.limit - s.base
    ensures s.base in s.hs && Scan(s, size, s.base, s.base) == Found(s.base, s.base, 0)
    ensures Movables(s.hs) == {} && SomeFit(s.hs, size)
  {
    BytesStep(s.base, s.limit, s.hs, Movable, s.base, s.base);
    BytesStep(s.base, s.limit, s.hs, Available, s.base, s.base);
    assert Bytes(s.hs, Movable, s.base, s.base) == Bytes(s.hs, Available, s.base, s.base) == 0;
    assert Fits(s.hs, s.base, s.base, size);
  }

  /// With one allocation, `used_memory` is its size.
  lemma LoneUsed(s: Snapshot, a: Addr)
    requires WF(s) && Live(s.hs) == {a} && a == s.base
    ensures s.used == s.hs[a].size
  {
    assert a in Live(s.hs);
    InRange(s.base, s.limit, s.hs);
    UsedIsLiveBytes(s);
    forall b | b in s.hs && b != a ensures s.hs[b].kind == Available {
      assert b !in Live(s.hs);
    }
    BytesSingle(s.hs, Immovable, a, s.limit);
    BytesSingle(s.hs, Movable, a, s.limit);
  }
}

/**
One round of evacuating a pinned run: a nested allocation relocates blocks elsewhere and returns a
fresh block `d`, and then block `h` of the run moves there. Seen with the pins undone, the heap
carries on every allocation across the round.
*/
module HeapEvacuation {
  import opened Basics
  import opened HeapBlocks

  /// The blocks of the run are pinned and remember a kind other than immovable.
  ghost predicate Pinned(hs: Headers, first: Addr, last: Addr) {
    && first in hs && last in hs && first <= last
    && forall a :: a in hs && InRun(first, last, a) ==> hs[a].kind == Immovable && hs[a].oldKind != Immovable
  }

  /// The heap as it is when the pins are undone.
  ghost function View(s: Snapshot, first: Addr, last: Addr): Snapshot {
    s.(hs := Unmarked(s.hs, first, last + 1))
  }

  ghost predicate RunBlockKept(hs: Headers, hs': Headers, a: Addr) {
    && (a in hs <==> a in hs')
    && (a in hs ==> hs'[a].size == hs[a].size && hs'[a].kind == hs[a].kind && hs'[a].oldKind == hs[a].oldKind && hs'[a].ref == hs[a].ref)
  }

  ghost predicate RunKept(hs: Headers, hs': Headers, first: Addr, last: Addr) {
    forall a {:trigger InRun(first, last, a)} :: InRun(first, last, a) ==> RunBlockKept(hs, hs', a)
  }

  /// Some block covers each byte.
  lemma {:induction false} Covering(base: Addr, limit: Addr, hs: Headers, x: Addr, from: Addr) returns (a: Addr)
    requires Tiled(base, limit, hs) && from in hs && from <= x < limit
    ensures a in hs && a <= x < a + hs[a].size
    decreases limit - from
  {
    Neighbours(base, limit, hs, from);
    if x < from + hs[from].size {
      a := from;
    } else {
      a := Covering(base, limit, hs, x, hs[from].next);
    }
  }

  /// A nested allocation leaves the pinned run as it was, and no header appears inside it.
  lemma RunStays(s: Snapshot, s': Snapshot, g: map<Addr, Addr>, first: Addr, last: Addr)
    requires Tiled(s.base, s.limit, s.hs) && Tiled(s'.base, s'.limit, s'.hs)
    requires Pinned(s.hs, first, last) && Relocated(s, s', g)
    ensures RunKept(s.hs, s'.hs, first, last)
  {
    forall b | InRun(first, last, b) ensures RunBlockKept(s.hs, s'.hs, b) {
      if b in s.hs {
        RunBlockStays(s, s', g, first, last, b);
      } else if b in s'.hs {
        NoNewBlock(s, s', g, first, last, b);
      }
    }
  }

  lemma RunBlockStays(s: Snapshot, s': Snapshot, g: map<Addr, Addr>, first: Addr, last: Addr, a: Addr)
    requires Pinned(s.hs, first, last) && Relocated(s, s', g)
    requires a in s.hs && InRun(first, last, a)
    ensures RunBlockKept(s.hs, s'.hs, a) && a in g && g[a] == a
    ensures Payload(s, a) == Payload(s', a)
  {
    assert a in Live(s.hs);
    assert Carried(s, s', a, g[a]);
  }

  lemma NoNewBlock(s: Snapshot, s': Snapshot, g: map<Addr, Addr>, first: Addr, last: Addr, b: Addr)
    requires Tiled(s.base, s.limit, s.hs) && Tiled(s'.base, s'.limit, s'.hs)
    requires Pinned(s.hs, first, last) && Relocated(s, s', g)
    requires b in s'.hs && InRun(first, last, b)
    ensures b in s.hs
  {
    assert BlockOk(s'.base, s'.limit, s'.hs, b);
    var a := Covering(s.base, s.limit, s.hs, b, first);
    InOrder(s.base, s.limit, s.hs, a, first);
    assert InRun(first, last, a);
    RunBlockStays(s, s', g, first, last, a);
    InOrder(s'.base, s'.limit, s'.hs, a, b);
  }

  // ---------------------------------------------------------------- one round

  /// A nested allocation, successful or not, turned `s` into `s'`.
  ghost predicate Attempted(s: Snapshot, s': Snapshot, g: map<Addr, Addr>, first: Addr, last: Addr) {
    && WF(s) && WF(s')
    && Pinned(s.hs, first, last) && MovablesOwned(View(s, first, last))
    && Relocated(s, s', g) && RunKept(s.hs, s'.hs, first, last)
    && |Movables(s'.hs)| == |Movables(s.hs)|
  }

  /// It succeeded and returned the block `d`.
  ghost predicate Nested(s: Snapshot, s': Snapshot, g: map<Addr, Addr>, first: Addr, last: Addr, d: Addr) {
    && Attempted(s, s', g, first, last)
    && Live(s'.hs) == g.Values + {d} && d !in g.Values
    && d in s'.hs && s'.hs[d].kind == Immovable
  }

  /// Block `h` of the run then moved to `d`.
  ghost predicate MovedTo(s: Snapshot, s': Snapshot, s2: Snapshot, h: Addr, d: Addr) {
    && h in s.hs && s.hs[h].oldKind == Movable
    && h in s'.hs && d in s'.hs && h != d
    && s2.base == s'.base && s2.limit == s'.limit && |s2.mem| == |s'.mem| && s2.used == s'.used
    && s2.hs == Moved(s'.hs, h, d)
    && s2.refs == (if s'.hs[h].ref.Ref? then s'.refs[s'.hs[h].ref.owner := d + HEADER] else s'.refs)
    && (forall c {:trigger PayloadKept(s'.hs, s'.mem, s2.mem, c)} :: c in s'.hs && c != d ==> PayloadKept(s'.hs, s'.mem, s2.mem, c))
    && CopiedTo(s'.hs, s'.mem, s2.mem, h, d)
  }

  ghost function RoundMap(s: Snapshot, g: map<Addr, Addr>, first: Addr, last: Addr, h: Addr, d: Addr): map<Addr, Addr>
    requires Live(View(s, first, last).hs) <= g.Keys
  {
    map a | a in Live(View(s, first, last).hs) :: if a == h then d else g[a]
  }

  lemma ViewLive(s: Snapshot, first: Addr, last: Addr)
    requires Pinned(s.hs, first, last)
    ensures Live(View(s, first, last).hs) <= Live(s.hs)
    ensures Movables(s.hs) <= Movables(View(s, first, last).hs)
  {
    assert forall a :: a in s.hs && first <= a < last + 1 ==> InRun(first, last, a);
  }

  /// Where a block outside the run went, that is outside the run too.
  lemma OutsideStaysOutside(s: Snapshot, s': Snapshot, g: map<Addr, Addr>, first: Addr, last: Addr, a: Addr)
    requires Attempted(s, s', g, first, last) && a in g && !InRun(first, last, a)
    ensures g[a] in s'.hs && !InRun(first, last, g[a]) && g[a] in g.Values && Carried(s, s', a, g[a])
  {
    assert Carried(s, s', a, g[a]);
    assert InRun(first, last, g[a]) ==> RunBlockKept(s.hs, s'.hs, g[a]);
    forall c | c in s.hs && InRun(first, last, c) ensures g[a] != c {
      RunBlockStays(s, s', g, first, last, c);
    }
  }

  lemma FreshOutside(s: Snapshot, s': Snapshot, g: map<Addr, Addr>, first: Addr, last: Addr, d: Addr)
    requires Nested(s, s', g, first, last, d)
    ensures !InRun(first, last, d)
  {
    assert InRun(first, last, d) ==> RunBlockKept(s.hs, s'.hs, d);
    forall c | c in s.hs && InRun(first, last, c) ensures c in g.Values {
      RunBlockStays(s, s', g, first, last, c);
    }
  }

  lemma RoundCarries(s: Snapshot, s': Snapshot, s2: Snapshot, g: map<Addr, Addr>, first: Addr, last: Addr, h: Addr, d: Addr, a: Addr)
    requires Nested(s, s', g, first, last, d) && MovedTo(s, s', s2, h, d) && InRun(first, last, h)
    requires a in Live(View(s, first, last).hs) && a in g
    ensures Carried(View(s, first, last), View(s2, first, last), a, if a == h then d else g[a])
  {
    FreshOutside(s, s', g, first, last, d);
    if InRun(first, last, a) {
      RunBlockStays(s, s', g, first, last, a);
      RoundCarriesRun(s, s', s2, first, last, h, d, a);
    } else {
      OutsideStaysOutside(s, s', g, first, last, a);
      RoundCarriesOutside(s, s', s2, first, last, h, d, a, g[a]);
    }
  }

  lemma RoundCarriesRun(s: Snapshot, s': Snapshot, s2: Snapshot, first: Addr, last: Addr, h: Addr, d: Addr, a: Addr)
    requires MovedTo(s, s', s2, h, d) && InRun(first, last, h) && !InRun(first, last, d)
    requires HasPayload(s, a) && HasPayload(s', a) && Payload(s, a) == Payload(s', a)
    requires InRun(first, last, a) && RunBlockKept(s.hs, s'.hs, a) && s.hs[a].oldKind == Movable
    ensures Carried(View(s, first, last), View(s2, first, last), a, if a == h then d else a)
  {
    hide MovedTo, Carried, RunBlockKept;
    if a == h {
      RoundCarriesMoved(s, s', s2, first, last, h, d);
    } else {
      RoundCarriesPinned(s, s', s2, first, last, h, d, a);
    }
  }

  /// The block that moved goes on at `d`.
  lemma RoundCarriesMoved(s: Snapshot, s': Snapshot, s2: Snapshot, first: Addr, last: Addr, h: Addr, d: Addr)
    requires MovedTo(s, s', s2, h, d) && InRun(first, last, h) && !InRun(first, last, d)
    requires HasPayload(s, h) && HasPayload(s', h) && Payload(s, h) == Payload(s', h)
    requires RunBlockKept(s.hs, s'.hs, h) && s.hs[h].oldKind == Movable
    ensures Carried(View(s, first, last), View(s2, first, last), h, d)
  {
  }

  /// The other blocks of the run stay.
  lemma RoundCarriesPinned(s: Snapshot, s': Snapshot, s2: Snapshot, first: Addr, last: Addr, h: Addr, d: Addr, a: Addr)
    requires MovedTo(s, s', s2, h, d) && InRun(first, last, h) && !InRun(first, last, d) && a != h
    requires HasPayload(s, a) && HasPayload(s', a) && Payload(s, a) == Payload(s', a)
    requires InRun(first, last, a) && RunBlockKept(s.hs, s'.hs, a) && s.hs[a].oldKind == Movable
    ensures Carried(View(s, first, last), View(s2, first, last), a, a)
  {
    assert PayloadKept(s'.hs, s'.mem, s2.mem, a);
  }

  lemma RoundCarriesOutside(s: Snapshot, s': Snapshot, s2: Snapshot, first: Addr, last: Addr, h: Addr, d: Addr, a: Addr, b: Addr)
    requires MovedTo(s, s', s2, h, d) && InRun(first, last, h) && Carried(s, s', a, b)
    requires !InRun(first, last, a) && !InRun(first, last, b) && b != d
    ensures Carried(View(s, first, last), View(s2, first, last), a, b)
  {
    assert PayloadKept(s'.hs, s'.mem, s2.mem, b);
  }

  lemma RoundLive(s: Snapshot, s': Snapshot, s2: Snapshot, g: map<Addr, Addr>, first: Addr, last: Addr, h: Addr, d: Addr, c: Addr)
    requires Nested(s, s', g, first, last, d) && MovedTo(s, s', s2, h, d) && InRun(first, last, h)
    requires Live(View(s, first, last).hs) <= g.Keys
    requires c in Live(View(s2, first, last).hs)
    ensures c in RoundMap(s, g, first, last, h, d).Values
  {
    var f := RoundMap(s, g, first, last, h, d);
    if InRun(first, last, c) {
      assert RunBlockKept(s.hs, s'.hs, c);
      RunBlockStays(s, s', g, first, last, c);
      assert f[c] == c;
    } else if c == d {
      assert InRun(first, last, h) && f[h] == d;
    } else {
      assert c in Live(s'.hs);
      var a := Origin(s, s', g, first, last, c);
      assert f[a] == c;
    }
  }

  /// A live block outside the run comes from a live block outside the run.
  lemma Origin(s: Snapshot, s': Snapshot, g: map<Addr, Addr>, first: Addr, last: Addr, c: Addr) returns (a: Addr)
    requires Attempted(s, s', g, first, last) && c in g.Values && !InRun(first, last, c)
    ensures a in g && g[a] == c && !InRun(first, last, a) && a in Live(View(s, first, last).hs)
  {
    a :| a in g && g[a] == c;
    if InRun(first, last, a) {
      RunBlockStays(s, s', g, first, last, a);
    }
  }

  lemma RoundRefs(s: Snapshot, s': Snapshot, s2: Snapshot, g: map<Addr, Addr>, first: Addr, last: Addr, h: Addr, d: Addr)
    requires Nested(s, s', g, first, last, d) && MovedTo(s, s', s2, h, d) && InRun(first, last, h)
    ensures RefsKept(View(s, first, last), View(s2, first, last))
  {
    var v := View(s, first, last);
    ViewLive(s, first, last);
    assert RunBlockKept(s.hs, s'.hs, h);
    assert v.hs[h].kind == Movable && OwnerKnows(v, h);
    forall o | o in v.refs && Unowned(v, o) ensures s2.refs[o] == v.refs[o] {
      UnownedSub(v, s, o);
      assert s'.refs[o] == s.refs[o];
      assert v.hs[h].ref != Ref(o);
    }
  }

  lemma UnownedSub(v: Snapshot, s: Snapshot, o: Owner)
    requires Unowned(v, o)
    requires forall a :: a in s.hs && s.hs[a].kind == Movable ==> a in v.hs && v.hs[a].kind == Movable && v.hs[a].ref == s.hs[a].ref
    ensures Unowned(s, o)
  {
  }

  /// No movable block of `s'` shares its owner with a block of the run that is still to move.
  lemma RunOwnersApart(s: Snapshot, s': Snapshot, g: map<Addr, Addr>, first: Addr, last: Addr, d: Addr, b: Addr, c: Addr)
    requires Nested(s, s', g, first, last, d)
    requires b in s.hs && InRun(first, last, b) && s.hs[b].oldKind == Movable && s.hs[b].ref.Ref?
    requires c in s'.hs && s'.hs[c].kind == Movable
    ensures s'.hs[c].ref != s.hs[b].ref
  {
    var v := View(s, first, last);
    assert c in Live(s'.hs);
    var a :| a in g && g[a] == c;
    assert Carried(s, s', a, c);
    assert v.hs[b].kind == Movable && OwnerKnows(v, b);
    if InRun(first, last, a) {
      RunBlockStays(s, s', g, first, last, a);
    } else {
      assert v.hs[a].kind == Movable && OwnerKnows(v, a);
    }
  }

  /// The owner of a block still to move was not told anything.
  lemma RunOwnerKept(s: Snapshot, s': Snapshot, g: map<Addr, Addr>, first: Addr, last: Addr, b: Addr)
    requires Attempted(s, s', g, first, last)
    requires b in s.hs && InRun(first, last, b) && s.hs[b].oldKind == Movable && s.hs[b].ref.Ref?
    ensures s.hs[b].ref.owner in s'.refs && s'.refs[s.hs[b].ref.owner] == b + HEADER
  {
    var v := View(s, first, last);
    var o := s.hs[b].ref.owner;
    assert v.hs[b].kind == Movable && OwnerKnows(v, b);
    forall a | a in s.hs && s.hs[a].kind == Movable ensures s.hs[a].ref != Ref(o) {
      assert !InRun(first, last, a);
      assert v.hs[a].kind == Movable && OwnerKnows(v, a);
    }
    assert Unowned(s, o);
  }

  lemma RoundOwned(s: Snapshot, s': Snapshot, s2: Snapshot, g: map<Addr, Addr>, first: Addr, last: Addr, h: Addr, d: Addr)
    requires Nested(s, s', g, first, last, d) && MovedTo(s, s', s2, h, d) && InRun(first, last, h)
    ensures MovablesOwned(View(s2, first, last)) && MovablesOwned(s2)
  {
    var v2 := View(s2, first, last);
    FreshOutside(s, s', g, first, last, d);
    assert RunBlockKept(s.hs, s'.hs, h);
    forall c | c in v2.hs && v2.hs[c].kind == Movable ensures OwnerKnows(v2, c) {
      if InRun(first, last, c) {
        assert RunBlockKept(s.hs, s'.hs, c);
        RoundOwnedInRun(s, s', s2, g, first, last, h, d, c);
      } else if c != d && s'.hs[c].ref.Ref? {
        assert OwnerKnows(s', c);
        if s.hs[h].ref.Ref? {
          RunOwnersApart(s, s', g, first, last, d, h, c);
        }
      }
    }
    RoundPinned(s, s', s2, g, first, last, h, d);
    forall c | c in s2.hs && s2.hs[c].kind == Movable ensures OwnerKnows(s2, c) {
      assert !InRun(first, last, c);
      assert OwnerKnows(v2, c);
    }
  }

  lemma RoundOwnedInRun(s: Snapshot, s': Snapshot, s2: Snapshot, g: map<Addr, Addr>, first: Addr, last: Addr, h: Addr, d: Addr, c: Addr)
    requires Nested(s, s', g, first, last, d) && MovedTo(s, s', s2, h, d) && InRun(first, last, h)
    requires c in s.hs && InRun(first, last, c) && c != h && s.hs[c].oldKind == Movable && RunBlockKept(s.hs, s'.hs, c)
    ensures s.hs[c].ref.Ref? ==> s.hs[c].ref.owner in s2.refs && s2.refs[s.hs[c].ref.owner] == c + HEADER
  {
    var v := View(s, first, last);
    if s.hs[c].ref.Ref? {
      RunOwnerKept(s, s', g, first, last, c);
      assert RunBlockKept(s.hs, s'.hs, h);
      assert v.hs[c].kind == Movable && OwnerKnows(v, c);
      assert v.hs[h].kind == Movable && OwnerKnows(v, h);
    }
  }

  ghost function RunMovables(hs: Headers, first: Addr, last: Addr): set<Addr> {
    set a | a in hs && InRun(first, last, a) && hs[a].oldKind == Movable
  }

  lemma ViewMovables(s: Snapshot, first: Addr, last: Addr)
    requires Pinned(s.hs, first, last)
    ensures |Movables(View(s, first, last).hs)| == |Movables(s.hs)| + |RunMovables(s.hs, first, last)|
  {
    var m, r := Movables(s.hs), RunMovables(s.hs, first, last);
    forall a | a in m ensures a !in r {
    }
    assert Movables(View(s, first, last).hs) == m + r;
    assert m !! r;
  }

  /// The number of movable blocks, pins undone, is the same after the round.
  lemma RoundCount(s: Snapshot, s': Snapshot, s2: Snapshot, g: map<Addr, Addr>, first: Addr, last: Addr, h: Addr, d: Addr)
    requires Nested(s, s', g, first, last, d) && MovedTo(s, s', s2, h, d) && InRun(first, last, h)
    requires Pinned(s2.hs, first, last)
    ensures |Movables(View(s2, first, last).hs)| == |Movables(View(s, first, last).hs)|
  {
    FreshOutside(s, s', g, first, last, d);
    ViewMovables(s, first, last);
    ViewMovables(s2, first, last);
    assert RunBlockKept(s.hs, s'.hs, h);
    MovedMovables(s'.hs, h, d);
    RoundRunMovables(s, s', s2, first, last, h, d);
  }

  lemma MovedMovables(hs: Headers, h: Addr, d: Addr)
    requires h in hs && d in hs && h != d && hs[d].kind == Immovable
    ensures |Movables(Moved(hs, h, d))| == |Movables(hs)| + 1
  {
    assert Movables(Moved(hs, h, d)) == Movables(hs) + {d};
  }

  lemma RoundRunMovables(s: Snapshot, s': Snapshot, s2: Snapshot, first: Addr, last: Addr, h: Addr, d: Addr)
    requires MovedTo(s, s', s2, h, d) && InRun(first, last, h) && !InRun(first, last, d)
    requires RunKept(s.hs, s'.hs, first, last)
    ensures |RunMovables(s2.hs, first, last)| == |RunMovables(s.hs, first, last)| - 1
  {
    forall a | InRun(first, last, a) ensures RunBlockKept(s.hs, s'.hs, a) {
    }
    assert RunMovables(s2.hs, first, last) == RunMovables(s.hs, first, last) - {h};
  }

  /// The run keeps its blocks; the block that moved counts as free.
  ghost predicate RunAfterRound(hs: Headers, hs2: Headers, first: Addr, last: Addr, h: Addr) {
    && h in hs2 && hs2[h].oldKind == Available
    && forall a {:trigger InRun(first, last, a)} :: InRun(first, last, a) ==>
         && (a in hs2 <==> a in hs)
         && (a in hs ==> hs2[a].size == hs[a].size && (a != h ==> hs2[a].oldKind == hs[a].oldKind))
  }

  lemma RoundPinned(s: Snapshot, s': Snapshot, s2: Snapshot, g: map<Addr, Addr>, first: Addr, last: Addr, h: Addr, d: Addr)
    requires Nested(s, s', g, first, last, d) && MovedTo(s, s', s2, h, d) && InRun(first, last, h)
    ensures Pinned(s2.hs, first, last)
    ensures RunAfterRound(s.hs, s2.hs, first, last, h)
  {
    FreshOutside(s, s', g, first, last, d);
    assert InRun(first, last, first) && InRun(first, last, last);
    forall a | InRun(first, last, a) ensures RunBlockKept(s.hs, s'.hs, a) {
    }
  }

  /// The whole round.
  lemma RoundRelocated(s: Snapshot, s': Snapshot, s2: Snapshot, g: map<Addr, Addr>, first: Addr, last: Addr, h: Addr, d: Addr)
    requires Nested(s, s', g, first, last, d) && MovedTo(s, s', s2, h, d) && InRun(first, last, h)
    ensures Live(View(s, first, last).hs) <= g.Keys
    ensures Relocated(View(s, first, last), View(s2, first, last), RoundMap(s, g, first, last, h, d))
    ensures Live(View(s2, first, last).hs) == RoundMap(s, g, first, last, h, d).Values
  {
    ViewLive(s, first, last);
    var v, v2, f := View(s, first, last), View(s2, first, last), RoundMap(s, g, first, last, h, d);
    forall a | a in f ensures Carried(v, v2, a, f[a]) {
      RoundCarries(s, s', s2, g, first, last, h, d, a);
    }
    assert CarriedAll(v, v2, f);
    forall c | c in Live(v2.hs) ensures c in f.Values {
      RoundLive(s, s', s2, g, first, last, h, d, c);
    }
    RoundRefs(s, s', s2, g, first, last, h, d);
    assert Injective(f);
  }

  // ---------------------------------------------------------------- a failed round

  ghost function FailMap(s: Snapshot, g: map<Addr, Addr>, first: Addr, last: Addr): map<Addr, Addr>
    requires Live(View(s, first, last).hs) <= g.Keys
  {
    map a | a in Live(View(s, first, last).hs) :: g[a]
  }

  lemma FailCarries(s: Snapshot, s': Snapshot, g: map<Addr, Addr>, first: Addr, last: Addr, a: Addr)
    requires Attempted(s, s', g, first, last) && a in Live(View(s, first, last).hs) && a in g
    ensures Carried(View(s, first, last), View(s', first, last), a, g[a])
  {
    if InRun(first, last, a) {
      RunBlockStays(s, s', g, first, last, a);
    } else {
      OutsideStaysOutside(s, s', g, first, last, a);
    }
    assert Carried(s, s', a, g[a]);
    hide Attempted, WF, Relocated, RunKept;
    ViewCarries(s, s', first, last, a, g[a]);
  }

  /// A block that was carried on is carried on when the pins are undone on both sides.
  lemma ViewCarries(s: Snapshot, s': Snapshot, first: Addr, last: Addr, a: Addr, b: Addr)
    requires Carried(s, s', a, b) && (InRun(first, last, a) <==> InRun(first, last, b))
    requires InRun(first, last, a) ==> a == b && RunBlockKept(s.hs, s'.hs, a) && s.hs[a].oldKind == Movable
    ensures Carried(View(s, first, last), View(s', first, last), a, b)
  {
  }

  lemma FailLive(s: Snapshot, s': Snapshot, g: map<Addr, Addr>, first: Addr, last: Addr, c: Addr)
    requires Attempted(s, s', g, first, last) && Live(s'.hs) == g.Values
    requires Live(View(s, first, last).hs) <= g.Keys
    requires c in Live(View(s', first, last).hs)
    ensures c in FailMap(s, g, first, last).Values
  {
    var f := FailMap(s, g, first, last);
    if InRun(first, last, c) {
      assert RunBlockKept(s.hs, s'.hs, c);
      RunBlockStays(s, s', g, first, last, c);
      assert f[c] == c;
    } else {
      assert c in Live(s'.hs);
      var a := Origin(s, s', g, first, last, c);
      assert f[a] == c;
    }
  }

  lemma FailRefs(s: Snapshot, s': Snapshot, g: map<Addr, Addr>, first: Addr, last: Addr)
    requires Attempted(s, s', g, first, last)
    ensures RefsKept(View(s, first, last), View(s', first, last))
  {
    var v := View(s, first, last);
    ViewLive(s, first, last);
    forall o | o in v.refs && Unowned(v, o) ensures s'.refs[o] == v.refs[o] {
      UnownedSub(v, s, o);
      assert s'.refs[o] == s.refs[o];
    }
  }

  lemma FailOwned(s: Snapshot, s': Snapshot, g: map<Addr, Addr>, first: Addr, last: Addr)
    requires Attempted(s, s', g, first, last)
    ensures MovablesOwned(View(s', first, last))
  {
    var v := View(s', first, last);
    forall c | c in v.hs && v.hs[c].kind == Movable ensures OwnerKnows(v, c) {
      if InRun(first, last, c) {
        assert RunBlockKept(s.hs, s'.hs, c);
        if s.hs[c].ref.Ref? {
          RunOwnerKept(s, s', g, first, last, c);
        }
      } else {
        assert OwnerKnows(s', c);
      }
    }
  }

  lemma FailCount(s: Snapshot, s': Snapshot, g: map<Addr, Addr>, first: Addr, last: Addr)
    requires Attempted(s, s', g, first, last)
    ensures Pinned(s'.hs, first, last)
    ensures |Movables(View(s', first, last).hs)| == |Movables(View(s, first, last).hs)|
  {
    assert InRun(first, last, first) && InRun(first, last, last);
    forall a | InRun(first, last, a) ensures RunBlockKept(s.hs, s'.hs, a) {
    }
    ViewMovables(s, first, last);
    ViewMovables(s', first, last);
    assert RunMovables(s'.hs, first, last) == RunMovables(s.hs, first, last);
  }

  lemma FailRelocated(s: Snapshot, s': Snapshot, g: map<Addr, Addr>, first: Addr, last: Addr)
    requires Attempted(s, s', g, first, last) && Live(s'.hs) == g.Values
    ensures Live(View(s, first, last).hs) <= g.Keys
    ensures Relocated(View(s, first, last), View(s', first, last), FailMap(s, g, first, last))
    ensures Live(View(s', first, last).hs) == FailMap(s, g, first, last).Values
  {
    ViewLive(s, first, last);
    var v, v', f := View(s, first, last), View(s', first, last), FailMap(s, g, first, last);
    forall a | a in f ensures Carried(v, v', a, f[a]) {
      FailCarries(s, s', g, first, last, a);
    }
    assert CarriedAll(v, v', f);
    forall c | c in Live(v'.hs) ensures c in f.Values {
      FailLive(s, s', g, first, last, c);
    }
    FailRefs(s, s', g, first, last);
    assert Injective(f);
  }

  // ---------------------------------------------------------------- all rounds

  /// What holds between rounds: `v0` is the heap before the run was pinned.
  ghost predicate Evacuating(v0: Snapshot, s: Snapshot, f: map<Addr, Addr>, first: Addr, last: Addr) {
    && WF(s)
    && Pinned(s.hs, first, last) && MovablesOwned(View(s, first, last))
    && Relocated(v0, View(s, first, last), f) && Live(View(s, first, last).hs) == f.Values
    && |Movables(View(s, first, last).hs)| == |Movables(v0.hs)|
  }

  lemma EvacuatingStart(v0: Snapshot, s: Snapshot, first: Addr, last: Addr)
    requires WF(v0) && IsRun(v0.hs, first, last)
    requires Tiled(s.base, s.limit, s.hs) && |s.mem| == s.limit && Accounted(s)
    requires s.hs == Marked(v0.hs, first, last + 1) && PayloadsKept(v0.hs, v0.mem, s.mem)
    requires s.base == v0.base && s.limit == v0.limit && s.refs == v0.refs
    ensures Evacuating(v0, s, Identity(Live(v0.hs)), first, last)
  {
    hide Tiled, Relocated, Accounted, Marked;
    var v := View(s, first, last);
    ViewOfMarked(v0, s, first, last);
    MarkedOwned(v0, s, first, last + 1);
    forall a | a in Live(v0.hs) ensures HasPayload(v0, a) && Payload(v0, a) == Payload(v, a) {
      assert PayloadKept(v0.hs, v0.mem, s.mem, a);
    }
    RelocatedIdentity(v0, v);
    forall a | a in v.hs && v.hs[a].kind == Movable ensures OwnerKnows(v, a) {
      assert OwnerKnows(v0, a);
    }
  }

  ghost predicate SameBlock(h: Header, h': Header) {
    h'.kind == h.kind && h'.size == h.size && h'.ref == h.ref && (h.kind == Immovable ==> h'.oldKind == h.oldKind)
  }

  lemma ViewOfMarked(v0: Snapshot, s: Snapshot, first: Addr, last: Addr)
    requires IsRun(v0.hs, first, last) && s.hs == Marked(v0.hs, first, last + 1)
    ensures Pinned(s.hs, first, last)
    ensures var v := View(s, first, last); v.hs.Keys == v0.hs.Keys && forall a :: a in v0.hs ==> SameBlock(v0.hs[a], v.hs[a])
    ensures Movables(View(s, first, last).hs) == Movables(v0.hs)
    ensures Live(View(s, first, last).hs) == Live(v0.hs)
  {
    var v := View(s, first, last);
    forall a | a in v0.hs ensures SameBlock(v0.hs[a], v.hs[a]) {
    }
  }

  lemma EvacuatingStep(v0: Snapshot, s: Snapshot, s': Snapshot, s2: Snapshot, f: map<Addr, Addr>, g: map<Addr, Addr>,
                       first: Addr, last: Addr, h: Addr, d: Addr)
    requires Evacuating(v0, s, f, first, last)
    requires Nested(s, s', g, first, last, d) && MovedTo(s, s', s2, h, d) && InRun(first, last, h)
    requires Tiled(s2.base, s2.limit, s2.hs) && |s2.mem| == s2.limit && Accounted(s2)
    ensures Live(View(s, first, last).hs) <= g.Keys
    ensures Evacuating(v0, s2, Then(f, RoundMap(s, g, first, last, h, d)), first, last)
  {
    RoundPinned(s, s', s2, g, first, last, h, d);
    RoundRelocated(s, s', s2, g, first, last, h, d);
    RelocatedThen(v0, View(s, first, last), View(s2, first, last), f, RoundMap(s, g, first, last, h, d));
    RoundOwned(s, s', s2, g, first, last, h, d);
    RoundCount(s, s', s2, g, first, last, h, d);
  }

  lemma EvacuatingFail(v0: Snapshot, s: Snapshot, s': Snapshot, f: map<Addr, Addr>, g: map<Addr, Addr>, first: Addr, last: Addr)
    requires Evacuating(v0, s, f, first, last)
    requires Attempted(s, s', g, first, last) && Live(s'.hs) == g.Values
    ensures Live(View(s, first, last).hs) <= g.Keys
    ensures Evacuating(v0, s', Then(f, FailMap(s, g, first, last)), first, last)
  {
    FailRelocated(s, s', g, first, last);
    RelocatedThen(v0, View(s, first, last), View(s', first, last), f, FailMap(s, g, first, last));
    FailOwned(s, s', g, first, last);
    FailCount(s, s', g, first, last);
  }

  /// Undoing the pins ends the evacuation with nothing lost.
  lemma EvacuatingUndone(v0: Snapshot, s: Snapshot, s2: Snapshot, f: map<Addr, Addr>, first: Addr, last: Addr)
    requires Evacuating(v0, s, f, first, last)
    requires s2.hs == Unmarked(s.hs, first, last + 1) && PayloadsKept(s.hs, s.mem, s2.mem)
    requires s2.base == s.base && s2.limit == s.limit && s2.refs == s.refs && |s2.mem| == |s.mem|
    ensures Relocated(v0, s2, f) && Live(s2.hs) == f.Values && MovablesOwned(s2)
    ensures |Movables(s2.hs)| == |Movables(v0.hs)|
  {
    var v := View(s, first, last);
    forall a | a in f ensures Carried(v0, s2, a, f[a]) {
      assert Carried(v0, v, a, f[a]);
      UndoneCarries(v0, s, s2, first, last, a, f[a]);
    }
    assert CarriedAll(v0, s2, f);
    forall o | o in v0.refs && Unowned(v0, o) ensures s2.refs[o] == v0.refs[o] {
      assert v.refs[o] == v0.refs[o];
    }
    forall a | a in s2.hs && s2.hs[a].kind == Movable ensures OwnerKnows(s2, a) {
      assert OwnerKnows(v, a);
    }
  }

  lemma UndoneCarries(v0: Snapshot, s: Snapshot, s2: Snapshot, first: Addr, last: Addr, a: Addr, b: Addr)
    requires Carried(v0, View(s, first, last), a, b)
    requires s2.hs == Unmarked(s.hs, first, last + 1) && PayloadsKept(s.hs, s.mem, s2.mem) && |s2.mem| == |s.mem|
    ensures Carried(v0, s2, a, b)
  {
    assert PayloadKept(s.hs, s.mem, s2.mem, b);
  }

  /// The nested allocation starts with fewer movable blocks than there were before the run was pinned.
  lemma NestedSmaller(s: Snapshot, first: Addr, last: Addr, h: Addr)
    requires WF(s) && Pinned(s.hs, first, last)
    requires h in s.hs && InRun(first, last, h) && s.hs[h].oldKind == Movable
    ensures |Movables(s.hs)| < |Movables(View(s, first, last).hs)|
    ensures HEADER <= s.hs[h].size && s.hs[h].size + 3 < WORD
  {
    ViewMovables(s, first, last);
    assert h in RunMovables(s.hs, first, last);
    assert BlockOk(s.base, s.limit, s.hs, h);
  }

  lemma MovedBytes(s: Snapshot, h: Addr, d: Addr)
    requires Tiled(s.base, s.limit, s.hs) && h in s.hs && d in s.hs && h != d
    requires s.hs[d].kind == Immovable
    ensures Bytes(Moved(s.hs, h, d), Available, s.base, s.limit) == Bytes(s.hs, Available, s.base, s.limit)
  {
    var hs' := Moved(s.hs, h, d);
    forall a | s.base <= a < s.limit ensures SameWeight(s.hs, hs', Available, a) {
    }
    BytesSame(s.hs, hs', Available, s.base, s.limit);
  }

  lemma ViewTiled(s: Snapshot, first: Addr, last: Addr)
    requires Tiled(s.base, s.limit, s.hs)
    ensures Tiled(s.base, s.limit, View(s, first, last).hs)
  {
    TiledSame(s.base, s.limit, s.hs, View(s, first, last).hs);
  }
}

/**
The trees of capability nodes (core/kernel/capabilities.c). A slot of a node is found by the indices that
lead to it from the root capability of its thread, packed into one number with the first index in
the lowest bits.
*/
module CapabilityTree {
  import opened Basics
  import opened SlotLists
  import opened WordBits

  /// A node with 2^bits slots, or anything else a slot can hold.
  datatype Kind = Node(res: Res, bits: nat) | Leaf

  /// What the occupied slots hold; an empty slot is absent.
  type Shape = map<Slot, Kind>

  predicate IsNode(sh: Shape, s: Slot) { s in sh && sh[s].Node? }

  function Bits(sh: Shape, s: Slot): nat
    requires IsNode(sh, s)
  {
    sh[s].bits
  }

  /// The thread of a slot, its packed address, and the number of bits that lead to it.
  datatype Place = Place(thread: nat, pack: nat, depth: nat)

  type Places = map<Slot, Place>

  /// The place of slot `i` in a node of `bits` bits that is at `p`.
  function Inside(p: Place, i: nat, bits: nat): Place { Place(p.thread, p.pack + Shift(i, p.depth), p.depth + bits) }

  /// The node in slot `h` has a slot `s`.
  ghost predicate Contains(sh: Shape, h: Slot, s: Slot) {
    s.In? && IsNode(sh, h) && sh[h].res == s.node && s.index < Pow2(Bits(sh, h))
  }

  /// Slot `s`, occupied or not, is a slot of some node that is in the tree of a thread, at place `p`.
  ghost predicate Spot(sh: Shape, pl: Places, s: Slot, p: Place) {
    exists h :: Contains(sh, h, s) && h in pl && p == Inside(pl[h], s.index, Bits(sh, h))
  }

  ghost predicate PlaceOk(sh: Shape, pl: Places, s: Slot) {
    && s in sh && s in pl
    && (if s.Root? then IsNode(sh, s) && pl[s] == Place(s.thread, 0, 0) else Spot(sh, pl, s, pl[s]))
  }

  /// Every occupied slot is a root, which holds a node, or lies in a node that one occupied slot holds.
  ghost predicate Rooted(sh: Shape, pl: Places) {
    && pl.Keys == sh.Keys
    && (forall s {:trigger PlaceOk(sh, pl, s)} :: s in sh ==> PlaceOk(sh, pl, s))
    && OneHolder(sh) && (forall h :: IsNode(sh, h) ==> 1 <= Bits(sh, h))
  }

  ghost predicate OneHolder(sh: Shape) {
    forall h, g {:trigger IsNode(sh, h), IsNode(sh, g)} :: IsNode(sh, h) && IsNode(sh, g) && sh[h].res == sh[g].res ==> h == g
  }

  /// The slot that holds the node of `s`.
  lemma Holder(sh: Shape, pl: Places, s: Slot) returns (h: Slot)
    requires Rooted(sh, pl) && s in sh && s.In?
    ensures Contains(sh, h, s) && h in sh && h in pl && pl[s] == Inside(pl[h], s.index, Bits(sh, h))
    ensures 1 <= Bits(sh, h) && pl[h].depth < pl[s].depth
  {
    assert PlaceOk(sh, pl, s);
    h :| Contains(sh, h, s) && h in pl && pl[s] == Inside(pl[h], s.index, Bits(sh, h));
  }

  lemma RootPlace(sh: Shape, pl: Places, s: Slot)
    requires Rooted(sh, pl) && s in sh && s.Root?
    ensures s in pl && pl[s] == Place(s.thread, 0, 0) && IsNode(sh, s)
  {
    assert PlaceOk(sh, pl, s);
  }

  lemma {:induction false} PackBound(sh: Shape, pl: Places, s: Slot)
    requires Rooted(sh, pl) && s in sh
    ensures pl[s].pack < Pow2(pl[s].depth) && (pl[s].depth == 0 <==> s.Root?)
    decreases pl[s].depth
  {
    if s.In? {
      var h := Holder(sh, pl, s);
      PackBound(sh, pl, h);
      PackedBound(pl[h].pack, pl[h].depth, s.index, Bits(sh, h));
    } else {
      RootPlace(sh, pl, s);
    }
  }

  // ---------------------------------------------------------------- the way down

  /// The address of `p` begins with that of `q`.
  predicate Under(p: Place, q: Place) { p.thread == q.thread && q.depth <= p.depth && Low(p.pack, q.depth) == q.pack }

  /// The slot of the node in `h` on the way to packed address `a`.
  function Next(sh: Shape, h: Slot, depth: nat, a: nat): Slot
    requires IsNode(sh, h)
  {
    In(sh[h].res, Low(High(a, depth), Bits(sh, h)))
  }

  lemma UnderSelf(sh: Shape, pl: Places, s: Slot)
    requires Rooted(sh, pl) && s in sh
    ensures Under(pl[s], pl[s])
  {
    PackBound(sh, pl, s);
    LowSmall(pl[s].pack, pl[s].depth);
  }

  /// The low bits of a slot's packed address are that of its node, and the next are its index.
  lemma InsideBits(p: Place, i: nat, bits: nat)
    requires p.pack < Pow2(p.depth) && i < Pow2(bits)
    ensures var q := Inside(p, i, bits);
      && Low(q.pack, p.depth) == p.pack && High(q.pack, p.depth) == i && Low(High(q.pack, p.depth), bits) == i
      && q.pack < Pow2(q.depth) && Low(q.pack, q.depth) == q.pack
  {
    LowHighPack(p.pack, p.depth, i);
    LowSmall(i, bits);
    PackedBound(p.pack, p.depth, i, bits);
    LowSmall(p.pack + Shift(i, p.depth), p.depth + bits);
  }

  /// Going down from `h` towards `g`: the next slot is occupied and on the way, or `g` is reached.
  lemma {:induction false} WayDown(sh: Shape, pl: Places, h: Slot, g: Slot)
    requires Rooted(sh, pl) && h in sh && g in sh && Under(pl[g], pl[h])
    ensures h != g ==>
      && pl[h].depth < pl[g].depth && IsNode(sh, h)
      && var c := Next(sh, h, pl[h].depth, pl[g].pack);
      && c in sh && pl[c] == Inside(pl[h], c.index, Bits(sh, h)) && Under(pl[g], pl[c]) && (c == g || pl[c].depth < pl[g].depth)
    decreases pl[h].depth + pl[g].depth
  {
    hide PlaceOk, OneHolder, Low, High, Shift;
    PackBound(sh, pl, h);
    PackBound(sh, pl, g);
    if g.Root? {
      RootPlace(sh, pl, g);
      RootPlace(sh, pl, h);
    } else {
      var g' := Holder(sh, pl, g);
      PackBound(sh, pl, g');
      InsideBits(pl[g'], g.index, Bits(sh, g'));
      if pl[h].depth <= pl[g'].depth {
        WayDownThrough(sh, pl, h, g, g');
      } else {
        LowLow(pl[g].pack, pl[g'].depth, pl[h].depth);
        WayDown(sh, pl, g', h);
        assert Next(sh, g', pl[g'].depth, pl[h].pack) == h;
        assert pl[h].pack == pl[g].pack && h.index == g.index;
      }
    }
  }

  /// The node of `g` is on the way.
  lemma WayDownThrough(sh: Shape, pl: Places, h: Slot, g: Slot, g': Slot)
    requires Rooted(sh, pl) && h in sh && g in sh && Under(pl[g], pl[h]) && Contains(sh, g', g) && g' in sh && pl[g'].depth < pl[g].depth
    requires pl[g] == Inside(pl[g'], g.index, Bits(sh, g')) && pl[h].depth <= pl[g'].depth
    requires Low(pl[g].pack, pl[g'].depth) == pl[g'].pack && Low(High(pl[g].pack, pl[g'].depth), Bits(sh, g')) == g.index
    requires Under(pl[g], pl[g])
    ensures IsNode(sh, h) && pl[h].depth < pl[g].depth
    ensures var c := Next(sh, h, pl[h].depth, pl[g].pack);
      && c in sh && pl[c] == Inside(pl[h], c.index, Bits(sh, h)) && Under(pl[g], pl[c]) && (c == g || pl[c].depth < pl[g].depth)
    decreases pl[h].depth + pl[g].depth, 0
  {
    hide PlaceOk, OneHolder, Low, High, Shift;
    LowLow(pl[g].pack, pl[h].depth, pl[g'].depth);
    WayDown(sh, pl, h, g');
    if h != g' {
      var c := Next(sh, h, pl[h].depth, pl[g'].pack);
      LowLow(pl[g].pack, pl[c].depth, pl[g'].depth);
      SameIndex(pl[g].pack, pl[g'].depth, pl[h].depth, Bits(sh, h));
    }
  }

  /// The next bits of a number do not depend on the ones above them.
  lemma SameIndex(a: nat, n: nat, d: nat, b: nat)
    requires d + b <= n
    ensures Low(High(Low(a, n), d), b) == Low(High(a, d), b)
  {
    hide Low, High, Shift;
    LowSplit(a, d, b);
    LowSplit(Low(a, n), d, b);
    LowLow(a, d + b, n);
    LowLow(a, d, n);
    var x, y := Low(High(Low(a, n), d), b), Low(High(a, d), b);
    LowBound(a, d);
    LowHighPack(Low(a, d), d, x);
    LowHighPack(Low(a, d), d, y);
  }

  /// No two slots are at one place.
  lemma OnePlace(sh: Shape, pl: Places, g: Slot, h: Slot)
    requires Rooted(sh, pl) && g in sh && h in sh && pl[g] == pl[h]
    ensures g == h
  {
    UnderSelf(sh, pl, g);
    WayDown(sh, pl, h, g);
  }

  /// Two nodes whose slots go on to the same depth of the same packed address are one.
  lemma OneNode(sh: Shape, pl: Places, g: Slot, h: Slot, t: nat, a: nat)
    requires Rooted(sh, pl) && IsNode(sh, g) && IsNode(sh, h) && pl[g].depth + Bits(sh, g) == pl[h].depth + Bits(sh, h)
    requires pl[g] == Place(t, Low(a, pl[g].depth), pl[g].depth) && pl[h] == Place(t, Low(a, pl[h].depth), pl[h].depth)
    ensures g == h
  {
    hide PlaceOk, OneHolder, Low, High, Shift;
    if pl[g].depth <= pl[h].depth {
      LowLow(a, pl[g].depth, pl[h].depth);
      WayDown(sh, pl, g, h);
    } else {
      LowLow(a, pl[h].depth, pl[g].depth);
      WayDown(sh, pl, h, g);
    }
  }

  /// Nor are two slots of which some are empty.
  lemma OneSpot(sh: Shape, pl: Places, x: Slot, y: Slot, p: Place)
    requires Rooted(sh, pl) && Spot(sh, pl, x, p) && Spot(sh, pl, y, p)
    ensures x == y
  {
    var g :| Contains(sh, g, x) && g in pl && p == Inside(pl[g], x.index, Bits(sh, g));
    var h :| Contains(sh, h, y) && h in pl && p == Inside(pl[h], y.index, Bits(sh, h));
    hide PlaceOk, OneHolder, Low, High, Shift;
    PackBound(sh, pl, g);
    PackBound(sh, pl, h);
    InsideBits(pl[g], x.index, Bits(sh, g));
    InsideBits(pl[h], y.index, Bits(sh, h));
    OneNode(sh, pl, g, h, p.thread, p.pack);
  }

  // ---------------------------------------------------------------- what look-up finds

  /// Look-up at the node in `h`, on the way to address `a`.
  ghost predicate OnWay(sh: Shape, pl: Places, h: Slot, t: nat, a: nat) {
    IsNode(sh, h) && h in pl && pl[h] == Place(t, Low(a, pl[h].depth), pl[h].depth)
  }

  /// The next slot, and the node in it.
  lemma WayStep(sh: Shape, pl: Places, h: Slot, t: nat, a: nat)
    requires Rooted(sh, pl) && OnWay(sh, pl, h, t, a)
    ensures var c, d := Next(sh, h, pl[h].depth, a), pl[h].depth + Bits(sh, h);
      && Contains(sh, h, c) && Spot(sh, pl, c, Place(t, Low(a, d), d))
      && (c in sh ==> pl[c] == Place(t, Low(a, d), d)) && (IsNode(sh, c) ==> OnWay(sh, pl, c, t, a))
  {
    hide OneHolder, Low, High, Shift;
    var c := Next(sh, h, pl[h].depth, a);
    LowBound(High(a, pl[h].depth), Bits(sh, h));
    LowSplit(a, pl[h].depth, Bits(sh, h));
    assert Contains(sh, h, c);
    if c in sh {
      var g := Holder(sh, pl, c);
      SameHolder(sh, g, h);
    }
  }

  lemma SameHolder(sh: Shape, g: Slot, h: Slot)
    requires OneHolder(sh) && IsNode(sh, g) && IsNode(sh, h) && sh[g].res == sh[h].res
    ensures g == h
  {
  }

  /// Look-up gives up at `h`: the bits that are left do not make an index, or the next slot holds no node.
  lemma NothingThere(sh: Shape, pl: Places, h: Slot, t: nat, a: nat, d: nat, x: Slot)
    requires Rooted(sh, pl) && OnWay(sh, pl, h, t, a) && pl[h].depth < d
    requires d < pl[h].depth + Bits(sh, h) || (pl[h].depth + Bits(sh, h) < d && !IsNode(sh, Next(sh, h, pl[h].depth, a)))
    ensures !Spot(sh, pl, x, Place(t, Low(a, d), d))
  {
    if g :| Contains(sh, g, x) && g in pl && Place(t, Low(a, d), d) == Inside(pl[g], x.index, Bits(sh, g)) {
      hide PlaceOk, OneHolder, Low, High, Shift;
      PackBound(sh, pl, g);
      InsideBits(pl[g], x.index, Bits(sh, g));
      LowLow(a, pl[g].depth, d);
      if pl[h].depth <= pl[g].depth {
        LowLow(a, pl[h].depth, pl[g].depth);
        WayDown(sh, pl, h, g);
        if h != g {
          SameIndex(a, pl[g].depth, pl[h].depth, Bits(sh, h));
          WayDown(sh, pl, Next(sh, h, pl[h].depth, a), g);
        }
      } else {
        LowLow(a, pl[g].depth, pl[h].depth);
        WayDown(sh, pl, g, h);
      }
    }
  }

  /// The first slot on the way that holds no node is the only occupied one on the way that holds none.
  lemma FirstLeaf(sh: Shape, pl: Places, h: Slot, t: nat, a: nat, s: Slot)
    requires Rooted(sh, pl) && OnWay(sh, pl, h, t, a) && !IsNode(sh, Next(sh, h, pl[h].depth, a))
    requires s in sh && !IsNode(sh, s) && pl[s] == Place(t, Low(a, pl[s].depth), pl[s].depth)
    ensures s == Next(sh, h, pl[h].depth, a)
  {
    hide PlaceOk, OneHolder, Low, High, Shift;
    if pl[h].depth <= pl[s].depth {
      LowLow(a, pl[h].depth, pl[s].depth);
      WayDown(sh, pl, h, s);
      SameIndex(a, pl[s].depth, pl[h].depth, Bits(sh, h));
      if s != Next(sh, h, pl[h].depth, a) {
        WayDown(sh, pl, Next(sh, h, pl[h].depth, a), s);
      }
    } else {
      LowLow(a, pl[s].depth, pl[h].depth);
      WayDown(sh, pl, s, h);
    }
  }

  /// The address `w` leads to slot `s`. The root is named by the empty address, which is not looked up.
  ghost predicate Addressed(sh: Shape, pl: Places, s: Slot, w: Where) {
    && s in sh && s in pl && w.thread == pl[s].thread && IsWord(w.address)
    && (if s.Root? then w.address == 0 && w.depth == Some(0)
        else
          && Low(w.address, pl[s].depth) == pl[s].pack
          && (w.depth == Some(pl[s].depth) || (w.depth == None && !IsNode(sh, s))))
  }

  /// The packed address of a place, cut off at the word, leads there exactly when it fits a word, as it does
  /// whenever its depth is at most the width of a word.
  lemma WordLeads(sh: Shape, pl: Places, s: Slot)
    requires Rooted(sh, pl) && s in sh
    ensures Addressed(sh, pl, s, Where(pl[s].thread, Word(pl[s].pack), Some(pl[s].depth))) <==> IsWord(pl[s].pack)
    ensures pl[s].depth <= WORD_BITS ==> IsWord(pl[s].pack)
  {
    hide PlaceOk, OneHolder, Low, Shift;
    var a, d := pl[s].pack, pl[s].depth;
    PackBound(sh, pl, s);
    LowBound(a, WORD_BITS);
    LowLess(a, WORD_BITS);
    LowLess(Word(a), d);
    PowPositive(WORD_BITS);
    if d <= WORD_BITS {
      PowGrows(d, WORD_BITS);
    }
    if IsWord(a) {
      LowSmall(a, WORD_BITS);
      LowSmall(a, d);
      if s.Root? {
        RootPlace(sh, pl, s);
      }
    }
  }

  // ---------------------------------------------------------------- growing, shrinking and moving

  /// Every place and every node accounts for itself.
  lemma RootedBy(sh: Shape, pl: Places)
    requires pl.Keys == sh.Keys && (forall s :: s in sh ==> PlaceOk(sh, pl, s)) && OneHolder(sh)
    requires forall h :: h in sh && sh[h].Node? ==> 1 <= sh[h].bits
    ensures Rooted(sh, pl)
  {
    forall h | IsNode(sh, h) ensures 1 <= Bits(sh, h) {
      assert h in sh;
    }
  }

  lemma NodeBits(sh: Shape, pl: Places, h: Slot)
    requires Rooted(sh, pl) && IsNode(sh, h)
    ensures 1 <= sh[h].bits && h in pl
  {
    assert 1 <= Bits(sh, h);
  }

  lemma OneHolderGrown(sh: Shape, d: Slot, kind: Kind)
    requires OneHolder(sh) && d !in sh && (kind.Node? ==> forall g :: IsNode(sh, g) ==> sh[g].res != kind.res)
    ensures OneHolder(sh[d := kind])
  {
    var sh' := sh[d := kind];
    forall h, g | IsNode(sh', h) && IsNode(sh', g) && sh'[h].res == sh'[g].res ensures h == g {
      assert h != d ==> IsNode(sh, h);
      assert g != d ==> IsNode(sh, g);
    }
  }

  /// A free slot of a node is occupied.
  lemma Grown(sh: Shape, pl: Places, h: Slot, i: nat, kind: Kind)
    requires Rooted(sh, pl) && IsNode(sh, h) && i < Pow2(Bits(sh, h)) && In(sh[h].res, i) !in sh
    requires kind.Node? ==> 1 <= kind.bits && forall g :: IsNode(sh, g) ==> sh[g].res != kind.res
    ensures var d := In(sh[h].res, i); Rooted(sh[d := kind], pl[d := Inside(pl[h], i, Bits(sh, h))])
  {
    hide Shift, OneHolder;
    var d := In(sh[h].res, i);
    var sh', pl' := sh[d := kind], pl[d := Inside(pl[h], i, Bits(sh, h))];
    OneHolderGrown(sh, d, kind);
    assert Contains(sh', h, d);
    forall s | s in sh' ensures PlaceOk(sh', pl', s) {
      if s != d {
        StillPlaced(sh, pl, sh', pl', s);
      }
    }
    forall g | g in sh' && sh'[g].Node? ensures 1 <= sh'[g].bits {
      if g != d {
        NodeBits(sh, pl, g);
      }
    }
    RootedBy(sh', pl');
  }

  /// A slot is where it was if nothing on its way changed.
  lemma StillPlaced(sh: Shape, pl: Places, sh': Shape, pl': Places, s: Slot)
    requires Rooted(sh, pl) && s in sh && s in sh' && sh'[s] == sh[s] && s in pl' && pl'[s] == pl[s]
    requires s.In? ==> forall h :: Contains(sh, h, s) ==> h in sh' && sh'[h] == sh[h] && h in pl' && pl'[h] == pl[h]
    ensures PlaceOk(sh', pl', s)
  {
    assert PlaceOk(sh, pl, s);
    if s.In? {
      var g := Holder(sh, pl, s);
      assert Contains(sh', g, s);
    }
  }

  /// A thread without a root gets an empty one.
  lemma Planted(sh: Shape, pl: Places, t: nat, kind: Kind)
    requires Rooted(sh, pl) && Root(t) !in sh && kind.Node? && 1 <= kind.bits && forall g :: IsNode(sh, g) ==> sh[g].res != kind.res
    ensures Rooted(sh[Root(t) := kind], pl[Root(t) := Place(t, 0, 0)])
  {
    hide OneHolder;
    var d := Root(t);
    var sh', pl' := sh[d := kind], pl[d := Place(t, 0, 0)];
    OneHolderGrown(sh, d, kind);
    forall s | s in sh' ensures PlaceOk(sh', pl', s) {
      if s != d {
        StillPlaced(sh, pl, sh', pl', s);
      }
    }
    forall g | g in sh' && sh'[g].Node? ensures 1 <= sh'[g].bits {
      if g != d {
        NodeBits(sh, pl, g);
      }
    }
    RootedBy(sh', pl');
  }

  /// Slots are emptied, and whatever lies in a node among them is too.
  lemma Shrunk(sh: Shape, pl: Places, gone: set<Slot>)
    requires Rooted(sh, pl) && forall h, s :: h in gone && s in sh && Contains(sh, h, s) ==> s in gone
    ensures Rooted(sh - gone, pl - gone)
  {
    var sh', pl' := sh - gone, pl - gone;
    forall s | s in sh' ensures PlaceOk(sh', pl', s) {
      StillPlaced(sh, pl, sh', pl', s);
    }
    forall h, g | IsNode(sh', h) && IsNode(sh', g) && sh'[h].res == sh'[g].res ensures h == g {
      assert IsNode(sh, h) && IsNode(sh, g);
    }
    forall h | h in sh' && sh'[h].Node? ensures 1 <= sh'[h].bits {
      NodeBits(sh, pl, h);
    }
    RootedBy(sh', pl');
  }

  /// A place under `from` once what is there was moved to `to`.
  function Rebased(p: Place, from: Place, to: Place): Place
    requires from.depth <= p.depth
  {
    Place(to.thread, to.pack + Shift(High(p.pack, from.depth), to.depth), to.depth + (p.depth - from.depth))
  }

  /// The places once the capability in `src` was moved to `dst`, which is at `to`: what a node holds moves with it.
  ghost function Transplant(pl: Places, src: Slot, dst: Slot, to: Place): Places
    requires src in pl
  {
    map s | s in pl.Keys - {src} + {dst} ::
      if s == dst then to else if Under(pl[s], pl[src]) then Rebased(pl[s], pl[src], to) else pl[s]
  }

  /// `dst` is a slot at `to`, and does not lie in what `src` holds.
  ghost predicate Free(sh: Shape, pl: Places, src: Slot, dst: Slot, to: Place) {
    && src in sh && src in pl && dst !in sh
    && (if dst.Root? then IsNode(sh, src) && to == Place(dst.thread, 0, 0)
        else exists h :: Contains(sh, h, dst) && h in pl && !Under(pl[h], pl[src]) && to == Inside(pl[h], dst.index, Bits(sh, h)))
  }

  lemma Transplanted(sh: Shape, pl: Places, src: Slot, dst: Slot, to: Place)
    requires Rooted(sh, pl) && Free(sh, pl, src, dst, to)
    ensures Rooted((sh - {src})[dst := sh[src]], Transplant(pl, src, dst, to))
  {
    hide Shift, Low, High, OneHolder;
    var sh', pl' := (sh - {src})[dst := sh[src]], Transplant(pl, src, dst, to);
    forall s | s in sh' ensures PlaceOk(sh', pl', s) {
      TransplantedAt(sh, pl, src, dst, to, s);
    }
    assert OneHolder(sh') by {
      OneHolderMoved(sh, src, dst);
    }
    forall h | h in sh' && sh'[h].Node? ensures 1 <= sh'[h].bits {
      NodeBits(sh, pl, if h == dst then src else h);
    }
    RootedBy(sh', pl');
  }

  lemma OneHolderMoved(sh: Shape, src: Slot, dst: Slot)
    requires OneHolder(sh) && src in sh && dst !in sh
    ensures OneHolder((sh - {src})[dst := sh[src]])
  {
    var sh' := (sh - {src})[dst := sh[src]];
    forall h, g | IsNode(sh', h) && IsNode(sh', g) && sh'[h].res == sh'[g].res ensures h == g {
      assert IsNode(sh, if h == dst then src else h) && IsNode(sh, if g == dst then src else g);
    }
  }

  lemma TransplantedAt(sh: Shape, pl: Places, src: Slot, dst: Slot, to: Place, s: Slot)
    requires Rooted(sh, pl) && Free(sh, pl, src, dst, to) && (s == dst || (s in sh && s != src))
    ensures PlaceOk((sh - {src})[dst := sh[src]], Transplant(pl, src, dst, to), s)
  {
    hide Shift, Low, High, OneHolder, Rooted, PlaceOk;
    var sh', pl' := (sh - {src})[dst := sh[src]], Transplant(pl, src, dst, to);
    assert pl.Keys == sh.Keys by {
      PlacedKeys(sh, pl);
    }
    UnderSelf(sh, pl, src);
    if s == dst {
      if s.In? {
        var h :| Contains(sh, h, dst) && h in pl && !Under(pl[h], pl[src]) && to == Inside(pl[h], dst.index, Bits(sh, h));
        assert h != src && pl'[h] == pl[h] && Contains(sh', h, s);
      }
      PlaceOkBy(sh', pl', s);
    } else if s.Root? {
      RootPlace(sh, pl, s);
      RootUnder(sh, pl, src, s);
      PlaceOkBy(sh', pl', s);
    } else {
      var g := Holder(sh, pl, s);
      HolderUnder(sh, pl, src, g, s);
      var g' := if g == src then dst else g;
      if Under(pl[s], pl[src]) {
        PackBound(sh, pl, src);
        RebasedInside(pl[g], s.index, Bits(sh, g), pl[src], to);
      }
      assert Contains(sh', g', s) && pl'[s] == Inside(pl'[g'], s.index, Bits(sh', g'));
      PlaceOkBy(sh', pl', s);
    }
  }

  lemma PlacedKeys(sh: Shape, pl: Places)
    requires Rooted(sh, pl)
    ensures pl.Keys == sh.Keys
  {
  }

  lemma PlaceOkBy(sh: Shape, pl: Places, s: Slot)
    requires s in sh && s in pl
    requires if s.Root? then IsNode(sh, s) && pl[s] == Place(s.thread, 0, 0) else Spot(sh, pl, s, pl[s])
    ensures PlaceOk(sh, pl, s)
  {
  }

  /// A root lies under itself only.
  lemma RootUnder(sh: Shape, pl: Places, src: Slot, s: Slot)
    requires Rooted(sh, pl) && src in sh && s in sh && s.Root? && s != src
    ensures !Under(pl[s], pl[src])
  {
    hide Low;
    RootPlace(sh, pl, s);
    PackBound(sh, pl, src);
    if src.Root? {
      RootPlace(sh, pl, src);
    }
  }

  /// What lies in a node under `src` lies under `src`, and the other way round.
  lemma HolderUnder(sh: Shape, pl: Places, src: Slot, g: Slot, s: Slot)
    requires Rooted(sh, pl) && src in sh && g in sh && s in sh && s != src && Contains(sh, g, s)
    requires pl[s] == Inside(pl[g], s.index, Bits(sh, g)) && pl[g].depth < pl[s].depth
    ensures Under(pl[s], pl[src]) <==> Under(pl[g], pl[src])
  {
    hide Shift, Low, High, OneHolder, PlaceOk;
    PackBound(sh, pl, g);
    InsideBits(pl[g], s.index, Bits(sh, g));
    if Under(pl[g], pl[src]) {
      LowLow(pl[s].pack, pl[src].depth, pl[g].depth);
    }
    if Under(pl[s], pl[src]) {
      if pl[src].depth <= pl[g].depth {
        LowLow(pl[s].pack, pl[src].depth, pl[g].depth);
      } else {
        LowLow(pl[s].pack, pl[g].depth, pl[src].depth);
        WayDown(sh, pl, g, src);
      }
    }
  }

  lemma RebasedInside(p: Place, i: nat, bits: nat, from: Place, to: Place)
    requires from.depth <= p.depth && from.pack < Pow2(from.depth) && Low(p.pack, from.depth) == from.pack && to.depth >= 0
    ensures Rebased(Inside(p, i, bits), from, to) == Inside(Rebased(p, from, to), i, bits)
    ensures p == from ==> Rebased(p, from, to) == to
  {
    hide Shift, Low, High;
    var d, k := from.depth, p.depth - from.depth;
    LowHigh(p.pack, d);
    LowBound(p.pack, d);
    ShiftShift(i, k, d);
    ShiftAdd(High(p.pack, d), Shift(i, k), d);
    LowHighPack(Low(p.pack, d), d, High(p.pack, d) + Shift(i, k));
    ShiftAdd(High(p.pack, d), Shift(i, k), to.depth);
    ShiftShift(i, k, to.depth);
    if p == from {
      ShiftZero(d);
      LowHighPack(from.pack, d, 0);
      ShiftZero(to.depth);
    }
  }

  // ---------------------------------------------------------------- addresses that go on

  /// The address of slot `i` of a node of `bits` bits that has the address `w`, as the kernel computes it. For a
  /// node without a depth the sum wraps around.
  function Continued(w: Where, i: nat, bits: nat): Where {
    match w.depth
    case Some(d) => Where(w.thread, Or(Word(Shift(i, d)), w.address), Some(d + bits))
    case None => Where(w.thread, w.address, Some(if bits == 0 then 0 else bits - 1))
  }

  /// The address of place `p` when the one of `from` is `w`, and the addresses of the slots between are continued.
  ghost function Onward(w: Where, from: Place, p: Place): Where
    requires w.depth.Some? && from.depth <= p.depth
  {
    Where(w.thread, Or(Word(Shift(High(p.pack, from.depth), w.depth.value)), w.address), Some(w.depth.value + (p.depth - from.depth)))
  }

  lemma OnwardSelf(w: Where, p: Place)
    requires w.depth.Some? && p.pack < Pow2(p.depth)
    ensures Onward(w, p, p) == w
  {
    ShiftZero(p.depth);
    LowHighPack(p.pack, p.depth, 0);
    ShiftZero(w.depth.value);
    PowPositive(WORD_BITS);
    LowSmall(0, WORD_BITS);
    OrZero(w.address);
  }

  /// Going down through slot `i` first makes no difference.
  lemma OnwardChild(w: Where, from: Place, i: nat, bits: nat, p: Place)
    requires w.depth.Some? && from.pack < Pow2(from.depth) && i < Pow2(bits) && Under(p, Inside(from, i, bits))
    ensures Under(p, from) && Onward(w, from, p) == Onward(Continued(w, i, bits), Inside(from, i, bits), p)
  {
    hide Shift, Low, High, Or;
    var d, c := from.depth, Inside(from, i, bits);
    InsideBits(from, i, bits);
    LowLow(p.pack, d, c.depth);
    LowHigh(p.pack, c.depth);
    var v := High(p.pack, c.depth);
    ShiftShift(v, bits, d);
    ShiftAdd(i, Shift(v, bits), d);
    LowHighPack(from.pack, d, i + Shift(v, bits));
    OrTwice(w.address, w.depth.value, i, bits, v);
  }

  /// Once a slot is found under an address without bits beyond its depth, whatever lies under it is found under the
  /// continued address exactly when its packed address fits a word.
  lemma OnwardLeads(sh: Shape, pl: Places, s: Slot, w: Where, x: Slot)
    requires Rooted(sh, pl) && x in sh && Addressed(sh, pl, s, w) && w.depth == Some(pl[s].depth) && w.address < Pow2(pl[s].depth)
    requires Under(pl[x], pl[s])
    ensures Addressed(sh, pl, x, Onward(w, pl[s], pl[x])) <==> IsWord(pl[x].pack)
    ensures pl[x].depth <= WORD_BITS ==> IsWord(pl[x].pack)
  {
    hide Shift, Low, High, Or, PlaceOk, OneHolder;
    var d := pl[s].depth;
    PackBound(sh, pl, s);
    LowSmall(w.address, d);
    if s.Root? {
      RootPlace(sh, pl, s);
    }
    LowHigh(pl[x].pack, d);
    ShiftOr(High(pl[x].pack, d), d, w.address);
    assert Onward(w, pl[s], pl[x]) == Where(pl[x].thread, Word(pl[x].pack), Some(pl[x].depth));
    WordLeads(sh, pl, x);
  }

  /// What the kernel computes for slot `i` of the node in `h`, which look-up found under `a`: an address that leads
  /// there if the bits of `a` beyond the depth are none or among those of the index, and the sum fits a word.
  lemma ContinuedLeads(sh: Shape, pl: Places, h: Slot, a: nat, i: nat)
    requires Rooted(sh, pl) && IsNode(sh, h) && IsWord(a) && Low(a, pl[h].depth) == pl[h].pack && i < Pow2(Bits(sh, h)) && In(sh[h].res, i) in sh
    ensures var d := In(sh[h].res, i); var w := Continued(Where(pl[h].thread, a, Some(pl[h].depth)), i, Bits(sh, h));
      && (Addressed(sh, pl, d, w) <==> Low(w.address, pl[d].depth) == pl[d].pack)
      && (a < Pow2(pl[h].depth) ==> (Addressed(sh, pl, d, w) <==> IsWord(pl[d].pack)))
  {
    hide Shift, Low, High, Or, PlaceOk, OneHolder;
    var d := In(sh[h].res, i);
    var g := Holder(sh, pl, d);
    SameHolder(sh, g, h);
    OrWord(i, pl[h].depth, a);
    if a < Pow2(pl[h].depth) {
      LowSmall(a, pl[h].depth);
      ShiftOr(i, pl[h].depth, a);
      WordLeads(sh, pl, d);
    }
  }

  /// Beyond the word, slots collide: indices that differ by a multiple of what is left of the word get one address.
  lemma SlotsCollide(w: Where, i: nat, k: nat, bits: nat)
    requires w.depth.Some? && w.depth.value <= WORD_BITS
    ensures Continued(w, i + Shift(k, WORD_BITS - w.depth.value), bits) == Continued(w, i, bits)
  {
    hide Shift, Low, High, Or;
    WordPeriodic(0, w.depth.value, i, k);
  }

  /// When a node moves to another slot of a tree, whatever lies in it is no longer found under the address that
  /// led to it before.
  lemma LeftBehind(sh: Shape, pl: Places, src: Slot, dst: Slot, to: Place, x: Slot, w: Where)
    requires Rooted(sh, pl) && Free(sh, pl, src, dst, to) && dst.In? && x in sh && x != src && Under(pl[x], pl[src])
    requires Addressed(sh, pl, x, w)
    ensures !Addressed((sh - {src})[dst := sh[src]], Transplant(pl, src, dst, to), x, w)
  {
    hide Shift, Low, High, OneHolder, PlaceOk;
    var pl' := Transplant(pl, src, dst, to);
    UnderSelf(sh, pl, src);
    if x.In? && Low(w.address, pl'[x].depth) == pl'[x].pack && w.thread == pl'[x].thread {
      var h :| Contains(sh, h, dst) && h in pl && !Under(pl[h], pl[src]) && to == Inside(pl[h], dst.index, Bits(sh, h));
      PackBound(sh, pl, h);
      InsideBits(pl[h], dst.index, Bits(sh, h));
      LowLow(w.address, pl[src].depth, pl[x].depth);
      LowHighPack(to.pack, to.depth, High(pl[x].pack, pl[src].depth));
      LowLow(w.address, to.depth, pl'[x].depth);
      LowLow(w.address, pl[h].depth, to.depth);
      NotThere(sh, pl, src, h, dst, w.address);
    } else if x.Root? {
      RootUnder(sh, pl, src, x);
    }
  }

  /// A free slot is not on the way to an occupied one.
  lemma NotThere(sh: Shape, pl: Places, src: Slot, h: Slot, dst: Slot, a: nat)
    requires Rooted(sh, pl) && src in sh && Contains(sh, h, dst) && h in pl && dst !in sh && pl[h].thread == pl[src].thread
    requires Low(a, pl[src].depth) == pl[src].pack && Low(a, pl[h].depth) == pl[h].pack
    requires Low(a, pl[h].depth + Bits(sh, h)) == Inside(pl[h], dst.index, Bits(sh, h)).pack
    ensures Under(pl[h], pl[src])
  {
    hide Shift, Low, High, OneHolder, PlaceOk;
    if pl[src].depth <= pl[h].depth {
      LowLow(a, pl[src].depth, pl[h].depth);
    } else {
      LowLow(a, pl[h].depth, pl[src].depth);
      WayDown(sh, pl, h, src);
      PackBound(sh, pl, h);
      InsideBits(pl[h], dst.index, Bits(sh, h));
      SameIndex(a, pl[src].depth, pl[h].depth, Bits(sh, h));
      SameIndex(a, pl[h].depth + Bits(sh, h), pl[h].depth, Bits(sh, h));
    }
  }

  /// Nothing lies under a slot that holds no node.
  lemma LeafAlone(sh: Shape, pl: Places, s: Slot, x: Slot)
    requires Rooted(sh, pl) && s in sh && x in sh && !IsNode(sh, s)
    ensures Under(pl[x], pl[s]) <==> x == s
  {
    UnderSelf(sh, pl, s);
    if Under(pl[x], pl[s]) {
      WayDown(sh, pl, s, x);
    }
  }

  /// Nor under a node without occupied slots.
  lemma EmptyAlone(sh: Shape, pl: Places, s: Slot, x: Slot)
    requires Rooted(sh, pl) && IsNode(sh, s) && x in sh && forall i :: In(sh[s].res, i) !in sh
    ensures Under(pl[x], pl[s]) <==> x == s
  {
    UnderSelf(sh, pl, s);
    if Under(pl[x], pl[s]) {
      WayDown(sh, pl, s, x);
    }
  }

  // ---------------------------------------------------------------- everything under a slot

  ghost function Subtree(sh: Shape, pl: Places, s: Slot): set<Slot>
    requires s in pl
  {
    set x | x in sh && x in pl && Under(pl[x], pl[s])
  }

  /// The slot `s`, and what lies under the slots before `i` of the node that it holds.
  ghost function UpTo(sh: Shape, pl: Places, s: Slot, i: nat): set<Slot>
    requires s in pl && IsNode(sh, s)
  {
    set x | x in sh && x in pl && Under(pl[x], pl[s]) && (x == s || Next(sh, s, pl[s].depth, pl[x].pack).index < i)
  }

  lemma UpToNone(sh: Shape, pl: Places, s: Slot)
    requires Rooted(sh, pl) && IsNode(sh, s)
    ensures UpTo(sh, pl, s, 0) == {s}
  {
    UnderSelf(sh, pl, s);
  }

  lemma UpToAll(sh: Shape, pl: Places, s: Slot)
    requires Rooted(sh, pl) && IsNode(sh, s)
    ensures UpTo(sh, pl, s, Pow2(Bits(sh, s))) == Subtree(sh, pl, s)
  {
    forall x | x in Subtree(sh, pl, s) ensures x in UpTo(sh, pl, s, Pow2(Bits(sh, s))) {
      LowBound(High(pl[x].pack, pl[s].depth), Bits(sh, s));
    }
  }

  /// What lies under a slot of a node lies under the node, on the way through that slot.
  lemma UnderChild(sh: Shape, pl: Places, s: Slot, c: Slot, x: Slot)
    requires Rooted(sh, pl) && Contains(sh, s, c) && c in sh && x in sh
    ensures pl[c] == Inside(pl[s], c.index, Bits(sh, s)) && pl[s].depth < pl[c].depth
    ensures Under(pl[x], pl[c]) <==> Under(pl[x], pl[s]) && x != s && Next(sh, s, pl[s].depth, pl[x].pack) == c
  {
    hide Shift, Low, High, PlaceOk, OneHolder;
    var g := Holder(sh, pl, c);
    SameHolder(sh, g, s);
    PackBound(sh, pl, s);
    InsideBits(pl[s], c.index, Bits(sh, s));
    if Under(pl[x], pl[c]) {
      LowLow(pl[x].pack, pl[s].depth, pl[c].depth);
      SameIndex(pl[x].pack, pl[c].depth, pl[s].depth, Bits(sh, s));
    }
    if Under(pl[x], pl[s]) && x != s {
      WayDown(sh, pl, s, x);
    }
  }

  /// One slot more.
  lemma UpToStep(sh: Shape, pl: Places, s: Slot, i: nat)
    requires Rooted(sh, pl) && IsNode(sh, s) && i < Pow2(Bits(sh, s))
    ensures var c := In(sh[s].res, i);
      && (c !in sh ==> UpTo(sh, pl, s, i + 1) == UpTo(sh, pl, s, i))
      && (c in sh ==> UpTo(sh, pl, s, i + 1) == UpTo(sh, pl, s, i) + Subtree(sh, pl, c) && UpTo(sh, pl, s, i) !! Subtree(sh, pl, c))
  {
    hide Rooted, Low, High, Under;
    var c := In(sh[s].res, i);
    assert Contains(sh, s, c);
    assert pl.Keys == sh.Keys by {
      PlacedKeys(sh, pl);
    }
    forall x | x in sh
      ensures c in sh ==> (Under(pl[x], pl[c]) <==> Under(pl[x], pl[s]) && x != s && Next(sh, s, pl[s].depth, pl[x].pack).index == i)
      ensures c !in sh && Under(pl[x], pl[s]) && x != s ==> Next(sh, s, pl[s].depth, pl[x].pack).index != i
    {
      if c in sh {
        UnderChild(sh, pl, s, c, x);
      } else if Under(pl[x], pl[s]) && x != s {
        WayDown(sh, pl, s, x);
      }
    }
  }

  /// The tree under a slot of a node is smaller than the tree of the node.
  lemma SubtreeSmaller(sh: Shape, pl: Places, s: Slot, c: Slot)
    requires Rooted(sh, pl) && Contains(sh, s, c) && c in sh
    ensures |Subtree(sh, pl, c)| < |Subtree(sh, pl, s)|
  {
    hide Rooted, Low, High, Under;
    assert pl.Keys == sh.Keys by {
      PlacedKeys(sh, pl);
    }
    UnderSelf(sh, pl, s);
    forall x | x in sh ensures x in Subtree(sh, pl, c) ==> x in Subtree(sh, pl, s) - {s} {
      UnderChild(sh, pl, s, c, x);
    }
    Smaller(Subtree(sh, pl, c), Subtree(sh, pl, s), s);
  }

  lemma Smaller(a: set<Slot>, b: set<Slot>, x: Slot)
    requires x in b && a <= b - {x}
    ensures |a| < |b|
  {
    Fewer(a, b - {x});
  }

  lemma {:induction false} Fewer(a: set<Slot>, b: set<Slot>)
    requires a <= b
    ensures |a| <= |b|
  {
    if a != {} {
      var x :| x in a;
      Fewer(a - {x}, b - {x});
    }
  }

  /// The thread of every slot has a root.
  lemma {:induction false} HasRoot(sh: Shape, pl: Places, s: Slot)
    requires Rooted(sh, pl) && s in sh
    ensures Root(pl[s].thread) in sh
    decreases pl[s].depth
  {
    if s.In? {
      var h := Holder(sh, pl, s);
      HasRoot(sh, pl, h);
    } else {
      RootPlace(sh, pl, s);
    }
  }

  /// An occupied slot is where it is found.
  lemma SpotPlace(sh: Shape, pl: Places, s: Slot, p: Place)
    requires Rooted(sh, pl) && Spot(sh, pl, s, p) && s in sh
    ensures pl[s] == p
  {
    var h := Holder(sh, pl, s);
    var g :| Contains(sh, g, s) && g in pl && p == Inside(pl[g], s.index, Bits(sh, g));
    SameHolder(sh, g, h);
  }

  /// No slot is found at no depth.
  lemma NoDepth(sh: Shape, pl: Places, x: Slot, p: Place)
    requires Rooted(sh, pl) && p.depth == 0
    ensures !Spot(sh, pl, x, p)
  {
    if h :| Contains(sh, h, x) && h in pl && p == Inside(pl[h], x.index, Bits(sh, h)) {
      NodeBits(sh, pl, h);
    }
  }

  /// One address leads to one slot.
  lemma AddressOnce(sh: Shape, pl: Places, s: Slot, x: Slot, w: Where)
    requires Rooted(sh, pl) && Addressed(sh, pl, s, w) && Addressed(sh, pl, x, w)
    ensures s == x
  {
    hide Low, PlaceOk, OneHolder;
    PackBound(sh, pl, s);
    PackBound(sh, pl, x);
    if s.Root? {
      RootPlace(sh, pl, s);
      assert x.Root?;
      RootPlace(sh, pl, x);
    } else if w.depth.Some? {
      OnePlace(sh, pl, s, x);
    } else if pl[s].depth <= pl[x].depth {
      LowLow(w.address, pl[s].depth, pl[x].depth);
      LeafAlone(sh, pl, s, x);
    } else {
      LowLow(w.address, pl[x].depth, pl[s].depth);
      LeafAlone(sh, pl, x, s);
    }
  }

  /// A tree leaves no choice of places.
  lemma {:induction false} PlacesUnique(sh: Shape, pl: Places, pl': Places, s: Slot)
    requires Rooted(sh, pl) && Rooted(sh, pl') && s in sh
    ensures pl'[s] == pl[s]
    decreases pl[s].depth
  {
    if s.In? {
      var h := Holder(sh, pl, s);
      var g := Holder(sh, pl', s);
      SameHolder(sh, g, h);
      PlacesUnique(sh, pl, pl', h);
    } else {
      RootPlace(sh, pl, s);
      RootPlace(sh, pl', s);
    }
  }

  /// A node in one of its own slots is in no tree.
  lemma OwnHolder(sh: Shape, pl: Places, s: Slot)
    requires Contains(sh, s, s)
    ensures !Rooted(sh, pl)
  {
    if Rooted(sh, pl) {
      var h := Holder(sh, pl, s);
      SameHolder(sh, h, s);
    }
  }

  /// What lies under the destination is what lay under the source.
  lemma TransplantUnder(sh: Shape, pl: Places, src: Slot, dst: Slot, to: Place, x: Slot)
    requires Rooted(sh, pl) && Free(sh, pl, src, dst, to) && x in sh && x != src
    ensures x in Transplant(pl, src, dst, to) && (Under(Transplant(pl, src, dst, to)[x], to) <==> Under(pl[x], pl[src]))
  {
    hide Shift, Low, High, OneHolder, PlaceOk;
    PlacedKeys(sh, pl);
    var pl' := Transplant(pl, src, dst, to);
    if dst.Root? {
      if Under(pl[x], to) {
        HasRoot(sh, pl, x);
      }
      PackZero(pl'[x].pack);
    } else {
      var h :| Contains(sh, h, dst) && h in pl && !Under(pl[h], pl[src]) && to == Inside(pl[h], dst.index, Bits(sh, h));
      PackBound(sh, pl, h);
      InsideBits(pl[h], dst.index, Bits(sh, h));
      if Under(pl[x], pl[src]) {
        LowHighPack(to.pack, to.depth, High(pl[x].pack, pl[src].depth));
      } else if Under(pl[x], to) {
        NodeBits(sh, pl, h);
        LowLow(pl[x].pack, pl[h].depth, to.depth);
        WayDown(sh, pl, h, x);
        SameIndex(pl[x].pack, to.depth, pl[h].depth, Bits(sh, h));
      }
    }
  }

  lemma PackZero(a: nat)
    ensures Low(a, 0) == 0
  {
  }

  /// A node that was moved into itself is in no tree: the deeper a slot in it, the deeper it would be.
  lemma {:induction false} DeeperInside(sh: Shape, pl: Places, src: Slot, dst: Slot, pl': Places, x: Slot)
    requires Rooted(sh, pl) && IsNode(sh, src) && dst !in sh && x in sh && x != src && Under(pl[x], pl[src])
    requires Rooted((sh - {src})[dst := sh[src]], pl')
    ensures x in pl' && dst in pl' && pl'[dst].depth < pl'[x].depth
    decreases pl[x].depth
  {
    hide Low, Shift, PlaceOk, OneHolder;
    var sh' := (sh - {src})[dst := sh[src]];
    PlacedKeys(sh', pl');
    if x.Root? {
      RootUnder(sh, pl, src, x);
    } else {
      var g := Holder(sh, pl, x);
      HolderUnder(sh, pl, src, g, x);
      var g' := Holder(sh', pl', x);
      SameHolder(sh', g', if g == src then dst else g);
      if g != src {
        DeeperInside(sh, pl, src, dst, pl', g);
      }
    }
  }

  /// So a node cannot be moved to a slot that lies in it.
  lemma IntoItself(sh: Shape, pl: Places, src: Slot, dst: Slot, h: Slot, pl': Places)
    requires Rooted(sh, pl) && IsNode(sh, src) && dst !in sh && Contains(sh, h, dst) && Under(pl[h], pl[src])
    ensures !Rooted((sh - {src})[dst := sh[src]], pl')
  {
    hide Low, Shift, PlaceOk, OneHolder;
    var sh' := (sh - {src})[dst := sh[src]];
    if Rooted(sh', pl') {
      var g := Holder(sh', pl', dst);
      if h == src {
        assert Contains(sh', dst, dst);
        OwnHolder(sh', pl', dst);
      } else {
        assert Contains(sh', h, dst);
        SameHolder(sh', g, h);
        DeeperInside(sh, pl, src, dst, pl', h);
      }
    }
  }

  // ---------------------------------------------------------------- a collision

  /// Five nodes of 7 bits one inside the other, the largest nesting allowed, with something in slots 0 and 16 of the
  /// innermost.
  ghost function FiveNodes(): Shape {
    map[Root(0) := Node(0, 7), In(0, 0) := Node(1, 7), In(1, 0) := Node(2, 7), In(2, 0) := Node(3, 7), In(3, 0) := Node(4, 7),
        In(4, 0) := Leaf, In(4, 16) := Leaf]
  }

  ghost function FivePlaces(): Places {
    map[Root(0) := Place(0, 0, 0), In(0, 0) := Place(0, 0, 7), In(1, 0) := Place(0, 0, 14), In(2, 0) := Place(0, 0, 21),
        In(3, 0) := Place(0, 0, 28), In(4, 0) := Place(0, 0, 35), In(4, 16) := Place(0, Shift(16, 28), 35)]
  }

  lemma FiveAt(s: Slot)
    requires s in FiveNodes()
    ensures PlaceOk(FiveNodes(), FivePlaces(), s)
  {
    hide Shift;
    Pow7();
    if s.In? {
      ShiftZero(7 * s.node);
      var h := if s.node == 0 then Root(0) else In(s.node - 1, 0);
      assert Contains(FiveNodes(), h, s);
      assert FivePlaces()[s] == Inside(FivePlaces()[h], s.index, 7);
    }
  }

  lemma Pow7()
    ensures Pow2(7) == 128
  {
    assert Shift(1, 3) == 2 * Shift(1, 2) == 8;
    assert Shift(1, 5) == 2 * Shift(1, 4) == 32;
  }

  lemma FiveHolder(h: Slot)
    requires IsNode(FiveNodes(), h)
    ensures var k := FiveNodes()[h]; k.bits == 7 && h == if k.res == 0 then Root(0) else In(k.res - 1, 0)
  {
  }

  lemma FiveKeys()
    ensures FivePlaces().Keys == FiveNodes().Keys
  {
  }

  lemma FiveRooted()
    ensures Rooted(FiveNodes(), FivePlaces())
  {
    hide PlaceOk, FiveNodes, FivePlaces, OneHolder;
    var sh := FiveNodes();
    forall s | s in sh ensures PlaceOk(sh, FivePlaces(), s) {
      FiveAt(s);
    }
    forall h | h in sh && sh[h].Node? ensures 1 <= sh[h].bits {
      FiveHolder(h);
    }
    FiveKeys();
    FiveOneHolder();
    RootedBy(sh, FivePlaces());
  }

  lemma FiveOneHolder()
    ensures OneHolder(FiveNodes())
  {
    hide FiveNodes;
    forall h, g | IsNode(FiveNodes(), h) && IsNode(FiveNodes(), g) && FiveNodes()[h].res == FiveNodes()[g].res ensures h == g {
      FiveHolder(h);
      FiveHolder(g);
    }
  }

  /// There slots 0 and 16 get the same address, and it leads to slot 0.
  lemma CollisionExample()
    ensures var sh, pl, w := FiveNodes(), FivePlaces(), Where(0, 0, Some(28));
      && Rooted(sh, pl) && Addressed(sh, pl, In(3, 0), w) && Continued(w, 16, 7) == Continued(w, 0, 7)
      && Addressed(sh, pl, In(4, 0), Continued(w, 0, 7)) && !Addressed(sh, pl, In(4, 16), Continued(w, 16, 7))
  {
    hide Shift, Low, Or, PlaceOk, OneHolder;
    var sh, pl, w := FiveNodes(), FivePlaces(), Where(0, 0, Some(28));
    FiveRooted();
    Pow7();
    PowPositive(28);
    PowPositive(WORD_BITS);
    LowSmall(0, 28);
    SixteenWraps();
    assert IsNode(sh, In(3, 0)) && Bits(sh, In(3, 0)) == 7;
    ContinuedLeads(sh, pl, In(3, 0), 0, 0);
    ContinuedLeads(sh, pl, In(3, 0), 0, 16);
  }

  lemma SixteenWraps()
    ensures Word(Shift(16, 28)) == Word(Shift(0, 28)) && !IsWord(Shift(16, 28))
  {
    ShiftZero(28);
    assert Shift(1, 4) == 2 * Shift(1, 3) == 16;
    ShiftShift(1, 4, 28);
    PowPositive(WORD_BITS);
    LowHighPack(0, WORD_BITS, 1);
    LowSmall(0, WORD_BITS);
  }
}

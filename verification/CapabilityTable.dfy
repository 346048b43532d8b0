/**
The capabilities of the kernel in one table (core/kernel/capabilities.c). A capability is on two
lists without container: the list of its resource, and the list of those derived from the same
capability, of which the parent knows only the first. ResourceLists and Derivations say what the lists mean
and what each operation must do to them; here the operations work link by link. LIST_INSERT_NO_CONTAINER
is taken at its documented effect. Only heap-managed capabilities live here.
*/
module CapabilityTable {
  import opened Basics
  import opened SlotLists
  import R = ResourceLists
  import D = Derivations
  import C = CapabilityTree
  import M = NodeMoves
  import L = ContainerlessLists

  /// `from` is derived_from, `first` is derivation, and `family` names the derivation list that holds a
  /// capability that is not an original. A node has 2^bits slots.
  datatype Capability = Capability(
    res: Res, stored: Where, ptr: Ptr, isNode: bool, bits: nat, original: bool, badged: bool, badge: nat,
    from: Option<Slot>, first: Option<Slot>, family: nat)

  type Caps = map<Slot, Capability>
  type Families = map<nat, seq<Slot>>

  /// What the memory of an empty slot still says: its flag, the lists that its links lead into, and the capability
  /// that it was derived from as the first, if any.
  datatype Remains = Remains(original: bool, list: Option<Res>, family: Option<nat>, parent: Option<Slot>)

  /// Such a slot leads nowhere.
  predicate Blank(remains: Remains) { remains.list.None? && remains.family.None? && remains.parent.None? }

  /// Whatever it leads to is there.
  predicate LeadsInto(remains: Remains, lists: map<Res, seq<Slot>>, families: Families, caps: Caps) {
    && (remains.list.Some? ==> remains.list.value in lists)
    && (remains.family.Some? ==> remains.family.value in families)
    && (remains.parent.Some? ==> remains.parent.value in caps)
  }

  /// Where nodes are.
  ghost function ShapeOf(caps: Caps): C.Shape {
    map s | s in caps :: if caps[s].isNode then C.Node(caps[s].res, caps[s].bits) else C.Leaf
  }

  // ---------------------------------------------------------------- the two views

  /// The list that the derivation pointer of `s` leads to.
  ghost function Kids(caps: Caps, families: Families, s: Slot): seq<Slot>
    requires s in caps
  {
    if caps[s].first.Some? && caps[s].first.value in caps && caps[caps[s].first.value].family in families
    then families[caps[caps[s].first.value].family] else []
  }

  ghost function Derived(caps: Caps, families: Families, s: Slot): D.Derived
    requires s in caps
  {
    var c := caps[s];
    D.Derived(c.res, c.isNode, c.original, c.badged, c.badge, c.from, Kids(caps, families, s))
  }

  ghost function Tree(caps: Caps, families: Families): D.Caps {
    map s | s in caps :: Derived(caps, families, s)
  }

  ghost function Resources(caps: Caps, lists: map<Res, seq<Slot>>, owner: map<Res, Where>, at: map<Res, Ptr>): R.Tables {
    R.Tables(map s | s in caps :: R.Cap(caps[s].res, caps[s].stored, caps[s].ptr), lists, owner, at)
  }

  /// A derivation pointer leads to the first of a list.
  ghost predicate FirstOk(caps: Caps, families: Families, s: Slot) {
    s in caps && (caps[s].first.Some? ==>
      && caps[s].first.value in caps && caps[s].first.value != s
      && var k := caps[caps[s].first.value].family;
      && k in families && families[k] != [] && families[k][0] == caps[s].first.value)
  }

  /// A list holds capabilities that know they are on it, and that were derived.
  ghost predicate FamilyOk(caps: Caps, families: Families, k: nat) {
    && k in families && families[k] != [] && Distinct(families[k])
    && forall x :: x in families[k] ==> x in caps && caps[x].family == k && caps[x].from.Some?
  }

  ghost predicate FamiliesOk(caps: Caps, families: Families) {
    && (forall s {:trigger FirstOk(caps, families, s)} :: s in caps ==> FirstOk(caps, families, s))
    && (forall k {:trigger FamilyOk(caps, families, k)} :: k in families ==> FamilyOk(caps, families, k))
    && D.Consistent(Tree(caps, families))
  }

  /// What consistency says about one capability: it is on its own family's list, which is its parent's.
  lemma ChildFacts(caps: Caps, families: Families, s: Slot)
    requires FamiliesOk(caps, families) && s in caps && caps[s].from.Some?
    ensures var p := caps[s].from.value;
      && p in caps && p != s && caps[p].first.Some? && caps[s].family in families && s in families[caps[s].family]
      && FirstOk(caps, families, p) && caps[caps[p].first.value].family == caps[s].family
      && caps[p].res == caps[s].res && (caps[p].original || caps[p].badged)
  {
    var t, p := Tree(caps, families), caps[s].from.value;
    assert D.Links(t, s);
    assert FirstOk(caps, families, p);
    var k := caps[caps[p].first.value].family;
    assert FamilyOk(caps, families, k);
  }

  /// The children of `s` are those that say so.
  lemma KidsFacts(caps: Caps, families: Families, s: Slot)
    requires FamiliesOk(caps, families) && s in caps
    ensures FirstOk(caps, families, s) && Distinct(Kids(caps, families, s))
    ensures forall x :: x in Kids(caps, families, s) <==> x in caps && caps[x].from == Some(s)
    ensures Kids(caps, families, s) != [] ==> caps[s].original || caps[s].badged
    ensures caps[s].first.Some? <==> Kids(caps, families, s) != []
  {
    var t := Tree(caps, families);
    assert D.Links(t, s) && FirstOk(caps, families, s);
    forall x | x in caps && caps[x].from == Some(s) ensures x in Kids(caps, families, s) {
      assert D.Links(t, x);
    }
  }

  // ---------------------------------------------------------------- moving

  lemma ReplacedNone(s: seq<Slot>, x: Slot, y: Slot)
    requires x !in s
    ensures Replaced(s, x, y) == s
  {
    assert forall i :: 0 <= i < |s| ==> s[i] in s;
  }

  /// LIST_UPDATE_ADDRESS_NO_CONTAINER on the derivation list that holds `src`.
  function Relisted(families: Families, c: Capability, src: Slot, dst: Slot): Families {
    if c.from.Some? && c.family in families then families[c.family := Replaced(families[c.family], src, dst)] else families
  }

  /// The walk that sets derived_from.
  function Walked(caps: Caps, kids: seq<Slot>, dst: Slot): Caps {
    map s | s in caps :: if s in kids then caps[s].(from := Some(dst)) else caps[s]
  }

  /// The parent learns about a new first derivation.
  function Refirst(caps: Caps, families: Families, dst: Slot): Caps
    requires dst in caps
  {
    var c := caps[dst];
    if c.from.Some? && c.from.value in caps && c.family in families && families[c.family] != [] && families[c.family][0] == dst
    then caps[c.from.value := caps[c.from.value].(first := Some(dst))] else caps
  }

  /// Where the walk goes.
  ghost function WalkList(caps: Caps, families: Families, src: Slot): seq<Slot>
    requires src in caps
  {
    if caps[src].original || caps[src].badged then Kids(caps, families, src) else []
  }

  /// move_capability and the new address: a copy, the links of the two lists, the children, the parent,
  /// and the source is emptied.
  ghost function AfterMove(caps: Caps, families: Families, src: Slot, dst: Slot): Caps
    requires src in caps && dst !in caps
  {
    var copied := caps[dst := caps[src]];
    Refirst(Walked(copied, WalkList(caps, families, src), dst), Relisted(families, caps[src], src, dst), dst) - {src}
  }

  /// The walk reaches every capability derived from `src`, and no other.
  lemma WalkReaches(caps: Caps, families: Families, src: Slot)
    requires FamiliesOk(caps, families) && src in caps
    ensures forall x :: x in WalkList(caps, families, src) <==> x in caps && caps[x].from == Some(src)
    ensures src !in WalkList(caps, families, src)
  {
    KidsFacts(caps, families, src);
    if caps[src].from == Some(src) {
      ChildFacts(caps, families, src);
    }
  }

  /// `src` is the first of its family.
  ghost predicate Heads(caps: Caps, families: Families, src: Slot)
    requires src in caps
  {
    caps[src].from.Some? && caps[src].family in families && families[caps[src].family] != [] && families[caps[src].family][0] == src
  }

  /// The one derivation pointer that leads to `src` is its parent's, if `src` is the first.
  lemma PointsAt(caps: Caps, families: Families, src: Slot, p: Slot)
    requires FamiliesOk(caps, families) && src in caps && p in caps
    ensures caps[p].first == Some(src) <==> Heads(caps, families, src) && caps[src].from == Some(p)
  {
    KidsFacts(caps, families, p);
    if caps[src].from == Some(p) {
      ChildFacts(caps, families, src);
    }
  }

  /// `dst` is the first of its family afterwards exactly when `src` was.
  lemma HeadsAfter(caps: Caps, families: Families, src: Slot, dst: Slot)
    requires FamiliesOk(caps, families) && src in caps && dst !in caps && caps[src].from.Some?
    ensures var families' := Relisted(families, caps[src], src, dst); var k := caps[src].family;
      k in families' && families'[k] != [] && (families'[k][0] == dst <==> Heads(caps, families, src))
  {
    ChildFacts(caps, families, src);
    assert FamilyOk(caps, families, caps[src].family);
    assert families[caps[src].family][0] in families[caps[src].family];
  }

  lemma RefirstAt(caps: Caps, families: Families, dst: Slot, s: Slot)
    requires dst in caps && s in caps
    requires caps[dst].from.Some? ==> caps[dst].from.value in caps && caps[dst].family in families && families[caps[dst].family] != []
    ensures var c := caps[dst]; var caps' := Refirst(caps, families, dst);
      && caps'.Keys == caps.Keys
      && caps'[s] == if c.from == Some(s) && families[c.family][0] == dst then caps[s].(first := Some(dst)) else caps[s]
  {
  }

  /// The moved table, slot by slot, as the links leave it.
  lemma MovedAt(caps: Caps, families: Families, src: Slot, dst: Slot, s: Slot)
    requires FamiliesOk(caps, families) && src in caps && dst !in caps
    ensures var caps' := AfterMove(caps, families, src, dst); var s0 := if s == dst then src else s;
      && (s in caps' <==> s == dst || (s in caps && s != src))
      && (s in caps' ==> caps'[s] == caps[s0].(
            from := D.Renamed(caps[s0].from, src, dst),
            first := D.Renamed(caps[s0].first, src, dst)))
  {
    hide FamiliesOk, Kids, WalkList, Relisted, Heads, Refirst;
    WalkReaches(caps, families, src);
    if caps[src].from.Some? {
      ChildFacts(caps, families, src);
      HeadsAfter(caps, families, src, dst);
    }
    var s0 := if s == dst then src else s;
    var walked := Walked(caps[dst := caps[src]], WalkList(caps, families, src), dst);
    RefirstAt(walked, Relisted(families, caps[src], src, dst), dst, dst);
    if s in walked {
      RefirstAt(walked, Relisted(families, caps[src], src, dst), dst, s);
      PointsAt(caps, families, src, s0);
    }
  }

  /// The lists after the move.
  lemma RelistedAt(caps: Caps, families: Families, src: Slot, dst: Slot, k: nat)
    requires FamiliesOk(caps, families) && src in caps && dst !in caps && k in families
    ensures var families' := Relisted(families, caps[src], src, dst);
      families'.Keys == families.Keys && families'[k] == Replaced(families[k], src, dst)
  {
    assert FamilyOk(caps, families, k);
    if src !in families[k] {
      ReplacedNone(families[k], src, dst);
    }
    if caps[src].from.Some? {
      ChildFacts(caps, families, src);
    }
  }

  lemma MovedKids(caps: Caps, families: Families, src: Slot, dst: Slot, s: Slot)
    requires FamiliesOk(caps, families) && src in caps && dst !in caps && (s == dst || (s in caps && s != src))
    ensures var caps', families' := AfterMove(caps, families, src, dst), Relisted(families, caps[src], src, dst);
      var s0 := if s == dst then src else s;
      && s in caps' && FirstOk(caps', families', s)
      && Kids(caps', families', s) == Replaced(Kids(caps, families, s0), src, dst)
  {
    hide FamiliesOk, AfterMove, Relisted, Tree;
    var s0 := if s == dst then src else s;
    MovedAt(caps, families, src, dst, s);
    KidsFacts(caps, families, s0);
    if caps[s0].first.Some? {
      var f := caps[s0].first.value;
      var f' := if f == src then dst else f;
      MovedAt(caps, families, src, dst, f');
      RelistedAt(caps, families, src, dst, caps[f].family);
    }
  }

  lemma MovedFamily(caps: Caps, families: Families, src: Slot, dst: Slot, k: nat)
    requires FamiliesOk(caps, families) && src in caps && dst !in caps && k in families
    ensures FamilyOk(AfterMove(caps, families, src, dst), Relisted(families, caps[src], src, dst), k)
  {
    assert FamilyOk(caps, families, k);
    hide FamiliesOk, AfterMove, Relisted, Tree;
    RelistedAt(caps, families, src, dst, k);
    assert dst !in families[k];
    ReplacedOk(families[k], src, dst);
    forall x | x in Replaced(families[k], src, dst)
      ensures var caps' := AfterMove(caps, families, src, dst); x in caps' && caps'[x].family == k && caps'[x].from.Some?
    {
      MovedAt(caps, families, src, dst, x);
    }
  }

  /// The link updates of move_capability rename the slot wherever it occurs.
  lemma MovedTree(caps: Caps, families: Families, src: Slot, dst: Slot)
    requires FamiliesOk(caps, families) && src in caps && dst !in caps
    ensures var caps', families' := AfterMove(caps, families, src, dst), Relisted(families, caps[src], src, dst);
      && Tree(caps', families') == D.AfterMove(Tree(caps, families), src, dst)
      && FamiliesOk(caps', families')
  {
    var caps', families' := AfterMove(caps, families, src, dst), Relisted(families, caps[src], src, dst);
    var t, t' := Tree(caps, families), D.AfterMove(Tree(caps, families), src, dst);
    D.MoveConsistent(t, src, dst);
    hide AfterMove, Relisted, Kids, FirstOk, FamilyOk, D.Consistent;
    forall s ensures s in caps' <==> s in t' {
      MovedAt(caps, families, src, dst, s);
    }
    forall s | s in caps' ensures Derived(caps', families', s) == t'[s] && FirstOk(caps', families', s) {
      MovedAt(caps, families, src, dst, s);
      MovedKids(caps, families, src, dst, s);
    }
    assert Tree(caps', families') == t';
    forall k | k in families' ensures FamilyOk(caps', families', k) {
      MovedKeys(caps, families, src, dst);
      MovedFamily(caps, families, src, dst, k);
    }
  }

  lemma MovedKeys(caps: Caps, families: Families, src: Slot, dst: Slot)
    requires src in caps
    ensures Relisted(families, caps[src], src, dst).Keys == families.Keys
  {
  }

  // ---------------------------------------------------------------- copying

  /// The capability that a copy of `src` is derived from, and the list that it joins: a new one if it is
  /// the first derivation.
  ghost predicate JoinsFamily(caps: Caps, families: Families, src: Slot, p: Slot, k: nat)
    requires src in caps
  {
    if caps[src].original || caps[src].badged then
      p == src && (if caps[src].first.Some? then caps[src].first.value in caps && k == caps[caps[src].first.value].family else k !in families)
    else
      caps[src].from == Some(p) && k == caps[src].family
  }

  function Joined(families: Families, k: nat, dst: Slot): Families {
    families[k := Inserted(if k in families then families[k] else [], dst)]
  }

  /// copy_capability, and the badge that node_copy may set.
  function AfterCopy(caps: Caps, src: Slot, dst: Slot, w: Where, p: Slot, k: nat, badge: Option<nat>): Caps
    requires src in caps && p in caps
  {
    var c := caps[src].(
      stored := w, original := false, badged := badge.Some?, badge := if badge.Some? then badge.value else caps[src].badge,
      from := Some(p), first := None, family := k);
    caps[dst := c][p := caps[p].(first := if caps[p].first.Some? then caps[p].first else Some(dst))]
  }

  /// Where the copy goes in the tree.
  lemma CopyPlace(caps: Caps, families: Families, src: Slot, p: Slot, k: nat)
    requires FamiliesOk(caps, families) && src in caps && JoinsFamily(caps, families, src, p, k)
    ensures p in caps && D.ParentOfCopy(Tree(caps, families), src) == Some(p)
    ensures !(caps[src].original || caps[src].badged) ==> caps[p].first.Some?
    ensures (k in families <==> caps[p].first.Some?) && Kids(caps, families, p) == if k in families then families[k] else []
    ensures k in families ==> caps[p].first.value in caps && caps[caps[p].first.value].family == k && families[k] != [] && families[k][0] == caps[p].first.value
  {
    KidsFacts(caps, families, src);
    if !(caps[src].original || caps[src].badged) {
      ChildFacts(caps, families, src);
    } else {
      assert FirstOk(caps, families, src);
    }
  }

  /// A list belongs to one capability.
  lemma OneParent(caps: Caps, families: Families, s: Slot, p: Slot)
    requires FamiliesOk(caps, families) && s in caps && p in caps && caps[s].first.Some? && caps[p].first.Some?
    requires caps[s].first.value in caps && caps[p].first.value in caps
    ensures caps[caps[s].first.value].family == caps[caps[p].first.value].family ==> s == p
  {
    KidsFacts(caps, families, s);
    KidsFacts(caps, families, p);
  }

  lemma FamilyFacts(caps: Caps, families: Families, k: nat)
    requires FamiliesOk(caps, families) && k in families
    ensures FamilyOk(caps, families, k)
  {
  }

  lemma CopiedKids(caps: Caps, families: Families, src: Slot, dst: Slot, w: Where, p: Slot, k: nat, badge: Option<nat>, s: Slot)
    requires FamiliesOk(caps, families) && src in caps && dst !in caps && JoinsFamily(caps, families, src, p, k) && p in caps
    requires s in caps || s == dst
    ensures var caps', families' := AfterCopy(caps, src, dst, w, p, k, badge), Joined(families, k, dst);
      && s in caps' && FirstOk(caps', families', s)
      && Kids(caps', families', s) ==
         if s == dst then [] else if s == p then Inserted(Kids(caps, families, p), dst) else Kids(caps, families, s)
  {
    hide FamiliesOk, JoinsFamily, Inserted, Kids, FirstOk, AfterCopy, Joined;
    CopyPlace(caps, families, src, p, k);
    if s == dst {
      CopiedNew(caps, families, src, dst, w, p, k, badge);
    } else if s == p {
      KidsFacts(caps, families, p);
      CopiedParent(caps, families, src, dst, w, p, k, badge);
    } else {
      KidsFacts(caps, families, s);
      if caps[s].first.Some? && k in families {
        FirstIn(caps, families, s);
        OneParent(caps, families, s, p);
      }
      CopiedOther(caps, families, src, dst, w, p, k, badge, s);
    }
  }

  lemma CopiedNew(caps: Caps, families: Families, src: Slot, dst: Slot, w: Where, p: Slot, k: nat, badge: Option<nat>)
    requires src in caps && dst !in caps && p in caps
    ensures var caps', families' := AfterCopy(caps, src, dst, w, p, k, badge), Joined(families, k, dst);
      dst in caps' && FirstOk(caps', families', dst) && Kids(caps', families', dst) == []
  {
  }

  /// The parent of the copy: the list that it points to has one more.
  lemma CopiedParent(caps: Caps, families: Families, src: Slot, dst: Slot, w: Where, p: Slot, k: nat, badge: Option<nat>)
    requires src in caps && dst !in caps && p in caps && FirstOk(caps, families, p)
    requires (k in families <==> caps[p].first.Some?) && Kids(caps, families, p) == if k in families then families[k] else []
    requires k in families ==> caps[p].first.value in caps && caps[caps[p].first.value].family == k && families[k] != [] && families[k][0] == caps[p].first.value
    ensures var caps', families' := AfterCopy(caps, src, dst, w, p, k, badge), Joined(families, k, dst);
      p in caps' && FirstOk(caps', families', p) && Kids(caps', families', p) == Inserted(Kids(caps, families, p), dst)
  {
    assert Inserted([], dst) == [dst];
    hide Inserted;
  }

  /// Anybody else: another list, which is as it was.
  lemma CopiedOther(caps: Caps, families: Families, src: Slot, dst: Slot, w: Where, p: Slot, k: nat, badge: Option<nat>, s: Slot)
    requires src in caps && dst !in caps && p in caps && s in caps && s != p && FirstOk(caps, families, s)
    requires caps[s].first.Some? ==> caps[s].first.value in caps && caps[caps[s].first.value].family != k
    ensures var caps', families' := AfterCopy(caps, src, dst, w, p, k, badge), Joined(families, k, dst);
      s in caps' && FirstOk(caps', families', s) && Kids(caps', families', s) == Kids(caps, families, s)
  {
    hide Inserted;
  }

  lemma CopiedFamily(caps: Caps, families: Families, src: Slot, dst: Slot, w: Where, p: Slot, k: nat, badge: Option<nat>, m: nat)
    requires FamiliesOk(caps, families) && src in caps && dst !in caps && JoinsFamily(caps, families, src, p, k) && p in caps
    requires m in families || m == k
    ensures FamilyOk(AfterCopy(caps, src, dst, w, p, k, badge), Joined(families, k, dst), m)
  {
    if m in families {
      assert FamilyOk(caps, families, m);
    }
  }

  lemma CopiedTree(caps: Caps, families: Families, src: Slot, dst: Slot, w: Where, p: Slot, k: nat, badge: Option<nat>)
    requires FamiliesOk(caps, families) && src in caps && dst !in caps && JoinsFamily(caps, families, src, p, k)
    requires !caps[src].isNode && (badge.Some? ==> caps[src].original)
    ensures p in caps && D.ParentOfCopy(Tree(caps, families), src).Some? && D.ParentOfCopy(Tree(caps, families), src).value in caps
    ensures var caps', families' := AfterCopy(caps, src, dst, w, p, k, badge), Joined(families, k, dst);
      && Tree(caps', families') == D.AfterCopy(Tree(caps, families), src, dst, badge)
      && FamiliesOk(caps', families')
  {
    CopyPlace(caps, families, src, p, k);
    var caps', families' := AfterCopy(caps, src, dst, w, p, k, badge), Joined(families, k, dst);
    var t := Tree(caps, families);
    D.CopyConsistent(t, src, dst, badge);
    var t' := D.AfterCopy(t, src, dst, badge);
    hide Kids, FirstOk, FamilyOk, D.Consistent, Joined, Inserted, FamiliesOk, D.AfterCopy, AfterCopy, JoinsFamily;
    CopiedSlots(caps, src, dst, w, p, k, badge, families);
    forall s | s in caps' ensures Derived(caps', families', s) == t'[s] && FirstOk(caps', families', s) {
      CopiedAt(caps, families, src, dst, w, p, k, badge, s);
    }
    assert Tree(caps', families') == t';
    forall m | m in families' ensures FamilyOk(caps', families', m) {
      JoinedKeys(families, k, dst);
      CopiedFamily(caps, families, src, dst, w, p, k, badge, m);
    }
    assert FamiliesOk(caps', families') by {
      FamiliesOkBy(caps', families');
    }
  }

  lemma CopiedSlots(caps: Caps, src: Slot, dst: Slot, w: Where, p: Slot, k: nat, badge: Option<nat>, families: Families)
    requires src in caps && p in caps && D.ParentOfCopy(Tree(caps, families), src) == Some(p)
    ensures AfterCopy(caps, src, dst, w, p, k, badge).Keys == caps.Keys + {dst} == D.AfterCopy(Tree(caps, families), src, dst, badge).Keys
  {
  }

  lemma FamiliesOkBy(caps: Caps, families: Families)
    requires (forall s :: s in caps ==> FirstOk(caps, families, s)) && (forall k :: k in families ==> FamilyOk(caps, families, k))
    requires D.Consistent(Tree(caps, families))
    ensures FamiliesOk(caps, families)
  {
  }

  /// The copied table, slot by slot.
  lemma CopiedAt(caps: Caps, families: Families, src: Slot, dst: Slot, w: Where, p: Slot, k: nat, badge: Option<nat>, s: Slot)
    requires FamiliesOk(caps, families) && src in caps && dst !in caps && JoinsFamily(caps, families, src, p, k) && p in caps
    requires D.ParentOfCopy(Tree(caps, families), src) == Some(p) && (s in caps || s == dst)
    ensures var caps', families' := AfterCopy(caps, src, dst, w, p, k, badge), Joined(families, k, dst);
      && s in caps' && FirstOk(caps', families', s) && s in D.AfterCopy(Tree(caps, families), src, dst, badge)
      && Derived(caps', families', s) == D.AfterCopy(Tree(caps, families), src, dst, badge)[s]
  {
    hide Kids, FirstOk, Joined, Inserted, FamiliesOk, JoinsFamily;
    CopiedKids(caps, families, src, dst, w, p, k, badge, s);
  }

  lemma JoinedKeys(families: Families, k: nat, dst: Slot)
    ensures Joined(families, k, dst).Keys == families.Keys + {k}
  {
  }

  // ---------------------------------------------------------------- deleting

  /// The end of merge_derivation_lists for a capability without derivations: the parent's derivation
  /// pointer goes to the next in the list, and the capability leaves the list.
  function Orphaned(caps: Caps, families: Families, s: Slot): Caps
    requires s in caps
  {
    var c := caps[s];
    if c.from.Some? && c.from.value in caps && c.family in families && families[c.family] != [] && families[c.family][0] == s
    then caps[c.from.value := caps[c.from.value].(first := if |families[c.family]| == 1 then None else Some(families[c.family][1]))]
    else caps
  }

  function Unlisted(families: Families, c: Capability, s: Slot): Families {
    if c.from.Some? && c.family in families && s in families[c.family] && Distinct(families[c.family]) then
      if |families[c.family]| == 1 then families - {c.family} else families[c.family := Dropped(families[c.family], s)]
    else families
  }

  /// The parent of a deleted capability.
  lemma DeletedParent(caps: Caps, families: Families, s: Slot, p: Slot)
    requires FamiliesOk(caps, families) && s in caps && caps[s].first.None? && caps[s].from == Some(p) && p in caps
    ensures var l := Kids(caps, families, p);
      var caps', families' := Orphaned(caps, families, s) - {s}, Unlisted(families, caps[s], s);
      && p in caps' && p != s && s in l && Distinct(l) && FirstOk(caps', families', p)
      && caps'[p] == caps[p].(first := caps'[p].first) && Kids(caps', families', p) == Dropped(l, s)
  {
    hide FamiliesOk, Dropped, Orphaned, Unlisted, Distinct;
    ChildFacts(caps, families, s);
    var k := caps[s].family;
    var l := families[k];
    FamilyFacts(caps, families, k);
    KidsFacts(caps, families, p);
    var caps', families' := Orphaned(caps, families, s) - {s}, Unlisted(families, caps[s], s);
    UnlistedIs(families, caps[s], s);
    OrphanedIs(caps, families, s, p);
    if |l| > 1 {
      var f := Dropped(l, s)[0];
      assert f in Dropped(l, s);
      NotOwnChild(caps, families, f);
      OrphanedOther(caps, families, s, f);
      assert FirstOk(caps', families', p);
    }
  }

  lemma UnlistedIs(families: Families, c: Capability, s: Slot)
    requires c.from.Some? && c.family in families && s in families[c.family] && Distinct(families[c.family])
    ensures Unlisted(families, c, s) ==
      if |families[c.family]| == 1 then families - {c.family} else families[c.family := Dropped(families[c.family], s)]
  {
  }

  /// The parent's pointer goes to the first of what is left.
  lemma OrphanedIs(caps: Caps, families: Families, s: Slot, p: Slot)
    requires s in caps && p in caps && p != s && caps[s].from == Some(p) && caps[s].family in families
    requires var l := families[caps[s].family]; s in l && Distinct(l) && caps[p].first == Some(l[0])
    ensures var l := families[caps[s].family]; var caps' := Orphaned(caps, families, s);
      && p in caps' && caps'[p] == caps[p].(first := if |l| == 1 then None else Some(Dropped(l, s)[0]))
  {
  }

  lemma OrphanedOther(caps: Caps, families: Families, s: Slot, t: Slot)
    requires s in caps && t in caps && caps[s].from != Some(t)
    ensures t in Orphaned(caps, families, s) && Orphaned(caps, families, s)[t] == caps[t]
  {
  }

  lemma NotOwnChild(caps: Caps, families: Families, x: Slot)
    requires FamiliesOk(caps, families) && x in caps
    ensures caps[x].from != Some(x)
  {
    if caps[x].from.Some? {
      ChildFacts(caps, families, x);
    }
  }

  /// Anybody else.
  lemma DeletedOther(caps: Caps, families: Families, s: Slot, t: Slot)
    requires FamiliesOk(caps, families) && s in caps && caps[s].first.None? && t in caps && t != s && caps[s].from != Some(t)
    ensures var caps', families' := Orphaned(caps, families, s) - {s}, Unlisted(families, caps[s], s);
      t in caps' && FirstOk(caps', families', t) && caps'[t] == caps[t] && Kids(caps', families', t) == Kids(caps, families, t)
  {
    KidsFacts(caps, families, t);
    if caps[s].from.Some? {
      ChildFacts(caps, families, s);
      if caps[t].first.Some? {
        OneParent(caps, families, t, caps[s].from.value);
      }
    }
  }

  lemma DeletedFamily(caps: Caps, families: Families, s: Slot, k: nat)
    requires FamiliesOk(caps, families) && s in caps && k in Unlisted(families, caps[s], s)
    ensures FamilyOk(Orphaned(caps, families, s) - {s}, Unlisted(families, caps[s], s), k)
  {
    assert FamilyOk(caps, families, k);
  }

  lemma OrphanedKeys(caps: Caps, families: Families, s: Slot)
    requires s in caps
    ensures Orphaned(caps, families, s).Keys == caps.Keys
  {
  }

  lemma DeletedTree(caps: Caps, families: Families, s: Slot)
    requires FamiliesOk(caps, families) && s in caps && caps[s].first.None?
    ensures var t := Tree(caps, families);
      && (caps[s].from.Some? ==> D.OnListOf(t, s, caps[s].from.value))
      && Tree(Orphaned(caps, families, s) - {s}, Unlisted(families, caps[s], s)) == D.AfterDelete(t, s)
    ensures FamiliesOk(Orphaned(caps, families, s) - {s}, Unlisted(families, caps[s], s))
  {
    hide Kids, FirstOk, FamilyOk, D.Consistent, Unlisted, Orphaned;
    var caps', families' := Orphaned(caps, families, s) - {s}, Unlisted(families, caps[s], s);
    var t := Tree(caps, families);
    KidsFacts(caps, families, s);
    D.DeleteConsistent(t, s);
    var t' := D.AfterDelete(t, s);
    if caps[s].from.Some? {
      ChildFacts(caps, families, s);
      DeletedParent(caps, families, s, caps[s].from.value);
    }
    OrphanedKeys(caps, families, s);
    forall u | u in caps' ensures Derived(caps', families', u) == t'[u] && FirstOk(caps', families', u) {
      if caps[s].from != Some(u) {
        DeletedOther(caps, families, s, u);
      }
    }
    assert Tree(caps', families') == t';
    forall k | k in families' ensures FamilyOk(caps', families', k) {
      DeletedFamily(caps, families, s, k);
    }
  }

  // ---------------------------------------------------------------- revoking

  /// Everything derived from `s` is gone, and its derivation pointer is cleared.
  ghost function Revoked(caps: Caps, families: Families, s: Slot): Caps
    requires s in caps
  {
    (caps - D.Descendants(Tree(caps, families), s))[s := caps[s].(first := None)]
  }

  /// The lists that something still leads to.
  function Reachable(families: Families, caps: Caps): Families {
    map k | k in families && families[k] != [] && families[k][0] in caps :: families[k]
  }

  /// All on one list were derived from the same capability.
  lemma SameParent(caps: Caps, families: Families, k: nat, x: Slot, y: Slot)
    requires FamiliesOk(caps, families) && k in families && x in families[k] && y in families[k]
    ensures x in caps && y in caps && caps[x].from == caps[y].from && caps[x].from.Some?
  {
    FamilyFacts(caps, families, k);
    ChildFacts(caps, families, x);
    ChildFacts(caps, families, y);
    OneParent(caps, families, caps[x].from.value, caps[y].from.value);
  }

  lemma RevokedFamily(caps: Caps, families: Families, s: Slot, k: nat)
    requires FamiliesOk(caps, families) && s in caps && k in Reachable(families, Revoked(caps, families, s))
    ensures FamilyOk(Revoked(caps, families, s), Reachable(families, Revoked(caps, families, s)), k)
  {
    hide FamiliesOk;
    FamilyFacts(caps, families, k);
    var f := families[k][0];
    SelfNotDescendant(caps, families, s);
    forall x | x in families[k] ensures x in Revoked(caps, families, s) {
      SameParent(caps, families, k, f, x);
    }
  }

  lemma SelfNotDescendant(caps: Caps, families: Families, s: Slot)
    requires FamiliesOk(caps, families) && s in caps
    ensures !D.Descends(Tree(caps, families), s, s)
  {
    if D.Descends(Tree(caps, families), s, s) {
      D.DescendantsShareResource(Tree(caps, families), s, s);
    }
  }

  lemma RevokedKids(caps: Caps, families: Families, s: Slot, t: Slot)
    requires FamiliesOk(caps, families) && s in caps && t in Revoked(caps, families, s) && t != s
    requires forall x :: x in Kids(caps, families, t) ==> x in Revoked(caps, families, s)
    ensures var caps' := Revoked(caps, families, s); var families' := Reachable(families, caps');
      t in caps && caps'[t] == caps[t] && FirstOk(caps', families', t) && Kids(caps', families', t) == Kids(caps, families, t)
  {
    hide FamiliesOk;
    KidsFacts(caps, families, t);
    if caps[t].first.Some? {
      var f := caps[t].first.value;
      assert f in Kids(caps, families, t);
      if f == s {
        assert Revoked(caps, families, s)[f].family == caps[f].family;
      }
    }
  }

  lemma RevokedTree(caps: Caps, families: Families, s: Slot)
    requires FamiliesOk(caps, families) && s in caps
    ensures var caps' := Revoked(caps, families, s); var families' := Reachable(families, caps');
      Tree(caps', families') == D.AfterRevoke(Tree(caps, families), s) && FamiliesOk(caps', families')
  {
    hide Kids, FirstOk, FamilyOk, Reachable, D.Consistent, D.Descends, D.IsChild;
    var caps' := Revoked(caps, families, s);
    var families' := Reachable(families, caps');
    var t := Tree(caps, families);
    var t' := D.AfterRevoke(t, s);
    D.RevokeConsistent(t, s);
    SelfNotDescendant(caps, families, s);
    forall u | u in caps' ensures Derived(caps', families', u) == t'[u] && FirstOk(caps', families', u) {
      if u == s {
        NoKids(caps', families', s);
      } else {
        SurvivingKids(t, s, u);
        RevokedKids(caps, families, s, u);
      }
    }
    assert Tree(caps', families') == t';
    forall k | k in families' ensures FamilyOk(caps', families', k) {
      RevokedFamily(caps, families, s, k);
    }
  }

  lemma NoKids(caps: Caps, families: Families, s: Slot)
    requires s in caps && caps[s].first.None?
    ensures Kids(caps, families, s) == [] && FirstOk(caps, families, s)
  {
  }

  /// The children of a survivor survive.
  lemma SurvivingKids(t: D.Caps, s: Slot, u: Slot)
    requires D.Consistent(t) && s in t && u in D.AfterRevoke(t, s) && u != s && D.Consistent(D.AfterRevoke(t, s))
    ensures u in t && forall x :: x in t[u].children ==> x in D.AfterRevoke(t, s)
  {
    assert D.Links(D.AfterRevoke(t, s), u);
  }

  // ---------------------------------------------------------------- the resource lists

  /// What only changes the derivation side.
  lemma ResourcesSame(caps: Caps, caps': Caps, lists: map<Res, seq<Slot>>, owner: map<Res, Where>, at: map<Res, Ptr>)
    requires caps'.Keys == caps.Keys
    requires forall s :: s in caps ==> caps'[s].res == caps[s].res && caps'[s].stored == caps[s].stored && caps'[s].ptr == caps[s].ptr
    ensures Resources(caps', lists, owner, at) == Resources(caps, lists, owner, at)
  {
  }

  lemma CopiedResources(caps: Caps, families: Families, lists: map<Res, seq<Slot>>, owner: map<Res, Where>, at: map<Res, Ptr>,
                        src: Slot, dst: Slot, w: Where, p: Slot, k: nat, badge: Option<nat>)
    requires R.Consistent(Resources(caps, lists, owner, at)) && src in caps && dst !in caps && p in caps
    ensures caps[src].res in lists && R.CapOk(Resources(caps, lists, owner, at), src)
    ensures var t' := R.AfterCopy(Resources(caps, lists, owner, at), src, dst, w);
      && R.Consistent(t')
      && Resources(AfterCopy(caps, src, dst, w, p, k, badge), lists[caps[src].res := Inserted(lists[caps[src].res], dst)], owner, at) == t'
  {
    var t := Resources(caps, lists, owner, at);
    assert R.CapOk(t, src);
    R.CopyConsistent(t, src, dst, w);
  }

  lemma MovedResources(caps: Caps, families: Families, lists: map<Res, seq<Slot>>, owner: map<Res, Where>, at: map<Res, Ptr>, src: Slot, dst: Slot)
    requires R.Consistent(Resources(caps, lists, owner, at)) && FamiliesOk(caps, families) && src in caps && dst !in caps
    ensures var t := Resources(caps, lists, owner, at); R.CapOk(t, src) && R.ListOk(t, caps[src].res)
    ensures var t' := R.AfterMove(Resources(caps, lists, owner, at), src, dst);
      R.Consistent(t') && Resources(AfterMove(caps, families, src, dst), t'.lists, t'.owner, t'.at) == t'
  {
    var t := Resources(caps, lists, owner, at);
    assert R.CapOk(t, src) && R.ListOk(t, caps[src].res);
    R.MoveConsistent(t, src, dst);
    hide AfterMove, FamiliesOk, R.Consistent, R.ListOk;
    var t' := R.AfterMove(t, src, dst);
    var caps' := AfterMove(caps, families, src, dst);
    forall s ensures s in caps' <==> s in t'.caps {
      MovedAt(caps, families, src, dst, s);
    }
    forall s | s in caps' ensures R.Cap(caps'[s].res, caps'[s].stored, caps'[s].ptr) == t'.caps[s] {
      MovedAt(caps, families, src, dst, s);
    }
  }

  lemma RemovedResources(caps: Caps, lists: map<Res, seq<Slot>>, owner: map<Res, Where>, at: map<Res, Ptr>, s: Slot)
    requires R.Consistent(Resources(caps, lists, owner, at)) && s in caps
    ensures var t := Resources(caps, lists, owner, at);
      && R.CapOk(t, s) && R.ListOk(t, caps[s].res)
      && var t' := R.AfterDelete(t, s); R.Consistent(t') && Resources(caps - {s}, t'.lists, t'.owner, t'.at) == t'
    ensures var l := lists[caps[s].res]; |l| > 1 ==> l[1] in caps
  {
    var t := Resources(caps, lists, owner, at);
    assert R.CapOk(t, s) && R.ListOk(t, caps[s].res);
    R.DeleteConsistent(t, s);
    var l := lists[caps[s].res];
    assert |l| > 1 ==> l[1] in l && R.CapOk(t, l[1]);
  }

  // ---------------------------------------------------------------- what changes in the capabilities

  /// A copy of `src` in `dst`, which stores `w`: for the same resource at the same place, not an original, badged
  /// exactly if a badge is given, and then with that badge, else with that of the source. It is derived from the source,
  /// or if that is a plain copy itself, from what that is derived from. Of the others, only a parent without
  /// derivations changes: the copy is its first.
  ghost predicate CopiedTo(caps: Caps, caps': Caps, src: Slot, dst: Slot, w: Where, badge: Option<nat>) {
    && src in caps && dst in caps' && caps'.Keys == caps.Keys + {dst}
    && var c, c' := caps[src], caps'[dst];
    && c'.res == c.res && c'.ptr == c.ptr && c'.isNode == c.isNode && c'.bits == c.bits && c'.stored == w
    && !c'.original && (c'.badged <==> badge.Some?) && c'.badge == (if badge.Some? then badge.value else c.badge)
    && c'.from == (if c.original || c.badged then Some(src) else c.from) && c'.first.None?
    && forall s :: s in caps ==>
         caps'[s] == caps[s].(first := if c'.from == Some(s) && caps[s].first.None? then Some(dst) else caps[s].first)
  }

  /// The capability in `src` is in `dst`, and whoever was derived from it, or had it as first derivation, knows.
  /// Otherwise nothing differs, except that the slots `renewed` may store another address.
  ghost predicate MovedTo(caps: Caps, caps': Caps, src: Slot, dst: Slot, renewed: set<Slot>) {
    && src in caps && caps'.Keys == caps.Keys - {src} + {dst}
    && forall s :: s in caps' ==>
         var c := caps[if s == dst then src else s];
         && caps'[s] == c.(
              from := if c.from == Some(src) then Some(dst) else c.from,
              first := if c.first == Some(src) then Some(dst) else c.first,
              stored := caps'[s].stored)
         && (s !in renewed ==> caps'[s].stored == c.stored)
  }

  /// The capability in `slot` is gone. If it was the first derivation of another, the next on its list is now.
  ghost predicate DeletedFrom(caps: Caps, families: Families, caps': Caps, slot: Slot) {
    && slot in caps && caps'.Keys == caps.Keys - {slot}
    && forall s :: s in caps' ==> caps'[s] == caps[s].(first :=
         if caps[s].first != Some(slot) then caps[s].first
         else if caps[slot].family in families && |families[caps[slot].family]| > 1 then Some(families[caps[slot].family][1]) else None)
  }

  /// Every capability for resource `r` points at `ptr`, and nothing else differs.
  ghost predicate PointedTo(caps: Caps, caps': Caps, r: Res, ptr: Ptr) {
    && caps'.Keys == caps.Keys
    && forall s :: s in caps ==> caps'[s] == caps[s].(ptr := if caps[s].res == r then ptr else caps[s].ptr)
  }

  /// What was derived from `slot` is gone, and what was derived from that. The rest is as it was, but `slot` has no
  /// derivations.
  ghost predicate RevokedFrom(caps: Caps, caps': Caps, slot: Slot) {
    && slot in caps
    && (forall x :: x in caps' <==> x in caps && !DerivedFrom(caps, x, slot))
    && forall x :: x in caps' ==> caps'[x] == caps[x].(first := if x == slot then None else caps[x].first)
  }

  ghost predicate DerivedFrom(caps: Caps, x: Slot, slot: Slot) {
    && x in caps && caps[x].from.Some?
    && (caps[x].from == Some(slot) || (caps[x].from.value in caps && caps[caps[x].from.value].from == Some(slot)))
  }

  /// The capability in `slot` is an original for the new resource `r`, without a badge and without derivations, and
  /// the others are as they were.
  ghost predicate NewIn(caps: Caps, caps': Caps, slot: Slot, r: Res, ptr: Ptr, isNode: bool, bits: nat, w: Where) {
    && slot in caps' && caps' == caps[slot := caps'[slot]]
    && var c := caps'[slot];
    && c.res == r && c.ptr == ptr && c.isNode == isNode && c.bits == bits && c.stored == w
    && c.original && !c.badged && c.badge == 0 && c.from.None? && c.first.None?
  }

  lemma CopiedFields(caps: Caps, families: Families, src: Slot, dst: Slot, w: Where, p: Slot, k: nat, badge: Option<nat>)
    requires src in caps && p in caps && dst !in caps && JoinsFamily(caps, families, src, p, k)
    ensures CopiedTo(caps, AfterCopy(caps, src, dst, w, p, k, badge), src, dst, w, badge)
  {
  }

  lemma MovedFields(caps: Caps, families: Families, src: Slot, dst: Slot)
    requires FamiliesOk(caps, families) && src in caps && dst !in caps
    ensures MovedTo(caps, AfterMove(caps, families, src, dst), src, dst, {})
  {
    hide AfterMove, FamiliesOk;
    var caps' := AfterMove(caps, families, src, dst);
    forall s ensures s in caps' <==> s == dst || (s in caps && s != src) {
      MovedAt(caps, families, src, dst, s);
    }
    forall s | s in caps'
      ensures var c := caps[if s == dst then src else s];
        caps'[s] == c.(from := if c.from == Some(src) then Some(dst) else c.from, first := if c.first == Some(src) then Some(dst) else c.first)
    {
      MovedAt(caps, families, src, dst, s);
    }
  }

  lemma DeletedFields(caps: Caps, families: Families, slot: Slot)
    requires FamiliesOk(caps, families) && slot in caps
    ensures DeletedFrom(caps, families, Orphaned(caps, families, slot) - {slot}, slot)
  {
    var caps' := Orphaned(caps, families, slot) - {slot};
    hide FamiliesOk;
    forall s | s in caps ensures caps[s].first == Some(slot) <==> Heads(caps, families, slot) && caps[slot].from == Some(s) {
      PointsAt(caps, families, slot, s);
    }
    if caps[slot].from.Some? {
      ChildFacts(caps, families, slot);
    }
  }

  lemma RevokedFields(caps: Caps, families: Families, slot: Slot)
    requires FamiliesOk(caps, families) && slot in caps
    ensures RevokedFrom(caps, Revoked(caps, families, slot), slot)
  {
    SelfNotDescendant(caps, families, slot);
    hide FamiliesOk;
    var t, caps' := Tree(caps, families), Revoked(caps, families, slot);
    forall x ensures D.Descends(t, x, slot) <==> DerivedFrom(caps, x, slot) {
    }
    forall x ensures x in caps' <==> x in caps && !DerivedFrom(caps, x, slot) {
      assert x in D.Descendants(t, slot) <==> D.Descends(t, x, slot);
    }
  }

  // ---------------------------------------------------------------- the table

  class Table {
    var caps: Caps
    var lists: map<Res, seq<Slot>>
    var owner: map<Res, Where>
    var at: map<Res, Ptr>
    var families: Families
    var nextFamily: nat
    /// The resources that were freed with their last capability.
    var freed: set<Res>

    ghost function View(): R.Tables
      reads this
    {
      Resources(caps, lists, owner, at)
    }

    ghost predicate NewFamily()
      reads this
    {
      forall k :: k in families ==> k < nextFamily
    }

    ghost predicate Valid()
      reads this
    {
      R.Consistent(View()) && FamiliesOk(caps, families) && NewFamily()
    }

    constructor ()
      ensures Valid() && caps == map[] && lists == map[] && owner == map[] && at == map[] && freed == {}
    {
      caps, lists, owner, at, families, nextFamily, freed := map[], map[], map[], map[], map[], 0, {};
    }

    /// The list surgery of copy_capability on the derivation side.
    method JoinDerivations(src: Slot, dst: Slot, w: Where, ghost p: Slot, ghost k: nat)
      requires src in caps && dst !in caps && p in caps && NewFamily()
      requires if caps[src].original || caps[src].badged
        then p == src && k == (if caps[src].first.Some? && caps[src].first.value in caps then caps[caps[src].first.value].family else nextFamily)
        else caps[src].from == Some(p) && k == caps[src].family && caps[p].first.Some?
      requires k in families <==> caps[p].first.Some?
      requires caps[p].first.Some? ==> caps[p].first.value in caps
      modifies this`caps, this`families, this`nextFamily
      ensures caps == AfterCopy(old(caps), src, dst, w, p, k, None) && families == Joined(old(families), k, dst) && NewFamily()
    {
      var c := caps[src].(original := false, badged := false, stored := w, first := None);
      if caps[src].original || caps[src].badged {
        c := c.(from := Some(src));
        if caps[src].first.None? {
          c := c.(family := nextFamily);
          assert Inserted([], dst) == [dst];
          families := families[nextFamily := [dst]];
          caps := caps[src := caps[src].(first := Some(dst))];
          nextFamily := nextFamily + 1;
        } else {
          c := c.(family := caps[caps[src].first.value].family);
          families := families[c.family := Inserted(families[c.family], dst)];
        }
      } else {
        families := families[c.family := Inserted(families[c.family], dst)];
      }
      caps := caps[dst := c];
    }

    /// copy_capability
    method CopyCapability(src: Slot, dst: Slot, w: Where) returns (ghost p: Slot, ghost k: nat)
      requires Valid() && src in caps && dst !in caps && !caps[src].isNode
      modifies this`caps, this`lists, this`families, this`nextFamily
      ensures Valid() && JoinsFamily(old(caps), old(families), src, p, k) && p in old(caps) && old(caps)[src].res in old(lists)
      ensures caps == AfterCopy(old(caps), src, dst, w, p, k, None) && families == Joined(old(families), k, dst)
      ensures lists == old(lists)[old(caps)[src].res := Inserted(old(lists)[old(caps)[src].res], dst)]
    {
      hide FamiliesOk, R.Consistent, Kids, AfterCopy, Joined;
      KidsFacts(caps, families, src);
      NotOriginal(caps, families, src);
      if caps[src].original || caps[src].badged {
        p, k := src, if caps[src].first.Some? then caps[caps[src].first.value].family else nextFamily;
      } else {
        p, k := caps[src].from.value, caps[src].family;
      }
      CopyPlace(caps, families, src, p, k);
      CopiedTree(caps, families, src, dst, w, p, k, None);
      CopiedResources(caps, families, lists, owner, at, src, dst, w, p, k, None);
      lists := lists[caps[src].res := Inserted(lists[caps[src].res], dst)];
      JoinDerivations(src, dst, w, p, k);
    }

    /// The effect of copying or moving what is no capability: the memory of an emptied slot still has links, and the
    /// slot that is copied to stays empty.
    method Splice(dst: Slot, remains: Remains)
      requires Valid() && dst !in caps && LeadsInto(remains, lists, families, caps)
      modifies this`lists, this`families, this`caps
      ensures Valid() <==> Blank(remains)
      ensures caps.Keys == old(caps).Keys && View().caps == old(View()).caps && ShapeOf(caps) == ShapeOf(old(caps))
      ensures Blank(remains) ==> lists == old(lists) && families == old(families)
      ensures remains.parent.None? ==> caps == old(caps)
    {
      hide R.Consistent, FamiliesOk, Inserted, ShapeOf, LinkedLists, LinkedFamilies, LinkedFirst;
      SplicedIff(caps, families, lists, owner, at, dst, remains);
      lists, families, caps := LinkedLists(lists, dst, remains), LinkedFamilies(families, dst, remains), LinkedFirst(caps, dst, remains);
      SplicedKeys(old(families), dst, remains);
    }

    /// copy_capability, and the badge that node_copy may set.
    method CopyOccupied(src: Slot, dst: Slot, w: Where, badge: Option<nat>)
      requires Valid() && src in caps && dst !in caps && !caps[src].isNode && (badge.Some? ==> caps[src].original)
      modifies this`caps, this`lists, this`families, this`nextFamily
      ensures Valid() && var t := Tree(old(caps), old(families));
        && D.ParentOfCopy(t, src).Some? && D.ParentOfCopy(t, src).value in t
        && Tree(caps, families) == D.AfterCopy(t, src, dst, badge)
      ensures R.CapOk(old(View()), src) && View() == R.AfterCopy(old(View()), src, dst, w)
      ensures CopiedTo(old(caps), caps, src, dst, w, badge)
      ensures ShapeOf(caps) == ShapeOf(old(caps))[dst := C.Leaf]
    {
      hide FamiliesOk, R.Consistent, Kids, D.AfterCopy, Joined, JoinsFamily, Tree, R.AfterCopy, ShapeOf, CopiedTo;
      ghost var p, k := CopyCapability(src, dst, w);
      CopiedFields(old(caps), old(families), src, dst, w, p, k, badge);
      CopiedTree(old(caps), old(families), src, dst, w, p, k, badge);
      CopiedResources(old(caps), old(families), old(lists), owner, at, src, dst, w, p, k, badge);
      CopiedShape(old(caps), src, dst, w, p, k, badge);
      if badge.Some? {
        caps := caps[dst := caps[dst].(badge := badge.value, badged := true)];
      }
      assert caps == AfterCopy(old(caps), src, dst, w, p, k, badge);
      TreeKeys(old(caps), old(families));
    }

    /// The loop of update_capability_references.
    method WalkDerivations(list: seq<Slot>, dst: Slot)
      requires forall x :: x in list ==> x in caps
      modifies this`caps
      ensures caps == Walked(old(caps), list, dst)
    {
      var i := 0;
      assert caps == Walked(caps, list[..0], dst);
      while i < |list|
        invariant 0 <= i <= |list| && caps == Walked(old(caps), list[..i], dst)
      {
        assert list[..i + 1] == list[..i] + [list[i]];
        caps := caps[list[i] := caps[list[i]].(from := Some(dst))];
        i := i + 1;
      }
      assert list[..|list|] == list;
    }

    /// update_capability_references at the new slot, on the derivation side: the sibling list, the children,
    /// and the parent.
    method UpdateReferences(src: Slot, dst: Slot, ghost caps0: Caps)
      requires FamiliesOk(caps0, families) && src in caps0 && dst !in caps0 && caps == caps0[dst := caps0[src]]
      modifies this`caps, this`families
      ensures caps - {src} == AfterMove(caps0, old(families), src, dst)
      ensures families == Relisted(old(families), caps0[src], src, dst)
    {
      hide FamiliesOk, Replaced;
      ghost var families0 := families;
      MoveFacts(caps0, families, src, dst);
      var c := caps[dst];
      if c.from.Some? {
        families := families[c.family := Replaced(families[c.family], src, dst)];
      }
      if (c.original || c.badged) && c.first.Some? {
        WalkDerivations(families[caps[c.first.value].family], dst);
      } else {
        WalkedNone(caps, dst);
      }
      assert caps == Walked(caps0[dst := caps0[src]], WalkList(caps0, families0, src), dst);
      if c.from.Some? && families[c.family][0] == dst {
        caps := caps[c.from.value := caps[c.from.value].(first := Some(dst))];
      }
    }

    /// move_capability: the links rename the slot everywhere. The address that the capability stores, and the one in
    /// the block header, are still the old ones.
    method MoveCapability(src: Slot, dst: Slot)
      requires Valid() && src in caps && dst !in caps
      modifies this`caps, this`lists, this`families
      ensures Valid() && Tree(caps, families) == D.AfterMove(Tree(old(caps), old(families)), src, dst)
      ensures R.CapOk(old(View()), src) && View() == R.AfterMove(old(View()), src, dst)
      ensures MovedTo(old(caps), caps, src, dst, {})
      ensures ShapeOf(caps) == (ShapeOf(old(caps)) - {src})[dst := ShapeOf(old(caps))[src]]
    {
      hide FamiliesOk, R.Consistent, R.ListOk, Relisted, AfterMove, Tree, D.AfterMove, ShapeOf, MovedTo;
      MovedTree(caps, families, src, dst);
      MovedFields(caps, families, src, dst);
      MovedResources(caps, families, lists, owner, at, src, dst);
      MovedShape(caps, families, src, dst);
      MovedKeys(caps, families, src, dst);
      var c := caps[src];
      caps := caps[dst := c];
      lists := lists[c.res := Replaced(lists[c.res], src, dst)];
      UpdateReferences(src, dst, old(caps));
      caps := caps - {src};
    }

    /// A capability is copied over one that is there: the list of the latter still has the slot.
    method Overwrite(src: Slot, dst: Slot)
      requires Valid() && src in caps && dst in caps && caps[src].res != caps[dst].res
      modifies this`caps, this`lists
      ensures !Valid()
    {
      var r := caps[src].res;
      OnAList(View(), src);
      OnAList(View(), dst);
      ghost var q := caps[dst].res;
      assert R.CapOk(View(), dst);
      lists := lists[r := Replaced(lists[r], src, dst)];
      caps := caps[dst := caps[src]] - {src};
      assert dst in lists[q] && !R.ListOk(View(), q);
    }

    /// The address of a capability, and that in the header if it is the first on its list.
    method SetAddress(s: Slot, w: Where) returns (first: bool)
      requires Valid() && s in caps
      modifies this`caps, this`owner
      ensures Valid() && caps == old(caps)[s := old(caps)[s].(stored := w)]
      ensures caps[s].res in lists && lists[caps[s].res] != [] && (first <==> lists[caps[s].res][0] == s)
      ensures owner == if first then old(owner)[caps[s].res := w] else old(owner)
      ensures Tree(caps, families) == Tree(old(caps), families) && ShapeOf(caps) == ShapeOf(old(caps))
    {
      hide FamiliesOk, R.Consistent, R.CapOk, R.ListOk, Tree;
      ReaddressedResources(caps, lists, owner, at, s, w);
      SameTree(caps, caps[s := caps[s].(stored := w)], families);
      first := lists[caps[s].res][0] == s;
      if first {
        owner := owner[caps[s].res := w];
      }
      caps := caps[s := caps[s].(stored := w)];
    }

    /// delete_capability: the first of a resource list hands the resource over to the next, and the last one
    /// frees it. Which of the two it is, the list says.
    method DeleteCapability(slot: Slot)
      requires R.Consistent(View()) && slot in caps
      modifies this`caps, this`lists, this`owner, this`at, this`freed
      ensures R.Consistent(View()) && caps == old(caps) - {slot}
      ensures R.CapOk(old(View()), slot) && R.ListOk(old(View()), old(caps)[slot].res) && View() == R.AfterDelete(old(View()), slot)
      ensures freed == old(freed) + if old(lists)[old(caps)[slot].res] == [slot] then {old(caps)[slot].res} else {}
      ensures lists.Keys == old(lists).Keys - if old(lists)[old(caps)[slot].res] == [slot] then {old(caps)[slot].res} else {}
    {
      hide R.Consistent;
      RemovedResources(caps, lists, owner, at, slot);
      var r := caps[slot].res;
      var list := lists[r];
      if list[0] == slot && |list| > 1 {
        owner := owner[r := caps[list[1]].stored];
      }
      caps := caps - {slot};
      if list[0] == slot && |list| == 1 {
        assert list == [slot];
        lists, owner, at := lists - {r}, owner - {r}, at - {r};
        freed := freed + {r};
      } else {
        lists := lists[r := Dropped(list, slot)];
      }
    }

    /// merge_derivation_lists and delete_capability without what destructors do. The tree stays consistent exactly
    /// when the capability has no derivations: those of a deleted original point at an empty slot, those of a badged
    /// copy are no longer on their new parent's list. If that copy is not alone on its own list, the loop that
    /// merges the lists has not ended after any number of steps.
    method Remove(slot: Slot, steps: nat) returns (hangs: bool)
      requires Valid() && slot in caps
      modifies this
      ensures var c := old(caps)[slot];
        hangs <==> c.badged && c.from.Some? && c.first.Some? && c.family in old(families) && |old(families)[c.family]| > 1
      ensures !hangs ==> (Valid() <==> old(caps)[slot].first.None?)
      ensures old(caps)[slot].first.None? ==>
        && var t := Tree(old(caps), old(families));
        && (old(caps)[slot].from.Some? ==> D.OnListOf(t, slot, old(caps)[slot].from.value))
        && Tree(caps, families) == D.AfterDelete(t, slot) && DeletedFrom(old(caps), old(families), caps, slot)
        && R.CapOk(old(View()), slot) && R.ListOk(old(View()), old(caps)[slot].res) && View() == R.AfterDelete(old(View()), slot)
        && ShapeOf(caps) == ShapeOf(old(caps)) - {slot}
        && freed == old(freed) + (if old(caps)[slot].original then {old(caps)[slot].res} else {})
        && lists.Keys == old(lists).Keys - (if old(caps)[slot].original then {old(caps)[slot].res} else {})
    {
      hide FamiliesOk, R.Consistent, R.CapOk, R.ListOk, R.AfterDelete, D.AfterDelete, D.OnListOf, Tree, ShapeOf, DeletedFrom;
      if caps[slot].first.None? {
        DeleteChildless(slot);
        return false;
      }
      if !caps[slot].badged {
        DeleteParent(slot);
        return false;
      }
      BadgedFacts(caps, families, slot);
      DeleteFacts(caps, families, slot);
      var list := families[caps[slot].family];
      if |list| > 1 {
        var ended := MergeEnds(|list|, |families[caps[caps[slot].first.value].family]|, IndexOf(list, slot), steps);
        return !ended;
      }
      DeleteBadged(slot);
      return false;
    }

    /// A badged copy with derivations that is alone on its list. merge_derivation_lists makes its parent theirs
    /// and then clears the derivation pointer by which the parent would know them.
    method DeleteBadged(slot: Slot)
      requires Valid() && slot in caps && caps[slot].badged && caps[slot].first.Some?
      modifies this
      ensures !Valid()
    {
      hide FamiliesOk, R.Consistent, Tree, R.CapOk, R.ListOk, R.AfterDelete, Kids, Resources;
      BadgedFacts(caps, families, slot);
      ghost var p, x := caps[slot].from.value, caps[slot].first.value;
      Merge(slot);
      DeleteCapability(slot);
      Unknown(caps, families, p, x);
    }

    /// merge_derivation_lists for a capability that is alone on its list.
    method Merge(slot: Slot)
      requires slot in caps && Merges(caps, families, slot) && caps[slot].from.value in caps && caps[slot].from.value != slot
      requires var x := caps[slot].first.value;
        && x in caps && x != slot && x != caps[slot].from.value && caps[x].family in families && x in families[caps[x].family]
        && forall y :: y in families[caps[x].family] ==> y in caps
      modifies this`caps, this`families
      ensures caps.Keys == old(caps).Keys && View() == old(View())
      ensures caps[old(caps)[slot].first.value].from == old(caps)[slot].from && caps[old(caps)[slot].from.value].first == None
    {
      hide Resources;
      var c := caps[slot];
      var p, x := c.from.value, c.first.value;
      WalkDerivations(families[caps[x].family], p);
      caps := caps[p := caps[p].(first := c.first)];
      caps := caps[p := caps[p].(first := None)];
      families := families - {c.family};
      ResourcesSame(old(caps), caps, lists, owner, at);
    }

    method DeleteChildless(slot: Slot)
      requires Valid() && slot in caps && caps[slot].first.None?
      modifies this
      ensures Valid() && var t := Tree(old(caps), old(families));
        && (old(caps)[slot].from.Some? ==> D.OnListOf(t, slot, old(caps)[slot].from.value))
        && Tree(caps, families) == D.AfterDelete(t, slot)
        && freed == old(freed) + (if old(caps)[slot].original then {old(caps)[slot].res} else {})
        && lists.Keys == old(lists).Keys - (if old(caps)[slot].original then {old(caps)[slot].res} else {})
      ensures R.CapOk(old(View()), slot) && R.ListOk(old(View()), old(caps)[slot].res) && View() == R.AfterDelete(old(View()), slot)
      ensures ShapeOf(caps) == ShapeOf(old(caps)) - {slot} && DeletedFrom(old(caps), old(families), caps, slot)
    {
      hide FamiliesOk, R.Consistent, R.ListOk, R.CapOk, R.AfterDelete, Tree, D.AfterDelete, D.OnListOf, Distinct, Dropped, ShapeOf, DeletedFrom;
      DeletedFields(caps, families, slot);
      ShapeWithout(caps, families, slot);
      DeletedTree(caps, families, slot);
      OnlyCapability(caps, families, lists, owner, at, slot);
      if caps[slot].from.Some? {
        DeleteFacts(caps, families, slot);
      }
      var c := caps[slot];
      ghost var families0 := families;
      if c.from.Some? {
        var list := families[c.family];
        if list[0] == slot {
          caps := caps[c.from.value := caps[c.from.value].(first := if |list| == 1 then None else Some(list[1]))];
        }
        if |list| == 1 {
          families := families - {c.family};
        } else {
          families := families[c.family := Dropped(list, slot)];
        }
      }
      assert caps == Orphaned(old(caps), families0, slot) && families == Unlisted(families0, c, slot);
      ResourcesSame(old(caps), caps, lists, owner, at);
      DeleteCapability(slot);
    }

    /// An original with derivations: its derivation list is that of nobody, so only the resource list changes.
    method DeleteParent(slot: Slot)
      requires Valid() && slot in caps && caps[slot].first.Some? && !caps[slot].badged
      modifies this
      ensures !Valid()
    {
      hide FamiliesOk, R.Consistent, Tree, R.CapOk, R.ListOk, R.AfterDelete, Resources;
      KidsFacts(caps, families, slot);
      ghost var x := caps[slot].first.value;
      assert x in Kids(caps, families, slot);
      DeleteCapability(slot);
      Dangling(caps, families, slot, x);
    }

    /// The loops of node_revoke: everything derived from the capability goes, and nothing else does. The resource is
    /// never freed: at each deletion its list still holds the revoked capability.
    method DeleteDerivations(slot: Slot)
      requires Valid() && slot in caps
      modifies this
      ensures Valid() && freed == old(freed) && Tree(caps, families) == D.AfterRevoke(Tree(old(caps), old(families)), slot)
      ensures at == old(at) && OwnerBut(old(owner), owner, old(caps)[slot].res) && RevokedFrom(old(caps), caps, slot)
      ensures var gone := D.Descendants(Tree(old(caps), old(families)), slot);
        && slot !in gone && View().caps == old(View()).caps - gone && ShapeOf(caps) == ShapeOf(old(caps)) - gone
      ensures old(caps)[slot].original ==> forall x :: x in caps && caps[x].res == old(caps)[slot].res ==> x == slot
    {
      hide FamiliesOk, R.Consistent, D.AfterRevoke, D.Descendants, Reachable, Tree, Revoked, ShapeOf, OwnerBut, RevokedFrom;
      RevokedTree(caps, families, slot);
      RevokedFields(caps, families, slot);
      RevokedView(caps, families, slot);
      ghost var gone := D.Descendants(Tree(caps, families), slot);
      if caps[slot].original {
        RevokedOriginal(caps, families, slot);
      }
      WalkAll(slot);
      ghost var before := caps;
      caps := caps[slot := caps[slot].(first := None)];
      RevokedAt(old(caps), families, slot);
      ResourcesSame(before, caps, lists, owner, at);
      ViewWithout(old(caps), caps, gone, old(View()), View());
      // lists that nothing leads to any more
      families := Reachable(families, caps);
      ReachableKeys(old(families), caps);
    }

    /// The loops of node_revoke.
    method WalkAll(slot: Slot)
      requires Valid() && slot in caps
      modifies this`caps, this`lists, this`owner, this`at, this`freed
      ensures slot in caps && caps[slot] == old(caps)[slot]
      ensures caps[slot := caps[slot].(first := None)] == Revoked(old(caps), families, slot)
      ensures R.Consistent(View()) && freed == old(freed) && at == old(at) && OwnerBut(old(owner), owner, old(caps)[slot].res)
    {
      hide FamiliesOk, R.Consistent, Revoked, Walking;
      RevokeStart(caps, families, slot);
      if caps[slot].first.Some? {
        var list := families[caps[caps[slot].first.value].family];
        var i := 0;
        while i < |list|
          invariant 0 <= i <= |list| && Walking(old(caps), families, slot, list, i, caps)
          invariant R.Consistent(View()) && freed == old(freed) && at == old(at) && OwnerBut(old(owner), owner, old(caps)[slot].res)
        {
          DeleteDerived(slot, list, i, old(caps));
          i := i + 1;
        }
        RevokeEnd(old(caps), families, slot, list, caps);
      }
    }

    /// One round of node_revoke: a derivation and its own derivations.
    method DeleteDerived(slot: Slot, list: seq<Slot>, i: nat, ghost caps0: Caps)
      requires FamiliesOk(caps0, families) && i < |list| && Walking(caps0, families, slot, list, i, caps) && R.Consistent(View())
      modifies this`caps, this`lists, this`owner, this`at, this`freed
      ensures Walking(caps0, families, slot, list, i + 1, caps) && R.Consistent(View()) && freed == old(freed)
      ensures at == old(at) && slot in caps0 && OwnerBut(old(owner), owner, caps0[slot].res)
    {
      hide FamiliesOk, R.Consistent, R.CapOk, R.ListOk, R.AfterDelete, Kids, Walking, Distinct;
      WalkStep(caps0, families, slot, list, i, caps);
      var c := list[i];
      ghost var before := caps;
      var ds := [];
      if (caps[c].original || caps[c].badged) && caps[c].first.Some? {
        ds := families[caps[caps[c].first.value].family];
      }
      var j := 0;
      assert caps == before - (set x | x in ds[..0]);
      while j < |ds|
        invariant 0 <= j <= |ds| && caps == before - (set x | x in ds[..j])
        invariant R.Consistent(View()) && freed == old(freed) && at == old(at) && OwnerBut(old(owner), owner, caps0[slot].res)
      {
        assert ds[..j + 1] == ds[..j] + [ds[j]];
        NotYet(ds, j);
        NotLast(caps, lists, owner, at, slot, ds[j]);
        DeleteOneOf(ds[j]);
        j := j + 1;
      }
      assert ds[..|ds|] == ds;
      NotLast(caps, lists, owner, at, slot, c);
      DeleteOneOf(c);
      WalkRound(caps0, families, slot, list, i, before, ds, caps);
    }

    /// delete_capability of one among several.
    method DeleteOneOf(slot: Slot)
      requires R.Consistent(View()) && slot in caps && caps[slot].res in lists && lists[caps[slot].res] != [slot]
      modifies this`caps, this`lists, this`owner, this`at, this`freed
      ensures R.Consistent(View()) && caps == old(caps) - {slot} && freed == old(freed)
      ensures at == old(at) && OwnerBut(old(owner), owner, old(caps)[slot].res)
    {
      DeleteCapability(slot);
    }

    /// populate_capability_slot for a fresh resource at `ptr`: an original, which owns the resource.
    method Populate(slot: Slot, r: Res, ptr: Ptr, isNode: bool, bits: nat, w: Where)
      requires Valid() && slot !in caps && r !in lists
      modifies this`caps, this`lists, this`owner, this`at
      ensures Valid() && NewIn(old(caps), caps, slot, r, ptr, isNode, bits, w)
      ensures lists == old(lists)[r := [slot]] && owner == old(owner)[r := w] && at == old(at)[r := ptr]
      ensures ShapeOf(caps) == ShapeOf(old(caps))[slot := if isNode then C.Node(r, bits) else C.Leaf]
    {
      hide R.Consistent, FamiliesOk, ShapeOf;
      var c := Capability(r, w, ptr, isNode, bits, true, false, 0, None, None, 0);
      PopulatedResources(caps, lists, owner, at, slot, r, ptr, c);
      PopulatedTree(caps, families, View(), slot, c);
      caps := caps[slot := c];
      lists, owner, at := lists[r := [slot]], owner[r := w], at[r := ptr];
    }

    /// The end of update_capability_resource for the capability in `s`: along the list of its resource. Every
    /// capability for it, and no other, points at the new address afterwards.
    method BlockMoved(s: Slot, ptr: Ptr)
      requires Valid() && s in caps
      modifies this`caps, this`at
      ensures Valid() && View() == R.AfterBlockMove(old(View()), old(caps)[s].res, ptr)
      ensures Tree(caps, families) == Tree(old(caps), families) && ShapeOf(caps) == ShapeOf(old(caps))
      ensures PointedTo(old(caps), caps, old(caps)[s].res, ptr) && at == old(at)[old(caps)[s].res := ptr]
    {
      hide FamiliesOk, R.Consistent, R.CapOk, R.ListOk, Tree, Retargeted, R.AfterBlockMove, ShapeOf, PointedTo;
      OnAList(View(), s);
      var r := caps[s].res;
      BlockFacts(caps, lists, owner, at, r);
      R.BlockMoveConsistent(View(), r, ptr);
      RetargetedIs(caps, lists, owner, at, r, ptr);
      Retarget(lists[r], ptr);
      at := at[r := ptr];
      RetargetedFields(old(caps), lists[r], r, ptr);
      PointedSame(old(caps), caps, r, ptr);
      SameTree(old(caps), caps, families);
    }

    /// on_node_moved: update_capability_references on every occupied slot of the node `n`. Slots keep their names when
    /// their node moves, but the links between them survive only if the node is safe.
    method NodeMoved(n: Res, slots: nat) returns (torn: bool)
      requires Valid() && Within(caps, n, slots)
      ensures torn <==> !NodeSafe(caps, lists, families, n)
    {
      hide FamiliesOk, R.Consistent, SlotSafe;
      torn := false;
      for i := 0 to slots
        invariant !torn <==> forall s :: s in caps && s.In? && s.node == n && s.index < i ==> SlotSafe(caps, lists, families, n, s)
      {
        if In(n, i) in caps {
          var safe := SlotMoved(In(n, i), slots);
          torn := torn || !safe;
        }
      }
    }

    /// The lists of one slot of a moved node.
    method SlotMoved(s: Slot, slots: nat) returns (safe: bool)
      requires Valid() && s in caps && s.In? && Within(caps, s.node, slots)
      ensures safe <==> SlotSafe(caps, lists, families, s.node, s)
    {
      hide FamiliesOk, R.Consistent, M.Safe, M.FamilySafe, TimesIn;
      var c, n := caps[s], s.node;
      SlotFacts(caps, families, lists, owner, at, s, slots);
      safe := M.RenewList(TimesIn(lists[c.res], n), slots);
      if c.from.Some? {
        var ok := M.RenewFamily(TimesIn(families[c.family], n), TimeIn(c.from.value, n), slots);
        safe := safe && ok;
      }
      if c.first.Some? {
        var ok := M.RenewFamily(TimesIn(families[caps[c.first.value].family], n), TimeIn(s, n), slots);
        safe := safe && ok;
      }
    }

    /// The loop of update_capability_resource.
    method Retarget(list: seq<Slot>, ptr: Ptr)
      requires forall s :: s in list ==> s in caps
      modifies this`caps
      ensures caps == Retargeted(old(caps), list, ptr)
    {
      var i := 0;
      assert caps == Retargeted(caps, list[..0], ptr);
      while i < |list|
        invariant 0 <= i <= |list| && caps == Retargeted(old(caps), list[..i], ptr)
      {
        assert list[..i + 1] == list[..i] + [list[i]];
        caps := caps[list[i] := caps[list[i]].(ptr := ptr)];
        i := i + 1;
      }
      assert list[..|list|] == list;
    }
  }

  /// Only the header of resource `r` differs.
  ghost predicate OwnerBut(owner: map<Res, Where>, owner': map<Res, Where>, r: Res) {
    owner'.Keys == owner.Keys && forall q :: q in owner && q != r ==> owner'[q] == owner[q]
  }

  // ---------------------------------------------------------------- links to nothing

  function LinkedLists(lists: map<Res, seq<Slot>>, dst: Slot, remains: Remains): map<Res, seq<Slot>> {
    if remains.list.Some? && remains.list.value in lists
    then lists[remains.list.value := Inserted(lists[remains.list.value], dst)] else lists
  }

  function LinkedFamilies(families: Families, dst: Slot, remains: Remains): Families {
    if remains.family.Some? && remains.family.value in families
    then families[remains.family.value := Inserted(families[remains.family.value], dst)] else families
  }

  function LinkedFirst(caps: Caps, dst: Slot, remains: Remains): Caps {
    if remains.parent.Some? && remains.parent.value in caps
    then caps[remains.parent.value := caps[remains.parent.value].(first := Some(dst))] else caps
  }

  lemma SplicedKeys(families: Families, dst: Slot, remains: Remains)
    ensures LinkedFamilies(families, dst, remains).Keys == families.Keys
  {
  }

  /// An empty slot that something leads to makes the lists inconsistent.
  lemma SplicedIff(caps: Caps, families: Families, lists: map<Res, seq<Slot>>, owner: map<Res, Where>, at: map<Res, Ptr>, dst: Slot, remains: Remains)
    requires R.Consistent(Resources(caps, lists, owner, at)) && FamiliesOk(caps, families) && dst !in caps && LeadsInto(remains, lists, families, caps)
    ensures var caps', families', lists' := LinkedFirst(caps, dst, remains), LinkedFamilies(families, dst, remains), LinkedLists(lists, dst, remains);
      && ((R.Consistent(Resources(caps', lists', owner, at)) && FamiliesOk(caps', families')) <==> Blank(remains))
      && (Blank(remains) ==> families' == families && lists' == lists) && (remains.parent.None? ==> caps' == caps)
      && caps'.Keys == caps.Keys && ShapeOf(caps') == ShapeOf(caps)
      && Resources(caps', lists', owner, at).caps == Resources(caps, lists, owner, at).caps
  {
    hide R.Consistent, FamiliesOk, Inserted, ShapeOf;
    var caps', families', lists' := LinkedFirst(caps, dst, remains), LinkedFamilies(families, dst, remains), LinkedLists(lists, dst, remains);
    ResourcesSame(caps, caps', lists, owner, at);
    SameShape(caps, caps');
    if remains.list.Some? {
      ListedNowhere(Resources(caps', lists', owner, at), remains.list.value, lists[remains.list.value], dst);
    }
    if remains.family.Some? {
      FamilyNowhere(caps', families', remains.family.value, families[remains.family.value], dst);
    }
    if remains.parent.Some? {
      FirstNowhere(caps', families', remains.parent.value, dst);
    }
  }

  lemma ListedNowhere(t: R.Tables, r: Res, list: seq<Slot>, x: Slot)
    requires x !in t.caps && r in t.lists && t.lists[r] == Inserted(list, x)
    ensures !R.Consistent(t)
  {
    assert x in t.lists[r] && !R.ListOk(t, r);
  }

  lemma FamilyNowhere(caps: Caps, families: Families, k: nat, list: seq<Slot>, x: Slot)
    requires x !in caps && k in families && families[k] == Inserted(list, x)
    ensures !FamiliesOk(caps, families)
  {
    assert x in families[k] && !FamilyOk(caps, families, k);
  }

  lemma FirstNowhere(caps: Caps, families: Families, p: Slot, x: Slot)
    requires x !in caps && p in caps && caps[p].first == Some(x)
    ensures !FamiliesOk(caps, families)
  {
    assert !FirstOk(caps, families, p);
  }

  lemma SameShape(caps: Caps, caps': Caps)
    requires caps'.Keys == caps.Keys && forall s :: s in caps ==> caps'[s] == caps[s].(first := caps'[s].first)
    ensures ShapeOf(caps') == ShapeOf(caps)
  {
  }

  // ---------------------------------------------------------------- moved nodes

  function TimeIn(s: Slot, n: Res): Option<nat> { if s.In? && s.node == n then Some(s.index) else None }

  /// Which slots of node `n` a list goes through.
  function TimesIn(list: seq<Slot>, n: Res): (w: M.Times)
    ensures |w| == |list| && forall i :: 0 <= i < |w| ==> w[i] == TimeIn(list[i], n)
  {
    seq(|list|, i requires 0 <= i < |list| => TimeIn(list[i], n))
  }

  /// The list of the resource, that of the siblings and that of the derivations survive a move of the node `n`.
  ghost predicate SlotSafe(caps: Caps, lists: map<Res, seq<Slot>>, families: Families, n: Res, s: Slot) {
    && s in caps && caps[s].res in lists && M.Safe(TimesIn(lists[caps[s].res], n))
    && (caps[s].from.Some? ==> caps[s].family in families && M.FamilySafe(TimesIn(families[caps[s].family], n), TimeIn(caps[s].from.value, n)))
    && (caps[s].first.Some? ==>
          && caps[s].first.value in caps && caps[caps[s].first.value].family in families
          && M.FamilySafe(TimesIn(families[caps[caps[s].first.value].family], n), TimeIn(s, n)))
  }

  ghost predicate NodeSafe(caps: Caps, lists: map<Res, seq<Slot>>, families: Families, n: Res) {
    forall s :: s in caps && s.In? && s.node == n ==> SlotSafe(caps, lists, families, n, s)
  }

  /// A node of so many slots.
  ghost predicate Within(caps: Caps, n: Res, slots: nat) { forall s :: s in caps && s.In? && s.node == n ==> s.index < slots }

  /// What renewing the list relies on.
  ghost predicate Timed(list: seq<Slot>, n: Res, parent: Option<nat>, slots: nat) {
    var w := TimesIn(list, n);
    && |w| > 0 && M.OneAtATime(w) && M.AllBefore(w, slots)
    && (parent.Some? ==> parent.value < slots && forall i :: 0 <= i < |w| ==> w[i] != parent)
  }

  lemma ListTimed(caps: Caps, list: seq<Slot>, n: Res, slots: nat, parent: Option<Slot>)
    requires list != [] && Distinct(list) && (Within(caps, n, slots)) && (forall x :: x in list ==> x in caps)
    requires parent.Some? ==> parent.value in caps && parent.value !in list
    ensures Timed(list, n, if parent.Some? then TimeIn(parent.value, n) else None, slots)
  {
    var w := TimesIn(list, n);
    forall i | 0 <= i < |w| && w[i].Some? ensures w[i].value < slots && list[i] == In(n, w[i].value) {
      assert list[i] in list;
    }
  }

  /// The list of those derived from the same capability as `x`.
  lemma FamilyTimed(caps: Caps, families: Families, n: Res, slots: nat, x: Slot)
    requires FamiliesOk(caps, families) && x in caps && caps[x].from.Some? && Within(caps, n, slots)
    ensures caps[x].family in families && Timed(families[caps[x].family], n, TimeIn(caps[x].from.value, n), slots)
  {
    hide FamiliesOk;
    ChildFacts(caps, families, x);
    var k, p := caps[x].family, caps[x].from.value;
    FamilyFacts(caps, families, k);
    if p in families[k] {
      SameParent(caps, families, k, x, p);
      NotOwnChild(caps, families, p);
    }
    ListTimed(caps, families[k], n, slots, Some(p));
  }

  lemma FirstIn(caps: Caps, families: Families, s: Slot)
    requires FirstOk(caps, families, s) && caps[s].first.Some?
    ensures caps[s].first.value in caps
  {
  }

  lemma SlotFacts(caps: Caps, families: Families, lists: map<Res, seq<Slot>>, owner: map<Res, Where>, at: map<Res, Ptr>, s: Slot, slots: nat)
    requires FamiliesOk(caps, families) && R.Consistent(Resources(caps, lists, owner, at)) && s in caps && s.In?
    requires Within(caps, s.node, slots)
    ensures caps[s].res in lists && Timed(lists[caps[s].res], s.node, None, slots)
    ensures caps[s].from.Some? ==> caps[s].family in families && Timed(families[caps[s].family], s.node, TimeIn(caps[s].from.value, s.node), slots)
    ensures caps[s].first.Some? ==>
      && caps[s].first.value in caps && caps[caps[s].first.value].family in families
      && Timed(families[caps[caps[s].first.value].family], s.node, TimeIn(s, s.node), slots)
  {
    hide FamiliesOk, R.Consistent, Kids, Timed;
    OnAList(Resources(caps, lists, owner, at), s);
    BlockFacts(caps, lists, owner, at, caps[s].res);
    ListTimed(caps, lists[caps[s].res], s.node, slots, None);
    if caps[s].from.Some? {
      FamilyTimed(caps, families, s.node, slots, s);
    }
    if caps[s].first.Some? {
      KidsFacts(caps, families, s);
      FirstIn(caps, families, s);
      PointsAt(caps, families, caps[s].first.value, s);
      FamilyTimed(caps, families, s.node, slots, caps[s].first.value);
    }
  }

  /// A capability in the same node as the first that was derived from it: a move of the node tears them apart.
  lemma PairUnsafe(caps: Caps, lists: map<Res, seq<Slot>>, families: Families, n: Res, i: nat, j: nat)
    requires FamiliesOk(caps, families) && In(n, i) in caps && caps[In(n, i)].first == Some(In(n, j))
    ensures !NodeSafe(caps, lists, families, n)
  {
    var s := In(n, i);
    assert FirstOk(caps, families, s);
    assert TimesIn(families[caps[In(n, j)].family], n)[0] == Some(j);
    assert !SlotSafe(caps, lists, families, n, s);
  }

  /// The splice of merge_derivation_lists for a capability that is not alone on its list of `n`, and the loop over the
  /// `m` derivations: whether it has ended after so many steps.
  method MergeEnds(n: nat, m: nat, i: nat, steps: nat) returns (ended: bool)
    requires i < n && 1 < n && 0 < m
    ensures !ended
  {
    var s := M.Listed(n);
    var ds := M.Listed(m);
    L.SpliceBeforeLast(s[i], ds[0], s, ds);
    var link := L.WalkOn(ds[0], steps, ds);
    ended := link == null;
  }

  /// LIST_INSERT_NO_CONTAINER on a list of `n`, link by link: whether the documented list is linked both ways then.
  method InsertLinks(n: nat) returns (linked: bool)
    requires 0 < n
    ensures linked <==> n == 1
  {
    var s := M.Listed(n);
    var x := new L.Member();
    ghost var m := if n == 1 then 0 else n - 2;
    assert n > 1 ==> s[n - 1].prev == L.Prev(s, n - 1);
    L.Insert(s[0], x, s, m);
    var t := L.Documented(s, x);
    if n > 1 {
      assert t[|t| - 1].prev != L.Prev(t, |t| - 1);
    }
    linked := L.WellLinked(t);
  }

  lemma OnAList(t: R.Tables, s: Slot)
    requires R.Consistent(t) && s in t.caps
    ensures t.caps[s].res in t.lists
  {
    assert R.CapOk(t, s);
  }

  lemma ReaddressedResources(caps: Caps, lists: map<Res, seq<Slot>>, owner: map<Res, Where>, at: map<Res, Ptr>, s: Slot, w: Where)
    requires R.Consistent(Resources(caps, lists, owner, at)) && s in caps
    ensures caps[s].res in lists && lists[caps[s].res] != []
    ensures R.Consistent(Resources(caps[s := caps[s].(stored := w)], lists, if lists[caps[s].res][0] == s then owner[caps[s].res := w] else owner, at))
  {
    var t := Resources(caps, lists, owner, at);
    assert R.CapOk(t, s) && R.ListOk(t, caps[s].res);
    R.ReaddressConsistent(t, s, w);
    assert Resources(caps[s := caps[s].(stored := w)], lists, if lists[caps[s].res][0] == s then owner[caps[s].res := w] else owner, at)
      == R.AfterReaddress(t, s, w);
  }

  lemma CopiedShape(caps: Caps, src: Slot, dst: Slot, w: Where, p: Slot, k: nat, badge: Option<nat>)
    requires src in caps && dst !in caps && p in caps && !caps[src].isNode
    ensures ShapeOf(AfterCopy(caps, src, dst, w, p, k, badge)) == ShapeOf(caps)[dst := C.Leaf]
  {
  }

  lemma MovedShape(caps: Caps, families: Families, src: Slot, dst: Slot)
    requires FamiliesOk(caps, families) && src in caps && dst !in caps
    ensures ShapeOf(AfterMove(caps, families, src, dst)) == (ShapeOf(caps) - {src})[dst := ShapeOf(caps)[src]]
  {
    hide FamiliesOk, AfterMove;
    var sh, sh' := ShapeOf(AfterMove(caps, families, src, dst)), (ShapeOf(caps) - {src})[dst := ShapeOf(caps)[src]];
    forall s ensures (s in sh <==> s in sh') && (s in sh ==> sh[s] == sh'[s]) {
      MovedAt(caps, families, src, dst, s);
    }
  }

  lemma ShapeWithout(caps: Caps, families: Families, s: Slot)
    requires s in caps
    ensures ShapeOf(Orphaned(caps, families, s) - {s}) == ShapeOf(caps) - {s}
  {
  }

  /// merge_derivation_lists has something to merge.
  ghost predicate Merges(caps: Caps, families: Families, slot: Slot) {
    && slot in caps && caps[slot].badged && caps[slot].from.Some? && caps[slot].first.Some? && caps[slot].family in families
  }

  lemma WalkedNone(caps: Caps, dst: Slot)
    ensures Walked(caps, [], dst) == caps
  {
  }

  /// What the steps of a move rely on.
  lemma MoveFacts(caps: Caps, families: Families, src: Slot, dst: Slot)
    requires FamiliesOk(caps, families) && src in caps && dst !in caps
    ensures forall x :: x in WalkList(caps, families, src) ==> x in caps && x != src
    ensures caps[src].from.Some? ==>
      && caps[src].from.value in caps && caps[src].from.value != src && caps[src].family in families
      && Replaced(families[caps[src].family], src, dst) != []
    ensures caps[src].first.Some? ==>
      && caps[src].first.value in caps && (caps[src].original || caps[src].badged)
      && var k := caps[caps[src].first.value].family;
      && k in families && WalkList(caps, families, src) == families[k] && (caps[src].from.Some? ==> k != caps[src].family)
    ensures caps[src].first.None? ==> WalkList(caps, families, src) == []
  {
    KidsFacts(caps, families, src);
    WalkReaches(caps, families, src);
    if caps[src].from.Some? {
      ChildFacts(caps, families, src);
      if caps[src].first.Some? {
        OneParent(caps, families, src, caps[src].from.value);
      }
    }
  }

  lemma OneElement(l: seq<Slot>, s: Slot)
    requires Distinct(l) && l != [] && forall x :: x in l ==> x == s
    ensures l == [s]
  {
    var first, last := l[0], l[|l| - 1];
    assert first in l && last in l;
    assert |l| > 1 ==> first != last;
  }

  /// A capability without derivations is the only one for its resource exactly when it is the original.
  lemma OnlyCapability(caps: Caps, families: Families, lists: map<Res, seq<Slot>>, owner: map<Res, Where>, at: map<Res, Ptr>, s: Slot)
    requires FamiliesOk(caps, families) && R.Consistent(Resources(caps, lists, owner, at)) && s in caps && caps[s].first.None?
    ensures caps[s].res in lists && (lists[caps[s].res] == [s] <==> caps[s].original)
  {
    var t, v, r := Tree(caps, families), Resources(caps, lists, owner, at), caps[s].res;
    KidsFacts(caps, families, s);
    assert R.CapOk(v, s) && R.ListOk(v, r);
    R.OnList(v, r);
    if caps[s].original {
      D.LonelyOriginal(t, s);
      forall x | x in lists[r] ensures x == s {
        assert x in t;
      }
      OneElement(lists[r], s);
    } else {
      NotOriginal(caps, families, s);
      ChildFacts(caps, families, s);
      assert caps[s].from.value in v.caps;
    }
  }

  lemma DeleteFacts(caps: Caps, families: Families, s: Slot)
    requires FamiliesOk(caps, families) && s in caps && caps[s].from.Some?
    ensures caps[s].from.value in caps && caps[s].from.value != s && caps[s].family in families
    ensures var l := families[caps[s].family]; l != [] && s in l && Distinct(l)
  {
    ChildFacts(caps, families, s);
    FamilyFacts(caps, families, caps[s].family);
  }

  /// How far node_revoke has come.
  ghost predicate Walking(caps0: Caps, families: Families, slot: Slot, list: seq<Slot>, i: nat, caps: Caps) {
    && slot in caps0 && list == Kids(caps0, families, slot) && i <= |list|
    && caps == caps0 - D.Gone(Tree(caps0, families), slot, i)
  }

  lemma RevokeStart(caps: Caps, families: Families, slot: Slot)
    requires FamiliesOk(caps, families) && slot in caps
    ensures caps[slot].first.Some? ==>
      && caps[slot].first.value in caps && caps[caps[slot].first.value].family in families
      && Walking(caps, families, slot, families[caps[caps[slot].first.value].family], 0, caps)
    ensures caps[slot].first.None? ==> Revoked(caps, families, slot) == caps[slot := caps[slot].(first := None)]
  {
    KidsFacts(caps, families, slot);
    var t := Tree(caps, families);
    D.GoneAll(t, slot);
    assert D.Gone(t, slot, 0) == {};
    SelfNotDescendant(caps, families, slot);
  }

  lemma RevokeEnd(caps0: Caps, families: Families, slot: Slot, list: seq<Slot>, caps: Caps)
    requires FamiliesOk(caps0, families) && Walking(caps0, families, slot, list, |list|, caps)
    ensures slot in caps && caps[slot] == caps0[slot] && caps[slot := caps[slot].(first := None)] == Revoked(caps0, families, slot)
  {
    D.GoneAll(Tree(caps0, families), slot);
    SelfNotDescendant(caps0, families, slot);
  }

  /// What the revocation leaves is as it was.
  lemma RevokedView(caps: Caps, families: Families, slot: Slot)
    requires FamiliesOk(caps, families) && slot in caps
    ensures var caps', gone := Revoked(caps, families, slot), D.Descendants(Tree(caps, families), slot);
      && slot !in gone && ShapeOf(caps') == ShapeOf(caps) - gone && caps'.Keys == caps.Keys - gone
      && forall s :: s in caps' ==> caps'[s] == caps[s].(first := caps'[s].first)
  {
    SelfNotDescendant(caps, families, slot);
  }

  lemma ViewWithout(caps: Caps, caps': Caps, gone: set<Slot>, v: R.Tables, v': R.Tables)
    requires caps'.Keys == caps.Keys - gone && forall s :: s in caps' ==> caps'[s] == caps[s].(first := caps'[s].first)
    requires v == Resources(caps, v.lists, v.owner, v.at) && v' == Resources(caps', v'.lists, v'.owner, v'.at)
    ensures v'.caps == v.caps - gone
  {
  }

  lemma RevokedAt(caps: Caps, families: Families, slot: Slot)
    requires slot in caps
    ensures forall x :: x in Revoked(caps, families, slot) ==> x in caps && Revoked(caps, families, slot)[x].res == caps[x].res
  {
  }

  lemma ReachableKeys(families: Families, caps: Caps)
    ensures Reachable(families, caps).Keys <= families.Keys
  {
  }

  lemma RevokedOriginal(caps: Caps, families: Families, slot: Slot)
    requires FamiliesOk(caps, families) && slot in caps && caps[slot].original
    ensures forall x :: x in Revoked(caps, families, slot) && caps[x].res == caps[slot].res ==> x == slot
  {
    D.RevokedAlone(Tree(caps, families), slot);
    SelfNotDescendant(caps, families, slot);
    var t' := D.AfterRevoke(Tree(caps, families), slot);
    forall x | x in Revoked(caps, families, slot) && caps[x].res == caps[slot].res ensures x == slot {
      assert x in t' && t'[x].res == caps[x].res;
    }
  }

  /// The next derivation is still there, with its own derivations.
  lemma WalkStep(caps0: Caps, families: Families, slot: Slot, list: seq<Slot>, i: nat, caps: Caps)
    requires FamiliesOk(caps0, families) && i < |list| && Walking(caps0, families, slot, list, i, caps)
    ensures slot in caps0 && list[i] in caps0
    ensures var c := list[i]; var ds := Kids(caps0, families, c);
      && slot in caps && caps[slot] == caps0[slot] && c in caps && c != slot && caps[c] == caps0[c] && caps[c].res == caps[slot].res
      && Distinct(ds) && (forall d :: d in ds ==> d in caps && d != c && d != slot && caps[d].res == caps[slot].res)
      && (caps[c].first.Some? ==>
            && (caps[c].original || caps[c].badged) && caps[c].first.value in caps
            && caps[caps[c].first.value].family in families && ds == families[caps[caps[c].first.value].family])
      && (caps[c].first.None? ==> ds == [])
  {
    var t := Tree(caps0, families);
    D.RoundFacts(t, slot, i);
    var c := list[i];
    assert t[slot].children == list && c in caps0;
    KidsFacts(caps0, families, c);
  }

  lemma WalkRound(caps0: Caps, families: Families, slot: Slot, list: seq<Slot>, i: nat, before: Caps, ds: seq<Slot>, caps: Caps)
    requires FamiliesOk(caps0, families) && i < |list| && Walking(caps0, families, slot, list, i, before)
    requires list[i] in caps0 && ds == Kids(caps0, families, list[i]) && caps == before - (set x | x in ds) - {list[i]}
    ensures Walking(caps0, families, slot, list, i + 1, caps)
  {
    var t := Tree(caps0, families);
    D.GoneStep(t, slot, i);
    assert t[slot].children == list && t[list[i]].children == ds;
  }

  lemma NotYet(ds: seq<Slot>, j: nat)
    requires Distinct(ds) && j < |ds|
    ensures ds[j] !in ds[..j] && ds[j] in ds
  {
  }

  /// A resource whose list holds another capability is not freed.
  lemma NotLast(caps: Caps, lists: map<Res, seq<Slot>>, owner: map<Res, Where>, at: map<Res, Ptr>, slot: Slot, x: Slot)
    requires R.Consistent(Resources(caps, lists, owner, at)) && slot in caps && x in caps && x != slot && caps[x].res == caps[slot].res
    ensures caps[x].res in lists && lists[caps[x].res] != [x]
  {
    assert R.CapOk(Resources(caps, lists, owner, at), slot);
  }

  /// The list of a resource holds all its capabilities.
  lemma BlockFacts(caps: Caps, lists: map<Res, seq<Slot>>, owner: map<Res, Where>, at: map<Res, Ptr>, r: Res)
    requires R.Consistent(Resources(caps, lists, owner, at)) && r in lists
    ensures lists[r] != [] && Distinct(lists[r]) && forall s :: s in lists[r] <==> s in caps && caps[s].res == r
  {
    var t := Resources(caps, lists, owner, at);
    assert R.ListOk(t, r);
    R.OnList(t, r);
    assert forall s :: s in caps ==> t.caps[s].res == caps[s].res;
  }

  function Retargeted(caps: Caps, list: seq<Slot>, ptr: Ptr): Caps {
    map s | s in caps :: if s in list then caps[s].(ptr := ptr) else caps[s]
  }

  lemma RetargetedIs(caps: Caps, lists: map<Res, seq<Slot>>, owner: map<Res, Where>, at: map<Res, Ptr>, r: Res, ptr: Ptr)
    requires r in lists && forall s :: s in lists[r] <==> s in caps && caps[s].res == r
    ensures var caps' := Retargeted(caps, lists[r], ptr);
      && Resources(caps', lists, owner, at[r := ptr]) == R.AfterBlockMove(Resources(caps, lists, owner, at), r, ptr)
      && caps'.Keys == caps.Keys
      && (forall s :: s in caps ==> caps'[s] == caps[s].(ptr := caps'[s].ptr)) && ShapeOf(caps') == ShapeOf(caps)
  {
    RetargetedSame(caps, lists[r], ptr);
    hide ShapeOf;
    var caps', t := Retargeted(caps, lists[r], ptr), Resources(caps, lists, owner, at);
    var c, c' := Resources(caps', lists, owner, at[r := ptr]).caps, R.AfterBlockMove(t, r, ptr).caps;
    assert c.Keys == c'.Keys;
    forall s | s in c ensures c[s] == c'[s] {
      assert t.caps[s] == R.Cap(caps[s].res, caps[s].stored, caps[s].ptr);
    }
  }

  lemma RetargetedFields(caps: Caps, list: seq<Slot>, r: Res, ptr: Ptr)
    requires forall s :: s in list <==> s in caps && caps[s].res == r
    ensures PointedTo(caps, Retargeted(caps, list, ptr), r, ptr)
  {
  }

  lemma PointedSame(caps: Caps, caps': Caps, r: Res, ptr: Ptr)
    requires PointedTo(caps, caps', r, ptr)
    ensures caps'.Keys == caps.Keys && forall x :: x in caps' ==> caps'[x] == caps[x].(ptr := caps'[x].ptr)
  {
  }

  lemma RetargetedSame(caps: Caps, list: seq<Slot>, ptr: Ptr)
    ensures var caps' := Retargeted(caps, list, ptr);
      caps'.Keys == caps.Keys && (forall s :: s in caps ==> caps'[s] == caps[s].(ptr := caps'[s].ptr)) && ShapeOf(caps') == ShapeOf(caps)
  {
  }

  /// Pointers to blocks and addresses are no part of the derivation tree.
  lemma SameTree(caps: Caps, caps': Caps, families: Families)
    requires caps'.Keys == caps.Keys && forall s :: s in caps ==> caps'[s] == caps[s].(ptr := caps'[s].ptr, stored := caps'[s].stored)
    ensures Tree(caps', families) == Tree(caps, families) && (FamiliesOk(caps, families) ==> FamiliesOk(caps', families))
  {
    forall s | s in caps ensures Derived(caps', families, s) == Derived(caps, families, s) {
    }
    assert Tree(caps', families) == Tree(caps, families);
    if FamiliesOk(caps, families) {
      forall s | s in caps' ensures FirstOk(caps', families, s) {
        assert FirstOk(caps, families, s);
      }
      forall k | k in families ensures FamilyOk(caps', families, k) {
        assert FamilyOk(caps, families, k);
      }
    }
  }

  lemma PopulatedResources(caps: Caps, lists: map<Res, seq<Slot>>, owner: map<Res, Where>, at: map<Res, Ptr>, slot: Slot, r: Res, ptr: Ptr, c: Capability)
    requires R.Consistent(Resources(caps, lists, owner, at)) && slot !in caps && r !in lists && c.res == r && c.ptr == ptr
    ensures R.Consistent(Resources(caps[slot := c], lists[r := [slot]], owner[r := c.stored], at[r := ptr]))
    ensures ShapeOf(caps[slot := c]) == ShapeOf(caps)[slot := if c.isNode then C.Node(r, c.bits) else C.Leaf]
  {
    hide R.Consistent;
    var t := Resources(caps, lists, owner, at);
    R.PopulateConsistent(t, slot, R.Cap(r, c.stored, ptr));
    assert Resources(caps[slot := c], lists[r := [slot]], owner[r := c.stored], at[r := ptr]) == R.AfterPopulate(t, slot, R.Cap(r, c.stored, ptr));
  }

  lemma PopulatedTree(caps: Caps, families: Families, v: R.Tables, slot: Slot, c: Capability)
    requires FamiliesOk(caps, families) && slot !in caps && c.original && !c.badged && c.from.None? && c.first.None?
    requires R.Consistent(v) && v.caps.Keys == caps.Keys && (forall s :: s in caps ==> v.caps[s].res == caps[s].res) && c.res !in v.lists
    ensures FamiliesOk(caps[slot := c], families)
  {
    var caps' := caps[slot := c];
    var t := Tree(caps, families);
    var d := D.Derived(c.res, c.isNode, true, false, c.badge, None, []);
    forall s | s in caps ensures caps[s].res != c.res {
      assert R.CapOk(v, s);
    }
    D.PopulateConsistent(t, slot, d);
    hide D.Consistent, R.Consistent;
    forall s | s in caps' ensures Derived(caps', families, s) == (if s == slot then d else t[s]) && FirstOk(caps', families, s) {
      assert s != slot ==> FirstOk(caps, families, s);
    }
    assert Tree(caps', families) == t[slot := d];
    forall k | k in families ensures FamilyOk(caps', families, k) {
      assert FamilyOk(caps, families, k);
    }
  }

  lemma TreeKeys(caps: Caps, families: Families)
    ensures Tree(caps, families).Keys == caps.Keys
  {
  }

  /// What the deletion of a badged copy with derivations relies on.
  lemma BadgedFacts(caps: Caps, families: Families, s: Slot)
    requires FamiliesOk(caps, families) && s in caps && caps[s].badged && caps[s].first.Some?
    ensures Merges(caps, families, s) && caps[s].from.value in caps && caps[s].from.value != s
    ensures var x := caps[s].first.value;
      && x in caps && x != s && x != caps[s].from.value && caps[x].family in families && x in families[caps[x].family]
      && forall y :: y in families[caps[x].family] ==> y in caps
  {
    KidsFacts(caps, families, s);
    assert D.Links(Tree(caps, families), s);
    ChildFacts(caps, families, s);
    assert D.Links(Tree(caps, families), caps[s].from.value);
    var x := caps[s].first.value;
    assert x in Kids(caps, families, s);
  }

  /// A derived capability whose parent is gone.
  lemma Dangling(caps: Caps, families: Families, p: Slot, x: Slot)
    requires p !in caps && x in caps && caps[x].from == Some(p)
    ensures !FamiliesOk(caps, families)
  {
    assert !D.Links(Tree(caps, families), x);
  }

  /// A derived capability that is on no list of its parent.
  lemma Unknown(caps: Caps, families: Families, p: Slot, x: Slot)
    requires p in caps && x in caps && caps[x].from == Some(p) && caps[p].first.None?
    ensures !FamiliesOk(caps, families)
  {
    assert Kids(caps, families, p) == [];
    assert !D.Links(Tree(caps, families), x);
  }

  /// Whatever is not an original was derived.
  lemma NotOriginal(caps: Caps, families: Families, s: Slot)
    requires FamiliesOk(caps, families) && s in caps
    ensures caps[s].original <==> caps[s].from.None?
  {
    assert D.Links(Tree(caps, families), s);
  }
}

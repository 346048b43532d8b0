/**
The derivation tree of capabilities (core/kernel/capabilities.c): copies and badged copies of an
original, and revocation. LIST_INSERT_NO_CONTAINER is taken at its documented effect, and only
capabilities without derivations of their own are deleted.
*/
module Derivations {
  import opened Basics
  import opened SlotLists

  /// `parent` is derived_from; `children` is the list that `derivation` points at.
  datatype Derived = Derived(
    res: Res, isNode: bool, original: bool, badged: bool, badge: nat, parent: Option<Slot>, children: seq<Slot>)

  type Caps = map<Slot, Derived>

  ghost predicate Links(caps: Caps, s: Slot) {
    && s in caps
    && var c := caps[s];
    && (c.original <==> c.parent.None?)
    && !(c.original && c.badged)
    && (c.isNode ==> c.original && c.children == [])
    && Distinct(c.children)
    && (c.children != [] ==> c.original || c.badged)
    && (forall x :: x in c.children ==> x in caps && caps[x].parent == Some(s))
    && (c.parent.Some? ==> IsChild(caps, c, s, c.parent.value))
  }

  /// `s` is on the list of `p`, for the same resource; only an original has badged children.
  ghost predicate IsChild(caps: Caps, c: Derived, s: Slot, p: Slot) {
    && p in caps && p != s && s in caps[p].children && caps[p].res == c.res
    && (caps[p].original || caps[p].badged)
    && (c.badged ==> caps[p].original)
  }

  ghost predicate Consistent(caps: Caps) {
    && (forall s {:trigger Links(caps, s)} :: s in caps ==> Links(caps, s))
    && (forall s, t :: s in caps && t in caps && caps[s].original && caps[t].original && caps[s].res == caps[t].res ==> s == t)
  }

  /// `x` was derived from `s`, in one step or in two.
  ghost predicate Descends(caps: Caps, x: Slot, s: Slot) {
    && x in caps && caps[x].parent.Some?
    && var p := caps[x].parent.value;
    && (p == s || (p in caps && caps[p].parent == Some(s)))
  }

  /// The tree has at most two levels below an original: a capability is original, or its parent is, or its grandparent is.
  lemma TwoLevels(caps: Caps, x: Slot)
    requires Consistent(caps) && x in caps && !caps[x].original
    ensures exists o :: o in caps && caps[o].original && caps[o].res == caps[x].res && Descends(caps, x, o)
  {
    assert Links(caps, x);
    var p := caps[x].parent.value;
    assert Links(caps, p);
    if !caps[p].original {
      var o := caps[p].parent.value;
      assert Links(caps, o);
      assert Descends(caps, x, o);
    } else {
      assert Descends(caps, x, p);
    }
  }

  lemma GrandparentIsOriginal(caps: Caps, x: Slot)
    requires Consistent(caps) && x in caps && caps[x].parent.Some?
    requires caps[x].parent.value in caps && caps[caps[x].parent.value].parent.Some?
    ensures var o := caps[caps[x].parent.value].parent.value; o in caps && caps[o].original && caps[o].parent.None?
  {
    assert Links(caps, x);
    var p := caps[x].parent.value;
    assert Links(caps, p);
    assert Links(caps, caps[p].parent.value);
  }

  /// Every capability for the resource of an original descends from it.
  lemma AllDescend(caps: Caps, s: Slot, x: Slot)
    requires Consistent(caps) && s in caps && caps[s].original && x in caps && caps[x].res == caps[s].res && x != s
    ensures Descends(caps, x, s)
  {
    assert !caps[x].original;
    TwoLevels(caps, x);
  }

  // ---------------------------------------------------------------- a new original

  lemma PopulateConsistent(caps: Caps, slot: Slot, c: Derived)
    requires Consistent(caps) && slot !in caps && (forall s :: s in caps ==> caps[s].res != c.res)
    requires c.original && !c.badged && c.parent.None? && c.children == []
    ensures Consistent(caps[slot := c])
  {
    var caps' := caps[slot := c];
    forall s | s in caps' ensures Links(caps', s) {
      if s != slot {
        assert Links(caps, s);
        assert caps[s].parent.Some? ==> IsChild(caps, caps[s], s, caps[s].parent.value);
      }
    }
  }

  // ---------------------------------------------------------------- copying

  /// The slot whose list a copy of `s` joins.
  function ParentOfCopy(caps: Caps, s: Slot): Option<Slot>
    requires s in caps
  {
    if caps[s].original || caps[s].badged then Some(s) else caps[s].parent
  }

  ghost function AfterCopy(caps: Caps, src: Slot, dst: Slot, badge: Option<nat>): Caps
    requires src in caps && ParentOfCopy(caps, src).Some? && ParentOfCopy(caps, src).value in caps
  {
    var p := ParentOfCopy(caps, src).value;
    var c := caps[src].(original := false, badged := badge.Some?, badge := if badge.Some? then badge.value else caps[src].badge,
                        parent := Some(p), children := []);
    caps[dst := c][p := caps[p].(children := Inserted(caps[p].children, dst))]
  }

  lemma CopyConsistent(caps: Caps, src: Slot, dst: Slot, badge: Option<nat>)
    requires Consistent(caps) && src in caps && dst !in caps && !caps[src].isNode && (badge.Some? ==> caps[src].original)
    ensures ParentOfCopy(caps, src).Some? && ParentOfCopy(caps, src).value in caps
    ensures Consistent(AfterCopy(caps, src, dst, badge))
  {
    assert Links(caps, src);
    var p := ParentOfCopy(caps, src).value;
    assert Links(caps, p);
    var caps' := AfterCopy(caps, src, dst, badge);
    forall s | s in caps' ensures Links(caps', s) {
      assert s != dst ==> Links(caps, s);
      CopyLinks(caps, src, dst, badge, s);
    }
  }

  /// With the macro in place of its description, for a parent that has derivations already: the tree stays
  /// consistent exactly when the last of them points back at the one before it.
  lemma CopyByMacro(caps: Caps, src: Slot, dst: Slot, badge: Option<nat>, m: nat)
    requires Consistent(caps) && src in caps && dst !in caps && !caps[src].isNode && (badge.Some? ==> caps[src].original)
    requires ParentOfCopy(caps, src).Some? && ParentOfCopy(caps, src).value in caps
    requires |caps[ParentOfCopy(caps, src).value].children| >= 2 ==> m + 2 <= |caps[ParentOfCopy(caps, src).value].children|
    ensures var p := ParentOfCopy(caps, src).value; var list := caps[p].children;
      var caps' := AfterCopy(caps, src, dst, badge);
      Consistent(caps'[p := caps'[p].(children := Spliced(list, dst, m))]) <==> |list| <= 1 || m + 2 == |list|
  {
    var p := ParentOfCopy(caps, src).value;
    var list, caps' := caps[p].children, AfterCopy(caps, src, dst, badge);
    assert Links(caps, p);
    SplicedIs(list, dst, m);
    CopyConsistent(caps, src, dst, badge);
    if |list| <= 1 || m + 2 == |list| {
      assert caps'[p := caps'[p].(children := Spliced(list, dst, m))] == caps';
    } else {
      var lost, caps2 := list[m + 1], caps'[p := caps'[p].(children := Spliced(list, dst, m))];
      assert lost in caps && caps[lost].parent == Some(p);
      assert !Links(caps2, lost) by {
        assert Links(caps, lost);
        assert IsChild(caps, caps[lost], lost, p);
      }
    }
  }

  lemma CopyLinks(caps: Caps, src: Slot, dst: Slot, badge: Option<nat>, s: Slot)
    requires src in caps && dst !in caps && !caps[src].isNode && (badge.Some? ==> caps[src].original)
    requires ParentOfCopy(caps, src).Some? && Links(caps, src) && Links(caps, ParentOfCopy(caps, src).value)
    requires s == dst || Links(caps, s)
    ensures Links(AfterCopy(caps, src, dst, badge), s)
  {
    var p := ParentOfCopy(caps, src).value;
    var caps' := AfterCopy(caps, src, dst, badge);
    assert dst !in caps[p].children;
    if s == dst {
      assert IsChild(caps', caps'[dst], dst, p);
    } else {
      assert dst !in caps[s].children;
      if caps[s].parent.Some? {
        assert IsChild(caps, caps[s], s, caps[s].parent.value);
        assert IsChild(caps', caps'[s], s, caps[s].parent.value);
      }
    }
  }

  // ---------------------------------------------------------------- moving

  function Renamed(o: Option<Slot>, src: Slot, dst: Slot): Option<Slot> {
    if o == Some(src) then Some(dst) else o
  }

  /// Everything that named `src` names `dst`.
  ghost function AfterMove(caps: Caps, src: Slot, dst: Slot): Caps
    requires src in caps
  {
    map s | s in caps.Keys - {src} + {dst} ::
      var c := caps[if s == dst then src else s];
      c.(parent := Renamed(c.parent, src, dst), children := Replaced(c.children, src, dst))
  }

  lemma MoveConsistent(caps: Caps, src: Slot, dst: Slot)
    requires Consistent(caps) && src in caps && dst !in caps
    ensures Consistent(AfterMove(caps, src, dst))
  {
    var caps' := AfterMove(caps, src, dst);
    forall s | s in caps' ensures Links(caps', s) {
      var s0 := if s == dst then src else s;
      assert Links(caps, s0);
      assert caps[s0].parent.Some? ==> Links(caps, caps[s0].parent.value);
      MoveLinks(caps, src, dst, s);
    }
  }

  lemma MoveLinks(caps: Caps, src: Slot, dst: Slot, s: Slot)
    requires src in caps && dst !in caps && (s == dst || s in caps) && s != src
    requires var s0 := if s == dst then src else s;
      Links(caps, s0) && (caps[s0].parent.Some? ==> Links(caps, caps[s0].parent.value))
    ensures Links(AfterMove(caps, src, dst), s)
  {
    var s0, caps' := if s == dst then src else s, AfterMove(caps, src, dst);
    var c0 := caps[s0];
    assert dst !in c0.children;
    ReplacedOk(c0.children, src, dst);
    assert src in c0.children ==> s0 != src;
    forall x | x in caps'[s].children ensures x in caps' && caps'[x].parent == Some(s) {
      var x0 := if x == dst then src else x;
      assert x0 in c0.children && caps[x0].parent == Some(s0);
    }
    if c0.parent.Some? {
      var p := c0.parent.value;
      assert dst !in caps[p].children;
      ReplacedOk(caps[p].children, src, dst);
      assert IsChild(caps, c0, s0, p);
      assert IsChild(caps', caps'[s], s, if p == src then dst else p);
    }
  }

  // ---------------------------------------------------------------- deleting

  ghost predicate OnListOf(caps: Caps, s: Slot, p: Slot) {
    p in caps && p != s && s in caps[p].children && Distinct(caps[p].children)
  }

  ghost function AfterDelete(caps: Caps, s: Slot): Caps
    requires s in caps && (caps[s].parent.Some? ==> OnListOf(caps, s, caps[s].parent.value))
  {
    if caps[s].parent.None? then caps - {s}
    else
      var p := caps[s].parent.value;
      caps[p := caps[p].(children := Dropped(caps[p].children, s))] - {s}
  }

  lemma DeleteConsistent(caps: Caps, s: Slot)
    requires Consistent(caps) && s in caps && caps[s].children == []
    ensures caps[s].parent.Some? ==> Links(caps, caps[s].parent.value) && IsChild(caps, caps[s], s, caps[s].parent.value)
    ensures Consistent(AfterDelete(caps, s))
  {
    assert Links(caps, s);
    if caps[s].parent.Some? {
      assert Links(caps, caps[s].parent.value);
    }
    var caps' := AfterDelete(caps, s);
    forall t | t in caps' ensures Links(caps', t) {
      assert Links(caps, t);
      assert caps[t].parent.Some? ==> IsChild(caps, caps[t], t, caps[t].parent.value);
    }
  }

  // ---------------------------------------------------------------- revoking

  /// What is gone once the first `i` derivations of `s` have been walked.
  ghost function Gone(caps: Caps, s: Slot, i: nat): set<Slot>
    requires s in caps && i <= |caps[s].children|
  {
    set x | x in caps && caps[x].parent.Some? &&
            (x in caps[s].children[..i] || caps[x].parent.value in caps[s].children[..i])
  }

  ghost function Descendants(caps: Caps, s: Slot): set<Slot> { set x | x in caps && Descends(caps, x, s) }

  lemma GoneAll(caps: Caps, s: Slot)
    requires Consistent(caps) && s in caps
    ensures Gone(caps, s, |caps[s].children|) == Descendants(caps, s)
  {
    var cs := caps[s].children;
    assert cs[..|cs|] == cs;
    assert Links(caps, s);
    forall x | x in caps ensures x in Gone(caps, s, |cs|) <==> Descends(caps, x, s) {
      assert Links(caps, x);
      if caps[x].parent.Some? {
        assert Links(caps, caps[x].parent.value);
      }
    }
  }

  /// The next derivation and its own derivations go.
  lemma GoneStep(caps: Caps, s: Slot, i: nat)
    requires Consistent(caps) && s in caps && i < |caps[s].children|
    ensures var c := caps[s].children[i];
      c in caps && Gone(caps, s, i + 1) == Gone(caps, s, i) + (set x | x in caps[c].children) + {c}
    ensures var c := caps[s].children[i]; !caps[c].original && !caps[c].badged ==> caps[c].children == []
  {
    assert Links(caps, s);
    var c := caps[s].children[i];
    assert c in caps[s].children;
    assert Links(caps, c);
    assert caps[s].children[..i + 1] == caps[s].children[..i] + [c];
    forall x | x in caps && caps[x].parent == Some(c) ensures x in caps[c].children {
      assert Links(caps, x);
    }
  }

  lemma DescendantsShareResource(caps: Caps, s: Slot, x: Slot)
    requires Consistent(caps) && s in caps && Descends(caps, x, s)
    ensures caps[x].res == caps[s].res && x != s
  {
    assert Links(caps, x);
    var p := caps[x].parent.value;
    assert Links(caps, p);
    assert Links(caps, s);
  }

  ghost function AfterRevoke(caps: Caps, s: Slot): Caps
    requires s in caps
  {
    (caps - Descendants(caps, s))[s := caps[s].(children := [])]
  }

  lemma RevokeConsistent(caps: Caps, s: Slot)
    requires Consistent(caps) && s in caps
    ensures Consistent(AfterRevoke(caps, s))
  {
    var caps' := AfterRevoke(caps, s);
    assert Links(caps, s);
    forall t | t in caps' ensures Links(caps', t) {
      assert Links(caps, t);
      RevokeLinks(caps, s, t);
    }
  }

  lemma RevokeLinks(caps: Caps, s: Slot, t: Slot)
    requires Consistent(caps) && s in caps && t in AfterRevoke(caps, s)
    ensures Links(AfterRevoke(caps, s), t)
  {
    var caps' := AfterRevoke(caps, s);
    assert Links(caps, t) && Links(caps, s);
    if Descends(caps, s, s) {
      DescendantsShareResource(caps, s, s);
    }
    if t != s {
      forall x | x in caps[t].children ensures x in caps' && caps'[x].parent == Some(t) {
        assert Links(caps, x);
        assert !Descends(caps, x, s);
      }
      if caps[t].parent.Some? {
        var p := caps[t].parent.value;
        assert IsChild(caps, caps[t], t, p) && Links(caps, p);
        if caps[p].parent.Some? {
          GrandparentIsOriginal(caps, t);
        }
        assert p != s && !Descends(caps, p, s);
      }
    } else if caps[s].parent.Some? {
      var p := caps[s].parent.value;
      assert IsChild(caps, caps[s], s, p) && Links(caps, p);
      if caps[p].parent.Some? {
        GrandparentIsOriginal(caps, s);
      }
      assert !Descends(caps, p, s);
    }
  }

  /// An original without derivations is the only capability for its resource.
  lemma LonelyOriginal(caps: Caps, s: Slot)
    requires Consistent(caps) && s in caps && caps[s].original && caps[s].children == []
    ensures forall x :: x in caps && x != s ==> caps[x].res != caps[s].res
  {
    forall x | x in caps && x != s ensures caps[x].res != caps[s].res {
      if !caps[x].original {
        TwoLevels(caps, x);
        var o :| o in caps && caps[o].original && caps[o].res == caps[x].res && Descends(caps, x, o);
        assert Links(caps, x) && Links(caps, caps[x].parent.value);
        assert caps[o].children != [];
      }
    }
  }

  lemma RevokedAlone(caps: Caps, s: Slot)
    requires Consistent(caps) && s in caps
    ensures caps[s].original ==> forall x :: x in AfterRevoke(caps, s) && caps[x].res == caps[s].res ==> x == s
  {
    forall x | caps[s].original && x in caps && caps[x].res == caps[s].res && x != s ensures Descends(caps, x, s) {
      AllDescend(caps, s, x);
    }
  }

  /// The walk never meets the revoked capability, nor a derivation that is already gone.
  lemma RoundFacts(caps: Caps, s: Slot, i: nat)
    requires Consistent(caps) && s in caps && i <= |caps[s].children|
    ensures s !in Gone(caps, s, i)
    ensures i < |caps[s].children| ==>
      var c := caps[s].children[i];
      && c in caps && c != s && c !in Gone(caps, s, i) && caps[c].res == caps[s].res
      && Distinct(caps[c].children)
      && forall d :: d in caps[c].children ==> d in caps && d != s && d != c && d !in Gone(caps, s, i) && caps[d].res == caps[s].res
  {
    assert Links(caps, s);
    if caps[s].parent.Some? {
      var p := caps[s].parent.value;
      assert IsChild(caps, caps[s], s, p) && Links(caps, p);
      if caps[p].parent.Some? {
        GrandparentIsOriginal(caps, s);
      }
    }
    if i < |caps[s].children| {
      var c := caps[s].children[i];
      assert c in caps[s].children && Links(caps, c) && IsChild(caps, caps[c], c, s);
      forall d | d in caps[c].children ensures d in caps && d != s && d != c && d !in Gone(caps, s, i) && caps[d].res == caps[s].res {
        assert Links(caps, d) && IsChild(caps, caps[d], d, c);
      }
    }
  }
}

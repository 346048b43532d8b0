/**
Slots, resources, and the lists of slots as sequences.
*/
module SlotLists {

  type Res = nat
  type Ptr = nat

  /// A capability slot: the root slot of a thread, or slot `index` of a node. Where the block of the node is
  /// does not matter.
  datatype Slot = Root(thread: nat) | In(node: Res, index: nat)

  predicate Distinct(s: seq<Slot>) { forall i, j :: 0 <= i < j < |s| ==> s[i] != s[j] }

  /// Where an insert puts its element: at the end of a list of one, else before the last.
  function Inserted(s: seq<Slot>, x: Slot): (r: seq<Slot>)
    ensures |r| == |s| + 1
    ensures |s| > 0 ==> r[0] == s[0]
    ensures |s| <= 1 ==> r[|s|] == x
    ensures |s| > 1 ==> r[..|s| - 1] == s[..|s| - 1] && r[|s| - 1] == x && r[|s|] == s[|s| - 1]
    ensures forall y :: y in r <==> y in s || y == x
    ensures Distinct(s) && x !in s ==> Distinct(r)
  {
    if |s| <= 1 then s + [x] else s[..|s| - 1] + [x] + [s[|s| - 1]]
  }

  /// What LIST_INSERT_NO_CONTAINER leaves of a list whose last element points back at element `m`, as
  /// ContainerlessLists.Insert states it.
  function Spliced(s: seq<Slot>, x: Slot, m: nat): seq<Slot>
    requires |s| >= 2 ==> m + 2 <= |s|
  {
    if |s| <= 1 then s + [x] else s[..m + 1] + [x] + [s[|s| - 1]]
  }

  /// That is the documented list unless the back link is stale; then the element after `m` is lost.
  lemma SplicedIs(s: seq<Slot>, x: Slot, m: nat)
    requires Distinct(s) && x !in s && (|s| >= 2 ==> m + 2 <= |s|)
    ensures |s| <= 1 || m + 2 == |s| ==> Spliced(s, x, m) == Inserted(s, x)
    ensures |s| >= 2 && m + 2 < |s| ==> s[m + 1] in s && s[m + 1] !in Spliced(s, x, m)
  {
  }

  function Replaced(s: seq<Slot>, x: Slot, y: Slot): (r: seq<Slot>)
    ensures |r| == |s|
    ensures forall i :: 0 <= i < |s| ==> r[i] == if s[i] == x then y else s[i]
  {
    seq(|s|, i requires 0 <= i < |s| => if s[i] == x then y else s[i])
  }

  function IndexOf(s: seq<Slot>, x: Slot): (k: nat)
    requires x in s
    ensures k < |s| && s[k] == x
  {
    if s[0] == x then 0 else 1 + IndexOf(s[1..], x)
  }

  /// LIST_DELETE_NO_CONTAINER at the level of sequences.
  function Dropped(s: seq<Slot>, x: Slot): (r: seq<Slot>)
    requires x in s && Distinct(s)
    ensures |r| == |s| - 1 && Distinct(r)
    ensures forall y :: y in r <==> y in s && y != x
    ensures s[0] != x ==> |r| > 0 && r[0] == s[0]
    ensures s[0] == x ==> r == s[1..]
    ensures r == s[..IndexOf(s, x)] + s[IndexOf(s, x) + 1..]
  {
    var k := IndexOf(s, x);
    DroppedOk(s, k);
    s[..k] + s[k + 1..]
  }

  lemma DroppedOk(s: seq<Slot>, k: nat)
    requires Distinct(s) && k < |s|
    ensures var r := s[..k] + s[k + 1..];
      && |r| == |s| - 1 && Distinct(r) && (forall y :: y in r <==> y in s && y != s[k])
      && (s[0] != s[k] ==> |r| > 0 && r[0] == s[0]) && (s[0] == s[k] ==> r == s[1..])
  {
    var r := s[..k] + s[k + 1..];
    forall i | 0 <= i < |r| ensures r[i] == s[if i < k then i else i + 1] {
    }
    forall y ensures y in r <==> y in s && y != s[k] {
      if y in s && y != s[k] {
        var i :| 0 <= i < |s| && s[i] == y;
        assert r[if i < k then i else i - 1] == y;
      }
      if y in r {
        var i :| 0 <= i < |r| && r[i] == y;
        assert s[if i < k then i else i + 1] == y;
      }
    }
    assert s[0] == s[k] ==> k == 0;
  }

  lemma ReplacedOk(s: seq<Slot>, x: Slot, y: Slot)
    requires Distinct(s) && y !in s
    ensures Distinct(Replaced(s, x, y))
    ensures forall z :: z in Replaced(s, x, y) <==> (z in s && z != x) || (z == y && x in s)
  {
    var r := Replaced(s, x, y);
    forall z ensures z in r <==> (z in s && z != x) || (z == y && x in s) {
      if z in r {
        var i :| 0 <= i < |r| && r[i] == z;
        assert s[i] in s;
      }
      if z in s && z != x {
        var i :| 0 <= i < |s| && s[i] == z;
        assert r[i] == z;
      }
      if x in s {
        var i :| 0 <= i < |s| && s[i] == x;
        assert r[i] == y;
      }
    }
  }
}

/**
The capabilities that share a resource (core/kernel/capabilities.c): each resource has a list of
them, and the header of its block stores the address of the first, so that the heap can find and
retarget them all when the block moves. LIST_INSERT_NO_CONTAINER is taken at its documented effect.
Only heap-managed capabilities live here.
*/
module ResourceLists {
  import opened Basics
  import opened SlotLists

  /// The resource, the address the capability stores, and its pointer to the resource.
  datatype Cap = Cap(res: Res, stored: Where, ptr: Ptr)

  /// The tables: the capabilities, the list of each resource, the capability address in the header of
  /// each resource's block, and where that block is.
  datatype Tables = Tables(caps: map<Slot, Cap>, lists: map<Res, seq<Slot>>, owner: map<Res, Where>, at: map<Res, Ptr>)

  /// Capability `s` is on the list of its resource and points at its block.
  ghost predicate CapOk(t: Tables, s: Slot) {
    && s in t.caps
    && var c := t.caps[s];
    && c.res in t.lists && s in t.lists[c.res] && c.res in t.at && c.ptr == t.at[c.res]
  }

  /// The list of resource `r` holds capabilities for it, each once, and the header has the address that the
  /// first of them stores.
  ghost predicate ListOk(t: Tables, r: Res) {
    && r in t.lists && t.lists[r] != [] && Distinct(t.lists[r])
    && (forall s :: s in t.lists[r] ==> s in t.caps && t.caps[s].res == r)
    && r in t.owner && t.owner[r] == t.caps[t.lists[r][0]].stored
  }

  ghost predicate Consistent(t: Tables) {
    && t.lists.Keys == t.owner.Keys == t.at.Keys
    && (forall s {:trigger CapOk(t, s)} :: s in t.caps ==> CapOk(t, s))
    && (forall r {:trigger ListOk(t, r)} :: r in t.lists ==> ListOk(t, r))
  }

  /// A copy in `dst` that stores `w`.
  ghost function AfterCopy(t: Tables, src: Slot, dst: Slot, w: Where): Tables
    requires CapOk(t, src)
  {
    var c := t.caps[src];
    t.(caps := t.caps[dst := c.(stored := w)], lists := t.lists[c.res := Inserted(t.lists[c.res], dst)])
  }

  lemma CopyConsistent(t: Tables, src: Slot, dst: Slot, w: Where)
    requires Consistent(t) && src in t.caps && dst !in t.caps && CapOk(t, src)
    ensures Consistent(AfterCopy(t, src, dst, w))
  {
    var c := t.caps[src];
    var t' := AfterCopy(t, src, dst, w);
    assert ListOk(t, c.res);
    forall s | s in t'.caps ensures CapOk(t', s) {
      if s != dst {
        assert CapOk(t, s);
      }
    }
    forall r | r in t'.lists ensures ListOk(t', r) {
      assert ListOk(t, r);
    }
  }

  /// With the macro in place of its description: the tables stay consistent exactly when the last
  /// capability on the list points back at the one before it, which it does until a third was inserted.
  lemma CopyByMacro(t: Tables, src: Slot, dst: Slot, w: Where, m: nat)
    requires Consistent(t) && src in t.caps && dst !in t.caps && CapOk(t, src)
    requires |t.lists[t.caps[src].res]| >= 2 ==> m + 2 <= |t.lists[t.caps[src].res]|
    ensures var c := t.caps[src]; var list := t.lists[c.res];
      Consistent(t.(caps := t.caps[dst := c.(stored := w)], lists := t.lists[c.res := Spliced(list, dst, m)]))
      <==> |list| == 1 || m + 2 == |list|
  {
    var c := t.caps[src];
    var list := t.lists[c.res];
    assert ListOk(t, c.res);
    SplicedIs(list, dst, m);
    if |list| == 1 || m + 2 == |list| {
      CopyConsistent(t, src, dst, w);
    } else {
      var lost := list[m + 1];
      var t' := t.(caps := t.caps[dst := c.(stored := w)], lists := t.lists[c.res := Spliced(list, dst, m)]);
      assert lost in t'.caps && !CapOk(t', lost);
    }
  }

  /// The first capability for a new resource.
  ghost function AfterPopulate(t: Tables, s: Slot, c: Cap): Tables {
    Tables(t.caps[s := c], t.lists[c.res := [s]], t.owner[c.res := c.stored], t.at[c.res := c.ptr])
  }

  lemma PopulateConsistent(t: Tables, s: Slot, c: Cap)
    requires Consistent(t) && s !in t.caps && c.res !in t.lists
    ensures Consistent(AfterPopulate(t, s, c))
  {
    hide CapOk, ListOk;
    var t' := AfterPopulate(t, s, c);
    forall x | x in t'.caps ensures CapOk(t', x) {
      PopulatedCap(t, s, c, x);
    }
    forall r | r in t'.lists ensures ListOk(t', r) {
      PopulatedList(t, s, c, r);
    }
  }

  lemma PopulatedCap(t: Tables, s: Slot, c: Cap, x: Slot)
    requires Consistent(t) && s !in t.caps && c.res !in t.lists && (x == s || x in t.caps)
    ensures CapOk(AfterPopulate(t, s, c), x)
  {
    if x != s {
      assert CapOk(t, x);
    }
  }

  lemma PopulatedList(t: Tables, s: Slot, c: Cap, r: Res)
    requires Consistent(t) && s !in t.caps && c.res !in t.lists && (r == c.res || r in t.lists)
    ensures ListOk(AfterPopulate(t, s, c), r)
  {
    if r != c.res {
      assert ListOk(t, r);
    }
  }

  /// The capability moves to `dst`, with the address it stores.
  ghost function AfterMove(t: Tables, src: Slot, dst: Slot): Tables
    requires CapOk(t, src)
  {
    var c := t.caps[src];
    t.(caps := (t.caps - {src})[dst := c], lists := t.lists[c.res := Replaced(t.lists[c.res], src, dst)])
  }

  lemma MoveConsistent(t: Tables, src: Slot, dst: Slot)
    requires Consistent(t) && src in t.caps && dst !in t.caps && CapOk(t, src)
    ensures Consistent(AfterMove(t, src, dst))
  {
    var c, t' := t.caps[src], AfterMove(t, src, dst);
    assert ListOk(t, c.res);
    ReplacedOk(t.lists[c.res], src, dst);
    forall s | s in t'.caps ensures CapOk(t', s) {
      if s != dst {
        assert CapOk(t, s);
      }
    }
    forall r | r in t'.lists ensures ListOk(t', r) {
      assert ListOk(t, r);
      if r != c.res {
        assert src !in t.lists[r] && dst !in t.lists[r];
      }
    }
  }

  /// Capability `s` stores `w`, and so does the header if it is the first on the list.
  ghost function AfterReaddress(t: Tables, s: Slot, w: Where): Tables
    requires CapOk(t, s) && ListOk(t, t.caps[s].res)
  {
    var r := t.caps[s].res;
    t.(caps := t.caps[s := t.caps[s].(stored := w)], owner := if t.lists[r][0] == s then t.owner[r := w] else t.owner)
  }

  lemma ReaddressConsistent(t: Tables, s: Slot, w: Where)
    requires Consistent(t) && CapOk(t, s) && ListOk(t, t.caps[s].res)
    ensures Consistent(AfterReaddress(t, s, w))
  {
    var t' := AfterReaddress(t, s, w);
    forall x | x in t'.caps ensures CapOk(t', x) {
      assert CapOk(t, x);
    }
    forall r | r in t'.lists ensures ListOk(t', r) {
      assert ListOk(t, r);
      assert t.lists[r][0] in t.lists[r];
    }
  }

  ghost function AfterDelete(t: Tables, slot: Slot): Tables
    requires CapOk(t, slot) && ListOk(t, t.caps[slot].res)
  {
    var r := t.caps[slot].res;
    var list := t.lists[r];
    if list == [slot] then t.(caps := t.caps - {slot}, lists := t.lists - {r}, owner := t.owner - {r}, at := t.at - {r})
    else t.(caps := t.caps - {slot}, lists := t.lists[r := Dropped(list, slot)], owner := if list[0] == slot then t.owner[r := t.caps[list[1]].stored] else t.owner)
  }

  lemma DeleteConsistent(t: Tables, slot: Slot)
    requires Consistent(t) && CapOk(t, slot) && ListOk(t, t.caps[slot].res)
    ensures Consistent(AfterDelete(t, slot))
  {
    var r0, t' := t.caps[slot].res, AfterDelete(t, slot);
    forall s | s in t'.caps ensures CapOk(t', s) {
      assert CapOk(t, s);
      assert t.lists[r0] == [slot] ==> t.caps[s].res != r0;
    }
    forall r | r in t'.lists ensures ListOk(t', r) {
      assert ListOk(t, r);
      assert r != r0 ==> slot !in t.lists[r];
    }
  }

  ghost function AfterBlockMove(t: Tables, r: Res, ptr: Ptr): Tables {
    t.(caps := map s | s in t.caps :: if t.caps[s].res == r then t.caps[s].(ptr := ptr) else t.caps[s], at := t.at[r := ptr])
  }

  lemma BlockMoveConsistent(t: Tables, r: Res, ptr: Ptr)
    requires Consistent(t) && r in t.lists
    ensures Consistent(AfterBlockMove(t, r, ptr))
  {
    var t' := AfterBlockMove(t, r, ptr);
    forall s | s in t'.caps ensures CapOk(t', s) {
      assert CapOk(t, s);
    }
    forall q | q in t'.lists ensures ListOk(t', q) {
      assert ListOk(t, q);
    }
  }

  /// The list of a resource holds exactly its capabilities.
  lemma OnList(t: Tables, r: Res)
    requires Consistent(t) && r in t.lists
    ensures forall s :: s in t.lists[r] <==> s in t.caps && t.caps[s].res == r
  {
    assert ListOk(t, r);
    forall s | s in t.caps ensures t.caps[s].res == r ==> s in t.lists[r] {
      assert CapOk(t, s);
    }
  }
}

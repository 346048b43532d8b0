/**
The intrusive lists of core/kernel/linked_list.h with a separate container: the macros as methods
over linked objects, against the sequence of their elements.
*/
module ContainerLists {

  /// A LIST_LINK inside the object number `owner`.
  class Item {
    const owner: nat
    var prev: Item?
    var next: Item?

    constructor (owner: nat)
      ensures this.owner == owner && prev == null && next == null
    {
      this.owner := owner;
      prev, next := null, null;
    }
  }

  /// A LIST_CONTAINER.
  class Container {
    const id: nat
    var start: Item?
    var end: Item?

    constructor (id: nat)
      ensures this.id == id && Linked(this, [])
    {
      this.id := id;
      start, end := null, null;
    }
  }

  predicate Distinct<T(==)>(s: seq<T>) {
    forall i, j :: 0 <= i < j < |s| ==> s[i] != s[j]
  }

  ghost function Without<T>(s: seq<T>, k: nat): seq<T>
    requires k < |s|
  {
    s[..k] + s[k + 1..]
  }

  ghost function After(s: seq<Item>, i: nat): Item? { if i + 1 < |s| then s[i + 1] else null }

  /// The container holds exactly `s`, in order, except that the first element may still point back
  /// at an element popped before it.
  ghost predicate Chained(c: Container, s: seq<Item>)
    reads c, s
  {
    && Distinct(s)
    && c.start == (if |s| == 0 then null else s[0])
    && c.end == (if |s| == 0 then null else s[|s| - 1])
    && (forall i {:trigger After(s, i)} :: 0 <= i < |s| ==> s[i].next == After(s, i))
    && (forall i {:trigger s[i].prev} :: 0 < i < |s| ==> s[i].prev == s[i - 1])
    && (|s| > 0 ==> s[0].prev != s[0])
  }

  /// The same, and the first element points back at nothing.
  ghost predicate Linked(c: Container, s: seq<Item>)
    reads c, s
  {
    Chained(c, s) && (|s| > 0 ==> s[0].prev == null)
  }

  /// LIST_INIT
  method Init(c: Container)
    modifies c
    ensures Linked(c, [])
  {
    c.start := null;
    c.end := null;
  }

  /// LIST_APPEND
  method Append(c: Container, item: Item, ghost s: seq<Item>)
    requires Chained(c, s) && item !in s
    modifies c, s, item
    ensures Chained(c, s + [item])
    ensures Linked(c, s + [item]) <==> |s| == 0 || old(Linked(c, s))
    ensures |s| > 0 ==> s[0].prev == old(s[0].prev)
  {
    assert forall i :: 0 <= i < |s| - 1 ==> After(s + [item], i) == After(s, i);
    if c.end == null {
      c.start := item;
      c.end := item;
      item.prev := null;
      item.next := null;
    } else {
      c.end.next := item;
      item.prev := c.end;
      item.next := null;
      c.end := item;
    }
  }

  /// LIST_POP_FROM_START, whatever the state of the links. In a proper list the new first element still
  /// points back at the popped one, so the list is fully linked again only when it is empty.
  method Pop(c: Container, ghost s: seq<Item>) returns (item: Item?)
    modifies c, c.start
    ensures item == old(c.start)
    ensures old(Chained(c, s)) && |s| == 0 ==> item == null && Chained(c, [])
    ensures old(Chained(c, s)) && |s| > 0 ==> item == s[0] && Chained(c, s[1..]) && (Linked(c, s[1..]) <==> |s| == 1)
    ensures old(Chained(c, s)) && |s| > 1 ==> s[1].prev == s[0]
  {
    item := null;
    if c.start != null {
      item := c.start;
      c.start := item.next;
      item.prev := null;
      item.next := null;
      if c.start == null {
        c.end := null;
      }
    }
    if old(Chained(c, s)) && |s| > 0 {
      ghost var t := s[1..];
      assert old(s[0].next) == After(s, 0);
      assert |s| > 1 ==> old(s[1].prev) == s[0];
      forall i | 0 <= i < |t| ensures t[i].next == After(t, i) {
        assert old(s[i + 1].next) == After(s, i + 1);
      }
      forall i | 0 < i < |t| ensures t[i].prev == t[i - 1] {
        assert old(s[i + 1].prev) == s[i];
      }
    }
  }

  /// The links around a removed element, in the list without it.
  lemma AfterWithout(s: seq<Item>, k: nat, i: nat)
    requires k < |s| && i < |s| - 1
    ensures var t, j := Without(s, k), if i < k then i else i + 1;
      && t[i] == s[j] && After(t, i) == (if i + 1 == k then After(s, k) else After(s, j))
      && (i > 0 ==> t[i - 1] == if i == k then s[k - 1] else s[j - 1])
  {
  }

  lemma DistinctWithout<T>(s: seq<T>, k: nat)
    requires k < |s| && Distinct(s)
    ensures Distinct(Without(s, k))
  {
    var t := Without(s, k);
    forall i, j | 0 <= i < j < |t| ensures t[i] != t[j] {
      assert t[i] == s[if i < k then i else i + 1] && t[j] == s[if j < k then j else j + 1];
    }
  }

  /// The ends of the list without an element.
  lemma WithoutEnds<T>(s: seq<T>, k: nat)
    requires k < |s|
    ensures forall y :: y in Without(s, k) ==> y in s
    ensures var t := Without(s, k);
      |t| == |s| - 1 && (|t| > 0 ==> t[0] == s[if k == 0 then 1 else 0] && t[|t| - 1] == s[if k == |s| - 1 then |s| - 2 else |s| - 1])
  {
  }

  /// Only the neighbours are the neighbours.
  lemma Neighbour(s: seq<Item>, k: nat, j: nat)
    requires k < |s| && j < |s| && Distinct(s)
    ensures s[j] == s[k] <==> j == k
    ensures After(s, k) == if k + 1 < |s| then s[k + 1] else null
    ensures k > 0 ==> (s[j] == s[k - 1] <==> j == k - 1)
    ensures k + 1 < |s| ==> (s[j] == s[k + 1] <==> j == k + 1)
  {
  }

  ghost function Present(x: Item?): set<Item> { if x == null then {} else {x} }

  /// LIST_REMOVE on the links of the neighbours alone.
  method Unlink(c: Container, item: Item)
    requires item.prev != item && item.next != item
    modifies c, Present(item.prev)`next, Present(item.next)`prev
    ensures c.start == if item.prev == null then item.next else old(c.start)
    ensures c.end == if item.next == null then item.prev else old(c.end)
    ensures item.prev != null ==> item.prev.next == item.next
    ensures item.next != null ==> item.next.prev == item.prev
  {
    if item.prev == null {
      c.start := item.next;
    } else {
      item.prev.next := item.next;
    }
    if item.next == null {
      c.end := item.prev;
    } else {
      item.next.prev := item.prev;
    }
  }

  /// What an element points back at.
  lemma BackLinks(c: Container, s: seq<Item>, k: nat)
    requires Chained(c, s) && k < |s|
    ensures k > 0 ==> s[k].prev == s[k - 1]
    ensures Linked(c, s) <==> s[0].prev == null
    ensures c.start == s[0]
  {
  }

  /// LIST_REMOVE. It removes the element exactly when it is not a first element that still points
  /// back at a popped one; otherwise the container goes on starting with it.
  method Remove(c: Container, item: Item, ghost s: seq<Item>, ghost k: nat)
    requires Chained(c, s) && k < |s| && s[k] == item
    modifies c, s, item.prev
    ensures Chained(c, Without(s, k)) <==> k > 0 || old(item.prev) == null
    ensures k == 0 && old(item.prev) != null ==> c.start == item
    ensures k > 0 || old(item.prev) == null ==> (Linked(c, Without(s, k)) <==> old(Linked(c, s)))
    ensures k > 0 ==> s[0].prev == old(s[0].prev)
  {
    hide Without, Distinct, After;
    Neighbour(s, k, k);
    Neighbour(s, k, 0);
    assert s[k].next == After(s, k);
    assert k > 0 ==> s[k].prev == s[k - 1];
    assert item.prev != item && item.next != item;
    Unlink(c, item);
    DistinctWithout(s, k);
    WithoutEnds(s, k);
    if k > 0 || old(item.prev) == null {
      ghost var t := Without(s, k);
      forall i | 0 <= i < |t| ensures t[i].next == After(t, i) && (i > 0 ==> t[i].prev == t[i - 1]) {
        AfterWithout(s, k, i);
        ghost var j := if i < k then i else i + 1;
        Neighbour(s, k, j);
        assert old(s[j].next) == After(s, j) && (j > 0 ==> old(s[j].prev) == s[j - 1]);
      }
    }
  }

  /// LIST_UPDATE_ADDRESS, once the element has been copied to its new address `moved`.
  method UpdateAddress(c: Container, moved: Item, ghost s: seq<Item>, ghost k: nat)
    requires Chained(c, s) && k < |s| && moved !in s
    requires moved.prev == s[k].prev && moved.next == s[k].next
    modifies c, s, moved.prev
    ensures Chained(c, s[k := moved]) <==> k > 0 || old(moved.prev) == null
    ensures old(Linked(c, s)) ==> Linked(c, s[k := moved])
  {
    assert s[k].next == After(s, k);
    assert k > 0 ==> s[k].prev == s[k - 1] && s[k - 1].next == After(s, k - 1);
    if moved.next == null {
      c.end := moved;
    } else {
      moved.next.prev := moved;
    }
    if moved.prev == null {
      c.start := moved;
    } else {
      moved.prev.next := moved;
    }
    if k > 0 || old(moved.prev) == null {
      ghost var t := s[k := moved];
      forall i | 0 <= i < |t| ensures t[i].next == After(t, i) {
        assert old(s[i].next) == After(s, i);
      }
    }
  }

  /// LIST_ITER
  method Iterate(c: Container, ghost s: seq<Item>) returns (visited: seq<Item>)
    requires Chained(c, s)
    ensures visited == s
  {
    visited := [];
    var x := c.start;
    while x != null
      invariant |visited| <= |s| && visited == s[..|visited|]
      invariant x == if |visited| < |s| then s[|visited|] else null
      decreases |s| - |visited|
    {
      ghost var i := |visited|;
      assert s[i].next == After(s, i);
      visited := visited + [x];
      x := x.next;
    }
  }
}

/**
The lists of core/kernel/linked_list.h without a container, where every element also points at the
first and the last one.
*/
module ContainerlessLists {
  import opened ContainerLists

  /// An object with a LIST_NO_CONTAINER. `from` and `first` are the derived_from and derivation of a capability.
  class Member {
    var start: Member?
    var end: Member?
    var prev: Member?
    var next: Member?
    var from: Member?
    var first: Member?

    constructor ()
    {
      start, end, prev, next, from, first := null, null, null, null, null, null;
    }
  }

  function Next(s: seq<Member>, i: nat): Member? { if i + 1 < |s| then s[i + 1] else null }

  function Prev(s: seq<Member>, i: nat): Member? { if 0 < i <= |s| then s[i - 1] else null }

  /// Element `i` has the links it must have in `s`, but for its back link.
  predicate Forward(s: seq<Member>, i: nat)
    requires i < |s|
    reads {s[i]}`start, {s[i]}`end, {s[i]}`next
  {
    s[i].start == s[0] && s[i].end == s[|s| - 1] && s[i].next == Next(s, i)
  }

  /// A list whose links are right except that its last element points back at element `m`.
  ghost predicate LinkedBut(s: seq<Member>, m: nat)
    reads s
  {
    && m + 2 <= |s| && Distinct(s)
    && (forall i :: 0 <= i < |s| ==> Forward(s, i))
    && (forall i {:trigger Prev(s, i)} :: 0 <= i < |s| - 1 ==> s[i].prev == Prev(s, i))
    && s[|s| - 1].prev == s[m]
  }

  predicate WellLinked(s: seq<Member>)
    reads s`start, s`end, s`next, s`prev
  {
    && 0 < |s| && Distinct(s)
    && (forall i :: 0 <= i < |s| ==> Forward(s, i))
    && (forall i {:trigger Prev(s, i)} :: 0 <= i < |s| ==> s[i].prev == Prev(s, i))
  }

  /// LIST_INIT_NO_CONTAINER
  method Init(x: Member)
    modifies x
    ensures WellLinked([x])
  {
    x.start := x;
    x.end := x;
    x.prev := null;
    x.next := null;
  }

  /// LIST_ITER_NO_CONTAINER, from any element of the list.
  method Iterate(x: Member, ghost s: seq<Member>) returns (visited: seq<Member>)
    requires x in s && Distinct(s) && forall i :: 0 <= i < |s| ==> Forward(s, i)
    ensures visited == s
  {
    visited := [];
    ghost var j :| 0 <= j < |s| && s[j] == x;
    assert Forward(s, j);
    var link := x.start;
    while link != null
      invariant |visited| <= |s| && visited == s[..|visited|]
      invariant link == if |visited| < |s| then s[|visited|] else null
      decreases |s| - |visited|
    {
      assert Forward(s, |visited|);
      visited := visited + [link];
      link := link.next;
    }
  }

  /// The result that the description of LIST_INSERT_NO_CONTAINER promises.
  function Documented(s: seq<Member>, x: Member): seq<Member>
    requires |s| > 0
  {
    if |s| == 1 then s + [x] else s[..|s| - 1] + [x] + [s[|s| - 1]]
  }

  method InsertSecond(c: Member, x: Member)
    requires WellLinked([c]) && x != c
    modifies c, x
    ensures WellLinked([c, x])
  {
    assert Forward([c], 0) && c.prev == Prev([c], 0);
    c.end := x;
    x.start := c;
    x.end := x;
    c.next := x;
    x.prev := c;
    x.next := null;
  }

  method InsertBeforeLast(c: Member, x: Member, ghost s: seq<Member>, ghost m: nat)
    requires x !in s && LinkedBut(s, m) && c.start == s[0] && c.end == s[|s| - 1] && c != x
    modifies s, x
    ensures LinkedBut(s[..m + 1] + [x] + [s[|s| - 1]], m)
  {
    assert Forward(s, |s| - 1);
    x.start := c.start;
    x.end := c.end;
    var prev := c.end.prev;
    prev.next := x;
    x.prev := prev;
    x.next := c.end;
    ghost var t := s[..m + 1] + [x] + [s[|s| - 1]];
    forall i | 0 <= i <= m ensures Forward(t, i) {
      assert old(Forward(s, i));
      assert Next(t, i) == if i < m then Next(s, i) else x;
    }
    assert Forward(t, m + 1) && Forward(t, m + 2);
    forall i | 0 <= i < |t| - 1 ensures t[i].prev == Prev(t, i) {
      assert i <= m ==> old(s[i].prev) == Prev(s, i) == Prev(t, i);
    }
  }

  /// LIST_INSERT_NO_CONTAINER. The back link of the last element is never updated, so whatever lay
  /// between the element it points at and the last one drops out of the list.
  method Insert(c: Member, x: Member, ghost s: seq<Member>, ghost m: nat)
    requires c in s && x !in s
    requires (|s| == 1 && WellLinked(s)) || LinkedBut(s, m)
    modifies s, x
    ensures |s| == 1 ==> WellLinked(Documented(s, x))
    ensures |s| > 1 ==> LinkedBut(s[..m + 1] + [x] + [s[|s| - 1]], m)
    ensures |s| > 1 ==> (s[..m + 1] + [x] + [s[|s| - 1]] == Documented(s, x) <==> m + 2 == |s|)
  {
    ghost var j :| 0 <= j < |s| && s[j] == c;
    assert Forward(s, j);
    if c.start == c.end {
      assert s == [c] && s + [x] == [c, x];
      InsertSecond(c, x);
    } else {
      InsertBeforeLast(c, x, s, m);
    }
  }

  /// What is left in the list of `c` after inserting the first `i` of `xs` one after the other.
  ghost function Survivors(c: Member, xs: seq<Member>, i: nat): seq<Member>
    requires i <= |xs|
  {
    if i == 0 then [c] else if i == 1 then [c, xs[0]] else [c, xs[i - 1], xs[0]]
  }

  /// However many elements are inserted, the list never holds more than three.
  method InsertAll(c: Member, xs: seq<Member>)
    requires WellLinked([c]) && c !in xs && Distinct(xs)
    modifies c, xs
    ensures forall i :: 0 <= i < |Survivors(c, xs, |xs|)| ==> Forward(Survivors(c, xs, |xs|), i)
  {
    for i := 0 to |xs|
      invariant i == 0 ==> WellLinked(Survivors(c, xs, i))
      invariant i > 0 ==> LinkedBut(Survivors(c, xs, i), 0)
    {
      ghost var s := Survivors(c, xs, i);
      Insert(c, xs[i], s, 0);
      if i == 0 {
        assert Documented(s, xs[i]) == Survivors(c, xs, 1);
        assert Prev(Survivors(c, xs, 1), 1) == c;
      } else {
        assert s[..1] + [xs[i]] + [s[|s| - 1]] == Survivors(c, xs, i + 1);
      }
    }
  }

  // ---------------------------------------------------------------- deletion

  /// Points the `start` of every element from `from` on at `from`.
  method SetStarts(from: Member, ghost s: seq<Member>, ghost k: nat)
    requires k < |s| && s[k] == from && Distinct(s)
    requires forall i {:trigger Next(s, i)} :: k <= i < |s| ==> s[i].next == Next(s, i)
    modifies set i | k <= i < |s| :: s[i]`start
    ensures forall i :: k <= i < |s| ==> s[i].start == from
  {
    var link: Member? := from;
    ghost var i: nat := k;
    while link != null
      invariant k <= i <= |s| && link == (if i < |s| then s[i] else null)
      invariant forall j :: k <= j < i ==> s[j].start == from
      decreases |s| - i
    {
      assert s[i].next == Next(s, i);
      link.start := from;
      link := link.next;
      i := i + 1;
    }
  }

  /// Points the `end` of every element up to `from` at `from`.
  method SetEnds(from: Member, ghost s: seq<Member>, ghost k: nat)
    requires k < |s| && s[k] == from && Distinct(s)
    requires forall i {:trigger Prev(s, i)} :: 0 <= i <= k ==> s[i].prev == Prev(s, i)
    modifies set i | 0 <= i <= k :: s[i]`end
    ensures forall i :: 0 <= i <= k ==> s[i].end == from
  {
    var link: Member? := from;
    ghost var i: int := k;
    while link != null
      invariant -1 <= i <= k && link == (if 0 <= i then s[i] else null)
      invariant forall j :: i < j <= k ==> s[j].end == from
      decreases i
    {
      assert s[i].prev == Prev(s, i);
      link.end := from;
      link := link.prev;
      i := i - 1;
    }
  }

  method DeleteMiddle(x: Member, ghost s: seq<Member>, ghost k: nat)
    requires WellLinked(s) && 0 < k < |s| - 1 && s[k] == x
    modifies {s[k - 1]}`next, {s[k + 1]}`prev
    ensures WellLinked(Without(s, k))
  {
    ghost var t := Without(s, k);
    assert Forward(s, k) && s[k].prev == Prev(s, k);
    x.prev.next := x.next;
    x.next.prev := x.prev;
    forall i | 0 <= i < |t| ensures Forward(t, i) && t[i].prev == Prev(t, i) {
      ghost var j := if i < k then i else i + 1;
      assert old(Forward(s, j)) && old(s[j].prev) == Prev(s, j);
    }
  }

  method DeleteFirst(x: Member, ghost s: seq<Member>)
    requires WellLinked(s) && 1 < |s| && s[0] == x
    modifies s[1..]
    ensures WellLinked(s[1..])
  {
    ghost var t := s[1..];
    assert Forward(s, 0);
    var start := x.next;
    start.prev := null;
    forall i | 0 <= i < |t| ensures t[i].next == Next(t, i) && t[i].prev == Prev(t, i) && t[i].end == t[|t| - 1] {
      assert old(Forward(s, i + 1)) && old(s[i + 1].prev) == Prev(s, i + 1);
    }
    SetStarts(start, t, 0);
  }

  method DeleteLast(x: Member, ghost s: seq<Member>)
    requires WellLinked(s) && 1 < |s| && s[|s| - 1] == x
    modifies s[..|s| - 1]
    ensures WellLinked(s[..|s| - 1])
  {
    ghost var t := s[..|s| - 1];
    assert s[|t|].prev == Prev(s, |t|);
    var end := x.prev;
    end.next := null;
    forall i | 0 <= i < |t| ensures t[i].next == Next(t, i) && t[i].prev == Prev(t, i) && t[i].start == t[0] {
      assert old(Forward(s, i)) && old(s[i].prev) == Prev(s, i);
    }
    SetEnds(end, t, |t| - 1);
  }

  /// LIST_APPEND_NO_CONTAINER
  method Append(c: Member, x: Member, ghost s: seq<Member>)
    requires WellLinked(s) && c in s && x !in s
    modifies s, x
    ensures WellLinked(s + [x])
  {
    hide JoinedAt;
    JoinEnd(c, x, s);
    hide WellLinked;
    SetAllEnds(c.start, x, s + [x]);
  }

  /// Element `i` has its final links, but for `end`.
  ghost predicate JoinedAt(t: seq<Member>, i: nat)
    requires i < |t|
    reads t[i]
  {
    t[i].next == Next(t, i) && t[i].prev == Prev(t, i) && t[i].start == t[0]
  }

  /// The links at the end of the list.
  method JoinEnd(c: Member, x: Member, ghost s: seq<Member>)
    requires WellLinked(s) && c in s && x !in s
    modifies {s[|s| - 1]}`next, x
    ensures c.start == s[0] && Distinct(s + [x])
    ensures forall i :: 0 <= i < |s + [x]| ==> JoinedAt(s + [x], i)
  {
    ghost var j :| 0 <= j < |s| && s[j] == c;
    assert Forward(s, j) && Forward(s, |s| - 1);
    c.end.next := x;
    x.prev := c.end;
    x.next := null;
    x.start := c.start;
    ghost var t := s + [x];
    forall i | 0 <= i < |t| ensures JoinedAt(t, i) {
      assert i < |s| ==> old(Forward(s, i)) && old(s[i].prev) == Prev(s, i) && Prev(t, i) == Prev(s, i);
    }
  }

  /// Points the `end` of every element at the last one, walking from the first.
  method SetAllEnds(from: Member, x: Member, ghost s: seq<Member>)
    requires 0 < |s| && s[0] == from && s[|s| - 1] == x && Distinct(s)
    requires forall i :: 0 <= i < |s| ==> JoinedAt(s, i)
    modifies set i | 0 <= i < |s| :: s[i]`end
    ensures WellLinked(s)
  {
    var link: Member? := from;
    ghost var i: nat := 0;
    while link != null
      invariant 0 <= i <= |s| && link == (if i < |s| then s[i] else null)
      invariant forall j :: 0 <= j < i ==> s[j].end == x
      invariant forall j :: 0 <= j < |s| ==> JoinedAt(s, j)
      decreases |s| - i
    {
      assert JoinedAt(s, i);
      link.end := x;
      link := link.next;
      i := i + 1;
    }
    assert forall j :: 0 <= j < |s| ==> JoinedAt(s, j) ==> Forward(s, j) && s[j].prev == Prev(s, j);
  }

  /// LIST_INSERT_NO_CONTAINER through an element that was deleted from the middle of a list: its old
  /// links still lead there, and the new element ends up in the list.
  method InsertThroughDeleted(b: Member, x: Member, ghost s: seq<Member>, ghost k: nat)
    requires WellLinked(s) && 0 < k < |s| - 1 && s[k] == b && x !in s
    modifies s, x
    ensures var t := Without(s, k); LinkedBut(Documented(t, x), |t| - 2)
  {
    hide Distinct;
    ghost var t := Without(s, k);
    assert Forward(s, k);
    DeleteMiddle(b, s, k);
    assert Forward(t, 0) && t[|t| - 1].prev == Prev(t, |t| - 1);
    assert b.start == t[0] && b.end == t[|t| - 1];
    InsertBeforeLast(b, x, t, |t| - 2);
    assert t[..|t| - 1] + [x] + [t[|t| - 1]] == Documented(t, x);
  }

  /// A list whose last element points at itself.
  ghost predicate Endless(ds: seq<Member>)
    reads ds
  {
    && 0 < |ds| && Distinct(ds) && (forall i :: 0 <= i < |ds| ==> ds[i].start == ds[0])
    && forall i {:trigger Next(ds, i)} :: 0 <= i < |ds| ==> ds[i].next == if i + 1 < |ds| then Next(ds, i) else ds[i]
  }

  /// The splice of merge_derivation_lists, when `x` is not alone on its list `s`: the list `ds` of the
  /// element `d` comes before the last element of `s`, but its own last element is linked to itself.
  method SpliceBeforeLast(x: Member, d: Member, ghost s: seq<Member>, ghost ds: seq<Member>)
    requires WellLinked(s) && |s| > 1 && x in s && WellLinked(ds) && d in ds && forall m :: m in s ==> m !in ds
    modifies s, ds
    ensures Endless(ds)
  {
    ghost var i, j :| 0 <= i < |s| && s[i] == x && 0 <= j < |ds| && ds[j] == d;
    assert Forward(s, i) && Forward(ds, j);
    assert s[|s| - 1].prev == Prev(s, |s| - 1);
    var prev := x.end.prev;
    assert prev == s[|s| - 2] && prev in s && d.end == ds[|ds| - 1] && d.end in ds;
    prev.next := d.start;
    d.start.prev := prev;
    x.end.prev := d.end;
    d.end.next := d.end;
    forall k | 0 <= k < |ds| ensures ds[k].start == ds[0] && ds[k].next == if k + 1 < |ds| then Next(ds, k) else ds[k] {
      assert old(Forward(ds, k)) && ds[k] in ds && (k + 1 < |ds| ==> ds[k] != ds[|ds| - 1]);
    }
  }

  /// The loop over that list: after any number of steps it is still not at the end.
  method WalkOn(d: Member, n: nat, ghost ds: seq<Member>) returns (link: Member?)
    requires Endless(ds) && d in ds
    ensures link != null
  {
    ghost var k := 0;
    link := d.start;
    for i := 0 to n
      invariant 0 <= k < |ds| && link == ds[k]
    {
      assert ds[k].next == if k + 1 < |ds| then Next(ds, k) else ds[k];
      link := link.next;
      k := if k + 1 < |ds| then k + 1 else k;
    }
  }

  /// LIST_DELETE_NO_CONTAINER. The deleted element keeps its own links, so a walk that stands on it
  /// can go on.
  method Delete(x: Member, ghost s: seq<Member>, ghost k: nat)
    requires WellLinked(s) && k < |s| && s[k] == x
    modifies s
    ensures |s| > 1 ==> WellLinked(Without(s, k))
    ensures x.next == old(x.next) && x.prev == old(x.prev)
  {
    assert Forward(s, k) && s[k].prev == Prev(s, k);
    if x.prev != null && x.next != null {
      DeleteMiddle(x, s, k);
    } else if x.prev == null && x.next != null {
      DeleteFirst(x, s);
      assert s[1..] == Without(s, k);
    } else if x.next == null && x.prev != null {
      DeleteLast(x, s);
      assert s[..|s| - 1] == Without(s, k);
    }
  }

  /// The neighbours of a relocated element point at its new address.
  method Relink(moved: Member, ghost s: seq<Member>, ghost k: nat)
    requires WellLinked(s) && k < |s| && moved !in s
    requires moved.prev == s[k].prev && moved.next == s[k].next
    modifies (set i | 0 <= i < |s| && i != k :: s[i])`prev, (set i | 0 <= i < |s| && i != k :: s[i])`next
    ensures var t := s[k := moved]; forall i :: 0 <= i < |t| ==> t[i].prev == Prev(t, i) && t[i].next == Next(t, i)
  {
    ghost var t := s[k := moved];
    assert Forward(s, k) && s[k].prev == Prev(s, k);
    if moved.prev != null {
      moved.prev.next := moved;
    }
    if moved.next != null {
      moved.next.prev := moved;
    }
    forall i | 0 <= i < |t| ensures t[i].prev == Prev(t, i) && t[i].next == Next(t, i) {
      assert old(Forward(s, i)) && old(s[i].prev) == Prev(s, i);
    }
  }

  /// The first or last element announces its new address to all.
  method Announce(moved: Member, ghost t: seq<Member>, ghost k: nat)
    requires Distinct(t) && k < |t| && t[k] == moved
    requires forall i {:trigger Next(t, i)} :: 0 <= i < |t| ==> t[i].next == Next(t, i)
    requires forall i {:trigger Prev(t, i)} :: 0 <= i < |t| ==> t[i].prev == Prev(t, i)
    requires k > 0 ==> forall i :: 0 <= i < |t| ==> t[i].start == t[0]
    requires k < |t| - 1 ==> forall i :: 0 <= i < |t| ==> t[i].end == t[|t| - 1]
    modifies t
    ensures WellLinked(t)
  {
    assert moved.prev == Prev(t, k) && moved.next == Next(t, k);
    if moved.prev == null {
      SetStarts(moved, t, 0);
    }
    if moved.next == null {
      SetEnds(moved, t, k);
    }
  }

  /// LIST_UPDATE_ADDRESS_NO_CONTAINER, once the element has been copied to its new address `moved`.
  method UpdateAddress(moved: Member, ghost s: seq<Member>, ghost k: nat)
    requires WellLinked(s) && k < |s| && moved !in s
    requires moved.start == s[k].start && moved.end == s[k].end && moved.prev == s[k].prev && moved.next == s[k].next
    modifies s, moved
    ensures WellLinked(s[k := moved])
  {
    ghost var t := s[k := moved];
    forall i | 0 <= i < |t| ensures (k > 0 ==> t[i].start == t[0]) && (k < |s| - 1 ==> t[i].end == t[|t| - 1]) {
      assert Forward(s, i) && Forward(s, k);
    }
    Relink(moved, s, k);
    Announce(moved, t, k);
  }
}

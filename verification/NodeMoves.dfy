/**
What on_node_moved (core/kernel/capabilities.c) makes of a list without container that goes through a node whose block
the heap has moved. The slots of the node were all copied at once; then update_capability_references runs on each
copy, in the order of the slots.
*/
module NodeMoves {
  import opened Basics
  import opened ContainerLists
  import opened ContainerlessLists

  /// For each element of a list, the slot of the moved node that it is in, if any.
  type Times = seq<Option<nat>>

  ghost predicate OneAtATime(w: Times) { forall i, j :: 0 <= i < j < |w| && w[i].Some? && w[j].Some? ==> w[i].value != w[j].value }

  ghost predicate AllBefore(w: Times, slots: nat) { forall i :: 0 <= i < |w| && w[i].Some? ==> w[i].value < slots }

  /// No two neighbours are in the node.
  predicate NoneAdjacent(w: Times) { forall i :: 0 <= i < |w| - 1 ==> w[i].None? || w[i + 1].None? }

  /// Element `k`, if it is in the node, is renewed after all others.
  predicate LastOf(w: Times, k: nat)
    requires k < |w|
  {
    w[k].Some? ==> forall i :: 0 <= i < |w| && i != k && w[i].Some? ==> w[i].value < w[k].value
  }

  /// The list survives the move.
  predicate Safe(w: Times) { NoneAdjacent(w) && (|w| > 0 ==> LastOf(w, 0) && LastOf(w, |w| - 1)) }

  /// So do the pointers between a capability, which may be in the node as well, and its derivations.
  predicate FamilySafe(w: Times, parent: Option<nat>) {
    && Safe(w)
    && (parent.Some? ==> |w| > 0 && w[0].None? && forall i :: 0 <= i < |w| && w[i].Some? ==> w[i].value < parent.value)
  }

  // ---------------------------------------------------------------- the lists

  /// Elements `s` and the memory `m` that some of them were copied to.
  ghost predicate Apart(s: seq<Member>, m: seq<Member>, w: Times) {
    |s| == |m| == |w| && 0 < |s| && Distinct(s) && Distinct(m) && forall i, j :: 0 <= i < |s| && 0 <= j < |m| ==> s[i] != m[j]
  }

  predicate Done(w: Times, now: nat, i: nat)
    requires i < |w|
  {
    w[i].Some? && w[i].value < now
  }

  /// The list as it must be.
  function Moved(s: seq<Member>, m: seq<Member>, w: Times): (t: seq<Member>)
    requires |s| == |m| == |w|
    ensures |t| == |s| && forall i :: 0 <= i < |t| ==> t[i] == if w[i].Some? then m[i] else s[i]
  {
    seq(|s|, i requires 0 <= i < |s| => if w[i].Some? then m[i] else s[i])
  }

  lemma MovedDistinct(s: seq<Member>, m: seq<Member>, w: Times)
    requires Apart(s, m, w)
    ensures Distinct(Moved(s, m, w))
  {
  }

  /// Where the neighbours of element `i` look for it.
  ghost function At(s: seq<Member>, m: seq<Member>, w: Times, now: nat, i: nat): Member
    requires |s| == |m| == |w| && i < |w|
  {
    if Done(w, now, i) then m[i] else s[i]
  }

  ghost predicate LinksAt(s: seq<Member>, m: seq<Member>, w: Times, now: nat, i: nat)
    requires |s| == |m| == |w| && i < |w|
    reads {s[i]}`next, {s[i]}`prev, {m[i]}`next, {m[i]}`prev
  {
    && s[i].next == (if i + 1 < |s| then At(s, m, w, now, i + 1) else null)
    && s[i].prev == (if 0 < i then At(s, m, w, now, i - 1) else null)
    && (w[i].Some? ==> m[i].next == Next(s, i) && m[i].prev == Prev(s, i))
  }

  ghost predicate Links(s: seq<Member>, m: seq<Member>, w: Times, now: nat)
    requires |s| == |m| == |w|
    reads s`next, s`prev, m`next, m`prev
  {
    forall i {:trigger LinksAt(s, m, w, now, i)} :: 0 <= i < |w| ==> LinksAt(s, m, w, now, i)
  }

  /// The start fields: element 0 tells those that it can reach.
  ghost predicate Starts(s: seq<Member>, m: seq<Member>, w: Times, now: nat)
    requires |s| == |m| == |w| && 0 < |w|
    reads s`start, m`start
  {
    && s[0].start == s[0]
    && (!Done(w, now, 0) ==> forall i :: 0 <= i < |w| ==> s[i].start == s[0] && (w[i].Some? ==> m[i].start == s[0]))
    && (Done(w, now, 0) ==> forall i :: 0 < i < |w| && w[i].Some? && w[i].value > w[0].value ==> m[i].start == s[0])
    && (Done(w, now, 0) && NoneAdjacent(w) && LastOf(w, 0) ==> forall i :: 0 <= i < |w| ==> Moved(s, m, w)[i].start == m[0])
  }

  ghost predicate Ends(s: seq<Member>, m: seq<Member>, w: Times, now: nat)
    requires |s| == |m| == |w| && 0 < |w|
    reads s`end, m`end
  {
    var e := |w| - 1;
    && (!Done(w, now, e) ==> forall i :: 0 <= i < |w| ==> s[i].end == s[e] && (w[i].Some? ==> m[i].end == s[e]))
    && (Done(w, now, e) ==> forall i :: 0 <= i < e && w[i].Some? && w[i].value > w[e].value ==> m[i].end == s[e])
    && (Done(w, now, e) && NoneAdjacent(w) && LastOf(w, e) ==> forall i :: 0 <= i < |w| ==> Moved(s, m, w)[i].end == m[e])
  }

  /// All slots before `now` are renewed.
  ghost predicate Renewing(s: seq<Member>, m: seq<Member>, w: Times, now: nat)
    reads s, m
  {
    Apart(s, m, w) && Links(s, m, w, now) && Starts(s, m, w, now) && Ends(s, m, w, now)
  }

  /// The first two steps of LIST_UPDATE_ADDRESS_NO_CONTAINER.
  method Relink(item: Member, ghost s: seq<Member>, ghost m: seq<Member>, ghost w: Times, ghost now: nat, ghost k: nat)
    requires Apart(s, m, w) && Links(s, m, w, now) && k < |w| && w[k] == Some(now) && item == m[k] && OneAtATime(w)
    modifies s`prev, s`next
    ensures Links(s, m, w, now + 1)
  {
    assert LinksAt(s, m, w, now, k);
    if item.prev != null {
      item.prev.next := item;
    }
    if item.next != null {
      item.next.prev := item;
    }
    forall i {:trigger s[i]} | 0 <= i < |w| ensures LinksAt(s, m, w, now + 1, i) {
      assert old(LinksAt(s, m, w, now, i));
    }
  }

  /// Going forward from element 0, or from its copy: whether the walk is on the copy of element `i`.
  ghost function Up(w: Times, now: nat, copy: bool, i: nat): bool
    requires i < |w|
  {
    if i == 0 then copy else Done(w, now, i) && !Up(w, now, copy, i - 1)
  }

  /// The same, going back from the copy of the last.
  ghost function Down(w: Times, now: nat, i: nat): bool
    requires i < |w|
    decreases |w| - i
  {
    i == |w| - 1 || (Done(w, now, i) && !Down(w, now, i + 1))
  }

  ghost function WayUp(s: seq<Member>, m: seq<Member>, w: Times, now: nat, copy: bool): (t: seq<Member>)
    requires |s| == |m| == |w|
    ensures |t| == |s| && forall i :: 0 <= i < |t| ==> t[i] == if Up(w, now, copy, i) then m[i] else s[i]
  {
    seq(|s|, i requires 0 <= i < |s| => if Up(w, now, copy, i) then m[i] else s[i])
  }

  ghost function WayDown(s: seq<Member>, m: seq<Member>, w: Times, now: nat): (t: seq<Member>)
    requires |s| == |m| == |w|
    ensures |t| == |s| && forall i :: 0 <= i < |t| ==> t[i] == if Down(w, now, i) then m[i] else s[i]
  {
    seq(|s|, i requires 0 <= i < |s| => if Down(w, now, i) then m[i] else s[i])
  }

  lemma WayUpLinked(s: seq<Member>, m: seq<Member>, w: Times, now: nat, copy: bool)
    requires Apart(s, m, w) && Links(s, m, w, now) && (copy ==> w[0].Some?)
    ensures var t := WayUp(s, m, w, now, copy); Distinct(t) && forall i {:trigger Next(t, i)} :: 0 <= i < |t| ==> t[i].next == Next(t, i)
  {
    var t := WayUp(s, m, w, now, copy);
    forall i {:trigger Next(t, i)} | 0 <= i < |t| ensures t[i].next == Next(t, i) {
      assert LinksAt(s, m, w, now, i);
    }
  }

  lemma WayDownLinked(s: seq<Member>, m: seq<Member>, w: Times, now: nat)
    requires Apart(s, m, w) && Links(s, m, w, now) && Done(w, now, |w| - 1)
    ensures var t := WayDown(s, m, w, now); Distinct(t) && forall i {:trigger Prev(t, i)} :: 0 <= i < |t| ==> t[i].prev == Prev(t, i)
  {
    var t := WayDown(s, m, w, now);
    forall i {:trigger Prev(t, i)} | 0 <= i < |t| ensures t[i].prev == Prev(t, i) {
      assert LinksAt(s, m, w, now, i);
    }
  }

  /// Once all copies are renewed, the walk meets them all.
  lemma {:induction false} UpAll(w: Times, now: nat, i: nat)
    requires i < |w| && AllBefore(w, now) && NoneAdjacent(w)
    ensures Up(w, now, w[0].Some?, i) <==> w[i].Some?
  {
    if i > 0 {
      UpAll(w, now, i - 1);
    }
  }

  lemma {:induction false} DownAll(w: Times, now: nat, i: nat)
    requires i < |w| && w[|w| - 1] == Some(now) && NoneAdjacent(w) && LastOf(w, |w| - 1)
    ensures Down(w, now + 1, i) <==> w[i].Some?
    decreases |w| - i
  {
    if i < |w| - 1 {
      DownAll(w, now, i + 1);
    }
  }

  lemma UpCopies(s: seq<Member>, m: seq<Member>, w: Times, now: nat)
    requires |s| == |m| == |w| && 0 < |w| && w[0] == Some(now)
    ensures NoneAdjacent(w) && LastOf(w, 0) ==> Moved(s, m, w) == WayUp(s, m, w, now + 1, true)
  {
    if NoneAdjacent(w) && LastOf(w, 0) {
      forall i | 0 <= i < |w| ensures Up(w, now + 1, true, i) <==> w[i].Some? {
        UpAll(w, now + 1, i);
      }
    }
  }

  lemma DownCopies(s: seq<Member>, m: seq<Member>, w: Times, now: nat)
    requires |s| == |m| == |w| && 0 < |w| && w[|w| - 1] == Some(now)
    ensures NoneAdjacent(w) && LastOf(w, |w| - 1) ==> Moved(s, m, w) == WayDown(s, m, w, now + 1)
  {
    if NoneAdjacent(w) && LastOf(w, |w| - 1) {
      forall i | 0 <= i < |w| ensures Down(w, now + 1, i) <==> w[i].Some? {
        DownAll(w, now, i);
      }
    }
  }

  /// The loop over the start fields, from element 0.
  method TellStart(item: Member, ghost s: seq<Member>, ghost m: seq<Member>, ghost w: Times, ghost now: nat)
    requires Apart(s, m, w) && Links(s, m, w, now + 1) && Starts(s, m, w, now) && w[0] == Some(now) && item == m[0]
    modifies s`start, m`start
    ensures Starts(s, m, w, now + 1)
  {
    hide Links, Up;
    ghost var t := WayUp(s, m, w, now + 1, true);
    WayUpLinked(s, m, w, now + 1, true);
    UpWhere(w, now + 1, true);
    NotOnWay(s, m, w, t);
    SetStarts(item, t, 0);
    hide Starts, Apart, NoneAdjacent;
    UpCopies(s, m, w, now);
    StartsBy(s, m, w, now);
  }

  lemma UpWhere(w: Times, now: nat, copy: bool)
    requires 0 < |w|
    ensures Up(w, now, copy, 0) == copy && forall i :: 0 < i < |w| && Up(w, now, copy, i) ==> Done(w, now, i)
  {
  }

  lemma DownWhere(w: Times, now: nat)
    requires 0 < |w|
    ensures Down(w, now, |w| - 1) && forall i :: 0 <= i < |w| - 1 && Down(w, now, i) ==> Done(w, now, i)
  {
  }

  lemma NotOnWay(s: seq<Member>, m: seq<Member>, w: Times, t: seq<Member>)
    requires Apart(s, m, w) && |t| == |s| && forall i :: 0 <= i < |t| ==> t[i] == s[i] || t[i] == m[i]
    ensures forall i :: 0 <= i < |t| ==> (t[i] != m[i] ==> m[i] !in t) && (t[i] != s[i] ==> s[i] !in t)
  {
  }

  lemma StartsBy(s: seq<Member>, m: seq<Member>, w: Times, now: nat)
    requires |s| == |m| == |w| && 0 < |w| && w[0] == Some(now) && s[0].start == s[0]
    requires forall i :: 0 < i < |w| && w[i].Some? && w[i].value > now ==> m[i].start == s[0]
    requires NoneAdjacent(w) && LastOf(w, 0) ==> forall i :: 0 <= i < |w| ==> Moved(s, m, w)[i].start == m[0]
    ensures Starts(s, m, w, now + 1)
  {
  }

  /// The loop over the end fields, from the last element.
  method TellEnd(item: Member, ghost s: seq<Member>, ghost m: seq<Member>, ghost w: Times, ghost now: nat)
    requires Apart(s, m, w) && Links(s, m, w, now + 1) && Ends(s, m, w, now) && w[|w| - 1] == Some(now) && item == m[|w| - 1]
    modifies s`end, m`end
    ensures Ends(s, m, w, now + 1)
  {
    hide Links, Down;
    ghost var t := WayDown(s, m, w, now + 1);
    WayDownLinked(s, m, w, now + 1);
    DownWhere(w, now + 1);
    NotOnWay(s, m, w, t);
    SetEnds(item, t, |w| - 1);
    hide Ends, Apart, NoneAdjacent;
    DownCopies(s, m, w, now);
    EndsBy(s, m, w, now);
  }

  lemma EndsBy(s: seq<Member>, m: seq<Member>, w: Times, now: nat)
    requires |s| == |m| == |w| && 0 < |w| && w[|w| - 1] == Some(now)
    requires forall i :: 0 <= i < |w| - 1 && w[i].Some? && w[i].value > now ==> m[i].end == s[|w| - 1]
    requires NoneAdjacent(w) && LastOf(w, |w| - 1) ==> forall i :: 0 <= i < |w| ==> Moved(s, m, w)[i].end == m[|w| - 1]
    ensures Ends(s, m, w, now + 1)
  {
  }

  /// Who is renewed at `now` matters to the start and end fields only if it is the first or the last.
  lemma TimeGoesOn(s: seq<Member>, m: seq<Member>, w: Times, now: nat)
    requires Apart(s, m, w)
    ensures Starts(s, m, w, now) && w[0] != Some(now) ==> Starts(s, m, w, now + 1)
    ensures Ends(s, m, w, now) && w[|w| - 1] != Some(now) ==> Ends(s, m, w, now + 1)
  {
    assert w[0] != Some(now) ==> Done(w, now + 1, 0) == Done(w, now, 0);
    assert w[|w| - 1] != Some(now) ==> Done(w, now + 1, |w| - 1) == Done(w, now, |w| - 1);
  }

  /// LIST_UPDATE_ADDRESS_NO_CONTAINER on the copy of element `k`, when its neighbours may have been copied too.
  method Renew(item: Member, ghost s: seq<Member>, ghost m: seq<Member>, ghost w: Times, ghost now: nat, ghost k: nat)
    requires Renewing(s, m, w, now) && OneAtATime(w) && k < |w| && w[k] == Some(now) && item == m[k]
    modifies s`prev, s`next, s`start, m`start, s`end, m`end
    ensures Renewing(s, m, w, now + 1)
  {
    hide Links, Starts, Ends;
    Relink(item, s, m, w, now, k);
    AtEnds(s, m, w, now + 1, k);
    assert k > 0 ==> w[0] != Some(now);
    assert k < |w| - 1 ==> w[|w| - 1] != Some(now);
    TimeGoesOn(s, m, w, now);
    if item.prev == null {
      TellStart(item, s, m, w, now);
    }
    if item.next == null {
      TellEnd(item, s, m, w, now);
    }
  }

  lemma AtEnds(s: seq<Member>, m: seq<Member>, w: Times, now: nat, k: nat)
    requires |s| == |m| == |w| && Links(s, m, w, now) && k < |w| && w[k].Some?
    ensures (m[k].prev == null <==> k == 0) && (m[k].next == null <==> k == |w| - 1)
  {
    assert LinksAt(s, m, w, now, k);
  }

  lemma NobodyNow(s: seq<Member>, m: seq<Member>, w: Times, now: nat)
    requires Renewing(s, m, w, now) && forall i :: 0 <= i < |w| ==> w[i] != Some(now)
    ensures Renewing(s, m, w, now + 1)
  {
    TimeGoesOn(s, m, w, now);
    forall i {:trigger s[i]} | 0 <= i < |w| ensures LinksAt(s, m, w, now + 1, i) {
      assert LinksAt(s, m, w, now, i);
    }
  }

  /// Before anything is renewed, the copies are copies.
  ghost predicate Copied(s: seq<Member>, m: seq<Member>, w: Times)
    reads s, m
  {
    && Apart(s, m, w) && WellLinked(s)
    && forall i :: 0 <= i < |w| && w[i].Some? ==> m[i].start == s[i].start && m[i].end == s[i].end && m[i].prev == s[i].prev && m[i].next == s[i].next
  }

  lemma CopiedRenewing(s: seq<Member>, m: seq<Member>, w: Times)
    requires Copied(s, m, w)
    ensures Renewing(s, m, w, 0)
  {
    forall i | 0 <= i < |w| ensures LinksAt(s, m, w, 0, i) && s[i].start == s[0] && s[i].end == s[|s| - 1] {
      assert Forward(s, i) && s[i].prev == Prev(s, i);
    }
  }

  /// When all slots are renewed, the list is well linked exactly when it is safe.
  lemma RenewedIff(s: seq<Member>, m: seq<Member>, w: Times, slots: nat)
    requires Renewing(s, m, w, slots) && AllBefore(w, slots) && OneAtATime(w)
    ensures WellLinked(Moved(s, m, w)) <==> Safe(w)
  {
    hide Links, Starts, Ends, Safe, WellLinked, OneAtATime;
    if Safe(w) {
      SafeLinked(s, m, w, slots);
    }
    if WellLinked(Moved(s, m, w)) {
      LinkedSafe(s, m, w, slots);
    }
  }

  lemma SafeLinked(s: seq<Member>, m: seq<Member>, w: Times, slots: nat)
    requires Renewing(s, m, w, slots) && AllBefore(w, slots) && Safe(w)
    ensures WellLinked(Moved(s, m, w))
  {
    hide Links, Starts, Ends, Distinct;
    var t := Moved(s, m, w);
    MovedDistinct(s, m, w);
    SafeStarts(s, m, w, slots);
    SafeEnds(s, m, w, slots);
    hide Safe, Renewing, AllBefore;
    forall i | 0 <= i < |t| ensures Forward(t, i) && t[i].prev == Prev(t, i) {
      SafeLinks(s, m, w, slots, i);
    }
  }

  lemma SafeStarts(s: seq<Member>, m: seq<Member>, w: Times, slots: nat)
    requires |s| == |m| == |w| && 0 < |w| && Starts(s, m, w, slots) && AllBefore(w, slots) && Safe(w)
    ensures var t := Moved(s, m, w); forall i :: 0 <= i < |t| ==> t[i].start == t[0]
  {
  }

  lemma SafeEnds(s: seq<Member>, m: seq<Member>, w: Times, slots: nat)
    requires |s| == |m| == |w| && 0 < |w| && Ends(s, m, w, slots) && AllBefore(w, slots) && Safe(w)
    ensures var t := Moved(s, m, w); forall i :: 0 <= i < |t| ==> t[i].end == t[|t| - 1]
  {
  }

  lemma SafeLinks(s: seq<Member>, m: seq<Member>, w: Times, slots: nat, i: nat)
    requires |s| == |m| == |w| && i < |w| && Links(s, m, w, slots) && AllBefore(w, slots) && NoneAdjacent(w)
    ensures var t := Moved(s, m, w); t[i].next == Next(t, i) && t[i].prev == Prev(t, i)
  {
    hide Links;
    LinksNow(s, m, w, slots, i);
    assert 0 < i ==> w[i - 1].None? || w[i].None?;
  }

  lemma LinksNow(s: seq<Member>, m: seq<Member>, w: Times, now: nat, i: nat)
    requires |s| == |m| == |w| && Links(s, m, w, now) && i < |w|
    ensures LinksAt(s, m, w, now, i)
  {
  }

  lemma LinkedSafe(s: seq<Member>, m: seq<Member>, w: Times, slots: nat)
    requires Renewing(s, m, w, slots) && AllBefore(w, slots) && OneAtATime(w) && WellLinked(Moved(s, m, w))
    ensures Safe(w)
  {
    hide Links, Distinct;
    var t := Moved(s, m, w);
    forall i | 0 <= i < |w| - 1 ensures w[i].None? || w[i + 1].None? {
      LinksNow(s, m, w, slots, i);
      assert Forward(t, i);
    }
    forall i | 0 <= i < |w| ensures t[i].start == t[0] && t[i].end == t[|t| - 1] {
      assert Forward(t, i);
    }
  }

  // ---------------------------------------------------------------- the family

  /// The element that is renewed at `now`, if any.
  function WhoIs(w: Times, now: nat): (k: Option<nat>)
    ensures k.Some? ==> k.value < |w| && w[k.value] == Some(now)
    ensures k.None? ==> forall i :: 0 <= i < |w| ==> w[i] != Some(now)
  {
    if w == [] then None
    else if w[|w| - 1] == Some(now) then Some(|w| - 1)
    else WhoIs(w[..|w| - 1], now)
  }

  /// A new list of `n` elements.
  method Listed(n: nat) returns (s: seq<Member>)
    requires n > 0
    ensures |s| == n && fresh(s) && WellLinked(s)
  {
    var x := new Member();
    ContainerlessLists.Init(x);
    s := [x];
    while |s| < n
      invariant 0 < |s| <= n && fresh(s) && WellLinked(s)
    {
      var y := new Member();
      ContainerlessLists.Append(s[0], y, s);
      s := s + [y];
    }
  }

  /// The heap copies a node.
  method CopyOut(s: seq<Member>, w: Times) returns (m: seq<Member>)
    requires |s| == |w| && WellLinked(s)
    ensures |m| == |w| && fresh(m) && Copied(s, m, w)
    ensures forall i :: 0 <= i < |w| && w[i].Some? ==> m[i].from == s[i].from && m[i].first == s[i].first
  {
    m := [];
    while |m| < |w|
      invariant |m| <= |w| && fresh(m) && Distinct(m) && (forall i, j :: 0 <= i < |s| && 0 <= j < |m| ==> s[i] != m[j])
      invariant forall i :: 0 <= i < |m| ==> m[i].start == s[i].start && m[i].end == s[i].end && m[i].prev == s[i].prev && m[i].next == s[i].next && m[i].from == s[i].from && m[i].first == s[i].first
    {
      var y := new Member();
      var x := s[|m|];
      y.start, y.end, y.prev, y.next, y.from, y.first := x.start, x.end, x.prev, x.next, x.from, x.first;
      m := m + [y];
    }
  }

  /// A resource list of |w| capabilities through a node of `slots` slots that has moved.
  method RenewList(w: Times, slots: nat) returns (linked: bool)
    requires |w| > 0 && OneAtATime(w) && AllBefore(w, slots)
    ensures linked <==> Safe(w)
  {
    hide Renewing, WellLinked, Safe, Copied, OneAtATime;
    var s := Listed(|w|);
    var m := CopyOut(s, w);
    CopiedRenewing(s, m, w);
    for now := 0 to slots
      invariant Renewing(s, m, w, now)
    {
      match WhoIs(w, now) {
        case Some(k) => Renew(m[k], s, m, w, now, k);
        case None => NobodyNow(s, m, w, now);
      }
    }
    RenewedIff(s, m, w, slots);
    linked := WellLinked(Moved(s, m, w));
  }

  /// The pointers between the capability at `p`, or its copy at `q`, and its derivations.
  ghost predicate Family(s: seq<Member>, m: seq<Member>, w: Times, p: Member, q: Member, parent: Option<nat>, now: nat)
    requires |s| == |m| == |w| && 0 < |w|
    reads s`from, m`from, p`first, q`first
  {
    && (forall i :: 0 <= i < |w| && (parent.None? || now <= parent.value) ==> s[i].from == p && (w[i].Some? ==> m[i].from == p))
    && (parent.None? ==> p.first == if Done(w, now, 0) then m[0] else s[0])
    && (parent.Some? ==> q.first == s[0] && (w[0].Some? ==> m[0].from == p))
    && (parent.Some? && parent.value < now ==>
          && (forall i :: 0 < i < |w| && w[i].Some? && w[i].value >= parent.value ==> m[i].from == p)
          && (w[0].None? && NoneAdjacent(w) && AllBefore(w, parent.value) ==> forall i :: 0 <= i < |w| ==> Moved(s, m, w)[i].from == q))
  }

  /// The derivations are one list, and point at `p` as it points at them.
  predicate FamilyLinked(t: seq<Member>, p: Member)
    reads t, p
  {
    WellLinked(t) && p.first == t[0] && forall i :: 0 <= i < |t| ==> t[i].from == p
  }

  ghost predicate Outside(s: seq<Member>, m: seq<Member>, p: Member, q: Member) { p !in s && p !in m && q !in s && q !in m && p != q }

  /// update_capability_references on a derivation.
  method RenewChild(item: Member, ghost s: seq<Member>, ghost m: seq<Member>, ghost w: Times, ghost p: Member, ghost q: Member, ghost parent: Option<nat>, ghost now: nat, ghost k: nat)
    requires Renewing(s, m, w, now) && OneAtATime(w) && k < |w| && w[k] == Some(now) && item == m[k]
    requires Outside(s, m, p, q) && Family(s, m, w, p, q, parent, now) && parent != Some(now)
    modifies s`prev, s`next, s`start, m`start, s`end, m`end, p`first
    ensures Renewing(s, m, w, now + 1) && Family(s, m, w, p, q, parent, now + 1)
  {
    hide Starts, Ends, Links;
    AtEnds(s, m, w, now, k);
    Renew(item, s, m, w, now, k);
    if item.prev == null && item.from != null {
      item.from.first := item;
    }
  }

  /// The loop of update_capability_references over the derivations of a capability.
  method RenewParent(item: Member, ghost s: seq<Member>, ghost m: seq<Member>, ghost w: Times, ghost p: Member, ghost now: nat)
    requires Renewing(s, m, w, now) && OneAtATime(w) && Outside(s, m, p, item) && Family(s, m, w, p, item, Some(now), now)
    modifies s`from, m`from
    ensures Family(s, m, w, p, item, Some(now), now + 1)
  {
    hide Links, Ends, Up;
    ghost var t := WayUp(s, m, w, now, false);
    WayUpLinked(s, m, w, now, false);
    UpWhere(w, now, false);
    NotOnWay(s, m, w, t);
    if item.first != null {
      SetFroms(item.first.start, item, t);
    }
    hide Apart, Starts, NoneAdjacent;
    forall i | 0 <= i < |w| && w[0].None? && NoneAdjacent(w) && AllBefore(w, now) ensures Moved(s, m, w)[i] == t[i] {
      UpAll(w, now, i);
    }
  }

  method SetFroms(start: Member?, p: Member, ghost t: seq<Member>)
    requires |t| > 0 && Distinct(t) && start == t[0] && forall i {:trigger Next(t, i)} :: 0 <= i < |t| ==> t[i].next == Next(t, i)
    modifies t`from
    ensures forall i :: 0 <= i < |t| ==> t[i].from == p
  {
    var link := start;
    ghost var i := 0;
    while link != null
      invariant 0 <= i <= |t| && link == (if i < |t| then t[i] else null)
      invariant forall j :: 0 <= j < i ==> t[j].from == p
      decreases |t| - i
    {
      assert t[i].next == Next(t, i);
      link.from := p;
      link := link.next;
      i := i + 1;
    }
  }

  /// A new capability with `n` derivations.
  method Derived(n: nat) returns (s: seq<Member>, p: Member)
    requires n > 0
    ensures |s| == n && fresh(s) && fresh(p) && p !in s && FamilyLinked(s, p)
  {
    hide Distinct;
    s := Listed(n);
    p := new Member();
    p.first := s[0];
    assert forall i {:trigger Next(s, i)} :: 0 <= i < |s| ==> Forward(s, i) && s[i].next == Next(s, i);
    SetFroms(s[0], p, s);
  }

  lemma FamilyBefore(s: seq<Member>, m: seq<Member>, w: Times, p: Member, q: Member, parent: Option<nat>)
    requires Apart(s, m, w) && FamilyLinked(s, p) && q.first == p.first
    requires forall i :: 0 <= i < |w| && w[i].Some? ==> m[i].from == s[i].from
    ensures Family(s, m, w, p, q, parent, 0)
  {
  }

  lemma NobodyElseNow(s: seq<Member>, m: seq<Member>, w: Times, p: Member, q: Member, parent: Option<nat>, now: nat)
    requires Renewing(s, m, w, now) && (forall i :: 0 <= i < |w| ==> w[i] != Some(now))
    requires Family(s, m, w, p, q, parent, if parent == Some(now) then now + 1 else now)
    ensures Renewing(s, m, w, now + 1) && Family(s, m, w, p, q, parent, now + 1)
  {
    NobodyNow(s, m, w, now);
  }

  lemma FamilyIff(s: seq<Member>, m: seq<Member>, w: Times, p: Member, q: Member, parent: Option<nat>, slots: nat)
    requires Renewing(s, m, w, slots) && AllBefore(w, slots) && OneAtATime(w) && Outside(s, m, p, q) && Family(s, m, w, p, q, parent, slots)
    requires parent.Some? ==> parent.value < slots && forall i :: 0 <= i < |w| ==> w[i] != parent
    ensures FamilyLinked(Moved(s, m, w), if parent.Some? then q else p) <==> FamilySafe(w, parent)
  {
    RenewedIff(s, m, w, slots);
    hide WellLinked, Links, Starts, Ends, Safe;
    var t := Moved(s, m, w);
    if FamilyLinked(t, if parent.Some? then q else p) {
      assert t[0].from == if parent.Some? then q else p;
    }
  }

  /// A capability and its derivations, and what the heap has copied of them.
  method CopyFamily(w: Times, ghost parent: Option<nat>) returns (s: seq<Member>, m: seq<Member>, p: Member, q: Member)
    requires |w| > 0
    ensures fresh(s) && fresh(m) && fresh(p) && fresh(q) && Outside(s, m, p, q)
    ensures Renewing(s, m, w, 0) && Family(s, m, w, p, q, parent, 0)
  {
    hide Renewing, WellLinked, Family;
    s, p := Derived(|w|);
    m := CopyOut(s, w);
    q := new Member();
    q.first := p.first;
    CopiedRenewing(s, m, w);
    FamilyBefore(s, m, w, p, q, parent);
  }

  /// What on_node_moved does for slot `now`, as far as this family is concerned.
  method RenewSlot(s: seq<Member>, m: seq<Member>, w: Times, ghost p: Member, q: Member, parent: Option<nat>, now: nat)
    requires Renewing(s, m, w, now) && OneAtATime(w) && Outside(s, m, p, q) && Family(s, m, w, p, q, parent, now)
    requires parent.Some? ==> forall i :: 0 <= i < |w| ==> w[i] != parent
    modifies s, m, p`first
    ensures Renewing(s, m, w, now + 1) && Family(s, m, w, p, q, parent, now + 1)
  {
    hide Links, Starts, Ends, Family;
    match WhoIs(w, now) {
      case Some(k) =>
        RenewChild(m[k], s, m, w, p, q, parent, now, k);
      case None =>
        if parent == Some(now) {
          RenewParent(q, s, m, w, p, now);
        }
        NobodyElseNow(s, m, w, p, q, parent, now);
    }
  }

  /// The derivations of a capability, some of them in the slots `w` of the moved node, and the capability in slot `parent`.
  method RenewFamily(w: Times, parent: Option<nat>, slots: nat) returns (linked: bool)
    requires |w| > 0 && OneAtATime(w) && AllBefore(w, slots)
    requires parent.Some? ==> parent.value < slots && forall i :: 0 <= i < |w| ==> w[i] != parent
    ensures linked <==> FamilySafe(w, parent)
  {
    hide Links, Starts, Ends, WellLinked, FamilySafe, OneAtATime, Family, AllBefore;
    var s, m, p, q := CopyFamily(w, parent);
    for now := 0 to slots
      invariant Renewing(s, m, w, now) && Family(s, m, w, p, q, parent, now)
    {
      RenewSlot(s, m, w, p, q, parent, now);
    }
    FamilyIff(s, m, w, p, q, parent, slots);
    linked := FamilyLinked(Moved(s, m, w), if parent.Some? then q else p);
  }

  /// An original and its only copy, in any two slots of one node: once the heap has moved the node, neither their
  /// resource list nor the pointers between them are right.
  method TwoInOneNode(original: nat, copy: nat, slots: nat) returns (list: bool, family: bool)
    requires original != copy && original < slots && copy < slots
    ensures !list && !family
  {
    hide Safe, FamilySafe;
    list := RenewList([Some(original), Some(copy)], slots);
    family := RenewFamily([Some(copy)], Some(original), slots);
    TwoUnsafe(original, copy);
  }

  lemma TwoUnsafe(original: nat, copy: nat)
    ensures !Safe([Some(original), Some(copy)]) && !FamilySafe([Some(copy)], Some(original))
  {
    var w: Times := [Some(original), Some(copy)];
    assert !(w[0].None? || w[1].None?);
  }
}

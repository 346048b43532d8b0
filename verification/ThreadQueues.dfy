/**
Queues of threads as the kernel keeps them: a container of ContainerLists, and in each thread the link
by which it hangs there. The queue stands for the sequence `q`; `stale` says that its first thread
still points back at one that was popped before it.
*/
module ThreadQueues {
  import Lists = ContainerLists

  /// The links of the threads in `q`.
  ghost function Links(m: map<nat, Lists.Item>, q: seq<nat>): (s: seq<Lists.Item>)
    requires forall t :: t in q ==> t in m
    ensures |s| == |q| && forall i :: 0 <= i < |q| ==> s[i] == m[q[i]]
  {
    seq(|q|, i requires 0 <= i < |q| => m[q[i]])
  }

  lemma LinksSnoc(m: map<nat, Lists.Item>, q: seq<nat>, t: nat)
    requires t in m && forall u :: u in q ==> u in m
    ensures Links(m, q + [t]) == Links(m, q) + [m[t]]
  {
  }

  lemma LinksTail(m: map<nat, Lists.Item>, q: seq<nat>)
    requires q != [] && (forall u :: u in q ==> u in m) && Lists.Distinct(q)
    ensures Links(m, q[1..]) == Links(m, q)[1..] && Lists.Distinct(q[1..])
    ensures forall u :: u in q[1..] ==> u in q
  {
  }

  lemma LinksWithout(m: map<nat, Lists.Item>, q: seq<nat>, k: nat)
    requires k < |q| && forall u :: u in q ==> u in m
    ensures (forall u :: u in Lists.Without(q, k) ==> u in q) && Links(m, Lists.Without(q, k)) == Lists.Without(Links(m, q), k)
  {
  }

  lemma QueueWithout(q: seq<nat>, k: nat)
    requires k < |q| && Lists.Distinct(q)
    ensures Lists.Distinct(Lists.Without(q, k)) && q[k] !in Lists.Without(q, k) && |Lists.Without(q, k)| == |q| - 1
    ensures k > 0 ==> Lists.Without(q, k)[0] == q[0]
    ensures forall u :: u in Lists.Without(q, k) ==> u in q
  {
    Lists.DistinctWithout(q, k);
  }

  class ThreadQueue {
    const container: Lists.Container
    var links: map<nat, Lists.Item>
    ghost var q: seq<nat>
    ghost var stale: bool
    ghost var Repr: set<object>

    ghost predicate Valid()
      reads this, Repr
    {
      && this in Repr && container in Repr
      && (forall t :: t in links ==> links[t] in Repr && links[t].owner == t)
      && (q != [] && q[0] in links && links[q[0]].prev != null ==> links[q[0]].prev in Repr)
      && (forall t :: t in q ==> t in links) && Lists.Distinct(q)
      && Lists.Chained(container, Links(links, q))
      && (stale <==> !Lists.Linked(container, Links(links, q)))
    }

    /// The first thread, and whether it points back.
    method Head() returns (t: nat, none: bool, back: bool)
      requires Valid()
      ensures none <==> q == []
      ensures !none ==> t == q[0]
      ensures back == stale
    {
      none := container.start == null;
      t, back := 0, false;
      if !none {
        assert container.start == Links(links, q)[0];
        t, back := container.start.owner, container.start.prev != null;
      }
    }

    constructor ()
      ensures Valid() && q == [] && !stale && fresh(Repr)
    {
      container := new Lists.Container(0);
      links := map[];
      q, stale := [], false;
      Repr := {this, container};
    }

    /// The thread's link is made when it is first used; the macro overwrites both of its fields.
    method Append(t: nat)
      requires Valid() && t !in q
      modifies Repr
      ensures Valid() && q == old(q) + [t] && stale == old(stale) && fresh(Repr - old(Repr))
    {
      hide Lists.Distinct;
      if t !in links {
        AddLink(t);
      }
      assert links[t] !in Links(links, q);
      DistinctSnoc(q, t);
      Lists.Append(container, links[t], Links(links, q));
      LinksSnoc(links, q, t);
      q := q + [t];
    }

    /// A thread that was in no queue yet.
    method AddLink(t: nat)
      requires Valid() && t !in links
      modifies this`links, this`Repr
      ensures Valid() && t in links && fresh(Repr - old(Repr)) && old(Repr) <= Repr
    {
      hide Lists.Distinct, Lists.Chained, Lists.Linked;
      var item := new Lists.Item(t);
      links := links[t := item];
      Repr := Repr + {item};
      assert Links(links, q) == Links(old(links), q);
    }

    /// What Pop changes is part of the queue.
    lemma Inside()
      requires Valid()
      ensures this in Repr && container in Repr && (container.start != null ==> container.start in Repr)
      ensures container.start == null <==> q == []
      ensures q != [] ==> container.start.owner == q[0]
      ensures q == [] ==> !stale
      ensures Lists.Distinct(q) && forall t :: t in q ==> t in links
    {
      assert q != [] ==> Links(links, q)[0] == links[q[0]];
    }

    /// The first thread, whatever the state of the links.
    method Pop() returns (head: Lists.Item?)
      modifies this`q, this`stale, container, container.start
      ensures head == old(container.start) && Repr == old(Repr)
      ensures old(Valid()) && old(q) == [] ==> Valid() && head == null && q == [] && !stale
      ensures old(Valid()) && old(q) != [] ==>
        Valid() && head != null && head.owner == old(q)[0] && q == old(q)[1..] && (stale <==> |old(q)| > 1)
    {
      hide Lists.Distinct, Lists.Chained;
      ghost var valid := Valid();
      if valid && q != [] {
        LinksTail(links, q);
        Inside();
        assert |q| > 1 ==> links[q[0]] in Repr && Links(links, q)[1] == links[q[1]];
      }
      head := Lists.Pop(container, if valid then Links(links, q) else []);
      if valid {
        stale := |q| > 1;
        q := if q == [] then [] else q[1..];
      }
    }

    /// The thread leaves the queue exactly when it is not a first thread that points back.
    method Remove(t: nat)
      requires Valid() && t in q
      modifies Repr
      ensures !(old(stale) && old(q)[0] == t) ==> Valid() && t !in q && WithoutIt(old(q), q, t)
      ensures old(stale) && old(q)[0] == t ==> container.start != null && container.start.owner == t && container.start in Repr
      ensures stale == old(stale) && Repr == old(Repr)
    {
      hide Lists.Distinct, Lists.Without, Lists.Chained, Lists.Linked, WithoutIt;
      ghost var k :| 0 <= k < |q| && q[k] == t;
      TakenOut(q, k);
      LinksWithout(links, q, k);
      QueueWithout(q, k);
      Lists.BackLinks(container, Links(links, q), k);
      Lists.Remove(container, links[t], Links(links, q), k);
      q := Lists.Without(q, k);
      if q != [] && Lists.Chained(container, Links(links, q)) {
        Lists.BackLinks(container, Links(links, q), 0);
      }
    }
  }

  lemma DistinctSnoc(q: seq<nat>, t: nat)
    requires Lists.Distinct(q) && t !in q
    ensures Lists.Distinct(q + [t])
  {
  }

  lemma TakenOut(q: seq<nat>, k: nat)
    requires k < |q|
    ensures WithoutIt(q, Lists.Without(q, k), q[k])
  {
  }

  /// `r` is `q` without its one occurrence of `t`.
  ghost predicate WithoutIt(q: seq<nat>, r: seq<nat>, t: nat) {
    exists k :: 0 <= k < |q| && q[k] == t && r == q[..k] + q[k + 1..]
  }
}

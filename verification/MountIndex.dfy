/**
The hash index of mount points in a filesystem namespace (core/vfs_server/namespaces.c), for an
arbitrary hash function. The simple form that it refines is the list of mounts, the most recent first.
*/
module MountIndex {

  const NONE := 0xffff_ffff
  const BUCKETS := 128
  const ENOMEM := 11

  datatype MountPoint = MountPoint(
    previous: nat, next: nat, references: nat, enclosing: nat, inode: nat, listIndex: nat)
  {
    predicate At(i: nat, fs: nat) { inode == i && enclosing == fs }
  }

  type Points = map<nat, MountPoint>

  // ---------------------------------------------------------------- the simple form

  ghost predicate Known(points: Points, log: seq<nat>) { forall i :: 0 <= i < |log| ==> log[i] in points }

  /// The first mount in `log` with this inode and enclosing filesystem.
  function Latest(points: Points, log: seq<nat>, inode: nat, fs: nat): nat
    requires Known(points, log)
  {
    if log == [] then NONE
    else if points[log[0]].At(inode, fs) then log[0]
    else Latest(points, log[1..], inode, fs)
  }

  /// The mounts of one bucket.
  function InBucket(points: Points, log: seq<nat>, hash: nat -> nat, b: nat): (l: seq<nat>)
    requires Known(points, log)
  {
    if log == [] then []
    else (if Bucket(points[log[0]], hash) == b then [log[0]] else []) + InBucket(points, log[1..], hash, b)
  }

  function Bucket(p: MountPoint, hash: nat -> nat): (b: nat)
    ensures b < BUCKETS
  {
    hash(p.inode) % BUCKETS
  }

  lemma {:induction false} InBucketExact(points: Points, log: seq<nat>, hash: nat -> nat, b: nat)
    requires Known(points, log)
    ensures forall a {:trigger a in InBucket(points, log, hash, b)} ::
      a in InBucket(points, log, hash, b) <==> a in log && a in points && Bucket(points[a], hash) == b
    ensures Known(points, InBucket(points, log, hash, b))
    decreases |log|
  {
    if log != [] {
      assert log == [log[0]] + log[1..];
      InBucketExact(points, log[1..], hash, b);
    }
  }

  /// Searching only the bucket loses nothing.
  lemma {:induction false} LatestInBucket(points: Points, log: seq<nat>, hash: nat -> nat, inode: nat, fs: nat)
    requires Known(points, log)
    ensures var l := InBucket(points, log, hash, hash(inode) % BUCKETS);
      Known(points, l) && Latest(points, l, inode, fs) == Latest(points, log, inode, fs)
    decreases |log|
  {
    var b := hash(inode) % BUCKETS;
    InBucketExact(points, log, hash, b);
    if log != [] {
      LatestInBucket(points, log[1..], hash, inode, fs);
      var l, rest := InBucket(points, log, hash, b), InBucket(points, log[1..], hash, b);
      if Bucket(points[log[0]], hash) == b {
        assert l == [log[0]] + rest;
        assert l[1..] == rest;
      } else {
        assert l == rest;
      }
    }
  }

  /// `a` is the most recent mount in `log` on this inode of this filesystem, or NONE if there is none.
  ghost predicate MostRecent(points: Points, log: seq<nat>, inode: nat, fs: nat, a: nat)
    requires Known(points, log)
  {
    if a == NONE then forall i :: 0 <= i < |log| ==> !(points[log[i]].inode == inode && points[log[i]].enclosing == fs)
    else
      exists k :: && 0 <= k < |log| && log[k] == a && points[a].inode == inode && points[a].enclosing == fs
                  && forall i :: 0 <= i < k ==> !(points[log[i]].inode == inode && points[log[i]].enclosing == fs)
  }

  /// That is what the search along the list returns.
  lemma {:induction false} LatestExact(points: Points, log: seq<nat>, inode: nat, fs: nat)
    requires Known(points, log) && NONE !in log
    ensures MostRecent(points, log, inode, fs, Latest(points, log, inode, fs))
    decreases |log|
  {
    if log != [] && !points[log[0]].At(inode, fs) {
      var rest, a := log[1..], Latest(points, log, inode, fs);
      LatestExact(points, rest, inode, fs);
      if a == NONE {
        forall i | 0 <= i < |log| ensures !points[log[i]].At(inode, fs) {
          assert i > 0 ==> log[i] == rest[i - 1];
        }
      } else {
        var k :| 0 <= k < |rest| && rest[k] == a && points[a].At(inode, fs)
          && forall i :: 0 <= i < k ==> !points[rest[i]].At(inode, fs);
        forall i | 0 <= i < k + 1 ensures !points[log[i]].At(inode, fs) {
          assert i > 0 ==> log[i] == rest[i - 1];
        }
        assert log[k + 1] == a;
      }
    } else if log != [] {
      assert log[0] == Latest(points, log, inode, fs);
    }
  }

  // ---------------------------------------------------------------- the chains

  /// The chain from `head` holds the mounts `l`, linked both ways.
  ghost predicate Linked(points: Points, head: nat, l: seq<nat>) {
    && head == (if l == [] then NONE else l[0])
    && forall i {:trigger l[i]} :: 0 <= i < |l| ==>
         && l[i] in points
         && points[l[i]].next == (if i + 1 < |l| then l[i + 1] else NONE)
         && points[l[i]].previous == (if i == 0 then NONE else l[i - 1])
  }

  ghost predicate Distinct(l: seq<nat>) { forall i, j :: 0 <= i < j < |l| ==> l[i] != l[j] }

  /// Walking a chain; a mount whose lock is refused ends the walk.
  function Search(points: Points, l: seq<nat>, inode: nat, fs: nat, refused: set<nat>): nat
    requires Known(points, l)
  {
    if l == [] || l[0] in refused then NONE
    else if points[l[0]].At(inode, fs) then l[0]
    else Search(points, l[1..], inode, fs, refused)
  }

  /// A refused lock can only lose the answer, and without one the answer is the simple form's.
  lemma {:induction false} SearchLatest(points: Points, log: seq<nat>, hash: nat -> nat, inode: nat, fs: nat, refused: set<nat>)
    requires Known(points, log)
    ensures var l := InBucket(points, log, hash, hash(inode) % BUCKETS);
      && Known(points, l)
      && (Search(points, l, inode, fs, refused) in {NONE, Latest(points, log, inode, fs)})
      && (refused !! (set a | a in l) ==> Search(points, l, inode, fs, refused) == Latest(points, log, inode, fs))
  {
    LatestInBucket(points, log, hash, inode, fs);
    SearchWalk(points, InBucket(points, log, hash, hash(inode) % BUCKETS), inode, fs, refused);
  }

  lemma {:induction false} SearchWalk(points: Points, l: seq<nat>, inode: nat, fs: nat, refused: set<nat>)
    requires Known(points, l)
    ensures Search(points, l, inode, fs, refused) in {NONE, Latest(points, l, inode, fs)}
    ensures refused !! (set a | a in l) ==> Search(points, l, inode, fs, refused) == Latest(points, l, inode, fs)
    decreases |l|
  {
    if l != [] {
      assert l == [l[0]] + l[1..];
      assert l[0] in l;
      SearchWalk(points, l[1..], inode, fs, refused);
    }
  }

  // ---------------------------------------------------------------- adding a mount

  /// A new mount at the head of its chain.
  function Pushed(points: Points, head: nat, slot: nat, point: MountPoint): Points
    requires head == NONE || head in points
  {
    if head == NONE then points[slot := point]
    else points[slot := point.(next := head)][head := points[head].(previous := slot)]
  }

  lemma PushedLinked(points: Points, head: nat, l: seq<nat>, slot: nat, point: MountPoint)
    requires Linked(points, head, l) && Distinct(l) && NONE !in l && slot !in points
    requires point.next == NONE && point.previous == NONE
    ensures head == NONE || head in points
    ensures Linked(Pushed(points, head, slot, point), slot, [slot] + l)
  {
    var after, l' := Pushed(points, head, slot, point), [slot] + l;
    assert l != [] ==> l[0] in points && l[0] in l;
    forall i {:trigger l'[i]} | 0 <= i < |l'|
      ensures l'[i] in after
      ensures after[l'[i]].next == (if i + 1 < |l'| then l'[i + 1] else NONE)
      ensures after[l'[i]].previous == (if i == 0 then NONE else l'[i - 1])
    {
      if i > 0 {
        assert l'[i] == l[i - 1] && l[i - 1] in points;
      }
    }
  }

  /// The chains of the other buckets do not see the new mount.
  lemma OthersLinked(points: Points, head: nat, slot: nat, point: MountPoint, other: nat, l: seq<nat>)
    requires Linked(points, other, l) && slot !in points && (head == NONE || head in points) && head !in l
    ensures Linked(Pushed(points, head, slot, point), other, l)
  {
    var after := Pushed(points, head, slot, point);
    forall i {:trigger l[i]} | 0 <= i < |l|
      ensures l[i] in after && after[l[i]] == points[l[i]]
    {
      assert l[i] in points && l[i] in l;
    }
  }

  /// The old mount points are as they were, but for the link to a new one before them.
  ghost predicate SameMounts(points: Points, after: Points) {
    forall a {:trigger a in after} {:trigger a in points} :: a in points ==>
      a in after && after[a] == points[a].(previous := after[a].previous)
  }

  lemma {:induction false} InBucketKept(points: Points, after: Points, log: seq<nat>, hash: nat -> nat, b: nat)
    requires Known(points, log) && SameMounts(points, after)
    ensures Known(after, log) && InBucket(after, log, hash, b) == InBucket(points, log, hash, b)
    decreases |log|
  {
    forall i | 0 <= i < |log| ensures log[i] in after {
      assert log[i] in points;
    }
    if log != [] {
      InBucketKept(points, after, log[1..], hash, b);
    }
  }

  lemma {:induction false} InBucketDistinct(points: Points, log: seq<nat>, hash: nat -> nat, b: nat)
    requires Known(points, log) && Distinct(log)
    ensures Distinct(InBucket(points, log, hash, b))
    decreases |log|
  {
    if log != [] {
      InBucketDistinct(points, log[1..], hash, b);
      InBucketExact(points, log[1..], hash, b);
      var rest := InBucket(points, log[1..], hash, b);
      assert forall i :: 0 <= i < |rest| ==> rest[i] in rest;
    }
  }

  /// The index agrees with the list of mounts.
  ghost predicate Indexed(points: Points, heads: seq<nat>, hash: nat -> nat, log: seq<nat>) {
    && |heads| == BUCKETS && Known(points, log) && Distinct(log) && NONE !in points
    && forall b {:trigger heads[b]} :: 0 <= b < BUCKETS ==> Linked(points, heads[b], InBucket(points, log, hash, b))
  }

  /// The mounts of bucket `c` after adding `slot` to the list.
  lemma InBucketPushed(points: Points, head: nat, log: seq<nat>, hash: nat -> nat, slot: nat, point: MountPoint, c: nat)
    requires Known(points, log) && slot !in points && (head == NONE || head in points)
    ensures var after := Pushed(points, head, slot, point);
      && Known(after, [slot] + log)
      && InBucket(after, [slot] + log, hash, c)
         == (if Bucket(point, hash) == c then [slot] else []) + InBucket(points, log, hash, c)
  {
    var after := Pushed(points, head, slot, point);
    InBucketKept(points, after, log, hash, c);
    assert ([slot] + log)[1..] == log;
  }

  /// A head of one bucket is in no other.
  lemma HeadElsewhere(points: Points, heads: seq<nat>, hash: nat -> nat, log: seq<nat>, b: nat, c: nat)
    requires Indexed(points, heads, hash, log) && b < BUCKETS && c < BUCKETS && b != c
    ensures heads[b] == NONE || heads[b] in points
    ensures heads[b] !in InBucket(points, log, hash, c)
  {
    InBucketExact(points, log, hash, b);
    InBucketExact(points, log, hash, c);
    var l := InBucket(points, log, hash, b);
    assert Linked(points, heads[b], l);
    assert l != [] ==> l[0] in l;
  }

  /// Bucket `c` after adding a mount.
  lemma PushedBucket(points: Points, heads: seq<nat>, hash: nat -> nat, log: seq<nat>, slot: nat, point: MountPoint, c: nat)
    requires Indexed(points, heads, hash, log) && slot !in points && slot != NONE && c < BUCKETS
    requires point.next == NONE && point.previous == NONE
    ensures var b := Bucket(point, hash);
      && (heads[b] == NONE || heads[b] in points)
      && var after := Pushed(points, heads[b], slot, point);
         && Known(after, [slot] + log)
         && Linked(after, heads[b := slot][c], InBucket(after, [slot] + log, hash, c))
  {
    hide Pushed, Linked, Distinct;
    var b := Bucket(point, hash);
    var l := InBucket(points, log, hash, c);
    assert Linked(points, heads[c], l);
    if c == b {
      InBucketExact(points, log, hash, b);
      InBucketDistinct(points, log, hash, b);
      PushedLinked(points, heads[b], l, slot, point);
      InBucketPushed(points, heads[b], log, hash, slot, point, c);
    } else {
      HeadElsewhere(points, heads, hash, log, b, c);
      InBucketPushed(points, heads[b], log, hash, slot, point, c);
      OthersLinked(points, heads[b], slot, point, heads[c], l);
      assert [] + l == l;
    }
  }

  /// Adding a mount to the index adds it to the front of the list.
  lemma PushedIndexed(points: Points, heads: seq<nat>, hash: nat -> nat, log: seq<nat>, slot: nat, point: MountPoint)
    requires Indexed(points, heads, hash, log) && slot !in points && slot != NONE
    requires point.next == NONE && point.previous == NONE
    ensures var b := Bucket(point, hash);
      && (heads[b] == NONE || heads[b] in points)
      && Indexed(Pushed(points, heads[b], slot, point), heads[b := slot], hash, [slot] + log)
  {
    hide Linked, InBucket;
    var b := Bucket(point, hash);
    PushedBucket(points, heads, hash, log, slot, point, b);
    var after := Pushed(points, heads[b], slot, point);
    var heads' := heads[b := slot];
    forall c {:trigger heads'[c]} | 0 <= c < BUCKETS
      ensures Linked(after, heads'[c], InBucket(after, [slot] + log, hash, c))
    {
      PushedBucket(points, heads, hash, log, slot, point, c);
    }
    assert slot !in log by {
      assert forall i :: 0 <= i < |log| ==> log[i] in points;
    }
  }

  // ---------------------------------------------------------------- the namespace

  class Namespace {
    const hash: nat -> nat
    var root: nat
    var heads: seq<nat>
    var points: Points

    /// The index stands for the list `log` of mounts other than the root.
    ghost predicate Holds(log: seq<nat>)
      reads this
    {
      && Indexed(points, heads, hash, log) && root !in log
      && (root == NONE ==> log == []) && (root != NONE ==> root in points)
    }

    constructor (hash: nat -> nat)
      ensures this.hash == hash && root == NONE && points == map[] && Holds([])
    {
      this.hash := hash;
      root := NONE;
      heads := seq(BUCKETS, _ => NONE);
      points := map[];
    }

    /// add_mount_point_to_namespace; `slot` is the structure that was allocated for it, or NONE.
    method Add(slot: nat, point: MountPoint, refused: set<nat>, ghost log: seq<nat>)
      returns (status: nat, ghost after: seq<nat>)
      requires Holds(log) && (slot == NONE || slot !in points)
      requires point.next == NONE && point.previous == NONE
      modifies this
      ensures Holds(after)
      ensures status == 0 <==>
        (slot != NONE && slot !in refused && (old(root) != NONE ==> old(heads)[Bucket(point, hash)] !in refused - {NONE}))
      ensures status != 0 ==> status == ENOMEM && root == old(root) && heads == old(heads) && points == old(points)
      ensures after == if status == 0 && old(root) != NONE then [slot] + log else log
      ensures root == if status == 0 && old(root) == NONE then slot else old(root)
      ensures SameMounts(old(points), points)
      ensures points.Keys == old(points.Keys) + (if status == 0 then {slot} else {})
      ensures status == 0 ==> points[slot].(next := NONE) == point
    {
      after := log;
      if slot == NONE || slot in refused {
        return ENOMEM, log;
      }
      if root == NONE {
        root := slot;
        points := points[slot := point];
        assert forall b :: 0 <= b < BUCKETS ==> heads[b] == NONE;
        return 0, log;
      }
      var b := Bucket(point, hash);
      PushedIndexed(points, heads, hash, log, slot, point);
      ghost var pushed := Pushed(points, heads[b], slot, point);
      if heads[b] == NONE {
        points := points[slot := point];
      } else {
        if heads[b] in refused {
          return ENOMEM, log;
        }
        points := points[heads[b] := points[heads[b]].(previous := slot)];
        points := points[slot := point.(next := heads[b])];
      }
      assert points == pushed;
      heads := heads[b := slot];
      return 0, [slot] + log;
    }

    /// find_mount_point
    method Find(inode: nat, fs: nat, refused: set<nat>, ghost log: seq<nat>) returns (r: nat)
      requires Holds(log)
      ensures Known(points, log) && r in {NONE, Latest(points, log, inode, fs)}
      ensures refused !! (set a | a in InBucket(points, log, hash, hash(inode) % BUCKETS))
        ==> MostRecent(points, log, inode, fs, r)
      ensures refused == {} ==> MostRecent(points, log, inode, fs, r)
      ensures r == NONE || MostRecent(points, log, inode, fs, r)
    {
      hide Linked, Latest, Search, InBucket, Distinct, MostRecent;
      assert NONE !in log by {
        assert forall i :: 0 <= i < |log| ==> log[i] in points;
      }
      LatestExact(points, log, inode, fs);
      var b := hash(inode) % BUCKETS;
      ghost var l := InBucket(points, log, hash, b);
      SearchLatest(points, log, hash, inode, fs, refused);
      InBucketExact(points, log, hash, b);
      r := Walk(heads[b], inode, fs, refused, l);
    }

    /// The loop along one chain.
    method Walk(head: nat, inode: nat, fs: nat, refused: set<nat>, ghost l: seq<nat>) returns (r: nat)
      requires Linked(points, head, l) && Known(points, l) && NONE !in points
      ensures r == Search(points, l, inode, fs, refused)
    {
      var address := head;
      ghost var k := 0;
      while address != NONE
        invariant 0 <= k <= |l| && address == (if k < |l| then l[k] else NONE)
        invariant Search(points, l[k..], inode, fs, refused) == Search(points, l, inode, fs, refused)
        decreases |l| - k
      {
        assert l[k..][0] == l[k] && l[k..][1..] == l[k + 1..];
        if address in refused {
          return NONE;
        }
        if points[address].inode == inode && points[address].enclosing == fs {
          return address;
        }
        address := points[address].next;
        k := k + 1;
      }
      return NONE;
    }
  }
}

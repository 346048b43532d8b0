/**
Directories of the initial ramdisk (core/initrd_fs/main.c): scanning for the children of a
directory, reading directory entries and opening a file by name, in an image of whatever contents
along the trail of records from some address on. Addresses are absolute; 0 is the null pointer.
*/
module InitrdFs {
  import opened Basics
  import opened Jax

  const SLASH: byte := 47
  const ENTRY_SIZE := 10

  const EINVAL := 9
  const ENOMEM := 11
  const ENOTSUP := 6
  const ENOENT := 15
  const EROFS := 19
  const TYPE_DIRECTORY: byte := 100

  // ---------------------------------------------------------------- paths

  /// The path of `child` in the directory `dir`; the root directory is the empty path.
  function Path(dir: seq<byte>, child: seq<byte>): seq<byte> {
    if dir == [] then child else dir + [SLASH] + child
  }

  function Prefix(dir: seq<byte>): nat { if dir == [] then 0 else |dir| + 1 }

  /// `name` is a direct child of `dir`.
  predicate IsChild(dir: seq<byte>, name: seq<byte>) {
    |name| >= Prefix(dir) && SLASH !in name[Prefix(dir)..] && name == Path(dir, name[Prefix(dir)..])
  }

  lemma ChildOf(dir: seq<byte>, name: seq<byte>)
    ensures IsChild(dir, name)
      <==> exists child: seq<byte> :: SLASH !in child && name == if dir == [] then child else dir + [SLASH] + child
  {
    if child: seq<byte> :| SLASH !in child && name == Path(dir, child) {
      assert name[Prefix(dir)..] == child;
    }
  }

  /// The first position from `i` on that is not before a slash or the end.
  method FindSlash(name: seq<byte>, i: nat) returns (at: nat)
    requires i <= |name|
    ensures i <= at <= |name| && SLASH !in name[i..at] && (at < |name| ==> name[at] == SLASH)
  {
    at := i;
    while at < |name| && name[at] != SLASH
      invariant i <= at <= |name| && forall k :: i <= k < at ==> name[k] != SLASH
    {
      at := at + 1;
    }
  }

  /// The checks in the loop of next_file_in_dir.
  method InDir(dir: seq<byte>, name: seq<byte>) returns (isChild: bool)
    ensures isChild <==> IsChild(dir, name)
  {
    if dir == [] {
      var at := FindSlash(name, 0);
      assert name[0..] == name && (at == |name| ==> name[0..at] == name);
      return at == |name|;
    }
    if |name| < |dir| + 1 {
      return false;
    }
    var i := 0;
    while i < |dir| && dir[i] == name[i]
      invariant i <= |dir| && dir[..i] == name[..i]
    {
      i := i + 1;
    }
    if i < |dir| || name[|dir|] != SLASH {
      assert Path(dir, name[|dir| + 1..])[..|dir|] == dir && Path(dir, name[|dir| + 1..])[|dir|] == SLASH;
      return false;
    }
    var at := FindSlash(name, |dir| + 1);
    assert name == Path(dir, name[|dir| + 1..]);
    assert at == |name| ==> name[|dir| + 1..at] == name[|dir| + 1..];
    assert at < |name| ==> name[|dir| + 1..][at - |dir| - 1] == SLASH;
    return at == |name|;
  }

  // ---------------------------------------------------------------- scanning

  /// The first child of `dir` from record `i` on, or the number of records.
  ghost function NextChild(fs: seq<File>, dir: seq<byte>, i: nat): (k: nat)
    requires i <= |fs|
    ensures i <= k <= |fs| && (k < |fs| ==> IsChild(dir, fs[k].name))
    ensures forall j :: i <= j < k ==> !IsChild(dir, fs[j].name)
    decreases |fs| - i
  {
    if i == |fs| || IsChild(dir, fs[i].name) then i else NextChild(fs, dir, i + 1)
  }

  /// The ramdisk at `base`, with the trail of records that starts at some address in it.
  ghost predicate Mounted(img: seq<byte>, base: nat, ps: seq<nat>) {
    Placed(img, base) && 0 < base && Trail(img, base, ps)
  }

  method NextFile(img: seq<byte>, base: nat, address: nat, ghost ps: seq<nat>, ghost i: nat)
    returns (next: nat, file: File)
    requires Mounted(img, base, ps) && i < |ps| && address == base + ps[i]
    ensures next != 0 <==> i < |Files(img, base, ps)|
    ensures next != 0 ==> file == Files(img, base, ps)[i] && next == base + ps[i + 1]
  {
    hide Parse, GoesOn;
    var it := new Iterator.At(img, base, address - base);
    TrailAt(img, base, ps, i);
    var ok;
    ok, file := it.NextFile();
    next := if ok then base + it.start else 0;
  }

  method NextFileInDir(img: seq<byte>, base: nat, dir: seq<byte>, address: nat,
                       ghost ps: seq<nat>, ghost i: nat)
    returns (next: nat, file: File, at: nat)
    requires Mounted(img, base, ps) && i < |ps|
    requires address < base || address == base + ps[i]
    ensures var fs := Files(img, base, ps);
      next != 0 <==> address >= base && NextChild(fs, dir, i) < |fs|
    ensures next != 0 ==>
      var fs := Files(img, base, ps); var k := NextChild(fs, dir, i);
      next == base + ps[k + 1] && at == base + ps[k] && file == fs[k]
  {
    hide Parse, GoesOn, IsChild, Placed;
    if address < base {
      return 0, File(0, [], [], 0, 0, 0, 0, 0, 0), 0;
    }
    var current := address;
    ghost var k := i;
    while true
      invariant i <= k < |ps| && current == base + ps[k]
      invariant NextChild(Files(img, base, ps), dir, k) == NextChild(Files(img, base, ps), dir, i)
      decreases |ps| - k
    {
      at := current;
      current, file := NextFile(img, base, current, ps, k);
      if current == 0 {
        return 0, file, at;
      }
      var isChild := InDir(dir, file.name);
      if isChild {
        return current, file, at;
      }
      k := k + 1;
    }
  }

  // ---------------------------------------------------------------- reading a directory

  datatype Entry = Entry(inode: nat, next: nat, name: seq<byte>)

  /// The name of file `f` as an entry of `dir` reports it: in every directory but
  /// the root it carries two bytes too many, the description length that follows the name.
  function Reported(dir: seq<byte>, f: File): seq<byte>
    requires |f.name| >= Prefix(dir)
  {
    f.name[Prefix(dir)..] + if dir == [] then [] else U16(|f.description|)
  }

  /// The reply to a read of `size` bytes in `dir` at the i-th record of the trail.
  ghost predicate EntryAt(fs: seq<File>, ps: seq<nat>, base: nat, dir: seq<byte>, i: nat, size: nat, e: Entry)
    requires |fs| + 1 == |ps| && i < |ps|
  {
    var k := NextChild(fs, dir, i);
    && k < |fs|
    && e.inode == base + ps[k]
    && e.next == (if NextChild(fs, dir, k + 1) < |fs| then base + ps[k + 1] else 0)
    && |fs[k].name| >= Prefix(dir)
    && e.name == Cut(Reported(dir, fs[k]), if size < ENTRY_SIZE then 0 else size - ENTRY_SIZE)
  }

  function Cut(s: seq<byte>, n: nat): seq<byte> { if n < |s| then s[..n] else s }

  lemma CutImage(img: seq<byte>, from: nat, s: seq<byte>, n: nat)
    requires Holds(img, from, s)
    ensures Cut(s, n) == img[from..from + if n < |s| then n else |s|]
  {
    if n < |s| {
      assert img[from..from + |s|][..n] == img[from..from + n];
    }
  }

  /// The directory branch of handle_read. A position that is not a record's makes the scan read
  /// whatever is there as records, and the reply is made of those.
  method ReadEntry(img: seq<byte>, base: nat, dir: seq<byte>, badge: nat, position: nat, size: nat,
                   ghost ps: seq<nat>, ghost i: nat)
    returns (status: nat, count: nat, entry: Entry)
    requires Mounted(img, base, ps) && i < |ps|
    requires var a := if position == 0 then badge else position;
      a < base + 4 || a == base + ps[i]
    ensures var a, fs := if position == 0 then badge else position, Files(img, base, ps);
      status == (if a < base + 4 || NextChild(fs, dir, i) == |fs| then EINVAL else 0)
    ensures if status == 0
      then EntryAt(Files(img, base, ps), ps, base, dir, i, size, entry) && count == ENTRY_SIZE + |entry.name|
      else count == 0
  {
    hide Parse, GoesOn, IsChild, NextChild, Reported, Cut, Prefix, Placed;
    entry := Entry(0, 0, []);
    var readSize := if size < ENTRY_SIZE then ENTRY_SIZE else size;
    var readAddress := if position == 0 then badge else position;
    if readAddress < base + 4 && readAddress != 0 {
      return EINVAL, 0, entry;
    }
    var next, file, at := NextFileInDir(img, base, dir, readAddress, ps, i);
    if next == 0 {
      return EINVAL, 0, entry;
    }
    ghost var k := NextChild(Files(img, base, ps), dir, i);
    var later, _, _ := NextFileInDir(img, base, dir, next, ps, k + 1);
    TrailAt(img, base, ps, k);
    var name := EntryName(img, base, dir, at - base, |file.name|, readSize - ENTRY_SIZE);
    entry := Entry(at, if later == 0 then 0 else next, name);
    return 0, ENTRY_SIZE + |name|, entry;
  }

  /// The name part of an entry, copied from the record at `p`.
  method EntryName(img: seq<byte>, base: nat, dir: seq<byte>, p: nat, nameLength: nat, room: nat)
    returns (name: seq<byte>)
    requires Parse(img, base, p).Read? && IsChild(dir, Parse(img, base, p).file.name)
    requires nameLength == |Parse(img, base, p).file.name|
    ensures |Parse(img, base, p).file.name| >= Prefix(dir)
    ensures name == Cut(Reported(dir, Parse(img, base, p).file), room)
  {
    hide Parse, IsChild, Reported, Cut;
    ChildName(img, base, dir, p);
    var full := (nameLength - (if dir == [] then 0 else |dir| - 1)) % 65536;
    var length := if room < full then room else full;
    var from := p + 3 + if dir == [] then 0 else |dir| + 1;
    CutImage(img, from, Reported(dir, Parse(img, base, p).file), room);
    name := img[from..from + length];
  }

  /// The bytes of the image from a record's name on.
  lemma NameHeld(img: seq<byte>, base: nat, p: nat)
    requires Parse(img, base, p).Read?
    ensures var f := Parse(img, base, p).file;
      Holds(img, p + 3, f.name + U16(|f.description|)) && |f.name| < 65536 && p + 3 + |f.name| < |img|
  {
    hide Value, Signed, U16, LittleEndian;
    var q := p + 3 + ReadU16(img[p + 1..p + 3]);
    U16Back(img[q..q + 2]);
    assert img[p + 3..q + 2] == img[p + 3..q] + img[q..q + 2];
  }

  /// The two bytes of a number are the ones it was read from.
  lemma U16Back(bs: seq<byte>)
    requires |bs| == 2
    ensures U16(ReadU16(bs)) == bs
  {
    var n, high: int := ReadU16(bs), bs[1];
    assert n == bs[0] + 256 * high;
    assert LittleEndian(n / 256, 1) == [n / 256 % 256];
  }

  lemma ChildName(img: seq<byte>, base: nat, dir: seq<byte>, p: nat)
    requires Parse(img, base, p).Read? && IsChild(dir, Parse(img, base, p).file.name)
    ensures var f := Parse(img, base, p).file;
      && |f.name| >= Prefix(dir) && |f.name| < 65536
      && Holds(img, p + 3 + Prefix(dir), Reported(dir, f))
      && |Reported(dir, f)| == |f.name| - (if dir == [] then 0 else |dir| - 1)
  {
    hide Parse, Holds, U16, Path;
    var f := Parse(img, base, p).file;
    var name, after := f.name, U16(|f.description|);
    NameHeld(img, base, p);
    var skipped := name[..Prefix(dir)];
    if dir == [] {
      assert Reported(dir, f) == name;
      HoldsParts(img, p + 3, name, after);
    } else {
      assert name + after == skipped + Reported(dir, f);
      HoldsParts(img, p + 3, skipped, Reported(dir, f));
    }
  }

  /// An entry reports exactly the name of its file only in the root directory, or when
  /// the read leaves no room for the two bytes too many.
  lemma ReportedExactly(dir: seq<byte>, f: File, room: nat)
    requires |f.name| >= Prefix(dir)
    ensures Cut(Reported(dir, f), room) == f.name[Prefix(dir)..]
      <==> |f.name| - Prefix(dir) == room || (dir == [] && |f.name| <= room)
  {
    var child := f.name[Prefix(dir)..];
    assert Reported(dir, f)[..|child|] == child;
    assert dir == [] ==> Reported(dir, f) == child;
    assert dir != [] ==> |Reported(dir, f)| == |child| + 2;
  }

  // ---------------------------------------------------------------- listing a directory

  /// The children of `dir` from record `i` on, in archive order.
  ghost function Children(fs: seq<File>, dir: seq<byte>, i: nat): seq<nat>
    requires i <= |fs|
    decreases |fs| - i
  {
    if i == |fs| then []
    else if IsChild(dir, fs[i].name) then [i] + Children(fs, dir, i + 1)
    else Children(fs, dir, i + 1)
  }

  lemma {:induction false} ChildrenFrom(fs: seq<File>, dir: seq<byte>, i: nat)
    requires i <= |fs|
    ensures var k := NextChild(fs, dir, i);
      Children(fs, dir, i) == if k == |fs| then [] else [k] + Children(fs, dir, k + 1)
    decreases |fs| - i
  {
    hide IsChild;
    if i < |fs| && !IsChild(dir, fs[i].name) {
      ChildrenFrom(fs, dir, i + 1);
    }
  }

  ghost predicate Ascending(ks: seq<nat>) { forall m, n :: 0 <= m < n < |ks| ==> ks[m] < ks[n] }

  lemma {:induction false} ChildrenHas(fs: seq<File>, dir: seq<byte>, i: nat, k: nat)
    requires i <= |fs|
    ensures k in Children(fs, dir, i) <==> i <= k < |fs| && IsChild(dir, fs[k].name)
    decreases |fs| - i
  {
    hide IsChild;
    if i < |fs| {
      ChildrenHas(fs, dir, i + 1, k);
      assert k in [i] <==> k == i;
    }
  }

  lemma {:induction false} ChildrenAscend(fs: seq<File>, dir: seq<byte>, i: nat)
    requires i <= |fs|
    ensures Ascending(Children(fs, dir, i))
    decreases |fs| - i
  {
    hide IsChild;
    if i < |fs| {
      var rest := Children(fs, dir, i + 1);
      ChildrenAscend(fs, dir, i + 1);
      forall n | 0 <= n < |rest| ensures i < rest[n] {
        assert rest[n] in rest;
        ChildrenHas(fs, dir, i + 1, rest[n]);
      }
      hide Children;
      AscendingCons(i, rest);
    }
  }

  lemma AscendingCons(i: nat, rest: seq<nat>)
    requires Ascending(rest) && forall n :: 0 <= n < |rest| ==> i < rest[n]
    ensures Ascending([i] + rest)
  {
  }

  /// The children are exactly the records that are children, once each and in order.
  lemma ChildrenExact(fs: seq<File>, dir: seq<byte>, i: nat)
    requires i <= |fs|
    ensures Ascending(Children(fs, dir, i))
    ensures forall k :: k in Children(fs, dir, i) <==> i <= k < |fs| && IsChild(dir, fs[k].name)
  {
    hide Children, IsChild, Ascending;
    ChildrenAscend(fs, dir, i);
    forall k ensures k in Children(fs, dir, i) <==> i <= k < |fs| && IsChild(dir, fs[k].name) {
      if k >= 0 {
        ChildrenHas(fs, dir, i, k);
      }
    }
  }

  lemma FileName(img: seq<byte>, file: File, r: Record)
    requires IsFile(img, file, r)
    ensures file.name == r.name
  {
  }

  /// In an archive these are exactly the readable records that are children.
  lemma ArchiveChildren(rs: seq<Record>, base: nat, dir: seq<byte>, k: nat)
    requires AllValid(rs) && Placed(Archive(rs), base)
    ensures Trail(Archive(rs), base, Offsets(rs, 0))
    ensures k in Children(Files(Archive(rs), base, Offsets(rs, 0)), dir, 0)
      <==> k < |Readable(rs)| && IsChild(dir, rs[k].name)
  {
    hide Archive, Offset, Readable, Trail, GoesOn, IsChild, IsFile, Parse;
    ArchiveTrail(rs, base, 0);
    ChildrenExact(Files(Archive(rs), base, Offsets(rs, 0)), dir, 0);
    if k < |Readable(rs)| {
      FileName(Archive(rs), Files(Archive(rs), base, Offsets(rs, 0))[k], rs[k]);
    }
  }

  /// `es` are the entries of the records `ks`, in that order.
  ghost predicate AreEntries(fs: seq<File>, ps: seq<nat>, base: nat, dir: seq<byte>, size: nat, ks: seq<nat>, es: seq<Entry>) {
    && |es| == |ks|
    && forall m {:trigger es[m]} {:trigger ks[m]} :: 0 <= m < |es| ==> IsEntry(fs, ps, base, dir, size, ks[m], es[m])
  }

  /// `e` names the file of record `k`, as far as there is room, and where it is.
  ghost predicate IsEntry(fs: seq<File>, ps: seq<nat>, base: nat, dir: seq<byte>, size: nat, k: nat, e: Entry) {
    && k < |fs| && k < |ps| && |fs[k].name| >= Prefix(dir)
    && e.inode == base + ps[k]
    && e.name == Cut(Reported(dir, fs[k]), if size < ENTRY_SIZE then 0 else size - ENTRY_SIZE)
  }

  /// A reply is the entry of the next child, and next_entry_position leads to the rest, if there is one.
  lemma EntryStep(fs: seq<File>, ps: seq<nat>, base: nat, dir: seq<byte>, i: nat, size: nat, e: Entry)
    requires |fs| + 1 == |ps| && i < |ps| && EntryAt(fs, ps, base, dir, i, size, e) && 0 < base
    ensures var k := NextChild(fs, dir, i);
      && k < |fs| && IsEntry(fs, ps, base, dir, size, k, e)
      && Children(fs, dir, i) == [k] + Children(fs, dir, k + 1)
      && e.next == if Children(fs, dir, k + 1) == [] then 0 else base + ps[k + 1]
  {
    hide IsChild, Reported, Cut, NextChild, Children;
    ChildrenFrom(fs, dir, i);
    ChildrenFrom(fs, dir, NextChild(fs, dir, i) + 1);
  }

  lemma EntriesSnoc(fs: seq<File>, ps: seq<nat>, base: nat, dir: seq<byte>, size: nat, ks: seq<nat>, es: seq<Entry>, k: nat, e: Entry)
    requires AreEntries(fs, ps, base, dir, size, ks, es) && IsEntry(fs, ps, base, dir, size, k, e)
    ensures AreEntries(fs, ps, base, dir, size, ks + [k], es + [e])
  {
  }

  /// What one more reply adds to the entries `es` of the children `done` so far.
  lemma ListStep(fs: seq<File>, ps: seq<nat>, base: nat, dir: seq<byte>, size: nat, i: nat, done: seq<nat>, es: seq<Entry>, e: Entry)
    requires |fs| + 1 == |ps| && i < |ps| && EntryAt(fs, ps, base, dir, i, size, e) && 0 < base
    requires AreEntries(fs, ps, base, dir, size, done, es) && done + Children(fs, dir, i) == Children(fs, dir, 0)
    ensures var k := NextChild(fs, dir, i);
      && k + 1 < |ps| && AreEntries(fs, ps, base, dir, size, done + [k], es + [e])
      && (done + [k]) + Children(fs, dir, k + 1) == Children(fs, dir, 0)
      && (e.next == 0 ==> done + [k] == Children(fs, dir, 0))
      && (e.next != 0 ==> e.next == base + ps[k + 1] && NextChild(fs, dir, k + 1) < |fs|)
  {
    hide IsChild, NextChild, Children, EntryAt, IsEntry, AreEntries;
    var k := NextChild(fs, dir, i);
    EntryStep(fs, ps, base, dir, i, size, e);
    EntriesSnoc(fs, ps, base, dir, size, done, es, k, e);
    ChildrenFrom(fs, dir, k + 1);
    assert done + ([k] + Children(fs, dir, k + 1)) == (done + [k]) + Children(fs, dir, k + 1);
    assert (done + [k]) + [] == done + [k];
  }

  /// How far a client has come: `es` are the entries of the first children `done`, and `position` is where the rest begins.
  ghost predicate Listing(img: seq<byte>, base: nat, dir: seq<byte>, badge: nat, size: nat, ps: seq<nat>,
                          i: nat, done: seq<nat>, es: seq<Entry>, position: nat) {
    && Mounted(img, base, ps) && badge == base + ps[0] && (forall k :: 0 <= k < |ps| ==> 4 <= ps[k])
    && i < |ps| && (if es == [] then i == 0 && position == 0 else position == base + ps[i] && NextChild(Files(img, base, ps), dir, i) < |ps| - 1)
    && var fs := Files(img, base, ps);
    && AreEntries(fs, ps, base, dir, size, done, es) && done + Children(fs, dir, i) == Children(fs, dir, 0)
  }

  /// One more entry.
  method ListOne(img: seq<byte>, base: nat, dir: seq<byte>, badge: nat, size: nat, position: nat, ghost ps: seq<nat>,
                 ghost i: nat, ghost done: seq<nat>, ghost es: seq<Entry>)
    returns (status: nat, entry: Entry, ghost k: nat)
    requires Listing(img, base, dir, badge, size, ps, i, done, es, position)
    ensures status == if NextChild(Files(img, base, ps), dir, i) == |ps| - 1 then EINVAL else 0
    ensures status == 0 && entry.next == 0 ==>
      var fs := Files(img, base, ps); AreEntries(fs, ps, base, dir, size, Children(fs, dir, 0), es + [entry])
    ensures status == 0 && entry.next != 0 ==>
      i <= k < |ps| - 1 && Listing(img, base, dir, badge, size, ps, k + 1, done + [k], es + [entry], entry.next)
  {
    hide IsChild, NextChild, Children, EntryAt, IsEntry, AreEntries, Parse, GoesOn, Placed, Files;
    var count;
    status, count, entry := ReadEntry(img, base, dir, badge, position, size, ps, i);
    k := NextChild(Files(img, base, ps), dir, i);
    if status == 0 {
      ListStep(Files(img, base, ps), ps, base, dir, size, i, done, es, entry);
    }
  }

  /// A client that reads a directory entry after entry, each at the next_entry_position of the one
  /// before. The replies end with a next_entry_position of 0, and they are the entries of exactly the
  /// children, in order and once each.
  method List(img: seq<byte>, base: nat, dir: seq<byte>, badge: nat, size: nat, ghost ps: seq<nat>)
    returns (status: nat, es: seq<Entry>)
    requires Mounted(img, base, ps) && badge == base + ps[0] && forall k :: 0 <= k < |ps| ==> 4 <= ps[k]
    ensures status == if Children(Files(img, base, ps), dir, 0) == [] then EINVAL else 0
    ensures status == 0 ==>
      && AreEntries(Files(img, base, ps), ps, base, dir, size, Children(Files(img, base, ps), dir, 0), es)
      && es != [] && es[|es| - 1].next == 0
  {
    hide IsChild, NextChild, Children, AreEntries, Listing, Files;
    ListStart(img, base, dir, badge, size, ps);
    ghost var done: seq<nat>, i := [], 0;
    var position, entry := 0, Entry(0, 0, []);
    es := [];
    while true
      invariant Listing(img, base, dir, badge, size, ps, i, done, es, position)
      invariant es == [] ==> i == 0
      invariant i < |ps| && (es != [] ==> NextChild(Files(img, base, ps), dir, i) < |ps| - 1)
      decreases |ps| - i
    {
      ghost var k;
      status, entry, k := ListOne(img, base, dir, badge, size, position, ps, i, done, es);
      if status != 0 {
        return;
      }
      es := es + [entry];
      position := entry.next;
      if position == 0 {
        return;
      }
      done, i := done + [k], k + 1;
      ListingAt(img, base, dir, badge, size, ps, i, done, es, position);
    }
  }

  lemma ListingAt(img: seq<byte>, base: nat, dir: seq<byte>, badge: nat, size: nat, ps: seq<nat>, i: nat, done: seq<nat>, es: seq<Entry>, position: nat)
    requires Listing(img, base, dir, badge, size, ps, i, done, es, position) && es != []
    ensures i < |ps| && NextChild(Files(img, base, ps), dir, i) < |ps| - 1
  {
  }

  lemma ListStart(img: seq<byte>, base: nat, dir: seq<byte>, badge: nat, size: nat, ps: seq<nat>)
    requires Mounted(img, base, ps) && badge == base + ps[0] && forall k :: 0 <= k < |ps| ==> 4 <= ps[k]
    ensures Listing(img, base, dir, badge, size, ps, 0, [], [], 0)
    ensures NextChild(Files(img, base, ps), dir, 0) == |ps| - 1 <==> Children(Files(img, base, ps), dir, 0) == []
  {
    hide IsChild, Parse, GoesOn, Placed, Files;
    var fs := Files(img, base, ps);
    ChildrenFrom(fs, dir, 0);
    NoEntries(fs, ps, base, dir, size);
    assert [] + Children(fs, dir, 0) == Children(fs, dir, 0);
  }

  lemma NoEntries(fs: seq<File>, ps: seq<nat>, base: nat, dir: seq<byte>, size: nat)
    ensures AreEntries(fs, ps, base, dir, size, [], [])
  {
  }

  // ---------------------------------------------------------------- opening by name

  /// The description length's low byte, which follows the name in the image.
  function Terminator(f: File): byte { (|f.description| % 256) as byte }

  /// The comparison loop of handle_open accepts file `f` of directory `dir`.
  ghost predicate Opens(dir: seq<byte>, f: File, filename: seq<byte>) {
    |f.name| >= Prefix(dir) && f.name[Prefix(dir)..] + [Terminator(f)] <= filename + [0]
  }

  /// With an empty description a file opens under exactly its own name.
  lemma OpensExactly(dir: seq<byte>, f: File, filename: seq<byte>)
    requires |f.name| >= Prefix(dir) && 0 !in filename && 0 !in f.name
    ensures |f.description| % 256 == 0 ==> (Opens(dir, f, filename) <==> filename == f.name[Prefix(dir)..])
    ensures |f.description| % 256 != 0 ==>
      (Opens(dir, f, filename) <==> f.name[Prefix(dir)..] + [Terminator(f)] <= filename)
  {
    var child := f.name[Prefix(dir)..];
    var t := child + [Terminator(f)];
    if t <= filename + [0] {
      assert t[|child|] == (filename + [0])[|child|];
      if |f.description| % 256 == 0 {
        assert |child| == |filename|;
        assert child == t[..|child|] == (filename + [0])[..|child|] == filename;
      } else {
        assert t == (filename + [0])[..|t|] == filename[..|t|];
      }
    }
  }

  /// The comparison loop: the name at `nameAt` is `length` bytes long, of which `skip` are the directory's.
  method NameMatches(img: seq<byte>, nameAt: nat, length: nat, skip: nat, filename: seq<byte>)
    returns (matches: bool)
    requires skip <= length && nameAt + length < |img|
    requires 0 !in filename && 0 !in img[nameAt..nameAt + length]
    ensures matches <==> img[nameAt + skip..nameAt + length + 1] <= filename + [0]
  {
    var i, j: nat := skip, 0;
    var name := img[nameAt..nameAt + length];
    ghost var whole := img[nameAt + skip..nameAt + length + 1];
    while i < length && img[nameAt + i] == CharAt(filename, j)
      invariant skip <= i <= length && j == i - skip && j <= |filename|
      invariant whole[..j] == filename[..j]
    {
      assert name[i] == img[nameAt + i];
      assert whole[j] == img[nameAt + i];
      i, j := i + 1, j + 1;
    }
    assert whole[j] == img[nameAt + i] && (filename + [0])[j] == CharAt(filename, j);
    if img[nameAt + i] == CharAt(filename, j) {
      assert i == length && whole == whole[..j] + [whole[j]];
      assert (filename + [0])[..j + 1] == filename[..j] + [CharAt(filename, j)];
      return true;
    }
    return false;
  }

  /// What NameMatches compares, for a child in the image.
  lemma NameAndTerminator(img: seq<byte>, base: nat, dir: seq<byte>, p: nat)
    requires Parse(img, base, p).Read? && IsChild(dir, Parse(img, base, p).file.name)
    ensures var f := Parse(img, base, p).file;
      && |f.name| >= Prefix(dir) && Holds(img, p + 3, f.name) && p + 3 + |f.name| < |img|
      && Holds(img, p + 3 + Prefix(dir), f.name[Prefix(dir)..] + [Terminator(f)])
  {
    hide Parse, Holds, Path;
    var f := Parse(img, base, p).file;
    var name, d := f.name, |f.description|;
    NameHeld(img, base, p);
    HoldsParts(img, p + 3, name, U16(d));
    var child := name[Prefix(dir)..];
    assert U16(d) == [d % 256] + LittleEndian(d / 256, 1);
    assert name + U16(d) == name[..Prefix(dir)] + (child + [Terminator(f)] + LittleEndian(d / 256, 1));
    HoldsParts(img, p + 3, name[..Prefix(dir)], child + [Terminator(f)] + LittleEndian(d / 256, 1));
    HoldsParts(img, p + 3 + Prefix(dir), child + [Terminator(f)], LittleEndian(d / 256, 1));
  }

  /// The first child from record `i` on that opens under `filename`, or the number of records.
  ghost function NextOpened(fs: seq<File>, dir: seq<byte>, i: nat, filename: seq<byte>): (k: nat)
    requires i <= |fs|
    ensures i <= k <= |fs|
    ensures k < |fs| ==> IsChild(dir, fs[k].name) && Opens(dir, fs[k], filename)
    ensures forall j :: i <= j < k ==> !(IsChild(dir, fs[j].name) && Opens(dir, fs[j], filename))
    decreases |fs| - i
  {
    if i == |fs| || (IsChild(dir, fs[i].name) && Opens(dir, fs[i], filename)) then i
    else NextOpened(fs, dir, i + 1, filename)
  }

  /// Records that are not children do not change what is opened.
  lemma {:induction false} NextOpenedChild(fs: seq<File>, dir: seq<byte>, i: nat, filename: seq<byte>)
    requires i <= |fs|
    ensures NextOpened(fs, dir, i, filename) == NextOpened(fs, dir, NextChild(fs, dir, i), filename)
    decreases |fs| - i
  {
    hide IsChild, Opens;
    if i < |fs| && !IsChild(dir, fs[i].name) {
      NextOpenedChild(fs, dir, i + 1, filename);
    }
  }

  datatype Opening = Refused(code: nat) | Opened(address: nat)

  /// handle_open; `create`, `exclusive` and `writes` are what the caller asked for, `locked` says
  /// whether the name could be locked, and `copied` is the kernel's answer to the request for a
  /// badged endpoint.
  method Open(img: seq<byte>, base: nat, dir: File, start: nat, filename: seq<byte>,
              create: bool, exclusive: bool, writes: bool, locked: bool, copied: nat,
              ghost ps: seq<nat>, ghost i: nat)
    returns (result: Opening)
    requires Mounted(img, base, ps) && i < |ps| && (start < base || start == base + ps[i])
    requires 0 !in filename && forall f {:trigger f.name} :: f in Files(img, base, ps) ==> 0 !in f.name
    ensures var fs := Files(img, base, ps); var k := NextOpened(fs, dir.name, i, filename);
      result ==
        if dir.kind != TYPE_DIRECTORY then Refused(ENOTSUP)
        else if exclusive || writes then Refused(EROFS)
        else if !locked then Refused(ENOMEM)
        else if start < base || k == |fs| then Refused(if create then EROFS else ENOENT)
        else if copied != 0 then Refused(copied)
        else Opened(base + ps[k])
  {
    hide Parse, GoesOn, IsChild, Opens, Placed, Path;
    if dir.kind != TYPE_DIRECTORY {
      return Refused(ENOTSUP);
    }
    if exclusive || writes {
      return Refused(EROFS);
    }
    if !locked {
      return Refused(ENOMEM);
    }
    ghost var fs := Files(img, base, ps);
    var next: nat := start;
    ghost var k := i;
    while true
      invariant i <= k < |ps|
      invariant next < base || next == base + ps[k]
      invariant next < base <==> start < base
      invariant NextOpened(fs, dir.name, k, filename) == NextOpened(fs, dir.name, i, filename)
      decreases |ps| - k
    {
      ghost var c := NextChild(fs, dir.name, k);
      NextOpenedChild(fs, dir.name, k, filename);
      var file, at;
      next, file, at := NextFileInDir(img, base, dir.name, next, ps, k);
      if next == 0 {
        return Refused(if create then EROFS else ENOENT);
      }
      TrailAt(img, base, ps, c);
      var matches := Compare(img, base, dir.name, at - base, |file.name|, filename);
      if matches {
        return if copied != 0 then Refused(copied) else Opened(at);
      }
      k := c + 1;
    }
  }

  /// The comparison, for the child at offset `p`.
  method Compare(img: seq<byte>, base: nat, dir: seq<byte>, p: nat, length: nat, filename: seq<byte>)
    returns (matches: bool)
    requires Parse(img, base, p).Read? && IsChild(dir, Parse(img, base, p).file.name)
    requires length == |Parse(img, base, p).file.name| && 0 !in filename && 0 !in Parse(img, base, p).file.name
    ensures matches <==> Opens(dir, Parse(img, base, p).file, filename)
  {
    hide Parse, IsChild, Path;
    NameAndTerminator(img, base, dir, p);
    matches := NameMatches(img, p + 3, length, if dir == [] then 0 else |dir| + 1, filename);
  }
}

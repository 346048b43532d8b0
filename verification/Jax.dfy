/**
The jax archive: the record layout that utils/jax/create.c writes and the iterator of
core/common/jax.c that reads it.
*/
module Jax {
  import opened Basics

  const TWO63 := 0x8000_0000_0000_0000
  const TWO64 := 0x1_0000_0000_0000_0000

  // ---------------------------------------------------------------- little-endian numbers

  /// The low `k` bytes of `n`, least significant first.
  function LittleEndian(n: nat, k: nat): (bs: seq<byte>)
    ensures |bs| == k
  {
    if k == 0 then [] else [n % 256] + LittleEndian(n / 256, k - 1)
  }

  function Value(bs: seq<byte>): nat {
    if bs == [] then 0 else bs[0] + 256 * Value(bs[1..])
  }

  /// `v` moved up by `k` bytes.
  function Scale(v: nat, k: nat): nat { if k == 0 then v else 256 * Scale(v, k - 1) }

  lemma {:induction false} ValueOfLittleEndian(n: nat, k: nat)
    requires n < Scale(1, k)
    ensures Value(LittleEndian(n, k)) == n
  {
    if k > 0 {
      ValueOfLittleEndian(n / 256, k - 1);
    }
  }

  lemma {:induction false} ValueBound(bs: seq<byte>)
    ensures Value(bs) < Scale(1, |bs|)
  {
    if bs != [] {
      ValueBound(bs[1..]);
    }
  }

  /// What is left of `v` when `k` bytes are shifted out.
  function Dropped(v: nat, k: nat): nat { if k == 0 then v else Dropped(v / 256, k - 1) }

  /// The first byte is the lowest.
  lemma {:induction false} ValueBytes(bs: seq<byte>, i: nat)
    requires i < |bs|
    ensures Dropped(Value(bs), i) % 256 == bs[i] as int
  {
    if i > 0 {
      ValueBytes(bs[1..], i - 1);
    }
  }

  lemma {:induction false} ValueSnoc(bs: seq<byte>, b: byte)
    ensures Value(bs + [b]) == Value(bs) + Scale(b, |bs|)
  {
    if bs == [] {
      assert [] + [b] == [b];
    } else {
      assert (bs + [b])[1..] == bs[1..] + [b];
      ValueSnoc(bs[1..], b);
    }
  }

  /// A signed 64-bit number from its two's complement value, and back.
  function Signed(n: nat): int { if n < TWO63 then n else n - TWO64 }

  function Unsigned(x: int): nat
    requires -TWO63 <= x < TWO63
  {
    if x < 0 then x + TWO64 else x
  }

  function U16(n: nat): (bs: seq<byte>) ensures |bs| == 2 { LittleEndian(n, 2) }

  function I64(x: int): (bs: seq<byte>)
    requires -TWO63 <= x < TWO63
    ensures |bs| == 8
  {
    LittleEndian(Unsigned(x), 8)
  }

  /// u16_to_ne
  function ReadU16(bs: seq<byte>): (n: nat)
    requires |bs| == 2
    ensures n < 65536 && n == Value(bs)
  {
    assert Value(bs[1..]) == bs[1] by {
      assert bs[1..][1..] == [];
    }
    var low: int, high: int := bs[0], bs[1];
    low + 256 * high
  }

  lemma ReadU16Bytes(bs: seq<byte>)
    requires |bs| == 2
    ensures ReadU16(bs) % 256 == bs[0] as int && ReadU16(bs) / 256 == bs[1] as int
  {
  }

  lemma ReadU16Back(n: nat)
    requires n < 65536
    ensures ReadU16(U16(n)) == n
  {
    assert Scale(1, 2) == 256 * Scale(1, 1) == 256 * (256 * Scale(1, 0));
    ValueOfLittleEndian(n, 2);
  }

  /// i64_to_ne
  method ReadI64(bs: seq<byte>) returns (x: int)
    requires |bs| == 8
    ensures x == Signed(Value(bs)) && -TWO63 <= x < TWO63
    ensures forall i :: 0 <= i < 8 ==> Dropped(x % TWO64, i) % 256 == bs[i] as int
  {
    var n: nat := 0;
    var i := 0;
    while i < 8
      invariant 0 <= i <= 8 && n == Value(bs[..i])
    {
      assert bs[..i + 1] == bs[..i] + [bs[i]];
      ValueSnoc(bs[..i], bs[i]);
      n := n + Scale(bs[i], i);
      i := i + 1;
    }
    assert bs[..8] == bs;
    ValueBound(bs);
    Scale8();
    x := if n < TWO63 then n else n - TWO64;
    assert x % TWO64 == n;
    forall i | 0 <= i < 8 ensures Dropped(n, i) % 256 == bs[i] as int {
      ValueBytes(bs, i);
    }
  }

  lemma Scale8()
    ensures Scale(1, 8) == TWO64
  {
    assert Scale(1, 4) == 256 * Scale(1, 3) == 256 * (256 * Scale(1, 2)) == WORD by {
      assert Scale(1, 2) == 256 * Scale(1, 1) == 65536;
    }
    assert Scale(1, 8) == 256 * Scale(1, 7) == 256 * (256 * Scale(1, 6));
    assert Scale(1, 6) == 256 * Scale(1, 5) == 256 * (256 * Scale(1, 4));
  }

  lemma ReadI64Back(x: int)
    requires -TWO63 <= x < TWO63
    ensures Signed(Value(I64(x))) == x
  {
    Scale8();
    ValueOfLittleEndian(Unsigned(x), 8);
  }

  // ---------------------------------------------------------------- the writer's layout

  const MAGIC: seq<byte> := [94, 106, 97, 120]

  datatype Record = Record(
    kind: byte, name: seq<byte>, description: seq<byte>, timestamp: int,
    mode: nat, owner: nat, group: nat, data: seq<byte>)
  {
    predicate Valid() {
      && |name| < 65536 && |description| < 65536 && -TWO63 <= timestamp < TWO63
      && mode < 65536 && owner < 65536 && group < 65536 && |data| < TWO63
    }
  }

  /// The fixed-size fields between the description and the data (22 bytes).
  function Fields(r: Record): (bs: seq<byte>)
    requires r.Valid()
    ensures |bs| == 22
  {
    I64(r.timestamp) + U16(r.mode) + U16(r.owner) + U16(r.group) + I64(|r.data|)
  }

  function Encode(r: Record): (bs: seq<byte>)
    requires r.Valid()
    ensures |bs| == |r.name| + |r.description| + 27 + |r.data|
  {
    [r.kind] + U16(|r.name|) + r.name + U16(|r.description|) + r.description + Fields(r) + r.data
  }

  ghost predicate AllValid(rs: seq<Record>) { forall i :: 0 <= i < |rs| ==> rs[i].Valid() }

  function EncodeAll(rs: seq<Record>): seq<byte>
    requires AllValid(rs)
  {
    if rs == [] then [] else EncodeAll(rs[..|rs| - 1]) + Encode(rs[|rs| - 1])
  }

  function Archive(rs: seq<Record>): seq<byte>
    requires AllValid(rs)
  {
    MAGIC + EncodeAll(rs)
  }

  /// Where record `i` starts.
  function Offset(rs: seq<Record>, i: nat): nat
    requires AllValid(rs) && i <= |rs|
  {
    4 + |EncodeAll(rs[..i])|
  }

  // ---------------------------------------------------------------- the reader

  /// What jax_next_file fills in; `data` is the offset of the data in the image.
  datatype File = File(
    kind: byte, name: seq<byte>, description: seq<byte>, timestamp: int,
    mode: nat, owner: nat, group: nat, size: int, data: nat)

  /// The iterator's new start, an offset in the image, comes with either outcome.
  datatype Outcome = Failed(start: int) | Read(file: File, start: int)

  /// The image lies at `base` in a 32-bit address space, at least a name's length below its top.
  predicate Placed(img: seq<byte>, base: nat) { base + |img| + 65561 < WORD }

  /// The offset that a 32-bit pointer holds after adding `n` to the pointer at offset `p`.
  function Advance(base: nat, p: int, n: int): (q: int)
    ensures 0 <= base + q < WORD
  {
    (base + p + n) % WORD - base
  }

  function Parse(img: seq<byte>, base: nat, p: nat): Outcome
  {
    if p + 3 >= |img| then Failed(p)
    else
      var q := p + 3 + ReadU16(img[p + 1..p + 3]);
      if q + 2 >= |img| then Failed(q)
      else
        var t := q + 2 + ReadU16(img[q..q + 2]);
        if t + 22 >= |img| then Failed(t)
        else
          var file := ParseFile(img, p, q, t);
          var next := Advance(base, t, file.size + 22);
          if next <= |img| then Read(file, next) else Failed(next)
  }

  function ParseFile(img: seq<byte>, p: nat, q: nat, t: nat): File
    requires p + 3 <= q && q + 2 <= t && t + 22 < |img|
  {
    File(img[p], img[p + 3..q], img[q + 2..t],
      Signed(Value(img[t..t + 8])), ReadU16(img[t + 8..t + 10]), ReadU16(img[t + 10..t + 12]),
      ReadU16(img[t + 12..t + 14]), Signed(Value(img[t + 14..t + 22])), t + 22)
  }

  /// For arbitrary bytes: a record that was read ends inside the image, its data
  /// included, and after its header, exactly when its size field is one that the image can hold.
  lemma ParseInBounds(img: seq<byte>, base: nat, p: nat)
    requires Placed(img, base) && Parse(img, base, p).Read?
    ensures var Read(file, next) := Parse(img, base, p);
      && p + 27 <= file.data < |img|
      && (0 <= file.size <= |img| - file.data
          <==> file.data <= next <= |img| && next == file.data + file.size)
  {
    var Read(file, next) := Parse(img, base, p);
    if 0 <= file.size <= |img| - file.data {
      assert base + file.data + file.size < WORD;
    }
  }

  /// The same bytes as the reader takes them, whatever they are: where each part of a record begins, and when the record
  /// is read.
  lemma ParseReads(img: seq<byte>, base: nat, p: nat)
    ensures Parse(img, base, p).Read? <==>
      && p + 3 < |img|
      && var q := p + 3 + img[p + 1] as int + 256 * img[p + 2] as int;
      && q + 2 < |img|
      && var t := q + 2 + img[q] as int + 256 * img[q + 1] as int;
      && t + 22 < |img| && (base + t + 22 + Signed(Value(img[t + 14..t + 22]))) % WORD <= base + |img|
    ensures Parse(img, base, p).Read? ==>
      && var Read(file, next) := Parse(img, base, p);
      && var q := p + 3 + img[p + 1] as int + 256 * img[p + 2] as int;
      && var t := q + 2 + img[q] as int + 256 * img[q + 1] as int;
      && file.kind == img[p] && file.name == img[p + 3..q] && file.description == img[q + 2..t] && file.data == t + 22
      && file.timestamp == Signed(Value(img[t..t + 8])) && file.size == Signed(Value(img[t + 14..t + 22]))
      && file.mode == img[t + 8] as int + 256 * img[t + 9] as int
      && file.owner == img[t + 10] as int + 256 * img[t + 11] as int
      && file.group == img[t + 12] as int + 256 * img[t + 13] as int
      && next == (base + t + 22 + file.size) % WORD - base
  {
    hide Value, Signed;
  }

  // ---------------------------------------------------------------- round trip

  /// `file`, as read from `img`, is exactly the record `r`.
  predicate IsFile(img: seq<byte>, file: File, r: Record) {
    && file.kind == r.kind && file.name == r.name && file.description == r.description
    && file.timestamp == r.timestamp && file.mode == r.mode && file.owner == r.owner
    && file.group == r.group && file.size == |r.data|
    && file.data + |r.data| <= |img| && img[file.data..file.data + |r.data|] == r.data
  }

  /// `s` is what `img` holds from offset `p` on.
  predicate Holds(img: seq<byte>, p: nat, s: seq<byte>) {
    p + |s| <= |img| && img[p..p + |s|] == s
  }

  lemma HoldsParts(img: seq<byte>, p: nat, a: seq<byte>, b: seq<byte>)
    requires Holds(img, p, a + b)
    ensures Holds(img, p, a) && Holds(img, p + |a|, b)
  {
    var s := img[p..p + |a + b|];
    assert s[..|a|] == a && s[|a|..] == b;
  }

  /// A record of the writer's layout is read back exactly, unless nothing at all
  /// follows its header: the record is then refused.
  lemma ParseEncoded(img: seq<byte>, base: nat, p: nat, r: Record)
    requires r.Valid() && Placed(img, base) && Holds(img, p, Encode(r))
    ensures var out := Parse(img, base, p);
      && (out.Read? <==> r.data != [] || p + |Encode(r)| < |img|)
      && (out.Read? ==> IsFile(img, out.file, r) && out.start == p + |Encode(r)|)
      && (out.Read? ==> out.file.data == p + |Encode(r)| - |r.data|)
  {
    hide ReadU16, Encode, Value, Signed, Fields, U16, I64, Parse, ParseFile, IsFile;
    var q := p + 3 + |r.name|;
    var t := q + 2 + |r.description|;
    EncodedParts(img, p, r);
    ReadU16Back(|r.name|);
    ReadU16Back(|r.description|);
    ParseFrom(img, base, p, q, t);
    if t + 22 < |img| {
      FileBack(img, p, q, t, r);
      assert base + t + 22 + |r.data| < WORD;
    }
  }

  /// The reader, once the two lengths are known.
  lemma ParseFrom(img: seq<byte>, base: nat, p: nat, q: nat, t: nat)
    requires p + 3 < |img| && q == p + 3 + ReadU16(img[p + 1..p + 3])
    requires q + 2 < |img| && t == q + 2 + ReadU16(img[q..q + 2])
    ensures t + 22 >= |img| ==> Parse(img, base, p) == Failed(t)
    ensures t + 22 < |img| ==>
      var file := ParseFile(img, p, q, t); var next := Advance(base, t, file.size + 22);
      Parse(img, base, p) == if next <= |img| then Read(file, next) else Failed(next)
  {
    hide ReadU16, ParseFile, Advance;
  }

  lemma FileBack(img: seq<byte>, p: nat, q: nat, t: nat, r: Record)
    requires r.Valid() && p + 3 <= q && q + 2 <= t && t + 22 < |img| && Holds(img, t + 22, r.data)
    requires img[p] == r.kind && img[p + 3..q] == r.name && img[q + 2..t] == r.description && img[t..t + 22] == Fields(r)
    ensures var file := ParseFile(img, p, q, t); IsFile(img, file, r) && file.size == |r.data| && file.data == t + 22
  {
    hide ReadU16, Fields, Value, Signed;
    FieldsBack(img, t, r);
  }

  /// An encoded record, part by part.
  lemma EncodedParts(img: seq<byte>, p: nat, r: Record)
    requires r.Valid() && Holds(img, p, Encode(r))
    ensures var q := p + 3 + |r.name|; var t := q + 2 + |r.description|;
      && img[p] == r.kind && img[p + 1..p + 3] == U16(|r.name|) && img[p + 3..q] == r.name
      && img[q..q + 2] == U16(|r.description|) && img[q + 2..t] == r.description
      && img[t..t + 22] == Fields(r) && Holds(img, t + 22, r.data)
  {
    hide Fields;
    var k, n, d := [r.kind], U16(|r.name|), U16(|r.description|);
    HoldsParts(img, p, k + n + r.name + d + r.description + Fields(r), r.data);
    HoldsParts(img, p, k + n + r.name + d + r.description, Fields(r));
    HoldsFive(img, p, r.kind, n, r.name, d, r.description);
  }

  lemma HoldsFive(img: seq<byte>, p: nat, k: byte, n: seq<byte>, name: seq<byte>, d: seq<byte>, description: seq<byte>)
    requires Holds(img, p, [k] + n + name + d + description)
    ensures var a := p + 1 + |n|; var b := a + |name|; var c := b + |d|;
      && c + |description| <= |img| && img[p] == k && img[p + 1..a] == n && img[a..b] == name && img[b..c] == d && img[c..c + |description|] == description
  {
    HoldsParts(img, p, [k] + n + name + d, description);
    HoldsParts(img, p, [k] + n + name, d);
    HoldsParts(img, p, [k] + n, name);
    HoldsParts(img, p, [k], n);
    assert img[p] == img[p..p + 1][0];
  }

  /// The layout, byte by byte: the writer's two lengths are ahead of what they measure, and the numbers between the
  /// description and the data come in the order timestamp, mode, owner, group and size.
  lemma Layout(r: Record)
    requires r.Valid()
    ensures var bs, q := Encode(r), 3 + |r.name|; var t := q + 2 + |r.description|;
      && |bs| == t + 22 + |r.data| && bs[0] == r.kind
      && bs[1] as int == |r.name| % 256 && bs[2] as int == |r.name| / 256 && bs[3..q] == r.name
      && bs[q] as int == |r.description| % 256 && bs[q + 1] as int == |r.description| / 256 && bs[q + 2..t] == r.description
      && bs[t + 22..] == r.data
    ensures var bs := Encode(r); var t := |r.name| + |r.description| + 5;
      && (forall i :: 0 <= i < 8 ==> bs[t + i] as int == Dropped(r.timestamp % TWO64, i) % 256)
      && bs[t + 8] as int == r.mode % 256 && bs[t + 9] as int == r.mode / 256
      && bs[t + 10] as int == r.owner % 256 && bs[t + 11] as int == r.owner / 256
      && bs[t + 12] as int == r.group % 256 && bs[t + 13] as int == r.group / 256
      && (forall i :: 0 <= i < 8 ==> bs[t + 14 + i] as int == Dropped(|r.data|, i) % 256)
  {
    var bs, q := Encode(r), 3 + |r.name|;
    var t := q + 2 + |r.description|;
    assert bs[0..|bs|] == bs;
    EncodedParts(bs, 0, r);
    TwoBytes(|r.name|, bs, 1);
    TwoBytes(|r.description|, bs, q);
    hide Encode, Fields;
    LayoutFields(bs, t, r);
    assert bs[t + 22..t + 22 + |r.data|] == bs[t + 22..];
  }

  lemma LayoutFields(bs: seq<byte>, t: nat, r: Record)
    requires r.Valid() && t + 22 <= |bs| && bs[t..t + 22] == Fields(r)
    ensures (forall i :: 0 <= i < 8 ==> bs[t + i] as int == Dropped(r.timestamp % TWO64, i) % 256)
    ensures bs[t + 8] as int == r.mode % 256 && bs[t + 9] as int == r.mode / 256
    ensures bs[t + 10] as int == r.owner % 256 && bs[t + 11] as int == r.owner / 256
    ensures bs[t + 12] as int == r.group % 256 && bs[t + 13] as int == r.group / 256
    ensures (forall i :: 0 <= i < 8 ==> bs[t + 14 + i] as int == Dropped(|r.data|, i) % 256)
  {
    var a, b, c, d := I64(r.timestamp), U16(r.mode), U16(r.owner), U16(r.group);
    HoldsParts(bs, t, a + b + c + d, I64(|r.data|));
    HoldsParts(bs, t, a + b + c, d);
    HoldsParts(bs, t, a + b, c);
    HoldsParts(bs, t, a, b);
    hide Fields, I64, U16;
    TwoBytes(r.mode, bs, t + 8);
    TwoBytes(r.owner, bs, t + 10);
    TwoBytes(r.group, bs, t + 12);
    EightBytes(r.timestamp, bs, t);
    EightBytes(|r.data|, bs, t + 14);
    assert |r.data| % TWO64 == |r.data|;
  }

  lemma TwoBytes(n: nat, bs: seq<byte>, p: nat)
    requires n < 65536 && p + 2 <= |bs| && bs[p..p + 2] == U16(n)
    ensures bs[p] as int == n % 256 && bs[p + 1] as int == n / 256
  {
    ReadU16Back(n);
    assert bs[p] == bs[p..p + 2][0] && bs[p + 1] == bs[p..p + 2][1];
    ReadU16Bytes(bs[p..p + 2]);
    hide U16;
    assert ReadU16(bs[p..p + 2]) == n;
  }

  lemma EightBytes(x: int, bs: seq<byte>, p: nat)
    requires -TWO63 <= x < TWO63 && p + 8 <= |bs| && bs[p..p + 8] == I64(x)
    ensures forall i :: 0 <= i < 8 ==> bs[p + i] as int == Dropped(x % TWO64, i) % 256
  {
    Scale8();
    ValueOfLittleEndian(Unsigned(x), 8);
    assert Unsigned(x) == x % TWO64;
    hide I64, Unsigned;
    forall i | 0 <= i < 8 ensures bs[p + i] as int == Dropped(x % TWO64, i) % 256 {
      ValueBytes(bs[p..p + 8], i);
    }
  }

  lemma FieldsBack(img: seq<byte>, t: nat, r: Record)
    requires r.Valid() && t + 22 <= |img| && img[t..t + 22] == Fields(r)
    ensures Signed(Value(img[t..t + 8])) == r.timestamp
    ensures ReadU16(img[t + 8..t + 10]) == r.mode && ReadU16(img[t + 10..t + 12]) == r.owner
    ensures ReadU16(img[t + 12..t + 14]) == r.group
    ensures Signed(Value(img[t + 14..t + 22])) == |r.data|
  {
    var a, b, c, d := I64(r.timestamp), U16(r.mode), U16(r.owner), U16(r.group);
    HoldsParts(img, t, a + b + c + d, I64(|r.data|));
    HoldsParts(img, t, a + b + c, d);
    HoldsParts(img, t, a + b, c);
    HoldsParts(img, t, a, b);
    ReadI64Back(r.timestamp);
    ReadU16Back(r.mode);
    ReadU16Back(r.owner);
    ReadU16Back(r.group);
    ReadI64Back(|r.data|);
  }

  lemma {:induction false} ArchiveHolds(rs: seq<Record>, n: nat, i: nat)
    requires AllValid(rs) && i < n <= |rs|
    ensures AllValid(rs[..n]) && Holds(Archive(rs[..n]), Offset(rs, i), Encode(rs[i]))
    ensures Offset(rs, i + 1) == Offset(rs, i) + |Encode(rs[i])| <= |Archive(rs[..n])|
    ensures Offset(rs, n) == |Archive(rs[..n])|
    decreases n
  {
    hide Encode;
    var last := n - 1;
    assert rs[..n][..last] == rs[..last];
    assert rs[..i + 1][..i] == rs[..i];
    var before := EncodeAll(rs[..last]);
    assert Archive(rs[..n]) == Archive(rs[..last]) + Encode(rs[last]);
    if i < last {
      ArchiveHolds(rs, last, i);
      var img := Archive(rs[..last]);
      var p, e := Offset(rs, i), Encode(rs[i]);
      assert (img + Encode(rs[last]))[p..p + |e|] == img[p..p + |e|];
    }
  }

  lemma RecordAt(rs: seq<Record>, i: nat)
    requires AllValid(rs) && i < |rs|
    ensures Holds(Archive(rs), Offset(rs, i), Encode(rs[i]))
    ensures Offset(rs, i + 1) == Offset(rs, i) + |Encode(rs[i])| <= |Archive(rs)|
    ensures i + 1 < |rs| ==> Offset(rs, i + 1) < |Archive(rs)|
    ensures i + 1 == |rs| ==> Offset(rs, i + 1) == |Archive(rs)|
  {
    assert rs[..|rs|] == rs;
    ArchiveHolds(rs, |rs|, i);
    if i + 1 < |rs| {
      ArchiveHolds(rs, |rs|, i + 1);
    }
  }

  /// The records that the reader returns: a last record without data is lost.
  function Readable(rs: seq<Record>): (fs: seq<Record>)
    ensures |fs| <= |rs|
  {
    if rs != [] && rs[|rs| - 1].data == [] then rs[..|rs| - 1] else rs
  }

  /// The reader at record `i`, in every case.
  lemma ReadAt(rs: seq<Record>, base: nat, i: nat)
    requires AllValid(rs) && Placed(Archive(rs), base) && i <= |rs|
    ensures var img := Archive(rs); var out := Parse(img, base, Offset(rs, i));
      && (out.Read? <==> i < |Readable(rs)|)
      && (i < |Readable(rs)| ==>
          && IsFile(img, out.file, rs[i])
          && out.start == Offset(rs, i + 1)
          && out.file.data == Offset(rs, i + 1) - |rs[i].data|)
  {
    hide Encode, Parse, IsFile;
    if i < |rs| {
      RecordAt(rs, i);
      ParseEncoded(Archive(rs), base, Offset(rs, i), rs[i]);
    } else {
      AtEnd(rs, base);
    }
  }

  lemma AtEnd(rs: seq<Record>, base: nat)
    requires AllValid(rs)
    ensures Offset(rs, |rs|) == |Archive(rs)| && Parse(Archive(rs), base, Offset(rs, |rs|)).Failed?
  {
    assert rs[..|rs|] == rs;
  }

  /// Calling jax_next_file from offset `p` until it fails returns exactly `fs`.
  ghost predicate ReadsAll(img: seq<byte>, base: nat, p: int, fs: seq<Record>)
    decreases |fs|
  {
    0 <= p &&
    match Parse(img, base, p)
    case Failed(_) => fs == []
    case Read(file, next) => fs != [] && IsFile(img, file, fs[0]) && ReadsAll(img, base, next, fs[1..])
  }

  lemma {:induction false} ReadsAllUnique(img: seq<byte>, base: nat, p: int, fs: seq<Record>, gs: seq<Record>)
    requires ReadsAll(img, base, p, fs) && ReadsAll(img, base, p, gs)
    ensures fs == gs
    decreases |fs|
  {
    if fs != [] {
      var Read(file, next) := Parse(img, base, p);
      assert fs[0] == gs[0];
      ReadsAllUnique(img, base, next, fs[1..], gs[1..]);
      assert fs == [fs[0]] + fs[1..] && gs == [gs[0]] + gs[1..];
    }
  }

  lemma {:induction false} ReadsRest(rs: seq<Record>, base: nat, i: nat)
    requires AllValid(rs) && Placed(Archive(rs), base) && i <= |Readable(rs)|
    ensures ReadsAll(Archive(rs), base, Offset(rs, i), Readable(rs)[i..])
    decreases |rs| - i
  {
    hide Parse, IsFile, Encode, Archive, Offset;
    var fs := Readable(rs);
    ReadAt(rs, base, i);
    if i < |fs| {
      ReadsRest(rs, base, i + 1);
      assert fs[i..][0] == rs[i] && fs[i..][1..] == fs[i + 1..];
    }
  }

  /// The round trip, and exactly when it returns everything that was written.
  lemma RoundTrip(rs: seq<Record>, base: nat)
    requires AllValid(rs) && Placed(Archive(rs), base)
    ensures ReadsAll(Archive(rs), base, 4, Readable(rs))
    ensures ReadsAll(Archive(rs), base, 4, rs) <==> rs == [] || rs[|rs| - 1].data != []
  {
    assert Offset(rs, 0) == 4;
    ReadsRest(rs, base, 0);
    assert Readable(rs)[0..] == Readable(rs);
    if ReadsAll(Archive(rs), base, 4, rs) {
      ReadsAllUnique(Archive(rs), base, 4, rs, Readable(rs));
    }
  }

  // ---------------------------------------------------------------- any image

  ghost predicate GoesOn(img: seq<byte>, base: nat, ps: seq<nat>, k: nat) {
    k + 1 < |ps| && Parse(img, base, ps[k]).Read? && Parse(img, base, ps[k]).start == ps[k + 1]
  }

  /// Reading from offset ps[0] on comes by these offsets and ends at the last of them. The image may
  /// hold anything; only a walk that goes round in circles or leaves the image has no trail.
  ghost predicate Trail(img: seq<byte>, base: nat, ps: seq<nat>) {
    && ps != [] && Parse(img, base, ps[|ps| - 1]).Failed?
    && forall k {:trigger GoesOn(img, base, ps, k)} :: 0 <= k < |ps| - 1 ==> GoesOn(img, base, ps, k)
  }

  /// The files along a trail.
  ghost function Files(img: seq<byte>, base: nat, ps: seq<nat>): (fs: seq<File>)
    requires Trail(img, base, ps)
    ensures |fs| == |ps| - 1
    ensures forall k {:trigger fs[k]} :: 0 <= k < |fs| ==> GoesOn(img, base, ps, k) && fs[k] == Parse(img, base, ps[k]).file
  {
    assert forall k :: 0 <= k < |ps| - 1 ==> GoesOn(img, base, ps, k);
    seq(|ps| - 1, k requires 0 <= k < |ps| - 1 && GoesOn(img, base, ps, k) => Parse(img, base, ps[k]).file)
  }

  /// The reader at the k-th offset of a trail.
  lemma TrailAt(img: seq<byte>, base: nat, ps: seq<nat>, k: nat)
    requires Trail(img, base, ps) && k < |ps|
    ensures var out := Parse(img, base, ps[k]);
      && (out.Read? <==> k < |Files(img, base, ps)|)
      && (out.Read? ==> out.file == Files(img, base, ps)[k] && out.start == ps[k + 1])
  {
    hide Parse;
    if k + 1 < |ps| {
      assert GoesOn(img, base, ps, k);
    }
  }

  /// Reading from offset ps[0] on comes by these offsets, and then ends, or strays: back to one of them, or out of the
  /// image.
  ghost predicate Route(img: seq<byte>, base: nat, ps: seq<nat>) {
    && ps != [] && (Parse(img, base, ps[|ps| - 1]).Failed? || Strays(img, base, ps))
    && (forall k {:trigger GoesOn(img, base, ps, k)} :: 0 <= k < |ps| - 1 ==> GoesOn(img, base, ps, k))
    && (forall i, j :: 0 <= i < j < |ps| ==> ps[i] != ps[j])
  }

  ghost predicate Strays(img: seq<byte>, base: nat, ps: seq<nat>)
    requires ps != []
  {
    var out := Parse(img, base, ps[|ps| - 1]);
    out.Read? && (out.start < 0 || out.start in ps)
  }

  /// A trail is a route that ends.
  lemma TrailIsRoute(img: seq<byte>, base: nat, ps: seq<nat>)
    ensures Trail(img, base, ps) <==> Route(img, base, ps) && !Strays(img, base, ps)
  {
    hide Parse;
    if Trail(img, base, ps) {
      forall i, j | 0 <= i < j < |ps| ensures ps[i] != ps[j] {
        TrailDistinct(img, base, ps, i, j);
      }
    }
  }

  /// The file at offset `p`, if there is one.
  function FileAt(img: seq<byte>, base: nat, p: nat): File {
    var out := Parse(img, base, p);
    if out.Read? then out.file else File(0, [], [], 0, 0, 0, 0, 0, 0)
  }

  /// The files along a route.
  ghost function FilesOn(img: seq<byte>, base: nat, ps: seq<nat>): (fs: seq<File>)
    requires Route(img, base, ps)
    ensures |fs| == if Strays(img, base, ps) then |ps| else |ps| - 1
    ensures forall k :: 0 <= k < |fs| ==> fs[k] == FileAt(img, base, ps[k])
  {
    var n := if Strays(img, base, ps) then |ps| else |ps| - 1;
    seq(n, k requires 0 <= k < n => FileAt(img, base, ps[k]))
  }

  /// The reader at the k-th offset of a route.
  lemma RouteAt(img: seq<byte>, base: nat, ps: seq<nat>, k: nat)
    requires Route(img, base, ps) && k < |ps|
    ensures var out := Parse(img, base, ps[k]);
      && (out.Read? <==> k < |FilesOn(img, base, ps)|)
      && (out.Read? ==> out.file == FilesOn(img, base, ps)[k])
      && (k + 1 < |ps| ==> out.Read? && out.start == ps[k + 1] && out.start !in ps[..k + 1])
      && (k + 1 == |ps| && out.Read? ==> Strays(img, base, ps) && ps[..k + 1] == ps)
  {
    hide Parse;
    if k + 1 < |ps| {
      assert GoesOn(img, base, ps, k);
    }
  }

  /// Every image has a route from every offset on.
  lemma RouteFrom(img: seq<byte>, base: nat, p: nat) returns (ps: seq<nat>)
    ensures Route(img, base, ps) && ps[0] == p
  {
    ps := RouteOn(img, base, [p]);
  }

  lemma {:induction false} RouteOn(img: seq<byte>, base: nat, ps: seq<nat>) returns (qs: seq<nat>)
    requires ps != [] && (forall k :: 0 <= k < |ps| - 1 ==> GoesOn(img, base, ps, k)) && (forall i, j :: 0 <= i < j < |ps| ==> ps[i] != ps[j])
    requires forall i :: 0 < i < |ps| ==> ps[i] <= |img|
    ensures Route(img, base, qs) && qs[0] == ps[0]
    decreases |img| + 3 - |ps|
  {
    FewOffsets(ps, |img|);
    var out := Parse(img, base, ps[|ps| - 1]);
    if out.Failed? || Strays(img, base, ps) {
      qs := ps;
    } else {
      NextInside(img, base, ps[|ps| - 1]);
      hide Parse;
      var ps' := ps + [out.start];
      forall k | 0 <= k < |ps'| - 1 ensures GoesOn(img, base, ps', k) {
        assert k < |ps| - 1 ==> GoesOn(img, base, ps, k);
      }
      qs := RouteOn(img, base, ps');
    }
  }

  lemma NextInside(img: seq<byte>, base: nat, p: nat)
    ensures Parse(img, base, p).Read? ==> Parse(img, base, p).start <= |img|
  {
    hide ReadU16, Value, Signed, Advance;
  }

  /// There are not so many offsets.
  lemma FewOffsets(ps: seq<nat>, n: nat)
    requires ps != [] && (forall i, j :: 0 <= i < j < |ps| ==> ps[i] != ps[j]) && forall i :: 0 < i < |ps| ==> ps[i] <= n
    ensures |ps| <= n + 2
  {
    var rest := ps[1..];
    Pigeons(rest, n);
  }

  lemma Pigeons(ps: seq<nat>, n: nat)
    requires (forall i, j :: 0 <= i < j < |ps| ==> ps[i] != ps[j]) && forall i :: 0 <= i < |ps| ==> ps[i] <= n
    ensures |ps| <= n + 1
  {
    SetOfSeq(ps);
    Subset(set i | 0 <= i < |ps| :: ps[i], Below(n + 1));
  }

  lemma {:induction false} SetOfSeq(ps: seq<nat>)
    requires forall i, j :: 0 <= i < j < |ps| ==> ps[i] != ps[j]
    ensures |set i | 0 <= i < |ps| :: ps[i]| == |ps|
  {
    if ps != [] {
      var n := |ps| - 1;
      var before := ps[..n];
      SetOfSeq(before);
      assert (set i | 0 <= i < |ps| :: ps[i]) == (set i | 0 <= i < |before| :: before[i]) + {ps[n]};
    }
  }

  ghost function Below(n: nat): (s: set<nat>)
    ensures |s| == n && forall x :: x in s <==> 0 <= x < n
  {
    if n == 0 then {} else Below(n - 1) + {n - 1}
  }

  lemma {:induction false} Subset(a: set<nat>, b: set<nat>)
    requires a <= b
    ensures |a| <= |b|
  {
    if x :| x in a {
      Subset(a - {x}, b - {x});
    }
  }

  /// No offset comes twice: from the same offset the reader would go the same way and never end.
  lemma {:induction false} TrailDistinct(img: seq<byte>, base: nat, ps: seq<nat>, i: nat, j: nat)
    requires Trail(img, base, ps) && i < j < |ps|
    ensures ps[i] != ps[j]
    decreases |ps| - j
  {
    hide Parse;
    assert GoesOn(img, base, ps, i);
    if ps[i] == ps[j] && j + 1 < |ps| {
      assert GoesOn(img, base, ps, j);
      TrailDistinct(img, base, ps, i + 1, j + 1);
    }
  }

  /// Reading ends, wherever it starts, in an image whose size fields it can hold.
  lemma {:induction false} TrailFrom(img: seq<byte>, base: nat, p: nat) returns (ps: seq<nat>)
    requires Placed(img, base)
    requires forall q: nat {:trigger Parse(img, base, q)} :: Parse(img, base, q).Read? ==>
      0 <= Parse(img, base, q).file.size <= |img| - Parse(img, base, q).file.data
    ensures Trail(img, base, ps) && ps[0] == p
    decreases if p < |img| then |img| - p else 0
  {
    var out := Parse(img, base, p);
    ps := [p];
    if out.Read? {
      ParseInBounds(img, base, p);
      hide Parse;
      var rest := TrailFrom(img, base, out.start);
      ps := [p] + rest;
      forall k | 0 <= k < |ps| - 1 ensures GoesOn(img, base, ps, k) {
        assert k > 0 ==> GoesOn(img, base, rest, k - 1);
      }
    }
  }

  /// The offsets of the records from `i` on, up to where reading ends.
  function Offsets(rs: seq<Record>, i: nat): (ps: seq<nat>)
    requires AllValid(rs) && i <= |Readable(rs)|
    ensures |ps| == |Readable(rs)| - i + 1 && forall k :: 0 <= k < |ps| ==> ps[k] == Offset(rs, i + k)
  {
    seq<nat>(|Readable(rs)| - i + 1, k requires 0 <= k <= |Readable(rs)| - i => Offset(rs, i + k))
  }

  /// An archive has a trail from each record on, which comes by exactly the readable records.
  lemma ArchiveTrail(rs: seq<Record>, base: nat, i: nat)
    requires AllValid(rs) && Placed(Archive(rs), base) && i <= |Readable(rs)|
    ensures var img, ps := Archive(rs), Offsets(rs, i);
      && Trail(img, base, ps) && |Files(img, base, ps)| == |Readable(rs)| - i
      && forall k :: 0 <= k < |Files(img, base, ps)| ==> IsFile(img, Files(img, base, ps)[k], rs[i + k])
  {
    hide Parse, IsFile, Encode, Archive, Offset;
    var img, ps := Archive(rs), Offsets(rs, i);
    ReadAt(rs, base, |Readable(rs)|);
    forall k | 0 <= k < |ps| - 1 ensures GoesOn(img, base, ps, k) && IsFile(img, Parse(img, base, ps[k]).file, rs[i + k]) {
      ReadAt(rs, base, i + k);
    }
  }

  // ---------------------------------------------------------------- the iterator

  /// `target` is found at the first record of the wanted kind whose name starts with it.
  predicate Matches(f: File, target: seq<byte>, kind: byte) {
    (kind == 0 || f.kind == kind) && target <= f.name
  }

  /// A record with exactly the wanted name is the first match, unless a record before it has
  /// a longer name that starts with the wanted one.
  lemma FirstNamed(fs: seq<File>, i: nat, m: nat, target: seq<byte>, kind: byte)
    requires i <= m < |fs| && Matches(fs[m], target, kind) && fs[m].name == target
    requires forall j :: i <= j < m && Matches(fs[j], target, kind) ==> fs[j].name != target
    ensures (forall j :: i <= j < m ==> !Matches(fs[j], target, kind))
      <==> (forall j :: i <= j < m && (kind == 0 || fs[j].kind == kind) ==> !(target < fs[j].name))
  {
    forall j | i <= j < m && (kind == 0 || fs[j].kind == kind)
      ensures Matches(fs[j], target, kind) <==> target < fs[j].name
    {
      assert target <= fs[j].name && fs[j].name != target ==> target < fs[j].name;
    }
  }

  /// Byte `i` of a string, its terminator included.
  function CharAt(s: seq<byte>, i: nat): byte
    requires i <= |s|
  {
    if i < |s| then s[i] else 0
  }

  /// The comparison inside jax_find.
  method StartsWith(name: seq<byte>, target: seq<byte>) returns (starts: bool)
    requires 0 !in target
    ensures starts <==> target <= name
  {
    var i := 0;
    while i < |name| && name[i] == CharAt(target, i) && CharAt(target, i) != 0
      invariant i <= |name| && i <= |target| && target[..i] == name[..i]
    {
      i := i + 1;
    }
    return CharAt(target, i) == 0;
  }

  class Iterator {
    var img: seq<byte>
    var base: nat
    var start: int

    constructor ()
      ensures img == [] && base == 0 && start == 0
    {
      img, base, start := [], 0, 0;
    }

    constructor At(image: seq<byte>, at: nat, offset: int)
      ensures img == image && base == at && start == offset
    {
      img, base, start := image, at, offset;
    }

    method Open(image: seq<byte>, at: nat) returns (ok: bool)
      modifies this
      ensures ok <==> MAGIC <= image
      ensures if ok then img == image && base == at && start == 4
        else img == old(img) && base == old(base) && start == old(start)
    {
      if 4 > |image| || image[0] != 94 || image[1] != 106 || image[2] != 97 || image[3] != 120 {
        return false;
      }
      assert image[..4] == MAGIC;
      img, base, start := image, at, 4;
      return true;
    }

    method NextFile() returns (ok: bool, file: File)
      requires 0 <= start && Placed(img, base)
      modifies this`start
      ensures start == Parse(img, base, old(start)).start
      ensures ok <==> Parse(img, base, old(start)).Read?
      ensures ok ==> file == Parse(img, base, old(start)).file
    {
      hide Value, Signed, ReadU16;
      ok := false;
      file := File(0, [], [], 0, 0, 0, 0, 0, 0);
      var p := start;
      if start >= |img| || start + 3 >= |img| { return; }
      start := start + ReadU16(img[p + 1..p + 3]) + 3;
      var q := start;
      if start >= |img| || start + 2 >= |img| { return; }
      start := start + ReadU16(img[q..q + 2]) + 2;
      var t := start;
      if start >= |img| || start + 22 >= |img| { return; }
      var timestamp := ReadI64(img[t..t + 8]);
      var size := ReadI64(img[t + 14..t + 22]);
      file := File(img[p], img[p + 3..q], img[q + 2..t], timestamp, ReadU16(img[t + 8..t + 10]),
        ReadU16(img[t + 10..t + 12]), ReadU16(img[t + 12..t + 14]), size, t + 22);
      start := Advance(base, t, size + 22);
      ok := start <= |img|;
    }

    /// jax_find, on whatever image, along the route from the iterator on. Where the route turns back or leaves the image,
    /// the search is lost: it never ends, or it reads memory that is not the image's.
    method Find(toFind: seq<byte>, kind: byte, ghost ps: seq<nat>)
      returns (r: Finding, ghost k: nat)
      requires Placed(img, base) && Route(img, base, ps) && start == ps[0] && 0 !in toFind
      modifies this`start
      ensures var fs := FilesOn(img, base, ps);
        var target := if toFind != [] && toFind[0] == 47 then toFind[1..] else toFind;
        && (r.Hit? <==> exists j :: 0 <= j < |fs| && (kind == 0 || fs[j].kind == kind) && target <= fs[j].name)
        && (r.Lost? <==> Strays(img, base, ps) && forall j :: 0 <= j < |fs| && (kind == 0 || fs[j].kind == kind) ==> !(target <= fs[j].name))
      ensures r.Hit? ==>
        var fs := FilesOn(img, base, ps);
        var target := if toFind != [] && toFind[0] == 47 then toFind[1..] else toFind;
        && k < |fs| && (kind == 0 || fs[k].kind == kind) && target <= fs[k].name
        && (forall j :: 0 <= j < k && (kind == 0 || fs[j].kind == kind) ==> !(target <= fs[j].name))
        && r.data == fs[k].data && r.size == fs[k].size % WORD && start == Parse(img, base, ps[k]).start
    {
      hide Parse, Value, Signed, GoesOn, FilesOn;
      var target := if toFind != [] && toFind[0] == 47 then toFind[1..] else toFind;
      var seen := {start};
      k := 0;
      assert ps[..1] == [start];
      while true
        invariant k < |ps| && start == ps[k] && k <= |FilesOn(img, base, ps)| && Route(img, base, ps)
        invariant forall x :: x in seen <==> x in ps[..k + 1]
        invariant forall j :: 0 <= j < k ==> !Matches(FilesOn(img, base, ps)[j], target, kind)
        decreases |ps| - k
      {
        RouteAt(img, base, ps, k);
        var ok, file := NextFile();
        if !ok {
          return Missing, k;
        }
        if kind == 0 || file.kind == kind {
          var starts := StartsWith(file.name, target);
          if starts {
            return Hit(file.data, file.size % WORD), k;
          }
        }
        if start < 0 || start in seen {
          return Lost, k;
        }
        seen := seen + {start};
        assert ps[..k + 2] == ps[..k + 1] + [ps[k + 1]];
        k := k + 1;
      }
    }
  }

  /// What jax_find returns, or that it does not.
  datatype Finding = Hit(data: nat, size: nat) | Missing | Lost
}

/**
The relocating loader for flat binaries (core/common/bflt.c). The file and the allocation are byte
sequences at the 32-bit addresses `fileAt` and `base`; words are big-endian, as on the 68000.
*/
module Bflt {
  import opened Basics

  const HEADER := 64
  const END_OF_GOT := 0xffff_ffff

  datatype Header = Header(
    entryPoint: nat, dataStart: nat, dataEnd: nat, bssEnd: nat, stackSize: nat,
    relocationsStart: nat, relocations: nat, gotpic: bool)
  {
    /// The segments follow each other.
    predicate Valid() { HEADER <= dataStart <= dataEnd <= bssEnd }

    /// Where the part of the file that is copied begins.
    function CopiedFrom(): nat { if gotpic then dataStart else HEADER }

    /// bflt_allocation_size
    function AllocationSize(): nat
      requires Valid()
    {
      bssEnd - CopiedFrom() + stackSize
    }

    /// The offset, as relocations count, at which the data segment begins.
    function DataOffset(): nat
      requires Valid()
    {
      dataStart - HEADER
    }
  }

  // ---------------------------------------------------------------- words

  function Word(m: seq<byte>, p: nat): (w: nat)
    requires p + 4 <= |m|
    ensures w < WORD
  {
    var a: int, b: int, c: int, d: int := m[p], m[p + 1], m[p + 2], m[p + 3];
    a * 0x100_0000 + b * 0x1_0000 + c * 0x100 + d
  }

  function Put(m: seq<byte>, p: nat, w: nat): (r: seq<byte>)
    requires p + 4 <= |m| && w < WORD
    ensures |r| == |m|
  {
    m[p := w / 0x100_0000][p + 1 := w / 0x1_0000 % 0x100][p + 2 := w / 0x100 % 0x100][p + 3 := w % 0x100]
  }

  /// The first byte is the highest.
  lemma WordBytes(m: seq<byte>, p: nat)
    requires p + 4 <= |m|
    ensures var w := Word(m, p);
      && m[p] as int == w / 0x100_0000 && m[p + 1] as int == w / 0x1_0000 % 0x100
      && m[p + 2] as int == w / 0x100 % 0x100 && m[p + 3] as int == w % 0x100
  {
    var a: int, b: int, c: int, d: int := m[p], m[p + 1], m[p + 2], m[p + 3];
    Digit(a * 0x1_0000 + b * 0x100 + c, d);
    Digit(a * 0x100 + b, c);
    Digit(a, b);
    var w := Word(m, p);
    assert w == (a * 0x1_0000 + b * 0x100 + c) * 0x100 + d;
    assert w / 0x1_0000 == w / 0x100 / 0x100 && w / 0x100_0000 == w / 0x100 / 0x100 / 0x100;
  }

  lemma Digit(q: nat, d: nat)
    requires d < 0x100
    ensures (q * 0x100 + d) / 0x100 == q && (q * 0x100 + d) % 0x100 == d
  {
  }

  lemma WordOfPut(m: seq<byte>, p: nat, w: nat)
    requires p + 4 <= |m| && w < WORD
    ensures Word(Put(m, p, w), p) == w
  {
    var high := w / 0x1_0000;
    assert w / 0x100_0000 == high / 0x100;
    assert w / 0x100 == high * 0x100 + w % 0x1_0000 / 0x100;
  }

  method Store(a: array<byte>, p: nat, w: nat)
    requires p + 4 <= a.Length && w < WORD
    modifies a
    ensures a[..] == Put(old(a[..]), p, w)
  {
    a[p], a[p + 1], a[p + 2], a[p + 3] := w / 0x100_0000, w / 0x1_0000 % 0x100, w / 0x100 % 0x100, w % 0x100;
  }

  // ---------------------------------------------------------------- addresses

  /// Where the segments are in memory.
  datatype Place = Place(text: nat, data: nat, split: nat)
  {
    /// offset_to_address, without the flag
    function Address(offset: nat): (a: nat)
      ensures a < WORD
    {
      (if offset < split then text + offset else data + offset - split) % WORD
    }
  }

  function PlaceOf(h: Header, fileAt: nat, base: nat): Place
    requires h.Valid()
  {
    if h.gotpic then Place(fileAt + HEADER, base, h.DataOffset())
    else Place(base, base + h.DataOffset(), h.DataOffset())
  }

  /// Without a global offset table everything moves by the same amount.
  lemma AddressFlat(h: Header, fileAt: nat, base: nat, offset: nat)
    requires h.Valid() && !h.gotpic
    ensures PlaceOf(h, fileAt, base).Address(offset) == (base + offset) % WORD
  {
  }

  /// With one, the text segment stays in the file behind its header, and the data segment begins the allocation.
  lemma AddressGot(h: Header, fileAt: nat, base: nat, offset: nat)
    requires h.Valid() && h.gotpic
    ensures PlaceOf(h, fileAt, base).Address(offset) ==
      if offset < h.dataStart - 64 then (fileAt + 64 + offset) % WORD else (base + offset - (h.dataStart - 64)) % WORD
  {
  }

  /// The relocation is skipped: it is for a text segment that is not copied, or its address is NULL.
  predicate Skipped(h: Header, pl: Place, offset: nat)
    requires h.Valid()
  {
    (h.gotpic && offset < h.DataOffset()) || pl.Address(offset) == 0
  }

  /// The word to relocate lies in the allocation.
  predicate Inside(h: Header, pl: Place, offset: nat)
    requires h.Valid()
  {
    !Skipped(h, pl, offset) ==> offset + 4 <= h.bssEnd - HEADER + h.stackSize
  }

  /// The place of the word in the allocation.
  function Index(h: Header, pl: Place, offset: nat): (x: nat)
    requires h.Valid() && Inside(h, pl, offset) && !Skipped(h, pl, offset)
    ensures x + 4 <= h.AllocationSize()
  {
    if h.gotpic then offset - h.DataOffset() else offset
  }

  /// The loader writes into the allocation exactly then, and nowhere else in it.
  lemma IndexAddress(h: Header, fileAt: nat, base: nat, offset: nat)
    requires h.Valid() && offset < WORD && base + h.AllocationSize() <= WORD && !Skipped(h, PlaceOf(h, fileAt, base), offset)
    ensures var pl := PlaceOf(h, fileAt, base); var a := pl.Address(offset);
      && (base <= a && a + 4 <= base + h.AllocationSize() <==> Inside(h, pl, offset))
      && (Inside(h, pl, offset) ==> a == base + Index(h, pl, offset))
  {
  }

  /// In a flat binary the one relocation that is skipped is the one that wraps around to NULL, which is none of those
  /// inside; the source skips it with the ones for the text segment.
  lemma SkippedFlat(h: Header, fileAt: nat, base: nat, offset: nat)
    requires h.Valid() && !h.gotpic && offset < WORD && 0 < base && base + h.AllocationSize() <= WORD
    ensures Skipped(h, PlaceOf(h, fileAt, base), offset) <==> offset == WORD - base
    ensures offset + 4 <= h.AllocationSize() ==> !Skipped(h, PlaceOf(h, fileAt, base), offset)
  {
    AddressFlat(h, fileAt, base, offset);
    var s := base + offset;
    assert s < 2 * WORD && s % WORD == if s < WORD then s else s - WORD;
  }

  /// In a position-independent binary those for the text segment are skipped, and one more: the one that wraps around
  /// to NULL.
  lemma SkippedGot(h: Header, fileAt: nat, base: nat, offset: nat)
    requires h.Valid() && h.gotpic && offset < WORD && 0 < base && base + h.AllocationSize() <= WORD
    ensures var split := h.dataStart - 64;
      && (Skipped(h, PlaceOf(h, fileAt, base), offset) <==> offset < split || offset - split == WORD - base)
      && (split <= offset && offset - split + 4 <= h.AllocationSize() ==> !Skipped(h, PlaceOf(h, fileAt, base), offset))
  {
    AddressGot(h, fileAt, base, offset);
    if h.dataStart - 64 <= offset {
      var s := base + offset - (h.dataStart - 64);
      assert s < 2 * WORD && s % WORD == if s < WORD then s else s - WORD;
    }
  }

  // ---------------------------------------------------------------- the relocation loop

  predicate Ready(h: Header, m: seq<byte>) { h.Valid() && |m| == h.AllocationSize() }

  ghost predicate AllInside(h: Header, pl: Place, offs: seq<nat>)
    requires h.Valid()
  {
    forall i :: 0 <= i < |offs| ==> Inside(h, pl, offs[i])
  }

  /// One relocation.
  function Patch(h: Header, pl: Place, m: seq<byte>, offset: nat): (r: seq<byte>)
    requires Ready(h, m) && Inside(h, pl, offset)
    ensures Ready(h, r)
  {
    if Skipped(h, pl, offset) then m
    else Put(m, Index(h, pl, offset), pl.Address(Word(m, Index(h, pl, offset))))
  }

  function PatchAll(h: Header, pl: Place, m: seq<byte>, offs: seq<nat>): (r: seq<byte>)
    requires Ready(h, m) && AllInside(h, pl, offs)
    ensures Ready(h, r)
  {
    if offs == [] then m else Patch(h, pl, PatchAll(h, pl, m, offs[..|offs| - 1]), offs[|offs| - 1])
  }

  /// No two of the words to relocate overlap; in particular none is listed twice.
  ghost predicate Disjoint(h: Header, pl: Place, offs: seq<nat>)
    requires h.Valid() && AllInside(h, pl, offs)
  {
    forall i, j :: 0 <= i < j < |offs| && !Skipped(h, pl, offs[i]) && !Skipped(h, pl, offs[j]) ==>
      offs[i] + 4 <= offs[j] || offs[j] + 4 <= offs[i]
  }

  /// Byte `x` of the allocation belongs to a word to relocate.
  ghost predicate Covered(h: Header, pl: Place, offs: seq<nat>, x: nat)
    requires h.Valid() && AllInside(h, pl, offs)
  {
    exists i :: 0 <= i < |offs| && Covers(h, pl, offs[i], x)
  }

  predicate Covers(h: Header, pl: Place, offset: nat, x: nat)
    requires h.Valid() && Inside(h, pl, offset)
  {
    !Skipped(h, pl, offset) && Index(h, pl, offset) <= x < Index(h, pl, offset) + 4
  }

  /// `r` is `m` with every listed word translated, from its value in `m`, and nothing else changed.
  ghost predicate Simultaneous(h: Header, pl: Place, m: seq<byte>, r: seq<byte>, offs: seq<nat>)
    requires Ready(h, m) && Ready(h, r) && AllInside(h, pl, offs)
  {
    && (forall i :: 0 <= i < |offs| ==> Translated(h, pl, m, r, offs[i]))
    && (forall x :: 0 <= x < |m| && !Covered(h, pl, offs, x) ==> r[x] == m[x])
  }

  predicate Translated(h: Header, pl: Place, m: seq<byte>, r: seq<byte>, offset: nat)
    requires Ready(h, m) && Ready(h, r) && Inside(h, pl, offset)
  {
    !Skipped(h, pl, offset) ==>
      Word(r, Index(h, pl, offset)) == pl.Address(Word(m, Index(h, pl, offset)))
  }

  /// The loop's result, for words that do not overlap.
  lemma {:induction false} PatchAllSimultaneous(h: Header, pl: Place, m: seq<byte>, offs: seq<nat>)
    requires Ready(h, m) && AllInside(h, pl, offs) && Disjoint(h, pl, offs)
    ensures Simultaneous(h, pl, m, PatchAll(h, pl, m, offs), offs)
    decreases |offs|
  {
    if offs != [] {
      var n := |offs| - 1;
      var before, last := offs[..n], offs[n];
      PatchAllSimultaneous(h, pl, m, before);
      PatchStep(h, pl, m, PatchAll(h, pl, m, before), offs);
    }
  }

  lemma PatchStep(h: Header, pl: Place, m: seq<byte>, r: seq<byte>, offs: seq<nat>)
    requires Ready(h, m) && Ready(h, r) && AllInside(h, pl, offs) && Disjoint(h, pl, offs) && offs != []
    requires Simultaneous(h, pl, m, r, offs[..|offs| - 1])
    ensures Simultaneous(h, pl, m, Patch(h, pl, r, offs[|offs| - 1]), offs)
  {
    hide Word, Put, Place.Address;
    var n := |offs| - 1;
    var before, last := offs[..n], offs[n];
    var r' := Patch(h, pl, r, last);
    if !Skipped(h, pl, last) {
      WordUntouched(h, pl, m, r, offs);
      WordOfPut(r, Index(h, pl, last), pl.Address(Word(r, Index(h, pl, last))));
    }
    forall i | 0 <= i < |offs| ensures Translated(h, pl, m, r', offs[i]) {
      if i < n {
        assert Translated(h, pl, m, r, before[i]);
        PatchElsewhere(h, pl, r, last, offs[i]);
      }
    }
    forall x | 0 <= x < |m| && !Covered(h, pl, offs, x) ensures r'[x] == m[x] {
      assert !Covers(h, pl, offs[n], x);
      assert forall i :: 0 <= i < |before| ==> before[i] == offs[i];
      PatchByte(h, pl, r, last, x);
    }
  }

  /// No earlier relocation reaches the last word.
  lemma WordUntouched(h: Header, pl: Place, m: seq<byte>, r: seq<byte>, offs: seq<nat>)
    requires Ready(h, m) && Ready(h, r) && AllInside(h, pl, offs) && Disjoint(h, pl, offs) && offs != []
    requires Simultaneous(h, pl, m, r, offs[..|offs| - 1])
    requires !Skipped(h, pl, offs[|offs| - 1])
    ensures var x := Index(h, pl, offs[|offs| - 1]); Word(r, x) == Word(m, x)
  {
    var n := |offs| - 1;
    var before := offs[..n];
    forall x: nat | Covers(h, pl, offs[n], x) ensures r[x] == m[x] {
      assert forall i :: 0 <= i < |before| ==> before[i] == offs[i] && !Covers(h, pl, before[i], x);
    }
    var p := Index(h, pl, offs[n]);
    assert Covers(h, pl, offs[n], p) && Covers(h, pl, offs[n], p + 1) && Covers(h, pl, offs[n], p + 2) && Covers(h, pl, offs[n], p + 3);
  }

  lemma PatchByte(h: Header, pl: Place, m: seq<byte>, offset: nat, x: nat)
    requires Ready(h, m) && Inside(h, pl, offset) && x < |m| && !Covers(h, pl, offset, x)
    ensures Patch(h, pl, m, offset)[x] == m[x]
  {
  }

  lemma PatchElsewhere(h: Header, pl: Place, m: seq<byte>, offset: nat, other: nat)
    requires Ready(h, m) && Inside(h, pl, offset) && Inside(h, pl, other)
    requires !Skipped(h, pl, offset) && !Skipped(h, pl, other) ==> other + 4 <= offset || offset + 4 <= other
    ensures !Skipped(h, pl, other) ==>
      Word(Patch(h, pl, m, offset), Index(h, pl, other)) == Word(m, Index(h, pl, other))
  {
    if !Skipped(h, pl, other) {
      var q := Index(h, pl, other);
      var r := Patch(h, pl, m, offset);
      assert r[q] == m[q] && r[q + 1] == m[q + 1] && r[q + 2] == m[q + 2] && r[q + 3] == m[q + 3];
    }
  }

  /// A word that is listed twice is translated twice.
  lemma PatchTwice(h: Header, pl: Place, m: seq<byte>, offset: nat)
    requires Ready(h, m) && Inside(h, pl, offset) && !Skipped(h, pl, offset)
    ensures Word(PatchAll(h, pl, m, [offset, offset]), Index(h, pl, offset))
      == pl.Address(pl.Address(Word(m, Index(h, pl, offset))))
  {
    hide Word, Put, Place.Address;
    var x := Index(h, pl, offset);
    WordOfPut(m, x, pl.Address(Word(m, x)));
    var once := Patch(h, pl, m, offset);
    assert PatchAll(h, pl, m, []) == m;
    assert [offset][..0] == [];
    assert PatchAll(h, pl, m, [offset]) == once;
    assert [offset, offset][..1] == [offset];
    assert PatchAll(h, pl, m, [offset, offset]) == Patch(h, pl, once, offset);
    WordOfPut(once, x, pl.Address(Word(once, x)));
  }

  // ---------------------------------------------------------------- loading

  /// Text and data from the file, zeroes for bss, and the stack as it was.
  function Copied(h: Header, file: seq<byte>, m: seq<byte>): (r: seq<byte>)
    requires Ready(h, m) && h.dataEnd <= |file|
    ensures Ready(h, r)
    ensures var from := if h.gotpic then h.dataStart else 64;
      forall x :: 0 <= x < |m| ==>
        r[x] == if from + x < h.dataEnd then file[from + x] else if from + x < h.bssEnd then 0 else m[x]
  {
    seq(|m|, x requires 0 <= x < |m| => CopiedByte(h, file, m, x))
  }

  function CopiedByte(h: Header, file: seq<byte>, m: seq<byte>, x: nat): byte
    requires Ready(h, m) && h.dataEnd <= |file| && x < |m|
  {
    if h.CopiedFrom() + x < h.dataEnd then file[h.CopiedFrom() + x]
    else if h.CopiedFrom() + x < h.bssEnd then 0
    else m[x]
  }

  /// The first `n` relocation entries of the file.
  function Offsets(file: seq<byte>, start: nat, n: nat): (offs: seq<nat>)
    requires start + 4 * n <= |file|
    ensures |offs| == n && forall i :: 0 <= i < n ==> offs[i] == Word(file, start + 4 * i)
  {
    if n == 0 then [] else Offsets(file, start, n - 1) + [Word(file, start + 4 * (n - 1))]
  }

  /// Entry `i` of the global offset table, which begins the data segment.
  function GotWord(m: seq<byte>, i: nat): (w: nat)
    requires 4 * i + 4 <= |m|
    ensures w < WORD
  {
    Word(m, 4 * i)
  }

  /// The table ends before entry `n` and not earlier.
  ghost predicate GotEnds(m: seq<byte>, n: nat) {
    && 4 * n + 4 <= |m| && GotWord(m, n) == END_OF_GOT
    && forall i: nat :: i < n ==> GotWord(m, i) != END_OF_GOT
  }

  /// `r` is `m` with the first `n` entries translated.
  ghost predicate GotFixed(pl: Place, m: seq<byte>, r: seq<byte>, n: nat) {
    && |r| == |m| && 4 * n <= |m|
    && (forall i: nat :: i < n ==> GotWord(r, i) == pl.Address(GotWord(m, i)))
    && (forall x :: 4 * n <= x < |m| ==> r[x] == m[x])
  }

  lemma GotStep(pl: Place, m: seq<byte>, r: seq<byte>, n: nat)
    requires GotFixed(pl, m, r, n) && 4 * n + 4 <= |m|
    ensures GotWord(r, n) == GotWord(m, n)
    ensures GotFixed(pl, m, Put(r, 4 * n, pl.Address(GotWord(r, n))), n + 1)
  {
    var w := pl.Address(GotWord(r, n));
    var r' := Put(r, 4 * n, w);
    WordOfPut(r, 4 * n, w);
    forall i: nat | i < n + 1 ensures GotWord(r', i) == pl.Address(GotWord(m, i)) {
      if i < n {
        PutElsewhere(r, 4 * n, w, 4 * i);
      }
    }
  }

  lemma PutElsewhere(m: seq<byte>, p: nat, w: nat, q: nat)
    requires p + 4 <= |m| && w < WORD && q + 4 <= |m| && (p + 4 <= q || q + 4 <= p)
    ensures Word(Put(m, p, w), q) == Word(m, q)
  {
  }

  /// The loop over the table of a position-independent binary. It ends inside the allocation exactly
  /// when the table has an entry that ends it; without one it would go on beyond.
  method FixGot(a: array<byte>, pl: Place) returns (ended: bool, ghost end: nat)
    modifies a
    ensures ended <==> exists n :: GotEnds(old(a[..]), n)
    ensures ended ==> GotEnds(old(a[..]), end) && GotFixed(pl, old(a[..]), a[..], end)
  {
    ghost var m := a[..];
    var i := 0;
    while 4 * i + 4 <= a.Length
      invariant 0 <= i && GotFixed(pl, m, a[..], i)
      invariant forall k: nat :: k < i ==> GotWord(m, k) != END_OF_GOT
      decreases a.Length - 4 * i
    {
      GotStep(pl, m, a[..], i);
      var w := LoadWord(a, 4 * i);
      if w == END_OF_GOT {
        assert GotEnds(m, i);
        return true, i;
      }
      Store(a, 4 * i, pl.Address(w));
      i := i + 1;
    }
    return false, 0;
  }

  method LoadWord(a: array<byte>, p: nat) returns (w: nat)
    requires p + 4 <= a.Length
    ensures w == Word(a[..], p)
  {
    var b0: int, b1: int, b2: int, b3: int := a[p], a[p + 1], a[p + 2], a[p + 3];
    w := b0 * 0x100_0000 + b1 * 0x1_0000 + b2 * 0x100 + b3;
  }

  datatype Registers = Registers(pc: nat, sp: nat, got: Option<nat>)

  /// The offsets listed in the file.
  function Listed(h: Header, file: seq<byte>): seq<nat>
    requires h.relocationsStart + 4 * h.relocations <= |file|
  {
    Offsets(file, h.relocationsStart, h.relocations)
  }

  /// The file holds what its header names.
  predicate Complete(h: Header, file: seq<byte>) {
    h.Valid() && h.dataEnd <= |file| && h.relocationsStart + 4 * h.relocations <= |file|
  }

  /// Besides, its relocations are for words in the allocation, or skipped.
  ghost predicate Loadable(h: Header, pl: Place, file: seq<byte>) { Complete(h, file) && AllInside(h, pl, Listed(h, file)) }

  /// The table ends, if the binary has one.
  ghost predicate TableEnds(h: Header, m: seq<byte>) { h.gotpic ==> exists n :: GotEnds(m, n) }

  /// The allocation after the relocation loop.
  function Relocated(h: Header, file: seq<byte>, fileAt: nat, base: nat, m: seq<byte>): (r: seq<byte>)
    requires Ready(h, m) && Loadable(h, PlaceOf(h, fileAt, base), file)
    ensures Ready(h, r)
  {
    PatchAll(h, PlaceOf(h, fileAt, base), Copied(h, file, m), Listed(h, file))
  }

  /// The binary is loaded, or the loader touches memory outside the allocation.
  datatype Loading = Loaded(registers: Registers) | Strayed

  /// bflt_load
  method Load(h: Header, file: seq<byte>, fileAt: nat, base: nat, a: array<byte>) returns (r: Loading)
    requires Complete(h, file) && Ready(h, a[..]) && base + a.Length <= WORD
    modifies a
    ensures r.Loaded? <==> Loadable(h, PlaceOf(h, fileAt, base), file) && TableEnds(h, Relocated(h, file, fileAt, base, old(a[..])))
    ensures r.Loaded? && !h.gotpic ==> a[..] == Relocated(h, file, fileAt, base, old(a[..]))
    ensures r.Loaded? && h.gotpic ==>
      var m := Relocated(h, file, fileAt, base, old(a[..]));
      exists end :: GotEnds(m, end) && GotFixed(PlaceOf(h, fileAt, base), m, a[..], end)
    ensures r.Loaded? ==>
      && r.registers.pc == (if h.gotpic then fileAt + h.entryPoint else base + h.entryPoint - HEADER) % WORD
      && r.registers.sp == base + a.Length
      && r.registers.got == if h.gotpic then Some(base) else None
  {
    hide Copied, PatchAll, GotFixed, GotEnds, Inside, Word;
    ghost var m := a[..];
    var pl := PlaceOf(h, fileAt, base);
    CopyIn(h, file, a);
    var inside := RelocateAll(h, file, fileAt, base, a);
    if !inside {
      return Strayed;
    }
    if h.gotpic {
      ghost var end;
      var ended;
      ended, end := FixGot(a, pl);
      if !ended {
        return Strayed;
      }
    }
    var pc := if h.gotpic then fileAt + h.entryPoint else base + h.entryPoint - HEADER;
    return Loaded(Registers(pc % WORD, base + h.AllocationSize(), if h.gotpic then Some(base) else None));
  }

  /// The calls to memcpy and memset.
  method CopyIn(h: Header, file: seq<byte>, a: array<byte>)
    requires Ready(h, a[..]) && h.dataEnd <= |file|
    modifies a
    ensures a[..] == Copied(h, file, old(a[..]))
  {
    var n, bss := h.dataEnd - h.CopiedFrom(), h.bssEnd - h.CopiedFrom();
    forall x | 0 <= x < n { a[x] := file[h.CopiedFrom() + x]; }
    forall x | n <= x < bss { a[x] := 0; }
  }

  /// The loop over the relocations: it stays inside the allocation exactly when all of them do that are not skipped.
  method RelocateAll(h: Header, file: seq<byte>, fileAt: nat, base: nat, a: array<byte>) returns (inside: bool)
    requires Complete(h, file) && Ready(h, a[..]) && base + a.Length <= WORD
    modifies a
    ensures inside <==> AllInside(h, PlaceOf(h, fileAt, base), Listed(h, file))
    ensures inside ==> a[..] == PatchAll(h, PlaceOf(h, fileAt, base), old(a[..]), Listed(h, file))
  {
    hide Word, Put, Place.Address;
    ghost var m := a[..];
    var pl := PlaceOf(h, fileAt, base);
    ghost var offs := Listed(h, file);
    var i := 0;
    while i < h.relocations
      invariant 0 <= i <= h.relocations && AllInside(h, pl, offs[..i])
      invariant a[..] == PatchAll(h, pl, m, offs[..i])
    {
      var offset := Word(file, h.relocationsStart + 4 * i);
      assert offs[..i + 1][..i] == offs[..i];
      if !Skipped(h, pl, offset) {
        IndexAddress(h, fileAt, base, offset);
        var at := pl.Address(offset) - base;
        if at < 0 || at + 4 > a.Length {
          assert !Inside(h, pl, offs[i]);
          return false;
        }
        var w := LoadWord(a, at);
        Store(a, at, pl.Address(w));
      }
      i := i + 1;
    }
    assert offs[..i] == offs;
    return true;
  }

  // ---------------------------------------------------------------- what a loaded binary is

  /// Every byte of a flat binary that no relocation lists is the file's, or zero, or as it was on the stack; and every
  /// listed word holds the address, in this allocation, that the file names.
  lemma LoadedFlat(h: Header, file: seq<byte>, fileAt: nat, base: nat, m: seq<byte>)
    requires h.Valid() && !h.gotpic && 0 < base && base + h.AllocationSize() <= WORD
    requires var pl := PlaceOf(h, fileAt, base); Loadable(h, pl, file) && Ready(h, m) && Disjoint(h, pl, Listed(h, file))
    ensures |m| == h.bssEnd - 64 + h.stackSize
    ensures forall i :: 0 <= i < h.relocations ==> Listed(h, file)[i] == Word(file, h.relocationsStart + 4 * i)
    ensures var offs, r := Listed(h, file), Relocated(h, file, fileAt, base, m);
      && |offs| == h.relocations
      && (forall x :: 0 <= x < |m| && !Named(offs, x) ==>
           r[x] == if 64 + x < h.dataEnd then file[64 + x] else if 64 + x < h.bssEnd then 0 else m[x])
      && (forall i :: 0 <= i < |offs| ==> offs[i] + 4 <= |m| || offs[i] == WORD - base)
      && (forall i :: 0 <= i < |offs| && offs[i] + 4 <= |m| ==> Word(r, offs[i]) == (base + Word(Copied(h, file, m), offs[i])) % WORD)
  {
    hide Word;
    var pl, offs, m0 := PlaceOf(h, fileAt, base), Listed(h, file), Copied(h, file, m);
    PatchAllSimultaneous(h, pl, m0, offs);
    var r := Relocated(h, file, fileAt, base, m);
    forall i | 0 <= i < |offs|
      ensures offs[i] + 4 <= |m| || offs[i] == WORD - base
      ensures offs[i] + 4 <= |m| ==> Word(r, offs[i]) == (base + Word(m0, offs[i])) % WORD
    {
      SkippedFlat(h, fileAt, base, offs[i]);
      assert Translated(h, pl, m0, r, offs[i]);
      if offs[i] + 4 <= |m| {
        AddressFlat(h, fileAt, base, Word(m0, offs[i]));
      }
    }
    Unlisted(h, pl, m0, r, offs, 0);
    hide Listed, PatchAll, Place.Address, Simultaneous, Inside, Skipped;
  }

  /// What no relocation lists stays.
  lemma Unlisted(h: Header, pl: Place, m: seq<byte>, r: seq<byte>, offs: seq<nat>, split: nat)
    requires Ready(h, m) && Ready(h, r) && AllInside(h, pl, offs) && Simultaneous(h, pl, m, r, offs)
    requires split == if h.gotpic then h.DataOffset() else 0
    ensures forall x :: 0 <= x < |m| && !Named(offs, split + x) ==> r[x] == m[x]
  {
    hide Word;
    forall x | 0 <= x < |m| && !Named(offs, split + x) ensures r[x] == m[x] {
      assert forall i :: 0 <= i < |offs| && Covers(h, pl, offs[i], x) ==> offs[i] <= split + x < offs[i] + 4;
    }
  }

  /// In a position-independent binary only the data segment and bss are in the allocation. A word there that is listed,
  /// by its distance from the text segment, holds the address that the file names: in the file for text, else in the
  /// allocation. Then the entries of the table before its end are translated once more, by the same rule.
  lemma LoadedGot(h: Header, file: seq<byte>, fileAt: nat, base: nat, m: seq<byte>, r': seq<byte>, end: nat)
    requires h.Valid() && h.gotpic && 0 < base && base + h.AllocationSize() <= WORD
    requires var pl := PlaceOf(h, fileAt, base); Loadable(h, pl, file) && Ready(h, m) && Disjoint(h, pl, Listed(h, file))
    requires GotFixed(PlaceOf(h, fileAt, base), Relocated(h, file, fileAt, base, m), r', end)
    ensures |m| == h.bssEnd - h.dataStart + h.stackSize
    ensures forall i :: 0 <= i < h.relocations ==> Listed(h, file)[i] == Word(file, h.relocationsStart + 4 * i)
    ensures var offs, r, split := Listed(h, file), Relocated(h, file, fileAt, base, m), h.dataStart - 64;
      && |offs| == h.relocations
      && (forall x :: 0 <= x < |m| && !Named(offs, split + x) ==>
           r[x] == if h.dataStart + x < h.dataEnd then file[h.dataStart + x] else if h.dataStart + x < h.bssEnd then 0 else m[x])
      && (forall i :: 0 <= i < |offs| ==> offs[i] < split || offs[i] - split + 4 <= |m| || offs[i] - split == WORD - base)
      && (forall i :: 0 <= i < |offs| && split <= offs[i] && offs[i] - split + 4 <= |m| ==>
           var w := Word(Copied(h, file, m), offs[i] - split);
           Word(r, offs[i] - split) == if w < split then (fileAt + 64 + w) % WORD else (base + w - split) % WORD)
    ensures var r, split := Relocated(h, file, fileAt, base, m), h.dataStart - 64;
      && |r'| == |m| && 4 * end <= |m|
      && (forall i: nat :: i < end ==>
           GotWord(r', i) == if GotWord(r, i) < split then (fileAt + 64 + GotWord(r, i)) % WORD else (base + GotWord(r, i) - split) % WORD)
      && (forall x :: 4 * end <= x < |m| ==> r'[x] == r[x])
  {
    hide Word, GotWord;
    var pl, offs, m0, split := PlaceOf(h, fileAt, base), Listed(h, file), Copied(h, file, m), h.dataStart - 64;
    PatchAllSimultaneous(h, pl, m0, offs);
    var r := Relocated(h, file, fileAt, base, m);
    forall i | 0 <= i < |offs|
      ensures offs[i] < split || offs[i] - split + 4 <= |m| || offs[i] - split == WORD - base
      ensures split <= offs[i] && offs[i] - split + 4 <= |m| ==>
        var w := Word(m0, offs[i] - split);
        Word(r, offs[i] - split) == if w < split then (fileAt + 64 + w) % WORD else (base + w - split) % WORD
    {
      SkippedGot(h, fileAt, base, offs[i]);
      assert Translated(h, pl, m0, r, offs[i]);
      if split <= offs[i] && offs[i] - split + 4 <= |m| {
        AddressGot(h, fileAt, base, Word(m0, offs[i] - split));
      }
    }
    Unlisted(h, pl, m0, r, offs, split);
    hide Listed, PatchAll, Simultaneous, Inside, Skipped;
    forall i: nat | i < end
      ensures GotWord(r', i) == if GotWord(r, i) < split then (fileAt + 64 + GotWord(r, i)) % WORD else (base + GotWord(r, i) - split) % WORD
    {
      AddressGot(h, fileAt, base, GotWord(r, i));
    }
  }

  /// Byte `x` belongs to a listed word.
  ghost predicate Named(offs: seq<nat>, x: nat) { exists i :: 0 <= i < |offs| && offs[i] <= x < offs[i] + 4 }

  /// The same flat binary, loaded at two places: the segments differ exactly by the
  /// difference of the bases at the listed words.
  lemma TwoBases(h: Header, file: seq<byte>, fileAt: nat, fileAt': nat, base: nat, base': nat, m: seq<byte>, m': seq<byte>)
    requires h.Valid() && !h.gotpic && 0 < base && base + h.AllocationSize() <= WORD && 0 < base' && base' + h.AllocationSize() <= WORD
    requires var pl := PlaceOf(h, fileAt, base); Loadable(h, pl, file) && Ready(h, m) && Disjoint(h, pl, Listed(h, file))
    requires var pl := PlaceOf(h, fileAt', base'); Loadable(h, pl, file) && Ready(h, m') && Disjoint(h, pl, Listed(h, file))
    ensures var offs := Listed(h, file);
      var r, r' := Relocated(h, file, fileAt, base, m), Relocated(h, file, fileAt', base', m');
      && (forall x :: 0 <= x < h.bssEnd - HEADER && !Named(offs, x) ==> r[x] == r'[x])
      && (forall i :: 0 <= i < |offs| && offs[i] + 4 <= h.bssEnd - HEADER ==>
           Word(r', offs[i]) == (Word(r, offs[i]) + base' - base) % WORD)
  {
    hide Word, Copied, Listed, Relocated, Named, Disjoint, AllInside;
    LoadedFlat(h, file, fileAt, base, m);
    LoadedFlat(h, file, fileAt', base', m');
    var offs := Listed(h, file);
    var r, r' := Relocated(h, file, fileAt, base, m), Relocated(h, file, fileAt', base', m');
    forall i | 0 <= i < |offs| && offs[i] + 4 <= h.bssEnd - HEADER
      ensures Word(r', offs[i]) == (Word(r, offs[i]) + base' - base) % WORD
    {
      SameWord(h, file, m, m', offs[i]);
      Shifted(base, base', Word(Copied(h, file, m), offs[i]));
    }
  }

  lemma SameWord(h: Header, file: seq<byte>, m: seq<byte>, m': seq<byte>, p: nat)
    requires Ready(h, m) && Ready(h, m') && !h.gotpic && h.dataEnd <= |file| && p + 4 <= h.bssEnd - HEADER
    ensures Word(Copied(h, file, m), p) == Word(Copied(h, file, m'), p)
  {
  }

  lemma Shifted(base: nat, base': nat, w: nat)
    ensures (base' + w) % WORD == ((base + w) % WORD + base' - base) % WORD
  {
    var q := (base + w) / WORD;
    assert (base + w) % WORD + base' - base == base' + w - q * WORD;
  }
}

/**
The word-wise memcpy and memset of core/common, on one byte array that both operands live in.
Word accesses carry the alignment the processor demands as a precondition.
*/
module Memory {

  const WSIZE: nat := 4

  /// `m` is `m0` with bytes [lo, hi) of the block at `src` copied to the block at `dst`.
  ghost predicate Copied(m0: seq<bv8>, m: seq<bv8>, dst: nat, src: nat, lo: nat, hi: nat) {
    && |m| == |m0| && dst + hi <= |m0| && src + hi <= |m0| && lo <= hi
    && forall x {:trigger m[x]} :: 0 <= x < |m0| ==> m[x] == if dst + lo <= x < dst + hi then m0[x - dst + src] else m0[x]
  }

  // ---------------------------------------------------------------- memcpy

  predicate Aligned(d: nat, s: nat) { d % WSIZE == 0 && s % WSIZE == 0 }

  /// One word; the whole source word is read before the destination is written.
  method CopyWord(mem: array<bv8>, d: nat, s: nat)
    requires Aligned(d, s)
    requires d + WSIZE <= mem.Length && s + WSIZE <= mem.Length
    modifies mem
    ensures Copied(old(mem[..]), mem[..], d, s, 0, WSIZE)
  {
    hide Copied, Aligned;
    var w0, w1, w2, w3 := mem[s], mem[s + 1], mem[s + 2], mem[s + 3];
    mem[d], mem[d + 1], mem[d + 2], mem[d + 3] := w0, w1, w2, w3;
    WordCopied(old(mem[..]), d, s);
  }

  lemma WordCopied(m: seq<bv8>, d: nat, s: nat)
    requires d + WSIZE <= |m| && s + WSIZE <= |m|
    ensures Copied(m, m[d := m[s]][d + 1 := m[s + 1]][d + 2 := m[s + 2]][d + 3 := m[s + 3]], d, s, 0, WSIZE)
  {
  }

  /// The byte loop going up, from offset k on; `t` counts down to zero and starts above it.
  method BytesUp(mem: array<bv8>, dst: nat, src: nat, k: nat, t: nat, ghost m0: seq<bv8>)
    requires dst < src && src + k + t <= mem.Length && Copied(m0, mem[..], dst, src, 0, k)
    modifies mem
    ensures Copied(m0, mem[..], dst, src, 0, k + t)
  {
    var i := 0;
    while i < t
      invariant 0 <= i <= t && Copied(m0, mem[..], dst, src, 0, k + i)
    {
      mem[dst + k + i] := mem[src + k + i];
      i := i + 1;
    }
  }

  /// One word more.
  method WordUp(mem: array<bv8>, dst: nat, src: nat, k: nat, ghost m0: seq<bv8>)
    requires dst < src && src + k + 4 <= mem.Length && Copied(m0, mem[..], dst, src, 0, k) && Aligned(dst + k, src + k)
    modifies mem
    ensures Copied(m0, mem[..], dst, src, 0, k + 4)
  {
    CopyWord(mem, dst + k, src + k);
  }

  method WordsUp(mem: array<bv8>, dst: nat, src: nat, k: nat, t: nat, ghost m0: seq<bv8>)
    requires dst < src && src + k + 4 * t <= mem.Length && Copied(m0, mem[..], dst, src, 0, k)
    requires t > 0 ==> Aligned(dst + k, src + k)
    modifies mem
    ensures Copied(m0, mem[..], dst, src, 0, k + 4 * t)
  {
    var i := 0;
    while i < t
      invariant 0 <= i <= t && Copied(m0, mem[..], dst, src, 0, k + 4 * i)
    {
      WordUp(mem, dst, src, k + 4 * i, m0);
      i := i + 1;
    }
  }

  /// The byte loop going down to offset k - t.
  method BytesDown(mem: array<bv8>, dst: nat, src: nat, n: nat, k: nat, t: nat, ghost m0: seq<bv8>)
    requires src < dst && dst + n <= mem.Length && t <= k <= n && Copied(m0, mem[..], dst, src, k, n)
    modifies mem
    ensures Copied(m0, mem[..], dst, src, k - t, n)
  {
    var i := 0;
    while i < t
      invariant 0 <= i <= t && Copied(m0, mem[..], dst, src, k - i, n)
    {
      mem[dst + k - i - 1] := mem[src + k - i - 1];
      i := i + 1;
    }
  }

  method WordDown(mem: array<bv8>, dst: nat, src: nat, n: nat, k: nat, ghost m0: seq<bv8>)
    requires src < dst && dst + n <= mem.Length && 4 <= k <= n && Copied(m0, mem[..], dst, src, k, n) && Aligned(dst + k, src + k)
    modifies mem
    ensures Copied(m0, mem[..], dst, src, k - 4, n)
  {
    CopyWord(mem, dst + k - 4, src + k - 4);
  }

  method WordsDown(mem: array<bv8>, dst: nat, src: nat, n: nat, k: nat, t: nat, ghost m0: seq<bv8>)
    requires src < dst && dst + n <= mem.Length && 4 * t <= k <= n && Copied(m0, mem[..], dst, src, k, n)
    requires t > 0 ==> Aligned(dst + k, src + k)
    modifies mem
    ensures Copied(m0, mem[..], dst, src, k - 4 * t, n)
  {
    var i := 0;
    while i < t
      invariant 0 <= i <= t && Copied(m0, mem[..], dst, src, k - 4 * i, n)
    {
      WordDown(mem, dst, src, n, k - 4 * i, m0);
      i := i + 1;
    }
  }

  /// How many bytes come before the words when copying up: all of them when the operands can never be
  /// aligned together.
  function HeadBytes(d: nat, s: nat, length: nat): (h: nat)
    requires length > 0 && !Aligned(d, s)
    ensures 0 < h <= length
    ensures length - h >= WSIZE ==> Aligned(d + h, s + h)
  {
    if s % WSIZE != d % WSIZE || length < WSIZE then length else WSIZE - s % WSIZE
  }

  /// How many bytes come before the words when copying down from the ends `d` and `s`.
  function TailBytes(d: nat, s: nat, length: nat): (t: nat)
    requires length > 0 && length <= d && length <= s && !Aligned(d, s)
    ensures 0 < t <= length
    ensures length - t >= WSIZE ==> Aligned(d - t, s - t)
  {
    if s % WSIZE != d % WSIZE || length <= WSIZE then length else s % WSIZE
  }

  /// How many words and how many odd bytes make up `n` bytes.
  function Words(n: nat): (r: (nat, nat))
    ensures n == 4 * r.0 + r.1 && r.1 < WSIZE
  {
    (n / WSIZE, n % WSIZE)
  }

  lemma CopiedNothing(m0: seq<bv8>, dst: nat, src: nat, k: nat)
    requires dst + k <= |m0| && src + k <= |m0|
    ensures Copied(m0, m0, dst, src, k, k)
  {
  }

  /// The whole words, and then the odd bytes, from offset k on.
  method RestUp(mem: array<bv8>, dst: nat, src: nat, k: nat, left: nat, ghost m0: seq<bv8>)
    requires dst < src && src + k + left <= mem.Length && Copied(m0, mem[..], dst, src, 0, k)
    requires left >= WSIZE ==> Aligned(dst + k, src + k)
    modifies mem
    ensures Copied(m0, mem[..], dst, src, 0, k + left)
  {
    hide Copied, Aligned, Words;
    var (words, odd) := Words(left);
    WordsUp(mem, dst, src, k, words, m0);
    BytesUp(mem, dst, src, k + 4 * words, odd, m0);
  }

  method RestDown(mem: array<bv8>, dst: nat, src: nat, n: nat, left: nat, ghost m0: seq<bv8>)
    requires src < dst && dst + n <= mem.Length && left <= n && Copied(m0, mem[..], dst, src, left, n)
    requires left >= WSIZE ==> Aligned(dst + left, src + left)
    modifies mem
    ensures Copied(m0, mem[..], dst, src, 0, n)
  {
    hide Copied, Aligned, Words;
    var (words, odd) := Words(left);
    WordsDown(mem, dst, src, n, left, words, m0);
    BytesDown(mem, dst, src, n, odd, odd, m0);
  }

  /// The bytes before the words.
  method HeadUp(mem: array<bv8>, dst: nat, src: nat, length: nat) returns (head: nat)
    requires dst < src && src + length <= mem.Length && length > 0
    modifies mem
    ensures head <= length && (length - head >= WSIZE ==> Aligned(dst + head, src + head))
    ensures Copied(old(mem[..]), mem[..], dst, src, 0, head)
  {
    hide Copied;
    CopiedNothing(mem[..], dst, src, 0);
    if Aligned(dst, src) {
      return 0;
    }
    head := HeadBytes(dst, src, length);
    BytesUp(mem, dst, src, 0, head, old(mem[..]));
  }

  method TailDown(mem: array<bv8>, dst: nat, src: nat, length: nat) returns (left: nat)
    requires src < dst && dst + length <= mem.Length && length > 0
    modifies mem
    ensures left <= length && (left >= WSIZE ==> Aligned(dst + left, src + left))
    ensures Copied(old(mem[..]), mem[..], dst, src, left, length)
  {
    hide Copied;
    CopiedNothing(mem[..], dst, src, length);
    if Aligned(dst + length, src + length) {
      return length;
    }
    var tail := TailBytes(dst + length, src + length, length);
    BytesDown(mem, dst, src, length, length, tail, old(mem[..]));
    left := length - tail;
  }

  /// The forward half of memcpy.
  method CopyUp(mem: array<bv8>, dst: nat, src: nat, length: nat)
    requires dst < src && src + length <= mem.Length && length > 0
    modifies mem
    ensures Copied(old(mem[..]), mem[..], dst, src, 0, length)
  {
    hide Copied, Aligned;
    var head := HeadUp(mem, dst, src, length);
    RestUp(mem, dst, src, head, length - head, old(mem[..]));
  }

  /// The backward half of memcpy.
  method CopyDown(mem: array<bv8>, dst: nat, src: nat, length: nat)
    requires src < dst && dst + length <= mem.Length && length > 0
    modifies mem
    ensures Copied(old(mem[..]), mem[..], dst, src, 0, length)
  {
    hide Copied, Aligned;
    var left := TailDown(mem, dst, src, length);
    RestDown(mem, dst, src, length, left, old(mem[..]));
  }

  lemma CopiedSlice(m0: seq<bv8>, m: seq<bv8>, dst: nat, src: nat, n: nat)
    requires Copied(m0, m, dst, src, 0, n)
    ensures m[dst..dst + n] == m0[src..src + n]
    ensures forall x :: 0 <= x < |m| && !(dst <= x < dst + n) ==> m[x] == m0[x]
  {
  }

  /// memcpy: for any overlap, alignment and length, the destination ends up equal to the source as it
  /// was, and nothing else changes.
  method Memcpy(mem: array<bv8>, dst: nat, src: nat, length: nat)
    requires dst + length <= mem.Length && src + length <= mem.Length
    modifies mem
    ensures mem[dst..dst + length] == old(mem[src..src + length])
    ensures forall x :: 0 <= x < mem.Length && !(dst <= x < dst + length) ==> mem[x] == old(mem[x])
  {
    if length == 0 || dst == src {
      return;
    }
    if dst < src {
      CopyUp(mem, dst, src, length);
    } else {
      CopyDown(mem, dst, src, length);
    }
    CopiedSlice(old(mem[..]), mem[..], dst, src, length);
    assert mem[dst..dst + length] == mem[..][dst..dst + length];
    assert old(mem[src..src + length]) == old(mem[..])[src..src + length];
  }

  // ---------------------------------------------------------------- memset

  /// A word store; the processor keeps the most significant byte first.
  method StoreWord(mem: array<bv8>, p: nat, w: bv32)
    requires p % WSIZE == 0 && p + WSIZE <= mem.Length
    modifies mem
    ensures forall x :: 0 <= x < mem.Length && !(p <= x < p + WSIZE) ==> mem[x] == old(mem[x])
    ensures mem[p] == ((w >> 24) & 0xFF) as bv8 && mem[p + 1] == ((w >> 16) & 0xFF) as bv8
    ensures mem[p + 2] == ((w >> 8) & 0xFF) as bv8 && mem[p + 3] == (w & 0xFF) as bv8
  {
    mem[p], mem[p + 1] := ((w >> 24) & 0xFF) as bv8, ((w >> 16) & 0xFF) as bv8;
    mem[p + 2], mem[p + 3] := ((w >> 8) & 0xFF) as bv8, (w & 0xFF) as bv8;
  }

  /// The word whose four bytes are all `c`.
  function Spread(c: bv8): (w: bv32)
    ensures ((w >> 24) & 0xFF) as bv8 == c && ((w >> 16) & 0xFF) as bv8 == c
    ensures ((w >> 8) & 0xFF) as bv8 == c && (w & 0xFF) as bv8 == c
  {
    var w := c as bv32;
    w | ((w << 8) | (w << 16) | (w << 24))
  }

  /// The word loop of memset.
  method FillWords(mem: array<bv8>, p: nat, t: nat, c: bv8)
    requires p % WSIZE == 0 && p + 4 * t <= mem.Length
    modifies mem
    ensures forall x :: 0 <= x < mem.Length ==> mem[x] == if p <= x < p + 4 * t then c else old(mem[x])
  {
    var w := Spread(c);
    var i := 0;
    while i < t
      invariant 0 <= i <= t
      invariant forall x :: 0 <= x < mem.Length ==> mem[x] == if p <= x < p + 4 * i then c else old(mem[x])
    {
      StoreWord(mem, p + 4 * i, w);
      i := i + 1;
    }
  }

  /// memset fills exactly its n bytes: overlapping stores at both ends, then whole words.
  method Memset(mem: array<bv8>, s: nat, c: bv8, n: nat)
    requires s + n <= mem.Length
    modifies mem
    ensures forall x :: 0 <= x < mem.Length ==> mem[x] == if s <= x < s + n then c else old(mem[x])
  {
    if n == 0 {
      return;
    }
    mem[s] := c;
    mem[s + n - 1] := c;
    if n <= 2 {
      return;
    }
    mem[s + 1] := c;
    mem[s + 2] := c;
    mem[s + n - 2] := c;
    mem[s + n - 3] := c;
    if n <= 6 {
      return;
    }
    mem[s + 3] := c;
    mem[s + n - 4] := c;
    if n <= 8 {
      return;
    }
    var k := (WSIZE - s % WSIZE) % WSIZE;
    FillWords(mem, s + k, (n - k) / WSIZE, c);
  }
}

/**
Bit fields of natural numbers, and the 32-bit word that a size_t keeps of them.
*/
module WordBits {

  const WORD_BITS: nat := 32

  /// `v << n`, without a limit on the width.
  function Shift(v: nat, n: nat): nat { if n == 0 then v else 2 * Shift(v, n - 1) }

  /// The number of slots of a node with `n` bits.
  function Pow2(n: nat): nat { Shift(1, n) }

  lemma {:induction false} ShiftAdd(u: nat, v: nat, n: nat)
    ensures Shift(u + v, n) == Shift(u, n) + Shift(v, n)
  {
    if n > 0 {
      ShiftAdd(u, v, n - 1);
    }
  }

  lemma {:induction false} ShiftShift(v: nat, m: nat, n: nat)
    ensures Shift(v, m + n) == Shift(Shift(v, m), n)
  {
    if n > 0 {
      ShiftShift(v, m, n - 1);
    }
  }

  lemma {:induction false} ShiftZero(n: nat)
    ensures Shift(0, n) == 0
  {
    if n > 0 {
      ShiftZero(n - 1);
    }
  }

  /// The low `n` bits of `a`, and what is left when they are shifted out.
  function Low(a: nat, n: nat): nat { if n == 0 then 0 else a % 2 + 2 * Low(a / 2, n - 1) }

  function High(a: nat, n: nat): nat { if n == 0 then a else High(a / 2, n - 1) }

  lemma {:induction false} LowBound(a: nat, n: nat)
    ensures Low(a, n) < Pow2(n)
  {
    if n > 0 {
      LowBound(a / 2, n - 1);
    }
  }

  /// Packing and taking apart again.
  lemma {:induction false} LowHighPack(i: nat, n: nat, v: nat)
    requires i < Pow2(n)
    ensures Low(i + Shift(v, n), n) == i && High(i + Shift(v, n), n) == v
  {
    if n > 0 {
      assert (i + Shift(v, n)) / 2 == i / 2 + Shift(v, n - 1);
      LowHighPack(i / 2, n - 1, v);
    }
  }

  lemma {:induction false} LowSplit(a: nat, b: nat, c: nat)
    ensures Low(a, b + c) == Low(a, b) + Shift(Low(High(a, b), c), b)
  {
    if b > 0 {
      LowSplit(a / 2, b - 1, c);
    }
  }

  lemma {:induction false} LowSmall(a: nat, n: nat)
    requires a < Pow2(n)
    ensures Low(a, n) == a
  {
    if n > 0 {
      LowSmall(a / 2, n - 1);
    }
  }

  /// `i` below 2^b and `v` below 2^d pack into b + d bits.
  lemma {:induction false} PackedBound(i: nat, b: nat, v: nat, d: nat)
    requires i < Pow2(b) && v < Pow2(d)
    ensures i + Shift(v, b) < Pow2(b + d)
  {
    if b > 0 {
      PackedBound(i / 2, b - 1, v, d);
    }
  }

  lemma {:induction false} LowHigh(a: nat, n: nat)
    ensures a == Low(a, n) + Shift(High(a, n), n)
  {
    if n > 0 {
      LowHigh(a / 2, n - 1);
    }
  }

  /// Cutting off high bits before an addition makes no difference.
  lemma LowAdd(x: nat, y: nat, n: nat)
    ensures Low(Low(x, n) + y, n) == Low(x + y, n)
  {
    var z := Low(x, n) + y;
    LowHigh(x, n);
    LowHigh(z, n);
    LowBound(z, n);
    ShiftAdd(High(z, n), High(x, n), n);
    LowHighPack(Low(z, n), n, High(z, n) + High(x, n));
  }

  // ---------------------------------------------------------------- the machine word

  /// What a size_t keeps of a number.
  function Word(a: nat): nat { Low(a, WORD_BITS) }

  predicate IsWord(a: nat) { a < Pow2(WORD_BITS) }

  /// Bitwise or.
  function Or(a: nat, b: nat): nat
    decreases a + b
  {
    if a == 0 then b else if b == 0 then a
    else (if a % 2 == 1 || b % 2 == 1 then 1 else 0) + 2 * Or(a / 2, b / 2)
  }

  /// Bit by bit: each is set in the result exactly if it is set in either.
  lemma {:induction false} OrBits(a: nat, b: nat, n: nat)
    ensures High(Or(a, b), n) % 2 == 1 <==> High(a, n) % 2 == 1 || High(b, n) % 2 == 1
    decreases n
  {
    if n > 0 {
      if a == 0 || b == 0 {
        NoBits(n);
      } else {
        OrBits(a / 2, b / 2, n - 1);
      }
    }
  }

  lemma {:induction false} NoBits(n: nat)
    ensures High(0, n) == 0
  {
    if n > 0 {
      NoBits(n - 1);
    }
  }

  /// Numbers that share no bits.
  lemma {:induction false} OrApart(v: nat, d: nat, a: nat)
    requires a < Pow2(d)
    ensures Or(Shift(v, d), a) == Shift(v, d) + a
  {
    if d > 0 && a > 0 && Shift(v, d) > 0 {
      OrApart(v, d - 1, a / 2);
    }
  }

  /// `(i << d) | a` on words: the exact sum, cut off at the word.
  lemma ShiftOr(i: nat, d: nat, a: nat)
    requires a < Pow2(d) && IsWord(a)
    ensures Or(Word(Shift(i, d)), a) == Word(Shift(i, d) + a)
    ensures IsWord(Word(Shift(i, d) + a)) && Word(Shift(i, d) + a) <= Shift(i, d) + a
  {
    hide Shift, Low, High;
    LowBound(Shift(i, d) + a, WORD_BITS);
    LowHigh(Shift(i, d) + a, WORD_BITS);
    if d >= WORD_BITS {
      var v := Shift(i, d - WORD_BITS);
      ShiftShift(i, d - WORD_BITS, WORD_BITS);
      LowHighPack(a, WORD_BITS, v);
      ShiftZero(WORD_BITS);
      LowHighPack(0, WORD_BITS, v);
    } else {
      var n := WORD_BITS - d;
      var low, high := Low(i, n), High(i, n);
      LowBound(i, n);
      LowHigh(i, n);
      ShiftAdd(low, Shift(high, n), d);
      ShiftShift(high, n, d);
      PackedBound(a, d, low, n);
      PackedBound(0, d, low, n);
      LowHighPack(a + Shift(low, d), WORD_BITS, high);
      LowHighPack(Shift(low, d), WORD_BITS, high);
      OrApart(low, d, a);
    }
  }

  lemma {:induction false} PowPositive(n: nat)
    ensures Pow2(n) > 0
  {
    if n > 0 {
      PowPositive(n - 1);
    }
  }

  lemma {:induction false} PowGrows(m: nat, n: nat)
    requires m <= n
    ensures Pow2(m) <= Pow2(n)
    decreases n
  {
    if m < n {
      PowGrows(m, n - 1);
    }
  }

  lemma OrWord(i: nat, d: nat, a: nat)
    requires IsWord(a)
    ensures IsWord(Or(Word(Shift(i, d)), a))
  {
    LowBound(Shift(i, d), WORD_BITS);
    OrBound(Word(Shift(i, d)), a, WORD_BITS);
  }

  lemma {:induction false} OrBound(a: nat, b: nat, n: nat)
    requires a < Pow2(n) && b < Pow2(n)
    ensures Or(a, b) < Pow2(n)
  {
    if n > 0 && a > 0 && b > 0 {
      OrBound(a / 2, b / 2, n - 1);
    }
  }

  lemma WordPeriodic(a: nat, d: nat, i: nat, k: nat)
    requires d <= WORD_BITS
    ensures Word(a + Shift(i + Shift(k, WORD_BITS - d), d)) == Word(a + Shift(i, d))
  {
    hide Shift, Low, High;
    var n := WORD_BITS - d;
    ShiftAdd(i, Shift(k, n), d);
    ShiftShift(k, n, d);
    var x := a + Shift(i, d);
    LowHigh(x, WORD_BITS);
    LowBound(x, WORD_BITS);
    ShiftAdd(High(x, WORD_BITS), k, WORD_BITS);
    LowHighPack(Low(x, WORD_BITS), WORD_BITS, High(x, WORD_BITS) + k);
  }

  lemma {:induction false} OrZero(a: nat)
    ensures Or(0, a) == a == Or(a, 0)
  {
  }

  /// The lowest bit, and the others.
  lemma {:induction false} OrHalves(a: nat, b: nat)
    ensures Or(a, b) % 2 == if a % 2 == 1 || b % 2 == 1 then 1 else 0
    ensures Or(a, b) / 2 == Or(a / 2, b / 2)
  {
    OrZero(a / 2);
    OrZero(b / 2);
  }

  lemma {:induction false} OrAssoc(a: nat, b: nat, c: nat)
    ensures Or(a, Or(b, c)) == Or(Or(a, b), c)
    decreases a + b + c
  {
    hide Or;
    OrZero(a);
    OrZero(b);
    OrZero(c);
    if a == 0 {
      OrZero(Or(b, c));
    } else if b > 0 && c > 0 {
      OrHalves(a, b);
      OrHalves(b, c);
      OrHalves(a, Or(b, c));
      OrHalves(Or(a, b), c);
      OrAssoc(a / 2, b / 2, c / 2);
      SameHalves(Or(a, Or(b, c)), Or(Or(a, b), c));
    } else if c == 0 {
      OrZero(Or(a, b));
    }
  }

  lemma SameHalves(x: nat, y: nat)
    requires x % 2 == y % 2 && x / 2 == y / 2
    ensures x == y
  {
  }

  /// Two indices, one above the other, or-ed onto an address one after the other or at once.
  lemma OrTwice(a: nat, d: nat, i: nat, b: nat, v: nat)
    requires i < Pow2(b)
    ensures Or(Word(Shift(v, d + b)), Or(Word(Shift(i, d)), a)) == Or(Word(Shift(i + Shift(v, b), d)), a)
  {
    hide Or, Low, Shift;
    var low := Word(Shift(i, d));
    OrAssoc(Word(Shift(v, d + b)), low, a);
    LowBound(Shift(i, d), WORD_BITS);
    ShiftZero(d);
    PowPositive(d);
    PackedBound(0, d, i, b);
    LowLess(Shift(i, d), WORD_BITS);
    ShiftOr(v, d + b, low);
    LowAdd(Shift(i, d), Shift(v, d + b), WORD_BITS);
    ShiftAdd(i, Shift(v, b), d);
    ShiftShift(v, b, d);
  }

  lemma {:induction false} LowLess(a: nat, n: nat)
    ensures Low(a, n) <= a
  {
    if n > 0 {
      LowLess(a / 2, n - 1);
    }
  }

  /// Fewer low bits of the low bits.
  lemma {:induction false} LowLow(a: nat, m: nat, n: nat)
    requires m <= n
    ensures Low(Low(a, n), m) == Low(a, m)
  {
    if m > 0 {
      LowLow(a / 2, m - 1, n - 1);
    }
  }
}

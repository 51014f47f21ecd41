/** Machine words as natural numbers, and the bit operations the kernel uses on them.
    `And` and `Or` work bit by bit, shifts one place at a time; what masks and shifts
    do to a number is proved, either bit by bit (`Bit`) or as arithmetic. */
module Bits {

  type u8 = x: int | 0 <= x < 0x100
  type u16 = x: int | 0 <= x < 0x1_0000
  type u32 = x: int | 0 <= x < 0x1_0000_0000
  type u64 = x: int | 0 <= x < 0x1_0000_0000_0000_0000

  const U64_SIZE: int := 0x1_0000_0000_0000_0000

  function Pow2(n: nat): (r: nat)
    ensures r > 0
  {
    if n == 0 then 1 else 2 * Pow2(n - 1)
  }

  /** Bit `i` of `x`. */
  predicate Bit(x: nat, i: nat) {
    if i == 0 then x % 2 == 1 else Bit(x / 2, i - 1)
  }

  /** x & y */
  function And(x: nat, y: nat): nat {
    if x == 0 || y == 0 then 0
    else 2 * And(x / 2, y / 2) + (if x % 2 == 1 && y % 2 == 1 then 1 else 0)
  }

  /** x | y */
  function Or(x: nat, y: nat): nat {
    if x == 0 then y
    else if y == 0 then x
    else 2 * Or(x / 2, y / 2) + (if x % 2 == 1 || y % 2 == 1 then 1 else 0)
  }

  /** !x in a word of `w` bits */
  function Not(w: nat, x: nat): nat
    requires x < Pow2(w)
  {
    Pow2(w) - 1 - x
  }

  /** x >> s */
  function Shr(x: nat, s: nat): nat {
    if s == 0 then x else Shr(x / 2, s - 1)
  }

  /** The lowest `k` bits of x. */
  function Low(x: nat, k: nat): nat {
    if k == 0 then 0 else 2 * Low(x / 2, k - 1) + x % 2
  }

  /** x with `s` zero bits appended. */
  function Up(x: nat, s: nat): nat {
    if s == 0 then x else 2 * Up(x, s - 1)
  }

  /** x << s in a word of `w` bits: the bits that leave the word are lost. */
  function Shl(w: nat, x: nat, s: nat): nat {
    Low(Up(x, s), w)
  }

  // ---- powers of two ----

  lemma {:induction false} Pow2Monotone(a: nat, b: nat)
    requires a <= b
    ensures Pow2(a) <= Pow2(b)
    ensures a < b ==> 2 * Pow2(a) <= Pow2(b)
    decreases b
  {
    if a == b {
    } else {
      Pow2Monotone(a, b - 1);
    }
  }

  lemma Pow2Values()
    ensures Pow2(1) == 2 && Pow2(2) == 4 && Pow2(5) == 32 && Pow2(6) == 64 && Pow2(8) == 256
    ensures Pow2(9) == 512 && Pow2(12) == 4096 && Pow2(32) == 0x1_0000_0000
    ensures Pow2(63) == 0x8000_0000_0000_0000 && Pow2(64) == U64_SIZE
  {
    Pow2Byte(0);
    Pow2Byte(8);
    Pow2Byte(16);
    Pow2Byte(24);
    Pow2Byte(32);
    Pow2Byte(40);
    Pow2Byte(48);
    Pow2Byte(56);
    assert Pow2(64) == 2 * Pow2(63);
  }

  lemma Pow2Byte(n: nat)
    ensures Pow2(n + 8) == 256 * Pow2(n)
  {
    assert Pow2(n + 4) == 16 * Pow2(n) by {
      assert Pow2(n + 2) == 4 * Pow2(n);
    }
    assert Pow2(n + 6) == 4 * Pow2(n + 4);
  }

  // ---- reading single bits ----

  lemma {:induction false} BitOfZero(i: nat)
    ensures !Bit(0, i)
  {
    if i == 0 {
    } else {
      BitOfZero(i - 1);
    }
  }

  lemma Halves(q: nat, r: nat)
    requires r < 2
    ensures (2 * q + r) / 2 == q && (2 * q + r) % 2 == r
  {
  }

  /** The lowest bit of a combined word, and the rest of it. */
  lemma AndHalves(x: nat, y: nat)
    ensures And(x, y) / 2 == And(x / 2, y / 2) && (And(x, y) % 2 == 1 <==> x % 2 == 1 && y % 2 == 1)
  {
    Halves(And(x / 2, y / 2), if x % 2 == 1 && y % 2 == 1 then 1 else 0);
  }

  lemma OrHalves(x: nat, y: nat)
    ensures Or(x, y) / 2 == Or(x / 2, y / 2) && (Or(x, y) % 2 == 1 <==> x % 2 == 1 || y % 2 == 1)
  {
    Halves(Or(x / 2, y / 2), if x % 2 == 1 || y % 2 == 1 then 1 else 0);
  }

  lemma LowHalves(x: nat, k: nat)
    requires k > 0
    ensures Low(x, k) / 2 == Low(x / 2, k - 1) && Low(x, k) % 2 == x % 2
  {
    Halves(Low(x / 2, k - 1), x % 2);
  }

  lemma {:induction false} BitOfAnd(x: nat, y: nat, i: nat)
    ensures Bit(And(x, y), i) <==> Bit(x, i) && Bit(y, i)
  {
    AndHalves(x, y);
    if i == 0 {
    } else {
      BitOfAnd(x / 2, y / 2, i - 1);
    }
  }

  lemma {:induction false} BitOfOr(x: nat, y: nat, i: nat)
    ensures Bit(Or(x, y), i) <==> Bit(x, i) || Bit(y, i)
  {
    OrHalves(x, y);
    if i == 0 {
    } else {
      BitOfOr(x / 2, y / 2, i - 1);
    }
  }

  lemma {:induction false} BitOfNot(w: nat, x: nat, i: nat)
    requires x < Pow2(w)
    ensures Bit(Not(w, x), i) <==> i < w && !Bit(x, i)
  {
    if w == 0 {
      BitOfZero(i);
    } else if i == 0 {
    } else {
      assert Not(w, x) / 2 == Not(w - 1, x / 2);
      BitOfNot(w - 1, x / 2, i - 1);
    }
  }

  lemma {:induction false} BitOfUp(x: nat, s: nat, i: nat)
    ensures Bit(Up(x, s), i) <==> i >= s && Bit(x, i - s)
  {
    if s == 0 || i == 0 {
    } else {
      BitOfUp(x, s - 1, i - 1);
    }
  }

  lemma {:induction false} BitOfShr(x: nat, s: nat, i: nat)
    ensures Bit(Shr(x, s), i) == Bit(x, i + s)
  {
    if s == 0 {
    } else {
      BitOfShr(x / 2, s - 1, i);
    }
  }

  lemma {:induction false} BitOfLow(x: nat, k: nat, i: nat)
    ensures Bit(Low(x, k), i) <==> i < k && Bit(x, i)
  {
    if k == 0 {
      BitOfZero(i);
    } else {
      LowHalves(x, k);
      if i == 0 {
      } else {
        BitOfLow(x / 2, k - 1, i - 1);
      }
    }
  }

  lemma BitOfShl(w: nat, x: nat, s: nat, i: nat)
    ensures Bit(Shl(w, x, s), i) <==> s <= i < w && Bit(x, i - s)
  {
    BitOfLow(Up(x, s), w, i);
    BitOfUp(x, s, i);
  }

  lemma BitOfMask(k: nat, i: nat)
    ensures Bit(Pow2(k) - 1, i) <==> i < k
  {
    assert Pow2(k) - 1 == Not(k, 0);
    BitOfNot(k, 0, i);
    BitOfZero(i);
  }

  /** Two words with the same bits are the same word. */
  lemma {:induction false} SameBits(w: nat, x: nat, y: nat)
    requires x < Pow2(w) && y < Pow2(w)
    requires forall i: nat | i < w :: Bit(x, i) == Bit(y, i)
    ensures x == y
  {
    if w == 0 {
    } else {
      forall i: nat | i < w - 1 ensures Bit(x / 2, i) == Bit(y / 2, i) {
        assert Bit(x, i + 1) == Bit(y, i + 1);
      }
      SameBits(w - 1, x / 2, y / 2);
      assert Bit(x, 0) == Bit(y, 0);
    }
  }

  /** A word of `w` bits has no bit set from `w` up. */
  lemma {:induction false} NoHighBits(w: nat, x: nat, i: nat)
    requires x < Pow2(w) && i >= w
    ensures !Bit(x, i)
  {
    if w == 0 {
      BitOfZero(i);
    } else {
      NoHighBits(w - 1, x / 2, i - 1);
    }
  }

  // ---- bounds ----

  lemma {:induction false} LowBounded(x: nat, k: nat)
    ensures Low(x, k) < Pow2(k) && Low(x, k) <= x
  {
    if k == 0 {
    } else {
      LowBounded(x / 2, k - 1);
    }
  }

  lemma {:induction false} LowOfSmall(x: nat, k: nat)
    requires x < Pow2(k)
    ensures Low(x, k) == x
  {
    if k == 0 {
    } else {
      LowOfSmall(x / 2, k - 1);
    }
  }

  lemma {:induction false} AndBounded(x: nat, y: nat)
    ensures And(x, y) <= x && And(x, y) <= y
  {
    if x == 0 || y == 0 {
    } else {
      AndBounded(x / 2, y / 2);
    }
  }

  lemma {:induction false} AndCommutes(x: nat, y: nat)
    ensures And(x, y) == And(y, x)
  {
    if x == 0 || y == 0 {
    } else {
      AndCommutes(x / 2, y / 2);
    }
  }

  lemma {:induction false} OrBounded(w: nat, x: nat, y: nat)
    requires x < Pow2(w) && y < Pow2(w)
    ensures Or(x, y) < Pow2(w)
  {
    if x == 0 || y == 0 || w == 0 {
    } else {
      OrBounded(w - 1, x / 2, y / 2);
    }
  }

  // ---- masks as arithmetic ----

  lemma {:induction false} AndLowMask(x: nat, k: nat)
    ensures And(x, Pow2(k) - 1) == Low(x, k)
  {
    if k == 0 {
    } else if x == 0 {
      LowBounded(0, k);
    } else {
      assert (Pow2(k) - 1) / 2 == Pow2(k - 1) - 1 && (Pow2(k) - 1) % 2 == 1;
      AndLowMask(x / 2, k - 1);
    }
  }

  lemma HalfOf(y: nat, d: nat)
    requires d == 2 * y
    ensures d / 2 == y && d % 2 == 0
  {
  }

  lemma AndDouble(x: nat, y: nat, d: nat)
    requires d == 2 * y
    ensures And(x, d) == 2 * And(x / 2, y)
  {
    HalfOf(y, d);
  }

  lemma LowDoubled(x: nat, k: nat)
    requires k > 0
    ensures x - Low(x, k) == 2 * (x / 2 - Low(x / 2, k - 1))
  {
    LowHalves(x, k);
  }

  lemma HighMaskDoubled(x: nat, half: nat, mask: nat, k: nat)
    requires k > 0 && mask == 2 * half && And(x / 2, half) == x / 2 - Low(x / 2, k - 1)
    ensures And(x, mask) == x - Low(x, k)
  {
    AndDouble(x, half, mask);
    LowDoubled(x, k);
  }

  lemma MaskHalves(w: nat, k: nat)
    requires 0 < k <= w
    ensures Pow2(k) - 1 < Pow2(w) && Pow2(k - 1) - 1 < Pow2(w - 1)
    ensures Not(w, Pow2(k) - 1) == 2 * Not(w - 1, Pow2(k - 1) - 1)
  {
    Pow2Monotone(k, w);
    Pow2Monotone(k - 1, w - 1);
  }

  lemma {:induction false} AndHighMask(w: nat, x: nat, k: nat)
    requires x < Pow2(w) && k <= w
    ensures Pow2(k) - 1 < Pow2(w) && And(x, Not(w, Pow2(k) - 1)) == x - Low(x, k)
  {
    if k == 0 {
      AndLowMask(x, w);
      LowOfSmall(x, w);
      assert Not(w, Pow2(k) - 1) == Pow2(w) - 1;
    } else {
      MaskHalves(w, k);
      var mask, half := Not(w, Pow2(k) - 1), Not(w - 1, Pow2(k - 1) - 1);
      AndHighMask(w - 1, x / 2, k - 1);
      HighMaskDoubled(x, half, mask, k);
    }
  }

  lemma {:induction false} OrDisjoint(a: nat, b: nat, k: nat)
    requires b < Pow2(k)
    ensures Or(Up(a, k), b) == Up(a, k) + b
  {
    if k == 0 {
    } else {
      OrDisjoint(a, b / 2, k - 1);
    }
  }

  /** Shifting and masking split a number as division by a power of two does. */
  lemma {:induction false} SplitAt(x: nat, k: nat)
    ensures x == Shr(x, k) * Pow2(k) + Low(x, k)
  {
    if k == 0 {
    } else {
      SplitAt(x / 2, k - 1);
      SplitDouble(x, Shr(x / 2, k - 1), Pow2(k - 1), Low(x / 2, k - 1));
    }
  }

  lemma SplitDouble(x: nat, s: nat, p: nat, l: nat)
    requires x / 2 == s * p + l
    ensures x == s * (2 * p) + (2 * l + x % 2)
  {
    MulAssoc(s, 2, p);
  }

  lemma MulAssoc(a: int, b: int, c: int)
    ensures a * (b * c) == (a * b) * c
  {
  }

  lemma DivModUnique(x: int, d: int, q: int, r: int)
    requires 0 <= r < d && x == q * d + r
    ensures x / d == q && x % d == r
  {
    var k := x / d - q;
    assert k * d == r - x % d by {
      assert x == x / d * d + x % d;
      assert (x / d - q) * d == x / d * d - q * d;
    }
    assert k >= 1 ==> k * d >= d;
    assert k <= -1 ==> k * d <= -d;
  }

  lemma DivMod(x: nat, k: nat)
    ensures Shr(x, k) == x / Pow2(k) && Low(x, k) == x % Pow2(k)
  {
    SplitAt(x, k);
    LowBounded(x, k);
    DivModUnique(x, Pow2(k), Shr(x, k), Low(x, k));
  }

  lemma {:induction false} UpByMultiplying(x: nat, s: nat)
    ensures Up(x, s) == x * Pow2(s)
  {
    if s == 0 {
    } else {
      UpByMultiplying(x, s - 1);
      MulAssoc(x, 2, Pow2(s - 1));
    }
  }

  lemma {:induction false} ShrTwice(x: nat, a: nat, b: nat)
    ensures Shr(x, a + b) == Shr(Shr(x, a), b)
  {
    if a == 0 {
    } else {
      ShrTwice(x / 2, a - 1, b);
    }
  }
}

/** Rounding a request up to a power of two, and the sizes Rust layouts can have. */
module Rounding {
  import opened Bits
  import opened Results

  /** Digits of v in base 2. */
  function BitLength(v: nat): nat {
    if v == 0 then 0 else 1 + BitLength(v / 2)
  }

  function LeadingZeros(v: u64): int {
    64 - BitLength(v)
  }

  function WrappingSubOne(v: u64): u64 {
    if v == 0 then U64_SIZE - 1 else v - 1
  }

  /** 1usize.checked_shl(n) */
  function CheckedShlOne(n: int): Option<nat> {
    if 0 <= n < 64 then Some(Pow2(n)) else None
  }

  function RoundUpToNearestPow2(v: u64): Option<nat> {
    CheckedShlOne(64 - LeadingZeros(WrappingSubOne(v)))
  }

  ghost predicate IsPow2(x: int) {
    exists k: nat :: Pow2(k) == x
  }

  lemma {:induction false} BitLengthBounds(v: nat)
    ensures v < Pow2(BitLength(v))
    ensures v > 0 ==> BitLength(v) > 0 && Pow2(BitLength(v) - 1) <= v
  {
    if v == 0 {
    } else {
      BitLengthBounds(v / 2);
    }
  }

  lemma NoSmallerPower(w: nat, n: nat, k: nat)
    requires n == BitLength(w) && w < Pow2(k)
    ensures Pow2(n) <= Pow2(k)
  {
    BitLengthBounds(w);
    if k < n {
      assert w > 0 && Pow2(n - 1) <= w;
      Pow2Monotone(k, n - 1);
    } else {
      Pow2Monotone(n, k);
    }
  }

  /** The least power of two that is not below v, for 1 <= v <= 2^63; otherwise nothing. */
  lemma RoundUpIsLeast(v: u64)
    ensures RoundUpToNearestPow2(v).Some? <==> 1 <= v <= 0x8000_0000_0000_0000
    ensures RoundUpToNearestPow2(v).Some? ==>
              && v <= RoundUpToNearestPow2(v).value <= 0x8000_0000_0000_0000
              && IsPow2(RoundUpToNearestPow2(v).value)
              && (forall k: nat | v <= Pow2(k) :: RoundUpToNearestPow2(v).value <= Pow2(k))
  {
    Pow2Values();
    var w := WrappingSubOne(v);
    var n := BitLength(w);
    BitLengthBounds(w);
    if n >= 64 {
      Pow2Monotone(63, n - 1);
    } else {
      Pow2Monotone(n, 63);
      if v >= 1 {
        forall k: nat | v <= Pow2(k) ensures Pow2(n) <= Pow2(k) {
          NoSmallerPower(w, n, k);
        }
      }
    }
  }

  // ---- alignment ----

  /** x & !(align - 1) */
  function RoundDown(x: nat, align: nat): (r: nat)
    requires align > 0
    ensures r <= x < r + align
  {
    x - x % align
  }

  /** For a power of two, clearing the low bits rounds down to a multiple. */
  lemma RoundDownIsMask(x: u64, k: nat)
    requires k <= 63
    ensures Pow2(64) == U64_SIZE && Pow2(k) - 1 < Pow2(64)
    ensures RoundDown(x, Pow2(k)) == And(x, Not(64, Pow2(k) - 1))
  {
    Pow2Values();
    AndHighMask(64, x, k);
    DivMod(x, k);
  }

  ghost predicate Divides(d: int, x: int) {
    exists q: int :: x == q * d
  }

  lemma RoundDownDivides(x: nat, align: nat)
    requires align > 0
    ensures Divides(align, RoundDown(x, align))
  {
    assert RoundDown(x, align) == x / align * align;
  }

  /** A power of two from 32 up is a multiple of 32. */
  lemma {:induction false} Pow2Above32(k: nat)
    requires Pow2(k) >= 32
    ensures Pow2(k) % 32 == 0
  {
    if Pow2(k) > 32 {
      Pow2Values();
      if k <= 5 {
        Pow2Monotone(k, 5);
      }
      Pow2Monotone(5, k - 1);
      Pow2Above32(k - 1);
    }
  }

  /** A multiple of a multiple of 32. */
  lemma DivisibleBy32(d: int, x: int)
    requires d % 32 == 0 && Divides(d, x)
    ensures x % 32 == 0
  {
    var q :| x == q * d;
    MulAssoc(q, d / 32, 32);
    DivModUnique(q * d, 32, q * (d / 32), 0);
  }

  lemma SumsOf32(a: int, b: int)
    requires a % 32 == 0 && b % 32 == 0
    ensures (a + b) % 32 == 0 && (a - b) % 32 == 0
  {
  }

  // ---- Rust layouts ----

  /** What `Layout::from_size_align` accepts: a power of two, and a size that stays
      within `isize` when rounded up to it. */
  datatype Layout = Layout(size: u64, align: u64) {
    ghost predicate Valid() {
      IsPow2(align) && size <= 0x8000_0000_0000_0000 - align
    }
  }
}

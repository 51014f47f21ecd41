/** Bit fields inside a word: `write_bits`, `read_bits` and `extract_bits`. */
module BitFields {
  import opened Bits

  /** (1 << width) - 1 */
  function Mask(word: nat, width: nat): (m: nat)
    requires width < word
    ensures m == Pow2(width) - 1
  {
    Pow2Monotone(width, word);
    UpByMultiplying(1, width);
    LowOfSmall(Up(1, width), word);
    Shl(word, 1, width) - 1
  }

  /** A field inside the word, and not all of it. */
  predicate IsField(word: nat, shift: nat, width: nat) {
    shift < word && width < word && shift + width <= word
  }

  /** The check of `write_bits`: mask & value == value. */
  predicate Fits(word: nat, width: nat, value: nat)
    requires width < word
  {
    And(Mask(word, width), value) == value
  }

  /** The word after `write_bits`: (value << shift) | (x & !(mask << shift)). */
  function WithField(word: nat, x: nat, shift: nat, width: nat, value: nat): nat
    requires IsField(word, shift, width)
  {
    LowBounded(Up(Mask(word, width), shift), word);
    Or(Shl(word, value, shift), And(x, Not(word, Shl(word, Mask(word, width), shift))))
  }

  /** (x >> shift) & mask */
  function FieldOf(word: nat, x: nat, shift: nat, width: nat): nat
    requires IsField(word, shift, width)
  {
    And(Shr(x, shift), Mask(word, width))
  }

  // ---- bit by bit ----

  lemma FitsIsBound(word: nat, width: nat, value: nat)
    requires width < word
    ensures Fits(word, width, value) <==> value < Pow2(width)
  {
    AndCommutes(Mask(word, width), value);
    AndLowMask(value, width);
    LowBounded(value, width);
    if value < Pow2(width) {
      LowOfSmall(value, width);
    }
  }

  lemma BitOfField(word: nat, x: nat, shift: nat, width: nat, i: nat)
    requires IsField(word, shift, width)
    ensures Bit(FieldOf(word, x, shift, width), i) <==> i < width && Bit(x, shift + i)
  {
    BitOfAnd(Shr(x, shift), Mask(word, width), i);
    BitOfShr(x, shift, i);
    BitOfMask(width, i);
  }

  /** Inside the field the word has the bits of the value, outside it has its old bits. */
  lemma BitOfWithField(word: nat, x: nat, shift: nat, width: nat, value: nat, i: nat)
    requires IsField(word, shift, width) && value < Pow2(width) && x < Pow2(word)
    ensures Bit(WithField(word, x, shift, width, value), i) <==>
            if shift <= i < shift + width then Bit(value, i - shift) else Bit(x, i)
  {
    var m := Shl(word, Mask(word, width), shift);
    LowBounded(Up(Mask(word, width), shift), word);
    BitOfOr(Shl(word, value, shift), And(x, Not(word, m)), i);
    BitOfAnd(x, Not(word, m), i);
    BitOfNot(word, m, i);
    BitOfShl(word, Mask(word, width), shift, i);
    BitOfShl(word, value, shift, i);
    if i >= shift {
      BitOfMask(width, i - shift);
      if i >= shift + width {
        NoHighBits(width, value, i - shift);
      }
    }
    if i >= word {
      NoHighBits(word, x, i);
    }
  }

  lemma WithFieldBounded(word: nat, x: nat, shift: nat, width: nat, value: nat)
    requires IsField(word, shift, width) && x < Pow2(word)
    ensures WithField(word, x, shift, width, value) < Pow2(word)
  {
    var m := Shl(word, Mask(word, width), shift);
    LowBounded(Up(Mask(word, width), shift), word);
    LowBounded(Up(value, shift), word);
    AndBounded(x, Not(word, m));
    OrBounded(word, Shl(word, value, shift), And(x, Not(word, m)));
  }

  lemma FieldBounded(word: nat, x: nat, shift: nat, width: nat)
    requires IsField(word, shift, width)
    ensures FieldOf(word, x, shift, width) < Pow2(width)
  {
    AndBounded(Shr(x, shift), Mask(word, width));
  }

  // ---- the laws of a field ----

  /** What was written is read back. */
  lemma ReadAfterWrite(word: nat, x: nat, shift: nat, width: nat, value: nat)
    requires IsField(word, shift, width) && value < Pow2(width) && x < Pow2(word)
    ensures FieldOf(word, WithField(word, x, shift, width, value), shift, width) == value
  {
    var y := WithField(word, x, shift, width, value);
    FieldBounded(word, y, shift, width);
    forall i: nat | i < width ensures Bit(FieldOf(word, y, shift, width), i) == Bit(value, i) {
      BitOfField(word, y, shift, width, i);
      BitOfWithField(word, x, shift, width, value, shift + i);
    }
    SameBits(width, FieldOf(word, y, shift, width), value);
  }

  /** A field that shares no bit with the one written keeps its value. */
  lemma OtherFieldKept(word: nat, x: nat, shift: nat, width: nat, value: nat, shift': nat, width': nat)
    requires IsField(word, shift, width) && value < Pow2(width) && x < Pow2(word)
    requires IsField(word, shift', width') && (shift + width <= shift' || shift' + width' <= shift)
    ensures FieldOf(word, WithField(word, x, shift, width, value), shift', width') == FieldOf(word, x, shift', width')
  {
    var y := WithField(word, x, shift, width, value);
    FieldBounded(word, y, shift', width');
    FieldBounded(word, x, shift', width');
    forall i: nat | i < width' ensures Bit(FieldOf(word, y, shift', width'), i) == Bit(FieldOf(word, x, shift', width'), i) {
      BitOfField(word, y, shift', width', i);
      BitOfField(word, x, shift', width', i);
      BitOfWithField(word, x, shift, width, value, shift' + i);
    }
    SameBits(width', FieldOf(word, y, shift', width'), FieldOf(word, x, shift', width'));
  }

  /** Writing back what was read changes nothing. */
  lemma WriteWhatWasRead(word: nat, x: nat, shift: nat, width: nat)
    requires IsField(word, shift, width) && x < Pow2(word)
    ensures WithField(word, x, shift, width, FieldOf(word, x, shift, width)) == x
  {
    var v := FieldOf(word, x, shift, width);
    FieldBounded(word, x, shift, width);
    WithFieldBounded(word, x, shift, width, v);
    forall i: nat | i < word ensures Bit(WithField(word, x, shift, width, v), i) == Bit(x, i) {
      BitOfWithField(word, x, shift, width, v, i);
      if i >= shift {
        BitOfField(word, x, shift, width, i - shift);
      }
    }
    SameBits(word, WithField(word, x, shift, width, v), x);
  }

  /** Only the last write counts. */
  lemma LastWriteWins(word: nat, x: nat, shift: nat, width: nat, value: nat, value': nat)
    requires IsField(word, shift, width) && value < Pow2(width) && value' < Pow2(width) && x < Pow2(word)
    ensures WithField(word, WithField(word, x, shift, width, value), shift, width, value')
            == WithField(word, x, shift, width, value')
  {
    var y := WithField(word, x, shift, width, value);
    WithFieldBounded(word, x, shift, width, value);
    WithFieldBounded(word, x, shift, width, value');
    WithFieldBounded(word, y, shift, width, value');
    forall i: nat | i < word
      ensures Bit(WithField(word, y, shift, width, value'), i) == Bit(WithField(word, x, shift, width, value'), i)
    {
      BitOfWithField(word, y, shift, width, value', i);
      BitOfWithField(word, x, shift, width, value', i);
      BitOfWithField(word, x, shift, width, value, i);
    }
    SameBits(word, WithField(word, y, shift, width, value'), WithField(word, x, shift, width, value'));
  }

  // ---- extract_bits ----

  /** checked_shr by the shift cast to 32 bits, with 0 for shifts of the whole word or more. */
  function CheckedShr(x: u64, shift: nat): nat {
    var cast := shift % 0x1_0000_0000;
    if cast < 64 then Shr(x, cast) else 0
  }

  function ExtractBits(x: u64, shift: nat, width: nat): nat {
    And(CheckedShr(x, shift), Pow2(if width < 63 then width else 63) - 1)
  }

  /** For a field inside the word, `extract_bits` is `read_bits`. */
  lemma ExtractIsField(x: u64, shift: nat, width: nat)
    requires IsField(64, shift, width)
    ensures ExtractBits(x, shift, width) == FieldOf(64, x, shift, width)
  {
  }

  /** Shifted by a word or more, and by less than 2^32, nothing is left; a shift of 2^32 is none. */
  lemma ExtractBeyondWord(x: u64, shift: nat, width: nat)
    ensures 64 <= shift < 0x1_0000_0000 ==> ExtractBits(x, shift, width) == 0
    ensures ExtractBits(x, 0x1_0000_0000, width) == ExtractBits(x, 0, width)
  {
  }

  /** Asked for 64 bits or more, it returns the shifted word if and only if that is below
      2^63: the mask is one bit short. */
  lemma ExtractOfWholeWord(x: u64, shift: nat, width: nat)
    requires width >= 64
    ensures ExtractBits(x, shift, width) == CheckedShr(x, shift) <==> CheckedShr(x, shift) < 0x8000_0000_0000_0000
  {
    Pow2Values();
    var y := CheckedShr(x, shift);
    AndLowMask(y, 63);
    LowBounded(y, 63);
    if y < Pow2(63) {
      LowOfSmall(y, 63);
    }
  }

  lemma ExtractLosesTopBit()
    ensures ExtractBits(0x8000_0000_0000_0000, 0, 64) == 0
  {
    Pow2Values();
    AndLowMask(Pow2(63), 63);
    DivMod(Pow2(63), 63);
  }
}

/** A register or memory word accessed through `read` and `write`. */
module VolatileWord {
  import opened Bits
  import opened Results
  import opened BitFields

  class Volatile {
    /** Bits in the word, and the word. */
    const word: nat
    var value: nat

    ghost predicate Valid()
      reads this
    {
      value < Pow2(word)
    }

    constructor (word: nat)
      ensures Valid() && this.word == word && value == 0
    {
      this.word := word;
      value := 0;
    }

    method WriteBits(shift: nat, width: nat, bits: nat) returns (r: Result<()>)
      requires Valid() && IsField(word, shift, width)
      modifies this
      ensures Valid()
      ensures r == if bits < Pow2(width) then Ok(()) else Err("Value out of range")
      ensures r.Ok? ==> value == WithField(word, old(value), shift, width, bits)
      ensures r.Err? ==> value == old(value)
    {
      FitsIsBound(word, width, bits);
      if !Fits(word, width, bits) {
        return Err("Value out of range");
      }
      WithFieldBounded(word, value, shift, width, bits);
      value := WithField(word, value, shift, width, bits);
      return Ok(());
    }

    method ReadBits(shift: nat, width: nat) returns (bits: nat)
      requires Valid() && IsField(word, shift, width)
      ensures bits == FieldOf(word, value, shift, width) && bits < Pow2(width)
    {
      FieldBounded(word, value, shift, width);
      bits := FieldOf(word, value, shift, width);
    }
  }
}

/** Transfer request blocks: the 16-byte entries of every xHCI ring
    (xHCI specification, section 6.4). */
module Trbs {
  import opened Bits
  import opened BitFields

  const LINK: nat := 6
  const TRANSFER_EVENT: nat := 32
  const COMMAND_COMPLETION_EVENT: nat := 33

  /** `cycle` is bit 0 of the control word and `body` the bits above it. */
  datatype Trb = Trb(data: u64, option: u32, body: nat, cycle: bool) {
    predicate Ok() {
      body < 0x8000_0000
    }

    function Control(): nat {
      2 * body + (if cycle then 1 else 0)
    }

    /** Bits 10 to 15 of the control word. */
    function TrbType(): nat {
      body / 512 % 64
    }

    /** Bit 1 of the control word, of a link. */
    predicate ToggleCycle() {
      body % 2 == 1
    }

    /** Bit 5 of the control word: the controller reports completion with an event. */
    predicate InterruptOnCompletion() {
      body / 16 % 2 == 1
    }

    /** Bits 24 to 31 of the control word, of an event. */
    function SlotId(): nat {
      body / 0x80_0000 % 256
    }

    predicate IsLink() {
      TrbType() == LINK
    }
  }

  /** A zeroed slot. */
  const ZERO: Trb := Trb(0, 0, 0, false)

  function LinkTo(base: u64): Trb {
    Trb(base, 0, LINK * 512 + 1, false)
  }

  /** A link is known by type 6 in bits 10 to 15, and turns the cycle bit by bit 1 (xHCI
      specification, section 6.4.4.1). */
  lemma LinkBits(t: Trb)
    ensures t.IsLink() <==> t.Control() / 0x400 % 64 == 6
    ensures t.ToggleCycle() <==> t.Control() / 2 % 2 == 1
    ensures t.cycle <==> t.Control() % 2 == 1
  {
    assert t.Control() / 0x400 == t.body / 512 && t.Control() / 2 == t.body;
  }

  /** The link `trb_link` builds: a type, a toggle bit, and the address of the ring. */
  lemma LinkEntry(base: u64)
    ensures LinkTo(base).data == base && LinkTo(base).option == 0
    ensures LinkTo(base).Control() == 6 * 0x400 + 2
    ensures LinkTo(base).IsLink() && LinkTo(base).ToggleCycle()
  {
    LinkBits(LinkTo(base));
  }

  /** A field above bit 0 of the control word is a field of the body. */
  lemma BodyField(t: Trb, shift: nat, width: nat)
    requires t.Ok() && shift >= 1 && IsField(32, shift, width)
    ensures FieldOf(32, t.Control(), shift, width) == t.body / Pow2(shift - 1) % Pow2(width)
  {
    assert t.Control() / 2 == t.body;
    assert Shr(t.Control(), shift) == Shr(t.body, shift - 1);
    DivMod(t.body, shift - 1);
    AndLowMask(Shr(t.body, shift - 1), width);
    DivMod(Shr(t.body, shift - 1), width);
  }

  lemma CycleField(t: Trb)
    requires t.Ok()
    ensures t.Control() < Pow2(32)
    ensures FieldOf(32, t.Control(), 0, 1) == if t.cycle then 1 else 0
  {
    Pow2Values();
    AndLowMask(t.Control(), 1);
    DivMod(t.Control(), 1);
  }

  lemma FlagFields(t: Trb)
    requires t.Ok()
    ensures t.ToggleCycle() <==> FieldOf(32, t.Control(), 1, 1) != 0
    ensures t.InterruptOnCompletion() <==> FieldOf(32, t.Control(), 5, 1) != 0
  {
    PowersUsed();
    BodyField(t, 1, 1);
    BodyField(t, 5, 1);
  }

  lemma NumberFields(t: Trb)
    requires t.Ok()
    ensures t.TrbType() == FieldOf(32, t.Control(), 10, 6)
    ensures t.SlotId() == FieldOf(32, t.Control(), 24, 8)
  {
    PowersUsed();
    BodyField(t, 10, 6);
    BodyField(t, 24, 8);
  }

  /** The accessors above are `read_bits` and `write_bits` on the control word. */
  lemma TrbBits(t: Trb, c: bool)
    requires t.Ok()
    ensures t.Control() < Pow2(32)
    ensures t.cycle <==> FieldOf(32, t.Control(), 0, 1) != 0
    ensures t.ToggleCycle() <==> FieldOf(32, t.Control(), 1, 1) != 0
    ensures t.InterruptOnCompletion() <==> FieldOf(32, t.Control(), 5, 1) != 0
    ensures t.TrbType() == FieldOf(32, t.Control(), 10, 6)
    ensures t.SlotId() == FieldOf(32, t.Control(), 24, 8)
    ensures t.(cycle := c).Control() == WithField(32, t.Control(), 0, 1, if c then 1 else 0)
  {
    CycleField(t);
    FlagFields(t);
    NumberFields(t);
    CycleBitWritten(t, c);
  }

  lemma PowersUsed()
    ensures Pow2(0) == 1 && Pow2(1) == 2 && Pow2(4) == 16 && Pow2(6) == 64 && Pow2(8) == 256
    ensures Pow2(9) == 512 && Pow2(23) == 0x80_0000
  {
    Pow2Values();
    assert Pow2(4) == 4 * Pow2(2);
    Pow2Byte(7);
    Pow2Byte(15);
    assert Pow2(8) == 2 * Pow2(7);
  }

  lemma BitOfDouble(b: nat, low: nat, i: nat)
    requires low < 2
    ensures Bit(2 * b + low, i) <==> if i == 0 then low == 1 else Bit(b, i - 1)
  {
  }

  /** `x` and `y` differ in bit 0 only, and `w` is `x` with bit 0 of `v`. */
  lemma LowestBitSet(body: nat, low: nat, v: nat, x: nat, y: nat, w: nat, i: nat)
    requires low < 2 && v < 2 && x == 2 * body + low && y == 2 * body + v
    requires Bit(w, i) <==> if i < 1 then Bit(v, i) else Bit(x, i)
    ensures Bit(y, i) == Bit(w, i)
  {
    if i > 0 {
      BitOfDouble(body, low, i);
      BitOfDouble(body, v, i);
    }
  }

  lemma CycleBitWritten(t: Trb, c: bool)
    requires t.Ok()
    ensures t.(cycle := c).Control() == WithField(32, t.Control(), 0, 1, if c then 1 else 0)
  {
    Pow2Values();
    var x, y, v := t.Control(), t.(cycle := c).Control(), if c then 1 else 0;
    var w := WithField(32, x, 0, 1, v);
    WithFieldBounded(32, x, 0, 1, v);
    forall i: nat | i < 32 ensures Bit(y, i) == Bit(w, i) {
      BitOfWithField(32, x, 0, 1, v, i);
      LowestBitSet(t.body, if t.cycle then 1 else 0, v, x, y, w, i);
    }
    SameBits(32, y, w);
  }
}

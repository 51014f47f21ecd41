/** A ring as the bytes the controller reads: entries of 16 bytes, one behind the other
    (xHCI specification, section 4.11.1), and what a push writes at the address it returns. */
module RingMemory {
  import opened Bits
  import opened Trbs
  import opened RingProtocol

  /** The n lowest bytes of x, the lowest first. */
  function LittleEndian(x: nat, n: nat): (b: seq<u8>)
    ensures |b| == n
  {
    if n == 0 then [] else [x % 256] + LittleEndian(x / 256, n - 1)
  }

  /** Eight bytes of data, four of options or status, four of control. */
  function EntryBytes(t: Trb): (b: seq<u8>)
    ensures |b| == 16
  {
    LittleEndian(t.data, 8) + LittleEndian(t.option, 4) + LittleEndian(t.Control(), 4)
  }

  function RingBytes(slots: seq<Trb>): (b: seq<u8>)
    ensures |b| == 16 * |slots|
  {
    if slots == [] then [] else EntryBytes(slots[0]) + RingBytes(slots[1..])
  }

  lemma {:induction false} NumberOfBytes(x: nat, y: nat, n: nat)
    requires x < Pow2(8 * n) && y < Pow2(8 * n) && LittleEndian(x, n) == LittleEndian(y, n)
    ensures x == y
  {
    if n == 0 {
    } else {
      Pow2Byte(8 * (n - 1));
      assert LittleEndian(x, n)[1..] == LittleEndian(x / 256, n - 1);
      assert LittleEndian(y, n)[1..] == LittleEndian(y / 256, n - 1);
      NumberOfBytes(x / 256, y / 256, n - 1);
      assert LittleEndian(x, n)[0] == LittleEndian(y, n)[0];
    }
  }

  /** The bytes say which entry it is. */
  lemma EntryOfBytes(t: Trb, u: Trb)
    requires t.Ok() && u.Ok() && EntryBytes(t) == EntryBytes(u)
    ensures t == u
  {
    Pow2Values();
    assert EntryBytes(t)[..8] == LittleEndian(t.data, 8) && EntryBytes(u)[..8] == LittleEndian(u.data, 8);
    assert EntryBytes(t)[8..12] == LittleEndian(t.option, 4) && EntryBytes(u)[8..12] == LittleEndian(u.option, 4);
    assert EntryBytes(t)[12..] == LittleEndian(t.Control(), 4) && EntryBytes(u)[12..] == LittleEndian(u.Control(), 4);
    NumberOfBytes(t.data, u.data, 8);
    NumberOfBytes(t.option, u.option, 4);
    NumberOfBytes(t.Control(), u.Control(), 4);
  }

  /** Entry k takes the bytes from 16 * k to 16 * k + 15. */
  lemma {:induction false} BytesOfSlot(slots: seq<Trb>, k: nat)
    requires k < |slots|
    ensures RingBytes(slots)[16 * k..16 * k + 16] == EntryBytes(slots[k])
  {
    if k == 0 {
    } else {
      BytesOfSlot(slots[1..], k - 1);
      assert RingBytes(slots)[16..] == RingBytes(slots[1..]);
      assert RingBytes(slots)[16 * k..16 * k + 16] == RingBytes(slots)[16..][16 * (k - 1)..16 * (k - 1) + 16];
    }
  }

  /** Slots that agree on an entry agree on its bytes. */
  lemma SameByte(slots: seq<Trb>, slots': seq<Trb>, a: nat)
    requires |slots| == |slots'| && a < 16 * |slots| && slots[a / 16] == slots'[a / 16]
    ensures RingBytes(slots)[a] == RingBytes(slots')[a]
  {
    var k := a / 16;
    BytesOfSlot(slots, k);
    BytesOfSlot(slots', k);
    assert RingBytes(slots)[16 * k..16 * k + 16][a - 16 * k] == RingBytes(slots)[a];
    assert RingBytes(slots')[16 * k..16 * k + 16][a - 16 * k] == RingBytes(slots')[a];
  }

  /** A push writes its entry into the 16 bytes from the address it returns on, below the link,
      which takes the last 16 of the ring's 256 bytes; no other byte before the link changes. */
  lemma PushedBytes(r: Ring, src: Trb)
    requires WellFormed(r) && !src.IsLink()
    ensures |RingBytes(r.slots)| == |RingBytes(Push(r, src).ring.slots)| == 256
    ensures Push(r, src).result.Ok? && r.base <= Push(r, src).result.value <= r.base + 224
    ensures var at, after := Push(r, src).result.value - r.base, RingBytes(Push(r, src).ring.slots);
            && after[at..at + 16] == EntryBytes(src.(cycle := !r.ours))
            && forall a | 0 <= a < 240 && !(at <= a < at + 16) :: after[a] == RingBytes(r.slots)[a]
  {
    PushFills(r, src);
    var slots, at := Push(r, src).ring.slots, 16 * r.index;
    BytesOfSlot(slots, r.index);
    forall a | 0 <= a < 240 && !(at <= a < at + 16) ensures RingBytes(slots)[a] == RingBytes(r.slots)[a] {
      SameByte(r.slots, slots, a);
    }
  }
}

/** The heap as a list of blocks: what the first-fit allocator does to it, and what every
    operation keeps, without the memory the headers are stored in. */
module Blocks {
  import opened Bits
  import opened Results
  import opened Rounding

  const HEADER_SIZE: nat := 32

  /** A header and the bytes after it, up to the next header. */
  datatype Block = Block(addr: nat, size: nat, taken: bool) {
    function End(): nat {
      addr + size
    }

    predicate Ok() {
      addr > 0 && addr % 32 == 0 && size % 32 == 0 && size >= HEADER_SIZE
    }

    /** `w` is in the bytes after the header. */
    predicate InPayload(w: nat) {
      addr + HEADER_SIZE <= w < End()
    }
  }

  /** A stretch of memory handed to the allocator. */
  datatype Region = Region(start: nat, size: nat) {
    function End(): nat {
      start + size
    }

    predicate Ok() {
      start > 0 && start % 32 == 0 && size % 32 == 0 && size > 0
    }
  }

  // ---- one block ----

  /** The size a request takes: a power of two, at least the size of a header. */
  function NeedSize(size: u64): Option<nat> {
    match RoundUpToNearestPow2(size)
    case None => None
    case Some(p) => Some(if p >= HEADER_SIZE then p else HEADER_SIZE)
  }

  function NeedAlign(align: u64): nat {
    if align >= HEADER_SIZE then align else HEADER_SIZE
  }

  predicate CanProvide(b: Block, size: nat, align: nat) {
    b.size >= size + HEADER_SIZE * 2 + align
  }

  predicate Serves(b: Block, layout: Layout) {
    && NeedSize(layout.size).Some? && !b.taken
    && CanProvide(b, NeedSize(layout.size).value, NeedAlign(layout.align))
  }

  lemma NeedAlignIsAligned(layout: Layout) returns (k: nat)
    requires layout.Valid()
    ensures Pow2(k) == layout.align && NeedAlign(layout.align) % 32 == 0 && IsPow2(NeedAlign(layout.align))
  {
    Pow2Values();
    k :| Pow2(k) == layout.align;
    if layout.align >= 32 {
      Pow2Above32(k);
    } else {
      assert Pow2(5) == NeedAlign(layout.align);
    }
  }

  lemma NeedSizeIsAligned(size: u64)
    requires 0 < size <= 0x8000_0000_0000_0000
    ensures RoundUpToNearestPow2(size).Some? && NeedSize(size).Some?
    ensures var s := NeedSize(size).value; s % 32 == 0 && s >= size && s >= HEADER_SIZE
  {
    RoundUpIsLeast(size);
    var p := RoundUpToNearestPow2(size).value;
    var j :| Pow2(j) == p;
    if p >= 32 {
      Pow2Above32(j);
    }
  }

  /** The sizes first-fit compares: multiples of 32 that satisfy the request, and whose sum
      with two headers fits in a machine word. */
  lemma NeedsAreAligned(layout: Layout)
    requires layout.Valid()
    ensures NeedSize(layout.size).Some? <==> layout.size > 0
    ensures NeedAlign(layout.align) % 32 == 0 && IsPow2(NeedAlign(layout.align))
    ensures NeedSize(layout.size).Some? ==>
              var s := NeedSize(layout.size).value;
              && s % 32 == 0 && s >= layout.size && s >= HEADER_SIZE
              && s + HEADER_SIZE * 2 + NeedAlign(layout.align) < U64_SIZE
  {
    var k := NeedAlignIsAligned(layout);
    if layout.size == 0 {
      RoundUpIsLeast(0);
    } else {
      NeedSizeIsAligned(layout.size);
      SumStaysInWord(layout, k);
    }
  }

  lemma SumStaysInWord(layout: Layout, k: nat)
    requires layout.Valid() && layout.size > 0 && Pow2(k) == layout.align
    ensures NeedSize(layout.size).Some?
    ensures NeedSize(layout.size).value + HEADER_SIZE * 2 + NeedAlign(layout.align) < U64_SIZE
  {
    Pow2Values();
    RoundUpIsLeast(layout.size);
    if k >= 63 {
      Pow2Monotone(63, k);
    } else {
      Pow2Monotone(k, 62);
      assert Pow2(63) == 2 * Pow2(62);
    }
  }

  /** Where the caller's bytes start when a block of `size` bytes is cut from the high end of b. */
  function AllocatedAddr(b: Block, size: nat, align: nat): (p: nat)
    requires align > 0 && CanProvide(b, size, align)
    ensures b.addr + 2 * HEADER_SIZE <= p && p + size <= b.End()
  {
    RoundDown(b.End() - size, align)
  }

  /** The blocks that replace b when the caller's bytes start at `p`: what remains of it, the
      block handed out, and the padding that alignment left behind it, if any. */
  function CutAround(b: Block, size: nat, p: nat): seq<Block>
    requires b.addr + HEADER_SIZE <= p && p + size <= b.End()
  {
    var rest := Block(b.addr, p - HEADER_SIZE - b.addr, false);
    var mine := Block(p - HEADER_SIZE, size + HEADER_SIZE, true);
    if mine.End() == b.End() then [rest, mine]
    else [rest, mine, Block(mine.End(), b.End() - mine.End(), false)]
  }

  function Split(b: Block, size: nat, align: nat): seq<Block>
    requires align > 0 && CanProvide(b, size, align)
  {
    CutAround(b, size, AllocatedAddr(b, size, align))
  }

  /** The new block lies inside the old one, with room for its own header and for the old
      block's: the assertion in `provide` cannot fail. */
  lemma RoomForHeaders(b: Block, size: nat, align: nat)
    requires b.Ok() && align >= 32 && align % 32 == 0 && CanProvide(b, size, align)
    ensures var p := AllocatedAddr(b, size, align);
            && Divides(align, p) && p % 32 == 0
            && b.addr + 2 * HEADER_SIZE <= p && p + size <= b.End()
  {
    var p := AllocatedAddr(b, size, align);
    RoundDownDivides(b.End() - size, align);
    DivisibleBy32(align, p);
  }

  /** The pieces are whole blocks, laid end to end over the old one. */
  ghost predicate Pieces(b: Block, size: nat, p: nat, pieces: seq<Block>) {
    && 2 <= |pieces| <= 3
    && pieces[0].Ok() && pieces[0].addr == b.addr && !pieces[0].taken
    && pieces[1].Ok() && pieces[1] == Block(pieces[0].End(), size + HEADER_SIZE, true)
    && pieces[1].addr + HEADER_SIZE == p
    && (|pieces| == 2 ==> pieces[1].End() == b.End())
    && (|pieces| == 3 ==> pieces[2].Ok() && pieces[2].addr == pieces[1].End()
                          && pieces[2].End() == b.End() && !pieces[2].taken)
  }

  lemma CutTilesBlock(b: Block, size: nat, p: nat)
    requires b.Ok() && size % 32 == 0 && p % 32 == 0
    requires b.addr + 2 * HEADER_SIZE <= p && p + size <= b.End()
    ensures Pieces(b, size, p, CutAround(b, size, p))
  {
    SumsOf32(p, HEADER_SIZE);
    SumsOf32(p - HEADER_SIZE, b.addr);
    SumsOf32(size, HEADER_SIZE);
    SumsOf32(p, size);
    SumsOf32(b.addr, b.size);
    SumsOf32(b.End(), p + size);
  }

  lemma SplitTilesBlock(b: Block, size: nat, align: nat)
    requires b.Ok() && align >= 32 && align % 32 == 0 && size % 32 == 0 && CanProvide(b, size, align)
    ensures Pieces(b, size, AllocatedAddr(b, size, align), Split(b, size, align))
  {
    RoomForHeaders(b, size, align);
    CutTilesBlock(b, size, AllocatedAddr(b, size, align));
  }

  // ---- the list ----

  datatype Allocation = Allocation(blocks: seq<Block>, ptr: nat)

  /** First fit: split the first block that serves, or hand out nothing (a null pointer). */
  function Allocate(blocks: seq<Block>, layout: Layout): Allocation
    requires layout.align > 0
  {
    if blocks == [] then Allocation([], 0)
    else if Serves(blocks[0], layout) then
      var size, align := NeedSize(layout.size).value, NeedAlign(layout.align);
      Allocation(Split(blocks[0], size, align) + blocks[1..], AllocatedAddr(blocks[0], size, align))
    else
      var r := Allocate(blocks[1..], layout);
      Allocation([blocks[0]] + r.blocks, r.ptr)
  }

  /** The index of the first block that serves, or the number of blocks. */
  function FirstFit(blocks: seq<Block>, layout: Layout): (i: nat)
    ensures i <= |blocks|
    ensures i < |blocks| ==> Serves(blocks[i], layout)
    ensures forall k | 0 <= k < i :: !Serves(blocks[k], layout)
  {
    if blocks == [] || Serves(blocks[0], layout) then 0 else 1 + FirstFit(blocks[1..], layout)
  }

  /** The block handed out by a successful allocation. */
  ghost predicate HandedOut(blocks: seq<Block>, ptr: nat, size: nat) {
    exists b :: b in blocks && b.taken && b.addr + HEADER_SIZE == ptr && ptr + size <= b.End()
  }

  /** What first fit makes of the blocks when the one at index i is the first that serves. */
  ghost predicate SplitsFirst(blocks: seq<Block>, layout: Layout, i: nat, r: Allocation)
    requires layout.align > 0 && i <= |blocks| && (i < |blocks| ==> Serves(blocks[i], layout))
  {
    if i == |blocks| then r == Allocation(blocks, 0)
    else
      var size, align := NeedSize(layout.size).value, NeedAlign(layout.align);
      && r.blocks == blocks[..i] + Split(blocks[i], size, align) + blocks[i + 1..]
      && r.ptr == AllocatedAddr(blocks[i], size, align)
  }

  lemma SplitsFirstBehind(b: Block, tail: seq<Block>, layout: Layout, i: nat, r: Allocation)
    requires layout.align > 0 && i <= |tail| && (i < |tail| ==> Serves(tail[i], layout)) && SplitsFirst(tail, layout, i, r)
    ensures SplitsFirst([b] + tail, layout, i + 1, Allocation([b] + r.blocks, r.ptr))
  {
    if i < |tail| {
      var size, align := NeedSize(layout.size).value, NeedAlign(layout.align);
      var pieces := Split(tail[i], size, align);
      assert ([b] + tail)[..i + 1] == [b] + tail[..i];
      assert ([b] + tail)[i + 2..] == tail[i + 1..];
      assert [b] + (tail[..i] + pieces + tail[i + 1..]) == ([b] + tail[..i]) + pieces + tail[i + 1..];
    }
  }

  /** Allocation fails exactly when no block serves; otherwise the first one that does is split
      and the others are untouched. */
  lemma {:induction false} AllocateIsFirstFit(blocks: seq<Block>, layout: Layout)
    requires layout.Valid() && layout.align > 0 && (forall b | b in blocks :: b.Ok())
    ensures var i, r := FirstFit(blocks, layout), Allocate(blocks, layout);
            SplitsFirst(blocks, layout, i, r) && (r.ptr == 0 <==> i == |blocks|)
  {
    if blocks == [] {
    } else if Serves(blocks[0], layout) {
      var size, align := NeedSize(layout.size).value, NeedAlign(layout.align);
      NeedsAreAligned(layout);
      RoomForHeaders(blocks[0], size, align);
      assert blocks[..0] + Split(blocks[0], size, align) + blocks[1..] == Split(blocks[0], size, align) + blocks[1..];
    } else {
      AllocateIsFirstFit(blocks[1..], layout);
      SplitsFirstBehind(blocks[0], blocks[1..], layout, FirstFit(blocks[1..], layout), Allocate(blocks[1..], layout));
      assert [blocks[0]] + blocks[1..] == blocks;
    }
  }

  lemma SmallPowers(k: nat)
    requires Pow2(k) < 32
    ensures Pow2(k) == 1 || Pow2(k) == 2 || Pow2(k) == 4 || Pow2(k) == 8 || Pow2(k) == 16
  {
    Pow2Values();
    if k >= 5 {
      Pow2Monotone(5, k);
    }
    assert k == 0 || k == 1 || k == 2 || k == 3 || k == 4;
    assert Pow2(3) == 8 && Pow2(4) == 16;
  }

  lemma SmallDivides32(a: nat, q: int)
    requires a == 1 || a == 2 || a == 4 || a == 8 || a == 16
    ensures q * 32 % a == 0
  {
  }

  /** What is aligned for the allocator is aligned for the caller. */
  lemma AlignedAsAsked(layout: Layout, p: nat)
    requires layout.Valid() && layout.align > 0 && Divides(NeedAlign(layout.align), p)
    ensures p % layout.align == 0
  {
    var q :| p == q * NeedAlign(layout.align);
    if layout.align >= 32 {
      DivModUnique(p, layout.align, q, 0);
    } else {
      var k :| Pow2(k) == layout.align;
      SmallPowers(k);
      SmallDivides32(layout.align, q);
    }
  }

  /** A successful allocation is aligned as asked and holds at least the bytes asked for. */
  lemma AllocationServesRequest(blocks: seq<Block>, layout: Layout)
    requires layout.Valid() && layout.align > 0 && (forall b | b in blocks :: b.Ok())
    requires Allocate(blocks, layout).ptr != 0
    ensures Allocate(blocks, layout).ptr % layout.align == 0
    ensures Divides(NeedAlign(layout.align), Allocate(blocks, layout).ptr)
    ensures HandedOut(Allocate(blocks, layout).blocks, Allocate(blocks, layout).ptr, layout.size)
  {
    AllocateIsFirstFit(blocks, layout);
    NeedsAreAligned(layout);
    var i, r := FirstFit(blocks, layout), Allocate(blocks, layout);
    var size, align := NeedSize(layout.size).value, NeedAlign(layout.align);
    RoomForHeaders(blocks[i], size, align);
    AlignedAsAsked(layout, r.ptr);
    SplitTilesBlock(blocks[i], size, align);
    var mine := Split(blocks[i], size, align)[1];
    assert mine == r.blocks[i + 1];
    assert mine in r.blocks;
  }

  // ---- the same in the caller's numbers ----

  /** The least power of two that is not below the bytes asked for, nor below 32. */
  ghost predicate IsNeeded(bytes: nat, s: nat) {
    && IsPow2(s) && bytes <= s && 32 <= s
    && (forall k: nat | bytes <= Pow2(k) && 32 <= Pow2(k) :: s <= Pow2(k))
  }

  lemma LeastBelowDouble(bytes: nat, p: nat, k: nat)
    requires bytes > 0 && p == Pow2(k) && forall j: nat | bytes <= Pow2(j) :: p <= Pow2(j)
    ensures p <= 2 * bytes
  {
    if k > 0 {
      assert Pow2(k - 1) < bytes;
    }
  }

  lemma NeedSizeIsNeeded(bytes: u64)
    requires 0 < bytes <= 0x8000_0000_0000_0000
    ensures NeedSize(bytes).Some? && IsNeeded(bytes, NeedSize(bytes).value)
    ensures NeedSize(bytes).value <= 2 * bytes + 32
  {
    RoundUpIsLeast(bytes);
    var p := RoundUpToNearestPow2(bytes).value;
    var k: nat :| Pow2(k) == p;
    LeastBelowDouble(bytes, p, k);
    assert Pow2(5) == 32 by {
      Pow2Values();
    }
  }

  lemma NeededIsUnique(bytes: nat, s: nat, s': nat)
    requires IsNeeded(bytes, s) && IsNeeded(bytes, s')
    ensures s == s'
  {
    var k :| Pow2(k) == s;
    var k' :| Pow2(k') == s';
  }

  lemma ServesByNumbers(b: Block, layout: Layout, s: nat)
    requires layout.Valid() && layout.size > 0 && IsNeeded(layout.size, s)
    ensures Serves(b, layout) <==> !b.taken && b.size >= s + 64 + layout.align && b.size >= s + 96
    ensures NeedSize(layout.size) == Some(s)
  {
    NeedSizeIsNeeded(layout.size);
    NeededIsUnique(layout.size, s, NeedSize(layout.size).value);
  }

  /** A free block with room for the request, its headers and its alignment. */
  predicate HasRoom(b: Block, s: nat, align: nat) {
    !b.taken && b.size >= s + 64 + align && b.size >= s + 96
  }

  /** No pointer is given exactly when no free block has room. */
  lemma NullExactlyWithoutRoom(blocks: seq<Block>, layout: Layout, s: nat)
    requires layout.Valid() && layout.align > 0 && (forall b | b in blocks :: b.Ok())
    requires layout.size > 0 && IsNeeded(layout.size, s)
    ensures Allocate(blocks, layout).ptr == 0 <==> forall b | b in blocks :: !HasRoom(b, s, layout.align)
  {
    AllocateIsFirstFit(blocks, layout);
    forall b | b in blocks ensures Serves(b, layout) <==> HasRoom(b, s, layout.align) {
      ServesByNumbers(b, layout, s);
    }
    var i := FirstFit(blocks, layout);
    if i < |blocks| {
      assert blocks[i] in blocks;
    }
  }

  /** A bound in bytes that suffices: twice the size, the alignment and 128 bytes. */
  lemma RoomSuffices(blocks: seq<Block>, layout: Layout, b: Block)
    requires layout.Valid() && layout.align > 0 && (forall b | b in blocks :: b.Ok())
    requires layout.size > 0 && b in blocks && !b.taken && b.size >= 2 * layout.size + layout.align + 128
    ensures Allocate(blocks, layout).ptr != 0
  {
    NeedSizeIsNeeded(layout.size);
    NullExactlyWithoutRoom(blocks, layout, NeedSize(layout.size).value);
  }

  /** A request for no bytes is refused. */
  lemma NothingForNoBytes(blocks: seq<Block>, layout: Layout)
    requires layout.Valid() && layout.align > 0 && layout.size == 0 && (forall b | b in blocks :: b.Ok())
    ensures Allocate(blocks, layout) == Allocation(blocks, 0)
  {
    RoundUpIsLeast(0);
    AllocateIsFirstFit(blocks, layout);
  }

  /** The s bytes at p are the highest aligned place in the free block b. */
  ghost predicate HighestPlace(b: Block, s: nat, align: nat, p: nat)
    requires align > 0
  {
    && !b.taken && p % align == 0 && p % 32 == 0 && b.addr + 64 <= p && p + s <= b.addr + b.size
    && (b.addr + b.size < p + s + align || b.addr + b.size < p + s + 32)
  }

  /** The block at index i is the first with room, and the bytes at p come from its high end. */
  ghost predicate Placed(before: seq<Block>, after: seq<Block>, s: nat, align: nat, p: nat, i: nat)
    requires align > 0 && i < |before|
  {
    && HighestPlace(before[i], s, align, p) && Block(p - 32, s + 32, true) in after
    && (forall k | 0 <= k < i :: !HasRoom(before[k], s, align))
  }

  lemma PlacedHighest(blocks: seq<Block>, layout: Layout, s: nat) returns (i: nat)
    requires layout.Valid() && layout.align > 0 && (forall b | b in blocks :: b.Ok())
    requires layout.size > 0 && IsNeeded(layout.size, s) && Allocate(blocks, layout).ptr != 0
    ensures i < |blocks|
    ensures Placed(blocks, Allocate(blocks, layout).blocks, s, layout.align, Allocate(blocks, layout).ptr, i)
  {
    AllocateIsFirstFit(blocks, layout);
    i := FirstFit(blocks, layout);
    forall k | 0 <= k < |blocks| ensures Serves(blocks[k], layout) <==> HasRoom(blocks[k], s, layout.align) {
      ServesByNumbers(blocks[k], layout, s);
    }
    ServesByNumbers(blocks[i], layout, s);
    NeedsAreAligned(layout);
    var r, align := Allocate(blocks, layout), NeedAlign(layout.align);
    RoomForHeaders(blocks[i], s, align);
    AlignedAsAsked(layout, r.ptr);
    SplitTilesBlock(blocks[i], s, align);
    assert Split(blocks[i], s, align)[1] == r.blocks[i + 1];
  }

  /** What an allocation does, in numbers: nothing for want of room, or a block at the highest
      place of the first free block with room for it. */
  ghost predicate Answers(before: seq<Block>, after: seq<Block>, layout: Layout, ptr: nat)
    requires layout.align > 0
  {
    if layout.size == 0 then ptr == 0 && after == before
    else exists s: nat | IsNeeded(layout.size, s) ::
      if ptr == 0 then after == before && forall b | b in before :: !HasRoom(b, s, layout.align)
      else exists i: nat | i < |before| :: Placed(before, after, s, layout.align, ptr, i)
  }

  lemma AllocateAnswers(blocks: seq<Block>, layout: Layout)
    requires layout.Valid() && layout.align > 0 && (forall b | b in blocks :: b.Ok())
    ensures Answers(blocks, Allocate(blocks, layout).blocks, layout, Allocate(blocks, layout).ptr)
  {
    if layout.size == 0 {
      NothingForNoBytes(blocks, layout);
    } else {
      NeedSizeIsNeeded(layout.size);
      var s := NeedSize(layout.size).value;
      if Allocate(blocks, layout).ptr == 0 {
        NullExactlyWithoutRoom(blocks, layout, s);
        AllocateIsFirstFit(blocks, layout);
      } else {
        var i := PlacedHighest(blocks, layout, s);
      }
    }
  }
}

/** The allocator over raw memory: headers are words of the memory that is handed out. */
module Allocator {
  import opened Bits
  import opened Results
  import opened Rounding
  import opened Blocks
  import opened Heap
  import opened HeapRuns

  /** Memory in words of 8 bytes, by address. */
  type Memory = map<nat, u64>

  function Word(mem: Memory, a: nat): u64 {
    if a in mem then mem[a] else 0
  }

  /** A header as its words: the next header (0 for none), the block size and the flag; a
      fourth word is reserved. */
  datatype Header = Header(next: u64, size: u64, flag: u64)

  function ReadHeader(mem: Memory, a: nat): Header {
    Header(Word(mem, a), Word(mem, a + 8), Word(mem, a + 16))
  }

  function WriteHeader(mem: Memory, a: nat, h: Header): Memory {
    mem[a := h.next][a + 8 := h.size][a + 16 := h.flag]
  }

  // ---- the list as it lies in memory ----

  ghost predicate HeaderOf(mem: Memory, b: Block) {
    ReadHeader(mem, b.addr).size == b.size && ReadHeader(mem, b.addr).flag == (if b.taken then 1 else 0)
  }

  /** Walking from `p` meets exactly the headers of `bs`, in order. */
  ghost predicate Chain(mem: Memory, p: nat, bs: seq<Block>)
    decreases |bs|
  {
    bs != [] ==>
      && p == bs[0].addr && p > 0 && HeaderOf(mem, bs[0])
      && Chain(mem, ReadHeader(mem, p).next, bs[1..])
  }

  /** Where that walk ends. */
  ghost function EndOfChain(mem: Memory, p: nat, bs: seq<Block>): nat
    decreases |bs|
  {
    if bs == [] then p else EndOfChain(mem, ReadHeader(mem, p).next, bs[1..])
  }

  /** Outside [lo, hi) nothing was written. */
  ghost predicate SameOutside(before: Memory, after: Memory, lo: nat, hi: nat) {
    forall a: nat | a < lo || hi <= a :: Word(after, a) == Word(before, a)
  }

  lemma {:induction false} ChainConcat(mem: Memory, p: nat, xs: seq<Block>, ys: seq<Block>)
    ensures Chain(mem, p, xs + ys) <==> Chain(mem, p, xs) && Chain(mem, EndOfChain(mem, p, xs), ys)
    ensures EndOfChain(mem, p, xs + ys) == EndOfChain(mem, EndOfChain(mem, p, xs), ys)
    decreases |xs|
  {
    if xs == [] {
      assert xs + ys == ys;
    } else {
      assert (xs + ys)[1..] == xs[1..] + ys;
      ChainConcat(mem, ReadHeader(mem, p).next, xs[1..], ys);
    }
  }

  /** Writing in [lo, hi) moves no header outside it. */
  lemma {:induction false} ChainFrame(before: Memory, after: Memory, lo: nat, hi: nat, p: nat, bs: seq<Block>)
    requires Chain(before, p, bs) && SameOutside(before, after, lo, hi)
    requires forall b | b in bs :: b.addr + HEADER_SIZE <= lo || hi <= b.addr
    ensures Chain(after, p, bs) && EndOfChain(after, p, bs) == EndOfChain(before, p, bs)
    decreases |bs|
  {
    if bs == [] {
    } else {
      assert bs[0] in bs;
      ChainFrame(before, after, lo, hi, ReadHeader(before, p).next, bs[1..]);
    }
  }

  /** The headers of the pieces, as `provide` leaves them. */
  ghost predicate PiecesAt(mem: Memory, pieces: seq<Block>, next: nat) {
    && pieces != [] && Chain(mem, pieces[0].addr, pieces) && EndOfChain(mem, pieces[0].addr, pieces) == next
  }

  lemma ChainCons(mem: Memory, x: Block, bs: seq<Block>, next: nat)
    requires x.addr > 0 && HeaderOf(mem, x)
    requires bs == [] ==> ReadHeader(mem, x.addr).next == next
    requires bs != [] ==> PiecesAt(mem, bs, next) && ReadHeader(mem, x.addr).next == bs[0].addr
    ensures PiecesAt(mem, [x] + bs, next)
  {
    assert ([x] + bs)[1..] == bs;
  }

  /** Three headers linked to each other, or two. */
  lemma LinkedPieces(mem: Memory, pieces: seq<Block>, next: nat)
    requires 2 <= |pieces| <= 3 && (forall b | b in pieces :: b.addr > 0 && HeaderOf(mem, b))
    requires ReadHeader(mem, pieces[0].addr).next == pieces[1].addr
    requires ReadHeader(mem, pieces[1].addr).next == if |pieces| == 2 then next else pieces[2].addr
    requires |pieces| == 3 ==> ReadHeader(mem, pieces[2].addr).next == next
    ensures PiecesAt(mem, pieces, next)
  {
    ChainCons(mem, pieces[|pieces| - 1], [], next);
    if |pieces| == 3 {
      ChainCons(mem, pieces[1], [pieces[2]], next);
    }
    ChainCons(mem, pieces[0], pieces[1..], next);
    assert pieces == [pieces[0]] + pieces[1..];
    assert pieces[1..] == if |pieces| == 2 then [pieces[1]] + [] else [pieces[1]] + [pieces[2]];
  }

  /** The list after the block at its `i`-th place was cut into pieces. */
  lemma ChainSpliced(before: Memory, after: Memory, p: nat, bs: seq<Block>, i: nat, pieces: seq<Block>)
    requires i < |bs| && Chain(before, p, bs) && EndOfChain(before, p, bs) == 0
    requires SameOutside(before, after, bs[i].addr, bs[i].End())
    requires forall k | 0 <= k < |bs| && k != i :: bs[k].addr + HEADER_SIZE <= bs[i].addr || bs[i].End() <= bs[k].addr
    requires PiecesAt(after, pieces, ReadHeader(before, bs[i].addr).next) && pieces[0].addr == bs[i].addr
    ensures Chain(after, p, bs[..i] + pieces + bs[i + 1..])
    ensures EndOfChain(after, p, bs[..i] + pieces + bs[i + 1..]) == 0
  {
    var pre, b, post := bs[..i], bs[i], bs[i + 1..];
    assert bs == pre + ([b] + post);
    ChainConcat(before, p, pre, [b] + post);
    assert ([b] + post)[1..] == post;
    SplicedAround(before, after, p, pre, b, post, pieces);
  }

  lemma SplicedAround(before: Memory, after: Memory, p: nat, pre: seq<Block>, b: Block, post: seq<Block>, pieces: seq<Block>)
    requires Chain(before, p, pre) && EndOfChain(before, p, pre) == b.addr
    requires Chain(before, ReadHeader(before, b.addr).next, post)
    requires EndOfChain(before, ReadHeader(before, b.addr).next, post) == 0
    requires SameOutside(before, after, b.addr, b.End())
    requires forall x | x in pre || x in post :: x.addr + HEADER_SIZE <= b.addr || b.End() <= x.addr
    requires PiecesAt(after, pieces, ReadHeader(before, b.addr).next) && pieces[0].addr == b.addr
    ensures Chain(after, p, pre + pieces + post) && EndOfChain(after, p, pre + pieces + post) == 0
  {
    ChainFrame(before, after, b.addr, b.End(), p, pre);
    ChainFrame(before, after, b.addr, b.End(), ReadHeader(before, b.addr).next, post);
    ChainConcat(after, p, pre, pieces);
    ChainConcat(after, p, pre + pieces, post);
  }

  /** Other blocks' headers, and words in use, lie outside a block of the list. */
  lemma OthersOutside(s: State, i: nat)
    requires Inv(s) && i < |s.blocks|
    ensures s.blocks[i].Ok() && s.blocks[i].End() < U64_SIZE
    ensures forall k | 0 <= k < |s.blocks| && k != i ::
              s.blocks[k].Ok() && (s.blocks[k].End() <= s.blocks[i].addr || s.blocks[i].End() <= s.blocks[k].addr)
  {
    var r := TilesInside(s.blocks, s.regions, s.blocks[i]);
    forall k | 0 <= k < |s.blocks| && k != i
      ensures s.blocks[k].Ok() && (s.blocks[k].End() <= s.blocks[i].addr || s.blocks[i].End() <= s.blocks[k].addr)
    {
      var r' := TilesInside(s.blocks, s.regions, s.blocks[k]);
      if i < k {
        BlocksApart(s.blocks, s.regions, i, k);
      } else {
        BlocksApart(s.blocks, s.regions, k, i);
      }
    }
  }

  /** What the caller gets. */
  lemma AnsweredFor(s: State, layout: Layout)
    requires Inv(s) && layout.Valid() && layout.align > 0
    ensures var r := Allocate(s.blocks, layout);
            && Answers(s.blocks, r.blocks, layout, r.ptr)
            && (r.ptr != 0 ==> r.ptr % layout.align == 0 && HandedOut(r.blocks, r.ptr, layout.size))
  {
    forall b | b in s.blocks ensures b.Ok() {
      var r := TilesInside(s.blocks, s.regions, b);
    }
    AllocateAnswers(s.blocks, layout);
    if Allocate(s.blocks, layout).ptr != 0 {
      AllocationServesRequest(s.blocks, layout);
    }
  }

  /** Only the block handed out at `ptr` becomes free. */
  ghost predicate Freed(before: seq<Block>, after: seq<Block>, ptr: nat) {
    && |after| == |before|
    && (forall k | 0 <= k < |before| ::
          after[k] == if before[k].addr + 32 == ptr then Block(before[k].addr, before[k].size, false) else before[k])
  }

  lemma ReleaseFrees(bs: seq<Block>, ptr: nat)
    ensures Freed(bs, Release(bs, ptr), ptr)
  {
    ReleaseLength(bs, ptr);
    forall k | 0 <= k < |bs|
      ensures Release(bs, ptr)[k] == if bs[k].addr + 32 == ptr then Block(bs[k].addr, bs[k].size, false) else bs[k]
    {
      ReleaseAt(bs, ptr, k);
    }
  }

  lemma LiveOutside(s: State, i: nat, w: nat)
    requires Inv(s) && i < |s.blocks| && !s.blocks[i].taken && InLive(s.blocks, w)
    ensures w < s.blocks[i].addr || s.blocks[i].End() <= w
  {
    OthersOutside(s, i);
    var b :| b in s.blocks && b.taken && b.InPayload(w);
    var k :| 0 <= k < |s.blocks| && s.blocks[k] == b;
  }

  lemma FirstFitOf(s: State, layout: Layout)
    requires Inv(s) && layout.Valid() && layout.align > 0
    ensures var i, r := FirstFit(s.blocks, layout), Allocate(s.blocks, layout);
            && (r.ptr == 0 <==> i == |s.blocks|) && (r.ptr == 0 ==> r.blocks == s.blocks)
            && (r.ptr != 0 ==>
                  var size, align := NeedSize(layout.size).value, NeedAlign(layout.align);
                  && r.blocks == s.blocks[..i] + Split(s.blocks[i], size, align) + s.blocks[i + 1..]
                  && r.ptr == AllocatedAddr(s.blocks[i], size, align))
  {
    forall b | b in s.blocks ensures b.Ok() {
      var r := TilesInside(s.blocks, s.regions, b);
    }
    AllocateIsFirstFit(s.blocks, layout);
  }

  /** The first block that serves was cut in memory: the list is the one of the allocation, and
      no live word changed. */
  lemma ProvidedFrom(s: State, layout: Layout, i: nat, before: Memory, after: Memory, p: nat)
    requires Inv(s) && layout.Valid() && layout.align > 0 && i < |s.blocks|
    requires Serves(s.blocks[i], layout) && forall k | 0 <= k < i :: !Serves(s.blocks[k], layout)
    requires Chain(before, p, s.blocks) && EndOfChain(before, p, s.blocks) == 0
    requires SameOutside(before, after, s.blocks[i].addr, s.blocks[i].End())
    requires PiecesAt(after, Split(s.blocks[i], NeedSize(layout.size).value, NeedAlign(layout.align)),
                      ReadHeader(before, s.blocks[i].addr).next)
    ensures Chain(after, p, Allocate(s.blocks, layout).blocks)
    ensures EndOfChain(after, p, Allocate(s.blocks, layout).blocks) == 0
    ensures forall w | InLive(s.blocks, w) :: Word(after, w) == Word(before, w)
  {
    FirstFitOf(s, layout);
    assert FirstFit(s.blocks, layout) == i;
    OthersOutside(s, i);
    ChainSpliced(before, after, p, s.blocks, i, Split(s.blocks[i], NeedSize(layout.size).value, NeedAlign(layout.align)));
    forall w | InLive(s.blocks, w) ensures Word(after, w) == Word(before, w) {
      LiveOutside(s, i, w);
    }
  }

  /** Clearing one flag releases that block and no other. */
  lemma {:induction false} ChainReleased(before: Memory, after: Memory, p: nat, bs: seq<Block>, h: nat)
    requires Chain(before, p, bs)
    requires forall b | b in bs ::
               if b.addr == h then ReadHeader(after, h) == ReadHeader(before, h).(flag := 0)
               else ReadHeader(after, b.addr) == ReadHeader(before, b.addr)
    ensures Chain(after, p, Release(bs, h + HEADER_SIZE))
    ensures EndOfChain(after, p, Release(bs, h + HEADER_SIZE)) == EndOfChain(before, p, bs)
    decreases |bs|
  {
    if bs == [] {
    } else {
      assert bs[0] in bs;
      ChainReleased(before, after, ReadHeader(before, p).next, bs[1..], h);
      assert Release(bs, h + HEADER_SIZE)[1..] == Release(bs[1..], h + HEADER_SIZE);
    }
  }

  lemma {:induction false} ChainKept(before: Memory, after: Memory, p: nat, bs: seq<Block>)
    requires Chain(before, p, bs)
    requires forall b | b in bs :: ReadHeader(after, b.addr) == ReadHeader(before, b.addr)
    ensures Chain(after, p, bs) && EndOfChain(after, p, bs) == EndOfChain(before, p, bs)
    decreases |bs|
  {
    if bs == [] {
    } else {
      assert bs[0] in bs;
      ChainKept(before, after, ReadHeader(before, p).next, bs[1..]);
    }
  }

  /** No word in use is a word of a header. */
  lemma HeadersNotLive(s: State, b: Block, w: nat)
    requires Inv(s) && b in s.blocks && InLive(s.blocks, w)
    ensures w < b.addr || b.addr + HEADER_SIZE <= w
  {
    var i :| 0 <= i < |s.blocks| && s.blocks[i] == b;
    OthersOutside(s, i);
    var c :| c in s.blocks && c.taken && c.InPayload(w);
    var k :| 0 <= k < |s.blocks| && s.blocks[k] == c;
  }

  /** The memory, with its list of headers from `first` on, means this state. */
  ghost predicate Means(mem: Memory, first: nat, s: State) {
    && Inv(s)
    && Chain(mem, first, s.blocks) && EndOfChain(mem, first, s.blocks) == 0
    && (forall w | w in s.written :: Word(mem, w) == s.written[w])
  }

  /** The flag in the header of `b` is cleared, and nothing else is written. */
  lemma FlagCleared(before: Memory, after: Memory, first: nat, s: State, b: Block)
    requires Means(before, first, s) && b in s.blocks && b.taken
    requires ReadHeader(after, b.addr) == ReadHeader(before, b.addr).(flag := 0)
    requires SameOutside(before, after, b.addr, b.addr + HEADER_SIZE)
    requires forall g: nat {:trigger ReadHeader(after, g)} | g + HEADER_SIZE <= b.addr || b.addr + HEADER_SIZE <= g ::
               ReadHeader(after, g) == ReadHeader(before, g)
    ensures Means(after, first, Next(s, Free(b.addr + HEADER_SIZE)))
    ensures forall w | InLive(s.blocks, w) :: Word(after, w) == Word(before, w)
  {
    var i :| 0 <= i < |s.blocks| && s.blocks[i] == b;
    OthersOutside(s, i);
    ChainReleased(before, after, first, s.blocks, b.addr);
    forall w | InLive(s.blocks, w) ensures Word(after, w) == Word(before, w) {
      HeadersNotLive(s, b, w);
    }
    StepKeepsInv(s, Free(b.addr + HEADER_SIZE));
  }

  class FirstFitAllocator {
    var mem: Memory
    var firstHeader: u64
    /** What this memory means, and what clients have stored in it. */
    ghost var state: State

    ghost predicate Valid()
      reads this
    {
      Means(mem, firstHeader, state)
    }

    /** No memory yet; what the machine's memory holds is of no matter. */
    constructor (mem: Memory)
      ensures Valid() && state == HeapRuns.EMPTY
    {
      this.mem := mem;
      firstHeader := 0;
      state := HeapRuns.EMPTY;
    }

    /** One header's fields written in place. */
    method Put(a: nat, h: Header)
      modifies this`mem
      ensures ReadHeader(mem, a) == h
      ensures SameOutside(old(mem), mem, a, a + HEADER_SIZE)
      ensures forall g: nat {:trigger ReadHeader(mem, g)} | g + HEADER_SIZE <= a || a + HEADER_SIZE <= g ::
                ReadHeader(mem, g) == ReadHeader(old(mem), g)
    {
      mem := WriteHeader(mem, a, h);
    }

    /** A free block for the bytes [at, end) after the block at `mine`, linked in after it. */
    method PutPadding(mine: nat, at: u64, end: u64)
      requires mine + HEADER_SIZE <= at && at + HEADER_SIZE <= end
      modifies this`mem
      ensures ReadHeader(mem, at) == Header(ReadHeader(old(mem), mine).next, end - at, 0)
      ensures ReadHeader(mem, mine) == ReadHeader(old(mem), mine).(next := at)
      ensures SameOutside(old(mem), mem, mine, end)
      ensures forall g: nat {:trigger ReadHeader(mem, g)} | g + HEADER_SIZE <= mine ::
                ReadHeader(mem, g) == ReadHeader(old(mem), g)
    {
      Put(at, Header(0, 0, 0));
      Put(at, ReadHeader(mem, at).(size := end - at));
      Put(at, ReadHeader(mem, at).(next := ReadHeader(mem, mine).next));
      Put(mine, ReadHeader(mem, mine).(next := at));
    }

    /** The header of the block handed out, which takes over the link of the one at `h`. */
    method PutMine(h: nat, mine: nat, size: nat)
      requires h + HEADER_SIZE <= mine && size + HEADER_SIZE < U64_SIZE
      modifies this`mem
      ensures ReadHeader(mem, mine) == Header(ReadHeader(old(mem), h).next, size + HEADER_SIZE, 1)
      ensures ReadHeader(mem, h) == ReadHeader(old(mem), h).(next := 0)
      ensures SameOutside(old(mem), mem, h, mine + HEADER_SIZE)
    {
      Put(mine, Header(0, 0, 0));
      Put(mine, ReadHeader(mem, mine).(flag := 1, size := size + HEADER_SIZE));
      Put(mine, ReadHeader(mem, mine).(next := ReadHeader(mem, h).next));
      Put(h, ReadHeader(mem, h).(next := 0));
    }

    /** What remains of the block at `h`, linked to the one handed out. */
    method PutRest(h: nat, sizeUsed: nat, mine: u64)
      requires sizeUsed <= ReadHeader(mem, h).size
      modifies this`mem
      ensures ReadHeader(mem, h) == ReadHeader(old(mem), h).(size := ReadHeader(old(mem), h).size - sizeUsed, next := mine)
      ensures SameOutside(old(mem), mem, h, h + HEADER_SIZE)
      ensures forall g: nat {:trigger ReadHeader(mem, g)} | h + HEADER_SIZE <= g ::
                ReadHeader(mem, g) == ReadHeader(old(mem), g)
    {
      Put(h, ReadHeader(mem, h).(size := ReadHeader(mem, h).size - sizeUsed));
      Put(h, ReadHeader(mem, h).(next := mine));
    }

    /** The rest of `provide`, once it has decided that the caller's bytes start at `ptr`. */
    method CutAt(h: nat, size: nat, ptr: nat, ghost b: Block)
      requires h == b.addr && b.Ok() && b.End() < U64_SIZE && HeaderOf(mem, b) && !b.taken
      requires size % 32 == 0 && ptr % 32 == 0 && b.addr + 2 * HEADER_SIZE <= ptr && ptr + size <= b.End()
      modifies this`mem
      ensures PiecesAt(mem, CutAround(b, size, ptr), ReadHeader(old(mem), b.addr).next)
      ensures SameOutside(old(mem), mem, b.addr, b.End())
    {
      CutTilesBlock(b, size, ptr);
      ghost var pieces, next := CutAround(b, size, ptr), ReadHeader(mem, h).next;
      var end: nat := h + ReadHeader(mem, h).size;
      var mine: nat := ptr - HEADER_SIZE;
      PutMine(h, mine, size);
      var sizeUsed: nat := ReadHeader(mem, mine).size;
      var endOfMine: nat := mine + ReadHeader(mem, mine).size;
      if endOfMine != end {
        PutPadding(mine, endOfMine, end);
        sizeUsed := sizeUsed + ReadHeader(mem, endOfMine).size;
      }
      assert ReadHeader(mem, h).size >= sizeUsed + HEADER_SIZE;
      PutRest(h, sizeUsed, mine);
      LinkedPieces(mem, pieces, next);
    }

    /** `provide` on the header at `h`: a pointer into its block, or 0. */
    method Provide(layout: Layout, h: nat, ghost b: Block) returns (ptr: nat)
      requires layout.Valid() && h == b.addr && b.Ok() && b.End() < U64_SIZE && HeaderOf(mem, b)
      modifies this`mem
      ensures !Serves(b, layout) ==> ptr == 0 && mem == old(mem)
      ensures Serves(b, layout) ==>
                var size, align := NeedSize(layout.size).value, NeedAlign(layout.align);
                && align > 0 && ptr == AllocatedAddr(b, size, align) && ptr > 0
                && PiecesAt(mem, Split(b, size, align), ReadHeader(old(mem), b.addr).next)
                && SameOutside(old(mem), mem, b.addr, b.End())
    {
      NeedsAreAligned(layout);
      var need := NeedSize(layout.size);
      if need.None? {
        return 0;
      }
      var size, align := need.value, NeedAlign(layout.align);
      if ReadHeader(mem, h).flag != 0 || ReadHeader(mem, h).size < size + HEADER_SIZE * 2 + align {
        return 0;
      }
      RoomForHeaders(b, size, align);
      ptr := RoundDown(h + ReadHeader(mem, h).size - size, align);
      CutAt(h, size, ptr, b);
    }

    /** The walk through the headers, up to the first block that serves. */
    method WalkHeaders(layout: Layout, ghost s: State) returns (ptr: nat)
      requires Means(mem, firstHeader, s) && layout.Valid() && layout.align > 0
      modifies this`mem
      ensures Means(mem, firstHeader, Next(s, Alloc(layout))) && ptr == Allocate(s.blocks, layout).ptr
      ensures forall w | InLive(s.blocks, w) :: Word(mem, w) == Word(old(mem), w)
    {
      ghost var bs, i := s.blocks, 0;
      var header: nat := firstHeader;
      FirstFitOf(s, layout);
      while true
        invariant 0 <= i <= |bs| && mem == old(mem)
        invariant Chain(mem, header, bs[i..]) && EndOfChain(mem, header, bs[i..]) == 0
        invariant forall k | 0 <= k < i :: !Serves(bs[k], layout)
        decreases |bs| - i
      {
        if header == 0 {
          return 0;
        }
        OthersOutside(s, i);
        ptr := Provide(layout, header, bs[i]);
        if ptr != 0 {
          break;
        }
        header := ReadHeader(mem, header).next;
        i := i + 1;
      }
      ProvidedFrom(s, layout, i, old(mem), mem, firstHeader);
      StepKeepsInv(s, Alloc(layout));
    }

    /** The first block of the list that serves, or a null pointer. */
    method AllocWithOptions(layout: Layout) returns (ptr: nat)
      requires Valid() && layout.Valid()
      modifies this
      ensures Valid() && state == Next(old(state), Alloc(layout)) && layout.align > 0
      ensures ptr == Allocate(old(state).blocks, layout).ptr
      ensures ptr != 0 ==> ptr % layout.align == 0 && HandedOut(state.blocks, ptr, layout.size)
      ensures Answers(old(state).blocks, state.blocks, layout, ptr)
      ensures forall w | InLive(old(state).blocks, w) :: Word(mem, w) == Word(old(mem), w)
    {
      ghost var s := state;
      ValidAlign(layout);
      AnsweredFor(s, layout);
      ptr := WalkHeaders(layout, s);
      state := Next(s, Alloc(layout));
    }

    /** The flag of the block handed out at `ptr` is cleared. */
    method ClearFlag(ptr: nat, ghost s: State)
      requires Means(mem, firstHeader, s) && IsLive(s.blocks, ptr)
      modifies this`mem
      ensures Means(mem, firstHeader, Next(s, Free(ptr)))
      ensures forall w | InLive(s.blocks, w) :: Word(mem, w) == Word(old(mem), w)
    {
      ghost var b :| b in s.blocks && b.taken && b.addr + HEADER_SIZE == ptr;
      var region: nat := ptr - HEADER_SIZE;
      Put(region, ReadHeader(mem, region).(flag := 0));
      FlagCleared(old(mem), mem, firstHeader, s, b);
    }

    /** Releases what an allocation returned: one flag, in the header before the pointer. */
    method Dealloc(ptr: nat)
      requires Valid() && IsLive(state.blocks, ptr)
      modifies this
      ensures Valid() && state == Next(old(state), Free(ptr)) && Freed(old(state).blocks, state.blocks, ptr)
      ensures forall w | InLive(old(state).blocks, w) :: Word(mem, w) == Word(old(mem), w)
    {
      ghost var s := state;
      ClearFlag(ptr, s);
      ReleaseFrees(s.blocks, ptr);
      state := Next(s, Free(ptr));
    }

    /** The bytes from `startAddr` on become a free block at the front of the list. */
    method PutFirst(startAddr: u64, size: u64, ghost s: State, ghost op: Op)
      requires Means(mem, firstHeader, s) && op.AddRegion? && Legal(s, op)
      requires UsableRegion(op.physicalStart, op.numberOfPages) == Some(Region(startAddr, size))
      modifies this`mem, this`firstHeader
      ensures Means(mem, firstHeader, Next(s, op))
      ensures forall w | InLive(s.blocks, w) :: Word(mem, w) == Word(old(mem), w)
    {
      AddedRegionOk(op.physicalStart, op.numberOfPages);
      Put(startAddr, Header(0, 0, 0));
      Put(startAddr, ReadHeader(mem, startAddr).(next := 0, flag := 0, size := size));
      var prevLast := firstHeader;
      firstHeader := startAddr;
      Put(startAddr, ReadHeader(mem, startAddr).(next := prevLast));
      forall b | b in s.blocks ensures b.Ok() && Apart(startAddr, startAddr + size, Region(b.addr, b.size)) {
        var inside := TilesInside(s.blocks, s.regions, b);
      }
      ChainFrame(old(mem), mem, startAddr, startAddr + HEADER_SIZE, prevLast, s.blocks);
      forall w | InLive(s.blocks, w) ensures Word(mem, w) == Word(old(mem), w) {
        var b :| b in s.blocks && b.taken && b.InPayload(w);
      }
      StepKeepsInv(s, op);
      assert Next(s, op).blocks[1..] == s.blocks;
    }

    /** A stretch of conventional memory becomes one free block at the front of the list. */
    method AddFreeFromDescriptor(physicalStart: u64, numberOfPages: u64)
      requires Valid() && Legal(state, AddRegion(physicalStart, numberOfPages))
      modifies this
      ensures Valid() && state == Next(old(state), AddRegion(physicalStart, numberOfPages))
      ensures var start, end := if physicalStart == 0 then 4096 else physicalStart, physicalStart + 4096 * numberOfPages;
              if end <= start + 4096 then state == old(state)
              else && state.blocks == [Block(start, end - start, false)] + old(state).blocks
                   && state.regions == [Region(start, end - start)] + old(state).regions
                   && state.written == old(state).written
      ensures forall w | InLive(old(state).blocks, w) :: Word(mem, w) == Word(old(mem), w)
    {
      ghost var s, op := state, AddRegion(physicalStart, numberOfPages);
      UsableRegionIs(physicalStart, numberOfPages);
      var startAddr, size := physicalStart, numberOfPages * 4096;
      if startAddr == 0 {
        startAddr := startAddr + 4096;
        size := if size >= 4096 then size - 4096 else 0;
      }
      if size <= 4096 {
        return;
      }
      PutFirst(startAddr, size, s, op);
      state := Next(s, op);
    }

    /** A client stores into memory it holds. */
    method Store(word: nat, value: u64)
      requires Valid() && Legal(state, HeapRuns.Op.Store(word, value))
      modifies this
      ensures Valid() && state == Next(old(state), HeapRuns.Op.Store(word, value))
    {
      ghost var s := state;
      mem := mem[word := value];
      forall b | b in s.blocks ensures ReadHeader(mem, b.addr) == ReadHeader(old(mem), b.addr) {
        HeadersNotLive(s, b, word);
      }
      ChainKept(old(mem), mem, firstHeader, s.blocks);
      StepKeepsInv(s, HeapRuns.Op.Store(word, value));
      state := Next(s, HeapRuns.Op.Store(word, value));
    }

    /** A client reads back what it stored last, whatever happened in between. */
    method Load(word: nat) returns (value: u64)
      requires Valid() && word in state.written
      ensures value == state.written[word]
    {
      value := Word(mem, word);
    }

    /** Any sequence of legal operations. */
    method Execute(ops: seq<Op>)
      requires Valid() && LegalRun(state, ops)
      modifies this
      ensures Valid() && Safe(state) && state == Run(old(state), ops)
    {
      var i := 0;
      while i < |ops|
        invariant 0 <= i <= |ops| && Valid() && LegalRun(state, ops[i..])
        invariant Run(state, ops[i..]) == Run(old(state), ops)
      {
        assert ops[i..][1..] == ops[i + 1..];
        match ops[i] {
          case AddRegion(start, pages) => AddFreeFromDescriptor(start, pages);
          case Alloc(layout) => var ptr := AllocWithOptions(layout);
          case Free(ptr) => Dealloc(ptr);
          case Store(word, value) => Store(word, value);
        }
        i := i + 1;
      }
      InvIsSafe(state);
    }
  }
}

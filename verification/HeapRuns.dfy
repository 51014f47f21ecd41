/** Runs of the heap: regions added, blocks allocated and released, and clients storing into
    the memory they hold. */
module HeapRuns {
  import opened Bits
  import opened Rounding
  import opened Blocks
  import opened Heap

  /** `written` is what clients last stored, word by word, in memory they still hold. */
  datatype State = State(blocks: seq<Block>, regions: seq<Region>, written: map<nat, u64>)

  datatype Op =
    | AddRegion(physicalStart: u64, numberOfPages: u64)
    | Alloc(layout: Layout)
    | Free(ptr: nat)
    | Store(word: nat, value: u64)

  const EMPTY: State := State([], [], map[])

  ghost predicate IsLive(blocks: seq<Block>, ptr: nat) {
    exists b :: b in blocks && b.taken && b.addr + HEADER_SIZE == ptr
  }

  /** `w` is a word of a payload some client holds. */
  ghost predicate InLive(blocks: seq<Block>, w: nat) {
    exists b :: b in blocks && b.taken && b.InPayload(w)
  }

  /** What callers must respect: page-aligned memory nobody else uses, valid layouts, and only
      memory they hold. */
  ghost predicate Legal(s: State, op: Op) {
    match op
    case AddRegion(start, pages) =>
      && start % 4096 == 0 && start + pages * 4096 < U64_SIZE
      && (UsableRegion(start, pages).Some? ==>
            var r := UsableRegion(start, pages).value; forall x | x in s.regions :: Apart(r.start, r.End(), x))
    case Alloc(layout) => layout.Valid()
    case Free(ptr) => IsLive(s.blocks, ptr)
    case Store(word, _) => word % 8 == 0 && InLive(s.blocks, word)
  }

  lemma ValidAlign(layout: Layout)
    requires layout.Valid()
    ensures layout.align > 0
  {
    var k :| Pow2(k) == layout.align;
  }

  /** The stores that outlive the release of `ptr`. */
  ghost function Forget(s: State, ptr: nat): map<nat, u64> {
    map w | w in s.written && InLive(Release(s.blocks, ptr), w) :: s.written[w]
  }

  ghost function Next(s: State, op: Op): State
    requires Legal(s, op)
  {
    match op
    case AddRegion(start, pages) =>
      (match UsableRegion(start, pages)
       case None => s
       case Some(r) => s.(blocks := [Block(r.start, r.size, false)] + s.blocks, regions := [r] + s.regions))
    case Alloc(layout) => ValidAlign(layout); s.(blocks := Allocate(s.blocks, layout).blocks)
    case Free(ptr) => s.(blocks := Release(s.blocks, ptr), written := Forget(s, ptr))
    case Store(word, value) => s.(written := s.written[word := value])
  }

  // ---- what every step keeps ----

  ghost predicate Inv(s: State) {
    && Tiles(s.blocks, s.regions) && RegionsApart(s.regions)
    && (forall r | r in s.regions :: r.End() < U64_SIZE)
    && (forall w | w in s.written :: w % 8 == 0 && InLive(s.blocks, w))
  }

  /** Blocks in use stay as they are when another one is handed out. */
  lemma {:induction false} AllocateKeepsTaken(bs: seq<Block>, layout: Layout, b: Block)
    requires layout.align > 0 && b in bs && b.taken
    ensures b in Allocate(bs, layout).blocks
  {
    if b == bs[0] {
      assert b == Allocate(bs, layout).blocks[0];
    } else {
      assert b in bs[1..];
      if !Serves(bs[0], layout) {
        AllocateKeepsTaken(bs[1..], layout, b);
      }
    }
  }

  lemma AllocateKeepsLive(bs: seq<Block>, layout: Layout, w: nat)
    requires layout.align > 0 && InLive(bs, w)
    ensures InLive(Allocate(bs, layout).blocks, w)
  {
    var b :| b in bs && b.taken && b.InPayload(w);
    AllocateKeepsTaken(bs, layout, b);
  }

  lemma AddedRegionOk(start: u64, pages: u64)
    requires start % 4096 == 0 && start + pages * 4096 < U64_SIZE
    ensures UsableRegion(start, pages).Some? ==>
              UsableRegion(start, pages).value.Ok() && UsableRegion(start, pages).value.End() < U64_SIZE
  {
    DivModUnique(pages * 4096, 32, pages * 128, 0);
    DivModUnique(start, 32, start / 4096 * 128, 0);
    SumsOf32(pages * 4096, 4096);
  }

  lemma StepKeepsInv(s: State, op: Op)
    requires Inv(s) && Legal(s, op)
    ensures Inv(Next(s, op))
  {
    match op
    case AddRegion(start, pages) =>
      AddedRegionOk(start, pages);
      if UsableRegion(start, pages).Some? {
        var r := UsableRegion(start, pages).value;
        AddTiles(s.blocks, s.regions, r);
        assert ([r] + s.regions)[1..] == s.regions;
      }
    case Alloc(layout) =>
      ValidAlign(layout);
      AllocateTiles(s.blocks, s.regions, layout);
      forall w | w in s.written ensures InLive(Allocate(s.blocks, layout).blocks, w) {
        AllocateKeepsLive(s.blocks, layout, w);
      }
    case Free(ptr) =>
      ReleaseTiles(s.blocks, s.regions, ptr);
    case Store(word, value) =>
  }

  // ---- whole runs ----

  ghost predicate LegalRun(s: State, ops: seq<Op>)
    decreases |ops|
  {
    ops != [] ==> Legal(s, ops[0]) && LegalRun(Next(s, ops[0]), ops[1..])
  }

  ghost function Run(s: State, ops: seq<Op>): State
    requires LegalRun(s, ops)
    decreases |ops|
  {
    if ops == [] then s else Run(Next(s, ops[0]), ops[1..])
  }

  lemma {:induction false} RunKeepsInv(s: State, ops: seq<Op>)
    requires Inv(s) && LegalRun(s, ops)
    ensures Inv(Run(s, ops))
    decreases |ops|
  {
    if ops == [] {
    } else {
      StepKeepsInv(s, ops[0]);
      RunKeepsInv(Next(s, ops[0]), ops[1..]);
    }
  }

  /** Payloads are pairwise disjoint, no header lies in one, and the blocks make up exactly
      the memory the allocator was given. */
  ghost predicate Safe(s: State) {
    && (forall i, j, w: nat | 0 <= i < j < |s.blocks| && s.blocks[i].InPayload(w) :: !s.blocks[j].InPayload(w))
    && (forall i, j, w: nat | 0 <= i < |s.blocks| && 0 <= j < |s.blocks| && s.blocks[j].InPayload(w) ::
          !(s.blocks[i].addr <= w < s.blocks[i].addr + HEADER_SIZE))
    && TotalOfBlocks(s.blocks) == TotalOfRegions(s.regions)
  }

  lemma InvIsSafe(s: State)
    requires Inv(s)
    ensures Safe(s)
  {
    TilesTotal(s.blocks, s.regions);
    forall i, j | 0 <= i < j < |s.blocks|
      ensures s.blocks[i].End() <= s.blocks[j].addr || s.blocks[j].End() <= s.blocks[i].addr
    {
      BlocksApart(s.blocks, s.regions, i, j);
    }
    forall i | 0 <= i < |s.blocks| ensures s.blocks[i].Ok() {
      var r := TilesInside(s.blocks, s.regions, s.blocks[i]);
    }
  }

  /** Every state of every run is safe. */
  lemma EveryRunIsSafe(ops: seq<Op>)
    requires LegalRun(EMPTY, ops)
    ensures Inv(Run(EMPTY, ops)) && Safe(Run(EMPTY, ops))
  {
    RunKeepsInv(EMPTY, ops);
    InvIsSafe(Run(EMPTY, ops));
  }

  lemma {:induction false} ReleaseKeepsOthers(bs: seq<Block>, ptr: nat, b: Block)
    requires b in bs && b.addr + HEADER_SIZE != ptr
    ensures b in Release(bs, ptr)
  {
    if b == bs[0] {
      assert b == Release(bs, ptr)[0];
    } else {
      assert b in bs[1..];
      ReleaseKeepsOthers(bs[1..], ptr, b);
    }
  }

  /** What a client stored in a block it holds stays there until it stores again in the same
      word or releases the block, whatever anyone else does meanwhile. */
  lemma {:induction false} StoredValueSurvives(s: State, ops: seq<Op>, b: Block, w: nat)
    requires Inv(s) && LegalRun(s, ops)
    requires b in s.blocks && b.taken && b.InPayload(w) && w in s.written
    requires Free(b.addr + HEADER_SIZE) !in ops && (forall v :: Store(w, v) !in ops)
    ensures b in Run(s, ops).blocks
    ensures w in Run(s, ops).written && Run(s, ops).written[w] == s.written[w]
    decreases |ops|
  {
    if ops == [] {
    } else {
      assert ops[0] in ops;
      var next := Next(s, ops[0]);
      StepKeepsInv(s, ops[0]);
      match ops[0] {
        case AddRegion(start, pages) =>
        case Alloc(layout) =>
          ValidAlign(layout);
          AllocateKeepsTaken(s.blocks, layout, b);
        case Free(ptr) =>
          ReleaseKeepsOthers(s.blocks, ptr, b);
        case Store(word, value) =>
      }
      StoredValueSurvives(next, ops[1..], b, w);
    }
  }
}

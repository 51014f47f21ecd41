/** Every state the heap can reach: regions tiled by blocks, live payloads apart. */
module Heap {
  import opened Bits
  import opened Results
  import opened Rounding
  import opened Blocks

  // ---- regions tiled by blocks ----

  /** The regions after cutting `size` bytes off the front of the first one. */
  function Cut(rs: seq<Region>, size: nat): seq<Region>
    requires rs != [] && size <= rs[0].size
  {
    if size == rs[0].size then rs[1..]
    else [Region(rs[0].start + size, rs[0].size - size)] + rs[1..]
  }

  /** The blocks, in list order, cover the regions one after the other without gap or overlap. */
  ghost predicate Tiles(bs: seq<Block>, rs: seq<Region>)
    decreases |bs|
  {
    if rs == [] then bs == []
    else
      && bs != [] && bs[0].Ok() && bs[0].addr == rs[0].start && bs[0].size <= rs[0].size
      && Tiles(bs[1..], Cut(rs, bs[0].size))
  }

  predicate Apart(lo: nat, hi: nat, r: Region) {
    hi <= r.start || r.End() <= lo
  }

  /** Regions do not overlap. */
  ghost predicate RegionsApart(rs: seq<Region>) {
    if rs == [] then true
    else
      && rs[0].size > 0
      && (forall r | r in rs[1..] :: Apart(rs[0].start, rs[0].End(), r))
      && RegionsApart(rs[1..])
  }

  function TotalOfRegions(rs: seq<Region>): nat {
    if rs == [] then 0 else rs[0].size + TotalOfRegions(rs[1..])
  }

  function TotalOfBlocks(bs: seq<Block>): nat {
    if bs == [] then 0 else bs[0].size + TotalOfBlocks(bs[1..])
  }

  lemma CutKeepsApart(rs: seq<Region>, size: nat)
    requires rs != [] && size <= rs[0].size && RegionsApart(rs)
    ensures RegionsApart(Cut(rs, size))
    ensures forall r | r in Cut(rs, size) :: Apart(rs[0].start, rs[0].start + size, r)
    ensures TotalOfRegions(Cut(rs, size)) == TotalOfRegions(rs) - size
  {
    var rest := Cut(rs, size);
    if size < rs[0].size {
      assert rest[1..] == rs[1..];
    }
  }

  /** No memory is lost or invented: the blocks' sizes add up to the regions'. */
  lemma {:induction false} TilesTotal(bs: seq<Block>, rs: seq<Region>)
    requires Tiles(bs, rs) && RegionsApart(rs)
    ensures TotalOfBlocks(bs) == TotalOfRegions(rs)
    decreases |bs|
  {
    if rs == [] {
    } else {
      CutKeepsApart(rs, bs[0].size);
      TilesTotal(bs[1..], Cut(rs, bs[0].size));
    }
  }

  /** Every block lies inside one of the regions. */
  lemma {:induction false} TilesInside(bs: seq<Block>, rs: seq<Region>, b: Block) returns (r: Region)
    requires Tiles(bs, rs) && b in bs
    ensures r in rs && r.start <= b.addr && b.End() <= r.End() && b.Ok()
    decreases |bs|
  {
    if b == bs[0] {
      return rs[0];
    }
    var rest := Cut(rs, bs[0].size);
    r := TilesInside(bs[1..], rest, b);
    if r !in rs {
      assert r == rest[0];
      r := rs[0];
    }
  }

  /** Different places in the list hold disjoint blocks. */
  lemma {:induction false} BlocksApart(bs: seq<Block>, rs: seq<Region>, i: nat, j: nat)
    requires Tiles(bs, rs) && RegionsApart(rs) && i < j < |bs|
    ensures bs[i].End() <= bs[j].addr || bs[j].End() <= bs[i].addr
    decreases |bs|
  {
    var rest := Cut(rs, bs[0].size);
    CutKeepsApart(rs, bs[0].size);
    if i == 0 {
      var r := TilesInside(bs[1..], rest, bs[j]);
    } else {
      BlocksApart(bs[1..], rest, i - 1, j - 1);
    }
  }

  // ---- one block replaced by its pieces ----

  lemma CutCut(rs: seq<Region>, a: nat, b: nat)
    requires rs != [] && a < rs[0].size && a + b <= rs[0].size
    ensures Cut(rs, a) != [] && b <= Cut(rs, a)[0].size && Cut(Cut(rs, a), b) == Cut(rs, a + b)
  {
  }

  /** Two blocks end to end tile what one block of their joint size does. */
  lemma TilesSplit(b: Block, x: Block, y: Block, bs: seq<Block>, rs: seq<Region>)
    requires Tiles([b] + bs, rs) && x.Ok() && y.Ok()
    requires x.addr == b.addr && y.addr == x.End() && y.End() == b.End()
    ensures Tiles([x, y] + bs, rs)
  {
    assert ([b] + bs)[1..] == bs && ([x, y] + bs)[1..] == [y] + bs && ([y] + bs)[1..] == bs;
    CutCut(rs, x.size, y.size);
  }

  /** The first block of a tiling, and the tiling behind it. */
  lemma TilesCons(b: Block, tail: seq<Block>, bs: seq<Block>, rs: seq<Region>)
    requires bs == [b] + tail
    ensures Tiles(bs, rs) <==>
              && rs != [] && b.Ok() && b.addr == rs[0].start && b.size <= rs[0].size
              && Tiles(tail, Cut(rs, b.size))
  {
    assert bs[1..] == tail;
  }

  lemma TwoThenRest(x: Block, y: Block, bs: seq<Block>)
    ensures [x, y] + bs == [x] + ([y] + bs)
  {
  }

  lemma ThreeThenRest(x: Block, y: Block, z: Block, bs: seq<Block>)
    ensures [x, y, z] + bs == [x] + ([y, z] + bs)
  {
  }

  lemma TilesSplitInThree(b: Block, x: Block, back: Block, y: Block, z: Block, bs: seq<Block>, rs: seq<Region>)
    requires Tiles([b] + bs, rs) && x.Ok() && y.Ok() && z.Ok() && back.Ok()
    requires x.addr == b.addr && back.addr == x.End() && back.End() == b.End()
    requires y.addr == back.addr && z.addr == y.End() && z.End() == back.End()
    ensures Tiles([x, y, z] + bs, rs)
  {
    TilesSplit(b, x, back, bs, rs);
    TwoThenRest(x, back, bs);
    TilesCons(x, [back] + bs, [x, back] + bs, rs);
    TilesSplit(back, y, z, bs, Cut(rs, x.size));
    ThreeThenRest(x, y, z, bs);
    TilesCons(x, [y, z] + bs, [x, y, z] + bs, rs);
  }

  lemma SplitTiles(b: Block, size: nat, align: nat, bs: seq<Block>, rs: seq<Region>)
    requires Tiles([b] + bs, rs)
    requires align >= 32 && align % 32 == 0 && size % 32 == 0 && CanProvide(b, size, align)
    ensures Tiles(Split(b, size, align) + bs, rs)
  {
    var p := Split(b, size, align);
    SplitTilesBlock(b, size, align);
    if |p| == 2 {
      TilesSplit(b, p[0], p[1], bs, rs);
      assert p == [p[0], p[1]];
    } else {
      SumsOf32(p[1].size, p[2].size);
      TilesSplitInThree(b, p[0], Block(p[1].addr, p[1].size + p[2].size, false), p[1], p[2], bs, rs);
      assert p == [p[0], p[1], p[2]];
    }
  }

  /** First fit keeps the tiling. */
  lemma {:induction false} AllocateTiles(bs: seq<Block>, rs: seq<Region>, layout: Layout)
    requires Tiles(bs, rs) && layout.Valid() && layout.align > 0
    ensures Tiles(Allocate(bs, layout).blocks, rs)
    decreases |bs|
  {
    if bs == [] {
    } else if Serves(bs[0], layout) {
      NeedsAreAligned(layout);
      assert bs == [bs[0]] + bs[1..];
      SplitTiles(bs[0], NeedSize(layout.size).value, NeedAlign(layout.align), bs[1..], rs);
    } else {
      AllocateTiles(bs[1..], Cut(rs, bs[0].size), layout);
      assert Allocate(bs, layout).blocks[1..] == Allocate(bs[1..], layout).blocks;
    }
  }

  // ---- releasing a block ----

  /** `dealloc`: the block before `ptr` is marked free; nothing is merged. */
  function Release(bs: seq<Block>, ptr: nat): seq<Block> {
    if bs == [] then []
    else [if bs[0].addr + HEADER_SIZE == ptr then bs[0].(taken := false) else bs[0]] + Release(bs[1..], ptr)
  }

  /** Only the block whose bytes start at `ptr` changes, and it becomes free. */
  lemma {:induction false} ReleaseAt(bs: seq<Block>, ptr: nat, k: nat)
    requires k < |bs|
    ensures |Release(bs, ptr)| == |bs|
    ensures Release(bs, ptr)[k] == if bs[k].addr + 32 == ptr then Block(bs[k].addr, bs[k].size, false) else bs[k]
  {
    if k == 0 {
      ReleaseLength(bs[1..], ptr);
    } else {
      ReleaseAt(bs[1..], ptr, k - 1);
    }
  }

  lemma ReleaseLength(bs: seq<Block>, ptr: nat)
    ensures |Release(bs, ptr)| == |bs|
  {
  }

  lemma {:induction false} ReleaseTiles(bs: seq<Block>, rs: seq<Region>, ptr: nat)
    requires Tiles(bs, rs)
    ensures Tiles(Release(bs, ptr), rs)
    decreases |bs|
  {
    if bs == [] {
    } else {
      ReleaseTiles(bs[1..], Cut(rs, bs[0].size), ptr);
      assert Release(bs, ptr)[1..] == Release(bs[1..], ptr);
    }
  }

  // ---- adding a region ----

  /** The region `add_free_from_descriptor` takes from a descriptor: page 0 is skipped, and a
      region of at most one page is ignored. */
  function UsableRegion(physicalStart: u64, numberOfPages: u64): Option<Region> {
    var size := numberOfPages * 4096;
    var r := if physicalStart == 0 then Region(4096, if size >= 4096 then size - 4096 else 0)
             else Region(physicalStart, size);
    if r.size <= 4096 then None else Some(r)
  }

  /** From the page behind address 0 on, up to the end of the descriptor, if that is more than
      one page. */
  lemma UsableRegionIs(physicalStart: u64, numberOfPages: u64)
    ensures var start := if physicalStart == 0 then 4096 else physicalStart;
            var end := physicalStart + 4096 * numberOfPages;
            UsableRegion(physicalStart, numberOfPages) == if end <= start + 4096 then None else Some(Region(start, end - start))
  {
  }

  lemma AddTiles(bs: seq<Block>, rs: seq<Region>, r: Region)
    requires Tiles(bs, rs) && r.Ok() && r.size >= HEADER_SIZE
    ensures Tiles([Block(r.start, r.size, false)] + bs, [r] + rs)
  {
    assert ([Block(r.start, r.size, false)] + bs)[1..] == bs;
    assert ([r] + rs)[1..] == rs;
  }
}

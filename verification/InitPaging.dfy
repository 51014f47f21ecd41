/** The boot-time use of the mapper: all memory mapped to itself, page 0 left out. */
module InitPaging {
  import opened Bits
  import opened Results
  import opened PageTable
  import opened Mapper

  datatype MemoryType = LoaderCode | LoaderData | Conventional | Other

  /** One line of the firmware's memory map. */
  datatype MemoryDescriptor = MemoryDescriptor(memoryType: MemoryType, physicalStart: u64, numberOfPages: u64) {
    predicate Usable() {
      memoryType != Other
    }

    /** The first address after the described memory. */
    function End(): int {
      physicalStart + numberOfPages * 4096
    }
  }

  const FOUR_GIB: u64 := 0x1_0000_0000

  /** `end` is the least address that is at least 4 GiB and not below the end of any usable memory. */
  ghost predicate IsEndOfMemory(memoryMap: seq<MemoryDescriptor>, end: int) {
    && end >= FOUR_GIB
    && (forall d | d in memoryMap && d.Usable() :: d.End() <= end)
    && (end == FOUR_GIB || exists d :: d in memoryMap && d.Usable() && d.End() == end)
  }

  /** In numbers: 4 GiB, or the highest end of a loader's or a free stretch of memory. */
  ghost predicate CoversLoaderAndFree(memoryMap: seq<MemoryDescriptor>, end: int) {
    && end >= 0x1_0000_0000
    && (forall d | d in memoryMap && (d.memoryType == Conventional || d.memoryType == LoaderCode || d.memoryType == LoaderData) ::
          d.physicalStart + 4096 * d.numberOfPages <= end)
    && (end == 0x1_0000_0000
        || exists d :: && d in memoryMap && d.physicalStart + 4096 * d.numberOfPages == end
                       && (d.memoryType == Conventional || d.memoryType == LoaderCode || d.memoryType == LoaderData))
  }

  lemma EndCovers(memoryMap: seq<MemoryDescriptor>, end: int)
    requires IsEndOfMemory(memoryMap, end)
    ensures CoversLoaderAndFree(memoryMap, end)
  {
    forall d | d in memoryMap && (d.memoryType == Conventional || d.memoryType == LoaderCode || d.memoryType == LoaderData)
      ensures d.physicalStart + 4096 * d.numberOfPages <= end
    {
      assert d.Usable();
    }
    if end != FOUR_GIB {
      var d :| d in memoryMap && d.Usable() && d.End() == end;
      assert d.physicalStart + 4096 * d.numberOfPages == end;
    }
  }

  /** The pages mapped are those that start below the end. */
  lemma PagesBelowIs(end: u64, page: nat)
    requires end > 0 && page < PAGES
    ensures page < PagesBelow(end) <==> 4096 * page < end
  {
  }

  /** The tables translate every page but page 0 below the end to itself, as kernel memory. */
  ghost predicate IdentityBelow(frames: Frames, root: u64, end: u64) {
    forall page: nat {:trigger Translate(frames, root, page)} | page < PAGES ::
      if page > 0 && 4096 * page < end then MappedAs(Translate(frames, root, page), 4096 * page, ReadWriteKernel)
      else Translate(frames, root, page) == None
  }

  method EndOfMemory(memoryMap: seq<MemoryDescriptor>) returns (end: u64)
    requires forall d | d in memoryMap && d.Usable() :: d.End() < U64_SIZE
    ensures IsEndOfMemory(memoryMap, end) && CoversLoaderAndFree(memoryMap, end)
  {
    end := FOUR_GIB;
    for i := 0 to |memoryMap|
      invariant IsEndOfMemory(memoryMap[..i], end)
    {
      var d := memoryMap[i];
      assert memoryMap[..i + 1] == memoryMap[..i] + [d];
      if d.Usable() && d.End() > end {
        end := d.End();
        assert d in memoryMap[..i + 1] && d.Usable() && d.End() == end;
      }
    }
    assert memoryMap[..|memoryMap|] == memoryMap;
    EndCovers(memoryMap, end);
  }

  /** The pages that start below `end`, as far as four levels reach. */
  function PagesBelow(end: u64): nat {
    PageCount(0, end)
  }

  /** The identity mapping of the first `n` pages, with page 0 taken out again. */
  lemma IdentityWithoutPageZero(n: nat, identity: View, view: View, page: nat)
    requires n >= 1 && identity == MapRange(map[], 0, n, 0, ReadWriteKernel.Flags())
    requires view == MapRange(identity, 0, 1, 0, NotPresent.Flags())
    ensures Lookup(view, page) ==
            if 0 < page < n then Some(Mapping(4096 * page, ReadWriteKernel.Flags())) else None
  {
    MapRangeAt(map[], 0, n, 0, ReadWriteKernel.Flags(), page);
    MapRangeAt(identity, 0, 1, 0, NotPresent.Flags(), page);
  }

  lemma IdentityShown(frames: Frames, root: u64, identity: View, view: View, end: u64)
    requires end > 0 && Shows(frames, root, view)
    requires identity == MapRange(map[], 0, PagesBelow(end), 0, ReadWriteKernel.Flags())
    requires view == MapRange(identity, 0, 1, 0, NotPresent.Flags())
    ensures forall page: nat | page < PAGES ::
              Translate(frames, root, page) ==
              (if 0 < page < PagesBelow(end) then Some(Mapping(4096 * page, ReadWriteKernel.Flags())) else None)
    ensures IdentityBelow(frames, root, end)
  {
    FlagBits(ReadWriteKernel);
    forall page: nat | page < PAGES
      ensures Translate(frames, root, page) ==
              (if 0 < page < PagesBelow(end) then Some(Mapping(4096 * page, ReadWriteKernel.Flags())) else None)
      ensures if page > 0 && 4096 * page < end then MappedAs(Translate(frames, root, page), 4096 * page, ReadWriteKernel)
              else Translate(frames, root, page) == None
    {
      IdentityWithoutPageZero(PagesBelow(end), identity, view, page);
      PagesBelowIs(end, page);
    }
  }

  /** `init_pading` up to loading the table register; its `expect`s fail unless r is Done. */
  method MapAllMemory(memoryMap: seq<MemoryDescriptor>, frame: u64, spare: seq<u64>)
    returns (r: Outcome, table: PML4, ghost end: u64)
    requires forall d | d in memoryMap && d.Usable() :: d.End() < U64_SIZE
    requires frame % 4096 == 0 && frame !in spare && Unused(map[], spare)
    ensures IsEndOfMemory(memoryMap, end) && CoversLoaderAndFree(memoryMap, end) && table.Valid()
    ensures r.Done? ==> IdentityBelow(table.frames, table.root, end)
    ensures r.Done? ==> forall page: nat | page < PAGES ::
              Translate(table.frames, table.root, page) ==
              (if 0 < page < PagesBelow(end) then Some(Mapping(4096 * page, ReadWriteKernel.Flags())) else None)
    ensures r.Done? || (r.Abort? && |spare| < FramesEnough(0, end) + FramesEnough(0, 4096))
  {
    table := new PML4(frame, spare);
    var last := EndOfMemory(memoryMap);
    end := last;
    r := table.CreateMapping(0, last, 0, ReadWriteKernel);
    if r != Done {
      return;
    }
    ghost var identity := table.view;
    assert PageCount(0, 4096) == 1 && PageOf(0) == 0;
    r := table.CreateMapping(0, 4096, 0, NotPresent);
    if r != Done {
      return;
    }
    IdentityShown(table.frames, table.root, identity, table.view, end);
  }
}

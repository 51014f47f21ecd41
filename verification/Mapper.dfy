/** The page-table mapper: entries written in place, tables allocated on demand,
    and the four nested loops of `create_mapping`. */
module Mapper {
  import opened Bits
  import opened Results
  import opened PageTable

  /** `Abort` stands for the allocation-error handler, which stops the kernel. */
  datatype Outcome = Done | Failed(message: string) | Abort

  // ---- what a mapping is meant to do ----

  /** The pages one call maps: those that start below `virtEnd`, at least one,
      and none past the last page of the table. */
  function PageCount(virtStart: u64, virtEnd: u64): (n: nat)
    ensures 1 <= n <= PAGES - PageOf(virtStart)
  {
    var wanted := if virtEnd <= virtStart then 1 else (virtEnd - virtStart + 4095) / 4096;
    if wanted <= PAGES - PageOf(virtStart) then wanted else PAGES - PageOf(virtStart)
  }

  function WrappingAdd(a: u64, b: u64): u64 {
    (a + b) % U64_SIZE
  }

  /** The address space a table describes: a partial map from virtual page numbers. */
  type View = map<nat, Mapping>

  /** One page set to a frame; without the present flag the page is unmapped. */
  function MapPage(view: View, page: nat, phys: nat, flags: nat): View {
    if flags % 2 == 1 then view[page := Mapping(phys, flags)] else view - {page}
  }

  /** Pages first, first + 1, ... set to consecutive frames from `phys`. */
  function MapRange(view: View, first: nat, n: nat, phys: nat, flags: nat): View {
    if n == 0 then view
    else MapPage(MapRange(view, first, n - 1, phys, flags), first + n - 1, phys + 4096 * (n - 1), flags)
  }

  function Lookup(view: View, page: nat): Option<Mapping> {
    if page in view then Some(view[page]) else None
  }

  /** One more page; the frames stay aligned exactly when the first one is. */
  lemma MapRangeNext(view: View, first: nat, n: nat, phys: nat, flags: nat, page: nat, frame: nat)
    requires page == first + n && frame == phys + 4096 * n
    ensures MapRange(view, first, n + 1, phys, flags) == MapPage(MapRange(view, first, n, phys, flags), page, frame, flags)
    ensures frame % 4096 == phys % 4096
  {
  }

  /** Page `first + k` goes to `phys + 4096 * k` for k < n; every other page is as before. */
  lemma {:induction false} MapRangeAt(view: View, first: nat, n: nat, phys: nat, flags: nat, page: nat)
    ensures Lookup(MapRange(view, first, n, phys, flags), page) ==
            if first <= page < first + n
            then (if flags % 2 == 1 then Some(Mapping(phys + 4096 * (page - first), flags)) else None)
            else Lookup(view, page)
  {
    if n == 0 {
    } else {
      MapRangeAt(view, first, n - 1, phys, flags, page);
    }
  }

  /** The processor reads `phys` for a page, present and writable, and with write-through and
      caching disabled exactly for a device; or nothing. */
  ghost predicate MappedAs(m: Option<Mapping>, phys: nat, attr: PageAttr) {
    if attr == NotPresent then m == None
    else
      && m.Some? && m.value.phys == phys
      && Bit(m.value.flags, 0) && Bit(m.value.flags, 1) && !Bit(m.value.flags, 2)
      && (Bit(m.value.flags, 3) <==> attr == ReadWriteIo) && (Bit(m.value.flags, 4) <==> attr == ReadWriteIo)
      && (forall i: nat | i >= 5 :: !Bit(m.value.flags, i))
  }

  lemma RangeIsMapped(view: View, first: nat, n: nat, phys: nat, attr: PageAttr, page: nat)
    ensures var m := Lookup(MapRange(view, first, n, phys, attr.Flags()), page);
            if first <= page < first + n then MappedAs(m, phys + 4096 * (page - first), attr) else m == Lookup(view, page)
  {
    MapRangeAt(view, first, n, phys, attr.Flags(), page);
    FlagBits(attr);
  }

  /** What the processor reads after pages first to first + n - 1 were mapped. */
  ghost predicate RangeMapped(before: Frames, after: Frames, root: u64, first: nat, n: nat, phys: nat, attr: PageAttr) {
    forall page: nat {:trigger Translate(after, root, page)} | page < PAGES ::
      if first <= page < first + n then MappedAs(Translate(after, root, page), phys + 4096 * (page - first), attr)
      else Translate(after, root, page) == Translate(before, root, page)
  }

  lemma MapRangeIsRead(before: Frames, after: Frames, root: u64, view: View, first: nat, n: nat, phys: nat, attr: PageAttr)
    requires Shows(before, root, view) && Shows(after, root, MapRange(view, first, n, phys, attr.Flags()))
    ensures RangeMapped(before, after, root, first, n, phys, attr)
  {
    forall page: nat | page < PAGES
      ensures if first <= page < first + n then MappedAs(Translate(after, root, page), phys + 4096 * (page - first), attr)
              else Translate(after, root, page) == Translate(before, root, page)
    {
      RangeIsMapped(view, first, n, phys, attr, page);
    }
  }

  /** A mapped virtual address leads to the physical address as far from `phys` as it is from
      the start of the range. */
  lemma AddressIsMapped(before: Frames, after: Frames, root: u64, virtStart: u64, virtEnd: u64, phys: nat, attr: PageAttr, a: u64)
    requires RangeMapped(before, after, root, PageOf(virtStart), PageCount(virtStart, virtEnd), phys, attr)
    requires virtStart % 4096 == 0 && virtStart <= a < virtEnd <= 0x1_0000_0000_0000 && attr != NotPresent
    ensures Translate(after, root, PageOf(a)).Some?
    ensures Translate(after, root, PageOf(a)).value.phys + a % 4096 == phys + (a - virtStart)
  {
    assert PageOf(a) == a / 4096 && PageOf(virtStart) == virtStart / 4096;
    assert MappedAs(Translate(after, root, PageOf(a)), phys + 4096 * (PageOf(a) - PageOf(virtStart)), attr);
  }

  // ---- where the nested loops stand ----

  /** The range one call maps: `count` pages from page `first`. */
  datatype Plan = Plan(virtStart: u64, virtEnd: u64, first: nat, count: nat) {
    ghost predicate Valid() {
      first == PageOf(virtStart) && count == PageCount(virtStart, virtEnd)
    }
  }

  /** Page `page` is translated through the table at (level, q). */
  ghost predicate Inside(page: nat, level: nat, q: nat) {
    if level == 0 then page == q
    else if level == 1 then q * 512 <= page < q * 512 + 512
    else if level == 2 then q * 0x4_0000 <= page < q * 0x4_0000 + 0x4_0000
    else if level == 3 then q * 0x800_0000 <= page < q * 0x800_0000 + 0x800_0000
    else page < PAGES && q == 0
  }

  /** The next page to map is `first + n`, inside the table at (level, q). */
  ghost predicate At(plan: Plan, addr: u64, n: nat, level: nat, q: nat) {
    n < plan.count && addr == plan.virtStart + 4096 * n && Inside(plan.first + n, level, q)
  }

  /** Page `first + last`, inside the table at (level, q), was the last one mapped, and either it
      is the last page of all or page `first + n` comes next and is the first one after that table. */
  ghost predicate Left(plan: Plan, addr: u64, last: nat, n: nat, level: nat, q: nat) {
    && n == last + 1 <= plan.count && Inside(plan.first + last, level, q)
    && (if n < plan.count
        then addr == plan.virtStart + 4096 * n && addr < plan.virtEnd && !Inside(plan.first + n, level, q)
        else addr >= plan.virtEnd || plan.first + n == PAGES)
  }

  /** The 2 MiB, 1 GiB and 512 GiB boundaries crossed by the first `n` pages after `first`. */
  function Crossed(first: nat, n: nat): nat {
    if n == 0 then 0
    else Crossed(first, n - 1) + (if (first + n) % 512 == 0 then 1 else 0)
         + (if (first + n) % 0x4_0000 == 0 then 1 else 0) + (if (first + n) % 0x800_0000 == 0 then 1 else 0)
  }

  lemma {:induction false} CrossedGrows(first: nat, n: nat, n': nat)
    requires n <= n'
    ensures Crossed(first, n) <= Crossed(first, n')
  {
    if n == n' {
    } else {
      CrossedGrows(first, n, n' - 1);
    }
  }

  lemma BoundaryBetween(a: nat, b: nat, size: nat)
    requires size > 0 && b == a + 1
    ensures b / size == a / size + (if b % size == 0 then 1 else 0)
  {
    var q, r := a / size, a % size;
    assert a == q * size + r;
    if r + 1 == size {
      assert (q + 1) * size == q * size + size;
      DivModUnique(b, size, q + 1, 0);
    } else {
      DivModUnique(b, size, q, r + 1);
    }
  }

  lemma {:induction false} CrossedCounts(first: nat, n: nat, last: nat)
    requires last == first + n
    ensures Crossed(first, n) == last / 512 - first / 512 + (last / 0x4_0000 - first / 0x4_0000)
                                 + (last / 0x800_0000 - first / 0x800_0000)
  {
    if n == 0 {
    } else {
      CrossedCounts(first, n - 1, last - 1);
      BoundaryBetween(last - 1, last, 512);
      BoundaryBetween(last - 1, last, 0x4_0000);
      BoundaryBetween(last - 1, last, 0x800_0000);
    }
  }

  /** Three tables for the first page, and one for every boundary between it and the last. */
  lemma FramesEnoughIs(virtStart: u64, virtEnd: u64)
    ensures var a, b := PageOf(virtStart), PageOf(virtStart) + PageCount(virtStart, virtEnd) - 1;
            FramesEnough(virtStart, virtEnd) ==
            3 + (b / 512 - a / 512) + (b / 0x4_0000 - a / 0x4_0000) + (b / 0x800_0000 - a / 0x800_0000)
  {
    var a, n := PageOf(virtStart), PageCount(virtStart, virtEnd) - 1;
    CrossedCounts(a, n, a + n);
  }

  lemma InsideDigits(page: nat, d4: nat, d3: nat, d2: nat, d1: nat, level: nat, q: nat)
    requires d4 < 512 && d3 < 512 && d2 < 512 && d1 < 512
    requires page == d4 * 0x800_0000 + d3 * 0x4_0000 + d2 * 512 + d1
    requires 1 <= level <= 4 && Inside(page, level, q)
    ensures var d := if level == 4 then d4 else if level == 3 then d3 else if level == 2 then d2 else d1;
            Inside(page, level - 1, q * 512 + d)
  {
    if level == 1 {
      assert q == d4 * 0x4_0000 + d3 * 512 + d2;
    } else if level == 2 {
      assert q == d4 * 512 + d3;
    } else if level == 3 {
      assert q == d4;
    }
  }

  /** Taking the index at `level` goes one table down. */
  lemma Enter(plan: Plan, addr: u64, n: nat, level: nat, q: nat)
    requires plan.Valid() && 1 <= level <= 4 && At(plan, addr, n, level, q)
    ensures At(plan, addr, n, level - 1, q * 512 + CalcIndex(level, addr))
  {
    PageAt(plan, n);
    IndexDigits(addr, plan.first + n, level, q);
  }

  lemma IndexDigits(addr: u64, page: nat, level: nat, q: nat)
    requires PageOf(addr) == page && 1 <= level <= 4 && Inside(page, level, q)
    ensures Inside(page, level - 1, q * 512 + CalcIndex(level, addr))
  {
    IndicesSpellPage(addr);
    InsideDigits(page, CalcIndex(4, addr), CalcIndex(3, addr), CalcIndex(2, addr), CalcIndex(1, addr), level, q);
  }

  /** Until the last page is done, the address does not wrap and page numbers run on. */
  lemma PageAt(plan: Plan, n: nat)
    requires plan.Valid() && n < plan.count
    ensures plan.virtStart + 4096 * n < U64_SIZE
    ensures PageOf(plan.virtStart + 4096 * n) == plan.first + n
    ensures n > 0 ==> plan.virtStart + 4096 * n < plan.virtEnd
  {
    var a := plan.virtStart / 4096;
    var w := a / PAGES;
    assert a == w * PAGES + plan.first;
    assert (plan.virtStart + 4096 * n) / 4096 == a + n;
    assert (a + n) / PAGES == w && (a + n) % PAGES == plan.first + n;
  }

  /** After a page is written and the address advanced. */
  lemma Advance(plan: Plan, addr: u64, n: nat, page: nat)
    requires plan.Valid() && At(plan, addr, n, 0, page)
    ensures Left(plan, WrappingAdd(addr, 4096), n, n + 1, 0, page)
  {
    if n + 1 < plan.count {
      PageAt(plan, n + 1);
    } else if plan.first + n + 1 != PAGES {
      assert plan.virtStart + 4096 * (n + 1) >= plan.virtEnd;
      var a := plan.virtStart / 4096;
      assert a == a / PAGES * PAGES + plan.first && a / PAGES < 0x1_0000;
      assert plan.virtStart + 4096 * (n + 1) < U64_SIZE;
    }
  }

  /** The exit test of the loop at `level`, once table (or page) `q * 512 + index` under it is left. */
  lemma ExitTest(plan: Plan, addr: u64, last: nat, n: nat, level: nat, q: nat, index: nat, child: nat)
    requires plan.Valid() && 1 <= level <= 4 && index < 512
    requires child == q * 512 + index && Left(plan, addr, last, n, level - 1, child)
    ensures if index + 1 >= 512 || addr >= plan.virtEnd
            then Left(plan, addr, last, n, level, q)
            else At(plan, addr, n, level, q)
    ensures level == 4 && (index + 1 >= 512 || addr >= plan.virtEnd) ==> n == plan.count
    ensures n < plan.count ==> Crossed(plan.first, n) >= Crossed(plan.first, last) + level - 1
  {
    if n < plan.count {
      BoundariesCrossed(plan, addr, last, n, level - 1, child);
    }
  }

  lemma BoundariesCrossed(plan: Plan, addr: u64, last: nat, n: nat, level: nat, q: nat)
    requires level <= 3 && Left(plan, addr, last, n, level, q) && n < plan.count
    ensures Crossed(plan.first, n) >= Crossed(plan.first, last) + level
  {
    var next := plan.first + n;
    if level >= 1 {
      DivModUnique(next, 512, if level == 1 then q + 1 else if level == 2 then 512 * (q + 1) else 0x4_0000 * (q + 1), 0);
    }
    if level >= 2 {
      DivModUnique(next, 0x4_0000, if level == 2 then q + 1 else 512 * (q + 1), 0);
    }
    if level >= 3 {
      DivModUnique(next, 0x800_0000, q + 1, 0);
    }
  }

  /** Frames the heap can still hand out: aligned, distinct, holding no table. */
  ghost predicate Unused(frames: Frames, spare: seq<u64>) {
    && (forall i | 0 <= i < |spare| :: spare[i] !in frames && spare[i] % 4096 == 0)
    && (forall i, j | 0 <= i < j < |spare| :: spare[i] != spare[j])
  }

  lemma UnusedTail(frames: Frames, spare: seq<u64>, f: u64, i: nat)
    requires Unused(frames, spare) && spare != [] && f in frames && i < |frames[f]|
    ensures Unused(Populated(frames, f, i, spare[0]), spare[1..])
  {
    forall j | 0 <= j < |spare| - 1 ensures spare[1..][j] == spare[j + 1] && spare[j + 1] != spare[0] {
    }
  }

  lemma UnusedStays(frames: Frames, spare: seq<u64>, f: u64, i: nat, e: Entry)
    requires Unused(frames, spare) && f in frames && i < |frames[f]|
    ensures Unused(LeafWritten(frames, f, i, e), spare)
  {
  }

  /** The walk through these tables finds exactly what `view` says. */
  ghost predicate Shows(frames: Frames, root: u64, view: View) {
    && (forall page | page in view :: page < PAGES)
    && (forall page: nat | page < PAGES :: Translate(frames, root, page) == Lookup(view, page))
  }

  lemma PopulatedShows(frames: Frames, root: u64, place: map<u64, Path>, f: u64, i: nat, t: u64, view: View)
    requires CanPopulate(frames, root, place, f, i, t) && Shows(frames, root, view)
    ensures Shows(Populated(frames, f, i, t), root, view)
  {
    forall page: nat | page < PAGES ensures Translate(Populated(frames, f, i, t), root, page) == Lookup(view, page) {
      PopulatedLeaf(frames, root, place, f, i, t, LeafPath(page), page % 512);
    }
  }

  lemma LeafSet(frames: Frames, root: u64, place: map<u64, Path>, f: u64, i: nat, phys: u64, flags: u64,
                path: Path, j: nat)
    requires CanWriteLeaf(frames, root, place, f, i) && path.Depth() == 3
    ensures Leaf(LeafWritten(frames, f, i, Entry(phys, flags)), root, path, j) ==
            if path != place[f] || j != i then Leaf(frames, root, path, j)
            else if flags % 2 == 1 then Some(Mapping(phys, flags)) else None
  {
    LeafWrittenLeaf(frames, root, place, f, i, Entry(phys, flags), path, j);
  }

  lemma MapPageAt(view: View, page: nat, phys: nat, flags: nat, other: nat)
    ensures Lookup(MapPage(view, page, phys, flags), other) ==
            if other != page then Lookup(view, other)
            else if flags % 2 == 1 then Some(Mapping(phys, flags)) else None
  {
  }

  lemma LeafWrittenShowsAt(frames: Frames, root: u64, place: map<u64, Path>, f: u64, i: nat,
                           phys: u64, flags: u64, view: View, other: nat)
    requires CanWriteLeaf(frames, root, place, f, i) && place[f].InRange()
    requires other < PAGES && Translate(frames, root, other) == Lookup(view, other)
    ensures Translate(LeafWritten(frames, f, i, Entry(phys, flags)), root, other) ==
            Lookup(MapPage(view, place[f].Number() * 512 + i, phys, flags), other)
  {
    var page := place[f].Number() * 512 + i;
    PathOfPage(place[f], i);
    MapPageAt(view, page, phys, flags, other);
    LeafSet(frames, root, place, f, i, phys, flags, LeafPath(other), other % 512);
    if other != page {
      LeafPathInjective(page, other);
    }
  }

  lemma LeafWrittenShows(frames: Frames, root: u64, place: map<u64, Path>, f: u64, i: nat,
                         phys: u64, flags: u64, view: View)
    requires CanWriteLeaf(frames, root, place, f, i) && place[f].InRange() && Shows(frames, root, view)
    ensures Shows(LeafWritten(frames, f, i, Entry(phys, flags)), root,
                  MapPage(view, place[f].Number() * 512 + i, phys, flags))
  {
    PathOfPage(place[f], i);
    var frames', view' := LeafWritten(frames, f, i, Entry(phys, flags)), MapPage(view, place[f].Number() * 512 + i, phys, flags);
    forall other: nat | other < PAGES ensures Translate(frames', root, other) == Lookup(view', other) {
      LeafWrittenShowsAt(frames, root, place, f, i, phys, flags, view, other);
    }
  }

  /** `calc_index`, with what it means for the loop at `level`. */
  method IndexAt(level: nat, addr: u64, ghost plan: Plan, ghost n: nat, ghost q: nat) returns (index: nat)
    requires plan.Valid() && 1 <= level <= 4 && At(plan, addr, n, level, q)
    ensures index < 512
    ensures At(plan, addr, n, level - 1, q * 512 + index)
  {
    Enter(plan, addr, n, level, q);
    index := CalcIndex(level, addr);
  }

  /** The loops are left at the top when every page is done. */
  lemma LeftLast(plan: Plan, addr: u64, last: nat, n: nat)
    requires plan.Valid() && Left(plan, addr, last, n, 4, 0)
    ensures n == plan.count && last == plan.count - 1
  {
  }

  /** The first pages of the range, and not all of them, are mapped. */
  ghost predicate PartlyMapped(before: View, after: View, first: nat, count: nat, phys: nat, flags: nat) {
    exists n: nat :: n < count && after == MapRange(before, first, n, phys, flags)
  }

  /** Frames that are enough for one mapping, whatever tables exist already. */
  function FramesEnough(virtStart: u64, virtEnd: u64): nat {
    3 + Crossed(PageOf(virtStart), PageCount(virtStart, virtEnd) - 1)
  }

  lemma NotEnough(plan: Plan, n: nat, used: nat)
    requires plan.Valid() && n < plan.count && used <= Crossed(plan.first, n) + 2
    ensures used < FramesEnough(plan.virtStart, plan.virtEnd)
  {
    CrossedGrows(plan.first, n, plan.count - 1);
  }

  ghost predicate Extends(before: map<u64, Path>, after: map<u64, Path>) {
    forall f | f in before :: f in after && after[f] == before[f]
  }

  // ---- what every operation keeps ----

  ghost predicate Inv(frames: Frames, root: u64, place: map<u64, Path>, spare: seq<u64>, view: View) {
    && WellFormed(frames, root, place) && AllReached(frames, root, place)
    && AllEncodable(frames) && Unused(frames, spare) && Shows(frames, root, view)
  }

  lemma PopulateKeeps(frames: Frames, root: u64, place: map<u64, Path>, spare: seq<u64>, view: View, f: u64, i: nat)
    requires Inv(frames, root, place, spare, view) && spare != []
    requires f in frames && i < 512 && place[f].Depth() < 3 && !frames[f][i].IsPresent()
    ensures Inv(Populated(frames, f, i, spare[0]), root, place[spare[0] := Step(place[f], i)], spare[1..], view)
  {
    PopulatedWellFormed(frames, root, place, f, i, spare[0]);
    PopulatedReached(frames, root, place, f, i, spare[0]);
    PopulatedShows(frames, root, place, f, i, spare[0], view);
    PopulatedEncodable(frames, f, i, spare[0]);
    UnusedTail(frames, spare, f, i);
  }

  lemma SetPageKeepsTree(frames: Frames, root: u64, place: map<u64, Path>, f: u64, i: nat, e: Entry, frames': Frames)
    requires CanWriteLeaf(frames, root, place, f, i) && frames' == LeafWritten(frames, f, i, e)
    ensures WellFormed(frames', root, place) && AllReached(frames', root, place)
  {
    LeafWrittenWellFormed(frames, root, place, f, i, e);
    LeafWrittenReached(frames, root, place, f, i, e);
  }

  lemma SetPageKeepsWords(frames: Frames, spare: seq<u64>, f: u64, i: nat, e: Entry, frames': Frames)
    requires AllEncodable(frames) && Unused(frames, spare) && f in frames && i < |frames[f]| && e.Encodable()
    requires frames' == LeafWritten(frames, f, i, e)
    ensures AllEncodable(frames') && Unused(frames', spare)
  {
    LeafWrittenEncodable(frames, f, i, e);
    UnusedStays(frames, spare, f, i, e);
  }

  lemma SetPageShows(frames: Frames, root: u64, place: map<u64, Path>, f: u64, i: nat, phys: u64, flags: u64,
                     view: View, page: nat, frames': Frames, view': View)
    requires CanWriteLeaf(frames, root, place, f, i) && place[f].InRange() && Shows(frames, root, view)
    requires page == place[f].Number() * 512 + i
    requires frames' == LeafWritten(frames, f, i, Entry(phys, flags)) && view' == MapPage(view, page, phys, flags)
    ensures Shows(frames', root, view')
  {
    LeafWrittenShows(frames, root, place, f, i, phys, flags, view);
  }

  lemma SetPageKeeps(frames: Frames, root: u64, place: map<u64, Path>, spare: seq<u64>, view: View,
                     f: u64, i: nat, phys: u64, flags: u64, page: nat, frames': Frames, view': View)
    requires Inv(frames, root, place, spare, view) && Entry(phys, flags).Encodable()
    requires f in place && i < 512 && place[f].Depth() == 3 && place[f].InRange()
    requires page == place[f].Number() * 512 + i
    requires frames' == LeafWritten(frames, f, i, Entry(phys, flags)) && view' == MapPage(view, page, phys, flags)
    ensures Inv(frames', root, place, spare, view')
  {
    SetPageKeepsTree(frames, root, place, f, i, Entry(phys, flags), frames');
    SetPageKeepsWords(frames, spare, f, i, Entry(phys, flags), frames');
    SetPageShows(frames, root, place, f, i, phys, flags, view, page, frames', view');
  }

  // ---- the mapper ----

  class PML4 {
    /** The tables, and the frames the heap will hand out for new ones. */
    var frames: Frames
    var spare: seq<u64>
    const root: u64
    ghost var place: map<u64, Path>
    /** What the processor sees through these tables. */
    ghost var view: View
    ghost var leafWrites: nat

    ghost predicate Valid()
      reads this
    {
      Inv(frames, root, place, spare, view)
    }

    /** A zeroed table: no page is mapped. */
    constructor (frame: u64, spare: seq<u64>)
      requires frame % 4096 == 0 && frame !in spare && Unused(map[], spare)
      ensures Valid() && root == frame && this.spare == spare && view == map[] && leafWrites == 0
    {
      var empty := seq(512, _ => EMPTY);
      root := frame;
      frames := map[frame := empty];
      this.spare := spare;
      place := map[frame := Root];
      view := map[];
      leafWrites := 0;
      new;
      forall page: nat | page < PAGES ensures Translate(frames, root, page) == None {
        assert Child(frames, root, Prefix(page, 3) % 512) == None;
      }
    }

    method Populate(f: u64, i: nat) returns (r: Outcome)
      requires Valid() && f in place && i < 512 && place[f].Depth() < 3
      modifies this`frames, this`spare, this`place
      ensures Valid()
      ensures r.Failed? <==> old(frames[f][i].IsPresent())
      ensures r.Abort? <==> !old(frames[f][i].IsPresent()) && old(spare) == []
      ensures !r.Done? ==> frames == old(frames) && place == old(place) && spare == old(spare)
      ensures r.Done? ==>
                && spare == old(spare)[1..] && frames == Populated(old(frames), f, i, old(spare)[0])
                && place == old(place)[old(spare)[0] := Step(old(place)[f], i)]
    {
      if frames[f][i].IsPresent() {
        return Failed("page is already populated");
      }
      if spare == [] {
        return Abort;
      }
      var next := spare[0];
      PopulateKeeps(frames, root, place, spare, view, f, i);
      place := place[next := Step(place[f], i)];
      frames := Populated(frames, f, i, next);
      spare := spare[1..];
      return Done;
    }

    method EnsurePopulated(f: u64, i: nat) returns (r: Outcome)
      requires Valid() && f in place && i < 512 && place[f].Depth() < 3
      modifies this`frames, this`spare, this`place
      ensures Valid() && !r.Failed?
      ensures r.Done? ==> f in frames && frames[f][i].IsPresent()
      ensures r.Abort? <==> !old(frames[f][i].IsPresent()) && old(spare) == []
      ensures r.Abort? || old(frames[f][i].IsPresent()) ==>
                frames == old(frames) && place == old(place) && spare == old(spare)
      ensures r.Done? && !old(frames[f][i].IsPresent()) ==>
                && spare == old(spare)[1..] && frames == Populated(old(frames), f, i, old(spare)[0])
                && place == old(place)[old(spare)[0] := Step(old(place)[f], i)]
    {
      if frames[f][i].IsPresent() {
        return Done;
      }
      r := Populate(f, i);
    }

    method TableMut(f: u64, i: nat) returns (r: Outcome, t: u64)
      requires Valid() && f in place && i < 512
      ensures if frames[f][i].IsPresent() then r == Done && t == frames[f][i].frame else r.Failed?
    {
      t := 0;
      if frames[f][i].IsPresent() {
        return Done, frames[f][i].frame;
      }
      return Failed("Page not found"), t;
    }

    /** One level down, through the table the entry names or a new empty one. */
    method Descend(f: u64, i: nat, ghost path: Path) returns (r: Outcome, t: u64)
      requires Valid() && i < 512 && f in place && place[f] == path && path.Depth() < 3
      modifies this`frames, this`spare, this`place
      ensures Valid() && !r.Failed?
      ensures Extends(old(place), place)
      ensures r.Abort? ==> spare == old(spare) == []
      ensures r.Done? ==> t in place && place[t] == Step(path, i)
      ensures |spare| <= |old(spare)| <= |spare| + 1
    {
      t := 0;
      r := EnsurePopulated(f, i);
      if r != Done {
        return;
      }
      r, t := TableMut(f, i);
      assert Linked(frames, place, f, i);
    }

    method SetPage(f: u64, i: nat, phys: u64, attr: PageAttr, ghost path: Path) returns (r: Outcome)
      requires Valid() && f in place && place[f] == path && i < 512 && path.Depth() == 3 && path.InRange()
      modifies this`frames, this`view, this`leafWrites
      ensures Valid()
      ensures r == if phys % 4096 != 0 then Failed("phys is not aligned") else Done
      ensures if r == Done then view == MapPage(old(view), path.Number() * 512 + i, phys, attr.Flags()) && leafWrites == old(leafWrites) + 1
              else view == old(view) && leafWrites == old(leafWrites)
      ensures place == old(place)
    {
      if phys % 4096 != 0 {
        return Failed("phys is not aligned");
      }
      ghost var before, viewBefore := frames, view;
      frames := LeafWritten(frames, f, i, Entry(phys, attr.Flags()));
      view := MapPage(view, path.Number() * 512 + i, phys, attr.Flags());
      leafWrites := leafWrites + 1;
      SetPageKeeps(before, root, place, spare, viewBefore, f, i, phys, attr.Flags(), path.Number() * 512 + i, frames, view);
      return Done;
    }

    /** The body of the innermost loop: one entry written, and the address moved to the next page. */
    method MapOne(table: u64, addr: u64, virtStart: u64, phys: u64, attr: PageAttr,
                  ghost plan: Plan, ghost n: nat, ghost path: Path, ghost before: View)
      returns (r: Outcome, index: nat, next: u64, ghost done: nat)
      requires Valid() && plan.Valid() && table in place && place[table] == path && path.Depth() == 3 && path.InRange()
      requires At(plan, addr, n, 1, path.Number())
      requires virtStart == plan.virtStart && phys + addr - virtStart < U64_SIZE
      requires view == MapRange(before, plan.first, n, phys, attr.Flags())
      modifies this`frames, this`view, this`leafWrites
      ensures Valid() && index < 512 && done == n + 1
      ensures r == if phys % 4096 != 0 then Failed("phys is not aligned") else Done
      ensures r == Done ==> view == MapRange(before, plan.first, done, phys, attr.Flags())
      ensures r == Done ==> leafWrites == old(leafWrites) + 1 && Left(plan, next, n, done, 0, Step(path, index).Number())
      ensures r != Done ==> view == old(view) && leafWrites == old(leafWrites)
      ensures place == old(place)
    {
      done := n + 1;
      index := IndexAt(1, addr, plan, n, path.Number());
      var physAddr := phys + addr - virtStart;
      next := WrappingAdd(addr, PAGE_SIZE);
      MapRangeNext(before, plan.first, n, phys, attr.Flags(), path.Number() * 512 + index, physAddr);
      Advance(plan, addr, n, path.Number() * 512 + index);
      r := SetPage(table, index, physAddr, attr, path);
    }

    /** The body of a loop: at level 1 one entry is written; above it, one table down, the loop
        over that table. */
    method MapEntry(level: nat, table: u64, start: u64, virtStart: u64, virtEnd: u64, phys: u64, attr: PageAttr,
                    ghost plan: Plan, ghost from: nat, ghost path: Path, ghost before: View, ghost supply: nat)
      returns (r: Outcome, index: nat, addr: u64, ghost last: nat, ghost n: nat)
      requires Valid() && plan.Valid() && 1 <= level <= 4
      requires virtStart == plan.virtStart && virtEnd == plan.virtEnd
      requires phys + virtStart + 4096 * (plan.count - 1) < U64_SIZE
      requires table in place && place[table] == path && path.Depth() == 4 - level && path.InRange()
      requires At(plan, start, from, level, path.Number()) && (from > 0 ==> phys % 4096 == 0)
      requires view == MapRange(before, plan.first, from, phys, attr.Flags())
      requires supply - |spare| <= Crossed(plan.first, from) + 4 - level
      modifies this
      ensures Valid() && Extends(old(place), place) && index < 512
      ensures n >= from && leafWrites == old(leafWrites) + n - from
      ensures view == MapRange(before, plan.first, n, phys, attr.Flags())
      ensures r.Done? ==> n > from && phys % 4096 == 0
      ensures r.Done? ==> Left(plan, addr, last, n, level - 1, Step(path, index).Number())
      ensures r.Done? ==> supply - |spare| <= Crossed(plan.first, last) + 3
      ensures r.Failed? ==> r == Failed("phys is not aligned") && phys % 4096 != 0 && n == 0
      ensures r.Abort? ==> n < plan.count && supply < FramesEnough(virtStart, virtEnd)
      decreases level, 0
    {
      addr, last, n := start, from, from;
      if level == 1 {
        var addr';
        ghost var done;
        r, index, addr', done := MapOne(table, addr, virtStart, phys, attr, plan, n, path, before);
        if r == Done {
          addr, n := addr', done;
        }
        return;
      }
      index := IndexAt(level, addr, plan, n, path.Number());
      var next;
      r, next := Descend(table, index, path);
      if r != Done {
        NotEnough(plan, n, supply);
        return;
      }
      r, addr, last, n := MapTable(level - 1, next, addr, virtStart, virtEnd, phys, attr,
                                   plan, n, Step(path, index), before, supply);
    }

    /** The loop at `level` over the entries of one table, and the loops inside it: the four
        nested loops are the same but for their level. */
    method MapTable(level: nat, table: u64, start: u64, virtStart: u64, virtEnd: u64, phys: u64, attr: PageAttr,
                    ghost plan: Plan, ghost from: nat, ghost path: Path, ghost before: View, ghost supply: nat)
      returns (r: Outcome, addr: u64, ghost last: nat, ghost n: nat)
      requires Valid() && plan.Valid() && 1 <= level <= 4
      requires virtStart == plan.virtStart && virtEnd == plan.virtEnd
      requires phys + virtStart + 4096 * (plan.count - 1) < U64_SIZE
      requires table in place && place[table] == path && path.Depth() == 4 - level && path.InRange()
      requires At(plan, start, from, level, path.Number()) && (from > 0 ==> phys % 4096 == 0)
      requires view == MapRange(before, plan.first, from, phys, attr.Flags())
      requires supply - |spare| <= Crossed(plan.first, from) + 4 - level
      modifies this
      ensures Valid() && Extends(old(place), place)
      ensures n >= from && leafWrites == old(leafWrites) + n - from
      ensures view == MapRange(before, plan.first, n, phys, attr.Flags())
      ensures r.Done? ==> n > from && phys % 4096 == 0
      ensures r.Done? ==> Left(plan, addr, last, n, level, path.Number())
      ensures r.Done? ==> supply - |spare| <= Crossed(plan.first, last) + 3
      ensures r.Failed? ==> r == Failed("phys is not aligned") && phys % 4096 != 0 && n == 0
      ensures r.Abort? ==> n < plan.count && supply < FramesEnough(virtStart, virtEnd)
      decreases level, 1
    {
      addr, last, n := start, from, from;
      while true
        invariant Valid() && At(plan, addr, n, level, path.Number()) && Extends(old(place), place)
        invariant n >= from && leafWrites == old(leafWrites) + n - from && (n > 0 ==> phys % 4096 == 0)
        invariant view == MapRange(before, plan.first, n, phys, attr.Flags())
        invariant supply - |spare| <= Crossed(plan.first, n) + 4 - level
        decreases plan.count - n
      {
        var index;
        r, index, addr, last, n := MapEntry(level, table, addr, virtStart, virtEnd, phys, attr,
                                            plan, n, path, before, supply);
        if r != Done {
          return;
        }
        ExitTest(plan, addr, last, n, level, path.Number(), index, Step(path, index).Number());
        if index + 1 >= 512 || addr >= virtEnd {
          break;
        }
      }
    }

    /** Maps [virtStart, virtEnd) to consecutive frames from `phys`, page by page. */
    method CreateMapping(virtStart: u64, virtEnd: u64, phys: u64, attr: PageAttr) returns (r: Outcome)
      requires Valid()
      requires phys + virtStart + 4096 * (PageCount(virtStart, virtEnd) - 1) < U64_SIZE
      modifies this
      ensures Valid()
      ensures r.Done? ==> phys % 4096 == 0
      ensures r.Done? ==> view == MapRange(old(view), PageOf(virtStart), PageCount(virtStart, virtEnd), phys, attr.Flags())
      ensures r.Done? ==> RangeMapped(old(frames), frames, root, PageOf(virtStart), PageCount(virtStart, virtEnd), phys, attr)
      ensures r.Done? ==> leafWrites == old(leafWrites) + PageCount(virtStart, virtEnd)
      ensures r.Failed? ==> r == Failed("phys is not aligned") && phys % 4096 != 0
      ensures r.Failed? ==> view == old(view) && leafWrites == old(leafWrites)
      ensures r.Abort? ==> PartlyMapped(old(view), view, PageOf(virtStart), PageCount(virtStart, virtEnd), phys, attr.Flags())
      ensures r.Abort? ==> |old(spare)| < FramesEnough(virtStart, virtEnd)
      ensures r.Done? ==> |old(spare)| <= |spare| + FramesEnough(virtStart, virtEnd)
    {
      ghost var plan := Plan(virtStart, virtEnd, PageOf(virtStart), PageCount(virtStart, virtEnd));
      var addr;
      ghost var last, n;
      r, addr, last, n := MapTable(4, root, virtStart, virtStart, virtEnd, phys, attr, plan, 0, Root, view, |spare|);
      if r.Done? {
        LeftLast(plan, addr, last, n);
        MapRangeIsRead(old(frames), frames, root, old(view), PageOf(virtStart), PageCount(virtStart, virtEnd), phys, attr);
      }
    }
  }
}

/** Page-table entries and the four-level walk of the processor
    (Intel SDM Vol. 3A, section 4.5, "4-Level Paging"), over a memory of table frames. */
module PageTable {
  import opened Bits
  import opened Results

  const PAGE_SIZE: u64 := 4096
  const ATTR_MASK: u64 := 0xFFF
  /** Virtual pages reachable through one table of 512 entries at level 4. */
  const PAGES: int := 0x10_0000_0000

  datatype PageAttr = NotPresent | ReadWriteKernel | ReadWriteIo {
    function Flags(): (r: u64)
      ensures r < 4096 && (r % 2 == 1 <==> this != NotPresent)
    {
      match this
      case NotPresent => 0
      case ReadWriteKernel => 1 + 2
      case ReadWriteIo => 1 + 2 + 8 + 16
    }
  }

  lemma SmallBits(x: nat)
    requires x == 0 || x == 3 || x == 27
    ensures forall i: nat {:trigger Bit(x, i)} ::
              Bit(x, i) <==> (x != 0 && i <= 1) || (x == 27 && (i == 3 || i == 4))
  {
    Pow2Values();
    forall i: nat ensures Bit(x, i) <==> (x != 0 && i <= 1) || (x == 27 && (i == 3 || i == 4)) {
      if i >= 5 {
        NoHighBits(5, x, i);
      } else {
        BitByDivision(x, i);
      }
    }
  }

  lemma BitByDivision(x: nat, i: nat)
    requires i < 5
    ensures Bit(x, i) <==> (if i == 0 then x else if i == 1 then x / 2 else if i == 2 then x / 4 else if i == 3 then x / 8 else x / 16) % 2 == 1
  {
    if i >= 2 {
      assert Bit(x, i) == Bit(x / 2 / 2, i - 2);
    }
    if i == 4 {
      assert Bit(x / 4, 2) == Bit(x / 4 / 2 / 2, 0);
    }
  }

  /** Present and writable unless it is not present; write-through and not cached for devices;
      no other bit. */
  lemma FlagBits(attr: PageAttr)
    ensures forall i: nat {:trigger Bit(attr.Flags(), i)} ::
              Bit(attr.Flags(), i) <==>
              (attr != NotPresent && (i == 0 || i == 1)) || (attr == ReadWriteIo && (i == 3 || i == 4))
  {
    SmallBits(attr.Flags());
  }

  /** Table frames by physical address, each of 512 entries. */
  type Frames = map<u64, seq<Entry>>

  /** Where a table sits in the tree: the entries to follow from the root. */
  datatype Path = Root | Step(up: Path, index: nat) {
    function Depth(): nat {
      if Root? then 0 else 1 + up.Depth()
    }

    /** Only entries of 512-entry tables. */
    predicate InRange() {
      Root? || (index < 512 && up.InRange())
    }

    /** The entries read as the digits of a number in base 512. */
    function Number(): nat {
      if Root? then 0 else up.Number() * 512 + index
    }
  }

  datatype Mapping = Mapping(phys: nat, flags: nat)

  // ---- entries ----

  /** A table entry: a frame address with attribute flags in its low 12 bits. */
  datatype Entry = Entry(frame: u64, flags: u64) {
    /** The 64-bit word the processor reads. */
    function Value(): int {
      frame + flags
    }

    predicate Encodable() {
      frame % 4096 == 0 && flags < 4096
    }

    predicate IsPresent() {
      flags % 2 == 1
    }
  }

  const EMPTY: Entry := Entry(0, 0)

  /** The entry an arbitrary word stands for. */
  function Decode(value: u64): Entry {
    Entry(value - value % 4096, value % 4096)
  }

  /** Entries and words determine each other. */
  lemma EntryIsWord(value: u64, e: Entry)
    requires e.Encodable()
    ensures 0 <= e.Value() < U64_SIZE
    ensures Decode(value).Encodable() && Decode(value).Value() == value
    ensures Decode(e.Value()) == e
  {
    assert e.Value() % 4096 == e.flags;
  }

  /** Reading an entry is what the masks of the source do to the word. */
  lemma EntryMasks(value: u64)
    ensures Pow2(64) == U64_SIZE
    ensures Decode(value).frame == And(value, Not(64, ATTR_MASK))
    ensures Decode(value).flags == And(value, ATTR_MASK)
    ensures Decode(value).IsPresent() <==> And(value, 1) != 0
  {
    Pow2Values();
    AndHighMask(64, value, 12);
    AndLowMask(value, 12);
    DivMod(value, 12);
    PresentBit(value);
  }

  lemma PresentBit(value: u64)
    ensures And(value, 1) == value % 2 == value % 4096 % 2
  {
    Pow2Values();
    AndLowMask(value, 1);
    DivMod(value, 1);
    SameParity(value);
  }

  lemma SameParity(value: u64)
    ensures value % 4096 % 2 == value % 2
  {
    var q, r := value / 4096, value % 4096;
    assert value == 2 * (2048 * q + r / 2) + r % 2;
    Halves(2048 * q + r / 2, r % 2);
  }

  /** Building an entry is the `|` of the source. */
  lemma EntryOr(e: Entry)
    requires e.Encodable()
    ensures e.Value() == Or(e.frame, e.flags)
  {
    Pow2Values();
    UpByMultiplying(e.frame / 4096, 12);
    OrDisjoint(e.frame / 4096, e.flags, 12);
  }

  /** The virtual page number the walk uses for `addr`: bits 12 to 47. */
  function PageOf(addr: u64): (r: nat)
    ensures r < PAGES
  {
    addr / 4096 % PAGES
  }

  /** The leading digits of a page number in base 512, without the last `level` of them. */
  function Prefix(page: nat, level: nat): nat {
    if level == 0 then page else Prefix(page, level - 1) / 512
  }

  function IndexShift(level: nat): nat
    requires 1 <= level <= 4
  {
    (level - 1) * 9 + 12
  }

  /** The entry of a table of the given level that translates `addr`: a base-512 digit
      of its page number. */
  function CalcIndex(level: nat, addr: u64): (r: nat)
    requires 1 <= level <= 4
    ensures r < 512
  {
    Prefix(PageOf(addr), level - 1) % 512
  }

  /** That digit is what the source's shift and mask compute. */
  lemma IndexBits(level: nat, addr: u64)
    requires 1 <= level <= 4
    ensures CalcIndex(level, addr) == And(Shr(addr, IndexShift(level)), 0x1FF)
  {
    ShiftIsPrefix(addr, level);
    DigitsOfRemainder(addr / 4096, level);
    Pow2Values();
    AndLowMask(Shr(addr, IndexShift(level)), 9);
    DivMod(Shr(addr, IndexShift(level)), 9);
  }

  /** The four shifts, and the nine bits kept of each. */
  lemma IndexPlaces(addr: u64)
    ensures CalcIndex(4, addr) == And(Shr(addr, 39), 0x1FF) && CalcIndex(3, addr) == And(Shr(addr, 30), 0x1FF)
    ensures CalcIndex(2, addr) == And(Shr(addr, 21), 0x1FF) && CalcIndex(1, addr) == And(Shr(addr, 12), 0x1FF)
  {
    IndexBits(4, addr);
    IndexBits(3, addr);
    IndexBits(2, addr);
    IndexBits(1, addr);
  }

  lemma ShiftOnePlace(addr: u64, shift: nat)
    ensures Shr(addr, shift + 9) == Shr(addr, shift) / 512
  {
    Pow2Values();
    ShrTwice(addr, shift, 9);
    DivMod(Shr(addr, shift), 9);
  }

  lemma {:induction false} ShiftIsPrefix(addr: u64, level: nat)
    requires 1 <= level <= 4
    ensures Shr(addr, IndexShift(level)) == Prefix(addr / 4096, level - 1)
  {
    if level == 1 {
      Pow2Values();
      DivMod(addr, 12);
    } else {
      ShiftIsPrefix(addr, level - 1);
      ShiftOnePlace(addr, IndexShift(level - 1));
    }
  }

  lemma Div512(x: int, y: int, r: int)
    requires 0 <= r < 512 && x == 512 * y + r
    ensures x / 512 == y && x % 512 == r
  {
  }

  /** The last four digits of a number are those of its remainder by 512^4. */
  lemma DigitsOfRemainder(a: nat, level: nat)
    requires 1 <= level <= 4
    ensures Prefix(a, level - 1) % 512 == Prefix(a % PAGES, level - 1) % 512
  {
    var w, p := a / PAGES, a % PAGES;
    var p1 := p / 512;
    var p2 := p1 / 512;
    var p3 := p2 / 512;
    Div512(a, w * 0x800_0000 + p1, p % 512);
    Div512(w * 0x800_0000 + p1, w * 0x4_0000 + p2, p1 % 512);
    Div512(w * 0x4_0000 + p2, w * 512 + p3, p2 % 512);
    Div512(w * 512 + p3, w, p3);
    assert Prefix(a, 1) == w * 0x800_0000 + p1 && Prefix(p, 1) == p1;
    assert Prefix(a, 2) == w * 0x4_0000 + p2 && Prefix(p, 2) == p2;
    assert Prefix(a, 3) == w * 512 + p3 && Prefix(p, 3) == p3;
  }

  /** A page number has at most four digits. */
  lemma FourDigits(page: nat)
    ensures Prefix(page, 4) == 0 <==> page < PAGES
    ensures page == PAGES - 1 ==>
              Prefix(page, 0) % 512 == 511 && Prefix(page, 1) % 512 == 511 &&
              Prefix(page, 2) % 512 == 511 && Prefix(page, 3) % 512 == 511
  {
    assert Prefix(page, 1) == page / 512;
    assert Prefix(page, 2) == Prefix(page, 1) / 512;
    assert Prefix(page, 3) == Prefix(page, 2) / 512;
    assert Prefix(page, 4) == Prefix(page, 3) / 512;
  }

  // ---- the walk ----

  /** Entry `i` of the table at `t`; memory that holds no table reads as not present. */
  function EntryAt(frames: Frames, t: u64, i: nat): Entry {
    if t in frames && i < |frames[t]| then frames[t][i] else EMPTY
  }

  /** The table that entry `i` of the table at `t` leads to. */
  function Child(frames: Frames, t: u64, i: nat): Option<u64> {
    if EntryAt(frames, t, i).IsPresent() then Some(EntryAt(frames, t, i).frame) else None
  }

  /** The table the entries of `path` lead to. */
  function Node(frames: Frames, root: u64, path: Path): Option<u64> {
    match path
    case Root => Some(root)
    case Step(up, i) =>
      match Node(frames, root, up)
      case None => None
      case Some(t) => Child(frames, t, i)
  }

  /** The level-1 table of a page, and with it the three upper indices of the walk. */
  function LeafPath(page: nat): (r: Path)
    ensures r.Depth() == 3
  {
    Step(Step(Step(Root, Prefix(page, 3) % 512), Prefix(page, 2) % 512), Prefix(page, 1) % 512)
  }

  /** The leaf entry of a path and an index, decoded. */
  function Leaf(frames: Frames, root: u64, path: Path, i: nat): Option<Mapping> {
    match Node(frames, root, path)
    case None => None
    case Some(t) =>
      var e := EntryAt(frames, t, i);
      if e.IsPresent() then Some(Mapping(e.frame, e.flags)) else None
  }

  /** What the processor finds for a virtual page: the frame and flags of its leaf entry. */
  function Translate(frames: Frames, root: u64, page: nat): Option<Mapping> {
    Leaf(frames, root, LeafPath(page), page % 512)
  }

  /** Four entries read one after the other. */
  function Walk(frames: Frames, root: u64, i4: nat, i3: nat, i2: nat, i1: nat): Option<Mapping> {
    match Child(frames, root, i4)
    case None => None
    case Some(t3) =>
      match Child(frames, t3, i3)
      case None => None
      case Some(t2) =>
        match Child(frames, t2, i2)
        case None => None
        case Some(t1) =>
          var e := EntryAt(frames, t1, i1);
          if And(e.flags, 1) != 0 then Some(Mapping(e.frame, e.flags)) else None
  }

  lemma LeafByWalk(frames: Frames, root: u64, i4: nat, i3: nat, i2: nat, i1: nat)
    ensures Leaf(frames, root, Step(Step(Step(Root, i4), i3), i2), i1) == Walk(frames, root, i4, i3, i2, i1)
  {
    var p4 := Step(Root, i4);
    var p3 := Step(p4, i3);
    var p2 := Step(p3, i2);
    assert Node(frames, root, Root) == Some(root);
    assert Node(frames, root, p4) == Child(frames, root, i4);
    match Node(frames, root, p4)
    case None => assert Node(frames, root, p3) == Node(frames, root, p2) == None;
    case Some(t3) =>
      assert Node(frames, root, p3) == Child(frames, t3, i3);
      match Node(frames, root, p3)
      case None =>
      case Some(t2) =>
        assert Node(frames, root, p2) == Child(frames, t2, i2);
        match Node(frames, root, p2)
        case None =>
        case Some(t1) => PresentBit(EntryAt(frames, t1, i1).flags);
  }

  /** The walk is by the bits of the virtual address: 39 to 47, 30 to 38, 21 to 29, 12 to 20. */
  lemma WalkByBits(frames: Frames, root: u64, addr: u64)
    ensures Translate(frames, root, PageOf(addr)) ==
            Walk(frames, root, And(Shr(addr, 39), 0x1FF), And(Shr(addr, 30), 0x1FF),
                 And(Shr(addr, 21), 0x1FF), And(Shr(addr, 12), 0x1FF))
  {
    IndexPlaces(addr);
    LeafByWalk(frames, root, CalcIndex(4, addr), CalcIndex(3, addr), CalcIndex(2, addr), CalcIndex(1, addr));
  }

  /** Different pages have different leaf entries. */
  lemma LeafPathInjective(page: nat, other: nat)
    requires page < PAGES && other < PAGES && page != other
    ensures LeafPath(page) != LeafPath(other) || page % 512 != other % 512
  {
    Digits(page);
    Digits(other);
  }

  /** A path of three entries and a fourth one are the walk of the page they spell. */
  lemma PathOfPage(path: Path, i: nat)
    requires path.Depth() == 3 && path.InRange() && i < 512
    ensures var page := path.Number() * 512 + i;
            page < PAGES && LeafPath(page) == path && page % 512 == i
  {
    var p2, p1 := path.up, path.up.up;
    assert p2.InRange() && p1.InRange();
    assert p2.Depth() == 2 && p1.Depth() == 1 && p1.up.Depth() == 0;
    assert p1.up == Root && p1.Number() == p1.index && p2.Number() == p1.index * 512 + p2.index;
    var page := path.Number() * 512 + i;
    Div512(page, path.Number(), i);
    Div512(path.Number(), p2.Number(), path.index);
    Div512(p2.Number(), p1.Number(), p2.index);
    Div512(p1.Number(), 0, p1.index);
    assert Prefix(page, 1) == path.Number();
    assert Prefix(page, 2) == p2.Number();
    assert Prefix(page, 3) == p1.Number() < 512;
    FourDigits(page);
    assert Prefix(page, 4) == Prefix(page, 3) / 512;
  }

  lemma Digits(page: nat)
    requires page < PAGES
    ensures var p1, p2, p3 := Prefix(page, 1), Prefix(page, 2), Prefix(page, 3);
            && page == p1 * 512 + page % 512 && p1 == p2 * 512 + p1 % 512
            && p2 == p3 * 512 + p2 % 512 && p3 == p3 % 512
  {
    assert Prefix(page, 1) == page / 512;
    assert Prefix(page, 2) == Prefix(page, 1) / 512;
    assert Prefix(page, 3) == Prefix(page, 2) / 512;
  }

  /** The four indices of an address spell its page number in base 512. */
  lemma IndicesSpellPage(addr: u64)
    ensures PageOf(addr) == CalcIndex(4, addr) * 0x800_0000 + CalcIndex(3, addr) * 0x4_0000
                            + CalcIndex(2, addr) * 512 + CalcIndex(1, addr)
  {
    Digits(PageOf(addr));
  }

  // ---- the shape of the tree ----

  /** Every table has a path from the root, and a present entry `i` of a table above
      level 1 leads to the table whose path is one step longer. */
  ghost predicate WellFormed(frames: Frames, root: u64, place: map<u64, Path>) {
    && root in frames && place.Keys == frames.Keys && place[root] == Root
    && (forall f | f in frames :: |frames[f]| == 512)
    && (forall f, i {:trigger Linked(frames, place, f, i)} |
          f in frames && 0 <= i < 512 && place[f].Depth() < 3 && frames[f][i].IsPresent() ::
          Linked(frames, place, f, i))
  }

  ghost predicate Linked(frames: Frames, place: map<u64, Path>, f: u64, i: nat)
    requires f in frames && i < |frames[f]| && f in place
  {
    var t := frames[f][i].frame;
    && t in frames && t in place && place[t] == Step(place[f], i)
    && frames[f][i].flags == ReadWriteKernel.Flags()
  }

  /** Every table is reached at its place, and no table is deeper than level 1. */
  ghost predicate AllReached(frames: Frames, root: u64, place: map<u64, Path>) {
    forall f {:trigger place[f]} | f in frames :: f in place && place[f].Depth() <= 3 && Node(frames, root, place[f]) == Some(f)
  }

  /** The walk only meets tables of this tree, each at its place. */
  lemma {:induction false} NodeHasPlace(frames: Frames, root: u64, place: map<u64, Path>, path: Path)
    requires WellFormed(frames, root, place) && path.Depth() <= 3
    requires Node(frames, root, path).Some?
    ensures Node(frames, root, path).value in frames
    ensures place[Node(frames, root, path).value] == path
  {
    match path
    case Root =>
    case Step(up, i) =>
      NodeHasPlace(frames, root, place, up);
      assert Linked(frames, place, Node(frames, root, up).value, i);
  }

  /** A table reached by the walk is pointed to by exactly one entry of the tables above it. */
  lemma ReachedFromOneEntry(frames: Frames, root: u64, place: map<u64, Path>,
                            path: Path, path': Path, i: nat, i': nat)
    requires WellFormed(frames, root, place)
    requires path.Depth() < 3 && path'.Depth() < 3
    requires Node(frames, root, path).Some? && Node(frames, root, path').Some?
    requires var f, f' := Node(frames, root, path).value, Node(frames, root, path').value;
             Child(frames, f, i).Some? && Child(frames, f, i) == Child(frames, f', i')
    ensures path == path' && i == i'
  {
    NodeHasPlace(frames, root, place, path);
    NodeHasPlace(frames, root, place, path');
    var f, f' := Node(frames, root, path).value, Node(frames, root, path').value;
    assert Linked(frames, place, f, i) && Linked(frames, place, f', i');
  }

  // ---- one new, empty table ----

  /** The frames after linking the zeroed frame `t` under entry `i` of table `f`. */
  function Populated(frames: Frames, f: u64, i: nat, t: u64): Frames
    requires f in frames && i < |frames[f]|
  {
    frames[f := frames[f][i := Entry(t, ReadWriteKernel.Flags())]][t := seq(512, _ => EMPTY)]
  }

  ghost predicate CanPopulate(frames: Frames, root: u64, place: map<u64, Path>, f: u64, i: nat, t: u64) {
    && WellFormed(frames, root, place)
    && f in frames && i < 512 && place[f].Depth() < 3 && !frames[f][i].IsPresent()
    && t !in frames
  }

  lemma PopulatedWellFormed(frames: Frames, root: u64, place: map<u64, Path>, f: u64, i: nat, t: u64)
    requires CanPopulate(frames, root, place, f, i, t)
    ensures WellFormed(Populated(frames, f, i, t), root, place[t := Step(place[f], i)])
  {
    var frames': Frames := Populated(frames, f, i, t);
    var place' := place[t := Step(place[f], i)];
    forall g, j | g in frames' && 0 <= j < 512 && place'[g].Depth() < 3 && frames'[g][j].IsPresent()
      ensures Linked(frames', place', g, j)
    {
      if g != t && (g != f || j != i) {
        assert Linked(frames, place, g, j);
      }
    }
  }

  lemma PopulatedEntry(frames: Frames, root: u64, place: map<u64, Path>, f: u64, i: nat, t: u64, g: u64, j: nat)
    requires CanPopulate(frames, root, place, f, i, t)
    ensures EntryAt(Populated(frames, f, i, t), g, j) ==
            if g == t then EMPTY else if g == f && j == i then Entry(t, 3) else EntryAt(frames, g, j)
    ensures Child(Populated(frames, f, i, t), g, j) ==
            if g == t then None else if g == f && j == i then Some(t) else Child(frames, g, j)
    ensures Child(frames, f, i) == None
  {
    var frames': Frames := Populated(frames, f, i, t);
    if g == t {
      assert j < 512 ==> frames'[t][j] == EMPTY;
    } else if g == f {
      assert frames'[f] == frames[f][i := Entry(t, 3)];
    }
  }

  /** Linking an empty table moves no table the walk already reached. */
  lemma {:induction false} PopulatedNode(frames: Frames, root: u64, place: map<u64, Path>, f: u64, i: nat, t: u64,
                                         path: Path)
    requires CanPopulate(frames, root, place, f, i, t) && path.Depth() <= 3
    ensures Node(frames, root, path).Some? ==>
              Node(Populated(frames, f, i, t), root, path) == Node(frames, root, path)
    ensures Node(frames, root, path) == None ==>
              || Node(Populated(frames, f, i, t), root, path) == None
              || Node(Populated(frames, f, i, t), root, path) == Some(t)
  {
    match path
    case Root =>
    case Step(up, j) =>
      PopulatedNode(frames, root, place, f, i, t, up);
      match Node(frames, root, up)
      case None => PopulatedEntry(frames, root, place, f, i, t, t, j);
      case Some(g) =>
        NodeHasPlace(frames, root, place, up);
        PopulatedEntry(frames, root, place, f, i, t, g, j);
  }

  lemma PopulatedReached(frames: Frames, root: u64, place: map<u64, Path>, f: u64, i: nat, t: u64)
    requires CanPopulate(frames, root, place, f, i, t) && AllReached(frames, root, place)
    ensures AllReached(Populated(frames, f, i, t), root, place[t := Step(place[f], i)])
  {
    var frames': Frames := Populated(frames, f, i, t);
    forall g | g in frames ensures Node(frames', root, place[g]) == Some(g) {
      PopulatedNode(frames, root, place, f, i, t, place[g]);
    }
    PopulatedEntry(frames, root, place, f, i, t, f, i);
  }

  /** ... and changes no leaf. */
  lemma PopulatedLeaf(frames: Frames, root: u64, place: map<u64, Path>, f: u64, i: nat, t: u64, path: Path, j: nat)
    requires CanPopulate(frames, root, place, f, i, t) && path.Depth() == 3
    ensures Leaf(Populated(frames, f, i, t), root, path, j) == Leaf(frames, root, path, j)
  {
    PopulatedNode(frames, root, place, f, i, t, path);
    match Node(frames, root, path)
    case None => PopulatedEntry(frames, root, place, f, i, t, t, j);
    case Some(g) =>
      NodeHasPlace(frames, root, place, path);
      assert g != f && g != t;
      PopulatedEntry(frames, root, place, f, i, t, g, j);
  }

  // ---- one leaf write ----

  ghost predicate CanWriteLeaf(frames: Frames, root: u64, place: map<u64, Path>, f: u64, i: nat) {
    && WellFormed(frames, root, place) && AllReached(frames, root, place)
    && f in frames && place[f].Depth() == 3 && i < 512
  }

  function LeafWritten(frames: Frames, f: u64, i: nat, e: Entry): Frames
    requires f in frames && i < |frames[f]|
  {
    frames[f := frames[f][i := e]]
  }

  lemma LeafWrittenWellFormed(frames: Frames, root: u64, place: map<u64, Path>, f: u64, i: nat, e: Entry)
    requires CanWriteLeaf(frames, root, place, f, i)
    ensures WellFormed(LeafWritten(frames, f, i, e), root, place)
  {
    var frames': Frames := LeafWritten(frames, f, i, e);
    forall g, j | g in frames' && 0 <= j < 512 && place[g].Depth() < 3 && frames'[g][j].IsPresent()
      ensures Linked(frames', place, g, j)
    {
      assert Linked(frames, place, g, j);
    }
  }

  lemma LeafWrittenEntry(frames: Frames, root: u64, place: map<u64, Path>, f: u64, i: nat, e: Entry, g: u64, j: nat)
    requires CanWriteLeaf(frames, root, place, f, i)
    ensures EntryAt(LeafWritten(frames, f, i, e), g, j) ==
            if g == f && j == i then e else EntryAt(frames, g, j)
  {
  }

  lemma {:induction false} LeafWrittenNode(frames: Frames, root: u64, place: map<u64, Path>, f: u64, i: nat,
                                           e: Entry, path: Path)
    requires CanWriteLeaf(frames, root, place, f, i) && path.Depth() <= 3
    ensures Node(LeafWritten(frames, f, i, e), root, path) == Node(frames, root, path)
  {
    match path
    case Root =>
    case Step(up, j) =>
      LeafWrittenNode(frames, root, place, f, i, e, up);
      match Node(frames, root, up)
      case None =>
      case Some(g) =>
        NodeHasPlace(frames, root, place, up);
        LeafWrittenEntry(frames, root, place, f, i, e, g, j);
  }

  lemma LeafWrittenReached(frames: Frames, root: u64, place: map<u64, Path>, f: u64, i: nat, e: Entry)
    requires CanWriteLeaf(frames, root, place, f, i)
    ensures AllReached(LeafWritten(frames, f, i, e), root, place)
  {
    var frames': Frames := LeafWritten(frames, f, i, e);
    forall g | g in frames' ensures Node(frames', root, place[g]) == Some(g) {
      LeafWrittenNode(frames, root, place, f, i, e, place[g]);
    }
  }

  /** One leaf write changes exactly one leaf. */
  lemma LeafWrittenLeaf(frames: Frames, root: u64, place: map<u64, Path>, f: u64, i: nat, e: Entry,
                        path: Path, j: nat)
    requires CanWriteLeaf(frames, root, place, f, i) && path.Depth() == 3
    ensures Leaf(LeafWritten(frames, f, i, e), root, path, j) ==
            if path != place[f] || j != i then Leaf(frames, root, path, j)
            else if e.IsPresent() then Some(Mapping(e.frame, e.flags))
            else None
  {
    LeafWrittenNode(frames, root, place, f, i, e, path);
    match Node(frames, root, path)
    case None =>
    case Some(g) =>
      NodeHasPlace(frames, root, place, path);
      LeafWrittenEntry(frames, root, place, f, i, e, g, j);
  }

  // ---- every entry is a word ----

  /** Frames are page aligned and every entry has an encoding. */
  ghost predicate AllEncodable(frames: Frames) {
    && (forall f | f in frames :: f % 4096 == 0)
    && (forall f, i | f in frames && 0 <= i < |frames[f]| :: frames[f][i].Encodable())
  }

  lemma PopulatedEncodable(frames: Frames, f: u64, i: nat, t: u64)
    requires AllEncodable(frames) && f in frames && i < |frames[f]| && t % 4096 == 0
    ensures AllEncodable(Populated(frames, f, i, t))
  {
    assert Entry(t, 3).Encodable();
  }

  lemma LeafWrittenEncodable(frames: Frames, f: u64, i: nat, e: Entry)
    requires AllEncodable(frames) && f in frames && i < |frames[f]| && e.Encodable()
    ensures AllEncodable(LeafWritten(frames, f, i, e))
  {
  }
}

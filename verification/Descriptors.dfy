/** USB descriptors read one after the other from the bytes of a configuration. */
module Descriptors {
  import opened Bits
  import opened Sequences

  const CONFIG: u8 := 2
  const INTERFACE: u8 := 4
  const ENDPOINT: u8 := 5

  datatype Descriptor =
    | Config(length: u8, kind: u8, totalLength: u16, interfaces: u8, value: u8, text: u8, attributes: u8, maxPower: u8)
    | Interface(length: u8, kind: u8, number: u8, alternate: u8, endpoints: u8,
                interfaceClass: u8, subclass: u8, protocol: u8, index: u8)
    | Endpoint(length: u8, kind: u8, address: u8, attributes: u8, maxPacketSize: u16, interval: u8)
    | Unknown(length: u8, kind: u8)

  /** Bytes the layout of this kind takes. */
  function Size(kind: u8): nat {
    if kind == CONFIG || kind == INTERFACE then 9 else if kind == ENDPOINT then 7 else 2
  }

  /** A little-endian field of two bytes. */
  function Word(low: u8, high: u8): u16 {
    low + 0x100 * high
  }

  /** The layouts laid over the first bytes. */
  function Layout(b: seq<u8>): Descriptor
    requires |b| >= 2 && |b| >= Size(b[1])
  {
    if b[1] == CONFIG then Config(b[0], b[1], Word(b[2], b[3]), b[4], b[5], b[6], b[7], b[8])
    else if b[1] == INTERFACE then Interface(b[0], b[1], b[2], b[3], b[4], b[5], b[6], b[7], b[8])
    else if b[1] == ENDPOINT then Endpoint(b[0], b[1], b[2], b[3], Word(b[4], b[5]), b[6])
    else Unknown(b[0], b[1])
  }

  /** One call of `next`: an item, no item, or an index out of range. */
  datatype Step = Item(d: Descriptor) | Nothing | OutOfRange

  function NextStep(buf: seq<u8>, index: nat): Step {
    if index >= |buf| then Nothing
    else
      var rest := buf[index..];
      if |rest| < 2 then OutOfRange
      else if |rest| < Size(rest[1]) then Nothing
      else Item(Layout(rest))
  }

  /** How a walk over the buffer ends: behind the last byte read, at a layout cut short, at a
      single last byte, or never because a descriptor of length 0 is read again and again. */
  datatype End = Exhausted(index: nat) | CutShort | Panicked | Endless

  datatype Walked = Walked(items: seq<Descriptor>, end: End)

  /** All that the iterator yields from `index` on. */
  function Walk(buf: seq<u8>, index: nat): Walked
    decreases |buf| - index
  {
    if index >= |buf| then Walked([], Exhausted(index))
    else
      match NextStep(buf, index)
      case OutOfRange => Walked([], Panicked)
      case Nothing => Walked([], CutShort)
      case Item(d) =>
        if d.length == 0 then Walked([d], Endless)
        else
          var rest := Walk(buf, index + d.length);
          Walked([d] + rest.items, rest.end)
  }

  // ---- fields to bytes and back ----

  function Bytes(d: Descriptor): seq<u8> {
    match d
    case Config(length, kind, total, n, value, text, attributes, power) =>
      [length, kind, total % 0x100, total / 0x100, n, value, text, attributes, power]
    case Interface(length, kind, number, alternate, n, class', subclass, protocol, index) =>
      [length, kind, number, alternate, n, class', subclass, protocol, index]
    case Endpoint(length, kind, address, attributes, size, interval) =>
      [length, kind, address, attributes, size % 0x100, size / 0x100, interval]
    case Unknown(length, kind) => [length, kind]
  }

  /** The kind byte names the layout. */
  predicate Tagged(d: Descriptor) {
    match d
    case Config(_, kind, _, _, _, _, _, _) => kind == CONFIG
    case Interface(_, kind, _, _, _, _, _, _, _) => kind == INTERFACE
    case Endpoint(_, kind, _, _, _, _) => kind == ENDPOINT
    case Unknown(_, kind) => kind != CONFIG && kind != INTERFACE && kind != ENDPOINT
  }

  /** Whatever follows the fields, they are read back. */
  lemma LayoutOfBytes(d: Descriptor, rest: seq<u8>)
    requires Tagged(d)
    ensures |Bytes(d)| == Size(d.kind) && |Bytes(d) + rest| >= Size((Bytes(d) + rest)[1])
    ensures Layout(Bytes(d) + rest) == d
  {
    var b := Bytes(d) + rest;
    assert forall k | 0 <= k < |Bytes(d)| :: b[k] == Bytes(d)[k];
  }

  lemma BytesOfLayout(b: seq<u8>)
    requires |b| >= 2 && |b| >= Size(b[1])
    ensures Tagged(Layout(b)) && Bytes(Layout(b)) == b[..Size(b[1])]
  {
  }

  /** Which byte is which field: of a configuration (2), an interface (4), an endpoint (5), and
      of anything else only its length and kind (section 9.6 of the USB 2.0 specification). */
  lemma FieldPlaces(b: seq<u8>)
    requires |b| >= 2 && |b| >= Size(b[1])
    ensures Layout(b).length == b[0] && Layout(b).kind == b[1]
    ensures Layout(b).Config? <==> b[1] == 2
    ensures Layout(b).Interface? <==> b[1] == 4
    ensures Layout(b).Endpoint? <==> b[1] == 5
    ensures b[1] == 2 ==>
              && |b| >= 9 && Layout(b).totalLength % 256 == b[2] && Layout(b).totalLength / 256 == b[3] && Layout(b).interfaces == b[4]
              && Layout(b).value == b[5] && Layout(b).text == b[6] && Layout(b).attributes == b[7] && Layout(b).maxPower == b[8]
    ensures b[1] == 4 ==>
              && |b| >= 9 && Layout(b).number == b[2] && Layout(b).alternate == b[3] && Layout(b).endpoints == b[4]
              && Layout(b).interfaceClass == b[5] && Layout(b).subclass == b[6] && Layout(b).protocol == b[7]
              && Layout(b).index == b[8]
    ensures b[1] == 5 ==>
              && |b| >= 7 && Layout(b).address == b[2] && Layout(b).attributes == b[3]
              && Layout(b).maxPacketSize % 256 == b[4] && Layout(b).maxPacketSize / 256 == b[5] && Layout(b).interval == b[6]
  {
  }

  /** What `next` reads: nothing behind the end, out of range at a single last byte, nothing for
      a layout cut short, and otherwise a descriptor of the bytes from the index on. */
  lemma NextReads(buf: seq<u8>, index: nat)
    ensures NextStep(buf, index) == OutOfRange <==> index + 1 == |buf|
    ensures NextStep(buf, index) == Nothing <==>
            || index >= |buf|
            || (index + 1 < |buf| && (buf[index + 1] == 2 || buf[index + 1] == 4) && |buf| < index + 9)
            || (index + 1 < |buf| && buf[index + 1] == 5 && |buf| < index + 7)
    ensures NextStep(buf, index).Item? ==>
              && index + 1 < |buf| && NextStep(buf, index).d.length == buf[index]
              && NextStep(buf, index).d.kind == buf[index + 1] && |buf| - index >= Size(buf[index + 1])
              && NextStep(buf, index).d == Layout(buf[index..])
  {
    if index + 1 < |buf| {
      assert buf[index..][0] == buf[index] && buf[index..][1] == buf[index + 1];
    }
  }

  // ---- concatenated descriptors ----

  /** The length byte is true and at least 2, and known kinds are long enough. */
  predicate Sound(b: seq<u8>) {
    |b| >= 2 && b[0] == |b| && |b| >= Size(b[1])
  }

  ghost predicate AllSound(bs: seq<seq<u8>>) {
    forall k | 0 <= k < |bs| :: Sound(bs[k])
  }

  function Concat(bs: seq<seq<u8>>): seq<u8> {
    if bs == [] then [] else bs[0] + Concat(bs[1..])
  }

  ghost function Layouts(bs: seq<seq<u8>>): seq<Descriptor>
    requires AllSound(bs)
  {
    if bs == [] then [] else [Layout(bs[0])] + Layouts(bs[1..])
  }

  lemma LayoutOfPrefix(b: seq<u8>, rest: seq<u8>)
    requires Sound(b)
    ensures (b + rest)[1] == b[1] && Layout(b + rest) == Layout(b)
  {
    assert forall k | 0 <= k < |b| :: (b + rest)[k] == b[k];
  }

  lemma WalkOne(buf: seq<u8>, index: nat, b: seq<u8>, rest: seq<u8>)
    requires index <= |buf| && buf[index..] == b + rest && Sound(b)
    ensures var later := Walk(buf, index + |b|);
            Walk(buf, index) == Walked([Layout(b)] + later.items, later.end)
  {
    LayoutOfPrefix(b, rest);
    assert NextStep(buf, index) == Item(Layout(b)) && Layout(b).length == |b|;
  }

  lemma DropAgain(buf: seq<u8>, index: nat, b: seq<u8>, rest: seq<u8>)
    requires index <= |buf| && buf[index..] == b + rest
    ensures index + |b| <= |buf| && buf[index + |b|..] == rest
  {
    assert buf[index + |b|..] == buf[index..][|b|..];
  }

  /** Descriptors written one after the other are read in order, each once, and the walk ends
      behind the last byte. */
  lemma {:induction false} WalkReadsAll(buf: seq<u8>, index: nat, bs: seq<seq<u8>>)
    requires AllSound(bs) && index <= |buf| && buf[index..] == Concat(bs)
    ensures Walk(buf, index) == Walked(Layouts(bs), Exhausted(|buf|))
    decreases |bs|
  {
    if bs == [] {
    } else {
      assert Sound(bs[0]);
      DropAgain(buf, index, bs[0], Concat(bs[1..]));
      WalkOne(buf, index, bs[0], Concat(bs[1..]));
      WalkReadsAll(buf, index + |bs[0]|, bs[1..]);
    }
  }

  lemma WalkFirst(buf: seq<u8>, index: nat)
    requires index < |buf| && Walk(buf, index).end.Exhausted?
    ensures NextStep(buf, index).Item? && NextStep(buf, index).d.length > 0
    ensures var d, rest := NextStep(buf, index).d, Walk(buf, index + NextStep(buf, index).d.length);
            Walk(buf, index) == Walked([d] + rest.items, rest.end)
  {
  }

  /** The first descriptor in front of a buffer that is split already. */
  lemma SplitFirst(buf: seq<u8>, index: nat, b: seq<u8>, rest: seq<seq<u8>>)
    requires index + |b| <= |buf| && b == buf[index..index + |b|] && Sound(b)
    requires AllSound(rest) && Concat(rest) == buf[index + |b|..]
    ensures AllSound([b] + rest) && Concat([b] + rest) == buf[index..]
    ensures Layouts([b] + rest) == [Layout(b)] + Layouts(rest) && Layout(buf[index..]) == Layout(b)
  {
    assert ([b] + rest)[1..] == rest;
    assert b + buf[index + |b|..] == buf[index..];
    LayoutOfPrefix(b, buf[index + |b|..]);
  }

  /** And only such a buffer is walked to its exact end in steps of at least two bytes. */
  lemma {:induction false} WalkSplits(buf: seq<u8>, index: nat) returns (bs: seq<seq<u8>>)
    requires index <= |buf| && Walk(buf, index).end == Exhausted(|buf|)
    requires forall k | 0 <= k < |Walk(buf, index).items| ::
               Walk(buf, index).items[k].length >= Size(Walk(buf, index).items[k].kind)
    ensures AllSound(bs) && Concat(bs) == buf[index..] && Layouts(bs) == Walk(buf, index).items
    decreases |buf| - index
  {
    if index == |buf| {
      bs := [];
    } else {
      WalkFirst(buf, index);
      var d, items := NextStep(buf, index).d, Walk(buf, index).items;
      var next := index + d.length;
      assert items[0] == d && items[1..] == Walk(buf, next).items;
      WalkEndsLater(buf, next);
      forall k | 0 <= k < |items[1..]| ensures items[1..][k].length >= Size(items[1..][k].kind) {
        assert items[1..][k] == items[k + 1];
      }
      var rest := WalkSplits(buf, next);
      NextReads(buf, index);
      SplitFirst(buf, index, buf[index..next], rest);
      bs := [buf[index..next]] + rest;
    }
  }

  lemma {:induction false} WalkEndsLater(buf: seq<u8>, index: nat)
    ensures Walk(buf, index).end.Exhausted? ==> Walk(buf, index).end.index >= index
    decreases |buf| - index
  {
    if index < |buf| && NextStep(buf, index).Item? && NextStep(buf, index).d.length > 0 {
      WalkEndsLater(buf, index + NextStep(buf, index).d.length);
    }
  }

  function TotalLength(ds: seq<Descriptor>): nat {
    if ds == [] then 0 else ds[0].length + TotalLength(ds[1..])
  }

  /** Where a walk stops: behind the lengths of all it yielded, at the end of the buffer or at
      what it could not read or pass. */
  lemma {:induction false} WalkStops(buf: seq<u8>, index: nat) returns (at: nat)
    ensures at == index + TotalLength(Walk(buf, index).items)
    ensures match Walk(buf, index).end
            case Exhausted(i) => i == at >= |buf|
            case Panicked => at + 1 == |buf|
            case CutShort => at + 1 < |buf| && |buf| - at < Size(buf[at + 1])
            case Endless => at < |buf| && buf[at] == 0
    decreases |buf| - index
  {
    at := index;
    if index < |buf| {
      NextReads(buf, index);
      if NextStep(buf, index).Item? {
        var d := NextStep(buf, index).d;
        if d.length == 0 {
          assert Walk(buf, index).items == [d];
        } else {
          var rest := Walk(buf, index + d.length);
          assert Walk(buf, index) == Walked([d] + rest.items, rest.end);
          assert ([d] + rest.items)[1..] == rest.items;
          at := WalkStops(buf, index + d.length);
        }
      }
    }
  }

  // ---- the iterator ----

  class DescriptorIterator {
    const buf: seq<u8>
    var index: nat

    constructor (buf: seq<u8>)
      ensures this.buf == buf && index == 0
    {
      this.buf := buf;
      index := 0;
    }

    method Next() returns (r: Step)
      modifies this
      ensures r == NextStep(buf, old(index))
      ensures index == if r.Item? then old(index) + r.d.length else old(index)
    {
      if index >= |buf| {
        return Nothing;
      }
      var rest := buf[index..];
      if |rest| < 2 {
        return OutOfRange;
      }
      if |rest| < Size(rest[1]) {
        return Nothing;
      }
      var d := Layout(rest);
      index := index + d.length;
      return Item(d);
    }

    /** All that is left, as `collect` does it; without a descriptor of length 0 it ends. */
    method Collect() returns (items: seq<Descriptor>, last: Step)
      requires Walk(buf, index).end != Endless
      modifies this
      ensures items == old(Walk(buf, index).items) && !last.Item?
      ensures last == OutOfRange <==> old(Walk(buf, index).end) == Panicked
    {
      ghost var all := Walk(buf, index);
      items := [];
      while true
        invariant items + Walk(buf, index).items == all.items && Walk(buf, index).end == all.end
        decreases |buf| - index
      {
        last := Next();
        if !last.Item? {
          break;
        }
        AppendAssociates(items, [last.d], Walk(buf, index).items);
        items := items + [last.d];
      }
    }
  }
}

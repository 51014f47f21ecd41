/** The requests the driver makes: their ring entries, and the steps that push them and make
    the future that waits, with nothing in between. */
module Requests {
  import opened Bits
  import opened Results
  import opened Trbs
  import opened Waiters
  import opened CommandRings
  import opened EventRings
  import opened Delivery
  import R = RingProtocol

  // Control words, without the cycle bit and shifted right by one: the type starts at bit 9.
  const SHORT_PACKET: nat := 2
  const ON_COMPLETION: nat := 16
  const IMMEDIATE: nat := 32
  const DIR_IN: nat := 0x8000
  const SETUP_STAGE: nat := 2 * 512
  const DATA_STAGE: nat := 3 * 512
  const STATUS_STAGE: nat := 4 * 512
  const NORMAL: nat := 512

  /** No data stage, or one in the direction `request` seems to give: 3 is in, 2 is out. */
  function TransferType(request: u8, length: u16): nat {
    if length == 0 then 0 else if And(request, 128) != 0 then 3 else 2
  }

  function SetupStage(requestType: u8, request: u8, value: u16, index: u16, length: u16): Trb {
    Trb(requestType + 0x100 * request + 0x1_0000 * value + 0x1_0000_0000 * index + 0x1_0000_0000_0000 * length,
        8, TransferType(request, length) * 0x8000 + SETUP_STAGE + IMMEDIATE, false)
  }

  /** The casts of a buffer's size to the widths of the length fields. */
  function AsU16(size: u64): u16 {
    size % 0x1_0000
  }

  function AsU32(size: u64): u32 {
    size % 0x1_0000_0000
  }

  function DataIn(buf: u64, size: u64): Trb {
    Trb(buf, AsU32(size), DATA_STAGE + DIR_IN + ON_COMPLETION + SHORT_PACKET, false)
  }

  function StatusIn(): Trb {
    Trb(0, 0, STATUS_STAGE + DIR_IN + ON_COMPLETION + SHORT_PACKET, false)
  }

  function StatusOut(): Trb {
    Trb(0, 0, STATUS_STAGE, false)
  }

  function NormalIn(buf: u64, size: u64): Trb {
    Trb(buf, AsU32(size), NORMAL + DIR_IN + ON_COMPLETION + SHORT_PACKET, false)
  }

  function NormalOut(buf: u64, size: u64): Trb {
    Trb(buf, AsU32(size), NORMAL + ON_COMPLETION + SHORT_PACKET, false)
  }

  /** A request for a descriptor: setup, data in, status out; the data stage is waited for. */
  function DescriptorRequest(descType: u8, descIndex: u8, langId: u16, buf: u64, size: u64): seq<Trb> {
    [SetupStage(0x80, 6, 0x100 * descType + descIndex, langId, AsU16(size)), DataIn(buf, size), StatusOut()]
  }

  /** A request without data: setup, status in; the status stage is waited for. */
  function NoDataRequest(requestType: u8, request: u8, value: u16, index: u16): seq<Trb> {
    [SetupStage(requestType, request, value, index, 0), StatusIn()]
  }

  /** The entries of the data and status stages and of bulk transfers, at their places in the
      entry (xHCI specification, sections 6.4.1.1 and 6.4.1.2): the buffer, the low half of its
      size, the type in bits 10 to 15, the direction in bit 16, and whether completion and short
      packets are reported in bits 5 and 2. */
  lemma StageFields(buf: u64, size: u64)
    ensures DataIn(buf, size) == Trb(buf, size % 0x1_0000_0000, DataIn(buf, size).body, false)
    ensures NormalIn(buf, size) == Trb(buf, size % 0x1_0000_0000, NormalIn(buf, size).body, false)
    ensures NormalOut(buf, size) == Trb(buf, size % 0x1_0000_0000, NormalOut(buf, size).body, false)
    ensures StatusIn() == Trb(0, 0, StatusIn().body, false) && StatusOut() == Trb(0, 0, StatusOut().body, false)
    ensures DataIn(buf, size).Control() == 3 * 0x400 + 0x1_0000 + 0x20 + 0x4
    ensures NormalIn(buf, size).Control() == 1 * 0x400 + 0x1_0000 + 0x20 + 0x4
    ensures NormalOut(buf, size).Control() == 1 * 0x400 + 0x20 + 0x4
    ensures StatusIn().Control() == 4 * 0x400 + 0x1_0000 + 0x20 + 0x4 && StatusOut().Control() == 4 * 0x400
  {
  }

  /** The stages of a request for a descriptor: request 6 from the device, the descriptor's type
      and index as the value, the low 16 bits of the size; then the buffer; then status out. */
  lemma DescriptorStages(descType: u8, descIndex: u8, langId: u16, buf: u64, size: u64)
    ensures var t := DescriptorRequest(descType, descIndex, langId, buf, size);
            && |t| == 3 && t[1] == DataIn(buf, size) && t[2] == StatusOut()
            && t[0].data % 0x100 == 0x80 && t[0].data / 0x100 % 0x100 == 6
            && t[0].data / 0x1_0000 % 0x100 == descIndex && t[0].data / 0x100_0000 % 0x100 == descType
            && t[0].data / 0x1_0000_0000 % 0x1_0000 == langId && t[0].data / 0x1_0000_0000_0000 == size % 0x1_0000
  {
    var value: u16 := 0x100 * descType + descIndex;
    SetupFields(0x80, 6, value, langId, AsU16(size));
    ByteOfWord(SetupStage(0x80, 6, value, langId, AsU16(size)).data, value, descType, descIndex);
  }

  lemma ByteOfWord(d: nat, value: nat, high: nat, low: nat)
    requires value == 0x100 * high + low && high < 0x100 && low < 0x100 && d / 0x1_0000 % 0x1_0000 == value
    ensures d / 0x1_0000 % 0x100 == low && d / 0x100_0000 % 0x100 == high
  {
    var w := d / 0x1_0000;
    var q := w / 0x1_0000;
    assert w == q * 0x1_0000 + value;
    DivModUnique(w, 0x100, q * 0x100 + high, low);
    DivModUnique(q * 0x100 + high, 0x100, q, high);
    assert d / 0x100_0000 == w / 0x100;
  }

  /** The stages of a request without data. */
  lemma NoDataStages(requestType: u8, request: u8, value: u16, index: u16)
    ensures var t := NoDataRequest(requestType, request, value, index);
            && |t| == 2 && t[1] == StatusIn()
            && t[0].data % 0x100 == requestType && t[0].data / 0x100 % 0x100 == request
            && t[0].data / 0x1_0000 % 0x1_0000 == value && t[0].data / 0x1_0000_0000 % 0x1_0000 == index
            && t[0].data / 0x1_0000_0000_0000 == 0
  {
    SetupFields(requestType, request, value, index, 0);
  }

  /** What each caller pushes is a request: one entry reports, the one waited for. */
  lemma CallersMakeRequests(descType: u8, descIndex: u8, langId: u16, buf: u64, size: u64,
                            requestType: u8, request: u8, value: u16, index: u16)
    ensures Request(Transfers, DescriptorRequest(descType, descIndex, langId, buf, size), 1)
    ensures Request(Transfers, NoDataRequest(requestType, request, value, index), 1)
    ensures Request(Transfers, [NormalIn(buf, size)], 0) && Request(Transfers, [NormalOut(buf, size)], 0)
  {
    DescriptorIsRequest(descType, descIndex, langId, buf, size);
    NoDataIsRequest(requestType, request, value, index);
    TransferIsRequest(buf, size);
  }

  lemma DescriptorIsRequest(descType: u8, descIndex: u8, langId: u16, buf: u64, size: u64)
    ensures Request(Transfers, DescriptorRequest(descType, descIndex, langId, buf, size), 1)
  {
    SetupIsSilent(0x80, 6, 0x100 * descType + descIndex, langId, AsU16(size));
    DataReports(SetupStage(0x80, 6, 0x100 * descType + descIndex, langId, AsU16(size)), buf, size);
  }

  lemma DataReports(setup: Trb, buf: u64, size: u64)
    requires setup.TrbType() == 2 && !setup.InterruptOnCompletion()
    ensures Request(Transfers, [setup, DataIn(buf, size), StatusOut()], 1)
  {
  }

  lemma NoDataIsRequest(requestType: u8, request: u8, value: u16, index: u16)
    ensures Request(Transfers, NoDataRequest(requestType, request, value, index), 1)
  {
    SetupIsSilent(requestType, request, value, index, 0);
    StatusReports(SetupStage(requestType, request, value, index, 0));
  }

  lemma StatusReports(setup: Trb)
    requires setup.TrbType() == 2 && !setup.InterruptOnCompletion()
    ensures Request(Transfers, [setup, StatusIn()], 1)
  {
  }

  lemma TransferIsRequest(buf: u64, size: u64)
    ensures Request(Transfers, [NormalIn(buf, size)], 0) && Request(Transfers, [NormalOut(buf, size)], 0)
  {
  }

  lemma SetupIsSilent(requestType: u8, request: u8, value: u16, index: u16, length: u16)
    ensures var t := SetupStage(requestType, request, value, index, length);
            t.TrbType() == 2 && !t.InterruptOnCompletion()
  {
  }

  /** The fields of a setup stage, at their places in the entry (xHCI specification, section
      6.4.1.2.1): the request packet in the data, and its transfer type in bits 16 and 17. */
  lemma SetupFields(requestType: u8, request: u8, value: u16, index: u16, length: u16)
    ensures var t := SetupStage(requestType, request, value, index, length);
            && t.data % 0x100 == requestType && t.data / 0x100 % 0x100 == request
            && t.data / 0x1_0000 % 0x1_0000 == value && t.data / 0x1_0000_0000 % 0x1_0000 == index
            && t.data / 0x1_0000_0000_0000 == length && t.option == 8
            && t.Control() / 0x1_0000 % 4 == TransferType(request, length) && t.Control() / 64 % 2 == 1
  {
    var d := SetupStage(requestType, request, value, index, length).data;
    DivModUnique(d, 0x100, request + 0x100 * value + 0x100_0000 * index + 0x100_0000_0000 * length, requestType);
    DivModUnique(d / 0x100, 0x100, value + 0x1_0000 * index + 0x1_0000_0000 * length, request);
    DivModUnique(d, 0x1_0000, value + 0x1_0000 * index + 0x1_0000_0000 * length, requestType + 0x100 * request);
    DivModUnique(d / 0x1_0000, 0x1_0000, index + 0x1_0000 * length, value);
    DivModUnique(d, 0x1_0000_0000, index + 0x1_0000 * length, requestType + 0x100 * request + 0x1_0000 * value);
    DivModUnique(d / 0x1_0000_0000, 0x1_0000, length, index);
    DivModUnique(d, 0x1_0000_0000_0000, length, requestType + 0x100 * request + 0x1_0000 * value + 0x1_0000_0000 * index);
  }

  lemma {:induction false} AndPow2(x: nat, k: nat)
    ensures And(x, Pow2(k)) != 0 <==> Bit(x, k)
  {
    if k == 0 {
      AndHalves(x, 1);
      assert And(x / 2, 0) == 0;
    } else {
      AndDouble(x, Pow2(k - 1), Pow2(k));
      AndPow2(x / 2, k - 1);
    }
  }

  lemma TopBitOfByte(x: u8)
    ensures And(x, 128) != 0 <==> x >= 128
  {
    Pow2Values();
    assert Pow2(8) == 2 * Pow2(7);
    AndPow2(x, 7);
    BitOfShr(x, 7, 0);
    DivMod(x, 7);
    assert Bit(x / 128, 0) <==> x / 128 == 1;
  }

  /** The type of a transfer should follow the direction bit of the request type (xHCI
      specification, section 6.4.1.2.1), but is taken from that bit of the request number:
      it is right exactly when the two agree. */
  lemma TransferTypeIsRight(requestType: u8, request: u8, length: u16)
    ensures TransferType(request, length) == (if length == 0 then 0 else if requestType >= 128 then 3 else 2)
            <==> length == 0 || (request >= 128 <==> requestType >= 128)
  {
    TopBitOfByte(request);
  }

  /** So every request for a descriptor, which is an IN transfer, is marked OUT. */
  lemma DescriptorRequestMarkedOut(length: u16)
    requires length > 0
    ensures TransferType(6, length) == 2
  {
    TopBitOfByte(6);
  }

  // ---- driver steps ----

  lemma PushAllInRing(r: R.Ring, trbs: seq<Trb>)
    requires r.index < |r.slots| == R.NUM_TRB
    ensures PushAll(r, trbs).result.Ok? ==>
              forall k | 0 <= k < |trbs| :: InRing(r.base, PushAll(r, trbs).result.value[k])
    decreases |trbs|
  {
    if trbs != [] {
      PushAllInRing(R.Push(r, trbs[0]).ring, trbs[1..]);
    }
  }

  /** The first push, and what follows unless it fails. */
  function Then(first: R.Pushed, tail: Sent): Sent {
    if first.result.Err? then Sent(first.ring, Err(first.result.message))
    else if tail.result.Err? then tail
    else Sent(tail.ring, Ok([first.result.value] + tail.result.value))
  }

  lemma PushFirst(r: R.Ring, t: Trb, rest: seq<Trb>, first: R.Pushed)
    requires r.index < |r.slots| && first == R.Push(r, t)
    ensures PushAll(r, [t] + rest) == Then(first, PushAll(first.ring, rest))
  {
    assert ([t] + rest)[1..] == rest;
  }

  lemma PushLast(r: R.Ring, t: Trb, first: R.Pushed)
    requires r.index < |r.slots| && first == R.Push(r, t)
    ensures PushAll(r, [t]) == Then(first, Sent(first.ring, Ok([])))
  {
    PushFirst(r, t, [], first);
    assert [t] + [] == [t];
    assert PushAll(first.ring, []) == Sent(first.ring, Ok([]));
  }

  lemma PushTwo(r: R.Ring, a: Trb, b: Trb) returns (first: R.Pushed, second: R.Pushed)
    requires r.index < |r.slots|
    ensures first == R.Push(r, a) && first.ring.index < |first.ring.slots| && second == R.Push(first.ring, b)
    ensures PushAll(r, [a, b]) == Then(first, Then(second, Sent(second.ring, Ok([]))))
  {
    first := R.Push(r, a);
    second := R.Push(first.ring, b);
    PushFirst(r, a, [b], first);
    assert [a] + [b] == [a, b];
    PushLast(first.ring, b, second);
  }

  lemma PushThree(r: R.Ring, a: Trb, b: Trb, c: Trb) returns (first: R.Pushed, second: R.Pushed, third: R.Pushed)
    requires r.index < |r.slots|
    ensures first == R.Push(r, a) && first.ring.index < |first.ring.slots|
    ensures second == R.Push(first.ring, b) && second.ring.index < |second.ring.slots|
    ensures third == R.Push(second.ring, c)
    ensures PushAll(r, [a, b, c]) == Then(first, Then(second, Then(third, Sent(third.ring, Ok([])))))
  {
    first := R.Push(r, a);
    second := R.Push(first.ring, b);
    third := R.Push(second.ring, c);
    PushFirst(r, a, [b, c], first);
    assert [a] + [b, c] == [a, b, c];
    PushFirst(first.ring, b, [c], second);
    assert [b] + [c] == [b, c];
    PushLast(second.ring, c, third);
  }

  /** The step a request is made in: `trbs` are pushed, and if all pushes succeed a new waiter
      for the completion of the entry at `awaited` is registered, as in `Delivery.Submitted`. */
  twostate predicate Requested(ring: CommandRing, events: EventRing, kind: Kind, trbs: seq<Trb>, awaited: nat,
                               new f: Result<EventFuture>)
    requires awaited < |trbs| && ring.ring.trb.Length == R.NUM_TRB && old(ring.ring.currentIndex) < R.NUM_TRB
    reads ring, ring.ring, ring.ring.trb, events, if f.Ok? then {f.value.waitOn} else {}
  {
    var sent := PushAll(old(ring.View()), trbs);
    && ring.View() == sent.ring && (f.Ok? <==> sent.result.Ok?)
    && (f.Err? ==> f.message == sent.result.message && events.waitList == old(events.waitList))
    && (f.Ok? ==> && 0 <= sent.result.value[awaited] < U64_SIZE
                  && f.value.waitOn.View() == Waiter(CondOf(kind, sent.result.value[awaited]), true, [])
                  && f.value.waitOn.strong == 1
                  && events.waitList == old(events.waitList) + [f.value.waitOn])
  }

  /** The waiter takes an event exactly if bits 10 to 15 of its control word are this type and
      its data names this address. */
  ghost predicate WakesOn(c: Cond, eventType: nat, addr: int) {
    forall e: Trb {:trigger c.Matches(e)} ::
      c.Matches(e) <==> e.Control() / 1024 % 64 == eventType && e.data == addr
  }

  lemma TypeInControl(e: Trb)
    ensures e.Control() / 1024 % 64 == e.TrbType()
  {
    assert e.Control() / 1024 == e.body / 512;
  }

  /** Commands are answered by event 33, transfers by event 32. */
  lemma WaitsForAnswer(kind: Kind, addr: u64)
    ensures WakesOn(CondOf(kind, addr), if kind == Commands then 33 else 32, addr)
  {
    forall e: Trb
      ensures CondOf(kind, addr).Matches(e) <==>
              e.Control() / 1024 % 64 == (if kind == Commands then 33 else 32) && e.data == addr
    {
      TypeInControl(e);
    }
  }

  /** On a counted ring every push of a request succeeds, at one address after the other. */
  lemma {:induction false} CountedAddress(r: R.Ring, trbs: seq<Trb>, n: nat, k: nat, m: nat)
    requires Counted(r, n) && (forall j | 0 <= j < |trbs| :: !trbs[j].IsLink()) && k < |trbs| && m == n + k
    ensures PushAll(r, trbs).result.Ok? && PushAll(r, trbs).result.value[k] == r.base + 16 * (m % 15)
    decreases |trbs|
  {
    PushCounts(r, trbs[0], n);
    if |trbs| == 1 {
      assert trbs[1..] == [];
    } else {
      CountedAddress(R.Push(r, trbs[0]).ring, trbs[1..], n + 1, if k == 0 then 0 else k - 1, if k == 0 then n + 1 else m);
    }
  }

  ghost predicate Ready(ring: CommandRing, events: EventRing)
    reads ring, ring.ring, ring.ring.trb, events, events.ring, events.ring.trb
  {
    && ring.ring.trb.Length == R.NUM_TRB && ring.ring.currentIndex < R.NUM_TRB && ring.ring.base + 256 <= U64_SIZE
    && events.Valid() && events.ring != ring.ring && events.ring.trb != ring.ring.trb
  }

  /** One entry is pushed and waited for. */
  method SendOne(ring: CommandRing, events: EventRing, kind: Kind, t: Trb) returns (f: Result<EventFuture>)
    requires Ready(ring, events)
    modifies ring, ring.ring, ring.ring.trb, events`waitList
    ensures Requested(ring, events, kind, [t], 0, f) && (f.Ok? ==> fresh(f.value) && fresh(f.value.waitOn))
    ensures Ready(ring, events)
  {
    ghost var r := ring.View();
    PushAllInRing(r, [t]);
    PushLast(r, t, R.Push(r, t));
    var addr := ring.Push(t);
    if addr.Err? {
      return Err(addr.message);
    }
    var future := new EventFuture(events, CondOf(kind, addr.value));
    return Ok(future);
  }

  /** Two entries are pushed, and one of them is waited for. */
  method SendTwo(ring: CommandRing, events: EventRing, kind: Kind, a: Trb, b: Trb, awaited: nat)
    returns (f: Result<EventFuture>)
    requires Ready(ring, events) && awaited < 2
    modifies ring, ring.ring, ring.ring.trb, events`waitList
    ensures Requested(ring, events, kind, [a, b], awaited, f) && (f.Ok? ==> fresh(f.value) && fresh(f.value.waitOn))
    ensures Ready(ring, events)
  {
    ghost var r := ring.View();
    PushAllInRing(r, [a, b]);
    ghost var p, q := PushTwo(r, a, b);
    var first := ring.Push(a);
    if first.Err? {
      return Err(first.message);
    }
    var second := ring.Push(b);
    if second.Err? {
      return Err(second.message);
    }
    var addr := if awaited == 0 then first.value else second.value;
    assert PushAll(r, [a, b]).result.value[awaited] == addr;
    var future := new EventFuture(events, CondOf(kind, addr));
    return Ok(future);
  }

  /** Three entries are pushed, and one of them is waited for. */
  method SendThree(ring: CommandRing, events: EventRing, kind: Kind, a: Trb, b: Trb, c: Trb, awaited: nat)
    returns (f: Result<EventFuture>)
    requires Ready(ring, events) && awaited < 3
    modifies ring, ring.ring, ring.ring.trb, events`waitList
    ensures Requested(ring, events, kind, [a, b, c], awaited, f) && (f.Ok? ==> fresh(f.value) && fresh(f.value.waitOn))
    ensures Ready(ring, events)
  {
    ghost var r := ring.View();
    PushAllInRing(r, [a, b, c]);
    ghost var p, q, o := PushThree(r, a, b, c);
    var first := ring.Push(a);
    if first.Err? {
      return Err(first.message);
    }
    var second := ring.Push(b);
    if second.Err? {
      return Err(second.message);
    }
    var third := ring.Push(c);
    if third.Err? {
      return Err(third.message);
    }
    var addr := if awaited == 0 then first.value else if awaited == 1 then second.value else third.value;
    assert PushAll(r, [a, b, c]).result.value[awaited] == addr;
    var future := new EventFuture(events, CondOf(kind, addr));
    return Ok(future);
  }

  /** A request of any of these lengths. */
  method Send(ring: CommandRing, events: EventRing, kind: Kind, trbs: seq<Trb>, awaited: nat)
    returns (f: Result<EventFuture>)
    requires Ready(ring, events) && awaited < |trbs| <= 3
    modifies ring, ring.ring, ring.ring.trb, events`waitList
    ensures Requested(ring, events, kind, trbs, awaited, f) && (f.Ok? ==> fresh(f.value) && fresh(f.value.waitOn))
    ensures Ready(ring, events)
  {
    if |trbs| == 1 {
      assert trbs == [trbs[0]];
      f := SendOne(ring, events, kind, trbs[0]);
    } else if |trbs| == 2 {
      assert trbs == [trbs[0], trbs[1]];
      f := SendTwo(ring, events, kind, trbs[0], trbs[1], awaited);
    } else {
      assert trbs == [trbs[0], trbs[1], trbs[2]];
      f := SendThree(ring, events, kind, trbs[0], trbs[1], trbs[2], awaited);
    }
  }

  /** The waiter for an entry of a request wakes on the answer to it, at its place behind the
      pushes made so far. */
  lemma WakesAt(r: R.Ring, n: nat, kind: Kind, trbs: seq<Trb>, awaited: nat, m: nat)
    requires Counted(r, n) && (forall k | 0 <= k < |trbs| :: !trbs[k].IsLink()) && awaited < |trbs| && m == n + awaited
    ensures PushAll(r, trbs).result.Ok?
    ensures var a := PushAll(r, trbs).result.value[awaited];
            0 <= a < U64_SIZE ==> WakesOn(CondOf(kind, a), if kind == Commands then 33 else 32, r.base + 16 * (m % 15))
  {
    CountedAddress(r, trbs, n, awaited, m);
    var a := PushAll(r, trbs).result.value[awaited];
    if 0 <= a < U64_SIZE {
      WaitsForAnswer(kind, a);
    }
  }

  method SendCommand(ring: CommandRing, events: EventRing, cmd: Trb) returns (f: Result<EventFuture>)
    requires Ready(ring, events)
    modifies ring, ring.ring, ring.ring.trb, events`waitList
    ensures Requested(ring, events, Commands, [cmd], 0, f) && (f.Ok? ==> fresh(f.value.waitOn))
    ensures old(ring.Valid()) && !cmd.IsLink() ==>
              f.Ok? && WakesOn(f.value.waitOn.cond, 33, ring.ring.base + 16 * (old(ring.pushes) % 15))
  {
    ghost var r, n := ring.View(), ring.pushes;
    f := SendOne(ring, events, Commands, cmd);
    if old(ring.Valid()) && !cmd.IsLink() {
      WakesAt(r, n, Commands, [cmd], 0, n);
    }
  }

  /** A transfer of one entry, as on the bulk rings. */
  method SendNormal(ring: CommandRing, events: EventRing, t: Trb) returns (f: Result<EventFuture>)
    requires Ready(ring, events)
    modifies ring, ring.ring, ring.ring.trb, events`waitList
    ensures Requested(ring, events, Transfers, [t], 0, f) && (f.Ok? ==> fresh(f.value.waitOn))
    ensures old(ring.Valid()) && !t.IsLink() ==>
              f.Ok? && WakesOn(f.value.waitOn.cond, 32, ring.ring.base + 16 * (old(ring.pushes) % 15))
  {
    ghost var r, n := ring.View(), ring.pushes;
    f := SendOne(ring, events, Transfers, t);
    if old(ring.Valid()) && !t.IsLink() {
      WakesAt(r, n, Transfers, [t], 0, n);
    }
  }

  /** A request without data: `request_set_config`, `clear_endpoint_halt`, the storage reset. */
  method RequestNoData(ring: CommandRing, events: EventRing, requestType: u8, request: u8, value: u16, index: u16)
    returns (f: Result<EventFuture>)
    requires Ready(ring, events)
    modifies ring, ring.ring, ring.ring.trb, events`waitList
    ensures Requested(ring, events, Transfers, NoDataRequest(requestType, request, value, index), 1, f)
    ensures f.Ok? ==> fresh(f.value.waitOn)
    ensures old(ring.Valid()) ==>
              f.Ok? && WakesOn(f.value.waitOn.cond, 32, ring.ring.base + 16 * ((old(ring.pushes) + 1) % 15))
  {
    ghost var r, n := ring.View(), ring.pushes;
    f := SendTwo(ring, events, Transfers, SetupStage(requestType, request, value, index, 0), StatusIn(), 1);
    if old(ring.Valid()) {
      NoDataIsRequest(requestType, request, value, index);
      WakesAt(r, n, Transfers, NoDataRequest(requestType, request, value, index), 1, n + 1);
    }
  }

  method RequestDescriptor(ring: CommandRing, events: EventRing, descType: u8, descIndex: u8, langId: u16,
                           buf: u64, size: u64)
    returns (f: Result<EventFuture>)
    requires Ready(ring, events)
    modifies ring, ring.ring, ring.ring.trb, events`waitList
    ensures Requested(ring, events, Transfers, DescriptorRequest(descType, descIndex, langId, buf, size), 1, f)
    ensures f.Ok? ==> fresh(f.value.waitOn)
    ensures old(ring.Valid()) ==>
              f.Ok? && WakesOn(f.value.waitOn.cond, 32, ring.ring.base + 16 * ((old(ring.pushes) + 1) % 15))
  {
    ghost var r, n := ring.View(), ring.pushes;
    var setup := SetupStage(0x80, 6, 0x100 * descType + descIndex, langId, AsU16(size));
    f := SendThree(ring, events, Transfers, setup, DataIn(buf, size), StatusOut(), 1);
    if old(ring.Valid()) {
      DescriptorIsRequest(descType, descIndex, langId, buf, size);
      WakesAt(r, n, Transfers, DescriptorRequest(descType, descIndex, langId, buf, size), 1, n + 1);
    }
  }
}

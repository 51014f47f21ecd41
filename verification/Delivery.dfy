/** Requests and their completions: the rings of a controller, its event ring and the waiters
    as one protocol. A driver step pushes a request's entries and registers its waiter with
    nothing in between; the controller works through each ring at its own pace. */
module Delivery {
  import opened Bits
  import opened Results
  import opened Trbs
  import opened Waiters
  import opened Mailboxes
  import opened Sequences
  import P = EventProtocol
  import R = RingProtocol

  datatype Kind = Commands | Transfers

  /** A ring with no request open, or with one whose entry at `addr` is waited for. */
  datatype Phase = Idle | Awaiting(addr: u64)

  /** A ring, the controller's place in it, and what happened so far: the address each request
      waited for, the events posted for the ring's entries, the events its futures gave. */
  datatype Channel = Channel(kind: Kind, r: R.Ring, c: R.Consumer, phase: Phase,
                             addrs: seq<u64>, posted: seq<Trb>, resolved: seq<Trb>)

  datatype System = System(chans: seq<Channel>, ev: P.EventRing, p: P.Producer, waiters: seq<Waiter>)

  // ---- who reports, and to whom ----

  function Code(kind: Kind): nat {
    match kind
    case Commands => COMMAND_COMPLETION_EVENT
    case Transfers => TRANSFER_EVENT
  }

  /** Every command reports its completion; of a transfer the entries that ask for it. */
  predicate Reports(kind: Kind, t: Trb) {
    kind == Commands || t.InterruptOnCompletion()
  }

  /** The condition of `new_for_command` and of `new_for_trb`. */
  function CondOf(kind: Kind, addr: u64): Cond {
    Cond(Some(Code(kind)), Some(addr), None)
  }

  predicate InRing(base: u64, addr: int) {
    base <= addr < base + 256
  }

  /** `e` reports on an entry of this ring. */
  predicate Belongs(kind: Kind, base: u64, e: Trb) {
    e.TrbType() == Code(kind) && InRing(base, e.data)
  }

  /** The events that report on this ring. */
  function For(kind: Kind, base: u64, q: seq<R.Pending>): seq<Trb> {
    if q == [] then []
    else (if Belongs(kind, base, q[0].trb) then [q[0].trb] else []) + For(kind, base, q[1..])
  }

  function BoxOf(ch: Channel, ws: seq<Waiter>): Option<seq<Trb>> {
    if ch.phase.Awaiting? then Box(ws, CondOf(ch.kind, ch.phase.addr)) else None
  }

  // ---- requests ----

  /** One entry of a request reports, the awaited one; at most one entry follows it. */
  ghost predicate Request(kind: Kind, trbs: seq<Trb>, awaited: nat) {
    && awaited < |trbs| <= 3 && |trbs| <= awaited + 2
    && (forall k | 0 <= k < |trbs| :: !trbs[k].IsLink())
    && (forall k | 0 <= k < |trbs| :: Reports(kind, trbs[k]) <==> k == awaited)
  }

  datatype Sent = Sent(ring: R.Ring, result: Result<seq<int>>)

  /** Pushes in order and gives the addresses; stops at the first error. */
  function PushAll(r: R.Ring, trbs: seq<Trb>): (s: Sent)
    requires r.index < |r.slots|
    ensures s.ring.index < |s.ring.slots| == |r.slots| && s.ring.base == r.base
    ensures s.result.Ok? ==> |s.result.value| == |trbs|
    decreases |trbs|
  {
    if trbs == [] then Sent(r, Ok([]))
    else
      var first := R.Push(r, trbs[0]);
      if first.result.Err? then Sent(first.ring, Err(first.result.message))
      else
        var rest := PushAll(first.ring, trbs[1..]);
        if rest.result.Err? then rest else Sent(rest.ring, Ok([first.result.value] + rest.result.value))
  }

  // ---- steps ----

  datatype Action =
    | Submit(i: nat, trbs: seq<Trb>, awaited: nat)
    | Advance(i: nat, e: Trb)
    | Stray(e: Trb)
    | PollEvents
    | PollFuture(i: nat)

  ghost predicate Shaped(s: System) {
    && s.ev.index < |s.ev.slots| == R.NUM_TRB && s.p.enq < R.NUM_TRB
    && forall i | 0 <= i < |s.chans| :: s.chans[i].r.index < |s.chans[i].r.slots| && s.chans[i].c.deq < |s.chans[i].r.slots|
  }

  /** Requests are sent one at a time on each ring; the controller reports the entry it took by
      its address, with event 33 for a command and 32 for a transfer (xHCI specification, sections
      6.4.2.1 and 6.4.2.2), and posts other events at will. */
  ghost predicate Enabled(s: System, a: Action) {
    Shaped(s) &&
    match a
    case Submit(i, trbs, awaited) => i < |s.chans| && s.chans[i].phase == Idle && Request(s.chans[i].kind, trbs, awaited)
    case Advance(i, e) =>
      && i < |s.chans|
      && var ch := s.chans[i];
         var look := R.Poll(ch.r.slots, ch.c);
         look.Took? && Reports(ch.kind, look.trb) ==>
           && e.TrbType() == (if ch.kind == Commands then 33 else 32) && e.data == ch.r.base + 16 * look.slot
           && P.MayPost(s.ev, s.p)
    case Stray(e) =>
      P.MayPost(s.ev, s.p) && forall i | 0 <= i < |s.chans| :: !Belongs(s.chans[i].kind, s.chans[i].r.base, e)
    case PollEvents => true
    case PollFuture(i) => i < |s.chans| && s.chans[i].phase.Awaiting?
  }

  function Submitted(ch: Channel, trbs: seq<Trb>, awaited: nat): Channel
    requires ch.r.index < |ch.r.slots| && awaited < |trbs|
  {
    var sent := PushAll(ch.r, trbs);
    if sent.result.Ok? && 0 <= sent.result.value[awaited] < U64_SIZE then
      var addr := sent.result.value[awaited];
      ch.(r := sent.ring, phase := Awaiting(addr), addrs := ch.addrs + [addr])
    else ch.(r := sent.ring)
  }

  function Step(s: System, a: Action): System
    requires Enabled(s, a)
  {
    match a
    case Submit(i, trbs, awaited) =>
      var ch := Submitted(s.chans[i], trbs, awaited);
      s.(chans := s.chans[i := ch],
         waiters := s.waiters + (if ch.phase.Awaiting? then [Waiter(CondOf(ch.kind, ch.phase.addr), true, [])] else []))
    case Advance(i, e) =>
      var ch := s.chans[i];
      (match R.Poll(ch.r.slots, ch.c)
       case Nothing => s
       case Followed(c') => s.(chans := s.chans[i := ch.(c := c')])
       case Took(_, trb, c') =>
         if !Reports(ch.kind, trb) then s.(chans := s.chans[i := ch.(c := c')])
         else s.(chans := s.chans[i := ch.(c := c', posted := ch.posted + [e.(cycle := s.p.pcs)])],
                 ev := P.PostSlots(s.ev, s.p, e), p := P.PostNext(s.p)))
    case Stray(e) => s.(ev := P.PostSlots(s.ev, s.p, e), p := P.PostNext(s.p))
    case PollEvents =>
      var popped := P.Pop(s.ev);
      if popped.result.Ok? && popped.result.value != []
      then s.(ev := popped.ring, waiters := Sweep(Deliver(s.waiters, popped.result.value[0])))
      else s.(ev := popped.ring)
    case PollFuture(i) =>
      var ch := s.chans[i];
      var box := BoxOf(ch, s.waiters);
      if box.None? || box.value == [] then s
      else s.(chans := s.chans[i := ch.(phase := Idle, resolved := ch.resolved + [box.value[0]])],
              waiters := Settle(s.waiters, CondOf(ch.kind, ch.phase.addr)))
  }

  // ---- what every step keeps ----

  ghost predicate Quiet(kind: Kind, q: seq<R.Pending>) {
    forall k | 0 <= k < |q| :: !Reports(kind, q[k].trb)
  }

  /** One entry of the queue reports, the one at `addr`; at most one comes after it. */
  ghost predicate OneReport(kind: Kind, base: u64, q: seq<R.Pending>, addr: int) {
    q != [] &&
    if Reports(kind, q[0].trb) then R.SlotAddr(base, q[0].slot) == addr && Quiet(kind, q[1..]) && |q| <= 2
    else OneReport(kind, base, q[1..], addr)
  }

  /** The report on the awaited entry is in exactly one place: still to be made, on its way in
      the event ring, or in the waiter's mailbox. */
  ghost predicate ReportIsDue(ch: Channel, mail: seq<Trb>, inbox: seq<Trb>, addr: u64)
    requires |ch.r.slots| == R.NUM_TRB && ch.r.index < R.LAST
  {
    var q := R.Queue(ch.r, ch.c);
    if OneReport(ch.kind, ch.r.base, q, addr) then mail == [] && inbox == [] && |q| <= 4
    else Quiet(ch.kind, q) && |q| <= 1 && |inbox + mail| == 1 && (inbox + mail)[0].data == addr
  }

  ghost predicate ChannelInv(ch: Channel, mail: seq<Trb>, box: Option<seq<Trb>>) {
    && R.WellFormed(ch.r) && R.InStep(ch.r, ch.c) && ch.r.base + 256 <= U64_SIZE
    && (forall k | 0 <= k < |ch.resolved| :: k < |ch.addrs| && ch.resolved[k].data == ch.addrs[k])
    && match ch.phase
       case Idle =>
         && Quiet(ch.kind, R.Queue(ch.r, ch.c)) && |R.Queue(ch.r, ch.c)| <= 1
         && mail == [] && ch.posted == ch.resolved && |ch.addrs| == |ch.resolved|
       case Awaiting(addr) =>
         && box.Some? && InRing(ch.r.base, addr)
         && ch.posted == ch.resolved + box.value + mail
         && |ch.addrs| == |ch.resolved| + 1 && ch.addrs[|ch.resolved|] == addr
         && ReportIsDue(ch, mail, box.value, addr)
  }

  /** Rings of one kind lie apart. */
  ghost predicate Apart(chans: seq<Channel>) {
    forall i, j | 0 <= i < j < |chans| && chans[i].kind == chans[j].kind ::
      chans[i].r.base + 256 <= chans[j].r.base || chans[j].r.base + 256 <= chans[i].r.base
  }

  ghost predicate Awaits(ch: Channel, c: Cond) {
    ch.phase.Awaiting? && c == CondOf(ch.kind, ch.phase.addr)
  }

  /** Every live waiter belongs to an open request. */
  ghost predicate AllAwaited(chans: seq<Channel>, ws: seq<Waiter>) {
    forall c | Box(ws, c).Some? :: exists i :: 0 <= i < |chans| && Awaits(chans[i], c)
  }

  function MailOf(ch: Channel, evs: seq<R.Pending>): seq<Trb> {
    For(ch.kind, ch.r.base, evs)
  }

  ghost predicate Healthy(ch: Channel, evs: seq<R.Pending>, ws: seq<Waiter>) {
    ChannelInv(ch, MailOf(ch, evs), BoxOf(ch, ws))
  }

  ghost predicate Consistent(chans: seq<Channel>, evs: seq<R.Pending>, ws: seq<Waiter>) {
    && OneEach(ws) && Apart(chans) && AllAwaited(chans, ws)
    && forall i | 0 <= i < |chans| :: Healthy(chans[i], evs, ws)
  }

  ghost predicate Inv(s: System) {
    && P.WellFormed(s.ev, s.p) && P.Flow(s.ev, s.p)
    && Consistent(s.chans, P.Events(s.ev, s.p), s.waiters)
  }

  lemma InvIsShaped(s: System)
    requires Inv(s)
    ensures Shaped(s)
  {
    forall i | 0 <= i < |s.chans|
      ensures s.chans[i].r.index < |s.chans[i].r.slots| && s.chans[i].c.deq < |s.chans[i].r.slots|
    {
      assert Healthy(s.chans[i], P.Events(s.ev, s.p), s.waiters);
    }
  }

  // ---- queues ----

  lemma {:induction false} ForConcat(kind: Kind, base: u64, p: seq<R.Pending>, q: seq<R.Pending>)
    ensures For(kind, base, p + q) == For(kind, base, p) + For(kind, base, q)
  {
    if p == [] {
      assert p + q == q;
    } else {
      assert (p + q)[1..] == p[1..] + q;
      ForConcat(kind, base, p[1..], q);
      var first := if Belongs(kind, base, p[0].trb) then [p[0].trb] else [];
      assert (first + For(kind, base, p[1..])) + For(kind, base, q) == first + (For(kind, base, p[1..]) + For(kind, base, q));
    }
  }

  lemma ForOne(kind: Kind, base: u64, x: R.Pending)
    ensures For(kind, base, [x]) == if Belongs(kind, base, x.trb) then [x.trb] else []
  {
    assert [x][1..] == [];
  }

  lemma {:induction false} QuietThenOne(kind: Kind, base: u64, p: seq<R.Pending>, q: seq<R.Pending>, addr: int)
    requires Quiet(kind, p) && OneReport(kind, base, q, addr)
    ensures OneReport(kind, base, p + q, addr)
  {
    if p == [] {
      assert p + q == q;
    } else {
      assert (p + q)[1..] == p[1..] + q;
      QuietThenOne(kind, base, p[1..], q, addr);
    }
  }

  lemma {:induction false} OneReportNotQuiet(kind: Kind, base: u64, q: seq<R.Pending>, addr: int)
    requires OneReport(kind, base, q, addr)
    ensures !Quiet(kind, q)
  {
    if !Reports(kind, q[0].trb) {
      OneReportNotQuiet(kind, base, q[1..], addr);
    }
  }

  /** An event that is no report on this ring's entries does not concern it. */
  lemma ForFirst(kind: Kind, base: u64, q: seq<R.Pending>, first: R.Pending, rest: seq<R.Pending>)
    requires q == [first] + rest
    ensures For(kind, base, q) == (if Belongs(kind, base, first.trb) then [first.trb] else []) + For(kind, base, rest)
  {
    assert q[1..] == rest;
  }

  lemma ForLast(kind: Kind, base: u64, q: seq<R.Pending>, last: R.Pending)
    ensures For(kind, base, q + [last]) == For(kind, base, q) + (if Belongs(kind, base, last.trb) then [last.trb] else [])
  {
    ForConcat(kind, base, q, [last]);
    ForOne(kind, base, last);
  }

  // ---- a request is pushed ----

  lemma {:induction false} RequestReportsOnce(kind: Kind, base: u64, q: seq<R.Pending>, awaited: nat, addr: int)
    requires awaited < |q| <= awaited + 2 && R.SlotAddr(base, q[awaited].slot) == addr
    requires forall k | 0 <= k < |q| :: Reports(kind, q[k].trb) <==> k == awaited
    ensures OneReport(kind, base, q, addr)
    decreases awaited
  {
    if awaited > 0 {
      assert !Reports(kind, q[0].trb);
      assert q[1..][awaited - 1] == q[awaited];
      forall k | 0 <= k < |q[1..]| ensures Reports(kind, q[1..][k].trb) <==> k == awaited - 1 {
        assert q[1..][k] == q[k + 1];
      }
      RequestReportsOnce(kind, base, q[1..], awaited - 1, addr);
    } else {
      assert Reports(kind, q[0].trb);
    }
  }

  /** What the pushes of `trbs` add to the queue: these entries, at the addresses returned. */
  ghost predicate Added(trbs: seq<Trb>, base: u64, values: seq<int>, added: seq<R.Pending>) {
    && |added| == |values| == |trbs|
    && forall k | 0 <= k < |trbs| ::
         && added[k].trb == trbs[k].(cycle := added[k].trb.cycle)
         && values[k] == R.SlotAddr(base, added[k].slot) && added[k].slot < R.LAST
  }

  lemma AddedFirst(trbs: seq<Trb>, base: u64, v: int, rest: seq<int>, x: R.Pending, tail: seq<R.Pending>)
    requires trbs != [] && x.trb == trbs[0].(cycle := x.trb.cycle) && v == R.SlotAddr(base, x.slot) && x.slot < R.LAST
    requires Added(trbs[1..], base, rest, tail)
    ensures Added(trbs, base, [v] + rest, [x] + tail)
  {
    forall k | 0 < k < |trbs| ensures trbs[k] == trbs[1..][k - 1] {
    }
  }

  /** A ring in order whose controller has `q` to take. */
  ghost predicate Pends(r: R.Ring, c: R.Consumer, q: seq<R.Pending>) {
    R.WellFormed(r) && R.InStep(r, c) && R.Queue(r, c) == q
  }

  lemma PushOne(r: R.Ring, c: R.Consumer, t: Trb, q: seq<R.Pending>) returns (after: R.Ring, x: R.Pending)
    requires Pends(r, c, q) && !t.IsLink() && |q| < 14
    ensures r.index < |r.slots| && R.Push(r, t) == R.Pushed(after, Ok(R.SlotAddr(r.base, x.slot)))
    ensures Pends(after, c, q + [x]) && after.base == r.base
    ensures x.slot < R.LAST && x.trb == t.(cycle := x.trb.cycle)
  {
    R.CanPushByLag(r, c);
    R.PushFills(r, t);
    R.PushEnqueues(r, c, t);
    after, x := R.Push(r, t).ring, R.Pending(r.index, t.(cycle := !r.ours));
  }

  lemma PushAllStep(r: R.Ring, trbs: seq<Trb>, after: R.Ring, v: int)
    requires trbs != [] && r.index < |r.slots| && after.index < |after.slots| == |r.slots|
    requires R.Push(r, trbs[0]) == R.Pushed(after, Ok(v)) && PushAll(after, trbs[1..]).result.Ok?
    ensures PushAll(r, trbs) == Sent(PushAll(after, trbs[1..]).ring, Ok([v] + PushAll(after, trbs[1..]).result.value))
  {
  }

  /** While few entries wait no push fails or overwrites one, and the entries are queued. */
  lemma {:induction false} PushAllEnqueues(r: R.Ring, c: R.Consumer, trbs: seq<Trb>, q: seq<R.Pending>)
    returns (added: seq<R.Pending>)
    requires Pends(r, c, q) && |q| + |trbs| <= 14
    requires forall k | 0 <= k < |trbs| :: !trbs[k].IsLink()
    ensures r.index < |r.slots|
    ensures var s := PushAll(r, trbs);
            s.result.Ok? && Pends(s.ring, c, q + added) && Added(trbs, r.base, s.result.value, added)
    decreases |trbs|
  {
    if trbs == [] {
      added := [];
      assert q + [] == q;
    } else {
      var after, x := PushOne(r, c, trbs[0], q);
      assert forall k | 0 <= k < |trbs[1..]| :: trbs[1..][k] == trbs[k + 1];
      var tail := PushAllEnqueues(after, c, trbs[1..], q + [x]);
      added := [x] + tail;
      AppendAssociates(q, [x], tail);
      PushAllStep(r, trbs, after, R.SlotAddr(r.base, x.slot));
      AddedFirst(trbs, r.base, R.SlotAddr(r.base, x.slot), PushAll(after, trbs[1..]).result.value, x, tail);
    }
  }

  lemma SubmittedChannel(ch: Channel, trbs: seq<Trb>, awaited: nat)
    requires ChannelInv(ch, [], None) && ch.phase == Idle && Request(ch.kind, trbs, awaited)
    ensures var after := Submitted(ch, trbs, awaited);
            && after.phase.Awaiting? && after.kind == ch.kind && after.r.base == ch.r.base
            && ChannelInv(after, [], Some([]))
  {
    var q := R.Queue(ch.r, ch.c);
    var added := PushAllEnqueues(ch.r, ch.c, trbs, q);
    var sent := PushAll(ch.r, trbs);
    var addr := sent.result.value[awaited];
    assert Reports(ch.kind, trbs[awaited]);
    forall k | 0 <= k < |added| ensures Reports(ch.kind, added[k].trb) <==> k == awaited {
      assert Reports(ch.kind, added[k].trb) <==> Reports(ch.kind, trbs[k]);
    }
    RequestReportsOnce(ch.kind, ch.r.base, added, awaited, addr);
    QuietThenOne(ch.kind, ch.r.base, q, added, addr);
  }

  // ---- every step ----

  lemma SameRing(chans: seq<Channel>, i: nat, j: nat, addr: int)
    requires Apart(chans) && i < |chans| && j < |chans| && chans[i].kind == chans[j].kind
    requires InRing(chans[i].r.base, addr) && InRing(chans[j].r.base, addr)
    ensures i == j
  {
  }

  /** A waiter that accepts a report on a ring's entry is the one of that ring's request. */
  lemma OwnerOf(chans: seq<Channel>, evs: seq<R.Pending>, ws: seq<Waiter>, c: Cond, e: Trb) returns (i: nat)
    requires Consistent(chans, evs, ws) && Box(ws, c).Some? && c.Matches(e)
    ensures i < |chans| && Awaits(chans[i], c) && Belongs(chans[i].kind, chans[i].r.base, e)
  {
    i :| 0 <= i < |chans| && Awaits(chans[i], c);
    assert Healthy(chans[i], evs, ws);
  }

  lemma NoWaiterYet(chans: seq<Channel>, evs: seq<R.Pending>, ws: seq<Waiter>, i: nat, addr: u64)
    requires Consistent(chans, evs, ws) && i < |chans| && chans[i].phase == Idle && InRing(chans[i].r.base, addr)
    ensures Box(ws, CondOf(chans[i].kind, addr)) == None
  {
    var c := CondOf(chans[i].kind, addr);
    if Box(ws, c).Some? {
      var j :| 0 <= j < |chans| && Awaits(chans[j], c);
      assert Healthy(chans[j], evs, ws);
      SameRing(chans, i, j, addr);
    }
  }

  /** A channel whose mail and mailbox stay is as healthy as before. */
  lemma StaysHealthy(ch: Channel, evs: seq<R.Pending>, evs': seq<R.Pending>, ws: seq<Waiter>, ws': seq<Waiter>)
    requires Healthy(ch, evs, ws) && MailOf(ch, evs') == MailOf(ch, evs) && BoxOf(ch, ws') == BoxOf(ch, ws)
    ensures Healthy(ch, evs', ws')
  {
  }

  lemma RegisterKeeps(chans: seq<Channel>, evs: seq<R.Pending>, ws: seq<Waiter>, i: nat, after: Channel, c: Cond)
    requires Consistent(chans, evs, ws) && i < |chans| && chans[i].phase == Idle
    requires after.kind == chans[i].kind && after.r.base == chans[i].r.base && Awaits(after, c)
    requires ChannelInv(after, [], Some([]))
    ensures Consistent(chans[i := after], evs, ws + [Waiter(c, true, [])])
  {
    var chans', ws' := chans[i := after], ws + [Waiter(c, true, [])];
    assert Healthy(chans[i], evs, ws);
    NoWaiterYet(chans, evs, ws, i, after.phase.addr);
    forall c' ensures OneEach(ws') && Box(ws', c') == if c' == c then Some([]) else Box(ws, c') {
      RegisterBox(ws, c, c');
    }
    forall j | 0 <= j < |chans'| ensures Healthy(chans'[j], evs, ws') {
      if j != i {
        assert Healthy(chans[j], evs, ws);
        StaysHealthy(chans[j], evs, evs, ws, ws');
      }
    }
    RegisteredAwaited(chans, ws, i, after, c, ws');
  }

  lemma RegisteredAwaited(chans: seq<Channel>, ws: seq<Waiter>, i: nat, after: Channel, c: Cond, ws': seq<Waiter>)
    requires AllAwaited(chans, ws) && i < |chans| && chans[i].phase == Idle && Awaits(after, c)
    requires forall c' :: Box(ws', c') == if c' == c then Some([]) else Box(ws, c')
    ensures AllAwaited(chans[i := after], ws')
  {
    var chans' := chans[i := after];
    forall c' | Box(ws', c').Some? ensures exists j :: 0 <= j < |chans'| && Awaits(chans'[j], c') {
      if c' == c {
        assert Awaits(chans'[i], c');
      } else {
        var j :| 0 <= j < |chans| && Awaits(chans[j], c');
        assert Awaits(chans'[j], c');
      }
    }
  }

  lemma SubmitKeepsInv(s: System, i: nat, trbs: seq<Trb>, awaited: nat)
    requires Inv(s) && Enabled(s, Submit(i, trbs, awaited))
    ensures Inv(Step(s, Submit(i, trbs, awaited)))
  {
    assert Healthy(s.chans[i], P.Events(s.ev, s.p), s.waiters);
    SubmittedChannel(s.chans[i], trbs, awaited);
    var after := Submitted(s.chans[i], trbs, awaited);
    RegisterKeeps(s.chans, P.Events(s.ev, s.p), s.waiters, i, after, CondOf(after.kind, after.phase.addr));
  }

  /** The controller's place in a ring moves; what it reports goes to the end of the mail. */
  lemma AdvanceKeeps(chans: seq<Channel>, evs: seq<R.Pending>, evs': seq<R.Pending>, ws: seq<Waiter>, i: nat, after: Channel)
    requires Consistent(chans, evs, ws) && i < |chans|
    requires after.kind == chans[i].kind && after.r.base == chans[i].r.base && after.phase == chans[i].phase
    requires ChannelInv(after, MailOf(after, evs'), BoxOf(after, ws))
    requires forall j | 0 <= j < |chans| && j != i :: MailOf(chans[j], evs') == MailOf(chans[j], evs)
    ensures Consistent(chans[i := after], evs', ws)
  {
    var chans' := chans[i := after];
    forall j | 0 <= j < |chans'| ensures Healthy(chans'[j], evs', ws) {
      if j != i {
        StaysHealthy(chans[j], evs, evs', ws, ws);
      }
    }
    SamePhases(chans, i, after, ws);
  }

  lemma SamePhases(chans: seq<Channel>, i: nat, after: Channel, ws: seq<Waiter>)
    requires Apart(chans) && AllAwaited(chans, ws) && i < |chans|
    requires after.kind == chans[i].kind && after.r.base == chans[i].r.base && after.phase == chans[i].phase
    ensures Apart(chans[i := after]) && AllAwaited(chans[i := after], ws)
  {
    var chans' := chans[i := after];
    forall c | Box(ws, c).Some? ensures exists j :: 0 <= j < |chans'| && Awaits(chans'[j], c) {
      var j :| 0 <= j < |chans| && Awaits(chans[j], c);
      assert Awaits(chans'[j], c);
    }
  }

  /** The entry taken was no report. */
  lemma SilentChannel(ch: Channel, c': R.Consumer, mail: seq<Trb>, box: Option<seq<Trb>>)
    requires ChannelInv(ch, mail, box)
    requires R.InStep(ch.r, c')
    requires || R.Queue(ch.r, c') == R.Queue(ch.r, ch.c)
             || (R.Queue(ch.r, ch.c) != [] && R.Queue(ch.r, c') == R.Queue(ch.r, ch.c)[1..]
                 && !Reports(ch.kind, R.Queue(ch.r, ch.c)[0].trb))
    ensures ChannelInv(ch.(c := c'), mail, box)
  {
  }

  /** It was the awaited one, and its report is posted. */
  lemma ReportingChannel(ch: Channel, c': R.Consumer, x: R.Pending, e: Trb, mail: seq<Trb>, box: Option<seq<Trb>>)
    requires ChannelInv(ch, mail, box) && R.InStep(ch.r, c')
    requires R.Queue(ch.r, ch.c) == [x] + R.Queue(ch.r, c') && Reports(ch.kind, x.trb)
    requires e.data == R.SlotAddr(ch.r.base, x.slot)
    ensures ChannelInv(ch.(c := c', posted := ch.posted + [e]), mail + [e], box)
    ensures ch.phase == Awaiting(e.data) && mail == []
  {
    var q := R.Queue(ch.r, ch.c);
    assert q[0] == x && q[1..] == R.Queue(ch.r, c');
    assert !Quiet(ch.kind, q);
    if OneReport(ch.kind, ch.r.base, R.Queue(ch.r, c'), e.data) {
      OneReportNotQuiet(ch.kind, ch.r.base, R.Queue(ch.r, c'), e.data);
    }
  }

  lemma PostedMail(chans: seq<Channel>, evs: seq<R.Pending>, x: R.Pending, i: nat)
    requires Apart(chans) && i < |chans| && Belongs(chans[i].kind, chans[i].r.base, x.trb)
    ensures MailOf(chans[i], evs + [x]) == MailOf(chans[i], evs) + [x.trb]
    ensures forall j | 0 <= j < |chans| && j != i :: MailOf(chans[j], evs + [x]) == MailOf(chans[j], evs)
  {
    ForLast(chans[i].kind, chans[i].r.base, evs, x);
    forall j | 0 <= j < |chans| && j != i ensures MailOf(chans[j], evs + [x]) == MailOf(chans[j], evs) {
      ForLast(chans[j].kind, chans[j].r.base, evs, x);
      if Belongs(chans[j].kind, chans[j].r.base, x.trb) {
        SameRing(chans, i, j, x.trb.data);
      }
    }
  }

  /** The controller reports on the entry `x` of ring i with `e`. */
  lemma ReportKeeps(chans: seq<Channel>, evs: seq<R.Pending>, ws: seq<Waiter>, i: nat,
                    c': R.Consumer, x: R.Pending, slot: nat, e: Trb)
    requires Consistent(chans, evs, ws) && i < |chans| && R.WellFormed(chans[i].r) && R.InStep(chans[i].r, c')
    requires R.Queue(chans[i].r, chans[i].c) == [x] + R.Queue(chans[i].r, c') && Reports(chans[i].kind, x.trb)
    requires x.slot < R.NUM_TRB && e.TrbType() == Code(chans[i].kind) && e.data == R.SlotAddr(chans[i].r.base, x.slot)
    ensures Consistent(chans[i := chans[i].(c := c', posted := chans[i].posted + [e])], evs + [R.Pending(slot, e)], ws)
  {
    var after, evs' := chans[i].(c := c', posted := chans[i].posted + [e]), evs + [R.Pending(slot, e)];
    assert Healthy(chans[i], evs, ws);
    PostedMail(chans, evs, R.Pending(slot, e), i);
    ReportingChannel(chans[i], c', x, e, MailOf(chans[i], evs), BoxOf(chans[i], ws));
    AdvanceKeeps(chans, evs, evs', ws, i, after);
  }

  lemma AdvanceKeepsInv(s: System, i: nat, e: Trb)
    requires Inv(s) && Enabled(s, Advance(i, e))
    ensures Inv(Step(s, Advance(i, e)))
  {
    var ch, evs := s.chans[i], P.Events(s.ev, s.p);
    assert Healthy(ch, evs, s.waiters);
    R.PollDequeues(ch.r, ch.c);
    match R.Poll(ch.r.slots, ch.c)
    case Nothing =>
    case Followed(c') =>
      SilentChannel(ch, c', MailOf(ch, evs), BoxOf(ch, s.waiters));
      AdvanceKeeps(s.chans, evs, evs, s.waiters, i, ch.(c := c'));
    case Took(slot, trb, c') =>
      assert R.Queue(ch.r, ch.c)[1..] == R.Queue(ch.r, c');
      if !Reports(ch.kind, trb) {
        SilentChannel(ch, c', MailOf(ch, evs), BoxOf(ch, s.waiters));
        AdvanceKeeps(s.chans, evs, evs, s.waiters, i, ch.(c := c'));
      } else {
        P.PostEnqueues(s.ev, s.p, e);
        ReportKeeps(s.chans, evs, s.waiters, i, c', R.Pending(slot, trb), s.p.enq, e.(cycle := s.p.pcs));
      }
  }

  lemma StrayKeepsInv(s: System, e: Trb)
    requires Inv(s) && Enabled(s, Stray(e))
    ensures Inv(Step(s, Stray(e)))
  {
    var evs := P.Events(s.ev, s.p);
    var x := R.Pending(s.p.enq, e.(cycle := s.p.pcs));
    P.PostEnqueues(s.ev, s.p, e);
    forall j | 0 <= j < |s.chans| ensures Healthy(s.chans[j], evs + [x], s.waiters) {
      assert !Belongs(s.chans[j].kind, s.chans[j].r.base, e);
      ForLast(s.chans[j].kind, s.chans[j].r.base, evs, x);
      StaysHealthy(s.chans[j], evs, evs + [x], s.waiters, s.waiters);
    }
  }

  /** The report reaches the waiter of the request it is about, and no other. */
  lemma DeliverReport(chans: seq<Channel>, evs: seq<R.Pending>, ws: seq<Waiter>, x: R.Pending, rest: seq<R.Pending>, i: nat)
    requires Consistent(chans, evs, ws) && evs == [x] + rest
    requires i < |chans| && Belongs(chans[i].kind, chans[i].r.base, x.trb)
    ensures BoxOf(chans[i], ws) == Some([]) && chans[i].phase == Awaiting(x.trb.data)
    ensures OneEach(Deliver(ws, x.trb))
    ensures forall c :: Box(Deliver(ws, x.trb), c) == if Awaits(chans[i], c) then Some([x.trb]) else Box(ws, c)
  {
    assert Healthy(chans[i], evs, ws);
    ForFirst(chans[i].kind, chans[i].r.base, evs, x, rest);
    var mine := CondOf(chans[i].kind, chans[i].phase.addr);
    assert mine.Matches(x.trb);
    forall d | Box(ws, d).Some? && d.Matches(x.trb) ensures d == mine {
      var j := OwnerOf(chans, evs, ws, d, x.trb);
      SameRing(chans, i, j, x.trb.data);
    }
    forall c ensures OneEach(Deliver(ws, x.trb))
             ensures Box(Deliver(ws, x.trb), c) == if Awaits(chans[i], c) then Some([x.trb]) else Box(ws, c) {
      DeliverBox(ws, x.trb, mine, c);
      assert [] + [x.trb] == [x.trb];
    }
  }

  /** Mail moves from the event ring to the mailbox. */
  lemma Received(ch: Channel, e: Trb, mail: seq<Trb>)
    requires ChannelInv(ch, [e] + mail, Some([])) && ch.phase.Awaiting?
    ensures mail == [] && ChannelInv(ch, mail, Some([e]))
  {
    assert [] + ([e] + mail) == [e] + mail && [e] + [] == [e];
    assert ch.resolved + [] + ([e] + mail) == ch.resolved + [e] + mail;
  }

  lemma PollDelivers(chans: seq<Channel>, evs: seq<R.Pending>, ws: seq<Waiter>, x: R.Pending, rest: seq<R.Pending>)
    requires Consistent(chans, evs, ws) && evs == [x] + rest
    ensures Consistent(chans, rest, Sweep(Deliver(ws, x.trb)))
  {
    var ws' := Deliver(ws, x.trb);
    forall j | 0 <= j < |chans| ensures MailOf(chans[j], evs) ==
        (if Belongs(chans[j].kind, chans[j].r.base, x.trb) then [x.trb] else []) + MailOf(chans[j], rest) {
      ForFirst(chans[j].kind, chans[j].r.base, evs, x, rest);
    }
    if i: nat :| i < |chans| && Belongs(chans[i].kind, chans[i].r.base, x.trb) {
      DeliverReport(chans, evs, ws, x, rest, i);
      forall j | 0 <= j < |chans| ensures Healthy(chans[j], rest, ws') {
        assert Healthy(chans[j], evs, ws);
        if j == i {
          Received(chans[i], x.trb, MailOf(chans[i], rest));
        } else {
          OthersUntouched(chans, evs, ws, x, i, j);
          StaysHealthy(chans[j], evs, rest, ws, ws');
        }
      }
    } else {
      forall d | Box(ws, d).Some? ensures !d.Matches(x.trb) {
        if d.Matches(x.trb) {
          var j := OwnerOf(chans, evs, ws, d, x.trb);
        }
      }
      DeliverNowhere(ws, x.trb);
      forall j | 0 <= j < |chans| ensures Healthy(chans[j], rest, ws') {
        assert Healthy(chans[j], evs, ws);
        StaysHealthy(chans[j], evs, rest, ws, ws');
      }
    }
    SweepKeeps(chans, rest, ws');
  }

  lemma OthersUntouched(chans: seq<Channel>, evs: seq<R.Pending>, ws: seq<Waiter>, x: R.Pending, i: nat, j: nat)
    requires Consistent(chans, evs, ws) && i < |chans| && j < |chans| && i != j
    requires Belongs(chans[i].kind, chans[i].r.base, x.trb) && chans[i].phase == Awaiting(x.trb.data)
    ensures !Belongs(chans[j].kind, chans[j].r.base, x.trb)
    ensures chans[j].phase.Awaiting? ==> !Awaits(chans[i], CondOf(chans[j].kind, chans[j].phase.addr))
  {
    assert Healthy(chans[j], evs, ws);
    if chans[i].kind == chans[j].kind && InRing(chans[j].r.base, x.trb.data) {
      SameRing(chans, i, j, x.trb.data);
    }
  }

  lemma SweepKeeps(chans: seq<Channel>, evs: seq<R.Pending>, ws: seq<Waiter>)
    requires OneEach(ws) && Apart(chans) && forall j | 0 <= j < |chans| :: Healthy(chans[j], evs, ws)
    requires AllAwaited(chans, ws)
    ensures Consistent(chans, evs, Sweep(ws))
  {
    forall c ensures OneEach(Sweep(ws)) && Box(Sweep(ws), c) == Box(ws, c) {
      SweepBox(ws, c);
    }
    assert Box(Sweep(ws), CondOf(Commands, 0)) == Box(ws, CondOf(Commands, 0));
    forall j | 0 <= j < |chans| ensures Healthy(chans[j], evs, Sweep(ws)) {
      StaysHealthy(chans[j], evs, evs, ws, Sweep(ws));
    }
  }

  lemma PollEventsKeepsInv(s: System)
    requires Inv(s)
    ensures Enabled(s, PollEvents) && Inv(Step(s, PollEvents))
  {
    InvIsShaped(s);
    var evs := P.Events(s.ev, s.p);
    P.PopDequeues(s.ev, s.p);
    if evs != [] {
      PollDelivers(s.chans, evs, s.waiters, evs[0], P.Events(P.Pop(s.ev).ring, s.p));
    }
  }

  lemma SettleKeeps(chans: seq<Channel>, evs: seq<R.Pending>, ws: seq<Waiter>, i: nat, e: Trb, after: Channel)
    requires Consistent(chans, evs, ws) && i < |chans| && chans[i].phase.Awaiting?
    requires BoxOf(chans[i], ws).Some? && BoxOf(chans[i], ws).value != [] && BoxOf(chans[i], ws).value[0] == e
    requires after == chans[i].(phase := Idle, resolved := chans[i].resolved + [e])
    ensures Consistent(chans[i := after], evs, Settle(ws, CondOf(chans[i].kind, chans[i].phase.addr)))
  {
    var c := CondOf(chans[i].kind, chans[i].phase.addr);
    var chans', ws' := chans[i := after], Settle(ws, c);
    assert Healthy(chans[i], evs, ws);
    Resolved(chans[i], MailOf(chans[i], evs), e, after);
    forall c' ensures OneEach(ws') && Box(ws', c') == if c' == c then None else Box(ws, c') {
      SettleBox(ws, c, c');
    }
    forall j | 0 <= j < |chans'| ensures Healthy(chans'[j], evs, ws') {
      if j != i {
        assert Healthy(chans[j], evs, ws);
        if Awaits(chans[j], c) {
          SameRing(chans, i, j, chans[i].phase.addr);
        }
        StaysHealthy(chans[j], evs, evs, ws, ws');
      }
    }
    forall c' | Box(ws', c').Some? ensures exists j :: 0 <= j < |chans'| && Awaits(chans'[j], c') {
      var j :| 0 <= j < |chans| && Awaits(chans[j], c');
      assert Awaits(chans'[j], c');
    }
  }

  lemma Resolved(ch: Channel, mail: seq<Trb>, e: Trb, after: Channel)
    requires ch.phase.Awaiting? && after == ch.(phase := Idle, resolved := ch.resolved + [e])
    requires exists box :: ChannelInv(ch, mail, box) && box.Some? && box.value != [] && box.value[0] == e
    ensures ChannelInv(after, mail, None) && e.data == ch.phase.addr
  {
    var box :| ChannelInv(ch, mail, box) && box.Some? && box.value != [] && box.value[0] == e;
    var inbox := box.value;
    assert |inbox + mail| == 1 && (inbox + mail)[0] == inbox[0];
    assert inbox == [e] && mail == [];
    assert ch.resolved + [e] + [] == after.resolved;
  }

  lemma PollFutureKeepsInv(s: System, i: nat)
    requires Inv(s) && Enabled(s, PollFuture(i))
    ensures Inv(Step(s, PollFuture(i)))
  {
    var ch := s.chans[i];
    var box := BoxOf(ch, s.waiters);
    if box.Some? && box.value != [] {
      SettleKeeps(s.chans, P.Events(s.ev, s.p), s.waiters, i, box.value[0],
                  ch.(phase := Idle, resolved := ch.resolved + [box.value[0]]));
    }
  }

  lemma StepKeepsInv(s: System, a: Action)
    requires Inv(s) && Enabled(s, a)
    ensures Inv(Step(s, a))
  {
    match a
    case Submit(i, trbs, awaited) => SubmitKeepsInv(s, i, trbs, awaited);
    case Advance(i, e) => AdvanceKeepsInv(s, i, e);
    case Stray(e) => StrayKeepsInv(s, e);
    case PollEvents => PollEventsKeepsInv(s);
    case PollFuture(i) => PollFutureKeepsInv(s, i);
  }
}

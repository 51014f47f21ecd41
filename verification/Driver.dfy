/** The objects of the driver and the controller beside them: their steps are the steps of the
    delivery protocol. */
module Drivers {
  import opened Bits
  import opened Results
  import opened Trbs
  import opened Waiters
  import opened Mailboxes
  import opened CommandRings
  import opened EventRings
  import opened Requests
  import opened Delivery
  import opened DeliveryRuns
  import P = EventProtocol
  import R = RingProtocol

  // ---- the steps of the protocol, spelled out ----

  /** Ring i with the request pushed, and its waiter at the end of the list. */
  ghost function Opened(s: System, i: nat, trbs: seq<Trb>, awaited: nat): System
    requires i < |s.chans| && s.chans[i].r.index < |s.chans[i].r.slots| && awaited < |trbs|
    requires Submitted(s.chans[i], trbs, awaited).phase.Awaiting?
  {
    var ch := Submitted(s.chans[i], trbs, awaited);
    s.(chans := s.chans[i := ch], waiters := s.waiters + [Waiter(CondOf(ch.kind, ch.phase.addr), true, [])])
  }

  function NewChannels(kinds: seq<Kind>, bases: seq<u64>): seq<Channel>
    requires |kinds| == |bases|
  {
    seq(|kinds|, k requires 0 <= k < |kinds| == |bases| => NewChannel(kinds[k], bases[k]))
  }

  ghost function AtRest(kinds: seq<Kind>, bases: seq<u64>, eventBase: u64, low: nat): System
    requires |kinds| == |bases|
  {
    System(NewChannels(kinds, bases), P.InitialEvents(eventBase, low), P.FIRST, [])
  }

  lemma RestStarts(kinds: seq<Kind>, bases: seq<u64>, eventBase: u64, low: nat)
    requires |kinds| == |bases| && Apart(NewChannels(kinds, bases))
    requires forall k | 0 <= k < |bases| :: bases[k] + 256 <= U64_SIZE
    ensures Start(AtRest(kinds, bases, eventBase, low)) && Inv(AtRest(kinds, bases, eventBase, low))
  {
    StartInv(AtRest(kinds, bases, eventBase, low));
  }

  /** What a look of the controller does to the system. */
  ghost predicate LookEffect(s: System, i: nat, look: R.Seen, e: Trb, s': System)
    requires i < |s.chans| && s.p.enq < |s.ev.slots|
  {
    var ch := s.chans[i];
    match look
    case Nothing => s' == s
    case Followed(c) => s' == s.(chans := s.chans[i := ch.(c := c)])
    case Took(_, trb, c) =>
      if !Reports(ch.kind, trb) then s' == s.(chans := s.chans[i := ch.(c := c)])
      else s' == s.(chans := s.chans[i := ch.(c := c, posted := ch.posted + [e.(cycle := s.p.pcs)])],
                    ev := P.PostSlots(s.ev, s.p, e), p := P.PostNext(s.p))
  }

  /** `after` is `ch` with the request pushed and waited for. */
  ghost predicate OpensRequest(ch: Channel, trbs: seq<Trb>, awaited: nat, after: Channel)
    requires ch.r.index < |ch.r.slots| && awaited < |trbs|
  {
    var sent := PushAll(ch.r, trbs);
    && sent.result.Ok? && 0 <= sent.result.value[awaited] < U64_SIZE
    && after.kind == ch.kind && after.c == ch.c && after.r == sent.ring
    && after.phase == Awaiting(sent.result.value[awaited])
  }

  lemma OpenedChannel(ch: Channel, trbs: seq<Trb>, awaited: nat)
    requires ch.r.index < |ch.r.slots| && awaited < |trbs| && ch.phase == Idle
    requires Submitted(ch, trbs, awaited).phase.Awaiting?
    ensures OpensRequest(ch, trbs, awaited, Submitted(ch, trbs, awaited))
  {
  }

  lemma StepIsOpened(s: System, i: nat, trbs: seq<Trb>, awaited: nat)
    requires Inv(s) && Enabled(s, Submit(i, trbs, awaited))
    ensures s.chans[i].r.index < |s.chans[i].r.slots| == R.NUM_TRB && s.chans[i].r.base + 256 <= U64_SIZE
    ensures Submitted(s.chans[i], trbs, awaited).phase.Awaiting?
    ensures Step(s, Submit(i, trbs, awaited)) == Opened(s, i, trbs, awaited) && Inv(Opened(s, i, trbs, awaited))
  {
    assert Healthy(s.chans[i], P.Events(s.ev, s.p), s.waiters);
    SubmittedChannel(s.chans[i], trbs, awaited);
    SubmitKeepsInv(s, i, trbs, awaited);
  }

  /** The system after a round of event handling. */
  ghost function Polled(s: System): System
    requires s.ev.index < |s.ev.slots|
  {
    s.(ev := P.Pop(s.ev).ring, waiters := Handled(s.ev, s.waiters))
  }

  lemma StepIsPolled(s: System)
    requires Inv(s)
    ensures s.ev.index < |s.ev.slots| && Enabled(s, PollEvents)
    ensures Step(s, PollEvents) == Polled(s) && Inv(Polled(s))
  {
    PollEventsKeepsInv(s);
  }

  /** No other request waits for the same event. */
  ghost predicate OwnCond(s: System, i: nat)
    requires i < |s.chans| && s.chans[i].phase.Awaiting?
  {
    forall j | 0 <= j < |s.chans| && j != i && s.chans[j].phase.Awaiting? ::
      CondOf(s.chans[j].kind, s.chans[j].phase.addr) != CondOf(s.chans[i].kind, s.chans[i].phase.addr)
  }

  lemma CondsDiffer(s: System, i: nat)
    requires Inv(s) && i < |s.chans| && s.chans[i].phase.Awaiting?
    ensures OwnCond(s, i) && OneEach(s.waiters)
  {
    assert Healthy(s.chans[i], P.Events(s.ev, s.p), s.waiters);
    forall j | 0 <= j < |s.chans| && j != i && s.chans[j].phase.Awaiting?
      ensures CondOf(s.chans[j].kind, s.chans[j].phase.addr) != CondOf(s.chans[i].kind, s.chans[i].phase.addr)
    {
      assert Healthy(s.chans[j], P.Events(s.ev, s.p), s.waiters);
      if CondOf(s.chans[j].kind, s.chans[j].phase.addr) == CondOf(s.chans[i].kind, s.chans[i].phase.addr) {
        SameRing(s.chans, i, j, s.chans[i].phase.addr);
      }
    }
  }

  /** What the future of ring i gives. */
  function Given(s: System, i: nat): Option<Trb>
    requires i < |s.chans|
  {
    var box := BoxOf(s.chans[i], s.waiters);
    if box.None? || box.value == [] then None else Some(box.value[0])
  }

  /** The system after its poll. */
  ghost function Taken(s: System, i: nat): System
    requires i < |s.chans| && s.chans[i].phase.Awaiting?
  {
    var ch, e := s.chans[i], Given(s, i);
    if e.None? then s
    else s.(chans := s.chans[i := ch.(phase := Idle, resolved := ch.resolved + [e.value])],
            waiters := Settle(s.waiters, CondOf(ch.kind, ch.phase.addr)))
  }

  /** `after` is `s` with the request of ring i closed. */
  ghost predicate ClosesRequest(s: System, i: nat, after: System)
    requires i < |s.chans|
  {
    && after.ev == s.ev && after.p == s.p && |after.chans| == |s.chans| && after.chans[i].phase == Idle
    && after.chans[i].kind == s.chans[i].kind && after.chans[i].r == s.chans[i].r && after.chans[i].c == s.chans[i].c
    && forall j | 0 <= j < |s.chans| && j != i :: after.chans[j] == s.chans[j]
  }

  lemma TakenCloses(s: System, i: nat)
    requires i < |s.chans| && s.chans[i].phase.Awaiting?
    ensures Given(s, i).None? ==> Taken(s, i) == s
    ensures Given(s, i).Some? ==> ClosesRequest(s, i, Taken(s, i))
    ensures Given(s, i).Some? ==> Taken(s, i).waiters == Settle(s.waiters, CondOf(s.chans[i].kind, s.chans[i].phase.addr))
  {
  }

  lemma StepIsTaken(s: System, i: nat)
    requires Inv(s) && Enabled(s, PollFuture(i))
    ensures Step(s, PollFuture(i)) == Taken(s, i) && Inv(Taken(s, i))
    ensures OwnCond(s, i) && OneEach(s.waiters)
  {
    PollFutureKeepsInv(s, i);
    CondsDiffer(s, i);
  }

  // ---- the objects ----

  /** New rings at the given addresses. */
  method MakeRings(bases: seq<u64>) returns (rings: seq<CommandRing>)
    ensures |rings| == |bases|
    ensures forall k | 0 <= k < |rings| ::
              && fresh(rings[k]) && fresh(rings[k].ring) && fresh(rings[k].ring.trb)
              && rings[k].View() == R.InitialRing(bases[k])
    ensures forall i, j | 0 <= i < j < |rings| ::
              rings[i] != rings[j] && rings[i].ring != rings[j].ring && rings[i].ring.trb != rings[j].ring.trb
  {
    rings := [];
    while |rings| < |bases|
      invariant |rings| <= |bases|
      invariant forall k | 0 <= k < |rings| ::
                  && fresh(rings[k]) && fresh(rings[k].ring) && fresh(rings[k].ring.trb)
                  && rings[k].View() == R.InitialRing(bases[k])
      invariant forall i, j | 0 <= i < j < |rings| ::
                  rings[i] != rings[j] && rings[i].ring != rings[j].ring && rings[i].ring.trb != rings[j].ring.trb
    {
      var ring := new CommandRing(bases[|rings|]);
      rings := rings + [ring];
    }
  }

  class Machine {
    /** The driver: its rings, its event ring, and the future of each ring's open request. */
    const rings: seq<CommandRing>
    const kinds: seq<Kind>
    const events: EventRing
    var futures: seq<EventFuture?>
    /** The controller: its place in every ring, and where it posts next. */
    var consumers: seq<R.Consumer>
    var producer: P.Producer

    /** No two rings share memory. */
    ghost predicate Separate() {
      && (forall i, j | 0 <= i < j < |rings| ::
            rings[i] != rings[j] && rings[i].ring != rings[j].ring && rings[i].ring.trb != rings[j].ring.trb)
      && (forall i | 0 <= i < |rings| :: rings[i].ring != events.ring && rings[i].ring.trb != events.ring.trb)
    }

    ghost predicate RingOk(i: nat, ch: Channel)
      requires i < |rings| && i < |kinds| && i < |consumers|
      reads this`consumers, rings[i], rings[i].ring, rings[i].ring.trb
    {
      kinds[i] == ch.kind && consumers[i] == ch.c && rings[i].View() == ch.r
    }

    ghost predicate FutureOk(i: nat, ch: Channel)
      requires i < |futures|
      reads this`futures, events`waitList, events.waitList
    {
      if ch.phase.Awaiting? then
        && futures[i] != null && futures[i].waitOn in events.waitList && futures[i].waitOn.strong == 1
        && futures[i].waitOn.cond == CondOf(ch.kind, ch.phase.addr)
      else futures[i] == null
    }

    ghost predicate EventsOk(ev: P.EventRing, p: P.Producer, ws: seq<Waiter>)
      reads this`producer, events, events.ring, events.ring.trb, events.waitList
    {
      events.Valid() && events.View() == ev && producer == p && Views(events.waitList) == ws
    }

    /** The objects are in this state of the protocol. */
    ghost predicate Shows(s: System)
      reads this`futures, this`consumers, this`producer, events, Outside()
    {
      && |rings| == |kinds| == |futures| == |consumers| == |s.chans| && EventsOk(s.ev, s.p, s.waiters)
      && (forall i | 0 <= i < |rings| :: RingOk(i, s.chans[i]))
      && (forall i | 0 <= i < |rings| :: FutureOk(i, s.chans[i]))
    }

    /** The objects the machine works on. */
    ghost function Outside(): set<object>
      reads events`waitList
    {
      {events, events.ring, events.ring.trb} + (set w | w in events.waitList)
      + (set k | 0 <= k < |rings| :: rings[k]) + (set k | 0 <= k < |rings| :: rings[k].ring)
      + (set k | 0 <= k < |rings| :: rings[k].ring.trb)
    }

    ghost function Objects(): set<object>
      reads events`waitList
    {
      {this} + Outside()
    }

    ghost predicate Valid(s: System)
      reads this`futures, this`consumers, this`producer, events, Outside()
    {
      Separate() && Inv(s) && Shows(s)
    }

    /** A machine at rest: new rings, an empty event ring, nobody waiting. */
    constructor (kinds: seq<Kind>, bases: seq<u64>, eventBase: u64, low: nat)
      requires |kinds| == |bases| && Apart(NewChannels(kinds, bases))
      requires forall k | 0 <= k < |bases| :: bases[k] + 256 <= U64_SIZE
      ensures Start(AtRest(kinds, bases, eventBase, low)) && Valid(AtRest(kinds, bases, eventBase, low))
      ensures fresh(Objects())
    {
      var made := MakeRings(bases);
      var ring := new EventRing(eventBase, low);
      rings := made;
      this.kinds := kinds;
      events := ring;
      futures := seq(|kinds|, _ => null);
      consumers := seq(|kinds|, _ => R.START);
      producer := P.FIRST;
      RestStarts(kinds, bases, eventBase, low);
      new;
      ghost var s := AtRest(kinds, bases, eventBase, low);
      assert Separate();
      forall k | 0 <= k < |rings| ensures RingOk(k, s.chans[k]) && FutureOk(k, s.chans[k]) {
        assert s.chans[k] == NewChannel(kinds[k], bases[k]);
      }
    }

    /** Waiters come into the list only when they are made. */
    twostate predicate NewWaitersOnly()
      reads events`waitList
    {
      forall w | w in events.waitList :: w in old(events.waitList) || fresh(w)
    }

    // ---- the controller ----

    /** A post into the memory of the event ring. */
    method Post(e: Trb)
      requires events.Valid() && producer.enq < R.NUM_TRB
      modifies this`producer, events.ring.trb
      ensures events.Valid() && producer == P.PostNext(old(producer))
      ensures events.View() == P.PostSlots(old(events.View()), old(producer), e)
    {
      events.ring.trb[producer.enq] := e.(cycle := producer.pcs);
      producer := P.PostNext(producer);
    }

    /** Posting leaves the rings and the waiters alone. */
    method PostBeside(e: Trb, ghost s: System)
      requires Separate() && Shows(s) && s.p.enq < R.NUM_TRB
      modifies this`producer, events.ring.trb
      ensures Shows(s.(ev := P.PostSlots(s.ev, s.p, e), p := P.PostNext(s.p)))
    {
      Post(e);
      ViewsKept(events.waitList);
      forall j | 0 <= j < |rings| ensures RingOk(j, s.chans[j]) && FutureOk(j, s.chans[j]) {
        assert old(RingOk(j, s.chans[j])) && old(FutureOk(j, s.chans[j]));
        assert rings[j].View() == old(rings[j].View());
      }
    }

    /** An event that is no report on an entry. */
    method Stray(e: Trb, ghost s: System)
      requires Valid(s) && Enabled(s, Action.Stray(e))
      modifies this`producer, events.ring.trb
      ensures Valid(Step(s, Action.Stray(e))) && events.waitList == old(events.waitList)
    {
      StrayKeepsInv(s, e);
      PostBeside(e, s);
    }

    /** The controller's place in ring i moves. */
    method MoveTo(i: nat, c: R.Consumer, ghost s: System, ghost s': System)
      requires Shows(s) && i < |s.chans| == |s'.chans| && s'.ev == s.ev && s'.p == s.p && s'.waiters == s.waiters
      requires s'.chans[i].kind == s.chans[i].kind && s'.chans[i].r == s.chans[i].r && s'.chans[i].c == c
      requires s'.chans[i].phase == s.chans[i].phase
      requires forall j | 0 <= j < |s.chans| && j != i :: s'.chans[j] == s.chans[j]
      modifies this`consumers
      ensures Shows(s')
    {
      consumers := consumers[i := c];
      forall j | 0 <= j < |rings| ensures RingOk(j, s'.chans[j]) && FutureOk(j, s'.chans[j]) {
        assert old(RingOk(j, s.chans[j])) && old(FutureOk(j, s.chans[j]));
      }
      assert old(EventsOk(s.ev, s.p, s.waiters));
    }

    /** The controller looks at ring i, and reports an entry that asks for it with `e`. */
    method LookAt(i: nat, e: Trb, ghost s: System, ghost s': System)
      requires Separate() && Shows(s) && i < |s.chans| == |s'.chans|
      requires s.chans[i].c.deq < |s.chans[i].r.slots| && s.p.enq < R.NUM_TRB
      requires LookEffect(s, i, R.Poll(s.chans[i].r.slots, s.chans[i].c), e, s')
      modifies this`consumers, this`producer, events.ring.trb
      ensures Shows(s')
    {
      assert RingOk(i, s.chans[i]);
      var look := R.Poll(rings[i].ring.trb[..], consumers[i]);
      match look {
        case Nothing =>
        case Followed(c) =>
          MoveTo(i, c, s, s');
        case Took(_, trb, c) =>
          if Reports(kinds[i], trb) {
            ghost var moved := s.(chans := s'.chans);
            MoveTo(i, c, s, moved);
            PostBeside(e, moved);
          } else {
            MoveTo(i, c, s, s');
          }
      }
    }

    method Look(i: nat, e: Trb, ghost s: System)
      requires Valid(s) && Enabled(s, Advance(i, e))
      modifies this`consumers, this`producer, events.ring.trb
      ensures Valid(Step(s, Advance(i, e))) && events.waitList == old(events.waitList)
    {
      AdvanceKeepsInv(s, i, e);
      LookAt(i, e, s, Step(s, Advance(i, e)));
    }

    // ---- the driver ----

    /** Every ring but ring i holds what it held. */
    twostate predicate RingsUntouched(new i: int)
      reads rings, set k | 0 <= k < |rings| :: rings[k].ring, set k | 0 <= k < |rings| :: rings[k].ring.trb
    {
      forall j | 0 <= j < |rings| && j != i ::
        && rings[j].cycleStateOurs == old(rings[j].cycleStateOurs)
        && rings[j].ring.currentIndex == old(rings[j].ring.currentIndex)
        && rings[j].ring.trb[..] == old(rings[j].ring.trb[..])
    }

    /** Every waiter a future holds is still listed and held. */
    twostate predicate WaitersHeld()
      reads events`waitList, events.waitList
    {
      forall w | w in old(events.waitList) && old(w.strong) == 1 :: w in events.waitList && w.strong == 1
    }

    twostate lemma RingsRest(s: System, new i: int)
      requires |rings| == |kinds| == old(|consumers|) == |s.chans| && consumers == old(consumers) && RingsUntouched(i)
      requires forall j | 0 <= j < |rings| && j != i :: old(RingOk(j, s.chans[j]))
      ensures forall j | 0 <= j < |rings| && j != i :: RingOk(j, s.chans[j])
    {
    }

    twostate lemma FuturesRest(s: System, new i: int)
      requires old(|futures|) == |s.chans| == |futures| && WaitersHeld()
      requires forall j | 0 <= j < |s.chans| && j != i :: old(FutureOk(j, s.chans[j])) && futures[j] == old(futures[j])
      ensures forall j | 0 <= j < |s.chans| && j != i :: FutureOk(j, s.chans[j])
    {
      forall j | 0 <= j < |s.chans| && j != i ensures FutureOk(j, s.chans[j]) {
        assert old(FutureOk(j, s.chans[j]));
      }
    }

    /** A round of event handling loses no waiter whose future exists. */
    method PollList(ghost s: System)
      requires EventsOk(s.ev, s.p, s.waiters) && s.ev.index < |s.ev.slots|
      modifies events`cycleStateOurs, events`erdp, events`waitList, events.ring, events.waitList`trbs
      ensures EventsOk(Polled(s).ev, s.p, Polled(s).waiters) && NewWaitersOnly() && WaitersHeld()
    {
      var r := events.Poll();
    }

    /** And it leaves the rings alone. */
    method PollObjects(ghost s: System)
      requires Separate() && EventsOk(s.ev, s.p, s.waiters) && s.ev.index < |s.ev.slots|
      modifies events`cycleStateOurs, events`erdp, events`waitList, events.ring, events.waitList`trbs
      ensures EventsOk(Polled(s).ev, s.p, Polled(s).waiters) && NewWaitersOnly() && WaitersHeld()
      ensures RingsUntouched(-1)
    {
      PollList(s);
    }

    method PollBeside(ghost s: System)
      requires Separate() && Shows(s) && s.ev.index < |s.ev.slots|
      modifies events`cycleStateOurs, events`erdp, events`waitList, events.ring, events.waitList`trbs
      ensures Shows(Polled(s)) && NewWaitersOnly()
    {
      PollObjects(s);
      RingsRest(s, -1);
      FuturesRest(s, -1);
    }

    method HandleEvents(ghost s: System)
      requires Valid(s)
      modifies events`cycleStateOurs, events`erdp, events`waitList, events.ring, events.waitList`trbs
      ensures Enabled(s, PollEvents) && Valid(Step(s, PollEvents)) && NewWaitersOnly()
    {
      StepIsPolled(s);
      PollBeside(s);
    }

    /** Where the waiter of ring i's open request stands in the list. */
    lemma PlaceOf(s: System, i: nat) returns (k: nat)
      requires Shows(s) && i < |s.chans| && s.chans[i].phase.Awaiting? && OneEach(s.waiters)
      ensures futures[i] != null && k < |events.waitList| && events.waitList[k] == futures[i].waitOn
      ensures futures[i].waitOn.cond == CondOf(s.chans[i].kind, s.chans[i].phase.addr) && futures[i].waitOn.strong == 1
      ensures Given(s, i) == if futures[i].waitOn.trbs == [] then None else Some(futures[i].waitOn.trbs[0])
      ensures k < |s.waiters| && s.waiters[k] == futures[i].waitOn.View()
      ensures Settle(s.waiters, futures[i].waitOn.cond) == s.waiters[k := Spent(s.waiters[k])]
    {
      assert FutureOk(i, s.chans[i]);
      k :| 0 <= k < |events.waitList| && events.waitList[k] == futures[i].waitOn;
      SettleAt(s.waiters, futures[i].waitOn.cond, k);
    }

    twostate lemma OtherFutures(s: System, new i: nat)
      requires old(|futures|) == |s.chans| == |futures| && i < |s.chans|
      requires forall j | 0 <= j < |s.chans| :: old(FutureOk(j, s.chans[j]))
      requires old(futures[i]) != null && events.waitList == old(events.waitList)
      requires forall j | 0 <= j < |s.chans| && j != i ::
                 && futures[j] == old(futures[j])
                 && (s.chans[j].phase.Awaiting? ==>
                       CondOf(s.chans[j].kind, s.chans[j].phase.addr) != old(futures[i]).waitOn.cond)
      requires forall w | w in events.waitList && w != old(futures[i]).waitOn :: w.strong == old(w.strong)
      ensures forall j | 0 <= j < |s.chans| && j != i :: FutureOk(j, s.chans[j])
    {
      forall j | 0 <= j < |s.chans| && j != i ensures FutureOk(j, s.chans[j]) {
        assert old(FutureOk(j, s.chans[j]));
      }
    }

    /** The future of ring i is polled; when it is ready it is dropped. */
    method TakeObjects(i: nat, f: EventFuture, ghost k: nat, ghost before: seq<Waiter>)
      returns (r: Option<Trb>, ghost after: seq<Waiter>)
      requires i < |futures| && futures[i] == f && f.waitOn.strong == 1 && Distinct(events.waitList)
      requires k < |events.waitList| && events.waitList[k] == f.waitOn && Views(events.waitList) == before
      modifies this`futures, f.waitOn
      ensures r == if old(f.waitOn.trbs) == [] then None else Some(old(f.waitOn.trbs)[0])
      ensures futures == if r.None? then old(futures) else old(futures)[i := null]
      ensures Views(events.waitList) == after && (r.None? ==> f.waitOn.strong == 1)
      ensures after == if r.None? then before else before[k := Spent(before[k])]
    {
      assert before[k] == f.waitOn.View();
      r := f.Poll();
      if r.Some? {
        f.Drop();
        futures := futures[i := null];
      }
      ViewChanged(events.waitList, k, f.waitOn);
      after := Views(events.waitList);
    }

    /** The event ring and the list stay, but for what the waiters hold. */
    twostate lemma EventsRest(s: System, new ws: seq<Waiter>)
      requires old(EventsOk(s.ev, s.p, s.waiters)) && unchanged(events) && unchanged(events.ring, events.ring.trb)
      requires producer == old(producer) && Views(events.waitList) == ws
      ensures EventsOk(s.ev, s.p, ws)
    {
    }

    /** Only what this waiter holds has changed. */
    twostate predicate OthersRest(new w: EventWaitInfo)
      reads events, events.waitList, events.ring, events.ring.trb,
            rings, set k | 0 <= k < |rings| :: rings[k].ring, set k | 0 <= k < |rings| :: rings[k].ring.trb
    {
      && unchanged(events) && unchanged(events.ring, events.ring.trb) && RingsUntouched(-1)
      && forall x | x in events.waitList && x != w :: x.strong == old(x.strong)
    }

    twostate lemma NothingTaken(s: System, new w: EventWaitInfo)
      requires old(Shows(s)) && futures == old(futures) && consumers == old(consumers)
      requires OthersRest(w) && w.strong == 1 && EventsOk(s.ev, s.p, s.waiters)
      ensures Shows(s)
    {
      RingsRest(s, -1);
      FuturesRest(s, -1);
    }

    twostate lemma FirstTaken(s: System, new i: nat, new w: EventWaitInfo, new after: System)
      requires old(Shows(s)) && i < |s.chans| && s.chans[i].phase.Awaiting? && OwnCond(s, i)
      requires ClosesRequest(s, i, after) && old(futures[i] != null && futures[i].waitOn == w)
      requires futures == old(futures)[i := null] && consumers == old(consumers)
      requires OthersRest(w) && EventsOk(after.ev, after.p, after.waiters)
      ensures Shows(after)
    {
      assert old(FutureOk(i, s.chans[i]));
      RingsRest(s, -1);
      OtherFutures(s, i);
      forall j | 0 <= j < |s.chans| ensures RingOk(j, after.chans[j]) && FutureOk(j, after.chans[j]) {
        assert RingOk(j, s.chans[j]);
      }
    }

    /** As `TakeObjects`, with what stays. */
    method TakeEvents(i: nat, f: EventFuture, ghost s: System, ghost k: nat)
      returns (r: Option<Trb>, ghost after: seq<Waiter>)
      requires i < |futures| && futures[i] == f && f.waitOn.strong == 1
      requires k < |events.waitList| && events.waitList[k] == f.waitOn && EventsOk(s.ev, s.p, s.waiters)
      modifies this`futures, f.waitOn
      ensures r == if old(f.waitOn.trbs) == [] then None else Some(old(f.waitOn.trbs)[0])
      ensures futures == if r.None? then old(futures) else old(futures)[i := null]
      ensures EventsOk(s.ev, s.p, after) && OthersRest(f.waitOn) && (r.None? ==> f.waitOn.strong == 1)
      ensures after == if r.None? then s.waiters else s.waiters[k := Spent(s.waiters[k])]
    {
      r, after := TakeObjects(i, f, k, s.waiters);
      EventsRest(s, after);
    }

    /** The future of ring i is polled: the objects follow the protocol. */
    method TakeFirst(i: nat, f: EventFuture, ghost s: System) returns (r: Option<Trb>)
      requires Separate() && Shows(s) && OneEach(s.waiters)
      requires i < |s.chans| && s.chans[i].phase.Awaiting? && OwnCond(s, i) && futures[i] == f
      modifies this`futures, f.waitOn
      ensures Shows(Taken(s, i)) && r == Given(s, i)
    {
      ghost var k := PlaceOf(s, i);
      TakenCloses(s, i);
      ghost var waiters;
      r, waiters := TakeEvents(i, f, s, k);
      if r.None? {
        NothingTaken(s, f.waitOn);
      } else {
        FirstTaken(s, i, f.waitOn, Taken(s, i));
      }
    }

    /** The future of an open request, and its waiter, are there. */
    lemma HasFuture(i: nat, s: System)
      requires Shows(s) && Enabled(s, PollFuture(i))
      ensures i < |futures| && futures[i] != null && futures[i].waitOn in events.waitList
    {
      assert FutureOk(i, s.chans[i]);
    }

    /** The executor polls the future of ring i. */
    method Await(i: nat, f: EventFuture, ghost s: System) returns (r: Option<Trb>)
      requires Valid(s) && Enabled(s, PollFuture(i)) && i < |futures| && futures[i] == f
      modifies this`futures, f.waitOn
      ensures Valid(Step(s, PollFuture(i))) && r == Given(s, i) && events.waitList == old(events.waitList)
    {
      StepIsTaken(s, i);
      r := TakeFirst(i, f, s);
    }

    // ---- requests ----

    /** The request of ring i is pushed, and its waiter is the new one in the list. */
    method SendListed(i: nat, trbs: seq<Trb>, awaited: nat, ghost s: System, ghost ch: Channel, ghost after: Channel)
      returns (f: Result<EventFuture>)
      requires Separate() && i < |rings| && i < |kinds| && i < |consumers| && RingOk(i, ch)
      requires EventsOk(s.ev, s.p, s.waiters) && Ready(rings[i], events) && ch.r.index < |ch.r.slots|
      requires awaited < |trbs| <= 3 && OpensRequest(ch, trbs, awaited, after)
      modifies rings[i], rings[i].ring, rings[i].ring.trb, events`waitList
      ensures f.Ok? && f.value.waitOn in events.waitList && f.value.waitOn.strong == 1
      ensures f.value.waitOn.cond == CondOf(after.kind, after.phase.addr) && RingOk(i, after)
      ensures EventsOk(s.ev, s.p, s.waiters + [Waiter(CondOf(after.kind, after.phase.addr), true, [])])
      ensures RingsUntouched(i) && WaitersHeld() && NewWaitersOnly()
    {
      ghost var list := events.waitList;
      f := Send(rings[i], events, kinds[i], trbs, awaited);
      if f.Ok? {
        ViewsGrown(list, f.value.waitOn);
      }
    }

    /** The future of ring i's new request is kept. */
    method Hold(i: nat, f: EventFuture, ghost s: System)
      requires |rings| == |kinds| == |futures| == |consumers| == |s.chans| && EventsOk(s.ev, s.p, s.waiters)
      requires i < |s.chans| && s.chans[i].phase.Awaiting? && f.waitOn in events.waitList && f.waitOn.strong == 1
      requires f.waitOn.cond == CondOf(s.chans[i].kind, s.chans[i].phase.addr)
      requires forall j | 0 <= j < |rings| :: RingOk(j, s.chans[j]) && (j != i ==> FutureOk(j, s.chans[j]))
      modifies this`futures
      ensures Shows(s)
    {
      futures := futures[i := f];
      forall j | 0 <= j < |rings| ensures FutureOk(j, s.chans[j]) {
        assert j != i ==> old(FutureOk(j, s.chans[j]));
      }
    }

    method SendBeside(i: nat, trbs: seq<Trb>, awaited: nat, ghost s: System)
      requires Separate() && Shows(s) && i < |s.chans| && awaited < |trbs| <= 3 && s.chans[i].phase == Idle
      requires s.chans[i].r.index < |s.chans[i].r.slots| == R.NUM_TRB && s.chans[i].r.base + 256 <= U64_SIZE
      requires Submitted(s.chans[i], trbs, awaited).phase.Awaiting?
      modifies this`futures, rings[i], rings[i].ring, rings[i].ring.trb, events`waitList
      ensures Shows(Opened(s, i, trbs, awaited)) && NewWaitersOnly()
    {
      assert RingOk(i, s.chans[i]);
      OpenedChannel(s.chans[i], trbs, awaited);
      var f := SendListed(i, trbs, awaited, s, s.chans[i], Submitted(s.chans[i], trbs, awaited));
      RingsRest(s, i);
      FuturesRest(s, i);
      Hold(i, f.value, Opened(s, i, trbs, awaited));
    }

    /** The driver makes a request on ring i. */
    method Submit(i: nat, trbs: seq<Trb>, awaited: nat, ghost s: System)
      requires Valid(s) && Enabled(s, Action.Submit(i, trbs, awaited))
      modifies this`futures, rings[i], rings[i].ring, rings[i].ring.trb, events`waitList
      ensures Valid(Step(s, Action.Submit(i, trbs, awaited))) && NewWaitersOnly()
    {
      StepIsOpened(s, i, trbs, awaited);
      SendBeside(i, trbs, awaited, s);
    }

    /** One step of the protocol, done by the objects. */
    method Perform(a: Action, ghost s: System)
      requires Valid(s) && Enabled(s, a)
      modifies Objects()
      ensures Valid(Step(s, a)) && NewWaitersOnly()
    {
      match a
      case Submit(i, trbs, awaited) => Submit(i, trbs, awaited, s);
      case Advance(i, e) => Look(i, e, s);
      case Stray(e) => Stray(e, s);
      case PollEvents => HandleEvents(s);
      case PollFuture(i) =>
        HasFuture(i, s);
        var r := Await(i, futures[i], s);
    }

    /** Any run of the protocol, done by the objects. */
    method Execute(actions: seq<Action>, ghost s: System, ghost s': System)
      requires Valid(s) && Leads(s, actions, s')
      modifies Objects()
      ensures Valid(s') && fresh(Objects() - old(Objects()))
    {
      ghost var now := s;
      var n := 0;
      assert actions[0..] == actions;
      while n < |actions|
        invariant 0 <= n <= |actions| && Valid(now) && Leads(now, actions[n..], s')
        invariant fresh(Objects() - old(Objects()))
      {
        ghost var rest := actions[n..];
        assert rest[0] == actions[n] && rest[1..] == actions[n + 1..];
        Perform(actions[n], now);
        now := Step(now, actions[n]);
        n := n + 1;
      }
    }
  }
}

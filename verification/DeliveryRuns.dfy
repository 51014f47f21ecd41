/** Whole runs of the delivery protocol: what always holds, and that every request can complete. */
module DeliveryRuns {
  import opened Bits
  import opened Results
  import opened Trbs
  import opened Delivery
  import opened Sequences
  import P = EventProtocol
  import R = RingProtocol

  // ---- runs ----

  function NewChannel(kind: Kind, base: u64): Channel {
    Channel(kind, R.InitialRing(base), R.START, Idle, [], [], [])
  }

  /** New rings in separate pages, an empty event ring, and nobody waiting. */
  ghost predicate Start(s: System) {
    && (exists base, low :: s.ev == P.InitialEvents(base, low)) && s.p == P.FIRST && s.waiters == [] && Apart(s.chans)
    && forall i | 0 <= i < |s.chans| ::
         s.chans[i] == NewChannel(s.chans[i].kind, s.chans[i].r.base) && s.chans[i].r.base + 256 <= U64_SIZE
  }

  ghost predicate Leads(s: System, actions: seq<Action>, s': System)
    decreases |actions|
  {
    if actions == [] then s' == s
    else Enabled(s, actions[0]) && Leads(Step(s, actions[0]), actions[1..], s')
  }

  lemma StartInv(s: System)
    requires Start(s)
    ensures Inv(s)
  {
    var base, low :| s.ev == P.InitialEvents(base, low);
    P.InitialEventsWellFormed(base, low);
    forall i | 0 <= i < |s.chans| ensures Healthy(s.chans[i], P.Events(s.ev, s.p), s.waiters) {
      R.InitialWellFormed(s.chans[i].r.base);
      assert R.Items(s.chans[i].r.slots, 0, 0) == [];
    }
  }

  lemma {:induction false} RunKeepsInv(s: System, actions: seq<Action>, s': System)
    requires Inv(s) && Leads(s, actions, s')
    ensures Inv(s')
    decreases |actions|
  {
    if actions == [] {
    } else {
      StepKeepsInv(s, actions[0]);
      RunKeepsInv(Step(s, actions[0]), actions[1..], s');
    }
  }

  lemma CommandsWaitAlone(base: u64, q: seq<R.Pending>, addr: int)
    ensures Quiet(Commands, q) ==> q == []
    ensures OneReport(Commands, base, q, addr) ==> |q| == 1
  {
    if q != [] {
      assert Reports(Commands, q[0].trb);
    }
    if |q| > 1 {
      assert Reports(Commands, q[1..][0].trb);
    }
  }

  /** How far the controller may be behind: four entries, and one on a command ring. */
  lemma LagIsBounded(ch: Channel, mail: seq<Trb>, box: Option<seq<Trb>>)
    requires ChannelInv(ch, mail, box)
    ensures |R.Queue(ch.r, ch.c)| <= if ch.kind == Commands then 1 else 4
  {
    CommandsWaitAlone(ch.r.base, R.Queue(ch.r, ch.c), if ch.phase.Awaiting? then ch.phase.addr else 0);
  }

  /** No completion is lost, doubled or handed to the wrong request: the futures of a ring gave
      the events posted for it, in order, each on the entry its request waited for; at most one
      is still on its way. */
  ghost predicate InOrder(ch: Channel) {
    && |ch.resolved| <= |ch.posted| <= |ch.addrs| && ch.resolved == ch.posted[..|ch.resolved|]
    && |ch.addrs| == |ch.resolved| + (if ch.phase == Idle then 0 else 1)
    && forall k | 0 <= k < |ch.posted| :: ch.posted[k].data == ch.addrs[k]
  }

  lemma OneOnTheWay(resolved: seq<Trb>, way: seq<Trb>, posted: seq<Trb>, addrs: seq<u64>)
    requires posted == resolved + way && |way| <= 1 && |addrs| == |resolved| + 1
    requires forall k | 0 <= k < |resolved| :: resolved[k].data == addrs[k]
    requires |way| == 1 ==> way[0].data == addrs[|resolved|]
    ensures |resolved| <= |posted| <= |addrs| && resolved == posted[..|resolved|]
    ensures forall k | 0 <= k < |posted| :: posted[k].data == addrs[k]
  {
  }

  lemma ChannelInOrder(ch: Channel, mail: seq<Trb>, box: Option<seq<Trb>>)
    requires ChannelInv(ch, mail, box)
    ensures InOrder(ch)
  {
    if ch.phase.Awaiting? {
      AppendAssociates(ch.resolved, box.value, mail);
      assert |box.value + mail| <= 1;
      OneOnTheWay(ch.resolved, box.value + mail, ch.posted, ch.addrs);
    } else {
      assert ch.posted[..|ch.resolved|] == ch.resolved;
    }
  }

  /** In every run, on every ring. */
  lemma EveryRunDelivers(s0: System, actions: seq<Action>, s: System, i: nat)
    requires Start(s0) && Leads(s0, actions, s) && i < |s.chans|
    ensures Inv(s) && R.WellFormed(s.chans[i].r)
    ensures |R.Queue(s.chans[i].r, s.chans[i].c)| <= if s.chans[i].kind == Commands then 1 else 4
    ensures InOrder(s.chans[i])
  {
    StartInv(s0);
    RunKeepsInv(s0, actions, s);
    assert Healthy(s.chans[i], P.Events(s.ev, s.p), s.waiters);
    LagIsBounded(s.chans[i], MailOf(s.chans[i], P.Events(s.ev, s.p)), BoxOf(s.chans[i], s.waiters));
    ChannelInOrder(s.chans[i], MailOf(s.chans[i], P.Events(s.ev, s.p)), BoxOf(s.chans[i], s.waiters));
  }

  /** The entries of the request went behind what was pending, and the last step waits for the
      address of the awaited one. */
  ghost predicate Queued(ch: Channel, after: Channel, trbs: seq<Trb>, awaited: nat, q: seq<R.Pending>, added: seq<R.Pending>)
    requires ch.r.index < |ch.r.slots| && awaited < |trbs|
  {
    && Pends(ch.r, ch.c, q) && Pends(after.r, after.c, q + added) && after.c == ch.c
    && PushAll(ch.r, trbs).result.Ok? && Added(trbs, ch.r.base, PushAll(ch.r, trbs).result.value, added)
    && after.phase.Awaiting? && after.phase.addr == R.SlotAddr(ch.r.base, added[awaited].slot)
  }

  /** No push of a request fails, and none overwrites an entry the controller has not taken. */
  lemma EveryRequestIsQueued(s0: System, actions: seq<Action>, s: System, i: nat, trbs: seq<Trb>, awaited: nat)
    returns (q: seq<R.Pending>, added: seq<R.Pending>)
    requires Start(s0) && Leads(s0, actions, s) && Enabled(s, Submit(i, trbs, awaited))
    ensures Queued(s.chans[i], Step(s, Submit(i, trbs, awaited)).chans[i], trbs, awaited, q, added)
  {
    EveryRunDelivers(s0, actions, s, i);
    var ch := s.chans[i];
    assert Healthy(ch, P.Events(s.ev, s.p), s.waiters);
    q := R.Queue(ch.r, ch.c);
    added := PushAllEnqueues(ch.r, ch.c, trbs, q);
  }

  // ---- progress ----

  lemma {:induction false} LeadsOn(s: System, a: seq<Action>, m: System, b: seq<Action>, s': System)
    requires Leads(s, a, m) && Leads(m, b, s')
    ensures Leads(s, a + b, s')
    decreases |a|
  {
    if a == [] {
      assert a + b == b;
    } else {
      TailOfConcat(a, b);
      LeadsOn(Step(s, a[0]), a[1..], m, b, s');
    }
  }

  lemma OneStep(s: System, a: Action)
    requires Enabled(s, a)
    ensures Leads(s, [a], Step(s, a))
  {
    assert [a][1..] == [];
  }

  /** As many rounds of event handling as events wait take in all of them. */
  lemma {:induction false} DrainEvents(s: System) returns (actions: seq<Action>, s': System)
    requires Inv(s)
    ensures Leads(s, actions, s') && Inv(s') && s'.chans == s.chans
    ensures |actions| == |P.Events(s.ev, s.p)| && (forall a | a in actions :: a == PollEvents)
    ensures P.Events(s'.ev, s'.p) == []
    decreases |P.Events(s.ev, s.p)|
  {
    if P.Events(s.ev, s.p) == [] {
      actions, s' := [], s;
    } else {
      PollEventsKeepsInv(s);
      P.PopDequeues(s.ev, s.p);
      var rest;
      rest, s' := DrainEvents(Step(s, PollEvents));
      actions := [PollEvents] + rest;
      OneStep(s, PollEvents);
      LeadsOn(s, [PollEvents], Step(s, PollEvents), rest, s');
    }
  }

  /** Once all events are taken in, a report that was posted is with the future that waits. */
  lemma Arrived(s: System, i: nat)
    requires Inv(s) && i < |s.chans| && s.chans[i].phase.Awaiting? && P.Events(s.ev, s.p) == []
    requires |s.chans[i].posted| > |s.chans[i].resolved|
    ensures Enabled(s, PollFuture(i))
    ensures Answered(s.chans[i], Step(s, PollFuture(i)).chans[i])
  {
    var ch := s.chans[i];
    InvIsShaped(s);
    assert Healthy(ch, [], s.waiters);
    var box := BoxOf(ch, s.waiters);
    assert ch.posted == ch.resolved + box.value;
    assert |box.value| == 1 && box.value == [box.value[0]];
  }

  /** The open request of `ch` got the event on the entry it waits for. */
  ghost predicate Answered(ch: Channel, after: Channel) {
    && ch.phase.Awaiting? && after.phase == Idle && after.addrs == ch.addrs && after.posted == after.resolved
    && |after.resolved| == |after.addrs| > 0 && after.resolved[|after.addrs| - 1].data == ch.phase.addr
  }

  lemma RoomWhenEmpty(ev: P.EventRing, p: P.Producer)
    requires P.WellFormed(ev, p) && P.Flow(ev, p) && P.Events(ev, p) == []
    ensures P.MayPost(ev, p)
  {
    P.EventsLength(ev, p);
  }

  /** A report on the entry in `slot`. */
  function Report(kind: Kind, base: u64, slot: nat): (e: Trb)
    requires base + 16 * slot < U64_SIZE
    ensures e.TrbType() == Code(kind) && e.data == R.SlotAddr(base, slot)
  {
    Trb(R.SlotAddr(base, slot), 0, Code(kind) * 512, false)
  }

  function Looks(ch: Channel): nat
    requires |ch.r.slots| == R.NUM_TRB && ch.r.index < R.LAST
  {
    2 * |R.Queue(ch.r, ch.c)| + (if ch.c.deq == R.LAST then 1 else 0)
  }

  /** One look of the controller at a ring with an open request it has not reported on. */
  lemma LookOnce(s: System, i: nat) returns (a: Action)
    requires Inv(s) && i < |s.chans| && s.chans[i].phase.Awaiting? && P.Events(s.ev, s.p) == []
    requires s.chans[i].posted == s.chans[i].resolved
    ensures Enabled(s, a) && Inv(Step(s, a))
    ensures |Step(s, a).chans| == |s.chans| && R.WellFormed(s.chans[i].r) && R.WellFormed(Step(s, a).chans[i].r)
    ensures var ch, after := s.chans[i], Step(s, a).chans[i];
            && after.phase == ch.phase && after.addrs == ch.addrs && after.resolved == ch.resolved
            && (|after.posted| == |ch.posted| + 1
                || (after.posted == ch.posted && P.Events(Step(s, a).ev, Step(s, a).p) == [] && Looks(after) < Looks(ch)))
  {
    var ch := s.chans[i];
    InvIsShaped(s);
    RoomWhenEmpty(s.ev, s.p);
    assert Healthy(ch, [], s.waiters);
    assert R.Queue(ch.r, ch.c) != [];
    R.PollDequeues(ch.r, ch.c);
    var look := R.Poll(ch.r.slots, ch.c);
    a := Advance(i, Report(ch.kind, ch.r.base, if look.Took? then look.slot else 0));
    AdvanceKeepsInv(s, i, a.e);
    assert Healthy(Step(s, a).chans[i], P.Events(Step(s, a).ev, Step(s, a).p), s.waiters);
  }

  /** The controller gets to the awaited entry. */
  lemma {:induction false} WorkOff(s: System, i: nat) returns (actions: seq<Action>, s': System)
    requires Inv(s) && i < |s.chans| && s.chans[i].phase.Awaiting? && P.Events(s.ev, s.p) == []
    requires R.WellFormed(s.chans[i].r)
    ensures Leads(s, actions, s') && Inv(s') && |s'.chans| == |s.chans|
    ensures s'.chans[i].phase == s.chans[i].phase && s'.chans[i].addrs == s.chans[i].addrs
    ensures |s'.chans[i].posted| > |s'.chans[i].resolved|
    decreases Looks(s.chans[i])
  {
    assert Healthy(s.chans[i], [], s.waiters);
    if |s.chans[i].posted| > |s.chans[i].resolved| {
      actions, s' := [], s;
    } else {
      var ch := s.chans[i];
      assert ch.posted == ch.resolved + BoxOf(ch, s.waiters).value && ch.posted == ch.resolved;
      var a := LookOnce(s, i);
      OneStep(s, a);
      if |Step(s, a).chans[i].posted| == |ch.posted| + 1 {
        actions, s' := [a], Step(s, a);
      } else {
        var rest;
        rest, s' := WorkOff(Step(s, a), i);
        actions := [a] + rest;
        LeadsOn(s, [a], Step(s, a), rest, s');
      }
    }
  }

  lemma CanComplete(s: System, i: nat) returns (actions: seq<Action>, s': System)
    requires Inv(s) && i < |s.chans| && s.chans[i].phase.Awaiting? && P.Events(s.ev, s.p) == []
    requires R.WellFormed(s.chans[i].r)
    ensures Leads(s, actions, s') && |s'.chans| == |s.chans| && Answered(s.chans[i], s'.chans[i])
  {
    var a2, s2 := WorkOff(s, i);
    var a3, s3 := DrainEvents(s2);
    Arrived(s3, i);
    s' := Step(s3, PollFuture(i));
    OneStep(s3, PollFuture(i));
    LeadsOn(s2, a3, s3, [PollFuture(i)], s');
    LeadsOn(s, a2, s2, a3 + [PollFuture(i)], s');
    actions := a2 + (a3 + [PollFuture(i)]);
  }

  /** The protocol never locks up: from any reachable state an open request can complete, with
      the event on the entry it waits for. */
  lemma EveryRequestCanComplete(s0: System, before: seq<Action>, s: System, i: nat) returns (actions: seq<Action>, s': System)
    requires Start(s0) && Leads(s0, before, s) && i < |s.chans| && s.chans[i].phase.Awaiting?
    ensures Leads(s, actions, s') && |s'.chans| == |s.chans|
    ensures Answered(s.chans[i], s'.chans[i])
  {
    EveryRunDelivers(s0, before, s, i);
    var first, s1 := DrainEvents(s);
    var rest;
    rest, s' := CanComplete(s1, i);
    LeadsOn(s, first, s1, rest, s');
    actions := first + rest;
  }
}

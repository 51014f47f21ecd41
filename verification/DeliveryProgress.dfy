/** Every run answers its requests: whatever else happens, enough turns of the controller on a
    ring, of the event handling and of the future complete the request that is open. */
module DeliveryProgress {
  import opened Trbs
  import opened Delivery
  import opened DeliveryRuns
  import P = EventProtocol
  import R = RingProtocol

  // ---- how far request n of a ring is ----

  ghost predicate Made(s: System, i: nat, n: nat) {
    Inv(s) && i < |s.chans| && 0 < n <= |s.chans[i].addrs|
  }

  ghost predicate ReportPosted(s: System, i: nat, n: nat) {
    Made(s, i, n) && |s.chans[i].posted| >= n
  }

  ghost function Mail(s: System, i: nat): seq<Trb>
    requires Inv(s) && i < |s.chans|
  {
    MailOf(s.chans[i], P.Events(s.ev, s.p))
  }

  /** The report is in the mailbox, or was already given out. */
  ghost predicate Handed(s: System, i: nat, n: nat) {
    ReportPosted(s, i, n) && (|s.chans[i].resolved| >= n || Mail(s, i) == [])
  }

  ghost predicate Resolved(s: System, i: nat, n: nat) {
    Made(s, i, n) && |s.chans[i].resolved| >= n
  }

  lemma OrderOf(s: System, i: nat)
    requires Inv(s) && i < |s.chans|
    ensures InOrder(s.chans[i]) && R.WellFormed(s.chans[i].r) && |R.Queue(s.chans[i].r, s.chans[i].c)| <= 4
  {
    assert Healthy(s.chans[i], P.Events(s.ev, s.p), s.waiters);
    ChannelInOrder(s.chans[i], Mail(s, i), BoxOf(s.chans[i], s.waiters));
    LagIsBounded(s.chans[i], Mail(s, i), BoxOf(s.chans[i], s.waiters));
  }

  /** Nothing that happened is taken back. */
  ghost predicate Grows(ch: Channel, after: Channel) {
    && after.kind == ch.kind && after.r.base == ch.r.base
    && ch.addrs <= after.addrs && ch.posted <= after.posted && ch.resolved <= after.resolved
  }

  lemma SubmittedGrows(ch: Channel, trbs: seq<Trb>, awaited: nat)
    requires ch.r.index < |ch.r.slots| && awaited < |trbs|
    ensures Grows(ch, Submitted(ch, trbs, awaited))
  {
  }

  lemma LookGrows(s: System, a: Action, i: nat)
    requires Enabled(s, a) && a.Advance? && i < |s.chans|
    ensures |Step(s, a).chans| == |s.chans| && Grows(s.chans[i], Step(s, a).chans[i])
  {
  }

  lemma AnswerGrows(s: System, a: Action, i: nat)
    requires Enabled(s, a) && a.PollFuture? && i < |s.chans|
    ensures |Step(s, a).chans| == |s.chans| && Grows(s.chans[i], Step(s, a).chans[i])
  {
  }

  lemma StepGrows(s: System, a: Action, i: nat)
    requires Inv(s) && Enabled(s, a) && i < |s.chans|
    ensures |Step(s, a).chans| == |s.chans| && Grows(s.chans[i], Step(s, a).chans[i])
  {
    match a
    case Submit(j, trbs, awaited) => SubmittedGrows(s.chans[j], trbs, awaited);
    case Advance(_, _) => LookGrows(s, a, i);
    case Stray(_) =>
    case PollEvents =>
    case PollFuture(_) => AnswerGrows(s, a, i);
  }

  // ---- the controller's turn ----

  function LooksIn(actions: seq<Action>, i: nat): nat {
    if actions == [] then 0
    else (if actions[0].Advance? && actions[0].i == i then 1 else 0) + LooksIn(actions[1..], i)
  }

  /** A look at the ring brings the controller closer to the awaited entry, or reports it. */
  lemma LookAdvances(s: System, i: nat, e: Trb)
    requires Inv(s) && Enabled(s, Advance(i, e)) && s.chans[i].phase.Awaiting? && s.chans[i].posted == s.chans[i].resolved
    ensures R.WellFormed(s.chans[i].r) && R.WellFormed(Step(s, Advance(i, e)).chans[i].r)
    ensures var ch, after := s.chans[i], Step(s, Advance(i, e)).chans[i];
            |after.posted| == |ch.posted| + 1 || Looks(after) < Looks(ch)
  {
    var ch := s.chans[i];
    assert Healthy(ch, P.Events(s.ev, s.p), s.waiters);
    assert BoxOf(ch, s.waiters).value + Mail(s, i) == [] by {
      assert ch.resolved + BoxOf(ch, s.waiters).value + Mail(s, i) == ch.resolved;
    }
    assert R.Queue(ch.r, ch.c) != [];
    R.PollDequeues(ch.r, ch.c);
  }

  /** No other step moves the ring of an open request. */
  lemma RingRests(s: System, a: Action, i: nat)
    requires Inv(s) && Enabled(s, a) && i < |s.chans| && s.chans[i].phase.Awaiting?
    requires !(a.Advance? && a.i == i)
    ensures |Step(s, a).chans| == |s.chans|
    ensures Step(s, a).chans[i].r == s.chans[i].r && Step(s, a).chans[i].c == s.chans[i].c
    ensures Step(s, a).chans[i].posted == s.chans[i].posted
  {
    match a
    case Submit(j, trbs, awaited) =>
    case Advance(j, e) =>
    case Stray(e) =>
    case PollEvents =>
    case PollFuture(j) =>
  }

  lemma {:induction false} MadeStays(s: System, actions: seq<Action>, s': System, i: nat, n: nat)
    requires Made(s, i, n) && Leads(s, actions, s')
    ensures Made(s', i, n)
    ensures ReportPosted(s, i, n) ==> ReportPosted(s', i, n)
    ensures Resolved(s, i, n) ==> Resolved(s', i, n)
    decreases |actions|
  {
    if actions == [] {
    } else {
      StepKeepsInv(s, actions[0]);
      StepGrows(s, actions[0], i);
      MadeStays(Step(s, actions[0]), actions[1..], s', i, n);
    }
  }

  /** Enough looks at the ring, and the report is posted. */
  lemma {:induction false} LooksPost(s: System, actions: seq<Action>, s': System, i: nat, n: nat)
    requires Made(s, i, n) && Leads(s, actions, s')
    requires ReportPosted(s, i, n) || (R.WellFormed(s.chans[i].r) && Looks(s.chans[i]) <= LooksIn(actions, i))
    ensures ReportPosted(s', i, n)
    decreases |actions|
  {
    if ReportPosted(s, i, n) {
      MadeStays(s, actions, s', i, n);
    } else {
      OrderOf(s, i);
      DueLooks(s, i);
      var next := Step(s, actions[0]);
      StepKeepsInv(s, actions[0]);
      StepGrows(s, actions[0], i);
      if actions[0].Advance? && actions[0].i == i {
        LookAdvances(s, i, actions[0].e);
      } else {
        RingRests(s, actions[0], i);
      }
      LooksPost(next, actions[1..], s', i, n);
    }
  }

  /** While the report is due the controller has entries to take. */
  lemma DueLooks(s: System, i: nat)
    requires Inv(s) && i < |s.chans| && |s.chans[i].posted| < |s.chans[i].addrs|
    ensures s.chans[i].phase.Awaiting? && s.chans[i].posted == s.chans[i].resolved
    ensures R.WellFormed(s.chans[i].r) && Looks(s.chans[i]) > 0
  {
    var ch := s.chans[i];
    OrderOf(s, i);
    assert Healthy(ch, P.Events(s.ev, s.p), s.waiters);
    assert |ch.posted| == |ch.resolved| && ch.posted[..|ch.resolved|] == ch.posted;
    assert BoxOf(ch, s.waiters).value + Mail(s, i) == [] by {
      assert ch.resolved + BoxOf(ch, s.waiters).value + Mail(s, i) == ch.resolved;
    }
    assert R.Queue(ch.r, ch.c) != [];
  }

  // ---- the turn of event handling ----

  function PollsIn(actions: seq<Action>): nat {
    if actions == [] then 0 else (if actions[0].PollEvents? then 1 else 0) + PollsIn(actions[1..])
  }

  /** The events up to the first report on this ring. */
  function Ahead(ch: Channel, q: seq<R.Pending>): nat {
    if q == [] then 0
    else if Belongs(ch.kind, ch.r.base, q[0].trb) then 1
    else 1 + Ahead(ch, q[1..])
  }

  lemma {:induction false} AheadBounded(ch: Channel, q: seq<R.Pending>)
    ensures Ahead(ch, q) <= |q|
  {
    if q == [] {
    } else {
      AheadBounded(ch, q[1..]);
    }
  }

  lemma {:induction false} AheadOfMore(ch: Channel, q: seq<R.Pending>, x: R.Pending)
    requires MailOf(ch, q) != []
    ensures Ahead(ch, q + [x]) == Ahead(ch, q)
  {
    assert (q + [x])[0] == q[0] && (q + [x])[1..] == q[1..] + [x];
    if Belongs(ch.kind, ch.r.base, q[0].trb) {
    } else {
      AheadOfMore(ch, q[1..], x);
    }
  }

  /** What a step does to the events: nothing, one more at the end, or one less in front. */
  lemma StepEvents(s: System, a: Action) returns (x: R.Pending)
    requires Inv(s) && Enabled(s, a)
    ensures Inv(Step(s, a))
    ensures var q, q' := P.Events(s.ev, s.p), P.Events(Step(s, a).ev, Step(s, a).p);
            if a.PollEvents? then (if q == [] then q' == [] else q == [q[0]] + q') else q' == q || q' == q + [x]
  {
    StepKeepsInv(s, a);
    x := R.Pending(0, ZERO);
    match a
    case Submit(j, trbs, awaited) =>
    case Advance(j, e) =>
      x := R.Pending(s.p.enq, e.(cycle := s.p.pcs));
      var look := R.Poll(s.chans[j].r.slots, s.chans[j].c);
      if look.Took? && Reports(s.chans[j].kind, look.trb) {
        P.PostEnqueues(s.ev, s.p, e);
      }
    case Stray(e) =>
      x := R.Pending(s.p.enq, e.(cycle := s.p.pcs));
      P.PostEnqueues(s.ev, s.p, e);
    case PollEvents =>
      P.PopDequeues(s.ev, s.p);
    case PollFuture(j) =>
  }

  /** A report that was posted and not given out is in one place. */
  lemma OnTheWay(s: System, i: nat, n: nat)
    requires ReportPosted(s, i, n) && |s.chans[i].resolved| < n
    ensures var ch := s.chans[i];
            && ch.phase.Awaiting? && |ch.addrs| == n && |ch.posted| == n && |ch.resolved| == n - 1
            && BoxOf(ch, s.waiters).Some? && |BoxOf(ch, s.waiters).value| + |Mail(s, i)| == 1
  {
    OrderOf(s, i);
    assert Healthy(s.chans[i], P.Events(s.ev, s.p), s.waiters);
  }

  lemma PostsLeaveBoxes(s: System, a: Action, i: nat)
    requires Inv(s) && Enabled(s, a) && i < |s.chans| && (a.Advance? || a.Stray?)
    ensures |Step(s, a).chans| == |s.chans|
    ensures BoxOf(Step(s, a).chans[i], Step(s, a).waiters) == BoxOf(s.chans[i], s.waiters)
  {
  }

  lemma HandedStays(s: System, a: Action, i: nat, n: nat)
    requires Handed(s, i, n) && Enabled(s, a)
    ensures Handed(Step(s, a), i, n)
  {
    var s' := Step(s, a);
    var x := StepEvents(s, a);
    StepGrows(s, a, i);
    var ch, q, q' := s.chans[i], P.Events(s.ev, s.p), P.Events(s'.ev, s'.p);
    if |s'.chans[i].resolved| < n {
      OnTheWay(s, i, n);
      OnTheWay(s', i, n);
      if a.Advance? || a.Stray? {
        PostsLeaveBoxes(s, a, i);
      } else if a.PollEvents? && q != [] {
        ForFirst(ch.kind, ch.r.base, q, q[0], q');
      }
      assert a.Submit? || a.PollFuture? ==> q' == q by {
        if a.Submit? || a.PollFuture? {
          EventsRest(s, a);
        }
      }
    }
  }

  lemma EventsRest(s: System, a: Action)
    requires Inv(s) && Enabled(s, a) && (a.Submit? || a.PollFuture?)
    ensures Step(s, a).ev == s.ev && Step(s, a).p == s.p
  {
  }

  /** A round of event handling brings the report closer to its mailbox, or hands it over, and
      no other step takes it further away. */
  lemma PollAdvances(s: System, a: Action, i: nat, n: nat)
    requires ReportPosted(s, i, n) && !Handed(s, i, n) && Enabled(s, a)
    ensures ReportPosted(Step(s, a), i, n)
    ensures var q, q' := P.Events(s.ev, s.p), P.Events(Step(s, a).ev, Step(s, a).p);
            || Handed(Step(s, a), i, n)
            || Ahead(s.chans[i], q') + (if a.PollEvents? then 1 else 0) <= Ahead(s.chans[i], q)
  {
    var s' := Step(s, a);
    var x := StepEvents(s, a);
    StepGrows(s, a, i);
    OnTheWay(s, i, n);
    var ch, q, q' := s.chans[i], P.Events(s.ev, s.p), P.Events(s'.ev, s'.p);
    if a.PollEvents? {
      assert q != [];
      ForFirst(ch.kind, ch.r.base, q, q[0], q');
      assert q[1..] == q';
    } else if q' != q {
      AheadOfMore(ch, q, x);
    }
  }

  lemma SameAhead(ch: Channel, after: Channel, q: seq<R.Pending>)
    requires after.kind == ch.kind && after.r.base == ch.r.base
    ensures Ahead(after, q) == Ahead(ch, q) && MailOf(after, q) == MailOf(ch, q)
  {
    if q == [] {
    } else {
      SameAhead(ch, after, q[1..]);
    }
  }

  /** Enough rounds of event handling, and the report is in its mailbox. */
  lemma {:induction false} PollsHand(s: System, actions: seq<Action>, s': System, i: nat, n: nat)
    requires ReportPosted(s, i, n) && Leads(s, actions, s')
    requires Handed(s, i, n) || Ahead(s.chans[i], P.Events(s.ev, s.p)) <= PollsIn(actions)
    ensures Handed(s', i, n)
    decreases |actions|
  {
    if actions == [] {
      if !Handed(s, i, n) {
        OnTheWay(s, i, n);
        assert false;
      }
    } else {
      var next := Step(s, actions[0]);
      if Handed(s, i, n) {
        HandedStays(s, actions[0], i, n);
      } else {
        PollAdvances(s, actions[0], i, n);
        StepGrows(s, actions[0], i);
        SameAhead(s.chans[i], next.chans[i], P.Events(next.ev, next.p));
      }
      PollsHand(next, actions[1..], s', i, n);
    }
  }

  // ---- the turn of the future ----

  lemma FutureResolves(s: System, i: nat, n: nat)
    requires Handed(s, i, n) && Enabled(s, PollFuture(i))
    ensures Resolved(Step(s, PollFuture(i)), i, n)
  {
    StepKeepsInv(s, PollFuture(i));
    StepGrows(s, PollFuture(i), i);
    if |s.chans[i].resolved| < n {
      OnTheWay(s, i, n);
    }
  }

  lemma {:induction false} PollResolves(s: System, actions: seq<Action>, s': System, i: nat, n: nat)
    requires Handed(s, i, n) && Leads(s, actions, s') && PollFuture(i) in actions
    ensures Resolved(s', i, n)
    decreases |actions|
  {
    var next := Step(s, actions[0]);
    HandedStays(s, actions[0], i, n);
    if actions[0] == PollFuture(i) {
      FutureResolves(s, i, n);
      MadeStays(next, actions[1..], s', i, n);
    } else {
      PollResolves(next, actions[1..], s', i, n);
    }
  }

  /** Looks that always suffice, and rounds of event handling. */
  lemma EnoughTurns(s: System, i: nat)
    requires Inv(s) && i < |s.chans|
    ensures R.WellFormed(s.chans[i].r) && Looks(s.chans[i]) <= 9
    ensures Ahead(s.chans[i], P.Events(s.ev, s.p)) <= 15
  {
    OrderOf(s, i);
    AheadBounded(s.chans[i], P.Events(s.ev, s.p));
  }

  /** Every run answers: 9 looks of the controller at the ring, then 15 rounds of event handling,
      then one poll of the future, each among any other steps of anyone, and the request that
      was open has got the event on the entry it waited for. */
  lemma EveryRunAnswers(s0: System, before: seq<Action>, s: System, i: nat,
                        looks: seq<Action>, s1: System, polls: seq<Action>, s2: System, rest: seq<Action>, s3: System)
    requires Start(s0) && Leads(s0, before, s) && i < |s.chans| && s.chans[i].phase.Awaiting?
    requires Leads(s, looks, s1) && LooksIn(looks, i) >= 9
    requires Leads(s1, polls, s2) && PollsIn(polls) >= 15
    requires Leads(s2, rest, s3) && PollFuture(i) in rest
    ensures i < |s3.chans| && InOrder(s3.chans[i])
    ensures var n := |s.chans[i].addrs|;
            0 < n <= |s3.chans[i].resolved| && s3.chans[i].resolved[n - 1].data == s.chans[i].phase.addr
  {
    StartInv(s0);
    RunKeepsInv(s0, before, s);
    var n := |s.chans[i].addrs|;
    OrderOf(s, i);
    EnoughTurns(s, i);
    LooksPost(s, looks, s1, i, n);
    EnoughTurns(s1, i);
    PollsHand(s1, polls, s2, i, n);
    PollResolves(s2, rest, s3, i, n);
    OrderOf(s3, i);
    LastAddr(s, i);
    AddrsStay(s, looks, s1, i);
    AddrsStay(s1, polls, s2, i);
    AddrsStay(s2, rest, s3, i);
  }

  lemma LastAddr(s: System, i: nat)
    requires Inv(s) && i < |s.chans| && s.chans[i].phase.Awaiting?
    ensures |s.chans[i].addrs| > 0 && s.chans[i].addrs[|s.chans[i].addrs| - 1] == s.chans[i].phase.addr
  {
    assert Healthy(s.chans[i], P.Events(s.ev, s.p), s.waiters);
  }

  lemma {:induction false} AddrsStay(s: System, actions: seq<Action>, s': System, i: nat)
    requires Inv(s) && Leads(s, actions, s') && i < |s.chans|
    ensures i < |s'.chans| && s.chans[i].addrs <= s'.chans[i].addrs
    decreases |actions|
  {
    if actions == [] {
    } else {
      StepKeepsInv(s, actions[0]);
      StepGrows(s, actions[0], i);
      AddrsStay(Step(s, actions[0]), actions[1..], s', i);
    }
  }
}

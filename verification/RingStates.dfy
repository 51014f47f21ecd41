/** States the rings do reach: runs that lead to each of the corner cases. */
module RingStates {
  import opened Bits
  import opened Trbs
  import opened RingProtocol
  import P = EventProtocol

  // ---- a ring and its controller ----

  /** Reachable in a run from the start, and in order. */
  ghost predicate At(base: u64, actions: seq<Action>, s: System, index: nat, ours: bool, deq: nat, ccs: bool) {
    && Reachable(base, actions, s) && Fifo(s)
    && s.r.index == index && s.r.ours == ours && s.c == Consumer(deq, ccs)
  }

  lemma OneMoreAction(base: u64, actions: seq<Action>, s: System, a: Action)
    requires Reachable(base, actions, s) && Fifo(s) && Enabled(s, a)
    ensures Reachable(base, actions + [a], Step(s, a)) && Fifo(Step(s, a))
  {
    assert (actions + [a])[..|actions|] == actions;
    StepKeepsFifo(s, a);
  }

  /** n more pushes inside a lap. */
  lemma {:induction false} PushOn(base: u64, actions: seq<Action>, s: System, index: nat, ours: bool, deq: nat, ccs: bool, n: nat)
    returns (actions': seq<Action>, s': System)
    requires At(base, actions, s, index, ours, deq, ccs) && index + n < LAST
    requires ccs != ours || index + n <= deq
    ensures At(base, actions', s', index + n, ours, deq, ccs)
    decreases n
  {
    if n == 0 {
      return actions, s;
    } else {
      var a := Software(ZERO);
      OneMoreAction(base, actions, s, a);
      PushFills(s.r, ZERO);
      actions', s' := PushOn(base, actions + [a], Step(s, a), index + 1, ours, deq, ccs, n - 1);
    }
  }

  /** The push that ends a lap. */
  lemma PushRound(base: u64, actions: seq<Action>, s: System, ours: bool, deq: nat)
    returns (actions': seq<Action>, s': System)
    requires At(base, actions, s, LAST - 1, ours, deq, !ours)
    ensures At(base, actions', s', 0, !ours, deq, !ours)
  {
    var a := Software(ZERO);
    OneMoreAction(base, actions, s, a);
    PushFills(s.r, ZERO);
    return actions + [a], Step(s, a);
  }

  /** n more entries are taken inside a lap. */
  lemma {:induction false} TakeOn(base: u64, actions: seq<Action>, s: System, index: nat, ours: bool, deq: nat, ccs: bool, n: nat)
    returns (actions': seq<Action>, s': System)
    requires At(base, actions, s, index, ours, deq, ccs) && deq + n <= if ccs != ours then index else LAST
    ensures At(base, actions', s', index, ours, deq + n, ccs)
    decreases n
  {
    if n == 0 {
      return actions, s;
    } else {
      OneMoreAction(base, actions, s, Controller);
      PollDequeues(s.r, s.c);
      actions', s' := TakeOn(base, actions + [Controller], Step(s, Controller), index, ours, deq + 1, ccs, n - 1);
    }
  }

  /** The controller follows the link into the lap software is in. */
  lemma FollowLink(base: u64, actions: seq<Action>, s: System, index: nat, ours: bool)
    returns (actions': seq<Action>, s': System)
    requires At(base, actions, s, index, ours, LAST, ours)
    ensures At(base, actions', s', index, ours, 0, !ours)
  {
    OneMoreAction(base, actions, s, Controller);
    return actions + [Controller], Step(s, Controller);
  }

  lemma BeginAt(base: u64)
    ensures At(base, [], Begin(base), 0, false, 0, true)
  {
    RingIsFifo(base, [], Begin(base));
  }

  /** One lap is pushed and taken, and the controller stands before the link. */
  lemma LapTaken(base: u64) returns (actions: seq<Action>, s: System)
    ensures At(base, actions, s, 0, true, LAST, true)
  {
    BeginAt(base);
    actions, s := PushOn(base, [], Begin(base), 0, false, 0, true, 14);
    actions, s := TakeOn(base, actions, s, 14, false, 0, true, 14);
    actions, s := PushRound(base, actions, s, false, 14);
    actions, s := TakeOn(base, actions, s, 0, true, 14, true, 1);
  }

  /** 14 entries wait, the controller stands before the link, and after one more push it finds
      nothing: the stall is reached by safe pushes and one that is not. */
  lemma StallIsReached(base: u64, src: Trb) returns (actions: seq<Action>, s: System)
    requires !src.IsLink()
    ensures Reachable(base, actions, s) && s.r.index < |s.r.slots| == NUM_TRB && s.r.index < LAST
    ensures s.c.deq == LAST && |Queue(s.r, s.c)| == 14
    ensures Push(s.r, src).result.Ok? && Poll(Push(s.r, src).ring.slots, s.c) == Nothing
  {
    actions, s := LapTaken(base);
    actions, s := PushOn(base, actions, s, 0, true, LAST, true, 14);
    QueueLength(s.r, s.c);
    FifteenthPushCanStall(s.r, s.c, src);
  }

  /** A controller waits at the slot a push is about to clear, on a lap where it would take
      the cleared slot for an entry. */
  lemma ZeroedSlotIsReached(base: u64) returns (actions: seq<Action>, s: System)
    ensures Reachable(base, actions, s) && s.r.index < |s.r.slots| == NUM_TRB && s.r.index < LAST
    ensures InStep(s.r, s.c) && Queue(s.r, s.c) == [] && CanPush(s.r, s.c) && s.r.ours
    ensures Poll(s.r.slots, s.c) == Nothing
    ensures Poll(s.r.slots[s.r.index := ZERO], s.c) == Took(s.r.index, ZERO, Consumer(s.r.index + 1, s.c.ccs))
  {
    actions, s := LapTaken(base);
    actions, s := FollowLink(base, actions, s, 0, true);
    QueueLength(s.r, s.c);
    PollDequeues(s.r, s.c);
    ZeroedSlotSeen(s.r, s.c);
  }

  // ---- an event ring ----

  ghost predicate Posted(s: P.EventSystem, n: nat) {
    && P.EventFifo(s) && s.checks && s.popped == [] && s.r.index == 0 && s.p == P.Producer(n, true) && s.r.ours && s.r.erdp.slot == 0
  }

  /** n more posts, and then one pop. */
  lemma {:induction false} PostsThenPop(s: P.EventSystem, m: nat, e: Trb, n: nat) returns (actions: seq<P.EventAction>)
    requires Posted(s, m) && 0 < m + n <= 15
    ensures var s' := P.EventRun(s, actions);
            && P.EventFifo(s') && |s'.popped| == 1 && s'.r.index == 1 && s'.p == P.Producer(m + n, true) && s'.r.ours && s'.r.erdp.slot == 0
    decreases n
  {
    if n == 0 {
      actions := [P.PopOne];
      P.PopStepKeeps(s);
      P.EventsLength(s.r, s.p);
      P.PopMoves(s.r, s.p);
      assert actions[1..] == [];
      assert P.EventRun(s, actions) == P.EventRun(P.EventStep(s, P.PopOne), []);
    } else {
      P.PostStepKeeps(s, e);
      var rest := PostsThenPop(P.EventStep(s, P.Post(e)), m + 1, e, n - 1);
      actions := [P.Post(e)] + rest;
      assert actions[1..] == rest;
    }
  }

  /** 14 events wait after a pop, and the controller is held back although two slots are free. */
  lemma HoldIsReached(base: u64, low: nat, e: Trb) returns (actions: seq<P.EventAction>)
    ensures var s := P.EventRun(P.EventSystem(P.InitialEvents(base, low), P.FIRST, [], [], true), actions);
            && P.EventFifo(s) && |s.popped| == 1 && |P.Events(s.r, s.p)| == 14 && !P.MayPost(s.r, s.p)
  {
    var start := P.EventSystem(P.InitialEvents(base, low), P.FIRST, [], [], true);
    P.InitialEventsWellFormed(base, low);
    actions := PostsThenPop(start, 0, e, 15);
    var s := P.EventRun(start, actions);
    P.EventsLength(s.r, s.p);
  }
}

/** The event ring object: popping events, handing them to waiters, and the futures that wait. */
module EventRings {
  import opened Bits
  import opened Results
  import opened Sequences
  import opened Trbs
  import opened Waiters
  import opened CommandRings
  import P = EventProtocol
  import R = RingProtocol

  /** Shared between a future, which owns it, and the event ring, which only observes it. */
  class EventWaitInfo {
    const cond: Cond
    var trbs: seq<Trb>
    /** Owning references left. */
    var strong: nat

    constructor (cond: Cond)
      ensures this.cond == cond && trbs == [] && strong == 1
    {
      this.cond := cond;
      trbs := [];
      strong := 1;
    }

    ghost function View(): Waiter
      reads this
    {
      Waiter(cond, strong > 0, trbs)
    }

    method Resolve(e: Trb)
      modifies this`trbs
      ensures trbs == old(trbs) + [e]
    {
      trbs := trbs + [e];
    }
  }

  ghost function Views(ws: seq<EventWaitInfo>): seq<Waiter>
    reads ws
    ensures |Views(ws)| == |ws|
    ensures forall i | 0 <= i < |ws| :: Views(ws)[i] == ws[i].View()
  {
    if ws == [] then [] else [ws[0].View()] + Views(ws[1..])
  }

  ghost function LiveFlags(ws: seq<EventWaitInfo>): seq<bool>
    reads ws
    ensures |LiveFlags(ws)| == |ws|
    ensures forall i | 0 <= i < |ws| :: LiveFlags(ws)[i] == (ws[i].strong > 0)
  {
    if ws == [] then [] else [ws[0].strong > 0] + LiveFlags(ws[1..])
  }

  twostate lemma ViewsKept(ws: seq<EventWaitInfo>)
    requires forall w | w in ws :: w.trbs == old(w.trbs) && w.strong == old(w.strong)
    ensures Views(ws) == old(Views(ws))
  {
  }

  twostate lemma FlagsKept(ws: seq<EventWaitInfo>)
    requires forall w | w in ws :: w.strong == old(w.strong)
    ensures LiveFlags(ws) == old(LiveFlags(ws))
  {
  }

  lemma {:induction false} ViewsConcat(a: seq<EventWaitInfo>, b: seq<EventWaitInfo>)
    ensures Views(a + b) == Views(a) + Views(b)
  {
    if a == [] {
      assert a + b == b;
    } else {
      assert (a + b)[1..] == a[1..] + b;
      ViewsConcat(a[1..], b);
    }
  }

  lemma ViewOfOne(w: EventWaitInfo)
    ensures Views([w]) == [w.View()]
  {
    assert [w][1..] == [];
  }

  /** A new waiter at the end of the list. */
  twostate lemma ViewsGrown(list: seq<EventWaitInfo>, new w: EventWaitInfo)
    requires forall x | x in list :: x.trbs == old(x.trbs) && x.strong == old(x.strong)
    ensures Views(list + [w]) == old(Views(list)) + [w.View()]
  {
    ViewsKept(list);
    ViewsConcat(list, [w]);
    ViewOfOne(w);
  }

  lemma ViewsOfCons(ws: seq<EventWaitInfo>)
    requires ws != []
    ensures Views(ws) == [ws[0].View()] + Views(ws[1..])
  {
  }

  /** One waiter changes, at one place in the list. */
  twostate lemma {:induction false} ViewChanged(list: seq<EventWaitInfo>, new k: nat, new w: EventWaitInfo)
    requires k < |list| && list[k] == w && forall j | 0 <= j < |list| && j != k :: list[j] != w
    requires forall x | x in list && x != w :: x.trbs == old(x.trbs) && x.strong == old(x.strong)
    ensures Views(list) == old(Views(list))[k := w.View()]
  {
    var tail := list[1..];
    assert old(Views(list)) == old([list[0].View()] + Views(tail)) by {
      assert old(Views(list)[0] == list[0].View());
    }
    ViewsOfCons(list);
    if k == 0 {
      ViewsKept(tail);
    } else {
      assert list[0].View() == old(list[0].View());
      ViewChanged(tail, k - 1, w);
      UpdateBehind(list[0].View(), old(Views(tail)), k - 1, w.View());
    }
  }

  lemma {:induction false} KeptViews(ws: seq<EventWaitInfo>, live: seq<bool>, views: seq<Waiter>, n: nat)
    requires live == LiveFlags(ws) && views == Views(ws) && n <= |ws|
    ensures Views(Keep(ws, live, n)) == Sweep(views[..n])
  {
    if n == 0 {
    } else {
      KeptViews(ws, live, views, n - 1);
      SweepLast(views, n);
      if live[n - 1] {
        ViewsConcat(Keep(ws, live, n - 1), [ws[n - 1]]);
        ViewOfOne(ws[n - 1]);
      } else {
        assert Keep(ws, live, n) == Keep(ws, live, n - 1);
      }
    }
  }

  /** The objects kept are the live waiters. */
  lemma KeepIsSweep(ws: seq<EventWaitInfo>)
    ensures Views(Keep(ws, LiveFlags(ws), |ws|)) == Sweep(Views(ws))
  {
    KeptViews(ws, LiveFlags(ws), Views(ws), |ws|);
    assert Views(ws)[..|ws|] == Views(ws);
  }

  /** What is kept was there, and what is live is kept. */
  lemma LiveAreKept(ws: seq<EventWaitInfo>)
    requires Distinct(ws)
    ensures forall w | w in Keep(ws, LiveFlags(ws), |ws|) :: w in ws
    ensures forall w | w in ws && w.strong > 0 :: w in Keep(ws, LiveFlags(ws), |ws|)
    ensures forall w | w in Keep(ws, LiveFlags(ws), |ws|) :: w.strong > 0
  {
    forall w | w in Keep(ws, LiveFlags(ws), |ws|) ensures w.strong > 0 {
      OnlyLiveKept(ws, LiveFlags(ws), |ws|, w);
    }
    KeptAreLive(ws, LiveFlags(ws));
    forall w | w in ws && w.strong > 0 ensures w in Keep(ws, LiveFlags(ws), |ws|) {
      var k :| 0 <= k < |ws| && ws[k] == w;
      assert LiveFlags(ws)[k];
    }
  }

  /** The waiters after one round of event handling. */
  ghost function Handled(r: P.EventRing, ws: seq<Waiter>): seq<Waiter>
    requires r.index < |r.slots|
  {
    var popped := P.Pop(r).result;
    if popped.Ok? && popped.value != [] then Sweep(Deliver(ws, popped.value[0])) else ws
  }

  class EventRing {
    const ring: TrbRing
    var cycleStateOurs: bool
    /** The dequeue pointer register, once its address is known. */
    var erdp: Option<P.Erdp>
    var waitList: seq<EventWaitInfo>

    ghost function View(): P.EventRing
      requires erdp.Some?
      reads this`erdp, this`cycleStateOurs, ring, ring.trb
    {
      P.EventRing(ring.base, ring.trb[..], ring.currentIndex, cycleStateOurs, erdp.value)
    }

    ghost predicate Valid()
      reads this, ring, ring.trb
    {
      && erdp.Some? && ring.trb.Length == R.NUM_TRB && ring.currentIndex < R.NUM_TRB
      && Distinct(waitList)
    }

    /** `new`, and the register set to the start of the ring. */
    constructor (base: u64, low: nat)
      ensures Valid() && View() == P.InitialEvents(base, low) && waitList == []
      ensures fresh(ring) && fresh(ring.trb)
    {
      ring := new TrbRing(base);
      cycleStateOurs := true;
      erdp := Some(P.Erdp(0, low));
      waitList := [];
      new;
      ring.trb[R.NUM_TRB - 1] := LinkTo(base);
      assert ring.trb[..] == seq(R.LAST, _ => ZERO) + [LinkTo(base)];
    }

    method HasNextEvent() returns (b: bool)
      requires Valid()
      ensures b <==> View().slots[View().index].cycle == View().ours
    {
      b := ring.trb[ring.currentIndex].cycle == cycleStateOurs;
    }

    /** The oldest event, if there is one. */
    method Pop() returns (r: Result<seq<Trb>>)
      requires Valid()
      modifies this`cycleStateOurs, this`erdp, ring
      ensures Valid() && View() == P.Pop(old(View())).ring && r == P.Pop(old(View())).result
    {
      var any := HasNextEvent();
      if !any {
        return Ok([]);
      }
      var e := ring.trb[ring.currentIndex];
      var slot := ring.currentIndex;
      var advanced := ring.AdvanceIndexNoToggle(cycleStateOurs);
      if advanced.Err? {
        return Err(advanced.Message());
      }
      erdp := Some(erdp.value.(slot := slot));
      if ring.currentIndex == 0 {
        cycleStateOurs := !cycleStateOurs;
      }
      return Ok([e]);
    }

    /** Popping touches no waiter. */
    method PopForWaiters() returns (r: Result<seq<Trb>>)
      requires Valid()
      modifies this`cycleStateOurs, this`erdp, ring
      ensures Valid() && View() == P.Pop(old(View())).ring && r == P.Pop(old(View())).result
      ensures Views(waitList) == old(Views(waitList)) && LiveFlags(waitList) == old(LiveFlags(waitList))
      ensures waitList == old(waitList) && forall w | w in waitList :: w.strong == old(w.strong)
    {
      r := Pop();
      ViewsKept(waitList);
      FlagsKept(waitList);
    }

    method RegisterWaiter(w: EventWaitInfo)
      requires Valid() && w !in waitList
      modifies this`waitList
      ensures Valid() && waitList == old(waitList) + [w]
    {
      waitList := waitList + [w];
    }

    /** Hands `e` to the first live waiter that matches. */
    method HandOut(e: Trb)
      requires Valid()
      modifies waitList`trbs
      ensures unchanged(this, ring, ring.trb)
      ensures Views(waitList) == Deliver(old(Views(waitList)), e)
      ensures LiveFlags(waitList) == old(LiveFlags(waitList))
      ensures forall w | w in waitList :: w.strong == old(w.strong)
    {
      ghost var before := Views(waitList);
      var i := 0;
      while i < |waitList|
        invariant 0 <= i <= |waitList|
        invariant forall w | w in waitList :: w.trbs == old(w.trbs) && w.strong == old(w.strong)
        invariant forall j | 0 <= j < i :: !before[j].Accepts(e)
      {
        var w := waitList[i];
        if w.strong > 0 && w.cond.Matches(e) {
          w.Resolve(e);
          break;
        }
        i := i + 1;
      }
      DeliveredAll(before, e, Views(waitList), i);
      FlagsKept(waitList);
    }

    /** The indices of the waiters whose futures are gone, from the end of the list. */
    method StaleIndices(ghost live: seq<bool>) returns (stale: seq<nat>)
      requires live == LiveFlags(waitList)
      ensures stale == Stale(live, |live|)
    {
      stale := [];
      var n := |waitList|;
      while n > 0
        invariant 0 <= n <= |waitList|
        invariant Stale(live, |live|) == stale + Stale(live, n)
      {
        n := n - 1;
        StaleNext(live, n, stale);
        if waitList[n].strong == 0 {
          stale := stale + [n];
        }
      }
    }

    method RemoveIndices(indices: seq<nat>, ghost rest: seq<EventWaitInfo>)
      requires Removable(waitList, indices) && RemoveAll(waitList, indices) == rest
      modifies this`waitList
      ensures waitList == rest
    {
      var m := 0;
      assert indices[0..] == indices;
      while m < |indices|
        invariant 0 <= m <= |indices| && Removable(waitList, indices[m..])
        invariant RemoveAll(waitList, indices[m..]) == rest
      {
        ghost var left := indices[m..];
        assert left[0] == indices[m] && left[1..] == indices[m + 1..];
        waitList := RemoveAt(waitList, indices[m]);
        m := m + 1;
      }
    }

    /** Drops the waiters whose futures are gone: their indices are collected from the end of
        the list, and removed in that order. */
    method RemoveStale()
      requires Valid()
      modifies this`waitList
      ensures Valid() && waitList == Keep(old(waitList), old(LiveFlags(waitList)), |old(waitList)|)
    {
      ghost var list, live := waitList, LiveFlags(waitList);
      RemovingStaleKeeps(list, live);
      var stale := StaleIndices(live);
      RemoveIndices(stale, Keep(list, live, |list|));
    }

    /** An event goes to the first live waiter that matches it, and waiters that are gone leave
        the list. */
    method Dispatch(e: Trb, ghost ring': P.EventRing, ghost before: seq<Waiter>)
      requires Valid() && View() == ring' && Views(waitList) == before
      modifies this`waitList, waitList`trbs
      ensures Valid() && View() == ring'
      ensures Views(waitList) == Sweep(Deliver(before, e))
      ensures waitList == Keep(old(waitList), old(LiveFlags(waitList)), |old(waitList)|)
      ensures forall w | w in waitList :: w in old(waitList) && w.strong > 0
      ensures forall w | w in old(waitList) :: w.strong == old(w.strong) && (w.strong > 0 ==> w in waitList)
    {
      HandOut(e);
      KeepIsSweep(waitList);
      SweepStale();
    }

    /** Removing the stale waiters leaves the views of the live ones. */
    method SweepStale()
      requires Valid()
      modifies this`waitList
      ensures Valid() && waitList == Keep(old(waitList), old(LiveFlags(waitList)), |old(waitList)|)
      ensures unchanged(this`erdp, this`cycleStateOurs, ring, ring.trb)
      ensures Views(waitList) == old(Views(Keep(waitList, LiveFlags(waitList), |waitList|)))
      ensures forall w | w in waitList :: w in old(waitList) && w.strong > 0
      ensures forall w | w in old(waitList) :: w.strong == old(w.strong) && (w.strong > 0 ==> w in waitList)
    {
      ghost var kept := Keep(waitList, LiveFlags(waitList), |waitList|);
      LiveAreKept(waitList);
      RemoveStale();
      ViewsKept(kept);
    }

    /** One round of event handling. */
    method Poll() returns (r: Result<seq<Trb>>)
      requires Valid()
      modifies this`cycleStateOurs, this`erdp, this`waitList, ring, waitList`trbs
      ensures Valid() && View() == P.Pop(old(View())).ring && r == P.Pop(old(View())).result
      ensures Views(waitList) == Handled(old(View()), old(Views(waitList)))
      ensures forall w | w in waitList :: w in old(waitList)
      ensures r.Ok? && r.value != [] ==> forall w | w in waitList :: w.strong > 0
      ensures forall w | w in old(waitList) :: w.strong == old(w.strong) && (w.strong > 0 ==> w in waitList)
    {
      ghost var before := Views(waitList);
      r := PopForWaiters();
      if r.Ok? && r.value != [] {
        Dispatch(r.value[0], View(), before);
      }
    }
  }

  /** The future of one event. */
  class EventFuture {
    const waitOn: EventWaitInfo

    /** The waiter is made and registered in one step. */
    constructor (events: EventRing, cond: Cond)
      requires events.Valid()
      modifies events`waitList
      ensures events.Valid() && fresh(waitOn) && events.waitList == old(events.waitList) + [waitOn]
      ensures waitOn.View() == Waiter(cond, true, []) && waitOn.strong == 1
    {
      waitOn := new EventWaitInfo(cond);
      new;
      events.RegisterWaiter(waitOn);
    }

    /** Ready with the first event handed to the waiter, or pending. */
    method Poll() returns (r: Option<Trb>)
      modifies waitOn`trbs
      ensures if old(waitOn.trbs) == [] then r == None && waitOn.trbs == []
              else r == Some(old(waitOn.trbs)[0]) && waitOn.trbs == old(waitOn.trbs)[1..]
    {
      if waitOn.trbs == [] {
        return None;
      }
      r := Some(waitOn.trbs[0]);
      waitOn.trbs := waitOn.trbs[1..];
    }

    /** The future goes out of scope. */
    method Drop()
      requires waitOn.strong > 0
      modifies waitOn`strong
      ensures waitOn.strong == old(waitOn.strong) - 1
    {
      waitOn.strong := waitOn.strong - 1;
    }
  }
}

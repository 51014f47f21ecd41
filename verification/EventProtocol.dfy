/** The event ring: the controller posts events, software pops them and tells the controller
    how far it is through ERDP (xHCI specification, section 4.9.4). */
module EventProtocol {
  import opened Bits
  import opened Results
  import opened Trbs
  import opened RingProtocol
  import opened Sequences

  /** The dequeue pointer register: the address of a slot, and four low bits. */
  datatype Erdp = Erdp(slot: nat, low: nat) {
    function Value(base: u64): int {
      base + 16 * slot + low
    }
  }

  /** The software side. */
  datatype EventRing = EventRing(base: u64, slots: seq<Trb>, index: nat, ours: bool, erdp: Erdp)

  /** The controller side: where it posts next, and with which cycle bit. */
  datatype Producer = Producer(enq: nat, pcs: bool)

  // ---- pop ----

  datatype Popped = Popped(ring: EventRing, result: Result<seq<Trb>>)

  /** At most one event. */
  function Pop(r: EventRing): Popped
    requires r.index < |r.slots|
  {
    var e := r.slots[r.index];
    if e.cycle != r.ours then Popped(r, Ok([]))
    else
      var index := NextIndex(r.index, |r.slots|);
      Popped(r.(index := index, erdp := r.erdp.(slot := r.index), ours := if index == 0 then !r.ours else r.ours), Ok([e]))
  }

  /** The register's new value is eptr | (*erdp & 0b1111). */
  lemma ErdpBits(base: u64, slot: nat, old': nat)
    requires base % 16 == 0
    ensures Or(base + 16 * slot, And(old', 15)) == Erdp(slot, old' % 16).Value(base)
  {
    Pow2Values();
    AndLowMask(old', 4);
    DivMod(old', 4);
    assert Pow2(4) == 16;
    UpByMultiplying(base / 16 + slot, 4);
    OrDisjoint(base / 16 + slot, old' % 16, 4);
  }

  // ---- post ----

  /** The controller's test for a full ring: it must not reach the slot ERDP names. */
  predicate MayPost(r: EventRing, p: Producer) {
    (p.enq + 1) % NUM_TRB != r.erdp.slot
  }

  function PostSlots(r: EventRing, p: Producer, e: Trb): EventRing
    requires p.enq < |r.slots|
  {
    r.(slots := r.slots[p.enq := e.(cycle := p.pcs)])
  }

  function PostNext(p: Producer): Producer {
    if p.enq + 1 == NUM_TRB then Producer(0, !p.pcs) else Producer(p.enq + 1, p.pcs)
  }

  // ---- what both sides keep ----

  predicate SameLap(r: EventRing, p: Producer) {
    p.pcs == r.ours
  }

  ghost predicate WellFormed(r: EventRing, p: Producer) {
    && |r.slots| == NUM_TRB && r.index < NUM_TRB && p.enq < NUM_TRB
    && (forall k | 0 <= k < NUM_TRB :: r.slots[k].cycle == (if k < p.enq then p.pcs else !p.pcs))
    && (if SameLap(r, p) then r.index <= p.enq else p.enq <= r.index)
  }

  /** Events posted and not popped. */
  function Events(r: EventRing, p: Producer): seq<Pending>
    requires |r.slots| == NUM_TRB && p.enq < NUM_TRB
  {
    if SameLap(r, p) then Items(r.slots, r.index, p.enq)
    else Items(r.slots, r.index, NUM_TRB) + Items(r.slots, 0, p.enq)
  }

  /** ERDP names the last slot popped, which leaves room for 14 events; before the first pop
      it names the first slot, with room for 15. */
  ghost predicate Flow(r: EventRing, p: Producer)
    requires |r.slots| == NUM_TRB && p.enq < NUM_TRB
  {
    || (r.erdp.slot == (r.index + 15) % 16 && |Events(r, p)| <= 14)
    || (r.erdp.slot == 0 && r.index == 0 && |Events(r, p)| <= 15)
  }

  /** A new ring; the last slot holds a link the event ring has no use for. */
  function InitialEvents(base: u64, low: nat): EventRing {
    EventRing(base, seq(LAST, _ => ZERO) + [LinkTo(base)], 0, true, Erdp(0, low))
  }

  const FIRST: Producer := Producer(0, true)

  lemma InitialEventsWellFormed(base: u64, low: nat)
    ensures WellFormed(InitialEvents(base, low), FIRST) && Flow(InitialEvents(base, low), FIRST)
    ensures Events(InitialEvents(base, low), FIRST) == []
  {
  }

  lemma EventsLength(r: EventRing, p: Producer)
    requires WellFormed(r, p)
    ensures |Events(r, p)| == if SameLap(r, p) then p.enq - r.index else 16 - r.index + p.enq
  {
    ItemsLength(r.slots, r.index, p.enq);
    ItemsLength(r.slots, r.index, NUM_TRB);
    ItemsLength(r.slots, 0, p.enq);
  }

  /** `after` is `r` with the slot at the index popped. */
  ghost predicate Popping(r: EventRing, after: EventRing)
    requires r.index < |r.slots|
  {
    && after.base == r.base && after.slots == r.slots && after.erdp == Erdp(r.index, r.erdp.low)
    && (if r.index + 1 == NUM_TRB then after.index == 0 && after.ours == !r.ours
        else after.index == r.index + 1 && after.ours == r.ours)
  }

  lemma PopInLap(r: EventRing, p: Producer, after: EventRing)
    requires WellFormed(r, p) && SameLap(r, p) && r.index < p.enq && Popping(r, after)
    ensures WellFormed(after, p)
    ensures Events(r, p) == [Pending(r.index, r.slots[r.index])] + Events(after, p)
  {
  }

  lemma PopBehind(r: EventRing, p: Producer, after: EventRing)
    requires WellFormed(r, p) && !SameLap(r, p) && Popping(r, after)
    ensures WellFormed(after, p)
    ensures Events(r, p) == [Pending(r.index, r.slots[r.index])] + Events(after, p)
  {
    var first, low := [Pending(r.index, r.slots[r.index])], Items(r.slots, 0, p.enq);
    var high := Items(r.slots, r.index + 1, NUM_TRB);
    assert Items(r.slots, r.index, NUM_TRB) == first + high;
    AppendAssociates(first, high, low);
    if r.index + 1 == NUM_TRB {
      assert high == [] && high + low == low;
    }
  }

  lemma PoppingDequeues(r: EventRing, p: Producer, after: EventRing)
    requires WellFormed(r, p) && Events(r, p) != [] && Popping(r, after)
    ensures WellFormed(after, p)
    ensures Events(r, p) == [Pending(r.index, r.slots[r.index])] + Events(after, p)
  {
    if SameLap(r, p) {
      EventsLength(r, p);
      PopInLap(r, p, after);
    } else {
      PopBehind(r, p, after);
    }
  }

  lemma PopMoves(r: EventRing, p: Producer)
    requires WellFormed(r, p)
    ensures if Events(r, p) == [] then Pop(r) == Popped(r, Ok([]))
            else Popping(r, Pop(r).ring) && Pop(r).result == Ok([r.slots[r.index]])
  {
    EventsLength(r, p);
  }

  /** `pop` never fails: it returns the oldest event, or nothing exactly when none waits, and
      leaves ERDP naming the slot it read. */
  lemma PopDequeues(r: EventRing, p: Producer)
    requires WellFormed(r, p) && Flow(r, p)
    ensures var after := Pop(r).ring;
            && WellFormed(after, p) && Flow(after, p) && after.base == r.base
            && (if Events(r, p) == [] then Pop(r) == Popped(r, Ok([]))
                else && Pop(r).result == Ok([Events(r, p)[0].trb])
                     && Events(r, p) == [Pending(r.index, Events(r, p)[0].trb)] + Events(after, p)
                     && after.erdp == Erdp(r.index, r.erdp.low))
  {
    PopMoves(r, p);
    if Events(r, p) != [] {
      PoppingDequeues(r, p, Pop(r).ring);
      PreviousSlot(r.index, Pop(r).ring.index);
    }
  }

  lemma PreviousSlot(i: nat, next: nat)
    requires i < 16 && next == if i + 1 == 16 then 0 else i + 1
    ensures i == (next + 15) % 16
  {
  }

  /** `after` is `r` with `t` posted. */
  ghost predicate Posting(r: EventRing, p: Producer, t: Trb, after: EventRing)
    requires p.enq < |r.slots|
  {
    after == r.(slots := r.slots[p.enq := t])
  }

  lemma PostingKeeps(r: EventRing, p: Producer, t: Trb, after: EventRing)
    requires WellFormed(r, p) && (SameLap(r, p) || p.enq < r.index)
    requires t.cycle == p.pcs && Posting(r, p, t, after)
    ensures WellFormed(after, PostNext(p))
  {
  }

  lemma PostInLap(r: EventRing, p: Producer, t: Trb, after: EventRing)
    requires WellFormed(r, p) && SameLap(r, p) && Posting(r, p, t, after) && WellFormed(after, PostNext(p))
    ensures Events(after, PostNext(p)) == Events(r, p) + [Pending(p.enq, t)]
  {
    ItemsFrame(r.slots, after.slots, r.index, p.enq);
    ItemsLast(after.slots, r.index, p.enq);
    if p.enq == LAST {
      assert Events(after, PostNext(p)) == Items(after.slots, r.index, NUM_TRB) + [];
    }
  }

  lemma PostBehind(r: EventRing, p: Producer, t: Trb, after: EventRing)
    requires WellFormed(r, p) && !SameLap(r, p) && p.enq < r.index
    requires Posting(r, p, t, after) && WellFormed(after, PostNext(p))
    ensures Events(after, PostNext(p)) == Events(r, p) + [Pending(p.enq, t)]
  {
    ItemsFrame(r.slots, after.slots, r.index, NUM_TRB);
    ItemsFrame(r.slots, after.slots, 0, p.enq);
    ItemsLast(after.slots, 0, p.enq);
  }

  lemma PostingEnqueues(r: EventRing, p: Producer, t: Trb, after: EventRing)
    requires WellFormed(r, p) && (SameLap(r, p) || p.enq < r.index)
    requires t.cycle == p.pcs && Posting(r, p, t, after)
    ensures WellFormed(after, PostNext(p))
    ensures Events(after, PostNext(p)) == Events(r, p) + [Pending(p.enq, t)]
  {
    PostingKeeps(r, p, t, after);
    if SameLap(r, p) {
      PostInLap(r, p, t, after);
    } else {
      PostBehind(r, p, t, after);
    }
  }

  lemma RoomToPost(r: EventRing, p: Producer)
    requires WellFormed(r, p) && Flow(r, p) && MayPost(r, p)
    ensures SameLap(r, p) || p.enq < r.index
    ensures |Events(r, p)| < if r.erdp.slot == (r.index + 15) % 16 then 14 else 15
  {
    EventsLength(r, p);
  }

  /** A controller that respects ERDP overwrites no event software has not popped: what it
      posts goes to the end of the queue. */
  lemma PostEnqueues(r: EventRing, p: Producer, e: Trb)
    requires WellFormed(r, p) && Flow(r, p) && MayPost(r, p)
    ensures var after := PostSlots(r, p, e);
            && WellFormed(after, PostNext(p)) && Flow(after, PostNext(p))
            && Events(after, PostNext(p)) == Events(r, p) + [Pending(p.enq, e.(cycle := p.pcs))]
  {
    RoomToPost(r, p);
    PostingEnqueues(r, p, e.(cycle := p.pcs), PostSlots(r, p, e));
  }

  /** Once an event was popped, the controller is held back exactly when 14 events wait: a
      register that named the next slot instead would allow 15. */
  lemma HeldBackAtFourteen(r: EventRing, p: Producer)
    requires WellFormed(r, p) && Flow(r, p) && r.erdp.slot == (r.index + 15) % 16
    ensures MayPost(r, p) <==> |Events(r, p)| < 14
  {
    EventsLength(r, p);
  }

  /** Whatever tells the controller when to post: a post goes to the end of the queue exactly
      when fewer than 16 events wait. */
  lemma PostEnqueuesExactlyBelow16(r: EventRing, p: Producer, e: Trb)
    requires WellFormed(r, p)
    ensures |Events(r, p)| <= 16
    ensures |Events(r, p)| < 16 <==>
            && WellFormed(PostSlots(r, p, e), PostNext(p))
            && Events(PostSlots(r, p, e), PostNext(p)) == Events(r, p) + [Pending(p.enq, e.(cycle := p.pcs))]
  {
    EventsLength(r, p);
    if SameLap(r, p) || p.enq < r.index {
      PostingEnqueues(r, p, e.(cycle := p.pcs), PostSlots(r, p, e));
    } else {
      assert !WellFormed(PostSlots(r, p, e), PostNext(p));
    }
  }

  // ---- whole runs ----

  datatype EventAction = Post(e: Trb) | PopOne

  /** `checks` says whether the controller looks at ERDP before it posts, or is only known never
      to get more than 16 events ahead. */
  datatype EventSystem = EventSystem(r: EventRing, p: Producer, posted: seq<Trb>, popped: seq<Trb>, checks: bool)

  ghost predicate EventFifo(s: EventSystem) {
    && WellFormed(s.r, s.p) && (s.checks ==> Flow(s.r, s.p))
    && s.popped + TrbsOf(Events(s.r, s.p)) == s.posted
  }

  predicate Posts(s: EventSystem)
    requires s.p.enq < |s.r.slots| == NUM_TRB
  {
    if s.checks then MayPost(s.r, s.p) else |Events(s.r, s.p)| < 16
  }

  function EventStep(s: EventSystem, a: EventAction): EventSystem
    requires s.r.index < |s.r.slots| == NUM_TRB && s.p.enq < NUM_TRB
  {
    match a
    case Post(e) =>
      if Posts(s)
      then s.(r := PostSlots(s.r, s.p, e), p := PostNext(s.p), posted := s.posted + [e.(cycle := s.p.pcs)])
      else s
    case PopOne =>
      var popped := Pop(s.r);
      s.(r := popped.ring, popped := s.popped + (if popped.result.Ok? then popped.result.value else []))
  }

  lemma PostStepKeeps(s: EventSystem, e: Trb)
    requires EventFifo(s)
    ensures EventFifo(EventStep(s, Post(e)))
  {
    if Posts(s) {
      if s.checks {
        PostEnqueues(s.r, s.p, e);
      }
      PostEnqueuesExactlyBelow16(s.r, s.p, e);
      OneMore(s.popped, Events(s.r, s.p), Pending(s.p.enq, e.(cycle := s.p.pcs)), s.posted);
    }
  }

  lemma PopStepKeeps(s: EventSystem)
    requires EventFifo(s)
    ensures EventFifo(EventStep(s, PopOne))
  {
    var q := Events(s.r, s.p);
    PopMoves(s.r, s.p);
    if s.checks {
      PopDequeues(s.r, s.p);
    }
    if q != [] {
      PoppingDequeues(s.r, s.p, Pop(s.r).ring);
      OneTaken(s.popped, q, q[0], Events(Pop(s.r).ring, s.p), s.posted);
    }
  }

  lemma EventStepKeeps(s: EventSystem, a: EventAction)
    requires EventFifo(s)
    ensures EventFifo(EventStep(s, a))
  {
    match a
    case Post(e) => PostStepKeeps(s, e);
    case PopOne => PopStepKeeps(s);
  }

  function EventRun(s: EventSystem, actions: seq<EventAction>): EventSystem
    requires s.r.index < |s.r.slots| == NUM_TRB && s.p.enq < NUM_TRB
    decreases |actions|
  {
    if actions == [] then s else EventRun(EventStep(s, actions[0]), actions[1..])
  }

  lemma {:induction false} EventRunKeeps(s: EventSystem, actions: seq<EventAction>)
    requires EventFifo(s)
    ensures EventFifo(EventRun(s, actions))
    decreases |actions|
  {
    if actions == [] {
    } else {
      EventStepKeeps(s, actions[0]);
      EventRunKeeps(EventStep(s, actions[0]), actions[1..]);
    }
  }

  /** Over every run the events popped are the events posted, in order, each once, for a
      controller that respects ERDP and for any that never gets more than 16 ahead. */
  lemma EventRingIsFifo(base: u64, low: nat, checks: bool, actions: seq<EventAction>)
    ensures EventFifo(EventRun(EventSystem(InitialEvents(base, low), FIRST, [], [], checks), actions))
  {
    InitialEventsWellFormed(base, low);
    EventRunKeeps(EventSystem(InitialEvents(base, low), FIRST, [], [], checks), actions);
  }
}

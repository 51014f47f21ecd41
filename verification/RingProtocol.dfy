/** Transfer and command rings: software pushes entries, the controller follows cycle bits
    (xHCI specification, sections 4.9.2, 4.9.3 and 6.4.4.1). One push is one step. */
module RingProtocol {
  import opened Bits
  import opened Results
  import opened Trbs

  const NUM_TRB: nat := 16
  const LAST: nat := 15

  /** The software side: the slots, the next one to fill, and the cycle bit of slots that are ours. */
  datatype Ring = Ring(base: u64, slots: seq<Trb>, index: nat, ours: bool)

  /** The controller side: the next slot to look at, and the cycle bit it waits for. */
  datatype Consumer = Consumer(deq: nat, ccs: bool)

  function SlotAddr(base: u64, slot: nat): int {
    base + 16 * slot
  }

  /** (i + 1) % n, for an index below n. */
  function NextIndex(i: nat, n: nat): (next: nat)
    requires i < n
    ensures next < n && next == (i + 1) % n
  {
    if i + 1 == n then 0 else i + 1
  }

  // ---- the code of push ----

  function AdvanceIndex(r: Ring, newCycle: bool): Result<Ring>
    requires r.index < |r.slots|
  {
    if r.slots[r.index].cycle == newCycle then Err("cycle state mismatch")
    else Ok(r.(slots := r.slots[r.index := r.slots[r.index].(cycle := newCycle)], index := NextIndex(r.index, |r.slots|)))
  }

  datatype Pushed = Pushed(ring: Ring, result: Result<int>)

  function Push(r: Ring, src: Trb): Pushed
    requires r.index < |r.slots|
  {
    if r.slots[r.index].cycle != r.ours then Pushed(r, Err("Command Ring is Full"))
    else
      var written := r.(slots := r.slots[r.index := src.(cycle := r.ours)]);
      match AdvanceIndex(written, !r.ours)
      case Err(e) => Pushed(written, Err(e))
      case Ok(next) =>
        if !next.slots[next.index].IsLink() then Pushed(next, Ok(SlotAddr(r.base, r.index)))
        else
          match AdvanceIndex(next, !r.ours)
          case Err(e) => Pushed(next, Err(e))
          case Ok(wrapped) => Pushed(wrapped.(ours := !r.ours), Ok(SlotAddr(r.base, r.index)))
  }

  /** What a push does to any ring, well-formed or not: it is refused, or its entry goes into the
      slot at the index with the other cycle bit; a link behind it is turned, or refuses. */
  lemma PushOutcomes(r: Ring, src: Trb)
    requires r.index < |r.slots|
    ensures var p, i, j := Push(r, src), r.index, (r.index + 1) % |r.slots|;
            var slots := r.slots[i := src.(cycle := !r.ours)];
            if r.slots[i].cycle != r.ours then p == Pushed(r, Err("Command Ring is Full"))
            else if !slots[j].IsLink() then p == Pushed(Ring(r.base, slots, j, r.ours), Ok(r.base + 16 * i))
            else if slots[j].cycle != r.ours then p == Pushed(Ring(r.base, slots, j, r.ours), Err("cycle state mismatch"))
            else p == Pushed(Ring(r.base, slots[j := slots[j].(cycle := !r.ours)], (j + 1) % |r.slots|, !r.ours), Ok(r.base + 16 * i))
  {
    var written := r.(slots := r.slots[r.index := src.(cycle := r.ours)]);
    assert written.slots[r.index := src.(cycle := !r.ours)] == r.slots[r.index := src.(cycle := !r.ours)];
  }

  // ---- what every push keeps ----

  /** Slots before the index carry the other cycle bit, the rest ours; only the last slot links. */
  ghost predicate WellFormed(r: Ring) {
    && |r.slots| == NUM_TRB && r.index < LAST
    && r.slots[LAST].IsLink() && r.slots[LAST].ToggleCycle() && r.slots[LAST].data == r.base
    && (forall k | 0 <= k < LAST :: !r.slots[k].IsLink())
    && (forall k | 0 <= k < NUM_TRB :: r.slots[k].cycle == (if k < r.index then !r.ours else r.ours))
  }

  /** The ring `CommandRing::default` builds. */
  function InitialRing(base: u64): Ring {
    Ring(base, seq(LAST, _ => ZERO) + [LinkTo(base)], 0, false)
  }

  /** 15 zeroed entries, and a link back to the first; our slots carry 0 on the first lap. */
  lemma NewRing(base: u64)
    ensures var r := InitialRing(base);
            && |r.slots| == 16 && r.base == base && r.index == 0 && !r.ours
            && (forall k | 0 <= k < 15 :: r.slots[k].data == 0 && r.slots[k].option == 0 && r.slots[k].Control() == 0)
            && r.slots[15].data == base && r.slots[15].option == 0 && r.slots[15].Control() == 0x1802
  {
    LinkEntry(base);
  }

  lemma InitialWellFormed(base: u64)
    ensures WellFormed(InitialRing(base))
  {
  }

  /** `after` is `r` with `t` in the slot at the index; at the end of the lap the link is
      flipped too, and filling starts over with the other cycle bit. */
  ghost predicate Fills(r: Ring, t: Trb, after: Ring)
    requires |r.slots| == NUM_TRB && r.index < LAST
  {
    && after.base == r.base
    && (if r.index + 1 < LAST
        then after.slots == r.slots[r.index := t] && after.index == r.index + 1 && after.ours == r.ours
        else && after.slots == r.slots[r.index := t][LAST := r.slots[LAST].(cycle := !r.ours)]
             && after.index == 0 && after.ours == !r.ours)
  }

  /** On a well-formed ring no error return can be taken: the push fills the slot at the index
      and returns its address. */
  lemma PushFills(r: Ring, src: Trb)
    requires WellFormed(r) && !src.IsLink()
    ensures Push(r, src).result == Ok(SlotAddr(r.base, r.index))
    ensures WellFormed(Push(r, src).ring) && Fills(r, src.(cycle := !r.ours), Push(r, src).ring)
  {
    var written := r.(slots := r.slots[r.index := src.(cycle := r.ours)]);
    var next := AdvanceIndex(written, !r.ours).value;
    assert next.slots == r.slots[r.index := src.(cycle := !r.ours)];
  }

  // ---- the controller ----

  datatype Seen = Nothing | Followed(c: Consumer) | Took(slot: nat, trb: Trb, c: Consumer)

  /** One look at the ring. */
  function Poll(slots: seq<Trb>, c: Consumer): Seen
    requires c.deq < |slots|
  {
    var t := slots[c.deq];
    if t.cycle != c.ccs then Nothing
    else if t.IsLink() then Followed(Consumer(0, if t.ToggleCycle() then !c.ccs else c.ccs))
    else Took(c.deq, t, Consumer(c.deq + 1, c.ccs))
  }

  /** The controller starts at the first slot and waits for cycle bit 1. */
  const START: Consumer := Consumer(0, true)

  // ---- the queue between them ----

  /** An entry the controller has not taken, and its slot. */
  datatype Pending = Pending(slot: nat, trb: Trb)

  function Items(slots: seq<Trb>, lo: nat, hi: nat): seq<Pending>
    requires hi <= |slots|
    decreases hi - lo
  {
    if lo >= hi then [] else [Pending(lo, slots[lo])] + Items(slots, lo + 1, hi)
  }

  /** Both are in the same lap of the ring. */
  predicate SameLap(r: Ring, c: Consumer) {
    c.ccs != r.ours
  }

  ghost predicate InStep(r: Ring, c: Consumer) {
    c.deq <= LAST && (if SameLap(r, c) then c.deq <= r.index else r.index <= c.deq)
  }

  function Queue(r: Ring, c: Consumer): seq<Pending>
    requires |r.slots| == NUM_TRB && r.index < LAST
  {
    if SameLap(r, c) then Items(r.slots, c.deq, r.index)
    else Items(r.slots, c.deq, LAST) + Items(r.slots, 0, r.index)
  }

  lemma {:induction false} ItemsLength(slots: seq<Trb>, lo: nat, hi: nat)
    requires hi <= |slots|
    ensures |Items(slots, lo, hi)| == if lo < hi then hi - lo else 0
    decreases hi - lo
  {
    if lo >= hi {
    } else {
      ItemsLength(slots, lo + 1, hi);
    }
  }

  lemma {:induction false} ItemsFrame(slots: seq<Trb>, slots': seq<Trb>, lo: nat, hi: nat)
    requires hi <= |slots| == |slots'|
    requires forall k | lo <= k < hi :: slots[k] == slots'[k]
    ensures Items(slots, lo, hi) == Items(slots', lo, hi)
    decreases hi - lo
  {
    if lo >= hi {
    } else {
      ItemsFrame(slots, slots', lo + 1, hi);
    }
  }

  lemma {:induction false} ItemsLast(slots: seq<Trb>, lo: nat, hi: nat)
    requires lo <= hi < |slots|
    ensures Items(slots, lo, hi + 1) == Items(slots, lo, hi) + [Pending(hi, slots[hi])]
    decreases hi - lo
  {
    if lo < hi {
      ItemsLast(slots, lo + 1, hi);
    } else {
      assert Items(slots, hi + 1, hi + 1) == [];
    }
  }

  /** Every slot the push writes, the link included, has been passed by the controller. */
  predicate CanPush(r: Ring, c: Consumer) {
    SameLap(r, c) || (r.index < c.deq && r.index != LAST - 1)
  }

  lemma QueueLength(r: Ring, c: Consumer)
    requires WellFormed(r) && InStep(r, c)
    ensures |Queue(r, c)| == if SameLap(r, c) then r.index - c.deq else LAST - c.deq + r.index
  {
    ItemsLength(r.slots, c.deq, r.index);
    ItemsLength(r.slots, c.deq, LAST);
    ItemsLength(r.slots, 0, r.index);
  }

  /** In entries: a push is safe below 15 pending ones, but not at 14 while the controller
      stands before the link. */
  lemma CanPushByLag(r: Ring, c: Consumer)
    requires WellFormed(r) && InStep(r, c)
    ensures |Queue(r, c)| <= 15
    ensures CanPush(r, c) <==> |Queue(r, c)| < 15 && !(|Queue(r, c)| == 14 && c.deq == LAST)
  {
    QueueLength(r, c);
  }

  lemma FillingEnqueues(r: Ring, c: Consumer, t: Trb, after: Ring)
    requires |r.slots| == NUM_TRB && r.index < LAST && |after.slots| == NUM_TRB && after.index < LAST
    requires InStep(r, c) && CanPush(r, c) && Fills(r, t, after)
    ensures InStep(after, c) && Queue(after, c) == Queue(r, c) + [Pending(r.index, t)]
  {
    if SameLap(r, c) {
      ItemsFrame(r.slots, after.slots, c.deq, r.index);
      ItemsLast(after.slots, c.deq, r.index);
      assert r.index == LAST - 1 ==> Items(after.slots, 0, 0) == [];
    } else {
      ItemsFrame(r.slots, after.slots, c.deq, LAST);
      ItemsFrame(r.slots, after.slots, 0, r.index);
      ItemsLast(after.slots, 0, r.index);
    }
  }

  /** A safe push appends its entry to the queue. */
  lemma PushEnqueues(r: Ring, c: Consumer, src: Trb)
    requires WellFormed(r) && InStep(r, c) && CanPush(r, c) && !src.IsLink()
    ensures WellFormed(Push(r, src).ring) && InStep(Push(r, src).ring, c)
    ensures Queue(Push(r, src).ring, c) == Queue(r, c) + [Pending(r.index, src.(cycle := !r.ours))]
  {
    PushFills(r, src);
    FillingEnqueues(r, c, src.(cycle := !r.ours), Push(r, src).ring);
  }

  /** An unsafe one does not: it overwrites what the controller has not passed. */
  lemma PushEnqueuesExactlyWhenSafe(r: Ring, c: Consumer, src: Trb)
    requires WellFormed(r) && InStep(r, c) && !src.IsLink()
    ensures CanPush(r, c) <==>
            && InStep(Push(r, src).ring, c)
            && Queue(Push(r, src).ring, c) == Queue(r, c) + [Pending(r.index, src.(cycle := !r.ours))]
  {
    PushFills(r, src);
    if CanPush(r, c) {
      PushEnqueues(r, c, src);
    }
  }

  /** The controller takes the entries in the order they were pushed, follows the link
      between laps, and sees nothing only when all are taken. */
  lemma PollDequeues(r: Ring, c: Consumer)
    requires WellFormed(r) && InStep(r, c)
    ensures match Poll(r.slots, c)
            case Nothing => Queue(r, c) == []
            case Followed(c') => InStep(r, c') && c'.deq == 0 && Queue(r, c') == Queue(r, c)
            case Took(slot, trb, c') => InStep(r, c') && Queue(r, c) == [Pending(slot, trb)] + Queue(r, c')
  {
    if c.deq == LAST {
      assert Items(r.slots, LAST, LAST) == [];
    }
  }

  /** While entries wait, two looks are enough to take the next one. */
  lemma NextIsTaken(r: Ring, c: Consumer)
    requires WellFormed(r) && InStep(r, c) && Queue(r, c) != []
    ensures match Poll(r.slots, c)
            case Nothing => false
            case Followed(c') =>
              c'.deq < |r.slots| && Poll(r.slots, c').Took? && Poll(r.slots, c').trb == Queue(r, c)[0].trb
            case Took(_, trb, _) => trb == Queue(r, c)[0].trb
  {
    PollDequeues(r, c);
    if Poll(r.slots, c).Followed? {
      PollDequeues(r, Poll(r.slots, c).c);
    }
  }

  /** `push` zeroes the slot before it writes the entry. A controller that waits at that slot
      would take the zeroed entry between the two stores if and only if `ours` is true, as it
      is on every second lap: only as a whole is a push safe on each of them. */
  lemma ZeroedSlotSeen(r: Ring, c: Consumer)
    requires WellFormed(r) && InStep(r, c) && Poll(r.slots, c) == Nothing
    ensures Poll(r.slots[r.index := ZERO], c) == Took(r.index, ZERO, Consumer(r.index + 1, c.ccs)) <==> r.ours
    ensures Poll(r.slots[r.index := ZERO], c) == Nothing <==> !r.ours
  {
    PollDequeues(r, c);
    QueueLength(r, c);
  }

  /** A full ring with the controller before the link: one more push flips the link a second
      time, and the controller finds nothing while entries wait. */
  lemma FifteenthPushCanStall(r: Ring, c: Consumer, src: Trb)
    requires WellFormed(r) && InStep(r, c) && !src.IsLink() && c.deq == LAST && |Queue(r, c)| == 14
    ensures Push(r, src).result.Ok? && Poll(Push(r, src).ring.slots, c) == Nothing
  {
    QueueLength(r, c);
    PushFills(r, src);
  }

  // ---- whole runs ----

  datatype Action = Software(src: Trb) | Controller

  /** Both sides, and all that was pushed and taken so far. */
  datatype System = System(r: Ring, c: Consumer, pushed: seq<Trb>, taken: seq<Trb>)

  function Begin(base: u64): System {
    System(InitialRing(base), START, [], [])
  }

  ghost predicate Enabled(s: System, a: Action) {
    && s.r.index < |s.r.slots| && s.c.deq < |s.r.slots|
    && (a.Software? ==> !a.src.IsLink() && CanPush(s.r, s.c))
  }

  function Step(s: System, a: Action): System
    requires s.r.index < |s.r.slots| && s.c.deq < |s.r.slots|
  {
    match a
    case Software(src) => s.(r := Push(s.r, src).ring, pushed := s.pushed + [src.(cycle := !s.r.ours)])
    case Controller =>
      match Poll(s.r.slots, s.c)
      case Nothing => s
      case Followed(c') => s.(c := c')
      case Took(_, trb, c') => s.(c := c', taken := s.taken + [trb])
  }

  function TrbsOf(q: seq<Pending>): seq<Trb> {
    if q == [] then [] else [q[0].trb] + TrbsOf(q[1..])
  }

  lemma {:induction false} TrbsOfConcat(p: seq<Pending>, q: seq<Pending>)
    ensures TrbsOf(p + q) == TrbsOf(p) + TrbsOf(q)
  {
    if p == [] {
      assert p + q == q;
    } else {
      assert (p + q)[1..] == p[1..] + q;
      TrbsOfConcat(p[1..], q);
    }
  }

  /** What was taken and what is pending is what was pushed: each entry once, in order. */
  ghost predicate Fifo(s: System) {
    WellFormed(s.r) && InStep(s.r, s.c) && s.taken + TrbsOf(Queue(s.r, s.c)) == s.pushed
  }

  lemma OneMore(taken: seq<Trb>, q: seq<Pending>, p: Pending, pushed: seq<Trb>)
    requires taken + TrbsOf(q) == pushed
    ensures taken + TrbsOf(q + [p]) == pushed + [p.trb]
  {
    TrbsOfConcat(q, [p]);
    assert [p][1..] == [];
    assert TrbsOf([p]) == [p.trb];
  }

  lemma OneTaken(taken: seq<Trb>, q: seq<Pending>, p: Pending, rest: seq<Pending>, pushed: seq<Trb>)
    requires taken + TrbsOf(q) == pushed && q == [p] + rest
    ensures (taken + [p.trb]) + TrbsOf(rest) == pushed
  {
    assert q[1..] == rest;
  }

  lemma StepKeepsFifo(s: System, a: Action)
    requires Fifo(s) && Enabled(s, a)
    ensures Fifo(Step(s, a))
  {
    var q := Queue(s.r, s.c);
    match a
    case Software(src) =>
      PushEnqueues(s.r, s.c, src);
      OneMore(s.taken, q, Pending(s.r.index, src.(cycle := !s.r.ours)), s.pushed);
    case Controller =>
      PollDequeues(s.r, s.c);
      match Poll(s.r.slots, s.c) {
        case Nothing =>
        case Followed(c') =>
        case Took(slot, trb, c') =>
          OneTaken(s.taken, q, Pending(slot, trb), Queue(s.r, c'), s.pushed);
      }
  }

  ghost predicate Reachable(base: u64, actions: seq<Action>, s: System)
    decreases |actions|
  {
    if actions == [] then s == Begin(base)
    else
      var n := |actions| - 1;
      exists before ::
        Reachable(base, actions[..n], before) && Enabled(before, actions[n]) && s == Step(before, actions[n])
  }

  /** Over every run, across any number of laps, the ring is a FIFO queue. */
  lemma {:induction false} RingIsFifo(base: u64, actions: seq<Action>, s: System)
    requires Reachable(base, actions, s)
    ensures Fifo(s)
    decreases |actions|
  {
    if actions == [] {
      InitialWellFormed(base);
      assert Items(InitialRing(base).slots, 0, 0) == [];
    } else {
      var n := |actions| - 1;
      var before :| Reachable(base, actions[..n], before) && Enabled(before, actions[n]) && s == Step(before, actions[n]);
      RingIsFifo(base, actions[..n], before);
      StepKeepsFifo(before, actions[n]);
    }
  }
}

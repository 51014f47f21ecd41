/** The single stores of `push`, with looks of the controller between them. On laps where the
    cycle bit of our slots is 0 the ring stays a FIFO queue down to every store; on the other
    laps `RingProtocol.ZeroedSlotSeen` says why only whole pushes do. */
module RingStores {
  import opened Bits
  import opened Trbs
  import opened RingProtocol

  /** How far a push is: its slot cleared, its entry written, or, at the end of a lap, its
      cycle bit set and the link still to be turned. */
  datatype Stage = Resting | Cleared(src: Trb) | Written(src: Trb) | LinkPending

  datatype Fine = Fine(r: Ring, c: Consumer, stage: Stage, pushed: seq<Trb>, taken: seq<Trb>)

  datatype FineAction = Clear(src: Trb) | WriteEntry | SetCycle | TurnLink | WholePush(src: Trb) | Look

  // ---- the stores ----

  ghost predicate Possible(s: Fine, a: FineAction) {
    && s.r.index < |s.r.slots| && s.c.deq < |s.r.slots|
    && match a
       case Clear(src) => s.stage == Resting && !s.r.ours && !src.IsLink() && CanPush(s.r, s.c)
       case WriteEntry => s.stage.Cleared?
       case SetCycle => s.stage.Written?
       case TurnLink => s.stage == LinkPending && |s.r.slots| == NUM_TRB
       case WholePush(src) => s.stage == Resting && s.r.ours && !src.IsLink() && CanPush(s.r, s.c)
       case Look => true
  }

  function FineStep(s: Fine, a: FineAction): Fine
    requires Possible(s, a)
  {
    var r := s.r;
    match a
    case Clear(src) => s.(r := r.(slots := r.slots[r.index := ZERO]), stage := Cleared(src))
    case WriteEntry => s.(r := r.(slots := r.slots[r.index := s.stage.src.(cycle := r.ours)]), stage := Written(s.stage.src))
    case SetCycle =>
      var flipped := r.slots[r.index].(cycle := !r.ours);
      var slots := r.slots[r.index := flipped];
      var pushed := s.pushed + [flipped];
      if r.index + 1 < LAST then s.(r := r.(slots := slots, index := r.index + 1), stage := Resting, pushed := pushed)
      else s.(r := r.(slots := slots), stage := LinkPending, pushed := pushed)
    case TurnLink =>
      s.(r := r.(slots := r.slots[LAST := r.slots[LAST].(cycle := !r.ours)], index := 0, ours := !r.ours), stage := Resting)
    case WholePush(src) => s.(r := Push(r, src).ring, pushed := s.pushed + [src.(cycle := !r.ours)])
    case Look =>
      match Poll(r.slots, s.c)
      case Nothing => s
      case Followed(c') => s.(c := c')
      case Took(_, trb, c') => s.(c := c', taken := s.taken + [trb])
  }

  // ---- what every store and every look keeps ----

  /** Between the last two stores of a lap every slot but the link carries the other cycle bit. */
  ghost predicate Turning(r: Ring, c: Consumer) {
    && |r.slots| == NUM_TRB && r.index == LAST - 1 && !r.ours && SameLap(r, c) && c.deq <= LAST
    && r.slots[LAST].IsLink() && r.slots[LAST].ToggleCycle() && r.slots[LAST].data == r.base
    && (forall k | 0 <= k < LAST :: !r.slots[k].IsLink())
    && (forall k | 0 <= k < NUM_TRB :: r.slots[k].cycle == (if k < LAST then !r.ours else r.ours))
  }

  /** The entries pushed and not taken. */
  function Waiting(s: Fine): seq<Pending>
    requires |s.r.slots| == NUM_TRB && s.r.index < LAST
  {
    if s.stage == LinkPending then Items(s.r.slots, s.c.deq, LAST) else Queue(s.r, s.c)
  }

  ghost predicate FineInv(s: Fine) {
    && (if s.stage == LinkPending then Turning(s.r, s.c)
        else WellFormed(s.r) && InStep(s.r, s.c))
    && (s.stage.Cleared? || s.stage.Written? ==> !s.r.ours && !s.stage.src.IsLink() && CanPush(s.r, s.c))
    && (s.stage.Written? ==> s.r.slots[s.r.index] == s.stage.src.(cycle := s.r.ours))
    && s.taken + TrbsOf(Waiting(s)) == s.pushed
  }

  /** A slot the controller has passed is no part of the queue. */
  lemma QueueWithoutIndex(r: Ring, c: Consumer, t: Trb)
    requires |r.slots| == NUM_TRB && r.index < LAST && InStep(r, c) && CanPush(r, c)
    ensures Queue(r.(slots := r.slots[r.index := t]), c) == Queue(r, c)
  {
    var slots := r.slots[r.index := t];
    if SameLap(r, c) {
      ItemsFrame(r.slots, slots, c.deq, r.index);
    } else {
      ItemsFrame(r.slots, slots, c.deq, LAST);
      ItemsFrame(r.slots, slots, 0, r.index);
    }
  }

  /** The clearing store and the store of the entry change nothing the controller can tell. */
  lemma EntryStoreKeeps(s: Fine, t: Trb, stage: Stage)
    requires FineInv(s) && s.stage != LinkPending && !s.r.ours && CanPush(s.r, s.c) && !t.IsLink() && !t.cycle
    requires (stage.Cleared? && !stage.src.IsLink()) || (stage.Written? && t == stage.src.(cycle := false))
    ensures var s' := s.(r := s.r.(slots := s.r.slots[s.r.index := t]), stage := stage);
            FineInv(s') && Waiting(s') == Waiting(s)
  {
    QueueWithoutIndex(s.r, s.c, t);
  }

  lemma SetCycleInLap(r: Ring, c: Consumer, t: Trb, slots: seq<Trb>, after: Ring)
    requires WellFormed(r) && InStep(r, c) && CanPush(r, c) && r.index + 1 < LAST && !t.IsLink() && t.cycle == !r.ours
    requires slots == r.slots[r.index := t] && after == r.(slots := slots, index := r.index + 1)
    ensures WellFormed(after) && InStep(after, c) && Queue(after, c) == Queue(r, c) + [Pending(r.index, t)]
  {
    FillingEnqueues(r, c, t, after);
  }

  lemma SetCycleAtEnd(r: Ring, c: Consumer, t: Trb, slots: seq<Trb>)
    requires WellFormed(r) && InStep(r, c) && CanPush(r, c) && r.index + 1 == LAST && !r.ours
    requires !t.IsLink() && t.cycle && slots == r.slots[r.index := t]
    ensures Turning(r.(slots := slots), c)
    ensures Items(slots, c.deq, LAST) == Queue(r, c) + [Pending(r.index, t)]
  {
    ItemsFrame(r.slots, slots, c.deq, r.index);
    ItemsLast(slots, c.deq, r.index);
  }

  /** The entry is queued by the store of its cycle bit. */
  lemma SetCycleEnqueues(s: Fine)
    requires FineInv(s) && s.stage.Written?
    ensures var s' := FineStep(s, SetCycle);
            FineInv(s') && Waiting(s') == Waiting(s) + [Pending(s.r.index, s.stage.src.(cycle := true))]
  {
    var r, t := s.r, s.stage.src.(cycle := true);
    var slots := r.slots[r.index := t];
    assert r.slots[r.index].(cycle := true) == t;
    if r.index + 1 < LAST {
      SetCycleInLap(r, s.c, t, slots, r.(slots := slots, index := r.index + 1));
    } else {
      SetCycleAtEnd(r, s.c, t, slots);
    }
    OneMore(s.taken, Waiting(s), Pending(r.index, t), s.pushed);
  }

  lemma QueueAfterTurn(r: Ring, c: Consumer, after: Ring)
    requires Turning(r, c) && after == r.(slots := r.slots[LAST := r.slots[LAST].(cycle := !r.ours)], index := 0, ours := !r.ours)
    ensures WellFormed(after) && InStep(after, c) && Queue(after, c) == Items(r.slots, c.deq, LAST)
  {
    ItemsFrame(r.slots, after.slots, c.deq, LAST);
    var q := Items(after.slots, c.deq, LAST);
    assert Items(after.slots, 0, 0) == [] && q + [] == q;
  }

  lemma TurnLinkKeeps(s: Fine)
    requires FineInv(s) && s.stage == LinkPending
    ensures FineInv(FineStep(s, TurnLink)) && Waiting(FineStep(s, TurnLink)) == Waiting(s)
  {
    QueueAfterTurn(s.r, s.c, FineStep(s, TurnLink).r);
  }

  lemma WholePushKeeps(s: Fine, src: Trb)
    requires FineInv(s) && Possible(s, WholePush(src))
    ensures FineInv(FineStep(s, WholePush(src)))
  {
    PushEnqueues(s.r, s.c, src);
    OneMore(s.taken, Queue(s.r, s.c), Pending(s.r.index, src.(cycle := !s.r.ours)), s.pushed);
  }

  /** Looking further never makes a push unsafe. */
  lemma LookKeepsRoom(r: Ring, c: Consumer)
    requires WellFormed(r) && InStep(r, c) && CanPush(r, c)
    ensures match Poll(r.slots, c)
            case Nothing => true
            case Followed(c') => CanPush(r, c')
            case Took(_, _, c') => CanPush(r, c')
  {
  }

  lemma LookKeeps(s: Fine)
    requires FineInv(s) && s.stage != LinkPending
    ensures Possible(s, Look) && FineInv(FineStep(s, Look))
  {
    PollDequeues(s.r, s.c);
    if CanPush(s.r, s.c) {
      LookKeepsRoom(s.r, s.c);
    }
    match Poll(s.r.slots, s.c)
    case Nothing =>
    case Followed(c') =>
    case Took(slot, trb, c') =>
      OneTaken(s.taken, Queue(s.r, s.c), Pending(slot, trb), Queue(s.r, c'), s.pushed);
  }

  /** Before the link is turned the controller takes entries, and then finds nothing. */
  lemma LookWhileTurning(s: Fine)
    requires FineInv(s) && s.stage == LinkPending
    ensures Possible(s, Look) && FineInv(FineStep(s, Look))
  {
    var slots, deq := s.r.slots, s.c.deq;
    if deq < LAST {
      var rest := Items(slots, deq + 1, LAST);
      assert Items(slots, deq, LAST) == [Pending(deq, slots[deq])] + rest;
      OneTaken(s.taken, Waiting(s), Pending(deq, slots[deq]), rest, s.pushed);
    }
  }

  lemma FineStepKeeps(s: Fine, a: FineAction)
    requires FineInv(s) && Possible(s, a)
    ensures FineInv(FineStep(s, a))
  {
    match a
    case Clear(src) => EntryStoreKeeps(s, ZERO, Cleared(src));
    case WriteEntry => EntryStoreKeeps(s, s.stage.src.(cycle := s.r.ours), Written(s.stage.src));
    case SetCycle => SetCycleEnqueues(s);
    case TurnLink => TurnLinkKeeps(s);
    case WholePush(src) => WholePushKeeps(s, src);
    case Look =>
      if s.stage == LinkPending {
        LookWhileTurning(s);
      } else {
        LookKeeps(s);
      }
  }

  // ---- whole runs ----

  ghost predicate FineRun(s: Fine, actions: seq<FineAction>, s': Fine)
    decreases |actions|
  {
    if actions == [] then s' == s
    else Possible(s, actions[0]) && FineRun(FineStep(s, actions[0]), actions[1..], s')
  }

  lemma {:induction false} FineRunKeeps(s: Fine, actions: seq<FineAction>, s': Fine)
    requires FineInv(s) && FineRun(s, actions, s')
    ensures FineInv(s')
    decreases |actions|
  {
    if actions == [] {
    } else {
      FineStepKeeps(s, actions[0]);
      FineRunKeeps(FineStep(s, actions[0]), actions[1..], s');
    }
  }

  /** Whatever looks fall between the stores, the controller takes exactly the entries pushed,
      in order, each once; an entry counts as pushed from the store of its cycle bit on. */
  lemma EveryStoreKeepsFifo(base: u64, actions: seq<FineAction>, s: Fine)
    requires FineRun(Fine(InitialRing(base), START, Resting, [], []), actions, s)
    ensures |s.r.slots| == NUM_TRB && s.r.index < LAST && s.taken + TrbsOf(Waiting(s)) == s.pushed
  {
    InitialWellFormed(base);
    assert Items(InitialRing(base).slots, 0, 0) == [];
    FineRunKeeps(Fine(InitialRing(base), START, Resting, [], []), actions, s);
  }

  /** The ring after the stores of one push, looks or not, is the ring after the push. */
  lemma StoresMakeThePush(s: Fine, src: Trb)
    requires FineInv(s) && Possible(s, Clear(src))
    ensures var written := FineStep(FineStep(s, Clear(src)), WriteEntry);
            var set' := FineStep(written, SetCycle);
            && (s.r.index + 1 < LAST ==> set'.r == Push(s.r, src).ring && set'.stage == Resting)
            && (s.r.index + 1 == LAST ==> set'.stage == LinkPending && FineStep(set', TurnLink).r == Push(s.r, src).ring)
  {
    var r := s.r;
    PushFills(r, src);
    var written := FineStep(FineStep(s, Clear(src)), WriteEntry);
    var set' := FineStep(written, SetCycle);
    assert written.r.slots == r.slots[r.index := src.(cycle := r.ours)];
    assert set'.r.slots == r.slots[r.index := src.(cycle := !r.ours)];
  }
}

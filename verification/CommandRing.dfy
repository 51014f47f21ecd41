/** The ring objects of the driver: an array of slots, filled in place. */
module CommandRings {
  import opened Bits
  import opened Results
  import opened Trbs
  import opened RingProtocol

  /** After n pushes the index is n mod 15, and the cycle bit is the parity of the lap. */
  ghost predicate Counted(r: Ring, n: nat) {
    WellFormed(r) && r.index == n % 15 && (r.ours <==> n / 15 % 2 == 1)
  }

  lemma CountOfNext(n: nat)
    ensures if n % 15 == 14 then (n + 1) % 15 == 0 && (n + 1) / 15 == n / 15 + 1
            else (n + 1) % 15 == n % 15 + 1 && (n + 1) / 15 == n / 15
  {
  }

  lemma ParityOfNext(q: nat)
    ensures (q + 1) % 2 == 1 <==> q % 2 != 1
  {
  }

  /** The same by the lap and the place in it. */
  lemma FilledInLap(r: Ring, t: Trb, after: Ring, lap: nat)
    requires WellFormed(r) && (r.ours <==> lap % 2 == 1) && Fills(r, t, after) && WellFormed(after)
    ensures if r.index == 14 then after.index == 0 && (after.ours <==> (lap + 1) % 2 == 1)
            else after.index == r.index + 1 && (after.ours <==> lap % 2 == 1)
  {
    ParityOfNext(lap);
  }

  lemma FilledCounts(r: Ring, t: Trb, after: Ring, n: nat)
    requires Counted(r, n) && Fills(r, t, after) && WellFormed(after)
    ensures Counted(after, n + 1)
  {
    CountOfNext(n);
    FilledInLap(r, t, after, n / 15);
  }

  lemma PushCounts(r: Ring, src: Trb, n: nat)
    requires Counted(r, n) && !src.IsLink()
    ensures Counted(RingProtocol.Push(r, src).ring, n + 1)
    ensures RingProtocol.Push(r, src).result == Ok(r.base + 16 * (n % 15))
  {
    PushFills(r, src);
    FilledCounts(r, src.(cycle := !r.ours), RingProtocol.Push(r, src).ring, n);
  }

  class TrbRing {
    const base: u64
    const trb: array<Trb>
    var currentIndex: nat

    /** Zeroed slots. */
    constructor (base: u64)
      ensures fresh(trb) && this.base == base && currentIndex == 0
      ensures trb[..] == seq(NUM_TRB, _ => ZERO)
    {
      this.base := base;
      trb := new Trb[NUM_TRB](_ => ZERO);
      currentIndex := 0;
    }

    method AdvanceIndex(newCycle: bool) returns (r: Result<()>)
      requires currentIndex < trb.Length
      modifies this, trb
      ensures currentIndex < trb.Length
      ensures if old(trb[currentIndex]).cycle == newCycle
              then r == Err("cycle state mismatch") && trb[..] == old(trb[..]) && currentIndex == old(currentIndex)
              else && r == Ok(()) && currentIndex == NextIndex(old(currentIndex), trb.Length)
                   && trb[..] == old(trb[..])[old(currentIndex) := old(trb[currentIndex]).(cycle := newCycle)]
    {
      if trb[currentIndex].cycle == newCycle {
        return Err("cycle state mismatch");
      }
      trb[currentIndex] := trb[currentIndex].(cycle := newCycle);
      currentIndex := NextIndex(currentIndex, trb.Length);
      return Ok(());
    }

    method AdvanceIndexNoToggle(cycleOurs: bool) returns (r: Result<()>)
      requires currentIndex < trb.Length
      modifies this
      ensures if old(trb[currentIndex]).cycle != cycleOurs
              then r == Err("cycle state mismatch") && currentIndex == old(currentIndex)
              else r == Ok(()) && currentIndex == NextIndex(old(currentIndex), trb.Length)
    {
      if trb[currentIndex].cycle != cycleOurs {
        return Err("cycle state mismatch");
      }
      currentIndex := NextIndex(currentIndex, trb.Length);
      return Ok(());
    }
  }

  class CommandRing {
    const ring: TrbRing
    var cycleStateOurs: bool
    ghost var pushes: nat

    ghost function View(): Ring
      reads this, ring, ring.trb
    {
      Ring(ring.base, ring.trb[..], ring.currentIndex, cycleStateOurs)
    }

    ghost predicate Valid()
      reads this, ring, ring.trb
    {
      Counted(View(), pushes)
    }

    constructor (base: u64)
      ensures Valid() && fresh(ring) && fresh(ring.trb) && View() == InitialRing(base) && pushes == 0
    {
      ring := new TrbRing(base);
      cycleStateOurs := false;
      pushes := 0;
      new;
      ring.trb[NUM_TRB - 1] := LinkTo(base);
      assert ring.trb[..] == seq(LAST, _ => ZERO) + [LinkTo(base)];
    }

    /** Whatever the ring and the entry, the stores of `push` do what the function of that name
        says. */
    method PushEntry(src: Trb) returns (r: Result<int>)
      requires ring.trb.Length == NUM_TRB && ring.currentIndex < NUM_TRB
      modifies this`cycleStateOurs, ring, ring.trb
      ensures View() == RingProtocol.Push(old(View()), src).ring && r == RingProtocol.Push(old(View()), src).result
    {
      ghost var before := View();
      if ring.trb[ring.currentIndex].cycle != cycleStateOurs {
        return Err("Command Ring is Full");
      }
      var dst := ring.base + 16 * ring.currentIndex;
      ring.trb[ring.currentIndex] := ZERO;
      ring.trb[ring.currentIndex] := src.(cycle := cycleStateOurs);
      assert ring.trb[..] == before.slots[before.index := src.(cycle := before.ours)];
      var advanced := ring.AdvanceIndex(!cycleStateOurs);
      if advanced.Err? {
        return Err(advanced.Message());
      }
      if ring.trb[ring.currentIndex].IsLink() {
        advanced := ring.AdvanceIndex(!cycleStateOurs);
        if advanced.Err? {
          return Err(advanced.Message());
        }
        cycleStateOurs := !cycleStateOurs;
      }
      return Ok(dst);
    }

    /** `push`, counted: on a valid ring it succeeds with the address of the slot. */
    method Push(src: Trb) returns (r: Result<int>)
      requires ring.trb.Length == NUM_TRB && ring.currentIndex < NUM_TRB
      modifies this, ring, ring.trb
      ensures View() == RingProtocol.Push(old(View()), src).ring && r == RingProtocol.Push(old(View()), src).result
      ensures old(Valid()) && !src.IsLink() ==>
                && Valid() && pushes == old(pushes) + 1
                && r == Ok(ring.base + 16 * (old(pushes) % 15))
    {
      ghost var valid := Valid() && !src.IsLink();
      if valid {
        PushCounts(View(), src, pushes);
      }
      r := PushEntry(src);
      if valid {
        pushes := pushes + 1;
      }
    }
  }

  /** Any 15 consecutive pushes return different addresses. */
  lemma AddressesDistinct(base: u64, i: nat, j: nat)
    requires i < j < i + 15
    ensures SlotAddr(base, i % 15) != SlotAddr(base, j % 15)
  {
  }
}

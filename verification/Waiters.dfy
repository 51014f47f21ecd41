/** Who gets an event: the list of waiters as values. */
module Waiters {
  import opened Bits
  import opened Results
  import opened Sequences
  import opened Trbs

  /** What a waiter waits for; a field that is not given matches anything. */
  datatype Cond = Cond(trbType: Option<nat>, trbAddr: Option<u64>, slot: Option<u8>) {
    predicate Matches(e: Trb) {
      && (trbAddr.Some? ==> e.data == trbAddr.value)
      && (trbType.Some? ==> e.TrbType() == trbType.value)
      && (slot.Some? ==> e.SlotId() == slot.value)
    }
  }

  /** A condition by the words of an event: its data, bits 10 to 15 and bits 24 to 31 of its
      control word; what is not given is not looked at. */
  lemma MatchesBits(c: Cond, e: Trb)
    ensures c.Matches(e) <==>
            && (c.trbAddr == None || c.trbAddr == Some(e.data))
            && (c.trbType == None || c.trbType == Some(e.Control() / 0x400 % 64))
            && (c.slot == None || c.slot.value == e.Control() / 0x100_0000 % 256)
  {
    assert e.Control() / 0x400 == e.body / 512 && e.Control() / 0x100_0000 == e.body / 0x80_0000;
  }

  /** A registered waiter: it is live as long as its future exists. */
  datatype Waiter = Waiter(cond: Cond, live: bool, inbox: seq<Trb>) {
    predicate Accepts(e: Trb) {
      live && cond.Matches(e)
    }
  }

  /** The event goes to the first waiter that accepts it. */
  function Deliver(ws: seq<Waiter>, e: Trb): (r: seq<Waiter>)
    ensures |r| == |ws|
  {
    if ws == [] then []
    else if ws[0].Accepts(e) then [ws[0].(inbox := ws[0].inbox + [e])] + ws[1..]
    else [ws[0]] + Deliver(ws[1..], e)
  }

  /** The waiters whose futures still exist, in their order. */
  function Sweep(ws: seq<Waiter>): seq<Waiter> {
    if ws == [] then []
    else if ws[0].live then [ws[0]] + Sweep(ws[1..])
    else Sweep(ws[1..])
  }

  lemma {:induction false} SweepConcat(a: seq<Waiter>, b: seq<Waiter>)
    ensures Sweep(a + b) == Sweep(a) + Sweep(b)
  {
    if a == [] {
      assert a + b == b;
    } else {
      assert (a + b)[1..] == a[1..] + b;
      SweepConcat(a[1..], b);
    }
  }

  lemma SweepLast(ws: seq<Waiter>, n: nat)
    requires 0 < n <= |ws|
    ensures Sweep(ws[..n]) == Sweep(ws[..n - 1]) + (if ws[n - 1].live then [ws[n - 1]] else [])
  {
    SweepConcat(ws[..n - 1], [ws[n - 1]]);
    assert ws[..n] == ws[..n - 1] + [ws[n - 1]];
    assert [ws[n - 1]][1..] == [];
  }

  /** At most one waiter gets the event: the earliest live one that matches. */
  lemma {:induction false} DeliverToFirst(ws: seq<Waiter>, e: Trb, k: nat)
    requires k < |ws|
    ensures Deliver(ws, e)[k] ==
            if ws[k].Accepts(e) && (forall j | 0 <= j < k :: !ws[j].Accepts(e))
            then ws[k].(inbox := ws[k].inbox + [e]) else ws[k]
  {
    if k == 0 {
    } else if ws[0].Accepts(e) {
    } else {
      DeliverToFirst(ws[1..], e, k - 1);
      assert (forall j | 0 <= j < k :: !ws[j].Accepts(e)) <==> (forall j | 0 <= j < k - 1 :: !ws[1..][j].Accepts(e)) by {
        assert forall j | 0 < j < k :: ws[1..][j - 1] == ws[j];
      }
    }
  }

  /** A delivery is decided by who the first acceptor is. */
  lemma {:induction false} DeliveredAll(ws: seq<Waiter>, e: Trb, after: seq<Waiter>, first: nat)
    requires |after| == |ws| && first <= |ws|
    requires forall j | 0 <= j < first :: !ws[j].Accepts(e)
    requires first < |ws| ==> ws[first].Accepts(e)
    requires forall k | 0 <= k < |ws| ::
               after[k] == if k == first then ws[k].(inbox := ws[k].inbox + [e]) else ws[k]
    ensures after == Deliver(ws, e)
  {
    forall k | 0 <= k < |ws| ensures after[k] == Deliver(ws, e)[k] {
      DeliverToFirst(ws, e, k);
    }
  }

  // ---- removing stale entries by index ----

  /** Indices below n of the entries that are not live, highest first. */
  function Stale(live: seq<bool>, n: nat): seq<nat>
    requires n <= |live|
  {
    if n == 0 then [] else if live[n - 1] then Stale(live, n - 1) else [n - 1] + Stale(live, n - 1)
  }

  lemma StaleNext(live: seq<bool>, n: nat, stale: seq<nat>)
    requires n < |live|
    ensures stale + Stale(live, n + 1) == (if live[n] then stale else stale + [n]) + Stale(live, n)
  {
  }

  function RemoveAt<T>(xs: seq<T>, i: nat): seq<T>
    requires i < |xs|
  {
    xs[..i] + xs[i + 1..]
  }

  /** The entries among the first n that are live, in order. */
  function Keep<T>(xs: seq<T>, live: seq<bool>, n: nat): seq<T>
    requires n <= |xs| && n <= |live|
  {
    if n == 0 then [] else Keep(xs, live, n - 1) + (if live[n - 1] then [xs[n - 1]] else [])
  }

  ghost predicate Removable<T>(xs: seq<T>, indices: seq<nat>)
    decreases |indices|
  {
    indices != [] ==> indices[0] < |xs| && Removable(RemoveAt(xs, indices[0]), indices[1..])
  }

  ghost function RemoveAll<T>(xs: seq<T>, indices: seq<nat>): seq<T>
    requires Removable(xs, indices)
    decreases |indices|
  {
    if indices == [] then xs else RemoveAll(RemoveAt(xs, indices[0]), indices[1..])
  }

  lemma LastIntoTail<T>(xs: seq<T>, n: nat, tail: seq<T>)
    requires 0 < n <= |xs|
    ensures xs[..n] + tail == xs[..n - 1] + ([xs[n - 1]] + tail)
  {
  }

  lemma LastRemoved<T>(xs: seq<T>, n: nat, tail: seq<T>)
    requires 0 < n <= |xs|
    ensures RemoveAt(xs[..n] + tail, n - 1) == xs[..n - 1] + tail
  {
  }

  /** Removal from the highest index down never shifts an index still to be removed. */
  lemma {:induction false} RemoveStaleKeepsLive<T>(xs: seq<T>, live: seq<bool>, n: nat, tail: seq<T>)
    requires n <= |xs| == |live|
    ensures Removable(xs[..n] + tail, Stale(live, n))
    ensures RemoveAll(xs[..n] + tail, Stale(live, n)) == Keep(xs, live, n) + tail
  {
    if n == 0 {
      assert xs[..0] + tail == tail;
    } else if live[n - 1] {
      RemoveStaleKeepsLive(xs, live, n - 1, [xs[n - 1]] + tail);
      LastIntoTail(xs, n, tail);
      AppendAssociates(Keep(xs, live, n - 1), [xs[n - 1]], tail);
    } else {
      RemoveStaleKeepsLive(xs, live, n - 1, tail);
      LastRemoved(xs, n, tail);
      assert Stale(live, n)[1..] == Stale(live, n - 1);
      assert Keep(xs, live, n) == Keep(xs, live, n - 1);
    }
  }

  ghost predicate Distinct<T>(xs: seq<T>) {
    forall i, j | 0 <= i < j < |xs| :: xs[i] != xs[j]
  }

  lemma DistinctAppend<T>(xs: seq<T>, x: T)
    requires Distinct(xs) && x !in xs
    ensures Distinct(xs + [x])
  {
  }

  lemma {:induction false} OnlyLiveKept<T>(xs: seq<T>, live: seq<bool>, n: nat, x: T)
    requires n <= |xs| && n <= |live| && x in Keep(xs, live, n)
    ensures exists k :: 0 <= k < n && live[k] && xs[k] == x
  {
    if n == 0 {
    } else if live[n - 1] && x == xs[n - 1] {
    } else {
      OnlyLiveKept(xs, live, n - 1, x);
    }
  }

  lemma {:induction false} KeepDistinct<T>(xs: seq<T>, live: seq<bool>, n: nat)
    requires n <= |xs| && n <= |live| && Distinct(xs)
    ensures forall x | x in Keep(xs, live, n) :: x in xs[..n]
    ensures Distinct(Keep(xs, live, n))
  {
    if n == 0 {
    } else {
      KeepDistinct(xs, live, n - 1);
      assert xs[n - 1] !in xs[..n - 1];
      assert xs[..n] == xs[..n - 1] + [xs[n - 1]];
      DistinctAppend(Keep(xs, live, n - 1), xs[n - 1]);
    }
  }

  lemma RemovingStaleKeeps<T>(xs: seq<T>, live: seq<bool>)
    requires |xs| == |live| && Distinct(xs)
    ensures Removable(xs, Stale(live, |live|))
    ensures RemoveAll(xs, Stale(live, |live|)) == Keep(xs, live, |xs|)
    ensures Distinct(Keep(xs, live, |xs|))
  {
    var n := |xs|;
    RemoveStaleKeepsLive(xs, live, n, []);
    assert xs[..n] + [] == xs;
    assert Keep(xs, live, n) + [] == Keep(xs, live, n);
    KeepDistinct(xs, live, n);
  }

  /** What is live is kept. */
  lemma {:induction false} KeepHolds<T>(xs: seq<T>, live: seq<bool>, n: nat, k: nat)
    requires k < n <= |xs| && n <= |live| && live[k]
    ensures xs[k] in Keep(xs, live, n)
  {
    if k == n - 1 {
      assert Keep(xs, live, n)[|Keep(xs, live, n)| - 1] == xs[k];
    } else {
      KeepHolds(xs, live, n - 1, k);
    }
  }

  /** The entries kept are exactly the live ones. */
  lemma KeptAreLive<T>(xs: seq<T>, live: seq<bool>)
    requires |xs| == |live| && Distinct(xs)
    ensures forall x | x in Keep(xs, live, |xs|) :: x in xs
    ensures forall k | 0 <= k < |xs| && live[k] :: xs[k] in Keep(xs, live, |xs|)
  {
    KeepDistinct(xs, live, |xs|);
    forall k | 0 <= k < |xs| && live[k] ensures xs[k] in Keep(xs, live, |xs|) {
      KeepHolds(xs, live, |xs|, k);
    }
  }
}

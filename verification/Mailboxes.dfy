/** The live waiters of a list as mailboxes, one for each condition waited for. */
module Mailboxes {
  import opened Results
  import opened Trbs
  import opened Waiters

  /** What the live waiter for `c` has been handed, if there is one. */
  function Box(ws: seq<Waiter>, c: Cond): Option<seq<Trb>> {
    if ws == [] then None
    else if ws[0].live && ws[0].cond == c then Some(ws[0].inbox)
    else Box(ws[1..], c)
  }

  /** No two live waiters wait for the same condition. */
  ghost predicate OneEach(ws: seq<Waiter>) {
    ws != [] ==> (ws[0].live ==> Box(ws[1..], ws[0].cond) == None) && OneEach(ws[1..])
  }

  /** A waiter whose future has taken the first event and is gone. */
  function Spent(w: Waiter): Waiter {
    Waiter(w.cond, false, if w.inbox == [] then [] else w.inbox[1..])
  }

  /** The waiter for `c` is gone: its future has resolved and dropped it. */
  function Settle(ws: seq<Waiter>, c: Cond): seq<Waiter> {
    if ws == [] then []
    else if ws[0].live && ws[0].cond == c then [Spent(ws[0])] + ws[1..]
    else [ws[0]] + Settle(ws[1..], c)
  }

  /** It is the one live waiter for `c`, wherever it stands in the list. */
  lemma {:induction false} SettleAt(ws: seq<Waiter>, c: Cond, k: nat)
    requires OneEach(ws) && k < |ws| && ws[k].live && ws[k].cond == c
    ensures Box(ws, c) == Some(ws[k].inbox) && Settle(ws, c) == ws[k := Spent(ws[k])]
  {
    if k == 0 {
    } else {
      SettleAt(ws[1..], c, k - 1);
      assert Box(ws[1..], c).Some? && ws[1..][k - 1] == ws[k];
      assert ws[k := Spent(ws[k])] == [ws[0]] + ws[1..][k - 1 := Spent(ws[k])];
    }
  }

  lemma {:induction false} RegisterBox(ws: seq<Waiter>, c: Cond, c': Cond)
    requires OneEach(ws) && Box(ws, c) == None
    ensures OneEach(ws + [Waiter(c, true, [])])
    ensures Box(ws + [Waiter(c, true, [])], c') == if c' == c then Some([]) else Box(ws, c')
  {
    var w := Waiter(c, true, []);
    if ws == [] {
      assert ws + [w] == [w] && [w][1..] == [];
    } else {
      assert (ws + [w])[1..] == ws[1..] + [w];
      RegisterBox(ws[1..], c, c');
      RegisterBox(ws[1..], c, ws[0].cond);
    }
  }

  lemma {:induction false} SettleBox(ws: seq<Waiter>, c: Cond, c': Cond)
    requires OneEach(ws)
    ensures OneEach(Settle(ws, c))
    ensures Box(Settle(ws, c), c') == if c' == c then None else Box(ws, c')
  {
    if ws == [] {
    } else {
      assert Settle(ws, c)[1..] == if ws[0].live && ws[0].cond == c then ws[1..] else Settle(ws[1..], c);
      SettleBox(ws[1..], c, c');
      SettleBox(ws[1..], c, ws[0].cond);
    }
  }

  /** An event reaches the one mailbox whose condition it matches. */
  lemma {:induction false} DeliverBox(ws: seq<Waiter>, e: Trb, c: Cond, c': Cond)
    requires OneEach(ws) && c.Matches(e)
    requires forall d | Box(ws, d).Some? && d.Matches(e) :: d == c
    ensures OneEach(Deliver(ws, e))
    ensures Box(Deliver(ws, e), c') ==
            if c' == c && Box(ws, c).Some? then Some(Box(ws, c).value + [e]) else Box(ws, c')
  {
    if ws == [] {
    } else {
      var tail := ws[1..];
      if ws[0].Accepts(e) {
        assert Box(ws, ws[0].cond).Some?;
        assert Deliver(ws, e)[1..] == tail;
      } else {
        assert Deliver(ws, e)[1..] == Deliver(tail, e);
        forall d | Box(tail, d).Some? && d.Matches(e) ensures d == c {
          assert !(ws[0].live && ws[0].cond == d);
          assert Box(ws, d).Some?;
        }
        DeliverBox(tail, e, c, c');
        DeliverBox(tail, e, c, ws[0].cond);
      }
    }
  }

  /** An event no mailbox waits for changes none. */
  lemma {:induction false} DeliverNowhere(ws: seq<Waiter>, e: Trb)
    requires forall d | Box(ws, d).Some? :: !d.Matches(e)
    ensures Deliver(ws, e) == ws
  {
    if ws == [] {
    } else {
      assert ws[0].live ==> Box(ws, ws[0].cond).Some?;
      forall d | Box(ws[1..], d).Some? ensures !d.Matches(e) {
        assert Box(ws, d).Some?;
      }
      DeliverNowhere(ws[1..], e);
    }
  }

  lemma {:induction false} SweepBox(ws: seq<Waiter>, c: Cond)
    requires OneEach(ws)
    ensures OneEach(Sweep(ws)) && Box(Sweep(ws), c) == Box(ws, c)
  {
    if ws == [] {
    } else {
      SweepBox(ws[1..], c);
      SweepBox(ws[1..], ws[0].cond);
      assert ws[0].live ==> Sweep(ws)[1..] == Sweep(ws[1..]);
    }
  }
}

/** Round-robin scheduling as values: what the first n rounds of the executor's loop do. */
module Schedules {
  import opened Sequences

  /** A task as its polls turn out: each spawns some tasks, and the last one is ready. A task
      that outlives the rounds looked at is one with more polls than rounds. */
  datatype Task = Task(id: nat, polls: Polls)
  datatype Polls = Last(spawns: seq<Task>) | Then(spawns: seq<Task>, next: Polls)

  /** The queue, and by id what was spawned, polled and completed so far, in order. */
  datatype State = State(queue: seq<Task>, spawned: seq<nat>, polled: seq<nat>, completed: seq<nat>)

  function Ids(ts: seq<Task>): (ids: seq<nat>)
    ensures |ids| == |ts| && forall k | 0 <= k < |ts| :: ids[k] == ts[k].id
  {
    if ts == [] then [] else [ts[0].id] + Ids(ts[1..])
  }

  function Spawn(s: State, t: Task): State {
    s.(queue := s.queue + [t], spawned := s.spawned + [t.id])
  }

  function SpawnAll(s: State, ts: seq<Task>): State
    decreases |ts|
  {
    if ts == [] then s else SpawnAll(Spawn(s, ts[0]), ts[1..])
  }

  /** One round: the task in front is polled, what it spawns is queued, and then it is queued
      again unless it is ready. */
  function Round(s: State): State {
    if s.queue == [] then s
    else
      var t := s.queue[0];
      var after := SpawnAll(s.(queue := s.queue[1..], polled := s.polled + [t.id]), t.polls.spawns);
      if t.polls.Last? then after.(completed := after.completed + [t.id])
      else after.(queue := after.queue + [Task(t.id, t.polls.next)])
  }

  function Rounds(s: State, n: nat): State
    decreases n
  {
    if n == 0 then s else Rounds(Round(s), n - 1)
  }

  lemma {:induction false} SpawnAllAppends(s: State, ts: seq<Task>)
    ensures SpawnAll(s, ts) == State(s.queue + ts, s.spawned + Ids(ts), s.polled, s.completed)
    decreases |ts|
  {
    if ts == [] {
      assert s.queue + [] == s.queue && s.spawned + [] == s.spawned;
    } else {
      SpawnAllAppends(Spawn(s, ts[0]), ts[1..]);
      AppendAssociates(s.queue, [ts[0]], ts[1..]);
      AppendAssociates(s.spawned, [ts[0].id], Ids(ts[1..]));
      assert [ts[0]] + ts[1..] == ts;
    }
  }

  /** What a round adds at the end of the queue. */
  function Added(t: Task): seq<Task> {
    t.polls.spawns + (if t.polls.Last? then [] else [Task(t.id, t.polls.next)])
  }

  lemma RoundMoves(s: State)
    requires s.queue != []
    ensures var t := s.queue[0];
            Round(s) == State(s.queue[1..] + Added(t), s.spawned + Ids(t.polls.spawns), s.polled + [t.id],
                              s.completed + (if t.polls.Last? then [t.id] else []))
  {
    var t := s.queue[0];
    var popped := s.(queue := s.queue[1..], polled := s.polled + [t.id]);
    SpawnAllAppends(popped, t.polls.spawns);
    assert (s.queue[1..] + t.polls.spawns) + Added(t)[|t.polls.spawns|..] == s.queue[1..] + Added(t);
    assert s.completed + [] == s.completed;
  }

  /** Where everything stands after a round: first the tasks that waited already, then those
      spawned during the poll, and last the polled task itself unless it is ready. */
  lemma SpawnedStandBefore(s: State, k: nat)
    requires s.queue != []
    ensures var t, q, spawns := s.queue[0], Round(s).queue, s.queue[0].polls.spawns;
            && |q| == |s.queue| - 1 + |spawns| + (if t.polls.Last? then 0 else 1)
            && (k < |s.queue| - 1 ==> q[k] == s.queue[k + 1])
            && (k < |spawns| ==> q[|s.queue| - 1 + k] == spawns[k])
            && (t.polls.Then? ==> q[|q| - 1] == Task(t.id, t.polls.next))
  {
    RoundMoves(s);
  }

  // ---- fairness ----

  lemma BehindTheFirst<T>(q: seq<T>, added: seq<T>, k: nat)
    requires 0 < k <= |q|
    ensures (q[1..] + added)[..k - 1] == q[1..k]
    ensures (q[1..] + added)[k - 1..][..|q| - k] == q[k..]
  {
    var tail := q[1..];
    assert (tail + added)[..k - 1] == tail[..k - 1];
    assert tail[..k - 1] == q[1..k];
    assert (tail + added)[k - 1..] == tail[k - 1..] + added;
    assert tail[k - 1..] == q[k..];
  }

  lemma FrontOfPrefix<T>(q: seq<T>, n: nat, m: nat)
    requires m <= n <= |q|
    ensures q[..n][..m] == q[..m]
  {
  }

  /** Whatever is spawned meanwhile, the tasks queued now are polled in their order, and the one
      at position k after exactly k rounds. */
  lemma {:induction false} PolledInTurn(s: State, k: nat)
    requires k <= |s.queue|
    ensures |Rounds(s, k).queue| >= |s.queue| - k
    ensures Rounds(s, k).queue[..|s.queue| - k] == s.queue[k..]
    ensures Rounds(s, k).polled == s.polled + Ids(s.queue[..k])
    decreases k
  {
    if k == 0 {
      assert s.polled + Ids([]) == s.polled;
    } else {
      RoundMoves(s);
      PolledInTurn(Round(s), k - 1);
      BehindTheFirst(s.queue, Added(s.queue[0]), k);
      FrontOfPrefix(Rounds(s, k).queue, |Round(s).queue| - (k - 1), |s.queue| - k);
      IdsOfPrefix(s, Round(s).queue, k);
    }
  }

  lemma IdsOfPrefix(s: State, next: seq<Task>, k: nat)
    requires 0 < k <= |s.queue| && k - 1 <= |next| && next[..k - 1] == s.queue[1..k]
    ensures (s.polled + [s.queue[0].id]) + Ids(next[..k - 1]) == s.polled + Ids(s.queue[..k])
  {
    assert s.queue[..k][1..] == s.queue[1..k];
  }

  // ---- conservation ----

  lemma {:induction false} IdsConcat(a: seq<Task>, b: seq<Task>)
    ensures Ids(a + b) == Ids(a) + Ids(b)
  {
    if a == [] {
      assert a + b == b;
    } else {
      assert (a + b)[1..] == a[1..] + b;
      IdsConcat(a[1..], b);
    }
  }

  /** Every spawned task is queued or completed, and counted once. */
  ghost predicate Balanced(s: State) {
    multiset(Ids(s.queue)) + multiset(s.completed) == multiset(s.spawned)
  }

  lemma CountedApart(rest: seq<Task>, spawns: seq<Task>, again: seq<Task>)
    ensures multiset(Ids(rest + (spawns + again))) == multiset(Ids(rest)) + multiset(Ids(spawns)) + multiset(Ids(again))
  {
    IdsConcat(rest, spawns + again);
    IdsConcat(spawns, again);
  }

  lemma RoundBalances(s: State)
    requires Balanced(s)
    ensures Balanced(Round(s))
  {
    if s.queue != [] {
      var t, rest := s.queue[0], s.queue[1..];
      var again := if t.polls.Last? then [] else [Task(t.id, t.polls.next)];
      RoundMoves(s);
      CountedApart(rest, t.polls.spawns, again);
      assert Ids(again) == if t.polls.Last? then [] else [t.id];
      assert multiset(Ids(s.queue)) == multiset{t.id} + multiset(Ids(rest)) by {
        assert Ids(s.queue) == [t.id] + Ids(rest);
      }
    }
  }

  lemma {:induction false} RoundsBalance(s: State, n: nat)
    requires Balanced(s)
    ensures Balanced(Rounds(s, n))
    decreases n
  {
    if n == 0 {
    } else {
      RoundBalances(s);
      RoundsBalance(Round(s), n - 1);
    }
  }

  ghost predicate Distinct(ids: seq<nat>) {
    forall id :: multiset(ids)[id] <= 1
  }

  /** With distinct tasks: each is either queued, once, or completed, once. */
  lemma ExactlyOnePlace(s: State, n: nat, id: nat)
    requires Balanced(s) && Distinct(Rounds(s, n).spawned) && id in Rounds(s, n).spawned
    ensures multiset(Ids(Rounds(s, n).queue))[id] + multiset(Rounds(s, n).completed)[id] == 1
    ensures id in Ids(Rounds(s, n).queue) <==> id !in Rounds(s, n).completed
  {
    RoundsBalance(s, n);
    var s' := Rounds(s, n);
    assert multiset(s'.spawned)[id] == 1;
    assert id in Ids(s'.queue) <==> multiset(Ids(s'.queue))[id] > 0;
    assert id in s'.completed <==> multiset(s'.completed)[id] > 0;
  }

  lemma SpawnedGrows(s: State)
    ensures s.spawned <= Round(s).spawned && s.polled <= Round(s).polled && s.completed <= Round(s).completed
    ensures Distinct(Round(s).spawned) ==> Distinct(s.spawned)
  {
    if s.queue != [] {
      RoundMoves(s);
      var new' := Ids(s.queue[0].polls.spawns);
      assert multiset(Round(s).spawned) == multiset(s.spawned) + multiset(new');
      forall id ensures multiset(s.spawned)[id] <= multiset(Round(s).spawned)[id] {
      }
    }
  }

  lemma {:induction false} RoundsGrow(s: State, n: nat)
    ensures s.spawned <= Rounds(s, n).spawned && s.polled <= Rounds(s, n).polled && s.completed <= Rounds(s, n).completed
    ensures Distinct(Rounds(s, n).spawned) ==> Distinct(s.spawned)
    decreases n
  {
    if n == 0 {
    } else {
      SpawnedGrows(s);
      RoundsGrow(Round(s), n - 1);
    }
  }

  lemma NotQueued(s: State, id: nat)
    requires Balanced(s) && Distinct(s.spawned) && id in s.completed
    ensures id !in Ids(s.queue)
  {
    assert multiset(s.completed)[id] > 0 && multiset(s.spawned)[id] <= 1;
    assert id in Ids(s.queue) ==> multiset(Ids(s.queue))[id] > 0;
  }

  lemma NotPolledNow(s: State, id: nat)
    requires Balanced(s) && Distinct(Round(s).spawned) && id in s.completed
    ensures id in Round(s).completed && s.polled <= Round(s).polled && id !in Round(s).polled[|s.polled|..]
  {
    SpawnedGrows(s);
    if s.queue != [] {
      RoundMoves(s);
      NotQueued(s, id);
      assert Ids(s.queue)[0] == s.queue[0].id;
    }
  }

  lemma NotInEither(a: seq<nat>, b: seq<nat>, c: seq<nat>, id: nat)
    requires a <= b <= c && id !in b[|a|..] && id !in c[|b|..]
    ensures id !in c[|a|..]
  {
    assert c[|a|..] == b[|a|..] + c[|b|..];
  }

  /** A task that completed is not polled again. */
  lemma {:induction false} NotPolledAgain(s: State, n: nat, id: nat)
    requires Balanced(s) && Distinct(Rounds(s, n).spawned) && id in s.completed
    ensures s.polled <= Rounds(s, n).polled && id !in Rounds(s, n).polled[|s.polled|..]
    decreases n
  {
    if n == 0 {
    } else {
      RoundsGrow(Round(s), n - 1);
      NotPolledNow(s, id);
      RoundBalances(s);
      NotPolledAgain(Round(s), n - 1, id);
      NotInEither(s.polled, Round(s).polled, Rounds(s, n).polled, id);
    }
  }

  // ---- draining ----

  /** All polls of the tasks and of everything they will spawn. */
  function Work(ts: seq<Task>): nat
    decreases ts
  {
    if ts == [] then 0 else WorkOfTask(ts[0]) + Work(ts[1..])
  }

  function WorkOfTask(t: Task): (n: nat)
    ensures n > 0
    decreases t
  {
    WorkOf(t.polls)
  }

  function WorkOf(p: Polls): (n: nat)
    ensures n > 0
    decreases p
  {
    1 + Work(p.spawns) + (if p.Last? then 0 else WorkOf(p.next))
  }

  lemma {:induction false} WorkConcat(a: seq<Task>, b: seq<Task>)
    ensures Work(a + b) == Work(a) + Work(b)
  {
    if a == [] {
      assert a + b == b;
    } else {
      assert (a + b)[1..] == a[1..] + b;
      WorkConcat(a[1..], b);
    }
  }

  /** Each round does one poll of the work, no more and no less. */
  lemma RoundWorks(s: State)
    requires s.queue != []
    ensures Work(Round(s).queue) == Work(s.queue) - 1
  {
    var t, rest := s.queue[0], s.queue[1..];
    var again := if t.polls.Last? then [] else [Task(t.id, t.polls.next)];
    RoundMoves(s);
    WorkConcat(rest, t.polls.spawns + again);
    WorkConcat(t.polls.spawns, again);
    if again != [] {
      assert again[1..] == [] && Work(again) == WorkOfTask(again[0]) == WorkOf(t.polls.next);
    }
    assert Work(s.queue) == WorkOfTask(t) + Work(rest);
  }

  /** A finite workload is done after exactly as many rounds as it has polls, and not before. */
  lemma {:induction false} Drains(s: State, n: nat)
    ensures Rounds(s, n).queue == [] <==> n >= Work(s.queue)
    decreases n
  {
    if s.queue == [] {
      EmptyStays(s, n);
    } else if n > 0 {
      RoundWorks(s);
      Drains(Round(s), n - 1);
    } else {
      assert WorkOfTask(s.queue[0]) > 0;
    }
  }

  lemma {:induction false} EmptyStays(s: State, n: nat)
    requires s.queue == []
    ensures Rounds(s, n) == s
    decreases n
  {
    if n == 0 {
    } else {
      EmptyStays(s, n - 1);
    }
  }

  /** Then all that was spawned, meanwhile as well, has completed. */
  lemma DrainedCompletes(s: State)
    requires Balanced(s)
    ensures var done := Rounds(s, Work(s.queue));
            done.queue == [] && multiset(done.completed) == multiset(done.spawned)
  {
    Drains(s, Work(s.queue));
    RoundsBalance(s, Work(s.queue));
  }

  /** A future that yields is resumed after each other task of the queue had exactly one turn. */
  lemma YieldLetsOthersRun(s: State, spawns: seq<Task>)
    requires s.queue != [] && s.queue[0].polls == Then([], Last(spawns))
    ensures var back := Rounds(Round(s), |s.queue| - 1);
            && back.queue != [] && back.queue[0] == Task(s.queue[0].id, Last(spawns))
            && back.polled == (s.polled + [s.queue[0].id]) + Ids(s.queue[1..])
  {
    RoundMoves(s);
    var rest := s.queue[1..];
    assert Round(s).queue == rest + [Task(s.queue[0].id, Last(spawns))];
    PolledInTurn(Round(s), |rest|);
    assert Round(s).queue[..|rest|] == rest;
    assert Rounds(Round(s), |rest|).queue[..1] == [Task(s.queue[0].id, Last(spawns))];
  }
}

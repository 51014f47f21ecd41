/** The executor: a queue of tasks behind a global cell, and the loop that runs them. */
module Executors {
  import opened Results
  import opened Schedules

  class Executor {
    var taskQueue: Option<seq<Task>>

    constructor ()
      ensures taskQueue == None
    {
      taskQueue := None;
    }

    ghost function Queued(): seq<Task>
      reads this
    {
      if taskQueue.None? then [] else taskQueue.value
    }

    /** Makes the queue on first use. */
    method TaskQueue() returns (q: seq<Task>)
      modifies this
      ensures taskQueue == Some(q) && q == old(Queued())
    {
      if taskQueue.None? {
        taskQueue := Some([]);
      }
      q := taskQueue.value;
    }

    method Enqueue(t: Task)
      modifies this
      ensures Queued() == old(Queued()) + [t]
    {
      var q := TaskQueue();
      taskQueue := Some(q + [t]);
    }

    method PopFront() returns (t: Option<Task>)
      modifies this
      ensures if old(Queued()) == [] then t == None && Queued() == []
              else t == Some(old(Queued())[0]) && Queued() == old(Queued())[1..]
    {
      var q := TaskQueue();
      if q == [] {
        return None;
      }
      taskQueue := Some(q[1..]);
      return Some(q[0]);
    }
  }

  /** The global executor, if any task was spawned yet. */
  class Global {
    var executor: Executor?
    ghost var spawned: seq<nat>
    ghost var polled: seq<nat>
    ghost var completed: seq<nat>

    constructor ()
      ensures View() == State([], [], [], []) && executor == null
    {
      executor := null;
      spawned, polled, completed := [], [], [];
    }

    ghost function View(): State
      reads this, executor
    {
      State(if executor == null then [] else executor.Queued(), spawned, polled, completed)
    }

    method SpawnGlobal(t: Task)
      modifies this, executor
      ensures View() == Spawn(old(View()), t) && executor != null
      ensures old(executor) != null ==> executor == old(executor)
      ensures old(executor) == null ==> fresh(executor)
    {
      if executor == null {
        executor := new Executor();
      }
      executor.Enqueue(t);
      spawned := spawned + [t.id];
    }

    /** One poll of a task: what it spawns goes to the global executor. */
    method PollTask(t: Task) returns (ready: bool)
      requires executor != null
      modifies this, executor
      ensures executor == old(executor) && ready == t.polls.Last?
      ensures View() == old(SpawnAll(View().(polled := View().polled + [t.id]), t.polls.spawns))
    {
      polled := polled + [t.id];
      ghost var before := View();
      var i := 0;
      assert t.polls.spawns[0..] == t.polls.spawns;
      while i < |t.polls.spawns|
        invariant 0 <= i <= |t.polls.spawns| && executor == old(executor)
        invariant SpawnAll(View(), t.polls.spawns[i..]) == SpawnAll(before, t.polls.spawns)
      {
        ghost var rest := t.polls.spawns[i..];
        assert rest[0] == t.polls.spawns[i] && rest[1..] == t.polls.spawns[i + 1..];
        SpawnGlobal(t.polls.spawns[i]);
        i := i + 1;
      }
      ready := t.polls.Last?;
    }

    /** One round of the loop in `run`. */
    method RunOnce()
      modifies this, executor
      ensures View() == Round(old(View()))
      ensures executor == old(executor)
    {
      if executor == null {
        return;
      }
      var popped := executor.PopFront();
      if popped.Some? {
        var task := popped.value;
        var ready := PollTask(task);
        if ready {
          completed := completed + [task.id];
        } else {
          executor.Enqueue(Task(task.id, task.polls.next));
        }
      }
    }

    /** The first n rounds of the loop, which has no end. */
    method Run(n: nat)
      modifies this, executor
      ensures View() == Rounds(old(View()), n) && executor == old(executor)
    {
      ghost var before := View();
      var i := 0;
      while i < n
        invariant 0 <= i <= n && executor == old(executor)
        invariant Rounds(View(), n - i) == Rounds(before, n)
      {
        RunOnce();
        i := i + 1;
      }
    }
  }

  /** Gives the others a turn: pending at the first poll, ready at every later one. */
  class Yield {
    var polled: bool

    constructor ()
      ensures !polled
    {
      polled := false;
    }

    method Poll() returns (ready: bool)
      modifies this
      ensures ready == old(polled) && polled
    {
      ready := polled;
      polled := true;
    }
  }
}

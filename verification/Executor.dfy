/**
 The mutable executor of `rustdv-sim/src/executor.rs`. Every method is tied to the function
 of the same operation in `ExecutorModel`, so the results of `ExecutorRuns` are about it.
 User code is an input: the script of what each poll does.
 */
module Executor {
  import opened Basics
  import opened ExecutorModel
  import Runs = ExecutorRuns

  /** The state after a number of turns of the loop, with the given polls. */
  function Turns(x: Exec, script: seq<Poll>): Exec
    decreases |script|
  {
    if script == [] then x else Turn(Turns(x, script[..|script| - 1]), script[|script| - 1])
  }

  /** Some call in the list, at any depth, is `run_until_idle`. */
  predicate StartsLoop(cs: seq<Call>)
    decreases cs
  {
    cs != [] && (cs[0].Reenter? || (cs[0].Cancel? && StartsLoop(cs[0].onDrop)) || StartsLoop(cs[1..]))
  }

  /**
   `cancel` does nothing after dropping the future, so outside the loop the rest of its
   `Drop` code is the same as calls made afterwards. In particular `Drop` code that starts
   the loop itself is a cancellation followed by turns of the loop.
   */
  lemma DropCodeIsLast(x: Exec, id: TaskId, first: seq<Call>, rest: seq<Call>)
    requires WF(x) && x.polling == None && id in x.tasks
    ensures Do(x, Cancel(id, first + rest)) == DoAll(Do(x, Cancel(id, first)), rest)
  {
    assert LiveOk(x, id);
    DoAllAppend(Complete(x.(tasks := x.tasks - {id}), id, Cancelled, WasCancelled), first, rest);
  }

  lemma IdleMeansPolled(d: Exec)
    requires WF(d) && d.polling == None && d.woken == [] && d.runQueue == []
    ensures forall id :: id in d.tasks ==> d.tasks[id] == Pending && id !in d.unpolled
  {
    forall id | id in d.tasks ensures d.tasks[id] == Pending && id !in d.unpolled { assert LiveOk(d, id); }
  }

  /** While a popped task is polled, whatever its code calls, it stays the task being polled. */
  lemma PollInProgress(x: Exec, id: TaskId, calls: seq<Call>)
    requires Quiet(x.(runQueue := [id] + x.runQueue)) && id in x.tasks
    ensures id in x.shared && WF(BeginPoll(x, id))
    ensures var y := DoAll(BeginPoll(x, id), calls);
            id in y.shared && y.polling == Some(id) && y.unwinding == None
  {
    var d := x.(runQueue := [id] + x.runQueue);
    assert d.runQueue[1..] == x.runQueue && d.(runQueue := d.runQueue[1..]) == x;
    assert LiveOk(d, id);
    BeginPollKeepsWF(d);
    DoAllExtends(BeginPoll(x, id), calls);
    assert Settled(BeginPoll(x, id), DoAll(BeginPoll(x, id), calls), id);
  }

  lemma OneMoreTurn(x: Exec, script: seq<Poll>, n: nat)
    requires n < |script|
    ensures Turns(x, script[..n + 1]) == Turn(Turns(x, script[..n]), script[n])
  {
    assert script[..n + 1][..n] == script[..n];
  }

  class Executor {
    var tasks: map<TaskId, TaskState>
    var nextId: TaskId
    var runQueue: seq<TaskId>
    var woken: seq<TaskId>
    var running: bool
    var currentlyPolling: Option<TaskId>
    var cancelPending: seq<TaskId>
    var shared: map<TaskId, Shared>
    ghost var unpolled: set<TaskId>
    ghost var polls: seq<TaskId>
    ghost var completions: seq<TaskId>
    ghost var unwinding: Option<TaskId>

    ghost function View(): Exec
      reads this
    {
      Exec(tasks, nextId, runQueue, woken, currentlyPolling, cancelPending, shared,
           unpolled, polls, completions, unwinding)
    }

    constructor ()
      ensures View() == NewExec() && !running
    {
      tasks, nextId, runQueue, woken, running := map[], 1, [], [], false;
      currentlyPolling, cancelPending, shared := None, [], map[];
      unpolled, polls, completions, unwinding := {}, [], [], None;
    }

    method SpawnNamed() returns (id: TaskId)
      modifies this
      ensures View() == SpawnTask(old(View())) && running == old(running)
      ensures id == old(nextId)
    {
      id := nextId;
      nextId := id + 1;
      shared := shared[id := Shared(Unstarted, None, [])];
      shared := shared[id := shared[id].(state := Scheduled)];
      tasks := tasks[id := Scheduled];
      runQueue := runQueue + [id];
      unpolled := unpolled + {id};
    }

    method CompleteTask(id: TaskId, s: TaskState, r: Outcome)
      requires id in shared
      modifies this
      ensures View() == Complete(old(View()), id, s, r) && running == old(running)
    {
      var joiners := shared[id].joiners;
      shared := shared[id := Shared(s, Some(r), [])];
      ghost var before := View();
      var i := 0;
      while i < |joiners|
        invariant i <= |joiners|
        invariant View() == WakeAll(before, joiners[..i]) && running == old(running)
      {
        assert joiners[..i + 1] == joiners[..i] + [joiners[i]];
        woken := woken + [joiners[i]];
        unpolled := unpolled + {joiners[i]};
        i := i + 1;
      }
      assert joiners[..i] == joiners;
      completions := completions + [id];
    }

    method CancelTask(id: TaskId, onDrop: seq<Call>)
      requires WF(View()) && (running || !StartsLoop(onDrop))
      modifies this
      ensures View() == Do(old(View()), Cancel(id, onDrop)) && running == old(running)
      decreases !running, 1, onDrop, 1
    {
      if currentlyPolling == Some(id) {
        cancelPending := cancelPending + [id];
        return;
      }
      if id in tasks {
        assert LiveOk(View(), id);
        AbortKeepsWF(View(), id);
        tasks := tasks - {id};
        CompleteTask(id, Cancelled, WasCancelled);
        PerformAll(onDrop);
      }
    }

    /** Polling a task's handle: take the result, or park the waiter. */
    method PollHandle(id: TaskId, waiter: TaskId) returns (r: Reply)
      modifies this
      ensures View() == JoinTask(old(View()), id, waiter) && running == old(running)
      ensures r == HandleReply(old(View()), id)
    {
      if id in shared && !Terminal(shared[id].state) {
        shared := shared[id := shared[id].(joiners := shared[id].joiners + [waiter])];
        return NotYet;
      }
      r := Result(id);
    }

    /** `TaskHandle::result`: the stored outcome, which is consumed. */
    method Result(id: TaskId) returns (r: Reply)
      modifies this
      ensures View() == Do(old(View()), TakeResult(id)) && running == old(running)
      ensures r == ResultReply(old(View()), id)
    {
      r := InvalidState;
      if id in shared {
        if shared[id].result.Some? { r := Yields(shared[id].result.value); }
        shared := shared[id := shared[id].(result := None)];
      }
    }

    method PerformSimple(c: Call)
      requires !c.Cancel? && !c.Reenter?
      modifies this
      ensures View() == Do(old(View()), c) && running == old(running)
    {
      match c {
        case Wake(id) =>
          woken := woken + [id];
          unpolled := unpolled + {id};
        case Spawn =>
          var _ := SpawnNamed();
        case Join(id, waiter) =>
          var _ := PollHandle(id, waiter);
        case TakeResult(id) =>
          var _ := Result(id);
      }
    }

    /** User code: a list of calls into the executor. */
    method PerformAll(cs: seq<Call>)
      requires WF(View()) && (running || !StartsLoop(cs))
      modifies this
      ensures View() == DoAll(old(View()), cs) && WF(View()) && running == old(running)
      decreases !running, 1, cs, 0
    {
      DoAllKeepsWF(View(), cs);
      if cs == [] { return; }
      ghost var before := View();
      DoKeepsWF(before, cs[0]);
      if cs[0].Cancel? {
        CancelTask(cs[0].id, cs[0].onDrop);
      } else if cs[0].Reenter? {
        var _, _ := RunUntilIdle([]);
      } else {
        PerformSimple(cs[0]);
      }
      assert View() == Do(before, cs[0]);
      PerformAll(cs[1..]);
    }

    method ScheduleTask(id: TaskId)
      requires id in tasks && id in shared
      modifies this
      ensures View() == SetState(old(View()), id, Scheduled).(runQueue := old(runQueue) + [id])
      ensures running == old(running)
    {
      tasks := tasks[id := Scheduled];
      shared := shared[id := shared[id].(state := Scheduled)];
      runQueue := runQueue + [id];
    }

    method Drain()
      requires Quiet(View())
      modifies this
      ensures View() == DrainWoken(old(View())) && running == old(running)
    {
      var ids := woken;
      woken := [];
      var i := 0;
      while i < |ids|
        invariant i <= |ids| && running == old(running)
        invariant Schedule(View(), ids[i..]) == DrainWoken(old(View()))
        invariant forall id :: id in tasks ==> id in shared
      {
        var id := ids[i];
        assert ids[i..][1..] == ids[i + 1..];
        if id in tasks && tasks[id] == Pending { ScheduleTask(id); }
        i := i + 1;
      }
    }

    /** Cancel tasks one after another, each with the given `Drop` code. */
    method CancelList(ids: seq<TaskId>, drops: seq<seq<Call>>)
      requires WF(View()) && (running || forall k :: 0 <= k < |drops| ==> !StartsLoop(drops[k]))
      modifies this
      ensures View() == CancelEach(old(View()), ids, drops) && WF(View()) && running == old(running)
      decreases !running, 2
    {
      var i, rest := 0, drops;
      while i < |ids|
        invariant i <= |ids| && running == old(running) && WF(View())
        invariant CancelEach(View(), ids[i..], rest) == CancelEach(old(View()), ids, drops)
        invariant running || forall k :: 0 <= k < |rest| ==> !StartsLoop(rest[k])
      {
        var onDrop := if rest == [] then [] else rest[0];
        assert ids[i..][1..] == ids[i + 1..];
        DoKeepsWF(View(), Cancel(ids[i], onDrop));
        CancelTask(ids[i], onDrop);
        rest := if rest == [] then [] else rest[1..];
        i := i + 1;
      }
    }

    /** `cancel_after`; the map yields the ids in an arbitrary order, returned as `ids`. */
    method CancelAfter(watermark: TaskId, drops: seq<seq<Call>>) returns (ids: seq<TaskId>)
      requires WF(View()) && (running || forall k :: 0 <= k < |drops| ==> !StartsLoop(drops[k]))
      modifies this
      ensures Runs.Survivors(old(View()), watermark, ids)
      ensures View() == CancelEach(old(View()), ids, drops) && running == old(running)
    {
      ids := LiveFrom(watermark);
      CancelList(ids, drops);
    }

    method LiveFrom(watermark: TaskId) returns (ids: seq<TaskId>)
      ensures Runs.Survivors(View(), watermark, ids)
    {
      ids := [];
      var left := tasks.Keys;
      while left != {}
        invariant left <= tasks.Keys && NoDuplicates(ids)
        invariant forall id :: id in ids <==> id in tasks && id !in left && id >= watermark
        decreases |left|
      {
        ghost var any := HasMember(left);
        var id :| id in left;
        if id >= watermark { ids := ids + [id]; }
        left := left - {id};
      }
    }

    method StartPoll(id: TaskId)
      requires id in tasks && id in shared
      modifies this
      ensures View() == BeginPoll(old(View()), id) && running == old(running)
    {
      tasks := tasks[id := Running];
      shared := shared[id := shared[id].(state := Running)];
      unpolled, polls := unpolled - {id}, polls + [id];
      currentlyPolling := Some(id);
    }

    method PollOne(id: TaskId, p: Poll)
      requires running && Quiet(View().(runQueue := [id] + runQueue))
      modifies this
      ensures View() == PollTask(old(View()), id, p) && running == old(running)
      decreases !running, 5
    {
      if id !in tasks || tasks[id] != Scheduled { return; }
      PollInProgress(View(), id, p.calls);
      StartPoll(id);
      PerformAll(p.calls);
      Conclude(id, p.end);
    }

    /** The part of `poll_task` after the future has returned or panicked. */
    method Conclude(id: TaskId, end: PollEnd)
      requires running && WF(View()) && currentlyPolling == Some(id) && unwinding == None && id in shared
      modifies this
      ensures View() == EndPoll(old(View()), id, end) && running == old(running)
      decreases !running, 4
    {
      match end {
        case Ready(v) =>
          CompleteTask(id, Finished, Returned(v));
          currentlyPolling := None;
          tasks := tasks - {id};
        case Pend(drops) =>
          Suspend(id, drops);
        case Panic(onDrop) =>
          Unwind(id, onDrop);
      }
    }

    method Suspend(id: TaskId, drops: seq<seq<Call>>)
      requires running && WF(View()) && currentlyPolling == Some(id) && id in shared
      modifies this
      ensures View() == EndPoll(old(View()), id, Pend(drops)) && running == old(running)
      decreases !running, 3
    {
      PendKeepsWF(View(), id);
      currentlyPolling := None;
      tasks := tasks[id := Pending];
      shared := shared[id := shared[id].(state := Pending)];
      var pending := cancelPending;
      cancelPending := [];
      CancelList(pending, drops);
    }

    method Unwind(id: TaskId, onDrop: seq<Call>)
      requires running && WF(View()) && currentlyPolling == Some(id) && unwinding == None && id in shared
      modifies this
      ensures View() == EndPoll(old(View()), id, Panic(onDrop)) && running == old(running)
      decreases !running, 3
    {
      UnwindKeepsWF(View(), id);
      currentlyPolling := None;
      tasks := tasks - {id};
      unwinding := Some(id);
      DoAllExtends(View(), onDrop);
      PerformAll(onDrop);
      CompleteTask(id, Failed, Panicked);
      unwinding := None;
    }

    /** The end of a turn: pop the head of the run queue and poll it. */
    method PopAndPoll(p: Poll)
      requires running && Quiet(View()) && runQueue != []
      modifies this
      ensures View() == PollTask(old(View()).(runQueue := old(runQueue)[1..]), old(runQueue)[0], p)
      ensures running == old(running)
      decreases !running, 6
    {
      var id := runQueue[0];
      assert [id] + runQueue[1..] == runQueue;
      runQueue := runQueue[1..];
      PollOne(id, p);
    }

    /**
     `run_until_idle`. The script says what each poll does; `idle` is false if the script
     is exhausted while there is still something to run. A call from inside a poll or from
     `Drop` code, at any point where user code can make one, finds the loop running and
     changes nothing.
     */
    method RunUntilIdle(script: seq<Poll>) returns (idle: bool, turns: nat)
      requires !running ==> Quiet(View())
      modifies this
      ensures running == old(running)
      ensures old(running) ==> View() == old(View())
      ensures !old(running) ==>
                && turns <= |script| && View() == DrainWoken(Turns(old(View()), script[..turns]))
                && idle == (runQueue == []) && (!idle ==> turns == |script|)
      ensures !old(running) && idle ==>
                forall id :: id in tasks ==> tasks[id] == Pending && id !in unpolled
      decreases !running, 0
    {
      turns := 0;
      idle := false;
      if running { return; }
      running := true;
      while true
        invariant turns <= |script| && running
        invariant View() == Turns(old(View()), script[..turns]) && Quiet(View())
        decreases |script| - turns
      {
        ghost var x := View();
        DrainOk(x);
        Drain();
        if runQueue == [] || turns == |script| {
          if runQueue == [] { IdleMeansPolled(View()); }
          running := false;
          idle := runQueue == [];
          return;
        }
        TurnOk(x, script[turns]);
        PopAndPoll(script[turns]);
        OneMoreTurn(old(View()), script, turns);
        turns := turns + 1;
      }
    }
  }
}

/**
 Results over whole runs of the executor: no lost wakeup, fairness, exactly-once
 completion, and isolation of one test's tasks from the next.
 */
module ExecutorRuns {
  import opened Basics
  import opened ExecutorModel

  /** What happens between two points where no task is being polled. */
  datatype Event =
    | Outside(call: Call)   // a simulator callback, or code that starts the run
    | LoopTurn(poll: Poll)  // one turn of the loop in `run_until_idle`

  function Step(x: Exec, e: Event): Exec {
    match e
    case Outside(c) => Do(x, c)
    case LoopTurn(p) => Turn(x, p)
  }

  function After(x: Exec, run: seq<Event>): Exec
    decreases |run|
  {
    if run == [] then x else After(Step(x, run[0]), run[1..])
  }

  lemma StepOk(x: Exec, e: Event)
    requires Quiet(x)
    ensures Quiet(Step(x, e)) && Later(x, Step(x, e))
  {
    match e
    case Outside(c) =>
      DoKeepsWF(x, c);
      DoExtends(x, c);
      ExtendsIsLater(x, Do(x, c));
    case LoopTurn(p) => TurnOk(x, p);
  }

  lemma {:induction false} RunOk(x: Exec, run: seq<Event>)
    requires Quiet(x)
    ensures Quiet(After(x, run)) && Later(x, After(x, run))
    decreases |run|
  {
    if run != [] {
      StepOk(x, run[0]);
      RunOk(Step(x, run[0]), run[1..]);
      LaterTransitive(x, Step(x, run[0]), After(x, run));
    }
  }

  // ---------------------------------------------------------------------------
  // No lost wakeup
  // ---------------------------------------------------------------------------

  /**
   In every reachable state a live task is either scheduled, and then its id occurs in the
   run queue exactly once, or pending, and then it does not occur, whatever stale ids the
   queue holds.
   */
  lemma QueuedExactlyOnce(run: seq<Event>, id: TaskId)
    requires id in After(NewExec(), run).tasks
    ensures var x := After(NewExec(), run);
            && (x.tasks[id] == Scheduled || x.tasks[id] == Pending)
            && multiset(x.runQueue)[id] == (if x.tasks[id] == Scheduled then 1 else 0)
  {
    var x := After(NewExec(), run);
    NewIsWF();
    RunOk(NewExec(), run);
    assert LiveOk(x, id);
    CountInDistinct(x.runQueue, id);
  }

  lemma {:induction false} CountInDistinct(s: seq<TaskId>, id: TaskId)
    requires NoDuplicates(s)
    ensures multiset(s)[id] == if id in s then 1 else 0
  {
    if s != [] {
      var rest := s[1..];
      assert s == [s[0]] + rest;
      assert NoDuplicates(rest) && s[0] !in rest;
      CountInDistinct(rest, id);
    }
  }

  /**
   `run_until_idle` returns when, after draining, the run queue is empty. Then every
   surviving task is pending and has been polled since it was last woken or spawned,
   including wakes made during its own poll.
   */
  lemma NoLostWakeup(run: seq<Event>, id: TaskId)
    requires DrainWoken(After(NewExec(), run)).runQueue == []
    requires id in After(NewExec(), run).tasks
    ensures var d := DrainWoken(After(NewExec(), run));
            id in d.tasks && d.tasks[id] == Pending && id !in d.unpolled && d.woken == []
  {
    NewIsWF();
    RunOk(NewExec(), run);
    DrainOk(After(NewExec(), run));
    assert LiveOk(DrainWoken(After(NewExec(), run)), id);
  }

  // ---------------------------------------------------------------------------
  // Fairness
  // ---------------------------------------------------------------------------

  /** `t` was polled after `x` and before `y`. */
  ghost predicate PolledBetween(x: Exec, y: Exec, t: TaskId) {
    exists k :: |x.polls| <= k < |y.polls| && y.polls[k] == t
  }

  /** A turn with something queued pops exactly the head, and polls it if it is still live. */
  lemma TurnPopsHead(x: Exec, p: Poll)
    requires Quiet(x) && x.runQueue != []
    ensures var x' := Turn(x, p);
            && x.runQueue[1..] <= x'.runQueue
            && (if x.runQueue[0] in x.tasks then x'.polls == x.polls + [x.runQueue[0]]
                else x'.polls == x.polls && x.runQueue[0] !in x'.tasks)
  {
    DrainOk(x);
    var d := DrainWoken(x);
    assert d.runQueue[0] == x.runQueue[0] && x.runQueue[1..] <= d.runQueue[1..];
    if d.runQueue[0] in d.tasks { PollOk(d, p); }
  }

  /** A call made outside a poll leaves what is queued in place and polls nothing. */
  lemma OutsideKeepsQueue(x: Exec, c: Call)
    requires Quiet(x)
    ensures x.runQueue <= Do(x, c).runQueue && Do(x, c).polls == x.polls
  {
    DoExtends(x, c);
  }

  /** If the first event does not poll `t`, a poll of `t` in the run comes after it. */
  lemma PolledAfterFirst(x: Exec, run: seq<Event>, t: TaskId)
    requires Quiet(x) && run != [] && PolledBetween(x, After(x, run), t)
    requires var polls := Step(x, run[0]).polls;
             polls == x.polls || (|polls| == |x.polls| + 1 && x.polls <= polls && polls[|x.polls|] != t)
    ensures PolledBetween(Step(x, run[0]), After(Step(x, run[0]), run[1..]), t)
  {
    PollsGrow(x, run);
    PolledLater(x, Step(x, run[0]), After(x, run), t);
  }

  lemma PolledLater(x: Exec, m: Exec, y: Exec, t: TaskId)
    requires PolledBetween(x, y, t) && m.polls <= y.polls
    requires m.polls == x.polls || (|m.polls| == |x.polls| + 1 && m.polls[|x.polls|] != t)
    ensures PolledBetween(m, y, t)
  {
    assert forall i :: 0 <= i < |m.polls| ==> y.polls[i] == m.polls[i];
    var k :| |x.polls| <= k < |y.polls| && y.polls[k] == t;
  }

  lemma PollsGrow(x: Exec, run: seq<Event>)
    requires Quiet(x) && run != []
    ensures After(x, run) == After(Step(x, run[0]), run[1..]) && Step(x, run[0]).polls <= After(x, run).polls
  {
    StepOk(x, run[0]);
    RunOk(Step(x, run[0]), run[1..]);
  }

  lemma StepKeepsQuiet(x: Exec, e: Event)
    requires Quiet(x)
    ensures Quiet(Step(x, e)) && |x.polls| <= |Step(x, e).polls|
  {
    StepOk(x, e);
  }

  /** A queued task is polled or removed before any task that is not queued ahead of it. */
  lemma {:induction false} FirstComeFirstPolled(x: Exec, run: seq<Event>, s: TaskId, t: TaskId, i: nat)
    requires Quiet(x) && i < |x.runQueue| && x.runQueue[i] == s
    requires forall j :: 0 <= j <= i ==> x.runQueue[j] != t
    requires PolledBetween(x, After(x, run), t)
    ensures PolledBetween(x, After(x, run), s) || s !in After(x, run).tasks
    decreases |run|
  {
    if run != [] {
      var x' := Step(x, run[0]);
      if run[0].Outside? {
        OutsideKeepsQueue(x, run[0].call);
        StepKeepsQuiet(x, run[0]);
        FirstComeFirstPolled(x', run[1..], s, t, i);
      } else if i > 0 {
        TurnPopsHead(x, run[0].poll);
        PolledAfterFirst(x, run, t);
        StepKeepsQuiet(x, run[0]);
        FirstComeFirstPolled(x', run[1..], s, t, i - 1);
      } else {
        HeadOfQueueServed(x, run);
      }
    }
  }

  lemma HeadOfQueueServed(x: Exec, run: seq<Event>)
    requires Quiet(x) && x.runQueue != [] && run != [] && run[0].LoopTurn?
    ensures PolledBetween(x, After(x, run), x.runQueue[0]) || x.runQueue[0] !in After(x, run).tasks
  {
    var s, x', y := x.runQueue[0], Step(x, run[0]), After(x, run);
    StepOk(x, run[0]);
    RunOk(x', run[1..]);
    TurnPopsHead(x, run[0].poll);
    if s in x.tasks {
      assert y.polls[|x.polls|] == s;
    } else {
      assert Dead(x, s);
    }
  }

  /** The state of a fair turn: `t` is polled next while `s` is scheduled. */
  ghost predicate TurnOf(d: Exec, s: TaskId, t: TaskId) {
    && d.runQueue != [] && d.runQueue[0] == t && t in d.tasks
    && s in d.tasks && d.tasks[s] == Scheduled && s != t
  }

  lemma ScheduledPosition(x: Exec, s: TaskId) returns (k: nat)
    requires WF(x) && s in x.tasks && x.tasks[s] == Scheduled
    ensures k < |x.runQueue| && x.runQueue[k] == s
  {
    assert LiveOk(x, s);
    k :| 0 <= k < |x.runQueue| && x.runQueue[k] == s;
  }

  /** After the turn `s` is queued and `t` is not queued ahead of it. */
  lemma QueueAfterTurn(d: Exec, p: Poll, s: TaskId, t: TaskId) returns (i: nat)
    requires Quiet(d) && TurnOf(d, s, t)
    ensures var y := PollTask(d.(runQueue := d.runQueue[1..]), t, p);
            Quiet(y) && i < |y.runQueue| && y.runQueue[i] == s && forall j :: 0 <= j <= i ==> y.runQueue[j] != t
  {
    var k := ScheduledPosition(d, s);
    PollOk(d, p);
    var rest := d.runQueue[1..];
    assert rest[k - 1] == s && t !in rest;
    i := k - 1;
  }

  lemma FairTurn(x: Exec, p: Poll, run: seq<Event>, s: TaskId, t: TaskId)
    requires Quiet(x) && TurnOf(DrainWoken(x), s, t)
    requires PolledBetween(Turn(x, p), After(Turn(x, p), run), t)
    ensures PolledBetween(Turn(x, p), After(Turn(x, p), run), s) || s !in After(Turn(x, p), run).tasks
  {
    DrainOk(x);
    var i := QueueAfterTurn(DrainWoken(x), p, s, t);
    FirstComeFirstPolled(Turn(x, p), run, s, t, i);
  }

  /**
   Fairness: if a turn polls `t`, then before `t` is polled again every task `s` that was
   scheduled at that turn has been polled or removed, whatever the polls wake, spawn or cancel.
   */
  lemma Fairness(before: seq<Event>, p: Poll, run: seq<Event>, s: TaskId, t: TaskId)
    requires TurnOf(DrainWoken(After(NewExec(), before)), s, t)
    requires var y1 := Turn(After(NewExec(), before), p);
             PolledBetween(y1, After(y1, run), t)
    ensures var y1 := Turn(After(NewExec(), before), p);
            PolledBetween(y1, After(y1, run), s) || s !in After(y1, run).tasks
  {
    NewIsWF();
    RunOk(NewExec(), before);
    FairTurn(After(NewExec(), before), p, run, s, t);
  }

  // ---------------------------------------------------------------------------
  // Exactly-once completion
  // ---------------------------------------------------------------------------

  /**
   Each spawned task completes at most once; its cell is terminal exactly when it has, the
   stored result agrees with the state, and nothing later changes the state or replaces
   the result.
   */
  lemma CompletedOnce(run: seq<Event>, more: seq<Event>, id: TaskId)
    requires id in After(NewExec(), run).shared
    ensures var x := After(NewExec(), run);
            var y := After(x, more);
            && multiset(y.completions)[id] <= 1
            && (id in x.completions <==> Terminal(x.shared[id].state))
            && (id in x.completions <==> id !in x.tasks)
            && (x.shared[id].result.Some? ==> Agrees(x.shared[id].state, x.shared[id].result.value))
            && id in y.shared
            && (Terminal(x.shared[id].state) ==>
                  y.shared[id].state == x.shared[id].state
                  && (y.shared[id].result == x.shared[id].result || y.shared[id].result == None))
  {
    var x := After(NewExec(), run);
    NewIsWF();
    RunOk(NewExec(), run);
    RunOk(x, more);
    assert SharedOk(x, id) && Settled(x, After(x, more), id);
    CountInDistinct(After(x, more).completions, id);
  }

  // Cancellation deferred out of a poll.

  lemma CancelDeadIsNothing(x: Exec, id: TaskId, calls: seq<Call>)
    requires x.polling == None && Dead(x, id)
    ensures Do(x, Cancel(id, calls)) == x
  {}

  lemma {:induction false} CancelEachDeadIsNothing(x: Exec, ids: seq<TaskId>, drops: seq<seq<Call>>)
    requires x.polling == None && forall k :: 0 <= k < |ids| ==> Dead(x, ids[k])
    ensures CancelEach(x, ids, drops) == x
    decreases |ids|
  {
    if ids != [] {
      CancelDeadIsNothing(x, ids[0], if drops == [] then [] else drops[0]);
      CancelEachDeadIsNothing(x, ids[1..], if drops == [] then [] else drops[1..]);
    }
  }

  /** Cancelling a task, whatever its `Drop` code does, leaves it dead and keeps the dead dead. */
  lemma CancelLeavesDead(x: Exec, id: TaskId, calls: seq<Call>)
    requires WF(x) && x.polling == None && id < x.nextId
    ensures var y := Do(x, Cancel(id, calls));
            WF(y) && y.polling == None && Dead(y, id) && forall t :: Dead(x, t) ==> Dead(y, t)
  {
    DoKeepsWF(x, Cancel(id, calls));
    DoExtends(x, Cancel(id, calls));
    CancelRemoves(x, id, calls);
  }

  /** A list that names one live task, perhaps repeatedly, and dead ones is one cancellation of that task. */
  lemma {:induction false} CancelEachHitsOne(x: Exec, id: TaskId, ids: seq<TaskId>, drops: seq<seq<Call>>)
    returns (d: seq<Call>)
    requires WF(x) && x.polling == None && id in ids && id < x.nextId
    requires forall k :: 0 <= k < |ids| ==> ids[k] == id || Dead(x, ids[k])
    ensures d == [] || d in drops
    ensures CancelEach(x, ids, drops) == Do(x, Cancel(id, d))
    decreases |ids|
  {
    d := if drops == [] then [] else drops[0];
    var rest := if drops == [] then [] else drops[1..];
    assert ids == [ids[0]] + ids[1..];
    if ids[0] == id {
      CancelLeavesDead(x, id, d);
      CancelEachDeadIsNothing(Do(x, Cancel(id, d)), ids[1..], rest);
    } else {
      CancelDeadIsNothing(x, ids[0], d);
      d := CancelEachHitsOne(x, id, ids[1..], rest);
    }
  }

  /**
   When a poll of `id` ends pending, the deferred cancellations are nothing at all unless
   `id` cancelled itself in this poll, and then exactly one cancellation of `id`, with its
   own `Drop` code. Requests left over from polls that finished or panicked hit nobody,
   whatever any `Drop` code does.
   */
  lemma DeferredCancelHitsOnlyItself(x: Exec, id: TaskId, drops: seq<seq<Call>>) returns (d: seq<Call>)
    requires WF(x) && x.polling == Some(id)
    ensures id in x.shared && (d == [] || d in drops)
    ensures var y := SetState(x, id, Pending).(polling := None, cancelPending := []);
            EndPoll(x, id, Pend(drops)) == if id in x.cancelPending then Do(y, Cancel(id, d)) else y
  {
    assert LiveOk(x, id);
    PendKeepsWF(x, id);
    var y := SetState(x, id, Pending).(polling := None, cancelPending := []);
    d := [];
    forall k | 0 <= k < |x.cancelPending| ensures x.cancelPending[k] == id || Dead(y, x.cancelPending[k]) {
      assert x.cancelPending[k] in x.cancelPending;
    }
    if id in x.cancelPending {
      d := CancelEachHitsOne(y, id, x.cancelPending, drops);
    } else {
      CancelEachDeadIsNothing(y, x.cancelPending, drops);
    }
  }

  // ---------------------------------------------------------------------------
  // Test isolation
  // ---------------------------------------------------------------------------

  /** No call in the list, at any depth, spawns. */
  ghost predicate NeverSpawns(cs: seq<Call>)
    decreases cs
  {
    cs != [] ==> !cs[0].Spawn? && (cs[0].Cancel? ==> NeverSpawns(cs[0].onDrop)) && NeverSpawns(cs[1..])
  }

  /** Some call in the list, at any depth, cancels `t`. */
  ghost predicate Hits(cs: seq<Call>, t: TaskId)
    decreases cs
  {
    cs != [] && ((cs[0].Cancel? && (cs[0].id == t || Hits(cs[0].onDrop, t))) || Hits(cs[1..], t))
  }

  lemma {:induction false} NoSpawnKeepsNextId(x: Exec, cs: seq<Call>)
    requires NeverSpawns(cs)
    ensures DoAll(x, cs).nextId == x.nextId
    decreases cs
  {
    if cs != [] {
      var c := cs[0];
      if c.Cancel? && x.polling != Some(c.id) && c.id in x.tasks && c.id in x.shared {
        NoSpawnKeepsNextId(Complete(x.(tasks := x.tasks - {c.id}), c.id, Cancelled, WasCancelled), c.onDrop);
      }
      NoSpawnKeepsNextId(Do(x, c), cs[1..]);
    }
  }

  lemma {:induction false} NotHitSurvives(x: Exec, cs: seq<Call>, t: TaskId)
    requires !Hits(cs, t) && t in x.tasks && t < x.nextId
    ensures t in DoAll(x, cs).tasks && DoAll(x, cs).tasks[t] == x.tasks[t] && t < DoAll(x, cs).nextId
    decreases cs
  {
    if cs != [] {
      var c := cs[0];
      if c.Cancel? && x.polling != Some(c.id) && c.id in x.tasks && c.id in x.shared {
        NotHitSurvives(Complete(x.(tasks := x.tasks - {c.id}), c.id, Cancelled, WasCancelled), c.onDrop, t);
      }
      NotHitSurvives(Do(x, c), cs[1..], t);
    }
  }

  /** `ids` lists the live tasks at or above the watermark, once each, in whatever order the map yields them. */
  ghost predicate Survivors(x: Exec, w: TaskId, ids: seq<TaskId>) {
    NoDuplicates(ids) && forall id :: id in ids <==> id in x.tasks && id >= w
  }

  lemma {:induction false} CancelEachRemoves(x: Exec, ids: seq<TaskId>, drops: seq<seq<Call>>)
    requires WF(x) && (forall k :: 0 <= k < |ids| ==> ids[k] < x.nextId && x.polling != Some(ids[k]))
    ensures var y := CancelEach(x, ids, drops);
            && (forall id :: id in ids ==> id !in y.tasks)
            && ((forall k :: 0 <= k < |drops| && k < |ids| ==> NeverSpawns(drops[k])) ==> y.nextId == x.nextId)
    decreases |ids|
  {
    if ids != [] {
      var calls := if drops == [] then [] else drops[0];
      var rest := if drops == [] then [] else drops[1..];
      var c := Cancel(ids[0], calls);
      var x' := Do(x, c);
      DoKeepsWF(x, c);
      DoExtends(x, c);
      CancelRemoves(x, ids[0], calls);
      var tail := ids[1..];
      assert forall k :: 0 <= k < |tail| ==> tail[k] == ids[k + 1];
      assert ids == [ids[0]] + tail;
      CancelEachRemoves(x', tail, rest);
      CancelEachOk(x', tail, rest);
    }
  }

  lemma CancelRemoves(x: Exec, id: TaskId, calls: seq<Call>)
    requires WF(x) && id < x.nextId && x.polling != Some(id)
    ensures id !in Do(x, Cancel(id, calls)).tasks
    ensures NeverSpawns(calls) ==> Do(x, Cancel(id, calls)).nextId == x.nextId
  {
    if id in x.tasks {
      var m := Complete(x.(tasks := x.tasks - {id}), id, Cancelled, WasCancelled);
      AbortKeepsWF(x, id);
      DoAllExtends(m, calls);
      if NeverSpawns(calls) { NoSpawnKeepsNextId(m, calls); }
    }
  }

  /** A single cancellation, seen from a task that its `Drop` code does not cancel. */
  lemma CancelRemovesExactly(x: Exec, id: TaskId, calls: seq<Call>, t: TaskId)
    requires WF(x) && x.polling != Some(id) && t < x.nextId && !Hits(calls, t)
    ensures var y := Do(x, Cancel(id, calls));
            && (t in y.tasks <==> t in x.tasks && t != id)
            && (t in y.tasks ==> y.tasks[t] == x.tasks[t])
            && WF(y) && y.polling == x.polling && x.nextId <= y.nextId
  {
    var c := Cancel(id, calls);
    DoKeepsWF(x, c);
    DoExtends(x, c);
    if t == id {
      CancelRemoves(x, id, calls);
    } else if t in x.tasks {
      CancelSpares(x, id, calls, t);
    }
  }

  /** Cancelling a list removes exactly the tasks listed, and those the `Drop` code itself cancels. */
  lemma {:induction false} CancelEachRemovesExactly(x: Exec, ids: seq<TaskId>, drops: seq<seq<Call>>, t: TaskId)
    requires WF(x) && (forall k :: 0 <= k < |ids| ==> x.polling != Some(ids[k])) && t < x.nextId
    requires forall k :: 0 <= k < |drops| && k < |ids| ==> !Hits(drops[k], t)
    ensures var y := CancelEach(x, ids, drops);
            && (t in y.tasks <==> t in x.tasks && t !in ids)
            && (t in y.tasks ==> y.tasks[t] == x.tasks[t])
    decreases |ids|
  {
    if ids != [] {
      var calls := if drops == [] then [] else drops[0];
      var rest := if drops == [] then [] else drops[1..];
      var tail := ids[1..];
      assert ids == [ids[0]] + tail;
      CancelRemovesExactly(x, ids[0], calls, t);
      CancelEachRemovesExactly(Do(x, Cancel(ids[0], calls)), tail, rest, t);
    }
  }

  /**
   Test isolation. The runner's task, older than the watermark taken before the test was
   spawned, cancels the survivors from inside its own poll. Then no task spawned by the
   test is live or polled ever again, however the poll and the rest of the regression
   continue, although stale ids may remain queued. Assumes `Drop` code does not spawn.
   */
  lemma NoTaskSurvivesItsTest(x: Exec, runner: TaskId, w: TaskId, ids: seq<TaskId>, drops: seq<seq<Call>>,
                              rest: seq<Call>, end: PollEnd, run: seq<Event>, id: TaskId)
    requires WF(x) && x.polling == Some(runner) && x.unwinding == None && runner < w
    requires Survivors(x, w, ids) && forall k :: 0 <= k < |drops| && k < |ids| ==> NeverSpawns(drops[k])
    requires w <= id < CancelEach(x, ids, drops).nextId
    ensures runner in DoAll(CancelEach(x, ids, drops), rest).shared
    ensures var cleaned := CancelEach(x, ids, drops);
            var z := After(EndPoll(DoAll(cleaned, rest), runner, end), run);
            id !in cleaned.tasks && id !in z.tasks && !PolledBetween(cleaned, z, id)
  {
    var cleaned := CancelEach(x, ids, drops);
    forall k | 0 <= k < |ids| ensures ids[k] < x.nextId && ids[k] >= w {
      assert ids[k] in ids;
      assert LiveOk(x, ids[k]);
    }
    CancelEachRemoves(x, ids, drops);
    CancelEachOk(x, ids, drops);
    assert Dead(cleaned, id);
    RestOfRunIsLater(cleaned, runner, rest, end, run);
  }

  /** The states in the middle of a poll, where user code makes its calls, are well formed. */
  lemma MidPollOk(run: seq<Event>, calls: seq<Call>)
    requires var d := DrainWoken(After(NewExec(), run));
             d.runQueue != [] && d.runQueue[0] in d.tasks
    ensures var d := DrainWoken(After(NewExec(), run));
            && d.runQueue[0] in d.shared
            && var m := DoAll(BeginPoll(d.(runQueue := d.runQueue[1..]), d.runQueue[0]), calls);
               WF(m) && m.polling == Some(d.runQueue[0]) && m.unwinding == None
  {
    NewIsWF();
    RunOk(NewExec(), run);
    DrainOk(After(NewExec(), run));
    var d := DrainWoken(After(NewExec(), run));
    BeginPollKeepsWF(d);
    var b := BeginPoll(d.(runQueue := d.runQueue[1..]), d.runQueue[0]);
    DoAllKeepsWF(b, calls);
    DoAllExtends(b, calls);
  }

  lemma RestOfRunIsLater(x: Exec, id: TaskId, rest: seq<Call>, end: PollEnd, run: seq<Event>)
    requires WF(x) && x.polling == Some(id) && x.unwinding == None
    ensures id in DoAll(x, rest).shared
    ensures Later(x, After(EndPoll(DoAll(x, rest), id, end), run))
  {
    DoAllKeepsWF(x, rest);
    DoAllExtends(x, rest);
    var m := DoAll(x, rest);
    ExtendsIsLater(x, m);
    EndPollOk(m, id, end);
    var e := EndPoll(m, id, end);
    RunOk(e, run);
    LaterTransitive(x, m, e);
    LaterTransitive(x, e, After(e, run));
  }

  /** Cancelling a test's survivors leaves an older task alone, unless their `Drop` code cancels it. */
  lemma OlderTasksUnaffected(x: Exec, w: TaskId, ids: seq<TaskId>, drops: seq<seq<Call>>, t: TaskId)
    requires WF(x) && Survivors(x, w, ids) && t in x.tasks && t < w
    requires forall k :: 0 <= k < |drops| && k < |ids| ==> !Hits(drops[k], t)
    ensures var y := CancelEach(x, ids, drops); t in y.tasks && y.tasks[t] == x.tasks[t]
  {
    assert LiveOk(x, t);
    CancelEachSpares(x, ids, drops, t);
  }

  lemma {:induction false} CancelEachSpares(x: Exec, ids: seq<TaskId>, drops: seq<seq<Call>>, t: TaskId)
    requires t in x.tasks && t < x.nextId && t !in ids
    requires forall k :: 0 <= k < |drops| && k < |ids| ==> !Hits(drops[k], t)
    ensures var y := CancelEach(x, ids, drops); t in y.tasks && y.tasks[t] == x.tasks[t]
    decreases |ids|
  {
    if ids != [] {
      var calls := if drops == [] then [] else drops[0];
      CancelSpares(x, ids[0], calls, t);
      CancelEachSpares(Do(x, Cancel(ids[0], calls)), ids[1..], if drops == [] then [] else drops[1..], t);
    }
  }

  lemma CancelSpares(x: Exec, id: TaskId, calls: seq<Call>, t: TaskId)
    requires t in x.tasks && t < x.nextId && t != id && !Hits(calls, t)
    ensures var y := Do(x, Cancel(id, calls)); t in y.tasks && y.tasks[t] == x.tasks[t] && t < y.nextId
  {
    var c := Cancel(id, calls);
    assert [c][1..] == [] && !Hits([c], t);
    assert DoAll(x, [c]) == Do(x, c);
    NotHitSurvives(x, [c], t);
  }

  // Exactly when isolation holds.

  ghost predicate NoCancels(cs: seq<Call>) { forall i :: 0 <= i < |cs| ==> !cs[i].Cancel? }
  ghost predicate Spawns(cs: seq<Call>) { exists i :: 0 <= i < |cs| && cs[i].Spawn? }

  lemma {:induction false} NoCancelsHitsNothing(cs: seq<Call>, t: TaskId)
    requires NoCancels(cs)
    ensures !Hits(cs, t)
    decreases |cs|
  {
    if cs != [] { NoCancelsHitsNothing(cs[1..], t); }
  }

  /** Tasks with ids from `n` up are all live. */
  ghost predicate AllLiveFrom(x: Exec, n: TaskId) { forall id :: n <= id < x.nextId ==> id in x.tasks }

  lemma {:induction false} SpawnedStayLive(x: Exec, cs: seq<Call>, n: TaskId)
    requires NoCancels(cs) && n <= x.nextId && AllLiveFrom(x, n)
    ensures var y := DoAll(x, cs);
            x.nextId <= y.nextId && AllLiveFrom(y, n) && (x.nextId < y.nextId <==> Spawns(cs))
    decreases |cs|
  {
    if cs != [] {
      var tail := cs[1..];
      assert cs == [cs[0]] + tail;
      SpawnedStayLive(Do(x, cs[0]), tail, n);
      assert Spawns(cs) <==> cs[0].Spawn? || Spawns(tail) by { SpawnsSplit(cs); }
    }
  }

  lemma SpawnsSplit(cs: seq<Call>)
    requires cs != []
    ensures Spawns(cs) <==> cs[0].Spawn? || Spawns(cs[1..])
  {
    if Spawns(cs[1..]) {
      var i :| 0 <= i < |cs[1..]| && cs[1..][i].Spawn?;
      assert cs[i + 1].Spawn?;
    }
    if Spawns(cs) && !cs[0].Spawn? {
      var i :| 0 <= i < |cs| && cs[i].Spawn?;
      assert cs[1..][i - 1].Spawn?;
    }
  }

  /** Some `Drop` code that is run spawns. */
  ghost predicate SomeDropSpawns(ids: seq<TaskId>, drops: seq<seq<Call>>) {
    exists k :: 0 <= k < |drops| && k < |ids| && Spawns(drops[k])
  }

  lemma SomeDropSplit(ids: seq<TaskId>, drops: seq<seq<Call>>)
    requires ids != []
    ensures SomeDropSpawns(ids, drops) <==>
            drops != [] && (Spawns(drops[0]) || SomeDropSpawns(ids[1..], drops[1..]))
  {
    if drops != [] {
      if SomeDropSpawns(ids[1..], drops[1..]) {
        var k :| 0 <= k < |drops[1..]| && k < |ids[1..]| && Spawns(drops[1..][k]);
        assert Spawns(drops[k + 1]);
      }
      if SomeDropSpawns(ids, drops) && !Spawns(drops[0]) {
        var k :| 0 <= k < |drops| && k < |ids| && Spawns(drops[k]);
        assert Spawns(drops[1..][k - 1]);
      }
    }
  }

  /** One cancellation of a live task whose `Drop` code cancels nothing. */
  lemma CancelThenSpawn(x: Exec, id: TaskId, calls: seq<Call>, n: TaskId)
    requires WF(x) && id in x.tasks && x.polling != Some(id) && id < n <= x.nextId
    requires NoCancels(calls) && AllLiveFrom(x, n)
    ensures var y := Do(x, Cancel(id, calls));
            x.nextId <= y.nextId && AllLiveFrom(y, n) && (x.nextId < y.nextId <==> Spawns(calls))
  {
    assert LiveOk(x, id);
    SpawnedStayLive(Complete(x.(tasks := x.tasks - {id}), id, Cancelled, WasCancelled), calls, n);
  }

  lemma {:induction false} CancelEachThenSpawn(x: Exec, ids: seq<TaskId>, drops: seq<seq<Call>>, n: TaskId)
    requires WF(x) && NoDuplicates(ids) && n <= x.nextId && AllLiveFrom(x, n)
    requires forall k :: 0 <= k < |ids| ==> ids[k] in x.tasks && x.polling != Some(ids[k]) && ids[k] < n
    requires forall k :: 0 <= k < |drops| && k < |ids| ==> NoCancels(drops[k])
    ensures var y := CancelEach(x, ids, drops);
            x.nextId <= y.nextId && AllLiveFrom(y, n) && (x.nextId < y.nextId <==> SomeDropSpawns(ids, drops))
    decreases |ids|
  {
    if ids != [] {
      var calls := if drops == [] then [] else drops[0];
      var rest := if drops == [] then [] else drops[1..];
      var tail := ids[1..];
      var y := Do(x, Cancel(ids[0], calls));
      CancelThenSpawn(x, ids[0], calls, n);
      forall k | 0 <= k < |tail| ensures tail[k] in y.tasks && tail[k] != ids[0] && y.polling == x.polling && WF(y) {
        NoCancelsHitsNothing(calls, tail[k]);
        CancelRemovesExactly(x, ids[0], calls, tail[k]);
      }
      DoKeepsWF(x, Cancel(ids[0], calls));
      CancelEachThenSpawn(y, tail, rest, n);
      SomeDropSplit(ids, drops);
    }
  }

  /**
   Exactly when a test's tasks are all gone: for `Drop` code that cancels nothing itself, no
   task at or above the watermark is live after the survivors were cancelled if and only if
   none of the `Drop` code that was run spawned.
   */
  lemma IsolationHoldsIff(x: Exec, w: TaskId, ids: seq<TaskId>, drops: seq<seq<Call>>)
    requires WF(x) && w <= x.nextId && Survivors(x, w, ids)
    requires forall k :: 0 <= k < |ids| ==> x.polling != Some(ids[k])
    requires forall k :: 0 <= k < |drops| && k < |ids| ==> NoCancels(drops[k])
    ensures (forall id :: id >= w ==> id !in CancelEach(x, ids, drops).tasks) <==> !SomeDropSpawns(ids, drops)
  {
    var y := CancelEach(x, ids, drops);
    forall k | 0 <= k < |ids| ensures ids[k] in x.tasks && ids[k] < x.nextId {
      assert ids[k] in ids;
      assert LiveOk(x, ids[k]);
    }
    CancelEachThenSpawn(x, ids, drops, x.nextId);
    CancelEachOk(x, ids, drops);
    if x.nextId < y.nextId { assert x.nextId in y.tasks; }
    forall id | w <= id && id in y.tasks ensures id >= x.nextId {
      if id < x.nextId { NotListedNotLive(x, w, ids, drops, id); }
    }
    forall id | id in y.tasks ensures id < y.nextId { assert LiveOk(y, id); }
  }

  lemma NotListedNotLive(x: Exec, w: TaskId, ids: seq<TaskId>, drops: seq<seq<Call>>, id: TaskId)
    requires WF(x) && Survivors(x, w, ids) && w <= id < x.nextId
    requires forall k :: 0 <= k < |ids| ==> ids[k] < x.nextId && x.polling != Some(ids[k])
    ensures id !in CancelEach(x, ids, drops).tasks
  {
    CancelEachRemoves(x, ids, drops);
    CancelEachOk(x, ids, drops);
  }

  /** The condition can fail: a task spawned by `Drop` code outlives the test. */
  lemma SpawningDropEscapes()
    ensures var x := BeginPoll(SpawnTask(SpawnTask(NewExec())).(runQueue := [2]), 1);
            && Survivors(x, 2, [2])
            && 3 in CancelEach(x, [2], [[Spawn]]).tasks
  {
    var x := BeginPoll(SpawnTask(SpawnTask(NewExec())).(runQueue := [2]), 1);
    assert x.tasks.Keys == {1, 2};
    var m := Complete(x.(tasks := x.tasks - {2}), 2, Cancelled, WasCancelled);
    assert DoAll(m, [Spawn]) == SpawnTask(m) by {
      assert [Spawn][1..] == [];
    }
  }
}

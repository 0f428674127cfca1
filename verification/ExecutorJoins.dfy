/**
 Awaiting a task: whoever is parked on a task's handle is told when the task completes,
 whether it finishes, panics or is cancelled, and whatever else runs in between.
 */
module ExecutorJoins {
  import opened Basics
  import opened ExecutorModel
  import Runs = ExecutorRuns

  predicate Parked(x: Exec, id: TaskId, j: TaskId) { id in x.shared && j in x.shared[id].joiners }

  /**
   `j`, parked on `id` when `n` polls had been made, is still parked, or has been woken and
   not polled yet, or has been polled since.
   */
  ghost predicate Minded(n: nat, x: Exec, id: TaskId, j: TaskId) {
    Parked(x, id, j) || j in x.unpolled || exists k :: n <= k < |x.polls| && x.polls[k] == j
  }

  /** What keeps a joiner minded: it stays parked or is woken, and nothing is forgotten. */
  predicate Minds(x: Exec, y: Exec, id: TaskId, j: TaskId) {
    && x.unpolled <= y.unpolled && x.polls <= y.polls
    && (Parked(x, id, j) ==> Parked(y, id, j) || j in y.unpolled)
  }

  lemma MindsKeeps(n: nat, x: Exec, y: Exec, id: TaskId, j: TaskId)
    requires Minded(n, x, id, j) && Minds(x, y, id, j)
    ensures Minded(n, y, id, j)
  {
    if k :| n <= k < |x.polls| && x.polls[k] == j { assert y.polls[k] == j; }
  }

  lemma MindsTransitive(x: Exec, y: Exec, z: Exec, id: TaskId, j: TaskId)
    requires Minds(x, y, id, j) && Minds(y, z, id, j)
    ensures Minds(x, z, id, j)
  {}

  lemma CompleteMinds(x: Exec, done: TaskId, s: TaskState, r: Outcome, id: TaskId, j: TaskId)
    requires done in x.shared
    ensures Minds(x, Complete(x, done, s, r), id, j)
  {}

  lemma SimpleCallMinds(x: Exec, c: Call, id: TaskId, j: TaskId)
    requires WF(x) && !c.Cancel?
    ensures Minds(x, Do(x, c), id, j)
  {}

  lemma {:induction false} DoMinds(x: Exec, c: Call, id: TaskId, j: TaskId)
    requires WF(x)
    ensures Minds(x, Do(x, c), id, j)
    decreases c
  {
    if !c.Cancel? {
      SimpleCallMinds(x, c, id, j);
    } else if x.polling != Some(c.id) && c.id in x.tasks {
      assert LiveOk(x, c.id);
      var gone := x.(tasks := x.tasks - {c.id});
      var y := Complete(gone, c.id, Cancelled, WasCancelled);
      CompleteMinds(gone, c.id, Cancelled, WasCancelled, id, j);
      AbortKeepsWF(x, c.id);
      DoAllMinds(y, c.onDrop, id, j);
      MindsTransitive(x, y, Do(x, c), id, j);
    }
  }

  lemma {:induction false} DoAllMinds(x: Exec, cs: seq<Call>, id: TaskId, j: TaskId)
    requires WF(x)
    ensures Minds(x, DoAll(x, cs), id, j)
    decreases cs
  {
    if cs != [] {
      DoMinds(x, cs[0], id, j);
      DoKeepsWF(x, cs[0]);
      DoAllMinds(Do(x, cs[0]), cs[1..], id, j);
      MindsTransitive(x, Do(x, cs[0]), DoAll(x, cs), id, j);
    }
  }

  lemma {:induction false} CancelEachMinds(x: Exec, ids: seq<TaskId>, drops: seq<seq<Call>>, id: TaskId, j: TaskId)
    requires WF(x)
    ensures Minds(x, CancelEach(x, ids, drops), id, j)
    decreases |ids|
  {
    if ids != [] {
      var c := Cancel(ids[0], if drops == [] then [] else drops[0]);
      DoMinds(x, c, id, j);
      DoKeepsWF(x, c);
      CancelEachMinds(Do(x, c), ids[1..], if drops == [] then [] else drops[1..], id, j);
      MindsTransitive(x, Do(x, c), CancelEach(x, ids, drops), id, j);
    }
  }

  lemma {:induction false} ScheduleMinds(x: Exec, ids: seq<TaskId>, id: TaskId, j: TaskId)
    ensures Minds(x, Schedule(x, ids), id, j)
    decreases |ids|
  {
    if ids != [] {
      var t := ids[0];
      var y := if t in x.tasks && t in x.shared && x.tasks[t] == Pending
               then SetState(x, t, Scheduled).(runQueue := x.runQueue + [t]) else x;
      ScheduleMinds(y, ids[1..], id, j);
      MindsTransitive(x, y, Schedule(x, ids), id, j);
    }
  }

  /** Starting a poll of `j` itself is what being told comes to. */
  lemma BeginPollMinded(n: nat, x: Exec, t: TaskId, id: TaskId, j: TaskId)
    requires t in x.shared && n <= |x.polls| && Minded(n, x, id, j)
    ensures Minded(n, BeginPoll(x, t), id, j)
  {
    var y := BeginPoll(x, t);
    if t == j {
      assert y.polls[|x.polls|] == j;
    } else if k :| n <= k < |x.polls| && x.polls[k] == j {
      assert y.polls[k] == j;
    }
  }

  lemma EndPollMinds(x: Exec, t: TaskId, end: PollEnd, id: TaskId, j: TaskId)
    requires WF(x) && x.polling == Some(t) && x.unwinding == None
    ensures t in x.shared && Minds(x, EndPoll(x, t, end), id, j)
  {
    assert LiveOk(x, t);
    match end
    case Ready(v) => CompleteMinds(x, t, Finished, Returned(v), id, j);
    case Pend(drops) =>
      var y := SetState(x, t, Pending).(polling := None, cancelPending := []);
      PendKeepsWF(x, t);
      CancelEachMinds(y, x.cancelPending, drops, id, j);
      MindsTransitive(x, y, EndPoll(x, t, end), id, j);
    case Panic(onDrop) =>
      PanicMinds(x, t, onDrop, id, j);
  }

  lemma PanicMinds(x: Exec, t: TaskId, onDrop: seq<Call>, id: TaskId, j: TaskId)
    requires WF(x) && x.polling == Some(t) && x.unwinding == None && t in x.shared
    ensures Minds(x, EndPoll(x, t, Panic(onDrop)), id, j)
  {
    var y := x.(polling := None, tasks := x.tasks - {t}, unwinding := Some(t));
    var z := DoAll(y, onDrop);
    UnwindKeepsWF(x, t);
    DoAllMinds(y, onDrop, id, j);
    MindsTransitive(x, y, z, id, j);
    DropInPanicOk(x, t, onDrop);
    CompleteMinds(z, t, Failed, Panicked, id, j);
    MindsTransitive(x, z, EndPoll(x, t, Panic(onDrop)), id, j);
  }

  lemma PollMinded(n: nat, x: Exec, p: Poll, id: TaskId, j: TaskId)
    requires Quiet(x) && x.runQueue != [] && x.runQueue[0] in x.tasks && n <= |x.polls| && Minded(n, x, id, j)
    ensures Minded(n, PollTask(x.(runQueue := x.runQueue[1..]), x.runQueue[0], p), id, j)
  {
    var t, popped := x.runQueue[0], x.(runQueue := x.runQueue[1..]);
    assert LiveOk(x, t);
    MindsKeeps(n, x, popped, id, j);
    BeginPollMinded(n, popped, t, id, j);
    BeginPollKeepsWF(x);
    var b := BeginPoll(popped, t);
    DoAllMinds(b, p.calls, id, j);
    DoAllKeepsWF(b, p.calls);
    DoAllExtends(b, p.calls);
    var m := DoAll(b, p.calls);
    MindsKeeps(n, b, m, id, j);
    EndPollMinds(m, t, p.end, id, j);
    MindsKeeps(n, m, EndPoll(m, t, p.end), id, j);
  }

  lemma StepMinded(n: nat, x: Exec, e: Runs.Event, id: TaskId, j: TaskId)
    requires Quiet(x) && n <= |x.polls| && Minded(n, x, id, j)
    ensures Minded(n, Runs.Step(x, e), id, j)
  {
    match e
    case Outside(c) =>
      DoMinds(x, c, id, j);
      MindsKeeps(n, x, Do(x, c), id, j);
    case LoopTurn(p) =>
      var cleared, d := x.(woken := []), DrainWoken(x);
      ScheduleMinds(cleared, x.woken, id, j);
      MindsTransitive(x, cleared, d, id, j);
      MindsKeeps(n, x, d, id, j);
      DrainOk(x);
      if d.runQueue != [] {
        if d.runQueue[0] in d.tasks {
          PollMinded(n, d, p, id, j);
        } else {
          MindsKeeps(n, d, d.(runQueue := d.runQueue[1..]), id, j);
        }
      }
  }

  lemma {:induction false} RunMinded(n: nat, x: Exec, run: seq<Runs.Event>, id: TaskId, j: TaskId)
    requires Quiet(x) && n <= |x.polls| && Minded(n, x, id, j)
    ensures Minded(n, Runs.After(x, run), id, j)
    decreases |run|
  {
    if run != [] {
      StepMinded(n, x, run[0], id, j);
      Runs.StepOk(x, run[0]);
      RunMinded(n, Runs.Step(x, run[0]), run[1..], id, j);
    }
  }

  /**
   No lost completion. If `j` is parked on `id` after some run and `id` has completed after
   any continuation, then `j` has been polled in between or is woken and waiting for its
   poll; and a completed task has nobody parked on it.
   */
  lemma CompletionWakesJoiners(run: seq<Runs.Event>, more: seq<Runs.Event>, id: TaskId, j: TaskId)
    requires Parked(Runs.After(NewExec(), run), id, j)
    requires id in Runs.After(Runs.After(NewExec(), run), more).shared
    requires Terminal(Runs.After(Runs.After(NewExec(), run), more).shared[id].state)
    ensures var x := Runs.After(NewExec(), run);
            var y := Runs.After(x, more);
            y.shared[id].joiners == [] && (j in y.unpolled || Runs.PolledBetween(x, y, j))
  {
    var x := Runs.After(NewExec(), run);
    var y := Runs.After(x, more);
    NewIsWF();
    Runs.RunOk(NewExec(), run);
    Runs.RunOk(x, more);
    RunMinded(|x.polls|, x, more, id, j);
    assert SharedOk(y, id);
  }

  /** So when the loop next ends, every surviving joiner of a completed task has been polled again. */
  lemma JoinersPolledWhenIdle(run: seq<Runs.Event>, more: seq<Runs.Event>, id: TaskId, j: TaskId)
    requires var x := Runs.After(NewExec(), run);
             var y := Runs.After(x, more);
             && Parked(x, id, j) && id in y.shared && Terminal(y.shared[id].state)
             && j in y.tasks && DrainWoken(y).runQueue == []
    ensures var x := Runs.After(NewExec(), run);
            Runs.PolledBetween(x, Runs.After(x, more), j)
  {
    var x := Runs.After(NewExec(), run);
    var y := Runs.After(x, more);
    CompletionWakesJoiners(run, more, id, j);
    NewIsWF();
    Runs.RunOk(NewExec(), run);
    Runs.RunOk(x, more);
    DrainOk(y);
    ScheduleKeepsUnpolled(y.(woken := []), y.woken);
    assert LiveOk(DrainWoken(y), j);
  }

  lemma {:induction false} ScheduleKeepsUnpolled(x: Exec, ids: seq<TaskId>)
    ensures Schedule(x, ids).unpolled == x.unpolled
    decreases |ids|
  {
    if ids != [] {
      var t := ids[0];
      var y := if t in x.tasks && t in x.shared && x.tasks[t] == Pending
               then SetState(x, t, Scheduled).(runQueue := x.runQueue + [t]) else x;
      ScheduleKeepsUnpolled(y, ids[1..]);
    }
  }
}

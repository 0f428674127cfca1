/**
 What awaiting a task yields: the outcome its last poll, its panic or its cancellation left
 behind, kept until somebody takes it, and handed out once.
 */
module ExecutorResults {
  import opened Basics
  import opened ExecutorModel
  import Runs = ExecutorRuns

  // ---------------------------------------------------------------------------
  // A completed task's cell is left alone until its result is taken
  // ---------------------------------------------------------------------------

  /** Some call in the list, at any depth, takes the result of `id`. */
  ghost predicate Takes(cs: seq<Call>, id: TaskId)
    decreases cs
  {
    cs != [] && (TakesNow(cs[0], id) || (cs[0].Cancel? && Takes(cs[0].onDrop, id)) || Takes(cs[1..], id))
  }

  predicate TakesNow(c: Call, id: TaskId) { (c.Join? || c.TakeResult?) && c.id == id }

  ghost predicate CallTakes(c: Call, id: TaskId) { TakesNow(c, id) || (c.Cancel? && Takes(c.onDrop, id)) }

  ghost predicate EndTakes(end: PollEnd, id: TaskId) {
    (end.Pend? && exists k :: 0 <= k < |end.drops| && Takes(end.drops[k], id))
    || (end.Panic? && Takes(end.onDrop, id))
  }

  ghost predicate EventTakes(e: Runs.Event, id: TaskId) {
    match e
    case Outside(c) => CallTakes(c, id)
    case LoopTurn(p) => Takes(p.calls, id) || EndTakes(p.end, id)
  }

  predicate Completed(x: Exec, id: TaskId) { id in x.shared && Terminal(x.shared[id].state) }

  predicate SameCell(x: Exec, y: Exec, id: TaskId) { id in x.shared && id in y.shared && y.shared[id] == x.shared[id] }

  lemma CompletedIsDead(x: Exec, id: TaskId)
    requires WF(x) && Completed(x, id)
    ensures id !in x.tasks && x.polling != Some(id) && x.unwinding != Some(id) && id < x.nextId
  {
    assert SharedOk(x, id);
  }

  lemma {:induction false} DoKeepsCell(x: Exec, c: Call, id: TaskId)
    requires WF(x) && Completed(x, id) && !CallTakes(c, id)
    ensures SameCell(x, Do(x, c), id)
    decreases c
  {
    CompletedIsDead(x, id);
    if c.Cancel? && x.polling != Some(c.id) && c.id in x.tasks {
      AbortKeepsWF(x, c.id);
      DoAllKeepsCell(Complete(x.(tasks := x.tasks - {c.id}), c.id, Cancelled, WasCancelled), c.onDrop, id);
    }
  }

  lemma {:induction false} DoAllKeepsCell(x: Exec, cs: seq<Call>, id: TaskId)
    requires WF(x) && Completed(x, id) && !Takes(cs, id)
    ensures SameCell(x, DoAll(x, cs), id)
    decreases cs
  {
    if cs != [] {
      DoKeepsCell(x, cs[0], id);
      DoKeepsWF(x, cs[0]);
      DoAllKeepsCell(Do(x, cs[0]), cs[1..], id);
    }
  }

  lemma {:induction false} CancelEachKeepsCell(x: Exec, ids: seq<TaskId>, drops: seq<seq<Call>>, id: TaskId)
    requires WF(x) && Completed(x, id) && forall k :: 0 <= k < |drops| ==> !Takes(drops[k], id)
    ensures SameCell(x, CancelEach(x, ids, drops), id)
    decreases |ids|
  {
    if ids != [] {
      var c := Cancel(ids[0], if drops == [] then [] else drops[0]);
      DoKeepsCell(x, c, id);
      DoKeepsWF(x, c);
      CancelEachKeepsCell(Do(x, c), ids[1..], if drops == [] then [] else drops[1..], id);
    }
  }

  lemma {:induction false} ScheduleKeepsCell(x: Exec, ids: seq<TaskId>, id: TaskId)
    requires id in x.shared && id !in x.tasks
    ensures SameCell(x, Schedule(x, ids), id)
    decreases |ids|
  {
    if ids != [] {
      var t := ids[0];
      var y := if t in x.tasks && t in x.shared && x.tasks[t] == Pending
               then SetState(x, t, Scheduled).(runQueue := x.runQueue + [t]) else x;
      ScheduleKeepsCell(y, ids[1..], id);
    }
  }

  lemma PanicKeepsCell(x: Exec, t: TaskId, onDrop: seq<Call>, id: TaskId)
    requires WF(x) && x.polling == Some(t) && x.unwinding == None && Completed(x, id) && !Takes(onDrop, id)
    ensures t in x.shared && SameCell(x, EndPoll(x, t, Panic(onDrop)), id)
  {
    assert LiveOk(x, t);
    CompletedIsDead(x, id);
    UnwindKeepsWF(x, t);
    DoAllKeepsCell(x.(polling := None, tasks := x.tasks - {t}, unwinding := Some(t)), onDrop, id);
  }

  lemma EndPollKeepsCell(x: Exec, t: TaskId, end: PollEnd, id: TaskId)
    requires WF(x) && x.polling == Some(t) && x.unwinding == None && Completed(x, id) && !EndTakes(end, id)
    ensures t in x.shared && SameCell(x, EndPoll(x, t, end), id)
  {
    assert LiveOk(x, t);
    CompletedIsDead(x, id);
    match end
    case Ready(v) =>
    case Pend(drops) =>
      PendKeepsWF(x, t);
      CancelEachKeepsCell(SetState(x, t, Pending).(polling := None, cancelPending := []), x.cancelPending, drops, id);
    case Panic(onDrop) => PanicKeepsCell(x, t, onDrop, id);
  }

  lemma PollKeepsCell(x: Exec, p: Poll, id: TaskId)
    requires Quiet(x) && x.runQueue != [] && x.runQueue[0] in x.tasks && Completed(x, id)
    requires !Takes(p.calls, id) && !EndTakes(p.end, id)
    ensures SameCell(x, PollTask(x.(runQueue := x.runQueue[1..]), x.runQueue[0], p), id)
  {
    var t := x.runQueue[0];
    assert LiveOk(x, t);
    CompletedIsDead(x, id);
    var b := BeginPoll(x.(runQueue := x.runQueue[1..]), t);
    BeginPollKeepsWF(x);
    DoAllKeepsCell(b, p.calls, id);
    DoAllKeepsWF(b, p.calls);
    DoAllExtends(b, p.calls);
    EndPollKeepsCell(DoAll(b, p.calls), t, p.end, id);
  }

  lemma StepKeepsCell(x: Exec, e: Runs.Event, id: TaskId)
    requires Quiet(x) && Completed(x, id) && !EventTakes(e, id)
    ensures SameCell(x, Runs.Step(x, e), id)
  {
    match e
    case Outside(c) => DoKeepsCell(x, c, id);
    case LoopTurn(p) =>
      CompletedIsDead(x, id);
      ScheduleKeepsCell(x.(woken := []), x.woken, id);
      DrainOk(x);
      var d := DrainWoken(x);
      if d.runQueue != [] && d.runQueue[0] in d.tasks { PollKeepsCell(d, p, id); }
  }

  lemma {:induction false} RunKeepsCell(x: Exec, run: seq<Runs.Event>, id: TaskId)
    requires Quiet(x) && Completed(x, id) && forall k :: 0 <= k < |run| ==> !EventTakes(run[k], id)
    ensures SameCell(x, Runs.After(x, run), id)
    decreases |run|
  {
    if run != [] {
      StepKeepsCell(x, run[0], id);
      Runs.StepOk(x, run[0]);
      RunKeepsCell(Runs.Step(x, run[0]), run[1..], id);
    }
  }

  // ---------------------------------------------------------------------------
  // What is stored, and what a handle answers
  // ---------------------------------------------------------------------------

  /** The task `id` is at the head of the queue and live after the drain: the turn polls it. */
  ghost predicate PolledNext(x: Exec, id: TaskId) {
    var d := DrainWoken(x);
    d.runQueue != [] && d.runQueue[0] == id && id in d.tasks
  }

  lemma TurnEnds(x: Exec, p: Poll, id: TaskId) returns (m: Exec)
    requires Quiet(x) && PolledNext(x, id)
    ensures WF(m) && m.polling == Some(id) && m.unwinding == None && id in m.shared
    ensures Turn(x, p) == EndPoll(m, id, p.end)
  {
    DrainOk(x);
    var d := DrainWoken(x);
    assert LiveOk(d, id);
    var b := BeginPoll(d.(runQueue := d.runQueue[1..]), id);
    BeginPollKeepsWF(d);
    DoAllKeepsWF(b, p.calls);
    DoAllExtends(b, p.calls);
    m := DoAll(b, p.calls);
    assert LiveOk(m, id);
  }

  /** A poll that is ready stores its value, and one that panics stores that it did. */
  lemma TurnStores(x: Exec, p: Poll, id: TaskId)
    requires Quiet(x) && PolledNext(x, id) && !p.end.Pend?
    ensures var y := Turn(x, p);
            && id in y.shared
            && (p.end.Ready? ==> y.shared[id] == Shared(Finished, Some(Returned(p.end.value)), []))
            && (p.end.Panic? ==> y.shared[id] == Shared(Failed, Some(Panicked), []))
  {
    var m := TurnEnds(x, p, id);
    if p.end.Panic? { DropInPanicOk(m, id, p.end.onDrop); }
  }

  lemma CancelStores(x: Exec, id: TaskId, onDrop: seq<Call>)
    requires WF(x) && id in x.tasks && x.polling != Some(id) && !Takes(onDrop, id)
    ensures var y := Do(x, Cancel(id, onDrop));
            id in y.shared && y.shared[id] == Shared(Cancelled, Some(WasCancelled), [])
  {
    assert LiveOk(x, id);
    AbortKeepsWF(x, id);
    DoAllKeepsCell(Complete(x.(tasks := x.tasks - {id}), id, Cancelled, WasCancelled), onDrop, id);
  }

  /**
   Awaiting a task yields what its last poll returned. In every run, after a turn whose poll
   of `id` is ready with `v` or panics, and as long as nobody has taken the result, polling
   a handle answers exactly that.
   */
  lemma AwaitYieldsLastPoll(run: seq<Runs.Event>, p: Poll, more: seq<Runs.Event>, id: TaskId)
    requires PolledNext(Runs.After(NewExec(), run), id) && !p.end.Pend?
    requires forall k :: 0 <= k < |more| ==> !EventTakes(more[k], id)
    ensures var z := Runs.After(Turn(Runs.After(NewExec(), run), p), more);
            var outcome := if p.end.Ready? then Returned(p.end.value) else Panicked;
            HandleReply(z, id) == Yields(outcome) && ResultReply(z, id) == Yields(outcome)
  {
    var x := Runs.After(NewExec(), run);
    NewIsWF();
    Runs.RunOk(NewExec(), run);
    TurnStores(x, p, id);
    TurnOk(x, p);
    RunKeepsCell(Turn(x, p), more, id);
  }

  /** A task cancelled from outside its poll yields that it was cancelled, until that is taken. */
  lemma AwaitYieldsCancelled(run: seq<Runs.Event>, id: TaskId, onDrop: seq<Call>, more: seq<Runs.Event>)
    requires id in Runs.After(NewExec(), run).tasks && !Takes(onDrop, id)
    requires forall k :: 0 <= k < |more| ==> !EventTakes(more[k], id)
    ensures var z := Runs.After(Do(Runs.After(NewExec(), run), Cancel(id, onDrop)), more);
            HandleReply(z, id) == Yields(WasCancelled) && ResultReply(z, id) == Yields(WasCancelled)
  {
    var x := Runs.After(NewExec(), run);
    NewIsWF();
    Runs.RunOk(NewExec(), run);
    CancelStores(x, id, onDrop);
    Runs.StepOk(x, Runs.Outside(Cancel(id, onDrop)));
    RunKeepsCell(Do(x, Cancel(id, onDrop)), more, id);
  }

  /**
   The result is handed out once: after a handle of a completed task was polled, or its
   result taken, every later request finds none.
   */
  lemma HandedOutOnce(run: seq<Runs.Event>, c: Call, more: seq<Runs.Event>)
    requires (c.Join? || c.TakeResult?) && Completed(Runs.After(NewExec(), run), c.id)
    ensures var z := Runs.After(Do(Runs.After(NewExec(), run), c), more);
            HandleReply(z, c.id) == InvalidState && ResultReply(z, c.id) == InvalidState
  {
    var x := Runs.After(NewExec(), run);
    var y := Do(x, c);
    NewIsWF();
    Runs.RunOk(NewExec(), run);
    Runs.StepOk(x, Runs.Outside(c));
    Runs.RunOk(y, more);
    assert y.shared[c.id].result == None;
    assert Settled(y, Runs.After(y, more), c.id);
  }
}

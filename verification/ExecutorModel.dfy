/**
 The single-threaded executor of `rustdv-sim/src/executor.rs`, as atomic operations on a value.

 User code runs only inside a poll, in `Drop` code, or between two executor calls. What it
 does is arbitrary: a poll is any list of calls into the executor followed by one of
 Ready, Pending and panic.
 */
module ExecutorModel {
  import opened Basics

  type TaskId = nat

  datatype TaskState = Unstarted | Scheduled | Running | Pending | Finished | Cancelled | Failed

  /** The stored result: the future's value, or why there is none. */
  datatype Outcome = Returned(value: int) | WasCancelled | Panicked

  /** The cell shared with the task's handles; it outlives the executor's entry. */
  datatype Shared = Shared(state: TaskState, result: Option<Outcome>, joiners: seq<TaskId>)

  /**
   The last four fields are history: tasks woken (or spawned) since their last poll began,
   the polls made, the tasks completed, and the task whose panic is being reported.
   */
  datatype Exec = Exec(
    tasks: map<TaskId, TaskState>,
    nextId: TaskId,
    runQueue: seq<TaskId>,
    woken: seq<TaskId>,
    polling: Option<TaskId>,
    cancelPending: seq<TaskId>,
    shared: map<TaskId, Shared>,
    unpolled: set<TaskId>,
    polls: seq<TaskId>,
    completions: seq<TaskId>,
    unwinding: Option<TaskId>)

  function NewExec(): Exec { Exec(map[], 1, [], [], None, [], map[], {}, [], [], None) }

  // ---------------------------------------------------------------------------
  // Calls that user code can make
  // ---------------------------------------------------------------------------

  /** A `Cancel` carries the calls that the dropped future's `Drop` code makes. */
  datatype Call =
    | Wake(id: TaskId)
    | Spawn
    | Cancel(id: TaskId, onDrop: seq<Call>)
    | Join(id: TaskId, waiter: TaskId)  // poll a handle on behalf of task `waiter`
    | TakeResult(id: TaskId)            // `TaskHandle::result`
    | Reenter                           // `run_until_idle` while the loop is running: returns at once

  predicate Terminal(s: TaskState) { s == Finished || s == Cancelled || s == Failed }

  function WakeTask(x: Exec, id: TaskId): Exec {
    x.(woken := x.woken + [id], unpolled := x.unpolled + {id})
  }

  function WakeAll(x: Exec, ids: seq<TaskId>): Exec {
    x.(woken := x.woken + ids, unpolled := x.unpolled + set i | i in ids)
  }

  /** `TaskShared::complete`: store the state and result and wake every joiner. */
  function Complete(x: Exec, id: TaskId, s: TaskState, r: Outcome): Exec
    requires id in x.shared
  {
    var joiners := x.shared[id].joiners;
    WakeAll(x.(shared := x.shared[id := Shared(s, Some(r), [])], completions := x.completions + [id]), joiners)
  }

  function SetState(x: Exec, id: TaskId, s: TaskState): Exec
    requires id in x.shared
  {
    x.(tasks := x.tasks[id := s], shared := x.shared[id := x.shared[id].(state := s)])
  }

  /** `spawn_named`: a fresh id, scheduled at the back of the run queue. */
  function SpawnTask(x: Exec): Exec {
    var id := x.nextId;
    x.(tasks := x.tasks[id := Scheduled],
       nextId := id + 1,
       runQueue := x.runQueue + [id],
       shared := x.shared[id := Shared(Scheduled, None, [])],
       unpolled := x.unpolled + {id})
  }

  function JoinTask(x: Exec, id: TaskId, waiter: TaskId): Exec {
    if id !in x.shared then x
    else if Terminal(x.shared[id].state) then x.(shared := x.shared[id := x.shared[id].(result := None)])
    else x.(shared := x.shared[id := x.shared[id].(joiners := x.shared[id].joiners + [waiter])])
  }

  /** What a handle answers when polled, or asked for its result. */
  datatype Reply = NotYet | Yields(outcome: Outcome) | InvalidState

  function ResultReply(x: Exec, id: TaskId): Reply {
    if id in x.shared && x.shared[id].result.Some? then Yields(x.shared[id].result.value) else InvalidState
  }

  function HandleReply(x: Exec, id: TaskId): Reply {
    if id in x.shared && !Terminal(x.shared[id].state) then NotYet else ResultReply(x, id)
  }

  function Do(x: Exec, c: Call): Exec
    decreases c
  {
    match c
    case Wake(id) => WakeTask(x, id)
    case Spawn => SpawnTask(x)
    case Cancel(id, onDrop) =>
      if x.polling == Some(id) then x.(cancelPending := x.cancelPending + [id])
      else if id in x.tasks && id in x.shared
      then DoAll(Complete(x.(tasks := x.tasks - {id}), id, Cancelled, WasCancelled), onDrop)
      else x
    case Join(id, waiter) => JoinTask(x, id, waiter)
    case TakeResult(id) =>
      if id in x.shared then x.(shared := x.shared[id := x.shared[id].(result := None)]) else x
    case Reenter => x
  }

  function DoAll(x: Exec, cs: seq<Call>): Exec
    decreases cs
  {
    if cs == [] then x else DoAll(Do(x, cs[0]), cs[1..])
  }

  lemma {:induction false} DoAllAppend(x: Exec, cs: seq<Call>, ds: seq<Call>)
    ensures DoAll(x, cs + ds) == DoAll(DoAll(x, cs), ds)
    decreases |cs|
  {
    if cs == [] {
      assert cs + ds == ds;
    } else {
      assert (cs + ds)[1..] == cs[1..] + ds;
      DoAllAppend(Do(x, cs[0]), cs[1..], ds);
    }
  }

  // ---------------------------------------------------------------------------
  // Polling
  // ---------------------------------------------------------------------------

  /** How a poll ends. `drops` and `onDrop` give the `Drop` code of futures dropped then. */
  datatype PollEnd = Ready(value: int) | Pend(drops: seq<seq<Call>>) | Panic(onDrop: seq<Call>)
  datatype Poll = Poll(calls: seq<Call>, end: PollEnd)

  /** `drain_woken`: pending tasks that were woken go to the back of the run queue, in wake order. */
  function Schedule(x: Exec, ids: seq<TaskId>): Exec
    decreases |ids|
  {
    if ids == [] then x
    else
      var id := ids[0];
      var x' := if id in x.tasks && id in x.shared && x.tasks[id] == Pending
                then SetState(x, id, Scheduled).(runQueue := x.runQueue + [id]) else x;
      Schedule(x', ids[1..])
  }

  function DrainWoken(x: Exec): Exec { Schedule(x.(woken := []), x.woken) }

  function BeginPoll(x: Exec, id: TaskId): Exec
    requires id in x.shared
  {
    SetState(x, id, Running).(polling := Some(id), unpolled := x.unpolled - {id}, polls := x.polls + [id])
  }

  /** Cancel tasks one after another: the deferred self-cancellations, or a test's survivors. */
  function CancelEach(x: Exec, ids: seq<TaskId>, drops: seq<seq<Call>>): Exec
    decreases |ids|
  {
    if ids == [] then x
    else CancelEach(Do(x, Cancel(ids[0], if drops == [] then [] else drops[0])), ids[1..],
                        if drops == [] then [] else drops[1..])
  }

  function EndPoll(x: Exec, id: TaskId, end: PollEnd): Exec
    requires id in x.shared
  {
    match end
    case Ready(v) =>
      Complete(x, id, Finished, Returned(v)).(polling := None, tasks := x.tasks - {id})
    case Pend(drops) =>
      var y := (if id in x.tasks then SetState(x, id, Pending) else x).(polling := None, cancelPending := []);
      CancelEach(y, x.cancelPending, drops)
    case Panic(onDrop) =>
      var y := DoAll(x.(polling := None, tasks := x.tasks - {id}, unwinding := Some(id)), onDrop);
      if id in y.shared then Complete(y, id, Failed, Panicked).(unwinding := None) else y
  }

  /** `poll_task`; a stale id is skipped. */
  function PollTask(x: Exec, id: TaskId, p: Poll): Exec {
    if id !in x.tasks || id !in x.shared || x.tasks[id] != Scheduled then x
    else
      var y := DoAll(BeginPoll(x, id), p.calls);
      if id in y.shared then EndPoll(y, id, p.end) else y
  }

  /** One turn of the loop in `run_until_idle`; with nothing to run it only drains. */
  function Turn(x: Exec, p: Poll): Exec {
    var d := DrainWoken(x);
    if d.runQueue == [] then d else PollTask(d.(runQueue := d.runQueue[1..]), d.runQueue[0], p)
  }

  // ---------------------------------------------------------------------------
  // The invariant
  // ---------------------------------------------------------------------------

  /** A live task: scheduled exactly when queued, running exactly when being polled. */
  ghost predicate LiveOk(x: Exec, id: TaskId)
    requires id in x.tasks
  {
    && id in x.shared
    && x.shared[id].state == x.tasks[id] && x.shared[id].result == None
    && (x.tasks[id] == Scheduled || x.tasks[id] == Running || x.tasks[id] == Pending)
    && (x.tasks[id] == Scheduled <==> id in x.runQueue)
    && (x.tasks[id] == Running <==> x.polling == Some(id))
    && (id in x.unpolled ==> id in x.woken || x.tasks[id] == Scheduled)
    && x.unwinding != Some(id)
  }

  predicate Agrees(s: TaskState, r: Outcome) {
    match r
    case Returned(_) => s == Finished
    case WasCancelled => s == Cancelled
    case Panicked => s == Failed
  }

  /** A task ever spawned: completed once, with an agreeing result, exactly when it is not live. */
  ghost predicate SharedOk(x: Exec, id: TaskId)
    requires id in x.shared
  {
    var c := x.shared[id];
    && (id in x.completions <==> Terminal(c.state))
    && (Terminal(c.state) <==> id !in x.tasks && x.unwinding != Some(id))
    && (Terminal(c.state) ==> c.joiners == [] && (c.result.Some? ==> Agrees(c.state, c.result.value)))
    && (!Terminal(c.state) ==> c.result == None)
  }

  ghost predicate WF(x: Exec) {
    && x.nextId >= 1
    && (forall id :: id in x.shared <==> 1 <= id < x.nextId)
    && (forall id :: id in x.tasks ==> LiveOk(x, id))
    && (forall id :: id in x.shared ==> SharedOk(x, id))
    && NoDuplicates(x.runQueue) && (forall id :: id in x.runQueue ==> id in x.shared)
    && NoDuplicates(x.completions) && (forall id :: id in x.completions ==> id in x.shared)
    && (x.polling.Some? ==> x.polling.value in x.tasks)
    && (x.unwinding.Some? ==> x.unwinding.value in x.shared)
    && (forall id :: id in x.cancelPending ==> x.polling == Some(id) || (id !in x.tasks && id in x.shared))
  }

  lemma NewIsWF()
    ensures WF(NewExec())
  {}

  lemma WakeAllKeepsWF(x: Exec, ids: seq<TaskId>)
    requires WF(x)
    ensures WF(WakeAll(x, ids))
  {
    var y := WakeAll(x, ids);
    forall id | id in y.tasks ensures LiveOk(y, id) { assert LiveOk(x, id); }
    forall id | id in y.shared ensures SharedOk(y, id) { assert SharedOk(x, id); }
  }

  lemma SpawnKeepsWF(x: Exec)
    requires WF(x)
    ensures WF(SpawnTask(x))
  {
    var y := SpawnTask(x);
    assert x.nextId !in x.runQueue;
    forall id | id in y.tasks ensures LiveOk(y, id) { assert id in x.tasks ==> LiveOk(x, id); }
    forall id | id in y.shared ensures SharedOk(y, id) { assert id in x.shared ==> SharedOk(x, id); }
  }

  /** Registering a joiner or taking the result touches one cell and not its state. */
  lemma CellKeepsWF(x: Exec, id: TaskId, c: Shared)
    requires WF(x) && id in x.shared && c.state == x.shared[id].state
    requires c.result == x.shared[id].result || c.result == None
    requires c.joiners == x.shared[id].joiners || !Terminal(c.state)
    ensures WF(x.(shared := x.shared[id := c]))
  {
    var y := x.(shared := x.shared[id := c]);
    forall i | i in y.tasks ensures LiveOk(y, i) { assert LiveOk(x, i); }
    forall i | i in y.shared ensures SharedOk(y, i) { assert SharedOk(x, i); }
  }

  /** Dropping a live task that is not being polled completes it as cancelled. */
  lemma AbortKeepsWF(x: Exec, id: TaskId)
    requires WF(x) && id in x.tasks && x.polling != Some(id)
    ensures WF(Complete(x.(tasks := x.tasks - {id}), id, Cancelled, WasCancelled))
  {
    var y := Complete(x.(tasks := x.tasks - {id}), id, Cancelled, WasCancelled);
    assert LiveOk(x, id) && SharedOk(x, id);
    forall i | i in y.tasks ensures LiveOk(y, i) { assert LiveOk(x, i); }
    forall i | i in y.shared ensures SharedOk(y, i) { assert SharedOk(x, i); }
  }

  lemma CellCallKeepsWF(x: Exec, c: Call)
    requires WF(x) && (c.Join? || c.TakeResult?)
    ensures WF(Do(x, c))
  {
    if c.id in x.shared {
      var cell := if c.Join? then JoinTask(x, c.id, c.waiter).shared[c.id] else x.shared[c.id].(result := None);
      CellKeepsWF(x, c.id, cell);
    }
  }

  lemma {:induction false} DoKeepsWF(x: Exec, c: Call)
    requires WF(x)
    ensures WF(Do(x, c))
    decreases c
  {
    match c
    case Wake(id) => WakeAllKeepsWF(x, [id]);
    case Spawn => SpawnKeepsWF(x);
    case Cancel(id, onDrop) =>
      if x.polling == Some(id) {
        DeferKeepsWF(x, id);
      } else if id in x.tasks {
        AbortKeepsWF(x, id);
        DoAllKeepsWF(Complete(x.(tasks := x.tasks - {id}), id, Cancelled, WasCancelled), onDrop);
      }
    case Join(_, _) => CellCallKeepsWF(x, c);
    case TakeResult(_) => CellCallKeepsWF(x, c);
    case Reenter =>
  }

  lemma DeferKeepsWF(x: Exec, id: TaskId)
    requires WF(x) && x.polling == Some(id)
    ensures WF(x.(cancelPending := x.cancelPending + [id]))
  {
    var y := x.(cancelPending := x.cancelPending + [id]);
    forall i | i in y.tasks ensures LiveOk(y, i) { assert LiveOk(x, i); }
    forall i | i in y.shared ensures SharedOk(y, i) { assert SharedOk(x, i); }
  }

  lemma {:induction false} DoAllKeepsWF(x: Exec, cs: seq<Call>)
    requires WF(x)
    ensures WF(DoAll(x, cs))
    decreases cs
  {
    if cs != [] {
      DoKeepsWF(x, cs[0]);
      DoAllKeepsWF(Do(x, cs[0]), cs[1..]);
    }
  }

  // ---------------------------------------------------------------------------
  // Polls keep the invariant
  // ---------------------------------------------------------------------------

  lemma ScheduleOneKeepsWF(x: Exec, id: TaskId)
    requires WF(x) && id in x.tasks && x.tasks[id] == Pending && id in x.shared
    ensures WF(SetState(x, id, Scheduled).(runQueue := x.runQueue + [id]))
  {
    var y := SetState(x, id, Scheduled).(runQueue := x.runQueue + [id]);
    assert LiveOk(x, id) && SharedOk(x, id);
    forall i | i in y.tasks ensures LiveOk(y, i) { assert LiveOk(x, i); }
    forall i | i in y.shared ensures SharedOk(y, i) { assert SharedOk(x, i); }
  }

  /** A wake that has been acted on can be forgotten. */
  lemma ForgetWakeKeepsWF(x: Exec)
    requires WF(x) && x.polling == None && x.woken != []
    requires x.woken[0] in x.tasks ==> x.tasks[x.woken[0]] != Pending
    ensures WF(x.(woken := x.woken[1..]))
  {
    var y := x.(woken := x.woken[1..]);
    forall i | i in y.tasks ensures LiveOk(y, i) { assert LiveOk(x, i); }
    forall i | i in y.shared ensures SharedOk(y, i) { assert SharedOk(x, i); }
  }

  lemma {:induction false} ScheduleKeepsWF(x: Exec, ids: seq<TaskId>)
    requires x.woken == [] && WF(x.(woken := ids)) && x.polling == None
    ensures WF(Schedule(x, ids)) && Schedule(x, ids).woken == [] && Schedule(x, ids).polling == None
    decreases |ids|
  {
    if ids == [] {
      assert x.(woken := ids) == x;
    } else {
      var z := x.(woken := ids);
      var id := ids[0];
      if id in x.tasks && x.tasks[id] == Pending {
        ScheduleOneKeepsWF(z, id);
        ForgetWakeKeepsWF(SetState(z, id, Scheduled).(runQueue := x.runQueue + [id]));
        ScheduleKeepsWF(SetState(x, id, Scheduled).(runQueue := x.runQueue + [id]), ids[1..]);
      } else {
        ForgetWakeKeepsWF(z);
        ScheduleKeepsWF(x, ids[1..]);
      }
    }
  }

  lemma DrainKeepsWF(x: Exec)
    requires WF(x) && x.polling == None
    ensures WF(DrainWoken(x)) && DrainWoken(x).woken == [] && DrainWoken(x).polling == None
  {
    assert x.(woken := []).(woken := x.woken) == x;
    ScheduleKeepsWF(x.(woken := []), x.woken);
  }

  lemma PoppedQueue(q: seq<TaskId>)
    requires q != [] && NoDuplicates(q)
    ensures NoDuplicates(q[1..]) && forall id :: id in q[1..] <==> id in q && id != q[0]
  {
    assert q == [q[0]] + q[1..];
  }

  /** Popping a live id starts its poll. */
  lemma BeginPollKeepsWF(x: Exec)
    requires WF(x) && x.polling == None && x.runQueue != [] && x.runQueue[0] in x.tasks
    ensures WF(BeginPoll(x.(runQueue := x.runQueue[1..]), x.runQueue[0]))
  {
    var id := x.runQueue[0];
    var y := BeginPoll(x.(runQueue := x.runQueue[1..]), id);
    PoppedQueue(x.runQueue);
    assert LiveOk(x, id) && SharedOk(x, id);
    forall i | i in y.tasks ensures LiveOk(y, i) { assert LiveOk(x, i); }
    forall i | i in y.shared ensures SharedOk(y, i) { assert SharedOk(x, i); }
  }

  lemma SkipStaleKeepsWF(x: Exec)
    requires WF(x) && x.polling == None && x.runQueue != [] && x.runQueue[0] !in x.tasks
    ensures WF(x.(runQueue := x.runQueue[1..]))
  {
    var y := x.(runQueue := x.runQueue[1..]);
    PoppedQueue(x.runQueue);
    forall i | i in y.tasks ensures LiveOk(y, i) { assert LiveOk(x, i); }
    forall i | i in y.shared ensures SharedOk(y, i) { assert SharedOk(x, i); }
  }

  lemma ReadyKeepsWF(x: Exec, id: TaskId, v: int)
    requires WF(x) && x.polling == Some(id)
    ensures WF(EndPoll(x, id, Ready(v)))
  {
    var y := EndPoll(x, id, Ready(v));
    assert LiveOk(x, id) && SharedOk(x, id);
    forall i | i in y.tasks ensures LiveOk(y, i) { assert LiveOk(x, i); }
    forall i | i in y.shared ensures SharedOk(y, i) { assert SharedOk(x, i); }
  }

  /** A poll that stays pending; the deferred cancellations are still to be carried out. */
  lemma PendKeepsWF(x: Exec, id: TaskId)
    requires WF(x) && x.polling == Some(id)
    ensures WF(SetState(x, id, Pending).(polling := None, cancelPending := []))
  {
    var y := SetState(x, id, Pending).(polling := None, cancelPending := []);
    assert LiveOk(x, id) && SharedOk(x, id);
    forall i | i in y.tasks ensures LiveOk(y, i) { assert LiveOk(x, i); }
    forall i | i in y.shared ensures SharedOk(y, i) { assert SharedOk(x, i); }
  }

  lemma UnwindKeepsWF(x: Exec, id: TaskId)
    requires WF(x) && x.polling == Some(id) && x.unwinding == None
    ensures WF(x.(polling := None, tasks := x.tasks - {id}, unwinding := Some(id)))
  {
    var y := x.(polling := None, tasks := x.tasks - {id}, unwinding := Some(id));
    assert LiveOk(x, id) && SharedOk(x, id);
    forall i | i in y.tasks ensures LiveOk(y, i) { assert LiveOk(x, i); }
    forall i | i in y.shared ensures SharedOk(y, i) { assert SharedOk(x, i); }
  }

  lemma ReportPanicKeepsWF(x: Exec, id: TaskId)
    requires WF(x) && x.unwinding == Some(id) && id !in x.tasks
    ensures id in x.shared && WF(Complete(x, id, Failed, Panicked).(unwinding := None))
  {
    var y := Complete(x, id, Failed, Panicked).(unwinding := None);
    assert SharedOk(x, id);
    forall i | i in y.tasks ensures LiveOk(y, i) { assert LiveOk(x, i); }
    forall i | i in y.shared ensures SharedOk(y, i) { assert SharedOk(x, i); }
  }

  // ---------------------------------------------------------------------------
  // What calls and polls leave alone
  // ---------------------------------------------------------------------------

  /** A completed task stays as it is, but for its result being taken. */
  ghost predicate Settled(x: Exec, y: Exec, id: TaskId)
    requires id in x.shared
  {
    && id in y.shared
    && (Terminal(x.shared[id].state) ==>
          && y.shared[id].state == x.shared[id].state
          && (y.shared[id].result == x.shared[id].result || y.shared[id].result == None))
  }

  /**
   What user calls can do to the executor: they only append to the run queue, and to a
   task that exists they can do nothing but remove it.
   */
  ghost predicate Extends(x: Exec, y: Exec) {
    && y.polling == x.polling && y.unwinding == x.unwinding && y.polls == x.polls
    && x.nextId <= y.nextId
    && x.runQueue <= y.runQueue && x.completions <= y.completions
    && (forall id :: id in x.shared ==> Settled(x, y, id))
    && (forall id :: id in y.tasks && id < x.nextId ==> id in x.tasks && y.tasks[id] == x.tasks[id])
  }

  lemma ExtendsTransitive(x: Exec, y: Exec, z: Exec)
    requires Extends(x, y) && Extends(y, z)
    ensures Extends(x, z)
  {
    forall id | id in x.shared ensures Settled(x, z, id) { assert Settled(x, y, id) && Settled(y, z, id); }
  }

  lemma AbortExtends(x: Exec, id: TaskId)
    requires WF(x) && id in x.tasks && x.polling != Some(id)
    ensures Extends(x, Complete(x.(tasks := x.tasks - {id}), id, Cancelled, WasCancelled))
  {
    assert SharedOk(x, id);
  }

  lemma CellCallExtends(x: Exec, c: Call)
    requires c.Join? || c.TakeResult?
    ensures Extends(x, Do(x, c))
  {}

  lemma SimpleCallExtends(x: Exec, c: Call)
    requires c.Wake? || c.Reenter? || (c.Spawn? && WF(x))
    ensures Extends(x, Do(x, c))
  {}

  lemma {:induction false} DoExtends(x: Exec, c: Call)
    requires WF(x)
    ensures Extends(x, Do(x, c))
    decreases c
  {
    if c.Join? || c.TakeResult? {
      CellCallExtends(x, c);
    } else if !c.Cancel? {
      SimpleCallExtends(x, c);
    } else if x.polling != Some(c.id) && c.id in x.tasks {
      var y := Complete(x.(tasks := x.tasks - {c.id}), c.id, Cancelled, WasCancelled);
      AbortKeepsWF(x, c.id);
      AbortExtends(x, c.id);
      DoAllExtends(y, c.onDrop);
      ExtendsTransitive(x, y, Do(x, c));
    }
  }

  lemma {:induction false} DoAllExtends(x: Exec, cs: seq<Call>)
    requires WF(x)
    ensures Extends(x, DoAll(x, cs))
    decreases cs
  {
    if cs != [] {
      DoExtends(x, cs[0]);
      DoKeepsWF(x, cs[0]);
      DoAllExtends(Do(x, cs[0]), cs[1..]);
      ExtendsTransitive(x, Do(x, cs[0]), DoAll(x, cs));
    }
  }

  /** A task that has been spawned and is no longer live. */
  predicate Dead(x: Exec, id: TaskId) { id < x.nextId && id !in x.tasks }

  /**
   What any stretch of execution keeps: completed tasks stay settled, dead tasks stay dead
   and are not polled again, and nothing is taken back from the logs.
   */
  ghost predicate Later(x: Exec, y: Exec) {
    && x.nextId <= y.nextId
    && x.completions <= y.completions && x.polls <= y.polls
    && (forall id :: id in x.shared ==> Settled(x, y, id))
    && (forall id :: Dead(x, id) ==> Dead(y, id))
    && (forall k :: |x.polls| <= k < |y.polls| ==> !Dead(x, y.polls[k]))
  }

  lemma LaterTransitive(x: Exec, y: Exec, z: Exec)
    requires Later(x, y) && Later(y, z)
    ensures Later(x, z)
  {
    forall id | id in x.shared ensures Settled(x, z, id) { assert Settled(x, y, id) && Settled(y, z, id); }
    forall k | |x.polls| <= k < |z.polls| ensures !Dead(x, z.polls[k]) {
      if k < |y.polls| { assert z.polls[k] == y.polls[k]; }
    }
  }

  lemma ExtendsIsLater(x: Exec, y: Exec)
    requires Extends(x, y)
    ensures Later(x, y)
  {}

  lemma {:induction false} CancelEachOk(x: Exec, ids: seq<TaskId>, drops: seq<seq<Call>>)
    requires WF(x)
    ensures WF(CancelEach(x, ids, drops)) && Extends(x, CancelEach(x, ids, drops))
    decreases |ids|
  {
    if ids != [] {
      var c := Cancel(ids[0], if drops == [] then [] else drops[0]);
      DoKeepsWF(x, c);
      DoExtends(x, c);
      CancelEachOk(Do(x, c), ids[1..], if drops == [] then [] else drops[1..]);
      ExtendsTransitive(x, Do(x, c), CancelEach(x, ids, drops));
    }
  }

  /** Between two turns nothing is being polled and no panic is being reported. */
  ghost predicate Quiet(x: Exec) { WF(x) && x.polling == None && x.unwinding == None }

  lemma ReadyOk(x: Exec, id: TaskId, v: int)
    requires WF(x) && x.polling == Some(id) && x.unwinding == None
    ensures Quiet(EndPoll(x, id, Ready(v))) && Later(x, EndPoll(x, id, Ready(v)))
  {
    assert SharedOk(x, id);
    ReadyKeepsWF(x, id, v);
  }

  lemma PendOk(x: Exec, id: TaskId, drops: seq<seq<Call>>)
    requires WF(x) && x.polling == Some(id) && x.unwinding == None
    ensures var y := EndPoll(x, id, Pend(drops));
            Quiet(y) && Later(x, y) && x.runQueue <= y.runQueue && y.polls == x.polls
  {
    var m := SetState(x, id, Pending).(polling := None, cancelPending := []);
    PendKeepsWF(x, id);
    PendIsLater(x, id);
    CancelEachOk(m, x.cancelPending, drops);
    ExtendsIsLater(m, CancelEach(m, x.cancelPending, drops));
    LaterTransitive(x, m, CancelEach(m, x.cancelPending, drops));
  }

  lemma UnwindIsLater(x: Exec, id: TaskId)
    requires WF(x) && x.polling == Some(id)
    ensures Later(x, x.(polling := None, tasks := x.tasks - {id}, unwinding := Some(id)))
  {}

  lemma ReportPanicIsLater(x: Exec, id: TaskId)
    requires WF(x) && x.unwinding == Some(id) && id in x.shared
    ensures Later(x, Complete(x, id, Failed, Panicked).(unwinding := None))
  {
    assert SharedOk(x, id);
  }

  lemma PendIsLater(x: Exec, id: TaskId)
    requires WF(x) && x.polling == Some(id)
    ensures Later(x, SetState(x, id, Pending).(polling := None, cancelPending := []))
  {
    assert LiveOk(x, id);
  }

  lemma DropInPanicOk(x: Exec, id: TaskId, onDrop: seq<Call>)
    requires WF(x) && x.polling == Some(id) && x.unwinding == None
    ensures var y := DoAll(x.(polling := None, tasks := x.tasks - {id}, unwinding := Some(id)), onDrop);
            && WF(y) && Later(x, y) && x.runQueue <= y.runQueue && y.polls == x.polls
            && y.polling == None && y.unwinding == Some(id) && id !in y.tasks
  {
    var m := x.(polling := None, tasks := x.tasks - {id}, unwinding := Some(id));
    var n := DoAll(m, onDrop);
    assert LiveOk(x, id);
    UnwindKeepsWF(x, id);
    UnwindIsLater(x, id);
    DoAllKeepsWF(m, onDrop);
    DoAllExtends(m, onDrop);
    ExtendsIsLater(m, n);
    LaterTransitive(x, m, n);
  }

  lemma ReportPanicOk(x: Exec, id: TaskId)
    requires WF(x) && x.unwinding == Some(id) && id !in x.tasks && x.polling == None
    ensures id in x.shared
    ensures var y := Complete(x, id, Failed, Panicked).(unwinding := None);
            Quiet(y) && Later(x, y) && y.runQueue == x.runQueue && y.polls == x.polls
  {
    ReportPanicKeepsWF(x, id);
    ReportPanicIsLater(x, id);
  }

  lemma PanicOk(x: Exec, id: TaskId, onDrop: seq<Call>)
    requires WF(x) && x.polling == Some(id) && x.unwinding == None
    ensures var y := EndPoll(x, id, Panic(onDrop));
            Quiet(y) && Later(x, y) && x.runQueue <= y.runQueue && y.polls == x.polls
  {
    var n := DoAll(x.(polling := None, tasks := x.tasks - {id}, unwinding := Some(id)), onDrop);
    DropInPanicOk(x, id, onDrop);
    ReportPanicOk(n, id);
    LaterTransitive(x, n, Complete(n, id, Failed, Panicked).(unwinding := None));
  }

  lemma EndPollOk(x: Exec, id: TaskId, end: PollEnd)
    requires WF(x) && x.polling == Some(id) && x.unwinding == None
    ensures var y := EndPoll(x, id, end);
            Quiet(y) && Later(x, y) && x.runQueue <= y.runQueue && y.polls == x.polls
  {
    match end
    case Ready(v) => ReadyOk(x, id, v);
    case Pend(drops) => PendOk(x, id, drops);
    case Panic(onDrop) => PanicOk(x, id, onDrop);
  }

  lemma BeginPollIsLater(x: Exec)
    requires WF(x) && x.runQueue != [] && x.runQueue[0] in x.tasks
    ensures x.runQueue[0] in x.shared && Later(x, BeginPoll(x.(runQueue := x.runQueue[1..]), x.runQueue[0]))
  {
    assert LiveOk(x, x.runQueue[0]) && SharedOk(x, x.runQueue[0]);
  }

  /** A whole poll of the task at the head of the queue. */
  lemma PollOk(x: Exec, p: Poll)
    requires Quiet(x) && x.runQueue != [] && x.runQueue[0] in x.tasks
    ensures var y := PollTask(x.(runQueue := x.runQueue[1..]), x.runQueue[0], p);
            Quiet(y) && Later(x, y) && x.runQueue[1..] <= y.runQueue && y.polls == x.polls + [x.runQueue[0]]
  {
    var id := x.runQueue[0];
    assert LiveOk(x, id);
    var b := BeginPoll(x.(runQueue := x.runQueue[1..]), id);
    BeginPollKeepsWF(x);
    BeginPollIsLater(x);
    DoAllKeepsWF(b, p.calls);
    DoAllExtends(b, p.calls);
    var m := DoAll(b, p.calls);
    ExtendsIsLater(b, m);
    EndPollOk(m, id, p.end);
    LaterTransitive(x, b, m);
    LaterTransitive(x, m, EndPoll(m, id, p.end));
  }

  lemma {:induction false} ScheduleFrame(x: Exec, ids: seq<TaskId>)
    requires forall id :: id in x.tasks && id in x.shared ==> x.shared[id].state == x.tasks[id]
    ensures var y := Schedule(x, ids);
            && y == x.(tasks := y.tasks, runQueue := y.runQueue, shared := y.shared)
            && x.runQueue <= y.runQueue
            && y.tasks.Keys == x.tasks.Keys && y.shared.Keys == x.shared.Keys
            && (forall id :: id in x.shared ==> Settled(x, y, id))
            && (forall id :: id in x.tasks && x.tasks[id] != Pending ==> y.tasks[id] == x.tasks[id])
    decreases |ids|
  {
    if ids != [] {
      var id := ids[0];
      var x' := if id in x.tasks && id in x.shared && x.tasks[id] == Pending
                then SetState(x, id, Scheduled).(runQueue := x.runQueue + [id]) else x;
      ScheduleFrame(x', ids[1..]);
      forall i | i in x.shared ensures Settled(x, Schedule(x, ids), i) { assert Settled(x', Schedule(x, ids), i); }
    }
  }

  lemma DrainOk(x: Exec)
    requires Quiet(x)
    ensures var d := DrainWoken(x);
            && Quiet(d) && Later(x, d) && d.woken == [] && x.runQueue <= d.runQueue
            && d.polls == x.polls && d.tasks.Keys == x.tasks.Keys
  {
    DrainKeepsWF(x);
    forall id | id in x.tasks ensures x.shared[id].state == x.tasks[id] { assert LiveOk(x, id); }
    ScheduleFrame(x.(woken := []), x.woken);
    var d := DrainWoken(x);
    forall id | id in x.shared ensures Settled(x, d, id) { assert Settled(x.(woken := []), d, id); }
  }

  lemma TurnOk(x: Exec, p: Poll)
    requires Quiet(x)
    ensures Quiet(Turn(x, p)) && Later(x, Turn(x, p))
  {
    DrainOk(x);
    var d := DrainWoken(x);
    if d.runQueue != [] {
      if d.runQueue[0] in d.tasks {
        PollOk(d, p);
      } else {
        SkipStaleKeepsWF(d);
      }
      LaterTransitive(x, d, Turn(x, p));
    }
  }
}

/**
 What the calls made by user code lead to over whole runs: a wake leads to a poll, an
 unanswered await is told of the completion, and a task that cancels itself is gone when its
 poll is over.
 */
module ExecutorCalls {
  import opened Basics
  import opened ExecutorModel
  import Runs = ExecutorRuns
  import Joins = ExecutorJoins
  import Results = ExecutorResults

  /** The next turn polls a task. */
  ghost predicate Polls(x: Exec) {
    var d := DrainWoken(x);
    d.runQueue != [] && d.runQueue[0] in d.tasks && d.runQueue[0] in d.shared
  }

  /** The state in which the polled task's code starts. */
  ghost function Begun(x: Exec): Exec
    requires Polls(x)
  {
    var d := DrainWoken(x);
    BeginPoll(d.(runQueue := d.runQueue[1..]), d.runQueue[0])
  }

  /** The state in the middle of a poll, after some of its calls. */
  lemma MidPoll(x: Exec, calls: seq<Call>)
    requires Quiet(x) && Polls(x)
    ensures var m := DoAll(Begun(x), calls);
            && WF(m) && m.polling == Some(DrainWoken(x).runQueue[0]) && m.unwinding == None
            && m.polls == x.polls + [DrainWoken(x).runQueue[0]]
  {
    DrainOk(x);
    var d := DrainWoken(x);
    assert LiveOk(d, d.runQueue[0]);
    BeginPollKeepsWF(d);
    DoAllKeepsWF(Begun(x), calls);
    DoAllExtends(Begun(x), calls);
  }

  lemma TurnIs(x: Exec, p: Poll)
    requires Quiet(x) && Polls(x)
    ensures var id, m := DrainWoken(x).runQueue[0], DoAll(Begun(x), p.calls);
            && id in m.shared && Turn(x, p) == EndPoll(m, id, p.end)
            && |Turn(x, p).polls| == |x.polls| + 1
  {
    DrainOk(x);
    MidPoll(x, p.calls);
    var id := DrainWoken(x).runQueue[0];
    assert LiveOk(DrainWoken(x), id);
    assert LiveOk(DoAll(Begun(x), p.calls), id);
    EndPollOk(DoAll(Begun(x), p.calls), id, p.end);
  }

  /** The state right after the call `c` of a poll, the calls before it being `pre`. */
  lemma AfterCall(x: Exec, pre: seq<Call>, c: Call, post: seq<Call>)
    requires Quiet(x) && Polls(x)
    ensures var m := DoAll(Begun(x), pre);
            WF(m) && WF(Do(m, c)) && DoAll(Begun(x), pre + [c] + post) == DoAll(Do(m, c), post)
  {
    MidPoll(x, pre);
    DoKeepsWF(DoAll(Begun(x), pre), c);
    DoAllAround(Begun(x), pre, c, post);
  }

  lemma DoAllAround(b: Exec, pre: seq<Call>, c: Call, post: seq<Call>)
    ensures DoAll(b, pre + [c] + post) == DoAll(Do(DoAll(b, pre), c), post)
  {
    assert pre + [c] + post == pre + ([c] + post);
    DoAllAppend(b, pre, [c] + post);
    assert ([c] + post)[0] == c && ([c] + post)[1..] == post;
  }

  // ---------------------------------------------------------------------------
  // A wake leads to a poll
  // ---------------------------------------------------------------------------

  /** `j` has been woken and not polled since, or polled after the first `n` polls. */
  ghost predicate Owed(n: nat, x: Exec, j: TaskId) {
    j in x.unpolled || exists k :: n <= k < |x.polls| && x.polls[k] == j
  }

  lemma RunKeepsOwed(n: nat, x: Exec, run: seq<Runs.Event>, j: TaskId)
    requires Quiet(x) && n <= |x.polls| && Owed(n, x, j)
    ensures Owed(n, Runs.After(x, run), j)
  {
    Joins.RunMinded(n, x, run, 0, j);
    Runs.RunOk(x, run);
  }

  lemma PaidWhenIdle(n: nat, x: Exec, j: TaskId)
    requires Quiet(x) && j in x.tasks && DrainWoken(x).runQueue == [] && Owed(n, x, j)
    ensures exists k :: n <= k < |x.polls| && x.polls[k] == j
  {
    DrainOk(x);
    Joins.ScheduleKeepsUnpolled(x.(woken := []), x.woken);
    assert LiveOk(DrainWoken(x), j);
  }

  /** The call gives `id` a reason to be polled: it wakes it, or spawns it. */
  predicate Rouses(x: Exec, c: Call, id: TaskId) { c == Wake(id) || (c == Spawn && id == x.nextId) }

  /**
   A task woken or spawned from outside the loop: when the loop next ends, it has been polled
   since, or is gone.
   */
  lemma RousedOutsideIsPolled(run: seq<Runs.Event>, c: Call, id: TaskId, more: seq<Runs.Event>)
    requires Rouses(Runs.After(NewExec(), run), c, id)
    requires var z := Runs.After(Do(Runs.After(NewExec(), run), c), more);
             id in z.tasks && DrainWoken(z).runQueue == []
    ensures var x := Runs.After(NewExec(), run);
            Runs.PolledBetween(x, Runs.After(Do(x, c), more), id)
  {
    var x := Runs.After(NewExec(), run);
    var y := Do(x, c);
    NewIsWF();
    Runs.RunOk(NewExec(), run);
    Runs.StepOk(x, Runs.Outside(c));
    RunKeepsOwed(|x.polls|, y, more, id);
    Runs.RunOk(y, more);
    PaidWhenIdle(|x.polls|, Runs.After(y, more), id);
  }

  /** The rest of a poll forgets no wake and no parked waiter. */
  lemma RestMinds(m: Exec, post: seq<Call>, t: TaskId, end: PollEnd, id: TaskId, j: TaskId)
    requires WF(m) && m.polling == Some(t) && m.unwinding == None
    ensures t in DoAll(m, post).shared && Joins.Minds(m, EndPoll(DoAll(m, post), t, end), id, j)
  {
    Joins.DoAllMinds(m, post, id, j);
    DoAllKeepsWF(m, post);
    DoAllExtends(m, post);
    Joins.EndPollMinds(DoAll(m, post), t, end, id, j);
    Joins.MindsTransitive(m, DoAll(m, post), EndPoll(DoAll(m, post), t, end), id, j);
  }

  /** A whole turn, seen from right after one of the calls of its poll. */
  lemma TurnMinds(x: Exec, pre: seq<Call>, c: Call, post: seq<Call>, end: PollEnd, id: TaskId, j: TaskId)
    requires Quiet(x) && Polls(x)
    ensures var y := Turn(x, Poll(pre + [c] + post, end));
            Joins.Minds(Do(DoAll(Begun(x), pre), c), y, id, j) && |y.polls| == |x.polls| + 1
  {
    var m := DoAll(Begun(x), pre);
    AfterCall(x, pre, c, post);
    MidPoll(x, pre);
    DoExtends(m, c);
    RestMinds(Do(m, c), post, DrainWoken(x).runQueue[0], end, id, j);
    TurnIs(x, Poll(pre + [c] + post, end));
  }

  /**
   A task woken or spawned inside a poll, the polled task itself included: when the loop next
   ends, it has been polled after that poll, or is gone.
   */
  lemma RousedInPollIsPolled(run: seq<Runs.Event>, pre: seq<Call>, c: Call, id: TaskId, post: seq<Call>, end: PollEnd,
                             more: seq<Runs.Event>)
    requires Polls(Runs.After(NewExec(), run)) && Rouses(DoAll(Begun(Runs.After(NewExec(), run)), pre), c, id)
    requires var z := Runs.After(Turn(Runs.After(NewExec(), run), Poll(pre + [c] + post, end)), more);
             id in z.tasks && DrainWoken(z).runQueue == []
    ensures var x := Runs.After(NewExec(), run);
            var z := Runs.After(Turn(x, Poll(pre + [c] + post, end)), more);
            exists k :: |x.polls| + 1 <= k < |z.polls| && z.polls[k] == id
  {
    var x, p := Runs.After(NewExec(), run), Poll(pre + [c] + post, end);
    NewIsWF();
    Runs.RunOk(NewExec(), run);
    var n := |x.polls| + 1;
    TurnMinds(x, pre, c, post, end, 0, 0);
    TurnOk(x, p);
    RunKeepsOwed(n, Turn(x, p), more, id);
    Runs.RunOk(Turn(x, p), more);
    PaidWhenIdle(n, Runs.After(Turn(x, p), more), id);
  }

  // ---------------------------------------------------------------------------
  // An unanswered await is told of the completion
  // ---------------------------------------------------------------------------

  /**
   If a poll awaits `id` on behalf of `j` and is answered "not yet", then once `id` has
   completed `j` has been polled after that poll, or is woken and waiting for it.
   */
  lemma AwaitIsTold(run: seq<Runs.Event>, pre: seq<Call>, id: TaskId, j: TaskId, post: seq<Call>, end: PollEnd,
                    more: seq<Runs.Event>)
    requires Polls(Runs.After(NewExec(), run))
    requires HandleReply(DoAll(Begun(Runs.After(NewExec(), run)), pre), id) == NotYet
    requires var z := Runs.After(Turn(Runs.After(NewExec(), run), Poll(pre + [Join(id, j)] + post, end)), more);
             Results.Completed(z, id)
    ensures var x := Runs.After(NewExec(), run);
            var z := Runs.After(Turn(x, Poll(pre + [Join(id, j)] + post, end)), more);
            j in z.unpolled || exists k :: |x.polls| + 1 <= k < |z.polls| && z.polls[k] == j
  {
    var x, p := Runs.After(NewExec(), run), Poll(pre + [Join(id, j)] + post, end);
    var n, z := |x.polls| + 1, Runs.After(Turn(x, p), more);
    NewIsWF();
    Runs.RunOk(NewExec(), run);
    AwaitHeard(x, pre, id, j, post, end);
    TurnOk(x, p);
    Joins.RunMinded(n, Turn(x, p), more, id, j);
    Runs.RunOk(Turn(x, p), more);
    assert SharedOk(z, id);
  }

  lemma AwaitHeard(x: Exec, pre: seq<Call>, id: TaskId, j: TaskId, post: seq<Call>, end: PollEnd)
    requires Quiet(x) && Polls(x) && HandleReply(DoAll(Begun(x), pre), id) == NotYet
    ensures var y := Turn(x, Poll(pre + [Join(id, j)] + post, end));
            Joins.Minded(|x.polls| + 1, y, id, j) && |y.polls| == |x.polls| + 1
  {
    TurnMinds(x, pre, Join(id, j), post, end, id, j);
    assert Joins.Parked(Do(DoAll(Begun(x), pre), Join(id, j)), id, j);
  }

  // ---------------------------------------------------------------------------
  // A task that cancels itself
  // ---------------------------------------------------------------------------

  lemma {:induction false} DoKeepsRequests(x: Exec, c: Call)
    ensures x.cancelPending <= Do(x, c).cancelPending && Do(x, c).polling == x.polling
    decreases c
  {
    if c.Cancel? && x.polling != Some(c.id) && c.id in x.tasks && c.id in x.shared {
      DoAllKeepsRequests(Complete(x.(tasks := x.tasks - {c.id}), c.id, Cancelled, WasCancelled), c.onDrop);
    }
  }

  lemma {:induction false} DoAllKeepsRequests(x: Exec, cs: seq<Call>)
    ensures x.cancelPending <= DoAll(x, cs).cancelPending && DoAll(x, cs).polling == x.polling
    decreases cs
  {
    if cs != [] {
      DoKeepsRequests(x, cs[0]);
      DoAllKeepsRequests(Do(x, cs[0]), cs[1..]);
    }
  }

  /**
   A task that cancels itself in a poll that stays pending is gone after the turn; one whose
   poll is ready or panics in spite of it is gone as well, with that outcome.
   */
  lemma SelfCancelTakesEffect(run: seq<Runs.Event>, pre: seq<Call>, onDrop: seq<Call>, post: seq<Call>, end: PollEnd)
    requires Polls(Runs.After(NewExec(), run))
    ensures var x := Runs.After(NewExec(), run);
            var id := DrainWoken(x).runQueue[0];
            id !in Turn(x, Poll(pre + [Cancel(id, onDrop)] + post, end)).tasks
  {
    var x := Runs.After(NewExec(), run);
    NewIsWF();
    Runs.RunOk(NewExec(), run);
    var id := DrainWoken(x).runQueue[0];
    var p := Poll(pre + [Cancel(id, onDrop)] + post, end);
    TurnIs(x, p);
    MidPoll(x, p.calls);
    var w := DoAll(Begun(x), p.calls);
    if end.Pend? {
      SelfCancelHeard(x, pre, onDrop, post);
      SelfCancelled(w, id, end.drops);
    } else {
      Results.TurnStores(x, p, id);
      TurnOk(x, p);
      assert SharedOk(Turn(x, p), id);
    }
  }

  lemma SelfCancelHeard(x: Exec, pre: seq<Call>, onDrop: seq<Call>, post: seq<Call>)
    requires Quiet(x) && Polls(x)
    ensures var id := DrainWoken(x).runQueue[0];
            id in DoAll(Begun(x), pre + [Cancel(id, onDrop)] + post).cancelPending
  {
    var id := DrainWoken(x).runQueue[0];
    AfterCall(x, pre, Cancel(id, onDrop), post);
    MidPoll(x, pre);
    var m := DoAll(Begun(x), pre);
    assert Do(m, Cancel(id, onDrop)).cancelPending == m.cancelPending + [id];
    DoAllKeepsRequests(Do(m, Cancel(id, onDrop)), post);
    assert (m.cancelPending + [id])[|m.cancelPending|] == id;
  }

  lemma SelfCancelled(w: Exec, id: TaskId, drops: seq<seq<Call>>)
    requires WF(w) && w.polling == Some(id) && id in w.cancelPending && id in w.shared
    ensures id !in EndPoll(w, id, Pend(drops)).tasks
  {
    var d := Runs.DeferredCancelHitsOnlyItself(w, id, drops);
    PendKeepsWF(w, id);
    Runs.CancelRemoves(SetState(w, id, Pending).(polling := None, cancelPending := []), id, d);
  }

  // ---------------------------------------------------------------------------
  // Wake order
  // ---------------------------------------------------------------------------

  lemma {:induction false} ScheduleAppend(x: Exec, ids: seq<TaskId>, more: seq<TaskId>)
    ensures Schedule(x, ids + more) == Schedule(Schedule(x, ids), more)
    decreases |ids|
  {
    if ids == [] {
      assert ids + more == more;
    } else {
      assert (ids + more)[1..] == ids[1..] + more;
      var t := ids[0];
      ScheduleAppend(if t in x.tasks && t in x.shared && x.tasks[t] == Pending
                     then SetState(x, t, Scheduled).(runQueue := x.runQueue + [t]) else x, ids[1..], more);
    }
  }

  /** A pending task is queued by the part of the drain that reaches its id, and not before. */
  lemma {:induction false} ScheduledWhenReached(x: Exec, ids: seq<TaskId>, t: TaskId)
    requires t in x.tasks && t in x.shared && x.tasks[t] == Pending && t !in x.runQueue
    ensures var y := Schedule(x, ids);
            && x.runQueue <= y.runQueue && t in y.tasks && t in y.shared
            && (t in y.runQueue <==> t in ids) && (t !in ids ==> y.tasks[t] == Pending)
    decreases |ids|
  {
    if ids != [] {
      var y := Schedule(x, ids[..|ids| - 1]);
      var last := ids[|ids| - 1];
      assert ids == ids[..|ids| - 1] + [last];
      ScheduleAppend(x, ids[..|ids| - 1], [last]);
      ScheduledWhenReached(x, ids[..|ids| - 1], t);
      assert [last][1..] == [];
    }
  }

  /**
   Tasks are queued in the order they were first woken: of two pending tasks whose first
   wakes are number `i` and `j` with `i < j`, the first stands before the second.
   */
  lemma QueuedInWakeOrder(x: Exec, i: nat, j: nat) returns (p: nat, q: nat)
    requires Quiet(x) && i < j < |x.woken| && x.woken[i] !in x.woken[..i] && x.woken[j] !in x.woken[..j]
    requires x.woken[i] in x.tasks && x.tasks[x.woken[i]] == Pending
    requires x.woken[j] in x.tasks && x.tasks[x.woken[j]] == Pending
    ensures p < q < |DrainWoken(x).runQueue|
    ensures DrainWoken(x).runQueue[p] == x.woken[i] && DrainWoken(x).runQueue[q] == x.woken[j]
  {
    var c := x.(woken := []);
    var first := Schedule(c, x.woken[..j]);
    assert LiveOk(x, x.woken[i]) && LiveOk(x, x.woken[j]);
    assert x.woken[..j][i] == x.woken[i];
    ScheduledWhenReached(c, x.woken[..j], x.woken[i]);
    ScheduledWhenReached(c, x.woken[..j], x.woken[j]);
    SecondPart(x, j);
    p, q := InPlaces(first.runQueue, DrainWoken(x).runQueue, x.woken[i], x.woken[j]);
  }

  lemma SecondPart(x: Exec, j: nat)
    requires j < |x.woken|
    requires var f := Schedule(x.(woken := []), x.woken[..j]);
             var b := x.woken[j];
             b in f.tasks && b in f.shared && f.tasks[b] == Pending && b !in f.runQueue
    ensures x.woken[j] in DrainWoken(x).runQueue
    ensures Schedule(x.(woken := []), x.woken[..j]).runQueue <= DrainWoken(x).runQueue
  {
    var c := x.(woken := []);
    assert x.woken == x.woken[..j] + x.woken[j..];
    ScheduleAppend(c, x.woken[..j], x.woken[j..]);
    assert x.woken[j..][0] == x.woken[j];
    ScheduledWhenReached(Schedule(c, x.woken[..j]), x.woken[j..], x.woken[j]);
  }

  lemma InPlaces(front: seq<TaskId>, all: seq<TaskId>, a: TaskId, b: TaskId) returns (p: nat, q: nat)
    requires front <= all && a in front && b !in front && b in all
    ensures p < q < |all| && all[p] == a && all[q] == b
  {
    p :| 0 <= p < |front| && front[p] == a;
    q :| 0 <= q < |all| && all[q] == b;
    assert forall i :: 0 <= i < |front| ==> all[i] == front[i];
  }
}

/**
 The response queue of `rustdv-methodology/src/sequence.rs`: answers are pushed with the
 ticket they belong to and taken in order or by ticket, possibly out of order.
 */
module Responses {
  import opened Basics
  import Handshake

  type TxnId = Handshake.TxnId

  type TaskId = nat

  /** A parked `get_response`: the task to wake and what it asked for (`None` is "whatever is next"). */
  datatype Waiter = Waiter(task: TaskId, want: Option<TxnId>)

  datatype Resp<Rsp> = Resp(items: seq<(TxnId, Rsp)>, waiters: seq<Waiter>)

  predicate Wants(want: Option<TxnId>, id: TxnId) { want == None || want == Some(id) }

  /** Position of the oldest response the request accepts, or the length if there is none. */
  function Position<Rsp>(items: seq<(TxnId, Rsp)>, want: Option<TxnId>): (k: nat)
    ensures k <= |items|
    ensures k < |items| ==> Wants(want, items[k].0)
    ensures forall j :: 0 <= j < k ==> !Wants(want, items[j].0)
  {
    if items == [] || Wants(want, items[0].0) then 0 else
      var k := Position(items[1..], want);
      assert forall j :: 1 <= j < k + 1 ==> items[j] == items[1..][j - 1];
      k + 1
  }

  function RemoveAt<T>(s: seq<T>, k: nat): seq<T>
    requires k < |s|
  {
    s[..k] + s[k + 1..]
  }

  // ---------------------------------------------------------------------------
  // Runs
  // ---------------------------------------------------------------------------

  datatype Op<Rsp> =
    | Push(id: TxnId, rsp: Rsp)                  // `item_done(Some(rsp))` or `put_response`
    | TryGet(want: Option<TxnId>)                // `try_get_response`
    | PollGet(task: TaskId, want: Option<TxnId>) // one poll of a `get_response` future

  /**
   A queue with its history: everything pushed, the push numbers still pending, the
   deliveries as pairs of push number and request, and the tasks woken.
   */
  datatype Log<Rsp> = Log(
    r: Resp<Rsp>,
    pushed: seq<(TxnId, Rsp)>,
    pending: seq<nat>,
    taken: seq<(nat, Option<TxnId>)>,
    woken: seq<TaskId>)

  function EmptyLog<Rsp>(): Log<Rsp> { Log(Resp([], []), [], [], [], []) }

  function Tasks(ws: seq<Waiter>): seq<TaskId> {
    seq(|ws|, i requires 0 <= i < |ws| => ws[i].task)
  }

  /** Take the oldest acceptable response, if there is one. */
  function Take<Rsp>(l: Log<Rsp>, want: Option<TxnId>): Log<Rsp>
    requires |l.pending| == |l.r.items|
  {
    var k := Position(l.r.items, want);
    if k == |l.r.items| then l
    else l.(r := l.r.(items := RemoveAt(l.r.items, k)),
            pending := RemoveAt(l.pending, k),
            taken := l.taken + [(l.pending[k], want)])
  }

  function Apply<Rsp>(l: Log<Rsp>, op: Op<Rsp>): Log<Rsp>
    requires |l.pending| == |l.r.items|
  {
    match op
    case Push(id, rsp) =>
      l.(r := Resp(l.r.items + [(id, rsp)], []),
         pushed := l.pushed + [(id, rsp)],
         pending := l.pending + [|l.pushed|],
         woken := l.woken + Tasks(l.r.waiters))
    case TryGet(want) => Take(l, want)
    case PollGet(task, want) =>
      if Position(l.r.items, want) == |l.r.items|
      then l.(r := l.r.(waiters := l.r.waiters + [Waiter(task, want)]))
      else Take(l, want)
  }

  /**
   The pending responses are the pushed ones minus the taken ones, in push order; each is
   delivered at most once, and only to its ticket or to an any-ticket request; and no
   parked waiter has a response it could take.
   */
  ghost predicate Correlated<Rsp>(l: Log<Rsp>) {
    InPushOrder(l) && Accounted(l) && DeliveredRightly(l) && NobodyWaitsInVain(l)
  }

  ghost predicate InPushOrder<Rsp>(l: Log<Rsp>) {
    && |l.pending| == |l.r.items|
    && (forall k :: 0 <= k < |l.pending| ==>
          l.pending[k] < |l.pushed| && l.r.items[k] == l.pushed[l.pending[k]])
    && (forall j, k :: 0 <= j < k < |l.pending| ==> l.pending[j] < l.pending[k])
  }

  ghost predicate Accounted<Rsp>(l: Log<Rsp>) {
    forall i :: 0 <= i < |l.pushed| ==> (i in l.pending <==> !Delivered(l, i))
  }

  ghost predicate DeliveredRightly<Rsp>(l: Log<Rsp>) {
    && (forall a, b :: 0 <= a < b < |l.taken| ==> l.taken[a].0 != l.taken[b].0)
    && (forall a :: 0 <= a < |l.taken| ==>
          l.taken[a].0 < |l.pushed| && Wants(l.taken[a].1, l.pushed[l.taken[a].0].0))
  }

  ghost predicate NobodyWaitsInVain<Rsp>(l: Log<Rsp>) {
    forall w, k :: 0 <= w < |l.r.waiters| && 0 <= k < |l.r.items| ==>
      !Wants(l.r.waiters[w].want, l.r.items[k].0)
  }

  ghost predicate Delivered<Rsp>(l: Log<Rsp>, i: nat) {
    exists a :: 0 <= a < |l.taken| && l.taken[a].0 == i
  }

  lemma RemovedExactly(s: seq<nat>, k: nat, i: nat)
    requires k < |s| && forall a, b :: 0 <= a < b < |s| ==> s[a] < s[b]
    ensures i in RemoveAt(s, k) <==> i in s && i != s[k]
  {
    assert s == s[..k] + [s[k]] + s[k + 1..];
  }

  lemma TakeDelivers<Rsp>(l: Log<Rsp>, want: Option<TxnId>, i: nat)
    requires |l.pending| == |l.r.items| && Position(l.r.items, want) < |l.r.items|
    ensures Delivered(Take(l, want), i) <==> Delivered(l, i) || i == l.pending[Position(l.r.items, want)]
  {
    var l' := Take(l, want);
    assert l'.taken[|l.taken|].0 == l.pending[Position(l.r.items, want)];
    if Delivered(l, i) {
      var a :| 0 <= a < |l.taken| && l.taken[a].0 == i;
      assert l'.taken[a].0 == i;
    }
  }

  lemma TakeKeepsOrder<Rsp>(l: Log<Rsp>, want: Option<TxnId>)
    requires InPushOrder(l) && NobodyWaitsInVain(l)
    ensures InPushOrder(Take(l, want)) && NobodyWaitsInVain(Take(l, want))
  {
    var k := Position(l.r.items, want);
    if k < |l.r.items| {
      RemovedIndex(l.r.items, k);
      RemovedIndex(l.pending, k);
    }
  }

  lemma RemovedIndex<T>(s: seq<T>, k: nat)
    requires k < |s|
    ensures |RemoveAt(s, k)| == |s| - 1
    ensures forall j :: 0 <= j < |s| - 1 ==> RemoveAt(s, k)[j] == s[if j < k then j else j + 1]
  {}

  lemma TakeKeepsAccount<Rsp>(l: Log<Rsp>, want: Option<TxnId>)
    requires InPushOrder(l) && Accounted(l) && Position(l.r.items, want) < |l.r.items|
    ensures Accounted(Take(l, want))
  {
    var l', k := Take(l, want), Position(l.r.items, want);
    forall i | 0 <= i < |l'.pushed| ensures i in l'.pending <==> !Delivered(l', i) {
      TakeDelivers(l, want, i);
      RemovedExactly(l.pending, k, i);
    }
  }

  lemma TakeDeliversRightly<Rsp>(l: Log<Rsp>, want: Option<TxnId>)
    requires InPushOrder(l) && Accounted(l) && DeliveredRightly(l) && Position(l.r.items, want) < |l.r.items|
    ensures DeliveredRightly(Take(l, want))
  {
    var i := l.pending[Position(l.r.items, want)];
    assert i in l.pending && !Delivered(l, i);
  }

  lemma TakeKeepsCorrelation<Rsp>(l: Log<Rsp>, want: Option<TxnId>)
    requires Correlated(l)
    ensures Correlated(Take(l, want))
  {
    if Position(l.r.items, want) < |l.r.items| {
      TakeKeepsOrder(l, want);
      TakeKeepsAccount(l, want);
      TakeDeliversRightly(l, want);
    }
  }

  lemma StepKeepsCorrelation<Rsp>(l: Log<Rsp>, op: Op<Rsp>)
    requires Correlated(l)
    ensures Correlated(Apply(l, op))
  {
    var l' := Apply(l, op);
    match op
    case Push(id, rsp) =>
      forall i | 0 <= i < |l'.pushed|
        ensures i in l'.pending <==> !Delivered(l', i)
      {
        assert Delivered(l', i) <==> Delivered(l, i);
        assert i in l'.pending <==> i in l.pending || i == |l.pushed|;
      }
    case TryGet(want) => TakeKeepsCorrelation(l, want);
    case PollGet(task, want) =>
      if Position(l.r.items, want) == |l.r.items| {
        assert forall i :: Delivered(l', i) <==> Delivered(l, i);
      } else {
        TakeKeepsCorrelation(l, want);
      }
  }

  /** The log after any run of pushes and gets. */
  ghost function Run<Rsp>(ops: seq<Op<Rsp>>): (l: Log<Rsp>)
    ensures Correlated(l)
  {
    if ops == [] then EmptyLog()
    else
      var l := Run(ops[..|ops| - 1]);
      StepKeepsCorrelation(l, ops[|ops| - 1]);
      Apply(l, ops[|ops| - 1])
  }

  /** How many times push number `i` has been handed out is at most once, and it is never lost. */
  lemma EachResponseDeliveredOnce<Rsp>(ops: seq<Op<Rsp>>, i: nat, a: nat, b: nat)
    requires i < |Run(ops).pushed|
    ensures i in Run(ops).pending <==> !Delivered(Run(ops), i)
    ensures a < |Run(ops).taken| && b < |Run(ops).taken| && Run(ops).taken[a].0 == Run(ops).taken[b].0 ==> a == b
  {
    var l := Run(ops);
    if a < |l.taken| && b < |l.taken| && a != b {
      assert l.taken[a].0 != l.taken[b].0;
    }
  }

  // What callers see.

  /** The responses pushed by a run, with the tickets they were pushed for. */
  function Pushes<Rsp>(ops: seq<Op<Rsp>>): seq<(TxnId, Rsp)> {
    if ops == [] then []
    else
      var last := ops[|ops| - 1];
      Pushes(ops[..|ops| - 1]) + if last.Push? then [(last.id, last.rsp)] else []
  }

  /** What a get answers: the oldest acceptable response, or nothing. */
  function AnswerOf<Rsp>(r: Resp<Rsp>, op: Op<Rsp>): Option<Rsp> {
    if op.Push? then None
    else
      var k := Position(r.items, op.want);
      if k < |r.items| then Some(r.items[k].1) else None
  }

  /** The responses handed out by a run, with the requests they answer. */
  ghost function Answers<Rsp>(ops: seq<Op<Rsp>>): seq<(Rsp, Option<TxnId>)> {
    if ops == [] then []
    else
      var front, last := ops[..|ops| - 1], ops[|ops| - 1];
      var a := AnswerOf(Run(front).r, last);
      Answers(front) + if a.Some? then [(a.value, last.want)] else []
  }

  lemma StepHistory<Rsp>(l: Log<Rsp>, op: Op<Rsp>)
    requires Correlated(l)
    ensures Apply(l, op).pushed == l.pushed + if op.Push? then [(op.id, op.rsp)] else []
    ensures var a := AnswerOf(l.r, op);
            if a.None? then Apply(l, op).taken == l.taken
            else exists i: nat :: i < |l.pushed| && Apply(l, op).taken == l.taken + [(i, op.want)] && l.pushed[i].1 == a.value
  {
    if !op.Push? && AnswerOf(l.r, op).Some? {
      var i := l.pending[Position(l.r.items, op.want)];
      assert Apply(l, op).taken == l.taken + [(i, op.want)];
    }
  }

  /**
   The history is what the callers did and saw: the pushed responses are those of the push
   calls, in order, and the `a`-th answer handed out is the response of the push it is
   recorded for, to a request that accepts its ticket.
   */
  lemma {:induction false} AnswersArePushed<Rsp>(ops: seq<Op<Rsp>>)
    ensures Run(ops).pushed == Pushes(ops) && |Answers(ops)| == |Run(ops).taken|
    ensures forall a :: 0 <= a < |Answers(ops)| ==>
              var t := Run(ops).taken[a];
              && t.0 < |Pushes(ops)| && Answers(ops)[a] == (Pushes(ops)[t.0].1, t.1)
              && Wants(t.1, Pushes(ops)[t.0].0)
    decreases |ops|
  {
    if ops != [] {
      var front, last := ops[..|ops| - 1], ops[|ops| - 1];
      AnswersArePushed(front);
      StepHistory(Run(front), last);
      assert DeliveredRightly(Run(ops));
    }
  }

  predicate HasPush<Rsp>(ops: seq<Op<Rsp>>) { ops != [] && (ops[|ops| - 1].Push? || HasPush(ops[..|ops| - 1])) }

  lemma RunStep<Rsp>(ops: seq<Op<Rsp>>, op: Op<Rsp>)
    ensures Run(ops + [op]) == Apply(Run(ops), op)
  {
    assert (ops + [op])[..|ops|] == ops;
  }

  /** The waiter is still parked, or has been woken since `n` wakes had been made. */
  ghost predicate Told<Rsp>(l: Log<Rsp>, w: Waiter, n: nat, pushed: bool) {
    n <= |l.woken| && if pushed then w.task in l.woken[n..] else w in l.r.waiters
  }

  /**
   A get that answered nothing stays parked until the next push and is woken by it,
   whatever else is asked for in between.
   */
  lemma {:induction false} UnansweredIsWoken<Rsp>(ops: seq<Op<Rsp>>, get: Op<Rsp>, more: seq<Op<Rsp>>)
    requires get.PollGet? && AnswerOf(Run(ops).r, get).None?
    ensures Told(Run(ops + [get] + more), Waiter(get.task, get.want), |Run(ops).woken|, HasPush(more))
    decreases |more|
  {
    if more == [] {
      RunStep(ops, get);
      assert ops + [get] + more == ops + [get];
    } else {
      var front, last := more[..|more| - 1], more[|more| - 1];
      UnansweredIsWoken(ops, get, front);
      assert ops + [get] + more == ops + [get] + front + [last];
      RunStep(ops + [get] + front, last);
      WaiterStep(Run(ops + [get] + front), last, Waiter(get.task, get.want), |Run(ops).woken|);
    }
  }

  lemma WaiterStep<Rsp>(l: Log<Rsp>, op: Op<Rsp>, w: Waiter, n: nat)
    requires Correlated(l) && n <= |l.woken|
    ensures var l' := Apply(l, op);
            && l.woken <= l'.woken
            && (w.task in l.woken[n..] ==> w.task in l'.woken[n..])
            && (w in l.r.waiters ==> if op.Push? then w.task in l'.woken[n..] else w in l'.r.waiters)
  {
    var l' := Apply(l, op);
    if op.Push? {
      assert l'.woken[n..] == l.woken[n..] + Tasks(l.r.waiters);
      if w in l.r.waiters {
        var i :| 0 <= i < |l.r.waiters| && l.r.waiters[i] == w;
        assert Tasks(l.r.waiters)[i] == w.task;
      }
    }
  }

  /** A parked waiter is woken by the next push, whatever is pushed. */
  lemma PushWakesEveryWaiter<Rsp>(l: Log<Rsp>, id: TxnId, rsp: Rsp, w: nat)
    requires Correlated(l) && w < |l.r.waiters|
    ensures l.r.waiters[w].task in Apply(l, Push(id, rsp)).woken && Apply(l, Push(id, rsp)).r.waiters == []
  {
    assert Tasks(l.r.waiters)[w] == l.r.waiters[w].task;
  }

  // ---------------------------------------------------------------------------
  // The mutable queue
  // ---------------------------------------------------------------------------

  class ResponseQueue<Rsp> {
    var items: seq<(TxnId, Rsp)>
    var waiters: seq<Waiter>
    ghost var log: Log<Rsp>

    ghost predicate Valid()
      reads this
    {
      Correlated(log) && log.r == Resp(items, waiters)
    }

    constructor ()
      ensures Valid() && log == EmptyLog()
    {
      items, waiters, log := [], [], EmptyLog();
    }

    method Push(id: TxnId, rsp: Rsp) returns (woken: seq<TaskId>)
      requires Valid()
      modifies this
      ensures Valid() && log == Apply(old(log), Op.Push(id, rsp))
      ensures woken == Tasks(old(waiters))
    {
      StepKeepsCorrelation(log, Op.Push(id, rsp));
      items := items + [(id, rsp)];
      woken := [];
      var rest := waiters;
      while rest != []
        invariant woken + Tasks(rest) == Tasks(waiters)
        decreases |rest|
      {
        assert Tasks(rest) == [rest[0].task] + Tasks(rest[1..]);
        woken := woken + [rest[0].task];
        rest := rest[1..];
      }
      waiters := [];
      log := Apply(log, Op.Push(id, rsp));
    }

    /** `Iterator::position` over the pending responses. */
    method FindPosition(want: Option<TxnId>) returns (k: nat)
      ensures k == Position(items, want)
    {
      k := 0;
      while k < |items| && !Wants(want, items[k].0)
        invariant k <= |items|
        invariant Position(items, want) == k + Position(items[k..], want)
      {
        assert items[k..][1..] == items[k + 1..];
        k := k + 1;
      }
    }

    method TryGetResponse(want: Option<TxnId>) returns (rsp: Option<Rsp>)
      requires Valid()
      modifies this
      ensures Valid() && log == Apply(old(log), TryGet(want))
      ensures var k := Position(old(items), want);
              rsp == if k == |old(items)| then None else Some(old(items)[k].1)
    {
      StepKeepsCorrelation(log, TryGet(want));
      log := Apply(log, TryGet(want));
      var k := FindPosition(want);
      if k == |items| { return None; }
      rsp := Some(items[k].1);
      items := RemoveAt(items, k);
    }

    /** One poll of the future: the response, or the task parks. */
    method PollGetResponse(task: TaskId, want: Option<TxnId>) returns (rsp: Option<Rsp>)
      requires Valid()
      modifies this
      ensures Valid() && log == Apply(old(log), PollGet(task, want))
      ensures var k := Position(old(items), want);
              rsp == if k == |old(items)| then None else Some(old(items)[k].1)
    {
      StepKeepsCorrelation(log, PollGet(task, want));
      log := Apply(log, PollGet(task, want));
      var k := FindPosition(want);
      if k < |items| {
        rsp := Some(items[k].1);
        items := RemoveAt(items, k);
      } else {
        waiters := waiters + [Waiter(task, want)];
        rsp := None;
      }
    }
  }
}

/**
 The bounded channel of `rustdv-methodology/src/channel.rs`: a FIFO with counted endpoints
 and parked wakers. A waker is the id of the task it wakes.
 */
module Channel {
  import opened Basics

  type TaskId = nat

  datatype Chan<T> = Chan(
    cap: nat,
    buf: seq<T>,
    senders: nat,
    receivers: nat,
    sendWaiters: seq<TaskId>,
    recvWaiters: seq<TaskId>)

  /** A channel with its history: items accepted, items received, tasks woken. */
  datatype Log<T> = Log(c: Chan<T>, accepted: seq<T>, received: seq<T>, woken: seq<TaskId>)

  /** `channel`: one sender, one receiver, and a capacity of at least one. */
  function NewLog<T>(capacity: nat): Log<T> {
    Log(Chan(if capacity == 0 then 1 else capacity, [], 1, 1, [], []), [], [], [])
  }

  datatype Op<T> =
    | PollSend(task: TaskId, item: T)  // one poll of a `send` future that still has its item
    | TrySend(sent: T)
    | PollRecv(task: TaskId)
    | TryRecv
    | PollPeek(task: TaskId)
    | CloneSender
    | DropSender
    | CloneReceiver
    | DropReceiver

  /** Calls on an endpoint need one to exist; futures may outlive the endpoint they came from. */
  predicate Possible<T>(c: Chan<T>, op: Op<T>) {
    match op
    case TrySend(_) => c.senders > 0
    case TryRecv => c.receivers > 0
    case CloneSender => c.senders > 0
    case DropSender => c.senders > 0
    case CloneReceiver => c.receivers > 0
    case DropReceiver => c.receivers > 0
    case _ => true
  }

  function WakeSenders<T>(l: Log<T>): Log<T> {
    l.(c := l.c.(sendWaiters := []), woken := l.woken + l.c.sendWaiters)
  }

  function WakeReceivers<T>(l: Log<T>): Log<T> {
    l.(c := l.c.(recvWaiters := []), woken := l.woken + l.c.recvWaiters)
  }

  function PushBack<T>(l: Log<T>, item: T): Log<T> {
    WakeReceivers(l.(c := l.c.(buf := l.c.buf + [item]), accepted := l.accepted + [item]))
  }

  function PopFront<T>(l: Log<T>): Log<T>
    requires l.c.buf != []
  {
    WakeSenders(l.(c := l.c.(buf := l.c.buf[1..]), received := l.received + [l.c.buf[0]]))
  }

  predicate Accepts<T>(c: Chan<T>) { c.receivers > 0 && |c.buf| < c.cap }

  function Apply<T>(l: Log<T>, op: Op<T>): Log<T>
    requires Possible(l.c, op)
  {
    var c := l.c;
    match op
    case PollSend(task, item) =>
      if c.receivers == 0 then l
      else if Accepts(c) then PushBack(l, item)
      else l.(c := c.(sendWaiters := c.sendWaiters + [task]))
    case TrySend(item) => if Accepts(c) then PushBack(l, item) else l
    case PollRecv(task) =>
      if c.buf != [] then PopFront(l)
      else if c.senders == 0 then l
      else l.(c := c.(recvWaiters := c.recvWaiters + [task]))
    case TryRecv => if c.buf != [] then PopFront(l) else l
    case PollPeek(task) =>
      if c.buf != [] || c.senders == 0 then l
      else l.(c := c.(recvWaiters := c.recvWaiters + [task]))
    case CloneSender => l.(c := c.(senders := c.senders + 1))
    case DropSender =>
      var l' := l.(c := c.(senders := c.senders - 1));
      if c.senders == 1 then WakeReceivers(l') else l'
    case CloneReceiver => l.(c := c.(receivers := c.receivers + 1))
    case DropReceiver =>
      var l' := l.(c := c.(receivers := c.receivers - 1));
      if c.receivers == 1 then WakeSenders(l') else l'
  }

  ghost predicate IsRun<T>(l: Log<T>, run: seq<Op<T>>)
    decreases |run|
  {
    run == [] || (Possible(l.c, run[0]) && IsRun(Apply(l, run[0]), run[1..]))
  }

  ghost function After<T>(l: Log<T>, run: seq<Op<T>>): Log<T>
    requires IsRun(l, run)
    decreases |run|
  {
    if run == [] then l else After(Apply(l, run[0]), run[1..])
  }

  /**
   Nothing is lost, duplicated or reordered; the bound holds; and nobody is left parked who
   could go on: a parked sender means a full buffer and a live receiver, a parked receiver
   or peeker an empty buffer and a live sender.
   */
  ghost predicate Inv<T>(l: Log<T>) {
    && l.c.cap >= 1 && |l.c.buf| <= l.c.cap
    && l.accepted == l.received + l.c.buf
    && (l.c.sendWaiters != [] ==> |l.c.buf| == l.c.cap && l.c.receivers > 0)
    && (l.c.recvWaiters != [] ==> l.c.buf == [] && l.c.senders > 0)
  }

  lemma ApplyKeepsInv<T>(l: Log<T>, op: Op<T>)
    requires Inv(l) && Possible(l.c, op)
    ensures Inv(Apply(l, op))
  {
    if l.c.buf != [] { assert l.received + l.c.buf == l.received + [l.c.buf[0]] + l.c.buf[1..]; }
  }

  lemma {:induction false} RunKeepsInv<T>(l: Log<T>, run: seq<Op<T>>)
    requires Inv(l) && IsRun(l, run)
    ensures Inv(After(l, run))
    decreases |run|
  {
    if run != [] {
      ApplyKeepsInv(l, run[0]);
      RunKeepsInv(Apply(l, run[0]), run[1..]);
    }
  }

  /** The channel refines a FIFO in every run from creation, whatever the interleaving. */
  lemma ChannelRefinesFifo<T>(capacity: nat, run: seq<Op<T>>)
    requires IsRun(NewLog<T>(capacity), run)
    ensures var l := After(NewLog<T>(capacity), run);
            && l.accepted == l.received + l.c.buf
            && |l.c.buf| <= (if capacity == 0 then 1 else capacity)
            && (l.c.sendWaiters != [] ==> |l.c.buf| == l.c.cap && l.c.receivers > 0)
            && (l.c.recvWaiters != [] ==> l.c.buf == [] && l.c.senders > 0)
  {
    RunKeepsInv(NewLog<T>(capacity), run);
    CapIsFixed(NewLog<T>(capacity), run);
  }

  lemma {:induction false} CapIsFixed<T>(l: Log<T>, run: seq<Op<T>>)
    requires IsRun(l, run)
    ensures After(l, run).c.cap == l.c.cap
    decreases |run|
  {
    if run != [] { CapIsFixed(Apply(l, run[0]), run[1..]); }
  }

  /**
   No lost wakeup: whoever is parked before an operation is still parked for good reason
   after it, or has been woken by it.
   */
  lemma ParkedOrWoken<T>(l: Log<T>, op: Op<T>, task: TaskId)
    requires Inv(l) && Possible(l.c, op)
    ensures var l' := Apply(l, op);
            && Inv(l') && l.woken <= l'.woken
            && (task in l.c.sendWaiters ==> task in l'.c.sendWaiters || task in l'.woken[|l.woken|..])
            && (task in l.c.recvWaiters ==> task in l'.c.recvWaiters || task in l'.woken[|l.woken|..])
            && (task in l.c.sendWaiters && (Accepts(l'.c) || l'.c.receivers == 0) ==> task in l'.woken[|l.woken|..])
            && (task in l.c.recvWaiters && (l'.c.buf != [] || l'.c.senders == 0) ==> task in l'.woken[|l.woken|..])
  {
    ApplyKeepsInv(l, op);
    var l' := Apply(l, op);
    assert (l.woken + l.c.sendWaiters)[|l.woken|..] == l.c.sendWaiters;
    assert (l.woken + l.c.recvWaiters)[|l.woken|..] == l.c.recvWaiters;
  }

  // ---------------------------------------------------------------------------
  // What callers see
  // ---------------------------------------------------------------------------

  /** What a call answers: a poll that answers `Waits` is pending. */
  datatype Answer<T> = Sent | Refused | Got(value: T) | Nothing | Closed | Waits | Silent

  function AnswerOf<T>(c: Chan<T>, op: Op<T>): Answer<T> {
    match op
    case PollSend(_, _) => if c.receivers == 0 then Closed else if |c.buf| < c.cap then Sent else Waits
    case TrySend(_) => if c.receivers == 0 || |c.buf| >= c.cap then Refused else Sent
    case PollRecv(_) => if c.buf != [] then Got(c.buf[0]) else if c.senders == 0 then Closed else Waits
    case PollPeek(_) => if c.buf != [] then Got(c.buf[0]) else if c.senders == 0 then Closed else Waits
    case TryRecv => if c.buf != [] then Got(c.buf[0]) else Nothing
    case _ => Silent
  }

  function SentItem<T>(op: Op<T>, a: Answer<T>): seq<T> {
    if a != Sent then [] else if op.PollSend? then [op.item] else if op.TrySend? then [op.sent] else []
  }

  function ReceivedItem<T>(op: Op<T>, a: Answer<T>): seq<T> {
    if (op.PollRecv? || op.TryRecv?) && a.Got? then [a.value] else []
  }

  /** The items whose `send` or `try_send` answered success, in order of the answers. */
  ghost function AllSent<T>(l: Log<T>, run: seq<Op<T>>): seq<T>
    requires IsRun(l, run)
    decreases |run|
  {
    if run == [] then [] else SentItem(run[0], AnswerOf(l.c, run[0])) + AllSent(Apply(l, run[0]), run[1..])
  }

  /** The values handed out by `recv` and `try_recv`, in order. */
  ghost function AllReceived<T>(l: Log<T>, run: seq<Op<T>>): seq<T>
    requires IsRun(l, run)
    decreases |run|
  {
    if run == [] then [] else ReceivedItem(run[0], AnswerOf(l.c, run[0])) + AllReceived(Apply(l, run[0]), run[1..])
  }

  lemma StepHistory<T>(l: Log<T>, op: Op<T>)
    requires Possible(l.c, op)
    ensures Apply(l, op).accepted == l.accepted + SentItem(op, AnswerOf(l.c, op))
    ensures Apply(l, op).received == l.received + ReceivedItem(op, AnswerOf(l.c, op))
  {}

  lemma {:induction false} HistoriesAreAnswers<T>(l: Log<T>, run: seq<Op<T>>)
    requires IsRun(l, run)
    ensures After(l, run).accepted == l.accepted + AllSent(l, run)
    ensures After(l, run).received == l.received + AllReceived(l, run)
    decreases |run|
  {
    if run != [] {
      StepHistory(l, run[0]);
      HistoriesAreAnswers(Apply(l, run[0]), run[1..]);
    }
  }

  /**
   Seen from the callers alone: the items reported as sent are, in order, the values handed
   to receivers followed by what is still buffered. Nothing is lost, invented or reordered.
   */
  lemma SentIsReceivedThenBuffered<T>(capacity: nat, run: seq<Op<T>>)
    requires IsRun(NewLog<T>(capacity), run)
    ensures AllSent(NewLog<T>(capacity), run) ==
            AllReceived(NewLog<T>(capacity), run) + After(NewLog<T>(capacity), run).c.buf
  {
    var l := NewLog<T>(capacity);
    HistoriesAreAnswers(l, run);
    ChannelRefinesFifo(capacity, run);
    assert [] + AllSent(l, run) == AllSent(l, run) && [] + AllReceived(l, run) == AllReceived(l, run);
  }

  lemma {:induction false} StillParkedOrWoken<T>(l: Log<T>, run: seq<Op<T>>, task: TaskId)
    requires Inv(l) && IsRun(l, run)
    ensures l.woken <= After(l, run).woken
    ensures task in l.c.sendWaiters ==> task in After(l, run).c.sendWaiters || task in After(l, run).woken[|l.woken|..]
    ensures task in l.c.recvWaiters ==> task in After(l, run).c.recvWaiters || task in After(l, run).woken[|l.woken|..]
    decreases |run|
  {
    if run != [] {
      var m, z := Apply(l, run[0]), After(l, run);
      ParkedOrWoken(l, run[0], task);
      StillParkedOrWoken(m, run[1..], task);
      SuffixGrows(l.woken, m.woken, z.woken, task);
    }
  }

  lemma SuffixGrows(a: seq<TaskId>, b: seq<TaskId>, c: seq<TaskId>, task: TaskId)
    requires a <= b <= c
    ensures task in b[|a|..] || task in c[|b|..] ==> task in c[|a|..]
  {
    assert c[|a|..] == b[|a|..] + c[|b|..];
  }

  /**
   No lost wakeup over runs: a poll that answered pending is woken before its operation can
   go through, whatever happens in between.
   */
  lemma PendingIsWoken<T>(l: Log<T>, op: Op<T>, run: seq<Op<T>>)
    requires Inv(l) && Possible(l.c, op) && AnswerOf(l.c, op) == Waits && IsRun(Apply(l, op), run)
    ensures var z := After(Apply(l, op), run);
            l.woken <= z.woken &&
            ((if op.PollSend? then Accepts(z.c) || z.c.receivers == 0 else z.c.buf != [] || z.c.senders == 0)
             ==> op.task in z.woken[|l.woken|..])
  {
    var m := Apply(l, op);
    ApplyKeepsInv(l, op);
    StillParkedOrWoken(m, run, op.task);
    RunKeepsInv(m, run);
    SuffixGrows(l.woken, m.woken, After(m, run).woken, op.task);
  }

  /** Clones minus drops of one side's endpoints. */
  function Balance<T>(run: seq<Op<T>>, sending: bool): int {
    if run == [] then 0
    else
      Balance(run[1..], sending) +
      (match run[0]
       case CloneSender => if sending then 1 else 0
       case DropSender => if sending then -1 else 0
       case CloneReceiver => if sending then 0 else 1
       case DropReceiver => if sending then 0 else -1
       case _ => 0)
  }

  /** The counts are the endpoints alive: those there were, plus the clones, minus the drops. */
  lemma {:induction false} EndpointsCounted<T>(l: Log<T>, run: seq<Op<T>>)
    requires IsRun(l, run)
    ensures After(l, run).c.senders == l.c.senders + Balance(run, true)
    ensures After(l, run).c.receivers == l.c.receivers + Balance(run, false)
    decreases |run|
  {
    if run != [] { EndpointsCounted(Apply(l, run[0]), run[1..]); }
  }

  // ---------------------------------------------------------------------------
  // Is a disconnect final?
  // ---------------------------------------------------------------------------

  /** What a receiver that is told `Disconnected` has seen. */
  predicate LooksClosed<T>(c: Chan<T>) { c.buf == [] && c.senders == 0 }

  /** Somewhere in the run a `send` future that outlived its sender is polled with a receiver alive. */
  ghost predicate LateSend<T>(l: Log<T>, run: seq<Op<T>>)
    requires IsRun(l, run)
    decreases |run|
  {
    run != [] && ((run[0].PollSend? && l.c.receivers > 0) || LateSend(Apply(l, run[0]), run[1..]))
  }

  lemma {:induction false} AcceptedGrows<T>(l: Log<T>, run: seq<Op<T>>)
    requires IsRun(l, run)
    ensures l.accepted <= After(l, run).accepted
    decreases |run|
  {
    if run != [] { AcceptedGrows(Apply(l, run[0]), run[1..]); }
  }

  /**
   A disconnect is not always final: after a receiver has been told `Disconnected`, more
   items are accepted if and only if a pending `send` future outlived its sender and is
   polled while a receiver is still alive.
   */
  lemma {:induction false} DisconnectIsFinalIff<T>(l: Log<T>, run: seq<Op<T>>)
    requires Inv(l) && LooksClosed(l.c) && IsRun(l, run)
    ensures After(l, run).accepted == l.accepted <==> !LateSend(l, run)
    decreases |run|
  {
    if run != [] {
      var l' := Apply(l, run[0]);
      ApplyKeepsInv(l, run[0]);
      if run[0].PollSend? && l.c.receivers > 0 {
        AcceptedGrows(l', run[1..]);
      } else {
        DisconnectIsFinalIff(l', run[1..]);
      }
    }
  }

  /**
   There is such a run: the only sender is dropped while its `send` future lives, the
   receiver is told `Disconnected`, and the next two polls send and receive the item.
   */
  lemma DisconnectedThenReceived<T>(sender: TaskId, receiver: TaskId, item: T)
    ensures var l0 := NewLog<T>(1);
            var closing, rest := [DropSender, PollRecv(receiver)], [PollSend(sender, item), PollRecv(receiver)];
            && IsRun(l0, closing) && LooksClosed(After(l0, closing).c) && After(l0, closing).received == []
            && IsRun(After(l0, closing), rest) && LateSend(After(l0, closing), rest)
            && After(After(l0, closing), rest).received == [item]
  {
    var l0 := NewLog<T>(1);
    var l1 := Apply(l0, DropSender);
    TwoSteps(l0, DropSender, PollRecv(receiver));
    assert After(l0, [DropSender, PollRecv(receiver)]) == l1;
    var l2 := Apply(l1, PollSend(sender, item));
    assert l2.c.buf == [item] && l2.received == [];
    TwoSteps(l1, PollSend(sender, item), PollRecv(receiver));
    assert [] + [item] == [item];
  }

  lemma TwoSteps<T>(l: Log<T>, a: Op<T>, b: Op<T>)
    requires Possible(l.c, a) && Possible(Apply(l, a).c, b)
    ensures IsRun(l, [a, b]) && After(l, [a, b]) == Apply(Apply(l, a), b)
    ensures LateSend(l, [a, b]) <== a.PollSend? && l.c.receivers > 0
  {
    var m := Apply(l, a);
    assert [a, b][1..] == [b] && [b][1..] == [];
    assert IsRun(Apply(m, b), []) && After(Apply(m, b), []) == Apply(m, b);
    assert IsRun(m, [b]) && After(m, [b]) == Apply(m, b);
  }

  // ---------------------------------------------------------------------------
  // The mutable channel
  // ---------------------------------------------------------------------------

  datatype TlmError = Disconnected
  datatype Poll<+T> = Ready(value: T) | Pending

  class ChanInner<T> {
    var buf: seq<T>
    const cap: nat
    var senders: nat
    var receivers: nat
    var sendWaiters: seq<TaskId>
    var recvWaiters: seq<TaskId>
    ghost var accepted: seq<T>
    ghost var received: seq<T>
    ghost var woken: seq<TaskId>

    ghost function View(): Log<T>
      reads this
    {
      Log(Chan(cap, buf, senders, receivers, sendWaiters, recvWaiters), accepted, received, woken)
    }

    ghost predicate Valid()
      reads this
    {
      Inv(View())
    }

    constructor (capacity: nat)
      ensures Valid() && View() == NewLog(capacity)
    {
      cap := if capacity == 0 then 1 else capacity;
      buf, senders, receivers, sendWaiters, recvWaiters := [], 1, 1, [], [];
      accepted, received, woken := [], [], [];
    }

    method DrainSendWaiters()
      modifies this
      ensures View() == WakeSenders(old(View()))
    {
      ghost var before := woken;
      var i := 0;
      while i < |sendWaiters|
        invariant i <= |sendWaiters|
        invariant View() == old(View()).(woken := before + sendWaiters[..i])
      {
        assert sendWaiters[..i + 1] == sendWaiters[..i] + [sendWaiters[i]];
        woken := woken + [sendWaiters[i]];
        i := i + 1;
      }
      assert sendWaiters[..i] == sendWaiters;
      sendWaiters := [];
    }

    method DrainRecvWaiters()
      modifies this
      ensures View() == WakeReceivers(old(View()))
    {
      ghost var before := woken;
      var i := 0;
      while i < |recvWaiters|
        invariant i <= |recvWaiters|
        invariant View() == old(View()).(woken := before + recvWaiters[..i])
      {
        assert recvWaiters[..i + 1] == recvWaiters[..i] + [recvWaiters[i]];
        woken := woken + [recvWaiters[i]];
        i := i + 1;
      }
      assert recvWaiters[..i] == recvWaiters;
      recvWaiters := [];
    }

    /** One poll of the `send` future. */
    method SendPoll(task: TaskId, item: T) returns (r: Poll<Result<(), TlmError>>)
      requires Valid()
      modifies this
      ensures Valid() && View() == Apply(old(View()), PollSend(task, item))
      ensures r == if old(receivers) == 0 then Ready(Err(Disconnected))
                   else if |old(buf)| < cap then Ready(Ok(())) else Pending
      ensures var a := AnswerOf(old(View()).c, PollSend(task, item));
              (r == Ready(Ok(())) <==> a == Sent) && (r == Pending <==> a == Waits)
    {
      ApplyKeepsInv(View(), PollSend(task, item));
      if receivers == 0 { return Ready(Err(Disconnected)); }
      if |buf| < cap {
        buf, accepted := buf + [item], accepted + [item];
        DrainRecvWaiters();
        return Ready(Ok(()));
      }
      sendWaiters := sendWaiters + [task];
      r := Pending;
    }

    /** `try_send`: the item comes back when it was not accepted. */
    method TrySendItem(item: T) returns (r: Result<(), T>)
      requires Valid() && senders > 0
      modifies this
      ensures Valid() && View() == Apply(old(View()), TrySend(item))
      ensures r == if old(receivers) > 0 && |old(buf)| < cap then Ok(()) else Err(item)
      ensures r.Ok? <==> AnswerOf(old(View()).c, TrySend(item)) == Sent
    {
      ApplyKeepsInv(View(), TrySend(item));
      if receivers == 0 || |buf| >= cap { return Err(item); }
      buf, accepted := buf + [item], accepted + [item];
      DrainRecvWaiters();
      r := Ok(());
    }

    /** One poll of the `recv` future; buffered items are handed out even after all senders are gone. */
    method RecvPoll(task: TaskId) returns (r: Poll<Result<T, TlmError>>)
      requires Valid()
      modifies this
      ensures Valid() && View() == Apply(old(View()), PollRecv(task))
      ensures r == if old(buf) != [] then Ready(Ok(old(buf)[0]))
                   else if old(senders) == 0 then Ready(Err(Disconnected)) else Pending
      ensures r.Ready? && r.value.Ok? ==> |old(received)| < |accepted| && r.value.value == accepted[|old(received)|]
      ensures var a := AnswerOf(old(View()).c, PollRecv(task));
              (r == Pending <==> a == Waits) && (r.Ready? && r.value.Ok? ==> a == Got(r.value.value))
    {
      ApplyKeepsInv(View(), PollRecv(task));
      if buf != [] {
        var v := buf[0];
        buf, received := buf[1..], received + [v];
        DrainSendWaiters();
        return Ready(Ok(v));
      }
      if senders == 0 { return Ready(Err(Disconnected)); }
      recvWaiters := recvWaiters + [task];
      r := Pending;
    }

    method TryRecvItem() returns (r: Option<T>)
      requires Valid() && receivers > 0
      modifies this
      ensures Valid() && View() == Apply(old(View()), TryRecv)
      ensures r == if old(buf) != [] then Some(old(buf)[0]) else None
      ensures AnswerOf(old(View()).c, TryRecv) == if r.Some? then Got(r.value) else Nothing
    {
      ApplyKeepsInv(View(), TryRecv);
      if buf == [] { return None; }
      r := Some(buf[0]);
      buf, received := buf[1..], received + [buf[0]];
      DrainSendWaiters();
    }

    /** One poll of the `peek` future: a copy of the front item, which stays. */
    method PeekPoll(task: TaskId) returns (r: Poll<Result<T, TlmError>>)
      requires Valid()
      modifies this
      ensures Valid() && View() == Apply(old(View()), PollPeek(task))
      ensures r == if old(buf) != [] then Ready(Ok(old(buf)[0]))
                   else if old(senders) == 0 then Ready(Err(Disconnected)) else Pending
    {
      if buf != [] { return Ready(Ok(buf[0])); }
      if senders == 0 { return Ready(Err(Disconnected)); }
      recvWaiters := recvWaiters + [task];
      r := Pending;
    }

    method CloneSenderEnd()
      requires Valid() && senders > 0
      modifies this
      ensures Valid() && View() == Apply(old(View()), CloneSender)
    {
      senders := senders + 1;
    }

    method DropSenderEnd()
      requires Valid() && senders > 0
      modifies this
      ensures Valid() && View() == Apply(old(View()), DropSender)
    {
      ApplyKeepsInv(View(), DropSender);
      senders := senders - 1;
      if senders == 0 { DrainRecvWaiters(); }
    }

    method CloneReceiverEnd()
      requires Valid() && receivers > 0
      modifies this
      ensures Valid() && View() == Apply(old(View()), CloneReceiver)
    {
      receivers := receivers + 1;
    }

    method DropReceiverEnd()
      requires Valid() && receivers > 0
      modifies this
      ensures Valid() && View() == Apply(old(View()), DropReceiver)
    {
      ApplyKeepsInv(View(), DropReceiver);
      receivers := receivers - 1;
      if receivers == 0 { DrainSendWaiters(); }
    }
  }
}

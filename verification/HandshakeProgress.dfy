/**
 Progress of the sequencer/driver handshake: deadlock freedom and exact run length with a
 blocking driver, and the bound on unsuccessful polls with a polling one.
 */
module HandshakeProgress {
  import opened Basics
  import opened Handshake

  // ---------------------------------------------------------------------------
  // Deadlock freedom and termination
  // ---------------------------------------------------------------------------

  const STEPS_PER_ITEM: nat := 7

  /** Handshake steps still needed by sequence `i` before it is finished. */
  ghost function Remaining<Req>(s: Sys<Req>, i: nat): nat
    requires i < |s.procs|
  {
    var p := s.procs[i];
    var rest := STEPS_PER_ITEM * |p.todo|;
    if p.pc == Between || p.pc.ticket !in s.q.slots || p.todo == [] then rest
    else
      var slot := s.q.slots[p.pc.ticket];
      match p.pc
      case WaitGrant(t) => if slot.granted then rest - 2 else rest - 1
      case Filling(t) => rest - 3
      case WaitDone(t) => if slot.done then rest - 6 else if s.drv == Driving(t) then rest - 5 else rest - 4
      case Between => rest
  }

  ghost function AllRemaining<Req>(s: Sys<Req>): seq<nat> {
    seq(|s.procs|, i requires 0 <= i < |s.procs| => Remaining(s, i))
  }

  ghost function Measure<Req>(s: Sys<Req>): nat { Sum(AllRemaining(s)) }

  ghost predicate Finished<Req>(s: Sys<Req>) {
    forall i :: 0 <= i < |s.procs| ==> s.procs[i].todo == [] && s.procs[i].pc == Between
  }

  /**
   A driver call that moves no item forward: a poll of an empty queue, a poll whose head
   is granted but not filled, or a blocking call that pops an item granted by an earlier poll.
   */
  ghost predicate Idles<Req>(s: Sys<Req>, e: Step)
    requires Enabled(s, e)
  {
    && (e == TryNextItem || e == GetNext)
    && (s.q.queue != [] ==>
          s.q.slots[s.q.queue[0]].granted && (e == TryNextItem ==> s.q.slots[s.q.queue[0]].payload == None))
  }

  ghost function Progress<Req>(s: Sys<Req>, e: Step): nat
    requires Enabled(s, e)
  {
    if Idles(s, e) then 0 else 1
  }

  /** The ticket a driver step works on. */
  ghost function DriverTicket<Req>(s: Sys<Req>): TxnId {
    if s.drv != Idle then s.drv.ticket else if s.q.queue != [] then s.q.queue[0] else 0
  }

  /** The sequence that a step moves forward. */
  ghost function Mover<Req>(s: Sys<Req>, e: Step): nat {
    if BySequence(e) then e.i
    else if DriverTicket(s) in s.owner then s.owner[DriverTicket(s)] else 0
  }

  lemma SequenceLeavesOthers<Req>(s: Sys<Req>, e: Step, i: nat)
    requires OwnerInv(s) && Enabled(s, e) && BySequence(e) && i < |s.procs| && i != e.i
    requires forall t :: t in s.q.slots ==> t != s.q.nextId
    ensures Remaining(Next(s, e), i) == Remaining(s, i)
  {
    assert ProcOk(s, i) && ProcOk(s, e.i);
  }

  lemma SequenceMovesItself<Req>(s: Sys<Req>, e: Step)
    requires Enabled(s, e) && BySequence(e) && ProcOk(s, e.i)
    requires forall t :: t in s.q.slots ==> SlotPayload(s, t)
    ensures Remaining(Next(s, e), e.i) == Remaining(s, e.i) - 1
  {
    if s.procs[e.i].pc != Between { assert SlotPayload(s, s.procs[e.i].pc.ticket); }
  }

  lemma DriverLeavesOthers<Req>(s: Sys<Req>, e: Step, i: nat)
    requires StageInv(s) && Enabled(s, e) && !BySequence(e) && i < |s.procs|
    requires TicketOf(s.procs[i].pc) != Some(DriverTicket(s))
    ensures Remaining(Next(s, e), i) == Remaining(s, i)
  {}

  lemma DriverMovesOwner<Req>(s: Sys<Req>, e: Step, i: nat)
    requires StageInv(s) && PayloadInv(s) && Enabled(s, e) && !BySequence(e) && i < |s.procs| && ProcOk(s, i)
    requires TicketOf(s.procs[i].pc) == Some(DriverTicket(s))
    requires s.q.queue != [] || s.drv != Idle
    ensures Remaining(Next(s, e), i) == Remaining(s, i) - Progress(s, e)
  {
    var t := DriverTicket(s);
    assert SlotStage(s, t) && SlotPayload(s, t);
    assert s.q.queue != [] ==> s.q.queue[0] in s.q.queue;
  }

  lemma RemainingAfterStep<Req>(s: Sys<Req>, e: Step, i: nat)
    requires Inv(s) && Enabled(s, e) && i < |s.procs|
    ensures Remaining(Next(s, e), i) == Remaining(s, i) - (if i == Mover(s, e) then Progress(s, e) else 0)
  {
    if BySequence(e) {
      assert ProcOk(s, e.i);
      if i == e.i { SequenceMovesItself(s, e); } else { SequenceLeavesOthers(s, e, i); }
    } else {
      var t := DriverTicket(s);
      assert ProcOk(s, i);
      assert s.q.queue != [] ==> s.q.queue[0] in s.q.queue;
      if t in s.q.slots { assert SlotOwner(s, t) && SlotStage(s, t); }
      if TicketOf(s.procs[i].pc) == Some(t) { DriverMovesOwner(s, e, i); } else { DriverLeavesOthers(s, e, i); }
    }
  }

  lemma MeasureChange<Req>(s: Sys<Req>, s': Sys<Req>, m: nat, d: nat)
    requires |s'.procs| == |s.procs| && (d == 0 || m < |s.procs|)
    requires forall i :: 0 <= i < |s.procs| ==> Remaining(s', i) == Remaining(s, i) - (if i == m then d else 0)
    ensures Measure(s') == Measure(s) - d
  {
    var before, after := AllRemaining(s), AllRemaining(s');
    if d == 0 {
      assert after == before;
    } else {
      assert after == before[m := Remaining(s', m)];
      SumOfUpdate(before, m, Remaining(s', m));
    }
  }

  lemma MoverIsLive<Req>(s: Sys<Req>, e: Step)
    requires Inv(s) && Enabled(s, e) && !Idles(s, e)
    ensures Mover(s, e) < |s.procs|
  {
    if !BySequence(e) {
      assert s.q.queue != [] ==> s.q.queue[0] in s.q.queue;
      assert SlotStage(s, DriverTicket(s)) && SlotOwner(s, DriverTicket(s));
    }
  }

  /** Every step but an idle driver call brings the whole system exactly one step closer to the end. */
  lemma StepDecreasesMeasure<Req>(s: Sys<Req>, e: Step)
    requires Inv(s) && Enabled(s, e)
    ensures Measure(Next(s, e)) == Measure(s) - Progress(s, e)
  {
    forall i | 0 <= i < |s.procs|
      ensures Remaining(Next(s, e), i) == Remaining(s, i) - (if i == Mover(s, e) then Progress(s, e) else 0)
    {
      RemainingAfterStep(s, e, i);
    }
    if !Idles(s, e) { MoverIsLive(s, e); }
    MeasureChange(s, Next(s, e), Mover(s, e), Progress(s, e));
  }

  // ---------------------------------------------------------------------------
  // No reachable state is stuck
  // ---------------------------------------------------------------------------

  /** If the driver has something to do, somebody can move. */
  lemma DriverUnblocks<Req>(s: Sys<Req>) returns (e: Step)
    requires Inv(s) && (s.q.queue != [] || s.drv != Idle)
    ensures e != TryNextItem && Enabled(s, e)
  {
    if s.drv == Idle {
      assert s.q.queue[0] in s.q.queue;
      return GetNext;
    }
    var t := s.drv.ticket;
    assert SlotStage(s, t) && SlotPayload(s, t) && SlotOwner(s, t);
    if s.drv.Driving? { return ItemDone; }
    if s.q.slots[t].ready { return TakeReady; }
    var j := s.owner[t];
    assert ProcOk(s, j);
    e := if s.procs[j].pc.Filling? then FinishItem(j) else SeeGrant(j);
  }

  /** In every state with an unfinished sequence some step other than a poll is enabled. */
  lemma NeverStuck<Req>(s: Sys<Req>) returns (e: Step)
    requires Inv(s) && !Finished(s)
    ensures e != TryNextItem && Enabled(s, e)
  {
    var i :| 0 <= i < |s.procs| && !(s.procs[i].todo == [] && s.procs[i].pc == Between);
    assert ProcOk(s, i);
    match s.procs[i].pc
    case Between => e := StartItem(i);
    case Filling(t) => e := FinishItem(i);
    case WaitGrant(t) =>
      assert SlotStage(s, t) && SlotPayload(s, t);
      if s.q.slots[t].granted { e := SeeGrant(i); } else { e := DriverUnblocks(s); }
    case WaitDone(t) =>
      assert SlotStage(s, t);
      if s.q.slots[t].done { e := SeeDone(i); } else { e := DriverUnblocks(s); }
  }

  lemma FinishedIsZero<Req>(s: Sys<Req>)
    requires Inv(s)
    ensures Measure(s) == 0 <==> Finished(s)
  {
    SumZero(AllRemaining(s));
    forall i | 0 <= i < |s.procs|
      ensures AllRemaining(s)[i] == 0 <==> s.procs[i].todo == [] && s.procs[i].pc == Between
    {
      assert ProcOk(s, i);
    }
  }

  // ---------------------------------------------------------------------------
  // Runs with a blocking driver
  // ---------------------------------------------------------------------------

  ghost predicate QueueUngranted<Req>(s: Sys<Req>) {
    forall t :: t in s.q.queue && t in s.q.slots ==> !s.q.slots[t].granted
  }

  lemma BlockingStepKeepsUngranted<Req>(s: Sys<Req>, e: Step)
    requires StageInv(s) && QueueUngranted(s) && Enabled(s, e) && e != TryNextItem
    ensures QueueUngranted(Next(s, e)) && !Idles(s, e)
  {
    QueueKept(s, e);
    assert s.q.queue != [] ==> s.q.queue[0] in s.q.queue;
  }

  lemma {:induction false} BlockingRunKeepsUngranted<Req>(s: Sys<Req>, run: seq<Step>)
    requires Inv(s) && QueueUngranted(s) && IsRun(s, run) && Blocking(run)
    ensures QueueUngranted(After(s, run))
    decreases |run|
  {
    if run != [] {
      BlockingStepKeepsUngranted(s, run[0]);
      StepKeepsInv(s, run[0]);
      assert Blocking(run[1..]);
      BlockingRunKeepsUngranted(Next(s, run[0]), run[1..]);
    }
  }

  /**
   With a driver that only blocks, at most one slot is granted and not done, and it is the
   one the driver holds.
   */
  lemma AtMostOneGranted<Req>(s0: Sys<Req>, run: seq<Step>, t: TxnId, u: TxnId)
    requires Init(s0) && IsRun(s0, run) && Blocking(run)
    requires t in After(s0, run).q.slots && u in After(s0, run).q.slots
    ensures var s := After(s0, run);
            && (s.q.slots[t].granted && !s.q.slots[t].done <==> Held(s, t))
            && (s.q.slots[t].granted && !s.q.slots[t].done && s.q.slots[u].granted && !s.q.slots[u].done ==> t == u)
  {
    var s := After(s0, run);
    InitHasInv(s0);
    RunKeepsInv(s0, run);
    BlockingRunKeepsUngranted(s0, run);
    assert SlotStage(s, t) && SlotStage(s, u);
  }

  lemma {:induction false} BlockingRunMeasure<Req>(s: Sys<Req>, run: seq<Step>)
    requires Inv(s) && QueueUngranted(s) && IsRun(s, run) && Blocking(run)
    ensures Measure(After(s, run)) == Measure(s) - |run|
    decreases |run|
  {
    if run != [] {
      BlockingStepKeepsUngranted(s, run[0]);
      StepDecreasesMeasure(s, run[0]);
      StepKeepsInv(s, run[0]);
      assert Blocking(run[1..]);
      BlockingRunMeasure(Next(s, run[0]), run[1..]);
    }
  }

  ghost function Items<Req>(s: Sys<Req>): seq<nat> {
    seq(|s.procs|, i requires 0 <= i < |s.procs| => |s.procs[i].todo|)
  }

  lemma {:induction false} SumScales(a: seq<nat>, b: seq<nat>, c: nat)
    requires |a| == |b| && forall i :: 0 <= i < |a| ==> b[i] == c * a[i]
    ensures Sum(b) == c * Sum(a)
  {
    if a != [] { SumScales(a[1..], b[1..], c); }
  }

  /** From the start the handshake needs exactly seven steps per item. */
  lemma InitialMeasure<Req>(s: Sys<Req>)
    requires Init(s)
    ensures Measure(s) == STEPS_PER_ITEM * Sum(Items(s))
  {
    SumScales(Items(s), AllRemaining(s), STEPS_PER_ITEM);
  }

  /**
   Deadlock freedom and termination. With finite sequences and a blocking driver no run
   is longer than seven steps per item, and a run can be extended exactly as long as some
   sequence is unfinished; so every maximal run ends, after exactly that many steps, with
   all sequences finished.
   */
  lemma BlockingRunsComplete<Req>(s0: Sys<Req>, run: seq<Step>)
    requires Init(s0) && IsRun(s0, run) && Blocking(run)
    ensures var s := After(s0, run);
            var total := STEPS_PER_ITEM * Sum(Items(s0));
            && |run| <= total
            && (|run| == total <==> Finished(s))
            && (Finished(s) <==> forall e :: Enabled(s, e) ==> e == TryNextItem)
  {
    var s := After(s0, run);
    InitHasInv(s0);
    RunKeepsInv(s0, run);
    BlockingRunMeasure(s0, run);
    InitialMeasure(s0);
    FinishedIsZero(s);
    if Finished(s) {
      FinishedDriverIsIdle(s);
    } else {
      var e := NeverStuck(s);
    }
  }

  lemma FinishedDriverIsIdle<Req>(s: Sys<Req>)
    requires Inv(s) && Finished(s)
    ensures s.drv == Idle && s.q.queue == []
  {
    forall t | t in s.q.slots
      ensures s.q.slots[t].done && SlotStage(s, t)
    {
      assert SlotOwner(s, t);
    }
    HeadIsMember(s.q.queue);
  }

  // ---------------------------------------------------------------------------
  // Every item is delivered
  // ---------------------------------------------------------------------------

  /** Items each sequence has not started yet. */
  ghost function Unstarted<Req>(s: Sys<Req>): seq<nat> {
    seq(|s.procs|, i requires 0 <= i < |s.procs| =>
      if s.procs[i].pc != Between && s.procs[i].todo != [] then |s.procs[i].todo| - 1 else |s.procs[i].todo|)
  }

  lemma StepKeepsItemCount<Req>(s: Sys<Req>, e: Step)
    requires OwnerInv(s) && Enabled(s, e)
    ensures Sum(Unstarted(Next(s, e))) + Next(s, e).q.nextId == Sum(Unstarted(s)) + s.q.nextId
  {
    var before, after := Unstarted(s), Unstarted(Next(s, e));
    if BySequence(e) {
      assert ProcOk(s, e.i);
      assert after == before[e.i := after[e.i]];
      SumOfUpdate(before, e.i, after[e.i]);
    } else {
      assert after == before;
    }
  }

  lemma {:induction false} RunKeepsItemCount<Req>(s: Sys<Req>, run: seq<Step>)
    requires Inv(s) && IsRun(s, run)
    ensures Sum(Unstarted(After(s, run))) + After(s, run).q.nextId == Sum(Unstarted(s)) + s.q.nextId
    decreases |run|
  {
    if run != [] {
      StepKeepsInv(s, run[0]);
      StepKeepsItemCount(s, run[0]);
      RunKeepsItemCount(Next(s, run[0]), run[1..]);
    }
  }

  /**
   When all sequences have finished, whatever the mix of blocking calls and polls, the
   tickets are exactly 1 up to the number of items, and every one of them was driven,
   released and returned.
   */
  lemma FinishedMeansAllDriven<Req>(s0: Sys<Req>, run: seq<Step>, t: TxnId)
    requires Init(s0) && IsRun(s0, run) && Finished(After(s0, run))
    ensures var s := After(s0, run);
            && (t in s.q.slots <==> 1 <= t <= Sum(Items(s0)))
            && (t in s.q.slots <==> t in s.driven)
            && (t in s.q.slots <==> t in s.released)
            && (t in s.q.slots <==> t in s.returned)
  {
    var s := After(s0, run);
    InitHasInv(s0);
    RunKeepsInv(s0, run);
    RunKeepsItemCount(s0, run);
    assert Unstarted(s0) == Items(s0);
    SumZero(Unstarted(s));
    if t in s.q.slots { assert SlotOwner(s, t) && SlotPayload(s, t) && SlotStage(s, t); }
  }

  // ---------------------------------------------------------------------------
  // The polling driver
  // ---------------------------------------------------------------------------

  function Polls(run: seq<Step>): nat {
    if run == [] then 0 else (if run[0] == TryNextItem then 1 else 0) + Polls(run[1..])
  }

  /**
   A stretch of unsuccessful polling: the only driver steps are polls that hand nothing
   over, and whenever a poll pops an item granted before, its owner has filled it.
   */
  ghost predicate UnluckyPolling<Req>(s: Sys<Req>, run: seq<Step>)
    requires IsRun(s, run)
    decreases |run|
  {
    run != [] ==>
      && (BySequence(run[0]) || run[0] == TryNextItem)
      && (run[0] == TryNextItem ==>
            && TryNextResult(s.q) == None
            && (s.q.queue != [] && s.q.slots[s.q.queue[0]].granted ==>
                  s.q.slots[s.q.queue[0]].payload.Some?))
      && UnluckyPolling(Next(s, run[0]), run[1..])
  }

  lemma {:induction false} PollsUpToGranted<Req>(s: Sys<Req>, run: seq<Step>, m: nat)
    requires StageInv(s) && IsRun(s, run) && UnluckyPolling(s, run)
    requires m < |s.q.queue| && s.q.queue[m] in s.q.queue && s.q.slots[s.q.queue[m]].granted
    ensures Polls(run) <= m
    decreases |run|
  {
    if run != [] {
      StepKeepsStage(s, run[0]);
      PollsUpToGranted(Next(s, run[0]), run[1..], if run[0] == TryNextItem then m - 1 else m);
    }
  }

  /**
   With `m >= 1` items queued at the first poll, whose owners fill them before they are
   popped again, at most `m` consecutive polls return nothing, whatever the sequences do
   and start between the polls.
   */
  lemma AtMostQueueLengthPollsFail<Req>(s0: Sys<Req>, before: seq<Step>, run: seq<Step>)
    requires Init(s0) && IsRun(s0, before) && IsRun(After(s0, before), run)
    requires UnluckyPolling(After(s0, before), run) && After(s0, before).q.queue != []
    requires run != [] && run[0] == TryNextItem
    ensures Polls(run) <= |After(s0, before).q.queue|
  {
    var s := After(s0, before);
    InitHasInv(s0);
    RunKeepsInv(s0, before);
    StepKeepsStage(s, TryNextItem);
    PollsUpToGranted(Next(s, TryNextItem), run[1..], |s.q.queue| - 1);
  }

  /** The only driver steps are polls, and none of them hands an item over. */
  ghost predicate FruitlessPolling<Req>(s: Sys<Req>, run: seq<Step>)
    requires IsRun(s, run)
    decreases |run|
  {
    run != [] ==>
      && (BySequence(run[0]) || (run[0] == TryNextItem && Next(s, run[0]).drv == Idle))
      && FruitlessPolling(Next(s, run[0]), run[1..])
  }

  lemma {:induction false} GrantedStays<Req>(s: Sys<Req>, run: seq<Step>, t: TxnId)
    requires StageInv(s) && IsRun(s, run) && t in s.q.slots && s.q.slots[t].granted
    ensures t in After(s, run).q.slots && After(s, run).q.slots[t].granted
    decreases |run|
  {
    if run != [] {
      StepKeepsStage(s, run[0]);
      StepKeepsGrant(s, run[0], t);
      GrantedStays(Next(s, run[0]), run[1..], t);
    }
  }

  lemma StepKeepsGrant<Req>(s: Sys<Req>, e: Step, t: TxnId)
    requires StageInv(s) && Enabled(s, e) && t in s.q.slots && s.q.slots[t].granted
    ensures t in Next(s, e).q.slots && Next(s, e).q.slots[t].granted
  {}

  /** A fruitless poll moves everybody one place up and grants the head. */
  lemma FruitlessStep<Req>(s: Sys<Req>, e: Step, k: nat)
    requires StageInv(s) && Enabled(s, e) && k < |s.q.queue|
    requires BySequence(e) || (e == TryNextItem && Next(s, e).drv == Idle)
    ensures var s', t := Next(s, e), s.q.queue[k];
            && t in s.q.slots && t in s'.q.slots
            && (BySequence(e) ==> k < |s'.q.queue| && s'.q.queue[k] == t)
            && (!BySequence(e) && k > 0 ==> k - 1 < |s'.q.queue| && s'.q.queue[k - 1] == t)
            && (!BySequence(e) && k == 0 ==> s'.q.slots[t].granted && s.q.slots[t].payload == None)
            && (s.q.slots[t].payload.Some? ==> s'.q.slots[t].payload.Some?)
  {
    assert s.q.queue[k] in s.q.queue;
    assert s.q.queue[0] in s.q.queue;
  }

  lemma {:induction false} PolledPast<Req>(s: Sys<Req>, run: seq<Step>, k: nat)
    requires StageInv(s) && IsRun(s, run) && FruitlessPolling(s, run) && k < |s.q.queue| && k < Polls(run)
    ensures s.q.queue[k] in After(s, run).q.slots && After(s, run).q.slots[s.q.queue[k]].granted
    decreases |run|
  {
    var e, t := run[0], s.q.queue[k];
    FruitlessStep(s, e, k);
    StepKeepsStage(s, e);
    if BySequence(e) {
      PolledPast(Next(s, e), run[1..], k);
    } else if k > 0 {
      PolledPast(Next(s, e), run[1..], k - 1);
    } else {
      GrantedStays(Next(s, e), run[1..], t);
    }
  }

  /**
   Nobody starves behind an unfilled head: with `m` tickets queued, after `m` polls that hand
   nothing over, whatever the sequences do in between, every one of those tickets is granted.
   */
  lemma NobodyStarvesBehindUnfilled<Req>(s0: Sys<Req>, before: seq<Step>, run: seq<Step>, t: TxnId)
    requires Init(s0) && IsRun(s0, before) && IsRun(After(s0, before), run)
    requires FruitlessPolling(After(s0, before), run)
    requires t in After(s0, before).q.queue && |After(s0, before).q.queue| <= Polls(run)
    ensures var s := After(After(s0, before), run); t in s.q.slots && s.q.slots[t].granted
  {
    var s := After(s0, before);
    InitHasInv(s0);
    RunKeepsInv(s0, before);
    var k :| 0 <= k < |s.q.queue| && s.q.queue[k] == t;
    PolledPast(s, run, k);
  }

  lemma {:induction false} FilledIsReached<Req>(s: Sys<Req>, run: seq<Step>, k: nat)
    requires StageInv(s) && IsRun(s, run) && FruitlessPolling(s, run) && k < |s.q.queue|
    requires s.q.queue[k] in s.q.slots && s.q.slots[s.q.queue[k]].payload.Some?
    ensures Polls(run) <= k
    decreases |run|
  {
    if run != [] {
      FruitlessStep(s, run[0], k);
      StepKeepsStage(s, run[0]);
      FilledIsReached(Next(s, run[0]), run[1..], if BySequence(run[0]) then k else k - 1);
    }
  }

  /** A filled item with `k` tickets ahead of it is handed over at the latest by poll number `k + 1`. */
  lemma FilledIsHandedOver<Req>(s0: Sys<Req>, before: seq<Step>, run: seq<Step>, k: nat)
    requires Init(s0) && IsRun(s0, before) && IsRun(After(s0, before), run)
    requires FruitlessPolling(After(s0, before), run) && k < |After(s0, before).q.queue|
    requires var q := After(s0, before).q; q.queue[k] in q.slots && q.slots[q.queue[k]].payload.Some?
    ensures Polls(run) <= k
  {
    InitHasInv(s0);
    RunKeepsInv(s0, before);
    FilledIsReached(After(s0, before), run, k);
  }
}

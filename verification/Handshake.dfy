/**
 The sequencer/driver handshake of `rustdv-methodology/src/sequence.rs`.

 Code between two awaits runs atomically, so the handshake is a machine of atomic steps:
 any number of sequences loop over `start_item` and `finish_item`, and one driver takes
 items with `get_next_item` or `try_next_item` and releases them with `item_done`. Every
 interleaving of the steps is a run.
 */
module Handshake {
  import opened Basics

  type TxnId = nat

  /** One in-flight item. The three `Event`s are level flags that are only ever set. */
  datatype Slot<Req> = Slot(granted: bool, ready: bool, done: bool, payload: Option<Req>)

  /** The sequencer: FIFO of tickets, ticket counter, the driver's current item, the slots. */
  datatype Seqr<Req> = Seqr(
    queue: seq<TxnId>,
    nextId: TxnId,
    current: Option<TxnId>,
    slots: map<TxnId, Slot<Req>>)

  function NewSeqr<Req>(): Seqr<Req> { Seqr([], 1, None, map[]) }

  // ---------------------------------------------------------------------------
  // Atomic operations on the sequencer
  // ---------------------------------------------------------------------------

  /** `start_item` up to the wait for the grant: a fresh ticket goes to the back of the queue. */
  function Enqueue<Req>(q: Seqr<Req>): Seqr<Req> {
    q.(queue := q.queue + [q.nextId],
       nextId := q.nextId + 1,
       slots := q.slots[q.nextId := Slot(false, false, false, None)])
  }

  /** `finish_item` up to the wait for `done`: store the payload and raise `ready`. */
  function Fill<Req>(q: Seqr<Req>, t: TxnId, item: Req): Seqr<Req>
    requires t in q.slots
  {
    q.(slots := q.slots[t := q.slots[t].(payload := Some(item), ready := true)])
  }

  /** `get_next_item` up to the wait for `ready`: pop the oldest ticket and grant it. */
  function Grant<Req>(q: Seqr<Req>): Seqr<Req>
    requires q.queue != [] && q.queue[0] in q.slots
  {
    var t := q.queue[0];
    q.(queue := q.queue[1..], slots := q.slots[t := q.slots[t].(granted := true)])
  }

  /** The rest of `get_next_item`: take the payload and remember the slot as current. */
  function Receive<Req>(q: Seqr<Req>, t: TxnId): Seqr<Req>
    requires t in q.slots
  {
    q.(current := Some(t), slots := q.slots[t := q.slots[t].(payload := None)])
  }

  /** `try_next_item`: grant the oldest ticket; take it if it is filled, requeue it if not. */
  function TryNext<Req>(q: Seqr<Req>): Seqr<Req>
    requires q.queue != [] ==> q.queue[0] in q.slots
  {
    if q.queue == [] then q
    else
      var t := q.queue[0];
      var g := Grant(q);
      if q.slots[t].payload.Some? then Receive(g, t) else g.(queue := g.queue + [t])
  }

  /** What `try_next_item` hands to the driver. */
  function TryNextResult<Req>(q: Seqr<Req>): Option<(TxnId, Req)>
    requires q.queue != [] ==> q.queue[0] in q.slots
  {
    if q.queue != [] && q.slots[q.queue[0]].payload.Some?
    then Some((q.queue[0], q.slots[q.queue[0]].payload.value)) else None
  }

  /** `item_done`: clear the current item and raise its `done`. */
  function Release<Req>(q: Seqr<Req>): Seqr<Req>
    requires q.current.Some? && q.current.value in q.slots
  {
    var t := q.current.value;
    q.(current := None, slots := q.slots[t := q.slots[t].(done := true)])
  }

  // ---------------------------------------------------------------------------
  // The system: sequences, one driver, and history variables
  // ---------------------------------------------------------------------------

  /** Where a sequence stands. `todo[0]` is the payload of the item in progress. */
  datatype Pc = Between | WaitGrant(ticket: TxnId) | Filling(ticket: TxnId) | WaitDone(ticket: TxnId)
  datatype Proc<Req> = Proc(todo: seq<Req>, pc: Pc)
  datatype Driver = Idle | WaitReady(ticket: TxnId) | Driving(ticket: TxnId)

  /**
   `owner` records who started a ticket, `given` the payload passed to `finish_item` for
   it, `driven` the tickets in the order the driver received them, `delivered` what it
   received, `released` the tickets passed to `item_done`, and `returned` those
   `finish_item` has returned.
   */
  datatype Sys<Req> = Sys(
    q: Seqr<Req>,
    procs: seq<Proc<Req>>,
    drv: Driver,
    owner: map<TxnId, nat>,
    given: map<TxnId, Req>,
    driven: seq<TxnId>,
    delivered: map<TxnId, Req>,
    released: set<TxnId>,
    returned: set<TxnId>)

  /** Any number of sequences, each with any finite list of items still to send. */
  ghost predicate Init<Req>(s: Sys<Req>) {
    && s == Sys(NewSeqr(), s.procs, Idle, map[], map[], [], map[], {}, {})
    && forall i :: 0 <= i < |s.procs| ==> s.procs[i].pc == Between
  }

  datatype Step =
    | StartItem(i: nat)   // a sequence enqueues an item
    | SeeGrant(i: nat)    // ... is woken by the grant
    | FinishItem(i: nat)  // ... hands the filled item over
    | SeeDone(i: nat)     // ... is woken by the release
    | GetNext             // the driver pops and grants an item
    | TakeReady           // ... is woken by `ready`
    | TryNextItem         // the driver polls
    | ItemDone            // the driver releases its item

  predicate BySequence(e: Step) { e.StartItem? || e.SeeGrant? || e.FinishItem? || e.SeeDone? }

  ghost predicate Enabled<Req>(s: Sys<Req>, e: Step) {
    match e
    case StartItem(i) => i < |s.procs| && s.procs[i].pc == Between && s.procs[i].todo != []
    case SeeGrant(i) =>
      i < |s.procs| && s.procs[i].pc.WaitGrant? && s.procs[i].pc.ticket in s.q.slots
      && s.q.slots[s.procs[i].pc.ticket].granted
    case FinishItem(i) =>
      i < |s.procs| && s.procs[i].pc.Filling? && s.procs[i].pc.ticket in s.q.slots && s.procs[i].todo != []
    case SeeDone(i) =>
      i < |s.procs| && s.procs[i].pc.WaitDone? && s.procs[i].pc.ticket in s.q.slots
      && s.q.slots[s.procs[i].pc.ticket].done && s.procs[i].todo != []
    case GetNext => s.drv == Idle && s.q.queue != [] && s.q.queue[0] in s.q.slots
    case TakeReady => s.drv.WaitReady? && s.drv.ticket in s.q.slots && s.q.slots[s.drv.ticket].ready
    case TryNextItem => s.drv == Idle && (s.q.queue != [] ==> s.q.queue[0] in s.q.slots)
    case ItemDone => s.drv.Driving? && s.q.current.Some? && s.q.current.value in s.q.slots
  }

  ghost function Next<Req>(s: Sys<Req>, e: Step): Sys<Req>
    requires Enabled(s, e)
  {
    match e
    case StartItem(i) =>
      var t := s.q.nextId;
      s.(q := Enqueue(s.q), owner := s.owner[t := i],
         procs := s.procs[i := s.procs[i].(pc := WaitGrant(t))])
    case SeeGrant(i) =>
      s.(procs := s.procs[i := s.procs[i].(pc := Filling(s.procs[i].pc.ticket))])
    case FinishItem(i) =>
      var t, item := s.procs[i].pc.ticket, s.procs[i].todo[0];
      s.(q := Fill(s.q, t, item), given := s.given[t := item],
         procs := s.procs[i := s.procs[i].(pc := WaitDone(t))])
    case SeeDone(i) =>
      s.(returned := s.returned + {s.procs[i].pc.ticket},
         procs := s.procs[i := Proc(s.procs[i].todo[1..], Between)])
    case GetNext => s.(q := Grant(s.q), drv := WaitReady(s.q.queue[0]))
    case TakeReady =>
      var t := s.drv.ticket;
      var item := s.q.slots[t].payload;
      s.(q := Receive(s.q, t), drv := Driving(t), driven := s.driven + [t],
         delivered := if item.Some? then s.delivered[t := item.value] else s.delivered)
    case TryNextItem =>
      (match TryNextResult(s.q)
       case None => s.(q := TryNext(s.q))
       case Some((t, item)) =>
         s.(q := TryNext(s.q), drv := Driving(t), driven := s.driven + [t],
            delivered := s.delivered[t := item]))
    case ItemDone =>
      s.(q := Release(s.q), drv := Idle, released := s.released + {s.q.current.value})
  }

  ghost predicate IsRun<Req>(s: Sys<Req>, run: seq<Step>)
    decreases |run|
  {
    run == [] || (Enabled(s, run[0]) && IsRun(Next(s, run[0]), run[1..]))
  }

  ghost function After<Req>(s: Sys<Req>, run: seq<Step>): Sys<Req>
    requires IsRun(s, run)
    decreases |run|
  {
    if run == [] then s else After(Next(s, run[0]), run[1..])
  }

  // ---------------------------------------------------------------------------
  // The invariant
  // ---------------------------------------------------------------------------

  /** The driver holds ticket `t`. */
  ghost predicate Held<Req>(s: Sys<Req>, t: TxnId) {
    s.drv == WaitReady(t) || s.drv == Driving(t)
  }

  /** A slot is in exactly one stage: queued, held by the driver, or done. */
  ghost predicate SlotStage<Req>(s: Sys<Req>, t: TxnId)
    requires t in s.q.slots
  {
    && (t in s.q.queue ==> !Held(s, t) && !s.q.slots[t].done)
    && (Held(s, t) ==> !s.q.slots[t].done && s.q.slots[t].granted)
    && (t in s.q.queue || Held(s, t) || s.q.slots[t].done)
  }

  ghost predicate StageInv<Req>(s: Sys<Req>) {
    && s.q.nextId >= 1
    && (forall t :: t in s.q.slots <==> 1 <= t < s.q.nextId)
    && (forall t :: t in s.q.slots ==> SlotStage(s, t))
    && NoDuplicates(s.q.queue)
    && (forall t :: t in s.q.queue ==> t in s.q.slots)
    && (s.drv != Idle ==> s.drv.ticket in s.q.slots)
    && s.q.current == (if s.drv.Driving? then Some(s.drv.ticket) else None)
  }

  /** The driver has received ticket `t`. */
  ghost predicate Received<Req>(s: Sys<Req>, t: TxnId)
    requires t in s.q.slots
  {
    s.drv == Driving(t) || s.q.slots[t].done
  }

  /** A payload is stored by `finish_item` and taken once by the driver, unchanged. */
  ghost predicate SlotPayload<Req>(s: Sys<Req>, t: TxnId)
    requires t in s.q.slots
  {
    && (t in s.given <==> s.q.slots[t].ready)
    && (Received(s, t) ==> s.q.slots[t].ready)
    && s.q.slots[t].payload ==
       (if s.q.slots[t].ready && !Received(s, t) then Some(s.given[t]) else None)
    && (t in s.driven <==> Received(s, t))
    && (t in s.driven ==> t in s.delivered && s.delivered[t] == s.given[t])
    && (t in s.released <==> s.q.slots[t].done)
  }

  ghost predicate PayloadInv<Req>(s: Sys<Req>) {
    && (forall t :: t in s.q.slots ==> SlotPayload(s, t))
    && NoDuplicates(s.driven)
    && (forall t :: t in s.driven || t in s.given || t in s.released ==> t in s.q.slots)
  }

  function TicketOf(pc: Pc): Option<TxnId> {
    match pc
    case Between => None
    case WaitGrant(t) => Some(t)
    case Filling(t) => Some(t)
    case WaitDone(t) => Some(t)
  }

  /** A ticket not yet returned is held by the one sequence that started it. */
  ghost predicate SlotOwner<Req>(s: Sys<Req>, t: TxnId)
    requires t in s.q.slots
  {
    if t in s.returned then s.q.slots[t].done
    else t in s.owner && s.owner[t] < |s.procs| && TicketOf(s.procs[s.owner[t]].pc) == Some(t)
  }

  /** What a sequence knows about the slot it is waiting on. */
  ghost predicate ProcOk<Req>(s: Sys<Req>, i: nat)
    requires i < |s.procs|
  {
    var p := s.procs[i];
    p.pc != Between ==>
      var t := p.pc.ticket;
      && t in s.q.slots && t !in s.returned && t in s.owner && s.owner[t] == i
      && p.todo != []
      && (p.pc.WaitDone? <==> s.q.slots[t].ready)
      && (!p.pc.WaitGrant? ==> s.q.slots[t].granted)
      && (p.pc.WaitDone? ==> t in s.given && s.given[t] == p.todo[0])
  }

  ghost predicate OwnerInv<Req>(s: Sys<Req>) {
    && (forall t :: t in s.q.slots ==> SlotOwner(s, t))
    && (forall i :: 0 <= i < |s.procs| ==> ProcOk(s, i))
    && (forall t :: t in s.returned ==> t in s.q.slots)
  }

  ghost predicate Inv<Req>(s: Sys<Req>) { StageInv(s) && PayloadInv(s) && OwnerInv(s) }

  lemma InitHasInv<Req>(s: Sys<Req>)
    requires Init(s)
    ensures Inv(s)
  {}

  lemma QueueKept<Req>(s: Sys<Req>, e: Step)
    requires StageInv(s) && Enabled(s, e)
    ensures NoDuplicates(Next(s, e).q.queue)
    ensures forall t :: t in Next(s, e).q.queue <==>
              (t in s.q.queue && !(e == GetNext && t == s.q.queue[0])
                && !(e == TryNextItem && TryNextResult(s.q).Some? && t == s.q.queue[0]))
              || (e.StartItem? && t == s.q.nextId)
  {
    var queue := s.q.queue;
    if queue != [] { Rotated(queue); }
    assert s.q.nextId !in queue;
  }

  /** Popping the head of a list without duplicates, and putting it back at the end. */
  lemma Rotated(s: seq<TxnId>)
    requires s != [] && NoDuplicates(s)
    ensures NoDuplicates(s[1..]) && NoDuplicates(s[1..] + [s[0]])
    ensures forall t :: t in s[1..] <==> t in s && t != s[0]
    ensures forall t :: t in s[1..] + [s[0]] <==> t in s
  {
    assert s == [s[0]] + s[1..] && s[0] !in s[1..];
  }

  lemma SlotStageKeptBySequence<Req>(s: Sys<Req>, e: Step, t: TxnId)
    requires StageInv(s) && Enabled(s, e) && BySequence(e) && t in Next(s, e).q.slots
    ensures SlotStage(Next(s, e), t)
  {
    QueueKept(s, e);
    assert t in s.q.slots ==> SlotStage(s, t);
  }

  lemma SlotStageKeptByDriver<Req>(s: Sys<Req>, e: Step, t: TxnId)
    requires StageInv(s) && Enabled(s, e) && !BySequence(e) && t in Next(s, e).q.slots
    ensures SlotStage(Next(s, e), t)
  {
    QueueKept(s, e);
    assert t in s.q.slots && SlotStage(s, t);
  }

  lemma StepKeepsStage<Req>(s: Sys<Req>, e: Step)
    requires StageInv(s) && Enabled(s, e)
    ensures StageInv(Next(s, e))
  {
    QueueKept(s, e);
    forall t | t in Next(s, e).q.slots
      ensures SlotStage(Next(s, e), t)
    {
      if BySequence(e) { SlotStageKeptBySequence(s, e, t); } else { SlotStageKeptByDriver(s, e, t); }
    }
  }

  lemma SlotPayloadKeptBySequence<Req>(s: Sys<Req>, e: Step, t: TxnId)
    requires Inv(s) && Enabled(s, e) && BySequence(e) && t in Next(s, e).q.slots
    ensures SlotPayload(Next(s, e), t)
  {
    assert t in s.q.slots ==> SlotPayload(s, t) && SlotStage(s, t);
    assert ProcOk(s, e.i);
  }

  lemma SlotPayloadKeptByDriver<Req>(s: Sys<Req>, e: Step, t: TxnId)
    requires StageInv(s) && PayloadInv(s) && Enabled(s, e) && !BySequence(e) && t in s.q.slots
    ensures t in Next(s, e).q.slots && SlotPayload(Next(s, e), t)
  {
    assert SlotPayload(s, t) && SlotStage(s, t);
    if e == TryNextItem { TryNextKeepsPayload(s, t); }
  }

  lemma TryNextKeepsPayload<Req>(s: Sys<Req>, t: TxnId)
    requires StageInv(s) && PayloadInv(s) && Enabled(s, TryNextItem) && t in s.q.slots
    ensures t in Next(s, TryNextItem).q.slots && SlotPayload(Next(s, TryNextItem), t)
  {
    assert SlotPayload(s, t) && SlotStage(s, t);
    assert s.q.queue != [] ==> s.q.queue[0] in s.q.queue;
  }

  lemma DrivenKept<Req>(s: Sys<Req>, e: Step)
    requires StageInv(s) && PayloadInv(s) && Enabled(s, e)
    ensures NoDuplicates(Next(s, e).driven)
  {
    if e == TakeReady {
      assert SlotPayload(s, s.drv.ticket) && SlotStage(s, s.drv.ticket);
    } else if e == TryNextItem && s.q.queue != [] {
      assert s.q.queue[0] in s.q.queue;
      assert SlotPayload(s, s.q.queue[0]) && SlotStage(s, s.q.queue[0]);
    }
  }

  lemma StepKeepsPayload<Req>(s: Sys<Req>, e: Step)
    requires Inv(s) && Enabled(s, e)
    ensures PayloadInv(Next(s, e))
  {
    var s' := Next(s, e);
    forall t | t in s'.q.slots
      ensures SlotPayload(s', t)
    {
      if BySequence(e) { SlotPayloadKeptBySequence(s, e, t); } else { SlotPayloadKeptByDriver(s, e, t); }
    }
    DrivenKept(s, e);
  }

  lemma SlotOwnerKept<Req>(s: Sys<Req>, e: Step, t: TxnId)
    requires StageInv(s) && OwnerInv(s) && Enabled(s, e) && t in Next(s, e).q.slots
    ensures SlotOwner(Next(s, e), t)
  {
    assert t in s.q.slots ==> SlotOwner(s, t);
    assert BySequence(e) ==> ProcOk(s, e.i);
  }

  lemma ProcKeptBySequence<Req>(s: Sys<Req>, e: Step, i: nat)
    requires StageInv(s) && OwnerInv(s) && Enabled(s, e) && BySequence(e) && i < |s.procs|
    ensures ProcOk(Next(s, e), i)
  {
    assert ProcOk(s, i);
    assert ProcOk(s, e.i);
  }

  lemma ProcKeptByDriver<Req>(s: Sys<Req>, e: Step, i: nat)
    requires OwnerInv(s) && Enabled(s, e) && !BySequence(e) && i < |s.procs|
    ensures ProcOk(Next(s, e), i)
  {
    assert ProcOk(s, i);
  }

  lemma StepKeepsOwner<Req>(s: Sys<Req>, e: Step)
    requires Inv(s) && Enabled(s, e)
    ensures OwnerInv(Next(s, e))
  {
    forall t | t in Next(s, e).q.slots
      ensures SlotOwner(Next(s, e), t)
    {
      SlotOwnerKept(s, e, t);
    }
    forall i | 0 <= i < |Next(s, e).procs|
      ensures ProcOk(Next(s, e), i)
    {
      if BySequence(e) { ProcKeptBySequence(s, e, i); } else { ProcKeptByDriver(s, e, i); }
    }
    assert e.SeeDone? ==> ProcOk(s, e.i);
  }

  lemma StepKeepsInv<Req>(s: Sys<Req>, e: Step)
    requires Inv(s) && Enabled(s, e)
    ensures Inv(Next(s, e))
  {
    StepKeepsStage(s, e);
    StepKeepsPayload(s, e);
    StepKeepsOwner(s, e);
  }

  lemma {:induction false} RunKeepsInv<Req>(s: Sys<Req>, run: seq<Step>)
    requires Inv(s) && IsRun(s, run)
    ensures Inv(After(s, run))
    decreases |run|
  {
    if run != [] {
      StepKeepsInv(s, run[0]);
      RunKeepsInv(Next(s, run[0]), run[1..]);
    }
  }

  // ---------------------------------------------------------------------------
  // Safety over whole runs
  // ---------------------------------------------------------------------------

  /**
   In every reachable state, with any mix of blocking and polling calls: each slot is in
   exactly one stage and at most one is held by the driver; a payload is delivered at
   most once, and it is the one given to `finish_item` for its ticket; and `finish_item`
   has returned only for tickets already passed to `item_done`.
   */
  lemma HandshakeIsSafe<Req>(s0: Sys<Req>, run: seq<Step>, t: TxnId)
    requires Init(s0) && IsRun(s0, run)
    ensures var s := After(s0, run);
            && (t in s.q.slots ==>
                  && (t in s.q.queue ==> !Held(s, t) && t !in s.released)
                  && (Held(s, t) ==> t !in s.released)
                  && (t in s.q.queue || Held(s, t) || t in s.released))
            && NoDuplicates(s.q.queue) && NoDuplicates(s.driven)
            && (t in s.driven ==> t in s.given && t in s.delivered && s.delivered[t] == s.given[t])
            && (t in s.returned ==> t in s.released && t in s.driven)
  {
    var s := After(s0, run);
    InitHasInv(s0);
    RunKeepsInv(s0, run);
    if t in s.q.slots { assert SlotStage(s, t) && SlotPayload(s, t) && SlotOwner(s, t); }
  }

  /**
   The two `expect`s of the driver's side cannot fail: when `ready` wakes the driver the
   payload is there, and the driver that releases an item has a current one.
   */
  lemma ExpectsHold<Req>(s0: Sys<Req>, run: seq<Step>)
    requires Init(s0) && IsRun(s0, run)
    ensures var s := After(s0, run);
            && (Enabled(s, TakeReady) ==> s.q.slots[s.drv.ticket].payload.Some?)
            && (s.drv.Driving? ==> Enabled(s, ItemDone) && s.q.current == Some(s.drv.ticket))
            && (s.drv == Idle ==> s.q.current == None)
  {
    var s := After(s0, run);
    InitHasInv(s0);
    RunKeepsInv(s0, run);
    if s.drv != Idle { assert SlotPayload(s, s.drv.ticket) && SlotStage(s, s.drv.ticket); }
  }

  // ---------------------------------------------------------------------------
  // FIFO order with a blocking driver
  // ---------------------------------------------------------------------------

  ghost predicate Blocking(run: seq<Step>) { forall k :: 0 <= k < |run| ==> run[k] != TryNextItem }

  /** Tickets `lo`, `lo+1`, ..., `hi-1`. */
  function Tickets(lo: nat, hi: nat): seq<TxnId>
    requires lo <= hi
  {
    seq(hi - lo, k requires 0 <= k < hi - lo => lo + k)
  }

  ghost predicate Fifo<Req>(s: Sys<Req>) {
    var n := |s.driven| + 1;
    var held := if s.drv.WaitReady? then 1 else 0;
    && n + held <= s.q.nextId
    && s.driven == Tickets(1, n)
    && s.q.queue == Tickets(n + held, s.q.nextId)
    && (s.drv.WaitReady? ==> s.drv.ticket == n)
  }

  lemma StepKeepsFifo<Req>(s: Sys<Req>, e: Step)
    requires Fifo(s) && Enabled(s, e) && e != TryNextItem
    ensures Fifo(Next(s, e))
  {
    var n, queue := |s.driven| + 1, s.q.queue;
    match e
    case StartItem(_) => assert Next(s, e).q.queue == queue + [s.q.nextId];
    case GetNext => assert queue[0] == n && Next(s, e).q.queue == queue[1..];
    case _ =>
  }

  lemma {:induction false} BlockingRunIsFifo<Req>(s: Sys<Req>, run: seq<Step>)
    requires Fifo(s) && IsRun(s, run) && Blocking(run)
    ensures Fifo(After(s, run))
    decreases |run|
  {
    if run != [] {
      StepKeepsFifo(s, run[0]);
      assert Blocking(run[1..]);
      BlockingRunIsFifo(Next(s, run[0]), run[1..]);
    }
  }

  /**
   With a driver that only blocks, the `k`-th item driven is the `k`-th started, and it
   carries exactly the payload given to `finish_item` for that ticket.
   */
  lemma DrivenInStartOrder<Req>(s0: Sys<Req>, run: seq<Step>, k: nat)
    requires Init(s0) && IsRun(s0, run) && Blocking(run)
    requires k < |After(s0, run).driven|
    ensures var s := After(s0, run);
            && s.driven[k] == k + 1
            && k + 1 in s.given && k + 1 in s.delivered && s.delivered[k + 1] == s.given[k + 1]
  {
    BlockingRunIsFifo(s0, run);
    HandshakeIsSafe(s0, run, k + 1);
  }
}

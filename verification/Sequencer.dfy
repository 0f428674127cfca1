/**
 The mutable sequencer and sequence context of `rustdv-methodology/src/sequence.rs`.

 Each method is one stretch of code between two awaits. It is tied to the atomic operation
 of the same stretch in `Handshake`, so the results proved there for every run hold of
 every interleaving of these calls.
 */
module Sequencer {
  import opened Basics
  import opened Handshake
  import Responses

  class SeqrInner<Req, Rsp> {
    var queue: seq<TxnId>
    var nextId: TxnId
    var current: Option<TxnId>
    var slots: map<TxnId, Slot<Req>>
    const responses: Responses.ResponseQueue<Rsp>

    ghost function View(): Seqr<Req>
      reads this
    {
      Seqr(queue, nextId, current, slots)
    }

    /** The part of the handshake invariant that is about the sequencer alone. */
    ghost predicate Valid()
      reads this, responses
    {
      && responses.Valid()
      && (forall t :: t in slots ==> t < nextId)
      && (forall t :: t in queue ==> t in slots)
      && (current.Some? ==> current.value in slots)
      && (forall t :: t in slots && slots[t].payload.Some? ==> slots[t].ready)
    }

    constructor ()
      ensures Valid() && View() == NewSeqr()
      ensures fresh(responses) && responses.log == Responses.EmptyLog()
    {
      queue, nextId, current, slots := [], 1, None, map[];
      responses := new Responses.ResponseQueue();
    }

    /** The first poll of `start_item`: the slot goes in the queue and the sequence waits. */
    method Submit() returns (t: TxnId)
      requires Valid()
      modifies this
      ensures Valid() && View() == Enqueue(old(View()))
      ensures t == old(nextId) && t !in old(slots)
    {
      t := nextId;
      nextId := t + 1;
      slots := slots[t := Slot(false, false, false, None)];
      queue := queue + [t];
    }

    /** `finish_item` up to its wait. */
    method HandOver(t: TxnId, item: Req)
      requires Valid() && t in slots
      modifies this
      ensures Valid() && View() == Fill(old(View()), t, item)
    {
      slots := slots[t := slots[t].(payload := Some(item))];
      slots := slots[t := slots[t].(ready := true)];
    }

    /** One poll of `get_next_item` waiting on the queue; `None` means it parked. */
    method PollQueue() returns (t: Option<TxnId>)
      requires Valid() && current == None
      modifies this
      ensures Valid()
      ensures if old(queue) == [] then t == None && View() == old(View())
              else t == Some(old(queue)[0]) && View() == Grant(old(View()))
    {
      if queue == [] { return None; }
      var head := queue[0];
      queue := queue[1..];
      slots := slots[head := slots[head].(granted := true)];
      t := Some(head);
    }

    /** One poll of `get_next_item` waiting on `ready`; `None` means it parked. */
    method PollReady(t: TxnId) returns (item: Option<(TxnId, Req)>)
      requires Valid() && t in slots
      requires slots[t].ready ==> slots[t].payload.Some?
      modifies this
      ensures Valid()
      ensures if old(slots)[t].ready
              then item == Some((t, old(slots)[t].payload.value)) && View() == Receive(old(View()), t)
              else item == None && View() == old(View())
    {
      if !slots[t].ready { return None; }
      item := Some((t, slots[t].payload.value));
      slots := slots[t := slots[t].(payload := None)];
      current := Some(t);
    }

    method TryNextItem() returns (item: Option<(TxnId, Req)>)
      requires Valid() && current == None
      modifies this
      ensures Valid() && View() == TryNext(old(View()))
      ensures item == TryNextResult(old(View()))
    {
      if queue == [] { return None; }
      var t := queue[0];
      queue := queue[1..];
      slots := slots[t := slots[t].(granted := true)];
      var taken := slots[t].payload;
      slots := slots[t := slots[t].(payload := None)];
      match taken
      case None =>
        queue := queue + [t];
        item := None;
      case Some(p) =>
        current := Some(t);
        item := Some((t, p));
    }

    method ItemDone(rsp: Option<Rsp>) returns (woken: seq<Responses.TaskId>)
      requires Valid() && current.Some?
      modifies this, responses
      ensures Valid() && View() == Release(old(View()))
      ensures responses.log ==
              if rsp.Some? then Responses.Apply(old(responses.log), Responses.Push(old(current).value, rsp.value))
              else old(responses.log)
    {
      var t := current.value;
      current := None;
      woken := [];
      if rsp.Some? { woken := responses.Push(t, rsp.value); }
      slots := slots[t := slots[t].(done := true)];
    }

    method PutResponse(id: TxnId, rsp: Rsp) returns (woken: seq<Responses.TaskId>)
      requires Valid()
      modifies responses
      ensures Valid() && View() == old(View())
      ensures responses.log == Responses.Apply(old(responses.log), Responses.Push(id, rsp))
    {
      woken := responses.Push(id, rsp);
    }
  }

  datatype SeqError = StartedTwice | NotStarted | VirtualSequence

  /** What a running sequence is handed; `inner` is null in a virtual sequence. */
  class SeqCtx<Req, Rsp> {
    const inner: SeqrInner?<Req, Rsp>
    var current: Option<TxnId>

    ghost predicate Valid()
      reads this, inner, if inner == null then null else inner.responses
    {
      if inner == null then current == None
      else inner.Valid() && (current.Some? ==> current.value in inner.slots)
    }

    constructor (inner: SeqrInner?<Req, Rsp>)
      requires inner != null ==> inner.Valid()
      ensures Valid() && this.inner == inner && current == None
    {
      this.inner := inner;
      current := None;
    }

    /** `start_item` up to its wait; an error leaves everything as it was. */
    method StartItem() returns (r: Result<TxnId, SeqError>)
      requires Valid()
      modifies this, inner
      ensures Valid()
      ensures r == if old(current).Some? then Err(StartedTwice)
                   else if inner == null then Err(VirtualSequence)
                   else Ok(old(inner.nextId))
      ensures r.Err? ==> current == old(current) && (inner != null ==> inner.View() == old(inner.View()))
      ensures r.Ok? ==> current == Some(r.value) && inner.View() == Enqueue(old(inner.View()))
    {
      if current.Some? { return Err(StartedTwice); }
      if inner == null { return Err(VirtualSequence); }
      var t := inner.Submit();
      current := Some(t);
      r := Ok(t);
    }

    /** `finish_item` up to its wait; on success the ticket it will return. */
    method FinishItem(item: Req) returns (r: Result<TxnId, SeqError>)
      requires Valid()
      modifies this, inner
      ensures Valid() && current == None
      ensures r == if old(current).None? then Err(NotStarted) else Ok(old(current).value)
      ensures r.Err? && inner != null ==> inner.View() == old(inner.View())
      ensures r.Ok? ==> inner.View() == Fill(old(inner.View()), r.value, item)
    {
      if current.None? { return Err(NotStarted); }
      var t := current.value;
      current := None;
      inner.HandOver(t, item);
      r := Ok(t);
    }
  }
}

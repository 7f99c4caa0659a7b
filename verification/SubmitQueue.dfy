/** What travels from an order encoder to an execution backend, and the backend that records it. */
module Requests {
  import opened Words

  datatype OrderKind = EnterOrder | ReplaceOrder | CancelOrder

  datatype Request = Request(userRef: nat, kind: OrderKind, payload: seq<byte>)

  datatype RejectReason = NoReason | BackendClosed | EmptyPayload | CapacityExceeded

  datatype SubmitResult = SubmitResult(
    accepted: bool, reason: RejectReason, userRef: nat, kind: OrderKind, payloadSize: nat)

  function Accept(r: Request): SubmitResult { SubmitResult(true, NoReason, r.userRef, r.kind, |r.payload|) }

  function Reject(r: Request, reason: RejectReason): SubmitResult
  {
    SubmitResult(false, reason, r.userRef, r.kind, |r.payload|)
  }

  /** The requests a submit queue with slots of `maxPayload` bytes can hold. */
  predicate Fits(r: Request, maxPayload: nat)
  {
    0 < |r.payload| <= maxPayload
  }

  class RecordingBackend {
    var open: bool
    var maxSubmissions: nat
    var submissions: seq<Request>
    /** Every call made, whatever the answer. */
    ghost var calls: seq<Request>

    constructor (maxSubmissions: nat)
      ensures open && this.maxSubmissions == maxSubmissions && submissions == [] && calls == []
    {
      this.maxSubmissions := maxSubmissions;
      open, submissions, calls := true, [], [];
    }

    ghost function Answer(r: Request): SubmitResult
      reads this
    {
      if !open then Reject(r, BackendClosed)
      else if r.payload == [] then Reject(r, EmptyPayload)
      else if maxSubmissions != 0 && |submissions| >= maxSubmissions then Reject(r, CapacityExceeded)
      else Accept(r)
    }

    method Submit(r: Request) returns (result: SubmitResult)
      modifies this
      ensures result == old(Answer(r))
      ensures result.accepted <==>
        old(open) && r.payload != [] && (maxSubmissions == 0 || |old(submissions)| < maxSubmissions)
      ensures result.reason == BackendClosed <==> !old(open)
      ensures result.reason == EmptyPayload <==> old(open) && r.payload == []
      ensures result.reason == NoReason <==> result.accepted
      ensures result.userRef == r.userRef && result.kind == r.kind && result.payloadSize == |r.payload|
      ensures submissions == if result.accepted then old(submissions) + [r] else old(submissions)
      ensures calls == old(calls) + [r]
      ensures open == old(open) && maxSubmissions == old(maxSubmissions)
    {
      calls := calls + [r];
      if !open {
        return Reject(r, BackendClosed);
      }
      if r.payload == [] {
        return Reject(r, EmptyPayload);
      }
      if maxSubmissions != 0 && |submissions| >= maxSubmissions {
        return Reject(r, CapacityExceeded);
      }
      submissions := submissions + [r];
      return Accept(r);
    }
  }

  /** The five counters this pipeline bumps; each wraps at 2^64. */
  class CoreStats {
    var submitQueued: Word
    var submitRejected: Word
    var ringFull: Word
    var backendAccepted: Word
    var backendRejected: Word

    constructor ()
      ensures submitQueued == submitRejected == ringFull == backendAccepted == backendRejected == 0
    {
      submitQueued, submitRejected, ringFull, backendAccepted, backendRejected := 0, 0, 0, 0, 0;
    }
  }
}

/** The ring of fixed-size submit slots. */
module SubmitQueue {
  import opened Words
  import opened Requests
  import RingMachine
  import SpscRing

  datatype PushStatus = Queued | NothingToSend | PayloadTooLarge | QueueFull

  /** A slot: `payload` has the full slot width, of which the first `payloadSize` bytes count. */
  datatype Item = Item(userRef: nat, kind: OrderKind, payloadSize: nat, payload: seq<byte>)

  predicate IsItem(i: Item) { i.payloadSize <= |i.payload| }

  function RequestOf(i: Item): Request
    requires IsItem(i)
  {
    Request(i.userRef, i.kind, i.payload[..i.payloadSize])
  }

  function RequestsOf(items: seq<Item>): seq<Request>
    requires forall i | i in items :: IsItem(i)
  {
    seq(|items|, k requires 0 <= k < |items| => RequestOf(items[k]))
  }

  lemma RequestsOfAll(items: seq<Item>, more: seq<Item>)
    requires (forall i | i in items :: IsItem(i)) && forall i | i in more :: IsItem(i)
    ensures RequestsOf(items + more) == RequestsOf(items) + RequestsOf(more)
  {
  }

  lemma RequestsOfOne(item: Item)
    requires IsItem(item)
    ensures RequestsOf([item]) == [RequestOf(item)]
  {
  }

  /** The answer to a push, from the request and how full the ring is. */
  function StatusFor(payloadLength: nat, maxPayload: nat, queued: nat, capacity: nat): PushStatus
  {
    if payloadLength == 0 then NothingToSend
    else if payloadLength > maxPayload then PayloadTooLarge
    else if queued < capacity then Queued
    else QueueFull
  }

  const EMPTY_ITEM := Item(0, EnterOrder, 0, [])

  /** Copies a payload into a slot, or says why it does not go in. The size is stored in the slot's 16 bits. */
  method MakeItem(userRef: nat, kind: OrderKind, payload: array<byte>, maxPayload: nat)
    returns (status: PushStatus, item: Item)
    requires maxPayload < 0x1_0000
    ensures status == StatusFor(payload.Length, maxPayload, 0, 1)
    ensures status.Queued? ==>
      IsItem(item) && |item.payload| == maxPayload && RequestOf(item) == Request(userRef, kind, payload[..])
    ensures !status.Queued? ==> item == EMPTY_ITEM
  {
    if payload.Length == 0 {
      return NothingToSend, EMPTY_ITEM;
    }
    if payload.Length > maxPayload {
      return PayloadTooLarge, EMPTY_ITEM;
    }
    var slot := new byte[maxPayload](_ => 0);
    for i := 0 to payload.Length
      invariant slot[..i] == payload[..i]
    {
      slot[i] := payload[i];
    }
    item := Item(userRef, kind, payload.Length % 0x1_0000, slot[..]);
    assert slot[..][..payload.Length] == payload[..];
    return Queued, item;
  }

  class BackendSubmitQueue {
    const maxPayload: nat
    const ring: SpscRing.SpscRing<Item>
    const stats: CoreStats?

    ghost predicate Valid()
      reads this, ring, ring.buffer
    {
      && 0 < maxPayload < 0x1_0000
      && ring.Valid()
      && forall i | i in ring.Contents() :: IsItem(i)
    }

    /** What is queued, as the backend will see it. */
    ghost function Pending(): seq<Request>
      requires Valid()
      reads this, ring, ring.buffer
    {
      RequestsOf(ring.Contents())
    }

    constructor (capacity: nat, maxPayload: nat, stats: CoreStats?)
      requires RingMachine.IsCapacity(capacity) && 0 < maxPayload < 0x1_0000
      ensures Valid() && Pending() == [] && fresh(ring) && fresh(ring.buffer)
      ensures ring.capacity == capacity && this.maxPayload == maxPayload && this.stats == stats
    {
      this.maxPayload, this.stats := maxPayload, stats;
      ring := new SpscRing.SpscRing<Item>(capacity);
    }

    method Push(userRef: nat, kind: OrderKind, payload: array<byte>) returns (status: PushStatus)
      requires Valid()
      modifies ring, ring.buffer, stats
      ensures Valid()
      ensures status == StatusFor(payload.Length, maxPayload, |old(Pending())|, ring.capacity)
      ensures status.NothingToSend? <==> payload.Length == 0
      ensures status.PayloadTooLarge? <==> payload.Length > maxPayload
      ensures status.QueueFull? <==> 0 < payload.Length <= maxPayload && |old(Pending())| >= ring.capacity
      ensures Pending() == old(Pending()) + if status.Queued? then [Request(userRef, kind, old(payload[..]))] else []
      ensures stats != null ==>
        && stats.submitQueued == (if status.Queued? then WAdd(old(stats.submitQueued), 1) else old(stats.submitQueued))
        && stats.submitRejected
           == (if status.Queued? then old(stats.submitRejected) else WAdd(old(stats.submitRejected), 1))
        && stats.ringFull == (if status.QueueFull? then WAdd(old(stats.ringFull), 1) else old(stats.ringFull))
        && stats.backendAccepted == old(stats.backendAccepted) && stats.backendRejected == old(stats.backendRejected)
    {
      var made, item := MakeItem(userRef, kind, payload, maxPayload);
      if !made.Queued? {
        RecordRejected();
        return made;
      }
      var ok := ring.Push(item);
      if !ok {
        if stats != null { stats.ringFull := WAdd(stats.ringFull, 1); }
        RecordRejected();
        return QueueFull;
      }
      if stats != null { stats.submitQueued := WAdd(stats.submitQueued, 1); }
      RequestsOfAll(old(ring.Contents()), [item]);
      RequestsOfOne(item);
      return Queued;
    }

    method RecordRejected()
      modifies if stats == null then {} else {stats}
      ensures stats != null ==>
        && stats.submitRejected == WAdd(old(stats.submitRejected), 1)
        && stats.submitQueued == old(stats.submitQueued) && stats.ringFull == old(stats.ringFull)
        && stats.backendAccepted == old(stats.backendAccepted) && stats.backendRejected == old(stats.backendRejected)
    {
      if stats != null { stats.submitRejected := WAdd(stats.submitRejected, 1); }
    }

    method Pop() returns (ok: bool, item: Item)
      requires Valid()
      modifies ring
      ensures Valid()
      ensures ok <==> old(Pending()) != []
      ensures ok ==> IsItem(item) && old(Pending()) == [RequestOf(item)] + Pending()
      ensures !ok ==> Pending() == []
    {
      ghost var before := ring.Contents();
      ok, item := ring.Pop(EMPTY_ITEM);
      if ok {
        assert before == [item] + ring.Contents();
        assert item in before;
        RequestsOfAll([item], ring.Contents());
        RequestsOfOne(item);
      }
    }
  }
}

/** The backend that queues on the caller's thread and submits on its worker's. */
module AsyncBackend {
  import opened Words
  import opened Requests
  import opened SubmitQueue

  function RejectReasonFor(status: PushStatus): RejectReason
  {
    match status
    case NothingToSend => EmptyPayload
    case PayloadTooLarge => CapacityExceeded
    case QueueFull => CapacityExceeded
    case Queued => NoReason
  }

  class AsyncExecutionBackend {
    const queue: BackendSubmitQueue
    const backend: RecordingBackend
    const stats: CoreStats?
    var stopRequested: bool
    var running: bool

    ghost predicate Valid()
      reads this, queue, queue.ring, queue.ring.buffer
    {
      queue.Valid() && queue.stats == stats
    }

    constructor (queue: BackendSubmitQueue, backend: RecordingBackend)
      requires queue.Valid()
      ensures Valid() && this.queue == queue && this.backend == backend && this.stats == queue.stats
      ensures !stopRequested && !running
    {
      this.queue, this.backend, this.stats := queue, backend, queue.stats;
      stopRequested, running := false, false;
    }

    /** How many answers the stats have recorded, as the counters see it. */
    ghost function Recorded(): Word
      requires stats != null
      reads stats
    {
      WAdd(stats.backendAccepted, stats.backendRejected)
    }

    method Submit(userRef: nat, kind: OrderKind, payload: array<byte>) returns (result: SubmitResult)
      requires Valid()
      modifies queue.ring, queue.ring.buffer, stats
      ensures Valid()
      ensures result.accepted <==> Fits(Request(userRef, kind, old(payload[..])), queue.maxPayload)
                                   && |old(queue.Pending())| < queue.ring.capacity
      ensures var r := Request(userRef, kind, old(payload[..]));
        && queue.Pending() == old(queue.Pending()) + (if result.accepted then [r] else [])
        && result
           == if result.accepted then Accept(r)
              else Reject(r, if payload.Length == 0 then EmptyPayload else CapacityExceeded)
      ensures result.reason == NoReason <==> result.accepted
      ensures result.reason == EmptyPayload <==> payload.Length == 0
      ensures result.userRef == userRef && result.kind == kind && result.payloadSize == payload.Length
      ensures stats != null ==>
        && stats.submitQueued == (if result.accepted then WAdd(old(stats.submitQueued), 1) else old(stats.submitQueued))
        && stats.submitRejected
           == (if result.accepted then old(stats.submitRejected) else WAdd(old(stats.submitRejected), 1))
        && Recorded() == old(Recorded())
    {
      var request := Request(userRef, kind, payload[..]);
      var status := queue.Push(userRef, kind, payload);
      if !status.Queued? {
        return Reject(request, RejectReasonFor(status));
      }
      return Accept(request);
    }

    method PollOnce() returns (polled: bool)
      requires Valid()
      modifies queue.ring, backend, stats
      ensures Valid()
      ensures polled <==> old(queue.Pending()) != []
      ensures !polled ==> queue.Pending() == [] && backend.calls == old(backend.calls)
      ensures polled ==> |backend.calls| == |old(backend.calls)| + 1
      ensures backend.calls + queue.Pending() == old(backend.calls) + old(queue.Pending())
      ensures stats != null ==> Recorded() == if polled then WAdd(old(Recorded()), 1) else old(Recorded())
      ensures stats != null ==>
        var taken, asked := |backend.submissions| - |old(backend.submissions)|, |backend.calls| - |old(backend.calls)|;
        && stats.backendAccepted
           == (if taken == 1 then WAdd(old(stats.backendAccepted), 1) else old(stats.backendAccepted))
        && stats.backendRejected
           == (if taken < asked then WAdd(old(stats.backendRejected), 1) else old(stats.backendRejected))
        && stats.submitQueued == old(stats.submitQueued) && stats.submitRejected == old(stats.submitRejected)
    {
      ghost var pending, calls := queue.Pending(), backend.calls;
      var ok, item := queue.Pop();
      if !ok {
        return false;
      }
      assert calls + pending == calls + [RequestOf(item)] + queue.Pending();
      var result := backend.Submit(RequestOf(item));
      if stats != null {
        if result.accepted {
          stats.backendAccepted := WAdd(stats.backendAccepted, 1);
        } else {
          stats.backendRejected := WAdd(stats.backendRejected, 1);
        }
        OneMore(old(stats.backendAccepted), old(stats.backendRejected));
      }
      return true;
    }

    method Drain() returns (processed: nat)
      requires Valid()
      modifies queue.ring, backend, stats
      ensures Valid()
      ensures queue.Pending() == [] && backend.calls == old(backend.calls) + old(queue.Pending())
      ensures processed == |old(queue.Pending())|
      ensures stats != null ==> Recorded() == WAdd(old(Recorded()), processed)
    {
      processed := 0;
      if stats != null { NoMore(Recorded()); }
      ghost var all := backend.calls + queue.Pending();
      var more := true;
      while more
        invariant Valid() && backend.calls + queue.Pending() == all
        invariant |backend.calls| == |old(backend.calls)| + processed
        invariant !more ==> queue.Pending() == []
        invariant stats != null ==> Recorded() == WAdd(old(Recorded()), processed)
        decreases |queue.Pending()|, more
      {
        if stats != null { OneMoreOf(old(Recorded()), processed); }
        more := PollOnce();
        if more { processed := processed + 1; }
      }
      assert backend.calls + [] == backend.calls;
    }

    /** Another thread submits requests one after the other; `took` says which of them were queued. */
    method SubmitEach(requests: seq<Request>) returns (ghost took: seq<bool>)
      requires Valid()
      modifies queue.ring, queue.ring.buffer, stats
      ensures Valid() && |took| == |requests| && queue.Pending() == old(queue.Pending()) + Chosen(requests, took)
    {
      took := [];
      for i := 0 to |requests|
        invariant Valid() && |took| == i && queue.Pending() == old(queue.Pending()) + Chosen(requests[..i], took)
      {
        var r := requests[i];
        var payload := new byte[|r.payload|](j requires 0 <= j < |r.payload| => r.payload[j]);
        assert payload[..] == r.payload;
        var result := Submit(r.userRef, r.kind, payload);
        assert requests[..i + 1][..i] == requests[..i];
        took := took + [result.accepted];
      }
      assert requests[..|requests|] == requests;
    }

    /**
     What other threads do before one of the worker's tests: submit a batch, or, when none is left, ask for a stop.
     */
    method Interfere(others: seq<seq<Request>>, n: nat) returns (ghost took: seq<bool>)
      requires Valid() && n <= |others|
      modifies this`stopRequested, queue.ring, queue.ring.buffer, stats
      ensures Valid() && stopRequested == (old(stopRequested) || n == |others|)
      ensures n == |others| ==> backend.calls + queue.Pending() == old(backend.calls + queue.Pending())
      ensures n < |others| ==>
        && |took| == |others[n]|
        && backend.calls + queue.Pending() == old(backend.calls + queue.Pending()) + Chosen(others[n], took)
    {
      took := [];
      if n < |others| {
        took := SubmitEach(others[n]);
        Regroup(backend.calls, old(queue.Pending()), Chosen(others[n], took));
      } else {
        stopRequested := true;
      }
    }

    /** One test of the loop's condition, after what other threads did, and one poll if it goes on. */
    method Round(others: seq<seq<Request>>, n: nat) returns (done: bool, ghost took: seq<bool>)
      requires Valid() && n <= |others|
      modifies this`stopRequested, queue.ring, queue.ring.buffer, backend, stats
      ensures Valid() && stopRequested == (old(stopRequested) || n == |others|)
      ensures n == |others| ==> backend.calls + queue.Pending() == old(backend.calls + queue.Pending())
      ensures n < |others| ==>
        && |took| == |others[n]|
        && backend.calls + queue.Pending() == old(backend.calls + queue.Pending()) + Chosen(others[n], took)
      ensures done ==> stopRequested && queue.Pending() == []
      ensures !done && n == |others| && old(stopRequested) ==> |queue.Pending()| < |old(queue.Pending())|
    {
      took := Interfere(others, n);
      var empty := queue.ring.Empty();
      if stopRequested && empty {
        return true, took;
      }
      ghost var line := backend.calls + queue.Pending();
      var polled := PollOnce();
      assert |line| == |backend.calls| + |queue.Pending()|;
      return false, took;
    }

    /**
     The worker's loop, from any state, with what other threads do in the meantime: before its nth test of the stop
     flag they submit `others[n]`, and after the last of these they ask it to stop. It finishes, everything queued
     before or meanwhile has been handed over, in order, and it did not finish early unless a stop had been asked for.
     */
    method WorkerLoop(others: seq<seq<Request>>) returns (ghost took: seq<seq<bool>>)
      requires Valid()
      modifies this`running, this`stopRequested, queue.ring, queue.ring.buffer, backend, stats
      ensures Valid() && !running && stopRequested && queue.Pending() == []
      ensures |took| <= |others| && (!old(stopRequested) ==> |took| == |others|)
      ensures backend.calls == old(backend.calls) + old(queue.Pending()) + AllChosen(others[..|took|], took)
    {
      running := true;
      var n, done := 0, false;
      took := [];
      ghost var start := backend.calls + queue.Pending();
      assert start + [] == start;
      while !done
        invariant Valid() && n == |took| <= |others|
        invariant backend.calls + queue.Pending() == start + AllChosen(others[..n], took)
        invariant !old(stopRequested) && n < |others| ==> !stopRequested
        invariant done ==> stopRequested && queue.Pending() == []
        decreases !done, |others| - n, !stopRequested, |queue.Pending()|
      {
        ghost var more;
        done, more := Round(others, n);
        if n < |others| {
          OneMoreBatch(others, took, more);
          Regroup(start, AllChosen(others[..n], took), Chosen(others[n], more));
          took := took + [more];
          n := n + 1;
        }
      }
      assert backend.calls + [] == backend.calls;
      running := false;
    }
  }

  /** The requests that were taken. */
  ghost function Chosen(requests: seq<Request>, took: seq<bool>): seq<Request>
    requires |took| == |requests|
  {
    if requests == [] then []
    else
      var end := |requests| - 1;
      Chosen(requests[..end], took[..end]) + if took[end] then [requests[end]] else []
  }

  /** The requests that were taken of several batches, in order. */
  ghost function AllChosen(batches: seq<seq<Request>>, took: seq<seq<bool>>): seq<Request>
    requires |took| == |batches|
  {
    if batches == [] then []
    else
      var end := |batches| - 1;
      AllChosen(batches[..end], took[..end])
      + if |took[end]| == |batches[end]| then Chosen(batches[end], took[end]) else []
  }

  lemma Regroup(a: seq<Request>, b: seq<Request>, c: seq<Request>)
    ensures a + (b + c) == (a + b) + c
  {
  }

  lemma OneMoreBatch(batches: seq<seq<Request>>, took: seq<seq<bool>>, more: seq<bool>)
    requires |took| < |batches| && |more| == |batches[|took|]|
    ensures AllChosen(batches[..|took| + 1], took + [more])
            == AllChosen(batches[..|took|], took) + Chosen(batches[|took|], more)
  {
    assert batches[..|took| + 1][..|took|] == batches[..|took|] && (took + [more])[..|took|] == took;
  }

  lemma NoMore(a: Word)
    ensures WAdd(a, 0) == a
  {
    QuotientUnique(a, WORD, 0, a);
  }

  lemma OneMore(a: Word, b: Word)
    ensures WAdd(WAdd(a, 1), b) == WAdd(WAdd(a, b), 1) == WAdd(a, WAdd(b, 1))
  {
    WrappedAdd(a + 1, b);
    WrappedAdd(a + b, 1);
    WrappedAdd(b + 1, a);
  }
}

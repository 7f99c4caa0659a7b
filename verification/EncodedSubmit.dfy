/** Encoding an order message and handing the bytes to a backend. */
module EncodedSubmit {
  import opened Words
  import opened Wire
  import opened Ouch
  import OuchCodec
  import R = Requests
  import A = AsyncBackend

  datatype RejectSource = FromNone | FromEncode | FromBackend

  datatype EncodedResult = EncodedResult(
    accepted: bool, source: RejectSource, error: ErrorCode, backend: R.SubmitResult)

  function KindOf(m: Message): R.OrderKind
  {
    match m
    case EnterOrder(_, _, _, _, _, _, _, _, _, _, _, _) => R.EnterOrder
    case ReplaceOrder(_, _, _, _, _, _, _, _, _) => R.ReplaceOrder
    case CancelOrder(_, _, _) => R.CancelOrder
  }

  /** A request whose bytes read as the message, under the message's own reference and kind. */
  predicate Carries(r: R.Request, m: Message)
  {
    && r.userRef == m.userRef && OuchCodec.DecodeMessage(r.payload) == Ok(m)
    && (r.kind.EnterOrder? <==> m.EnterOrder?) && (r.kind.ReplaceOrder? <==> m.ReplaceOrder?)
    && (r.kind.CancelOrder? <==> m.CancelOrder?)
  }

  lemma EncodingCarries(m: Message)
    requires ValidMessage(m)
    ensures Carries(R.Request(m.userRef, KindOf(m), OuchCodec.WireBytes(m)), m)
  {
    OuchCodec.DecodeUndoesEncode(m);
  }

  /**
   The backend is called exactly for valid messages, once, with a request that carries the message. Whatever it
   took before, it has taken that request on top exactly when the submit was accepted.
   */
  method SubmitToBackend(backend: R.RecordingBackend, m: Message) returns (r: EncodedResult)
    modifies backend
    ensures !ValidMessage(m) ==>
      && backend.calls == old(backend.calls) && backend.submissions == old(backend.submissions)
      && r.source == FromEncode && r.error == InvalidArgument && r.backend.payloadSize == 0
      && !r.backend.accepted && r.backend.reason == R.NoReason
    ensures ValidMessage(m) ==>
      && |backend.calls| == |old(backend.calls)| + 1 && backend.calls[..|old(backend.calls)|] == old(backend.calls)
      && var request := backend.calls[|old(backend.calls)|];
      && Carries(request, m) && r.error == OK && r.backend.payloadSize == |request.payload|
      && r.backend.accepted == r.accepted && r.source == (if r.accepted then FromNone else FromBackend)
      && r.backend.kind == request.kind
      && (r.backend.reason == R.BackendClosed <==> !old(backend.open))
      && (r.backend.reason == R.NoReason <==> r.accepted)
      && backend.submissions == old(backend.submissions) + if r.accepted then [request] else []
    ensures r.accepted <==> ValidMessage(m) && old(backend.open)
                            && (backend.maxSubmissions == 0 || |old(backend.submissions)| < backend.maxSubmissions)
    ensures r.accepted <==> r.source == FromNone
    ensures r.backend.userRef == m.userRef && r.backend.kind == KindOf(m)
  {
    var error, payload := Encode(m);
    if !error.OK? {
      return EncodeReject(error, m);
    }
    var answer := backend.Submit(R.Request(m.userRef, KindOf(m), payload[..]));
    r := FromAnswer(answer);
  }

  method Encode(m: Message) returns (error: ErrorCode, payload: array<byte>)
    ensures fresh(payload) && payload.Length == EncodedLength(m)
    ensures error == if ValidMessage(m) then OK else InvalidArgument
    ensures error.OK? ==> Carries(R.Request(m.userRef, KindOf(m), payload[..]), m)
  {
    payload := new byte[EncodedLength(m)];
    error := OuchCodec.EncodeMessage(payload, m);
    if error.OK? { EncodingCarries(m); }
  }

  function EncodeReject(error: ErrorCode, m: Message): EncodedResult
  {
    EncodedResult(false, FromEncode, error, R.SubmitResult(false, R.NoReason, m.userRef, KindOf(m), 0))
  }

  function FromAnswer(answer: R.SubmitResult): EncodedResult
  {
    EncodedResult(answer.accepted, if answer.accepted then FromNone else FromBackend, OK, answer)
  }

  // ---------------------------------------------------------------------------------------------
  // The whole way out: encode, queue, hand over
  // ---------------------------------------------------------------------------------------------

  /** The requests read, in order, as the messages. */
  ghost predicate CarriesAll(rs: seq<R.Request>, ms: seq<Message>)
  {
    |rs| == |ms| && forall i | 0 <= i < |rs| :: Carries(rs[i], ms[i])
  }

  /** Through the asynchronous backend a message is queued exactly when it is valid, fits and there is room. */
  method SubmitToAsync(async: A.AsyncExecutionBackend, m: Message)
    returns (r: EncodedResult, ghost sent: seq<R.Request>)
    requires async.Valid()
    modifies async.queue.ring, async.queue.ring.buffer, async.stats
    ensures async.Valid() && async.queue.Pending() == old(async.queue.Pending()) + sent
    ensures r.accepted <==> ValidMessage(m) && EncodedLength(m) <= async.queue.maxPayload
                            && |old(async.queue.Pending())| < async.queue.ring.capacity
    ensures CarriesAll(sent, if r.accepted then [m] else [])
    ensures r.source == if r.accepted then FromNone else if ValidMessage(m) then FromBackend else FromEncode
  {
    sent := [];
    var error, payload := Encode(m);
    if !error.OK? {
      return EncodeReject(error, m), [];
    }
    ghost var request := R.Request(m.userRef, KindOf(m), payload[..]);
    var answer := async.Submit(m.userRef, KindOf(m), payload);
    sent := if answer.accepted then [request] else [];
    r := FromAnswer(answer);
  }

  datatype Outbound = Send(message: Message) | PollWorker

  /** Whether a submit was accepted, and what it added to the line of requests handed over and waiting. */
  method Take(async: A.AsyncExecutionBackend, e: Outbound) returns (took: bool, ghost sent: seq<R.Request>)
    requires async.Valid()
    modifies async.queue.ring, async.queue.ring.buffer, async.stats, async.backend
    ensures async.Valid() && CarriesAll(sent, if took && e.Send? then [e.message] else []) && (took ==> e.Send?)
    ensures async.backend.calls + async.queue.Pending()
            == old(async.backend.calls) + old(async.queue.Pending()) + sent
  {
    took, sent := false, [];
    ghost var line := async.backend.calls + async.queue.Pending();
    match e {
      case PollWorker =>
        var _ := async.PollOnce();
        assert line + [] == line;
      case Send(m) =>
        var r;
        r, sent := SubmitToAsync(async, m);
        took := r.accepted;
        A.Regroup(async.backend.calls, old(async.queue.Pending()), sent);
    }
  }

  /** The messages whose submits were accepted, in order. */
  ghost function AcceptedOf(events: seq<Outbound>, took: seq<bool>): seq<Message>
    requires |took| == |events|
  {
    if events == [] then []
    else
      var end := |events| - 1;
      AcceptedOf(events[..end], took[..end])
      + if took[end] && events[end].Send? then [events[end].message] else []
  }

  lemma OneMoreEvent(events: seq<Outbound>, took: seq<bool>, last: bool)
    requires |took| < |events|
    ensures var e := events[|took|];
      AcceptedOf(events[..|took| + 1], took + [last])
      == AcceptedOf(events[..|took|], took) + if last && e.Send? then [e.message] else []
  {
    assert events[..|took| + 1][..|took|] == events[..|took|] && (took + [last])[..|took|] == took;
  }

  lemma CarriesBoth(rs: seq<R.Request>, ms: seq<Message>, rs': seq<R.Request>, ms': seq<Message>)
    requires CarriesAll(rs, ms) && CarriesAll(rs', ms')
    ensures CarriesAll(rs + rs', ms + ms')
  {
  }

  /**
   Any interleaving of submits and polls, then a drain: the inner backend has been called, after what it was called
   for and what was queued before, for exactly the messages whose submits were accepted, in order, each with bytes
   that decode to it.
   */
  method SendAndDrain(async: A.AsyncExecutionBackend, events: seq<Outbound>)
    returns (took: seq<bool>, ghost sent: seq<R.Request>)
    requires async.Valid()
    modifies async.queue.ring, async.queue.ring.buffer, async.stats, async.backend
    ensures async.Valid() && async.queue.Pending() == []
    ensures |took| == |events| && CarriesAll(sent, AcceptedOf(events, took))
    ensures async.backend.calls == old(async.backend.calls) + old(async.queue.Pending()) + sent
  {
    took, sent := SendEach(async, events);
    var _ := async.Drain();
  }

  method SendEach(async: A.AsyncExecutionBackend, events: seq<Outbound>)
    returns (took: seq<bool>, ghost sent: seq<R.Request>)
    requires async.Valid()
    modifies async.queue.ring, async.queue.ring.buffer, async.stats, async.backend
    ensures async.Valid() && |took| == |events| && CarriesAll(sent, AcceptedOf(events, took))
    ensures async.backend.calls + async.queue.Pending()
            == old(async.backend.calls) + old(async.queue.Pending()) + sent
  {
    took, sent := [], [];
    ghost var start := async.backend.calls + async.queue.Pending();
    assert start + [] == start;
    for i := 0 to |events|
      invariant async.Valid() && |took| == i && CarriesAll(sent, AcceptedOf(events[..i], took))
      invariant async.backend.calls + async.queue.Pending() == start + sent
    {
      var one;
      ghost var more;
      one, more := Take(async, events[i]);
      OneMoreEvent(events, took, one);
      CarriesBoth(sent, AcceptedOf(events[..i], took), more, if one then [events[i].message] else []);
      A.Regroup(start, sent, more);
      took, sent := took + [one], sent + more;
    }
    assert events[..|events|] == events;
  }
}

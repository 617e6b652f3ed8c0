/**
 * The subscriber's side of one connection
 * (stps/subscriber/subscriber_session_impl.cc): resolve, connect (preferring a
 * loopback endpoint), send the handshake request, then read frames forever,
 * passing regular payloads to the delivery hook the subscriber installed.
 * Every failure goes through one handler, which either schedules a reconnect
 * within the retry budget or reports the session closed.
 */
module SubscriberSessions {
  import opened Wrappers
  import opened Wire

  type Buffer = seq<Byte>

  datatype Address = V4(a: Byte, b: Byte, c: Byte, d: Byte) | V6(bytes: seq<Byte>)

  datatype Endpoint = Endpoint(address: Address, port: U16)

  /** An address is loopback when it lies in 127.0.0.0/8 (IPv4) or is ::1 (IPv6). */
  predicate IsLoopback(addr: Address) {
    match addr
    case V4(a, _, _, _) => a == 127
    case V6(bytes) => bytes == seq(15, _ => 0) + [1]
  }

  /**
   * The endpoint the session connects to: the first loopback entry of the
   * resolved list, or the first entry when there is none.
   */
  method SelectEndpoint(resolved: seq<Endpoint>) returns (chosen: Endpoint)
    requires resolved != []
    ensures chosen in resolved
    ensures (forall i :: 0 <= i < |resolved| ==> !IsLoopback(resolved[i].address)) ==> chosen == resolved[0]
    ensures (exists i :: 0 <= i < |resolved| && IsLoopback(resolved[i].address)) ==>
              exists k :: 0 <= k < |resolved| && chosen == resolved[k] && IsLoopback(resolved[k].address)
                          && forall j :: 0 <= j < k ==> !IsLoopback(resolved[j].address)
  {
    chosen := resolved[0];
    var i := 0;
    while i < |resolved|
      invariant 0 <= i <= |resolved|
      invariant chosen == resolved[0]
      invariant forall j :: 0 <= j < i ==> !IsLoopback(resolved[j].address)
    {
      if IsLoopback(resolved[i].address) {
        chosen := resolved[i];
        return;
      }
      i := i + 1;
    }
  }

  // ------------------------------------------------------------------
  // Retry budget

  /** What the failure handler does next. */
  datatype FailureOutcome = ScheduleRetry(retriesLeft: int) | NotifyClosed

  /**
   * connectionFailedHandler's decision: retry while not canceled and the
   * budget is not exhausted, spending one retry only when the budget is
   * positive (a negative budget never runs out).
   */
  function OnConnectionFailure(canceled: bool, retriesLeft: int): FailureOutcome {
    if !canceled && retriesLeft != 0 then
      ScheduleRetry(if retriesLeft > 0 then retriesLeft - 1 else retriesLeft)
    else NotifyClosed
  }

  /** The budget left after `k` consecutive failed attempts, or None once the closed handler has been called. */
  function BudgetAfterFailures(max: int, k: nat): Option<int> {
    if k == 0 then Some(max)
    else match BudgetAfterFailures(max, k - 1)
      case None => None
      case Some(r) =>
        match OnConnectionFailure(false, r)
        case ScheduleRetry(r') => Some(r')
        case NotifyClosed => None
  }

  /**
   * A budget of 0 makes the first failure terminal, a budget of N > 0 allows
   * N + 1 attempts, and a negative budget never ends the session.
   */
  lemma {:induction false} RetryBudget(max: int, k: nat)
    ensures max >= 0 ==> BudgetAfterFailures(max, k) == if k <= max then Some(max - k) else None
    ensures max < 0 ==> BudgetAfterFailures(max, k) == Some(max)
  {
    if k > 0 {
      RetryBudget(max, k - 1);
    }
  }

  // ------------------------------------------------------------------
  // Header size arithmetic as the subscriber writes it

  /**
   * readHeaderContent's arithmetic as written: the bytes to read agree with
   * the publisher, but the discard test is inverted, and the negative
   * difference wraps to a 16-bit value.
   */
  function SubscriberPlanAsWritten(remote: U16): (p: HeaderReadPlan)
    ensures p.TooShort? <==> remote < SIZE_FIELD_LENGTH
    ensures p.ReadThenDiscard? ==> p.bytesToRead == PlanHeaderRead(remote).bytesToRead
    ensures p.ReadThenDiscard? ==> (p.bytesToDiscard > 0 <==> remote < HEADER_LENGTH)
    ensures p.ReadThenDiscard? ==> p.bytesToDiscard < 0x1_0000
  {
    if remote < SIZE_FIELD_LENGTH then TooShort
    else
      ReadThenDiscard(Min(remote, HEADER_LENGTH) - SIZE_FIELD_LENGTH,
                      if remote < HEADER_LENGTH then (remote - HEADER_LENGTH) % 0x1_0000 else 0)
  }

  /**
   * With any header size other than 12 the subscriber consumes the wrong
   * number of header bytes: a shorter header makes it skip almost 64 KiB of
   * the stream, a longer one leaves header bytes to be read as payload.
   */
  lemma SubscriberPlanMisframes(remote: U16)
    requires remote >= SIZE_FIELD_LENGTH && remote != HEADER_LENGTH
    ensures var p := SubscriberPlanAsWritten(remote);
            SIZE_FIELD_LENGTH + p.bytesToRead + p.bytesToDiscard != remote
    ensures remote == 10 ==> SubscriberPlanAsWritten(remote) == ReadThenDiscard(8, 65534)
  {
  }

  /** For the size both sides send, the subscriber's arithmetic agrees with the publisher's. */
  lemma SubscriberPlanAgreesAtLocalSize()
    ensures SubscriberPlanAsWritten(HEADER_LENGTH) == PlanHeaderRead(HEADER_LENGTH) == ReadThenDiscard(10, 0)
  {
  }

  // ------------------------------------------------------------------

  /** A user callback, by identity; NoOp is the do-nothing callback. */
  datatype Callback = NoOp | UserCallback(id: nat)

  /** What synchronous_callback_ holds: nothing yet, the synchronous hook with its captured callback, or the asynchronous hook. */
  datatype DeliveryHook = NoHook | SyncHook(callback: Callback) | AsyncHook

  /** The asynchronous operation outstanding, with the values its completion handler captured. */
  datatype Pending =
    | Idle
    | Resolving
    | Connecting(endpoint: Endpoint)
    | HandshakeWriting
    | RetryWaiting
    | HeaderLengthReading
    | HeaderContentReading(sizeBytes: seq<Byte>, bytesToRead: nat, bytesToDiscard: nat)
    | Discarding(header: TcpHeader, bytesToDiscard: nat)
    | PayloadReading(header: TcpHeader)

  /** A completion delivered to a session, with what it carries. */
  datatype Completion =
    | RetryTimerFired(ok: bool)
    | ResolveDone(ok: bool, resolved: seq<Endpoint>)
    | ConnectDone(ok: bool)
    | HandshakeWriteDone(ok: bool)
    | HeaderLengthDone(ok: bool, sizeBytes: seq<Byte>)
    | HeaderContentDone(ok: bool, content: seq<Byte>)
    | DiscardDone(ok: bool)
    | PayloadDone(ok: bool, payload: Buffer)

  ghost predicate PendingWellFormed(p: Pending) {
    && (p.HeaderContentReading? ==>
          |p.sizeBytes| == SIZE_FIELD_LENGTH && p.bytesToRead <= HEADER_LENGTH - SIZE_FIELD_LENGTH)
    && (p.PayloadReading? ==> p.header.dataSize > 0)
  }

  class SubscriberSession {
    const maxReconnectionAttempts: int
    var retriesLeft: int
    var canceled: bool
    var socketOpen: bool
    var pending: Pending
    var endpoint: Option<Endpoint>
    var written: seq<Buffer>       // buffers handed to async_write, in order
    var hook: DeliveryHook
    var closedNotifications: nat   // calls of session_closed_handler_

    /**
     * The retry budget only ever holds the configured maximum, or less when
     * that maximum is non-negative; a canceled session has its socket closed;
     * only handshake requests are ever written.
     */
    ghost predicate Valid()
      reads this
    {
      && (if maxReconnectionAttempts < 0 then retriesLeft == maxReconnectionAttempts
          else 0 <= retriesLeft <= maxReconnectionAttempts)
      && (canceled ==> !socketOpen)
      && (pending == RetryWaiting ==> !socketOpen)
      && PendingWellFormed(pending)
      && (forall i :: 0 <= i < |written| ==> written[i] == HandshakeFrame())
    }

    /** The state connectionFailedHandler leaves, from the canceled flag, budget and notification count it started with. */
    ghost predicate FailedFrom(wasCanceled: bool, oldRetries: int, oldNotifications: nat)
      reads this
    {
      && !socketOpen
      && match OnConnectionFailure(wasCanceled, oldRetries)
         case ScheduleRetry(r) =>
           retriesLeft == r && pending == RetryWaiting && closedNotifications == oldNotifications
         case NotifyClosed =>
           retriesLeft == oldRetries && pending == Idle && closedNotifications == oldNotifications + 1
    }

    constructor (maxAttempts: int)
      ensures Valid() && maxReconnectionAttempts == maxAttempts && retriesLeft == maxAttempts
      ensures !canceled && !socketOpen && pending == Idle && endpoint == None
      ensures written == [] && hook == NoHook && closedNotifications == 0
    {
      maxReconnectionAttempts := maxAttempts;
      retriesLeft := maxAttempts;
      canceled := false;
      socketOpen := false;
      pending := Idle;
      endpoint := None;
      written := [];
      hook := NoHook;
      closedNotifications := 0;
    }

    /** start: nothing once canceled, else begin resolving. */
    method Start()
      requires Valid() && pending == Idle
      modifies this
      ensures Valid() && canceled == old(canceled) && hook == old(hook)
      ensures old(canceled) ==> pending == Idle && closedNotifications == old(closedNotifications)
      ensures !old(canceled) ==> pending == Resolving && closedNotifications == old(closedNotifications)
      ensures retriesLeft == old(retriesLeft) && written == old(written)
    {
      if canceled {
        return;
      }
      ResolveEndpoint();
    }

    /** connectionFailedHandler: close the socket, then retry within the budget or report the session closed. */
    method ConnectionFailed()
      requires Valid() && pending == Idle
      modifies this
      ensures Valid() && canceled == old(canceled) && hook == old(hook)
      ensures written == old(written) && endpoint == old(endpoint)
      ensures FailedFrom(old(canceled), old(retriesLeft), old(closedNotifications))
    {
      socketOpen := false;
      if !canceled && retriesLeft != 0 {
        if retriesLeft > 0 {
          retriesLeft := retriesLeft - 1;
        }
        pending := RetryWaiting;
      } else {
        closedNotifications := closedNotifications + 1;
      }
    }

    /** The retry timer fired (ok) or was canceled (not ok, and then nothing happens at all). */
    method OnRetryTimer(ok: bool)
      requires Valid() && pending == RetryWaiting
      modifies this
      ensures Valid() && canceled == old(canceled) && hook == old(hook) && written == old(written)
      ensures !ok ==> pending == Idle && closedNotifications == old(closedNotifications) && retriesLeft == old(retriesLeft)
      ensures ok && !old(canceled) ==> pending == Resolving && closedNotifications == old(closedNotifications)
                                       && retriesLeft == old(retriesLeft)
      ensures ok && old(canceled) ==> FailedFrom(true, old(retriesLeft), old(closedNotifications))
    {
      pending := Idle;
      if !ok {
        return;
      }
      ResolveEndpoint();
    }

    method ResolveEndpoint()
      requires Valid() && pending == Idle
      modifies this
      ensures Valid() && canceled == old(canceled) && hook == old(hook) && written == old(written)
      ensures old(canceled) ==> FailedFrom(true, old(retriesLeft), old(closedNotifications))
      ensures !old(canceled) ==> pending == Resolving && closedNotifications == old(closedNotifications)
                                 && retriesLeft == old(retriesLeft) && socketOpen == old(socketOpen)
    {
      if canceled {
        ConnectionFailed();
        return;
      }
      pending := Resolving;
    }

    /** The resolver finished: connect to the preferred endpoint, or fail. */
    method OnResolved(ok: bool, resolved: seq<Endpoint>)
      requires Valid() && pending == Resolving && (ok ==> resolved != [])
      modifies this
      ensures Valid() && canceled == old(canceled) && hook == old(hook) && written == old(written)
      ensures !ok || old(canceled) ==> FailedFrom(old(canceled), old(retriesLeft), old(closedNotifications))
      ensures ok && !old(canceled) ==>
                && pending.Connecting? && pending.endpoint in resolved && endpoint == Some(pending.endpoint)
                && socketOpen && retriesLeft == old(retriesLeft) && closedNotifications == old(closedNotifications)
    {
      pending := Idle;
      if !ok {
        ConnectionFailed();
        return;
      }
      ConnectToEndpoint(resolved);
    }

    method ConnectToEndpoint(resolved: seq<Endpoint>)
      requires Valid() && pending == Idle && resolved != []
      modifies this
      ensures Valid() && canceled == old(canceled) && hook == old(hook) && written == old(written)
      ensures old(canceled) ==> FailedFrom(true, old(retriesLeft), old(closedNotifications))
      ensures !old(canceled) ==>
                && pending.Connecting? && pending.endpoint in resolved && endpoint == Some(pending.endpoint)
                && socketOpen && retriesLeft == old(retriesLeft) && closedNotifications == old(closedNotifications)
    {
      if canceled {
        ConnectionFailed();
        return;
      }
      var chosen := SelectEndpoint(resolved);
      endpoint := Some(chosen);
      socketOpen := true;    // async_connect opens the closed socket
      pending := Connecting(chosen);
    }

    /** The connection was established (or failed): send the handshake request. */
    method OnConnected(ok: bool)
      requires Valid() && pending.Connecting?
      modifies this
      ensures Valid() && canceled == old(canceled) && hook == old(hook)
      ensures !ok || old(canceled) ==> FailedFrom(old(canceled), old(retriesLeft), old(closedNotifications))
                                       && written == old(written)
      ensures ok && !old(canceled) ==>
                && pending == HandshakeWriting && written == old(written) + [HandshakeFrame()]
                && retriesLeft == old(retriesLeft) && closedNotifications == old(closedNotifications)
    {
      pending := Idle;
      if !ok {
        ConnectionFailed();
        return;
      }
      SendProtocolHandshakeRequest();
    }

    /** sendProtokolHandshakeRequest: write the 13-byte handshake frame. */
    method SendProtocolHandshakeRequest()
      requires Valid() && pending == Idle
      modifies this
      ensures Valid() && canceled == old(canceled) && hook == old(hook)
      ensures old(canceled) ==> FailedFrom(true, old(retriesLeft), old(closedNotifications)) && written == old(written)
      ensures !old(canceled) ==>
                && pending == HandshakeWriting && written == old(written) + [HandshakeFrame()]
                && retriesLeft == old(retriesLeft) && closedNotifications == old(closedNotifications)
    {
      if canceled {
        ConnectionFailed();
        return;
      }
      var frame := HandshakeFrame();
      written := written + [frame];
      pending := HandshakeWriting;
    }

    /** The handshake request was written: start reading frames. */
    method OnHandshakeWritten(ok: bool)
      requires Valid() && pending == HandshakeWriting
      modifies this
      ensures Valid() && canceled == old(canceled) && hook == old(hook) && written == old(written)
      ensures !ok || old(canceled) ==> FailedFrom(old(canceled), old(retriesLeft), old(closedNotifications))
      ensures ok && !old(canceled) ==>
                pending == HeaderLengthReading && retriesLeft == old(retriesLeft)
                && closedNotifications == old(closedNotifications)
    {
      pending := Idle;
      if !ok {
        ConnectionFailed();
        return;
      }
      ReadHeaderLength();
    }

    method ReadHeaderLength()
      requires Valid() && pending == Idle
      modifies this
      ensures Valid() && canceled == old(canceled) && hook == old(hook) && written == old(written)
      ensures old(canceled) ==> FailedFrom(true, old(retriesLeft), old(closedNotifications))
      ensures !old(canceled) ==>
                pending == HeaderLengthReading && retriesLeft == old(retriesLeft)
                && closedNotifications == old(closedNotifications)
    {
      if canceled {
        ConnectionFailed();
        return;
      }
      pending := HeaderLengthReading;
    }

    /** The two header_size bytes arrived (or the read failed). */
    method OnHeaderLengthRead(ok: bool, sizeBytes: seq<Byte>)
      requires Valid() && pending == HeaderLengthReading && |sizeBytes| == SIZE_FIELD_LENGTH
      modifies this
      ensures Valid() && canceled == old(canceled) && hook == old(hook) && written == old(written)
      ensures var plan := SubscriberPlanAsWritten(FromLittleEndian(sizeBytes));
              if ok && !old(canceled) && plan.ReadThenDiscard? then
                && pending == HeaderContentReading(sizeBytes, plan.bytesToRead, plan.bytesToDiscard)
                && retriesLeft == old(retriesLeft) && closedNotifications == old(closedNotifications)
              else FailedFrom(old(canceled), old(retriesLeft), old(closedNotifications))
    {
      FieldWidths();
      pending := Idle;
      if !ok {
        ConnectionFailed();
        return;
      }
      ReadHeaderContent(sizeBytes);
    }

    method ReadHeaderContent(sizeBytes: seq<Byte>)
      requires Valid() && pending == Idle && |sizeBytes| == SIZE_FIELD_LENGTH
      modifies this
      ensures Valid() && canceled == old(canceled) && hook == old(hook) && written == old(written)
      ensures var plan := SubscriberPlanAsWritten(FromLittleEndian(sizeBytes));
              if !old(canceled) && plan.ReadThenDiscard? then
                && pending == HeaderContentReading(sizeBytes, plan.bytesToRead, plan.bytesToDiscard)
                && retriesLeft == old(retriesLeft) && closedNotifications == old(closedNotifications)
              else FailedFrom(old(canceled), old(retriesLeft), old(closedNotifications))
    {
      FieldWidths();
      if canceled {
        ConnectionFailed();
        return;
      }
      var remote := FromLittleEndian(sizeBytes);
      match SubscriberPlanAsWritten(remote)
      case TooShort =>
        ConnectionFailed();
      case ReadThenDiscard(n, d) =>
        pending := HeaderContentReading(sizeBytes, n, d);
    }

    /** The rest of the header arrived: discard what the plan says, or go straight to the payload. */
    method OnHeaderContentRead(ok: bool, content: seq<Byte>)
      requires Valid() && pending.HeaderContentReading? && |content| == pending.bytesToRead
      modifies this
      ensures Valid() && canceled == old(canceled) && hook == old(hook) && written == old(written)
      ensures var header := AssembleHeader(old(pending).sizeBytes, content);
              var discard := old(pending).bytesToDiscard;
              if !ok || old(canceled) then FailedFrom(old(canceled), old(retriesLeft), old(closedNotifications))
              else if discard > 0 then pending == Discarding(header, discard)
                                       && retriesLeft == old(retriesLeft) && closedNotifications == old(closedNotifications)
              else if header.dataSize > 0 then pending == PayloadReading(header)
                                       && retriesLeft == old(retriesLeft) && closedNotifications == old(closedNotifications)
              else pending == HeaderLengthReading
                   && retriesLeft == old(retriesLeft) && closedNotifications == old(closedNotifications)
    {
      var sizeBytes, discard := pending.sizeBytes, pending.bytesToDiscard;
      pending := Idle;
      if !ok {
        ConnectionFailed();
        return;
      }
      var header := AssembleHeader(sizeBytes, content);
      if discard > 0 {
        DiscardDataBetweenHeaderAndPayload(header, discard);
      } else {
        ReadPayload(header);
      }
    }

    method DiscardDataBetweenHeaderAndPayload(header: TcpHeader, discard: nat)
      requires Valid() && pending == Idle
      modifies this
      ensures Valid() && canceled == old(canceled) && hook == old(hook) && written == old(written)
      ensures old(canceled) ==> FailedFrom(true, old(retriesLeft), old(closedNotifications))
      ensures !old(canceled) ==>
                pending == Discarding(header, discard) && retriesLeft == old(retriesLeft)
                && closedNotifications == old(closedNotifications)
    {
      if canceled {
        ConnectionFailed();
        return;
      }
      pending := Discarding(header, discard);
    }

    /** The bytes between header and payload were skipped. */
    method OnDiscardRead(ok: bool)
      requires Valid() && pending.Discarding?
      modifies this
      ensures Valid() && canceled == old(canceled) && hook == old(hook) && written == old(written)
      ensures var header := old(pending).header;
              if !ok || old(canceled) then FailedFrom(old(canceled), old(retriesLeft), old(closedNotifications))
              else pending == (if header.dataSize > 0 then PayloadReading(header) else HeaderLengthReading)
                   && retriesLeft == old(retriesLeft) && closedNotifications == old(closedNotifications)
    {
      var header := pending.header;
      pending := Idle;
      if !ok {
        ConnectionFailed();
        return;
      }
      ReadPayload(header);
    }

    /** readPayload: a frame with no payload is skipped and the next header is read. */
    method ReadPayload(header: TcpHeader)
      requires Valid() && pending == Idle
      modifies this
      ensures Valid() && canceled == old(canceled) && hook == old(hook) && written == old(written)
      ensures old(canceled) ==> FailedFrom(true, old(retriesLeft), old(closedNotifications))
      ensures !old(canceled) ==>
                pending == (if header.dataSize > 0 then PayloadReading(header) else HeaderLengthReading)
                && retriesLeft == old(retriesLeft) && closedNotifications == old(closedNotifications)
    {
      if canceled {
        ConnectionFailed();
        return;
      }
      if header.dataSize == 0 {
        ReadHeaderLength();
        return;
      }
      pending := PayloadReading(header);
    }

    /**
     * The payload arrived. The retry budget is restored; a regular payload is
     * handed to the delivery hook (returned as `delivered`, to be run with
     * `hook`), or to the failure handler if the session was canceled;
     * handshake and unknown frames are only logged. Reading always resumes.
     */
    method OnPayloadRead(ok: bool, payload: Buffer) returns (delivered: Option<Buffer>)
      requires Valid() && pending.PayloadReading?
      requires ok ==> |payload| == pending.header.dataSize
      modifies this
      ensures Valid() && canceled == old(canceled) && hook == old(hook) && written == old(written)
      ensures delivered == if ok && !old(canceled) && old(pending).header.msgType == RegularPayload
                           then Some(payload) else None
      ensures !ok ==> FailedFrom(old(canceled), old(retriesLeft), old(closedNotifications))
      ensures ok ==> retriesLeft == maxReconnectionAttempts
      ensures ok && !old(canceled) ==> pending == HeaderLengthReading && closedNotifications == old(closedNotifications)
      ensures ok && old(canceled) ==>
                pending == Idle && !socketOpen
                && closedNotifications == old(closedNotifications)
                                          + (if old(pending).header.msgType == RegularPayload then 2 else 1)
    {
      var header := pending.header;
      pending := Idle;
      if !ok {
        ConnectionFailed();
        return None;
      }
      retriesLeft := maxReconnectionAttempts;
      delivered := None;
      match header.msgType {
        case ProtocolHandshake =>
          var _ := DecodeHandshake(payload);
        case RegularPayload =>
          // Posted to the strand ahead of the resumed read below.
          if canceled {
            ConnectionFailed();
          } else {
            delivered := Some(payload);
          }
        case Unknown(_) =>
      }
      ReadHeaderLength();
    }

    /** setSynchronousCallback: replace the hook unless canceled. */
    method SetSynchronousCallback(h: DeliveryHook)
      requires Valid()
      modifies this`hook
      ensures Valid() && hook == if canceled then old(hook) else h
    {
      if canceled {
        return;
      }
      hook := h;
    }

    /**
     * cancel: only the first call does anything; it closes the socket (the
     * timer and resolver are canceled too, so their completions report
     * errors) and does not call the closed handler.
     */
    method Cancel() returns (first: bool)
      requires Valid()
      modifies this
      ensures Valid() && canceled && first == !old(canceled)
      ensures socketOpen == false
      ensures pending == old(pending) && retriesLeft == old(retriesLeft) && hook == old(hook)
      ensures written == old(written) && closedNotifications == old(closedNotifications)
    {
      var already := canceled;
      canceled := true;
      if already {
        return false;
      }
      socketOpen := false;
      first := true;
    }

    /** The operation that `c` completes is outstanding on this session. */
    predicate Awaits(c: Completion)
      reads this
    {
      match c
      case RetryTimerFired(_) => pending == RetryWaiting
      case ResolveDone(ok, resolved) => pending == Resolving && (ok ==> resolved != [])
      case ConnectDone(_) => pending.Connecting?
      case HandshakeWriteDone(_) => pending == HandshakeWriting
      case HeaderLengthDone(_, sizeBytes) => pending == HeaderLengthReading && |sizeBytes| == SIZE_FIELD_LENGTH
      case HeaderContentDone(_, content) => pending.HeaderContentReading? && |content| == pending.bytesToRead
      case DiscardDone(_) => pending.Discarding?
      case PayloadDone(ok, payload) => pending.PayloadReading? && (ok ==> |payload| == pending.header.dataSize)
    }

    /**
     * What handling the awaited completion `c` leaves, given the state before
     * it: the canceled flag and the hook are kept, and the outcome of each kind
     * of completion is that of its OnXxx handler. A failure, or a completion
     * on a canceled session, ends in connectionFailedHandler's state.
     */
    twostate predicate Handled(c: Completion)
      requires old(Valid()) && old(Awaits(c))
      reads this
    {
      FieldWidths();
      var failed := FailedFrom(old(canceled), old(retriesLeft), old(closedNotifications));
      var kept := retriesLeft == old(retriesLeft) && closedNotifications == old(closedNotifications);
      var live := c.ok && !old(canceled);
      && canceled == old(canceled) && hook == old(hook)
      && match c
         case RetryTimerFired(ok) =>
           && written == old(written)
           && if !ok then pending == Idle && kept
              else if !old(canceled) then pending == Resolving && kept
              else failed
         case ResolveDone(_, resolved) =>
           && written == old(written)
           && if live then
                && pending.Connecting? && pending.endpoint in resolved && endpoint == Some(pending.endpoint)
                && socketOpen && kept
              else failed
         case ConnectDone(_) =>
           if live then pending == HandshakeWriting && written == old(written) + [HandshakeFrame()] && kept
           else failed && written == old(written)
         case HandshakeWriteDone(_) =>
           && written == old(written)
           && if live then pending == HeaderLengthReading && kept else failed
         case HeaderLengthDone(_, sizeBytes) =>
           var plan := SubscriberPlanAsWritten(FromLittleEndian(sizeBytes));
           && written == old(written)
           && if live && plan.ReadThenDiscard? then
                pending == HeaderContentReading(sizeBytes, plan.bytesToRead, plan.bytesToDiscard) && kept
              else failed
         case HeaderContentDone(_, content) =>
           var header := AssembleHeader(old(pending).sizeBytes, content);
           var discard := old(pending).bytesToDiscard;
           && written == old(written)
           && if !live then failed
              else if discard > 0 then pending == Discarding(header, discard) && kept
              else if header.dataSize > 0 then pending == PayloadReading(header) && kept
              else pending == HeaderLengthReading && kept
         case DiscardDone(_) =>
           var header := old(pending).header;
           && written == old(written)
           && if live then pending == (if header.dataSize > 0 then PayloadReading(header) else HeaderLengthReading) && kept
              else failed
         case PayloadDone(ok, _) =>
           && written == old(written)
           && if !ok then failed
              else
                && retriesLeft == maxReconnectionAttempts
                && if !old(canceled) then pending == HeaderLengthReading && closedNotifications == old(closedNotifications)
                   else
                     && pending == Idle && !socketOpen
                     && closedNotifications == old(closedNotifications)
                                               + (if old(pending).header.msgType == RegularPayload then 2 else 1)
    }

    /**
     * Run the completion handler for `c`. A regular payload is passed on
     * exactly when it arrives intact on a session that is not canceled. A
     * session that called the closed handler has nothing outstanding
     * afterwards.
     */
    method Handle(c: Completion) returns (delivered: Option<Buffer>)
      requires Valid() && Awaits(c)
      modifies this
      ensures Valid() && Handled(c)
      ensures delivered == if c.PayloadDone? && c.ok && !old(canceled) && old(pending).header.msgType == RegularPayload
                           then Some(c.payload) else None
      ensures closedNotifications >= old(closedNotifications)
      ensures closedNotifications > old(closedNotifications) ==> pending == Idle
    {
      delivered := None;
      match c {
        case RetryTimerFired(ok) => OnRetryTimer(ok);
        case ResolveDone(ok, resolved) => OnResolved(ok, resolved);
        case ConnectDone(ok) => OnConnected(ok);
        case HandshakeWriteDone(ok) => OnHandshakeWritten(ok);
        case HeaderLengthDone(ok, sizeBytes) => OnHeaderLengthRead(ok, sizeBytes);
        case HeaderContentDone(ok, content) => OnHeaderContentRead(ok, content);
        case DiscardDone(ok) => OnDiscardRead(ok);
        case PayloadDone(ok, payload) => delivered := OnPayloadRead(ok, payload);
      }
    }
  }

  // ------------------------------------------------------------------
  // Scenarios driving one session through the event methods

  /**
   * Every attempt fails at the resolver and every retry timer fires. The
   * session reports itself closed after exactly max + 1 attempts when
   * max >= 0, and never when max < 0.
   */
  method RetryUntilClosed(max: int, failures: nat) returns (attempts: nat, closed: bool)
    ensures closed == (0 <= max < failures)
    ensures attempts == if closed then max + 1 else failures
  {
    var s := new SubscriberSession(max);
    s.Start();
    attempts := 0;
    closed := false;
    while attempts < failures && !closed
      invariant s.Valid() && !s.canceled && s.maxReconnectionAttempts == max
      invariant attempts <= failures
      invariant closed == (s.closedNotifications == 1)
      invariant closed ==> 0 <= max && attempts == max + 1
      invariant !closed ==> s.pending == Resolving && s.closedNotifications == 0
                            && s.retriesLeft == (if max < 0 then max else max - attempts)
      decreases failures - attempts
    {
      s.OnResolved(false, []);
      attempts := attempts + 1;
      if s.pending == RetryWaiting {
        s.OnRetryTimer(true);
      } else {
        closed := true;
      }
    }
  }

  /** Canceling while the session waits to reconnect: the timer completes with an error and the closed handler never runs. */
  method CancelDuringRetryWait() returns (closedNotifications: nat, idle: bool)
    ensures closedNotifications == 0 && idle
  {
    var s := new SubscriberSession(1);
    s.Start();
    s.OnResolved(false, []);
    var _ := s.Cancel();
    s.OnRetryTimer(false);
    closedNotifications, idle := s.closedNotifications, s.pending == Idle;
  }

  /** A regular payload that completes after cancel reaches the failure handler twice, so the closed handler runs twice. */
  method CancelDuringPayloadRead(payload: Buffer) returns (closedNotifications: nat)
    requires 0 < |payload| < 0x1_0000_0000_0000_0000
    ensures closedNotifications == 2
  {
    var s := new SubscriberSession(0);
    s.Start();
    var lan := Endpoint(V4(192, 168, 0, 1), 1588);
    s.OnResolved(true, [lan]);
    s.OnConnected(true);
    s.OnHandshakeWritten(true);
    // The publisher's frame header arrives in the two reads the session makes.
    var header := TcpHeader(HEADER_LENGTH, RegularPayload, 0, |payload|);
    var image := EncodeHeader(header);
    FieldWidths();
    s.OnHeaderLengthRead(true, image[..SIZE_FIELD_LENGTH]);
    s.OnHeaderContentRead(true, image[SIZE_FIELD_LENGTH..]);
    var assembled := AssembleHeader(image[..SIZE_FIELD_LENGTH], image[SIZE_FIELD_LENGTH..]);
    assert image[..SIZE_FIELD_LENGTH] + image[SIZE_FIELD_LENGTH..] == image;
    assert EncodeHeader(assembled) == image;
    HeaderRoundTrip(assembled);
    HeaderRoundTrip(header);
    assert s.pending == PayloadReading(header);
    var _ := s.Cancel();
    var _ := s.OnPayloadRead(true, payload);
    closedNotifications := s.closedNotifications;
  }
}

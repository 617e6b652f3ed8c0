/**
 * The publisher's side of one subscriber connection
 * (stps/publisher/publisher_session.cc). The session reads the subscriber's
 * handshake frame, answers it, and from then on only writes: at most one
 * buffer waits in a single pending slot, and a newer buffer overwrites it
 * (latest wins).
 *
 * Each asynchronous completion handler becomes an event method (`OnXxxRead`,
 * `OnWriteComplete`) whose `ok` argument is the completion's error code and
 * whose `requires` names the operation that must be outstanding for the
 * completion to arrive.
 */
module PublisherSessions {
  import opened Wrappers
  import opened Wire

  type Buffer = seq<Byte>

  datatype State = NotStarted | Handshaking | Running | Canceled

  /** The read outstanding on the socket, with the values its completion handler captured. */
  datatype PendingRead =
    | NoRead
    | HeaderLengthRead
    | HeaderContentRead(sizeBytes: seq<Byte>, bytesToRead: nat, bytesToDiscard: nat)
    | DiscardRead(header: TcpHeader, bytesToDiscard: nat)
    | PayloadRead(header: TcpHeader)

  /**
   * The send side of a session: the in-flight flag, the single pending slot,
   * how many async_writes have not completed yet, and every buffer handed to
   * async_write, in order.
   */
  datatype Outbox = Outbox(sendingInProgress: bool, nextBuffer: Option<Buffer>, writesInFlight: nat, written: seq<Buffer>)

  const EmptyOutbox := Outbox(false, None, 0, [])

  /** sendDataBuffer: write now if running and idle, else overwrite the pending slot. */
  function Offer(o: Outbox, state: State, buf: Buffer): Outbox {
    if state == Canceled then o
    else if state == Running && !o.sendingInProgress then
      Outbox(true, o.nextBuffer, o.writesInFlight + 1, o.written + [buf])
    else o.(nextBuffer := Some(buf))
  }

  /** Offering several buffers one after the other. */
  function OfferAll(o: Outbox, state: State, bufs: seq<Buffer>): Outbox
    decreases |bufs|
  {
    if bufs == [] then o else OfferAll(Offer(o, state, bufs[0]), state, bufs[1..])
  }

  /** A write completed without error on a session that is not Canceled: send the pending buffer, or go idle. */
  function WriteSucceeded(o: Outbox): Outbox
    requires o.writesInFlight > 0
  {
    match o.nextBuffer
    case Some(b) => Outbox(o.sendingInProgress, None, o.writesInFlight, o.written + [b])
    case None => Outbox(false, None, o.writesInFlight - 1, o.written)
  }

  /** The handshake response write as sendProtocolHandshakeResponse issues it: the in-flight flag is not set. */
  function HandshakeWrite(o: Outbox): Outbox {
    o.(writesInFlight := o.writesInFlight + 1, written := o.written + [HandshakeFrame()])
  }

  /**
   * What the in-flight flag guarantees as the code stands: with the flag clear at
   * most one write is outstanding, with it set at most two (the handshake
   * response write is the one the flag does not count).
   */
  predicate WritesBounded(o: Outbox) {
    o.writesInFlight <= if o.sendingInProgress then 2 else 1
  }

  lemma OfferKeepsWritesBounded(o: Outbox, state: State, buf: Buffer)
    requires WritesBounded(o)
    ensures WritesBounded(Offer(o, state, buf))
  {
  }

  lemma WriteSucceededKeepsWritesBounded(o: Outbox)
    requires o.writesInFlight > 0 && WritesBounded(o)
    ensures WritesBounded(WriteSucceeded(o))
  {
  }

  /** Offers made while a write is outstanding (or before Running) write nothing; the slot ends up holding the last one. */
  lemma {:induction false} OfferAllKeepsOnlyLatest(o: Outbox, state: State, bufs: seq<Buffer>)
    requires bufs != [] && state != Canceled
    requires state != Running || o.sendingInProgress
    ensures OfferAll(o, state, bufs) == o.(nextBuffer := Some(bufs[|bufs| - 1]))
    decreases |bufs|
  {
    if |bufs| > 1 {
      OfferAllKeepsOnlyLatest(Offer(o, state, bufs[0]), state, bufs[1..]);
    }
  }

  /**
   * Latest wins: on a running, idle session, W1 is written at once; of any
   * buffers offered while it is in flight only the last is written when W1
   * completes, and after that completion the session is idle again.
   */
  lemma {:induction false} LatestWins(o: Outbox, w1: Buffer, later: seq<Buffer>)
    requires !o.sendingInProgress && o.nextBuffer == None && later != []
    requires WritesBounded(o)
    ensures var o1 := OfferAll(Offer(o, Running, w1), Running, later);
            o1.writesInFlight > 0
            && WriteSucceeded(o1).writesInFlight > 0
            && WriteSucceeded(o1).written == o.written + [w1, later[|later| - 1]]
            && WriteSucceeded(o1).nextBuffer == None
            && WriteSucceeded(WriteSucceeded(o1)) == o.(written := o.written + [w1, later[|later| - 1]])
  {
    var o0 := Offer(o, Running, w1);
    assert o0.sendingInProgress && o0.written == o.written + [w1];
    OfferAllKeepsOnlyLatest(o0, Running, later);
  }

  /** The coalescing example: W1 in flight, then W2 and W3 offered; only W1 and W3 are ever written. */
  lemma Coalescing(o: Outbox, w1: Buffer, w2: Buffer, w3: Buffer)
    requires !o.sendingInProgress && o.nextBuffer == None && WritesBounded(o)
    ensures var o1 := OfferAll(o, Running, [w1, w2, w3]);
            o1.writesInFlight > 0
            && WriteSucceeded(o1).writesInFlight > 0
            && WriteSucceeded(WriteSucceeded(o1)).written == o.written + [w1, w3]
  {
    assert OfferAll(o, Running, [w1, w2, w3]) == OfferAll(Offer(o, Running, w1), Running, [w2, w3]);
    LatestWins(o, w1, [w2, w3]);
  }

  // ------------------------------------------------------------------
  // The handshake response write escapes the in-flight flag.

  /**
   * As written: a buffer Q queued during the handshake, then the handshake
   * response, then a send of W as soon as the session is Running. Two writes
   * are in flight at once, and Q, the older buffer, is written after W.
   */
  lemma HandshakeWriteOverlaps(q: Buffer, w: Buffer)
    ensures var o := Offer(HandshakeWrite(Offer(EmptyOutbox, Handshaking, q)), Running, w);
            o.writesInFlight == 2
            && WriteSucceeded(o).written == [HandshakeFrame(), w, q]
  {
  }

  /** The handshake response write made under the in-flight flag, as sendDataBuffer's writes are. */
  function SerializedHandshakeWrite(o: Outbox): Outbox {
    Outbox(true, o.nextBuffer, o.writesInFlight + 1, o.written + [HandshakeFrame()])
  }

  /** One write at a time: the flag is set exactly when one write is outstanding. */
  predicate OneWriteInFlight(o: Outbox) {
    o.writesInFlight == if o.sendingInProgress then 1 else 0
  }

  /** With the serialized handshake write, every step keeps a single write outstanding at most. */
  lemma SerializedWritesStaySingle(o: Outbox, state: State, buf: Buffer)
    requires OneWriteInFlight(o)
    ensures OneWriteInFlight(Offer(o, state, buf))
    ensures o.writesInFlight > 0 ==> OneWriteInFlight(WriteSucceeded(o))
    ensures !o.sendingInProgress ==> OneWriteInFlight(SerializedHandshakeWrite(o))
  {
  }

  /** With the serialized handshake write the example above writes only the latest buffer, after the handshake. */
  lemma SerializedHandshakeKeepsLatest(q: Buffer, w: Buffer)
    ensures var o := Offer(SerializedHandshakeWrite(Offer(EmptyOutbox, Handshaking, q)), Running, w);
            o.writesInFlight == 1
            && WriteSucceeded(o).written == [HandshakeFrame(), w]
  {
  }

  // ------------------------------------------------------------------

  /** A completion delivered to a session, with what it carries. */
  datatype SessionEvent =
    | HeaderLengthArrived(ok: bool, sizeBytes: seq<Byte>)
    | HeaderContentArrived(ok: bool, content: seq<Byte>)
    | DiscardDone(ok: bool)
    | PayloadArrived(ok: bool, payload: seq<Byte>)
    | WriteDone(ok: bool)

  ghost predicate PendingReadWellFormed(r: PendingRead) {
    && (r.HeaderContentRead? ==>
          |r.sizeBytes| == SIZE_FIELD_LENGTH && r.bytesToRead <= HEADER_LENGTH - SIZE_FIELD_LENGTH)
    && (r.PayloadRead? ==> r.header.dataSize > 0)
  }

  class PublisherSession {
    var state: State
    var sendingInProgress: bool
    var nextBuffer: Option<Buffer>
    var writesInFlight: nat
    var written: seq<Buffer>
    var pendingRead: PendingRead
    var socketOpen: bool
    var closedNotifications: nat    // calls of session_closed_handler_

    function SendSide(): Outbox
      reads this
    {
      Outbox(sendingInProgress, nextBuffer, writesInFlight, written)
    }

    /**
     * The session's invariant. The closed handler has fired exactly when the
     * state is Canceled (so at most once); nothing is written before the
     * handshake is answered; reads happen only during the handshake.
     */
    ghost predicate Valid()
      reads this
    {
      && closedNotifications == (if state == Canceled then 1 else 0)
      && socketOpen == (state != Canceled)
      && (state == NotStarted ==> pendingRead == NoRead)
      && (state == NotStarted || state == Handshaking ==>
            writesInFlight == 0 && !sendingInProgress && written == [])
      && (state == Running ==> pendingRead == NoRead)
      && WritesBounded(SendSide())
      && PendingReadWellFormed(pendingRead)
    }

    constructor ()
      ensures Valid() && state == NotStarted && pendingRead == NoRead
      ensures SendSide() == EmptyOutbox && closedNotifications == 0
    {
      state := NotStarted;
      sendingInProgress := false;
      nextBuffer := None;
      writesInFlight := 0;
      written := [];
      pendingRead := NoRead;
      socketOpen := true;
      closedNotifications := 0;
    }

    /** start: enter Handshaking and begin reading the first header. */
    method Start()
      requires Valid() && state == NotStarted
      modifies this
      ensures Valid() && state == Handshaking && pendingRead == HeaderLengthRead
      ensures SendSide() == old(SendSide())
    {
      state := Handshaking;
      ReadHeaderLength();
    }

    /** cancel / sessionClosedHandler: swap in Canceled; only the first call closes and notifies. */
    method Cancel() returns (notified: bool)
      requires Valid()
      modifies this
      ensures Valid() && state == Canceled
      ensures notified == (old(state) != Canceled)
      ensures closedNotifications == old(closedNotifications) + (if notified then 1 else 0)
      ensures SendSide() == old(SendSide()) && pendingRead == old(pendingRead)
    {
      notified := SessionClosed();
    }

    method SessionClosed() returns (notified: bool)
      requires Valid()
      modifies this
      ensures Valid() && state == Canceled
      ensures notified == (old(state) != Canceled)
      ensures closedNotifications == old(closedNotifications) + (if notified then 1 else 0)
      ensures SendSide() == old(SendSide()) && pendingRead == old(pendingRead)
    {
      var previous := state;
      state := Canceled;
      if previous == Canceled {
        return false;
      }
      socketOpen := false;
      closedNotifications := closedNotifications + 1;
      notified := true;
    }

    method ReadHeaderLength()
      requires Valid() && pendingRead == NoRead && (state == Handshaking || state == Canceled)
      modifies this
      ensures Valid() && state == old(state) && SendSide() == old(SendSide())
      ensures pendingRead == if state == Canceled then NoRead else HeaderLengthRead
    {
      if state == Canceled {
        return;
      }
      pendingRead := HeaderLengthRead;
    }

    /** The two header_size bytes arrived (or the read failed). */
    method OnHeaderLengthRead(ok: bool, sizeBytes: seq<Byte>)
      requires Valid() && pendingRead == HeaderLengthRead && |sizeBytes| == SIZE_FIELD_LENGTH
      modifies this
      ensures Valid() && SendSide() == old(SendSide())
      ensures var plan := PlanHeaderRead(FromLittleEndian(sizeBytes));
              && state == (if !ok || plan.TooShort? then Canceled else old(state))
              && pendingRead == (if ok && old(state) != Canceled && plan.ReadThenDiscard?
                                 then HeaderContentRead(sizeBytes, plan.bytesToRead, plan.bytesToDiscard)
                                 else NoRead)
    {
      FieldWidths();
      pendingRead := NoRead;
      if !ok {
        var _ := SessionClosed();
        return;
      }
      ReadHeaderContent(sizeBytes);
    }

    method ReadHeaderContent(sizeBytes: seq<Byte>)
      requires Valid() && pendingRead == NoRead && (state == Handshaking || state == Canceled) && |sizeBytes| == SIZE_FIELD_LENGTH
      modifies this
      ensures Valid() && SendSide() == old(SendSide())
      ensures var plan := PlanHeaderRead(FromLittleEndian(sizeBytes));
              && state == (if plan.TooShort? then Canceled else old(state))
              && pendingRead == (if old(state) != Canceled && plan.ReadThenDiscard?
                                 then HeaderContentRead(sizeBytes, plan.bytesToRead, plan.bytesToDiscard)
                                 else NoRead)
    {
      FieldWidths();
      if state == Canceled {
        return;
      }
      var remote := FromLittleEndian(sizeBytes);
      match PlanHeaderRead(remote)
      case TooShort =>
        var _ := SessionClosed();
      case ReadThenDiscard(n, d) =>
        pendingRead := HeaderContentRead(sizeBytes, n, d);
    }

    /** The rest of the local header arrived: discard a longer remote header's extra bytes, or read the payload. */
    method OnHeaderContentRead(ok: bool, content: seq<Byte>)
      requires Valid() && pendingRead.HeaderContentRead? && |content| == pendingRead.bytesToRead
      modifies this
      ensures Valid() && SendSide() == old(SendSide())
      ensures var header := AssembleHeader(old(pendingRead).sizeBytes, content);
              var discard := old(pendingRead).bytesToDiscard;
              var live := ok && old(state) != Canceled;
              && state == (if !ok || (discard == 0 && header.dataSize == 0) then Canceled else old(state))
              && pendingRead == (if live && discard > 0 then DiscardRead(header, discard)
                                 else if live && header.dataSize > 0 then PayloadRead(header)
                                 else NoRead)
    {
      var sizeBytes, discard := pendingRead.sizeBytes, pendingRead.bytesToDiscard;
      pendingRead := NoRead;
      if !ok {
        var _ := SessionClosed();
        return;
      }
      var header := AssembleHeader(sizeBytes, content);
      if discard > 0 {
        DiscardDataBetweenHeaderAndPayload(header, discard);
      } else {
        ReadPayload(header);
      }
    }

    method DiscardDataBetweenHeaderAndPayload(header: TcpHeader, discard: nat)
      requires Valid() && pendingRead == NoRead && (state == Handshaking || state == Canceled)
      modifies this
      ensures Valid() && SendSide() == old(SendSide()) && state == old(state)
      ensures pendingRead == if state == Canceled then NoRead else DiscardRead(header, discard)
    {
      if state == Canceled {
        return;
      }
      pendingRead := DiscardRead(header, discard);
    }

    /** The extra header bytes were skipped. */
    method OnDiscardRead(ok: bool)
      requires Valid() && pendingRead.DiscardRead?
      modifies this
      ensures Valid() && SendSide() == old(SendSide())
      ensures var header := old(pendingRead).header;
              && state == (if !ok || header.dataSize == 0 then Canceled else old(state))
              && pendingRead == (if ok && old(state) != Canceled && header.dataSize > 0
                                 then PayloadRead(header) else NoRead)
    {
      var header := pendingRead.header;
      pendingRead := NoRead;
      if !ok {
        var _ := SessionClosed();
        return;
      }
      ReadPayload(header);
    }

    /** readPayload: a frame announcing no payload closes the session. */
    method ReadPayload(header: TcpHeader)
      requires Valid() && pendingRead == NoRead && (state == Handshaking || state == Canceled)
      modifies this
      ensures Valid() && SendSide() == old(SendSide())
      ensures state == if header.dataSize == 0 then Canceled else old(state)
      ensures pendingRead == if old(state) != Canceled && header.dataSize > 0 then PayloadRead(header) else NoRead
    {
      if state == Canceled {
        return;
      }
      if header.dataSize == 0 {
        var _ := SessionClosed();
        return;
      }
      pendingRead := PayloadRead(header);
    }

    /**
     * The payload arrived. A handshake frame is answered and moves the session
     * to Running; any other frame type closes it. No further read is issued.
     */
    method OnPayloadRead(ok: bool, payload: seq<Byte>)
      requires Valid() && pendingRead.PayloadRead?
      requires ok ==> |payload| == pendingRead.header.dataSize
      modifies this
      ensures Valid() && pendingRead == NoRead
      ensures var answered := ok && old(state) == Handshaking
                              && old(pendingRead).header.msgType == ProtocolHandshake;
              && state == (if answered then Running else Canceled)
              && SendSide() == (if answered then HandshakeWrite(old(SendSide())) else old(SendSide()))
    {
      var header := pendingRead.header;
      pendingRead := NoRead;
      if !ok {
        var _ := SessionClosed();
        return;
      }
      if header.msgType == ProtocolHandshake {
        var _ := DecodeHandshake(payload);
        SendProtocolHandshakeResponse();
      } else {
        var _ := SessionClosed();
      }
    }

    /** Write the 13-byte handshake frame; Handshaking becomes Running. */
    method SendProtocolHandshakeResponse()
      requires Valid() && (state == Handshaking || state == Canceled) && pendingRead == NoRead
      modifies this
      ensures Valid() && pendingRead == NoRead
      ensures state == if old(state) == Handshaking then Running else Canceled
      ensures SendSide() == if old(state) == Canceled then old(SendSide()) else HandshakeWrite(old(SendSide()))
    {
      if state == Canceled {
        return;
      }
      var frame := HandshakeFrame();
      SendBufferToClient(frame);
      // The exchange restores any state other than Handshaking, but a payload
      // read is only outstanding while Handshaking, so that branch is dead here.
      state := Running;
    }

    method SendBufferToClient(buf: Buffer)
      requires Valid() && (state == Running ==> WritesBounded(SendSide().(writesInFlight := writesInFlight + 1)))
      requires state == NotStarted || state == Handshaking ==> buf == HandshakeFrame()
      modifies this`written, this`writesInFlight
      ensures written == if old(state) == Canceled then old(written) else old(written) + [buf]
      ensures writesInFlight == if old(state) == Canceled then old(writesInFlight) else old(writesInFlight) + 1
    {
      if state == Canceled {
        return;
      }
      written := written + [buf];
      writesInFlight := writesInFlight + 1;
    }

    /** sendDataBuffer: write at once when Running and idle, else overwrite the single pending slot. */
    method SendDataBuffer(buf: Buffer)
      requires Valid()
      modifies this
      ensures Valid() && state == old(state) && pendingRead == old(pendingRead)
      ensures SendSide() == Offer(old(SendSide()), old(state), buf)
    {
      if state == Canceled {
        return;
      }
      if state == Running && !sendingInProgress {
        sendingInProgress := true;
        SendBufferToClient(buf);
      } else {
        nextBuffer := Some(buf);
      }
    }

    /**
     * A write completed. An error closes the session; on a Canceled session
     * nothing else happens; otherwise the pending buffer is written, or the
     * in-flight flag is cleared.
     */
    method OnWriteComplete(ok: bool)
      requires Valid() && writesInFlight > 0
      modifies this
      ensures Valid() && pendingRead == old(pendingRead)
      ensures state == if ok then old(state) else Canceled
      ensures SendSide() == if ok && old(state) != Canceled then WriteSucceeded(old(SendSide()))
                            else old(SendSide()).(writesInFlight := old(writesInFlight) - 1)
    {
      writesInFlight := writesInFlight - 1;
      if !ok {
        var _ := SessionClosed();
        return;
      }
      if state == Canceled {
        return;
      }
      if nextBuffer.Some? {
        var next := nextBuffer.value;
        nextBuffer := None;
        SendBufferToClient(next);
      } else {
        sendingInProgress := false;
      }
    }

    /** The operation that `e` completes is outstanding on this session. */
    predicate Awaits(e: SessionEvent)
      reads this
    {
      match e
      case HeaderLengthArrived(_, sizeBytes) => pendingRead == HeaderLengthRead && |sizeBytes| == SIZE_FIELD_LENGTH
      case HeaderContentArrived(_, content) => pendingRead.HeaderContentRead? && |content| == pendingRead.bytesToRead
      case DiscardDone(_) => pendingRead.DiscardRead?
      case PayloadArrived(ok, payload) => pendingRead.PayloadRead? && (ok ==> |payload| == pendingRead.header.dataSize)
      case WriteDone(_) => writesInFlight > 0
    }

    /**
     * What handling the awaited completion `e` leaves, given the state before
     * it: the outcome of its OnXxx handler. A read error, a header_size below
     * 2, a frame announcing no payload, a payload that is not a handshake
     * answered while Handshaking, and a write error all close the session.
     */
    twostate predicate Handled(e: SessionEvent)
      requires old(Valid()) && old(Awaits(e))
      reads this
    {
      FieldWidths();
      match e
      case HeaderLengthArrived(ok, sizeBytes) =>
        var plan := PlanHeaderRead(FromLittleEndian(sizeBytes));
        && SendSide() == old(SendSide())
        && state == (if !ok || plan.TooShort? then Canceled else old(state))
        && pendingRead == (if ok && old(state) != Canceled && plan.ReadThenDiscard?
                           then HeaderContentRead(sizeBytes, plan.bytesToRead, plan.bytesToDiscard)
                           else NoRead)
      case HeaderContentArrived(ok, content) =>
        var header := AssembleHeader(old(pendingRead).sizeBytes, content);
        var discard := old(pendingRead).bytesToDiscard;
        var live := ok && old(state) != Canceled;
        && SendSide() == old(SendSide())
        && state == (if !ok || (discard == 0 && header.dataSize == 0) then Canceled else old(state))
        && pendingRead == (if live && discard > 0 then DiscardRead(header, discard)
                           else if live && header.dataSize > 0 then PayloadRead(header)
                           else NoRead)
      case DiscardDone(ok) =>
        var header := old(pendingRead).header;
        && SendSide() == old(SendSide())
        && state == (if !ok || header.dataSize == 0 then Canceled else old(state))
        && pendingRead == (if ok && old(state) != Canceled && header.dataSize > 0 then PayloadRead(header) else NoRead)
      case PayloadArrived(ok, _) =>
        var answered := ok && old(state) == Handshaking && old(pendingRead).header.msgType == ProtocolHandshake;
        && pendingRead == NoRead
        && state == (if answered then Running else Canceled)
        && SendSide() == (if answered then HandshakeWrite(old(SendSide())) else old(SendSide()))
      case WriteDone(ok) =>
        && pendingRead == old(pendingRead)
        && state == (if ok then old(state) else Canceled)
        && SendSide() == (if ok && old(state) != Canceled then WriteSucceeded(old(SendSide()))
                          else old(SendSide()).(writesInFlight := old(writesInFlight) - 1))
    }

    /**
     * Run the completion handler for `e`. `closed` says whether the session
     * closed for the first time, that is, whether sessionClosedHandler went on
     * to call session_closed_handler_.
     */
    method Handle(e: SessionEvent) returns (closed: bool)
      requires Valid() && Awaits(e)
      modifies this
      ensures Valid() && Handled(e)
      ensures closed == (old(state) != Canceled && state == Canceled)
      ensures closedNotifications == old(closedNotifications) + (if closed then 1 else 0)
    {
      var before := state;
      match e {
        case HeaderLengthArrived(ok, sizeBytes) => OnHeaderLengthRead(ok, sizeBytes);
        case HeaderContentArrived(ok, content) => OnHeaderContentRead(ok, content);
        case DiscardDone(ok) => OnDiscardRead(ok);
        case PayloadArrived(ok, payload) => OnPayloadRead(ok, payload);
        case WriteDone(ok) => OnWriteComplete(ok);
      }
      closed := before != Canceled && state == Canceled;
    }
  }
}

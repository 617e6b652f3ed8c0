/**
 * The publisher broker (stps/publisher/publisher_impl.cc): it opens a
 * listening acceptor, turns every accepted connection into a
 * PublisherSession, keeps the live sessions in a list, and on `send` lays the
 * given payloads out behind one header in a single buffer that every session
 * is offered.
 */
module Publishers {
  import opened Wrappers
  import opened Wire
  import opened Registry
  import opened PublisherSessions

  /** One (pointer, size) entry handed to send: a null pointer with a size, or bytes. */
  datatype Payload = Null(size: nat) | Bytes(bytes: seq<Byte>)

  function Size(p: Payload): nat {
    match p
    case Null(n) => n
    case Bytes(b) => |b|
  }

  /** entire_payload_size: the sizes of all entries, null ones included. */
  function TotalSize(payloads: seq<Payload>): nat {
    if payloads == [] then 0
    else TotalSize(payloads[..|payloads| - 1]) + Size(payloads[|payloads| - 1])
  }

  /** What one entry contributes behind the header: nothing for a null pointer or a zero size. */
  function Copied(p: Payload): seq<Byte> {
    if p.Bytes? && |p.bytes| > 0 then p.bytes else []
  }

  /** The bytes copied behind the header, entry after entry. */
  function Body(payloads: seq<Payload>): seq<Byte> {
    if payloads == [] then [] else Body(payloads[..|payloads| - 1]) + Copied(payloads[|payloads| - 1])
  }

  predicate AllPresent(payloads: seq<Payload>) {
    forall i :: 0 <= i < |payloads| ==> payloads[i].Bytes?
  }

  /** A prefix never holds more than the whole list. */
  lemma {:induction false} TotalSizeOfPrefix(payloads: seq<Payload>, k: nat)
    requires k <= |payloads|
    ensures TotalSize(payloads[..k]) <= TotalSize(payloads)
    decreases |payloads| - k
  {
    if k < |payloads| {
      TotalSizeOfPrefix(payloads, k + 1);
      assert payloads[..k + 1][..k] == payloads[..k];
    } else {
      assert payloads[..k] == payloads;
    }
  }

  /**
   * The copied bytes never exceed the announced size, and fill it exactly
   * when no entry is null.
   */
  lemma {:induction false} BodyWithinTotal(payloads: seq<Payload>)
    ensures |Body(payloads)| <= TotalSize(payloads)
    ensures AllPresent(payloads) ==> |Body(payloads)| == TotalSize(payloads)
  {
    if payloads != [] {
      var init := payloads[..|payloads| - 1];
      BodyWithinTotal(init);
      assert AllPresent(payloads) ==> AllPresent(init) by {
        if AllPresent(payloads) {
          forall i | 0 <= i < |init| ensures init[i].Bytes? {
            assert init[i] == payloads[i];
          }
        }
      }
    }
  }

  /** std::vector::resize on a pooled buffer: existing bytes are kept, new ones are zero. */
  function Resized(prior: seq<Byte>, n: nat): (r: seq<Byte>)
    ensures |r| == n
    ensures forall i :: 0 <= i < n && i < |prior| ==> r[i] == prior[i]
    ensures forall i :: |prior| <= i < n ==> r[i] == 0
  {
    if n <= |prior| then prior[..n] else prior + seq(n - |prior|, _ => 0)
  }

  /**
   * The buffer send builds: twelve header bytes announcing the total size as a
   * regular payload, then the copied bytes, then whatever the resized pooled
   * buffer held (only present when some entry was null).
   */
  ghost predicate LaidOut(payloads: seq<Payload>, pooled: seq<Byte>, frame: seq<Byte>) {
    && TotalSize(payloads) < 0x1_0000_0000_0000_0000
    && |frame| == HEADER_LENGTH + TotalSize(payloads)
    && frame[..HEADER_LENGTH] == EncodeHeader(TcpHeader(HEADER_LENGTH, RegularPayload, 0, TotalSize(payloads)))
    && HEADER_LENGTH + |Body(payloads)| <= |frame|
    && frame[HEADER_LENGTH..HEADER_LENGTH + |Body(payloads)|] == Body(payloads)
    && frame[HEADER_LENGTH + |Body(payloads)|..] == Resized(pooled, |frame|)[HEADER_LENGTH + |Body(payloads)|..]
  }

  /** entire_payload_size, accumulated entry by entry. */
  method SumSizes(payloads: seq<Payload>) returns (total: nat)
    ensures total == TotalSize(payloads)
  {
    total := 0;
    var i := 0;
    while i < |payloads|
      invariant 0 <= i <= |payloads|
      invariant total == TotalSize(payloads[..i])
    {
      assert payloads[..i + 1][..i] == payloads[..i];
      total := total + Size(payloads[i]);
      i := i + 1;
    }
    assert payloads[..|payloads|] == payloads;
  }

  /** memcpy of `bytes` into `buf` at `at`; everything else is left as it was. */
  method CopyBytes(buf: array<Byte>, at: nat, bytes: seq<Byte>)
    requires at + |bytes| <= buf.Length
    modifies buf
    ensures forall k :: 0 <= k < buf.Length && !(at <= k < at + |bytes|) ==> buf[k] == old(buf[k])
    ensures forall k :: at <= k < at + |bytes| ==> buf[k] == bytes[k - at]
  {
    forall j | 0 <= j < |bytes| {
      buf[at + j] := bytes[j];
    }
  }

  /**
   * The copy loop of send: each non-null, non-empty entry is copied at the
   * advancing position, starting right after the header.
   */
  method CopyPayloads(buf: array<Byte>, payloads: seq<Payload>)
    requires HEADER_LENGTH + TotalSize(payloads) <= buf.Length
    modifies buf
    ensures |Body(payloads)| <= TotalSize(payloads)
    ensures buf[..] == old(buf[..HEADER_LENGTH]) + Body(payloads) + old(buf[HEADER_LENGTH + |Body(payloads)|..])
  {
    ghost var before := buf[..];
    var position := HEADER_LENGTH;
    var i := 0;
    while i < |payloads|
      invariant 0 <= i <= |payloads|
      invariant position == HEADER_LENGTH + |Body(payloads[..i])|
      invariant |Body(payloads[..i])| <= TotalSize(payloads[..i]) <= TotalSize(payloads)
      invariant forall k :: 0 <= k < HEADER_LENGTH ==> buf[k] == before[k]
      invariant forall k :: HEADER_LENGTH <= k < position ==> buf[k] == Body(payloads[..i])[k - HEADER_LENGTH]
      invariant forall k :: position <= k < buf.Length ==> buf[k] == before[k]
    {
      var p := payloads[i];
      PrefixStep(payloads, i);
      if p.Bytes? && |p.bytes| > 0 {
        CopyBytes(buf, position, p.bytes);
        position := position + |p.bytes|;
      }
      i := i + 1;
    }
    assert payloads[..|payloads|] == payloads;
    assert buf[..] == before[..HEADER_LENGTH] + Body(payloads) + before[position..];
  }

  /** Growing the prefix by one entry adds that entry's size and its copied bytes. */
  lemma PrefixStep(payloads: seq<Payload>, i: nat)
    requires i < |payloads|
    ensures TotalSize(payloads[..i + 1]) == TotalSize(payloads[..i]) + Size(payloads[i]) <= TotalSize(payloads)
    ensures Body(payloads[..i + 1]) == Body(payloads[..i]) + Copied(payloads[i])
  {
    assert payloads[..i + 1][..i] == payloads[..i];
    TotalSizeOfPrefix(payloads, i + 1);
  }

  /**
   * The frame assembly in send: add up the sizes, resize the pooled buffer,
   * write the header fields, then copy the entries behind it.
   */
  method BuildFrame(payloads: seq<Payload>, pooled: seq<Byte>) returns (frame: seq<Byte>)
    requires HEADER_LENGTH + TotalSize(payloads) < 0x1_0000_0000_0000_0000
    ensures LaidOut(payloads, pooled, frame)
  {
    var total := SumSizes(payloads);
    var n := HEADER_LENGTH + total;
    var contents := Resized(pooled, n);
    var buf := new Byte[n](j requires 0 <= j < n => contents[j]);
    assert buf[..] == contents;

    var image := EncodeHeader(TcpHeader(HEADER_LENGTH, RegularPayload, 0, total));
    CopyBytes(buf, 0, image);
    assert buf[..HEADER_LENGTH] == image;
    assert buf[HEADER_LENGTH..] == contents[HEADER_LENGTH..];
    CopyPayloads(buf, payloads);
    frame := buf[..];
    assert frame[..HEADER_LENGTH] == image;
  }

  /**
   * When every entry has bytes, the built buffer is exactly the regular frame
   * of their concatenation, and a subscriber reading it gets the header and
   * that concatenation back; when they add up to nothing, it reads a frame
   * announcing no payload.
   */
  lemma SentFrameReadsBack(payloads: seq<Payload>, pooled: seq<Byte>, frame: seq<Byte>, rest: seq<Byte>)
    requires LaidOut(payloads, pooled, frame) && AllPresent(payloads)
    ensures frame == EncodeFrame(RegularPayload, Body(payloads))
    ensures ReadFrame(frame + rest)
            == if TotalSize(payloads) == 0 then EmptyFrame(TcpHeader(HEADER_LENGTH, RegularPayload, 0, 0), HEADER_LENGTH)
               else FrameParsed(TcpHeader(HEADER_LENGTH, RegularPayload, 0, TotalSize(payloads)), Body(payloads), |frame|)
  {
    BodyWithinTotal(payloads);
    assert frame == frame[..HEADER_LENGTH] + frame[HEADER_LENGTH..];
    FrameRoundTrip(RegularPayload, Body(payloads), rest);
  }

  // ------------------------------------------------------------------

  /** The outcome of each acceptor call start makes, in order. */
  datatype StartResults = StartResults(addressParses: bool, opens: bool, setsReuseAddress: bool, binds: bool, listens: bool)

  predicate AllSucceed(r: StartResults) {
    r.addressParses && r.opens && r.setsReuseAddress && r.binds && r.listens
  }

  class PublisherImpl {
    var isRunning: bool
    var acceptorOpen: bool
    var localPort: U16
    var acceptingSession: Option<PublisherSession>   // the session handed to the outstanding async_accept
    var sessions: seq<PublisherSession>              // publisher_sessions_

    ghost function AcceptObjects(): set<object>
      reads this
    {
      if acceptingSession.Some? then {acceptingSession.value} else {}
    }

    /** Every listed session appears once and is valid; the session waiting to be accepted is not started and not listed. */
    ghost predicate Sound()
      reads this, sessions, AcceptObjects()
    {
      && Distinct(sessions)
      && (forall s :: s in sessions ==> s.Valid())
      && (acceptingSession.Some? ==>
            && acceptingSession.value !in sessions
            && acceptingSession.value.Valid()
            && acceptingSession.value.state == NotStarted)
    }

    /**
     * Between events, besides: every first close of a session has been
     * answered by the closed handler, so no listed session is Canceled.
     */
    ghost predicate Valid()
      reads this, sessions, AcceptObjects()
    {
      && Sound()
      && (forall s :: s in sessions ==> s.state != Canceled)
    }

    constructor ()
      ensures Valid() && !isRunning && !acceptorOpen && acceptingSession == None && sessions == []
    {
      isRunning := false;
      acceptorOpen := false;
      localPort := 0;
      acceptingSession := None;
      sessions := [];
    }

    /**
     * start: parse the address, open, set reuse_address, bind, listen; the
     * first failing step returns false and leaves the publisher not running.
     * Only when all succeed is it running, with an accept outstanding.
     */
    method Start(results: StartResults, boundPort: U16) returns (ok: bool)
      requires Valid() && !isRunning && acceptingSession == None
      modifies this
      ensures Valid() && sessions == old(sessions)
      ensures ok == AllSucceed(results) && isRunning == ok
      ensures acceptorOpen == (old(acceptorOpen) || (results.addressParses && results.opens))
      ensures ok ==> localPort == boundPort && acceptingSession.Some? && fresh(acceptingSession.value)
      ensures !ok ==> localPort == old(localPort) && acceptingSession == None
    {
      if !results.addressParses {
        return false;
      }
      if !results.opens {
        return false;
      }
      acceptorOpen := true;
      if !results.setsReuseAddress {
        return false;
      }
      if !results.binds {
        return false;
      }
      if !results.listens {
        return false;
      }
      localPort := boundPort;
      isRunning := true;
      AcceptClient();
      return true;
    }

    method AcceptClient()
      requires Valid()
      modifies this
      ensures Valid() && sessions == old(sessions) && isRunning == old(isRunning)
      ensures acceptorOpen == old(acceptorOpen) && localPort == old(localPort)
      ensures acceptingSession.Some? && fresh(acceptingSession.value)
    {
      var session := new PublisherSession();
      acceptingSession := Some(session);
    }

    /** The outstanding accept completed: an accepted session is started, listed, and a new accept is armed. */
    method OnAccept(ok: bool)
      requires Valid() && acceptingSession.Some?
      modifies this, acceptingSession.value
      ensures Valid() && isRunning == old(isRunning) && acceptorOpen == old(acceptorOpen)
      ensures !ok ==> sessions == old(sessions) && acceptingSession == None
      ensures ok ==> && sessions == old(sessions) + [old(acceptingSession.value)]
                     && old(acceptingSession.value).state == Handshaking
                     && old(acceptingSession.value).pendingRead == HeaderLengthRead
                     && acceptingSession.Some? && fresh(acceptingSession.value)
    {
      var session := acceptingSession.value;
      acceptingSession := None;
      if !ok {
        return;
      }
      session.Start();
      sessions := sessions + [session];
      AcceptClient();
    }

    /**
     * The closed handler a session calls: erase its first entry, or only log
     * when it is not listed. The closing session may be listed as Canceled.
     */
    method OnSessionClosed(session: PublisherSession)
      requires Sound() && forall s :: s in sessions && s != session ==> s.state != Canceled
      modifies this
      ensures Valid() && isRunning == old(isRunning) && acceptorOpen == old(acceptorOpen)
      ensures localPort == old(localPort) && acceptingSession == old(acceptingSession)
      ensures sessions == RemoveFirst(old(sessions), session)
      ensures forall s :: s in sessions <==> s in old(sessions) && s != session
    {
      RemoveFirstFromDistinct(sessions, session);
      sessions := RemoveFirst(sessions, session);
    }

    /**
     * send: false when not running; true without building anything when no
     * session is listed; otherwise one buffer is built and offered to every
     * listed session.
     */
    method Send(payloads: seq<Payload>, pooled: seq<Byte>) returns (ok: bool, shared: Option<seq<Byte>>)
      requires Valid()
      requires HEADER_LENGTH + TotalSize(payloads) < 0x1_0000_0000_0000_0000
      modifies sessions
      ensures Valid() && sessions == old(sessions)
      ensures ok == isRunning
      ensures shared.Some? <==> isRunning && sessions != []
      ensures shared.Some? ==> LaidOut(payloads, pooled, shared.value)
      ensures forall s :: s in sessions ==>
                && s.state == old(s.state) && s.pendingRead == old(s.pendingRead)
                && s.SendSide() == if shared.Some? then Offer(old(s.SendSide()), old(s.state), shared.value)
                                   else old(s.SendSide())
    {
      if !isRunning {
        return false, None;
      }
      if sessions == [] {
        return true, None;
      }
      var frame := BuildFrame(payloads, pooled);
      FanOut(frame);
      return true, Some(frame);
    }

    /** The shared buffer is offered to every listed session, in list order. */
    method FanOut(frame: Buffer)
      requires Valid()
      modifies sessions
      ensures Valid()
      ensures forall s :: s in sessions ==>
                && s.state == old(s.state) && s.pendingRead == old(s.pendingRead)
                && s.SendSide() == Offer(old(s.SendSide()), old(s.state), frame)
    {
      var i := 0;
      while i < |sessions|
        invariant 0 <= i <= |sessions| && Valid()
        invariant forall j :: 0 <= j < i ==>
                    && sessions[j].state == old(sessions[j].state)
                    && sessions[j].pendingRead == old(sessions[j].pendingRead)
                    && sessions[j].SendSide() == Offer(old(sessions[j].SendSide()), old(sessions[j].state), frame)
        invariant forall j :: i <= j < |sessions| ==>
                    && sessions[j].state == old(sessions[j].state)
                    && sessions[j].pendingRead == old(sessions[j].pendingRead)
                    && sessions[j].SendSide() == old(sessions[j].SendSide())
      {
        sessions[i].SendDataBuffer(frame);
        i := i + 1;
      }
    }

    /**
     * A completion for a listed session: the session runs its handler, and
     * when that closed the session for the first time, the closed handler
     * erases it from the list. A session leaves the list exactly when it is
     * Canceled.
     */
    method Deliver(session: PublisherSession, e: SessionEvent)
      requires Valid() && session in sessions && session.Awaits(e)
      modifies this, session
      ensures Valid() && isRunning == old(isRunning) && acceptorOpen == old(acceptorOpen)
      ensures localPort == old(localPort) && acceptingSession == old(acceptingSession)
      ensures session.Handled(e)
      ensures sessions == if session.state == Canceled then RemoveFirst(old(sessions), session) else old(sessions)
      ensures forall s :: s in sessions <==> s in old(sessions) && (s != session || session.state != Canceled)
    {
      var closed := session.Handle(e);
      if closed {
        OnSessionClosed(session);
      }
    }

    /**
     * cancel: close the acceptor, stop running, and cancel every session of a
     * snapshot of the list; each cancel is that session's first close, so the
     * closed handler erases every one of them and the list ends empty.
     */
    method Cancel()
      requires Valid()
      modifies this, sessions
      ensures Valid() && !isRunning && !acceptorOpen && acceptingSession == old(acceptingSession)
      ensures forall s :: s in old(sessions) ==> s.state == Canceled
      ensures sessions == []
    {
      acceptorOpen := false;
      isRunning := false;
      var snapshot := sessions;
      var i := 0;
      while i < |snapshot|
        invariant 0 <= i <= |snapshot| && Valid()
        invariant snapshot == old(sessions) && Distinct(snapshot)
        invariant acceptingSession == old(acceptingSession) && !isRunning && !acceptorOpen
        invariant forall j :: 0 <= j < i ==> snapshot[j].state == Canceled
        invariant sessions == snapshot[i..]
      {
        var session := snapshot[i];
        assert snapshot[i..][1..] == snapshot[i + 1..];
        CancelSession(session);
        i := i + 1;
      }
    }

    /** One step of cancel's loop: cancel a listed session; its closed handler erases it. */
    method CancelSession(session: PublisherSession)
      requires Valid() && session in sessions
      modifies this, session
      ensures Valid() && session.state == Canceled
      ensures isRunning == old(isRunning) && acceptorOpen == old(acceptorOpen)
      ensures acceptingSession == old(acceptingSession)
      ensures sessions == RemoveFirst(old(sessions), session)
    {
      var notified := session.Cancel();
      if notified {
        OnSessionClosed(session);
      }
    }

    /** getPort: the bound port while running, else 0. */
    method GetPort() returns (port: U16)
      ensures port == if isRunning then localPort else 0
    {
      if isRunning {
        return localPort;
      }
      return 0;
    }

    /** getSubscriberCount: how many sessions are listed. */
    method GetSubscriberCount() returns (count: nat)
      ensures count == |sessions|
    {
      return |sessions|;
    }
  }

  /**
   * A subscriber is accepted and its first read fails: the session closes,
   * and the closed handler leaves the publisher with no subscriber.
   */
  method ReadErrorDropsSubscriber(port: U16) returns (count: nat, state: State)
    ensures count == 0 && state == Canceled
  {
    var publisher := new PublisherImpl();
    var ok := publisher.Start(StartResults(true, true, true, true, true), port);
    publisher.OnAccept(true);
    var session := publisher.sessions[0];
    publisher.Deliver(session, HeaderLengthArrived(false, [0, 0]));
    count := publisher.GetSubscriberCount();
    state := session.state;
  }

  /** Start a new publisher and accept one subscriber: it is listed alone and Handshaking. */
  method AcceptOneSubscriber(port: U16) returns (publisher: PublisherImpl, session: PublisherSession)
    ensures fresh(publisher) && fresh(session) && publisher.Valid() && publisher.sessions == [session]
    ensures session.state == Handshaking && session.pendingRead == HeaderLengthRead && session.written == []
  {
    publisher := new PublisherImpl();
    var ok := publisher.Start(StartResults(true, true, true, true, true), port);
    publisher.OnAccept(true);
    session := publisher.sessions[0];
    assert session in publisher.sessions;
  }

  /**
   * The accepted subscriber's 12-byte header announcing a one-byte handshake
   * arrives, the size field first: the session then waits for that byte.
   */
  method ReceiveHandshakeHeader(publisher: PublisherImpl, session: PublisherSession)
    requires publisher.Valid() && publisher.sessions == [session]
    requires session.state == Handshaking && session.pendingRead == HeaderLengthRead && session.written == []
    modifies publisher, session
    ensures publisher.Valid() && publisher.sessions == [session]
    ensures session.state == Handshaking && session.written == []
    ensures session.pendingRead == PayloadRead(TcpHeader(HEADER_LENGTH, ProtocolHandshake, 0, 1))
  {
    assert [12, 0] == [12] + seq(1, _ => 0);
    FromLittleEndianOfLowByte(12, 1);
    publisher.Deliver(session, HeaderLengthArrived(true, [12, 0]));
    assert session.pendingRead == HeaderContentRead([12, 0], 10, 0) && session.state == Handshaking;
    assert publisher.sessions == [session] && session.written == [];
    OneBytePayloadHeader(1);
    publisher.Deliver(session, HeaderContentArrived(true, [1, 0, 1, 0, 0, 0, 0, 0, 0, 0]));
  }

  /**
   * A subscriber is accepted, sends a 12-byte handshake header announcing one
   * byte, and then that byte: the session answers with one handshake frame,
   * becomes Running, and stays listed.
   */
  method HandshakeKeepsSubscriber(port: U16, version: Byte) returns (count: nat, state: State, written: seq<Buffer>)
    ensures count == 1 && state == Running && written == [HandshakeFrame()]
  {
    var publisher, session := AcceptOneSubscriber(port);
    ReceiveHandshakeHeader(publisher, session);
    publisher.Deliver(session, PayloadArrived(true, [version]));
    count := publisher.GetSubscriberCount();
    state, written := session.state, session.written;
  }
}

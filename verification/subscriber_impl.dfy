/**
 * The subscriber broker (stps/subscriber/subscriber_impl.cc): it owns the
 * list of subscriber sessions and decides how received payloads reach the
 * user. In synchronous mode each session's hook calls the user callback
 * inline. In asynchronous mode the hook overwrites a single mailbox slot, and
 * a delivery thread takes the slot's content and calls the callback with it.
 */
module Subscribers {
  import opened Wrappers
  import opened Wire
  import opened Registry
  import opened SubscriberSessions

  /** One call of a user callback, with the buffer it received. */
  datatype Delivery = Delivery(callback: Callback, buffer: Buffer)

  class SubscriberImpl {
    var sessions: seq<SubscriberSession>      // session_list_
    var synchronous: bool                     // user_callback_is_synchronous_
    var syncCallback: Callback                // synchronous_user_callback_
    var deliveryThread: Option<Callback>      // callback_thread_, with the callback it runs
    var stop: bool                            // callback_thread_stop_
    var mailbox: Option<Buffer>               // last_callback_data_.buffer_
    var deliveries: seq<Delivery>             // every user-callback call, in order

    /** The hook setCallbackToSession installs in the current mode. */
    function CurrentHook(): DeliveryHook
      reads this
    {
      if synchronous then SyncHook(syncCallback) else AsyncHook
    }

    /**
     * A delivery thread runs exactly in asynchronous mode, and its stop flag
     * is clear exactly then; asynchronous mode keeps a no-op synchronous
     * callback; every session that is not canceled carries the current hook.
     */
    ghost predicate Sound()
      reads this, sessions
    {
      && Distinct(sessions)
      && (forall s :: s in sessions ==> s.Valid())
      && synchronous == deliveryThread.None?
      && stop == synchronous
      && (!synchronous ==> syncCallback == NoOp)
      && (forall s :: s in sessions ==> s.canceled || s.hook == CurrentHook())
    }

    /**
     * Between events, besides: every call of the closed handler has been
     * answered by erasing the session, so no listed session has called it.
     */
    ghost predicate Valid()
      reads this, sessions
    {
      && Sound()
      && (forall s :: s in sessions ==> s.closedNotifications == 0)
    }

    /** A new subscriber is synchronous with a no-op callback, the stop flag set and no delivery thread. */
    constructor ()
      ensures Valid() && sessions == [] && synchronous && syncCallback == NoOp
      ensures deliveryThread == None && stop && mailbox == None && deliveries == []
    {
      sessions := [];
      synchronous := true;
      syncCallback := NoOp;
      deliveryThread := None;
      stop := true;
      mailbox := None;
      deliveries := [];
    }

    /** addSession: install the current hook, append the session, start it. */
    method AddSession(maxReconnectionAttempts: int) returns (session: SubscriberSession)
      requires Valid()
      modifies this
      ensures Valid() && fresh(session)
      ensures sessions == old(sessions) + [session]
      ensures session.hook == CurrentHook() && session.pending == Resolving
      ensures session.maxReconnectionAttempts == maxReconnectionAttempts && !session.canceled
      ensures synchronous == old(synchronous) && syncCallback == old(syncCallback)
      ensures deliveryThread == old(deliveryThread) && mailbox == old(mailbox) && deliveries == old(deliveries)
    {
      session := new SubscriberSession(maxReconnectionAttempts);
      SetCallbackToSession(session);
      sessions := sessions + [session];
      session.Start();
    }

    /** getSessions: a copy of the list. */
    method GetSessions() returns (list: seq<SubscriberSession>)
      ensures list == sessions
    {
      list := sessions;
    }

    /**
     * The closed handler a session calls: erase its entry, or do nothing when
     * it is not listed. The closing session may be listed with its call counted.
     */
    method OnSessionClosed(session: SubscriberSession)
      requires Sound() && forall s :: s in sessions && s != session ==> s.closedNotifications == 0
      modifies this
      ensures Valid() && sessions == RemoveFirst(old(sessions), session)
      ensures forall s :: s in sessions <==> s in old(sessions) && s != session
      ensures synchronous == old(synchronous) && syncCallback == old(syncCallback)
      ensures deliveryThread == old(deliveryThread) && mailbox == old(mailbox) && deliveries == old(deliveries)
    {
      RemoveFirstFromDistinct(sessions, session);
      sessions := RemoveFirst(sessions, session);
    }

    /** setCallbackToSession: hand the session the hook of the current mode. */
    method SetCallbackToSession(session: SubscriberSession)
      requires session.Valid()
      modifies session`hook
      ensures session.Valid()
      ensures session.hook == if session.canceled then old(session.hook) else CurrentHook()
    {
      session.SetSynchronousCallback(CurrentHook());
    }

    /** Give every listed session the current hook (canceled sessions ignore it). */
    method RewireSessions()
      requires Distinct(sessions) && forall s :: s in sessions ==> s.Valid()
      modifies sessions
      ensures forall s :: s in sessions ==>
                s.Valid() && s.canceled == old(s.canceled) && s.closedNotifications == old(s.closedNotifications)
      ensures forall s :: s in sessions ==> s.hook == if s.canceled then old(s.hook) else CurrentHook()
    {
      var i := 0;
      while i < |sessions|
        invariant 0 <= i <= |sessions|
        invariant forall s :: s in sessions ==>
                    s.Valid() && s.canceled == old(s.canceled) && s.closedNotifications == old(s.closedNotifications)
        invariant forall j :: 0 <= j < i ==>
                    sessions[j].hook == if sessions[j].canceled then old(sessions[j].hook) else CurrentHook()
        invariant forall j :: i <= j < |sessions| ==> sessions[j].hook == old(sessions[j].hook)
      {
        SetCallbackToSession(sessions[i]);
        i := i + 1;
      }
    }

    /**
     * setCallback: stop and join any delivery thread (it exits without
     * delivering), then install the new mode. Synchronous mode clears the
     * mailbox; asynchronous mode starts a thread for `callback`. Sessions are
     * rewired exactly when the new or the previous mode is synchronous.
     */
    method SetCallback(callback: Callback, synchronousExecution: bool)
      requires Valid()
      modifies this, sessions
      ensures Valid() && sessions == old(sessions) && deliveries == old(deliveries)
      ensures synchronous == synchronousExecution && stop == synchronousExecution
      ensures syncCallback == (if synchronousExecution then callback else NoOp)
      ensures deliveryThread == (if synchronousExecution then None else Some(callback))
      ensures mailbox == (if synchronousExecution then None else old(mailbox))
      ensures var renew := synchronousExecution || old(synchronous);
              forall s :: s in sessions ==>
                s.hook == if renew && !s.canceled then CurrentHook() else old(s.hook)
    {
      if deliveryThread.Some? {
        stop := true;
        deliveryThread := None;    // joined
      }
      var renew := synchronousExecution || synchronous;
      if synchronousExecution {
        syncCallback := callback;
        synchronous := true;
        mailbox := None;
      } else {
        syncCallback := NoOp;
        synchronous := false;
        stop := false;
        deliveryThread := Some(callback);
      }
      if renew {
        RewireSessions();
      }
    }

    /**
     * A completion for a listed session: the session runs its handler; when
     * that called the closed handler, the session is erased; a regular
     * payload a live session receives runs the hook it holds, which is the
     * current mode's. Only
     * listed sessions receive completions, since a session is erased when it
     * calls the closed handler, and it has nothing outstanding from then on.
     */
    method Deliver(session: SubscriberSession, c: Completion) returns (delivered: Option<Buffer>)
      requires Valid() && session in sessions && session.Awaits(c)
      modifies this, session
      ensures Valid()
      ensures synchronous == old(synchronous) && syncCallback == old(syncCallback)
      ensures deliveryThread == old(deliveryThread) && stop == old(stop)
      ensures session.Handled(c)
      ensures sessions == if session.closedNotifications > 0 then RemoveFirst(old(sessions), session) else old(sessions)
      ensures forall s :: s in sessions <==> s in old(sessions) && (s != session || session.closedNotifications == 0)
      ensures delivered == if c.PayloadDone? && c.ok && !old(session.canceled)
                              && old(session.pending).header.msgType == RegularPayload
                           then Some(c.payload) else None
      ensures delivered.Some? && synchronous ==>
                deliveries == old(deliveries) + [Delivery(syncCallback, delivered.value)] && mailbox == old(mailbox)
      ensures delivered.Some? && !synchronous ==> mailbox == delivered && deliveries == old(deliveries)
      ensures delivered.None? ==> mailbox == old(mailbox) && deliveries == old(deliveries)
    {
      delivered := session.Handle(c);
      if session.closedNotifications > 0 {
        OnSessionClosed(session);
      }
      if delivered.Some? {
        RunHook(session.hook, delivered.value);
      }
    }

    /**
     * What a session's hook does with a delivered buffer. The synchronous
     * hook calls the callback it captured, but only while the mode is still
     * synchronous; the asynchronous hook overwrites the mailbox, but only
     * while the mode is asynchronous.
     */
    method RunHook(hook: DeliveryHook, buffer: Buffer)
      requires Valid() && hook != NoHook
      modifies this`deliveries, this`mailbox
      ensures Valid()
      ensures hook.SyncHook? ==>
                && deliveries == old(deliveries) + (if synchronous then [Delivery(hook.callback, buffer)] else [])
                && mailbox == old(mailbox)
      ensures hook.AsyncHook? ==>
                && mailbox == (if synchronous then old(mailbox) else Some(buffer))
                && deliveries == old(deliveries)
    {
      match hook {
        case SyncHook(callback) =>
          if synchronous {
            deliveries := deliveries + [Delivery(callback, buffer)];
          }
        case AsyncHook =>
          if !synchronous {
            mailbox := Some(buffer);
          }
      }
    }

    /**
     * One pass of the delivery thread's loop once woken with a buffer waiting:
     * swap the mailbox out, leaving it empty, and call the callback once with
     * what was taken.
     */
    method DeliveryStep() returns (taken: Buffer)
      requires Valid() && deliveryThread.Some? && mailbox.Some?
      modifies this`mailbox, this`deliveries
      ensures Valid() && mailbox == None && taken == old(mailbox).value
      ensures deliveries == old(deliveries) + [Delivery(deliveryThread.value, taken)]
    {
      taken := mailbox.value;
      mailbox := None;
      deliveries := deliveries + [Delivery(deliveryThread.value, taken)];
    }

    /**
     * cancel: cancel every listed session, stop and join the delivery thread,
     * and go back to synchronous mode with a no-op callback. The list itself
     * is not changed, and the mailbox is not cleared.
     */
    method Cancel()
      requires Valid()
      modifies this, sessions
      ensures Valid() && sessions == old(sessions)
      ensures forall s :: s in sessions ==> s.canceled
      ensures synchronous && syncCallback == NoOp && deliveryThread == None && stop
      ensures mailbox == old(mailbox) && deliveries == old(deliveries)
    {
      var i := 0;
      while i < |sessions|
        invariant 0 <= i <= |sessions|
        invariant sessions == old(sessions) && synchronous == old(synchronous) && syncCallback == old(syncCallback)
        invariant deliveryThread == old(deliveryThread) && stop == old(stop)
        invariant mailbox == old(mailbox) && deliveries == old(deliveries)
        invariant Valid()
        invariant forall j :: 0 <= j < i ==> sessions[j].canceled
      {
        var _ := sessions[i].Cancel();
        i := i + 1;
      }
      if deliveryThread.Some? {
        stop := true;
        deliveryThread := None;    // joined
      }
      syncCallback := NoOp;
      synchronous := true;
    }
  }

  // ------------------------------------------------------------------
  // Scenarios

  /**
   * Asynchronous mode: two payloads enqueued before the thread drains the
   * mailbox; only the second reaches the callback, exactly once.
   */
  method MailboxKeepsLatest(first: Buffer, second: Buffer) returns (delivered: seq<Delivery>, left: Option<Buffer>)
    ensures delivered == [Delivery(UserCallback(1), second)] && left == None
  {
    var subscriber := new SubscriberImpl();
    subscriber.SetCallback(UserCallback(1), false);
    subscriber.RunHook(AsyncHook, first);
    subscriber.RunHook(AsyncHook, second);
    var _ := subscriber.DeliveryStep();
    delivered, left := subscriber.deliveries, subscriber.mailbox;
  }

  /**
   * A synchronous hook captured before a switch to asynchronous mode delivers
   * nothing afterwards, and a buffer left in the mailbox when switching back to
   * synchronous mode is dropped.
   */
  method StaleHooksDeliverNothing(buffer: Buffer) returns (delivered: seq<Delivery>, left: Option<Buffer>)
    ensures delivered == [] && left == None
  {
    var subscriber := new SubscriberImpl();
    subscriber.SetCallback(UserCallback(1), true);
    var staleHook := subscriber.CurrentHook();
    subscriber.SetCallback(UserCallback(2), false);
    subscriber.RunHook(staleHook, buffer);
    subscriber.RunHook(AsyncHook, buffer);
    subscriber.SetCallback(UserCallback(3), true);
    delivered, left := subscriber.deliveries, subscriber.mailbox;
  }

  /**
   * A session allowed no retries fails to resolve its address: it calls the
   * closed handler once, and the subscriber no longer lists it.
   */
  method GivingUpErasesSession() returns (listed: nat, closedNotifications: nat)
    ensures listed == 0 && closedNotifications == 1
  {
    var subscriber := new SubscriberImpl();
    var session := subscriber.AddSession(0);
    var _ := subscriber.Deliver(session, ResolveDone(false, []));
    var list := subscriber.GetSessions();
    listed, closedNotifications := |list|, session.closedNotifications;
  }

  /**
   * Add a session allowed three retries and let it resolve, connect and write
   * its handshake request: it is then listed alone and reading a header.
   */
  method ConnectOneSession(subscriber: SubscriberImpl) returns (session: SubscriberSession)
    requires subscriber.Valid() && subscriber.sessions == []
    modifies subscriber
    ensures subscriber.Valid() && subscriber.sessions == [session]
    ensures fresh(session) && session.pending == HeaderLengthReading && !session.canceled
    ensures subscriber.synchronous == old(subscriber.synchronous) && subscriber.syncCallback == old(subscriber.syncCallback)
    ensures subscriber.deliveries == old(subscriber.deliveries) && subscriber.mailbox == old(subscriber.mailbox)
  {
    session := subscriber.AddSession(3);
    var _ := subscriber.Deliver(session, ResolveDone(true, [Endpoint(V4(127, 0, 0, 1), 1588)]));
    assert session.pending.Connecting? && subscriber.sessions == [session];
    var _ := subscriber.Deliver(session, ConnectDone(true));
    assert session.pending == HandshakeWriting && subscriber.sessions == [session];
    var _ := subscriber.Deliver(session, HandshakeWriteDone(true));
  }

  /**
   * Synchronous mode, one session: it resolves, connects, writes the
   * handshake request, reads a 12-byte header announcing one regular payload
   * byte, and reads that byte, which reaches the user callback exactly once.
   * The session stays listed and goes back to reading a header.
   */
  method FirstPayloadReachesCallback(b: Byte) returns (delivered: seq<Delivery>, listed: nat, reading: bool)
    ensures delivered == [Delivery(UserCallback(7), [b])] && listed == 1 && reading
  {
    var subscriber := new SubscriberImpl();
    subscriber.SetCallback(UserCallback(7), true);
    var session := ConnectOneSession(subscriber);
    SubscriberPlanAgreesAtLocalSize();
    assert [12, 0] == [12] + seq(1, _ => 0);
    FromLittleEndianOfLowByte(12, 1);
    var _ := subscriber.Deliver(session, HeaderLengthDone(true, [12, 0]));
    assert session.pending == HeaderContentReading([12, 0], 10, 0) && subscriber.sessions == [session];
    OneBytePayloadHeader(0);
    var _ := subscriber.Deliver(session, HeaderContentDone(true, [0, 0, 1, 0, 0, 0, 0, 0, 0, 0]));
    assert session.pending == PayloadReading(TcpHeader(HEADER_LENGTH, RegularPayload, 0, 1));
    assert subscriber.sessions == [session] && subscriber.synchronous && subscriber.deliveries == [];
    var _ := subscriber.Deliver(session, PayloadDone(true, [b]));
    var list := subscriber.GetSessions();
    delivered, listed, reading := subscriber.deliveries, |list|, session.pending == HeaderLengthReading;
  }
}

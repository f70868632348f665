/** `ViewerConnectionManager`: the auth service's side of the viewer's
    control connection. A viewer session starts with a `ViewerHello`, whose
    listener slots are reconciled into the registry; the session then
    replaces any current session, which is disposed, so at most one viewer
    is current. Messages for the viewer go to the current session only.

    Sessions run concurrently; each step below is one atomic section of
    `RunSessionAsync` or `SendAsync`, applied to the manager's state. The
    viewer endpoint of the registry is not touched here: the console sets
    it. */
module ViewerConnections {
  import opened Wrappers
  import opened Messages
  import opened AuthState
  import opened WebSocketChannel
  import AuthStateProofs

  type SessionId = nat

  const ViewerHelloRequired: ErrorNotification :=
    ErrorNotification("viewer_hello_required", Some("First message must be viewer_hello"))

  /** The manager: the registry it reconciles slots into, the current
      session, the sessions ever installed as current, and the sessions whose
      channel has been disposed. */
  datatype Manager = Manager(
    registry: Registry,
    current: Option<SessionId>,
    admitted: set<SessionId>,
    disposed: set<SessionId>)

  /** At most one live viewer: every session ever installed is either the
      current one or disposed, and the current one was installed and is not
      disposed. */
  ghost predicate Single(m: Manager) {
    && (forall s :: s in m.admitted && m.current != Some(s) ==> s in m.disposed)
    && (m.current.Some? ==> m.current.value in m.admitted && m.current.value !in m.disposed)
  }

  /** `IsConnected`. */
  predicate IsConnected(m: Manager) {
    m.current.Some?
  }

  /** How the handshake of `RunSessionAsync` ends. */
  datatype Greeting =
    | Admitted       // a hello arrived and the session is current
    | Refused        // the first message was not a hello
    | HandshakeThrew // an exception escaped the handshake
    | Awaiting       // the first receive is still pending

  datatype Handshake = Handshake(manager: Manager, sent: seq<ControlMessage>, greeting: Greeting)

  /** What a hello requires of the enumeration order of its valid ports. */
  ghost predicate OrdersHello(r: Registry, first: Receipt, order: seq<int>) {
    first.Got? && first.message.HelloMsg? ==>
      forall p :: p in order <==> p in SlotMap(first.message.hello.slots, r.rangeStart, r.rangeEnd)
  }

  /** The first part of `RunSessionAsync` for session `id`, given what its
      first receive delivers: a hello reconciles the slots, disposes the
      current session, installs this one and is acknowledged with the auth
      code; anything else is refused with an error and leaves the manager as
      it was. `lockCanceled` says whether the wait for the mutex after the
      reconciliation is canceled, `reply` what the channel does with the
      acknowledgement or the error. When an exception escapes after a hello,
      the `finally` of `RunSessionAsync` has already run: the session is no
      longer current and its channel is disposed. */
  function Begin(m: Manager, id: SessionId, first: Receipt, order: seq<int>, lockCanceled: bool, reply: Transport)
    : (h: Handshake)
    requires OrdersHello(m.registry, first, order)
    ensures h.greeting == Admitted <==> first.Got? && first.message.HelloMsg? && !lockCanceled && reply == Writes
    ensures !(first.Got? && first.message.HelloMsg?) ==> h.manager == m
    ensures h.greeting == Refused <==> (first == NoMessage || (first.Got? && !first.message.HelloMsg?)) && reply == Writes
    ensures h.greeting == Admitted ==> h.manager.current == Some(id) && id in h.manager.admitted
    ensures first.Got? && first.message.HelloMsg? && h.greeting != Admitted ==>
      id in h.manager.disposed && h.sent == [] && (m.current != Some(id) ==> h.manager.current != Some(id))
  {
    match first
    case Waiting => Handshake(m, [], Awaiting)
    case Canceled => Handshake(m, [], HandshakeThrew)
    case Malformed => Handshake(m, [], HandshakeThrew)
    case NoMessage => Refuse(m, reply)
    case Got(message) =>
      if !message.HelloMsg? then Refuse(m, reply)
      else
        var registry := SetListenerSlots(m.registry, message.hello.slots, order);
        if lockCanceled then Handshake(m.(registry := registry, disposed := m.disposed + {id}), [], HandshakeThrew)
        else
          var disposed := if m.current.Some? then m.disposed + {m.current.value} else m.disposed;
          var installed := Manager(registry, Some(id), m.admitted + {id}, disposed);
          if reply == Writes then
            Handshake(installed, [HelloAckMsg(ViewerHelloAck(true, registry.authCode, None))], Admitted)
          else Handshake(End(installed, id), [], HandshakeThrew)
  }

  /** The refusal of a first message that is not a hello. */
  function Refuse(m: Manager, reply: Transport): Handshake {
    if reply == Writes then Handshake(m, [ErrorMsg(ViewerHelloRequired)], Refused) else Handshake(m, [], HandshakeThrew)
  }

  /** How `ViewerSession.ListenAsync` ends. */
  datatype Listening =
    | ListenClosed  // a null message or a cancellation ended the loop
    | ListenThrew // a malformed message escaped as an exception
    | StillOpen   // still receiving

  /** `ListenAsync` over what its receives deliver: it ignores every message,
      stops at the first receipt that is not one and sends nothing; returns
      how it ended and how many receipts it consumed. */
  function Listen(events: seq<Receipt>): (r: (Listening, nat))
    ensures r.1 <= |events|
    decreases |events|
  {
    if events == [] then (StillOpen, 0)
    else match events[0]
      case Got(_) => var rest := Listen(events[1..]); (rest.0, rest.1 + 1)
      case NoMessage => (ListenClosed, 1)
      case Canceled => (ListenClosed, 1)
      case Malformed => (ListenThrew, 1)
      case Waiting => (StillOpen, 0)
  }

  /** The `finally` of `RunSessionAsync` for an installed session: clear the
      current slot only if it still holds this session, then dispose it. */
  function End(m: Manager, id: SessionId): Manager {
    m.(current := if m.current == Some(id) then None else m.current, disposed := m.disposed + {id})
  }

  /** The index of the first receipt that is not a message, or the length. */
  function FirstNonMessage(events: seq<Receipt>): (k: nat)
    ensures k <= |events|
    ensures forall i :: 0 <= i < k ==> events[i].Got?
    ensures k < |events| ==> !events[k].Got?
  {
    if events == [] || !events[0].Got? then 0 else 1 + FirstNonMessage(events[1..])
  }

  /** The listen loop reads past every message and stops at the first
      receipt that is not one: a null or a cancellation closes it, a
      malformed message throws, and a pending receive keeps it open. */
  lemma {:induction false} ListenStopsAtFirstNonMessage(events: seq<Receipt>)
    ensures var k := FirstNonMessage(events);
      var r := Listen(events);
      && (k == |events| || events[k] == Waiting <==> r == (StillOpen, k))
      && (k < |events| && (events[k] == NoMessage || events[k] == Canceled) <==> r == (ListenClosed, k + 1))
      && (k < |events| && events[k] == Malformed <==> r == (ListenThrew, k + 1))
    decreases |events|
  {
    if events != [] && events[0].Got? {
      ListenStopsAtFirstNonMessage(events[1..]);
    }
  }

  /** The whole of `RunSessionAsync` for session `id` while no other session
      runs: the handshake, the listen loop, and for an installed session the
      teardown once the loop is over. Returns the manager afterwards and what
      was sent to this viewer. */
  function RunSession(m: Manager, id: SessionId, inbound: seq<Receipt>, order: seq<int>, lockCanceled: bool,
                      reply: Transport): (r: (Manager, seq<ControlMessage>))
    requires inbound != [] ==> OrdersHello(m.registry, inbound[0], order)
  {
    if inbound == [] then (m, [])
    else
      var h := Begin(m, id, inbound[0], order, lockCanceled, reply);
      if h.greeting != Admitted then (h.manager, h.sent)
      else if Listen(inbound[1..]).0 == StillOpen then (h.manager, h.sent)
      else (End(h.manager, id), h.sent)
  }

  /** What `SendAsync` comes to. */
  datatype Forwarding =
    | Delivered(session: SessionId)  // the current session's channel wrote the message
    | NoViewer                       // there was no current session
    | Swallowed(session: SessionId)  // the current session's send threw; the exception was logged and dropped
    | LockCanceled                   // the wait for the mutex was canceled and the exception escaped

  /** `SendAsync`: the message goes to the session current when the mutex is
      taken, if any. `lockCanceled` says whether the wait for the mutex is
      canceled; `send` is what the session's channel does with the message.
      Only the failure of the send itself is swallowed. */
  function Forward(m: Manager, lockCanceled: bool, send: Transport): (f: Forwarding)
    ensures f == LockCanceled <==> lockCanceled
    ensures f == NoViewer <==> !lockCanceled && m.current.None?
    ensures f.Delivered? <==> !lockCanceled && m.current.Some? && send == Writes
    ensures f.Delivered? || f.Swallowed? ==> m.current == Some(f.session)
  {
    if lockCanceled then LockCanceled
    else match m.current
      case None => NoViewer
      case Some(id) => if send == Writes then Delivered(id) else Swallowed(id)
  }

  // ---------------------------------------------------------------------------
  // Properties

  /** A first message that is not a hello, a close included, is answered with
      one error, or with nothing when that send fails; the slots are not
      reconciled and the current session stays as it was. */
  lemma HelloRequired(m: Manager, id: SessionId, first: Receipt, order: seq<int>, lockCanceled: bool, reply: Transport)
    requires first == NoMessage || (first.Got? && !first.message.HelloMsg?)
    ensures var h := Begin(m, id, first, order, lockCanceled, reply);
      && h.manager == m
      && (reply == Writes ==> h.sent == [ErrorMsg(ViewerHelloRequired)] && h.greeting == Refused)
      && (reply != Writes ==> h.sent == [] && h.greeting == HandshakeThrew)
  {
  }

  /** A hello installs its session and is acknowledged with the auth code:
      the announced slots are now the registry's slots, the previous current
      session is disposed, and the registry stays valid. */
  lemma HelloInstallsSession(m: Manager, id: SessionId, hello: ViewerHello, order: seq<int>)
    requires Valid(m.registry)
    requires OrdersHello(m.registry, Got(HelloMsg(hello)), order)
    ensures var h := Begin(m, id, Got(HelloMsg(hello)), order, false, Writes);
      && h.greeting == Admitted
      && h.manager.current == Some(id)
      && h.sent == [HelloAckMsg(ViewerHelloAck(true, m.registry.authCode, None))]
      && h.manager.registry.slots == SlotMap(hello.slots, m.registry.rangeStart, m.registry.rangeEnd)
      && (m.current.Some? ==> m.current.value in h.manager.disposed)
      && Valid(h.manager.registry)
  {
    AuthStateProofs.SetListenerSlotsPreservesValid(m.registry, hello.slots, order);
  }

  /** The handshake keeps at most one live viewer, provided the session is
      new: one that was never installed and whose channel is open. */
  lemma BeginKeepsSingle(m: Manager, id: SessionId, first: Receipt, order: seq<int>, lockCanceled: bool,
                         reply: Transport)
    requires Single(m) && id !in m.admitted && id !in m.disposed
    requires OrdersHello(m.registry, first, order)
    ensures Single(Begin(m, id, first, order, lockCanceled, reply).manager)
  {
  }

  /** The teardown keeps at most one live viewer. */
  lemma EndKeepsSingle(m: Manager, id: SessionId)
    requires Single(m)
    ensures Single(End(m, id))
  {
  }

  /** The teardown clears the current slot only when it still holds the
      session being torn down: a newer session survives the teardown of the
      one it replaced. */
  lemma NewerSessionSurvives(m: Manager, older: SessionId, newer: SessionId, h1: ViewerHello, h2: ViewerHello,
                             o1: seq<int>, o2: seq<int>)
    requires older != newer
    requires OrdersHello(m.registry, Got(HelloMsg(h1)), o1)
    requires OrdersHello(Begin(m, older, Got(HelloMsg(h1)), o1, false, Writes).manager.registry, Got(HelloMsg(h2)), o2)
    ensures var m1 := Begin(m, older, Got(HelloMsg(h1)), o1, false, Writes).manager;
      var m2 := Begin(m1, newer, Got(HelloMsg(h2)), o2, false, Writes).manager;
      && older in m2.disposed
      && End(m2, older).current == Some(newer)
      && End(End(m2, older), newer).current.None?
  {
  }

  /** A message forwarded right after a hello goes to the session the hello
      installed; once that session is torn down it gets no more messages. */
  lemma ForwardFollowsHello(m: Manager, id: SessionId, hello: ViewerHello, order: seq<int>, send: Transport)
    requires OrdersHello(m.registry, Got(HelloMsg(hello)), order)
    ensures var m1 := Begin(m, id, Got(HelloMsg(hello)), order, false, Writes).manager;
      && Forward(m1, false, send) == (if send == Writes then Delivered(id) else Swallowed(id))
      && Forward(End(m1, id), false, send) == NoViewer
  {
  }

  /** While at most one viewer is live, a message reaches only a session whose
      channel is still open. */
  lemma ForwardReachesLiveSession(m: Manager, lockCanceled: bool, send: Transport)
    requires Single(m)
    ensures var f := Forward(m, lockCanceled, send);
      f.Delivered? ==> f.session in m.admitted && f.session !in m.disposed
  {
  }

  /** A session that is refused never becomes current, and one that is
      admitted and then closes leaves no current viewer behind unless a newer
      one replaced it meanwhile. A hello whose handshake is cut short by a
      canceled mutex wait leaves the current session alone. */
  lemma RunSessionLeavesNoTrace(m: Manager, id: SessionId, inbound: seq<Receipt>, order: seq<int>, lockCanceled: bool,
                                reply: Transport)
    requires inbound != [] ==> OrdersHello(m.registry, inbound[0], order)
    requires inbound != [] && m.current != Some(id)
    requires (inbound[0] == NoMessage || (inbound[0].Got? && !inbound[0].message.HelloMsg?))
             || (inbound[0].Got? && inbound[0].message.HelloMsg? && Listen(inbound[1..]).0 != StillOpen)
    ensures var (m', sent) := RunSession(m, id, inbound, order, lockCanceled, reply);
      var hello := inbound[0].Got? && inbound[0].message.HelloMsg?;
      && m'.current != Some(id)
      && |sent| == (if reply == Writes && !(hello && lockCanceled) then 1 else 0)
      && (hello ==> id in m'.disposed)
      && (hello && !lockCanceled ==> m'.current.None?)
      && (hello && lockCanceled ==> m'.current == m.current)
      && (!hello ==> m' == m && sent == (if reply == Writes then [ErrorMsg(ViewerHelloRequired)] else []))
  {
  }

  /** A hello whose handshake fails still reconciles the slots. A canceled
      mutex wait leaves the current session in place and disposes the new
      one; a failed acknowledgement leaves no current session, the replaced
      one and the new one both disposed. */
  lemma HelloInterrupted(m: Manager, id: SessionId, hello: ViewerHello, order: seq<int>, lockCanceled: bool,
                         reply: Transport)
    requires OrdersHello(m.registry, Got(HelloMsg(hello)), order)
    requires lockCanceled || reply != Writes
    ensures var h := Begin(m, id, Got(HelloMsg(hello)), order, lockCanceled, reply);
      && h.greeting == HandshakeThrew && h.sent == []
      && h.manager.registry.slots == SlotMap(hello.slots, m.registry.rangeStart, m.registry.rangeEnd)
      && id in h.manager.disposed
      && (lockCanceled ==> h.manager.current == m.current && h.manager.admitted == m.admitted)
      && (!lockCanceled ==> h.manager.current.None? && (m.current.Some? ==> m.current.value in h.manager.disposed))
  {
  }
}

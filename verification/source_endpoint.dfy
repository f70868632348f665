/** `SourceWebSocketEndpoint.HandleAsync`: one source session. The session
    waits for the viewer endpoint, demands an `AuthRequest`, checks the auth
    code, reserves a port, answers and announces the stream to the viewer,
    then relays the source's state updates until the stream ends, releasing
    the lease on the way out.

    The socket is the sequence of what successive `ReceiveAsync` calls
    deliver; the clock is one instant for the whole session; the randomness
    of the stream key is a parameter. Messages to the viewer are the
    session's requests to `ViewerConnectionManager.SendAsync`, whose delivery
    is modelled with the manager. */
module SourceEndpoint {
  import opened Wrappers
  import opened Encoding
  import opened Messages
  import opened AuthState
  import opened WebSocketChannel
  import Text
  import AuthStateProofs

  const AuthRequestRequired: ErrorNotification :=
    ErrorNotification("auth_request_required", Some("First message must be auth_request"))

  /** "Invalid auth code". */
  const InvalidCodeMessage: string := "\U{8BA4}\U{8BC1}\U{7801}\U{65E0}\U{6548}"

  /** "Authenticated". */
  const AcceptedMessage: string := "\U{8BA4}\U{8BC1}\U{6210}\U{529F}"

  /** What `WaitForViewerEndpointAsync` comes to. */
  datatype EndpointWait =
    | Resolved(endpoint: ViewerEndpoint)  // the viewer's endpoint is known
    | Unresolved                          // the wait is still pending
    | WaitCanceled                        // the wait was canceled

  /** How `HandleAsync` ends. */
  datatype Ending =
    | NotStarted    // the viewer endpoint never resolved: nothing was read
    | WaitThrown    // the wait for the viewer endpoint was canceled and the exception escaped
    | Suspended     // the trace ended while a receive was still pending
    | Returned      // the handler returned normally
    | CancelThrown  // the first receive was canceled and the exception escaped
    | JsonThrown    // a malformed message was received and the exception escaped

  /** What a session did: the registry afterwards, the messages sent to the
      source and to the viewer, the `ReleaseStream` calls made, whether the
      channel was disposed, and how the handler ended. */
  datatype SourceSession = SourceSession(
    registry: Registry,
    toSource: seq<ControlMessage>,
    toViewer: seq<ControlMessage>,
    releases: seq<(string, string)>,
    disposed: bool,
    ending: Ending)

  /** A refusal: no port, no key material, no stream key. */
  function Rejection(reason: string, host: string, now: Instant): AuthResponse {
    AuthResponse(false, reason, "", host, 0, None, None, now)
  }

  function Acceptance(a: StreamAssignment, host: string, now: Instant): AuthResponse {
    AuthResponse(true, AcceptedMessage, a.streamKey, host, a.port, Some(a.keyMaterial.key), Some(a.keyMaterial.iv), now)
  }

  /** The announcement of a newly leased stream; it is displayed as the
      viewer's display name, a ':' and the channel. */
  function Announcement(request: AuthRequest, a: StreamAssignment, viewer: ViewerEndpoint, now: Instant): StreamAnnouncement {
    StreamAnnouncement(request.sourceId, request.channelName, viewer.displayName + ":" + request.channelName,
                       a.streamKey, viewer.host, a.port, Some(a.keyMaterial.key), Some(a.keyMaterial.iv), now)
  }

  // ---------------------------------------------------------------------------
  // The relay loop

  /** A receipt the relay loop handles without leaving: a message that is not
      a terminal state update. */
  predicate Continues(e: Receipt) {
    e.Got? && !(e.message.StateMsg? && IsTerminal(e.message.update.state))
  }

  /** The index of the first receipt that is not a `Continues` receipt, or the
      trace's length. */
  function FirstStop(events: seq<Receipt>): (k: nat)
    ensures k <= |events|
    ensures forall i :: 0 <= i < k ==> Continues(events[i])
    ensures k < |events| ==> !Continues(events[k])
  {
    if events == [] || !Continues(events[0]) then 0 else 1 + FirstStop(events[1..])
  }

  /** The state updates among the messages received, in order. */
  function StateUpdates(events: seq<Receipt>): seq<StreamStateUpdate> {
    if events == [] then []
    else (if events[0].Got? && events[0].message.StateMsg? then [events[0].message.update] else [])
         + StateUpdates(events[1..])
  }

  lemma StateUpdatesOne(e: Receipt)
    ensures StateUpdates([e]) == (if e.Got? && e.message.StateMsg? then [e.message.update] else [])
  {
    assert [e][1..] == [];
    assert StateUpdates([e]) == (if e.Got? && e.message.StateMsg? then [e.message.update] else []) + StateUpdates([]);
  }

  lemma {:induction false} StateUpdatesAppend(a: seq<Receipt>, b: seq<Receipt>)
    ensures StateUpdates(a + b) == StateUpdates(a) + StateUpdates(b)
    decreases |a|
  {
    if a == [] {
      assert a + b == b;
    } else {
      assert (a + b)[0] == a[0];
      assert (a + b)[1..] == a[1..] + b;
      StateUpdatesAppend(a[1..], b);
    }
  }

  /** How the relay loop ends. */
  datatype LoopExit =
    | TerminalUpdate(update: StreamStateUpdate)  // a Stopped or Failed update arrived
    | StreamClosed                               // the receive returned null or was canceled
    | LoopThrew                                  // a malformed message
    | LoopPending                                // still receiving

  datatype Relay = Relay(updates: seq<StreamStateUpdate>, exit: LoopExit, consumed: nat)

  /** The loop after the announcement: every state update is relayed; other
      messages are ignored. */
  function RelayLoop(events: seq<Receipt>): (r: Relay)
    ensures r.consumed <= |events|
  {
    if events == [] then Relay([], LoopPending, 0)
    else match events[0]
      case Waiting => Relay([], LoopPending, 0)
      case NoMessage => Relay([], StreamClosed, 1)
      case Canceled => Relay([], StreamClosed, 1)
      case Malformed => Relay([], LoopThrew, 1)
      case Got(m) =>
        if m.StateMsg? && IsTerminal(m.update.state) then Relay([m.update], TerminalUpdate(m.update), 1)
        else
          var rest := RelayLoop(events[1..]);
          Relay((if m.StateMsg? then [m.update] else []) + rest.updates, rest.exit, rest.consumed + 1)
  }

  /** How a receipt that stops the loop ends it. */
  function ExitOf(e: Receipt): LoopExit
    requires !Continues(e)
  {
    match e
    case Waiting => LoopPending
    case NoMessage => StreamClosed
    case Canceled => StreamClosed
    case Malformed => LoopThrew
    case Got(m) => TerminalUpdate(m.update)
  }

  /** `r` stops at the first receipt of `events` that does not continue the
      loop: it relays exactly the state updates received up to and including
      that receipt, in receipt order, and the receipt decides how it ends;
      without such a receipt, or at a receipt not yet arrived, it is still
      receiving. */
  ghost predicate StopsAt(events: seq<Receipt>, r: Relay) {
    var k := FirstStop(events);
    if k == |events| || events[k] == Waiting then r == Relay(StateUpdates(events[..k]), LoopPending, k)
    else r == Relay(StateUpdates(events[..k + 1]), ExitOf(events[k]), k + 1)
  }

  /** The relay loop stops at the first receipt that does not continue it. */
  lemma {:induction false} RelayStopsAtFirstStop(events: seq<Receipt>)
    ensures StopsAt(events, RelayLoop(events))
    decreases |events|
  {
    if events != [] && Continues(events[0]) {
      RelayStopsAtFirstStop(events[1..]);
      RelayContinues(events);
    } else if events != [] && events[0].Got? {
      assert events[..1] == [events[0]];
      assert StateUpdates(events[..1]) == [events[0].message.update] + StateUpdates([]);
    } else {
      assert events[..FirstStop(events)] == [];
    }
  }

  /** A receipt that continues the loop adds its update, if any, in front of
      what the rest relays. */
  lemma RelayContinues(events: seq<Receipt>)
    requires events != [] && Continues(events[0])
    requires StopsAt(events[1..], RelayLoop(events[1..]))
    ensures StopsAt(events, RelayLoop(events))
  {
    var tail := events[1..];
    var rest := RelayLoop(tail);
    var k, k' := FirstStop(events), FirstStop(tail);
    RelayCons(events);
    if k == |events| || events[k] == Waiting {
      assert k' == |tail| || tail[k'] == Waiting;
      assert rest == Relay(StateUpdates(tail[..k']), LoopPending, k');
      UpdatesCons(events, k);
    } else {
      assert rest == Relay(StateUpdates(tail[..k' + 1]), ExitOf(tail[k']), k' + 1);
      UpdatesCons(events, k + 1);
    }
  }

  /** One continuing receipt: the loop and the stop index move by one. */
  lemma RelayCons(events: seq<Receipt>)
    requires events != [] && Continues(events[0])
    ensures var rest := RelayLoop(events[1..]);
      && RelayLoop(events) == Relay(StateUpdates([events[0]]) + rest.updates, rest.exit, rest.consumed + 1)
      && FirstStop(events) == FirstStop(events[1..]) + 1
      && (FirstStop(events) < |events| ==> events[FirstStop(events)] == events[1..][FirstStop(events[1..])])
  {
    StateUpdatesOne(events[0]);
  }

  /** The updates of a non-empty prefix: the first receipt's, then the rest's. */
  lemma UpdatesCons(events: seq<Receipt>, j: nat)
    requires 1 <= j <= |events|
    ensures StateUpdates(events[..j]) == StateUpdates([events[0]]) + StateUpdates(events[1..][..j - 1])
  {
    assert events[..j] == [events[0]] + events[1..][..j - 1];
    StateUpdatesAppend([events[0]], events[1..][..j - 1]);
  }

  /** The messages forwarded for a run of state updates. */
  function AsMessages(updates: seq<StreamStateUpdate>): (ms: seq<ControlMessage>)
    ensures |ms| == |updates|
    ensures forall i :: 0 <= i < |ms| ==> ms[i] == StateMsg(updates[i])
  {
    seq(|updates|, i requires 0 <= i < |updates| => StateMsg(updates[i]))
  }

  // ---------------------------------------------------------------------------
  // The session

  /** `HandleAsync`. `viewer` is what `WaitForViewerEndpointAsync` comes to.
      The channel is disposed on every path out of the handler, a canceled
      wait included; only a handler still waiting has not disposed it. */
  function HandleSource(r: Registry, viewer: EndpointWait, inbound: seq<Receipt>, now: Instant,
                        random: seq<byte>): (s: SourceSession)
    requires |random| == StreamKeyBytes
    ensures s.ending == NotStarted <==> viewer.Unresolved?
    ensures s.ending == WaitThrown <==> viewer.WaitCanceled?
    ensures !viewer.Resolved? ==> s.registry == r && s.toSource == [] && s.toViewer == [] && s.releases == []
    ensures |s.releases| <= 1
    ensures s.disposed <==> s.ending != NotStarted && s.ending != Suspended
  {
    if viewer.Unresolved? then SourceSession(r, [], [], [], false, NotStarted)
    else if viewer.WaitCanceled? then SourceSession(r, [], [], [], true, WaitThrown)
    else if inbound == [] || inbound[0] == Waiting then SourceSession(r, [], [], [], false, Suspended)
    else
      match inbound[0]
      case Canceled => SourceSession(r, [], [], [], true, CancelThrown)
      case Malformed => SourceSession(r, [], [], [], true, JsonThrown)
      case NoMessage => SourceSession(r, [ErrorMsg(AuthRequestRequired)], [], [], true, Returned)
      case Got(m) =>
        if !m.AuthRequestMsg? then SourceSession(r, [ErrorMsg(AuthRequestRequired)], [], [], true, Returned)
        else Authenticate(r, viewer.endpoint, m.request, inbound[1..], now, random)
  }

  /** The session after an `AuthRequest` arrived: check the code, reserve a
      port, and serve the lease or refuse the source. */
  function Authenticate(r: Registry, viewer: ViewerEndpoint, request: AuthRequest, rest: seq<Receipt>, now: Instant,
                        random: seq<byte>): (s: SourceSession)
    requires |random| == StreamKeyBytes
    ensures |s.releases| <= 1
    ensures s.disposed <==> s.ending != Suspended
    ensures s.ending != NotStarted && s.ending != WaitThrown
  {
    if !IsValidCode(r, request.authCode) then
      SourceSession(r, [AuthResponseMsg(Rejection(InvalidCodeMessage, viewer.host, now))], [], [], true, Returned)
    else
      var res := TryReserveStream(r, request.sourceId, request.channelName, now, random);
      if res.outcome.Failure? then
        SourceSession(res.registry, [AuthResponseMsg(Rejection(res.outcome.error, viewer.host, now))], [], [], true, Returned)
      else Serve(res.registry, res.outcome.value, viewer, request, rest, now)
  }

  /** The session once `a` is leased: answer the source, announce the
      stream, relay state updates, and release on the way out. */
  function Serve(r: Registry, a: StreamAssignment, viewer: ViewerEndpoint, request: AuthRequest, rest: seq<Receipt>,
                 now: Instant): (s: SourceSession)
    ensures |s.releases| <= 1
    ensures s.disposed <==> s.ending != Suspended
    ensures s.ending != NotStarted && s.ending != WaitThrown
  {
    var loop := RelayLoop(rest);
    var toSource := [AuthResponseMsg(Acceptance(a, viewer.host, now))];
    var toViewer := [AnnouncementMsg(Announcement(request, a, viewer, now))] + AsMessages(loop.updates);
    match loop.exit
    case LoopPending => SourceSession(r, toSource, toViewer, [], false, Suspended)
    case TerminalUpdate(u) =>
      SourceSession(ReleaseStream(r, u.sourceId, u.channelName), toSource, toViewer, [(u.sourceId, u.channelName)],
                    true, Returned)
    case StreamClosed =>
      SourceSession(ReleaseStream(r, a.sourceId, a.channelName), toSource, toViewer, [(a.sourceId, a.channelName)],
                    true, Returned)
    case LoopThrew =>
      SourceSession(ReleaseStream(r, a.sourceId, a.channelName), toSource, toViewer, [(a.sourceId, a.channelName)],
                    true, JsonThrown)
  }

  // ---------------------------------------------------------------------------
  // Properties of a session

  /** The position just past the receipt that ends the relay loop, or the
      position of the pending receipt. */
  function RelayEnd(events: seq<Receipt>): (j: nat)
    ensures j <= |events|
  {
    var k := FirstStop(events);
    if k < |events| && events[k] != Waiting then k + 1 else k
  }

  /** A first message that is not an `AuthRequest`, including a close, is
      answered with one error and nothing else happens. */
  lemma FirstMessageMustBeAuthRequest(r: Registry, viewer: ViewerEndpoint, inbound: seq<Receipt>, now: Instant,
                                      random: seq<byte>)
    requires |random| == StreamKeyBytes
    requires inbound != [] && (inbound[0] == NoMessage || (inbound[0].Got? && !inbound[0].message.AuthRequestMsg?))
    ensures var s := HandleSource(r, Resolved(viewer), inbound, now, random);
      && s.toSource == [ErrorMsg(AuthRequestRequired)] && s.toViewer == [] && s.releases == []
      && s.registry == r && s.ending == Returned
  {
  }

  /** A wrong auth code is refused without touching the registry: no port,
      no key material, no stream key. */
  lemma InvalidCodeRefused(r: Registry, viewer: ViewerEndpoint, request: AuthRequest, rest: seq<Receipt>,
                           now: Instant, random: seq<byte>)
    requires |random| == StreamKeyBytes
    requires !Text.EqualsIgnoreCase(r.authCode, request.authCode)
    ensures var s := HandleSource(r, Resolved(viewer), [Got(AuthRequestMsg(request))] + rest, now, random);
      && s.toSource == [AuthResponseMsg(AuthResponse(false, InvalidCodeMessage, "", viewer.host, 0, None, None, now))]
      && s.toViewer == [] && s.releases == [] && s.registry == r && s.ending == Returned
  {
    HandleAuthRequest(r, viewer, request, rest, now, random);
  }

  /** When the reservation fails the source is refused with the registry's
      reason, nothing is announced, no lease or allocation changes and
      nothing is released. */
  lemma ReservationFailureRefused(r: Registry, viewer: ViewerEndpoint, request: AuthRequest, rest: seq<Receipt>,
                                  now: Instant, random: seq<byte>)
    requires |random| == StreamKeyBytes
    requires IsValidCode(r, request.authCode)
    requires TryReserveStream(r, request.sourceId, request.channelName, now, random).outcome.Failure?
    ensures var s := HandleSource(r, Resolved(viewer), [Got(AuthRequestMsg(request))] + rest, now, random);
      && |s.toSource| == 1 && s.toSource[0].AuthResponseMsg?
      && var response := s.toSource[0].response;
      && !response.accepted && response.srtPort == 0 && response.streamKey == ""
      && response.aesKey.None? && response.aesIv.None?
      && (response.message == ListenersNotReady || response.message == NoPortsAvailable)
      && s.toViewer == [] && s.releases == [] && s.ending == Returned
      && s.registry.leases == r.leases && s.registry.allocations == r.allocations
  {
    HandleAuthRequest(r, viewer, request, rest, now, random);
  }

  /** An accepted source is served with the lease the reservation made. */
  lemma AcceptedSourceIsServed(r: Registry, viewer: ViewerEndpoint, request: AuthRequest, rest: seq<Receipt>,
                               now: Instant, random: seq<byte>)
    requires |random| == StreamKeyBytes
    requires IsValidCode(r, request.authCode)
    requires TryReserveStream(r, request.sourceId, request.channelName, now, random).outcome.Success?
    ensures var res := TryReserveStream(r, request.sourceId, request.channelName, now, random);
      && HandleSource(r, Resolved(viewer), [Got(AuthRequestMsg(request))] + rest, now, random)
         == Serve(res.registry, res.outcome.value, viewer, request, rest, now)
      && res.outcome.value.sourceId == request.sourceId && res.outcome.value.channelName == request.channelName
      && TryGetAssignment(res.registry, request.sourceId, request.channelName) == Some(res.outcome.value)
  {
    HandleAuthRequest(r, viewer, request, rest, now, random);
  }

  /** A session whose first message is an `AuthRequest` authenticates it. */
  lemma HandleAuthRequest(r: Registry, viewer: ViewerEndpoint, request: AuthRequest, rest: seq<Receipt>,
                          now: Instant, random: seq<byte>)
    requires |random| == StreamKeyBytes
    ensures HandleSource(r, Resolved(viewer), [Got(AuthRequestMsg(request))] + rest, now, random)
      == Authenticate(r, viewer, request, rest, now, random)
  {
    var inbound := [Got(AuthRequestMsg(request))] + rest;
    assert inbound[0] == Got(AuthRequestMsg(request)) && inbound[1..] == rest;
  }

  /** A served source gets the lease's port, key material and stream key;
      the viewer is then told of the stream with the very same values, and
      after that receives every state update the source sends, in order, up
      to the one that ends the session. */
  lemma ServeAnnouncesAndRelays(r: Registry, a: StreamAssignment, viewer: ViewerEndpoint, request: AuthRequest,
                                rest: seq<Receipt>, now: Instant)
    ensures var s := Serve(r, a, viewer, request, rest, now);
      && s.toSource == [AuthResponseMsg(AuthResponse(true, AcceptedMessage, a.streamKey, viewer.host, a.port,
                                                     Some(a.keyMaterial.key), Some(a.keyMaterial.iv), now))]
      && |s.toViewer| >= 1 && s.toViewer[0].AnnouncementMsg?
      && var announced := s.toViewer[0].announcement;
      && announced.sourceId == request.sourceId && announced.channelName == request.channelName
      && announced.displayName == viewer.displayName + ":" + request.channelName
      && announced.streamKey == a.streamKey && announced.srtHost == viewer.host && announced.srtPort == a.port
      && announced.aesKey == Some(a.keyMaterial.key) && announced.aesIv == Some(a.keyMaterial.iv)
      && s.toViewer[1..] == AsMessages(StateUpdates(rest[..RelayEnd(rest)]))
  {
    RelayUpdates(rest);
    var s := Serve(r, a, viewer, request, rest, now);
    var loop := RelayLoop(rest);
    assert s.toViewer == [AnnouncementMsg(Announcement(request, a, viewer, now))] + AsMessages(loop.updates);
  }

  /** The relay loop relays the state updates up to where it ends. */
  lemma RelayUpdates(events: seq<Receipt>)
    ensures RelayLoop(events).updates == StateUpdates(events[..RelayEnd(events)])
  {
    RelayStopsAtFirstStop(events);
  }

  /** Once a port is leased, `ReleaseStream` is called exactly once on every
      path out of the handler: with the ids of a Stopped or Failed update
      that ends the session, and with the lease's own ids on every other
      exit, which then leaves no lease for them. Only a session still
      receiving has released nothing. */
  lemma ServeReleasesOnExit(r: Registry, a: StreamAssignment, viewer: ViewerEndpoint, request: AuthRequest,
                            rest: seq<Receipt>, now: Instant)
    ensures var s := Serve(r, a, viewer, request, rest, now);
      var k := FirstStop(rest);
      && (s.ending == Suspended <==> s.releases == [])
      && (s.ending == Suspended <==> k == |rest| || rest[k] == Waiting)
      && (k < |rest| && rest[k].Got? ==>
            s.releases == [(rest[k].message.update.sourceId, rest[k].message.update.channelName)])
      && (k < |rest| && rest[k] != Waiting && !rest[k].Got? ==>
            s.releases == [(a.sourceId, a.channelName)]
            && TryGetAssignment(s.registry, a.sourceId, a.channelName).None?)
  {
    RelayStopsAtFirstStop(rest);
    ServeExit(r, a, viewer, request, rest, now);
  }

  /** What `Serve` releases, by how the relay loop ended. */
  lemma ServeExit(r: Registry, a: StreamAssignment, viewer: ViewerEndpoint, request: AuthRequest,
                  rest: seq<Receipt>, now: Instant)
    ensures var s := Serve(r, a, viewer, request, rest, now);
      var exit := RelayLoop(rest).exit;
      && (exit == LoopPending ==> s.releases == [] && s.ending == Suspended)
      && (exit.TerminalUpdate? ==>
            s.releases == [(exit.update.sourceId, exit.update.channelName)] && s.ending != Suspended)
      && (exit == StreamClosed || exit == LoopThrew ==>
            && s.releases == [(a.sourceId, a.channelName)] && s.ending != Suspended
            && TryGetAssignment(s.registry, a.sourceId, a.channelName).None?)
  {
  }

  lemma ServePreservesValid(r: Registry, a: StreamAssignment, viewer: ViewerEndpoint, request: AuthRequest,
                            rest: seq<Receipt>, now: Instant)
    requires Valid(r)
    ensures Valid(Serve(r, a, viewer, request, rest, now).registry)
  {
    var loop := RelayLoop(rest);
    if loop.exit.TerminalUpdate? {
      AuthStateProofs.ReleasePreservesValid(r, loop.exit.update.sourceId, loop.exit.update.channelName);
    } else if loop.exit != LoopPending {
      AuthStateProofs.ReleasePreservesValid(r, a.sourceId, a.channelName);
    }
  }

  /** A session keeps the registry valid, whatever the source sends. */
  lemma SessionPreservesValid(r: Registry, viewer: EndpointWait, inbound: seq<Receipt>, now: Instant,
                              random: seq<byte>)
    requires |random| == StreamKeyBytes && Valid(r)
    ensures Valid(HandleSource(r, viewer, inbound, now, random).registry)
  {
    if viewer.Resolved? && inbound != [] && inbound[0].Got? && inbound[0].message.AuthRequestMsg? {
      var request := inbound[0].message.request;
      if IsValidCode(r, request.authCode) {
        var res := TryReserveStream(r, request.sourceId, request.channelName, now, random);
        AuthStateProofs.ReservePreservesValid(r, request.sourceId, request.channelName, now, random);
        if res.outcome.Success? {
          ServePreservesValid(res.registry, res.outcome.value, viewer.endpoint, request, inbound[1..], now);
        }
      }
    }
  }

  /** A terminal update is acted on with the ids it carries, not the
      lease's: when they name another stream, that stream's lease is
      released instead and this session's lease outlives the session. */
  lemma ForeignTerminalUpdateKeepsLease(r: Registry, a: StreamAssignment, viewer: ViewerEndpoint,
                                        request: AuthRequest, update: StreamStateUpdate, now: Instant)
    requires TryGetAssignment(r, a.sourceId, a.channelName) == Some(a)
    requires IsTerminal(update.state)
    requires LeaseIndex(update.sourceId, update.channelName) != LeaseIndex(a.sourceId, a.channelName)
    ensures var s := Serve(r, a, viewer, request, [Got(StateMsg(update))], now);
      && s.ending == Returned && s.disposed
      && s.releases == [(update.sourceId, update.channelName)]
      && TryGetAssignment(s.registry, update.sourceId, update.channelName).None?
      && TryGetAssignment(s.registry, a.sourceId, a.channelName) == Some(a)
  {
  }
}

/** `WebSocketJsonChannel`: one control message per WebSocket message.
    Sending writes a single final text frame; receiving reassembles the
    fragments of one message (section 5.4 of RFC 6455) and maps a Close frame
    (section 5.5.1 of RFC 6455), an empty payload and transport errors to "no
    message". The socket is a sequence of events and the JSON serializer a
    codec given as a parameter. */
module WebSocketChannel {
  import opened Wrappers
  import opened Encoding
  import opened Messages

  datatype MessageKind = TextKind | BinaryKind | CloseKind

  /** What one `WebSocket.ReceiveAsync` call yields. */
  datatype SocketEvent =
    | Frame(kind: MessageKind, data: seq<byte>, endOfMessage: bool)
    | TransportError   // a `WebSocketException`
    | Cancellation     // an `OperationCanceledException`

  /** A data frame that is not the last one of its message. */
  predicate IsContinuation(e: SocketEvent) {
    e.Frame? && e.kind != CloseKind && !e.endOfMessage
  }

  /** The index of the first event that does not continue a message, or the
      length of the trace when every event does. */
  function FirstBoundary(events: seq<SocketEvent>): (k: nat)
    ensures k <= |events|
    ensures forall i :: 0 <= i < k ==> IsContinuation(events[i])
    ensures k < |events| ==> !IsContinuation(events[k])
  {
    if events == [] || !IsContinuation(events[0]) then 0
    else 1 + FirstBoundary(events[1..])
  }

  /** The bytes carried by a run of frames, in order. */
  function Concat(events: seq<SocketEvent>): seq<byte> {
    if events == [] then []
    else (if events[0].Frame? then events[0].data else []) + Concat(events[1..])
  }

  lemma {:induction false} ConcatAppend(a: seq<SocketEvent>, b: seq<SocketEvent>)
    ensures Concat(a + b) == Concat(a) + Concat(b)
    decreases |a|
  {
    if a == [] {
      assert a + b == b;
    } else {
      assert (a + b)[0] == a[0];
      assert (a + b)[1..] == a[1..] + b;
      ConcatAppend(a[1..], b);
    }
  }

  /** How the reassembly loop of `ReceiveAsync` ends. */
  datatype End =
    | Payload(bytes: seq<byte>)   // a frame with EndOfMessage arrived
    | CloseSeen                    // a Close frame arrived
    | Faulted                      // the transport threw
    | Cancelled                    // the token fired
    | Pending                      // the trace ended inside a message

  datatype Assembly = Assembly(end: End, consumed: nat)

  /** The reassembly loop: append each data frame's bytes until one marks the
      end of the message. */
  function Reassemble(events: seq<SocketEvent>): (r: Assembly)
    ensures r.consumed <= |events|
  {
    if events == [] then Assembly(Pending, 0)
    else match events[0]
      case TransportError => Assembly(Faulted, 1)
      case Cancellation => Assembly(Cancelled, 1)
      case Frame(kind, data, eom) =>
        if kind == CloseKind then Assembly(CloseSeen, 1)
        else if eom then Assembly(Payload(data), 1)
        else
          var rest := Reassemble(events[1..]);
          Assembly(if rest.end.Payload? then Payload(data + rest.end.bytes) else rest.end, rest.consumed + 1)
  }

  /** Reassembly stops at the first boundary event: the payload is the
      concatenation of all frames up to and including the first final frame,
      and a Close frame, a fault or a cancellation before it discards what was
      gathered so far. */
  lemma {:induction false} ReassembleStopsAtBoundary(events: seq<SocketEvent>)
    ensures var k := FirstBoundary(events);
      var r := Reassemble(events);
      && (k == |events| ==> r == Assembly(Pending, k))
      && (k < |events| ==> r.consumed == k + 1)
      && (k < |events| && events[k] == TransportError ==> r.end == Faulted)
      && (k < |events| && events[k] == Cancellation ==> r.end == Cancelled)
      && (k < |events| && events[k].Frame? && events[k].kind == CloseKind ==> r.end == CloseSeen)
      && (k < |events| && events[k].Frame? && events[k].kind != CloseKind ==>
            r.end == Payload(Concat(events[..k + 1])))
    decreases |events|
  {
    if events != [] && IsContinuation(events[0]) {
      ReassembleStopsAtBoundary(events[1..]);
      var k := FirstBoundary(events);
      if k < |events| {
        assert events[..k + 1] == [events[0]] + events[1..][..k];
        ConcatAppend([events[0]], events[1..][..k]);
      }
    } else if events != [] && events[0].Frame? && events[0].kind != CloseKind {
      assert events[..1] == [events[0]];
      assert Concat(events[..1]) == events[0].data + Concat([]);
    }
  }

  /** The deserializer's verdict on a payload: a message, the JSON literal
      `null`, or an exception: a `JsonException`, or a
      `NotSupportedException` for an object it cannot map to a record. */
  datatype Decoded = Decoded(message: ControlMessage) | JsonNull | JsonError

  /** What `ReceiveAsync` delivers to its caller. */
  datatype Receipt =
    | Got(message: ControlMessage)  // a message
    | NoMessage                      // `null`: closed, empty, faulted, or JSON null
    | Canceled                       // the cancellation propagates
    | Malformed                      // the deserializer's exception propagates
    | Waiting                        // the call has not completed

  /** `ReceiveAsync` over the socket's events; also returns how many events
      the call consumed. */
  function Receive(events: seq<SocketEvent>, decode: seq<byte> -> Decoded): (r: (Receipt, nat))
    ensures r.1 <= |events|
    ensures r.0.Got? ==>
      (Reassemble(events).end.Payload? && |Reassemble(events).end.bytes| > 0
       && decode(Reassemble(events).end.bytes) == Decoded(r.0.message))
    ensures r.0 == Waiting <==> Reassemble(events).end == Pending
    ensures r.0 == Canceled <==> Reassemble(events).end == Cancelled
  {
    var a := Reassemble(events);
    var receipt :=
      match a.end
      case Pending => Waiting
      case CloseSeen => NoMessage
      case Faulted => NoMessage
      case Cancelled => Canceled
      case Payload(bytes) =>
        if |bytes| == 0 then NoMessage
        else match decode(bytes)
          case Decoded(m) => Got(m)
          case JsonNull => NoMessage
          case JsonError => Malformed;
    (receipt, a.consumed)
  }

  /** A Close frame after any number of non-final fragments yields no message
      and discards the fragments. */
  lemma CloseDiscardsPartial(fragments: seq<SocketEvent>, closeData: seq<byte>, rest: seq<SocketEvent>,
                             decode: seq<byte> -> Decoded)
    requires forall i :: 0 <= i < |fragments| ==> IsContinuation(fragments[i])
    ensures var events := fragments + [Frame(CloseKind, closeData, true)] + rest;
      Receive(events, decode) == (NoMessage, |fragments| + 1)
  {
    var events := fragments + [Frame(CloseKind, closeData, true)] + rest;
    BoundaryOfPrefix(fragments, Frame(CloseKind, closeData, true), rest);
    ReassembleStopsAtBoundary(events);
  }

  /** A transport error after any number of fragments yields no message. */
  lemma TransportErrorIsNoMessage(fragments: seq<SocketEvent>, rest: seq<SocketEvent>,
                                  decode: seq<byte> -> Decoded)
    requires forall i :: 0 <= i < |fragments| ==> IsContinuation(fragments[i])
    ensures Receive(fragments + [TransportError] + rest, decode) == (NoMessage, |fragments| + 1)
  {
    BoundaryOfPrefix(fragments, TransportError, rest);
    ReassembleStopsAtBoundary(fragments + [TransportError] + rest);
  }

  /** A message whose fragments carry no bytes at all is reported as none. */
  lemma EmptyPayloadIsNoMessage(fragments: seq<SocketEvent>, kind: MessageKind, rest: seq<SocketEvent>,
                                decode: seq<byte> -> Decoded)
    requires kind != CloseKind
    requires forall i :: 0 <= i < |fragments| ==> IsContinuation(fragments[i]) && fragments[i].data == []
    ensures Receive(fragments + [Frame(kind, [], true)] + rest, decode) == (NoMessage, |fragments| + 1)
  {
    var last := Frame(kind, [], true);
    var events := fragments + [last] + rest;
    BoundaryOfPrefix(fragments, last, rest);
    ReassembleStopsAtBoundary(events);
    assert events[..|fragments| + 1] == fragments + [last];
    ConcatAppend(fragments, [last]);
    EmptyFragments(fragments);
  }

  lemma {:induction false} EmptyFragments(fragments: seq<SocketEvent>)
    requires forall i :: 0 <= i < |fragments| ==> fragments[i].Frame? && fragments[i].data == []
    ensures Concat(fragments) == []
    decreases |fragments|
  {
    if fragments != [] {
      EmptyFragments(fragments[1..]);
    }
  }

  lemma BoundaryOfPrefix(fragments: seq<SocketEvent>, boundary: SocketEvent, rest: seq<SocketEvent>)
    requires forall i :: 0 <= i < |fragments| ==> IsContinuation(fragments[i])
    requires !IsContinuation(boundary)
    ensures FirstBoundary(fragments + [boundary] + rest) == |fragments|
  {
    var events := fragments + [boundary] + rest;
    assert forall i :: 0 <= i < |fragments| ==> events[i] == fragments[i];
    assert events[|fragments|] == boundary;
  }

  datatype SendError =
    | ArgumentNull       // `ArgumentNullException`: the message is null
    | SendCanceled       // `OperationCanceledException` from the send lock or the socket
    | SocketFailed       // `WebSocketException` from the socket

  /** What the send lock and the socket do with a frame handed to them. */
  datatype Transport = Writes | Cancels | Faults

  /** The JSON serializer as the channel uses it: `write` gives the UTF-8
      text of a message serialized as a declared type, `shape` reads the
      object written in a text back as an envelope, and `read` is
      `Deserialize(…, typeof(ControlMessage))`. */
  datatype Codec = Codec(
    write: (ControlMessage, DeclaredType) -> seq<byte>,
    shape: seq<byte> -> Envelope,
    read: seq<byte> -> Decoded)

  /** What the channel relies on from the serializer: the text written is
      non-empty and holds the envelope `Serialize` describes; the deserializer
      yields a message only of the variant the discriminator names, and the
      literal `null` only for text that holds no property; and a message
      serialized as the base type reads back as itself. */
  ghost predicate Faithful(c: Codec) {
    && (forall m, declared :: |c.write(m, declared)| > 0 && c.shape(c.write(m, declared)) == Serialize(m, declared))
    && (forall b :: c.read(b).Decoded? ==> DecodeVariant(c.shape(b)) == Some(VariantOf(c.read(b).message)))
    && (forall b :: c.read(b).JsonNull? ==> c.shape(b).properties == [])
    && (forall m :: c.read(c.write(m, BaseType)) == Decoded(m))
  }

  /** The declared type `SendAsync` serializes with: `message.GetType()`. */
  const SendDeclares: DeclaredType := RuntimeType

  /** `SendAsync`, serializing as `declared`: a null message is rejected
      before anything is written; otherwise the serialized message goes out
      as exactly one text frame that ends the message, unless the wait for
      the send lock or the socket's send is canceled or the socket fails,
      which the caller sees as an exception. */
  function Send(message: Option<ControlMessage>, declared: DeclaredType, codec: Codec, transport: Transport)
    : (r: Result<SocketEvent, SendError>)
    ensures message.None? <==> r == Failure(ArgumentNull)
    ensures message.Some? ==> (r.Success? <==> transport == Writes)
    ensures message.Some? && transport == Cancels ==> r == Failure(SendCanceled)
    ensures message.Some? && transport == Faults ==> r == Failure(SocketFailed)
    ensures r.Success? ==>
      (r.value.Frame? && r.value.kind == TextKind && r.value.endOfMessage
       && r.value.data == codec.write(message.value, declared))
  {
    match message
    case None => Failure(ArgumentNull)
    case Some(m) =>
      match transport
      case Writes => Success(Frame(TextKind, codec.write(m, declared), true))
      case Cancels => Failure(SendCanceled)
      case Faults => Failure(SocketFailed)
  }

  /** As written, no message survives the channel: the frame `SendAsync`
      writes carries no discriminator, so the receiving side's deserializer
      throws and `ReceiveAsync` does not catch it. */
  lemma AsWrittenSendUnreadable(m: ControlMessage, rest: seq<SocketEvent>, codec: Codec)
    requires Faithful(codec)
    ensures var frame := Send(Some(m), SendDeclares, codec, Writes).value;
      Receive([frame] + rest, codec.read) == (Malformed, 1)
  {
    var frame := Send(Some(m), SendDeclares, codec, Writes).value;
    var bytes := codec.write(m, RuntimeType);
    assert ([frame] + rest)[0] == frame;
    assert codec.shape(bytes) == Serialize(m, RuntimeType);
    RuntimeTypeHasNoTag(m);
    PropertiesNonEmpty(m, RuntimeType);
    assert !codec.read(bytes).Decoded?;
    assert !codec.read(bytes).JsonNull?;
  }

  /** What is sent is what is received once the message is serialized as
      `ControlMessage`: receiving the frame such a send wrote yields the same
      message after consuming that single frame, and the deserializer picks
      the message's own variant from the discriminator. */
  lemma SendThenReceive(m: ControlMessage, rest: seq<SocketEvent>, codec: Codec)
    requires Faithful(codec)
    ensures var frame := Send(Some(m), BaseType, codec, Writes).value;
      && Receive([frame] + rest, codec.read) == (Got(m), 1)
      && DecodeVariant(codec.shape(frame.data)) == Some(VariantOf(m))
  {
    var frame := Send(Some(m), BaseType, codec, Writes).value;
    assert ([frame] + rest)[0] == frame;
    assert |codec.write(m, BaseType)| > 0;
    assert codec.read(codec.write(m, BaseType)) == Decoded(m);
    EncodeDecodeVariant(m);
  }

  /** `WebSocket.State`. */
  datatype SocketState = Connecting | Open | CloseSent | CloseReceived | Closed | Aborted

  datatype Channel = Channel(socket: SocketState, disposed: bool)

  /** The result of `DisposeAsync`: the channel afterwards and whether a close
      handshake was started. `closeCompletes` says whether `CloseAsync`
      succeeds; its failure is swallowed. */
  datatype Disposal = Disposal(channel: Channel, closeStarted: bool)

  function Dispose(c: Channel, closeCompletes: bool): (r: Disposal)
    ensures r.channel.disposed
    ensures r.closeStarted <==> !c.disposed && (c.socket == Open || c.socket == CloseReceived)
    ensures !r.closeStarted || !closeCompletes ==> r.channel.socket == c.socket
  {
    if c.disposed then Disposal(c, false)
    else
      var start := c.socket == Open || c.socket == CloseReceived;
      var socket := if start && closeCompletes then Closed else c.socket;
      Disposal(Channel(socket, true), start)
  }

  /** Disposing twice is disposing once: the second call starts no close and
      changes nothing, whatever the outcome of either close. */
  lemma DisposeIdempotent(c: Channel, first: bool, second: bool)
    ensures var once := Dispose(c, first).channel;
      Dispose(once, second) == Disposal(once, false)
  {
  }
}

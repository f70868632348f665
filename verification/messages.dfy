/** The control-plane protocol: a closed union of seven message records,
    written as JSON objects whose "type" property carries a discriminator.
    The JSON text itself is modelled only as an envelope holding the
    discriminator and the names of the properties written. */
module Messages {
  import opened Wrappers
  import opened Encoding

  /** Timestamps (`DateTimeOffset`) as UTC ticks. */
  type Instant = int

  /** `StreamLifecycle`. */
  datatype StreamLifecycle = Starting | Ready | Stopped | Failed

  /** The enum's underlying numbers. */
  function LifecycleValue(s: StreamLifecycle): (n: nat)
    ensures n <= 3
  {
    match s
    case Starting => 0
    case Ready => 1
    case Stopped => 2
    case Failed => 3
  }

  function LifecycleOfValue(n: int): Option<StreamLifecycle> {
    if n == 0 then Some(Starting)
    else if n == 1 then Some(Ready)
    else if n == 2 then Some(Stopped)
    else if n == 3 then Some(Failed)
    else None
  }

  /** The numbering Starting=0, Ready=1, Stopped=2, Failed=3 is a bijection
      between the four states and 0..3. */
  lemma LifecycleNumbering(s: StreamLifecycle, n: int)
    ensures LifecycleOfValue(LifecycleValue(s)) == Some(s)
    ensures LifecycleOfValue(n).Some? <==> 0 <= n <= 3
    ensures LifecycleOfValue(n).Some? ==> LifecycleValue(LifecycleOfValue(n).value) == n
  {
  }

  /** `Enum.ToString()` of a lifecycle state. */
  function LifecycleName(s: StreamLifecycle): string {
    match s
    case Starting => "Starting"
    case Ready => "Ready"
    case Stopped => "Stopped"
    case Failed => "Failed"
  }

  /** A stream has ended once it reports `Stopped` or `Failed`. */
  predicate IsTerminal(s: StreamLifecycle) {
    s == Stopped || s == Failed
  }

  datatype ListenerSlotInfo = ListenerSlotInfo(port: int, aesKey: seq<byte>, aesIv: seq<byte>)

  datatype ViewerHello = ViewerHello(
    viewerId: string,
    host: string,
    mediamtxApiPort: int,
    displayName: Option<string>,
    useTls: bool,
    trustAllCertificates: bool,
    slots: seq<ListenerSlotInfo>)

  datatype ViewerHelloAck = ViewerHelloAck(accepted: bool, authCode: string, message: Option<string>)

  datatype ErrorNotification = ErrorNotification(message: string, detail: Option<string>)

  datatype AuthRequest = AuthRequest(sourceId: string, channelName: string, authCode: string, viewerAddress: string)

  datatype AuthResponse = AuthResponse(
    accepted: bool,
    message: string,
    streamKey: string,
    srtHost: string,
    srtPort: int,
    aesKey: Option<seq<byte>>,
    aesIv: Option<seq<byte>>,
    issuedAt: Instant)

  datatype StreamAnnouncement = StreamAnnouncement(
    sourceId: string,
    channelName: string,
    displayName: string,
    streamKey: string,
    srtHost: string,
    srtPort: int,
    aesKey: Option<seq<byte>>,
    aesIv: Option<seq<byte>>,
    timestamp: Instant)

  datatype StreamStateUpdate = StreamStateUpdate(
    sourceId: string,
    channelName: string,
    state: StreamLifecycle,
    recordingPath: Option<string>,
    errorMessage: Option<string>,
    timestamp: Instant)

  /** `ControlMessage`: exactly the seven records above. */
  datatype ControlMessage =
    | HelloMsg(hello: ViewerHello)
    | HelloAckMsg(ack: ViewerHelloAck)
    | ErrorMsg(error: ErrorNotification)
    | AuthRequestMsg(request: AuthRequest)
    | AuthResponseMsg(response: AuthResponse)
    | AnnouncementMsg(announcement: StreamAnnouncement)
    | StateMsg(update: StreamStateUpdate)

  /** The variant of a message, without its fields. */
  datatype Variant = ViewerHelloV | ViewerHelloAckV | ErrorV | AuthRequestV | AuthResponseV | AnnounceV | StateV

  const AllVariants: seq<Variant> :=
    [ViewerHelloV, ViewerHelloAckV, ErrorV, AuthRequestV, AuthResponseV, AnnounceV, StateV]

  function VariantOf(m: ControlMessage): Variant {
    match m
    case HelloMsg(_) => ViewerHelloV
    case HelloAckMsg(_) => ViewerHelloAckV
    case ErrorMsg(_) => ErrorV
    case AuthRequestMsg(_) => AuthRequestV
    case AuthResponseMsg(_) => AuthResponseV
    case AnnouncementMsg(_) => AnnounceV
    case StateMsg(_) => StateV
  }

  /** The `JsonDerivedType` discriminator registered for each variant. */
  function Discriminator(v: Variant): string {
    match v
    case ViewerHelloV => "viewer_hello"
    case ViewerHelloAckV => "viewer_hello_ack"
    case ErrorV => "error"
    case AuthRequestV => "auth_request"
    case AuthResponseV => "auth_response"
    case AnnounceV => "stream_announce"
    case StateV => "stream_state"
  }

  /** The decoder's dispatch from discriminator to variant; unknown
      discriminators are rejected. */
  function VariantOfDiscriminator(tag: string): (r: Option<Variant>)
    ensures r.Some? ==> Discriminator(r.value) == tag
  {
    if tag == "viewer_hello" then Some(ViewerHelloV)
    else if tag == "viewer_hello_ack" then Some(ViewerHelloAckV)
    else if tag == "error" then Some(ErrorV)
    else if tag == "auth_request" then Some(AuthRequestV)
    else if tag == "auth_response" then Some(AuthResponseV)
    else if tag == "stream_announce" then Some(AnnounceV)
    else if tag == "stream_state" then Some(StateV)
    else None
  }

  /** The union has exactly seven variants and their discriminators are
      pairwise distinct. */
  lemma DiscriminatorsDistinct(v: Variant, w: Variant)
    ensures |AllVariants| == 7 && v in AllVariants
    ensures v != w ==> Discriminator(v) != Discriminator(w)
  {
    assert VariantOfDiscriminator(Discriminator(v)) == Some(v);
    assert VariantOfDiscriminator(Discriminator(w)) == Some(w);
  }

  /** Decoding the discriminator of a variant yields that variant, and a
      discriminator is accepted only if some variant writes it. */
  lemma DiscriminatorRoundTrip(v: Variant, tag: string)
    ensures VariantOfDiscriminator(Discriminator(v)) == Some(v)
    ensures VariantOfDiscriminator(tag).Some? <==> exists w :: Discriminator(w) == tag
  {
    if exists w :: Discriminator(w) == tag {
      var w :| Discriminator(w) == tag;
      assert VariantOfDiscriminator(Discriminator(w)) == Some(w);
    }
  }

  /** The type `JsonSerializer` is told to serialize a message as: the
      abstract base `ControlMessage`, or the message's own record type
      (`message.GetType()`). */
  datatype DeclaredType = BaseType | RuntimeType

  /** The JSON object written for a message: its discriminator, when one is
      written, and the camel-cased names of the properties present, in
      declaration order; null properties are omitted
      (`JsonIgnoreCondition.WhenWritingNull`). */
  datatype Envelope = Envelope(discriminator: Option<string>, properties: seq<string>)

  function Optional<T>(name: string, value: Option<T>): seq<string> {
    if value.Some? then [name] else []
  }

  function Properties(m: ControlMessage): seq<string> {
    match m
    case HelloMsg(h) =>
      ["viewerId", "host", "mediamtxApiPort"] + Optional("displayName", h.displayName)
      + ["useTls", "trustAllCertificates", "slots"]
    case HelloAckMsg(a) => ["accepted", "authCode"] + Optional("message", a.message)
    case ErrorMsg(e) => ["message"] + Optional("detail", e.detail)
    case AuthRequestMsg(_) => ["sourceId", "channelName", "authCode", "viewerAddress"]
    case AuthResponseMsg(r) =>
      ["accepted", "message", "streamKey", "srtHost", "srtPort"]
      + Optional("aesKey", r.aesKey) + Optional("aesIv", r.aesIv) + ["issuedAt"]
    case AnnouncementMsg(a) =>
      ["sourceId", "channelName", "displayName", "streamKey", "srtHost", "srtPort"]
      + Optional("aesKey", a.aesKey) + Optional("aesIv", a.aesIv) + ["timestamp"]
    case StateMsg(u) =>
      ["sourceId", "channelName", "state"] + Optional("recordingPath", u.recordingPath)
      + Optional("errorMessage", u.errorMessage) + ["timestamp"]
  }

  /** What the serializer writes for `m` declared as `declared`. The
      `JsonPolymorphic` and `JsonDerivedType` attributes sit on the abstract
      base only and are not inherited by the records, so the discriminator is
      written only when the base is the declared type. */
  function Serialize(m: ControlMessage, declared: DeclaredType): Envelope {
    Envelope(if declared == BaseType then Some(Discriminator(VariantOf(m))) else None, Properties(m))
  }

  /** The variant the deserializer picks for an envelope read as
      `ControlMessage`. Without a discriminator it falls back to the abstract
      base, which it cannot construct (`NotSupportedException`); an unknown
      discriminator is a `JsonException`. */
  function DecodeVariant(e: Envelope): Option<Variant> {
    if e.discriminator.None? then None else VariantOfDiscriminator(e.discriminator.value)
  }

  /** Tag round trip: serialized as the base type, the decoder picks the
      variant the message was written as. */
  lemma EncodeDecodeVariant(m: ControlMessage)
    ensures DecodeVariant(Serialize(m, BaseType)) == Some(VariantOf(m))
  {
  }

  /** Serialized as its own record type, a message carries no discriminator,
      and the deserializer cannot pick any variant for it. */
  lemma RuntimeTypeHasNoTag(m: ControlMessage)
    ensures Serialize(m, RuntimeType).discriminator.None?
    ensures DecodeVariant(Serialize(m, RuntimeType)).None?
  {
  }

  /** Every message writes at least one property, whatever its declared type. */
  lemma PropertiesNonEmpty(m: ControlMessage, declared: DeclaredType)
    ensures Serialize(m, declared).properties != []
  {
  }

  /** Key and IV are written exactly when present. */
  lemma KeyPropertiesPresentIffSet(m: ControlMessage, declared: DeclaredType)
    requires m.AuthResponseMsg? || m.AnnouncementMsg?
    ensures "aesKey" in Serialize(m, declared).properties <==>
      (if m.AuthResponseMsg? then m.response.aesKey.Some? else m.announcement.aesKey.Some?)
    ensures "aesIv" in Serialize(m, declared).properties <==>
      (if m.AuthResponseMsg? then m.response.aesIv.Some? else m.announcement.aesIv.Some?)
  {
    var p := Serialize(m, declared).properties;
    if m.AuthResponseMsg? {
      var r := m.response;
      assert p == ["accepted", "message", "streamKey", "srtHost", "srtPort"]
        + Optional("aesKey", r.aesKey) + Optional("aesIv", r.aesIv) + ["issuedAt"];
    } else {
      var a := m.announcement;
      assert p == ["sourceId", "channelName", "displayName", "streamKey", "srtHost", "srtPort"]
        + Optional("aesKey", a.aesKey) + Optional("aesIv", a.aesIv) + ["timestamp"];
    }
  }
}

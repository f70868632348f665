# CameraSuite control plane in Dafny

CameraSuite streams camera channels from a source machine to a viewer over
SRT. The viewer pre-allocates encrypted SRT listener slots in mediamtx. An
auth service hands out those ports in short-lived leases. This project
models the logic of the three programs and their shared library as pure
functions over immutable data, and proves properties of them.

- **Auth service.** It holds the port-lease registry (`AuthState`): the
  viewer's announced slots, a FIFO queue of free ports, leases keyed by
  (source, channel) ignoring case and surrounding whitespace, allocation
  times, release and expiry. It also models the source WebSocket endpoint
  (`SourceEndpoint`), the single-viewer connection manager
  (`ViewerConnections`) and the control-plane certificate
  (`CertificateFactory`).
- **Viewer host.** It covers the mediamtx listener slots and their config
  file (`Mediamtx`), the list of streams (`ViewerState`) and a stream's view
  model (`StreamView`).
- **Source service.** It covers the registration rendezvous
  (`SourceState`), the streaming worker with its retry loop
  (`SourceWorker`) and the ffmpeg command line (`FfmpegArguments`).
- **Shared library.** It covers the message discriminators and field
  presence (`Messages`), the framed WebSocket JSON channel
  (`WebSocketChannel`), AES key material and the SRT passphrase
  (`AesKeyMaterial`), hex and Base64 (`Encoding`), recording paths
  (`RecordingPath`) and NATS subject names (`NatsSubjects`).

Modelling conventions:

- Time is an integer count of 100 ns ticks.
- Random bytes are parameters of the length the source draws.
- Three kinds of outcome are parameters:
  - the enumeration order of a `HashSet` or `Dictionary` (`order: seq<int>`);
  - what a socket receives (a sequence of frames or receipts);
  - whether a send, a mutex wait, a file check or a config write succeeds,
    fails or is cancelled.
- Every method that runs under a `lock` or the manager's mutex is one atomic
  step.
- A set-once `TaskCompletionSource` rendezvous is an `Option` that only its
  first setter fills.
- A session handler is a function of the whole inbound trace. A trace that
  runs out leaves the session "suspended", still waiting for input.

Three behaviours of the code are easy to miss, and the model keeps them:

- `SetListenerSlots` keeps every lease whose port is still announced, even
  when the port comes back with new key material (AuthState.cs:122-132;
  `AuthStateProofs.ReannouncementKeepsLease`).
- A second reservation for the same source and channel takes another port.
  The first port stays allocated under a stale key (AuthState.cs:76-84;
  `AuthStateProofs.DoubleReserveKeepsFirstPort`). When that stale port
  expires, the sweep removes the newer lease (AuthState.cs:171-199;
  `AuthStateProofs.StaleExpiryEndsLease`).
- A viewer whose first message is not a hello is sent an error, but the
  manager does not dispose its channel (ViewerConnectionManager.cs:39-47).

## Model

| member | source | states |
|---|---|---|
| AuthState.Create | src/Auth/CameraSuite.AuthService/AuthState.cs:26-38 | fails exactly when the port range start is not below its end; otherwise empty leases and queue, and a hold of at least 30 seconds |
| AuthState.SweepIntervalSeconds | src/Auth/CameraSuite.AuthService/Worker.cs:27 | the sweep interval is the configured one, raised to 10 seconds when it is smaller |
| AuthState.GenerateAuthCode | src/Auth/CameraSuite.AuthService/AuthState.cs:201-214 | eight symbols of the 32-letter alphabet without I and O |
| AuthState.EveryAuthCodeIsGenerated | src/Auth/CameraSuite.AuthService/AuthState.cs:201-214 | every well-formed auth code is produced by some random bytes, so the generator covers its whole range |
| AuthState.AlphabetIsAuthCodeChars | src/Auth/CameraSuite.AuthService/AuthState.cs:203 | the alphabet lists exactly the auth-code symbols, 32 of them, each once |
| AuthState.GenerateStreamKey | src/Auth/CameraSuite.AuthService/AuthState.cs:216-217 | 16 upper-case hex digits that decode back to the eight random bytes |
| AuthState.IsValidCodeMeaning | src/Auth/CameraSuite.AuthService/AuthState.cs:53-54 | a code is accepted exactly when it spells the auth code in any letter case; the auth code itself is accepted |
| AuthState.TrySetViewerEndpoint | src/Auth/CameraSuite.AuthService/AuthState.cs:44-48 | succeeds exactly when no endpoint is set; a later call changes nothing; a blank display name defaults to the host |
| AuthState.ViewerEndpointSetOnce | src/Auth/CameraSuite.AuthService/AuthState.cs:44-48 | of two calls the first endpoint wins and the second reports false |
| AuthState.TryGetAssignment | src/Auth/CameraSuite.AuthService/AuthState.cs:146-152 | finds a lease exactly when one is stored under the case-folded, trimmed key |
| AuthState.TryReserveStream | src/Auth/CameraSuite.AuthService/AuthState.cs:56-91 | refuses before slots exist; a failure changes no lease, allocation or slot; a success leases a queued port that has key material, stamps it with `now`, issues a stream key decoding to the random bytes, and makes the lease findable |
| AuthState.SlotMapLastWins | src/Auth/CameraSuite.AuthService/AuthState.cs:101-111 | a port has a slot exactly when it is in range and announced, and its material is the last announcement's |
| AuthState.EnqueueFree | src/Auth/CameraSuite.AuthService/AuthState.cs:114-119 | the queue gains exactly the enumerated ports that are not allocated, keeps its order, and stays mirrored by its set |
| AuthState.SetListenerSlots | src/Auth/CameraSuite.AuthService/AuthState.cs:93-136 | the slots become the in-range announcements; the queue holds exactly the unallocated slots; no lease is added or changed |
| AuthState.ReleaseStream | src/Auth/CameraSuite.AuthService/AuthState.cs:154-169 | afterwards no lease exists for the pair, every other lease stays, and slots and viewer are untouched |
| AuthState.CleanupExpired | src/Auth/CameraSuite.AuthService/AuthState.cs:171-199 | keeps exactly the allocations that have not outlived the hold |
| AuthStateProofs.MakeKeyTrims | src/Auth/CameraSuite.AuthService/AuthState.cs:235-236 | lease keys ignore whitespace around the source id and the channel name |
| AuthStateProofs.MakeKeyInjective | src/Auth/CameraSuite.AuthService/AuthState.cs:235-236 | for source ids without ':' two pairs share a key exactly when their trimmed parts are equal |
| AuthStateProofs.MakeKeyAmbiguous | src/Auth/CameraSuite.AuthService/AuthState.cs:235-236 | ("x:", "y") and ("x", ":y") are different pairs with the same key |
| AuthStateProofs.ReserveTakesHead | src/Auth/CameraSuite.AuthService/AuthState.cs:66-91 | on a valid registry a reservation takes the head of the queue, and fails, with no change, exactly when the queue is empty |
| AuthStateProofs.ReservePreservesValid | src/Auth/CameraSuite.AuthService/AuthState.cs:56-91 | reserving keeps the registry invariant: queue and set mirror each other, queued ports are unallocated slots, each lease is backed by its port |
| AuthStateProofs.ReserveLookupIgnoresCase | src/Auth/CameraSuite.AuthService/AuthState.cs:19 | the lease is found under any key that equals it ignoring case |
| AuthStateProofs.ReserveTwiceTakesTwoHeads | src/Auth/CameraSuite.AuthService/AuthState.cs:66-91 | two reservations take the first two queued ports in order |
| AuthStateProofs.DoubleReserveKeepsFirstPort | src/Auth/CameraSuite.AuthService/AuthState.cs:76-84 | a second reservation for the same pair takes another port; the first stays allocated under its old time and key, and a release does not free it |
| AuthStateProofs.SetListenerSlotsLeases | src/Auth/CameraSuite.AuthService/AuthState.cs:122-132 | reconciliation keeps exactly the leases whose port is still announced and drops exactly the allocations of the dropped leases' ports |
| AuthStateProofs.SetListenerSlotsPreservesValid | src/Auth/CameraSuite.AuthService/AuthState.cs:93-136 | reconciliation keeps the registry invariant |
| AuthStateProofs.ReannouncementKeepsLease | src/Auth/CameraSuite.AuthService/AuthState.cs:122-132 | a lease whose port is announced again keeps its port and its original key material, and the port stays out of the queue |
| AuthStateProofs.ReleasePreservesValid | src/Auth/CameraSuite.AuthService/AuthState.cs:154-169 | releasing keeps the registry invariant |
| AuthStateProofs.ReleaseFreesPort | src/Auth/CameraSuite.AuthService/AuthState.cs:154-169 | a release removes exactly the lease and its port's entries, and puts the port at the back of the queue |
| AuthStateProofs.ReleaseIdempotent | src/Auth/CameraSuite.AuthService/AuthState.cs:154-169 | releasing twice equals releasing once |
| AuthStateProofs.ReleaseKeepsOtherPort | src/Auth/CameraSuite.AuthService/AuthState.cs:154-169 | a release leaves another allocated, unqueued port allocated and unqueued |
| AuthStateProofs.ReserveThenRelease | src/Auth/CameraSuite.AuthService/AuthState.cs:154-169 | reserving and then releasing for a new pair restores the registry, except that the queue has rotated by one |
| AuthStateProofs.CleanupPreservesValid | src/Auth/CameraSuite.AuthService/AuthState.cs:171-199 | the sweep keeps the registry invariant |
| AuthStateProofs.CleanupExpiredEffect | src/Auth/CameraSuite.AuthService/AuthState.cs:171-199 | exact effect of a sweep: leases named by an expired port's key go and are returned, all others stay unchanged, kept allocations keep their time, and expired announced ports join the back of the queue |
| AuthStateProofs.StaleExpiryEndsLease | src/Auth/CameraSuite.AuthService/AuthState.cs:171-199 | when a stale port expires it ends the lease its key names, although that lease's own port stays allocated |
| SourceEndpoint.HandleSource | src/Auth/CameraSuite.AuthService/SourceWebSocketEndpoint.cs:31-152 | a cancelled wait for the viewer endpoint disposes the channel and changes nothing; at most one release; the channel is disposed on every path except a session still receiving |
| SourceEndpoint.RelayStopsAtFirstStop | src/Auth/CameraSuite.AuthService/SourceWebSocketEndpoint.cs:114-141 | the relay loop runs exactly to the first receipt that is not a non-terminal message |
| SourceEndpoint.FirstMessageMustBeAuthRequest | src/Auth/CameraSuite.AuthService/SourceWebSocketEndpoint.cs:39-47 | a first message that is not an auth request gets one error and changes nothing |
| SourceEndpoint.InvalidCodeRefused | src/Auth/CameraSuite.AuthService/SourceWebSocketEndpoint.cs:51-67 | a wrong auth code gets a rejection with no port, key or stream key, and the registry is unchanged |
| SourceEndpoint.ReservationFailureRefused | src/Auth/CameraSuite.AuthService/SourceWebSocketEndpoint.cs:69-85 | a failed reservation gets a rejection carrying the registry's reason; nothing is announced or released |
| SourceEndpoint.AcceptedSourceIsServed | src/Auth/CameraSuite.AuthService/SourceWebSocketEndpoint.cs:69-99 | a valid code with a successful reservation serves the source with the lease made for its ids |
| SourceEndpoint.ServeAnnouncesAndRelays | src/Auth/CameraSuite.AuthService/SourceWebSocketEndpoint.cs:89-141 | the source gets the lease's port, key material and stream key; the viewer is told the same values, then gets every state update in order up to the one ending the session |
| SourceEndpoint.ServeReleasesOnExit | src/Auth/CameraSuite.AuthService/SourceWebSocketEndpoint.cs:131-151 | once a port is leased, every exit releases exactly once: with a terminal update's ids, or else with the lease's own |
| SourceEndpoint.SessionPreservesValid | src/Auth/CameraSuite.AuthService/SourceWebSocketEndpoint.cs:31-152 | a session keeps the registry invariant whatever the source sends |
| SourceEndpoint.ForeignTerminalUpdateKeepsLease | src/Auth/CameraSuite.AuthService/SourceWebSocketEndpoint.cs:131-139 | a terminal update naming another stream releases that stream, and this session's lease outlives the session |
| ViewerConnections.Begin | src/Auth/CameraSuite.AuthService/ViewerConnectionManager.cs:32-71 | a session is admitted exactly when the first message is a hello, the mutex wait completes and the acknowledgement is written; anything but a hello leaves the manager unchanged |
| ViewerConnections.HelloRequired | src/Auth/CameraSuite.AuthService/ViewerConnectionManager.cs:39-47 | a first message that is not a hello gets one error, or nothing when that send fails, and changes nothing |
| ViewerConnections.HelloInstallsSession | src/Auth/CameraSuite.AuthService/ViewerConnectionManager.cs:49-71 | a hello reconciles the slots, disposes the previous session, becomes current and is acknowledged with the auth code |
| ViewerConnections.HelloInterrupted | src/Auth/CameraSuite.AuthService/ViewerConnectionManager.cs:50-96 | a cancelled mutex wait or a failed acknowledgement still reconciles the slots and disposes the new session |
| ViewerConnections.BeginKeepsSingle | src/Auth/CameraSuite.AuthService/ViewerConnectionManager.cs:52-65 | the handshake keeps at most one live viewer session |
| ViewerConnections.EndKeepsSingle | src/Auth/CameraSuite.AuthService/ViewerConnectionManager.cs:75-96 | the teardown keeps at most one live viewer session |
| ViewerConnections.NewerSessionSurvives | src/Auth/CameraSuite.AuthService/ViewerConnectionManager.cs:75-88 | tearing down a replaced session leaves the newer one current |
| ViewerConnections.ListenStopsAtFirstNonMessage | src/Auth/CameraSuite.AuthService/ViewerConnectionManager.cs:146-170 | listening consumes messages up to the first close, cancellation or transport error |
| ViewerConnections.RunSessionLeavesNoTrace | src/Auth/CameraSuite.AuthService/ViewerConnectionManager.cs:32-97 | a refused or finished session is never left current |
| ViewerConnections.Forward | src/Auth/CameraSuite.AuthService/ViewerConnectionManager.cs:99-125 | a cancelled mutex wait escapes; with no viewer nothing is sent; a message reaches the current session exactly when its send succeeds, and a failed send is swallowed |
| ViewerConnections.ForwardFollowsHello | src/Auth/CameraSuite.AuthService/ViewerConnectionManager.cs:99-125 | after a hello, messages go to the session it installed, and to nobody once it is torn down |
| ViewerConnections.ForwardReachesLiveSession | src/Auth/CameraSuite.AuthService/ViewerConnectionManager.cs:99-125 | a delivered message always reaches a session whose channel is open |
| CertificateFactory.GetOrCreate | src/Auth/CameraSuite.AuthService/ControlPlaneCertificateFactory.cs:29-63 | a success is cached and returned; a failure leaves the cache as it was |
| CertificateFactory.TlsDisabledAlwaysFails | src/Auth/CameraSuite.AuthService/ControlPlaneCertificateFactory.cs:31-34 | with TLS off every call fails, whatever is cached |
| CertificateFactory.CachedCertificateSticks | src/Auth/CameraSuite.AuthService/ControlPlaneCertificateFactory.cs:38-41 | once a certificate is cached, every later call returns that certificate |
| CertificateFactory.ExistingFilePreferred | src/Auth/CameraSuite.AuthService/ControlPlaneCertificateFactory.cs:43-52 | an existing configured file is loaded, with a password only when one is set |
| CertificateFactory.NothingConfiguredFails | src/Auth/CameraSuite.AuthService/ControlPlaneCertificateFactory.cs:54-57 | with no usable file and generation off, the call fails and caches nothing |
| CertificateFactory.GeneratedWindow | src/Auth/CameraSuite.AuthService/ControlPlaneCertificateFactory.cs:65-85 | a generated certificate is valid from five minutes before now for a whole number of days, at least one, and fails only past the last representable instant |
| AesKeyMaterial.Create | src/Common/CameraSuite.Shared/Security/AesKeyMaterial.cs:8-13 | a 32-byte key and a 16-byte IV, taken in order from the random bytes |
| AesKeyMaterial.DerivePassphrase | src/Common/CameraSuite.Shared/Security/AesKeyMaterial.cs:42-49 | 32 upper-case hex digits: the hex of the key's first 16 bytes, or of a shorter key padded with '0' |
| AesKeyMaterial.PassphraseDependsOnPrefix | src/Common/CameraSuite.Shared/Security/AesKeyMaterial.cs:42-49 | two long keys give the same passphrase exactly when their first 16 bytes agree |
| AesKeyMaterial.PassphraseDecodes | src/Common/CameraSuite.Shared/Security/AesKeyMaterial.cs:42-49 | the passphrase decodes to the key's first 16 bytes, zero-padded for a short key |
| AesKeyMaterial.CreatedPassphrase | src/Common/CameraSuite.Shared/Security/AesKeyMaterial.cs:8-23 | fresh material's passphrase is the hex of the first 16 random bytes |
| AesKeyMaterial.HexRoundTrip | src/Common/CameraSuite.Shared/Security/AesKeyMaterial.cs:15-40 | decoding the hex forms gives the material back |
| AesKeyMaterial.Base64RoundTrip | src/Common/CameraSuite.Shared/Security/AesKeyMaterial.cs:19-37 | decoding the Base64 forms gives the material back |
| Encoding.ToHex | src/Common/CameraSuite.Shared/Security/AesKeyMaterial.cs:15 | two upper-case hex digits per byte |
| Encoding.FromHexToHex | src/Common/CameraSuite.Shared/Security/AesKeyMaterial.cs:39-40 | decoding the hex of bytes gives the bytes back |
| Encoding.ToHexFromHex | src/Common/CameraSuite.Shared/Security/AesKeyMaterial.cs:39-40 | hex that decodes is re-encoded as its upper-case form |
| Encoding.FromBase64ToBase64 | src/Common/CameraSuite.Shared/Security/AesKeyMaterial.cs:36-37 | decoding the Base64 of bytes gives the bytes back |
| WebSocketChannel.ReassembleStopsAtBoundary | src/Common/CameraSuite.Shared/Transport/WebSocketJsonChannel.cs:55-71 | a message is the concatenation of the fragments up to the first final or non-data frame |
| WebSocketChannel.Receive | src/Common/CameraSuite.Shared/Transport/WebSocketJsonChannel.cs:49-93 | a message is delivered only for a non-empty payload the deserializer accepts; a still-pending receive waits and a cancellation propagates |
| WebSocketChannel.CloseDiscardsPartial | src/Common/CameraSuite.Shared/Transport/WebSocketJsonChannel.cs:60-63 | a close frame ends the receive with no message and drops the fragments before it |
| WebSocketChannel.TransportErrorIsNoMessage | src/Common/CameraSuite.Shared/Transport/WebSocketJsonChannel.cs:85-88 | a socket error ends the receive with no message |
| WebSocketChannel.EmptyPayloadIsNoMessage | src/Common/CameraSuite.Shared/Transport/WebSocketJsonChannel.cs:73-76 | an empty message gives no message |
| WebSocketChannel.Send | src/Common/CameraSuite.Shared/Transport/WebSocketJsonChannel.cs:29-47 | a null message is an argument error; otherwise it succeeds exactly when the socket write completes, writing one final text frame of the message serialised as the given declared type |
| WebSocketChannel.AsWrittenSendUnreadable | src/Common/CameraSuite.Shared/Transport/WebSocketJsonChannel.cs:39 | as written, the frame a send writes reaches the receiver as an escaping deserializer exception, never as the message |
| WebSocketChannel.SendThenReceive | src/Common/CameraSuite.Shared/Transport/WebSocketJsonChannel.cs:29-93 | serialised as `ControlMessage`, the frame a send wrote is received as the same message, and its discriminator names the message's own type |
| WebSocketChannel.Dispose | src/Common/CameraSuite.Shared/Transport/WebSocketJsonChannel.cs:95-115 | the channel ends disposed; a close handshake starts only on the first disposal of an open socket |
| WebSocketChannel.DisposeIdempotent | src/Common/CameraSuite.Shared/Transport/WebSocketJsonChannel.cs:95-115 | disposing again does nothing |
| Messages.LifecycleNumbering | src/Common/CameraSuite.Shared/Models/Messages.cs:61-67 | the lifecycle states are numbered 0 to 3, and number and state convert both ways |
| Messages.VariantOfDiscriminator | src/Common/CameraSuite.Shared/Models/Messages.cs:6-14 | a tag is resolved only to the message type that carries it |
| Messages.DiscriminatorsDistinct | src/Common/CameraSuite.Shared/Models/Messages.cs:6-14 | the seven message types have pairwise different tags |
| Messages.DiscriminatorRoundTrip | src/Common/CameraSuite.Shared/Models/Messages.cs:6-14 | each type's tag resolves to that type, and a tag resolves exactly when some type carries it |
| Messages.EncodeDecodeVariant | src/Common/CameraSuite.Shared/Models/Messages.cs:6-14 | a message serialised as the base type decodes to its own type |
| Messages.RuntimeTypeHasNoTag | src/Common/CameraSuite.Shared/Models/Messages.cs:6-14 | a message serialised as its own record type carries no discriminator, and the base-type decoder picks no type for it |
| Messages.KeyPropertiesPresentIffSet | src/Common/CameraSuite.Shared/Models/Messages.cs:116 | key and IV properties are written exactly when they are set, whichever type is declared |
| NatsSubjects.BuildersInjective | src/Common/CameraSuite.Shared/Messaging/NatsSubjects.cs:7-19 | each subject builder gives different subjects for different ids |
| NatsSubjects.FixedSubjectsDistinct | src/Common/CameraSuite.Shared/Messaging/NatsSubjects.cs:5-11 | the fixed subjects differ from each other and from every auth response subject |
| NatsSubjects.CommandsNotTelemetry | src/Common/CameraSuite.Shared/Messaging/NatsSubjects.cs:13-15 | a command subject is never a telemetry subject |
| NatsSubjects.FamiliesDisjoint | src/Common/CameraSuite.Shared/Messaging/NatsSubjects.cs:5-19 | subjects of different families never coincide |
| RecordingPath.CombineParts | src/Common/CameraSuite.Shared/Storage/RecordingPathBuilder.cs:25 | joining keeps both parts in order and adds a separator exactly when neither an empty part nor a trailing separator makes one unnecessary |
| RecordingPath.Sanitize | src/Common/CameraSuite.Shared/Storage/RecordingPathBuilder.cs:28-50 | a blank name becomes "unknown"; otherwise the same length, with each invalid or control character replaced by '_' and every other kept |
| RecordingPath.SanitizeSafe | src/Common/CameraSuite.Shared/Storage/RecordingPathBuilder.cs:28-50 | the result holds no unsafe character and is not blank |
| RecordingPath.SanitizeIdempotent | src/Common/CameraSuite.Shared/Storage/RecordingPathBuilder.cs:28-50 | sanitising twice equals sanitising once |
| RecordingPath.SanitizedIsComponent | src/Common/CameraSuite.Shared/Storage/RecordingPathBuilder.cs:28-50 | a sanitised name is one relative path component with no separator |
| RecordingPath.StampsInjective | src/Common/CameraSuite.Shared/Storage/RecordingPathBuilder.cs:21-23 | different days give different directory stamps, and different instants different file stamps |
| RecordingPath.StampValues | src/Common/CameraSuite.Shared/Storage/RecordingPathBuilder.cs:21-23 | the stamps read back as yyyyMMdd and HHmmss of the timestamp |
| RecordingPath.Build | src/Common/CameraSuite.Shared/Storage/RecordingPathBuilder.cs:8-26 | fails exactly when no options are given |
| RecordingPath.BuildDirectory | src/Common/CameraSuite.Shared/Storage/RecordingPathBuilder.cs:18-21 | the directory is the root, then the safe name, then the day stamp |
| RecordingPath.BuildFile | src/Common/CameraSuite.Shared/Storage/RecordingPathBuilder.cs:23-25 | the file is safe_yyyyMMdd_HHmmss.ts inside that directory |
| Mediamtx.RangeSize | src/Viewer/CameraSuite.ViewerHost/Services/MediamtxManager.cs:94 | the number of ports in the range, zero exactly for an inverted range |
| Mediamtx.SlotCount | src/Viewer/CameraSuite.ViewerHost/Services/MediamtxManager.cs:100 | the configured listener count clamped to between 1 and the range size |
| Mediamtx.NewSlots | src/Viewer/CameraSuite.ViewerHost/Services/MediamtxManager.cs:102-106 | consecutive ports from the range start, each with a 32-byte key and 16-byte IV |
| Mediamtx.InitializeSlots | src/Viewer/CameraSuite.ViewerHost/Services/MediamtxManager.cs:85-108 | existing slots are kept; otherwise fails exactly for an empty range, and lays out the clamped count of consecutive in-range ports |
| Mediamtx.Snapshot | src/Viewer/CameraSuite.ViewerHost/Services/MediamtxManager.cs:33-44 | one slot description per slot, in order, with its port and its key and IV |
| Mediamtx.SnapshotReconciles | src/Viewer/CameraSuite.ViewerHost/Services/MediamtxManager.cs:33-44 | the auth service rebuilds from the snapshot exactly the viewer's in-range slots with their material |
| Mediamtx.ConfigDescribesSlot | src/Viewer/CameraSuite.ViewerHost/Services/MediamtxManager.cs:110-145 | the config file holds, for every slot, its path name, listener source, passphrase and record path |
| Mediamtx.PathNamesDistinct | src/Viewer/CameraSuite.ViewerHost/Services/MediamtxManager.cs:124 | two slots get the same path name exactly when they have the same port |
| Mediamtx.EnsureRunning | src/Viewer/CameraSuite.ViewerHost/Services/MediamtxManager.cs:46-56 | a running manager is untouched; otherwise it is marked running exactly when it reports no fault |
| Mediamtx.EnsureRunningConsistent | src/Viewer/CameraSuite.ViewerHost/Services/MediamtxManager.cs:46-56 | after start-up the slots are laid out and the config describes them |
| Mediamtx.EmptyRangeFails | src/Viewer/CameraSuite.ViewerHost/Services/MediamtxManager.cs:95-98 | start-up with an empty range fails and changes nothing |
| Mediamtx.StartsOnce | src/Viewer/CameraSuite.ViewerHost/Services/MediamtxManager.cs:46-56 | a second start after a successful one changes nothing |
| Mediamtx.RetryKeepsSlots | src/Viewer/CameraSuite.ViewerHost/Services/MediamtxManager.cs:89-92 | a retried start after a failed config write keeps the slots and key material made first |
| Mediamtx.RegisterStream | src/Viewer/CameraSuite.ViewerHost/Services/MediamtxManager.cs:58-83 | a blank passphrase or an unknown port changes nothing; a known port is registered under the channel, with a mismatch reported only when the slot's passphrase differs |
| Mediamtx.RegisterIgnoresCase | src/Viewer/CameraSuite.ViewerHost/Services/MediamtxManager.cs:20 | channel names that differ only in case share one registration |
| Mediamtx.MatchingStreamRegisters | src/Viewer/CameraSuite.ViewerHost/Services/MediamtxManager.cs:67-79 | a stream on a slot's port with that slot's passphrase registers cleanly |
| ViewerState.FirstMatch | src/Viewer/CameraSuite.ViewerHost/Services/ViewerState.cs:27-29 | the position of the first entry naming the stream, or none when no entry does |
| ViewerState.UpsertStream | src/Viewer/CameraSuite.ViewerHost/Services/ViewerState.cs:21-47 | updates the first matching entry in place, or appends the new entry; every other entry is kept |
| ViewerState.UpdateState | src/Viewer/CameraSuite.ViewerHost/Services/ViewerState.cs:49-72 | changes only the first matching entry, and nothing when no entry matches |
| ViewerState.UpsertThenFind | src/Viewer/CameraSuite.ViewerHost/Services/ViewerState.cs:21-47 | a later lookup of the announced stream finds the upserted entry |
| ViewerState.UpsertTwiceAddsOnce | src/Viewer/CameraSuite.ViewerHost/Services/ViewerState.cs:21-47 | announcing a stream again adds no second entry |
| ViewerState.UpsertKeepsDistinct | src/Viewer/CameraSuite.ViewerHost/Services/ViewerState.cs:21-47 | upserts keep at most one entry per stream |
| ViewerState.UpdateAfterUpsert | src/Viewer/CameraSuite.ViewerHost/Services/ViewerState.cs:49-72 | after an upsert, a state update for the same ids lands on that entry with the lifecycle name and the error message |
| ViewerState.CaseButNotSpaceIgnored | src/Viewer/CameraSuite.ViewerHost/Services/ViewerState.cs:28-29 | an entry matching some ids also matches their upper-cased form, and never the ids with a blank added before the source id or after the channel name |
| StreamView.Fresh | src/Viewer/CameraSuite.ViewerHost/ViewModels/StreamViewModel.cs:12-27 | a new view model is "Pending", with empty identity fields, port 0, and no passphrase or error |
| StreamView.SetField | src/Viewer/CameraSuite.ViewerHost/ViewModels/StreamViewModel.cs:76-86 | stores the value and reports a change exactly when it differs from the old one |
| StreamView.SetFieldTwice | src/Viewer/CameraSuite.ViewerHost/ViewModels/StreamViewModel.cs:76-86 | setting the same value again reports no change |
| StreamView.UpdateFromAnnouncement | src/Viewer/CameraSuite.ViewerHost/ViewModels/StreamViewModel.cs:55-74 | copies the six identity fields; replaces the passphrase only for a non-empty key; raises the six notifications after a passphrase change |
| StreamView.UpdateIdempotent | src/Viewer/CameraSuite.ViewerHost/ViewModels/StreamViewModel.cs:55-74 | applying the same announcement twice equals applying it once |
| StreamView.PassphraseFromKeyPrefix | src/Viewer/CameraSuite.ViewerHost/ViewModels/StreamViewModel.cs:64-66 | announcements whose keys share their first 16 bytes give the same passphrase |
| SourceState.Create | src/Source/CameraSuite.SourceService/SourceState.cs:12-17 | a new state has the configured id and no registration or session |
| SourceState.TrySetRegistration | src/Source/CameraSuite.SourceService/SourceState.cs:21-22 | succeeds exactly when nothing is registered; only a success changes the registration |
| SourceState.SetSession | src/Source/CameraSuite.SourceService/SourceState.cs:27 | records the session and changes nothing else |
| SourceState.FirstRegistrationWins | src/Source/CameraSuite.SourceService/SourceState.cs:21-22 | of many registrations the first is kept and exactly one succeeds |
| SourceState.LaterRegistrationsIgnored | src/Source/CameraSuite.SourceService/SourceState.cs:21-22 | once registered, further registrations change nothing |
| SourceWorker.Request | src/Source/CameraSuite.SourceService/Worker.cs:82-86 | the request carries the source id, channel and code, and addresses the viewer as host:port |
| SourceWorker.Update | src/Source/CameraSuite.SourceService/Worker.cs:153-164 | a state update for this source and channel, with no recording path |
| SourceWorker.SessionOf | src/Source/CameraSuite.SourceService/Worker.cs:52-60 | the session combines the registration's channel, the answer's port and keys, and the local options |
| SourceWorker.Loop | src/Source/CameraSuite.SourceService/Worker.cs:103-151 | a non-empty run trace starts with "Starting"; "Ready" only right after "Starting"; the loop itself never publishes "Stopped"; an empty trace publishes nothing |
| SourceWorker.BackoffBounds | src/Source/CameraSuite.SourceService/Worker.cs:141 | the delay grows linearly with the attempt up to six times the base, and never shrinks |
| SourceWorker.NegativeDelayFaults | src/Source/CameraSuite.SourceService/Worker.cs:141-144 | a negative retry delay ends the loop with a fault after the first failed run |
| SourceWorker.CleanExitEndsLoop | src/Source/CameraSuite.SourceService/Worker.cs:120-124 | exit code 0 ends the loop after "Starting" and "Ready" |
| SourceWorker.FailedRunRetries | src/Source/CameraSuite.SourceService/Worker.cs:126-149 | a non-zero exit publishes "Failed" with the exit code, then starts again |
| SourceWorker.OneStartingPerRun | src/Source/CameraSuite.SourceService/Worker.cs:108-118 | the loop publishes one "Starting" and one "Ready" per run |
| SourceWorker.NoStreamWithoutKeys | src/Source/CameraSuite.SourceService/Worker.cs:39-50 | a refused answer, or one without key material, publishes nothing and records no session |
| SourceWorker.ExecuteStreams | src/Source/CameraSuite.SourceService/Worker.cs:52-72 | with key material the recorded session carries the answer's port, stream key, key and IV under the registered channel, and runs that session's command line; one "Starting" per run, "Ready" only right after "Starting"; after stopping, the last event is the only "Stopped"; stopped before the first run, only "Stopped" |
| SourceWorker.StoppedOnceAtEnd | src/Source/CameraSuite.SourceService/Worker.cs:64-72 | once streaming ends, "Stopped" is published exactly once, as the last event |
| SourceWorker.CommandLineFromKey | src/Source/CameraSuite.SourceService/Worker.cs:105 | sessions whose keys share their first 16 bytes run the same command line |
| SourceWorker.CommandLineReadsBack | src/Source/CameraSuite.SourceService/FfmpegProcessManager.cs:70-93 | without backslashes, and with no blank in the input URL, ffmpeg receives the 14 intended arguments |
| SourceWorker.CommandLineSplitsBlankChannel | src/Source/CameraSuite.SourceService/FfmpegProcessManager.cs:77 | a channel name with a blank reaches ffmpeg as two arguments, 15 in all |
| FfmpegArguments.EscapeQuotes | src/Source/CameraSuite.SourceService/FfmpegProcessManager.cs:89-93 | the escaped text is longer by exactly the number of quotes |
| FfmpegArguments.UnescapeEscape | src/Source/CameraSuite.SourceService/FfmpegProcessManager.cs:89-93 | unescaping the escaped text gives it back |
| FfmpegArguments.Intended | src/Source/CameraSuite.SourceService/FfmpegProcessManager.cs:70-87 | fourteen arguments, with the input URL, passphrase and SRT URL in their places |
| FfmpegArguments.ArgumentsText | src/Source/CameraSuite.SourceService/FfmpegProcessManager.cs:70-87 | the command line is the intended words joined by single spaces, input unquoted and SRT URL quoted |
| FfmpegArguments.SplitTokens | src/Source/CameraSuite.SourceService/FfmpegProcessManager.cs:27-30 | splitting a line of well-formed tokens joined by spaces gives back each token's argument |
| FfmpegArguments.PassphraseIsWord | src/Source/CameraSuite.SourceService/FfmpegProcessManager.cs:82 | a derived passphrase is one non-empty word that needs no quoting |
| FfmpegArguments.AsWrittenWithoutBlanks | src/Source/CameraSuite.SourceService/FfmpegProcessManager.cs:70-87 | when the input URL has no blank, the line as written splits into the intended arguments |
| FfmpegArguments.AsWrittenSplitsInput | src/Source/CameraSuite.SourceService/FfmpegProcessManager.cs:77 | as written, an input URL with a blank splits into two arguments and shifts the rest, 15 in all |
| FfmpegArguments.CorrectedSplitsAsIntended | src/Source/CameraSuite.SourceService/FfmpegProcessManager.cs:77-84 | with the input URL quoted like the SRT URL, the line splits into the intended arguments for any URLs without backslashes, blanks included |
| Text.TrimIsInfix | src/Auth/CameraSuite.AuthService/AuthState.cs:235-236 | trimming removes only whitespace at the two ends, and leaves nothing exactly for a blank string |
| Text.TrimIdempotent | src/Auth/CameraSuite.AuthService/AuthState.cs:235-236 | trimming twice equals trimming once |
| Text.EqualsIgnoreCaseMeaning | src/Auth/CameraSuite.AuthService/AuthState.cs:19 | strings are equal ignoring case exactly when they have one length and fold alike position by position |

## Left out

- AuthState.MakeKey: the lease dictionary folds only ASCII letters. `StringComparison.OrdinalIgnoreCase` also folds other cased letters, so "Cámara" and "CÁMARA" share one lease in the program but get two here. `TryReserveStream`, `TryGetAssignment` and `ReserveLookupIgnoresCase` inherit this.
- AuthState.IsValidCode: the same ASCII-only fold. Generated auth codes are ASCII, so the difference shows only for codes a source types with non-ASCII letters.
- Mediamtx.RegisterStream: the channel-name key of the active-stream map uses the same ASCII-only fold.
- ViewerState.Matches: stream matching uses the same ASCII-only fold, and `UpsertStream`, `UpdateState` and `UpsertKeepsDistinct` inherit it.
- SourceEndpoint.HandleSource: one `now` stands for a whole session. The program reads the clock at every response, announcement and reservation (AuthState.cs:56-91, SourceWebSocketEndpoint.cs:62, 80, 97, 111).
- SourceEndpoint.HandleSource: the endpoint's own sends to the source (SourceWebSocketEndpoint.cs:43, 53, 71, 99) are assumed to complete. A failing or cancelled send ends the handler through its `finally`, which still releases and disposes.
- SourceEndpoint.HandleSource: the announcement and the relayed updates go through the viewer manager's `SendAsync`. That send's cancelled mutex wait (ViewerConnectionManager.cs:102) is modelled in `ViewerConnections.Forward` but not followed back into this handler.
- ViewerConnections.Begin: a refused viewer's channel is left open, as in the program. Nothing shows whether the host closes it later.
- Mediamtx.RangeSize: computed over unbounded integers. `end - start + 1` in 32-bit C# (MediamtxManager.cs:94) can overflow for extreme settings.
- SourceWorker.Backoff: `RetryDelaySeconds * attempt` and `RetryDelaySeconds * 6` are not wrapped to 32 bits. In the program they overflow after enough attempts or for a huge delay. The attempt counter's own overflow is left out too.
- SourceWorker.Execute: publishing a state update over NATS (Worker.cs:111, 117, 128, 138) is assumed to succeed. A failing publish would end the loop with an exception. The cancellation of `WaitForRegistrationAsync` (Worker.cs:36) is not modelled; an unregistered worker stays waiting and publishes nothing.
- SourceWorker.Execute: the authorisation request over NATS is reduced to an optional answer. Subscription and publish failures are left out.
- RecordingPath.Sanitize: lengths count Unicode scalar values, while .NET strings count UTF-16 code units. The two differ for characters outside the Basic Multilingual Plane.
- RecordingPath.Combine: follows `Path.Combine` of modern .NET on Windows, where `\` and `/` both count as separators and a separator is added unless one side already has one. A non-Windows host uses `/` alone and is not modelled.
- RecordingPath.BuildDirectory: the day and time stamps are the Gregorian UTC fields. `ToString("yyyyMMdd")` and the `yyyyMMdd_HHmmss` format use the current culture's calendar, so under a culture whose calendar is not Gregorian (th-TH prints the Buddhist year) the program writes other digits.
- FfmpegArguments.Split: the argument splitter follows the Windows command-line rules that .NET applies to `ProcessStartInfo.Arguments`. The read-back properties assume URLs without backslashes.
- Messages: only the type discriminators and the presence of optional fields are modelled, for a message serialised either as the base type `ControlMessage` or as its own record type. `SendAsync` uses the record type (see Findings). The JSON text itself and `JsonSerializer` are left out.
- WebSocketChannel.Receive: the deserializer is a parameter. Malformed JSON and an object without a discriminator are results it may return; both end as an escaping exception.
- WebSocketChannel.SendThenReceive: what `JsonSerializer` does is assumed (`Faithful`): written text carries the envelope `Serialize` describes, and a message serialised as the base type reads back as itself. That field-by-field round trip is not proved.
- The session handlers (`SourceEndpoint`, `ViewerConnections`) take the received messages as input, so they describe the channel once its serialisation is corrected.
- CertificateFactory.Generate: the RSA key, X.509 extensions and file loading are left out. Only which certificate is chosen, cached and valid when is modelled.
- Mediamtx.EnsureRunning: the mediamtx process start and stop, and the config file write, are left out. The write's success is a parameter.
- The ffmpeg process itself (`RunOnceAsync`, `DisposeAsync`) is represented by its exit outcome per attempt.
- AesKeyMaterial: `ToDictionary` and `ToString` only format the modelled encodings for display and are not modelled.
- `MaxRetryCount` is never read by the program and is not modelled. The active-stream map of `MediamtxManager` is written but never read, so only its contents are modelled.
- The NATS connection and messenger, the viewer's control-plane client and worker, the playback service, the UI and its dispatcher thread, the console prompts and hosting are not part of this model.
- Concurrency: interleavings between sessions, the timer sweep and viewer reconnection are not explored. Each locked section is one atomic step.

## Findings

| source | as written | input that shows it | evidently intended | confidence | as-written member | corrected member |
|---|---|---|---|---|---|---|
| src/Common/CameraSuite.Shared/Transport/WebSocketJsonChannel.cs:39 | `SendAsync` serialises with `message.GetType()`; the polymorphism attributes on `ControlMessage` (Messages.cs:6-14) are not inherited by the records, so no `"type"` discriminator is written | any message, e.g. the viewer's hello: the receiver's `Deserialize(…, typeof(ControlMessage))` at :79 meets an object without a discriminator for an abstract type and throws, and :81-88 do not catch it | serialise with `typeof(ControlMessage)` so the discriminator is written | not executed; medium, it rests on System.Text.Json's attribute rules | WebSocketChannel.AsWrittenSendUnreadable | WebSocketChannel.SendThenReceive |
| src/Source/CameraSuite.SourceService/FfmpegProcessManager.cs:77 | the input URL is escaped but not quoted, although channel names are only trimmed (SourceConsoleBootstrapper.cs:39-44, 82) | channel "cam 1": ffmpeg receives `rtmp://…/cam` and `1` as separate arguments, 15 instead of 14 | quote the input URL as the SRT URL is quoted at :84 | not executed | FfmpegArguments.AsWrittenSplitsInput | FfmpegArguments.CorrectedSplitsAsIntended |

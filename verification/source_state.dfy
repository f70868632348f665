/** `SourceState`: the source service's shared state. The console supplies
    the registration (where the auth service is, the code, the channel)
    once; the worker waits for it. The stream session obtained from the auth
    service is recorded for inspection. The rendezvous is a value that is set
    at most once. */
module SourceState {
  import opened Wrappers
  import opened Encoding

  /** `SourceRegistration`. */
  datatype Registration = Registration(
    authHost: string,
    authPort: int,
    authCode: string,
    channelName: string,
    viewerAddress: Option<string>)

  /** `StreamSession`: what the worker streams with. */
  datatype StreamSession = StreamSession(
    channelName: string,
    streamKey: string,
    srtHost: string,
    srtPort: int,
    aesKey: seq<byte>,
    aesIv: seq<byte>,
    localRtmpUrl: string,
    ffmpegExecutable: string)

  datatype State = State(sourceId: string, registration: Option<Registration>, session: Option<StreamSession>)

  /** A fresh state: the source id is the configured one, and neither a
      registration nor a session is set. */
  function Create(configuredSourceId: string): (s: State)
    ensures s.sourceId == configuredSourceId && s.registration.None? && s.session.None?
  {
    State(configuredSourceId, None, None)
  }

  /** `TrySetRegistration`: succeeds only while no registration is set; a
      later call reports failure and leaves the first one in place. */
  function TrySetRegistration(s: State, r: Registration): (res: (State, bool))
    ensures res.1 <==> s.registration.None?
    ensures res.0.registration == if res.1 then Some(r) else s.registration
    ensures res.0.sourceId == s.sourceId && res.0.session == s.session
  {
    if s.registration.None? then (s.(registration := Some(r)), true) else (s, false)
  }

  /** `WaitForRegistrationAsync`: the registration once set; `None` while the
      wait is still pending. */
  function WaitForRegistration(s: State): Option<Registration> {
    s.registration
  }

  /** `SetSession`: the latest session replaces any earlier one. */
  function SetSession(s: State, session: StreamSession): (s': State)
    ensures s'.session == Some(session)
    ensures s'.sourceId == s.sourceId && s'.registration == s.registration
  {
    s.(session := Some(session))
  }

  /** The console's attempts to register, in order; returns the state and how
      many attempts were accepted. */
  function RegisterAll(s: State, attempts: seq<Registration>): (res: (State, nat))
    decreases |attempts|
  {
    if attempts == [] then (s, 0)
    else
      var (s1, ok) := TrySetRegistration(s, attempts[0]);
      var (s2, n) := RegisterAll(s1, attempts[1..]);
      (s2, n + if ok then 1 else 0)
  }

  /** Whatever sequence of registrations arrives, exactly one is accepted when
      none was set before, and the waiter receives the first. */
  lemma {:induction false} FirstRegistrationWins(s: State, attempts: seq<Registration>)
    requires s.registration.None? && attempts != []
    ensures var (s', n) := RegisterAll(s, attempts);
      n == 1 && WaitForRegistration(s') == Some(attempts[0]) && s'.sourceId == s.sourceId
  {
    var s1 := TrySetRegistration(s, attempts[0]).0;
    LaterRegistrationsIgnored(s1, attempts[1..]);
  }

  /** Once a registration is set, further attempts are all refused and change
      nothing. */
  lemma {:induction false} LaterRegistrationsIgnored(s: State, attempts: seq<Registration>)
    requires s.registration.Some?
    ensures RegisterAll(s, attempts) == (s, 0)
    decreases |attempts|
  {
    if attempts != [] {
      LaterRegistrationsIgnored(s, attempts[1..]);
    }
  }
}

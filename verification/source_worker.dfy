/** The source service's `Worker`: wait for the console's registration, ask
    the auth service for a stream, then run ffmpeg in a loop, publishing the
    stream's lifecycle on the bus, until ffmpeg exits cleanly or the service
    stops. Between failed runs it waits a linearly growing delay, capped at
    six times the configured one.

    The bus, the process and the clock are outside the model: the auth
    service's answer, the outcome of every ffmpeg run and of every delay are
    inputs, and a publish is the lifecycle event it carries. */
module SourceWorker {
  import opened Wrappers
  import opened Messages
  import Text
  import SourceState
  import AesKeyMaterial
  import FfmpegArguments
  import NatsSubjects

  /** The source options the worker reads. */
  datatype Options = Options(localRtmpUrl: string, ffmpegExecutable: string, retryDelaySeconds: int)

  const DefaultLocalRtmpUrl: string := "rtmp://127.0.0.1/live"
  const DefaultFfmpegExecutable: string := "ffmpeg"
  const DefaultRetryDelaySeconds: int := 5

  function DefaultOptions(): Options {
    Options(DefaultLocalRtmpUrl, DefaultFfmpegExecutable, DefaultRetryDelaySeconds)
  }

  /** The request the worker publishes on "auth.requests": its source id,
      the registered channel and code, and the auth endpoint written as
      "host:port". */
  function Request(sourceId: string, registration: SourceState.Registration): (r: AuthRequest)
    ensures r.sourceId == sourceId && r.channelName == registration.channelName && r.authCode == registration.authCode
    ensures |r.viewerAddress| > |registration.authHost|
    ensures r.viewerAddress[..|registration.authHost|] == registration.authHost
    ensures r.viewerAddress[|registration.authHost|..] == ":" + Text.IntToString(registration.authPort)
  {
    AuthRequest(sourceId, registration.channelName, registration.authCode,
                registration.authHost + ":" + Text.IntToString(registration.authPort))
  }

  /** A lifecycle publish on "streams.state": the state and its error text. */
  datatype Event = Event(state: StreamLifecycle, error: Option<string>)

  /** The update a publish sends, stamped with the time `at`. */
  function Update(sourceId: string, channel: string, e: Event, at: Instant): (u: StreamStateUpdate)
    ensures u.sourceId == sourceId && u.channelName == channel && u.state == e.state && u.errorMessage == e.error
    ensures u.recordingPath.None? && u.timestamp == at
  {
    StreamStateUpdate(sourceId, channel, e.state, None, e.error, at)
  }

  /** The subject every lifecycle update goes to. */
  const StateSubject: string := NatsSubjects.StreamsState

  /** How one ffmpeg run ends: the process started, announced itself, and
      exited with a code; or starting it threw; or the wait for its exit was
      cancelled. */
  datatype Run = Exited(code: int) | StartFailed(message: string) | Cancelled

  /** One turn of the loop: the run, and whether the delay after a failed run
      completes rather than being cancelled. */
  datatype Attempt = Attempt(run: Run, delayCompletes: bool)

  /** How the worker stopped. */
  datatype Ending =
    | Declined   // no stream: the auth service refused or sent no key material
    | Completed  // ffmpeg exited with code 0
    | Stopping   // the service was stopped
    | Faulted    // an exception escaped
    | Running    // the given attempts ran out with the loop still going

  /** The delay after the `attempt`-th run: `Math.Min(d * attempt, d * 6)`
      seconds. */
  function Backoff(d: int, attempt: int): int {
    if d * attempt <= d * 6 then d * attempt else d * 6
  }

  function Starting0(): Event { Event(Starting, None) }
  function Ready0(): Event { Event(Ready, None) }

  /** The message published when ffmpeg exits with a non-zero code. */
  function ExitMessage(code: int): string {
    "FFmpeg exit code " + Text.IntToString(code)
  }

  /** The events one failed run publishes after "Starting". */
  function Failure(run: Run): seq<Event>
    requires !run.Cancelled? && run != Exited(0)
  {
    if run.Exited? then [Ready0(), Event(Failed, Some(ExitMessage(run.code)))]
    else [Event(Failed, Some(run.message))]
  }

  /** No "Stopped" among `es`, and every "Ready" right after a "Starting". */
  ghost predicate WellOrdered(es: seq<Event>) {
    && (forall i :: 0 <= i < |es| ==> es[i].state != Stopped)
    && (forall i :: 0 <= i < |es| && es[i].state == Ready ==> i > 0 && es[i - 1].state == Starting)
  }

  /** `RunStreamingLoopAsync` from its `done`-th run on, over the outcomes
      `attempts`: the events published, how the loop ended, and how many
      runs it made. Each run publishes "Starting", then "Ready" once the
      process is up; exit code 0 or a cancelled wait ends the loop; any
      other outcome publishes "Failed" and waits. A negative delay makes
      `Task.Delay` throw, which ends the loop with a fault; a cancelled delay
      ends it quietly. */
  function Loop(d: int, done: nat, attempts: seq<Attempt>): (r: (seq<Event>, Ending, nat))
    ensures r.1 in {Completed, Stopping, Faulted, Running}
    ensures r.2 <= |attempts| && (r.1 == Running ==> r.2 == |attempts|)
    ensures WellOrdered(r.0)
    ensures attempts != [] ==> r.2 >= 1 && |r.0| >= 2 && r.0[0] == Starting0()
    ensures attempts == [] <==> r.0 == []
    decreases |attempts|
  {
    if attempts == [] then ([], Running, 0)
    else
      var a := attempts[0];
      var attempt := done + 1;
      if a.run == Exited(0) || a.run.Cancelled? then ([Starting0(), Ready0()], if a.run.Cancelled? then Stopping else Completed, 1)
      else
        var es := [Starting0()] + Failure(a.run);
        if Backoff(d, attempt) < 0 then (es, Faulted, 1)
        else if !a.delayCompletes then (es, Stopping, 1)
        else
          var (rest, how, n) := Loop(d, attempt, attempts[1..]);
          (es + rest, how, n + 1)
  }

  /** The outcome of `ExecuteAsync`: the source state afterwards, the request
      sent, the command line ffmpeg runs with, the events published, how it
      ended, and how many ffmpeg runs it started. */
  datatype Execution = Execution(
    state: SourceState.State,
    request: Option<AuthRequest>,
    arguments: Option<string>,
    events: seq<Event>,
    ending: Ending,
    runs: nat)

  /** The session the worker streams with, from the registration, the auth
      service's answer and the options. */
  function SessionOf(registration: SourceState.Registration, response: AuthResponse, options: Options): (s: SourceState.StreamSession)
    requires response.aesKey.Some? && response.aesIv.Some?
    ensures s.channelName == registration.channelName && s.streamKey == response.streamKey
    ensures s.srtHost == response.srtHost && s.srtPort == response.srtPort
    ensures s.aesKey == response.aesKey.value && s.aesIv == response.aesIv.value
    ensures s.localRtmpUrl == options.localRtmpUrl && s.ffmpegExecutable == options.ffmpegExecutable
  {
    SourceState.StreamSession(registration.channelName, response.streamKey, response.srtHost, response.srtPort,
      response.aesKey.value, response.aesIv.value, options.localRtmpUrl, options.ffmpegExecutable)
  }

  /** The command line every run of a session uses, as the process manager
      builds it: the passphrase is derived once from the session key. */
  function CommandLine(session: SourceState.StreamSession): string {
    FfmpegArguments.BuildArguments(session, AesKeyMaterial.DerivePassphrase(session.aesKey))
  }

  /** The streaming loop, unless the service was stopped before its first
      run. */
  function Streaming(d: int, stoppedAtStart: bool, attempts: seq<Attempt>): (seq<Event>, Ending, nat) {
    if stoppedAtStart then ([], Stopping, 0) else Loop(d, 0, attempts)
  }

  /** `ExecuteAsync`. `response` is the first answer on the response subject,
      `None` when that subscription ends without one; `stoppedAtStart` says
      the service was stopped before the first run. */
  function Execute(state: SourceState.State, options: Options, response: Option<AuthResponse>, stoppedAtStart: bool,
                   attempts: seq<Attempt>): (r: Execution)
  {
    match SourceState.WaitForRegistration(state)
    case None => Execution(state, None, None, [], Running, 0)
    case Some(registration) =>
      var request := Request(state.sourceId, registration);
      if response.None? then Execution(state, Some(request), None, [], Faulted, 0)
      else
        var answer := response.value;
        if !answer.accepted || answer.aesKey.None? || answer.aesIv.None? then Execution(state, Some(request), None, [], Declined, 0)
        else
          var session := SessionOf(registration, answer, options);
          var (es, how, n) := Streaming(options.retryDelaySeconds, stoppedAtStart, attempts);
          var stopped := if how == Running then [] else [Event(Stopped, None)];
          Execution(SourceState.SetSession(state, session), Some(request), Some(CommandLine(session)), es + stopped, how, n)
  }

  // ---------------------------------------------------------------------------
  // Properties

  /** With a non-negative base delay the backoff grows by the base with each
      run up to the sixth and stays at six times the base from then on: it
      never decreases and never exceeds the cap. */
  lemma BackoffBounds(d: int, attempt: int)
    requires d >= 0 && attempt >= 1
    ensures 0 <= Backoff(d, attempt) <= 6 * d
    ensures Backoff(d, attempt) <= Backoff(d, attempt + 1)
    ensures Backoff(d, attempt) == if attempt <= 6 then d * attempt else 6 * d
  {
    assert d * attempt <= d * (attempt + 1);
    if attempt <= 6 {
      assert d * attempt <= d * 6;
    } else {
      assert d * attempt >= d * 6;
    }
  }

  /** A negative base delay makes the first delay negative, so the first
      failed run ends the loop with a fault. */
  lemma NegativeDelayFaults(d: int, attempts: seq<Attempt>)
    requires d < 0 && attempts != [] && attempts[0].run != Exited(0) && !attempts[0].run.Cancelled?
    ensures Loop(d, 0, attempts).1 == Faulted && Loop(d, 0, attempts).2 == 1
  {
    assert Backoff(d, 1) == 6 * d;
  }

  /** A clean exit ends the loop after "Starting" and "Ready", with no
      "Failed". */
  lemma CleanExitEndsLoop(d: int, done: nat, attempts: seq<Attempt>)
    requires attempts != [] && attempts[0].run == Exited(0)
    ensures Loop(d, done, attempts) == ([Starting0(), Ready0()], Completed, 1)
  {
  }

  /** A non-zero exit publishes "Failed" with the exit code, and when the
      delay is non-negative and completes, the next run follows. */
  lemma FailedRunRetries(d: int, done: nat, attempts: seq<Attempt>, code: int)
    requires |attempts| >= 2 && attempts[0] == Attempt(Exited(code), true) && code != 0
    requires Backoff(d, done + 1) >= 0
    ensures var (es, how, n) := Loop(d, done, attempts);
      var (rest, how', n') := Loop(d, done + 1, attempts[1..]);
      && es == [Starting0(), Ready0(), Event(Failed, Some(ExitMessage(code)))] + rest
      && how == how' && n == n' + 1
      && es[3] == Starting0()
  {
    var failed := [Starting0()] + Failure(attempts[0].run);
    assert failed == [Starting0(), Ready0(), Event(Failed, Some(ExitMessage(code)))];
    var next := Loop(d, done + 1, attempts[1..]);
    assert Loop(d, done, attempts) == (failed + next.0, next.1, next.2 + 1);
    assert next.0[0] == Starting0();
    assert (failed + next.0)[3] == next.0[0];
  }

  /** Number of events in `es` with the state `s`. */
  function CountState(es: seq<Event>, s: StreamLifecycle): nat
    decreases |es|
  {
    if es == [] then 0 else (if es[0].state == s then 1 else 0) + CountState(es[1..], s)
  }

  lemma {:induction false} CountAppend(a: seq<Event>, b: seq<Event>, s: StreamLifecycle)
    ensures CountState(a + b, s) == CountState(a, s) + CountState(b, s)
    decreases |a|
  {
    if a == [] {
      assert a + b == b;
    } else {
      assert (a + b)[1..] == a[1..] + b;
      CountAppend(a[1..], b, s);
    }
  }

  lemma CountOne(e: Event, s: StreamLifecycle)
    ensures CountState([e], s) == if e.state == s then 1 else 0
  {
    assert [e][1..] == [];
  }

  /** The events of a single run: one "Starting", at most one "Ready". */
  lemma CountRun(run: Run)
    ensures CountState([Starting0(), Ready0()], Starting) == 1 && CountState([Starting0(), Ready0()], Ready) == 1
    ensures run != Exited(0) && !run.Cancelled? ==>
      CountState([Starting0()] + Failure(run), Starting) == 1 && CountState([Starting0()] + Failure(run), Ready) <= 1
  {
    CountOne(Starting0(), Starting);
    CountOne(Starting0(), Ready);
    CountOne(Ready0(), Starting);
    CountOne(Ready0(), Ready);
    assert [Starting0(), Ready0()] == [Starting0()] + [Ready0()];
    CountAppend([Starting0()], [Ready0()], Starting);
    CountAppend([Starting0()], [Ready0()], Ready);
    if run != Exited(0) && !run.Cancelled? {
      var failed := Failure(run)[|Failure(run)| - 1];
      CountOne(failed, Starting);
      CountOne(failed, Ready);
      CountAppend([Starting0()], Failure(run), Starting);
      CountAppend([Starting0()], Failure(run), Ready);
      if run.Exited? {
        assert Failure(run) == [Ready0()] + [failed];
        CountAppend([Ready0()], [failed], Starting);
        CountAppend([Ready0()], [failed], Ready);
      } else {
        assert Failure(run) == [failed];
      }
    }
  }

  /** Every run publishes "Starting" exactly once, and "Ready" at most once:
      the loop's "Starting" events count its runs. */
  lemma {:induction false} OneStartingPerRun(d: int, done: nat, attempts: seq<Attempt>)
    ensures var (es, _, n) := Loop(d, done, attempts);
      CountState(es, Starting) == n && CountState(es, Ready) <= n
    decreases |attempts|
  {
    if attempts != [] {
      var a := attempts[0];
      CountRun(a.run);
      if a.run != Exited(0) && !a.run.Cancelled? && Backoff(d, done + 1) >= 0 && a.delayCompletes {
        var es := [Starting0()] + Failure(a.run);
        OneStartingPerRun(d, done + 1, attempts[1..]);
        CountAppend(es, Loop(d, done + 1, attempts[1..]).0, Starting);
        CountAppend(es, Loop(d, done + 1, attempts[1..]).0, Ready);
      }
    }
  }

  /** An unregistered source, a missing answer, a refusal or an answer
      without key material publishes nothing and records no session. */
  lemma NoStreamWithoutKeys(state: SourceState.State, options: Options, response: Option<AuthResponse>,
                            stoppedAtStart: bool, attempts: seq<Attempt>)
    requires response.None? || !response.value.accepted || response.value.aesKey.None? || response.value.aesIv.None?
    ensures var r := Execute(state, options, response, stoppedAtStart, attempts);
      r.events == [] && r.arguments.None? && r.state == state && r.ending in {Running, Faulted, Declined} && r.runs == 0
  {
  }

  /** With a registration and an answer carrying key material, the worker
      records a session holding the answer's port, stream key, key and IV
      under the registered channel, and runs that session's command line. It
      publishes one "Starting" per run and "Ready" only right after a
      "Starting"; once it has stopped, however it stopped, its last event is
      the only "Stopped". A service stopped before the first run publishes
      just "Stopped". */
  lemma ExecuteStreams(state: SourceState.State, options: Options, response: AuthResponse, stoppedAtStart: bool,
                       attempts: seq<Attempt>)
    requires state.registration.Some? && response.accepted && response.aesKey.Some? && response.aesIv.Some?
    ensures var r := Execute(state, options, Some(response), stoppedAtStart, attempts);
      && r.state.sourceId == state.sourceId && r.state.registration == state.registration
      && r.state.session.Some?
      && r.state.session.value.channelName == state.registration.value.channelName
      && r.state.session.value.streamKey == response.streamKey
      && r.state.session.value.srtPort == response.srtPort
      && r.state.session.value.aesKey == response.aesKey.value
      && r.state.session.value.aesIv == response.aesIv.value
      && r.arguments == Some(CommandLine(r.state.session.value))
      && r.ending != Declined
      && r.runs <= |attempts| && (r.ending == Running ==> r.runs == |attempts|)
      && CountState(r.events, Starting) == r.runs && CountState(r.events, Ready) <= r.runs
      && (forall i :: 0 <= i < |r.events| && r.events[i].state == Ready ==> i > 0 && r.events[i - 1].state == Starting)
      && (r.ending != Running ==>
            r.events[|r.events| - 1] == Event(Stopped, None) && CountState(r.events, Stopped) == 1)
      && (r.ending == Running ==> CountState(r.events, Stopped) == 0)
      && (stoppedAtStart ==> r.events == [Event(Stopped, None)] && r.ending == Stopping)
  {
    var d := options.retryDelaySeconds;
    var (es, how, n) := Streaming(d, stoppedAtStart, attempts);
    StoppedOnceAtEnd(d, stoppedAtStart, attempts);
    if stoppedAtStart {
      assert CountState([], Starting) == 0 && CountState([], Ready) == 0;
      CountAppend([], [Event(Stopped, None)], Starting);
      CountAppend([], [Event(Stopped, None)], Ready);
      CountOne(Event(Stopped, None), Starting);
      CountOne(Event(Stopped, None), Ready);
    } else {
      OneStartingPerRun(d, 0, attempts);
      var stopped := if how == Running then [] else [Event(Stopped, None)];
      CountAppend(es, stopped, Starting);
      CountAppend(es, stopped, Ready);
      if how != Running {
        CountOne(Event(Stopped, None), Starting);
        CountOne(Event(Stopped, None), Ready);
      }
    }
  }

  /** Once streaming has begun and the loop has ended, however it ended,
      "Stopped" is published exactly once, as the last event, and "Ready"
      only ever right after "Starting". */
  lemma StoppedOnceAtEnd(d: int, stoppedAtStart: bool, attempts: seq<Attempt>)
    ensures var (es, how, _) := Streaming(d, stoppedAtStart, attempts);
      var events := es + (if how == Running then [] else [Event(Stopped, None)]);
      && (how != Running ==>
            events[|events| - 1] == Event(Stopped, None) && CountState(events, Stopped) == 1)
      && (how == Running ==> CountState(events, Stopped) == 0)
      && (forall i :: 0 <= i < |events| && events[i].state == Ready ==> i > 0 && events[i - 1].state == Starting)
  {
    var (es, how, _) := Streaming(d, stoppedAtStart, attempts);
    NoStopped(es);
    CountAppend(es, [Event(Stopped, None)], Stopped);
    assert CountState([Event(Stopped, None)], Stopped) == 1 by {
      assert [Event(Stopped, None)][1..] == [];
    }
    if how == Running {
      assert es + [] == es;
    }
  }

  lemma {:induction false} NoStopped(es: seq<Event>)
    requires forall i :: 0 <= i < |es| ==> es[i].state != Stopped
    ensures CountState(es, Stopped) == 0
    decreases |es|
  {
    if es != [] {
      NoStopped(es[1..]);
    }
  }

  /** Every run of a session uses one command line, fixed by the session: its
      passphrase is the key's, and sessions whose keys share their first 16
      bytes get the same passphrase. */
  lemma CommandLineFromKey(s: SourceState.StreamSession, t: SourceState.StreamSession)
    requires |s.aesKey| >= 16 && |t.aesKey| >= 16 && s.aesKey[..16] == t.aesKey[..16]
    requires s.(aesKey := t.aesKey) == t
    ensures CommandLine(s) == CommandLine(t)
  {
    AesKeyMaterial.PassphraseDependsOnPrefix(s.aesKey, t.aesKey);
  }

  /** The command line carries the session's passphrase and reads back as
      the intended arguments whenever the URLs hold no backslash and the
      input URL no blank. */
  lemma CommandLineReadsBack(session: SourceState.StreamSession)
    requires FfmpegArguments.NoBackslash(FfmpegArguments.InputUrl(session))
    requires FfmpegArguments.NoBackslash(FfmpegArguments.SrtUrl(session))
    requires forall i :: 0 <= i < |FfmpegArguments.InputUrl(session)| ==>
      !FfmpegArguments.IsBlank(FfmpegArguments.InputUrl(session)[i])
    ensures FfmpegArguments.Split(CommandLine(session)) == FfmpegArguments.Intended(
      FfmpegArguments.InputUrl(session), AesKeyMaterial.DerivePassphrase(session.aesKey), FfmpegArguments.SrtUrl(session))
  {
    FfmpegArguments.PassphraseIsWord(session.aesKey);
    FfmpegArguments.AsWrittenWithoutBlanks(session, AesKeyMaterial.DerivePassphrase(session.aesKey));
  }

  /** A channel name with a blank, which registration accepts, reaches
      ffmpeg as two arguments: the worker's command line for the input URL
      `w1 + " " + w2` has fifteen arguments instead of fourteen. */
  lemma CommandLineSplitsBlankChannel(session: SourceState.StreamSession, w1: string, w2: string)
    requires FfmpegArguments.InputUrl(session) == w1 + " " + w2
    requires w1 != [] && w2 != [] && FfmpegArguments.IsWord(w1) && FfmpegArguments.IsWord(w2)
    requires FfmpegArguments.NoBackslash(FfmpegArguments.SrtUrl(session))
    ensures var args := FfmpegArguments.Split(CommandLine(session));
      && |args| == 15 && args[2] == w1 && args[3] == w2
      && args != FfmpegArguments.Intended(
           FfmpegArguments.InputUrl(session), AesKeyMaterial.DerivePassphrase(session.aesKey), FfmpegArguments.SrtUrl(session))
  {
    FfmpegArguments.PassphraseIsWord(session.aesKey);
    FfmpegArguments.AsWrittenSplitsInput(session, AesKeyMaterial.DerivePassphrase(session.aesKey), w1, w2);
  }
}

/** `ControlPlaneCertificateFactory`: the TLS certificate of the auth
    service's control plane is loaded from a configured file or generated
    self-signed, once, and then cached. The X.509 and RSA work is opaque: a
    certificate is represented by where it came from and, when generated, by
    its subject and validity window. The file system is two parameters:
    whether the configured file exists and whether loading it succeeds. */
module CertificateFactory {
  import opened Wrappers
  import opened Messages
  import Text
  import AuthState

  const TicksPerMinute: int := 60 * AuthState.TicksPerSecond
  const TicksPerDay: int := 24 * 60 * TicksPerMinute

  /** The largest instant a `DateTimeOffset` holds (the end of year 9999). */
  const MaxInstant: int := 3_155_378_975_999_999_999

  const DefaultSubject: string := "CN=CameraSuiteAuth"

  /** The exceptions the factory lets escape. */
  datatype CertificateError =
    | InvalidOperation(message: string)  // `InvalidOperationException`
    | Unreadable                         // loading the configured file threw
    | OutOfRange                         // `ArgumentOutOfRangeException` from the date arithmetic

  const TlsDisabled: CertificateError := InvalidOperation("TLS is not enabled.")
  const NoCertificate: CertificateError := InvalidOperation("TLS enabled but no certificate configured.")

  /** The TLS settings the factory reads. */
  datatype TlsSettings = TlsSettings(
    useTls: bool,
    certificatePath: Option<string>,
    certificatePassword: Option<string>,
    autoGenerate: bool,
    subject: Option<string>,
    validityDays: int)

  datatype Certificate =
    | Loaded(path: string, password: Option<string>)
    | SelfSigned(subject: string, notBefore: Instant, notAfter: Instant)

  /** `GenerateSelfSignedCertificate`: valid from five minutes before `now`
      for at least one day; fails when the end of the window is past the
      largest representable instant or its start before the smallest. */
  function Generate(settings: TlsSettings, now: Instant): (r: Result<Certificate, CertificateError>)
    requires 0 <= now <= MaxInstant
  {
    var days := if settings.validityDays < 1 then 1 else settings.validityDays;
    var notBefore := now - 5 * TicksPerMinute;
    var notAfter := now + days * TicksPerDay;
    if notBefore < 0 || notAfter > MaxInstant then Failure(OutOfRange)
    else Success(SelfSigned(if settings.subject.Some? then settings.subject.value else DefaultSubject, notBefore, notAfter))
  }

  /** `GetOrCreateCertificate` on the cached certificate `cache`: returns the
      cache afterwards and the certificate or the exception that escaped. */
  function GetOrCreate(cache: Option<Certificate>, settings: TlsSettings, fileExists: bool, loads: bool,
                       now: Instant): (r: (Option<Certificate>, Result<Certificate, CertificateError>))
    requires 0 <= now <= MaxInstant
    ensures r.1.Success? ==> r.0 == Some(r.1.value)
    ensures r.1.Failure? ==> r.0 == cache
  {
    if !settings.useTls then (cache, Failure(TlsDisabled))
    else if cache.Some? then (cache, Success(cache.value))
    else if !Text.IsNullOrWhiteSpace(settings.certificatePath) && fileExists then
      if !loads then (cache, Failure(Unreadable))
      else
        var password := if Text.IsNullOrEmpty(settings.certificatePassword) then None else settings.certificatePassword;
        var c := Loaded(settings.certificatePath.value, password);
        (Some(c), Success(c))
    else if !settings.autoGenerate then (cache, Failure(NoCertificate))
    else match Generate(settings, now)
      case Success(c) => (Some(c), Success(c))
      case Failure(e) => (cache, Failure(e))
  }

  // ---------------------------------------------------------------------------
  // Properties

  /** With TLS disabled every call fails, whatever is cached. */
  lemma TlsDisabledAlwaysFails(cache: Option<Certificate>, settings: TlsSettings, fileExists: bool, loads: bool,
                               now: Instant)
    requires 0 <= now <= MaxInstant && !settings.useTls
    ensures GetOrCreate(cache, settings, fileExists, loads, now) == (cache, Failure(TlsDisabled))
  {
  }

  /** Once a certificate is cached every later call returns that same
      certificate, whatever the file system and the clock say. */
  lemma CachedCertificateSticks(settings: TlsSettings, e1: bool, l1: bool, t1: Instant, e2: bool, l2: bool,
                                t2: Instant)
    requires 0 <= t1 <= MaxInstant && 0 <= t2 <= MaxInstant && settings.useTls
    ensures var (cache, first) := GetOrCreate(None, settings, e1, l1, t1);
      first.Success? ==> GetOrCreate(cache, settings, e2, l2, t2) == (cache, first)
  {
  }

  /** A non-blank path to an existing, readable file is loaded in preference
      to generating, whether or not generation is enabled; an empty password
      counts as none. */
  lemma ExistingFilePreferred(settings: TlsSettings, now: Instant)
    requires 0 <= now <= MaxInstant && settings.useTls
    requires !Text.IsNullOrWhiteSpace(settings.certificatePath)
    ensures var r := GetOrCreate(None, settings, true, true, now).1;
      && r.Success? && r.value.Loaded? && r.value.path == settings.certificatePath.value
      && (r.value.password.None? <==> Text.IsNullOrEmpty(settings.certificatePassword))
  {
  }

  /** Without a usable file and with generation off the call fails and
      nothing is cached. */
  lemma NothingConfiguredFails(settings: TlsSettings, fileExists: bool, loads: bool, now: Instant)
    requires 0 <= now <= MaxInstant && settings.useTls && !settings.autoGenerate
    requires Text.IsNullOrWhiteSpace(settings.certificatePath) || !fileExists
    ensures GetOrCreate(None, settings, fileExists, loads, now) == (None, Failure(NoCertificate))
  {
  }

  /** A generated certificate is valid from five minutes before `now` until
      a whole number of days, at least one, after it; its window therefore
      contains `now` and is never empty. Its subject defaults to
      "CN=CameraSuiteAuth". */
  lemma GeneratedWindow(settings: TlsSettings, now: Instant)
    requires 0 <= now <= MaxInstant
    ensures var r := Generate(settings, now);
      r.Success? ==>
        && r.value.SelfSigned?
        && r.value.notBefore == now - 5 * TicksPerMinute
        && r.value.notBefore < now < r.value.notAfter
        && (r.value.notAfter - now) % TicksPerDay == 0
        && (r.value.notAfter - now) / TicksPerDay == (if settings.validityDays < 1 then 1 else settings.validityDays)
        && (settings.subject.None? ==> r.value.subject == DefaultSubject)
    ensures Generate(settings, now).Failure? <==>
      now < 5 * TicksPerMinute
      || now + (if settings.validityDays < 1 then 1 else settings.validityDays) * TicksPerDay > MaxInstant
  {
  }
}

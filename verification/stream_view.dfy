/** `StreamViewModel`: the viewer's record of one announced stream. Its
    identity and connection fields are copied from announcements; its
    status, last error and passphrase are observable properties that raise a
    change notification only when their value actually changes. The media
    player it also holds belongs to the playback layer and is not part of
    this model. */
module StreamView {
  import opened Wrappers
  import opened Messages
  import AesKeyMaterial

  const Pending: string := "Pending"

  datatype View = View(
    sourceId: string,
    channelName: string,
    displayName: string,
    srtHost: string,
    srtPort: int,
    streamKey: string,
    status: string,
    lastError: Option<string>,
    passphrase: Option<string>)

  /** A view model as constructed: empty strings, port 0, status "Pending",
      no error and no passphrase. */
  function Fresh(): (v: View)
    ensures v.status == Pending && v.passphrase.None? && v.lastError.None?
    ensures v.sourceId == v.channelName == v.displayName == v.srtHost == v.streamKey == ""
    ensures v.srtPort == 0
  {
    View("", "", "", "", 0, "", Pending, None, None)
  }

  /** `SetField`: stores `value` and reports a change exactly when it differs
      from what was stored. */
  function SetField<T(==)>(storage: T, value: T): (r: (T, bool))
    ensures r.0 == value
    ensures r.1 <==> storage != value
  {
    if storage == value then (storage, false) else (value, true)
  }

  /** Setting a property to the value it already holds changes nothing and
      raises nothing, so a repeated assignment is silent. */
  lemma SetFieldTwice<T>(storage: T, value: T)
    ensures var (s1, _) := SetField(storage, value);
      SetField(s1, value) == (s1, false)
    ensures SetField(storage, storage) == (storage, false)
  {
  }

  /** The property names in the order change notifications are raised. */
  const IdentityNames: seq<string> := ["SourceId", "ChannelName", "DisplayName", "SrtHost", "SrtPort", "StreamKey"]

  /** The `Status` setter; returns the view and the notifications raised. */
  function SetStatus(v: View, status: string): (r: (View, seq<string>)) {
    var (s, changed) := SetField(v.status, status);
    (v.(status := s), if changed then ["Status"] else [])
  }

  /** The `LastError` setter. */
  function SetLastError(v: View, error: Option<string>): (r: (View, seq<string>)) {
    var (e, changed) := SetField(v.lastError, error);
    (v.(lastError := e), if changed then ["LastError"] else [])
  }

  /** The passphrase an announcement carries: derived from its key when the
      key is present and non-empty. */
  function AnnouncedPassphrase(a: StreamAnnouncement): Option<string> {
    if a.aesKey.Some? && |a.aesKey.value| > 0 then Some(AesKeyMaterial.DerivePassphrase(a.aesKey.value)) else None
  }

  /** `UpdateFromAnnouncement`: copies the six identity and connection
      fields; replaces the passphrase only when the announcement carries a
      non-empty key. Returns the view and the notifications raised: the
      passphrase's when it changed, then one per copied field, changed or
      not. */
  function UpdateFromAnnouncement(v: View, a: StreamAnnouncement): (r: (View, seq<string>))
    ensures var u := r.0;
      && u.sourceId == a.sourceId && u.channelName == a.channelName && u.displayName == a.displayName
      && u.srtHost == a.srtHost && u.srtPort == a.srtPort && u.streamKey == a.streamKey
    ensures r.0.status == v.status && r.0.lastError == v.lastError
    ensures a.aesKey.None? || a.aesKey.value == [] ==> r.0.passphrase == v.passphrase
    ensures a.aesKey.Some? && a.aesKey.value != [] ==> r.0.passphrase == Some(AesKeyMaterial.DerivePassphrase(a.aesKey.value))
    ensures |r.1| >= 6 && r.1[|r.1| - 6..] == IdentityNames
    ensures r.1[..|r.1| - 6] == (if r.0.passphrase != v.passphrase then ["Passphrase"] else [])
  {
    var announced := AnnouncedPassphrase(a);
    var (p, changed) := SetField(v.passphrase, if announced.Some? then announced else v.passphrase);
    var u := v.(sourceId := a.sourceId, channelName := a.channelName, displayName := a.displayName,
                srtHost := a.srtHost, srtPort := a.srtPort, streamKey := a.streamKey, passphrase := p);
    (u, (if changed then ["Passphrase"] else []) + IdentityNames)
  }

  /** The view after `UpdateFromAnnouncement`, without the notifications. */
  function Apply(v: View, a: StreamAnnouncement): View {
    UpdateFromAnnouncement(v, a).0
  }

  /** Applying the same announcement again changes nothing and raises no
      passphrase notification. */
  lemma UpdateIdempotent(v: View, a: StreamAnnouncement)
    ensures var (u, _) := UpdateFromAnnouncement(v, a);
      UpdateFromAnnouncement(u, a) == (u, IdentityNames)
  {
  }

  /** The passphrase a view ends up with depends only on the first 16 bytes of
      the announced key: two keys of at least 16 bytes give the same
      passphrase exactly when they agree there. */
  lemma PassphraseFromKeyPrefix(v: View, a: StreamAnnouncement, b: StreamAnnouncement)
    requires a.aesKey.Some? && b.aesKey.Some? && |a.aesKey.value| >= 16 && |b.aesKey.value| >= 16
    ensures UpdateFromAnnouncement(v, a).0.passphrase == UpdateFromAnnouncement(v, b).0.passphrase
        <==> a.aesKey.value[..16] == b.aesKey.value[..16]
  {
    AesKeyMaterial.PassphraseDependsOnPrefix(a.aesKey.value, b.aesKey.value);
  }
}

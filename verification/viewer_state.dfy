/** `ViewerState`: the viewer's list of streams. Announcements are upserted
    and state updates applied to the first entry whose source id and channel
    name equal the message's, ignoring case but not whitespace. The UI
    dispatcher only decides on which thread this runs, so each operation is
    one step on the list. A stream view model is a shared object; the model
    returns its position in the list in place of the reference. */
module ViewerState {
  import opened Wrappers
  import opened Messages
  import opened StreamView
  import Text

  /** The entry `v` belongs to the stream named by `sourceId` and
      `channelName`. */
  predicate Matches(v: View, sourceId: string, channelName: string) {
    Text.EqualsIgnoreCase(v.sourceId, sourceId) && Text.EqualsIgnoreCase(v.channelName, channelName)
  }

  /** `FirstOrDefault` over the list: the position of the first match. */
  function FirstMatch(streams: seq<View>, sourceId: string, channelName: string): (r: Option<nat>)
    ensures r.Some? ==> r.value < |streams| && Matches(streams[r.value], sourceId, channelName)
    ensures r.Some? ==> forall j :: 0 <= j < r.value ==> !Matches(streams[j], sourceId, channelName)
    ensures r.None? ==> forall j :: 0 <= j < |streams| ==> !Matches(streams[j], sourceId, channelName)
  {
    if streams == [] then None
    else if Matches(streams[0], sourceId, channelName) then Some(0)
    else
      match FirstMatch(streams[1..], sourceId, channelName)
      case None => None
      case Some(i) => Some(i + 1)
  }

  /** `UpsertStream`: updates the first matching entry in place, or adds the
      factory's fresh view model, updated from the announcement, at the end.
      Returns the list and the position of the entry it upserted, which
      always exists. */
  function UpsertStream(streams: seq<View>, a: StreamAnnouncement, created: View): (r: (seq<View>, nat))
    ensures r.1 < |r.0|
    ensures r.0[r.1] == Apply(if r.1 < |streams| then streams[r.1] else created, a)
    ensures FirstMatch(streams, a.sourceId, a.channelName).None? ==> |r.0| == |streams| + 1 && r.1 == |streams|
    ensures FirstMatch(streams, a.sourceId, a.channelName).Some? ==> |r.0| == |streams| && r.1 < |streams|
    ensures forall j :: 0 <= j < |streams| && j != r.1 ==> r.0[j] == streams[j]
  {
    match FirstMatch(streams, a.sourceId, a.channelName)
    case None => (streams + [Apply(created, a)], |streams|)
    case Some(i) => (streams[i := Apply(streams[i], a)], i)
  }

  /** `UpdateState`: on the first matching entry, sets the status to the
      lifecycle's name and the last error to the update's error message, a
      missing one included, then runs the caller's mutator; with no match the
      list is unchanged and nothing is returned. */
  function UpdateState(streams: seq<View>, u: StreamStateUpdate, mutator: Option<View -> View>): (r: (seq<View>, Option<nat>))
    ensures |r.0| == |streams|
    ensures r.1 == FirstMatch(streams, u.sourceId, u.channelName)
    ensures r.1.None? ==> r.0 == streams
    ensures forall j :: 0 <= j < |streams| && Some(j) != r.1 ==> r.0[j] == streams[j]
  {
    match FirstMatch(streams, u.sourceId, u.channelName)
    case None => (streams, None)
    case Some(i) =>
      var v := SetLastError(SetStatus(streams[i], LifecycleName(u.state)).0, u.errorMessage).0;
      var v' := if mutator.Some? then mutator.value(v) else v;
      (streams[i := v'], Some(i))
  }

  // ---------------------------------------------------------------------------
  // Properties

  /** The upserted entry is the one later lookups of the announced stream
      find. */
  lemma UpsertThenFind(streams: seq<View>, a: StreamAnnouncement, created: View)
    ensures var (after, i) := UpsertStream(streams, a, created);
      FirstMatch(after, a.sourceId, a.channelName) == Some(i)
  {
    var (after, i) := UpsertStream(streams, a, created);
    UpsertedIds(streams, a, created);
    forall j | 0 <= j < i
      ensures !Matches(after[j], a.sourceId, a.channelName)
    {
      assert after[j] == streams[j];
    }
    FirstMatchAt(after, a.sourceId, a.channelName, i);
  }

  /** The upserted entry carries the announced ids, and no entry before it
      names the announced stream. */
  lemma UpsertedIds(streams: seq<View>, a: StreamAnnouncement, created: View)
    ensures var (after, i) := UpsertStream(streams, a, created);
      && after[i].sourceId == a.sourceId && after[i].channelName == a.channelName
      && Matches(after[i], a.sourceId, a.channelName)
      && forall j :: 0 <= j < i ==> !Matches(streams[j], a.sourceId, a.channelName)
  {
  }

  /** A match with no match before it is the first match. */
  lemma FirstMatchAt(streams: seq<View>, sourceId: string, channelName: string, i: nat)
    requires i < |streams| && Matches(streams[i], sourceId, channelName)
    requires forall j :: 0 <= j < i ==> !Matches(streams[j], sourceId, channelName)
    ensures FirstMatch(streams, sourceId, channelName) == Some(i)
  {
    var r := FirstMatch(streams, sourceId, channelName);
    assert r.Some?;
    assert Matches(streams[r.value], sourceId, channelName);
  }

  /** Announcing a stream again does not add a second entry for it. */
  lemma UpsertTwiceAddsOnce(streams: seq<View>, a: StreamAnnouncement, c1: View, c2: View)
    ensures var (once, i) := UpsertStream(streams, a, c1);
      var (twice, j) := UpsertStream(once, a, c2);
      |twice| == |once| && j == i
  {
    UpsertThenFind(streams, a, c1);
  }

  /** No two entries name the same stream. */
  ghost predicate Distinct(streams: seq<View>) {
    forall i, j :: 0 <= i < j < |streams| ==>
      !Matches(streams[j], streams[i].sourceId, streams[i].channelName)
  }

  /** Upserting keeps the entries distinct: a list built only by upserts holds
      one entry per stream. */
  lemma UpsertKeepsDistinct(streams: seq<View>, a: StreamAnnouncement, created: View)
    requires Distinct(streams)
    ensures Distinct(UpsertStream(streams, a, created).0)
  {
    var (after, k) := UpsertStream(streams, a, created);
    UpsertedIds(streams, a, created);
    forall i, j | 0 <= i < j < |after|
      ensures !Matches(after[j], after[i].sourceId, after[i].channelName)
    {
      if i == k {
        OthersDoNotMatch(streams, a, created, j);
        assert after[j] == streams[j];
      } else if j == k {
        OthersDoNotMatch(streams, a, created, i);
        assert after[i] == streams[i];
      } else {
        assert after[i] == streams[i] && after[j] == streams[j];
      }
    }
  }

  /** In a distinct list, no entry other than the upserted one names the
      announced stream. */
  lemma OthersDoNotMatch(streams: seq<View>, a: StreamAnnouncement, created: View, other: nat)
    requires Distinct(streams) && other < |streams| && other != UpsertStream(streams, a, created).1
    ensures !Matches(streams[other], a.sourceId, a.channelName)
  {
    var k := UpsertStream(streams, a, created).1;
    if k < |streams| {
      assert Matches(streams[k], a.sourceId, a.channelName);
      if other < k {
        assert !Matches(streams[k], streams[other].sourceId, streams[other].channelName);
      } else {
        assert !Matches(streams[other], streams[k].sourceId, streams[k].channelName);
      }
    }
  }

  /** A state update reaches the announced stream: after an upsert, the
      update for the same ids lands on the upserted entry and records the
      lifecycle name and the error message. */
  lemma UpdateAfterUpsert(streams: seq<View>, a: StreamAnnouncement, created: View, u: StreamStateUpdate)
    requires u.sourceId == a.sourceId && u.channelName == a.channelName
    ensures var (after, i) := UpsertStream(streams, a, created);
      var (updated, hit) := UpdateState(after, u, None);
      && hit == Some(i)
      && updated[i].status == LifecycleName(u.state)
      && updated[i].lastError == u.errorMessage
      && updated[i].sourceId == a.sourceId && updated[i].channelName == a.channelName
  {
    UpsertThenFind(streams, a, created);
  }

  /** Ids that differ only in letter case name the same stream, while ids
      that differ in surrounding whitespace do not: whatever entry matches a
      stream also matches its upper-cased ids, and never the ids with a blank
      added in front of the source id or after the channel name. */
  lemma CaseButNotSpaceIgnored(v: View, sourceId: string, channelName: string)
    requires Matches(v, sourceId, channelName)
    ensures Matches(v, Text.Fold(sourceId), Text.Fold(channelName))
    ensures !Matches(v, " " + sourceId, channelName)
    ensures !Matches(v, sourceId, channelName + " ")
  {
    FoldTwice(sourceId);
    FoldTwice(channelName);
    assert |Text.Fold(" " + sourceId)| != |Text.Fold(v.sourceId)|;
    assert |Text.Fold(channelName + " ")| != |Text.Fold(v.channelName)|;
  }

  lemma FoldTwice(s: string)
    ensures Text.Fold(Text.Fold(s)) == Text.Fold(s)
  {
  }
}

/** `MediamtxManager`: the viewer host's media relay. On first start it
    preallocates a run of SRT listener slots, each with fresh key material,
    writes the relay's configuration with one path per slot, and from then on
    registers announced streams against those slots. The slots are what the
    viewer announces to the auth service in its hello.

    Starting and stopping the relay process, and the file system, are not
    part of this model: whether the configuration file could be written is
    an input, and the configuration is kept as its list of lines. */
module Mediamtx {
  import opened Wrappers
  import opened Encoding
  import opened Messages
  import opened AesKeyMaterial
  import Text
  import RecordingPath
  import StreamView
  import AuthState

  /** Random bytes consumed by one `AesKeyMaterial.Create`. */
  const MaterialBytes: nat := KeySize + IvSize

  /** `MediamtxListenerSlot`: a port and its key material; the slot's SRT
      passphrase is the one derived from the key. */
  datatype Slot = Slot(port: int, material: KeyMaterial) {
    function Passphrase(): string { material.ToPassphrase() }
  }

  /** The options the manager reads. The preallocation count and the API
      port are read by the manager but not declared by the options class, so
      they are plain inputs here. */
  datatype Settings = Settings(
    rangeStart: int,
    rangeEnd: int,
    preallocated: int,
    recordRoot: string,
    apiPort: int)

  /** The exceptions that escape `EnsureRunningAsync`. */
  datatype Fault =
    | EmptyRange         // `InvalidOperationException` from `InitializeSlots`
    | ConfigWriteFailed  // writing the configuration file threw

  const EmptyRangeMessage: string := "SRT port range is empty. Please adjust Auth.SrtPortRangeStart/End."

  /** The manager: its slots in allocation order, the active streams keyed by
      case-folded channel name, the once-flag, and the configuration last
      written. */
  datatype Manager = Manager(
    slots: seq<Slot>,
    activeStreams: map<string, int>,
    initialized: bool,
    config: Option<seq<string>>)

  function Initial(): Manager {
    Manager([], map[], false, None)
  }

  // ---------------------------------------------------------------------------
  // Slot preallocation

  /** The number of ports in the configured range, zero when it is empty. */
  function RangeSize(s: Settings): (n: nat)
    ensures n == 0 <==> s.rangeEnd < s.rangeStart
    ensures n > 0 ==> n == s.rangeEnd - s.rangeStart + 1
  {
    if s.rangeEnd - s.rangeStart + 1 < 0 then 0 else s.rangeEnd - s.rangeStart + 1
  }

  /** `Math.Clamp(PreallocatedSrtListeners, 1, size)`. */
  function SlotCount(s: Settings): (n: nat)
    requires RangeSize(s) > 0
    ensures 1 <= n <= RangeSize(s)
    ensures 1 <= s.preallocated <= RangeSize(s) ==> n == s.preallocated
    ensures s.preallocated < 1 ==> n == 1
    ensures s.preallocated > RangeSize(s) ==> n == RangeSize(s)
  {
    if s.preallocated < 1 then 1 else if s.preallocated > RangeSize(s) then RangeSize(s) else s.preallocated
  }

  /** `count` slots on consecutive ports from `port`, each with key material
      drawn from the next 48 random bytes. */
  function NewSlots(port: int, random: seq<byte>, count: nat): (r: seq<Slot>)
    requires |random| >= MaterialBytes * count
    ensures |r| == count
    ensures forall i :: 0 <= i < count ==> r[i].port == port + i
    ensures forall i :: 0 <= i < count ==> |r[i].material.key| == KeySize && |r[i].material.iv| == IvSize
    decreases count
  {
    if count == 0 then []
    else [Slot(port, Create(random))] + NewSlots(port + 1, random[MaterialBytes..], count - 1)
  }

  /** The slots lie on consecutive ports from the start of the range, all
      inside it, and carry full-size key material. */
  ghost predicate LaidOut(slots: seq<Slot>, s: Settings) {
    && RangeSize(s) > 0
    && |slots| == SlotCount(s)
    && (forall i :: 0 <= i < |slots| ==> slots[i].port == s.rangeStart + i)
    && (forall i :: 0 <= i < |slots| ==> s.rangeStart <= slots[i].port <= s.rangeEnd)
    && (forall i :: 0 <= i < |slots| ==> |slots[i].material.key| == KeySize && |slots[i].material.iv| == IvSize)
  }

  /** `InitializeSlots`: nothing to do when slots exist; an empty range
      fails; otherwise `SlotCount` slots are laid out from the range start. */
  function InitializeSlots(slots: seq<Slot>, s: Settings, random: seq<byte>): (r: Result<seq<Slot>, Fault>)
    requires slots == [] && RangeSize(s) > 0 ==> |random| >= MaterialBytes * SlotCount(s)
    ensures slots != [] ==> r == Success(slots)
    ensures slots == [] ==> (r.Failure? <==> RangeSize(s) == 0)
    ensures r.Failure? ==> r.error == EmptyRange
    ensures slots == [] && r.Success? ==> LaidOut(r.value, s)
  {
    if slots != [] then Success(slots)
    else if RangeSize(s) == 0 then Failure(EmptyRange)
    else Success(NewSlots(s.rangeStart, random, SlotCount(s)))
  }

  /** `GetSlotSnapshot`: port, key and IV of every slot, in slot order. */
  function Snapshot(slots: seq<Slot>): (r: seq<ListenerSlotInfo>)
    ensures |r| == |slots|
    ensures forall i :: 0 <= i < |slots| ==>
      r[i].port == slots[i].port && AuthState.MaterialOf(r[i]) == slots[i].material
  {
    seq(|slots|, i requires 0 <= i < |slots| => ListenerSlotInfo(slots[i].port, slots[i].material.key, slots[i].material.iv))
  }

  /** The auth service accepts every preallocated slot when it is configured
      with the same port range: reconciling the snapshot gives exactly the
      slots' ports, each with its slot's key material, so a lease on a port
      carries the key the relay's listener on that port expects. */
  lemma SnapshotReconciles(slots: seq<Slot>, s: Settings, p: int)
    requires LaidOut(slots, s)
    ensures var m := AuthState.SlotMap(Snapshot(slots), s.rangeStart, s.rangeEnd);
      && (p in m <==> exists i :: 0 <= i < |slots| && slots[i].port == p)
      && (p in m ==> m[p] == slots[p - s.rangeStart].material
                     && DerivePassphrase(m[p].key) == slots[p - s.rangeStart].Passphrase())
  {
    var snap := Snapshot(slots);
    AuthState.SlotMapLastWins(snap, s.rangeStart, s.rangeEnd, p);
    var last := AuthState.LastAnnouncement(snap, p);
    if last.Some? {
      assert slots[last.value].port == p;
    }
    if s.rangeStart <= p < s.rangeStart + |slots| {
      assert snap[p - s.rangeStart].port == p;
    }
  }

  // ---------------------------------------------------------------------------
  // Configuration

  /** The recording path template of a port's path entry, with the
      separators turned into forward slashes. */
  function RecordPath(root: string, port: int): string {
    var portDir := "port-" + Text.IntToString(port);
    assert portDir[1] == 'o';
    var path := RecordingPath.Combine(RecordingPath.Combine(RecordingPath.Combine(root, portDir), "%Y%m%d"), "%H%M%S.ts");
    seq(|path|, i requires 0 <= i < |path| => if path[i] == '\\' then '/' else path[i])
  }

  function PathName(port: int): string {
    "  slot_" + Text.IntToString(port) + ":"
  }

  function ListenerSource(port: int): string {
    "    source: srt://:" + Text.IntToString(port) + "?mode=listener"
  }

  /** The seven lines of one slot's path entry. */
  function SlotEntry(slot: Slot, root: string): (r: seq<string>)
    ensures |r| == 7
  {
    [ PathName(slot.port),
      ListenerSource(slot.port),
      "    srtPassphrase: \"" + slot.Passphrase() + "\"",
      "    srtPbKeyLen: 32",
      "    record: true",
      "    recordPath: " + RecordPath(root, slot.port),
      "    recordFormat: mpegts" ]
  }

  /** Consecutive blocks of seven lines, one after another. */
  function Flatten<T>(blocks: seq<seq<T>>): (r: seq<T>)
    requires forall j :: 0 <= j < |blocks| ==> |blocks[j]| == 7
    ensures |r| == 7 * |blocks|
  {
    if blocks == [] then [] else blocks[0] + Flatten(blocks[1..])
  }

  /** Line k of block i is line 7i + k of the whole. */
  lemma {:induction false} FlattenAt<T>(blocks: seq<seq<T>>, i: nat, k: nat)
    requires forall j :: 0 <= j < |blocks| ==> |blocks[j]| == 7
    requires i < |blocks| && k < 7
    ensures Flatten(blocks)[7 * i + k] == blocks[i][k]
    decreases i
  {
    if i > 0 {
      FlattenAt(blocks[1..], i - 1, k);
    }
  }

  /** The entries of `BuildPaths`, one block per slot in slot order. */
  function Entries(slots: seq<Slot>, root: string): (r: seq<string>)
    ensures |r| == 7 * |slots|
  {
    Flatten(seq(|slots|, j requires 0 <= j < |slots| => SlotEntry(slots[j], root)))
  }

  /** `BuildPaths`. */
  function BuildPaths(slots: seq<Slot>, root: string): seq<string> {
    ["paths:"] + Entries(slots, root)
  }

  /** The whole configuration `WriteConfigAsync` writes. */
  function Config(slots: seq<Slot>, s: Settings): seq<string> {
    ["logLevel: info", "readTimeout: 10s", "api: yes", "apiAddress: 127.0.0.1:" + Text.IntToString(s.apiPort)]
      + BuildPaths(slots, s.recordRoot)
  }

  /** Line k of slot i's entry is line 5 + 7i + k of the configuration. */
  lemma ConfigLine(slots: seq<Slot>, s: Settings, i: nat, k: nat)
    requires i < |slots| && k < 7
    ensures |Config(slots, s)| == 5 + 7 * |slots|
    ensures Config(slots, s)[5 + 7 * i + k] == SlotEntry(slots[i], s.recordRoot)[k]
  {
    var blocks := seq(|slots|, j requires 0 <= j < |slots| => SlotEntry(slots[j], s.recordRoot));
    FlattenAt(blocks, i, k);
  }

  /** Each slot has a path named after its port, listening on that port with
      that slot's passphrase. */
  lemma ConfigDescribesSlot(slots: seq<Slot>, s: Settings, i: nat)
    requires i < |slots|
    ensures var c := Config(slots, s);
      && |c| == 5 + 7 * |slots|
      && c[4] == "paths:"
      && c[5 + 7 * i] == PathName(slots[i].port)
      && c[6 + 7 * i] == ListenerSource(slots[i].port)
      && c[7 + 7 * i] == "    srtPassphrase: \"" + DerivePassphrase(slots[i].material.key) + "\""
  {
    ConfigLine(slots, s, i, 0);
    ConfigLine(slots, s, i, 1);
    ConfigLine(slots, s, i, 2);
    SlotEntryHead(slots[i], s.recordRoot);
  }

  /** The first three lines of a slot's entry. */
  lemma SlotEntryHead(slot: Slot, root: string)
    ensures var e := SlotEntry(slot, root);
      && e[0] == PathName(slot.port)
      && e[1] == ListenerSource(slot.port)
      && e[2] == "    srtPassphrase: \"" + DerivePassphrase(slot.material.key) + "\""
  {
  }

  /** Path names are distinct for distinct ports, so the relay sees one path
      per slot. */
  lemma PathNamesDistinct(p: int, q: int)
    ensures PathName(p) == PathName(q) <==> p == q
  {
    if PathName(p) == PathName(q) {
      var a, b := Text.IntToString(p), Text.IntToString(q);
      assert PathName(p) == "  slot_" + a + ":";
      assert |a| == |b|;
      assert a == PathName(p)[7..|PathName(p)| - 1];
      assert b == PathName(q)[7..|PathName(q)| - 1];
      Text.IntToStringInjective(p, q);
    }
  }

  // ---------------------------------------------------------------------------
  // Start-up

  /** `EnsureRunningAsync` as far as this model goes: the first successful
      call lays out the slots, writes the configuration and sets the
      once-flag; later calls change nothing. A failed configuration write
      keeps the slots, so a retry reuses them. */
  function EnsureRunning(m: Manager, s: Settings, random: seq<byte>, writeOk: bool): (r: (Manager, Option<Fault>))
    requires !m.initialized && m.slots == [] && RangeSize(s) > 0 ==> |random| >= MaterialBytes * SlotCount(s)
    ensures m.initialized ==> r == (m, None)
    ensures r.0.activeStreams == m.activeStreams
    ensures r.1.None? <==> r.0.initialized
  {
    if m.initialized then (m, None)
    else match InitializeSlots(m.slots, s, random)
      case Failure(e) => (m, Some(e))
      case Success(slots) =>
        if writeOk then (m.(slots := slots, initialized := true, config := Some(Config(slots, s))), None)
        else (m.(slots := slots), Some(ConfigWriteFailed))
  }

  /** What the manager guarantees between calls: slots, once made, are laid
      out for the settings, and an initialised manager has slots and has
      written their configuration. */
  ghost predicate Consistent(m: Manager, s: Settings) {
    && (m.slots != [] ==> LaidOut(m.slots, s))
    && (m.initialized ==> m.slots != [] && m.config == Some(Config(m.slots, s)))
  }

  lemma EnsureRunningConsistent(m: Manager, s: Settings, random: seq<byte>, writeOk: bool)
    requires Consistent(m, s)
    requires !m.initialized && m.slots == [] && RangeSize(s) > 0 ==> |random| >= MaterialBytes * SlotCount(s)
    ensures Consistent(EnsureRunning(m, s, random, writeOk).0, s)
  {
  }

  /** An empty port range fails the first start and changes nothing. */
  lemma EmptyRangeFails(s: Settings, random: seq<byte>, writeOk: bool)
    requires RangeSize(s) == 0
    ensures EnsureRunning(Initial(), s, random, writeOk) == (Initial(), Some(EmptyRange))
  {
  }

  /** The slots are made and the configuration written once: a second call
      after a successful one returns the same manager, whatever randomness
      and file system it meets. */
  lemma StartsOnce(m: Manager, s: Settings, r1: seq<byte>, r2: seq<byte>, w2: bool)
    requires !m.initialized && m.slots == [] && RangeSize(s) > 0 ==> |r1| >= MaterialBytes * SlotCount(s)
    ensures var (m1, f1) := EnsureRunning(m, s, r1, true);
      f1.None? ==> EnsureRunning(m1, s, r2, w2) == (m1, None)
  {
  }

  /** After a failed configuration write, the retry keeps the slots made by
      the first attempt: their keys, already announced, are not replaced. */
  lemma RetryKeepsSlots(s: Settings, r1: seq<byte>, r2: seq<byte>, w2: bool)
    requires RangeSize(s) > 0 ==> |r1| >= MaterialBytes * SlotCount(s)
    ensures var (m1, f1) := EnsureRunning(Initial(), s, r1, false);
      f1 == Some(ConfigWriteFailed) ==>
        && m1.slots != []
        && EnsureRunning(m1, s, r2, w2).0.slots == m1.slots
  {
  }

  // ---------------------------------------------------------------------------
  // Stream registration

  /** What `RegisterStreamAsync` did, as its logging tells. */
  datatype Registration =
    | NoPassphrase  // blank passphrase: ignored
    | NoSlot        // no slot on the stream's port: warned and ignored
    | Mismatch      // registered, with a passphrase-mismatch warning
    | Registered

  /** `FirstOrDefault(s => s.Port == port)`. */
  function FindSlot(slots: seq<Slot>, port: int): (r: Option<nat>)
    ensures r.Some? ==> r.value < |slots| && slots[r.value].port == port
    ensures r.Some? ==> forall j :: 0 <= j < r.value ==> slots[j].port != port
    ensures r.None? ==> forall j :: 0 <= j < |slots| ==> slots[j].port != port
  {
    if slots == [] then None
    else if slots[0].port == port then Some(0)
    else match FindSlot(slots[1..], port)
      case None => None
      case Some(i) => Some(i + 1)
  }

  /** `RegisterStreamAsync`: a stream with a non-blank passphrase on a slot's
      port is recorded as active on that port under its case-folded channel
      name, whether or not the passphrase matches the slot's. */
  function RegisterStream(m: Manager, v: StreamView.View): (r: (Manager, Registration))
    ensures r.0.slots == m.slots && r.0.initialized == m.initialized && r.0.config == m.config
    ensures r.1 == NoPassphrase <==> Text.IsNullOrWhiteSpace(v.passphrase)
    ensures r.1 == NoPassphrase || r.1 == NoSlot ==> r.0 == m
    ensures r.1 == NoSlot ==> forall j :: 0 <= j < |m.slots| ==> m.slots[j].port != v.srtPort
    ensures r.1 == Registered || r.1 == Mismatch ==> FindSlot(m.slots, v.srtPort).Some?
    ensures r.1 == Mismatch ==> v.passphrase.value != m.slots[FindSlot(m.slots, v.srtPort).value].Passphrase()
    ensures r.1 == Registered || r.1 == Mismatch ==>
      r.0.activeStreams == m.activeStreams[Text.Fold(v.channelName) := v.srtPort]
  {
    if Text.IsNullOrWhiteSpace(v.passphrase) then (m, NoPassphrase)
    else match FindSlot(m.slots, v.srtPort)
      case None => (m, NoSlot)
      case Some(i) =>
        var slot := m.slots[i];
        var m' := m.(activeStreams := m.activeStreams[Text.Fold(v.channelName) := slot.port]);
        (m', if slot.Passphrase() != v.passphrase.value then Mismatch else Registered)
  }

  /** Channel names that differ only in case share one active-stream entry:
      the later registration replaces the earlier one's port. */
  lemma RegisterIgnoresCase(m: Manager, v: StreamView.View, w: StreamView.View)
    requires Text.EqualsIgnoreCase(v.channelName, w.channelName)
    ensures var (m1, r1) := RegisterStream(m, v);
      var (m2, r2) := RegisterStream(m1, w);
      (r1 == Registered || r1 == Mismatch) && (r2 == Registered || r2 == Mismatch) ==>
        m2.activeStreams == m.activeStreams[Text.Fold(v.channelName) := w.srtPort]
  {
    assert Text.Fold(v.channelName) == Text.Fold(w.channelName);
  }

  /** A stream announced for one of the preallocated slots, with that slot's
      passphrase, registers cleanly. */
  lemma MatchingStreamRegisters(m: Manager, v: StreamView.View, i: nat)
    requires i < |m.slots| && (forall j :: 0 <= j < i ==> m.slots[j].port != m.slots[i].port)
    requires v.srtPort == m.slots[i].port && v.passphrase == Some(m.slots[i].Passphrase())
    ensures RegisterStream(m, v).1 == Registered
  {
    var p := m.slots[i].Passphrase();
    assert !Text.IsBlank(p) by { assert p[0] != ' ' && !Text.IsWhiteSpace(p[0]); }
  }
}

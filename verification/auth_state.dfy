/** `AuthState`: the auth service's port-lease registry.

    Ports come from the listener slots the viewer announces. Free ports wait
    in a FIFO queue mirrored by a set; a reservation takes the first queued
    port that has key material, records when it was allocated and which lease
    key holds it, and stores the lease under `source::channel`, compared
    without regard to letter case. Releasing or expiring a lease puts its port
    back in the queue if the viewer still announces it.

    Every operation is one atomic step (the source holds a lock around each).
    The clock, the random generator and the iteration order of hash sets and
    dictionaries are parameters. */
module AuthState {
  import opened Wrappers
  import opened Encoding
  import opened Messages
  import Text
  import opened AesKeyMaterial

  const TicksPerSecond: int := 10_000_000

  /** The shortest hold before an idle allocation may be swept. */
  const MinimumHoldSeconds: int := 30

  /** The shortest interval between two sweeps of the auth service's timer. */
  const MinimumSweepSeconds: int := 10

  const AuthCodeAlphabet: string := "ABCDEFGHJKLMNPQRSTUVWXYZ23456789"
  const AuthCodeLength: nat := 8
  const StreamKeyBytes: nat := 8

  const InvalidRange: string := "SRT port range is invalid."
  const ListenersNotReady: string := "Viewer listeners not ready"
  const NoPortsAvailable: string := "No available SRT ports"

  /** The `Auth` section of the options. */
  datatype AuthOptions = AuthOptions(
    srtPortRangeStart: int,
    srtPortRangeEnd: int,
    portHoldSeconds: int,
    cleanupSweepSeconds: int)

  const DefaultAuthOptions: AuthOptions := AuthOptions(6000, 6999, 600, 60)

  /** The auth service's sweep timer fires every `max(10, CleanupSweepSeconds)`
      seconds. */
  function SweepIntervalSeconds(options: AuthOptions): (s: int)
    ensures s >= MinimumSweepSeconds
    ensures s == options.cleanupSweepSeconds || (s == MinimumSweepSeconds && options.cleanupSweepSeconds < s)
  {
    if options.cleanupSweepSeconds < MinimumSweepSeconds then MinimumSweepSeconds else options.cleanupSweepSeconds
  }

  // ---------------------------------------------------------------------------
  // Auth code and stream key

  /** The symbols of the auth-code alphabet: upper-case letters without I and
      O, and the digits 2 to 9. */
  predicate IsAuthCodeChar(c: char) {
    ('A' <= c <= 'Z' && c != 'I' && c != 'O') || ('2' <= c <= '9')
  }

  predicate IsAuthCode(s: string) {
    |s| == AuthCodeLength && forall i :: 0 <= i < |s| ==> IsAuthCodeChar(s[i])
  }

  /** Every position of the alphabet holds an auth-code symbol, and
      `AlphabetIndex` finds that position again. */
  lemma AlphabetSymbols()
    ensures |AuthCodeAlphabet| == 32
    ensures forall i :: 0 <= i < 32 ==> IsAuthCodeChar(AuthCodeAlphabet[i]) && AlphabetIndex(AuthCodeAlphabet[i]) == i
  {
    forall i | 0 <= i < 32
      ensures IsAuthCodeChar(AuthCodeAlphabet[i]) && AlphabetIndex(AuthCodeAlphabet[i]) == i
    {
    }
  }

  /** The 32-symbol alphabet lists exactly the auth-code symbols, each once. */
  lemma AlphabetIsAuthCodeChars(c: char)
    ensures |AuthCodeAlphabet| == 32
    ensures forall i, j :: 0 <= i < j < 32 ==> AuthCodeAlphabet[i] != AuthCodeAlphabet[j]
    ensures IsAuthCodeChar(c) <==> c in AuthCodeAlphabet
  {
    AlphabetSymbols();
    if IsAuthCodeChar(c) {
      assert AuthCodeAlphabet[AlphabetIndex(c)] == c;
    }
  }

  /** `GenerateAuthCode`: eight symbols, each picked by one random byte
      modulo the alphabet size. */
  function GenerateAuthCode(random: seq<byte>): (code: string)
    requires |random| == AuthCodeLength
    ensures IsAuthCode(code)
  {
    AlphabetSymbols();
    seq(AuthCodeLength, i requires 0 <= i < AuthCodeLength => AuthCodeAlphabet[random[i] as int % 32])
  }

  /** Every well-formed code is generated by some random bytes. */
  lemma EveryAuthCodeIsGenerated(code: string)
    requires IsAuthCode(code)
    ensures exists random: seq<byte> :: |random| == AuthCodeLength && GenerateAuthCode(random) == code
  {
    var random: seq<byte> := seq(AuthCodeLength, i requires 0 <= i < AuthCodeLength => AlphabetIndex(code[i]) as byte);
    var generated := GenerateAuthCode(random);
    forall i | 0 <= i < AuthCodeLength
      ensures generated[i] == code[i]
    {
      var n := AlphabetIndex(code[i]);
      assert random[i] as int == n;
      assert n % 32 == n;
      assert generated[i] == AuthCodeAlphabet[random[i] as int % 32];
    }
    assert generated == code;
  }

  /** The position of a symbol in the alphabet. */
  function AlphabetIndex(c: char): (i: nat)
    requires IsAuthCodeChar(c)
    ensures i < 32 && AuthCodeAlphabet[i] == c
  {
    if c <= '9' then c as int - '2' as int + 24
    else if c < 'I' then c as int - 'A' as int
    else if c < 'O' then c as int - 'A' as int - 1
    else c as int - 'A' as int - 2
  }

  /** Auth codes hold no lower-case letters, so case folding leaves them as
      they are. */
  lemma AuthCodeFolded(code: string)
    requires IsAuthCode(code)
    ensures Text.Fold(code) == code
  {
    assert forall i :: 0 <= i < |code| ==> Text.FoldChar(code[i]) == code[i];
  }

  /** `GenerateStreamKey`: the upper-case hex of eight random bytes. */
  function GenerateStreamKey(random: seq<byte>): (key: string)
    requires |random| == StreamKeyBytes
    ensures |key| == 2 * StreamKeyBytes && IsHexString(key)
    ensures FromHex(key) == Some(random)
  {
    FromHexToHex(random);
    ToHex(random)
  }

  // ---------------------------------------------------------------------------
  // Leases

  /** `StreamAssignment.MakeKey`: both parts trimmed, joined by "::". */
  function MakeKey(sourceId: string, channelName: string): string {
    Text.Trim(sourceId) + "::" + Text.Trim(channelName)
  }

  /** The lease dictionary compares keys ignoring letter case; it is modelled
      as a map indexed by the folded key. */
  function LeaseIndex(sourceId: string, channelName: string): string {
    Text.Fold(MakeKey(sourceId, channelName))
  }

  /** A lease. `key` is `StreamAssignment.Key`, that is `MakeKey` of the
      source and channel, computed when the lease is made. */
  datatype StreamAssignment = StreamAssignment(
    sourceId: string,
    channelName: string,
    port: int,
    keyMaterial: KeyMaterial,
    streamKey: string,
    createdAt: Instant,
    key: string)
  {
    /** The entry of the case-insensitive lease dictionary. */
    function Index(): string { Text.Fold(key) }
  }

  /** The lease record for a source and channel. */
  function NewAssignment(sourceId: string, channelName: string, port: int, keyMaterial: KeyMaterial,
                         streamKey: string, createdAt: Instant): (a: StreamAssignment)
    ensures a.Index() == LeaseIndex(sourceId, channelName)
  {
    StreamAssignment(sourceId, channelName, port, keyMaterial, streamKey, createdAt, MakeKey(sourceId, channelName))
  }

  datatype ViewerEndpoint = ViewerEndpoint(host: string, mediamtxApiPort: int, displayName: string)

  // ---------------------------------------------------------------------------
  // The available-port queue

  predicate NoDuplicates(s: seq<int>) {
    forall i, j :: 0 <= i < j < |s| ==> s[i] != s[j]
  }

  /** The FIFO queue of available ports and the set that mirrors it. */
  datatype PortQueue = PortQueue(order: seq<int>, members: set<int>) {
    /** The queue and the set hold the same ports, each once. */
    ghost predicate Mirrors() {
      NoDuplicates(order) && forall p :: p in order <==> p in members
    }

    /** `EnqueuePort`: append the port unless the set already has it. */
    function Enqueue(p: int): (q: PortQueue)
      ensures q.members == members + {p}
      ensures q.order == (if p in members then order else order + [p])
      ensures Mirrors() ==> q.Mirrors()
    {
      if p in members then this else PortQueue(order + [p], members + {p})
    }
  }

  const EmptyQueue: PortQueue := PortQueue([], {})

  // ---------------------------------------------------------------------------
  // The registry

  datatype Registry = Registry(
    rangeStart: int,
    rangeEnd: int,
    holdTicks: int,
    authCode: string,
    available: PortQueue,
    allocations: map<int, Instant>,
    portKeys: map<int, string>,
    slots: map<int, KeyMaterial>,
    leases: map<string, StreamAssignment>,
    slotsInitialized: bool,
    viewer: Option<ViewerEndpoint>)

  /** The bookkeeping every operation maintains between the queue, the
      announced slots and the allocation maps. */
  ghost predicate Bookkeeping(r: Registry) {
    && r.available.Mirrors()
    && r.available.members <= r.slots.Keys
    && r.available.members !! r.allocations.Keys
    && r.allocations.Keys == r.portKeys.Keys
  }

  /** Every lease is stored under its own folded key, and its port is
      allocated to a key that folds back to it. Distinct leases therefore
      hold distinct ports. */
  ghost predicate Backed(leases: map<string, StreamAssignment>, portKeys: map<int, string>) {
    && (forall k :: k in leases ==> leases[k].Index() == k)
    && (forall k :: k in leases ==> leases[k].port in portKeys && Text.Fold(portKeys[leases[k].port]) == k)
  }

  /** The whole invariant: a valid configuration, the bookkeeping, announced
      ports inside the configured range, the readiness flag in step with the
      slots, and backed leases on announced ports. */
  ghost predicate Valid(r: Registry) {
    && r.rangeStart < r.rangeEnd
    && r.holdTicks >= MinimumHoldSeconds * TicksPerSecond
    && IsAuthCode(r.authCode)
    && Bookkeeping(r)
    && (forall p :: p in r.slots ==> r.rangeStart <= p <= r.rangeEnd)
    && r.slotsInitialized == (r.slots != map[])
    && Backed(r.leases, r.portKeys)
    && (forall k :: k in r.leases ==> r.leases[k].port in r.slots)
  }

  /** The constructor: the range must be non-empty and the hold lasts at least
      30 seconds. */
  function Create(options: AuthOptions, random: seq<byte>): (r: Result<Registry, string>)
    requires |random| == AuthCodeLength
    ensures r.Failure? <==> options.srtPortRangeStart >= options.srtPortRangeEnd
    ensures r.Failure? ==> r.error == InvalidRange
    ensures r.Success? ==>
      (Valid(r.value) && !r.value.slotsInitialized && r.value.viewer.None?
       && r.value.leases == map[] && r.value.available == EmptyQueue)
    ensures r.Success? ==>
      r.value.holdTicks ==
      (if options.portHoldSeconds < MinimumHoldSeconds then MinimumHoldSeconds else options.portHoldSeconds) * TicksPerSecond
  {
    if options.srtPortRangeStart >= options.srtPortRangeEnd then Failure(InvalidRange)
    else
      var holdSeconds := if options.portHoldSeconds < MinimumHoldSeconds then MinimumHoldSeconds else options.portHoldSeconds;
      Success(Registry(options.srtPortRangeStart, options.srtPortRangeEnd, holdSeconds * TicksPerSecond,
        GenerateAuthCode(random), EmptyQueue, map[], map[], map[], map[], false, None))
  }

  /** `IsValidCode`: ordinal comparison ignoring letter case. */
  predicate IsValidCode(r: Registry, code: string) {
    Text.EqualsIgnoreCase(r.authCode, code)
  }

  /** A code is accepted exactly when it spells the auth code in any mix of
      letter case. */
  lemma IsValidCodeMeaning(r: Registry, code: string)
    requires Valid(r)
    ensures IsValidCode(r, code) <==> Text.Fold(code) == r.authCode
    ensures IsValidCode(r, r.authCode)
  {
    AuthCodeFolded(r.authCode);
  }

  /** `TrySetViewerEndpoint`: only the first call takes effect; a blank
      display name falls back to the host. */
  function TrySetViewerEndpoint(r: Registry, host: string, apiPort: int, displayName: Option<string>): (res: (Registry, bool))
    ensures res.1 <==> r.viewer.None?
    ensures res.0.viewer.Some?
    ensures !res.1 ==> res.0 == r
    ensures res.1 ==>
      (res.0 == r.(viewer := res.0.viewer) && res.0.viewer.value.host == host
       && res.0.viewer.value.mediamtxApiPort == apiPort)
    ensures res.1 ==>
      res.0.viewer.value.displayName == (if Text.IsNullOrWhiteSpace(displayName) then host else displayName.value)
  {
    var endpoint := ViewerEndpoint(host, apiPort, if Text.IsNullOrWhiteSpace(displayName) then host else displayName.value);
    if r.viewer.Some? then (r, false) else (r.(viewer := Some(endpoint)), true)
  }

  /** Setting the endpoint twice keeps the first endpoint and reports false. */
  lemma ViewerEndpointSetOnce(r: Registry, h1: string, p1: int, d1: Option<string>, h2: string, p2: int, d2: Option<string>)
    requires r.viewer.None?
    ensures var (r1, ok1) := TrySetViewerEndpoint(r, h1, p1, d1);
      var (r2, ok2) := TrySetViewerEndpoint(r1, h2, p2, d2);
      ok1 && !ok2 && r2 == r1 && r2.viewer.value.host == h1
  {
  }

  /** `TryGetAssignment`. */
  function TryGetAssignment(r: Registry, sourceId: string, channelName: string): (a: Option<StreamAssignment>)
    ensures a.Some? <==> LeaseIndex(sourceId, channelName) in r.leases
    ensures a.Some? ==> a.value == r.leases[LeaseIndex(sourceId, channelName)]
  {
    var k := LeaseIndex(sourceId, channelName);
    if k in r.leases then Some(r.leases[k]) else None
  }

  // ---------------------------------------------------------------------------
  // Reservation

  /** The position of the first queued port that has key material. */
  function FirstWithMaterial(queue: seq<int>, slots: map<int, KeyMaterial>): (i: nat)
    ensures i <= |queue|
    ensures forall j :: 0 <= j < i ==> queue[j] !in slots
    ensures i < |queue| ==> queue[i] in slots
  {
    if queue == [] || queue[0] in slots then 0 else 1 + FirstWithMaterial(queue[1..], slots)
  }

  /** Dequeue the first `n` ports, removing each from the mirror set too. */
  function Drop(q: PortQueue, n: nat): (r: PortQueue)
    requires n <= |q.order|
    ensures r.order == q.order[n..]
    ensures forall p :: p in r.members <==> p in q.members && p !in q.order[..n]
  {
    PortQueue(q.order[n..], q.members - set p | p in q.order[..n])
  }

  datatype Reservation = Reservation(registry: Registry, outcome: Result<StreamAssignment, string>)

  /** `TryReserveStream`. Ports without key material are dequeued and
      skipped; the first one with material is leased. A second reservation
      for the same source and channel replaces the lease entry without
      releasing the first port. */
  function TryReserveStream(r: Registry, sourceId: string, channelName: string, now: Instant, random: seq<byte>): (res: Reservation)
    requires |random| == StreamKeyBytes
    ensures !r.slotsInitialized ==> res == Reservation(r, Failure(ListenersNotReady))
    ensures res.outcome.Failure? ==>
      (res.registry.leases == r.leases && res.registry.allocations == r.allocations
       && res.registry.portKeys == r.portKeys && res.registry.slots == r.slots)
    ensures res.outcome.Failure? && r.slotsInitialized ==>
      (res.outcome.error == NoPortsAvailable && res.registry.available.order == []
       && forall p :: p in r.available.order ==> p !in r.slots)
    ensures res.outcome.Success? ==>
      var a := res.outcome.value;
      && a.sourceId == sourceId && a.channelName == channelName && a.createdAt == now
      && a.port in r.available.order && a.port in r.slots && a.keyMaterial == r.slots[a.port]
      && FromHex(a.streamKey) == Some(random) && |a.streamKey| == 16
      && TryGetAssignment(res.registry, sourceId, channelName) == Some(a)
      && res.registry.allocations == r.allocations[a.port := now]
      && res.registry.portKeys == r.portKeys[a.port := a.key]
      && res.registry.leases == r.leases[a.Index() := a]
      && a.port !in res.registry.available.members
  {
    if !r.slotsInitialized then Reservation(r, Failure(ListenersNotReady))
    else
      var i := FirstWithMaterial(r.available.order, r.slots);
      if i == |r.available.order| then
        Reservation(r.(available := Drop(r.available, i)), Failure(NoPortsAvailable))
      else
        var port := r.available.order[i];
        var a := NewAssignment(sourceId, channelName, port, r.slots[port], GenerateStreamKey(random), now);
        var r' := r.(available := Drop(r.available, i + 1),
                     leases := r.leases[a.Index() := a],
                     allocations := r.allocations[port := now],
                     portKeys := r.portKeys[port := a.key]);
        assert port in r.available.order[..i + 1];
        Reservation(r', Success(a))
  }

  // ---------------------------------------------------------------------------
  // Slot reconciliation

  function MaterialOf(l: ListenerSlotInfo): KeyMaterial {
    KeyMaterial(l.aesKey, l.aesIv)
  }

  /** The slot materials after reconciliation: every announcement inside the
      range in turn, a later one for the same port replacing an earlier one. */
  function SlotMap(listeners: seq<ListenerSlotInfo>, lo: int, hi: int): (m: map<int, KeyMaterial>)
    ensures forall p :: p in m ==> lo <= p <= hi
  {
    if listeners == [] then map[]
    else
      var m := SlotMap(listeners[..|listeners| - 1], lo, hi);
      var l := listeners[|listeners| - 1];
      if l.port < lo || l.port > hi then m else m[l.port := MaterialOf(l)]
  }

  /** The position of the last announcement of a port: the reference reading
      of "a later announcement wins". */
  function LastAnnouncement(listeners: seq<ListenerSlotInfo>, p: int): (r: Option<nat>)
    ensures r.None? ==> forall i :: 0 <= i < |listeners| ==> listeners[i].port != p
    ensures r.Some? ==> r.value < |listeners| && listeners[r.value].port == p
    ensures r.Some? ==> forall j :: r.value < j < |listeners| ==> listeners[j].port != p
  {
    if listeners == [] then None
    else if listeners[|listeners| - 1].port == p then Some(|listeners| - 1)
    else LastAnnouncement(listeners[..|listeners| - 1], p)
  }

  /** A port has a slot exactly when it is inside the range and announced,
      and the slot holds the material of the port's last announcement. */
  lemma {:induction false} SlotMapLastWins(listeners: seq<ListenerSlotInfo>, lo: int, hi: int, p: int)
    ensures var m := SlotMap(listeners, lo, hi);
      p in m <==> lo <= p <= hi && LastAnnouncement(listeners, p).Some?
    ensures var m := SlotMap(listeners, lo, hi);
      p in m ==> m[p] == MaterialOf(listeners[LastAnnouncement(listeners, p).value])
    decreases |listeners|
  {
    if listeners != [] {
      var init := listeners[..|listeners| - 1];
      SlotMapLastWins(init, lo, hi, p);
      if listeners[|listeners| - 1].port != p && LastAnnouncement(init, p).Some? {
        assert listeners[LastAnnouncement(init, p).value] == init[LastAnnouncement(init, p).value];
      }
    }
  }

  /** The enqueue loop of reconciliation: every enumerated port that is not
      allocated is queued. */
  function EnqueueFree(q: PortQueue, ports: seq<int>, allocations: map<int, Instant>): (r: PortQueue)
    ensures q.Mirrors() ==> r.Mirrors()
    ensures forall p :: p in r.members <==> p in q.members || (p in ports && p !in allocations)
    ensures q.order <= r.order
    decreases |ports|
  {
    if ports == [] then q
    else
      var q1 := if ports[0] in allocations then q else q.Enqueue(ports[0]);
      EnqueueFree(q1, ports[1..], allocations)
  }

  /** The leases whose port is no longer announced. */
  function DroppedLeases(r: Registry, slots: map<int, KeyMaterial>): set<string> {
    set k | k in r.leases && r.leases[k].port !in slots
  }

  /** `SetListenerSlots`. `order` is the enumeration order of the hash set of
      valid ports. The queue is rebuilt from the announced ports that are not
      allocated; leases on ports that are still announced are kept as they are,
      even when the port's key material changed, and the others are removed
      by their own key together with the allocation entries of their port. */
  function SetListenerSlots(r: Registry, listeners: seq<ListenerSlotInfo>, order: seq<int>): (r': Registry)
    requires forall p :: p in order <==> p in SlotMap(listeners, r.rangeStart, r.rangeEnd)
    ensures r'.slots == SlotMap(listeners, r.rangeStart, r.rangeEnd)
    ensures r'.slotsInitialized <==> r'.slots != map[]
    ensures forall p :: p in r'.available.members <==> p in r'.slots && p !in r.allocations
    ensures r'.available.Mirrors()
    ensures forall k :: k in r'.leases ==> k in r.leases && r'.leases[k] == r.leases[k]
  {
    var slots := SlotMap(listeners, r.rangeStart, r.rangeEnd);
    var dropped := DroppedLeases(r, slots);
    var removedKeys := set k | k in dropped :: r.leases[k].Index();
    var removedPorts := set k | k in dropped :: r.leases[k].port;
    assert EmptyQueue.Mirrors();
    NonEmptyMap(slots);
    r.(slots := slots,
       available := EnqueueFree(EmptyQueue, order, r.allocations),
       leases := map k | k in r.leases && k !in removedKeys :: r.leases[k],
       allocations := r.allocations - removedPorts,
       portKeys := r.portKeys - removedPorts,
       slotsInitialized := |slots| > 0)
  }

  lemma NonEmptyMap<K, V>(m: map<K, V>)
    ensures |m| > 0 <==> m != map[]
  {
    if m != map[] {
      var k :| k in m;
      assert k in m.Keys;
    }
  }

  // ---------------------------------------------------------------------------
  // Release and expiry

  /** `ReleaseStream`: drop the lease and its port's allocation entries, and
      queue the port again if it is still announced. */
  function ReleaseStream(r: Registry, sourceId: string, channelName: string): (r': Registry)
    ensures TryGetAssignment(r', sourceId, channelName).None?
    ensures forall k :: k in r'.leases <==> k in r.leases && k != LeaseIndex(sourceId, channelName)
    ensures r'.slots == r.slots && r'.viewer == r.viewer && r'.slotsInitialized == r.slotsInitialized
  {
    ReleaseEntry(r, LeaseIndex(sourceId, channelName))
  }

  /** The body of `ReleaseStream` once the key has been looked up. */
  function ReleaseEntry(r: Registry, k: string): (r': Registry)
    ensures forall k' :: k' in r'.leases <==> k' in r.leases && k' != k
    ensures forall k' :: k' in r'.leases ==> r'.leases[k'] == r.leases[k']
    ensures r'.slots == r.slots && r'.viewer == r.viewer && r'.slotsInitialized == r.slotsInitialized
  {
    if k !in r.leases then r
    else
      var p := r.leases[k].port;
      var r1 := r.(leases := r.leases - {k}, allocations := r.allocations - {p}, portKeys := r.portKeys - {p});
      if p in r.slots then r1.(available := r1.available.Enqueue(p)) else r1
  }

  /** An allocation has outlived the hold when strictly more than the hold
      has passed since it was made. */
  predicate Expired(r: Registry, now: Instant, p: int) {
    p in r.allocations && now - r.allocations[p] > r.holdTicks
  }

  datatype Sweep = Sweep(registry: Registry, expired: seq<StreamAssignment>)

  /** One iteration of the expiry loop. */
  function SweepPort(r: Registry, now: Instant, p: int): (s: Sweep) {
    if !Expired(r, now, p) then Sweep(r, [])
    else
      var named := p in r.portKeys && Text.Fold(r.portKeys[p]) in r.leases;
      var k := if p in r.portKeys then Text.Fold(r.portKeys[p]) else "";
      var r1 := r.(leases := if named then r.leases - {k} else r.leases,
                   allocations := r.allocations - {p},
                   portKeys := r.portKeys - {p});
      Sweep(if p in r.slots then r1.(available := r1.available.Enqueue(p)) else r1,
            if named then [r.leases[k]] else [])
  }

  /** The expiry loop over the given ports, in order. */
  function SweepPorts(r: Registry, now: Instant, ports: seq<int>): (s: Sweep)
    decreases |ports|
  {
    if ports == [] then Sweep(r, [])
    else
      var first := SweepPort(r, now, ports[0]);
      var rest := SweepPorts(first.registry, now, ports[1..]);
      Sweep(rest.registry, first.expired + rest.expired)
  }

  /** `CleanupExpired`. `order` is the enumeration order of the allocation
      dictionary. Each expired allocation is removed with its port key; the
      lease its port key names is removed and returned; the port is queued
      again if it is still announced. */
  function CleanupExpired(r: Registry, now: Instant, order: seq<int>): (s: Sweep)
    requires forall p :: p in order <==> p in r.allocations
    ensures forall p :: p in s.registry.allocations <==> p in r.allocations && !Expired(r, now, p)
  {
    SweepAllocations(r, now, order);
    SweepPorts(r, now, order)
  }

  lemma {:induction false} SweepAllocations(r: Registry, now: Instant, ports: seq<int>)
    ensures var r' := SweepPorts(r, now, ports).registry;
      forall p :: p in r'.allocations <==> p in r.allocations && !(p in ports && Expired(r, now, p))
    decreases |ports|
  {
    if ports != [] {
      var r1 := SweepPort(r, now, ports[0]).registry;
      SweepAllocations(r1, now, ports[1..]);
      forall p | p in ports[1..] && p != ports[0]
        ensures Expired(r1, now, p) == Expired(r, now, p)
      {
      }
    }
  }
}

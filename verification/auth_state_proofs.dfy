/** Properties of the port-lease registry: every operation keeps the
    registry valid, and each operation's effect on leases, allocations and
    the queue, stated against the state it started from. */
module AuthStateProofs {
  import opened Wrappers
  import opened Encoding
  import opened Messages
  import Text
  import opened AesKeyMaterial
  import opened AuthState

  // ---------------------------------------------------------------------------
  // Lease keys

  /** Lease keys ignore surrounding whitespace. */
  lemma MakeKeyTrims(sourceId: string, channelName: string)
    ensures MakeKey(sourceId, channelName) == MakeKey(Text.Trim(sourceId), Text.Trim(channelName))
  {
    Text.TrimIdempotent(sourceId);
    Text.TrimIdempotent(channelName);
  }

  /** A source id without ':' ends exactly where the first ':' of its key is. */
  lemma FirstColon(source: string, channel: string)
    requires ':' !in source
    ensures var k := source + "::" + channel;
      |source| < |k| && k[|source|] == ':' && forall i :: 0 <= i < |source| ==> k[i] != ':'
  {
    var k := source + "::" + channel;
    assert forall i :: 0 <= i < |source| ==> k[i] == source[i];
  }

  /** Joining a ':'-free source and a channel with "::" is injective. */
  lemma JoinInjective(s1: string, c1: string, s2: string, c2: string)
    requires ':' !in s1 && ':' !in s2
    ensures s1 + "::" + c1 == s2 + "::" + c2 <==> s1 == s2 && c1 == c2
  {
    var k1, k2 := s1 + "::" + c1, s2 + "::" + c2;
    if k1 == k2 {
      FirstColon(s1, c1);
      FirstColon(s2, c2);
      assert |s1| == |s2|;
      assert s1 == k1[..|s1|] && s2 == k2[..|s2|];
      assert c1 == k1[|s1| + 2..] && c2 == k2[|s2| + 2..];
    }
  }

  /** Sources whose trimmed ids hold no ':' get the same key only for the
      same trimmed source and channel. */
  lemma MakeKeyInjective(s1: string, c1: string, s2: string, c2: string)
    requires ':' !in Text.Trim(s1) && ':' !in Text.Trim(s2)
    ensures MakeKey(s1, c1) == MakeKey(s2, c2) <==> Text.Trim(s1) == Text.Trim(s2) && Text.Trim(c1) == Text.Trim(c2)
  {
    JoinInjective(Text.Trim(s1), Text.Trim(c1), Text.Trim(s2), Text.Trim(c2));
  }

  /** Without that restriction two different (source, channel) pairs can
      share a lease key. */
  lemma MakeKeyAmbiguous(x: string, y: string)
    requires x != [] && !Text.IsWhiteSpace(x[0]) && !Text.IsWhiteSpace(x[|x| - 1])
    requires y != [] && !Text.IsWhiteSpace(y[0]) && !Text.IsWhiteSpace(y[|y| - 1])
    ensures (x + ":", y) != (x, ":" + y)
    ensures MakeKey(x + ":", y) == MakeKey(x, ":" + y)
  {
    var x', y' := x + ":", ":" + y;
    assert x'[0] == x[0] && x'[|x'| - 1] == ':';
    assert y'[0] == ':' && y'[|y'| - 1] == y[|y| - 1];
    KeyOfTrimmed(x', y);
    KeyOfTrimmed(x, y');
    assert x' + "::" + y == x + "::" + y';
  }

  /** Names without surrounding whitespace are joined as they are. */
  lemma KeyOfTrimmed(sourceId: string, channelName: string)
    requires sourceId != [] && !Text.IsWhiteSpace(sourceId[0]) && !Text.IsWhiteSpace(sourceId[|sourceId| - 1])
    requires channelName != [] && !Text.IsWhiteSpace(channelName[0]) && !Text.IsWhiteSpace(channelName[|channelName| - 1])
    ensures MakeKey(sourceId, channelName) == sourceId + "::" + channelName
  {
    Text.TrimUnchanged(sourceId);
    Text.TrimUnchanged(channelName);
  }

  // ---------------------------------------------------------------------------
  // Reservation

  lemma DropHead(q: PortQueue)
    requires q.Mirrors() && q.order != []
    ensures Drop(q, 1).Mirrors()
    ensures Drop(q, 1).members == q.members - {q.order[0]}
  {
    var d := Drop(q, 1);
    assert q.order[..1] == [q.order[0]];
    assert forall i :: 0 <= i < |d.order| ==> d.order[i] == q.order[i + 1];
    forall p | p in q.members && p != q.order[0]
      ensures p in d.order
    {
      assert p in q.order;
      var i :| 0 <= i < |q.order| && q.order[i] == p;
      assert d.order[i - 1] == p;
    }
  }

  lemma BackedAfterReserve(leases: map<string, StreamAssignment>, portKeys: map<int, string>, a: StreamAssignment)
    requires Backed(leases, portKeys) && a.port !in portKeys
    ensures Backed(leases[a.Index() := a], portKeys[a.port := a.key])
  {
    var i := a.Index();
    var leases', portKeys' := leases[i := a], portKeys[a.port := a.key];
    assert forall k :: k in leases' && k != i ==> leases'[k] == leases[k] && leases[k].port != a.port;
  }

  /** On a valid registry the skip loop never skips: a reservation takes the
      head of the queue, and fails only when the queue is empty, leaving the
      registry unchanged. */
  lemma ReserveTakesHead(r: Registry, sourceId: string, channelName: string, now: Instant, random: seq<byte>)
    requires Valid(r) && r.slotsInitialized && |random| == StreamKeyBytes
    ensures var res := TryReserveStream(r, sourceId, channelName, now, random);
      && (res.outcome.Success? <==> r.available.order != [])
      && (res.outcome.Success? ==>
            res.outcome.value.port == r.available.order[0] && res.registry.available == Drop(r.available, 1))
      && (res.outcome.Failure? ==> res.registry == r)
  {
    var q := r.available;
    if q.order != [] {
      assert q.order[0] in q.order;
    } else {
      assert forall p :: p !in q.members;
      assert q.members == {};
      assert Drop(q, 0) == q;
    }
  }

  /** Taking the head of the queue for a new lease keeps the registry valid. */
  lemma ValidAfterTake(r: Registry, a: StreamAssignment, now: Instant)
    requires Valid(r) && r.available.order != [] && a.port == r.available.order[0] && a.port in r.slots
    ensures Valid(r.(available := Drop(r.available, 1), leases := r.leases[a.Index() := a],
                     allocations := r.allocations[a.port := now], portKeys := r.portKeys[a.port := a.key]))
  {
    DropHead(r.available);
    assert a.port in r.available.members;
    BackedAfterReserve(r.leases, r.portKeys, a);
  }

  /** A reservation keeps the registry valid, including a second reservation
      for a key that already holds a lease. */
  lemma ReservePreservesValid(r: Registry, sourceId: string, channelName: string, now: Instant, random: seq<byte>)
    requires Valid(r) && |random| == StreamKeyBytes
    ensures Valid(TryReserveStream(r, sourceId, channelName, now, random).registry)
  {
    var res := TryReserveStream(r, sourceId, channelName, now, random);
    if r.slotsInitialized {
      ReserveTakesHead(r, sourceId, channelName, now, random);
      if res.outcome.Success? {
        var a := res.outcome.value;
        ValidAfterTake(r, a, now);
        assert res.registry == r.(available := Drop(r.available, 1), leases := r.leases[a.Index() := a],
                                  allocations := r.allocations[a.port := now], portKeys := r.portKeys[a.port := a.key]);
      }
    }
  }

  /** Lease lookup ignores letter case: after a reservation, any spelling of
      the same source and channel that differs only in case finds the lease. */
  lemma ReserveLookupIgnoresCase(r: Registry, sourceId: string, channelName: string, now: Instant, random: seq<byte>,
                                 otherSource: string, otherChannel: string)
    requires |random| == StreamKeyBytes
    requires Text.EqualsIgnoreCase(MakeKey(sourceId, channelName), MakeKey(otherSource, otherChannel))
    ensures var res := TryReserveStream(r, sourceId, channelName, now, random);
      res.outcome.Success? ==> TryGetAssignment(res.registry, otherSource, otherChannel) == Some(res.outcome.value)
  {
  }

  /** Two reservations in a row on a valid registry take the first two queued
      ports, in order. */
  lemma ReserveTwiceTakesTwoHeads(r: Registry, sourceId: string, channelName: string, t1: Instant, t2: Instant,
                                  random1: seq<byte>, random2: seq<byte>)
    requires Valid(r) && r.slotsInitialized && |r.available.order| >= 2
    requires |random1| == StreamKeyBytes && |random2| == StreamKeyBytes
    ensures var first := TryReserveStream(r, sourceId, channelName, t1, random1);
      var second := TryReserveStream(first.registry, sourceId, channelName, t2, random2);
      && first.outcome.Success? && first.outcome.value.port == r.available.order[0]
      && second.outcome.Success? && second.outcome.value.port == r.available.order[1]
  {
    var first := TryReserveStream(r, sourceId, channelName, t1, random1);
    ReserveTakesHead(r, sourceId, channelName, t1, random1);
    ReservePreservesValid(r, sourceId, channelName, t1, random1);
    var r1 := first.registry;
    assert r1.available.order == r.available.order[1..];
    ReserveTakesHead(r1, sourceId, channelName, t2, random2);
  }

  /** Releasing a lease leaves alone an allocated, unqueued port that the
      lease does not hold. */
  lemma ReleaseKeepsOtherPort(r: Registry, sourceId: string, channelName: string, p: int)
    requires p in r.allocations && p !in r.available.members
    requires TryGetAssignment(r, sourceId, channelName).Some?
    requires TryGetAssignment(r, sourceId, channelName).value.port != p
    ensures var released := ReleaseStream(r, sourceId, channelName);
      p in released.allocations && p !in released.available.members
  {
  }

  /** A second reservation for the same source and channel leaves the first
      port allocated: the lease now names the second port, the first stays
      out of the queue, and releasing the lease frees only the second. */
  lemma DoubleReserveKeepsFirstPort(r: Registry, sourceId: string, channelName: string, t1: Instant, t2: Instant,
                                    random1: seq<byte>, random2: seq<byte>)
    requires Valid(r) && r.slotsInitialized && |r.available.order| >= 2
    requires |random1| == StreamKeyBytes && |random2| == StreamKeyBytes
    ensures var first := TryReserveStream(r, sourceId, channelName, t1, random1);
      var second := TryReserveStream(first.registry, sourceId, channelName, t2, random2);
      var released := ReleaseStream(second.registry, sourceId, channelName);
      && first.outcome.Success? && second.outcome.Success?
      && first.outcome.value.port != second.outcome.value.port
      && TryGetAssignment(second.registry, sourceId, channelName) == Some(second.outcome.value)
      && first.outcome.value.port in released.allocations
      && first.outcome.value.port !in released.available.members
      && second.registry.allocations[first.outcome.value.port] == t1
      && Text.Fold(second.registry.portKeys[first.outcome.value.port]) == LeaseIndex(sourceId, channelName)
  {
    var first := TryReserveStream(r, sourceId, channelName, t1, random1);
    var second := TryReserveStream(first.registry, sourceId, channelName, t2, random2);
    ReserveTwiceTakesTwoHeads(r, sourceId, channelName, t1, t2, random1, random2);
    assert r.available.order[0] != r.available.order[1];
    var p := first.outcome.value.port;
    assert second.registry.allocations[p] == t1;
    ReleaseKeepsOtherPort(second.registry, sourceId, channelName, p);
  }

  // ---------------------------------------------------------------------------
  // Slot reconciliation

  /** With backed leases, reconciliation keeps exactly the leases whose port
      is still announced, and drops the allocation entries of exactly the
      ports those dropped leases held. */
  lemma SetListenerSlotsLeases(r: Registry, listeners: seq<ListenerSlotInfo>, order: seq<int>)
    requires Backed(r.leases, r.portKeys) && r.allocations.Keys == r.portKeys.Keys
    requires forall p :: p in order <==> p in SlotMap(listeners, r.rangeStart, r.rangeEnd)
    ensures var r' := SetListenerSlots(r, listeners, order);
      forall k :: k in r'.leases <==> k in r.leases && r.leases[k].port in r'.slots
    ensures var r' := SetListenerSlots(r, listeners, order);
      forall p :: p in r'.allocations <==>
        p in r.allocations && !(exists k :: k in r.leases && r.leases[k].port == p && p !in r'.slots)
    ensures var r' := SetListenerSlots(r, listeners, order);
      forall p :: p in r'.allocations ==> r'.allocations[p] == r.allocations[p] && r'.portKeys[p] == r.portKeys[p]
  {
    var r' := SetListenerSlots(r, listeners, order);
    var dropped := DroppedLeases(r, r'.slots);
    var removedKeys := set k | k in dropped :: r.leases[k].Index();
    assert removedKeys == dropped;
  }

  lemma SetListenerSlotsPreservesValid(r: Registry, listeners: seq<ListenerSlotInfo>, order: seq<int>)
    requires Valid(r)
    requires forall p :: p in order <==> p in SlotMap(listeners, r.rangeStart, r.rangeEnd)
    ensures Valid(SetListenerSlots(r, listeners, order))
  {
    var r' := SetListenerSlots(r, listeners, order);
    SetListenerSlotsLeases(r, listeners, order);
    assert r'.allocations.Keys == r'.portKeys.Keys;
    forall k | k in r'.leases
      ensures r'.leases[k].port in r'.portKeys && Text.Fold(r'.portKeys[r'.leases[k].port]) == k
    {
      var q := r.leases[k].port;
      assert q in r'.slots;
      assert q in r.allocations;
    }
  }

  /** A viewer that re-announces a leased port with new key material does not
      disturb the lease: it keeps its port and its original material. */
  lemma ReannouncementKeepsLease(r: Registry, listeners: seq<ListenerSlotInfo>, order: seq<int>, k: string)
    requires Valid(r) && k in r.leases
    requires forall p :: p in order <==> p in SlotMap(listeners, r.rangeStart, r.rangeEnd)
    requires exists i :: 0 <= i < |listeners| && listeners[i].port == r.leases[k].port
    ensures var r' := SetListenerSlots(r, listeners, order);
      k in r'.leases && r'.leases[k] == r.leases[k] && r.leases[k].port !in r'.available.members
  {
    var p := r.leases[k].port;
    var i :| 0 <= i < |listeners| && listeners[i].port == p;
    SlotMapLastWins(listeners, r.rangeStart, r.rangeEnd, p);
    SetListenerSlotsLeases(r, listeners, order);
  }

  // ---------------------------------------------------------------------------
  // Release

  /** Releasing the lease stored under `k` keeps the registry valid. */
  lemma ReleaseEntryPreservesValid(r: Registry, k: string)
    requires Valid(r)
    ensures Valid(ReleaseEntry(r, k))
  {
    if k in r.leases {
      var p := r.leases[k].port;
      var r' := ReleaseEntry(r, k);
      forall k' | k' in r'.leases
        ensures r'.leases[k'].port != p
      {
        assert Text.Fold(r.portKeys[r.leases[k'].port]) == k';
      }
    }
  }

  lemma ReleasePreservesValid(r: Registry, sourceId: string, channelName: string)
    requires Valid(r)
    ensures Valid(ReleaseStream(r, sourceId, channelName))
  {
    ReleaseEntryPreservesValid(r, LeaseIndex(sourceId, channelName));
  }

  /** Releasing a lease frees exactly its port: the allocation entries of
      that port go, the port joins the back of the queue, and every other
      lease, allocation and queued port stays as it was. */
  lemma ReleaseFreesPort(r: Registry, sourceId: string, channelName: string)
    requires Valid(r) && TryGetAssignment(r, sourceId, channelName).Some?
    ensures var p := TryGetAssignment(r, sourceId, channelName).value.port;
      var r' := ReleaseStream(r, sourceId, channelName);
      && r'.leases == r.leases - {LeaseIndex(sourceId, channelName)}
      && r'.allocations == r.allocations - {p}
      && r'.portKeys == r.portKeys - {p}
      && r'.available.order == r.available.order + [p]
      && r'.available.members == r.available.members + {p}
  {
    var k := LeaseIndex(sourceId, channelName);
    var p := r.leases[k].port;
    assert p in r.allocations;
  }

  /** Releasing twice is releasing once. */
  lemma ReleaseIdempotent(r: Registry, sourceId: string, channelName: string)
    ensures var once := ReleaseStream(r, sourceId, channelName);
      ReleaseStream(once, sourceId, channelName) == once
  {
  }

  /** Reserving and then releasing a source that held no lease undoes the
      reservation except for the queue, which has rotated: the port taken
      from the front is back at the end. */
  lemma ReserveThenRelease(r: Registry, sourceId: string, channelName: string, now: Instant, random: seq<byte>)
    requires Valid(r) && r.slotsInitialized && r.available.order != [] && |random| == StreamKeyBytes
    requires TryGetAssignment(r, sourceId, channelName).None?
    ensures var res := TryReserveStream(r, sourceId, channelName, now, random);
      var r' := ReleaseStream(res.registry, sourceId, channelName);
      && res.outcome.Success?
      && r'.available.order == r.available.order[1..] + [r.available.order[0]]
      && r'.available.members == r.available.members
      && r'.leases == r.leases && r'.allocations == r.allocations && r'.portKeys == r.portKeys
      && r'.slots == r.slots
  {
    var res := TryReserveStream(r, sourceId, channelName, now, random);
    ReserveTakesHead(r, sourceId, channelName, now, random);
    DropHead(r.available);
    var p := r.available.order[0];
    assert p in r.available.members && p in r.slots && p !in r.allocations;
    var k := LeaseIndex(sourceId, channelName);
    assert res.registry.leases == r.leases[k := res.outcome.value];
    assert res.registry.leases - {k} == r.leases;
    assert r.allocations[p := now] - {p} == r.allocations;
    assert r.portKeys[p := res.outcome.value.key] - {p} == r.portKeys;
  }

  // ---------------------------------------------------------------------------
  // Expiry

  /** One iteration of the expiry loop keeps the registry valid. */
  lemma SweepPortPreservesValid(r: Registry, now: Instant, p: int)
    requires Valid(r)
    ensures Valid(SweepPort(r, now, p).registry)
  {
    var r' := SweepPort(r, now, p).registry;
    if Expired(r, now, p) {
      forall k | k in r'.leases
        ensures r'.leases[k].port != p
      {
        assert Text.Fold(r.portKeys[r.leases[k].port]) == k;
      }
    }
  }

  lemma {:induction false} SweepPortsPreservesValid(r: Registry, now: Instant, ports: seq<int>)
    requires Valid(r)
    ensures Valid(SweepPorts(r, now, ports).registry)
    decreases |ports|
  {
    if ports != [] {
      SweepPortPreservesValid(r, now, ports[0]);
      SweepPortsPreservesValid(SweepPort(r, now, ports[0]).registry, now, ports[1..]);
    }
  }

  /** Cleanup keeps the registry valid. */
  lemma CleanupPreservesValid(r: Registry, now: Instant, order: seq<int>)
    requires Valid(r) && forall p :: p in order <==> p in r.allocations
    ensures Valid(CleanupExpired(r, now, order).registry)
  {
    SweepPortsPreservesValid(r, now, order);
  }

  /** An expired port among `ports` whose port key folds to `k`. */
  ghost predicate NamedByExpired(r: Registry, now: Instant, ports: seq<int>, k: string) {
    exists p :: p in ports && Expired(r, now, p) && p in r.portKeys && Text.Fold(r.portKeys[p]) == k
  }

  /** The sweep removes exactly the leases some expired port names, leaves the
      others untouched, and leaves the slots alone. */
  lemma {:induction false} SweepLeases(r: Registry, now: Instant, ports: seq<int>)
    ensures var r' := SweepPorts(r, now, ports).registry;
      && r'.slots == r.slots
      && (forall k :: k in r'.leases ==> k in r.leases && r'.leases[k] == r.leases[k])
      && (forall k :: k in r.leases ==> (k in r'.leases <==> !NamedByExpired(r, now, ports, k)))
    decreases |ports|
  {
    if ports != [] {
      var p0 := ports[0];
      var r1 := SweepPort(r, now, p0).registry;
      var r' := SweepPorts(r, now, ports).registry;
      SweepLeases(r1, now, ports[1..]);
      forall k | k in r.leases
        ensures k in r'.leases <==> !NamedByExpired(r, now, ports, k)
      {
        if k in r1.leases {
          NamedAfterStep(r, now, ports, k);
        } else {
          assert NamedByExpired(r, now, ports, k) by {
            assert p0 in ports && Expired(r, now, p0);
          }
        }
      }
    }
  }

  /** For a lease that survives the first step, being named by a later
      expired port is the same before and after that step. */
  lemma NamedAfterStep(r: Registry, now: Instant, ports: seq<int>, k: string)
    requires ports != [] && k in SweepPort(r, now, ports[0]).registry.leases
    ensures NamedByExpired(SweepPort(r, now, ports[0]).registry, now, ports[1..], k) == NamedByExpired(r, now, ports, k)
  {
    var p0 := ports[0];
    var r1 := SweepPort(r, now, p0).registry;
    if NamedByExpired(r, now, ports, k) {
      var p :| p in ports && Expired(r, now, p) && p in r.portKeys && Text.Fold(r.portKeys[p]) == k;
      if p != p0 {
        assert p in ports[1..] && Expired(r1, now, p);
      }
    }
    if NamedByExpired(r1, now, ports[1..], k) {
      var p :| p in ports[1..] && Expired(r1, now, p) && p in r1.portKeys && Text.Fold(r1.portKeys[p]) == k;
      assert p in ports && Expired(r, now, p);
    }
  }

  /** One step of the sweep returns exactly the lease it removed, and keeps
      every other lease as it was. */
  lemma SweepPortReturned(r: Registry, now: Instant, p: int)
    ensures var s := SweepPort(r, now, p);
      && (forall a :: a in s.expired <==> exists k :: k in r.leases && k !in s.registry.leases && r.leases[k] == a)
      && (forall k :: k in s.registry.leases ==> k in r.leases && s.registry.leases[k] == r.leases[k])
  {
    var s := SweepPort(r, now, p);
    forall a
      ensures a in s.expired <==> exists k :: k in r.leases && k !in s.registry.leases && r.leases[k] == a
    {
      if a in s.expired {
        var k := Text.Fold(r.portKeys[p]);
        assert k in r.leases && k !in s.registry.leases && r.leases[k] == a;
      }
    }
  }

  /** The leases the sweep returns are exactly the leases it removed. */
  lemma {:induction false} SweepReturned(r: Registry, now: Instant, ports: seq<int>)
    ensures var s := SweepPorts(r, now, ports);
      forall a :: a in s.expired <==> exists k :: k in r.leases && k !in s.registry.leases && r.leases[k] == a
    decreases |ports|
  {
    if ports != [] {
      var first := SweepPort(r, now, ports[0]);
      var r1 := first.registry;
      var rest := SweepPorts(r1, now, ports[1..]);
      var s := SweepPorts(r, now, ports);
      assert s.expired == first.expired + rest.expired && s.registry == rest.registry;
      SweepPortReturned(r, now, ports[0]);
      SweepReturned(r1, now, ports[1..]);
      SweepLeases(r1, now, ports[1..]);
      forall a
        ensures a in s.expired <==> exists k :: k in r.leases && k !in s.registry.leases && r.leases[k] == a
      {
        if a in rest.expired {
          var k :| k in r1.leases && k !in s.registry.leases && r1.leases[k] == a;
          assert k in r.leases && r.leases[k] == a;
        }
        if exists k :: k in r.leases && k !in s.registry.leases && r.leases[k] == a {
          var k :| k in r.leases && k !in s.registry.leases && r.leases[k] == a;
          if k !in r1.leases {
            assert a in first.expired;
          } else {
            assert a in rest.expired;
          }
        }
      }
    }
  }

  /** The sweep queues every expired announced port at the back of the queue:
      what was queued stays queued in the same order, and the queue gains
      exactly those ports. */
  lemma {:induction false} SweepQueue(r: Registry, now: Instant, ports: seq<int>)
    ensures var r' := SweepPorts(r, now, ports).registry;
      && r.available.order <= r'.available.order
      && (forall p :: p in r'.available.members <==>
            p in r.available.members || (p in ports && Expired(r, now, p) && p in r.slots))
      && (r.available.Mirrors() ==> r'.available.Mirrors())
    decreases |ports|
  {
    if ports != [] {
      var r1 := SweepPort(r, now, ports[0]).registry;
      SweepQueue(r1, now, ports[1..]);
      SweepLeases(r, now, [ports[0]]);
      forall p | p in ports[1..] && p != ports[0]
        ensures Expired(r1, now, p) == Expired(r, now, p)
      {
      }
    }
  }

  /** `CleanupExpired` on a valid registry: a lease is removed exactly when
      some expired port's key names it, so in particular every lease whose
      own port expired; the removed leases are the ones returned; the kept
      allocations keep their times; every expired announced port joins the
      back of the queue. */
  lemma CleanupExpiredEffect(r: Registry, now: Instant, order: seq<int>)
    requires Valid(r) && forall p :: p in order <==> p in r.allocations
    ensures var s := CleanupExpired(r, now, order);
      var r' := s.registry;
      && (forall k :: k in r'.leases <==>
            k in r.leases && !(exists p :: Expired(r, now, p) && Text.Fold(r.portKeys[p]) == k))
      && (forall k :: k in r.leases && Expired(r, now, r.leases[k].port) ==> k !in r'.leases)
      && (forall k :: k in r'.leases ==> r'.leases[k] == r.leases[k])
      && (forall a :: a in s.expired <==> exists k :: k in r.leases && k !in r'.leases && r.leases[k] == a)
      && (forall p :: p in r'.allocations ==> r'.allocations[p] == r.allocations[p])
      && r.available.order <= r'.available.order
      && (forall p :: p in r'.available.members <==> p in r.available.members || (Expired(r, now, p) && p in r.slots))
  {
    var s := CleanupExpired(r, now, order);
    var r' := s.registry;
    SweepLeases(r, now, order);
    SweepReturned(r, now, order);
    SweepQueue(r, now, order);
    SweepAllocationTimes(r, now, order);
    forall k | k in r.leases
      ensures NamedByExpired(r, now, order, k) <==> exists p :: Expired(r, now, p) && Text.Fold(r.portKeys[p]) == k
    {
      if exists p :: Expired(r, now, p) && Text.Fold(r.portKeys[p]) == k {
        var p :| Expired(r, now, p) && Text.Fold(r.portKeys[p]) == k;
        assert p in order;
      }
    }
    forall k | k in r.leases && Expired(r, now, r.leases[k].port)
      ensures k !in r'.leases
    {
      assert r.leases[k].port in order;
    }
  }

  /** The sweep never changes the time of an allocation it keeps. */
  lemma {:induction false} SweepAllocationTimes(r: Registry, now: Instant, ports: seq<int>)
    ensures var r' := SweepPorts(r, now, ports).registry;
      forall p :: p in r'.allocations ==> p in r.allocations && r'.allocations[p] == r.allocations[p]
    decreases |ports|
  {
    if ports != [] {
      SweepAllocationTimes(SweepPort(r, now, ports[0]).registry, now, ports[1..]);
    }
  }

  /** A stale port is an allocated port whose key names a lease held on
      another port, the state a second reservation for the same source and
      channel leaves behind. When the stale port expires first, cleanup ends
      that lease as well, although the lease's own port has not expired: the
      lease is removed and returned, and its port stays allocated with no
      lease to release it. */
  lemma StaleExpiryEndsLease(r: Registry, now: Instant, order: seq<int>, stale: int, k: string)
    requires Valid(r) && forall p :: p in order <==> p in r.allocations
    requires k in r.leases && stale in r.portKeys && Text.Fold(r.portKeys[stale]) == k
    requires Expired(r, now, stale) && !Expired(r, now, r.leases[k].port)
    ensures var s := CleanupExpired(r, now, order);
      && k !in s.registry.leases
      && r.leases[k] in s.expired
      && r.leases[k].port in s.registry.allocations
  {
    CleanupExpiredEffect(r, now, order);
  }
}

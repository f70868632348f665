/** `NatsSubjects`: the message-bus subject names. Three are fixed; the
    others put an id between a fixed prefix and, for some, a fixed suffix. */
module NatsSubjects {
  const AuthRequests: string := "auth.requests"
  const StreamsAnnounce: string := "streams.announce"
  const StreamsState: string := "streams.state"

  function AuthResponses(sourceId: string): string {
    "auth.responses." + sourceId
  }

  function SourceCommands(sourceId: string): string {
    "sources." + sourceId + ".commands"
  }

  function SourceTelemetry(sourceId: string): string {
    "sources." + sourceId + ".telemetry"
  }

  function ViewerTelemetry(viewerId: string): string {
    "viewers." + viewerId + ".telemetry"
  }

  function Health(component: string): string {
    "health." + component
  }

  /** A fixed prefix and suffix around a value determine the value. */
  lemma EnclosedInjective(prefix: string, suffix: string, a: string, b: string)
    ensures prefix + a + suffix == prefix + b + suffix <==> a == b
  {
    if prefix + a + suffix == prefix + b + suffix {
      assert |a| == |b|;
      assert a == (prefix + a + suffix)[|prefix|..|prefix| + |a|];
      assert b == (prefix + b + suffix)[|prefix|..|prefix| + |b|];
    }
  }

  /** Each per-id builder names a different subject for every id. */
  lemma BuildersInjective(a: string, b: string)
    ensures AuthResponses(a) == AuthResponses(b) <==> a == b
    ensures SourceCommands(a) == SourceCommands(b) <==> a == b
    ensures SourceTelemetry(a) == SourceTelemetry(b) <==> a == b
    ensures ViewerTelemetry(a) == ViewerTelemetry(b) <==> a == b
    ensures Health(a) == Health(b) <==> a == b
  {
    EnclosedInjective("auth.responses.", "", a, b);
    assert AuthResponses(a) == "auth.responses." + a + "" && AuthResponses(b) == "auth.responses." + b + "";
    EnclosedInjective("sources.", ".commands", a, b);
    EnclosedInjective("sources.", ".telemetry", a, b);
    EnclosedInjective("viewers.", ".telemetry", a, b);
    EnclosedInjective("health.", "", a, b);
    assert Health(a) == "health." + a + "" && Health(b) == "health." + b + "";
  }

  /** The three fixed subjects are pairwise distinct, and no source's
      response subject coincides with any of them. */
  lemma FixedSubjectsDistinct(sourceId: string)
    ensures AuthRequests != StreamsAnnounce && AuthRequests != StreamsState && StreamsAnnounce != StreamsState
    ensures AuthResponses(sourceId) != AuthRequests
    ensures AuthResponses(sourceId) != StreamsAnnounce && AuthResponses(sourceId) != StreamsState
  {
    assert AuthResponses(sourceId)[7] == 's' != AuthRequests[7];
    assert AuthResponses(sourceId)[0] == 'a' != StreamsState[0];
  }

  /** Commands and telemetry never share a subject, for any pair of ids:
      the subjects end in different letters. */
  lemma CommandsNotTelemetry(a: string, b: string)
    ensures SourceCommands(a) != SourceTelemetry(b)
  {
    var c, t := SourceCommands(a), SourceTelemetry(b);
    assert c[|c| - 1] == 's' && t[|t| - 1] == 'y';
  }

  /** The families are told apart by their first word, so subjects of
      different families never coincide, whatever the ids. */
  lemma FamiliesDisjoint(a: string, b: string)
    ensures AuthResponses(a) != SourceCommands(b) && AuthResponses(a) != SourceTelemetry(b)
    ensures AuthResponses(a) != ViewerTelemetry(b) && AuthResponses(a) != Health(b)
    ensures SourceTelemetry(a) != ViewerTelemetry(b) && SourceCommands(a) != ViewerTelemetry(b)
    ensures Health(a) != SourceCommands(b) && Health(a) != SourceTelemetry(b) && Health(a) != ViewerTelemetry(b)
  {
    assert AuthResponses(a)[0] == 'a' && Health(a)[0] == 'h';
    assert SourceCommands(a)[0] == 's' && SourceTelemetry(a)[0] == 's' && ViewerTelemetry(b)[0] == 'v';
    assert SourceCommands(b)[0] == 's' && SourceTelemetry(b)[0] == 's' && Health(b)[0] == 'h';
  }
}

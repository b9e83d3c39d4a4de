/** The database as the code works on it: tables updated in place, statement by statement, with a
    transaction rolled back by restoring what it had changed. Every method is proved to do what the
    corresponding specification function says. */
module Store {
  import opened Base
  import opened Events
  import opened Projector
  import opened EventLog
  import opened Rebuild
  import Text

  /** `after` and `r` are what projecting the payload onto `before` must give. */
  ghost predicate Follows(
    before: Projection, id: EventId, at: int, p: Payload, r: Result<Outcome, EventsError>, after: Projection)
  {
    match Project(before, id, at, p)
    case Ok(v) => r == Ok(OutcomeOf(id, p)) && after == v
    case Err(e) => r == Err(e)
  }

  class Database {
    var log: seq<StoredEvent>
    var origins: map<PeerId, Origin>
    var peers: map<PeerId, Peer>
    var forks: map<(PeerId, nat), Fork>
    var tables: Tables
    var refs: set<EventRef>
    var redactions: map<EventId, Tombstone>
    var actorRedactions: map<ActorId, Tombstone>

    ghost function View(): State
      reads this
    {
      State(log, origins, peers, forks, Projection(tables, refs), redactions, actorRedactions)
    }

    constructor ()
      ensures View() == INITIAL
    {
      log, origins, peers, forks := [], map[], map[], map[];
      tables, refs := NO_ROWS, {};
      redactions, actorRedactions := map[], map[];
    }

    // ---- Projection, statement by statement ----

    method ResolveOrCreateNode(identifier: string, nodeType: string, at: int) returns (id: NodeId)
      modifies this`tables
      ensures id == OfIdentifier(identifier)
      ensures tables == old(tables).(nodes :=
                        Keep(old(tables.nodes), id, Node(Text.NormalizeNodeType(nodeType), identifier, at)))
    {
      id := OfIdentifier(identifier);
      if id !in tables.nodes {
        tables := tables.(nodes := tables.nodes[id := Node(Text.NormalizeNodeType(nodeType), identifier, at)]);
      }
    }

    method InsertEdgeIfMissing(subject: NodeId, relation: string, target: NodeId, at: int) returns (id: EdgeId)
      modifies this`tables
      ensures id == OfTriple(subject, relation, target)
      ensures tables == old(tables).(edges := Keep(old(tables.edges), id, Edge(subject, relation, target, at)))
    {
      id := OfTriple(subject, relation, target);
      if id !in tables.edges {
        tables := tables.(edges := tables.edges[id := Edge(subject, relation, target, at)]);
      }
    }

    method SetStatus(a: EventId, status: Status)
      modifies this`tables
      ensures tables == old(tables).(assertions := Projector.SetStatus(old(tables.assertions), a, status))
    {
      if a in tables.assertions {
        tables := tables.(assertions := tables.assertions[a := tables.assertions[a].(status := status)]);
      }
    }

    method ProjectAssertRelation(id: EventId, at: int, p: Payload) returns (r: Result<Outcome, EventsError>)
      requires p.AssertRelation?
      modifies this`tables, this`refs
      ensures Follows(old(Projection(tables, refs)), id, at, p, r, Projection(tables, refs))
    {
      var subject := ResolveOrCreateNode(p.subject, p.subjectType, at);
      var target := ResolveOrCreateNode(p.target, p.targetType, at);
      var edge := InsertEdgeIfMissing(subject, Text.NormalizePredicate(p.relation), target, at);
      if p.actor.Malformed? { return Err(BadId); }
      if p.extraction.Malformed? { return Err(UnknownEnumValue); }
      if id in tables.assertions || p.actor.value !in tables.actors { return Err(Storage); }
      tables := tables.(assertions := tables.assertions[id :=
        Assertion(edge, p.actor.value, p.confidence, p.observedAt, at, p.extraction.value, Active)]);
      refs := refs + {EventRef(id, AssertionRef(id))};
      refs := refs + {EventRef(id, EdgeRef(edge))};
      refs := refs + {EventRef(id, NodeRef(subject))};
      refs := refs + {EventRef(id, NodeRef(target))};
      r := Ok(Unit);
    }

    method ProjectAddEvidence(id: EventId, at: int, p: Payload) returns (r: Result<Outcome, EventsError>)
      requires p.AddEvidence?
      modifies this`tables, this`refs
      ensures Follows(old(Projection(tables, refs)), id, at, p, r, Projection(tables, refs))
    {
      if p.assertion.Malformed? { return Err(BadId); }
      if p.assertion.value !in tables.assertions { return Err(NotFound); }
      if p.evidenceType.Malformed? { return Err(UnknownEnumValue); }
      if id in tables.evidence { return Err(Storage); }
      tables := tables.(evidence := tables.evidence[id := Evidence(
        p.assertion.value, p.evidenceType.value, p.uri, p.title, p.excerpt, p.contentHash, p.observedAt,
        p.retrievedAt, EvidenceMetadata(p.pinnedCid, p.metadata))]);
      refs := refs + {EventRef(id, AssertionRef(p.assertion.value))};
      r := Ok(Unit);
    }

    method ProjectVerifyAssertion(id: EventId, at: int, p: Payload) returns (r: Result<Outcome, EventsError>)
      requires p.VerifyAssertion?
      modifies this`tables, this`refs
      ensures Follows(old(Projection(tables, refs)), id, at, p, r, Projection(tables, refs))
    {
      if p.assertion.Malformed? { return Err(BadId); }
      if p.actor.Malformed? { return Err(BadId); }
      if p.assertion.value !in tables.assertions { return Err(NotFound); }
      if id in tables.observations || p.actor.value !in tables.actors { return Err(Storage); }
      tables := tables.(observations := tables.observations[id :=
        Observation(p.assertion.value, p.actor.value, p.result, p.checkedAt, at)]);
      refs := refs + {EventRef(id, AssertionRef(p.assertion.value))};
      r := Ok(Unit);
    }

    method ProjectDisputeAssertion(id: EventId, at: int, p: Payload) returns (r: Result<Outcome, EventsError>)
      requires p.DisputeAssertion?
      modifies this`tables, this`refs
      ensures Follows(old(Projection(tables, refs)), id, at, p, r, Projection(tables, refs))
    {
      if p.assertion.Malformed? { return Err(BadId); }
      if p.actor.Malformed? { return Err(BadId); }
      if p.assertion.value !in tables.assertions { return Err(NotFound); }
      if id in tables.disputes || p.actor.value !in tables.actors { return Err(Storage); }
      tables := tables.(disputes := tables.disputes[id := Challenge(p.assertion.value, p.actor.value, p.reason, at)]);
      SetStatus(p.assertion.value, Disputed);
      refs := refs + {EventRef(id, AssertionRef(p.assertion.value))};
      r := Ok(Unit);
    }

    method ProjectRetractAssertion(id: EventId, at: int, p: Payload) returns (r: Result<Outcome, EventsError>)
      requires p.RetractAssertion?
      modifies this`tables, this`refs
      ensures Follows(old(Projection(tables, refs)), id, at, p, r, Projection(tables, refs))
    {
      if p.assertion.Malformed? { return Err(BadId); }
      if p.actor.Malformed? { return Err(BadId); }
      if p.assertion.value !in tables.assertions { return Err(NotFound); }
      if id in tables.retractions || p.actor.value !in tables.actors { return Err(Storage); }
      tables := tables.(retractions :=
        tables.retractions[id := Challenge(p.assertion.value, p.actor.value, p.reason, at)]);
      SetStatus(p.assertion.value, Retracted);
      refs := refs + {EventRef(id, AssertionRef(p.assertion.value))};
      r := Ok(Unit);
    }

    method ProjectSupersedeAssertion(id: EventId, at: int, p: Payload) returns (r: Result<Outcome, EventsError>)
      requires p.SupersedeAssertion?
      modifies this`tables, this`refs
      ensures Follows(old(Projection(tables, refs)), id, at, p, r, Projection(tables, refs))
    {
      if p.oldAssertion.Malformed? || p.newAssertion.Malformed? || p.actor.Malformed? { return Err(BadId); }
      if p.oldAssertion.value !in tables.assertions { return Err(NotFound); }
      if p.newAssertion.value !in tables.assertions { return Err(NotFound); }
      if id in tables.supersessions || p.actor.value !in tables.actors { return Err(Storage); }
      tables := tables.(supersessions := tables.supersessions[id :=
        Supersession(p.oldAssertion.value, p.newAssertion.value, p.actor.value, at)]);
      SetStatus(p.oldAssertion.value, Superseded);
      refs := refs + {EventRef(id, AssertionRef(p.oldAssertion.value))};
      refs := refs + {EventRef(id, AssertionRef(p.newAssertion.value))};
      r := Ok(Unit);
    }

    method ProjectActorDeclare(id: EventId, at: int, p: Payload) returns (r: Result<Outcome, EventsError>)
      requires p.ActorDeclare?
      modifies this`tables
      ensures Follows(old(Projection(tables, refs)), id, at, p, r, Projection(tables, refs))
    {
      if p.actorType.Malformed? { return Err(UnknownEnumValue); }
      if p.publicKey.Some? && p.publicKey.value.Malformed? { return Err(Hex); }
      var key := if p.publicKey.Some? then Some(p.publicKey.value.value) else None;
      var seed := HexText(id, 0);
      if p.publicKey.Some? {
        seed := HexText(p.publicKey.value.value, p.publicKey.value.spelling);
      }
      var actor := OfSeed(seed);
      if actor !in tables.actors {
        tables := tables.(actors := tables.actors[actor := Actor(p.actorType.value, p.name, key, p.identityUri, at)]);
      }
      r := Ok(ActorDeclared(actor));
    }

    method ProjectActorKeyAdd(id: EventId, at: int, p: Payload) returns (r: Result<Outcome, EventsError>)
      requires p.ActorKeyAdd?
      modifies this`tables
      ensures Follows(old(Projection(tables, refs)), id, at, p, r, Projection(tables, refs))
    {
      if p.actor.Malformed? { return Err(BadId); }
      if p.keyHash.Malformed? { return Err(Hex); }
      var permissions := [];
      var i := |p.permissions|;
      while i > 0
        invariant 0 <= i <= |p.permissions|
        invariant permissions == Known(p.permissions[i..])
      {
        i := i - 1;
        assert p.permissions[i..][1..] == p.permissions[i + 1..];
        if p.permissions[i].Parsed? {
          permissions := [p.permissions[i].value] + permissions;
        }
      }
      if p.keyHash.value in tables.keys || p.actor.value !in tables.actors { return Err(Storage); }
      tables := tables.(keys := tables.keys[p.keyHash.value := ActorKey(p.actor.value, permissions, at, None)]);
      r := Ok(Unit);
    }

    method ProjectActorKeyRevoke(id: EventId, at: int, p: Payload) returns (r: Result<Outcome, EventsError>)
      requires p.ActorKeyRevoke?
      modifies this`tables
      ensures Follows(old(Projection(tables, refs)), id, at, p, r, Projection(tables, refs))
    {
      if p.keyHash.Malformed? { return Err(Hex); }
      var k := p.keyHash.value;
      if k in tables.keys && tables.keys[k].revokedAt.None? {
        tables := tables.(keys := tables.keys[k := tables.keys[k].(revokedAt := Some(at))]);
      }
      r := Ok(Unit);
    }

    method ProjectNodeAlias(id: EventId, at: int, p: Payload) returns (r: Result<Outcome, EventsError>)
      requires p.NodeAlias?
      modifies this`tables
      ensures Follows(old(Projection(tables, refs)), id, at, p, r, Projection(tables, refs))
    {
      if p.node.Malformed? { return Err(BadId); }
      if p.node.value !in tables.nodes { return Err(NotFound); }
      if p.aliasType.Malformed? { return Err(UnknownEnumValue); }
      if (p.node.value, p.alias) !in tables.aliases {
        tables := tables.(aliases := tables.aliases[(p.node.value, p.alias) := p.aliasType.value]);
      }
      r := Ok(Unit);
    }

    /** On an error the tables may be left half-changed; the enclosing transaction restores them. */
    method ProjectPayload(id: EventId, at: int, p: Payload) returns (r: Result<Outcome, EventsError>)
      modifies this`tables, this`refs
      ensures Follows(old(Projection(tables, refs)), id, at, p, r, Projection(tables, refs))
    {
      match p
      case AssertRelation(_, _, _, _, _, _, _, _, _) => r := ProjectAssertRelation(id, at, p);
      case AddEvidence(_, _, _, _, _, _, _, _, _, _) => r := ProjectAddEvidence(id, at, p);
      case VerifyAssertion(_, _, _, _) => r := ProjectVerifyAssertion(id, at, p);
      case DisputeAssertion(_, _, _) => r := ProjectDisputeAssertion(id, at, p);
      case RetractAssertion(_, _, _) => r := ProjectRetractAssertion(id, at, p);
      case SupersedeAssertion(_, _, _) => r := ProjectSupersedeAssertion(id, at, p);
      case ActorDeclare(_, _, _, _) => r := ProjectActorDeclare(id, at, p);
      case ActorKeyAdd(_, _, _) => r := ProjectActorKeyAdd(id, at, p);
      case ActorKeyRevoke(_, _) => r := ProjectActorKeyRevoke(id, at, p);
      case NodeAlias(_, _, _) => r := ProjectNodeAlias(id, at, p);
    }

    // ---- The log ----

    /** Ignored, not refused, when the identifier or the slot is taken. */
    method InsertEvent(row: StoredEvent) returns (inserted: bool)
      modifies this`log
      ensures inserted <==> !Conflicts(old(log), row)
      ensures log == if inserted then old(log) + [row] else old(log)
    {
      inserted := !Conflicts(log, row);
      if inserted {
        log := log + [row];
      }
    }

    method CommitLocalEvent(key: Key, payload: Payload, createdAt: int)
      returns (r: Result<(EventId, Outcome), EventsError>)
      modifies this
      ensures (View(), r) == Commit(old(View()), key, payload, createdAt)
    {
      var log0, tables0, refs0 := log, tables, refs;
      var origin := OfKey(key);
      var sequence, previous := 1, None;
      if origin in origins {
        sequence, previous := origins[origin].highest + 1, Some(origins[origin].head);
      }
      var (signed, id) := BuildAndSign(key, sequence, previous, createdAt, payload);
      var inserted := InsertEvent(StoredEvent(id, origin, sequence, previous, createdAt, signed));
      if !inserted {
        return Err(NotFound);
      }
      var outcome := ProjectPayload(id, createdAt, signed.unsigned.payload);
      if outcome.Err? {
        log, tables, refs := log0, tables0, refs0;
        return Err(outcome.error);
      }
      origins := origins[origin := Origin(sequence, id)];
      r := Ok((id, outcome.value));
    }

    method IngestRemoteEvent(key: Key, signed: SignedEvent, receivedAt: int)
      returns (r: Result<IngestOutcome, EventsError>)
      modifies this
      ensures (View(), r) == Ingest(old(View()), key, signed, receivedAt)
    {
      var verified := VerifyAndDeriveId(signed, key);
      if verified.Err? { return Err(verified.error); }
      var id := verified.value;
      var claimed := OriginOf(signed, key);
      if claimed.Err? { return Err(claimed.error); }
      var origin := claimed.value;
      var sequence := signed.unsigned.sequence;
      var parsed := PreviousOf(signed);
      if parsed.Err? { return Err(parsed.error); }
      var previous := parsed.value;

      var found := FindAt(log, origin, sequence);
      if found.Some? {
        if found.value == id {
          return Ok(AlreadyKnown(id));
        }
        peers := Seen(peers, origin, key, receivedAt);
        if (origin, sequence) !in forks {
          forks := forks[(origin, sequence) := Fork(found.value, id, receivedAt, signed)];
        }
        peers := peers[origin := peers[origin].(forked := true)];
        return Ok(Forked(found.value, id));
      }

      var log0, tables0, refs0 := log, tables, refs;
      var expectedNext, expectedHead := 1, None;
      if origin in origins {
        expectedNext, expectedHead := origins[origin].highest + 1, Some(origins[origin].head);
      }
      var chained := ValidateChain(expectedNext, expectedHead, sequence, previous);
      if chained.Err? { return Err(chained.error); }
      var _ := InsertEvent(StoredEvent(id, origin, sequence, previous, signed.unsigned.createdAt, signed));
      var outcome := ProjectPayload(id, signed.unsigned.createdAt, signed.unsigned.payload);
      if outcome.Err? {
        log, tables, refs := log0, tables0, refs0;
        return Err(outcome.error);
      }
      origins := origins[origin := Origin(sequence, id)];
      r := Ok(Applied(id, outcome.value));
    }

    // ---- Redaction and rebuild ----

    method BlankEvidenceRow(id: EventId) returns (updated: bool)
      modifies this`tables
      ensures updated <==> id in old(tables.evidence)
      ensures tables == Redacted(old(tables), {id}, {})
    {
      updated := id in tables.evidence;
      if updated {
        tables := tables.(evidence := tables.evidence[id := Blank(tables.evidence[id])]);
      }
      assert tables.evidence == BlankEvidence(old(tables.evidence), {id});
      assert tables.actors == BlankActors(old(tables.actors), {});
    }

    method BlankActorRow(actor: ActorId) returns (updated: bool)
      modifies this`tables
      ensures updated <==> actor in old(tables.actors)
      ensures tables == Redacted(old(tables), {}, {actor})
    {
      updated := actor in tables.actors;
      if updated {
        tables := tables.(actors := tables.actors[actor := tables.actors[actor].(identityUri := None)]);
      }
      assert tables.evidence == BlankEvidence(old(tables.evidence), {});
      assert tables.actors == BlankActors(old(tables.actors), {actor});
    }

    method RedactEvidenceText(admin: bool, id: EventId, at: int, reason: Option<string>)
      returns (r: Result<(), GraphError>)
      modifies this
      ensures (View(), r) == RedactEvidence(old(View()), admin, id, at, reason)
    {
      if !admin { return Err(PermissionDenied); }
      if reason.Some? && |reason.value| > MAX_REASON_LEN { return Err(InvalidInput); }
      if id in redactions { return Err(AlreadyRedacted); }
      var tables0 := tables;
      var updated := BlankEvidenceRow(id);
      if !updated {
        tables := tables0;
        return Err(MissingRow);
      }
      if !Stored(log, id) {
        tables := tables0;
        return Err(StorageFailure);
      }
      redactions := redactions[id := Tombstone(at, reason)];
      r := Ok(());
    }

    method RedactActorUri(admin: bool, actor: ActorId, at: int, reason: Option<string>)
      returns (r: Result<(), GraphError>)
      modifies this
      ensures (View(), r) == RedactActor(old(View()), admin, actor, at, reason)
    {
      if !admin { return Err(PermissionDenied); }
      if reason.Some? && |reason.value| > MAX_REASON_LEN { return Err(InvalidInput); }
      if actor in actorRedactions { return Err(ActorAlreadyRedacted); }
      var tables0 := tables;
      var updated := BlankActorRow(actor);
      if !updated {
        tables := tables0;
        return Err(MissingRow);
      }
      actorRedactions := actorRedactions[actor := Tombstone(at, reason)];
      r := Ok(());
    }

    /** Reapplies the evidence tombstones one by one, in any order. */
    method ReapplyRedactions()
      modifies this`tables
      ensures tables == Redacted(old(tables), redactions.Keys, {})
    {
      hide Redacted;
      ghost var before := tables;
      var rest := redactions.Keys;
      RedactNothing(before);
      assert redactions.Keys - rest == {};
      while rest != {}
        invariant rest <= redactions.Keys
        invariant tables == Redacted(before, redactions.Keys - rest, {})
        decreases rest
      {
        var id :| id in rest;
        ghost var none: set<ActorId> := {};
        assert none + none == none;
        RedactedTwice(before, redactions.Keys - rest, none, {id}, none);
        var _ := BlankEvidenceRow(id);
        assert redactions.Keys - (rest - {id}) == redactions.Keys - rest + {id};
        rest := rest - {id};
      }
      assert redactions.Keys - {} == redactions.Keys;
    }

    method ReapplyActorRedactions()
      modifies this`tables
      ensures tables == Redacted(old(tables), {}, actorRedactions.Keys)
    {
      hide Redacted;
      ghost var before := tables;
      var rest := actorRedactions.Keys;
      RedactNothing(before);
      assert actorRedactions.Keys - rest == {};
      while rest != {}
        invariant rest <= actorRedactions.Keys
        invariant tables == Redacted(before, {}, actorRedactions.Keys - rest)
        decreases rest
      {
        var actor :| actor in rest;
        ghost var none: set<EventId> := {};
        assert none + none == none;
        RedactedTwice(before, none, actorRedactions.Keys - rest, none, {actor});
        var _ := BlankActorRow(actor);
        assert actorRedactions.Keys - (rest - {actor}) == actorRedactions.Keys - rest + {actor};
        rest := rest - {actor};
      }
      assert actorRedactions.Keys - {} == actorRedactions.Keys;
    }

    /** Projects every stored event again, in insertion order, on top of what the tables hold. */
    method ReplayLog() returns (r: Result<(), EventsError>)
      modifies this`tables, this`refs
      ensures match ReplayFrom(old(Projection(tables, refs)), log)
              case Ok(v) => r.Ok? && Projection(tables, refs) == v
              case Err(e) => r == Err(e)
    {
      hide Project;
      ghost var start := Projection(tables, refs);
      for i := 0 to |log|
        invariant ReplayFrom(start, log[..i]) == Ok(Projection(tables, refs))
      {
        var row := log[i];
        assert log[..i + 1][..i] == log[..i];
        var outcome := ProjectPayload(row.id, row.createdAt, row.signed.unsigned.payload);
        if outcome.Err? {
          ReplayStops(start, log, i + 1);
          return Err(outcome.error);
        }
      }
      assert log[..|log|] == log;
      r := Ok(());
    }

    method RebuildTables() returns (r: Result<Summary, GraphError>)
      modifies this`tables, this`refs
      ensures (View(), r) == RebuildProjection(old(View()))
    {
      hide ReplayFrom, Clear, Redacted;
      var tables0, refs0 := tables, refs;
      var cleared := Clear(tables);
      if cleared.None? { return Err(StorageFailure); }
      tables := cleared.value;
      var replaying := ReplayLog();
      if replaying.Err? {
        tables, refs := tables0, refs0;
        return Err(Replaying(replaying.error));
      }
      ghost var replayed := tables;
      ReapplyRedactions();
      ReapplyActorRedactions();
      RedactedTwice(replayed, redactions.Keys, {}, {}, actorRedactions.Keys);
      assert redactions.Keys + {} == redactions.Keys && {} + actorRedactions.Keys == actorRedactions.Keys;
      r := Ok(Summary(|log|, |redactions|, |actorRedactions|));
    }
  }

  lemma RedactNothing(t: Tables)
    ensures Redacted(t, {}, {}) == t
  {
    assert BlankEvidence(t.evidence, {}) == t.evidence && BlankActors(t.actors, {}) == t.actors;
  }

  /** The first failing event fails the whole replay. */
  lemma {:induction false} ReplayStops(v: Projection, log: seq<StoredEvent>, i: nat)
    requires i <= |log| && ReplayFrom(v, log[..i]).Err?
    ensures ReplayFrom(v, log) == ReplayFrom(v, log[..i])
  {
    if i < |log| {
      assert log[..|log| - 1][..i] == log[..i];
      ReplayStops(v, log[..|log| - 1], i);
    } else {
      assert log[..i] == log;
    }
  }
}

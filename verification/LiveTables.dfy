/** The live tables of a reachable state, redactions included, and which events a state accepts, both in terms of
    the stored events. */
module LiveTables {
  import opened Base
  import opened Events
  import opened Projector
  import opened EventLog
  import opened Rebuild
  import opened Runs
  import opened ProjectionLaws
  import opened Convergence
  import opened Recorded
  import Orders
  import Text

  // ---- Columns ----

  lemma SaysRedacted(t: Tables, row: StoredEvent, evidence: set<EventId>, actors: set<ActorId>)
    requires Says(t, row, false)
    ensures Says(Redacted(t, evidence, actors), row, row.id in evidence)
  {
    hide Text.NormalizePredicate, EvidenceMetadata, Known;
  }

  /** In every reachable state every stored event has its rows, and they say what it says. A redacted evidence row
      has neither title nor excerpt, and every other column as before; one not redacted has all its columns. */
  lemma ReachableRecords(steps: seq<Step>, i: nat)
    requires i < |Run(INITIAL, steps).log|
    ensures var s := Run(INITIAL, steps);
            Says(s.projection.tables, s.log[i], s.log[i].id in s.redactions)
  {
    hide ReplayFrom, Run, LogOk, Says, Redacted;
    InitialInv();
    RunKeepsInv(INITIAL, steps);
    var s := Run(INITIAL, steps);
    EveryEventIsRecorded(s.log, i);
    SaysRedacted(Replay(s.log).value.tables, s.log[i], s.redactions.Keys, s.actorRedactions.Keys);
  }

  /** And the tables keyed by event hold nothing else. */
  lemma ReachableOwnRows(steps: seq<Step>, id: EventId, table: OwnTable)
    ensures var s := Run(INITIAL, steps);
            InTable(s.projection.tables, id, table) <==> Brought(s.log, id, table)
  {
    hide ReplayFrom, Run, LogOk, Brought;
    InitialInv();
    RunKeepsInv(INITIAL, steps);
    OwnRowsAreEvents(Run(INITIAL, steps).log, id, table);
  }

  /** What is redacted is there, without title and excerpt, and was brought by a stored event. */
  lemma ReachableRedactions(steps: seq<Step>, id: EventId)
    requires id in Run(INITIAL, steps).redactions
    ensures var s := Run(INITIAL, steps);
            && id in s.projection.tables.evidence && Brought(s.log, id, EvidenceRows)
            && s.projection.tables.evidence[id].title == None && s.projection.tables.evidence[id].excerpt == None
  {
    hide ReplayFrom, Run, LogOk, Brought;
    InitialInv();
    RunKeepsInv(INITIAL, steps);
    OwnRowsAreEvents(Run(INITIAL, steps).log, id, EvidenceRows);
  }

  /** A shared row says what the first event to name it said; of a redacted actor the identity URI is gone. */
  lemma ReachableShared(steps: seq<Step>, x: Shared)
    ensures var s := Run(INITIAL, steps);
            Find(s.projection.tables, x)
            == match FirstSaid(s.log, x)
               case Some(ActorEntry(row)) =>
                 var redacted := x.SharedActor? && x.actor in s.actorRedactions;
                 Some(ActorEntry(if redacted then row.(identityUri := None) else row))
               case said => said
  {
    hide ReplayFrom, Run, LogOk, FirstSaid;
    InitialInv();
    RunKeepsInv(INITIAL, steps);
    SharedRowsAreTheFirst(Run(INITIAL, steps).log, x);
  }

  /** A redacted actor is there. */
  lemma ReachableActorRedactions(steps: seq<Step>, a: ActorId)
    requires a in Run(INITIAL, steps).actorRedactions
    ensures var s := Run(INITIAL, steps);
            && a in s.projection.tables.actors && s.projection.tables.actors[a].identityUri == None
            && FirstSaid(s.log, SharedActor(a)).Some?
  {
    hide ReplayFrom, Run, LogOk, FirstSaid;
    InitialInv();
    RunKeepsInv(INITIAL, steps);
    SharedRowsAreTheFirst(Run(INITIAL, steps).log, SharedActor(a));
  }

  /** Keys, their revocations and the history references are those of the events, redactions or not. */
  lemma ReachableKeysAndReferences(steps: seq<Step>, k: Bytes32, ref: EventRef)
    ensures var s := Run(INITIAL, steps);
            && (k in s.projection.tables.keys <==> exists i :: 0 <= i < |s.log| && AddsKey(s.log[i], k))
            && (forall i: nat :: i < |s.log| && AddsKey(s.log[i], k) ==>
                  k in s.projection.tables.keys
                  && s.projection.tables.keys[k].revokedAt == FirstRevocation(s.log[i + 1..], k))
            && (ref in s.projection.refs <==>
                  exists i :: 0 <= i < |s.log| && s.log[i].id == ref.event
                              && RefersTo(PayloadOf(s.log[i]), ref.event, ref.target))
  {
    hide ReplayFrom, Run, LogOk, AddsKey, RefersTo, FirstRevocation;
    InitialInv();
    RunKeepsInv(INITIAL, steps);
    var s := Run(INITIAL, steps);
    KeysWereAdded(s.log, k);
    forall i: nat | i < |s.log| && AddsKey(s.log[i], k)
      ensures k in s.projection.tables.keys
              && s.projection.tables.keys[k].revokedAt == FirstRevocation(s.log[i + 1..], k)
    {
      KeysAreRevokedOnce(s.log, i, k);
    }
    ReferencesAreEvents(s.log, ref);
  }

  // ---- What a redaction does ----

  predicate Readable(reason: Option<string>) {
    reason.Some? ==> |reason.value| <= 2048
  }

  /** A redaction succeeds exactly for an administrator, a reason of acceptable length and a row that is there and not
      redacted yet; it then clears title and excerpt of that row, files the tombstone, and changes nothing else. */
  lemma EvidenceRedactionExactly(s: State, admin: bool, id: EventId, at: int, reason: Option<string>)
    requires ViewOk(s)
    ensures var (s', r) := RedactEvidence(s, admin, id, at, reason);
            var rows := s.projection.tables.evidence;
            && (r.Ok? <==> admin && Readable(reason) && id !in s.redactions && id in rows)
            && (r.Ok? ==>
                  s' == s.(redactions := s.redactions[id := Tombstone(at, reason)],
                           projection := s.projection.(tables := s.projection.tables.(evidence :=
                             rows[id := rows[id].(title := None, excerpt := None)]))))
            && (r.Err? ==>
                  s' == s && r.error == if !admin then PermissionDenied else if !Readable(reason) then InvalidInput
                                        else if id in s.redactions then AlreadyRedacted else MissingRow)
  {
    var t := s.projection.tables;
    if id in t.evidence {
      LiveEvidenceIsStored(s, id);
      assert BlankEvidence(t.evidence, {id}) == t.evidence[id := t.evidence[id].(title := None, excerpt := None)];
      assert BlankActors(t.actors, {}) == t.actors;
    }
  }

  /** The same of an actor, whose identity URI alone is cleared. */
  lemma ActorRedactionExactly(s: State, admin: bool, a: ActorId, at: int, reason: Option<string>)
    ensures var (s', r) := RedactActor(s, admin, a, at, reason);
            var rows := s.projection.tables.actors;
            && (r.Ok? <==> admin && Readable(reason) && a !in s.actorRedactions && a in rows)
            && (r.Ok? ==>
                  s' == s.(actorRedactions := s.actorRedactions[a := Tombstone(at, reason)],
                           projection := s.projection.(tables := s.projection.tables.(actors :=
                             rows[a := rows[a].(identityUri := None)]))))
            && (r.Err? ==>
                  s' == s && r.error == if !admin then PermissionDenied else if !Readable(reason) then InvalidInput
                                        else if a in s.actorRedactions then ActorAlreadyRedacted else MissingRow)
  {
    var t := s.projection.tables;
    if a in t.actors {
      assert BlankActors(t.actors, {a}) == t.actors[a := t.actors[a].(identityUri := None)];
      assert BlankEvidence(t.evidence, {}) == t.evidence;
    }
  }

  // ---- Which events are accepted ----

  ghost predicate Asserted(log: seq<StoredEvent>, a: EventId) {
    Brought(log, a, AssertionRows)
  }

  ghost predicate Declared(log: seq<StoredEvent>, a: ActorId) {
    FirstSaid(log, SharedActor(a)).Some?
  }

  /** The assertion or node that the event is about has not been stored. */
  ghost predicate MissesTarget(log: seq<StoredEvent>, p: Payload) {
    match p
    case AddEvidence(a, _, _, _, _, _, _, _, _, _) => !(a.Parsed? && Asserted(log, a.value))
    case VerifyAssertion(a, _, _, _) => !(a.Parsed? && Asserted(log, a.value))
    case DisputeAssertion(a, _, _) => !(a.Parsed? && Asserted(log, a.value))
    case RetractAssertion(a, _, _) => !(a.Parsed? && Asserted(log, a.value))
    case SupersedeAssertion(o, n, _) => !(o.Parsed? && n.Parsed? && Asserted(log, o.value) && Asserted(log, n.value))
    case NodeAlias(n, _, _) => !(n.Parsed? && FirstSaid(log, SharedNode(n.value)).Some?)
    case _ => false
  }

  /** Its actor has not been declared, or the key it adds has been added before. */
  ghost predicate MissesActorOrKey(log: seq<StoredEvent>, p: Payload) {
    match p
    case AssertRelation(_, _, _, _, _, actor, _, _, _) => !(actor.Parsed? && Declared(log, actor.value))
    case VerifyAssertion(_, actor, _, _) => !(actor.Parsed? && Declared(log, actor.value))
    case DisputeAssertion(_, actor, _) => !(actor.Parsed? && Declared(log, actor.value))
    case RetractAssertion(_, actor, _) => !(actor.Parsed? && Declared(log, actor.value))
    case SupersedeAssertion(_, _, actor) => !(actor.Parsed? && Declared(log, actor.value))
    case ActorKeyAdd(actor, k, _) =>
      || !(actor.Parsed? && Declared(log, actor.value))
      || !(k.Parsed? && forall i :: 0 <= i < |log| ==> !AddsKey(log[i], k.value))
    case _ => false
  }

  /** The tables answer the projector's questions as the stored events do. */
  ghost predicate Mirrors(t: Tables, log: seq<StoredEvent>) {
    && (forall a :: a in t.assertions <==> Asserted(log, a))
    && (forall a :: a in t.actors <==> Declared(log, a))
    && (forall n :: n in t.nodes <==> FirstSaid(log, SharedNode(n)).Some?)
    && (forall k :: k in t.keys <==> exists i :: 0 <= i < |log| && AddsKey(log[i], k))
  }

  lemma ReplayMirrors(log: seq<StoredEvent>)
    requires Replay(log).Ok?
    ensures Mirrors(Replay(log).value.tables, log)
  {
    hide ReplayFrom, FirstSaid, Brought, AddsKey;
    var t := Replay(log).value.tables;
    forall a
      ensures a in t.assertions <==> Asserted(log, a)
    {
      OwnRowsAreEvents(log, a, AssertionRows);
    }
    forall a
      ensures a in t.actors <==> Declared(log, a)
    {
      SharedRowsAreTheFirst(log, SharedActor(a));
    }
    forall n
      ensures n in t.nodes <==> FirstSaid(log, SharedNode(n)).Some?
    {
      SharedRowsAreTheFirst(log, SharedNode(n));
    }
    forall k
      ensures k in t.keys <==> exists i :: 0 <= i < |log| && AddsKey(log[i], k)
    {
      KeysWereAdded(log, k);
    }
  }

  /** Which unreadable field is reported, or, where it comes to light first, the missing target. */
  ghost function Unreadable(log: seq<StoredEvent>, p: Payload): EventsError {
    match p
    case AssertRelation(_, _, _, _, _, actor, _, _, _) => if actor.Malformed? then BadId else UnknownEnumValue
    case AddEvidence(a, _, _, _, _, _, _, _, _, _) =>
      if a.Malformed? then BadId else if MissesTarget(log, p) then NotFound else UnknownEnumValue
    case NodeAlias(n, _, _) =>
      if n.Malformed? then BadId else if MissesTarget(log, p) then NotFound else UnknownEnumValue
    case ActorDeclare(kind, _, _, _) => if kind.Malformed? then UnknownEnumValue else Hex
    case ActorKeyAdd(actor, _, _) => if actor.Malformed? then BadId else Hex
    case ActorKeyRevoke(_, _) => Hex
    case _ => BadId
  }

  /** The projector's verdict, from the stored events alone. */
  ghost predicate Verdict(r: Option<EventsError>, log: seq<StoredEvent>, p: Payload) {
    && (r.None? <==> Decodes(p) && !MissesTarget(log, p) && !MissesActorOrKey(log, p))
    && (Decodes(p) && r.Some? ==> r.value == if MissesTarget(log, p) then NotFound else EventsError.Storage)
    && (!Decodes(p) ==> r == Some(Unreadable(log, p)))
  }

  lemma RejectionIsVerdict(t: Tables, log: seq<StoredEvent>, id: EventId, p: Payload)
    requires Mirrors(t, log) && Orders.Unused(t, id)
    ensures Verdict(Rejection(t, id, p), log, p)
  {
    hide Asserted, Declared, FirstSaid, AddsKey;
  }

  lemma LiveVerdict(s: State, id: EventId, p: Payload)
    requires Inv(s) && !Stored(s.log, id)
    ensures Verdict(Rejection(s.projection.tables, id, p), s.log, p)
  {
    hide ReplayFrom, LogOk, Mirrors, Verdict, Stored, Rejection;
    var t := Replay(s.log).value.tables;
    ReplayMirrors(s.log);
    Orders.UnstoredIsUnused(s.log, id);
    Orders.RejectionIgnoresRedaction(t, s.redactions.Keys, s.actorRedactions.Keys, id, p);
    RejectionIsVerdict(t, s.log, id, p);
  }

  /** What the caller is told of an accepted event: of a declaration, which actor it made. */
  function Told(id: EventId, p: Payload): Outcome {
    if p.ActorDeclare? then ActorDeclared(DeclaredId(id, p.publicKey)) else Unit
  }

  lemma ToldIsOutcome(id: EventId, p: Payload)
    requires Decodes(p)
    ensures OutcomeOf(id, p) == Told(id, p)
  {
  }

  /** In any state that the transactions keep, a local commit succeeds exactly when what the event refers to has
      been stored and the key it adds has not. */
  lemma CommitExactly(s: State, key: Key, payload: Payload, createdAt: int)
    requires Inv(s)
    ensures var (s', r) := Commit(s, key, payload, createdAt);
            var row := LocalRow(s, key, payload, createdAt);
            && (r.Ok? <==> Decodes(payload) && !MissesTarget(s.log, payload) && !MissesActorOrKey(s.log, payload))
            && (r.Ok? ==> s'.log == s.log + [row] && r.value == (row.id, Told(row.id, payload)))
            && (r.Err? ==> s' == s && Verdict(Some(r.error), s.log, payload))
  {
    hide Rejection, ViewOk, MissesTarget, MissesActorOrKey, Told, OutcomeOf, Decodes;
    CommitKeepsLog(s, key, payload, createdAt);
    var row := LocalRow(s, key, payload, createdAt);
    NotStored(s.log, row);
    LiveVerdict(s, row.id, payload);
    if Decodes(payload) {
      ToldIsOutcome(row.id, payload);
    }
  }

  lemma NotStored(log: seq<StoredEvent>, row: StoredEvent)
    requires !Conflicts(log, row)
    ensures !Stored(log, row.id)
  {
  }

  /** An authentic remote event is applied exactly when it is the next of its origin's chain and is accepted. */
  lemma IngestExactly(s: State, key: Key, signed: SignedEvent, receivedAt: int)
    requires Inv(s) && Admit(key, signed).Ok?
    ensures var row := Admit(key, signed).value;
            var r := Ingest(s, key, signed, receivedAt).1;
            var p := signed.unsigned.payload;
            && (r.Ok? && r.value.Applied? <==>
                  Orders.Fits(s, row) && Decodes(p) && !MissesTarget(s.log, p) && !MissesActorOrKey(s.log, p))
            && (r.Ok? && r.value.Applied? ==> r.value == Applied(row.id, Told(row.id, p)))
            && (Orders.Fits(s, row) && r.Err? ==> Verdict(Some(r.error), s.log, p))
  {
    hide Rejection, ViewOk, MissesTarget, MissesActorOrKey, Told, OutcomeOf, Decodes, RecordFork, ForkFiled;
    var row := Admit(key, signed).value;
    IngestOutcomes(s, key, signed, receivedAt);
    if Orders.Fits(s, row) {
      AdmittedExactly(key, signed);
      FittingRowIsFree(s, key, signed);
      LiveVerdict(s, row.id, signed.unsigned.payload);
      if Decodes(signed.unsigned.payload) {
        ToldIsOutcome(row.id, signed.unsigned.payload);
      }
    }
  }

  lemma FittingRowIsFree(s: State, key: Key, signed: SignedEvent)
    requires LogOk(s) && Admit(key, signed).Ok? && Orders.Fits(s, Admit(key, signed).value)
    ensures var row := Admit(key, signed).value;
            && (row.sequence, row.previous) == NextSlot(s.origins, row.origin)
            && FindAt(s.log, row.origin, row.sequence).None? && !Stored(s.log, row.id)
  {
    var row := Admit(key, signed).value;
    assert OriginOk(s, row.origin);
    NextRowNeverConflicts(s, row);
    NotStored(s.log, row);
  }
}

/** Local redactions, and rebuilding the projection by wiping it and replaying the log. */
module Rebuild {
  import opened Base
  import opened Events
  import opened Projector
  import opened EventLog

  datatype GraphError =
    | PermissionDenied | InvalidInput | AlreadyRedacted | ActorAlreadyRedacted | MissingRow | StorageFailure
    | Replaying(cause: EventsError)

  datatype Summary = Summary(replayed: nat, redactionsReapplied: nat, actorRedactionsReapplied: nat)

  const MAX_REASON_LEN: nat := 2048

  // ---- Redaction ----

  function Blank(e: Evidence): Evidence {
    e.(title := None, excerpt := None)
  }

  function BlankEvidence(rows: map<EventId, Evidence>, ids: set<EventId>): map<EventId, Evidence> {
    map id | id in rows :: if id in ids then Blank(rows[id]) else rows[id]
  }

  function BlankActors(rows: map<ActorId, Actor>, ids: set<ActorId>): map<ActorId, Actor> {
    map a | a in rows :: if a in ids then rows[a].(identityUri := None) else rows[a]
  }

  /** The tables with the given evidence texts and actor URIs blanked; absent rows are skipped. */
  function Redacted(t: Tables, evidence: set<EventId>, actors: set<ActorId>): Tables {
    t.(evidence := BlankEvidence(t.evidence, evidence), actors := BlankActors(t.actors, actors))
  }

  function WithRedacted(v: Projection, evidence: set<EventId>, actors: set<ActorId>): Projection {
    v.(tables := Redacted(v.tables, evidence, actors))
  }

  predicate Stored(log: seq<StoredEvent>, id: EventId) {
    exists i :: 0 <= i < |log| && log[i].id == id
  }

  function RedactEvidence(s: State, admin: bool, id: EventId, at: int, reason: Option<string>)
    : (State, Result<(), GraphError>)
  {
    if !admin then (s, Err(PermissionDenied))
    else if reason.Some? && |reason.value| > MAX_REASON_LEN then (s, Err(InvalidInput))
    else if id in s.redactions then (s, Err(AlreadyRedacted))
    else if id !in s.projection.tables.evidence then (s, Err(MissingRow))
    else if !Stored(s.log, id) then (s, Err(StorageFailure)) // the tombstone references the event row
    else (s.(projection := WithRedacted(s.projection, {id}, {}),
             redactions := s.redactions[id := Tombstone(at, reason)]), Ok(()))
  }

  function RedactActor(s: State, admin: bool, actor: ActorId, at: int, reason: Option<string>)
    : (State, Result<(), GraphError>)
  {
    if !admin then (s, Err(PermissionDenied))
    else if reason.Some? && |reason.value| > MAX_REASON_LEN then (s, Err(InvalidInput))
    else if actor in s.actorRedactions then (s, Err(ActorAlreadyRedacted))
    else if actor !in s.projection.tables.actors then (s, Err(MissingRow))
    else (s.(projection := WithRedacted(s.projection, {}, {actor}),
             actorRedactions := s.actorRedactions[actor := Tombstone(at, reason)]), Ok(()))
  }

  // ---- Clearing ----

  datatype Table =
    | EvidenceTable | ObservationTable | DisputeTable | RetractionTable | SupersessionTable | AssertionTable
    | KeyTable | AliasTable | EdgeTable | ActorTable | NodeTable

  const TABLE_COUNT: nat := 11

  /** The order in which the tables are emptied: children before parents. */
  function ChildrenFirst(k: nat): Table
    requires k < TABLE_COUNT
  {
    match k
    case 0 => EvidenceTable
    case 1 => ObservationTable
    case 2 => DisputeTable
    case 3 => RetractionTable
    case 4 => SupersessionTable
    case 5 => AssertionTable
    case 6 => KeyTable
    case 7 => AliasTable
    case 8 => EdgeTable
    case 9 => ActorTable
    case _ => NodeTable
  }

  /** The schema's foreign keys between projection tables. */
  predicate Refers(child: Table, parent: Table) {
    match child
    case EvidenceTable => parent.AssertionTable?
    case ObservationTable => parent.AssertionTable? || parent.ActorTable?
    case DisputeTable => parent.AssertionTable? || parent.ActorTable?
    case RetractionTable => parent.AssertionTable? || parent.ActorTable?
    case SupersessionTable => parent.AssertionTable? || parent.ActorTable?
    case AssertionTable => parent.EdgeTable? || parent.ActorTable?
    case KeyTable => parent.ActorTable?
    case AliasTable => parent.NodeTable?
    case EdgeTable => parent.NodeTable?
    case ActorTable => false
    case NodeTable => false
  }

  function RowCount(t: Tables, table: Table): nat {
    match table
    case EvidenceTable => |t.evidence|
    case ObservationTable => |t.observations|
    case DisputeTable => |t.disputes|
    case RetractionTable => |t.retractions|
    case SupersessionTable => |t.supersessions|
    case AssertionTable => |t.assertions|
    case KeyTable => |t.keys|
    case AliasTable => |t.aliases|
    case EdgeTable => |t.edges|
    case ActorTable => |t.actors|
    case NodeTable => |t.nodes|
  }

  /** Deleting the rows of the `i`-th table fails if a table with foreign keys to it, not emptied yet, has rows. */
  predicate Blocked(t: Tables, i: nat)
    requires i < TABLE_COUNT
  {
    exists j :: i < j < TABLE_COUNT && Refers(ChildrenFirst(j), ChildrenFirst(i)) && RowCount(t, ChildrenFirst(j)) > 0
  }

  function Clear(t: Tables): Option<Tables> {
    if exists i :: 0 <= i < TABLE_COUNT && Blocked(t, i) then None else Some(NO_ROWS)
  }

  // ---- Replay ----

  function ReplayFrom(v: Projection, log: seq<StoredEvent>): Result<Projection, EventsError> {
    if log == [] then Ok(v)
    else
      var last := log[|log| - 1];
      match ReplayFrom(v, log[..|log| - 1])
      case Err(e) => Err(e)
      case Ok(w) => Project(w, last.id, last.createdAt, last.signed.unsigned.payload)
  }

  function Replay(log: seq<StoredEvent>): Result<Projection, EventsError> {
    ReplayFrom(EMPTY, log)
  }

  /** History references survive the wipe; everything else in the projection starts empty. */
  function RebuildProjection(s: State): (State, Result<Summary, GraphError>) {
    match Clear(s.projection.tables)
    case None => (s, Err(StorageFailure))
    case Some(cleared) =>
      match ReplayFrom(Projection(cleared, s.projection.refs), s.log)
      case Err(e) => (s, Err(Replaying(e)))
      case Ok(v) =>
        (s.(projection := WithRedacted(v, s.redactions.Keys, s.actorRedactions.Keys)),
         Ok(Summary(|s.log|, |s.redactions|, |s.actorRedactions|)))
  }

  // ---- Live tables equal replayed tables ----

  /** The live projection is the replayed log with every outstanding redaction applied at the end. */
  ghost predicate ViewOk(s: State) {
    && Replay(s.log).Ok?
    && var v := Replay(s.log).value;
    && s.projection == WithRedacted(v, s.redactions.Keys, s.actorRedactions.Keys)
    && s.redactions.Keys <= v.tables.evidence.Keys
    && s.actorRedactions.Keys <= v.tables.actors.Keys
  }

  lemma {:induction false} ReplayAppend(v: Projection, log: seq<StoredEvent>, row: StoredEvent)
    ensures ReplayFrom(v, log + [row]) ==
            match ReplayFrom(v, log)
            case Err(e) => Err(e)
            case Ok(w) => Project(w, row.id, row.createdAt, row.signed.unsigned.payload)
  {
    assert (log + [row])[..|log|] == log;
  }

  /** An event adds at most the evidence row of its own identifier and never removes an actor. */
  lemma ProjectGrows(v: Projection, id: EventId, createdAt: int, p: Payload)
    requires Project(v, id, createdAt, p).Ok?
    ensures var t := Project(v, id, createdAt, p).value.tables;
            v.tables.evidence.Keys <= t.evidence.Keys <= v.tables.evidence.Keys + {id}
            && v.tables.actors.Keys <= t.actors.Keys
  {
  }

  /** Blanking rows commutes with what an event does, as long as no blanked key is new to the tables. */
  lemma EffectCommutesWithRedaction(
    t: Tables, evidence: set<EventId>, actors: set<ActorId>, id: EventId, at: int, p: Payload)
    requires Decodes(p) && id !in evidence && actors <= t.actors.Keys
    ensures Effect(Redacted(t, evidence, actors), id, at, p) == Redacted(Effect(t, id, at, p), evidence, actors)
  {
    if p.AddEvidence? {
      var row := EvidenceRow(p);
      assert BlankEvidence(t.evidence, evidence)[id := row] == BlankEvidence(t.evidence[id := row], evidence);
    } else if p.ActorDeclare? {
      var a, row := DeclaredActor(id, p), ActorRow(at, p);
      assert Keep(BlankActors(t.actors, actors), a, row) == BlankActors(Keep(t.actors, a, row), actors);
    }
  }

  /** Projecting a new event after redactions gives the same tables as redacting after projecting it. */
  lemma ProjectCommutesWithRedaction(
    v: Projection, evidence: set<EventId>, actors: set<ActorId>, id: EventId, createdAt: int, p: Payload)
    requires id !in evidence && actors <= v.tables.actors.Keys
    ensures Project(WithRedacted(v, evidence, actors), id, createdAt, p) ==
            match Project(v, id, createdAt, p)
            case Err(e) => Err(e)
            case Ok(w) => Ok(WithRedacted(w, evidence, actors))
  {
    hide Effect;
    assert Rejection(Redacted(v.tables, evidence, actors), id, p) == Rejection(v.tables, id, p);
    if Rejection(v.tables, id, p).None? {
      EffectCommutesWithRedaction(v.tables, evidence, actors, id, createdAt, p);
    }
  }

  /** Evidence rows are keyed by identifiers of stored events. */
  lemma {:induction false} EvidenceIsStored(log: seq<StoredEvent>, id: EventId)
    requires Replay(log).Ok? && id in Replay(log).value.tables.evidence
    ensures Stored(log, id)
  {
    hide Project;
    var last := log[|log| - 1];
    var earlier := log[..|log| - 1];
    ProjectGrows(Replay(earlier).value, last.id, last.createdAt, last.signed.unsigned.payload);
    if id != last.id {
      EvidenceIsStored(earlier, id);
      var i :| 0 <= i < |earlier| && earlier[i].id == id;
      assert log[i].id == id;
    }
  }

  /** Storing and projecting one more event keeps the live tables equal to the replayed ones. */
  lemma AdvanceKeepsView(s: State, row: StoredEvent, v: Projection)
    requires ViewOk(s) && !Conflicts(s.log, row)
    requires Project(s.projection, row.id, row.createdAt, row.signed.unsigned.payload) == Ok(v)
    ensures ViewOk(Advance(s, row, v))
  {
    var w := Replay(s.log).value;
    var p := row.signed.unsigned.payload;
    if row.id in s.redactions {
      EvidenceIsStored(s.log, row.id);
      assert false;
    }
    ProjectCommutesWithRedaction(w, s.redactions.Keys, s.actorRedactions.Keys, row.id, row.createdAt, p);
    ReplayAppend(EMPTY, s.log, row);
    ProjectGrows(w, row.id, row.createdAt, p);
  }

  lemma RedactedTwice(t: Tables, e: set<EventId>, a: set<ActorId>, e': set<EventId>, a': set<ActorId>)
    ensures Redacted(Redacted(t, e, a), e', a') == Redacted(t, e + e', a + a')
  {
    assert BlankEvidence(BlankEvidence(t.evidence, e), e') == BlankEvidence(t.evidence, e + e');
    assert BlankActors(BlankActors(t.actors, a), a') == BlankActors(t.actors, a + a');
  }

  /** Blanking further rows of a redacted replay gives a redacted replay. */
  lemma MoreRedactionsKeepView(s: State, s': State, e: set<EventId>, a: set<ActorId>)
    requires ViewOk(s) && s'.log == s.log && s'.projection == WithRedacted(s.projection, e, a)
    requires s'.redactions.Keys == s.redactions.Keys + e && s'.actorRedactions.Keys == s.actorRedactions.Keys + a
    requires e <= s.projection.tables.evidence.Keys && a <= s.projection.tables.actors.Keys
    ensures ViewOk(s')
  {
    var v := Replay(s.log).value;
    RedactedTwice(v.tables, s.redactions.Keys, s.actorRedactions.Keys, e, a);
  }

  /** The tombstone's foreign key always resolves, and the view stays a redacted replay. */
  lemma RedactEvidenceKeepsView(s: State, admin: bool, id: EventId, at: int, reason: Option<string>)
    requires ViewOk(s)
    ensures ViewOk(RedactEvidence(s, admin, id, at, reason).0)
    ensures RedactEvidence(s, admin, id, at, reason).1 != Err(StorageFailure)
  {
    hide ViewOk, WithRedacted;
    if id in s.projection.tables.evidence {
      LiveEvidenceIsStored(s, id);
      if RedactEvidence(s, admin, id, at, reason).1.Ok? {
        MoreRedactionsKeepView(s, RedactEvidence(s, admin, id, at, reason).0, {id}, {});
      }
    }
  }

  lemma LiveEvidenceIsStored(s: State, id: EventId)
    requires ViewOk(s) && id in s.projection.tables.evidence
    ensures Stored(s.log, id)
  {
    hide ReplayFrom;
    EvidenceIsStored(s.log, id);
  }

  lemma RedactActorKeepsView(s: State, admin: bool, actor: ActorId, at: int, reason: Option<string>)
    requires ViewOk(s)
    ensures ViewOk(RedactActor(s, admin, actor, at, reason).0)
  {
    hide ReplayFrom;
    if RedactActor(s, admin, actor, at, reason).1.Ok? {
      MoreRedactionsKeepView(s, RedactActor(s, admin, actor, at, reason).0, {}, {actor});
    }
  }

  /** Deleting children before parents never trips a foreign key, whatever the tables hold. */
  lemma ClearNeverFails(t: Tables)
    ensures Clear(t) == Some(NO_ROWS)
  {
    assert forall i, j :: 0 <= i < j < TABLE_COUNT ==> !Refers(ChildrenFirst(j), ChildrenFirst(i));
  }

  /** Replaying over surviving history references gives the same tables and adds only the log's own references. */
  lemma {:induction false} ReplayIgnoresReferences(log: seq<StoredEvent>, kept: set<EventRef>)
    ensures ReplayFrom(Projection(NO_ROWS, kept), log) ==
            match Replay(log)
            case Err(e) => Err(e)
            case Ok(v) => Ok(v.(refs := kept + v.refs))
  {
    if log == [] {
      assert kept + {} == kept;
    } else {
      ReplayIgnoresReferences(log[..|log| - 1], kept);
      var last := log[|log| - 1];
      if Replay(log).Ok? {
        var v := Replay(log[..|log| - 1]).value;
        var added := RefsOf(last.id, last.signed.unsigned.payload);
        assert kept + v.refs + added == kept + (v.refs + added);
      }
    }
  }

  /** Rebuilding a database whose live tables are a redacted replay succeeds and changes nothing. */
  lemma RebuildIsIdentity(s: State)
    requires ViewOk(s)
    ensures RebuildProjection(s) == (s, Ok(Summary(|s.log|, |s.redactions|, |s.actorRedactions|)))
  {
    ClearNeverFails(s.projection.tables);
    ReplayIgnoresReferences(s.log, s.projection.refs);
    assert s.projection.refs + Replay(s.log).value.refs == s.projection.refs;
  }
}

/** What the tables say, column by column, in terms of the events alone: which end of a relation is which, what
    every row holds, who was first, and what a redaction takes away and leaves. */
module Recorded {
  import opened Base
  import opened Events
  import opened Projector
  import opened EventLog
  import opened Rebuild
  import opened Runs
  import opened ProjectionLaws
  import opened Convergence
  import Text

  function PayloadOf(row: StoredEvent): Payload {
    row.signed.unsigned.payload
  }

  predicate Reads<T(==)>(field: Field<T>, value: T) {
    field.Parsed? && field.value == value
  }

  // ---- Rows that an event has to itself ----

  /** What the event's own rows say, apart from an assertion's status. Of redacted evidence title and excerpt are
      gone, and nothing else. */
  ghost predicate Says(t: Tables, row: StoredEvent, redacted: bool) {
    match PayloadOf(row)
    case AssertRelation(subject, _, relation, target, _, actor, confidence, observedAt, extraction) =>
      && row.id in t.assertions
      && var a := t.assertions[row.id];
      && Reads(actor, a.actor) && Reads(extraction, a.extraction)
      && a.confidence == confidence && a.observedAt == observedAt && a.assertedAt == row.createdAt
      && a.edge in t.edges
      && var e := t.edges[a.edge];
      && e.subject == OfIdentifier(subject) && e.target == OfIdentifier(target)
      && e.relation == Text.NormalizePredicate(relation)
      && e.subject in t.nodes && t.nodes[e.subject].identifier == subject
      && e.target in t.nodes && t.nodes[e.target].identifier == target
    case AddEvidence(
      assertion, evidenceType, uri, title, excerpt, contentHash, observedAt, retrievedAt, cid, metadata) =>
      && row.id in t.evidence
      && var e := t.evidence[row.id];
      && Reads(assertion, e.assertion)
      && Reads(evidenceType, e.evidenceType)
      && e.title == (if redacted then None else title) && e.excerpt == (if redacted then None else excerpt)
      && e.uri == uri && e.contentHash == contentHash
      && e.observedAt == observedAt && e.retrievedAt == retrievedAt && e.metadata == EvidenceMetadata(cid, metadata)
    case VerifyAssertion(assertion, actor, result, checkedAt) =>
      && row.id in t.observations
      && var o := t.observations[row.id];
      && Reads(assertion, o.assertion) && Reads(actor, o.actor)
      && o.result == result && o.checkedAt == checkedAt && o.createdAt == row.createdAt
    case DisputeAssertion(assertion, actor, reason) =>
      row.id in t.disputes && ChallengeSays(t.disputes[row.id], assertion, actor, reason, row.createdAt)
    case RetractAssertion(assertion, actor, reason) =>
      row.id in t.retractions && ChallengeSays(t.retractions[row.id], assertion, actor, reason, row.createdAt)
    case SupersedeAssertion(older, newer, actor) =>
      && row.id in t.supersessions
      && var x := t.supersessions[row.id];
      && Reads(older, x.oldAssertion) && Reads(newer, x.newAssertion)
      && Reads(actor, x.actor) && x.createdAt == row.createdAt
    case ActorDeclare(_, _, publicKey, _) =>
      DeclaredId(row.id, publicKey) in t.actors
    case ActorKeyAdd(actor, keyHash, permissions) =>
      && keyHash.Parsed? && keyHash.value in t.keys
      && var k := t.keys[keyHash.value];
      && Reads(actor, k.actor) && k.permissions == Known(permissions) && k.createdAt == row.createdAt
    case ActorKeyRevoke(_, keyHash) => keyHash.Parsed?
    case NodeAlias(node, alias, _) => node.Parsed? && (node.value, alias) in t.aliases
  }

  ghost predicate ChallengeSays(
    c: Challenge, assertion: Field<EventId>, actor: Field<ActorId>, reason: Option<string>, at: int)
  {
    && Reads(assertion, c.assertion) && Reads(actor, c.actor)
    && c.reason == reason && c.createdAt == at
  }

  /** A keyed actor is identified by its key's text, a keyless one by the text of the declaring event's id. */
  function DeclaredId(id: EventId, publicKey: Option<Field<Bytes32>>): ActorId {
    match publicKey
    case Some(Parsed(bytes, spelling)) => OfSeed(HexText(bytes, spelling))
    case _ => OfSeed(HexText(id, 0))
  }

  /** Permissions survive in order; names that are none do not. */
  lemma {:induction false} KnownKeepsOrder(a: seq<Field<Permission>>, b: seq<Field<Permission>>)
    ensures Known(a + b) == Known(a) + Known(b)
  {
    if a == [] {
      assert a + b == b;
    } else {
      var ab := a + b;
      var first := if a[0].Parsed? then [a[0].value] else [];
      assert ab[0] == a[0] && ab[1..] == a[1..] + b;
      KnownKeepsOrder(a[1..], b);
      assert Known(ab) == first + Known(a[1..] + b) == first + Known(a[1..]) + Known(b);
    }
  }

  lemma KnownOfOne(field: Field<Permission>)
    ensures Known([field]) == if field.Parsed? then [field.value] else []
  {
    assert [field][1..] == [];
  }

  /** A fact that a stored event states is in the tables. */
  lemma StatedIsThere(log: seq<StoredEvent>, i: nat, f: Fact)
    requires Replay(log).Ok? && i < |log| && Contributes(log[i], f)
    ensures Has(Replay(log).value, f)
  {
    hide ReplayFrom, Has, Contributes;
    ReplayFacts(log, f);
  }

  lemma RelationIsRecorded(log: seq<StoredEvent>, i: nat)
    requires Replay(log).Ok? && i < |log| && PayloadOf(log[i]).AssertRelation?
    ensures Says(Replay(log).value.tables, log[i], false)
  {
    hide ReplayFrom, Text.NormalizePredicate, Text.NormalizeNodeType;
    ReplayDecodes(log, i);
    var row, p := log[i], PayloadOf(log[i]);
    var e := EdgeOf(p);
    StatedIsThere(log, i, AssertionFact(row.id, AssertionRow(row.createdAt, p)));
    StatedIsThere(log, i, EdgeFact(e));
    StatedIsThere(log, i, NodeFact(e.subject));
    StatedIsThere(log, i, NodeFact(e.target));
    ReplayResolves(log);
    RelationColumns(Replay(log).value.tables, p);
  }

  lemma RelationColumns(t: Tables, p: Payload)
    requires p.AssertRelation? && ReferencesResolve(t)
    requires EdgeOf(p) in t.edges && OfIdentifier(p.subject) in t.nodes && OfIdentifier(p.target) in t.nodes
    ensures var e := t.edges[EdgeOf(p)];
            && e.subject == OfIdentifier(p.subject) && e.target == OfIdentifier(p.target)
            && e.relation == Text.NormalizePredicate(p.relation)
            && t.nodes[e.subject].identifier == p.subject && t.nodes[e.target].identifier == p.target
  {
    hide Text.NormalizePredicate;
    hide AliasesResolve, KeysResolve, AssertionsResolve, EvidenceResolves, ObservationsResolve;
    hide ChallengesResolve, SupersessionsResolve;
    assert NodesNamed(t.nodes) && EdgesResolve(t.edges, TargetsOf(t));
  }

  lemma AttachmentIsRecorded(log: seq<StoredEvent>, i: nat)
    requires Replay(log).Ok? && i < |log| && (PayloadOf(log[i]).AddEvidence? || PayloadOf(log[i]).VerifyAssertion?)
    ensures Says(Replay(log).value.tables, log[i], false)
  {
    hide ReplayFrom;
    ReplayDecodes(log, i);
    var row, p := log[i], PayloadOf(log[i]);
    match p
    case AddEvidence(_, _, _, _, _, _, _, _, _, _) => StatedIsThere(log, i, EvidenceFact(row.id, EvidenceRow(p)));
    case VerifyAssertion(a, actor, result, checkedAt) =>
      var o := Observation(a.value, actor.value, result, checkedAt, row.createdAt);
      StatedIsThere(log, i, ObservationFact(row.id, o));
  }

  lemma ChallengeIsRecorded(log: seq<StoredEvent>, i: nat)
    requires Replay(log).Ok? && i < |log| && ChallengeOf(PayloadOf(log[i])).Some?
    ensures Says(Replay(log).value.tables, log[i], false)
  {
    hide ReplayFrom;
    ReplayDecodes(log, i);
    var row, p := log[i], PayloadOf(log[i]);
    match p
    case DisputeAssertion(a, actor, reason) =>
      StatedIsThere(log, i, DisputeFact(row.id, Challenge(a.value, actor.value, reason, row.createdAt)));
    case RetractAssertion(a, actor, reason) =>
      StatedIsThere(log, i, RetractionFact(row.id, Challenge(a.value, actor.value, reason, row.createdAt)));
    case SupersedeAssertion(o, n, actor) =>
      StatedIsThere(log, i, SupersessionFact(row.id, Supersession(o.value, n.value, actor.value, row.createdAt)));
  }

  lemma IdentityIsRecorded(log: seq<StoredEvent>, i: nat)
    requires Replay(log).Ok? && i < |log|
    requires var p := PayloadOf(log[i]); p.ActorDeclare? || p.ActorKeyAdd? || p.ActorKeyRevoke? || p.NodeAlias?
    ensures Says(Replay(log).value.tables, log[i], false)
  {
    hide ReplayFrom, Known;
    ReplayDecodes(log, i);
    var row, p := log[i], PayloadOf(log[i]);
    match p
    case ActorDeclare(_, _, _, _) => StatedIsThere(log, i, ActorFact(DeclaredActor(row.id, p)));
    case ActorKeyAdd(actor, k, permissions) =>
      StatedIsThere(log, i, KeyFact(k.value, ActorKey(actor.value, Known(permissions), row.createdAt, None)));
    case NodeAlias(node, alias, _) => StatedIsThere(log, i, AliasFact(node.value, alias));
    case ActorKeyRevoke(_, _) =>
  }

  /** Every accepted event has its rows, and they say what it says. */
  lemma EveryEventIsRecorded(log: seq<StoredEvent>, i: nat)
    requires Replay(log).Ok? && i < |log|
    ensures Says(Replay(log).value.tables, log[i], false)
  {
    hide ReplayFrom, Says;
    var p := PayloadOf(log[i]);
    if p.AssertRelation? {
      RelationIsRecorded(log, i);
    } else if p.AddEvidence? || p.VerifyAssertion? {
      AttachmentIsRecorded(log, i);
    } else if ChallengeOf(p).Some? {
      ChallengeIsRecorded(log, i);
    } else {
      ReplayDecodes(log, i);
      IdentityIsRecorded(log, i);
    }
  }

  datatype OwnTable =
    | AssertionRows | EvidenceRows | ObservationRows | DisputeRows | RetractionRows | SupersessionRows

  predicate InTable(t: Tables, id: EventId, table: OwnTable) {
    match table
    case AssertionRows => id in t.assertions
    case EvidenceRows => id in t.evidence
    case ObservationRows => id in t.observations
    case DisputeRows => id in t.disputes
    case RetractionRows => id in t.retractions
    case SupersessionRows => id in t.supersessions
  }

  predicate FillsTable(p: Payload, table: OwnTable) {
    match table
    case AssertionRows => p.AssertRelation?
    case EvidenceRows => p.AddEvidence?
    case ObservationRows => p.VerifyAssertion?
    case DisputeRows => p.DisputeAssertion?
    case RetractionRows => p.RetractAssertion?
    case SupersessionRows => p.SupersedeAssertion?
  }

  ghost predicate Brought(log: seq<StoredEvent>, id: EventId, table: OwnTable) {
    exists i :: 0 <= i < |log| && log[i].id == id && FillsTable(PayloadOf(log[i]), table)
  }

  ghost function RowFact(t: Tables, id: EventId, table: OwnTable): Fact
    requires InTable(t, id, table)
  {
    match table
    case AssertionRows => AssertionFact(id, t.assertions[id].(status := Active))
    case EvidenceRows => EvidenceFact(id, t.evidence[id])
    case ObservationRows => ObservationFact(id, t.observations[id])
    case DisputeRows => DisputeFact(id, t.disputes[id])
    case RetractionRows => RetractionFact(id, t.retractions[id])
    case SupersessionRows => SupersessionFact(id, t.supersessions[id])
  }

  lemma RowFactOfEvent(t: Tables, row: StoredEvent, id: EventId, table: OwnTable)
    requires InTable(t, id, table) && Contributes(row, RowFact(t, id, table))
    ensures row.id == id && FillsTable(PayloadOf(row), table)
  {
    hide EdgeOf, EvidenceRow, AssertionRow, Known;
  }

  lemma SaysIsInTable(t: Tables, row: StoredEvent, table: OwnTable)
    requires Says(t, row, false) && FillsTable(PayloadOf(row), table)
    ensures InTable(t, row.id, table)
  {
    hide Text.NormalizePredicate, EvidenceMetadata;
  }

  /** The six tables keyed by event hold exactly the events of their kind. */
  lemma OwnRowsAreEvents(log: seq<StoredEvent>, id: EventId, table: OwnTable)
    requires Replay(log).Ok?
    ensures InTable(Replay(log).value.tables, id, table) <==> Brought(log, id, table)
  {
    hide ReplayFrom, Says, RowFact, Contributes, InTable;
    var t := Replay(log).value.tables;
    if InTable(t, id, table) {
      RowFactIsThere(Replay(log).value, id, table);
      ReplayFacts(log, RowFact(t, id, table));
      var i :| 0 <= i < |log| && Contributes(log[i], RowFact(t, id, table));
      RowFactOfEvent(t, log[i], id, table);
    }
    if i :| 0 <= i < |log| && log[i].id == id && FillsTable(PayloadOf(log[i]), table) {
      EveryEventIsRecorded(log, i);
      SaysIsInTable(t, log[i], table);
    }
  }

  lemma RowFactIsThere(v: Projection, id: EventId, table: OwnTable)
    requires InTable(v.tables, id, table)
    ensures Has(v, RowFact(v.tables, id, table))
  {
  }

  // ---- Rows that several events may bring ----

  datatype Shared =
    | SharedNode(node: NodeId) | SharedEdge(edge: EdgeId) | SharedActor(actor: ActorId)
    | SharedAlias(of: NodeId, alias: string)

  datatype Entry =
    | NodeEntry(nodeRow: Node) | EdgeEntry(edgeRow: Edge) | ActorEntry(actorRow: Actor) | AliasEntry(kind: AliasType)

  function Find(t: Tables, x: Shared): Option<Entry> {
    match x
    case SharedNode(n) => if n in t.nodes then Some(NodeEntry(t.nodes[n])) else None
    case SharedEdge(e) => if e in t.edges then Some(EdgeEntry(t.edges[e])) else None
    case SharedActor(a) => if a in t.actors then Some(ActorEntry(t.actors[a])) else None
    case SharedAlias(n, alias) => if (n, alias) in t.aliases then Some(AliasEntry(t.aliases[(n, alias)])) else None
  }

  /** What one event says of a shared row, if anything. A relation of a node with itself names its subject first. */
  function SaidOf(row: StoredEvent, x: Shared): Option<Entry> {
    match (PayloadOf(row), x)
    case (AssertRelation(subject, subjectType, _, target, targetType, _, _, _, _), SharedNode(n)) =>
      if n == OfIdentifier(subject) then
        Some(NodeEntry(Node(Text.NormalizeNodeType(subjectType), subject, row.createdAt)))
      else if n == OfIdentifier(target) then
        Some(NodeEntry(Node(Text.NormalizeNodeType(targetType), target, row.createdAt)))
      else None
    case (AssertRelation(subject, _, relation, target, _, _, _, _, _), SharedEdge(e)) =>
      var normal := Text.NormalizePredicate(relation);
      if e == OfTriple(OfIdentifier(subject), normal, OfIdentifier(target)) then
        Some(EdgeEntry(Edge(OfIdentifier(subject), normal, OfIdentifier(target), row.createdAt)))
      else None
    case (ActorDeclare(Parsed(actorType, _), name, publicKey, uri), SharedActor(a)) =>
      if a == DeclaredId(row.id, publicKey) then
        var key := match publicKey case Some(Parsed(bytes, _)) => Some(bytes) case _ => None;
        Some(ActorEntry(Actor(actorType, name, key, uri, row.createdAt)))
      else None
    case (NodeAlias(Parsed(n, _), text, Parsed(kind, _)), SharedAlias(of, alias)) =>
      if n == of && text == alias then Some(AliasEntry(kind)) else None
    case _ => None
  }

  function FirstSaid(log: seq<StoredEvent>, x: Shared): Option<Entry> {
    if log == [] then None
    else
      var earlier := FirstSaid(log[..|log| - 1], x);
      if earlier.Some? then earlier else SaidOf(log[|log| - 1], x)
  }

  lemma RelationOnShared(t: Tables, row: StoredEvent, x: Shared)
    requires PayloadOf(row).AssertRelation? && Rejection(t, row.id, PayloadOf(row)).None?
    ensures Find(Effect(t, row.id, row.createdAt, PayloadOf(row)), x)
            == if Find(t, x).Some? then Find(t, x) else SaidOf(row, x)
  {
    hide Text.NormalizePredicate, Text.NormalizeNodeType, AssertionRow, Rejection;
  }

  lemma IdentityOnShared(t: Tables, row: StoredEvent, x: Shared)
    requires (PayloadOf(row).ActorDeclare? || PayloadOf(row).NodeAlias?) && Rejection(t, row.id, PayloadOf(row)).None?
    ensures Find(Effect(t, row.id, row.createdAt, PayloadOf(row)), x)
            == if Find(t, x).Some? then Find(t, x) else SaidOf(row, x)
  {
  }

  /** Which events leave which tables alone. */
  lemma SharedFrame(t: Tables, id: EventId, at: int, p: Payload)
    requires Decodes(p) && !p.AssertRelation? && !p.ActorDeclare? && !p.NodeAlias?
    ensures var u := Effect(t, id, at, p);
            u.nodes == t.nodes && u.edges == t.edges && u.actors == t.actors && u.aliases == t.aliases
  {
    hide EvidenceRow, Known, SetStatus, Revoke, Decodes;
  }

  lemma OthersOnShared(t: Tables, row: StoredEvent, x: Shared)
    requires var p := PayloadOf(row);
             && !p.AssertRelation? && !p.ActorDeclare? && !p.NodeAlias?
             && Rejection(t, row.id, p).None?
    ensures Find(Effect(t, row.id, row.createdAt, PayloadOf(row)), x) == Find(t, x) && SaidOf(row, x) == None
  {
    hide Effect, SaidOf, Find, Rejection;
    SharedFrame(t, row.id, row.createdAt, PayloadOf(row));
    SameShared(t, Effect(t, row.id, row.createdAt, PayloadOf(row)), x);
    NothingSaid(row, x);
  }

  lemma SameShared(t: Tables, u: Tables, x: Shared)
    requires u.nodes == t.nodes && u.edges == t.edges && u.actors == t.actors && u.aliases == t.aliases
    ensures Find(u, x) == Find(t, x)
  {
  }

  lemma NothingSaid(row: StoredEvent, x: Shared)
    requires var p := PayloadOf(row); !p.AssertRelation? && !p.ActorDeclare? && !p.NodeAlias?
    ensures SaidOf(row, x) == None
  {
  }

  lemma EffectOnShared(t: Tables, row: StoredEvent, x: Shared)
    requires Rejection(t, row.id, PayloadOf(row)).None?
    ensures Find(Effect(t, row.id, row.createdAt, PayloadOf(row)), x)
            == if Find(t, x).Some? then Find(t, x) else SaidOf(row, x)
  {
    hide Effect, Rejection, Find, SaidOf;
    var p := PayloadOf(row);
    if p.AssertRelation? {
      RelationOnShared(t, row, x);
    } else if p.ActorDeclare? || p.NodeAlias? {
      IdentityOnShared(t, row, x);
    } else {
      OthersOnShared(t, row, x);
    }
  }

  /** Nodes, edges, actors and aliases are exactly those some event has named, and say what the first one to name
      them said: of a node its type as that event's subject or object, of an edge which end is which. */
  lemma {:induction false} SharedRowsAreTheFirst(log: seq<StoredEvent>, x: Shared)
    requires Replay(log).Ok?
    ensures Find(Replay(log).value.tables, x) == FirstSaid(log, x)
  {
    hide Effect, Rejection, Find, SaidOf;
    if log == [] {
      assert Find(NO_ROWS, x) == None by { NothingShared(x); }
    } else {
      var earlier := log[..|log| - 1];
      SharedRowsAreTheFirst(earlier, x);
      EffectOnShared(Replay(earlier).value.tables, log[|log| - 1], x);
    }
  }

  lemma NothingShared(x: Shared)
    ensures Find(NO_ROWS, x) == None
  {
  }

  // ---- API keys ----

  predicate AddsKey(row: StoredEvent, k: Bytes32) {
    PayloadOf(row).ActorKeyAdd? && Reads(PayloadOf(row).keyHash, k)
  }

  predicate RevokesKey(row: StoredEvent, k: Bytes32) {
    PayloadOf(row).ActorKeyRevoke? && Reads(PayloadOf(row).keyHash, k)
  }

  /** When the first event of `log` that revokes the key was created. */
  function FirstRevocation(log: seq<StoredEvent>, k: Bytes32): Option<int> {
    if log == [] then None
    else
      var earlier := FirstRevocation(log[..|log| - 1], k);
      if earlier.Some? then earlier
      else if RevokesKey(log[|log| - 1], k) then Some(log[|log| - 1].createdAt) else None
  }

  lemma KeyFrame(t: Tables, id: EventId, at: int, p: Payload)
    requires Decodes(p) && !p.ActorKeyAdd? && !p.ActorKeyRevoke?
    ensures Effect(t, id, at, p).keys == t.keys
  {
    hide EvidenceRow, EvidenceMetadata, SetStatus, SubjectNode, TargetNode, EdgeOf, AssertionRow, ActorRow, Decodes;
  }

  /** An event brings a key, revokes one that is not revoked, or leaves the keys alone. */
  ghost predicate KeyStep(t: Tables, u: Tables, row: StoredEvent, k: Bytes32) {
    && (AddsKey(row, k) ==> k !in t.keys && k in u.keys && u.keys[k].revokedAt == None)
    && (k in t.keys ==>
          && k in u.keys && !AddsKey(row, k)
          && u.keys[k] == t.keys[k].(revokedAt :=
               if t.keys[k].revokedAt.None? && RevokesKey(row, k) then Some(row.createdAt) else t.keys[k].revokedAt))
    && (k !in t.keys && !AddsKey(row, k) ==> k !in u.keys)
  }

  lemma KeyEventStep(t: Tables, row: StoredEvent, k: Bytes32)
    requires (PayloadOf(row).ActorKeyAdd? || PayloadOf(row).ActorKeyRevoke?)
    requires Rejection(t, row.id, PayloadOf(row)).None?
    ensures KeyStep(t, Effect(t, row.id, row.createdAt, PayloadOf(row)), row, k)
  {
    hide Known;
  }

  lemma EffectOnKey(t: Tables, row: StoredEvent, k: Bytes32)
    requires Rejection(t, row.id, PayloadOf(row)).None?
    ensures KeyStep(t, Effect(t, row.id, row.createdAt, PayloadOf(row)), row, k)
  {
    hide Effect, Rejection;
    if PayloadOf(row).ActorKeyAdd? || PayloadOf(row).ActorKeyRevoke? {
      KeyEventStep(t, row, k);
    } else {
      KeyFrame(t, row.id, row.createdAt, PayloadOf(row));
    }
  }

  /** A key is there exactly when some event has added it, only one ever can, and it is revoked by the first event
      after that which revokes it; a revocation of a key not yet there has no effect. */
  lemma {:induction false} KeysAreRevokedOnce(log: seq<StoredEvent>, i: nat, k: Bytes32)
    requires Replay(log).Ok? && i < |log| && AddsKey(log[i], k)
    ensures var t := Replay(log).value.tables;
            k in t.keys && t.keys[k].revokedAt == FirstRevocation(log[i + 1..], k)
  {
    hide Effect, Rejection, AddsKey, RevokesKey;
    var earlier, last := log[..|log| - 1], log[|log| - 1];
    EffectOnKey(Replay(earlier).value.tables, last, k);
    if i < |log| - 1 {
      KeysAreRevokedOnce(earlier, i, k);
      assert log[i + 1..][..|log[i + 1..]| - 1] == earlier[i + 1..];
    } else {
      assert log[i + 1..] == [];
    }
  }

  lemma {:induction false} KeysWereAdded(log: seq<StoredEvent>, k: Bytes32)
    requires Replay(log).Ok?
    ensures k in Replay(log).value.tables.keys <==> exists i :: 0 <= i < |log| && AddsKey(log[i], k)
  {
    hide Effect, Rejection, AddsKey, RevokesKey;
    if log != [] {
      var earlier, last := log[..|log| - 1], log[|log| - 1];
      EffectOnKey(Replay(earlier).value.tables, last, k);
      KeysWereAdded(earlier, k);
      if i :| 0 <= i < |earlier| && AddsKey(earlier[i], k) {
        assert AddsKey(log[i], k);
      }
      if i :| 0 <= i < |log| && AddsKey(log[i], k) {
        assert i == |log| - 1 || AddsKey(earlier[i], k);
      }
    }
  }

  // ---- History references ----

  /** The rows that an event's history is filed under. */
  predicate RefersTo(p: Payload, id: EventId, target: RefTarget) {
    match (p, target)
    case (AssertRelation(_, _, _, _, _, _, _, _, _), AssertionRef(a)) => a == id
    case (AssertRelation(subject, _, relation, o, _, _, _, _, _), EdgeRef(e)) =>
      e == OfTriple(OfIdentifier(subject), Text.NormalizePredicate(relation), OfIdentifier(o))
    case (AssertRelation(subject, _, _, o, _, _, _, _, _), NodeRef(n)) =>
      n == OfIdentifier(subject) || n == OfIdentifier(o)
    case (AddEvidence(assertion, _, _, _, _, _, _, _, _, _), AssertionRef(a)) => Reads(assertion, a)
    case (VerifyAssertion(assertion, _, _, _), AssertionRef(a)) => Reads(assertion, a)
    case (DisputeAssertion(assertion, _, _), AssertionRef(a)) => Reads(assertion, a)
    case (RetractAssertion(assertion, _, _), AssertionRef(a)) => Reads(assertion, a)
    case (SupersedeAssertion(older, newer, _), AssertionRef(a)) => Reads(older, a) || Reads(newer, a)
    case _ => false
  }

  lemma ReferenceIsStated(row: StoredEvent, ref: EventRef)
    requires Decodes(PayloadOf(row))
    ensures Contributes(row, RefFact(ref)) <==> ref.event == row.id && RefersTo(PayloadOf(row), row.id, ref.target)
  {
    hide EvidenceRow, AssertionRow, Known, Text.NormalizePredicate;
  }

  /** The history references are exactly those of the stored events. */
  lemma ReferencesAreEvents(log: seq<StoredEvent>, ref: EventRef)
    requires Replay(log).Ok?
    ensures ref in Replay(log).value.refs <==>
            exists i :: 0 <= i < |log| && log[i].id == ref.event && RefersTo(PayloadOf(log[i]), ref.event, ref.target)
  {
    hide ReplayFrom, Contributes, RefersTo;
    ReplayFacts(log, RefFact(ref));
    if i :| 0 <= i < |log| && Contributes(log[i], RefFact(ref)) {
      ReplayDecodes(log, i);
      ReferenceIsStated(log[i], ref);
    }
    if i :| 0 <= i < |log| && log[i].id == ref.event && RefersTo(PayloadOf(log[i]), ref.event, ref.target) {
      ReplayDecodes(log, i);
      ReferenceIsStated(log[i], ref);
    }
  }
}

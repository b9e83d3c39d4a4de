/** What a validated event does to the projection tables.

    `Rejection` says which check stops an event and `Effect` what an accepted one changes. */
module Projector {
  import opened Base
  import opened Events
  import Text

  datatype Status = Active | Disputed | Retracted | Superseded

  datatype Node = Node(nodeType: string, identifier: string, createdAt: int)
  datatype Edge = Edge(subject: NodeId, relation: string, target: NodeId, createdAt: int)
  datatype Actor = Actor(
    actorType: ActorType, name: Option<string>, publicKey: Option<Bytes32>, identityUri: Option<string>,
    createdAt: int)
  datatype ActorKey = ActorKey(
    actor: ActorId, permissions: seq<Permission>, createdAt: int, revokedAt: Option<int>)
  datatype Assertion = Assertion(
    edge: EdgeId, actor: ActorId, confidence: Option<real>, observedAt: Option<int>, assertedAt: int,
    extraction: ExtractionMethod, status: Status)
  datatype Evidence = Evidence(
    assertion: EventId, evidenceType: EvidenceType, uri: Option<string>, title: Option<string>,
    excerpt: Option<string>, contentHash: Option<string>, observedAt: Option<int>, retrievedAt: Option<int>,
    metadata: Json)
  datatype Observation = Observation(
    assertion: EventId, actor: ActorId, result: string, checkedAt: int, createdAt: int)
  /** A dispute row or a retraction row. */
  datatype Challenge = Challenge(assertion: EventId, actor: ActorId, reason: Option<string>, createdAt: int)
  datatype Supersession = Supersession(
    oldAssertion: EventId, newAssertion: EventId, actor: ActorId, createdAt: int)

  /** One map per projection table, keyed by its primary key. */
  datatype Tables = Tables(
    nodes: map<NodeId, Node>,
    aliases: map<(NodeId, string), AliasType>,
    edges: map<EdgeId, Edge>,
    actors: map<ActorId, Actor>,
    keys: map<Bytes32, ActorKey>,
    assertions: map<EventId, Assertion>,
    evidence: map<EventId, Evidence>,
    observations: map<EventId, Observation>,
    disputes: map<EventId, Challenge>,
    retractions: map<EventId, Challenge>,
    supersessions: map<EventId, Supersession>)

  datatype RefTarget = AssertionRef(assertion: EventId) | EdgeRef(edge: EdgeId) | NodeRef(node: NodeId)
  datatype EventRef = EventRef(event: EventId, target: RefTarget)

  datatype Projection = Projection(tables: Tables, refs: set<EventRef>)

  datatype Outcome = Unit | ActorDeclared(actor: ActorId)

  const NO_ROWS: Tables :=
    Tables(map[], map[], map[], map[], map[], map[], map[], map[], map[], map[], map[])
  const EMPTY: Projection := Projection(NO_ROWS, {})

  function EdgeOf(p: Payload): EdgeId
    requires p.AssertRelation?
  {
    OfTriple(OfIdentifier(p.subject), Text.NormalizePredicate(p.relation), OfIdentifier(p.target))
  }

  /** The typed CID always wins over a caller's own `ipfs_cid` key; non-object metadata counts as empty. */
  function EvidenceMetadata(pinnedCid: Option<string>, metadata: Option<Json>): (r: Json)
    ensures r.Object?
    ensures r.fields.Keys == (if metadata.Some? && metadata.value.Object? then metadata.value.fields.Keys else {})
                             + (if pinnedCid.Some? then {"ipfs_cid"} else {})
    ensures pinnedCid.Some? ==> "ipfs_cid" in r.fields && r.fields["ipfs_cid"] == Str(pinnedCid.value)
    ensures metadata.Some? && metadata.value.Object? ==>
              forall k :: k in metadata.value.fields && (k != "ipfs_cid" || pinnedCid.None?) ==>
                            k in r.fields && r.fields[k] == metadata.value.fields[k]
  {
    var base := if metadata.Some? && metadata.value.Object? then metadata.value.fields else map[];
    Object(if pinnedCid.Some? then base["ipfs_cid" := Str(pinnedCid.value)] else base)
  }

  /** A keyed actor is the same actor in every declaration; a keyless one belongs to its event. */
  function DeclaredActor(id: EventId, p: Payload): ActorId
    requires p.ActorDeclare? && Decodes(p)
  {
    OfSeed(if p.publicKey.Some? then HexText(p.publicKey.value.value, p.publicKey.value.spelling) else HexText(id, 0))
  }

  function Known(permissions: seq<Field<Permission>>): seq<Permission> {
    if permissions == [] then []
    else (if permissions[0].Parsed? then [permissions[0].value] else []) + Known(permissions[1..])
  }

  /** Every field the projector decodes is well formed. */
  predicate Decodes(p: Payload) {
    match p
    case AssertRelation(_, _, _, _, _, actor, _, _, extraction) => actor.Parsed? && extraction.Parsed?
    case AddEvidence(assertion, evidenceType, _, _, _, _, _, _, _, _) => assertion.Parsed? && evidenceType.Parsed?
    case VerifyAssertion(assertion, actor, _, _) => assertion.Parsed? && actor.Parsed?
    case DisputeAssertion(assertion, actor, _) => assertion.Parsed? && actor.Parsed?
    case RetractAssertion(assertion, actor, _) => assertion.Parsed? && actor.Parsed?
    case SupersedeAssertion(o, n, actor) => o.Parsed? && n.Parsed? && actor.Parsed?
    case ActorDeclare(actorType, _, publicKey, _) => actorType.Parsed? && (publicKey.Some? ==> publicKey.value.Parsed?)
    case ActorKeyAdd(actor, keyHash, _) => actor.Parsed? && keyHash.Parsed?
    case ActorKeyRevoke(_, keyHash) => keyHash.Parsed?
    case NodeAlias(node, _, aliasType) => node.Parsed? && aliasType.Parsed?
  }

  /** The first failing check, in the order the projector performs them; foreign keys and primary
      keys of plain inserts count as checks. */
  function Rejection(t: Tables, id: EventId, p: Payload): (r: Option<EventsError>)
    ensures r.None? ==> Decodes(p)
  {
    match p
    case AssertRelation(_, _, _, _, _, actor, _, _, extraction) =>
      if actor.Malformed? then Some(BadId)
      else if extraction.Malformed? then Some(UnknownEnumValue)
      else if id in t.assertions || actor.value !in t.actors then Some(Storage)
      else None
    case AddEvidence(assertion, evidenceType, _, _, _, _, _, _, _, _) =>
      if assertion.Malformed? then Some(BadId)
      else if assertion.value !in t.assertions then Some(NotFound)
      else if evidenceType.Malformed? then Some(UnknownEnumValue)
      else if id in t.evidence then Some(Storage)
      else None
    case VerifyAssertion(assertion, actor, _, _) =>
      if assertion.Malformed? || actor.Malformed? then Some(BadId)
      else if assertion.value !in t.assertions then Some(NotFound)
      else if id in t.observations || actor.value !in t.actors then Some(Storage)
      else None
    case DisputeAssertion(assertion, actor, _) =>
      if assertion.Malformed? || actor.Malformed? then Some(BadId)
      else if assertion.value !in t.assertions then Some(NotFound)
      else if id in t.disputes || actor.value !in t.actors then Some(Storage)
      else None
    case RetractAssertion(assertion, actor, _) =>
      if assertion.Malformed? || actor.Malformed? then Some(BadId)
      else if assertion.value !in t.assertions then Some(NotFound)
      else if id in t.retractions || actor.value !in t.actors then Some(Storage)
      else None
    case SupersedeAssertion(o, n, actor) =>
      if o.Malformed? || n.Malformed? || actor.Malformed? then Some(BadId)
      else if o.value !in t.assertions || n.value !in t.assertions then Some(NotFound)
      else if id in t.supersessions || actor.value !in t.actors then Some(Storage)
      else None
    case ActorDeclare(actorType, _, publicKey, _) =>
      if actorType.Malformed? then Some(UnknownEnumValue)
      else if publicKey.Some? && publicKey.value.Malformed? then Some(Hex)
      else None
    case ActorKeyAdd(actor, keyHash, _) =>
      if actor.Malformed? then Some(BadId)
      else if keyHash.Malformed? then Some(Hex)
      else if keyHash.value in t.keys || actor.value !in t.actors then Some(Storage)
      else None
    case ActorKeyRevoke(_, keyHash) =>
      if keyHash.Malformed? then Some(Hex) else None
    case NodeAlias(node, _, aliasType) =>
      if node.Malformed? then Some(BadId)
      else if node.value !in t.nodes then Some(NotFound)
      else if aliasType.Malformed? then Some(UnknownEnumValue)
      else None
  }

  // ---- Rows ----

  function SubjectNode(at: int, p: Payload): Node
    requires p.AssertRelation?
  {
    Node(Text.NormalizeNodeType(p.subjectType), p.subject, at)
  }

  function TargetNode(at: int, p: Payload): Node
    requires p.AssertRelation?
  {
    Node(Text.NormalizeNodeType(p.targetType), p.target, at)
  }

  function AssertionRow(at: int, p: Payload): Assertion
    requires p.AssertRelation? && Decodes(p)
  {
    Assertion(EdgeOf(p), p.actor.value, p.confidence, p.observedAt, at, p.extraction.value, Active)
  }

  function EvidenceRow(p: Payload): Evidence
    requires p.AddEvidence? && Decodes(p)
  {
    Evidence(p.assertion.value, p.evidenceType.value, p.uri, p.title, p.excerpt, p.contentHash, p.observedAt,
             p.retrievedAt, EvidenceMetadata(p.pinnedCid, p.metadata))
  }

  function ActorRow(at: int, p: Payload): Actor
    requires p.ActorDeclare? && Decodes(p)
  {
    Actor(p.actorType.value, p.name, if p.publicKey.Some? then Some(p.publicKey.value.value) else None,
          p.identityUri, at)
  }

  // ---- Effects ----

  /** Insertion that leaves a row already there alone. */
  function Keep<K, V>(rows: map<K, V>, k: K, v: V): map<K, V> {
    if k in rows then rows else rows[k := v]
  }

  function SetStatus(rows: map<EventId, Assertion>, a: EventId, status: Status): map<EventId, Assertion> {
    if a in rows then rows[a := rows[a].(status := status)] else rows
  }

  /** Only a key that is still active can be revoked. */
  function Revoke(rows: map<Bytes32, ActorKey>, k: Bytes32, at: int): map<Bytes32, ActorKey> {
    if k in rows && rows[k].revokedAt.None? then rows[k := rows[k].(revokedAt := Some(at))] else rows
  }

  /** The tables after an event that no check stops. */
  function Effect(t: Tables, id: EventId, at: int, p: Payload): Tables
    requires Decodes(p)
  {
    match p
    case AssertRelation(_, _, _, _, _, _, _, _, _) =>
      var e := EdgeOf(p);
      t.(nodes := Keep(Keep(t.nodes, e.subject, SubjectNode(at, p)), e.target, TargetNode(at, p)),
         edges := Keep(t.edges, e, Edge(e.subject, e.relation, e.target, at)),
         assertions := t.assertions[id := AssertionRow(at, p)])
    case AddEvidence(_, _, _, _, _, _, _, _, _, _) => t.(evidence := t.evidence[id := EvidenceRow(p)])
    case VerifyAssertion(a, actor, result, checkedAt) =>
      t.(observations := t.observations[id := Observation(a.value, actor.value, result, checkedAt, at)])
    case DisputeAssertion(a, actor, reason) =>
      t.(disputes := t.disputes[id := Challenge(a.value, actor.value, reason, at)],
         assertions := SetStatus(t.assertions, a.value, Disputed))
    case RetractAssertion(a, actor, reason) =>
      t.(retractions := t.retractions[id := Challenge(a.value, actor.value, reason, at)],
         assertions := SetStatus(t.assertions, a.value, Retracted))
    case SupersedeAssertion(o, n, actor) =>
      t.(supersessions := t.supersessions[id := Supersession(o.value, n.value, actor.value, at)],
         assertions := SetStatus(t.assertions, o.value, Superseded))
    case ActorDeclare(_, _, _, _) => t.(actors := Keep(t.actors, DeclaredActor(id, p), ActorRow(at, p)))
    case ActorKeyAdd(actor, keyHash, permissions) =>
      t.(keys := t.keys[keyHash.value := ActorKey(actor.value, Known(permissions), at, None)])
    case ActorKeyRevoke(_, keyHash) => t.(keys := Revoke(t.keys, keyHash.value, at))
    case NodeAlias(node, alias, aliasType) => t.(aliases := Keep(t.aliases, (node.value, alias), aliasType.value))
  }

  /** History references an accepted event leaves. */
  function RefsOf(id: EventId, p: Payload): set<EventRef>
    requires Decodes(p)
  {
    match p
    case AssertRelation(_, _, _, _, _, _, _, _, _) =>
      var e := EdgeOf(p);
      {EventRef(id, AssertionRef(id)), EventRef(id, EdgeRef(e)), EventRef(id, NodeRef(e.subject)),
       EventRef(id, NodeRef(e.target))}
    case AddEvidence(a, _, _, _, _, _, _, _, _, _) => {EventRef(id, AssertionRef(a.value))}
    case VerifyAssertion(a, _, _, _) => {EventRef(id, AssertionRef(a.value))}
    case DisputeAssertion(a, _, _) => {EventRef(id, AssertionRef(a.value))}
    case RetractAssertion(a, _, _) => {EventRef(id, AssertionRef(a.value))}
    case SupersedeAssertion(o, n, _) => {EventRef(id, AssertionRef(o.value)), EventRef(id, AssertionRef(n.value))}
    case _ => {}
  }

  function OutcomeOf(id: EventId, p: Payload): Outcome
    requires Decodes(p)
  {
    if p.ActorDeclare? then ActorDeclared(DeclaredActor(id, p)) else Unit
  }

  function Project(v: Projection, id: EventId, createdAt: int, p: Payload): Result<Projection, EventsError> {
    var stop := Rejection(v.tables, id, p);
    if stop.Some? then Err(stop.value)
    else Ok(Projection(Effect(v.tables, id, createdAt, p), v.refs + RefsOf(id, p)))
  }
}

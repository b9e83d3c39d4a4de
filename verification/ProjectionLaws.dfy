/** What holds of the projection of every accepted log: references resolve, and statuses follow the last
    challenge. */
module ProjectionLaws {
  import opened Base
  import opened Events
  import opened Projector
  import opened EventLog
  import opened Rebuild
  import opened Runs
  import Text

  // ---- References ----

  /** The primary keys that foreign keys may point at. */
  datatype Targets = Targets(nodes: set<NodeId>, edges: set<EdgeId>, actors: set<ActorId>, assertions: set<EventId>)

  function TargetsOf(t: Tables): Targets {
    Targets(t.nodes.Keys, t.edges.Keys, t.actors.Keys, t.assertions.Keys)
  }

  ghost predicate NodesNamed(rows: map<NodeId, Node>) {
    forall n :: n in rows ==> n == OfIdentifier(rows[n].identifier)
  }

  ghost predicate EdgesResolve(rows: map<EdgeId, Edge>, g: Targets) {
    forall e :: e in rows ==>
      e == OfTriple(rows[e].subject, rows[e].relation, rows[e].target) && e.subject in g.nodes && e.target in g.nodes
  }

  ghost predicate AliasesResolve(rows: map<(NodeId, string), AliasType>, g: Targets) {
    forall a :: a in rows ==> a.0 in g.nodes
  }

  ghost predicate KeysResolve(rows: map<Bytes32, ActorKey>, g: Targets) {
    forall k :: k in rows ==> rows[k].actor in g.actors
  }

  ghost predicate AssertionsResolve(rows: map<EventId, Assertion>, g: Targets) {
    forall i :: i in rows ==> rows[i].edge in g.edges && rows[i].actor in g.actors
  }

  ghost predicate EvidenceResolves(rows: map<EventId, Evidence>, g: Targets) {
    forall i :: i in rows ==> rows[i].assertion in g.assertions
  }

  ghost predicate ObservationsResolve(rows: map<EventId, Observation>, g: Targets) {
    forall i :: i in rows ==> rows[i].assertion in g.assertions && rows[i].actor in g.actors
  }

  ghost predicate ChallengesResolve(rows: map<EventId, Challenge>, g: Targets) {
    forall i :: i in rows ==> rows[i].assertion in g.assertions && rows[i].actor in g.actors
  }

  ghost predicate SupersessionsResolve(rows: map<EventId, Supersession>, g: Targets) {
    forall i :: i in rows ==>
      rows[i].oldAssertion in g.assertions && rows[i].newAssertion in g.assertions && rows[i].actor in g.actors
  }

  /** Node and edge columns are the ones their identifiers derive from, and every foreign key is among `g`. */
  ghost predicate ResolvesIn(t: Tables, g: Targets) {
    && NodesNamed(t.nodes) && EdgesResolve(t.edges, g) && AliasesResolve(t.aliases, g) && KeysResolve(t.keys, g)
    && AssertionsResolve(t.assertions, g) && EvidenceResolves(t.evidence, g) && ObservationsResolve(t.observations, g)
    && ChallengesResolve(t.disputes, g) && ChallengesResolve(t.retractions, g)
    && SupersessionsResolve(t.supersessions, g)
  }

  ghost predicate ReferencesResolve(t: Tables) {
    ResolvesIn(t, TargetsOf(t))
  }

  lemma ResolvesInMore(t: Tables, g: Targets, h: Targets)
    requires ResolvesIn(t, g)
    requires g.nodes <= h.nodes && g.edges <= h.edges && g.actors <= h.actors && g.assertions <= h.assertions
    ensures ResolvesIn(t, h)
  {
  }

  /** The assertion an event disputes, retracts or supersedes, and the status that gives it. */
  function ChallengeOf(p: Payload): Option<(EventId, Status)> {
    match p
    case DisputeAssertion(Parsed(a, _), _, _) => Some((a, Disputed))
    case RetractAssertion(Parsed(a, _), _, _) => Some((a, Retracted))
    case SupersedeAssertion(Parsed(a, _), _, _) => Some((a, Superseded))
    case _ => None
  }

  lemma GraphRowsOneMore(t: Tables, g: Targets, at: int, p: Payload)
    requires p.AssertRelation? && NodesNamed(t.nodes) && EdgesResolve(t.edges, g)
    requires EdgeOf(p).subject in g.nodes && EdgeOf(p).target in g.nodes
    ensures var e := EdgeOf(p);
            && NodesNamed(Keep(Keep(t.nodes, e.subject, SubjectNode(at, p)), e.target, TargetNode(at, p)))
            && EdgesResolve(Keep(t.edges, e, Edge(e.subject, e.relation, e.target, at)), g)
  {
    hide Text.NormalizePredicate, Text.NormalizeNodeType;
  }

  lemma AssertionRowsChanged(rows: map<EventId, Assertion>, g: Targets, a: EventId, row: Assertion, status: Status)
    requires AssertionsResolve(rows, g)
    ensures AssertionsResolve(SetStatus(rows, a, status), g) && SetStatus(rows, a, status).Keys == rows.Keys
    ensures row.edge in g.edges && row.actor in g.actors ==> AssertionsResolve(rows[a := row], g)
  {
  }

  lemma KeyAdded(rows: map<Bytes32, ActorKey>, g: Targets, k: Bytes32, row: ActorKey)
    requires KeysResolve(rows, g) && row.actor in g.actors
    ensures KeysResolve(rows[k := row], g)
  {
  }

  lemma KeyRevoked(rows: map<Bytes32, ActorKey>, g: Targets, k: Bytes32, at: int)
    requires KeysResolve(rows, g)
    ensures KeysResolve(Revoke(rows, k, at), g)
  {
  }

  lemma RelationKeepsReferences(t: Tables, id: EventId, at: int, p: Payload)
    requires ReferencesResolve(t) && p.AssertRelation? && Rejection(t, id, p).None?
    ensures ReferencesResolve(Effect(t, id, at, p))
  {
    hide NodesNamed, EdgesResolve, KeysResolve, AliasesResolve, AssertionsResolve, EvidenceResolves,
      ObservationsResolve, ChallengesResolve, SupersessionsResolve, SubjectNode, TargetNode, Text.NormalizePredicate;
    var g, h := TargetsOf(t), TargetsOf(Effect(t, id, at, p));
    ResolvesInMore(t, g, h);
    GraphRowsOneMore(t, h, at, p);
    AssertionRowsChanged(t.assertions, h, id, AssertionRow(at, p), Active);
  }

  lemma ChallengeAdded(rows: map<EventId, Challenge>, g: Targets, id: EventId, c: Challenge)
    requires ChallengesResolve(rows, g) && c.assertion in g.assertions && c.actor in g.actors
    ensures ChallengesResolve(rows[id := c], g)
  {
  }

  lemma SupersessionAdded(rows: map<EventId, Supersession>, g: Targets, id: EventId, x: Supersession)
    requires SupersessionsResolve(rows, g)
    requires x.oldAssertion in g.assertions && x.newAssertion in g.assertions && x.actor in g.actors
    ensures SupersessionsResolve(rows[id := x], g)
  {
  }

  lemma ChallengeKeepsReferences(t: Tables, id: EventId, at: int, p: Payload)
    requires ReferencesResolve(t) && ChallengeOf(p).Some? && Rejection(t, id, p).None?
    ensures ReferencesResolve(Effect(t, id, at, p))
  {
    hide NodesNamed, EdgesResolve, KeysResolve, AliasesResolve, AssertionsResolve, EvidenceResolves,
      ObservationsResolve, ChallengesResolve, SupersessionsResolve;
    var a, status := ChallengeOf(p).value.0, ChallengeOf(p).value.1;
    var g := TargetsOf(t);
    AssertionRowsChanged(t.assertions, g, a, t.assertions[a], status);
    assert TargetsOf(Effect(t, id, at, p)) == g;
    match p
    case DisputeAssertion(_, actor, reason) =>
      ChallengeAdded(t.disputes, g, id, Challenge(a, actor.value, reason, at));
    case RetractAssertion(_, actor, reason) =>
      ChallengeAdded(t.retractions, g, id, Challenge(a, actor.value, reason, at));
    case SupersedeAssertion(_, n, actor) =>
      SupersessionAdded(t.supersessions, g, id, Supersession(a, n.value, actor.value, at));
  }

  /** An accepted event's rows point only at rows that are there, or that it brings itself. */
  lemma EffectKeepsReferences(t: Tables, id: EventId, at: int, p: Payload)
    requires ReferencesResolve(t) && Rejection(t, id, p).None?
    ensures ReferencesResolve(Effect(t, id, at, p))
  {
    hide NodesNamed, EdgesResolve, KeysResolve, AssertionsResolve, ChallengesResolve, SupersessionsResolve,
      EvidenceMetadata, Known, DeclaredActor, Revoke;
    if p.AssertRelation? {
      RelationKeepsReferences(t, id, at, p);
    } else if ChallengeOf(p).Some? {
      ChallengeKeepsReferences(t, id, at, p);
    } else {
      var u := Effect(t, id, at, p);
      ResolvesInMore(t, TargetsOf(t), TargetsOf(u));
      if p.ActorKeyAdd? {
        KeyAdded(t.keys, TargetsOf(u), p.keyHash.value, u.keys[p.keyHash.value]);
      } else if p.ActorKeyRevoke? {
        KeyRevoked(t.keys, TargetsOf(u), p.keyHash.value, at);
      }
    }
  }

  // ---- Status ----

  predicate Challenges(p: Payload, a: EventId) {
    ChallengeOf(p).Some? && ChallengeOf(p).value.0 == a
  }

  /** The kind of the last event of the log that challenges `a`. */
  function LastStatus(log: seq<StoredEvent>, a: EventId): Status {
    if log == [] then Active
    else
      var p := log[|log| - 1].signed.unsigned.payload;
      if Challenges(p, a) then ChallengeOf(p).value.1 else LastStatus(log[..|log| - 1], a)
  }

  ghost predicate Names(rows: map<EventId, Challenge>, a: EventId) {
    exists i :: i in rows && rows[i].assertion == a
  }

  ghost predicate Replaces(rows: map<EventId, Supersession>, a: EventId) {
    exists i :: i in rows && rows[i].oldAssertion == a
  }

  /** Some dispute, retraction or supersession row names `a` as its target. */
  ghost predicate Challenged(t: Tables, a: EventId) {
    Names(t.disputes, a) || Names(t.retractions, a) || Replaces(t.supersessions, a)
  }

  lemma NamesOneMore(rows: map<EventId, Challenge>, id: EventId, c: Challenge, a: EventId)
    requires id !in rows
    ensures Names(rows[id := c], a) <==> Names(rows, a) || c.assertion == a
  {
    var m := rows[id := c];
    assert m[id] == c;
    if i :| i in rows && rows[i].assertion == a {
      assert i in m && m[i].assertion == a;
    }
  }

  lemma ReplacesOneMore(rows: map<EventId, Supersession>, id: EventId, x: Supersession, a: EventId)
    requires id !in rows
    ensures Replaces(rows[id := x], a) <==> Replaces(rows, a) || x.oldAssertion == a
  {
    var m := rows[id := x];
    assert m[id] == x;
    if i :| i in rows && rows[i].oldAssertion == a {
      assert i in m && m[i].oldAssertion == a;
    }
  }

  lemma ChallengeRows(v: Projection, id: EventId, createdAt: int, p: Payload, a: EventId)
    requires Project(v, id, createdAt, p).Ok?
    ensures Challenged(Project(v, id, createdAt, p).value.tables, a) <==> Challenged(v.tables, a) || Challenges(p, a)
  {
    hide Names, Replaces;
    var t := v.tables;
    match p
    case DisputeAssertion(b, actor, reason) =>
      NamesOneMore(t.disputes, id, Challenge(b.value, actor.value, reason, createdAt), a);
    case RetractAssertion(b, actor, reason) =>
      NamesOneMore(t.retractions, id, Challenge(b.value, actor.value, reason, createdAt), a);
    case SupersedeAssertion(o, n, actor) =>
      ReplacesOneMore(t.supersessions, id, Supersession(o.value, n.value, actor.value, createdAt), a);
    case _ =>
  }

  lemma StatusAfter(v: Projection, id: EventId, createdAt: int, p: Payload, a: EventId)
    requires Project(v, id, createdAt, p).Ok?
    ensures var t, w := v.tables.assertions, Project(v, id, createdAt, p).value.tables.assertions;
            && (Challenges(p, a) ==> a in t && a in w && w[a].status == ChallengeOf(p).value.1)
            && (a in t && !Challenges(p, a) ==> a in w && w[a].status == t[a].status)
            && (a !in t && a in w ==> w[a].status == Active)
  {
  }

  /** An assertion is active exactly when no challenge row names it; otherwise its status is the kind
      of the last challenge in insertion order. Unknown assertions are never challenged. */
  lemma {:induction false} StatusLaw(log: seq<StoredEvent>, a: EventId)
    requires Replay(log).Ok?
    ensures var t := Replay(log).value.tables;
            && (a in t.assertions ==> t.assertions[a].status == LastStatus(log, a))
            && (a !in t.assertions ==> LastStatus(log, a) == Active)
            && (Challenged(t, a) <==> LastStatus(log, a) != Active)
  {
    hide Project, Challenged;
    if log == [] {
      NoChallenges(a);
    } else {
      var last := log[|log| - 1];
      var v := Replay(log[..|log| - 1]).value;
      StatusLaw(log[..|log| - 1], a);
      ChallengeRows(v, last.id, last.createdAt, last.signed.unsigned.payload, a);
      StatusAfter(v, last.id, last.createdAt, last.signed.unsigned.payload, a);
    }
  }

  lemma NoChallenges(a: EventId)
    ensures !Challenged(NO_ROWS, a)
  {
  }

  lemma {:induction false} ReplayResolves(log: seq<StoredEvent>)
    requires Replay(log).Ok?
    ensures ReferencesResolve(Replay(log).value.tables)
  {
    hide Effect, Rejection;
    if log != [] {
      var last := log[|log| - 1];
      ReplayResolves(log[..|log| - 1]);
      var before := Replay(log[..|log| - 1]).value.tables;
      EffectKeepsReferences(before, last.id, last.createdAt, last.signed.unsigned.payload);
    }
  }

  lemma RedactionKeepsReferences(t: Tables, evidence: set<EventId>, actors: set<ActorId>)
    requires ReferencesResolve(t)
    ensures ReferencesResolve(Redacted(t, evidence, actors))
  {
    assert TargetsOf(Redacted(t, evidence, actors)) == TargetsOf(t);
  }

  /** Both laws hold of the live tables in every reachable state, redactions included. */
  lemma ReachableProjections(steps: seq<Step>, a: EventId)
    ensures var s := Run(INITIAL, steps);
            var t := s.projection.tables;
            && ReferencesResolve(t)
            && (a in t.assertions ==> t.assertions[a].status == LastStatus(s.log, a))
            && (a in t.assertions ==> (t.assertions[a].status == Active <==> !Challenged(t, a)))
  {
    hide ReplayFrom, Run, LogOk, ReferencesResolve;
    InitialInv();
    RunKeepsInv(INITIAL, steps);
    var s := Run(INITIAL, steps);
    StatusLaw(s.log, a);
    ReplayResolves(s.log);
    RedactionKeepsReferences(Replay(s.log).value.tables, s.redactions.Keys, s.actorRedactions.Keys);
  }
}

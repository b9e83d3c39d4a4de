/** Peers that store the same events hold the same graph, in whatever order the events arrived. */
module Convergence {
  import opened Base
  import opened Events
  import opened Projector
  import opened EventLog
  import opened Rebuild
  import opened Runs
  import opened ProjectionLaws
  import Text

  /** Everything a projection records except first-writer columns (a node's type, an alias's type, an
      actor's details, creation times of shared rows) and last-writer ones (statuses, revocations). */
  datatype Fact =
    | NodeFact(node: NodeId)
    | EdgeFact(edge: EdgeId)
    | ActorFact(actor: ActorId)
    | AliasFact(node: NodeId, alias: string)
    | KeyFact(hash: Bytes32, actorKey: ActorKey)
    | AssertionFact(id: EventId, assertion: Assertion)
    | EvidenceFact(id: EventId, evidence: Evidence)
    | ObservationFact(id: EventId, observation: Observation)
    | DisputeFact(id: EventId, dispute: Challenge)
    | RetractionFact(id: EventId, retraction: Challenge)
    | SupersessionFact(id: EventId, supersession: Supersession)
    | RefFact(ref: EventRef)

  ghost predicate Has(v: Projection, f: Fact) {
    var t := v.tables;
    match f
    case NodeFact(n) => n in t.nodes
    case EdgeFact(e) => e in t.edges
    case ActorFact(a) => a in t.actors
    case AliasFact(n, alias) => (n, alias) in t.aliases
    case KeyFact(h, k) => h in t.keys && t.keys[h].(revokedAt := None) == k
    case AssertionFact(i, a) => i in t.assertions && t.assertions[i].(status := Active) == a
    case EvidenceFact(i, e) => i in t.evidence && t.evidence[i] == e
    case ObservationFact(i, o) => i in t.observations && t.observations[i] == o
    case DisputeFact(i, c) => i in t.disputes && t.disputes[i] == c
    case RetractionFact(i, c) => i in t.retractions && t.retractions[i] == c
    case SupersessionFact(i, x) => i in t.supersessions && t.supersessions[i] == x
    case RefFact(r) => r in v.refs
  }

  /** The facts an event states, read off the event alone. */
  function Stated(id: EventId, at: int, p: Payload): set<Fact>
    requires Decodes(p)
  {
    match p
    case AssertRelation(_, _, _, _, _, _, _, _, _) =>
      var e := EdgeOf(p);
      {NodeFact(e.subject), NodeFact(e.target), EdgeFact(e), AssertionFact(id, AssertionRow(at, p)),
       RefFact(EventRef(id, AssertionRef(id))), RefFact(EventRef(id, EdgeRef(e))),
       RefFact(EventRef(id, NodeRef(e.subject))), RefFact(EventRef(id, NodeRef(e.target)))}
    case AddEvidence(a, _, _, _, _, _, _, _, _, _) =>
      {EvidenceFact(id, EvidenceRow(p)), RefFact(EventRef(id, AssertionRef(a.value)))}
    case VerifyAssertion(a, actor, result, checkedAt) =>
      {ObservationFact(id, Observation(a.value, actor.value, result, checkedAt, at)),
       RefFact(EventRef(id, AssertionRef(a.value)))}
    case DisputeAssertion(a, actor, reason) =>
      {DisputeFact(id, Challenge(a.value, actor.value, reason, at)), RefFact(EventRef(id, AssertionRef(a.value)))}
    case RetractAssertion(a, actor, reason) =>
      {RetractionFact(id, Challenge(a.value, actor.value, reason, at)), RefFact(EventRef(id, AssertionRef(a.value)))}
    case SupersedeAssertion(o, n, actor) =>
      {SupersessionFact(id, Supersession(o.value, n.value, actor.value, at)),
       RefFact(EventRef(id, AssertionRef(o.value))), RefFact(EventRef(id, AssertionRef(n.value)))}
    case ActorDeclare(_, _, _, _) => {ActorFact(DeclaredActor(id, p))}
    case ActorKeyAdd(actor, k, permissions) => {KeyFact(k.value, ActorKey(actor.value, Known(permissions), at, None))}
    case ActorKeyRevoke(_, _) => {}
    case NodeAlias(node, alias, _) => {AliasFact(node.value, alias)}
  }

  predicate Contributes(row: StoredEvent, f: Fact) {
    Decodes(row.signed.unsigned.payload) && f in Stated(row.id, row.createdAt, row.signed.unsigned.payload)
  }

  ghost predicate AddsWhatItStates(v: Projection, row: StoredEvent, f: Fact)
    requires Decodes(row.signed.unsigned.payload)
  {
    var p := row.signed.unsigned.payload;
    Has(Projection(Effect(v.tables, row.id, row.createdAt, p), v.refs + RefsOf(row.id, p)), f)
    <==> Has(v, f) || f in Stated(row.id, row.createdAt, p)
  }

  lemma RelationStates(v: Projection, row: StoredEvent, f: Fact)
    requires var p := row.signed.unsigned.payload;
             p.AssertRelation? && Rejection(v.tables, row.id, p).None?
    ensures AddsWhatItStates(v, row, f)
  {
    hide EdgeOf, SubjectNode, TargetNode, EvidenceRow, ActorRow, Known, DeclaredActor;
  }

  lemma ChallengeStates(v: Projection, row: StoredEvent, f: Fact)
    requires var p := row.signed.unsigned.payload;
             && (p.DisputeAssertion? || p.RetractAssertion? || p.SupersedeAssertion?)
             && Rejection(v.tables, row.id, p).None?
    ensures AddsWhatItStates(v, row, f)
  {
    hide EdgeOf, SubjectNode, TargetNode, EvidenceRow, ActorRow, Known, DeclaredActor;
  }

  lemma AttachmentStates(v: Projection, row: StoredEvent, f: Fact)
    requires var p := row.signed.unsigned.payload;
             (p.AddEvidence? || p.VerifyAssertion?) && Rejection(v.tables, row.id, p).None?
    ensures AddsWhatItStates(v, row, f)
  {
    hide EdgeOf, SubjectNode, TargetNode, EvidenceRow, ActorRow, Known, DeclaredActor;
  }

  lemma IdentityStates(v: Projection, row: StoredEvent, f: Fact)
    requires var p := row.signed.unsigned.payload;
             && (p.ActorDeclare? || p.ActorKeyAdd? || p.ActorKeyRevoke? || p.NodeAlias?)
             && Rejection(v.tables, row.id, p).None?
    ensures AddsWhatItStates(v, row, f)
  {
    hide EdgeOf, SubjectNode, TargetNode, EvidenceRow, ActorRow, Known, DeclaredActor;
  }

  /** An accepted event adds exactly the facts it states, whatever is stored already. */
  lemma ProjectAddsFacts(v: Projection, row: StoredEvent, f: Fact)
    requires Project(v, row.id, row.createdAt, row.signed.unsigned.payload).Ok?
    ensures Has(Project(v, row.id, row.createdAt, row.signed.unsigned.payload).value, f)
            <==> Has(v, f) || Contributes(row, f)
  {
    hide Rejection, Effect, RefsOf, Stated, Has;
    var p := row.signed.unsigned.payload;
    if p.AssertRelation? {
      RelationStates(v, row, f);
    } else if p.DisputeAssertion? || p.RetractAssertion? || p.SupersedeAssertion? {
      ChallengeStates(v, row, f);
    } else if p.AddEvidence? || p.VerifyAssertion? {
      AttachmentStates(v, row, f);
    } else {
      IdentityStates(v, row, f);
    }
  }

  /** An accepted log holds exactly the facts its events contribute, each event on its own. */
  lemma {:induction false} ReplayFacts(log: seq<StoredEvent>, f: Fact)
    requires Replay(log).Ok?
    ensures Has(Replay(log).value, f) <==> exists i :: 0 <= i < |log| && Contributes(log[i], f)
  {
    hide Project, Has, Contributes;
    if log == [] {
      NothingIsEmpty(f);
    } else {
      var earlier, last := log[..|log| - 1], log[|log| - 1];
      ReplayFacts(earlier, f);
      ProjectAddsFacts(Replay(earlier).value, last, f);
      if i :| 0 <= i < |earlier| && Contributes(earlier[i], f) {
        assert Contributes(log[i], f);
      }
      if i :| 0 <= i < |log| && Contributes(log[i], f) {
        assert i == |log| - 1 || Contributes(earlier[i], f);
      }
    }
  }

  lemma NothingIsEmpty(f: Fact)
    ensures !Has(EMPTY, f)
  {
  }

  lemma {:induction false} ReplayDecodes(log: seq<StoredEvent>, i: nat)
    requires Replay(log).Ok? && i < |log|
    ensures Decodes(log[i].signed.unsigned.payload)
  {
    hide Effect, Decodes;
    if i < |log| - 1 {
      ReplayDecodes(log[..|log| - 1], i);
    }
  }

  lemma AssertionIsRecorded(log: seq<StoredEvent>, i: nat)
    requires Replay(log).Ok? && i < |log| && log[i].signed.unsigned.payload.AssertRelation?
    ensures var t := Replay(log).value.tables;
            log[i].id in t.assertions && t.assertions[log[i].id].edge == EdgeOf(log[i].signed.unsigned.payload)
  {
    hide ReplayFrom, EdgeOf;
    var row := log[i];
    ReplayDecodes(log, i);
    var f := AssertionFact(row.id, AssertionRow(row.createdAt, row.signed.unsigned.payload));
    ReplayFacts(log, f);
    assert Contributes(log[i], f);
  }

  /** Two assertions share an edge exactly when subject, normalised predicate and object agree. */
  lemma AssertionsShareAnEdge(log: seq<StoredEvent>, i: nat, j: nat)
    requires Replay(log).Ok? && i < |log| && j < |log|
    requires log[i].signed.unsigned.payload.AssertRelation? && log[j].signed.unsigned.payload.AssertRelation?
    ensures var t := Replay(log).value.tables;
            var p, q := log[i].signed.unsigned.payload, log[j].signed.unsigned.payload;
            && log[i].id in t.assertions && log[j].id in t.assertions
            && (t.assertions[log[i].id].edge == t.assertions[log[j].id].edge <==>
                  p.subject == q.subject && p.target == q.target
                  && Text.NormalizePredicate(p.relation) == Text.NormalizePredicate(q.relation))
  {
    hide ReplayFrom, Text.NormalizePredicate;
    AssertionIsRecorded(log, i);
    AssertionIsRecorded(log, j);
  }

  // ---- History references ----

  predicate TargetExists(t: Tables, target: RefTarget) {
    match target
    case AssertionRef(a) => a in t.assertions
    case EdgeRef(e) => e in t.edges
    case NodeRef(n) => n in t.nodes
  }

  /** The row an event with references writes besides its reference to `target`, or the target itself. */
  function Carrier(row: StoredEvent, target: RefTarget): Fact
    requires Decodes(row.signed.unsigned.payload)
  {
    var p, id, at := row.signed.unsigned.payload, row.id, row.createdAt;
    match p
    case AddEvidence(_, _, _, _, _, _, _, _, _, _) => EvidenceFact(id, EvidenceRow(p))
    case VerifyAssertion(a, actor, result, checkedAt) =>
      ObservationFact(id, Observation(a.value, actor.value, result, checkedAt, at))
    case DisputeAssertion(a, actor, reason) => DisputeFact(id, Challenge(a.value, actor.value, reason, at))
    case RetractAssertion(a, actor, reason) => RetractionFact(id, Challenge(a.value, actor.value, reason, at))
    case SupersedeAssertion(o, n, actor) => SupersessionFact(id, Supersession(o.value, n.value, actor.value, at))
    case AssertRelation(_, _, _, _, _, _, _, _, _) =>
      (match target
       case AssertionRef(_) => AssertionFact(id, AssertionRow(at, p))
       case EdgeRef(e) => EdgeFact(e)
       case NodeRef(n) => NodeFact(n))
    case _ => RefFact(EventRef(id, target))
  }

  lemma CarrierIsStated(row: StoredEvent, ref: EventRef)
    requires Contributes(row, RefFact(ref))
    ensures ref.event == row.id && Contributes(row, Carrier(row, ref.target))
  {
    hide EdgeOf, EvidenceRow, AssertionRow;
  }

  lemma CarrierLeadsToTarget(v: Projection, row: StoredEvent, ref: EventRef)
    requires Contributes(row, RefFact(ref)) && Has(v, Carrier(row, ref.target)) && ReferencesResolve(v.tables)
    ensures TargetExists(v.tables, ref.target)
  {
    hide EdgeOf, NodesNamed, EdgesResolve, AliasesResolve, KeysResolve, AssertionsResolve;
  }

  lemma ReferenceIsBacked(log: seq<StoredEvent>, ref: EventRef)
    requires Replay(log).Ok? && ref in Replay(log).value.refs
    ensures Stored(log, ref.event) && TargetExists(Replay(log).value.tables, ref.target)
  {
    hide ReplayFrom, Carrier, Contributes, ReferencesResolve, TargetExists;
    var v := Replay(log).value;
    ReplayFacts(log, RefFact(ref));
    var i :| 0 <= i < |log| && Contributes(log[i], RefFact(ref));
    ReplayDecodes(log, i);
    CarrierIsStated(log[i], ref);
    ReplayFacts(log, Carrier(log[i], ref.target));
    ReplayResolves(log);
    CarrierLeadsToTarget(v, log[i], ref);
  }

  /** In every reachable state each history reference is that of a stored event and leads to a row that is there. */
  lemma ReachableHistory(steps: seq<Step>, ref: EventRef)
    requires ref in Run(INITIAL, steps).projection.refs
    ensures var s := Run(INITIAL, steps);
            Stored(s.log, ref.event) && TargetExists(s.projection.tables, ref.target)
  {
    hide ReplayFrom, Run, LogOk;
    InitialInv();
    RunKeepsInv(INITIAL, steps);
    ReferenceIsBacked(Run(INITIAL, steps).log, ref);
  }

  ghost predicate SameEvents(log: seq<StoredEvent>, log': seq<StoredEvent>) {
    forall row :: row in log <==> row in log'
  }

  lemma SameEventsSameFacts(log: seq<StoredEvent>, log': seq<StoredEvent>, f: Fact)
    requires Replay(log).Ok? && Replay(log').Ok? && SameEvents(log, log')
    ensures Has(Replay(log).value, f) <==> Has(Replay(log').value, f)
  {
    hide ReplayFrom, Has;
    ReplayFacts(log, f);
    ReplayFacts(log', f);
    if i :| 0 <= i < |log| && Contributes(log[i], f) {
      assert log[i] in log';
    }
    if i :| 0 <= i < |log'| && Contributes(log'[i], f) {
      assert log'[i] in log;
    }
  }

  /** The two projections differ at most in first- and last-writer columns. */
  ghost predicate SameFacts(v: Projection, w: Projection) {
    forall f :: Has(v, f) <==> Has(w, f)
  }

  lemma RedactionKeepsSameFacts(v: Projection, w: Projection, evidence: set<EventId>, actors: set<ActorId>)
    requires SameFacts(v, w)
    ensures SameFacts(WithRedacted(v, evidence, actors), WithRedacted(w, evidence, actors))
  {
    forall f
      ensures Has(WithRedacted(v, evidence, actors), f) <==> Has(WithRedacted(w, evidence, actors), f)
    {
      if f.EvidenceFact? {
        if f.id in v.tables.evidence {
          assert Has(v, EvidenceFact(f.id, v.tables.evidence[f.id]));
        }
        if f.id in w.tables.evidence {
          assert Has(w, EvidenceFact(f.id, w.tables.evidence[f.id]));
        }
      } else {
        assert Has(v, f) <==> Has(w, f);
      }
    }
  }

  ghost predicate IsActive(s: State, a: EventId) {
    a in s.projection.tables.assertions && s.projection.tables.assertions[a].status == Active
  }

  /** Two peers that reach states with the same stored events and the same redaction decisions hold the
      same graph apart from first- and last-writer columns, and the same active assertions, whatever happened
      in between. */
  lemma PeersConverge(steps: seq<Step>, steps': seq<Step>)
    requires var s, t := Run(INITIAL, steps), Run(INITIAL, steps');
             SameEvents(s.log, t.log) && s.redactions.Keys == t.redactions.Keys
             && s.actorRedactions.Keys == t.actorRedactions.Keys
    ensures SameFacts(Run(INITIAL, steps).projection, Run(INITIAL, steps').projection)
    ensures forall a :: IsActive(Run(INITIAL, steps), a) <==> IsActive(Run(INITIAL, steps'), a)
  {
    hide ReplayFrom, Run, LogOk, Has, SameEvents, OriginsAgree, OneKind, LastStatus;
    forall a
      ensures IsActive(Run(INITIAL, steps), a) <==> IsActive(Run(INITIAL, steps'), a)
    {
      PeersAgreeOnStatus(steps, steps', a);
    }
    InitialInv();
    RunKeepsInv(INITIAL, steps);
    RunKeepsInv(INITIAL, steps');
    var s, t := Run(INITIAL, steps), Run(INITIAL, steps');
    var v, w := Replay(s.log).value, Replay(t.log).value;
    forall f
      ensures Has(v, f) <==> Has(w, f)
    {
      SameEventsSameFacts(s.log, t.log, f);
    }
    RedactionKeepsSameFacts(v, w, s.redactions.Keys, s.actorRedactions.Keys);
  }

  // ---- Statuses: where peers agree ----

  ghost predicate Subset(log: seq<StoredEvent>, log': seq<StoredEvent>) {
    forall row :: row in log ==> row in log'
  }

  /** A stored event has the same place in its origin's chain with every peer that stores it. */
  lemma SamePlace(s: State, t: State, origin: PeerId, i: nat)
    requires LogOk(s) && LogOk(t) && Subset(s.log, t.log) && i < |ChainOf(s.log, origin)|
    ensures i < |ChainOf(t.log, origin)| && ChainOf(t.log, origin)[i] == ChainOf(s.log, origin)[i]
  {
    hide LogOk;
    var row := ChainOf(s.log, origin)[i];
    InChain(s.log, origin, i);
    ChainRowOk(s, origin, i);
    var j :| 0 <= j < |t.log| && t.log[j] == row;
    StoredIsInChain(t, j);
  }

  /** More events, longer chains. */
  lemma ChainsExtend(s: State, t: State, origin: PeerId)
    requires LogOk(s) && LogOk(t) && Subset(s.log, t.log)
    ensures ChainOf(s.log, origin) <= ChainOf(t.log, origin)
  {
    hide LogOk, ChainOf, Subset;
    var c := ChainOf(s.log, origin);
    forall i: nat | i < |c|
      ensures i < |ChainOf(t.log, origin)| && ChainOf(t.log, origin)[i] == c[i]
    {
      SamePlace(s, t, origin, i);
    }
    if c != [] {
      SamePlace(s, t, origin, |c| - 1);
    }
  }

  lemma SameChains(s: State, t: State, origin: PeerId)
    requires LogOk(s) && LogOk(t) && SameEvents(s.log, t.log)
    ensures ChainOf(s.log, origin) == ChainOf(t.log, origin)
  {
    hide LogOk;
    ChainsExtend(s, t, origin);
    ChainsExtend(t, s, origin);
  }

  /** What one origin's own events make of an assertion. */
  function StatusFrom(log: seq<StoredEvent>, origin: PeerId, a: EventId): Status {
    LastStatus(ChainOf(log, origin), a)
  }

  lemma LastStatusAppend(log: seq<StoredEvent>, row: StoredEvent, a: EventId)
    ensures LastStatus(log + [row], a)
            == if Challenges(row.signed.unsigned.payload, a) then ChallengeOf(row.signed.unsigned.payload).value.1
               else LastStatus(log, a)
  {
    assert (log + [row])[..|log|] == log;
  }

  /** The last challenge of all is the last one of its own origin; and where no origin challenges, none does. */
  lemma {:induction false} StatusComesFromAnOrigin(log: seq<StoredEvent>, a: EventId)
    ensures exists origin :: StatusFrom(log, origin, a) == LastStatus(log, a)
    ensures LastStatus(log, a) == Active <==> forall origin :: StatusFrom(log, origin, a) == Active
  {
    if log == [] {
      assert forall origin :: StatusFrom(log, origin, a) == Active;
      assert StatusFrom(log, RawPeer(0), a) == Active;
    } else {
      var earlier, last := log[..|log| - 1], log[|log| - 1];
      StatusComesFromAnOrigin(earlier, a);
      forall origin
        ensures StatusFrom(log, origin, a)
                == if origin == last.origin && Challenges(last.signed.unsigned.payload, a)
                   then ChallengeOf(last.signed.unsigned.payload).value.1 else StatusFrom(earlier, origin, a)
      {
        LastStatusAppend(ChainOf(earlier, origin), last, a);
      }
      if Challenges(last.signed.unsigned.payload, a) {
        assert StatusFrom(log, last.origin, a) == LastStatus(log, a) != Active;
      } else {
        var origin :| StatusFrom(earlier, origin, a) == LastStatus(earlier, a);
        assert StatusFrom(log, origin, a) == LastStatus(log, a);
      }
    }
  }

  /** The origins that challenge the assertion agree, each by its own last word, on what it is. Only which
      events are stored matters for this, not their order. */
  ghost predicate OriginsAgree(log: seq<StoredEvent>, a: EventId) {
    forall o, o' :: StatusFrom(log, o, a) != Active && StatusFrom(log, o', a) != Active ==>
      StatusFrom(log, o, a) == StatusFrom(log, o', a)
  }

  /** All challenges of the assertion are of one kind. */
  ghost predicate OneKind(log: seq<StoredEvent>, a: EventId) {
    forall x, y :: x in log && y in log ==> SameKind(x.signed.unsigned.payload, y.signed.unsigned.payload, a)
  }

  predicate SameKind(p: Payload, q: Payload, a: EventId) {
    Challenges(p, a) && Challenges(q, a) ==> ChallengeOf(p) == ChallengeOf(q)
  }

  lemma {:induction false} StatusIsOfAChallenge(log: seq<StoredEvent>, a: EventId)
    requires LastStatus(log, a) != Active
    ensures exists i :: 0 <= i < |log|
                        && ChallengeOf(log[i].signed.unsigned.payload) == Some((a, LastStatus(log, a)))
  {
    var last := log[|log| - 1];
    if Challenges(last.signed.unsigned.payload, a) {
      assert ChallengeOf(log[|log| - 1].signed.unsigned.payload) == Some((a, LastStatus(log, a)));
    } else {
      var earlier := log[..|log| - 1];
      StatusIsOfAChallenge(earlier, a);
      var i :| 0 <= i < |earlier|
               && ChallengeOf(earlier[i].signed.unsigned.payload) == Some((a, LastStatus(earlier, a)));
      assert ChallengeOf(log[i].signed.unsigned.payload) == Some((a, LastStatus(log, a)));
    }
  }

  lemma StatusFromIsOfAChallenge(log: seq<StoredEvent>, origin: PeerId, a: EventId) returns (i: nat)
    requires StatusFrom(log, origin, a) != Active
    ensures i < |log| && ChallengeOf(log[i].signed.unsigned.payload) == Some((a, StatusFrom(log, origin, a)))
  {
    var c := ChainOf(log, origin);
    StatusIsOfAChallenge(c, a);
    var j :| 0 <= j < |c| && ChallengeOf(c[j].signed.unsigned.payload) == Some((a, LastStatus(c, a)));
    InChain(log, origin, j);
    i :| 0 <= i < |log| && log[i] == c[j];
  }

  lemma OneKindOriginsAgree(log: seq<StoredEvent>, a: EventId)
    requires OneKind(log, a)
    ensures OriginsAgree(log, a)
  {
    forall o, o' | StatusFrom(log, o, a) != Active && StatusFrom(log, o', a) != Active
      ensures StatusFrom(log, o, a) == StatusFrom(log, o', a)
    {
      var i := StatusFromIsOfAChallenge(log, o, a);
      var j := StatusFromIsOfAChallenge(log, o', a);
      assert log[i] in log && log[j] in log;
      assert SameKind(log[i].signed.unsigned.payload, log[j].signed.unsigned.payload, a);
    }
  }

  lemma SameEventsSameActivity(s: State, t: State, a: EventId)
    requires LogOk(s) && LogOk(t) && SameEvents(s.log, t.log)
    ensures LastStatus(s.log, a) == Active <==> LastStatus(t.log, a) == Active
    ensures OriginsAgree(s.log, a) ==> LastStatus(s.log, a) == LastStatus(t.log, a)
  {
    hide LogOk, SameEvents, LastStatus;
    forall origin
      ensures StatusFrom(s.log, origin, a) == StatusFrom(t.log, origin, a)
    {
      SameChains(s, t, origin);
    }
    StatusComesFromAnOrigin(s.log, a);
    StatusComesFromAnOrigin(t.log, a);
    if OriginsAgree(s.log, a) && LastStatus(s.log, a) != Active {
      var o :| StatusFrom(s.log, o, a) == LastStatus(s.log, a);
      var o' :| StatusFrom(t.log, o', a) == LastStatus(t.log, a);
      assert StatusFrom(s.log, o', a) == LastStatus(t.log, a);
    }
  }

  /** Peers that store the same events, by any runs and with any redactions, have the same assertions and agree
      on which are active. Their statuses are equal exactly when the same kind of challenge came last with
      both; and always, in every order, when the origins that challenge the assertion agree with one another,
      in particular when all challenges are of one kind. */
  lemma PeersAgreeOnStatus(steps: seq<Step>, steps': seq<Step>, a: EventId)
    requires SameEvents(Run(INITIAL, steps).log, Run(INITIAL, steps').log)
    ensures var s, t := Run(INITIAL, steps), Run(INITIAL, steps');
            var x, y := s.projection.tables.assertions, t.projection.tables.assertions;
            && (a in x <==> a in y)
            && (a in x ==>
                  && (x[a].status == y[a].status <==> LastStatus(s.log, a) == LastStatus(t.log, a))
                  && (x[a].status == Active <==> y[a].status == Active)
                  && (OriginsAgree(s.log, a) ==> x[a].status == y[a].status)
                  && (OneKind(s.log, a) ==> x[a].status == y[a].status))
  {
    hide Run, LogOk, SameEvents, ReferencesResolve, Challenged, OriginsAgree, OneKind, LastStatus;
    var s, t := Run(INITIAL, steps), Run(INITIAL, steps');
    if a in s.projection.tables.assertions {
      SameAssertions(steps, steps', a);
    }
    if a in t.projection.tables.assertions {
      SameEventsSymmetric(s.log, t.log);
      SameAssertions(steps', steps, a);
    }
    ReachableProjections(steps, a);
    ReachableProjections(steps', a);
    InitialInv();
    RunKeepsInv(INITIAL, steps);
    RunKeepsInv(INITIAL, steps');
    SameEventsSameActivity(s, t, a);
    if OneKind(s.log, a) {
      OneKindOriginsAgree(s.log, a);
    }
  }

  lemma SameEventsSymmetric(log: seq<StoredEvent>, log': seq<StoredEvent>)
    requires SameEvents(log, log')
    ensures SameEvents(log', log)
  {
  }

  lemma SameAssertions(steps: seq<Step>, steps': seq<Step>, a: EventId)
    requires SameEvents(Run(INITIAL, steps).log, Run(INITIAL, steps').log)
    requires a in Run(INITIAL, steps).projection.tables.assertions
    ensures a in Run(INITIAL, steps').projection.tables.assertions
  {
    hide Run, LogOk, SameEvents, ReplayFrom;
    InitialInv();
    RunKeepsInv(INITIAL, steps);
    RunKeepsInv(INITIAL, steps');
    var s, t := Run(INITIAL, steps), Run(INITIAL, steps');
    var f := AssertionFact(a, s.projection.tables.assertions[a].(status := Active));
    SameEventsSameFacts(s.log, t.log, f);
  }

  // ---- Statuses: where they do not ----

  const OWNER: Key := Key(0)
  const DECLARE: Payload := ActorDeclare(Parsed(Agent, 0), None, None, None)

  function FirstEvent(key: Key, p: Payload): SignedEvent {
    BuildAndSign(key, 1, None, 0, p).0
  }

  function Author(): ActorId {
    OfSeed(HexText(DeriveEventId(FirstEvent(OWNER, DECLARE)), 0))
  }

  function Claim(): Payload {
    AssertRelation("a", "t", "r", "b", "t", Parsed(Author(), 0), None, None, Parsed(Direct, 0))
  }

  function ClaimId(): EventId {
    BuildAndSign(OWNER, 2, Some(DeriveEventId(FirstEvent(OWNER, DECLARE))), 0, Claim()).1
  }

  function Disputing(): Step {
    IngestRemote(Key(1), FirstEvent(Key(1), DisputeAssertion(Parsed(ClaimId(), 0), Parsed(Author(), 0), None)), 0)
  }

  function Retracting(): Step {
    IngestRemote(Key(2), FirstEvent(Key(2), RetractAssertion(Parsed(ClaimId(), 0), Parsed(Author(), 0), None)), 0)
  }

  function Prelude(): seq<Step> {
    [CommitLocal(OWNER, DECLARE, 0), CommitLocal(OWNER, Claim(), 0)]
  }

  lemma CommitApplied(s: State, key: Key, p: Payload)
    requires Inv(s) && Project(s.projection, LocalRow(s, key, p, 0).id, 0, p).Ok?
    ensures var row := LocalRow(s, key, p, 0);
            var s' := Next(s, CommitLocal(key, p, 0));
            && Inv(s') && s'.origins == s.origins[OfKey(key) := Origin(row.sequence, row.id)]
            && Ok(s'.projection) == Project(s.projection, row.id, 0, p)
  {
    hide Project, LogOk, ViewOk;
    CommitKeepsInv(s, key, p, 0);
    CommitKeepsLog(s, key, p, 0);
  }

  lemma DeclareProjected()
    ensures var r := Project(EMPTY, DeriveEventId(FirstEvent(OWNER, DECLARE)), 0, DECLARE);
            && r.Ok? && r.value.tables.actors.Keys == {Author()} && r.value.tables.assertions == map[]
            && r.value.tables.disputes.Keys == {} && r.value.tables.retractions.Keys == {}
  {
  }

  lemma RelationProjected(v: Projection, id: EventId, p: Payload)
    requires p.AssertRelation? && Decodes(p) && p.actor.value in v.tables.actors && id !in v.tables.assertions
    ensures var r := Project(v, id, 0, p);
            && r.Ok? && v.tables.actors.Keys <= r.value.tables.actors.Keys && id in r.value.tables.assertions
            && r.value.tables.disputes.Keys == v.tables.disputes.Keys
            && r.value.tables.retractions.Keys == v.tables.retractions.Keys
  {
  }

  lemma AfterPrelude()
    ensures var s := Run(INITIAL, Prelude());
            && s.origins.Keys == {OfKey(OWNER)}
            && Author() in s.projection.tables.actors && ClaimId() in s.projection.tables.assertions
            && s.projection.tables.disputes.Keys == {} && s.projection.tables.retractions.Keys == {}
  {
    hide Next, Inv, Project;
    InitialInv();
    DeclareProjected();
    CommitApplied(INITIAL, OWNER, DECLARE);
    var s1 := Next(INITIAL, CommitLocal(OWNER, DECLARE, 0));
    assert Run(INITIAL, Prelude()[..1]) == s1;
    RelationProjected(s1.projection, ClaimId(), Claim());
    CommitApplied(s1, OWNER, Claim());
  }

  function FirstRow(key: Key, p: Payload): StoredEvent {
    var (signed, id) := BuildAndSign(key, 1, None, 0, p);
    StoredEvent(id, OfKey(key), 1, None, 0, signed)
  }

  /** The first event of an origin never heard of is applied as soon as the projector accepts it. */
  lemma FirstEventApplied(s: State, key: Key, p: Payload)
    requires Inv(s) && OfKey(key) !in s.origins
    requires Rejection(s.projection.tables, FirstRow(key, p).id, p).None?
    ensures var s' := Next(s, IngestRemote(key, FirstEvent(key, p), 0));
            && Inv(s') && s'.log == s.log + [FirstRow(key, p)]
            && s'.origins == s.origins[OfKey(key) := Origin(1, FirstRow(key, p).id)]
            && Ok(s'.projection) == Project(s.projection, FirstRow(key, p).id, 0, p)
  {
    hide Rejection, Effect, ViewOk;
    var row := FirstRow(key, p);
    assert Admit(key, FirstEvent(key, p)) == Ok(row);
    NextRowNeverConflicts(s, row);
    IngestKeepsInv(s, key, FirstEvent(key, p), 0);
  }

  ghost predicate Ready(s: State, key: Key, p: Payload) {
    Inv(s) && OfKey(key) !in s.origins && Rejection(s.projection.tables, FirstRow(key, p).id, p).None?
  }

  lemma OtherChallengeStillAccepted(v: Projection, i1: EventId, p1: Payload, i2: EventId, p2: Payload)
    requires Project(v, i1, 0, p1).Ok? && Rejection(v.tables, i2, p2).None?
    requires (p1.DisputeAssertion? && p2.RetractAssertion?) || (p1.RetractAssertion? && p2.DisputeAssertion?)
    ensures Rejection(Project(v, i1, 0, p1).value.tables, i2, p2).None?
  {
  }

  /** A dispute and a retraction from two new origins are both accepted, and the second decides the status. */
  lemma SecondChallengeDecides(base: State, k1: Key, p1: Payload, k2: Key, p2: Payload, claim: EventId)
    requires Ready(base, k1, p1) && Ready(base, k2, p2) && k1 != k2
    requires (p1.DisputeAssertion? && p2.RetractAssertion?) || (p1.RetractAssertion? && p2.DisputeAssertion?)
    requires Challenges(p1, claim) && Challenges(p2, claim)
    ensures var s1 := Next(base, IngestRemote(k1, FirstEvent(k1, p1), 0));
            var s2 := Next(s1, IngestRemote(k2, FirstEvent(k2, p2), 0));
            && s2.log == base.log + [FirstRow(k1, p1), FirstRow(k2, p2)]
            && claim in s2.projection.tables.assertions
            && s2.projection.tables.assertions[claim].status == ChallengeOf(p2).value.1
  {
    hide Next, Inv, Project, Rejection;
    FirstEventApplied(base, k1, p1);
    var s1 := Next(base, IngestRemote(k1, FirstEvent(k1, p1), 0));
    OtherChallengeStillAccepted(base.projection, FirstRow(k1, p1).id, p1, FirstRow(k2, p2).id, p2);
    FirstEventApplied(s1, k2, p2);
    StatusAfter(s1.projection, FirstRow(k2, p2).id, 0, p2, claim);
  }

  /** Two runs that store the same events, without redactions, and still give one assertion different
      statuses: the last challenge to arrive decides it. */
  lemma OrderDecidesStatus()
    ensures var s := Run(INITIAL, Prelude() + [Disputing(), Retracting()]);
            var t := Run(INITIAL, Prelude() + [Retracting(), Disputing()]);
            && SameEvents(s.log, t.log)
            && ClaimId() in s.projection.tables.assertions && ClaimId() in t.projection.tables.assertions
            && s.projection.tables.assertions[ClaimId()].status == Retracted
            && t.projection.tables.assertions[ClaimId()].status == Disputed
  {
    hide Inv, Run, Next;
    var base := Run(INITIAL, Prelude());
    AfterPrelude();
    InitialInv();
    RunKeepsInv(INITIAL, Prelude());
    var dispute := DisputeAssertion(Parsed(ClaimId(), 0), Parsed(Author(), 0), None);
    var retract := RetractAssertion(Parsed(ClaimId(), 0), Parsed(Author(), 0), None);
    SecondChallengeDecides(base, Key(1), dispute, Key(2), retract, ClaimId());
    SecondChallengeDecides(base, Key(2), retract, Key(1), dispute, ClaimId());
    RunTwice(INITIAL, Prelude(), Disputing(), Retracting());
    RunTwice(INITIAL, Prelude(), Retracting(), Disputing());
  }

  lemma RunTwice(s: State, steps: seq<Step>, x: Step, y: Step)
    ensures Run(s, steps + [x, y]) == Next(Next(Run(s, steps), x), y)
  {
    hide Next;
    assert (steps + [x, y])[..|steps| + 1] == steps + [x];
    assert (steps + [x])[..|steps|] == steps;
  }
}

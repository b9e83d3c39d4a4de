/** Every run of one peer's database, and what holds in every state it can reach. */
module Runs {
  import opened Base
  import opened Events
  import opened Projector
  import opened EventLog
  import opened Rebuild

  datatype Step =
    | CommitLocal(key: Key, payload: Payload, createdAt: int)
    | IngestRemote(key: Key, signed: SignedEvent, receivedAt: int)
    | RedactEvidenceText(admin: bool, evidence: EventId, at: int, reason: Option<string>)
    | RedactActorUri(admin: bool, actor: ActorId, at: int, reason: Option<string>)
    | RebuildAll

  /** The state after one transaction; a transaction that fails leaves no trace. */
  function Next(s: State, step: Step): State {
    match step
    case CommitLocal(key, payload, createdAt) => Commit(s, key, payload, createdAt).0
    case IngestRemote(key, signed, receivedAt) => Ingest(s, key, signed, receivedAt).0
    case RedactEvidenceText(admin, id, at, reason) => RedactEvidence(s, admin, id, at, reason).0
    case RedactActorUri(admin, actor, at, reason) => RedactActor(s, admin, actor, at, reason).0
    case RebuildAll => RebuildProjection(s).0
  }

  function Run(s: State, steps: seq<Step>): State {
    if steps == [] then s else Next(Run(s, steps[..|steps| - 1]), steps[|steps| - 1])
  }

  /** What every transaction keeps. */
  ghost predicate Inv(s: State) {
    LogOk(s) && ViewOk(s)
  }

  lemma NextKeepsInv(s: State, step: Step)
    requires Inv(s)
    ensures Inv(Next(s, step))
    ensures s.log <= Next(s, step).log && |Next(s, step).log| <= |s.log| + 1
  {
    hide Commit, Ingest, RedactEvidence, RedactActor, RebuildProjection, LogOk, ViewOk;
    match step
    case CommitLocal(key, payload, createdAt) => CommitKeepsInv(s, key, payload, createdAt);
    case IngestRemote(key, signed, receivedAt) => IngestKeepsInv(s, key, signed, receivedAt);
    case RedactEvidenceText(admin, id, at, reason) => RedactEvidenceKeepsInv(s, admin, id, at, reason);
    case RedactActorUri(admin, actor, at, reason) => RedactActorKeepsInv(s, admin, actor, at, reason);
    case RebuildAll => RebuildIsIdentity(s);
  }

  lemma RedactEvidenceKeepsInv(s: State, admin: bool, id: EventId, at: int, reason: Option<string>)
    requires Inv(s)
    ensures var s' := RedactEvidence(s, admin, id, at, reason).0;
            Inv(s') && s'.log == s.log
  {
    hide ViewOk;
    RedactEvidenceKeepsView(s, admin, id, at, reason);
    SameLogKeepsLog(s, RedactEvidence(s, admin, id, at, reason).0);
  }

  lemma RedactActorKeepsInv(s: State, admin: bool, actor: ActorId, at: int, reason: Option<string>)
    requires Inv(s)
    ensures var s' := RedactActor(s, admin, actor, at, reason).0;
            Inv(s') && s'.log == s.log
  {
    hide ViewOk;
    RedactActorKeepsView(s, admin, actor, at, reason);
    SameLogKeepsLog(s, RedactActor(s, admin, actor, at, reason).0);
  }

  lemma CommitKeepsInv(s: State, key: Key, payload: Payload, createdAt: int)
    requires Inv(s)
    ensures var s' := Commit(s, key, payload, createdAt).0;
            Inv(s') && (s' == s || s'.log == s.log + [LocalRow(s, key, payload, createdAt)])
  {
    hide ReplayFrom;
    hide Project;
    CommitKeepsLog(s, key, payload, createdAt);
    var row := LocalRow(s, key, payload, createdAt);
    var projected := Project(s.projection, row.id, createdAt, payload);
    if projected.Ok? {
      AdvanceKeepsView(s, row, projected.value);
    }
  }

  lemma IngestKeepsInv(s: State, key: Key, signed: SignedEvent, receivedAt: int)
    requires Inv(s)
    ensures var s' := Ingest(s, key, signed, receivedAt).0;
            Inv(s') && (s'.log == s.log || (Admit(key, signed).Ok? && s'.log == s.log + [Admit(key, signed).value]))
  {
    hide ReplayFrom;
    hide Project;
    IngestKeepsLog(s, key, signed, receivedAt);
    var (s', r) := Ingest(s, key, signed, receivedAt);
    if r.Ok? && r.value.Applied? {
      var row := Admit(key, signed).value;
      AdvanceKeepsView(s, row, Project(s.projection, row.id, row.createdAt, signed.unsigned.payload).value);
    }
  }

  lemma RunAppend(s: State, steps: seq<Step>, step: Step)
    ensures Run(s, steps + [step]) == Next(Run(s, steps), step)
  {
    hide Next;
    assert (steps + [step])[..|steps|] == steps;
  }

  /** The invariant holds in every reachable state, and stored events are never lost or reordered. */
  lemma {:induction false} RunKeepsInv(s: State, steps: seq<Step>)
    requires Inv(s)
    ensures Inv(Run(s, steps)) && s.log <= Run(s, steps).log
  {
    if steps != [] {
      RunKeepsInv(s, steps[..|steps| - 1]);
      NextKeepsInv(Run(s, steps[..|steps| - 1]), steps[|steps| - 1]);
    }
  }

  lemma InitialInv()
    ensures Inv(INITIAL)
  {
    forall origin
      ensures OriginOk(INITIAL, origin)
    {
      assert ChainOf([], origin) == [];
    }
  }

  /** In every reachable state each origin's events are sequences 1..n, hash-linked, signed by the
      origin, with the recorded head at the end. */
  lemma ReachableLogs(steps: seq<Step>, origin: PeerId)
    ensures var s := Run(INITIAL, steps);
            var c := ChainOf(s.log, origin);
            && IsChain(c) && HeadOk(s.origins, origin, c)
            && forall i :: 0 <= i < |c| ==> c[i] in s.log && RowOk(c[i]) && Authentic(c[i]) && c[i].origin == origin
  {
    InitialInv();
    RunKeepsInv(INITIAL, steps);
    var s := Run(INITIAL, steps);
    assert OriginOk(s, origin);
    forall i | 0 <= i < |ChainOf(s.log, origin)|
      ensures ChainOf(s.log, origin)[i] in s.log && RowOk(ChainOf(s.log, origin)[i])
              && Authentic(ChainOf(s.log, origin)[i]) && ChainOf(s.log, origin)[i].origin == origin
    {
      InChain(s.log, origin, i);
      ChainRowOk(s, origin, i);
      RowIsAuthentic(ChainOf(s.log, origin)[i]);
    }
  }

  /** In every reachable state a rebuild succeeds and leaves the whole database as it was. */
  lemma RebuildNeverChangesAReachableState(steps: seq<Step>)
    ensures var s := Run(INITIAL, steps);
            RebuildProjection(s) == (s, Ok(Summary(|s.log|, |s.redactions|, |s.actorRedactions|)))
  {
    hide ReplayFrom;
    InitialInv();
    RunKeepsInv(INITIAL, steps);
    RebuildIsIdentity(Run(INITIAL, steps));
  }

  /** An event that was applied once is known after any further run, and offering it again changes nothing. */
  lemma RedeliveryIsANoOp(s: State, key: Key, signed: SignedEvent, receivedAt: int, steps: seq<Step>, again: int)
    requires Inv(s)
    requires Ingest(s, key, signed, receivedAt).1.Ok? && Ingest(s, key, signed, receivedAt).1.value.Applied?
    ensures var later := Run(Ingest(s, key, signed, receivedAt).0, steps);
            Ingest(later, key, signed, again) == (later, Ok(AlreadyKnown(DeriveEventId(signed))))
  {
    hide Ingest, LogOk, ViewOk, Run;
    var applied := Ingest(s, key, signed, receivedAt).0;
    IngestKeepsInv(s, key, signed, receivedAt);
    IngestKeepsLog(s, key, signed, receivedAt);
    RunKeepsInv(applied, steps);
    var later := Run(applied, steps);
    var row := Admit(key, signed).value;
    assert later.log[|s.log|] == row;
    StoredIsInChain(later, |s.log|);
    IngestOutcomes(later, key, signed, again);
  }

  /** A stored row sits in its origin's chain at its own sequence number. */
  lemma StoredIsInChain(s: State, i: nat)
    requires LogOk(s) && i < |s.log|
    ensures var row := s.log[i];
            var c := ChainOf(s.log, row.origin);
            1 <= row.sequence <= |c| && c[row.sequence - 1] == row
  {
    var row := s.log[i];
    var c := ChainOf(s.log, row.origin);
    InsideChain(s.log, i);
    var j :| 0 <= j < |c| && c[j] == row;
    ChainRowOk(s, row.origin, j);
  }

  lemma {:induction false} InsideChain(log: seq<StoredEvent>, i: nat)
    requires i < |log|
    ensures exists j :: 0 <= j < |ChainOf(log, log[i].origin)| && ChainOf(log, log[i].origin)[j] == log[i]
  {
    var origin := log[i].origin;
    var c := ChainOf(log, origin);
    if i == |log| - 1 {
      assert c[|c| - 1] == log[i];
    } else {
      var earlier := log[..|log| - 1];
      InsideChain(earlier, i);
      var j :| 0 <= j < |ChainOf(earlier, origin)| && ChainOf(earlier, origin)[j] == log[i];
      assert c[j] == log[i];
    }
  }
}

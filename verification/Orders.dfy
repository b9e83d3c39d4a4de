/** Which orders a set of events can be stored in, and what they leave open: exactly which challenge of an
    assertion can come last, and so exactly when its status is the same with every peer. */
module Orders {
  import opened Base
  import opened Events
  import opened Projector
  import opened EventLog
  import opened Rebuild
  import opened Runs
  import opened ProjectionLaws
  import opened Convergence

  // ---- Logs ----

  lemma {:induction false} RowsAreDistinct(log: seq<StoredEvent>)
    requires forall origin :: IsChain(ChainOf(log, origin))
    ensures forall i, j :: 0 <= i < j < |log| ==> log[i] != log[j]
  {
    if log != [] {
      var earlier, last := log[..|log| - 1], log[|log| - 1];
      forall origin
        ensures IsChain(ChainOf(earlier, origin))
      {
        assert IsChain(ChainOf(log, origin));
        ChainPrefix(ChainOf(earlier, origin), last);
      }
      RowsAreDistinct(earlier);
      forall i | 0 <= i < |earlier|
        ensures earlier[i] != last
      {
        assert earlier + [last] == log;
        LastIsNew(earlier, last, i);
      }
    }
  }

  lemma LastIsNew(earlier: seq<StoredEvent>, last: StoredEvent, i: nat)
    requires i < |earlier| && IsChain(ChainOf(earlier + [last], last.origin))
    ensures earlier[i] != last
  {
    hide ChainOf;
    if earlier[i].origin == last.origin {
      var c := ChainOf(earlier, last.origin);
      InsideChain(earlier, i);
      var j :| 0 <= j < |c| && c[j] == earlier[i];
      ChainOfAppend(earlier, last, last.origin);
      ChainPrefix(c, last);
      assert Linked(c, j);
    }
  }

  lemma StateRowsAreDistinct(s: State)
    requires LogOk(s)
    ensures forall i, j :: 0 <= i < j < |s.log| ==> s.log[i] != s.log[j]
  {
    forall origin
      ensures IsChain(ChainOf(s.log, origin))
    {
      assert OriginOk(s, origin);
    }
    RowsAreDistinct(s.log);
  }

  /** Every prefix of a reachable log is a reachable log. */
  lemma {:induction false} PrefixOfRun(steps: seq<Step>, n: nat) returns (k: nat)
    requires n <= |Run(INITIAL, steps).log|
    ensures k <= |steps| && Run(INITIAL, steps[..k]).log == Run(INITIAL, steps).log[..n]
    decreases |steps|
  {
    hide Inv, Next;
    var s := Run(INITIAL, steps);
    if n == |s.log| {
      k := |steps|;
      assert steps[..k] == steps && s.log[..n] == s.log;
    } else {
      var earlier := steps[..|steps| - 1];
      var before := Run(INITIAL, earlier);
      InitialInv();
      RunKeepsInv(INITIAL, earlier);
      NextKeepsInv(before, steps[|steps| - 1]);
      k := PrefixOfRun(earlier, n);
      assert earlier[..k] == steps[..k];
      assert before.log[..n] == s.log[..n];
    }
  }

  // ---- What is accepted stays acceptable ----

  predicate Unused(t: Tables, id: EventId) {
    && id !in t.assertions && id !in t.evidence && id !in t.observations
    && id !in t.disputes && id !in t.retractions && id !in t.supersessions
  }

  /** Whatever `t` can be referred to for, `u` can. */
  predicate Ahead(t: Tables, u: Tables) {
    t.nodes.Keys <= u.nodes.Keys && t.actors.Keys <= u.actors.Keys && t.assertions.Keys <= u.assertions.Keys
  }

  /** An accepted event is accepted again wherever there is more to refer to and its own keys are free. */
  lemma AcceptedAgain(t: Tables, u: Tables, id: EventId, p: Payload)
    requires Rejection(t, id, p).None? && Ahead(t, u) && Unused(u, id)
    requires p.ActorKeyAdd? ==> p.keyHash.value !in u.keys
    ensures Rejection(u, id, p).None?
  {
  }

  lemma MoreFacts(log: seq<StoredEvent>, log': seq<StoredEvent>, f: Fact)
    requires Replay(log).Ok? && Replay(log').Ok? && Subset(log, log') && Has(Replay(log).value, f)
    ensures Has(Replay(log').value, f)
  {
    hide ReplayFrom, Has, Contributes;
    ReplayFacts(log, f);
    ReplayFacts(log', f);
    var i :| 0 <= i < |log| && Contributes(log[i], f);
    assert log[i] in log';
  }

  lemma MoreEventsAhead(log: seq<StoredEvent>, log': seq<StoredEvent>)
    requires Replay(log).Ok? && Replay(log').Ok? && Subset(log, log')
    ensures Ahead(Replay(log).value.tables, Replay(log').value.tables)
  {
    hide ReplayFrom, Subset;
    var v, w := Replay(log).value, Replay(log').value;
    forall n | n in v.tables.nodes
      ensures n in w.tables.nodes
    {
      MoreFacts(log, log', NodeFact(n));
    }
    forall a | a in v.tables.actors
      ensures a in w.tables.actors
    {
      MoreFacts(log, log', ActorFact(a));
    }
    forall a | a in v.tables.assertions
      ensures a in w.tables.assertions
    {
      MoreFacts(log, log', AssertionFact(a, v.tables.assertions[a].(status := Active)));
    }
  }

  /** The facts that are keyed by the event that states them. */
  predicate OwnFact(f: Fact, id: EventId) {
    match f
    case AssertionFact(i, _) => i == id
    case EvidenceFact(i, _) => i == id
    case ObservationFact(i, _) => i == id
    case DisputeFact(i, _) => i == id
    case RetractionFact(i, _) => i == id
    case SupersessionFact(i, _) => i == id
    case _ => false
  }

  lemma OwnFactIsStored(log: seq<StoredEvent>, f: Fact, id: EventId)
    requires Replay(log).Ok? && Has(Replay(log).value, f) && OwnFact(f, id)
    ensures Stored(log, id)
  {
    hide ReplayFrom, Has;
    ReplayFacts(log, f);
    var i :| 0 <= i < |log| && Contributes(log[i], f);
    OwnFactOfEvent(log[i], f, id);
  }

  lemma OwnFactOfEvent(row: StoredEvent, f: Fact, id: EventId)
    requires Contributes(row, f) && OwnFact(f, id)
    ensures row.id == id
  {
    hide EdgeOf, EvidenceRow, AssertionRow;
  }

  lemma UnstoredIsUnused(log: seq<StoredEvent>, id: EventId)
    requires Replay(log).Ok? && !Stored(log, id)
    ensures Unused(Replay(log).value.tables, id)
  {
    hide ReplayFrom, Stored;
    var t := Replay(log).value.tables;
    if id in t.assertions {
      OwnFactIsStored(log, AssertionFact(id, t.assertions[id].(status := Active)), id);
    }
    if id in t.evidence {
      OwnFactIsStored(log, EvidenceFact(id, t.evidence[id]), id);
    }
    if id in t.observations {
      OwnFactIsStored(log, ObservationFact(id, t.observations[id]), id);
    }
    if id in t.disputes {
      OwnFactIsStored(log, DisputeFact(id, t.disputes[id]), id);
    }
    if id in t.retractions {
      OwnFactIsStored(log, RetractionFact(id, t.retractions[id]), id);
    }
    if id in t.supersessions {
      OwnFactIsStored(log, SupersessionFact(id, t.supersessions[id]), id);
    }
  }

  predicate AddsKey(row: StoredEvent, k: Bytes32) {
    var p := row.signed.unsigned.payload;
    p.ActorKeyAdd? && p.keyHash.Parsed? && p.keyHash.value == k
  }

  /** A key in the table was added by a stored event. */
  lemma KeyWasAdded(log: seq<StoredEvent>, k: Bytes32)
    requires Replay(log).Ok? && k in Replay(log).value.tables.keys
    ensures exists i :: 0 <= i < |log| && AddsKey(log[i], k)
  {
    hide ReplayFrom, Contributes;
    var f := KeyFact(k, Replay(log).value.tables.keys[k].(revokedAt := None));
    ReplayFacts(log, f);
    var i :| 0 <= i < |log| && Contributes(log[i], f);
    KeyFactOfEvent(log[i], f);
  }

  lemma KeyFactOfEvent(row: StoredEvent, f: Fact)
    requires Contributes(row, f) && f.KeyFact?
    ensures AddsKey(row, f.hash)
  {
    hide EdgeOf, EvidenceRow, AssertionRow, Known;
  }

  /** An added key is in the table from then on. */
  lemma AddedKeyIsThere(log: seq<StoredEvent>, i: nat, k: Bytes32)
    requires Replay(log).Ok? && i < |log| && AddsKey(log[i], k)
    ensures k in Replay(log).value.tables.keys
  {
    hide ReplayFrom, Known;
    var row := log[i];
    var p := row.signed.unsigned.payload;
    ReplayDecodes(log, i);
    var f := KeyFact(k, ActorKey(p.actor.value, Known(p.permissions), row.createdAt, None));
    ReplayFacts(log, f);
    assert Contributes(log[i], f);
  }

  lemma {:induction false} KeyIsAddedOnce(log: seq<StoredEvent>, i: nat, j: nat, k: Bytes32)
    requires Replay(log).Ok? && i <= j < |log| && AddsKey(log[i], k) && AddsKey(log[j], k)
    ensures i == j
  {
    hide Effect;
    var earlier, last := log[..|log| - 1], log[|log| - 1];
    if j < |log| - 1 {
      KeyIsAddedOnce(earlier, i, j, k);
    } else if i < j {
      AddedKeyIsThere(earlier, i, k);
      assert false;
    }
  }

  lemma SameKeySameRow(log: seq<StoredEvent>, x: StoredEvent, y: StoredEvent, k: Bytes32)
    requires Replay(log).Ok? && x in log && y in log && AddsKey(x, k) && AddsKey(y, k)
    ensures x == y
  {
    hide ReplayFrom, AddsKey;
    var i :| 0 <= i < |log| && log[i] == x;
    var j :| 0 <= j < |log| && log[j] == y;
    if i <= j {
      KeyIsAddedOnce(log, i, j, k);
    } else {
      KeyIsAddedOnce(log, j, i, k);
    }
  }

  lemma AcceptedAfter(log: seq<StoredEvent>, row: StoredEvent)
    requires Replay(log).Ok? && Replay(log + [row]).Ok?
    ensures Rejection(Replay(log).value.tables, row.id, row.signed.unsigned.payload).None?
  {
    hide Rejection, Effect;
    ReplayAppend(EMPTY, log, row);
  }

  lemma RejectionIgnoresRedaction(t: Tables, evidence: set<EventId>, actors: set<ActorId>, id: EventId, p: Payload)
    ensures Rejection(Redacted(t, evidence, actors), id, p) == Rejection(t, id, p)
  {
  }

  // ---- Storing what another peer has stored ----

  ghost predicate Fits(s: State, row: StoredEvent) {
    var c := ChainOf(s.log, row.origin);
    row.sequence == |c| + 1 && row.previous == if c == [] then None else Some(c[|c| - 1].id)
  }

  function Delivery(row: StoredEvent): Step
    requires row.origin.OfKey?
  {
    IngestRemote(row.origin.key, row.signed, 0)
  }

  /** An event that continues its origin's chain and passes the projector's checks is applied. */
  lemma DeliveryApplies(s: State, row: StoredEvent)
    requires Inv(s) && RowOk(row) && Fits(s, row)
    requires Rejection(Replay(s.log).value.tables, row.id, row.signed.unsigned.payload).None?
    ensures Next(s, Delivery(row)).log == s.log + [row]
  {
    hide Rejection, Effect, ReplayFrom;
    assert OriginOk(s, row.origin);
    NextRowNeverConflicts(s, row);
    var v := Replay(s.log).value;
    RejectionIgnoresRedaction(
      v.tables, s.redactions.Keys, s.actorRedactions.Keys, row.id, row.signed.unsigned.payload);
    var p := Project(s.projection, row.id, row.createdAt, row.signed.unsigned.payload);
    AdvanceKeepsLog(s, row, p.value);
  }

  /** The chain condition: `w` holds what came before the row, and of the row's origin nothing more. */
  lemma NextRowFits(s: State, before: State, after: State, w: State, row: StoredEvent)
    requires LogOk(s) && LogOk(before) && LogOk(after) && LogOk(w)
    requires after.log == before.log + [row] && Subset(after.log, s.log)
    requires Subset(before.log, w.log) && Subset(w.log, s.log) && row !in w.log
    ensures Fits(w, row)
  {
    hide LogOk;
    var origin := row.origin;
    var b, c, d := ChainOf(before.log, origin), ChainOf(w.log, origin), ChainOf(s.log, origin);
    ChainOfAppend(before.log, row, origin);
    ChainIsLinked(after, origin, |b|);
    assert ChainOf(after.log, origin)[|b|] == row;
    ChainsExtend(before, w, origin);
    ChainsExtend(w, s, origin);
    ChainsExtend(after, s, origin);
    assert d[|b|] == row;
    if |c| > |b| {
      assert c[|b|] == row;
      InChain(w.log, origin, |b|);
      assert false;
    }
    assert c == b;
  }

  lemma ChainIsLinked(s: State, origin: PeerId, i: nat)
    requires LogOk(s) && i < |ChainOf(s.log, origin)|
    ensures Linked(ChainOf(s.log, origin), i)
  {
    assert OriginOk(s, origin);
  }

  /** The projector's checks: more to refer to, and every key of the row still free. */
  lemma NextRowAccepted(s: State, before: State, after: State, w: State, row: StoredEvent)
    requires Inv(s) && Inv(before) && Inv(after) && Inv(w)
    requires after.log == before.log + [row] && Subset(after.log, s.log)
    requires Subset(before.log, w.log) && Subset(w.log, s.log) && row !in w.log
    ensures Rejection(Replay(w.log).value.tables, row.id, row.signed.unsigned.payload).None?
  {
    hide Rejection, ReplayFrom, LogOk, Unused, Ahead;
    var p := row.signed.unsigned.payload;
    AcceptedAfter(before.log, row);
    MoreEventsAhead(before.log, w.log);
    IdIsFree(s, w, row);
    UnstoredIsUnused(w.log, row.id);
    if p.ActorKeyAdd? {
      assert Decodes(p) by { AcceptedDecodes(before, row); }
      if p.keyHash.value in Replay(w.log).value.tables.keys {
        KeyWasAdded(w.log, p.keyHash.value);
        var i :| 0 <= i < |w.log| && AddsKey(w.log[i], p.keyHash.value);
        assert w.log[i] in w.log;
        SameKeySameRow(s.log, row, w.log[i], p.keyHash.value);
        assert false;
      }
    }
    AcceptedAgain(Replay(before.log).value.tables, Replay(w.log).value.tables, row.id, p);
  }

  lemma AcceptedDecodes(s: State, row: StoredEvent)
    requires Replay(s.log).Ok?
    requires Rejection(Replay(s.log).value.tables, row.id, row.signed.unsigned.payload).None?
    ensures Decodes(row.signed.unsigned.payload)
  {
  }

  lemma IdIsFree(s: State, w: State, row: StoredEvent)
    requires LogOk(s) && Subset(w.log, s.log) && row in s.log && row !in w.log
    ensures !Stored(w.log, row.id)
  {
    hide RowOk;
    if Stored(w.log, row.id) {
      var i :| 0 <= i < |w.log| && w.log[i].id == row.id;
      assert w.log[i] in s.log;
      var j :| 0 <= j < |s.log| && s.log[j] == w.log[i];
      var k :| 0 <= k < |s.log| && s.log[k] == row;
      SameIdSameRow(s.log[j], s.log[k]);
      assert false;
    }
  }

  /** Whoever has stored part of a peer's events can store the rest, in that peer's order. */
  lemma {:induction false} ExtendRun(steps: seq<Step>, base: seq<Step>, n: nat) returns (more: seq<Step>)
    requires n <= |Run(INITIAL, steps).log| && Subset(Run(INITIAL, base).log, Run(INITIAL, steps).log)
    ensures var s, u, w := Run(INITIAL, steps), Run(INITIAL, base), Run(INITIAL, more);
            u.log <= w.log && Subset(w.log, s.log) && Subset(s.log[..n], w.log)
  {
    hide Run, Next, Inv;
    var s := Run(INITIAL, steps);
    if n == 0 {
      more := base;
      assert s.log[..0] == [];
    } else {
      more := ExtendRun(steps, base, n - 1);
      var w := Run(INITIAL, more);
      var row := s.log[n - 1];
      if row !in w.log {
        ExtendOnce(steps, more, n - 1);
        RunAppend(INITIAL, more, Delivery(row));
        more := more + [Delivery(row)];
      }
      assert s.log[..n] == s.log[..n - 1] + [row];
    }
  }

  lemma ExtendOnce(steps: seq<Step>, more: seq<Step>, n: nat)
    requires n < |Run(INITIAL, steps).log| && Run(INITIAL, steps).log[n] !in Run(INITIAL, more).log
    requires Subset(Run(INITIAL, more).log, Run(INITIAL, steps).log)
    requires Subset(Run(INITIAL, steps).log[..n], Run(INITIAL, more).log)
    ensures var s, w := Run(INITIAL, steps), Run(INITIAL, more);
            var row := s.log[n];
            row.origin.OfKey? && Next(w, Delivery(row)).log == w.log + [row]
  {
    hide Run, Next, LogOk, ViewOk;
    var s, w := Run(INITIAL, steps), Run(INITIAL, more);
    var row := s.log[n];
    var i := PrefixOfRun(steps, n);
    var j := PrefixOfRun(steps, n + 1);
    var before, after := Run(INITIAL, steps[..i]), Run(INITIAL, steps[..j]);
    assert after.log == before.log + [row];
    InitialInv();
    RunKeepsInv(INITIAL, steps);
    RunKeepsInv(INITIAL, more);
    RunKeepsInv(INITIAL, steps[..i]);
    RunKeepsInv(INITIAL, steps[..j]);
    StoredRowOk(s, n);
    NextRowFits(s, before, after, w, row);
    NextRowAccepted(s, before, after, w, row);
    DeliveryApplies(w, row);
  }

  lemma StoredRowOk(s: State, i: nat)
    requires LogOk(s) && i < |s.log|
    ensures RowOk(s.log[i])
  {
  }

  // ---- Which challenge can come last ----

  /** `x` is the last event of the log that challenges `a`. */
  ghost predicate CameLast(log: seq<StoredEvent>, a: EventId, x: StoredEvent) {
    Challenges(x.signed.unsigned.payload, a) && exists i :: LastAt(log, a, x, i)
  }

  ghost predicate LastAt(log: seq<StoredEvent>, a: EventId, x: StoredEvent, i: nat) {
    && i < |log| && log[i] == x
    && forall j :: i < j < |log| ==> !Challenges(log[j].signed.unsigned.payload, a)
  }

  /** In some order in which all these events are stored, `x` is the last challenge of `a`. */
  ghost predicate CanComeLast(steps: seq<Step>, a: EventId, x: StoredEvent) {
    exists other :: SameEvents(Run(INITIAL, other).log, Run(INITIAL, steps).log)
                    && CameLast(Run(INITIAL, other).log, a, x)
  }

  /** From these events alone a peer can store every other challenge of `a` without having stored `x`. */
  ghost predicate OthersDoWithout(steps: seq<Step>, a: EventId, x: StoredEvent) {
    exists other :: HoldsOthers(Run(INITIAL, other).log, Run(INITIAL, steps).log, a, x)
  }

  ghost predicate HoldsOthers(part: seq<StoredEvent>, log: seq<StoredEvent>, a: EventId, x: StoredEvent) {
    && Subset(part, log) && x !in part
    && forall y :: y in log && y != x && Challenges(y.signed.unsigned.payload, a) ==> y in part
  }

  lemma BeforeTheLast(t: State, log: seq<StoredEvent>, a: EventId, x: StoredEvent, i: nat)
    requires LogOk(t) && SameEvents(t.log, log) && LastAt(t.log, a, x, i)
    ensures HoldsOthers(t.log[..i], log, a, x)
  {
    hide LogOk;
    StateRowsAreDistinct(t);
    forall y | y in log && y != x && Challenges(y.signed.unsigned.payload, a)
      ensures y in t.log[..i]
    {
      var j :| 0 <= j < |t.log| && t.log[j] == y;
      assert t.log[..i][j] == y;
    }
  }

  lemma AfterTheOthers(w: State, part: seq<StoredEvent>, log: seq<StoredEvent>, a: EventId, x: StoredEvent)
    requires LogOk(w) && part <= w.log && SameEvents(w.log, log) && HoldsOthers(part, log, a, x) && x in log
    requires Challenges(x.signed.unsigned.payload, a)
    ensures CameLast(w.log, a, x)
  {
    hide LogOk;
    StateRowsAreDistinct(w);
    var i :| 0 <= i < |w.log| && w.log[i] == x;
    assert forall k :: 0 <= k < |part| ==> w.log[k] == part[k] && part[k] in part;
    assert i >= |part|;
    forall j | i < j < |w.log|
      ensures !Challenges(w.log[j].signed.unsigned.payload, a)
    {
      assert w.log[j] in log && w.log[j] != x;
      assert w.log[j] !in part;
    }
    assert LastAt(w.log, a, x, i);
  }

  /** A challenge can come last exactly when all the others can be stored without it. */
  lemma CanComeLastExactly(steps: seq<Step>, a: EventId, x: StoredEvent)
    requires x in Run(INITIAL, steps).log && Challenges(x.signed.unsigned.payload, a)
    ensures CanComeLast(steps, a, x) <==> OthersDoWithout(steps, a, x)
  {
    hide Run, LogOk, ViewOk, SameEvents, HoldsOthers, LastAt, Subset;
    InitialInv();
    var s := Run(INITIAL, steps);
    if CanComeLast(steps, a, x) {
      var other :| SameEvents(Run(INITIAL, other).log, s.log) && CameLast(Run(INITIAL, other).log, a, x);
      LastMeansWithout(steps, other, a, x);
    }
    if OthersDoWithout(steps, a, x) {
      var other :| HoldsOthers(Run(INITIAL, other).log, s.log, a, x);
      WithoutMeansLast(steps, other, a, x);
    }
  }

  lemma LastMeansWithout(steps: seq<Step>, other: seq<Step>, a: EventId, x: StoredEvent)
    requires SameEvents(Run(INITIAL, other).log, Run(INITIAL, steps).log) && CameLast(Run(INITIAL, other).log, a, x)
    ensures OthersDoWithout(steps, a, x)
  {
    hide Run, LogOk, ViewOk, SameEvents, HoldsOthers;
    InitialInv();
    RunKeepsInv(INITIAL, other);
    var t := Run(INITIAL, other);
    var i: nat :| LastAt(t.log, a, x, i);
    BeforeTheLast(t, Run(INITIAL, steps).log, a, x, i);
    var k := PrefixOfRun(other, i);
    assert HoldsOthers(Run(INITIAL, other[..k]).log, Run(INITIAL, steps).log, a, x);
  }

  lemma WithoutMeansLast(steps: seq<Step>, other: seq<Step>, a: EventId, x: StoredEvent)
    requires HoldsOthers(Run(INITIAL, other).log, Run(INITIAL, steps).log, a, x)
    requires x in Run(INITIAL, steps).log && Challenges(x.signed.unsigned.payload, a)
    ensures CanComeLast(steps, a, x)
  {
    hide Run, LogOk, ViewOk, CameLast;
    var s := Run(INITIAL, steps);
    var more := ExtendRun(steps, other, |s.log|);
    assert s.log[..|s.log|] == s.log;
    InitialInv();
    RunKeepsInv(INITIAL, more);
    AfterTheOthers(Run(INITIAL, more), Run(INITIAL, other).log, s.log, a, x);
  }

  // ---- When the order does not matter ----

  lemma {:induction false} LastGivesStatus(log: seq<StoredEvent>, a: EventId, x: StoredEvent)
    requires CameLast(log, a, x)
    ensures LastStatus(log, a) == ChallengeOf(x.signed.unsigned.payload).value.1
  {
    var i: nat :| LastAt(log, a, x, i);
    if i < |log| - 1 {
      var earlier := log[..|log| - 1];
      assert LastAt(earlier, a, x, i);
      LastGivesStatus(earlier, a, x);
    }
  }

  lemma {:induction false} StatusHasLast(log: seq<StoredEvent>, a: EventId) returns (x: StoredEvent)
    requires LastStatus(log, a) != Active
    ensures x in log && CameLast(log, a, x)
  {
    var last := log[|log| - 1];
    if Challenges(last.signed.unsigned.payload, a) {
      x := last;
      assert LastAt(log, a, x, |log| - 1);
    } else {
      var earlier := log[..|log| - 1];
      x := StatusHasLast(earlier, a);
      var i: nat :| LastAt(earlier, a, x, i);
      assert LastAt(log, a, x, i);
    }
  }

  ghost function StatusIn(s: State, a: EventId): Option<Status> {
    if a in s.projection.tables.assertions then Some(s.projection.tables.assertions[a].status) else None
  }

  /** Every peer that stores these events, in whatever order, gives the assertion the same status. */
  ghost predicate OrderDoesNotMatter(steps: seq<Step>, a: EventId) {
    forall other :: SameEvents(Run(INITIAL, other).log, Run(INITIAL, steps).log) ==>
      StatusIn(Run(INITIAL, other), a) == StatusIn(Run(INITIAL, steps), a)
  }

  /** All challenges that the others can do without are of the kind that the assertion's status is. */
  ghost predicate LastWordsAgree(steps: seq<Step>, a: EventId) {
    var s := Run(INITIAL, steps);
    forall x :: x in s.log && Challenges(x.signed.unsigned.payload, a) && OthersDoWithout(steps, a, x) ==>
      ChallengeOf(x.signed.unsigned.payload).value.1 == LastStatus(s.log, a)
  }

  lemma StatusInIsLast(steps: seq<Step>, other: seq<Step>, a: EventId)
    requires SameEvents(Run(INITIAL, other).log, Run(INITIAL, steps).log)
    requires a in Run(INITIAL, steps).projection.tables.assertions
    ensures StatusIn(Run(INITIAL, other), a) == Some(LastStatus(Run(INITIAL, other).log, a))
    ensures StatusIn(Run(INITIAL, steps), a) == Some(LastStatus(Run(INITIAL, steps).log, a))
    ensures LastStatus(Run(INITIAL, other).log, a) == Active <==> LastStatus(Run(INITIAL, steps).log, a) == Active
  {
    hide Run, SameEvents, LastStatus, ReferencesResolve, Challenged, OriginsAgree, OneKind;
    PeersAgreeOnStatus(other, steps, a);
    ReachableProjections(other, a);
    ReachableProjections(steps, a);
  }

  /** The order of arrival cannot change an assertion's status exactly when every challenge that the others
      can be stored without is of one and the same kind. */
  lemma OrderDoesNotMatterExactly(steps: seq<Step>, a: EventId)
    requires a in Run(INITIAL, steps).projection.tables.assertions
    ensures OrderDoesNotMatter(steps, a) <==> LastWordsAgree(steps, a)
  {
    hide Run, SameEvents, LastStatus, OthersDoWithout, CameLast, StatusIn;
    var s := Run(INITIAL, steps);
    if OrderDoesNotMatter(steps, a) {
      forall x | x in s.log && Challenges(x.signed.unsigned.payload, a) && OthersDoWithout(steps, a, x)
        ensures ChallengeOf(x.signed.unsigned.payload).value.1 == LastStatus(s.log, a)
      {
        CanComeLastExactly(steps, a, x);
        var other :| SameEvents(Run(INITIAL, other).log, s.log) && CameLast(Run(INITIAL, other).log, a, x);
        StatusInIsLast(steps, other, a);
        LastGivesStatus(Run(INITIAL, other).log, a, x);
      }
    }
    if LastWordsAgree(steps, a) {
      forall other | SameEvents(Run(INITIAL, other).log, s.log)
        ensures StatusIn(Run(INITIAL, other), a) == StatusIn(s, a)
      {
        StatusInIsLast(steps, other, a);
        if LastStatus(Run(INITIAL, other).log, a) != Active {
          var x := StatusHasLast(Run(INITIAL, other).log, a);
          LastGivesStatus(Run(INITIAL, other).log, a, x);
          SameEventsHave(Run(INITIAL, other).log, s.log, x);
          LastIsAChallenge(Run(INITIAL, other).log, a, x);
          CanComeLastExactly(steps, a, x);
        }
      }
    }
  }

  lemma SameEventsHave(log: seq<StoredEvent>, log': seq<StoredEvent>, x: StoredEvent)
    requires SameEvents(log, log') && x in log
    ensures x in log'
  {
  }

  lemma LastIsAChallenge(log: seq<StoredEvent>, a: EventId, x: StoredEvent)
    requires CameLast(log, a, x)
    ensures Challenges(x.signed.unsigned.payload, a)
  {
  }
}

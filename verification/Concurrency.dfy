/** Interleaved transactions on one database. A transaction reads a snapshot; if it writes, it can
    only be committed while no other write has been committed since its snapshot was taken, and aborts
    otherwise. Local commits additionally hold the service's commit lock from before their snapshot
    until they end. */
module Concurrency {
  import opened Base
  import opened Events
  import opened Projector
  import opened EventLog
  import opened Rebuild
  import opened Runs

  datatype Worker =
    | Idle
    | Holding(step: Step)
    | Working(step: Step, snapshot: State, version: nat)

  /** `history` lists the committed writes in commit order; its length is the database version. */
  datatype System = System(
    db: State, history: seq<Step>, holder: Option<nat>, workers: map<nat, Worker>, locking: bool)

  datatype Action = Lock(worker: nat, step: Step) | Begin(worker: nat, step: Step) | Finish(worker: nat)

  function Start(locking: bool): System {
    System(INITIAL, [], None, map[], locking)
  }

  function At(y: System, w: nat): Worker {
    if w in y.workers then y.workers[w] else Idle
  }

  /** Rebuilding rewrites every row even when it reproduces them. */
  predicate Writes(snapshot: State, step: Step) {
    step.RebuildAll? || Next(snapshot, step) != snapshot
  }

  predicate Enabled(y: System, a: Action) {
    match a
    case Lock(w, step) => y.locking && step.CommitLocal? && y.holder.None? && At(y, w) == Idle
    case Begin(w, step) => At(y, w) == if y.locking && step.CommitLocal? then Holding(step) else Idle
    case Finish(w) => At(y, w).Working?
  }

  /** The transaction that `w` is about to finish must be aborted. */
  predicate Aborts(y: System, w: nat)
    requires At(y, w).Working?
  {
    Writes(At(y, w).snapshot, At(y, w).step) && At(y, w).version != |y.history|
  }

  function Act(y: System, a: Action): System
    requires Enabled(y, a)
  {
    match a
    case Lock(w, step) => y.(holder := Some(w), workers := y.workers[w := Holding(step)])
    case Begin(w, step) => y.(workers := y.workers[w := Working(step, y.db, |y.history|)])
    case Finish(w) =>
      var t := At(y, w);
      var freed := y.(workers := y.workers[w := Idle], holder := if y.holder == Some(w) then None else y.holder);
      if Writes(t.snapshot, t.step) && !Aborts(y, w) then
        freed.(db := Next(t.snapshot, t.step), history := y.history + [t.step])
      else freed
  }

  ghost predicate Valid(y: System, actions: seq<Action>)
    decreases |actions|, 0
  {
    actions == [] || (Valid(y, actions[..|actions| - 1])
                      && Enabled(After(y, actions[..|actions| - 1]), actions[|actions| - 1]))
  }

  ghost function After(y: System, actions: seq<Action>): System
    requires Valid(y, actions)
    decreases |actions|, 1
  {
    if actions == [] then y else Act(After(y, actions[..|actions| - 1]), actions[|actions| - 1])
  }

  ghost predicate NoCommits(steps: seq<Step>) {
    forall i :: 0 <= i < |steps| ==> !steps[i].CommitLocal?
  }

  /** A worker's snapshot is a past version; a local commit owns the lock, and no other local commit
      has been committed since its snapshot. */
  ghost predicate WorkerOk(y: System, w: nat) {
    match At(y, w)
    case Idle => y.holder != Some(w)
    case Holding(step) => y.holder == Some(w) && step.CommitLocal?
    case Working(step, snapshot, version) =>
      && version <= |y.history| && snapshot == Run(INITIAL, y.history[..version])
      && (y.holder == Some(w) <==> y.locking && step.CommitLocal?)
      && (y.locking && step.CommitLocal? ==> NoCommits(y.history[version..]))
  }

  /** Every listed step really changed the database it was applied to, or was a rebuild. */
  ghost predicate AllWrite(history: seq<Step>) {
    forall i :: 0 <= i < |history| ==> Writes(Run(INITIAL, history[..i]), history[i])
  }

  ghost predicate SystemOk(y: System) {
    && y.db == Run(INITIAL, y.history)
    && (forall w :: WorkerOk(y, w))
    && AllWrite(y.history)
  }

  lemma ActKeepsSystem(y: System, a: Action)
    requires SystemOk(y) && Enabled(y, a)
    ensures SystemOk(Act(y, a))
  {
    hide Next, Run;
    var z := Act(y, a);
    if a.Finish? {
      assert WorkerOk(y, a.worker);
      var t := At(y, a.worker);
      if z.history != y.history {
        RunAppend(INITIAL, y.history, t.step);
        assert y.history[..|y.history|] == y.history;
        assert forall i :: 0 <= i <= |y.history| ==> z.history[..i] == y.history[..i];
      }
    } else {
      assert y.history[..|y.history|] == y.history && y.history[|y.history|..] == [];
    }
    forall w: nat
      ensures WorkerOk(z, w)
    {
      assert WorkerOk(y, w) && WorkerOk(y, a.worker);
      if At(z, w).Working? && w != a.worker {
        var version := At(y, w).version;
        assert z.history[..version] == y.history[..version];
        assert z.history[version..] == y.history[version..]
               || z.history[version..] == y.history[version..] + [At(y, a.worker).step];
      }
    }
  }

  /** Every interleaving leaves the database in a state that some sequential run of the committed
      transactions reaches, so the invariant of sequential runs holds after every action. */
  lemma {:induction false} EveryInterleavingIsSerial(locking: bool, actions: seq<Action>)
    requires Valid(Start(locking), actions)
    ensures var y := After(Start(locking), actions);
            SystemOk(y) && y.db == Run(INITIAL, y.history) && Inv(y.db) && y.locking == locking
  {
    hide Run, Next, Inv;
    if actions == [] {
      assert Run(INITIAL, []) == INITIAL by { RunNothing(INITIAL); }
    } else {
      EveryInterleavingIsSerial(locking, actions[..|actions| - 1]);
      ActKeepsSystem(After(Start(locking), actions[..|actions| - 1]), actions[|actions| - 1]);
    }
    InitialInv();
    RunKeepsInv(INITIAL, After(Start(locking), actions).history);
  }

  lemma RunNothing(s: State)
    ensures Run(s, []) == s
  {
  }

  /** With the lock, an aborted local commit lost to transactions of other kinds only. */
  lemma LocalCommitsNeverAbortEachOther(actions: seq<Action>, w: nat)
    requires Valid(Start(true), actions)
    requires var y := After(Start(true), actions);
             At(y, w).Working? && At(y, w).step.CommitLocal? && Aborts(y, w)
    ensures var y := After(Start(true), actions);
            var t := At(y, w);
            t.version < |y.history| && NoCommits(y.history[t.version..])
  {
    EveryInterleavingIsSerial(true, actions);
    assert WorkerOk(After(Start(true), actions), w);
  }

  predicate CommitOf(key: Key, step: Step) {
    step.CommitLocal? && step.key == key
  }

  ghost predicate OnlyCommits(key: Key, actions: seq<Action>) {
    forall i :: 0 <= i < |actions| ==> actions[i].Finish? || CommitOf(key, actions[i].step)
  }

  ghost predicate AllIdle(y: System) {
    forall w :: At(y, w) == Idle
  }

  /** Everything committed or begun since version `base` is a local commit of `key`. */
  ghost predicate OnlyCommitsSince(key: Key, base: nat, y: System) {
    && base <= |y.history|
    && (forall i :: base <= i < |y.history| ==> CommitOf(key, y.history[i]))
    && (forall w :: At(y, w) != Idle ==> CommitOf(key, At(y, w).step))
    && (forall w :: At(y, w).Working? ==> At(y, w).version >= base)
  }

  lemma ActKeepsOnlyCommits(key: Key, base: nat, y: System, a: Action)
    requires OnlyCommitsSince(key, base, y) && Enabled(y, a) && (a.Finish? || CommitOf(key, a.step))
    ensures OnlyCommitsSince(key, base, Act(y, a)) && y.history <= Act(y, a).history
  {
    hide Next;
    var z := Act(y, a);
    forall w
      ensures At(z, w) != Idle ==> CommitOf(key, At(z, w).step)
      ensures At(z, w).Working? ==> At(z, w).version >= base
    {
      assert At(y, w) != Idle ==> CommitOf(key, At(y, w).step);
      assert At(y, w).Working? ==> At(y, w).version >= base;
    }
  }

  lemma {:induction false} OnlyCommitsStay(key: Key, y: System, actions: seq<Action>)
    requires SystemOk(y) && y.locking && AllIdle(y) && Valid(y, actions) && OnlyCommits(key, actions)
    ensures var z := After(y, actions);
            && SystemOk(z) && z.locking && OnlyCommitsSince(key, |y.history|, z) && y.history <= z.history
  {
    hide Act, Enabled, SystemOk;
    if actions == [] {
      assert AllIdle(y);
    } else {
      var earlier := actions[..|actions| - 1];
      OnlyCommitsStay(key, y, earlier);
      ActKeepsOnlyCommits(key, |y.history|, After(y, earlier), actions[|actions| - 1]);
      ActKeepsSystem(After(y, earlier), actions[|actions| - 1]);
      ActKeepsLocking(After(y, earlier), actions[|actions| - 1]);
    }
  }

  lemma ActKeepsLocking(y: System, a: Action)
    requires Enabled(y, a)
    ensures Act(y, a).locking == y.locking
  {
    hide Next;
  }

  /** Rows `from`, `from + 1`, ... of the log are `key`'s own, with consecutive sequences starting at `first`. */
  ghost predicate ConsecutiveFrom(log: seq<StoredEvent>, from: nat, key: Key, first: nat) {
    forall i :: from <= i < |log| ==> log[i].origin == OfKey(key) && log[i].sequence == first + (i - from)
  }

  /** From any state with nothing under way, and however local commits alone then interleave, none of them
      aborts, each committed one adds one event, and these take the next sequences of the peer's own chain in
      commit order. */
  lemma LocalCommitsAlone(key: Key, y: System, actions: seq<Action>, w: nat)
    requires SystemOk(y) && y.locking && AllIdle(y) && Valid(y, actions) && OnlyCommits(key, actions)
    ensures var z := After(y, actions);
            && (At(z, w).Working? ==> !Aborts(z, w))
            && y.history <= z.history && y.db.log <= z.db.log
            && |z.db.log| - |y.db.log| == |z.history| - |y.history|
            && ConsecutiveFrom(z.db.log, |y.db.log|, key, |ChainOf(y.db.log, OfKey(key))| + 1)
  {
    hide Next, Run, Inv, ChainOf, After, Valid;
    OnlyCommitsStay(key, y, actions);
    var z := After(y, actions);
    CommittedSequences(key, z.history, |y.history|);
    assert z.history[..|y.history|] == y.history;
    assert WorkerOk(z, w);
  }

  lemma {:induction false} CommittedSequences(key: Key, history: seq<Step>, base: nat)
    requires base <= |history| && AllWrite(history)
    requires forall i :: base <= i < |history| ==> CommitOf(key, history[i])
    ensures var s, t := Run(INITIAL, history[..base]), Run(INITIAL, history);
            var own := |ChainOf(s.log, OfKey(key))|;
            && s.log <= t.log && |t.log| - |s.log| == |history| - base
            && |ChainOf(t.log, OfKey(key))| == own + |history| - base
            && ConsecutiveFrom(t.log, |s.log|, key, own + 1)
  {
    hide Inv, Next, Run, ChainOf, ConsecutiveFrom;
    if |history| == base {
      assert history[..base] == history;
      NothingConsecutive(Run(INITIAL, history).log, key, |ChainOf(Run(INITIAL, history).log, OfKey(key))| + 1);
    } else {
      var earlier, last := history[..|history| - 1], history[|history| - 1];
      assert earlier[..base] == history[..base];
      assert forall i :: 0 <= i < |earlier| ==> earlier[..i] == history[..i];
      CommittedSequences(key, earlier, base);
      assert history == earlier + [last];
      RunAppend(INITIAL, earlier, last);
      InitialInv();
      RunKeepsInv(INITIAL, earlier);
      CommitExtends(Run(INITIAL, earlier), last);
      var s, before, after := Run(INITIAL, history[..base]), Run(INITIAL, earlier), Run(INITIAL, history);
      OneMoreConsecutive(before.log, after.log[|after.log| - 1], |s.log|, key, |ChainOf(s.log, OfKey(key))| + 1);
    }
  }

  lemma OneMoreConsecutive(log: seq<StoredEvent>, row: StoredEvent, from: nat, key: Key, first: nat)
    requires from <= |log| && ConsecutiveFrom(log, from, key, first)
    requires row.origin == OfKey(key) && row.sequence == first + (|log| - from)
    ensures ConsecutiveFrom(log + [row], from, key, first)
  {
  }

  lemma NothingConsecutive(log: seq<StoredEvent>, key: Key, first: nat)
    ensures ConsecutiveFrom(log, |log|, key, first)
  {
  }

  /** A local commit that writes adds the next event of its own chain. */
  lemma CommitExtends(s: State, step: Step)
    requires Inv(s) && step.CommitLocal? && Writes(s, step)
    ensures var own := ChainOf(s.log, OfKey(step.key));
            var row := LocalRow(s, step.key, step.payload, step.createdAt);
            && Next(s, step).log == s.log + [row]
            && row.origin == OfKey(step.key) && row.sequence == |own| + 1
            && ChainOf(Next(s, step).log, OfKey(step.key)) == own + [row]
  {
    hide Commit, ViewOk;
    CommitKeepsInv(s, step.key, step.payload, step.createdAt);
    ChainOfAppend(s.log, LocalRow(s, step.key, step.payload, step.createdAt), OfKey(step.key));
    assert OriginOk(s, OfKey(step.key));
  }

  // ---- Local commits among everything else ----

  function CommitCount(key: Key, history: seq<Step>): nat {
    if history == [] then 0
    else CommitCount(key, history[..|history| - 1]) + if CommitOf(key, history[|history| - 1]) then 1 else 0
  }

  /** No event of `key`'s own origin entered the log from outside. */
  ghost predicate NothingOwnIngested(key: Key, history: seq<Step>) {
    forall i :: 0 <= i < |history| && history[i].IngestRemote? && history[i].key == key ==>
      Next(Run(INITIAL, history[..i]), history[i]).log == Run(INITIAL, history[..i]).log
  }

  lemma OtherStepsKeepOwnChain(s: State, step: Step, key: Key)
    requires Inv(s) && !CommitOf(key, step)
    requires step.IngestRemote? && step.key == key ==> Next(s, step).log == s.log
    ensures ChainOf(Next(s, step).log, OfKey(key)) == ChainOf(s.log, OfKey(key))
  {
    hide Commit, Ingest, RedactEvidence, RedactActor, RebuildProjection, LogOk, ViewOk, ChainOf;
    match step
    case CommitLocal(k, payload, createdAt) =>
      CommitKeepsInv(s, k, payload, createdAt);
      ChainOfAppend(s.log, LocalRow(s, k, payload, createdAt), OfKey(key));
    case IngestRemote(k, signed, receivedAt) =>
      IngestKeepsInv(s, k, signed, receivedAt);
      if Admit(k, signed).Ok? {
        ChainOfAppend(s.log, Admit(k, signed).value, OfKey(key));
      }
    case RedactEvidenceText(admin, id, at, reason) => RedactEvidenceKeepsInv(s, admin, id, at, reason);
    case RedactActorUri(admin, actor, at, reason) => RedactActorKeepsInv(s, admin, actor, at, reason);
    case RebuildAll => RebuildIsIdentity(s);
  }

  lemma {:induction false} OwnChainCounts(key: Key, history: seq<Step>)
    requires AllWrite(history) && NothingOwnIngested(key, history)
    ensures |ChainOf(Run(INITIAL, history).log, OfKey(key))| == CommitCount(key, history)
  {
    hide Inv, Next;
    if history != [] {
      var earlier, last := history[..|history| - 1], history[|history| - 1];
      assert forall i :: 0 <= i < |earlier| ==> earlier[..i] == history[..i] && earlier[i] == history[i];
      OwnChainCounts(key, earlier);
      InitialInv();
      RunKeepsInv(INITIAL, earlier);
      if CommitOf(key, last) {
        CommitExtends(Run(INITIAL, earlier), last);
      } else {
        OtherStepsKeepOwnChain(Run(INITIAL, earlier), last, key);
      }
    }
  }

  /** In every interleaving, with whatever ingests, redactions, rebuilds and other peers' commits, the own chain
      holds exactly the committed local commits, one sequence each, unless own events came from outside. */
  lemma CommitsFillTheOwnChain(key: Key, locking: bool, actions: seq<Action>)
    requires Valid(Start(locking), actions)
    requires NothingOwnIngested(key, After(Start(locking), actions).history)
    ensures var y := After(Start(locking), actions);
            var own := ChainOf(y.db.log, OfKey(key));
            |own| == CommitCount(key, y.history) && IsChain(own)
  {
    hide Run, Next, ViewOk, Admit, ChainOf, After, Valid;
    EveryInterleavingIsSerial(locking, actions);
    var y := After(Start(locking), actions);
    OwnChainCounts(key, y.history);
    assert OriginOk(y.db, OfKey(key));
  }

  // ---- Without the lock ----

  /** Without the lock, in any state, two overlapping local commits that would each succeed alone cannot both
      be committed: the one that finishes second aborts. */
  lemma UnlockedCommitsAbort(y: System, v: nat, w: nat, x: Step, z: Step)
    requires !y.locking && v != w && At(y, v) == Idle && At(y, w) == Idle
    requires x.CommitLocal? && z.CommitLocal? && Writes(y.db, x) && Writes(y.db, z)
    ensures var overlap := [Begin(v, x), Begin(w, z), Finish(v)];
            && Valid(y, overlap)
            && At(After(y, overlap), w).Working? && Aborts(After(y, overlap), w)
            && After(y, overlap).history == y.history + [x] && After(y, overlap).db == Next(y.db, x)
  {
    hide Next;
    OneMoreAction(y, [], Begin(v, x));
    assert [] + [Begin(v, x)] == [Begin(v, x)];
    OneMoreAction(y, [Begin(v, x)], Begin(w, z));
    assert [Begin(v, x)] + [Begin(w, z)] == [Begin(v, x), Begin(w, z)];
    OneMoreAction(y, [Begin(v, x), Begin(w, z)], Finish(v));
    assert [Begin(v, x), Begin(w, z)] + [Finish(v)] == [Begin(v, x), Begin(w, z), Finish(v)];
  }

  lemma OneMoreAction(y: System, actions: seq<Action>, a: Action)
    requires Valid(y, actions) && Enabled(After(y, actions), a)
    ensures Valid(y, actions + [a]) && After(y, actions + [a]) == Act(After(y, actions), a)
  {
    hide Act, Enabled;
    assert (actions + [a])[..|actions|] == actions;
  }
}

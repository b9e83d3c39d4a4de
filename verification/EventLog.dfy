/** The replicated event log: one hash-linked chain per origin peer, extended by local commits and
    by ingested remote events. */
module EventLog {
  import opened Base
  import opened Events
  import opened Projector

  datatype StoredEvent = StoredEvent(
    id: EventId, origin: PeerId, sequence: nat, previous: Option<EventId>, createdAt: int, signed: SignedEvent)

  datatype Origin = Origin(highest: nat, head: EventId)

  datatype Peer = Peer(key: Key, firstSeen: int, lastSeen: int, forked: bool)

  datatype Fork = Fork(existing: EventId, incoming: EventId, detectedAt: int, evidence: SignedEvent)

  datatype Tombstone = Tombstone(redactedAt: int, reason: Option<string>)

  /** One peer's database. `log` is in insertion order. */
  datatype State = State(
    log: seq<StoredEvent>,
    origins: map<PeerId, Origin>,
    peers: map<PeerId, Peer>,
    forks: map<(PeerId, nat), Fork>,
    projection: Projection,
    redactions: map<EventId, Tombstone>,
    actorRedactions: map<ActorId, Tombstone>)

  const INITIAL: State := State([], map[], map[], map[], EMPTY, map[], map[])

  datatype IngestOutcome =
    | Applied(id: EventId, outcome: Outcome)
    | AlreadyKnown(id: EventId)
    | Forked(existing: EventId, incoming: EventId)

  // ---- Table look-ups ----

  function FindAt(log: seq<StoredEvent>, origin: PeerId, sequence: nat): Option<EventId> {
    if log == [] then None
    else
      var last := log[|log| - 1];
      if last.origin == origin && last.sequence == sequence then Some(last.id)
      else FindAt(log[..|log| - 1], origin, sequence)
  }

  /** A row with this identifier, or at this origin and sequence, is already stored. */
  predicate Conflicts(log: seq<StoredEvent>, row: StoredEvent) {
    exists i :: 0 <= i < |log| &&
                (log[i].id == row.id || (log[i].origin == row.origin && log[i].sequence == row.sequence))
  }

  /** The sequence number and predecessor the next event of `origin` must carry. */
  function NextSlot(origins: map<PeerId, Origin>, origin: PeerId): (nat, Option<EventId>) {
    if origin in origins then (origins[origin].highest + 1, Some(origins[origin].head)) else (1, None)
  }

  function Seen(peers: map<PeerId, Peer>, id: PeerId, key: Key, at: int): map<PeerId, Peer> {
    peers[id := if id in peers then peers[id].(lastSeen := at) else Peer(key, at, at, false)]
  }

  function Advance(s: State, row: StoredEvent, v: Projection): State {
    s.(log := if Conflicts(s.log, row) then s.log else s.log + [row],
       origins := s.origins[row.origin := Origin(row.sequence, row.id)],
       projection := v)
  }

  // ---- The two ways an event enters the log ----

  function LocalRow(s: State, key: Key, payload: Payload, createdAt: int): StoredEvent {
    var (sequence, previous) := NextSlot(s.origins, OfKey(key));
    var (signed, id) := BuildAndSign(key, sequence, previous, createdAt, payload);
    StoredEvent(id, OfKey(key), sequence, previous, createdAt, signed)
  }

  function Commit(s: State, key: Key, payload: Payload, createdAt: int)
    : (State, Result<(EventId, Outcome), EventsError>)
  {
    var row := LocalRow(s, key, payload, createdAt);
    if Conflicts(s.log, row) then (s, Err(NotFound))
    else match Project(s.projection, row.id, createdAt, payload)
      case Err(e) => (s, Err(e))
      case Ok(v) => (Advance(s, row, v), Ok((row.id, OutcomeOf(row.id, payload))))
  }

  /** Decodes and authenticates an incoming event; the row it would be stored as. */
  function Admit(key: Key, signed: SignedEvent): Result<StoredEvent, EventsError> {
    match VerifyAndDeriveId(signed, key)
    case Err(e) => Err(e)
    case Ok(id) =>
      match OriginOf(signed, key)
      case Err(e) => Err(e)
      case Ok(origin) =>
        match PreviousOf(signed)
        case Err(e) => Err(e)
        case Ok(previous) =>
          Ok(StoredEvent(id, origin, signed.unsigned.sequence, previous, signed.unsigned.createdAt, signed))
  }

  function RecordFork(s: State, row: StoredEvent, key: Key, existing: EventId, at: int): State {
    var slot := (row.origin, row.sequence);
    var peers := Seen(s.peers, row.origin, key, at);
    s.(peers := peers[row.origin := peers[row.origin].(forked := true)],
       forks := if slot in s.forks then s.forks else s.forks[slot := Fork(existing, row.id, at, row.signed)])
  }

  function Ingest(s: State, key: Key, signed: SignedEvent, receivedAt: int)
    : (State, Result<IngestOutcome, EventsError>)
  {
    match Admit(key, signed)
    case Err(e) => (s, Err(e))
    case Ok(row) =>
      match FindAt(s.log, row.origin, row.sequence)
      case Some(existing) =>
        if existing == row.id then (s, Ok(AlreadyKnown(row.id)))
        else (RecordFork(s, row, key, existing, receivedAt), Ok(Forked(existing, row.id)))
      case None =>
        var (expectedNext, expectedHead) := NextSlot(s.origins, row.origin);
        match ValidateChain(expectedNext, expectedHead, row.sequence, row.previous)
        case Err(e) => (s, Err(e))
        case Ok(_) =>
          match Project(s.projection, row.id, row.createdAt, signed.unsigned.payload)
          case Err(e) => (s, Err(e))
          case Ok(v) => (Advance(s, row, v), Ok(Applied(row.id, OutcomeOf(row.id, signed.unsigned.payload))))
  }

  // ---- The log invariant ----

  /** The stored events of one origin, in insertion order. */
  function ChainOf(log: seq<StoredEvent>, origin: PeerId): seq<StoredEvent> {
    if log == [] then []
    else
      var last := log[|log| - 1];
      var earlier := ChainOf(log[..|log| - 1], origin);
      if last.origin == origin then earlier + [last] else earlier
  }

  /** Columns agree with the envelope, and the origin itself signed it. */
  ghost predicate RowOk(r: StoredEvent) {
    && r.origin.OfKey?
    && Admit(r.origin.key, r.signed) == Ok(r)
  }

  /** The row says what the signed envelope says, and the origin's own key signed it. */
  ghost predicate Authentic(r: StoredEvent) {
    var u := r.signed.unsigned;
    && r.id == Digest(r.signed)
    && (exists key, salt :: r.origin == OfKey(key) && r.signed.signature == Bytes(Signature(key, u, salt)))
    && (exists spelling :: u.origin == Parsed(r.origin, spelling))
    && r.sequence == u.sequence && r.createdAt == u.createdAt
    && match r.previous
       case None => u.previous == None
       case Some(id) => exists spelling :: u.previous == Some(Parsed(id, spelling))
  }

  lemma RowIsAuthentic(r: StoredEvent)
    requires RowOk(r)
    ensures Authentic(r)
  {
    var u := r.signed.unsigned;
    assert OriginOf(r.signed, r.origin.key) == Ok(r.origin);
    assert u.origin == Parsed(r.origin, u.origin.spelling);
    if r.previous.Some? {
      assert u.previous == Some(Parsed(r.previous.value, u.previous.value.spelling));
    }
  }

  /** An event is admitted exactly when the key signed it, is the claimed origin's own, and the predecessor is
      readable. No other key can have it admitted. */
  lemma AdmittedExactly(key: Key, signed: SignedEvent)
    ensures Admit(key, signed).Ok? <==>
            && (exists salt :: signed.signature == Bytes(Signature(key, signed.unsigned, salt)))
            && (exists spelling :: signed.unsigned.origin == Parsed(OfKey(key), spelling))
            && (signed.unsigned.previous.Some? ==> signed.unsigned.previous.value.Parsed?)
    ensures Admit(key, signed).Ok? ==>
              var row := Admit(key, signed).value;
              Authentic(row) && row.origin == OfKey(key) && row.signed == signed
    ensures Admit(key, signed).Err? ==>
              Admit(key, signed).error ==
              if signed.signature.NotHex? then Hex
              else if signed.signature.WrongLength? then BadSignatureLength(signed.signature.length)
              else if forall salt :: signed.signature != Bytes(Signature(key, signed.unsigned, salt))
                   then InvalidSignature
              else if signed.unsigned.origin.Malformed? then OriginPeerId
              else if signed.unsigned.origin.value != OfKey(key) then OriginKeyMismatch
              else BadId
  {
    if Admit(key, signed).Ok? {
      RowIsAuthentic(Admit(key, signed).value);
    }
  }

  /** Position `i` carries sequence `i + 1` and names its predecessor's identifier. */
  ghost predicate Linked(c: seq<StoredEvent>, i: nat)
    requires i < |c|
  {
    c[i].sequence == i + 1 && c[i].previous == if i == 0 then None else Some(c[i - 1].id)
  }

  ghost predicate IsChain(c: seq<StoredEvent>) {
    forall i: nat :: i < |c| ==> Linked(c, i)
  }

  ghost predicate HeadOk(origins: map<PeerId, Origin>, origin: PeerId, c: seq<StoredEvent>) {
    if origin in origins then c != [] && origins[origin] == Origin(|c|, c[|c| - 1].id) else c == []
  }

  ghost predicate OriginOk(s: State, origin: PeerId) {
    IsChain(ChainOf(s.log, origin)) && HeadOk(s.origins, origin, ChainOf(s.log, origin))
  }

  ghost predicate LogOk(s: State) {
    && (forall i :: 0 <= i < |s.log| ==> RowOk(s.log[i]))
    && (forall origin :: OriginOk(s, origin))
  }

  lemma {:induction false} ChainOfAppend(log: seq<StoredEvent>, row: StoredEvent, origin: PeerId)
    ensures ChainOf(log + [row], origin) ==
            if row.origin == origin then ChainOf(log, origin) + [row] else ChainOf(log, origin)
  {
    assert (log + [row])[..|log|] == log;
  }

  lemma {:induction false} InChain(log: seq<StoredEvent>, origin: PeerId, i: nat)
    requires i < |ChainOf(log, origin)|
    ensures ChainOf(log, origin)[i] in log && ChainOf(log, origin)[i].origin == origin
  {
    if i < |ChainOf(log[..|log| - 1], origin)| {
      InChain(log[..|log| - 1], origin, i);
    }
  }

  lemma ChainRowOk(s: State, origin: PeerId, i: nat)
    requires LogOk(s) && i < |ChainOf(s.log, origin)|
    ensures RowOk(ChainOf(s.log, origin)[i]) && ChainOf(s.log, origin)[i].origin == origin
    ensures ChainOf(s.log, origin)[i].sequence == i + 1
  {
    InChain(s.log, origin, i);
    assert OriginOk(s, origin) && Linked(ChainOf(s.log, origin), i);
  }

  lemma {:induction false} ChainPrefix(c: seq<StoredEvent>, row: StoredEvent)
    ensures IsChain(c + [row]) <==>
            IsChain(c) && row.sequence == |c| + 1 && row.previous == if c == [] then None else Some(c[|c| - 1].id)
  {
    var d := c + [row];
    assert forall i: nat :: i < |c| ==> (Linked(d, i) <==> Linked(c, i));
    assert Linked(d, |c|) <==> row.sequence == |c| + 1 && row.previous == if c == [] then None else Some(c[|c| - 1].id);
  }

  lemma {:induction false} FindAtIsChainLookup(log: seq<StoredEvent>, origin: PeerId, sequence: nat)
    requires IsChain(ChainOf(log, origin))
    ensures var c := ChainOf(log, origin);
            FindAt(log, origin, sequence) == if 1 <= sequence <= |c| then Some(c[sequence - 1].id) else None
  {
    if log != [] {
      var last := log[|log| - 1];
      var init := ChainOf(log[..|log| - 1], origin);
      if last.origin == origin {
        ChainPrefix(init, last);
      }
      FindAtIsChainLookup(log[..|log| - 1], origin, sequence);
    }
  }

  lemma {:induction false} FindAtSome(log: seq<StoredEvent>, i: nat)
    requires i < |log|
    ensures FindAt(log, log[i].origin, log[i].sequence).Some?
  {
    if i < |log| - 1 {
      FindAtSome(log[..|log| - 1], i);
    }
  }

  /** The slot an origin's next event takes is free, so storing it can never be ignored as a duplicate. */
  lemma NextRowNeverConflicts(s: State, row: StoredEvent)
    requires LogOk(s) && RowOk(row)
    requires (row.sequence, row.previous) == NextSlot(s.origins, row.origin)
    ensures !Conflicts(s.log, row) && FindAt(s.log, row.origin, row.sequence).None?
  {
    assert OriginOk(s, row.origin);
    FindAtIsChainLookup(s.log, row.origin, row.sequence);
    forall i | 0 <= i < |s.log|
      ensures s.log[i].id != row.id && !(s.log[i].origin == row.origin && s.log[i].sequence == row.sequence)
    {
      FindAtSome(s.log, i);
      assert RowOk(s.log[i]);
    }
  }

  lemma AdvanceKeepsLog(s: State, row: StoredEvent, v: Projection)
    requires LogOk(s) && RowOk(row)
    requires (row.sequence, row.previous) == NextSlot(s.origins, row.origin)
    ensures LogOk(Advance(s, row, v)) && Advance(s, row, v).log == s.log + [row]
  {
    NextRowNeverConflicts(s, row);
    var s' := Advance(s, row, v);
    forall origin
      ensures OriginOk(s', origin)
    {
      assert OriginOk(s, origin);
      ChainOfAppend(s.log, row, origin);
      ChainPrefix(ChainOf(s.log, origin), row);
    }
  }

  lemma SameLogKeepsLog(s: State, s': State)
    requires LogOk(s) && s'.log == s.log && s'.origins == s.origins
    ensures LogOk(s')
  {
    assert forall origin :: OriginOk(s, origin) ==> OriginOk(s', origin);
  }

  /** A commit appends exactly its own row or changes nothing, and only the projector can refuse it:
      the "already existed" branch is never taken. */
  lemma CommitKeepsLog(s: State, key: Key, payload: Payload, createdAt: int)
    requires LogOk(s)
    ensures var (s', r) := Commit(s, key, payload, createdAt);
            var row := LocalRow(s, key, payload, createdAt);
            var projected := Project(s.projection, row.id, createdAt, payload);
            && LogOk(s')
            && !Conflicts(s.log, row)
            && (r.Ok? <==> projected.Ok?)
            && (r.Ok? ==> s'.log == s.log + [row] && r.value.0 == row.id)
            && row.origin == OfKey(key) && row.createdAt == createdAt
            && row.signed.unsigned.payload == payload && row.signed.unsigned.version == CURRENT_VERSION
            && (r.Err? ==> s' == s && r.error == projected.error)
  {
    var row := LocalRow(s, key, payload, createdAt);
    NextRowNeverConflicts(s, row);
    if Project(s.projection, row.id, createdAt, payload).Ok? {
      AdvanceKeepsLog(s, row, Project(s.projection, row.id, createdAt, payload).value);
    }
  }

  /** An applied remote event is really stored, although the code ignores whether the insert took effect. */
  lemma IngestKeepsLog(s: State, key: Key, signed: SignedEvent, receivedAt: int)
    requires LogOk(s)
    ensures var (s', r) := Ingest(s, key, signed, receivedAt);
            && LogOk(s')
            && (r.Ok? && r.value.Applied? ==>
                  Admit(key, signed).Ok? && !Conflicts(s.log, Admit(key, signed).value)
                  && s'.log == s.log + [Admit(key, signed).value])
            && (!(r.Ok? && r.value.Applied?) ==>
                  s'.log == s.log && s'.origins == s.origins && s'.projection == s.projection)
  {
    var (s', r) := Ingest(s, key, signed, receivedAt);
    if r.Ok? && r.value.Applied? {
      var row := Admit(key, signed).value;
      AdvanceKeepsLog(s, row, Project(s.projection, row.id, row.createdAt, signed.unsigned.payload).value);
      NextRowNeverConflicts(s, row);
    } else {
      SameLogKeepsLog(s, s');
    }
  }

  // ---- Delivery ----

  /** The one thing a detected fork changes: the slot's record, unless it has one, names the stored and the
      incoming event with the incoming envelope as evidence; the origin is known by its key, seen, and marked. */
  ghost predicate ForkFiled(
    s: State, s': State, key: Key, signed: SignedEvent, origin: PeerId, sequence: nat, existing: EventId,
    incoming: EventId, at: int)
  {
    && s' == s.(peers := s'.peers, forks := s'.forks)
    && s'.forks == (if (origin, sequence) in s.forks then s.forks
                    else s.forks[(origin, sequence) := Fork(existing, incoming, at, signed)])
    && s'.peers == s.peers[origin := if origin in s.peers then s.peers[origin].(lastSeen := at, forked := true)
                                     else Peer(key, at, at, true)]
  }

  lemma RecordForkFiles(s: State, row: StoredEvent, key: Key, existing: EventId, at: int)
    ensures ForkFiled(s, RecordFork(s, row, key, existing, at), key, row.signed, row.origin, row.sequence, existing,
                      row.id, at)
  {
  }

  /** Whether an authentic event is known, conflicting, early, misplaced or next is decided by the
      chain alone. A fork names the stored event and the incoming one, is filed once per slot, marks the
      origin, and touches nothing else; a refusal touches nothing. */
  lemma IngestOutcomes(s: State, key: Key, signed: SignedEvent, receivedAt: int)
    requires LogOk(s) && Admit(key, signed).Ok?
    ensures var row := Admit(key, signed).value;
            var c := ChainOf(s.log, row.origin);
            var head := if c == [] then None else Some(c[|c| - 1].id);
            var (s', r) := Ingest(s, key, signed, receivedAt);
            && (1 <= row.sequence <= |c| && c[row.sequence - 1] == row <==> r == Ok(AlreadyKnown(row.id)))
            && (1 <= row.sequence <= |c| && c[row.sequence - 1] != row <==> r.Ok? && r.value.Forked?)
            && (row.sequence == |c| + 1 && row.previous == head && r.Ok? <==> r.Ok? && r.value.Applied?)
            && (r.Ok? && r.value.Applied? ==> r.value.id == row.id && s'.peers == s.peers && s'.forks == s.forks)
            && (row.sequence == 0 || row.sequence > |c| + 1 <==> r == Err(SequenceGap(|c| + 1, row.sequence)))
            && (row.sequence == |c| + 1 && row.previous != head <==>
                  r == Err(PreviousEventMismatch(head, row.previous)))
            && (r == Ok(AlreadyKnown(row.id)) || r.Err? ==> s' == s)
            && (r.Ok? && r.value.Forked? ==>
                  && r.value == Forked(c[row.sequence - 1].id, row.id)
                  && ForkFiled(s, s', key, signed, row.origin, row.sequence, c[row.sequence - 1].id, row.id,
                               receivedAt))
  {
    hide Project, RecordFork, ForkFiled, ChainOf, FindAt, IsChain, VerifyAndDeriveId, OriginOf, PreviousOf;
    var row := Admit(key, signed).value;
    var c := ChainOf(s.log, row.origin);
    assert OriginOk(s, row.origin);
    FindAtIsChainLookup(s.log, row.origin, row.sequence);
    if 1 <= row.sequence <= |c| {
      ChainRowOk(s, row.origin, row.sequence - 1);
      assert c[row.sequence - 1].id == row.id <==> c[row.sequence - 1] == row;
    }
    if FindAt(s.log, row.origin, row.sequence).Some? {
      RecordForkFiles(s, row, key, FindAt(s.log, row.origin, row.sequence).value, receivedAt);
    }
    ProjectNeverReportsChainErrors(s.projection, row.id, row.createdAt, signed.unsigned.payload);
  }

  lemma ProjectNeverReportsChainErrors(v: Projection, id: EventId, createdAt: int, p: Payload)
    ensures var r := Project(v, id, createdAt, p);
            r.Err? ==> !r.error.SequenceGap? && !r.error.PreviousEventMismatch?
  {
  }

  // ---- Agreement between peers ----

  lemma SameIdSameRow(a: StoredEvent, b: StoredEvent)
    requires RowOk(a) && RowOk(b) && a.id == b.id
    ensures a == b
  {
  }

  /** Two peers that hold the same identifier at some position of an origin's chain hold the same
      events at every earlier position, whatever else either of them has seen. */
  lemma {:induction false} SameIdSameHistory(s: State, t: State, origin: PeerId, n: nat)
    requires LogOk(s) && LogOk(t)
    requires 1 <= n <= |ChainOf(s.log, origin)| && n <= |ChainOf(t.log, origin)|
    requires ChainOf(s.log, origin)[n - 1].id == ChainOf(t.log, origin)[n - 1].id
    ensures ChainOf(s.log, origin)[..n] == ChainOf(t.log, origin)[..n]
  {
    hide Admit;
    var c, d := ChainOf(s.log, origin), ChainOf(t.log, origin);
    ChainRowOk(s, origin, n - 1);
    ChainRowOk(t, origin, n - 1);
    SameIdSameRow(c[n - 1], d[n - 1]);
    assert OriginOk(s, origin) && OriginOk(t, origin) && Linked(c, n - 1) && Linked(d, n - 1);
    if n > 1 {
      SameIdSameHistory(s, t, origin, n - 1);
    }
    assert c[..n] == c[..n - 1] + [c[n - 1]] && d[..n] == d[..n - 1] + [d[n - 1]];
  }
}

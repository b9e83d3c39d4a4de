/** Identifiers, event payloads, and the signed, hash-linked event envelope.

    Hashing is symbolic: an identifier derived from a value *is* that value behind a constructor,
    so derivation is injective, and every identifier type keeps a second constructor for 32-byte
    values that are not known to be the digest of anything. Signatures are ideal: a signature
    verifies exactly when it was made with that key over that message. */
module Events {
  import opened Base

  datatype Key = Key(n: nat)

  datatype PeerId = OfKey(key: Key) | RawPeer(raw: nat)

  /** 32 bytes: the digest of a signed event, or anything else. */
  datatype Bytes32 = Digest(event: SignedEvent) | Other(raw: nat)

  type EventId = Bytes32

  datatype NodeId = OfIdentifier(identifier: string) | RawNode(raw: nat)

  datatype EdgeId = OfTriple(subject: NodeId, relation: string, target: NodeId)

  /** Hex text of 32 bytes; spelling 0 is the lower-case form that identifiers print as. */
  datatype HexText = HexText(bytes: Bytes32, spelling: nat)

  datatype ActorId = OfSeed(seed: HexText) | RawActor(raw: nat)

  datatype ExtractionMethod = Direct | StructuredExtraction | LlmExtraction | Verification

  datatype EvidenceType =
    | WebPage | Documentation | SourceCode | Repository | ApiResponse | Dataset | File | Manual
    | Specification | UserObservation | AgentObservation | ServiceReceipt | OtherEvidence

  datatype ActorType =
    | Human | Agent | Model | Crawler | Organization | Domain | Service | PeerActor | Anonymous

  datatype AliasType = Name | Url | Urn | Package | ExternalId | Acronym

  datatype Permission = GraphRead | GraphAssert | GraphVerify | GraphRetractOwn | GraphCrawl | Admin

  datatype Json = Object(fields: map<string, Json>) | Str(text: string) | Scalar(raw: string)

  datatype Payload =
    | AssertRelation(subject: string, subjectType: string, relation: string, target: string, targetType: string,
                     actor: Field<ActorId>, confidence: Option<real>, observedAt: Option<int>,
                     extraction: Field<ExtractionMethod>)
    | AddEvidence(assertion: Field<EventId>, evidenceType: Field<EvidenceType>, uri: Option<string>,
                  title: Option<string>, excerpt: Option<string>, contentHash: Option<string>,
                  observedAt: Option<int>, retrievedAt: Option<int>, pinnedCid: Option<string>,
                  metadata: Option<Json>)
    | VerifyAssertion(assertion: Field<EventId>, actor: Field<ActorId>, result: string, checkedAt: int)
    | DisputeAssertion(assertion: Field<EventId>, actor: Field<ActorId>, reason: Option<string>)
    | RetractAssertion(assertion: Field<EventId>, actor: Field<ActorId>, reason: Option<string>)
    | SupersedeAssertion(oldAssertion: Field<EventId>, newAssertion: Field<EventId>, actor: Field<ActorId>)
    | ActorDeclare(actorType: Field<ActorType>, name: Option<string>, publicKey: Option<Field<Bytes32>>,
                   identityUri: Option<string>)
    | ActorKeyAdd(actor: Field<ActorId>, keyHash: Field<Bytes32>, permissions: seq<Field<Permission>>)
    | ActorKeyRevoke(actor: Field<ActorId>, keyHash: Field<Bytes32>)
    | NodeAlias(node: Field<NodeId>, alias: string, aliasType: Field<AliasType>)

  datatype UnsignedEvent = UnsignedEvent(
    version: nat, origin: Field<PeerId>, sequence: nat, previous: Option<Field<EventId>>,
    createdAt: int, payload: Payload)

  datatype Signature = Signature(key: Key, message: UnsignedEvent, salt: nat) | Noise(raw: nat)

  datatype SignatureText = NotHex | WrongLength(length: nat) | Bytes(signature: Signature)

  datatype SignedEvent = SignedEvent(unsigned: UnsignedEvent, signature: SignatureText)

  datatype EventsError =
    | InvalidSignature
    | Hex
    | BadId
    | SequenceGap(expected: nat, got: nat)
    | PreviousEventMismatch(expectedHead: Option<EventId>, declared: Option<EventId>)
    | UnknownEnumValue
    | BadSignatureLength(length: nat)
    | Storage
    | NotFound
    | OriginPeerId
    | OriginKeyMismatch

  const CURRENT_VERSION: nat := 1

  /** The identifier covers the whole signed envelope. */
  function DeriveEventId(signed: SignedEvent): EventId {
    Digest(signed)
  }

  function BuildAndSign(key: Key, sequence: nat, previous: Option<EventId>, createdAt: int, payload: Payload)
    : (r: (SignedEvent, EventId))
    ensures VerifyAndDeriveId(r.0, key) == Ok(r.1)
    ensures OriginOf(r.0, key) == Ok(OfKey(key)) && PreviousOf(r.0) == Ok(previous)
    ensures r.0.unsigned.version == CURRENT_VERSION && r.0.unsigned.sequence == sequence
    ensures r.0.unsigned.createdAt == createdAt && r.0.unsigned.payload == payload
  {
    var unsigned := UnsignedEvent(
      CURRENT_VERSION, Parsed(OfKey(key), 0), sequence,
      if previous.Some? then Some(Parsed(previous.value, 0)) else None, createdAt, payload);
    var signed := SignedEvent(unsigned, Bytes(Signature(key, unsigned, 0)));
    (signed, DeriveEventId(signed))
  }

  /** Checks the signature against the key and recomputes the identifier; the sender's own claim is never used. */
  function VerifyAndDeriveId(signed: SignedEvent, key: Key): (r: Result<EventId, EventsError>)
    ensures r.Ok? <==> exists salt :: signed.signature == Bytes(Signature(key, signed.unsigned, salt))
    ensures r.Ok? ==> r.value == DeriveEventId(signed)
  {
    match signed.signature
    case NotHex => Err(Hex)
    case WrongLength(n) => Err(BadSignatureLength(n))
    case Bytes(s) =>
      if s.Signature? && s == Signature(key, signed.unsigned, s.salt) then Ok(DeriveEventId(signed))
      else Err(InvalidSignature)
  }

  /** The claimed origin, accepted only when it derives from the verifying key. */
  function OriginOf(signed: SignedEvent, key: Key): (r: Result<PeerId, EventsError>)
    ensures r.Ok? ==> r.value == OfKey(key)
    ensures r.Ok? <==> exists spelling :: signed.unsigned.origin == Parsed(OfKey(key), spelling)
  {
    match signed.unsigned.origin
    case Malformed(_) => Err(OriginPeerId)
    case Parsed(claimed, _) => if claimed == OfKey(key) then Ok(claimed) else Err(OriginKeyMismatch)
  }

  function PreviousOf(signed: SignedEvent): Result<Option<EventId>, EventsError> {
    match signed.unsigned.previous
    case None => Ok(None)
    case Some(Malformed(_)) => Err(BadId)
    case Some(Parsed(id, _)) => Ok(Some(id))
  }

  /** Does `sequence`/`previous` continue the chain whose next slot and head are given? */
  function ValidateChain(expectedNext: nat, expectedHead: Option<EventId>, sequence: nat, previous: Option<EventId>)
    : (r: Result<(), EventsError>)
    ensures r.Ok? <==> sequence == expectedNext && previous == expectedHead
    ensures r.Err? && r.error.SequenceGap? <==> sequence != expectedNext
  {
    if sequence != expectedNext then Err(SequenceGap(expectedNext, sequence))
    else if previous != expectedHead then Err(PreviousEventMismatch(expectedHead, previous))
    else Ok(())
  }

  /** The bytes an edge identifier is derived from: two 64-character hex identifiers around a predicate. */
  function TripleText(subjectHex: string, relation: string, targetHex: string): string {
    subjectHex + ":" + relation + ":" + targetHex
  }

  /** The concatenation is unambiguous even when the predicate itself contains colons. */
  lemma TripleTextInjective(s: string, p: string, o: string, s': string, p': string, o': string)
    requires |s| == |s'| == |o| == |o'| == 64
    ensures TripleText(s, p, o) == TripleText(s', p', o') <==> s == s' && p == p' && o == o'
  {
    if TripleText(s, p, o) == TripleText(s', p', o') {
      var t, t' := TripleText(s, p, o), TripleText(s', p', o');
      var n := |t|;
      assert s == t[..64] == t'[..64] == s';
      assert p == t[65..n - 65] == t'[65..n - 65] == p';
      assert o == t[n - 64..] == t'[n - 64..] == o';
    }
  }
}

/** Serving, relaying and recording transfers: every hop leaves one record with its server and one
    with its client, bound together by a receipt that needs both sides' nonces. */
module Transfer {
  import opened Base
  import opened Events
  import opened Relay

  datatype ContentHash = Blake3(content: Content)

  datatype ReceiptHash = Mutual(clientNonce: nat, serverNonce: nat, contentHash: ContentHash)

  datatype UnsignedReceipt = UnsignedReceipt(
    cid: Cid, server: PeerId, serverKey: Key, clientNonce: nat, serverNonce: nat, contentHash: ContentHash,
    receiptHash: ReceiptHash, servedAt: int)

  datatype ReceiptSignature = SignedBy(key: Key, message: UnsignedReceipt) | Forged(raw: nat)

  datatype Receipt = Receipt(unsigned: UnsignedReceipt, signature: ReceiptSignature)

  const MAX_CLOCK_SKEW_SECONDS: int := 300

  function BuildReceipt(key: Key, cid: Cid, clientNonce: nat, serverNonce: nat, hash: ContentHash, servedAt: int)
    : Receipt
  {
    var unsigned := UnsignedReceipt(
      cid, OfKey(key), key, clientNonce, serverNonce, hash, Mutual(clientNonce, serverNonce, hash), servedAt);
    Receipt(unsigned, SignedBy(key, unsigned))
  }

  function VerifyReceipt(r: Receipt, cid: Cid, clientNonce: nat, now: int): Result<PeerId, TransferError> {
    var u := r.unsigned;
    if u.cid != cid then Err(ReceiptMismatch)
    else if u.clientNonce != clientNonce then Err(ReceiptMismatch)
    else if u.server != OfKey(u.serverKey) then Err(PeerIdKeyMismatch)
    else if r.signature != SignedBy(u.serverKey, u) then Err(BadSignature)
    else if Abs(u.servedAt - now) > MAX_CLOCK_SKEW_SECONDS then Err(ClockSkew)
    else if Mutual(clientNonce, u.serverNonce, u.contentHash) != u.receiptHash then Err(ReceiptMismatch)
    else Ok(u.server)
  }

  /** The receipts a client accepts are exactly those some key holder built for this very exchange
      within the clock tolerance; the accepted peer is that key's. */
  lemma AcceptedReceipts(r: Receipt, cid: Cid, clientNonce: nat, now: int)
    ensures VerifyReceipt(r, cid, clientNonce, now).Ok? <==>
            exists key, serverNonce, hash, servedAt ::
              r == BuildReceipt(key, cid, clientNonce, serverNonce, hash, servedAt)
              && Abs(servedAt - now) <= MAX_CLOCK_SKEW_SECONDS
    ensures VerifyReceipt(r, cid, clientNonce, now).Ok? ==>
              r.signature.SignedBy? && VerifyReceipt(r, cid, clientNonce, now).value == OfKey(r.signature.key)
  {
    if VerifyReceipt(r, cid, clientNonce, now).Ok? {
      var u := r.unsigned;
      assert r == BuildReceipt(u.serverKey, cid, clientNonce, u.serverNonce, u.contentHash, u.servedAt);
    }
  }

  /** A genuine receipt for another exchange is a mismatch, and an old one is skewed. A receipt for this exchange,
      naming its key's peer, that its signature does not cover is refused for that. */
  lemma ReceiptOutcomes(key: Key, cid: Cid, clientNonce: nat, serverNonce: nat, hash: ContentHash, servedAt: int,
                        wanted: Cid, nonce: nat, now: int, tampered: UnsignedReceipt)
    ensures var r := BuildReceipt(key, cid, clientNonce, serverNonce, hash, servedAt);
            && VerifyReceipt(r, wanted, nonce, now) ==
               (if cid != wanted || clientNonce != nonce then Err(ReceiptMismatch)
                else if Abs(servedAt - now) > 300 then Err(ClockSkew) else Ok(OfKey(key)))
            && (tampered != r.unsigned && tampered.cid == wanted && tampered.clientNonce == nonce
                && tampered.serverKey == key && tampered.server == OfKey(key) ==>
                  VerifyReceipt(Receipt(tampered, r.signature), wanted, nonce, now) == Err(BadSignature))
  {
  }

  datatype Role = ServerRole | ClientRole

  /** One `sent_to` assertion with its service-receipt evidence, in the graph of `owner`. */
  datatype Record = Record(
    owner: Key, role: Role, server: PeerId, client: PeerId, counterparty: PeerId, cid: Cid, byteSize: nat,
    clientNonce: nat, serverNonce: nat, contentHash: ContentHash, receiptHash: ReceiptHash,
    extraction: ExtractionMethod, relayedVia: Option<PeerId>)

  datatype Response = Response(content: Content, receipt: Receipt)

  datatype VerifiedFetch = VerifiedFetch(
    content: Content, contentHash: ContentHash, receiptHash: ReceiptHash, server: PeerId)

  /** The route of a transfer: the client, then the peers it passed through. Hop `i` is served by
      `route[i + 1]` for `route[i]`, and records appear deepest hop first, server before client. */
  ghost predicate RecordOk(records: seq<Record>, j: nat, route: seq<Key>, cid: Cid, content: Content)
    requires j < |records| <= 2 * (|route| - 1)
  {
    var r := records[j];
    var i := |route| - 2 - j / 2;
    && r.server == OfKey(route[i + 1]) && r.client == OfKey(route[i])
    && r.cid == cid && r.byteSize == |content| && r.contentHash == Blake3(content)
    && r.receiptHash == Mutual(r.clientNonce, r.serverNonce, r.contentHash)
    && (j % 2 == 0 ==>
          && r.owner == route[i + 1] && r.role == ServerRole && r.counterparty == r.client && r.extraction == Direct
          && r.relayedVia == if i + 2 < |route| then Some(OfKey(route[i + 2])) else None)
    && (j % 2 == 1 ==>
          && r.owner == route[i] && r.role == ClientRole && r.counterparty == r.server && r.extraction == Verification
          && r.relayedVia == None && r.receiptHash == records[j - 1].receiptHash)
  }

  /** The records of a transfer over `route`, with nonces drawn from `from` on and no receipt used twice. */
  ghost predicate HopsOk(records: seq<Record>, route: seq<Key>, cid: Cid, content: Content, from: nat, upTo: nat) {
    && |records| <= 2 * (|route| - 1)
    && (forall j: nat :: j < |records| ==> RecordOk(records, j, route, cid, content))
    && (forall j :: 0 <= j < |records| ==> from <= records[j].clientNonce < upTo)
    && (forall j, k :: 0 <= j < k < |records| && j / 2 != k / 2 ==> records[j].receiptHash != records[k].receiptHash)
  }

  /** Putting one more hop in front keeps every record of the deeper hops. */
  lemma OneMoreHop(records: seq<Record>, route: seq<Key>, client: Key, r: Record, cid: Cid, content: Content,
                   from: nat, upTo: nat, from': nat, upTo': nat)
    requires |route| >= 1 && |records| == 2 * (|route| - 1) && HopsOk(records, route, cid, content, from, upTo)
    requires from' <= r.clientNonce < from && from' <= from && r.clientNonce < upTo' && upTo <= upTo'
    requires r.receiptHash == Mutual(r.clientNonce, r.serverNonce, r.contentHash)
    requires RecordOk(records + [r], |records|, [client] + route, cid, content)
    ensures HopsOk(records + [r], [client] + route, cid, content, from', upTo')
  {
    var all, wide := records + [r], [client] + route;
    forall j: nat | j < |all|
      ensures RecordOk(all, j, wide, cid, content)
    {
      if j < |records| {
        assert RecordOk(records, j, route, cid, content);
        assert all[j] == records[j];
        var i := |route| - 2 - j / 2;
        assert wide[i + 1] == route[i] && wide[i + 2] == route[i + 1];
        assert i + 2 < |route| ==> wide[i + 3] == route[i + 2];
      }
    }
    forall j, k | 0 <= j < k < |all| && j / 2 != k / 2
      ensures all[j].receiptHash != all[k].receiptHash
    {
      assert RecordOk(records, j, route, cid, content);
      if k == |records| {
        assert records[j].clientNonce >= from;
      }
    }
  }

  lemma NoHops(p: Key, cid: Cid, content: Content, from: nat)
    ensures HopsOk([], [p], cid, content, from, from)
  {
  }

  lemma ServerRecordOk(below: seq<Record>, p: Key, client: Key, deeper: seq<Key>, r: Record, cid: Cid, content: Content)
    requires |below| == 2 * |deeper|
    requires r.owner == p && r.role == ServerRole && r.server == OfKey(p) && r.client == OfKey(client)
    requires r.counterparty == r.client && r.extraction == Direct && r.cid == cid && r.byteSize == |content|
    requires r.contentHash == Blake3(content) && r.receiptHash == Mutual(r.clientNonce, r.serverNonce, r.contentHash)
    requires r.relayedVia == if deeper == [] then None else Some(OfKey(deeper[0]))
    ensures RecordOk(below + [r], |below|, [client] + ([p] + deeper), cid, content)
  {
  }

  lemma ClientRecordOk(
    below: seq<Record>, route: seq<Key>, r: Record, cid: Cid, content: Content, from: nat, upTo: nat)
    requires |route| >= 2 && |below| == 2 * (|route| - 1) - 1 && HopsOk(below, route, cid, content, from, upTo)
    requires r.owner == route[0] && r.role == ClientRole && r.server == OfKey(route[1]) && r.client == OfKey(route[0])
    requires r.counterparty == r.server && r.extraction == Verification && r.cid == cid && r.byteSize == |content|
    requires r.relayedVia == None && r.contentHash == Blake3(content)
    requires r.clientNonce == below[|below| - 1].clientNonce && r.serverNonce == below[|below| - 1].serverNonce
    requires r.receiptHash == Mutual(r.clientNonce, r.serverNonce, r.contentHash)
    ensures RecordOk(below + [r], |below|, route, cid, content)
  {
    assert RecordOk(below, |below| - 1, route, cid, content);
  }

  class Network {
    const net: Net
    const now: int
    /** Every peer's transfer records, in the order they are written. */
    var records: seq<Record>
    /** The next unused random value. */
    var nextNonce: nat

    constructor (net: Net, now: int)
      ensures this.net == net && this.now == now && records == []
    {
      this.net, this.now, records, nextNonce := net, now, [], 0;
    }

    method RecordTransfer(
      owner: Key, server: PeerId, client: PeerId, cid: Cid, byteSize: nat, clientNonce: nat, serverNonce: nat,
      contentHash: ContentHash, receiptHash: ReceiptHash, role: Role, extraction: ExtractionMethod,
      relayedVia: Option<PeerId>)
      modifies this`records
      ensures records == old(records) + [
                Record(owner, role, server, client, if role.ServerRole? then client else server, cid, byteSize,
                       clientNonce, serverNonce, contentHash, receiptHash, extraction, relayedVia)]
    {
      var counterparty := if role.ServerRole? then client else server;
      records := records + [Record(owner, role, server, client, counterparty, cid, byteSize, clientNonce, serverNonce,
                                   contentHash, receiptHash, extraction, relayedVia)];
    }

    /** Answer a request of `client`; a failed answer writes no record anywhere. */
    method Serve(p: Key, client: Key, clientNonce: nat, cid: Cid, hops: nat, path: seq<Key>)
      returns (r: Result<Response, TransferError>)
      requires clientNonce < nextNonce
      modifies this`records, this`nextNonce
      ensures nextNonce >= old(nextNonce) && old(records) <= records
      ensures match Search(net, cid, p, hops, path)
              case Err(e) => r == Err(e) && records == old(records)
              case Ok(found) =>
                var written := records[|old(records)|..];
                var hash := Blake3(found.content);
                && found.chain != [] && found.chain[0] == p
                && |written| == 2 * |found.chain| - 1
                && HopsOk(written, [client] + found.chain, cid, found.content, clientNonce, nextNonce)
                && written[|written| - 1].clientNonce == clientNonce
                && r == Ok(Response(found.content,
                                    BuildReceipt(p, cid, clientNonce, written[|written| - 1].serverNonce, hash, now)))
      decreases hops, 1, 0
    {
      hide HopsOk, RecordOk;
      if p !in net { return Err(Unreachable); }
      if !net[p].provider.Pinning? { return Err(ProviderDisabled); }
      var content: Content;
      var relayedVia: Option<PeerId> := None;
      ghost var deeper: seq<Key> := [];
      ghost var relayNonces := nextNonce;
      if cid in net[p].provider.pins {
        content := net[p].provider.pins[cid];
        NoHops(p, cid, content, nextNonce);
        assert records[|old(records)|..] == [] && [p] + deeper == [p];
      } else {
        var relayed := RelayFetch(p, cid, hops, path);
        if relayed.None? {
          return Err(if net[p].relays == [] || hops == 0 then LocalMiss else RelayFailed);
        }
        content, relayedVia := relayed.value.content, Some(relayed.value.server);
        deeper := FirstRelay(net, cid, net[p].relays, hops - 1, path + [p]).value.chain;
      }
      ghost var below := records[|old(records)|..];
      var contentHash := Blake3(content);
      var serverNonce := nextNonce;
      nextNonce := nextNonce + 1;
      var receipt := BuildReceipt(p, cid, clientNonce, serverNonce, contentHash, now);
      RecordTransfer(p, OfKey(p), OfKey(client), cid, |content|, clientNonce, serverNonce, contentHash,
                     receipt.unsigned.receiptHash, ServerRole, Direct, relayedVia);
      var mine := records[|records| - 1];
      assert records[|old(records)|..] == below + [mine];
      ServerRecordOk(below, p, client, deeper, mine, cid, content);
      OneMoreHop(below, [p] + deeper, client, mine, cid, content, relayNonces, nextNonce, clientNonce, nextNonce);
      assert [client] + ([p] + deeper) == [client] + Search(net, cid, p, hops, path).value.chain;
      r := Ok(Response(content, receipt));
    }

    /** Try the configured relay peers in turn; the first success wins. */
    method RelayFetch(p: Key, cid: Cid, hops: nat, path: seq<Key>) returns (r: Option<VerifiedFetch>)
      requires p in net
      modifies this`records, this`nextNonce
      ensures nextNonce >= old(nextNonce) && old(records) <= records
      ensures match if hops == 0 then None else FirstRelay(net, cid, net[p].relays, hops - 1, path + [p])
              case None => r == None && records == old(records)
              case Some(found) =>
                var written := records[|old(records)|..];
                && found.chain != []
                && |written| == 2 * |found.chain|
                && HopsOk(written, [p] + found.chain, cid, found.content, old(nextNonce), nextNonce)
                && r.Some? && r.value.content == found.content && r.value.server == OfKey(found.chain[0])
      decreases hops, 0, 0
    {
      if hops == 0 || net[p].relays == [] { return None; }
      var nextPath := path + [p];
      var i := 0;
      while i < |net[p].relays|
        invariant 0 <= i <= |net[p].relays|
        invariant records == old(records) && nextNonce >= old(nextNonce)
        invariant FirstRelay(net, cid, net[p].relays, hops - 1, path + [p]) ==
                  FirstRelay(net, cid, net[p].relays[i..], hops - 1, path + [p])
      {
        var relay := net[p].relays[i];
        assert net[p].relays[i..][1..] == net[p].relays[i + 1..];
        if relay !in nextPath {
          ghost var from := nextNonce;
          var attempt := FetchAndVerify(p, relay, cid, hops - 1, nextPath);
          if attempt.Ok? {
            WiderNonces(records[|old(records)|..], [p] + Search(net, cid, relay, hops - 1, nextPath).value.chain, cid,
                        attempt.value.content, from, nextNonce, old(nextNonce));
            return Some(attempt.value);
          }
        }
        i := i + 1;
      }
      r := None;
    }

    /** Be the client of another peer: check everything, then write the client's own record. */
    method FetchAndVerify(client: Key, server: Key, cid: Cid, hops: nat, path: seq<Key>)
      returns (r: Result<VerifiedFetch, TransferError>)
      modifies this`records, this`nextNonce
      ensures nextNonce >= old(nextNonce) && old(records) <= records
      ensures match Search(net, cid, server, hops, path)
              case Err(e) => r == Err(e) && records == old(records)
              case Ok(found) =>
                var written := records[|old(records)|..];
                && found.chain != []
                && |written| == 2 * |found.chain|
                && HopsOk(written, [client] + found.chain, cid, found.content, old(nextNonce), nextNonce)
                && r.Ok? && r.value.content == found.content && r.value.server == OfKey(server)
                && found.chain[0] == server
      decreases hops, 2, 0
    {
      hide HopsOk, RecordOk;
      var clientNonce := nextNonce;
      nextNonce := nextNonce + 1;
      var answer := Serve(server, client, clientNonce, cid, hops, path);
      if answer.Err? { return Err(answer.error); }
      ghost var below := records[|old(records)|..];
      ghost var content := answer.value.content;
      HonestIsGenuine(answer.value, server, cid, clientNonce, below[|below| - 1].serverNonce, now);
      r := AcceptResponse(client, server, cid, clientNonce, answer.value);
      ghost var route := [client] + Search(net, cid, server, hops, path).value.chain;
      ghost var mine := records[|records| - 1];
      assert records[|old(records)|..] == below + [mine];
      ClientRecordOk(below, route, mine, cid, content, clientNonce, nextNonce);
      CloseHop(below, route, mine, cid, content, clientNonce, nextNonce);
    }

    /** What a client does with any response whatever: it is accepted exactly when the peer that was asked built the
        receipt, for this exchange, over this content and within the clock tolerance. Only then is anything written,
        and that is the client's own record. */
    method AcceptResponse(client: Key, server: Key, cid: Cid, clientNonce: nat, response: Response)
      returns (r: Result<VerifiedFetch, TransferError>)
      modifies this`records
      ensures r.Ok? <==> Genuine(response, server, cid, clientNonce, now)
      ensures r.Err? ==> records == old(records)
      ensures r.Ok? ==>
                var u := response.receipt.unsigned;
                && r.value == VerifiedFetch(response.content, Blake3(response.content), u.receiptHash, OfKey(server))
                && records == old(records) + [
                     Record(client, ClientRole, OfKey(server), OfKey(client), OfKey(server), cid, |response.content|,
                            clientNonce, u.serverNonce, Blake3(response.content), u.receiptHash, Verification, None)]
    {
      var content, receipt := response.content, response.receipt;
      AcceptedReceipts(receipt, cid, clientNonce, now);
      var contentHash := Blake3(content);
      if contentHash != receipt.unsigned.contentHash { return Err(ReceiptMismatch); }
      var verified := VerifyReceipt(receipt, cid, clientNonce, now);
      if verified.Err? { return Err(verified.error); }
      if verified.value != OfKey(server) { return Err(PeerIdKeyMismatch); }
      RecordTransfer(client, verified.value, OfKey(client), cid, |content|, clientNonce, receipt.unsigned.serverNonce,
                     contentHash, receipt.unsigned.receiptHash, ClientRole, Verification, None);
      assert receipt == BuildReceipt(server, cid, clientNonce, receipt.unsigned.serverNonce, contentHash,
                                     receipt.unsigned.servedAt);
      r := Ok(VerifiedFetch(content, contentHash, receipt.unsigned.receiptHash, verified.value));
    }
  }

  /** The asked peer's own receipt for this exchange and this content, neither old nor from the future. */
  ghost predicate Genuine(response: Response, server: Key, cid: Cid, clientNonce: nat, now: int) {
    exists serverNonce, servedAt ::
      response.receipt == BuildReceipt(server, cid, clientNonce, serverNonce, Blake3(response.content), servedAt)
      && Abs(servedAt - now) <= 300
  }

  lemma HonestIsGenuine(response: Response, server: Key, cid: Cid, clientNonce: nat, serverNonce: nat, now: int)
    requires response.receipt == BuildReceipt(server, cid, clientNonce, serverNonce, Blake3(response.content), now)
    ensures Genuine(response, server, cid, clientNonce, now)
  {
  }

  lemma WiderNonces(records: seq<Record>, route: seq<Key>, cid: Cid, content: Content, from: nat, upTo: nat, from': nat)
    requires HopsOk(records, route, cid, content, from, upTo) && from' <= from
    ensures HopsOk(records, route, cid, content, from', upTo)
  {
  }

  /** The client's record completes the pair its server began. */
  lemma CloseHop(records: seq<Record>, route: seq<Key>, r: Record, cid: Cid, content: Content, from: nat, upTo: nat)
    requires |route| >= 2 && |records| == 2 * (|route| - 1) - 1 && HopsOk(records, route, cid, content, from, upTo)
    requires from <= r.clientNonce < upTo && RecordOk(records + [r], |records|, route, cid, content)
    ensures HopsOk(records + [r], route, cid, content, from, upTo)
  {
    var all := records + [r];
    forall j: nat | j < |all|
      ensures RecordOk(all, j, route, cid, content)
    {
      if j < |records| {
        assert RecordOk(records, j, route, cid, content);
      }
    }
  }
}

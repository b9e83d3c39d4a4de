/** Multi-hop content transfer: a peer that misses a fetch locally tries its configured relay peers in
    turn, depth first, spending a hop budget and never forwarding to a peer already on the request's
    path. The network is static and reliable: an address leads to the peer it is configured for. */
module Relay {
  import opened Base
  import opened Events

  type Cid = string
  type Content = seq<nat>

  datatype Provider = NoProvider | Disabled | Pinning(pins: map<Cid, Content>)

  datatype Config = Config(provider: Provider, relays: seq<Key>)

  type Net = map<Key, Config>

  datatype TransferError =
    | ProviderDisabled | LocalMiss | RelayFailed | Unreachable
    | ReceiptMismatch | PeerIdKeyMismatch | BadSignature | ClockSkew

  /** The peers a request passed through, the asked peer first and the holder last. */
  datatype Found = Found(chain: seq<Key>, content: Content)

  // ---- The search that a request performs ----

  function Search(net: Net, cid: Cid, p: Key, hops: nat, path: seq<Key>): Result<Found, TransferError>
    decreases hops, 1, 0
  {
    if p !in net then Err(Unreachable)
    else if !net[p].provider.Pinning? then Err(ProviderDisabled)
    else if cid in net[p].provider.pins then Ok(Found([p], net[p].provider.pins[cid]))
    else if hops == 0 || net[p].relays == [] then Err(LocalMiss)
    else match FirstRelay(net, cid, net[p].relays, hops - 1, path + [p])
      case None => Err(RelayFailed)
      case Some(found) => Ok(Found([p] + found.chain, found.content))
  }

  /** The result of the first relay peer off the path that answers. */
  function FirstRelay(net: Net, cid: Cid, relays: seq<Key>, hops: nat, path: seq<Key>): Option<Found>
    decreases hops, 2, |relays|
  {
    if relays == [] then None
    else
      var here := if relays[0] in path then Err(RelayFailed) else Search(net, cid, relays[0], hops, path);
      if here.Ok? then Some(here.value) else FirstRelay(net, cid, relays[1..], hops, path)
  }

  /** The relay peer that answers is the first in the configured order, off the path, that can; there is no
      answer exactly when there is none. */
  lemma {:induction false} FirstRelayIsFirst(net: Net, cid: Cid, relays: seq<Key>, hops: nat, path: seq<Key>)
    ensures match FirstRelay(net, cid, relays, hops, path)
            case None =>
              forall j :: 0 <= j < |relays| ==> relays[j] in path || Search(net, cid, relays[j], hops, path).Err?
            case Some(found) =>
              exists k :: 0 <= k < |relays| && relays[k] !in path
                          && Search(net, cid, relays[k], hops, path) == Ok(found)
                          && forall j :: 0 <= j < k ==>
                               relays[j] in path || Search(net, cid, relays[j], hops, path).Err?
  {
    hide Search;
    if relays != [] && (relays[0] in path || Search(net, cid, relays[0], hops, path).Err?) {
      var rest := relays[1..];
      FirstRelayIsFirst(net, cid, rest, hops, path);
      assert forall j :: 1 <= j < |relays| ==> relays[j] == rest[j - 1];
      match FirstRelay(net, cid, rest, hops, path)
      case None =>
      case Some(found) =>
        var k :| 0 <= k < |rest| && rest[k] !in path && Search(net, cid, rest[k], hops, path) == Ok(found)
                 && forall j :: 0 <= j < k ==> rest[j] in path || Search(net, cid, rest[j], hops, path).Err?;
        assert relays[k + 1] == rest[k];
    }
  }

  /** Why a fetch fails: nobody there, nobody serving, nowhere to relay to, or no relay that could help. */
  lemma FetchErrors(net: Net, cid: Cid, p: Key, hops: nat, path: seq<Key>)
    requires Search(net, cid, p, hops, path).Err?
    ensures Search(net, cid, p, hops, path).error ==
            if p !in net then Unreachable
            else if !net[p].provider.Pinning? then ProviderDisabled
            else if hops == 0 || net[p].relays == [] then LocalMiss
            else RelayFailed
  {
  }

  // ---- Walks ----

  predicate Serving(net: Net, p: Key) {
    p in net && net[p].provider.Pinning?
  }

  predicate Holds(net: Net, p: Key, cid: Cid) {
    Serving(net, p) && cid in net[p].provider.pins
  }

  /** Consecutive peers are relay links between serving peers, and the last one holds the content. */
  ghost predicate IsWalk(net: Net, cid: Cid, w: seq<Key>) {
    && w != []
    && (forall i :: 0 <= i < |w| ==> Serving(net, w[i]))
    && (forall i :: 0 <= i < |w| - 1 ==> w[i + 1] in net[w[i]].relays)
    && Holds(net, w[|w| - 1], cid)
  }

  ghost predicate Avoids(w: seq<Key>, path: seq<Key>) {
    forall i :: 1 <= i < |w| ==> w[i] !in path
  }

  ghost predicate Simple(w: seq<Key>) {
    forall i, j :: 0 <= i < j < |w| ==> w[i] != w[j]
  }

  ghost predicate GoodChain(net: Net, cid: Cid, p: Key, hops: nat, path: seq<Key>, found: Found) {
    && IsWalk(net, cid, found.chain) && found.chain[0] == p && |found.chain| <= hops + 1
    && Simple(found.chain) && Avoids(found.chain, path)
    && (forall i :: 0 <= i < |found.chain| - 1 ==> !Holds(net, found.chain[i], cid))
    && found.content == net[found.chain[|found.chain| - 1]].provider.pins[cid]
  }

  lemma LongerWalk(net: Net, cid: Cid, p: Key, hops: nat, path: seq<Key>, found: Found)
    requires Serving(net, p) && !Holds(net, p, cid) && hops > 0
    requires found.chain != [] && found.chain[0] in net[p].relays && found.chain[0] !in path + [p]
    requires GoodChain(net, cid, found.chain[0], hops - 1, path + [p], found)
    ensures GoodChain(net, cid, p, hops, path, Found([p] + found.chain, found.content))
  {
    var w := [p] + found.chain;
    assert forall i :: 1 <= i < |w| ==> w[i] == found.chain[i - 1];
    assert forall i :: 1 <= i < |w| ==> w[i] !in path + [p];
    assert forall x :: x in path || x == p ==> x in path + [p];
  }

  /** What a successful search found: a simple chain of relay links within the budget, off the path,
      through serving peers, ending at its only holder, with that holder's content. */
  lemma {:induction false} SearchIsSound(net: Net, cid: Cid, p: Key, hops: nat, path: seq<Key>)
    requires Search(net, cid, p, hops, path).Ok?
    ensures GoodChain(net, cid, p, hops, path, Search(net, cid, p, hops, path).value)
    decreases hops, 1, 0
  {
    if !Holds(net, p, cid) {
      var found := FirstRelay(net, cid, net[p].relays, hops - 1, path + [p]).value;
      FirstRelayIsSound(net, cid, net[p].relays, hops - 1, path + [p]);
      LongerWalk(net, cid, p, hops, path, found);
    }
  }

  lemma {:induction false} FirstRelayIsSound(net: Net, cid: Cid, relays: seq<Key>, hops: nat, path: seq<Key>)
    requires FirstRelay(net, cid, relays, hops, path).Some?
    ensures var found := FirstRelay(net, cid, relays, hops, path).value;
            && found.chain != [] && found.chain[0] in relays && found.chain[0] !in path
            && GoodChain(net, cid, found.chain[0], hops, path, found)
    decreases hops, 2, |relays|
  {
    if relays[0] !in path && Search(net, cid, relays[0], hops, path).Ok? {
      SearchIsSound(net, cid, relays[0], hops, path);
    } else {
      FirstRelayIsSound(net, cid, relays[1..], hops, path);
    }
  }

  /** A walk can be started from the last visit to its first peer. */
  lemma {:induction false} FromLastVisit(net: Net, cid: Cid, w: seq<Key>, path: seq<Key>) returns (v: seq<Key>)
    requires IsWalk(net, cid, w) && Avoids(w, path)
    ensures IsWalk(net, cid, v) && v[0] == w[0] && |v| <= |w| && Avoids(v, path + [w[0]])
  {
    var k := |w| - 1;
    while w[k] != w[0]
      invariant 0 <= k < |w|
      invariant forall i :: k < i < |w| ==> w[i] != w[0]
      decreases k
    {
      k := k - 1;
    }
    v := w[k..];
    assert forall i :: 0 <= i < |v| ==> v[i] == w[k + i];
  }

  lemma {:induction false} FirstRelayFinds(net: Net, cid: Cid, relays: seq<Key>, hops: nat, path: seq<Key>, q: Key)
    requires q in relays && q !in path && Search(net, cid, q, hops, path).Ok?
    ensures FirstRelay(net, cid, relays, hops, path).Some?
  {
    if relays[0] != q {
      FirstRelayFinds(net, cid, relays[1..], hops, path, q);
    }
  }

  /** Every walk within the budget that stays off the path makes the search succeed. */
  lemma {:induction false} SearchIsComplete(net: Net, cid: Cid, p: Key, hops: nat, path: seq<Key>, w: seq<Key>)
    requires IsWalk(net, cid, w) && w[0] == p && |w| <= hops + 1 && Avoids(w, path)
    ensures Search(net, cid, p, hops, path).Ok?
    decreases hops
  {
    if !Holds(net, p, cid) {
      var v := FromLastVisit(net, cid, w, path);
      var rest := v[1..];
      assert IsWalk(net, cid, rest) by {
        assert forall i :: 0 <= i < |rest| ==> rest[i] == v[i + 1];
      }
      SearchIsComplete(net, cid, v[1], hops - 1, path + [p], rest);
      FirstRelayFinds(net, cid, net[p].relays, hops - 1, path + [p], v[1]);
    }
  }

  /** A fetch succeeds exactly when some relay walk of at most `hops` hops, cycles allowed, leads from the
      asked peer through serving peers to a holder. */
  lemma FetchSucceedsExactly(net: Net, cid: Cid, p: Key, hops: nat)
    ensures Search(net, cid, p, hops, []).Ok? <==>
            exists w :: IsWalk(net, cid, w) && w[0] == p && |w| <= hops + 1
  {
    if Search(net, cid, p, hops, []).Ok? {
      SearchIsSound(net, cid, p, hops, []);
    }
    if w :| IsWalk(net, cid, w) && w[0] == p && |w| <= hops + 1 {
      SearchIsComplete(net, cid, p, hops, [], w);
    }
  }
}

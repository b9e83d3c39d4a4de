/** What stands behind an agreed page. Agreement counts the answers that claim a content hash, and nothing
    recomputes the hash from the body: the page returned is one peer's answer. */
module Content {
  import opened Base
  import opened Quorum
  import opened Fanout

  /** How many answers are this very result: status, hash, body and caching header. */
  function Copies(oks: seq<GatewayResult>, result: GatewayResult): nat {
    if oks == [] then 0
    else Copies(oks[..|oks| - 1], result) + if oks[|oks| - 1] == result then 1 else 0
  }

  /** How many answers are pages with this body. */
  function BodyCount(oks: seq<GatewayResult>, body: seq<nat>): nat {
    if oks == [] then 0
    else
      var last := oks[|oks| - 1];
      BodyCount(oks[..|oks| - 1], body) + if last.HttpResult? && last.body == body then 1 else 0
  }

  // ---- One answer among many that claim the same hash ----

  /** The first peer's answer is `first`, every other one's is `rest`. */
  function FirstDiffers(n: nat, first: GatewayResult, rest: GatewayResult): (a: Answers)
    requires n >= 1
    ensures |a| == n
  {
    seq(n, i => if i == 0 then Ok(first) else Ok(rest))
  }

  function FirstThen(n: nat, first: GatewayResult, rest: GatewayResult): (s: seq<GatewayResult>)
    requires n >= 1
    ensures |s| == n && s[0] == first && forall i :: 1 <= i < n ==> s[i] == rest
  {
    seq(n, i => if i == 0 then first else rest)
  }

  lemma {:induction false} OksOfFirstDiffers(n: nat, first: GatewayResult, rest: GatewayResult)
    requires n >= 1
    ensures Oks(FirstDiffers(n, first, rest)) == FirstThen(n, first, rest)
  {
    var a := FirstDiffers(n, first, rest);
    if n == 1 {
      assert a[..0] == [];
    } else {
      OksOfFirstDiffers(n - 1, first, rest);
      assert a[..n - 1] == FirstDiffers(n - 1, first, rest);
      assert FirstThen(n, first, rest) == FirstThen(n - 1, first, rest) + [rest];
    }
  }

  lemma {:induction false} CountsOfFirstThen(n: nat, first: GatewayResult, rest: GatewayResult, h: string)
    requires n >= 1 && first.HttpResult? && rest.HttpResult? && first.contentHash == rest.contentHash
    ensures var s := FirstThen(n, first, rest);
            && Group(s, h) == (if h == first.contentHash then s else [])
            && Copies(s, first) == (if first == rest then n else 1)
            && BodyCount(s, first.body) == (if first.body == rest.body then n else 1)
  {
    var s := FirstThen(n, first, rest);
    if n == 1 {
      assert s[..0] == [] && s == [first];
    } else {
      CountsOfFirstThen(n - 1, first, rest, h);
      assert s[..n - 1] == FirstThen(n - 1, first, rest);
      assert s == FirstThen(n - 1, first, rest) + [rest];
    }
  }

  /** Whatever the first peer's page says, it is agreed on as soon as enough peers claim its hash: all of them
      are counted as support, although the page may be its alone. */
  lemma FirstAnswerDecides(
    service: Service, n: nat, tolerance: int, minAgree: nat, first: GatewayResult, rest: GatewayResult)
    requires service.Http? && n >= Max(1, minAgree)
    requires first.HttpResult? && rest.HttpResult? && first.contentHash == rest.contentHash
    ensures var answers := FirstDiffers(n, first, rest);
            && Aggregates(service, answers, tolerance, minAgree, Agreed(first))
            && Support(service, answers, tolerance, first) == n
            && Copies(Oks(answers), first) == (if first == rest then n else 1)
            && BodyCount(Oks(answers), first.body) == (if first.body == rest.body then n else 1)
  {
    hide Oks, Group, Copies, BodyCount;
    OksOfFirstDiffers(n, first, rest);
    forall h
      ensures var s := FirstThen(n, first, rest);
              Group(s, h) == if h == first.contentHash then s else []
    {
      CountsOfFirstThen(n, first, rest, h);
    }
    CountsOfFirstThen(n, first, rest, first.contentHash);
  }

  lemma {:induction false} MemberCounts(oks: seq<GatewayResult>, x: GatewayResult)
    requires x in oks
    ensures Copies(oks, x) >= 1 && (x.HttpResult? ==> BodyCount(oks, x.body) >= 1)
  {
    if oks[|oks| - 1] != x {
      MemberCounts(oks[..|oks| - 1], x);
    }
  }

  lemma AgreedIsAnAnswer(service: Service, answers: Answers, tolerance: int, minAgree: nat, result: GatewayResult)
    requires service.Http? && Aggregates(service, answers, tolerance, minAgree, Agreed(result))
    ensures result in Oks(answers) && result.HttpResult?
  {
    GroupMembers(Oks(answers), result.contentHash);
  }

  /** Every page that `n` asked peers can agree on has a body that at least `k` of them sent. */
  ghost predicate BodyBacked(service: Service, n: nat, tolerance: int, minAgree: nat, k: nat) {
    forall answers: Answers, result ::
      |answers| == n && Aggregates(service, answers, tolerance, minAgree, Agreed(result)) && result.HttpResult? ==>
        BodyCount(Oks(answers), result.body) >= k
  }

  /** No configuration guarantees more than one sender of the body, unless nothing is ever agreed on. */
  lemma BodyBackedExactly(service: Service, n: nat, tolerance: int, minAgree: nat, k: nat)
    requires service.Http?
    ensures BodyBacked(service, n, tolerance, minAgree, k) <==> k <= 1 || n < Max(1, minAgree)
  {
    hide Aggregates, Support, Oks, BodyCount;
    if k <= 1 || n < Max(1, minAgree) {
      forall answers: Answers, result: GatewayResult
        | |answers| == n && result.HttpResult? && Aggregates(service, answers, tolerance, minAgree, Agreed(result))
        ensures BodyCount(Oks(answers), result.body) >= k
      {
        AgreementNeedsSupport(service, answers, tolerance, minAgree, result);
        AgreedIsAnAnswer(service, answers, tolerance, minAgree, result);
        MemberCounts(Oks(answers), result);
      }
    } else {
      var first, rest := HttpResult(200, "", [0], None), HttpResult(200, "", [1], None);
      FirstAnswerDecides(service, n, tolerance, minAgree, first, rest);
      assert |FirstDiffers(n, first, rest)| == n && BodyCount(Oks(FirstDiffers(n, first, rest)), first.body) < k;
    }
  }

  // ---- When the claimed hashes are the bodies' own ----

  ghost predicate Injective(digest: seq<nat> -> string) {
    forall b, c :: digest(b) == digest(c) ==> b == c
  }

  /** Every page's claimed hash is the digest of its body, as a receiver could recompute. */
  ghost predicate Hashed(oks: seq<GatewayResult>, digest: seq<nat> -> string) {
    forall i :: 0 <= i < |oks| && oks[i].HttpResult? ==> oks[i].contentHash == digest(oks[i].body)
  }

  /** Then those who claim a hash are those who sent the body. */
  lemma {:induction false} GroupIsBodies(oks: seq<GatewayResult>, digest: seq<nat> -> string, body: seq<nat>)
    requires Injective(digest) && Hashed(oks, digest)
    ensures |Group(oks, digest(body))| == BodyCount(oks, body)
  {
    if oks != [] {
      GroupIsBodies(oks[..|oks| - 1], digest, body);
    }
  }

  /** Every agreed page, if all claimed hashes are true, has a body that more than half of the peers sent. */
  ghost predicate BodyMajority(
    service: Service, n: nat, tolerance: int, minAgree: nat, digest: seq<nat> -> string)
  {
    forall answers: Answers, result ::
      |answers| == n && Hashed(Oks(answers), digest)
      && Aggregates(service, answers, tolerance, minAgree, Agreed(result)) && result.HttpResult? ==>
        2 * BodyCount(Oks(answers), result.body) > n
  }

  /** With true hashes a majority for the body is guaranteed exactly when the threshold is a majority. */
  lemma BodyMajorityExactly(
    service: Service, n: nat, tolerance: int, minAgree: nat, digest: seq<nat> -> string)
    requires service.Http? && Injective(digest)
    ensures BodyMajority(service, n, tolerance, minAgree, digest) <==> 2 * Max(1, minAgree) > n
  {
    hide Aggregates, Oks, BodyCount, Group;
    var k := Max(1, minAgree);
    if 2 * k > n {
      forall answers: Answers, result: GatewayResult
        | |answers| == n && Hashed(Oks(answers), digest) && result.HttpResult?
          && Aggregates(service, answers, tolerance, minAgree, Agreed(result))
        ensures 2 * BodyCount(Oks(answers), result.body) > n
      {
        AgreementNeedsSupport(service, answers, tolerance, minAgree, result);
        AgreedIsAnAnswer(service, answers, tolerance, minAgree, result);
        GroupIsBodies(Oks(answers), digest, result.body);
      }
    } else {
      var x := HttpResult(200, digest([]), [], None);
      SameAnswersAgree(service, k, n, x, tolerance, minAgree);
      OksOfSome(k, n, x);
      GroupIsBodies(Same(x, k), digest, []);
      assert |SomeAnswer(k, n, x)| == n && Hashed(Oks(SomeAnswer(k, n, x)), digest);
    }
  }

  /** Every agreed page, if all claimed hashes are true, is given whole by at least `k` of the peers. */
  ghost predicate WholeBacked(
    service: Service, n: nat, tolerance: int, minAgree: nat, digest: seq<nat> -> string, k: nat)
  {
    forall answers: Answers, result ::
      |answers| == n && Hashed(Oks(answers), digest)
      && Aggregates(service, answers, tolerance, minAgree, Agreed(result)) ==>
        Copies(Oks(answers), result) >= k
  }

  /** Status and caching header, and with it the lifetime in the cache, stay one peer's word even so. */
  lemma WholeBackedExactly(
    service: Service, n: nat, tolerance: int, minAgree: nat, digest: seq<nat> -> string, k: nat)
    requires service.Http?
    ensures WholeBacked(service, n, tolerance, minAgree, digest, k) <==> k <= 1 || n < Max(1, minAgree)
  {
    hide Aggregates, Support, Oks, Copies;
    if k <= 1 || n < Max(1, minAgree) {
      forall answers: Answers, result
        | |answers| == n && Aggregates(service, answers, tolerance, minAgree, Agreed(result))
        ensures Copies(Oks(answers), result) >= k
      {
        AgreementNeedsSupport(service, answers, tolerance, minAgree, result);
        AgreedIsAnAnswer(service, answers, tolerance, minAgree, result);
        MemberCounts(Oks(answers), result);
      }
    } else {
      var first, rest := HttpResult(404, digest([]), [], None), HttpResult(200, digest([]), [], None);
      FirstAnswerDecides(service, n, tolerance, minAgree, first, rest);
      OksOfFirstDiffers(n, first, rest);
      assert |FirstDiffers(n, first, rest)| == n && Hashed(Oks(FirstDiffers(n, first, rest)), digest);
      assert Copies(Oks(FirstDiffers(n, first, rest)), first) < k;
    }
  }

  // ---- A majority that tells the truth ----

  lemma {:induction false} GroupsAreDisjoint(oks: seq<GatewayResult>, h: string, g: string)
    requires h != g
    ensures |Group(oks, h)| + |Group(oks, g)| <= |oks|
  {
    if oks != [] {
      GroupsAreDisjoint(oks[..|oks| - 1], h, g);
    }
  }

  /** If those who claim a hash outnumber all others and the threshold is at most their number, that hash is
      agreed on, whatever the others say. */
  lemma MajorityHashDecides(oks: seq<GatewayResult>, minAgree: nat, r: Aggregate, h: string)
    requires HttpAggregate(oks, minAgree, r) && 2 * |Group(oks, h)| > |oks| && minAgree <= |Group(oks, h)|
    ensures r.Agreed? && r.result.HttpResult? && r.result.contentHash == h
  {
    hide Group;
    if r.Agreed? && r.result.contentHash != h {
      GroupsAreDisjoint(oks, h, r.result.contentHash);
      assert false;
    }
    assert !r.Disagreed? by {
      assert |Group(oks, h)| >= Max(minAgree, 1);
    }
  }

  /** And if moreover nobody claims a hash that is not its own body's, a majority's body is returned. */
  lemma MajorityBodyDecides(
    oks: seq<GatewayResult>, minAgree: nat, r: Aggregate, digest: seq<nat> -> string, body: seq<nat>)
    requires HttpAggregate(oks, minAgree, r) && Injective(digest) && Hashed(oks, digest)
    requires 2 * BodyCount(oks, body) > |oks| && minAgree <= BodyCount(oks, body)
    ensures r.Agreed? && r.result.HttpResult? && r.result.body == body
  {
    hide Group, BodyCount;
    GroupIsBodies(oks, digest, body);
    MajorityHashDecides(oks, minAgree, r, digest(body));
    GroupMembers(oks, digest(body));
    AgreedIsAnOk(oks, minAgree, r.result);
  }

  lemma AgreedIsAnOk(oks: seq<GatewayResult>, minAgree: nat, result: GatewayResult)
    requires HttpAggregate(oks, minAgree, Agreed(result))
    ensures result in oks
  {
    GroupMembers(oks, result.contentHash);
  }
}

/** What the answers of a fan-out can amount to: how many of the asked peers claim an agreed result, and when
    agreement, or a majority, is to be had at all. */
module Fanout {
  import opened Base
  import opened Quorum

  type Answers = seq<Result<GatewayResult, GatewayError>>

  predicate OfKind(service: Service, result: GatewayResult) {
    service.Ntp? <==> result.NtpResult?
  }

  /** How many answers claim a result: the size of the cluster a time is the median of, the number of answers
      that claim the content's hash. What they say of the content itself is another matter. */
  function Support(service: Service, answers: Answers, tolerance: int, result: GatewayResult): nat {
    var oks := Oks(answers);
    match service
    case Ntp => |Best(Times(oks), tolerance, |Times(oks)|)|
    case Http(_) => if result.HttpResult? then |Group(oks, result.contentHash)| else 0
  }

  // ---- Agreement needs support ----

  lemma {:induction false} AnswerCounts(answers: Answers)
    ensures |Times(Oks(answers))| <= |Oks(answers)| <= |answers|
  {
    if answers != [] {
      AnswerCounts(answers[..|answers| - 1]);
      TimesCount(Oks(answers));
    }
  }

  lemma {:induction false} TimesCount(oks: seq<GatewayResult>)
    ensures |Times(oks)| <= |oks|
  {
    if oks != [] {
      TimesCount(oks[..|oks| - 1]);
    }
  }

  lemma {:induction false} GroupCount(oks: seq<GatewayResult>, h: string)
    ensures |Group(oks, h)| <= |oks|
  {
    if oks != [] {
      GroupCount(oks[..|oks| - 1], h);
    }
  }

  lemma BestCount(values: seq<int>, tolerance: int)
    ensures |Best(values, tolerance, |values|)| <= |values|
  {
    hide Best, Within;
    BestIsLargest(values, tolerance, |values|);
    var best := Best(values, tolerance, |values|);
    if i :| 0 <= i < |values| && best == Within(values, values[i], tolerance) {
      WithinLength(values, values[i], tolerance);
    }
  }

  lemma {:induction false} WithinLength(values: seq<int>, v: int, tolerance: int)
    ensures |Within(values, v, tolerance)| <= |values|
  {
    if values != [] {
      WithinLength(values[1..], v, tolerance);
    }
  }

  lemma ClusterNeedsTolerance(values: seq<int>, tolerance: int)
    requires Best(values, tolerance, |values|) != []
    ensures tolerance >= 0
  {
    hide Best;
    BestIsLargest(values, tolerance, |values|);
    var best := Best(values, tolerance, |values|);
    var i :| 0 <= i < |values| && best == Within(values, values[i], tolerance);
    WithinCount(values, values[i], tolerance);
    assert best[0] in best && Near(best[0], values[i], tolerance);
  }

  /** Every agreed result is claimed by at least the threshold's number of asked peers, and at least one. */
  lemma AgreementNeedsSupport(
    service: Service, answers: Answers, tolerance: int, minAgree: nat, result: GatewayResult)
    requires Aggregates(service, answers, tolerance, minAgree, Agreed(result))
    ensures Max(1, minAgree) <= Support(service, answers, tolerance, result) <= |answers|
    ensures OfKind(service, result) && (service.Ntp? ==> tolerance >= 0)
  {
    AnswerCounts(answers);
    var oks := Oks(answers);
    if service.Ntp? {
      BestCount(Times(oks), tolerance);
      ClusterNeedsTolerance(Times(oks), tolerance);
    } else {
      GroupCount(oks, result.contentHash);
    }
  }

  /** Too few peers asked: whatever they answer, there is no quorum. */
  lemma TooFewAsked(service: Service, answers: Answers, tolerance: int, minAgree: nat, r: Aggregate)
    requires |answers| < minAgree && Aggregates(service, answers, tolerance, minAgree, r)
    ensures r == Disagreed
  {
    match r
    case Agreed(result) =>
      AgreementNeedsSupport(service, answers, tolerance, minAgree, result);
      assert false;
    case Disagreed =>
    case IndexPanic => PanicsExactly(Times(Oks(answers)), tolerance, minAgree);
  }

  // ---- Support is enough for agreement ----

  function Same(result: GatewayResult, n: nat): (s: seq<GatewayResult>)
    ensures |s| == n && forall i :: 0 <= i < n ==> s[i] == result
  {
    seq(n, _ => result)
  }

  /** The first `k` of `n` peers give the same answer and the others fail. */
  function SomeAnswer(k: nat, n: nat, result: GatewayResult): (a: Answers)
    requires k <= n
    ensures |a| == n
  {
    seq(n, i => if i < k then Ok(result) else Err(PeerFailed))
  }

  lemma {:induction false} OksOfSome(k: nat, n: nat, result: GatewayResult)
    requires k <= n
    ensures Oks(SomeAnswer(k, n, result)) == Same(result, k)
    decreases n
  {
    if n > 0 {
      var fewer := if k == n then k - 1 else k;
      OksOfSome(fewer, n - 1, result);
      assert SomeAnswer(k, n, result)[..n - 1] == SomeAnswer(fewer, n - 1, result);
      assert k == n ==> Same(result, n) == Same(result, n - 1) + [result];
    }
  }

  lemma {:induction false} TimesOfSame(n: nat, ms: int)
    ensures Times(Same(NtpResult(ms), n)) == seq(n, _ => ms)
  {
    if n > 0 {
      TimesOfSame(n - 1, ms);
      assert Same(NtpResult(ms), n)[..n - 1] == Same(NtpResult(ms), n - 1);
      assert seq(n, _ => ms) == seq(n - 1, _ => ms) + [ms];
    }
  }

  lemma {:induction false} GroupOfSame(n: nat, result: GatewayResult, h: string)
    requires result.HttpResult?
    ensures Group(Same(result, n), h) == if h == result.contentHash then Same(result, n) else []
  {
    if n > 0 {
      GroupOfSame(n - 1, result, h);
      assert Same(result, n)[..n - 1] == Same(result, n - 1);
      assert Same(result, n) == Same(result, n - 1) + [result];
    }
  }

  lemma SameTimesAgree(k: nat, ms: int, tolerance: int, minAgree: nat)
    requires Max(1, minAgree) <= k && tolerance >= 0
    ensures var values := seq(k, _ => ms);
            && NtpAggregate(values, tolerance, minAgree) == Agreed(NtpResult(ms))
            && |Best(values, tolerance, k)| == k
  {
    hide CountIf, Best, Within, Median;
    var values := seq(k, _ => ms);
    CountAll(values, o => Near(o, ms, tolerance));
    WithinCount(values, ms, tolerance);
    assert values[0] == ms;
    BestIsLargest(values, tolerance, k);
    BestCount(values, tolerance);
    AgreedTimeIsSupported(values, tolerance, minAgree);
  }

  lemma SameContentAgrees(k: nat, result: GatewayResult, minAgree: nat)
    requires result.HttpResult? && Max(1, minAgree) <= k
    ensures HttpAggregate(Same(result, k), minAgree, Agreed(result))
    ensures |Group(Same(result, k), result.contentHash)| == k
  {
    forall h
      ensures |Group(Same(result, k), h)| <= k
      ensures h == result.contentHash ==> Group(Same(result, k), h) == Same(result, k)
    {
      GroupOfSame(k, result, h);
    }
  }

  /** Enough equal answers are agreed on, whatever they say and however many other peers fail: `k` of `n`
      decide even when `2 * k <= n`. */
  lemma SameAnswersAgree(
    service: Service, k: nat, n: nat, result: GatewayResult, tolerance: int, minAgree: nat)
    requires OfKind(service, result) && Max(1, minAgree) <= k <= n && (service.Ntp? ==> tolerance >= 0)
    ensures Aggregates(service, SomeAnswer(k, n, result), tolerance, minAgree, Agreed(result))
    ensures Support(service, SomeAnswer(k, n, result), tolerance, result) == k
  {
    hide NtpAggregate, HttpAggregate, Best, Group;
    OksOfSome(k, n, result);
    if service.Ntp? {
      TimesOfSame(k, result.ms);
      SameTimesAgree(k, result.ms, tolerance, minAgree);
    } else {
      SameContentAgrees(k, result, minAgree);
    }
  }

  function AnyResult(service: Service): (r: GatewayResult)
    ensures OfKind(service, r)
  {
    if service.Ntp? then NtpResult(0) else HttpResult(200, "", [], None)
  }

  // ---- When agreement and majority are to be had ----

  ghost predicate CanAgree(service: Service, n: nat, tolerance: int, minAgree: nat) {
    exists answers: Answers, result ::
      |answers| == n && Aggregates(service, answers, tolerance, minAgree, Agreed(result))
  }

  /** `n` asked peers can agree exactly when they are as many as the threshold asks for, and at least one,
      and a time is not within a negative tolerance of anything. */
  lemma CanAgreeExactly(service: Service, n: nat, tolerance: int, minAgree: nat)
    ensures CanAgree(service, n, tolerance, minAgree)
            <==> n >= Max(1, minAgree) && (service.Ntp? ==> tolerance >= 0)
  {
    hide Aggregates, Support;
    if answers: Answers, result
      :| |answers| == n && Aggregates(service, answers, tolerance, minAgree, Agreed(result)) {
      AgreementNeedsSupport(service, answers, tolerance, minAgree, result);
    }
    if n >= Max(1, minAgree) && (service.Ntp? ==> tolerance >= 0) {
      SameAnswersAgree(service, n, n, AnyResult(service), tolerance, minAgree);
    }
  }

  /** Every result that `n` asked peers can agree on is claimed by more than half of them. */
  ghost predicate MajorityBacked(service: Service, n: nat, tolerance: int, minAgree: nat) {
    forall answers: Answers, result ::
      |answers| == n && Aggregates(service, answers, tolerance, minAgree, Agreed(result)) ==>
        2 * Support(service, answers, tolerance, result) > n
  }

  /** What is agreed on is claimed by a majority exactly when the threshold itself is one, or when there is never
      any agreement. */
  lemma MajorityExactly(service: Service, n: nat, tolerance: int, minAgree: nat)
    ensures MajorityBacked(service, n, tolerance, minAgree)
            <==> 2 * Max(1, minAgree) > n || (service.Ntp? && tolerance < 0)
  {
    hide Aggregates, Support;
    var k := Max(1, minAgree);
    if 2 * k > n || (service.Ntp? && tolerance < 0) {
      forall answers: Answers, result
        | |answers| == n && Aggregates(service, answers, tolerance, minAgree, Agreed(result))
        ensures 2 * Support(service, answers, tolerance, result) > n
      {
        AgreementNeedsSupport(service, answers, tolerance, minAgree, result);
      }
    } else {
      SameAnswersAgree(service, k, n, AnyResult(service), tolerance, minAgree);
      assert |SomeAnswer(k, n, AnyResult(service))| == n;
    }
  }
}

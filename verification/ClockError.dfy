/** How far an estimate of the time can be from the true time, in whole milliseconds: the four-timestamp
    exchange with an upstream server (section 8 of RFC 5905), and the correction each gateway hop adds.
    True time is the upstream server's; other clocks may be off but run at the same rate. */
module ClockError {
  import opened Base
  import NtpWire
  import Quorum
  import Fanout
  import Gateway

  /** The client's send and receive times by its own clock, the server's receive and send times by true time. */
  datatype Exchange = Exchange(t1: int, t2: int, t3: int, t4: int)

  function Estimate(x: Exchange): int {
    x.t4 + HalfTowardsZero((x.t2 - x.t1) + (x.t3 - x.t4))
  }

  function Delay(x: Exchange): int {
    (x.t4 - x.t1) - (x.t3 - x.t2)
  }

  /** The exchange can happen when the client's clock lags true time by `lag`: no message arrives before
      it was sent. */
  ghost predicate Causal(x: Exchange, lag: int) {
    x.t1 + lag <= x.t2 <= x.t3 <= x.t4 + lag
  }

  function HalfUp(n: nat): (h: nat)
    ensures n <= 2 * h <= n + 1
  {
    (n + 1) / 2
  }

  /** Within half the measured delay, rounded up, whatever the client's own clock says. */
  lemma UpstreamError(x: Exchange, lag: int)
    requires Causal(x, lag)
    ensures Delay(x) >= 0 && Abs(Estimate(x) - (x.t4 + lag)) <= HalfUp(Delay(x))
  {
    var out, back := x.t2 - (x.t1 + lag), x.t4 + lag - x.t3;
    assert Delay(x) == out + back;
    assert (x.t2 - x.t1) + (x.t3 - x.t4) == out - back + 2 * lag;
  }

  /** No smaller bound holds: every delay has an exchange with this very error. */
  lemma UpstreamErrorIsAttained(delay: nat)
    ensures exists x, lag ::
              Causal(x, lag) && Delay(x) == delay && Abs(Estimate(x) - (x.t4 + lag)) == HalfUp(delay)
  {
    var d: int := delay;
    var x := Exchange(d, d, d, 2 * d);
    assert Causal(x, -d);
    assert Estimate(x) == 2 * delay - delay / 2;
  }

  /** The exchange as the client sees it when the server's times have come through the packet codec. */
  function ThroughWire(x: Exchange): Exchange {
    x.(t2 := NtpWire.ToUnixMs(NtpWire.FromUnixMs(x.t2)), t3 := NtpWire.ToUnixMs(NtpWire.FromUnixMs(x.t3)))
  }

  /** The packet's rounding costs at most one more millisecond. */
  lemma UpstreamErrorThroughWire(x: Exchange, lag: int)
    requires Causal(x, lag) && 0 <= x.t2 && x.t3 < NtpWire.ERA_END
    ensures Abs(Estimate(ThroughWire(x)) - (x.t4 + lag)) <= HalfUp(Delay(x)) + 1
  {
    hide NtpWire.ToUnixMs, NtpWire.FromUnixMs;
    NtpWire.RoundTrip(x.t2);
    NtpWire.RoundTrip(x.t3);
    UpstreamError(x, lag);
    var y := ThroughWire(x);
    assert -2 <= (y.t2 + y.t3) - (x.t2 + x.t3) <= 0;
  }

  // ---- Relaying and caching ----

  /** What happens to an estimate after it is made: it travels one hop, asked for at true time `sent` and
      received at true time `received`; it stays in a cache for a while, which is made up for; or it waits,
      for the rest of its own response or for the other answers of a fan-out, which is not. */
  datatype Link = Hop(sent: int, received: int) | Held(ms: nat) | Waited(ms: nat)

  /** True time after the links. */
  function TimeAfter(at: int, links: seq<Link>): int {
    if links == [] then at
    else
      match links[|links| - 1]
      case Hop(_, received) => received
      case Held(ms) => TimeAfter(at, links[..|links| - 1]) + ms
      case Waited(ms) => TimeAfter(at, links[..|links| - 1]) + ms
  }

  /** Each hop's answer exists between the hop's request and its response. */
  ghost predicate Timeline(at: int, links: seq<Link>) {
    forall i :: 0 <= i < |links| ==>
      match links[i]
      case Hop(sent, received) => sent <= TimeAfter(at, links[..i]) <= received
      case Held(_) => true
      case Waited(_) => true
  }

  /** The estimate after the links: a hop adds half its round trip, a cache adds the time elapsed, and
      waiting adds nothing. */
  function EstimateAfter(estimate: int, links: seq<Link>): int {
    if links == [] then estimate
    else
      var before := EstimateAfter(estimate, links[..|links| - 1]);
      match links[|links| - 1]
      case Hop(sent, received) => before + HalfTowardsZero(received - sent)
      case Held(ms) => Gateway.AdjustForElapsed(Quorum.NtpResult(before), ms * Gateway.NANOS_PER_MILLI).ms
      case Waited(_) => before
  }

  function Budget(links: seq<Link>): nat {
    if links == [] then 0
    else
      var before := Budget(links[..|links| - 1]);
      match links[|links| - 1]
      case Hop(sent, received) => before + HalfUp(Max(received - sent, 0))
      case Held(_) => before
      case Waited(ms) => before + ms
  }

  /** Along a chain the error grows by at most half of each round trip, rounded up, and by each wait. */
  lemma {:induction false} ChainError(estimate: int, at: int, links: seq<Link>)
    requires Timeline(at, links)
    ensures Abs(EstimateAfter(estimate, links) - TimeAfter(at, links)) <= Abs(estimate - at) + Budget(links)
  {
    if links != [] {
      var before := links[..|links| - 1];
      assert forall i :: 0 <= i < |before| ==> before[i] == links[i] && before[..i] == links[..i];
      ChainError(estimate, at, before);
      match links[|links| - 1]
      case Hop(sent, received) =>
        assert sent <= TimeAfter(at, before) <= received;
      case Held(ms) =>
        assert ms * Gateway.NANOS_PER_MILLI / Gateway.NANOS_PER_MILLI == ms;
      case Waited(_) =>
    }
  }

  /** What one more link does to the signed error, exactly: a hop adds half its round trip and takes away the time the
      answer really took back, a cache changes nothing, and a wait takes away its whole length. */
  lemma OneMoreLink(estimate: int, at: int, links: seq<Link>, link: Link)
    ensures var before := EstimateAfter(estimate, links) - TimeAfter(at, links);
            EstimateAfter(estimate, links + [link]) - TimeAfter(at, links + [link]) ==
            match link
            case Hop(sent, received) =>
              before + HalfTowardsZero(received - sent) - (received - TimeAfter(at, links))
            case Held(_) => before
            case Waited(ms) => before - ms
  {
    var all := links + [link];
    assert all[..|all| - 1] == links;
    if link.Held? {
      assert link.ms * Gateway.NANOS_PER_MILLI / Gateway.NANOS_PER_MILLI == link.ms;
    }
  }

  /** From an upstream exchange through any chain of hops, caches and waits. */
  lemma EndToEndError(x: Exchange, lag: int, links: seq<Link>)
    requires Causal(x, lag) && 0 <= x.t2 && x.t3 < NtpWire.ERA_END && Timeline(x.t4 + lag, links)
    ensures Abs(EstimateAfter(Estimate(ThroughWire(x)), links) - TimeAfter(x.t4 + lag, links))
            <= HalfUp(Delay(x)) + 1 + Budget(links)
  {
    hide Causal, Estimate, ThroughWire, Timeline, EstimateAfter, TimeAfter, Budget;
    UpstreamErrorThroughWire(x, lag);
    ChainError(Estimate(ThroughWire(x)), x.t4 + lag, links);
  }

  // ---- Aggregating answers received at different times ----

  /** Honest answers are right to within `error` when received, none earlier than `wait` before the decision. */
  ghost predicate HonestWithin(
    values: seq<int>, receipts: seq<int>, honest: seq<bool>, decided: int, error: nat, wait: nat)
    requires |values| == |receipts| == |honest|
  {
    forall i :: 0 <= i < |values| && honest[i] ==>
      Abs(values[i] - receipts[i]) <= error && decided - wait <= receipts[i] <= decided
  }

  /** With an honest majority and a tolerance that covers both errors and the wait for the slowest answer,
      there is agreement; the agreed time is at most as far ahead as an honest answer can be, and behind
      by no more than that and the wait. */
  lemma QuorumError(
    values: seq<int>, receipts: seq<int>, honest: seq<bool>, tolerance: int, minAgree: nat, f: nat,
    decided: int, error: nat, wait: nat)
    requires |values| == |receipts| == |honest|
    requires Quorum.CountTrue(honest) >= 2 * f + 1 && |values| - Quorum.CountTrue(honest) <= f
    requires 1 <= minAgree <= 2 * f + 1 && 2 * error + wait <= tolerance
    requires HonestWithin(values, receipts, honest, decided, error, wait)
    ensures var r := Quorum.NtpAggregate(values, tolerance, minAgree);
            r.Agreed? && r.result.NtpResult? && decided - error - wait <= r.result.ms <= decided + error
  {
    hide Quorum.Best, Quorum.Median, Quorum.CountTrue;
    Quorum.HonestMajorityDecides(values, honest, tolerance, minAgree, f);
  }

  /** The same answer served later, by this peer's cache and by any chain of peers behind it. */
  lemma ServedQuorumError(
    values: seq<int>, receipts: seq<int>, honest: seq<bool>, tolerance: int, minAgree: nat, f: nat,
    decided: int, error: nat, wait: nat, links: seq<Link>)
    requires |values| == |receipts| == |honest|
    requires Quorum.CountTrue(honest) >= 2 * f + 1 && |values| - Quorum.CountTrue(honest) <= f
    requires 1 <= minAgree <= 2 * f + 1 && 2 * error + wait <= tolerance
    requires HonestWithin(values, receipts, honest, decided, error, wait) && Timeline(decided, links)
    ensures var r := Quorum.NtpAggregate(values, tolerance, minAgree);
            && r.Agreed? && r.result.NtpResult?
            && Abs(EstimateAfter(r.result.ms, links) - TimeAfter(decided, links)) <= error + wait + Budget(links)
  {
    hide EstimateAfter, TimeAfter, Budget, Timeline, HonestWithin, Quorum.NtpAggregate, Quorum.CountTrue;
    QuorumError(values, receipts, honest, tolerance, minAgree, f, decided, error, wait);
    ChainError(Quorum.NtpAggregate(values, tolerance, minAgree).result.ms, decided, links);
  }

  /** The wait really costs its whole length: for every error and wait an honest answer can be that far off. */
  lemma QuorumErrorIsAttained(decided: int, error: nat, wait: nat)
    ensures var v := decided - error - wait;
            && HonestWithin([v], [decided - wait], [true], decided, error, wait)
            && Quorum.NtpAggregate([v], 2 * error + wait, 1) == Quorum.Agreed(Quorum.NtpResult(v))
  {
    hide Quorum.NtpAggregate;
    var v := decided - error - wait;
    Fanout.SameTimesAgree(1, v, 2 * error + wait, 1);
    assert seq(1, _ => v) == [v];
  }

  /** Answers that were all exactly right when received are no quorum exactly when at no receipt enough of them
      were received within the tolerance of it: correctness of the answers alone is not enough. */
  lemma RightAnswersDisagreeExactly(values: seq<int>, receipts: seq<int>, tolerance: int, minAgree: nat)
    requires |values| == |receipts| && minAgree >= 1
    requires forall i :: 0 <= i < |values| ==> values[i] == receipts[i]
    ensures Quorum.NtpAggregate(values, tolerance, minAgree) == Quorum.Disagreed <==>
            forall i :: 0 <= i < |receipts| ==>
              Quorum.CountIf(receipts, o => Quorum.Near(o, receipts[i], tolerance)) < minAgree
  {
    hide Quorum.NtpAggregate, Quorum.CountIf;
    assert values == receipts;
    Quorum.NoQuorumExactly(values, tolerance, minAgree);
  }

  /** Two of them, with both needed: exactly when received further apart than the tolerance. */
  lemma TwoRightAnswersDisagreeExactly(first: int, second: int, tolerance: int)
    ensures Quorum.NtpAggregate([first, second], tolerance, 2) == Quorum.Disagreed
            <==> Abs(second - first) > tolerance
  {
    hide Quorum.NtpAggregate, Quorum.CountIf;
    var values := [first, second];
    Quorum.NoQuorumExactly(values, tolerance, 2);
    PairCount(first, second, first, tolerance);
    PairCount(first, second, second, tolerance);
    assert values[0] == first && values[1] == second;
  }

  lemma PairCount(first: int, second: int, v: int, tolerance: int)
    ensures Quorum.CountIf([first, second], o => Quorum.Near(o, v, tolerance))
            == (if Quorum.Near(first, v, tolerance) then 1 else 0)
               + (if Quorum.Near(second, v, tolerance) then 1 else 0)
  {
    var near := o => Quorum.Near(o, v, tolerance);
    assert [first, second][1..] == [second] && [second][1..] == [];
    assert Quorum.CountIf([second], near) == (if near(second) then 1 else 0) + Quorum.CountIf([], near);
  }
}

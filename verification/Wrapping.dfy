/** Time aggregation in 64-bit arithmetic that wraps: the answers are signed 64-bit numbers of arbitrary peers,
    and neither their difference nor its absolute value need fit. A build with overflow checks stops instead,
    exactly where the two arithmetics can differ. */
module Wrapping {
  import opened Base
  import opened Quorum

  const TWO63: int := 0x8000_0000_0000_0000
  const TWO64: int := 0x1_0000_0000_0000_0000

  predicate IsI64(x: int) {
    -TWO63 <= x < TWO63
  }

  ghost predicate AllI64(values: seq<int>) {
    forall i :: 0 <= i < |values| ==> IsI64(values[i])
  }

  /** A result that does not fit loses its higher bits. */
  function Wrap(x: int): (w: int)
    ensures IsI64(w)
  {
    (x + TWO63) % TWO64 - TWO63
  }

  /** The least number has no positive counterpart and stays as it is. */
  function WrappingAbs(x: int): int {
    Wrap(Abs(x))
  }

  predicate MachineNear(o: int, v: int, tolerance: int) {
    WrappingAbs(Wrap(o - v)) <= tolerance
  }

  lemma WrapOnce(x: int)
    requires -(2 * TWO63) < x < 2 * TWO63
    ensures Wrap(x) == if x >= TWO63 then x - TWO64 else if x < -TWO63 then x + TWO64 else x
  {
  }

  /** What counts as near: what is near, and what is half the number range away or almost all of it. */
  lemma MachineNearExactly(o: int, v: int, tolerance: int)
    requires IsI64(o) && IsI64(v) && 0 <= tolerance < TWO63
    ensures MachineNear(o, v, tolerance) <==>
            Near(o, v, tolerance) || Abs(o - v) == TWO63 || Abs(o - v) >= TWO64 - tolerance
  {
    hide Wrap;
    WrapOnce(o - v);
    WrapOnce(Abs(Wrap(o - v)));
  }

  // ---- Aggregation ----

  function MachineWithin(values: seq<int>, v: int, tolerance: int): seq<int> {
    if values == [] then []
    else (if MachineNear(values[0], v, tolerance) then [values[0]] else []) + MachineWithin(values[1..], v, tolerance)
  }

  function MachineBest(values: seq<int>, tolerance: int, k: nat): seq<int>
    requires k <= |values|
  {
    if k == 0 then []
    else
      var best := MachineBest(values, tolerance, k - 1);
      var cluster := MachineWithin(values, values[k - 1], tolerance);
      if |cluster| > |best| then cluster else best
  }

  function MachineAggregate(values: seq<int>, tolerance: int, minAgree: nat): Aggregate {
    var best := MachineBest(values, tolerance, |values|);
    if |best| < minAgree then Disagreed
    else if best == [] then IndexPanic
    else Agreed(NtpResult(Median(best)))
  }

  // ---- Where the arithmetics agree ----

  /** Some difference, or its absolute value, does not fit. */
  ghost predicate Overflows(values: seq<int>) {
    exists i, j :: 0 <= i < |values| && 0 <= j < |values| && Abs(values[i] - values[j]) >= TWO63
  }

  lemma {:induction false} SameCluster(values: seq<int>, v: int, tolerance: int)
    requires forall i :: 0 <= i < |values| ==> Abs(values[i] - v) < TWO63
    ensures MachineWithin(values, v, tolerance) == Within(values, v, tolerance)
  {
    hide Wrap;
    if values != [] {
      SameCluster(values[1..], v, tolerance);
      WrapOnce(values[0] - v);
      WrapOnce(Abs(values[0] - v));
    }
  }

  lemma {:induction false} SameBest(values: seq<int>, tolerance: int, k: nat)
    requires k <= |values| && !Overflows(values)
    ensures MachineBest(values, tolerance, k) == Best(values, tolerance, k)
  {
    hide MachineWithin, Within;
    if k > 0 {
      SameBest(values, tolerance, k - 1);
      SameCluster(values, values[k - 1], tolerance);
    }
  }

  /** Without an overflow everything proved of exact aggregation holds. */
  lemma SameWithoutOverflow(values: seq<int>, tolerance: int, minAgree: nat)
    requires !Overflows(values)
    ensures MachineAggregate(values, tolerance, minAgree) == NtpAggregate(values, tolerance, minAgree)
  {
    hide MachineBest, Best;
    SameBest(values, tolerance, |values|);
  }

  /** With one, answers half the number range apart agree at every tolerance. */
  lemma OverflowAgrees(v: int, tolerance: int)
    requires 0 <= v < TWO63 && 0 <= tolerance < TWO63
    ensures Overflows([v, v - TWO63]) && MachineAggregate([v, v - TWO63], tolerance, 2) == Agreed(NtpResult(v))
  {
    hide MachineNear;
    var values := [v, v - TWO63];
    assert Abs(values[0] - values[1]) >= TWO63;
    MachineNearExactly(v, v, tolerance);
    MachineNearExactly(v - TWO63, v, tolerance);
    assert values[1..] == [v - TWO63] && [v - TWO63][1..] == [];
    assert MachineWithin([v - TWO63], v, tolerance) == [v - TWO63] + MachineWithin([], v, tolerance);
    assert MachineWithin(values, v, tolerance) == values;
    ClusterIsPart(values, v - TWO63, tolerance);
    assert MachineBest(values, tolerance, 1) == values;
    assert MachineBest(values, tolerance, 2) == values;
    assert Sorted([v - TWO63]) == [v - TWO63];
    assert Sorted(values) == Insert(v, [v - TWO63]) == [v - TWO63, v];
  }

  // ---- Byzantine answers ----

  lemma {:induction false} ClusterIsPart(values: seq<int>, v: int, tolerance: int)
    ensures |MachineWithin(values, v, tolerance)| <= |values|
    ensures |MachineWithin(values, v, tolerance)| == CountIf(values, o => MachineNear(o, v, tolerance))
  {
    hide MachineNear;
    if values != [] {
      ClusterIsPart(values[1..], v, tolerance);
    }
  }

  lemma {:induction false} ClusterCountIf(values: seq<int>, v: int, tolerance: int, p: int -> bool)
    ensures CountIf(MachineWithin(values, v, tolerance), p) <= CountIf(values, p)
  {
    hide MachineNear;
    if values != [] {
      ClusterCountIf(values[1..], v, tolerance, p);
      var c, rest := MachineWithin(values, v, tolerance), MachineWithin(values[1..], v, tolerance);
      if MachineNear(values[0], v, tolerance) {
        assert c[1..] == rest;
      } else {
        assert c == rest;
      }
    }
  }

  lemma {:induction false} BestCluster(values: seq<int>, tolerance: int, k: nat)
    requires k <= |values|
    ensures var best := MachineBest(values, tolerance, k);
            && (forall i :: 0 <= i < k ==> |MachineWithin(values, values[i], tolerance)| <= |best|)
            && (best != [] ==> exists i :: 0 <= i < k && best == MachineWithin(values, values[i], tolerance))
  {
    hide MachineWithin;
    if k > 0 {
      BestCluster(values, tolerance, k - 1);
      assert MachineBest(values, tolerance, k) == MachineWithin(values, values[k - 1], tolerance)
             || MachineBest(values, tolerance, k) == MachineBest(values, tolerance, k - 1);
    }
  }

  /** A large enough part of the answers has its median between two honest ones, however it was chosen. */
  lemma LargePartDecides(values: seq<int>, honest: seq<bool>, part: seq<int>, f: nat)
    requires |values| == |honest| && |values| - CountTrue(honest) <= f && |part| >= 2 * f + 1
    requires CountIf(part, x => x <= Median(part)) <= CountIf(values, x => x <= Median(part))
    requires CountIf(part, x => x >= Median(part)) <= CountIf(values, x => x >= Median(part))
    ensures exists i :: 0 <= i < |values| && honest[i] && values[i] <= Median(part)
    ensures exists j :: 0 <= j < |values| && honest[j] && Median(part) <= values[j]
  {
    hide Median, CountIf;
    var m := Median(part);
    MedianSplits(part);
    if forall j :: 0 <= j < |values| && honest[j] ==> !(values[j] <= m) {
      OnlyOthers(values, honest, x => x <= m);
      assert false;
    }
    if forall j :: 0 <= j < |values| && honest[j] ==> !(values[j] >= m) {
      OnlyOthers(values, honest, x => x >= m);
      assert false;
    }
  }

  /** The guarantee for an honest majority survives wrapping, whatever numbers the others send. */
  lemma HonestMajorityDecidesWrapped(values: seq<int>, honest: seq<bool>, tolerance: int, minAgree: nat, f: nat)
    requires |values| == |honest| && CountTrue(honest) >= 2 * f + 1 && |values| - CountTrue(honest) <= f
    requires AllI64(values) && tolerance < TWO63
    requires forall i, j :: 0 <= i < |values| && 0 <= j < |values| && honest[i] && honest[j] ==>
               Near(values[i], values[j], tolerance)
    requires 1 <= minAgree <= 2 * f + 1
    ensures var r := MachineAggregate(values, tolerance, minAgree);
            && r.Agreed?
            && (exists i :: 0 <= i < |values| && honest[i] && values[i] <= r.result.ms)
            && (exists j :: 0 <= j < |values| && honest[j] && r.result.ms <= values[j])
  {
    hide Median, CountIf, MachineWithin, MachineBest, MachineNear;
    SomeTrue(honest);
    var h :| 0 <= h < |honest| && honest[h];
    var c := values[h];
    forall i | 0 <= i < |values| && honest[i]
      ensures MachineNear(values[i], c, tolerance)
    {
      MachineNearExactly(values[i], c, tolerance);
    }
    AllHonest(values, honest, o => MachineNear(o, c, tolerance));
    ClusterIsPart(values, c, tolerance);
    BestCluster(values, tolerance, |values|);
    var best := MachineBest(values, tolerance, |values|);
    assert |best| >= 2 * f + 1;
    var i :| 0 <= i < |values| && best == MachineWithin(values, values[i], tolerance);
    var m := Median(best);
    ClusterCountIf(values, values[i], tolerance, x => x <= m);
    ClusterCountIf(values, values[i], tolerance, x => x >= m);
    LargePartDecides(values, honest, best, f);
  }
}

/** Aggregating the answers of several gateway peers: the largest tolerance cluster and its median for
    time, the most frequent content hash for HTTP. */
module Quorum {
  import opened Base

  datatype CacheControl = CacheControl(noStore: bool, maxAge: Option<nat>)

  datatype GatewayResult =
    | NtpResult(ms: int)
    | HttpResult(status: nat, contentHash: string, body: seq<nat>, cacheControl: Option<CacheControl>)

  datatype GatewayError = NoQuorum | CannotResolve | PeerFailed

  datatype Service = Ntp | Http(url: string)

  /** What aggregation ends in. Indexing the median of an empty cluster ends the computation. */
  datatype Aggregate = Agreed(result: GatewayResult) | Disagreed | IndexPanic

  // ---- Counting and sorting ----

  function CountIf(s: seq<int>, p: int -> bool): nat {
    if s == [] then 0 else (if p(s[0]) then 1 else 0) + CountIf(s[1..], p)
  }

  ghost predicate Ascending(s: seq<int>) {
    forall i, j :: 0 <= i < j < |s| ==> s[i] <= s[j]
  }

  function Insert(x: int, s: seq<int>): (r: seq<int>)
    requires Ascending(s)
    ensures Ascending(r) && |r| == |s| + 1
    ensures forall y :: y in r <==> y == x || y in s
  {
    if s == [] || x <= s[0] then [x] + s
    else
      var rest := Insert(x, s[1..]);
      assert forall i :: 0 <= i < |rest| ==> rest[i] in rest;
      [s[0]] + rest
  }

  function Sorted(s: seq<int>): (r: seq<int>)
    ensures Ascending(r) && |r| == |s|
    ensures forall y :: y in r <==> y in s
  {
    if s == [] then [] else Insert(s[0], Sorted(s[1..]))
  }

  lemma {:induction false} CountOfInsert(x: int, s: seq<int>, p: int -> bool)
    requires Ascending(s)
    ensures CountIf(Insert(x, s), p) == (if p(x) then 1 else 0) + CountIf(s, p)
  {
    var r := Insert(x, s);
    if s == [] || x <= s[0] {
      assert r[1..] == s;
    } else {
      CountOfInsert(x, s[1..], p);
      assert r[1..] == Insert(x, s[1..]);
    }
  }

  /** Sorting is a permutation: every property has as many instances before as after. */
  lemma {:induction false} CountOfSorted(s: seq<int>, p: int -> bool)
    ensures CountIf(Sorted(s), p) == CountIf(s, p)
  {
    if s != [] {
      CountOfSorted(s[1..], p);
      CountOfInsert(s[0], Sorted(s[1..]), p);
    }
  }

  lemma {:induction false} CountSplit(s: seq<int>, k: nat, p: int -> bool)
    requires k <= |s|
    ensures CountIf(s, p) == CountIf(s[..k], p) + CountIf(s[k..], p)
  {
    if k > 0 {
      CountSplit(s[1..], k - 1, p);
      assert s[1..][..k - 1] == s[..k][1..] && s[1..][k - 1..] == s[k..];
    }
  }

  lemma {:induction false} CountAll(s: seq<int>, p: int -> bool)
    requires forall i :: 0 <= i < |s| ==> p(s[i])
    ensures CountIf(s, p) == |s|
  {
    if s != [] {
      assert p(s[0]) && forall i :: 0 <= i < |s| - 1 ==> s[1..][i] == s[i + 1];
      CountAll(s[1..], p);
    }
  }

  // ---- Time: clusters and median ----

  predicate Near(o: int, v: int, tolerance: int)
    ensures Near(o, v, tolerance) <==> v - tolerance <= o <= v + tolerance
  {
    Abs(o - v) <= tolerance
  }

  /** The answers within the tolerance of `v`, in answer order. */
  function Within(values: seq<int>, v: int, tolerance: int): seq<int> {
    if values == [] then []
    else (if Near(values[0], v, tolerance) then [values[0]] else []) + Within(values[1..], v, tolerance)
  }

  /** The first largest cluster around one of the first `k` answers. */
  function Best(values: seq<int>, tolerance: int, k: nat): seq<int>
    requires k <= |values|
  {
    if k == 0 then []
    else
      var best := Best(values, tolerance, k - 1);
      var cluster := Within(values, values[k - 1], tolerance);
      if |cluster| > |best| then cluster else best
  }

  function Median(s: seq<int>): int
    requires s != []
  {
    Sorted(s)[|s| / 2]
  }

  function NtpAggregate(values: seq<int>, tolerance: int, minAgree: nat): Aggregate {
    var best := Best(values, tolerance, |values|);
    if |best| < minAgree then Disagreed
    else if best == [] then IndexPanic
    else Agreed(NtpResult(Median(best)))
  }

  method AggregateNtp(values: seq<int>, tolerance: int, minAgree: nat) returns (r: Aggregate)
    ensures r == NtpAggregate(values, tolerance, minAgree)
  {
    var best := [];
    for i := 0 to |values|
      invariant best == Best(values, tolerance, i)
    {
      var cluster := Cluster(values, values[i], tolerance);
      if |cluster| > |best| {
        best := cluster;
      }
    }
    if |best| < minAgree {
      return Disagreed;
    }
    var sorted := Sorted(best);
    if |sorted| / 2 >= |sorted| {
      return IndexPanic;
    }
    r := Agreed(NtpResult(sorted[|sorted| / 2]));
  }

  method Cluster(values: seq<int>, v: int, tolerance: int) returns (c: seq<int>)
    ensures c == Within(values, v, tolerance)
  {
    c := [];
    for i := 0 to |values|
      invariant c + Within(values[i..], v, tolerance) == Within(values, v, tolerance)
    {
      assert values[i..][1..] == values[i + 1..];
      if Near(values[i], v, tolerance) {
        c := c + [values[i]];
      }
    }
    assert c + [] == c;
  }

  lemma {:induction false} WithinCount(values: seq<int>, v: int, tolerance: int)
    ensures |Within(values, v, tolerance)| == CountIf(values, o => Near(o, v, tolerance))
    ensures forall o :: o in Within(values, v, tolerance) ==> o in values && Near(o, v, tolerance)
  {
    if values != [] {
      WithinCount(values[1..], v, tolerance);
    }
  }

  lemma {:induction false} WithinCountIf(values: seq<int>, v: int, tolerance: int, p: int -> bool)
    ensures CountIf(Within(values, v, tolerance), p) <= CountIf(values, p)
  {
    if values != [] {
      WithinCountIf(values[1..], v, tolerance, p);
      var c := Within(values, v, tolerance);
      if Near(values[0], v, tolerance) {
        assert c[1..] == Within(values[1..], v, tolerance);
      } else {
        assert c == Within(values[1..], v, tolerance);
      }
    }
  }

  /** The best cluster is the largest, and is the cluster of some answer unless all are empty. */
  lemma {:induction false} BestIsLargest(values: seq<int>, tolerance: int, k: nat)
    requires k <= |values|
    ensures var best := Best(values, tolerance, k);
            && (forall i :: 0 <= i < k ==> |Within(values, values[i], tolerance)| <= |best|)
            && (best != [] ==> exists i :: 0 <= i < k && best == Within(values, values[i], tolerance))
  {
    if k > 0 {
      BestIsLargest(values, tolerance, k - 1);
      assert Best(values, tolerance, k) == Within(values, values[k - 1], tolerance)
             || Best(values, tolerance, k) == Best(values, tolerance, k - 1);
    }
  }

  ghost predicate FirstLargest(values: seq<int>, tolerance: int, i: nat, best: seq<int>)
    requires i < |values|
  {
    && best == Within(values, values[i], tolerance)
    && forall j :: 0 <= j < i ==> |Within(values, values[j], tolerance)| < |best|
  }

  /** Of several largest clusters it is the one around the earliest answer. */
  lemma {:induction false} BestIsFirst(values: seq<int>, tolerance: int, k: nat) returns (i: nat)
    requires k <= |values| && Best(values, tolerance, k) != []
    ensures i < k && FirstLargest(values, tolerance, i, Best(values, tolerance, k))
  {
    hide Within;
    var earlier, cluster := Best(values, tolerance, k - 1), Within(values, values[k - 1], tolerance);
    if |cluster| > |earlier| {
      i := k - 1;
      ClustersAtMost(values, tolerance, k - 1);
    } else {
      i := BestIsFirst(values, tolerance, k - 1);
    }
  }

  lemma ClustersAtMost(values: seq<int>, tolerance: int, k: nat)
    requires k <= |values|
    ensures forall j :: 0 <= j < k ==> |Within(values, values[j], tolerance)| <= |Best(values, tolerance, k)|
  {
    hide Within, Best;
    BestIsLargest(values, tolerance, k);
  }

  /** For a positive threshold there is no quorum exactly when no answer has that many answers within
      the tolerance, itself included. */
  lemma NoQuorumExactly(values: seq<int>, tolerance: int, minAgree: nat)
    requires minAgree >= 1
    ensures NtpAggregate(values, tolerance, minAgree) == Disagreed <==>
            forall i :: 0 <= i < |values| ==> CountIf(values, o => Near(o, values[i], tolerance)) < minAgree
  {
    BestIsLargest(values, tolerance, |values|);
    forall i | 0 <= i < |values|
      ensures |Within(values, values[i], tolerance)| == CountIf(values, o => Near(o, values[i], tolerance))
    {
      WithinCount(values, values[i], tolerance);
    }
  }

  lemma {:induction false} CountNone(s: seq<int>, p: int -> bool)
    requires forall x :: !p(x)
    ensures CountIf(s, p) == 0
  {
    if s != [] {
      CountNone(s[1..], p);
    }
  }

  /** Aggregation panics exactly when no agreement is asked for and no cluster has a member. */
  lemma PanicsExactly(values: seq<int>, tolerance: int, minAgree: nat)
    ensures NtpAggregate(values, tolerance, minAgree) == IndexPanic <==>
            minAgree == 0 && (values == [] || tolerance < 0)
  {
    BestIsLargest(values, tolerance, |values|);
    if values != [] {
      WithinCount(values, values[0], tolerance);
      var best := Best(values, tolerance, |values|);
      if tolerance >= 0 {
        assert Within(values, values[0], tolerance) != [];
      } else {
        forall i | 0 <= i < |values|
          ensures Within(values, values[i], tolerance) == []
        {
          var c := values[i];
          WithinCount(values, c, tolerance);
          CountNone(values, o => Near(o, c, tolerance));
        }
      }
    }
  }

  lemma {:induction false} CountMonotone(s: seq<int>, p: int -> bool, q: int -> bool)
    requires forall x :: p(x) ==> q(x)
    ensures CountIf(s, p) <= CountIf(s, q)
  {
    if s != [] {
      CountMonotone(s[1..], p, q);
    }
  }

  lemma MedianIsMember(s: seq<int>)
    requires s != []
    ensures Median(s) in s
  {
    var r := Sorted(s);
    assert r[|s| / 2] in r;
  }

  lemma WiderAroundMember(values: seq<int>, c: int, m: int, tolerance: int)
    requires Near(m, c, tolerance)
    ensures CountIf(values, o => Near(o, c, tolerance)) <= CountIf(values, o => Near(o, m, 2 * tolerance))
  {
    CountMonotone(values, o => Near(o, c, tolerance), o => Near(o, m, 2 * tolerance));
  }

  /** An agreed time is one of the answers and has the required number of answers within twice the tolerance. */
  lemma AgreedTimeIsSupported(values: seq<int>, tolerance: int, minAgree: nat)
    requires NtpAggregate(values, tolerance, minAgree).Agreed?
    ensures var m := NtpAggregate(values, tolerance, minAgree).result.ms;
            m in values && CountIf(values, o => Near(o, m, 2 * tolerance)) >= minAgree
  {
    hide Median, CountIf, Within, Best;
    var best := Best(values, tolerance, |values|);
    BestIsLargest(values, tolerance, |values|);
    var i :| 0 <= i < |values| && best == Within(values, values[i], tolerance);
    WithinCount(values, values[i], tolerance);
    MedianIsMember(best);
    WiderAroundMember(values, values[i], Median(best), tolerance);
  }

  // ---- Byzantine answers ----

  function CountTrue(flags: seq<bool>): nat {
    if flags == [] then 0 else (if flags[0] then 1 else 0) + CountTrue(flags[1..])
  }

  /** If no honest answer has a property, at most the other answers have it. */
  lemma {:induction false} OnlyOthers(values: seq<int>, honest: seq<bool>, p: int -> bool)
    requires |values| == |honest| && forall i :: 0 <= i < |values| && honest[i] ==> !p(values[i])
    ensures CountIf(values, p) <= |values| - CountTrue(honest)
  {
    if values != [] {
      assert forall i :: 0 <= i < |values| - 1 ==> values[1..][i] == values[i + 1] && honest[1..][i] == honest[i + 1];
      OnlyOthers(values[1..], honest[1..], p);
    }
  }

  /** If every honest answer has a property, at least the honest answers have it. */
  lemma {:induction false} AllHonest(values: seq<int>, honest: seq<bool>, p: int -> bool)
    requires |values| == |honest| && forall i :: 0 <= i < |values| && honest[i] ==> p(values[i])
    ensures CountIf(values, p) >= CountTrue(honest)
  {
    if values != [] {
      assert forall i :: 0 <= i < |values| - 1 ==> values[1..][i] == values[i + 1] && honest[1..][i] == honest[i + 1];
      AllHonest(values[1..], honest[1..], p);
    }
  }

  lemma PrefixCounts(r: seq<int>, k: nat)
    requires Ascending(r) && k < |r|
    ensures CountIf(r, x => x <= r[k]) >= k + 1
    ensures CountIf(r, x => x >= r[k]) >= |r| - k
  {
    var m := r[k];
    CountSplit(r, k + 1, x => x <= m);
    CountSplit(r, k, x => x >= m);
    CountAll(r[..k + 1], x => x <= m);
    CountAll(r[k..], x => x >= m);
  }

  /** Half of a list, rounded up, lies on either side of its median, the median included. */
  lemma MedianSplits(s: seq<int>)
    requires s != []
    ensures CountIf(s, x => x <= Median(s)) >= |s| / 2 + 1
    ensures CountIf(s, x => x >= Median(s)) >= |s| - |s| / 2
  {
    hide CountIf, Ascending;
    var m := Median(s);
    CountOfSorted(s, x => x <= m);
    CountOfSorted(s, x => x >= m);
    PrefixCounts(Sorted(s), |s| / 2);
  }

  lemma {:induction false} SomeTrue(flags: seq<bool>)
    requires CountTrue(flags) > 0
    ensures exists i :: 0 <= i < |flags| && flags[i]
  {
    if !flags[0] {
      SomeTrue(flags[1..]);
      var i :| 0 <= i < |flags| - 1 && flags[1..][i];
      assert flags[i + 1];
    }
  }

  /** With at least 2f+1 honest answers pairwise within the tolerance and at most f arbitrary ones, any
      threshold up to 2f+1 is met, and the agreed time lies between two honest answers. */
  lemma HonestMajorityDecides(values: seq<int>, honest: seq<bool>, tolerance: int, minAgree: nat, f: nat)
    requires |values| == |honest| && CountTrue(honest) >= 2 * f + 1 && |values| - CountTrue(honest) <= f
    requires forall i, j :: 0 <= i < |values| && 0 <= j < |values| && honest[i] && honest[j] ==>
               Near(values[i], values[j], tolerance)
    requires 1 <= minAgree <= 2 * f + 1
    ensures var r := NtpAggregate(values, tolerance, minAgree);
            && r.Agreed?
            && (exists i :: 0 <= i < |values| && honest[i] && values[i] <= r.result.ms)
            && (exists j :: 0 <= j < |values| && honest[j] && r.result.ms <= values[j])
  {
    hide Median, CountIf, Within, Best;
    SomeTrue(honest);
    var h :| 0 <= h < |honest| && honest[h];
    var c := values[h];
    AllHonest(values, honest, o => Near(o, c, tolerance));
    WithinCount(values, c, tolerance);
    BestIsLargest(values, tolerance, |values|);
    var best := Best(values, tolerance, |values|);
    assert |best| >= 2 * f + 1;
    var i :| 0 <= i < |values| && best == Within(values, values[i], tolerance);
    var m := Median(best);
    MedianSplits(best);
    WithinCountIf(values, values[i], tolerance, x => x <= m);
    WithinCountIf(values, values[i], tolerance, x => x >= m);
    if forall j :: 0 <= j < |values| && honest[j] ==> !(values[j] <= m) {
      OnlyOthers(values, honest, x => x <= m);
      assert false;
    }
    if forall j :: 0 <= j < |values| && honest[j] ==> !(values[j] >= m) {
      OnlyOthers(values, honest, x => x >= m);
      assert false;
    }
  }

  // ---- HTTP: the most frequent content hash ----

  /** The HTTP answers with content hash `h`, in answer order. */
  function Group(oks: seq<GatewayResult>, h: string): seq<GatewayResult> {
    if oks == [] then []
    else
      var last := oks[|oks| - 1];
      var earlier := Group(oks[..|oks| - 1], h);
      if last.HttpResult? && last.contentHash == h then earlier + [last] else earlier
  }

  /** What HTTP aggregation may return: the first answer of a largest group that is large enough, or
      no quorum when there is no such group. Which of several largest groups is left open. */
  ghost predicate HttpAggregate(oks: seq<GatewayResult>, minAgree: nat, r: Aggregate) {
    match r
    case Agreed(x) =>
      && x.HttpResult?
      && var group := Group(oks, x.contentHash);
      && group != [] && x == group[0] && |group| >= minAgree
      && forall h :: |Group(oks, h)| <= |group|
    case Disagreed => forall h :: |Group(oks, h)| < Max(minAgree, 1)
    case IndexPanic => false
  }

  method AggregateHttp(oks: seq<GatewayResult>, minAgree: nat) returns (r: Aggregate)
    ensures HttpAggregate(oks, minAgree, r)
  {
    var groups: map<string, seq<GatewayResult>> := map[];
    for i := 0 to |oks|
      invariant forall h :: h in groups <==> Group(oks[..i], h) != []
      invariant forall h :: h in groups ==> groups[h] == Group(oks[..i], h)
    {
      assert oks[..i + 1][..i] == oks[..i];
      if oks[i].HttpResult? {
        var h := oks[i].contentHash;
        groups := groups[h := (if h in groups then groups[h] else []) + [oks[i]]];
      }
    }
    assert oks[..|oks|] == oks;
    if groups.Keys == {} {
      forall h
        ensures Group(oks, h) == []
      {
        assert h !in groups.Keys;
      }
      return Disagreed;
    }
    var best := LargestGroup(groups);
    assert forall h :: |Group(oks, h)| <= |groups[best]|;
    if |groups[best]| < minAgree {
      return Disagreed;
    }
    GroupMembers(oks, best);
    r := Agreed(groups[best][0]);
  }

  method LargestGroup(groups: map<string, seq<GatewayResult>>) returns (best: string)
    requires groups.Keys != {}
    ensures best in groups && forall h :: h in groups ==> |groups[h]| <= |groups[best]|
  {
    var rest := groups.Keys;
    best :| best in rest;
    while rest != {}
      invariant rest <= groups.Keys && best in groups
      invariant forall h :: h in groups && h !in rest ==> |groups[h]| <= |groups[best]|
      decreases rest
    {
      var h :| h in rest;
      if |groups[h]| >= |groups[best]| {
        best := h;
      }
      rest := rest - {h};
    }
  }

  lemma {:induction false} GroupMembers(oks: seq<GatewayResult>, h: string)
    ensures forall x :: x in Group(oks, h) ==> x in oks && x.HttpResult? && x.contentHash == h
  {
    if oks != [] {
      GroupMembers(oks[..|oks| - 1], h);
    }
  }

  // ---- Dispatch ----

  function Oks(outcomes: seq<Result<GatewayResult, GatewayError>>): seq<GatewayResult> {
    if outcomes == [] then []
    else
      var earlier := Oks(outcomes[..|outcomes| - 1]);
      match outcomes[|outcomes| - 1]
      case Ok(v) => earlier + [v]
      case Err(_) => earlier
  }

  function Times(oks: seq<GatewayResult>): seq<int> {
    if oks == [] then []
    else
      var earlier := Times(oks[..|oks| - 1]);
      match oks[|oks| - 1]
      case NtpResult(ms) => earlier + [ms]
      case HttpResult(_, _, _, _) => earlier
  }

  /** The outcomes aggregation may give for these answers. */
  ghost predicate Aggregates(
    service: Service, outcomes: seq<Result<GatewayResult, GatewayError>>, tolerance: int, minAgree: nat, r: Aggregate)
  {
    match service
    case Ntp => r == NtpAggregate(Times(Oks(outcomes)), tolerance, minAgree)
    case Http(_) => HttpAggregate(Oks(outcomes), minAgree, r)
  }

  method AggregateQuorum(
    service: Service, outcomes: seq<Result<GatewayResult, GatewayError>>, tolerance: int, minAgree: nat)
    returns (r: Aggregate)
    ensures Aggregates(service, outcomes, tolerance, minAgree, r)
  {
    var oks := [];
    for i := 0 to |outcomes|
      invariant oks == Oks(outcomes[..i])
    {
      assert outcomes[..i + 1][..i] == outcomes[..i];
      if outcomes[i].Ok? {
        oks := oks + [outcomes[i].value];
      }
    }
    assert outcomes[..|outcomes|] == outcomes;
    match service
    case Ntp =>
      var values := [];
      for i := 0 to |oks|
        invariant values == Times(oks[..i])
      {
        assert oks[..i + 1][..i] == oks[..i];
        if oks[i].NtpResult? {
          values := values + [oks[i].ms];
        }
      }
      assert oks[..|oks|] == oks;
      r := AggregateNtp(values, tolerance, minAgree);
    case Http(_) =>
      r := AggregateHttp(oks, minAgree);
  }

  /** For a positive threshold an HTTP result shares its content hash with at least that many answers,
      no hash is more frequent, and there is a result exactly when some hash is that frequent. */
  lemma HttpAgreement(oks: seq<GatewayResult>, minAgree: nat, r: Aggregate)
    requires HttpAggregate(oks, minAgree, r) && minAgree >= 1
    ensures r.Agreed? <==> exists h :: |Group(oks, h)| >= minAgree
    ensures r.Agreed? ==> r.result in oks && r.result.HttpResult?
                          && |Group(oks, r.result.contentHash)| >= minAgree
                          && forall h :: |Group(oks, h)| <= |Group(oks, r.result.contentHash)|
  {
    if r.Agreed? {
      GroupMembers(oks, r.result.contentHash);
      assert |Group(oks, r.result.contentHash)| >= minAgree;
    }
  }
}

/** The fixed-window rate limiter that drops expired windows once it tracks many keys. Times are
    nanoseconds of one clock. */
module RateLimiter {
  import opened Base

  const WINDOW: nat := 60_000_000_000
  const MAX_REQUESTS_PER_WINDOW: nat := 120
  const SWEEP_THRESHOLD: nat := 10_000

  /** Without a threshold the limiter never sweeps. */
  datatype Config = Config(window: nat, max: nat, threshold: Option<nat>)

  const DEFAULT: Config := Config(WINDOW, MAX_REQUESTS_PER_WINDOW, Some(SWEEP_THRESHOLD))

  datatype Entry = Entry(started: int, count: nat)

  datatype Request = Request(key: string, at: int)

  type Windows = map<string, Entry>

  function Live(w: Windows, now: int, window: nat): Windows {
    map k | k in w && now - w[k].started <= window :: w[k]
  }

  function Swept(c: Config, w: Windows, now: int): Windows {
    if c.threshold.Some? && |w| > c.threshold.value then Live(w, now, c.window) else w
  }

  /** The key's window with one more request in it, or a new window when there is none or it has expired. */
  function Counted(c: Config, w: Windows, r: Request): Entry {
    if r.key in w && r.at - w[r.key].started <= c.window then Entry(w[r.key].started, w[r.key].count + 1)
    else Entry(r.at, 1)
  }

  function After(c: Config, w: Windows, r: Request): Windows {
    var s := Swept(c, w, r.at);
    s[r.key := Counted(c, s, r)]
  }

  predicate Granted(c: Config, w: Windows, r: Request) {
    Counted(c, Swept(c, w, r.at), r).count <= c.max
  }

  class Limiter {
    const config: Config
    var windows: Windows
    /** Every request so far. */
    ghost var history: seq<Request>

    ghost predicate Valid()
      reads this
    {
      windows == State(config, history)
    }

    constructor (config: Config)
      ensures Valid() && this.config == config && history == []
    {
      this.config, windows, history := config, map[], [];
    }

    method Check(key: string, now: int) returns (granted: bool)
      requires Valid()
      modifies this
      ensures Valid() && history == old(history) + [Request(key, now)]
      ensures granted == Granted(config, old(windows), Request(key, now))
    {
      hide State, Live;
      GrantsOneMore(config, history, Request(key, now), key, now, now);
      if config.threshold.Some? && |windows| > config.threshold.value {
        windows := Live(windows, now, config.window);
      }
      var entry := if key in windows then windows[key] else Entry(now, 0);
      if now - entry.started > config.window {
        entry := Entry(now, 0);
      }
      entry := entry.(count := entry.count + 1);
      windows := windows[key := entry];
      history := history + [Request(key, now)];
      granted := entry.count <= config.max;
    }
  }

  // ---- Runs ----

  function State(c: Config, rs: seq<Request>): Windows {
    if rs == [] then map[] else After(c, State(c, rs[..|rs| - 1]), rs[|rs| - 1])
  }

  ghost predicate Ordered(rs: seq<Request>) {
    forall i, j :: 0 <= i < j < |rs| ==> rs[i].at <= rs[j].at
  }

  /** How many of the requests `key` made from `from` to `to` were granted. */
  function Grants(c: Config, rs: seq<Request>, key: string, from: int, to: int): nat {
    if rs == [] then 0
    else
      var before, r := rs[..|rs| - 1], rs[|rs| - 1];
      Grants(c, before, key, from, to)
      + if r.key == key && from <= r.at <= to && Granted(c, State(c, before), r) then 1 else 0
  }

  // ---- Sweeping changes no answer ----

  function NoSweep(c: Config): Config {
    c.(threshold := None)
  }

  /** `w` is `full` without some windows that have expired by `now`. */
  ghost predicate OnlyExpiredMissing(w: Windows, full: Windows, now: int, window: nat) {
    && (forall k :: k in w ==> k in full && w[k] == full[k])
    && (forall k :: k in full && k !in w ==> now - full[k].started > window)
  }

  lemma StepAgrees(c: Config, w: Windows, full: Windows, r: Request)
    requires OnlyExpiredMissing(w, full, r.at, c.window)
    ensures Granted(c, w, r) == Granted(NoSweep(c), full, r)
    ensures OnlyExpiredMissing(After(c, w, r), After(NoSweep(c), full, r), r.at, c.window)
  {
  }

  lemma {:induction false} SweepAgrees(c: Config, rs: seq<Request>, now: int)
    requires Ordered(rs) && forall i :: 0 <= i < |rs| ==> rs[i].at <= now
    ensures OnlyExpiredMissing(State(c, rs), State(NoSweep(c), rs), now, c.window)
  {
    if rs != [] {
      var before, r := rs[..|rs| - 1], rs[|rs| - 1];
      SweepAgrees(c, before, r.at);
      StepAgrees(c, State(c, before), State(NoSweep(c), before), r);
    }
  }

  /** For a clock that does not run backwards, sweeping and not sweeping give the same answer to every request. */
  lemma SweepingChangesNoAnswer(c: Config, rs: seq<Request>, i: nat)
    requires Ordered(rs) && i < |rs|
    ensures Granted(c, State(c, rs[..i]), rs[i]) == Granted(NoSweep(c), State(NoSweep(c), rs[..i]), rs[i])
  {
    hide Granted, State, After;
    SweepAgrees(c, rs[..i], rs[i].at);
    StepAgrees(c, State(c, rs[..i]), State(NoSweep(c), rs[..i]), rs[i]);
  }

  lemma {:induction false} SameGrants(c: Config, rs: seq<Request>, key: string, from: int, to: int)
    requires Ordered(rs)
    ensures Grants(c, rs, key, from, to) == Grants(NoSweep(c), rs, key, from, to)
  {
    hide Granted, State;
    if rs != [] {
      SameGrants(c, rs[..|rs| - 1], key, from, to);
      SweepingChangesNoAnswer(c, rs, |rs| - 1);
    }
  }

  // ---- A key answers for itself alone ----

  /** The requests of one key, in order. */
  function Own(rs: seq<Request>, key: string): seq<Request> {
    if rs == [] then []
    else
      var earlier, last := Own(rs[..|rs| - 1], key), rs[|rs| - 1];
      if last.key == key then earlier + [last] else earlier
  }

  lemma {:induction false} OwnWindow(c: Config, rs: seq<Request>, key: string)
    requires c.threshold.None?
    ensures var w, o := State(c, rs), State(c, Own(rs, key));
            (key in w <==> key in o) && (key in w ==> w[key] == o[key])
  {
    if rs != [] {
      var earlier, last := rs[..|rs| - 1], rs[|rs| - 1];
      OwnWindow(c, earlier, key);
      if last.key == key {
        GrantsOneMore(c, Own(earlier, key), last, key, 0, 0);
      }
    }
  }

  /** For a clock that does not run backwards, whether a request is granted depends on the earlier requests of its
      own key alone, swept or not: nobody is charged for another's requests. */
  lemma OnlyOwnRequestsCount(c: Config, rs: seq<Request>, r: Request)
    requires Ordered(rs + [r])
    ensures Granted(c, State(c, rs), r) == Granted(NoSweep(c), State(NoSweep(c), Own(rs, r.key)), r)
  {
    hide State;
    var all := rs + [r];
    assert all[..|rs|] == rs && all[|rs|] == r;
    SweepingChangesNoAnswer(c, all, |rs|);
    OwnWindow(NoSweep(c), rs, r.key);
  }

  /** How many of the requests are the key's, made at `from` or later. */
  function MadeSince(rs: seq<Request>, key: string, from: int): nat {
    if rs == [] then 0
    else
      var last := rs[|rs| - 1];
      MadeSince(rs[..|rs| - 1], key, from) + if last.key == key && last.at >= from then 1 else 0
  }

  lemma {:induction false} MadeSinceEarlier(rs: seq<Request>, key: string, from: int, earlier: int)
    requires earlier <= from
    ensures MadeSince(rs, key, from) <= MadeSince(rs, key, earlier)
  {
    if rs != [] {
      MadeSinceEarlier(rs[..|rs| - 1], key, from, earlier);
    }
  }

  lemma {:induction false} CountIsMade(c: Config, rs: seq<Request>, key: string)
    requires c.threshold.None? && Ordered(rs) && key in State(c, rs)
    ensures var e := State(c, rs)[key];
            rs != [] && e.count <= MadeSince(rs, key, e.started) && e.started <= rs[|rs| - 1].at
  {
    var earlier, last := rs[..|rs| - 1], rs[|rs| - 1];
    assert forall i :: 0 <= i < |earlier| ==> earlier[i] == rs[i];
    if key in State(c, earlier) {
      CountIsMade(c, earlier, key);
      assert earlier[|earlier| - 1].at <= last.at;
    }
  }

  /** Only who has used up the limit within the last window is refused. */
  lemma RefusedAfterLimit(c: Config, rs: seq<Request>, r: Request)
    requires Ordered(rs + [r]) && !Granted(c, State(c, rs), r)
    ensures MadeSince(rs, r.key, r.at - c.window) >= c.max
  {
    hide State;
    var all, d := rs + [r], NoSweep(c);
    assert all[..|rs|] == rs && all[|rs|] == r;
    SweepingChangesNoAnswer(c, all, |rs|);
    var w := State(d, rs);
    if r.key in w && r.at - w[r.key].started <= c.window {
      assert forall i, j :: 0 <= i < j < |rs| ==> rs[i] == all[i] && rs[j] == all[j];
      CountIsMade(d, rs, r.key);
      MadeSinceEarlier(rs, r.key, w[r.key].started, r.at - c.window);
    }
  }

  // ---- How much a key is granted ----

  /** Grants of a key from `a` to `a + window`, by where its current window started. A window started before
      `a` has spent a request outside the interval. */
  ghost predicate Spent(c: Config, w: Windows, key: string, a: int, last: int, g: nat) {
    && (last < a || key !in w ==> g == 0)
    && (key in w ==>
          var e := w[key];
          && e.count >= 1 && e.started <= last
          && g <= if e.started < a then Max(0, Min(e.count, c.max) - 1)
                  else if e.started <= a + c.window then Max(0, c.max - 1) + Min(e.count, c.max)
                  else Max(0, 2 * c.max - 1))
  }

  lemma StepSpends(c: Config, w: Windows, key: string, a: int, last: int, g: nat, r: Request)
    requires c.threshold.None? && last <= r.at && Spent(c, w, key, a, last, g)
    ensures Spent(c, After(c, w, r), key, a, r.at,
                  g + if r.key == key && a <= r.at <= a + c.window && Granted(c, w, r) then 1 else 0)
  {
  }

  lemma {:induction false} GrantsSpent(c: Config, rs: seq<Request>, key: string, a: int, last: int)
    requires c.threshold.None? && Ordered(rs) && forall i :: 0 <= i < |rs| ==> rs[i].at <= last
    ensures Spent(c, State(c, rs), key, a, last, Grants(c, rs, key, a, a + c.window))
  {
    if rs != [] {
      var before, r := rs[..|rs| - 1], rs[|rs| - 1];
      GrantsSpent(c, before, key, a, r.at);
      hide Granted, After;
      StepSpends(c, State(c, before), key, a, r.at, Grants(c, before, key, a, a + c.window), r);
    }
  }

  /** In any interval of one window's length a key is granted fewer than twice the limit. */
  lemma GrantBound(c: Config, rs: seq<Request>, key: string, a: int)
    requires Ordered(rs)
    ensures Grants(c, rs, key, a, a + c.window) <= Max(0, 2 * c.max - 1)
  {
    hide Grants, State;
    SameGrants(c, rs, key, a, a + c.window);
    var last := if rs == [] then a else rs[|rs| - 1].at;
    GrantsSpent(NoSweep(c), rs, key, a, last);
  }

  /** With the built-in limits: at most 239 requests of a key in any minute. */
  lemma DefaultGrantBound(rs: seq<Request>, key: string, a: int)
    requires Ordered(rs)
    ensures Grants(DEFAULT, rs, key, a, a + WINDOW) <= 239
  {
    hide Grants;
    GrantBound(DEFAULT, rs, key, a);
  }

  function Burst(key: string, at: int, n: nat): (b: seq<Request>)
    ensures |b| == n && forall i :: 0 <= i < n ==> b[i] == Request(key, at)
  {
    seq(n, _ => Request(key, at))
  }

  lemma GrantsOneMore(c: Config, rs: seq<Request>, r: Request, key: string, from: int, to: int)
    ensures State(c, rs + [r]) == After(c, State(c, rs), r)
    ensures Grants(c, rs + [r], key, from, to)
            == Grants(c, rs, key, from, to)
               + if r.key == key && from <= r.at <= to && Granted(c, State(c, rs), r) then 1 else 0
  {
    assert (rs + [r])[..|rs|] == rs;
  }

  /** A burst inside an open window is granted up to the limit. */
  lemma {:induction false} BurstGrants(c: Config, rs: seq<Request>, key: string, at: int, n: nat, from: int, to: int)
    requires c.threshold.None? && key in State(c, rs) && at - State(c, rs)[key].started <= c.window && from <= at <= to
    ensures var w, u := State(c, rs), State(c, rs + Burst(key, at, n));
            && key in u && u[key] == Entry(w[key].started, w[key].count + n)
            && Grants(c, rs + Burst(key, at, n), key, from, to)
               == Grants(c, rs, key, from, to) + Min(w[key].count + n, c.max) - Min(w[key].count, c.max)
  {
    hide State, Grants;
    if n == 0 {
      assert rs + Burst(key, at, 0) == rs;
    } else {
      BurstGrants(c, rs, key, at, n - 1, from, to);
      assert rs + Burst(key, at, n) == rs + Burst(key, at, n - 1) + [Request(key, at)];
      GrantsOneMore(c, rs + Burst(key, at, n - 1), Request(key, at), key, from, to);
    }
  }

  /** No smaller bound holds: some requests reach it, for every limit and every window longer than nothing. */
  lemma GrantBoundIsAttained(c: Config, key: string)
    requires c.max >= 1 && c.window >= 1
    ensures exists rs :: Ordered(rs) && Grants(c, rs, key, 1, 1 + c.window) == 2 * c.max - 1
  {
    hide Grants, State;
    var d, w := NoSweep(c), c.window;
    var first := [Request(key, 0)];
    var second := first + Burst(key, w, c.max - 1);
    var third := second + [Request(key, 1 + w)];
    var all := third + Burst(key, 1 + w, c.max - 1);
    assert first == [] + [Request(key, 0)];
    Nothing(d, key, 1, 1 + w);
    GrantsOneMore(d, [], Request(key, 0), key, 1, 1 + w);
    BurstGrants(d, first, key, w, c.max - 1, 1, 1 + w);
    GrantsOneMore(d, second, Request(key, 1 + w), key, 1, 1 + w);
    BurstGrants(d, third, key, 1 + w, c.max - 1, 1, 1 + w);
    assert Ordered(all);
    SameGrants(c, all, key, 1, 1 + w);
  }

  lemma Nothing(c: Config, key: string, from: int, to: int)
    ensures Grants(c, [], key, from, to) == 0 && State(c, []) == map[]
  {
  }

  // ---- How many keys are tracked ----

  /** The keys with a request at or after `from`. */
  ghost function Recent(rs: seq<Request>, from: int): set<string> {
    set i | 0 <= i < |rs| && rs[i].at >= from :: rs[i].key
  }

  ghost predicate Starts(rs: seq<Request>, k: string, at: int) {
    exists i :: 0 <= i < |rs| && rs[i] == Request(k, at)
  }

  lemma {:induction false} WindowsStartWithRequests(c: Config, rs: seq<Request>)
    ensures forall k :: k in State(c, rs) ==> Starts(rs, k, State(c, rs)[k].started)
  {
    if rs != [] {
      var before, r := rs[..|rs| - 1], rs[|rs| - 1];
      WindowsStartWithRequests(c, before);
      var w, u := State(c, before), State(c, rs);
      forall k | k in u
        ensures Starts(rs, k, u[k].started)
      {
        if k in w && u[k].started == w[k].started {
          var i :| 0 <= i < |before| && before[i] == Request(k, w[k].started);
          assert rs[i] == before[i];
        }
      }
    }
  }

  /** After any request the limiter tracks at most one key more than the threshold or the keys active in
      the last window, whichever is more. */
  lemma TrackedKeys(c: Config, rs: seq<Request>, r: Request)
    requires c.threshold.Some?
    ensures |State(c, rs + [r]).Keys| <= Max(c.threshold.value, |Recent(rs, r.at - c.window)|) + 1
  {
    hide State, Counted;
    GrantsOneMore(c, rs, r, r.key, 0, 0);
    WindowsStartWithRequests(c, rs);
    var w := State(c, rs);
    var s := Swept(c, w, r.at);
    assert After(c, w, r).Keys == s.Keys + {r.key};
    if |w| > c.threshold.value {
      forall k | k in s.Keys
        ensures k in Recent(rs, r.at - c.window)
      {
        var i :| 0 <= i < |rs| && rs[i] == Request(k, w[k].started);
        assert rs[i].at >= r.at - c.window;
      }
      SubsetSize(s.Keys, Recent(rs, r.at - c.window));
    } else {
      assert |w| == |w.Keys|;
    }
  }
}

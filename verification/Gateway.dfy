/** Resolving a gateway query: a cache of quorum-verified answers, then a fan-out with quorum, then an
    own upstream, then a relay. Times are nanoseconds of one monotonic clock. */
module Gateway {
  import opened Base
  import opened Quorum
  import opened Fanout

  datatype ServedFrom = Cache | FromQuorum | Origin | Relayed

  datatype Resolved = Resolved(result: GatewayResult, servedFrom: ServedFrom)

  datatype Resolution = Answer(resolved: Resolved) | Failure(error: GatewayError) | Panic

  datatype Config = Config(
    fanoutCount: nat, quorumMinAgree: nat, ntpToleranceMs: int, ntpCacheTtlMs: int,
    httpDefaultCacheTtlMs: int, httpMaxCacheTtlMs: int)

  datatype CacheEntry = CacheEntry(result: GatewayResult, computedAt: nat, ttl: nat)

  const NANOS_PER_MILLI: nat := 1_000_000
  const U64_MAX: nat := 0xFFFF_FFFF_FFFF_FFFF

  function CacheKey(service: Service): string {
    match service
    case Ntp => "ntp"
    case Http(url) => "http:" + url
  }

  lemma CacheKeyInjective(s: Service, t: Service)
    ensures CacheKey(s) == CacheKey(t) <==> s == t
  {
    if s.Http? {
      assert CacheKey(s)[0] == 'h' && CacheKey(s)[5..] == s.url;
    }
    if t.Http? {
      assert CacheKey(t)[0] == 'h' && CacheKey(t)[5..] == t.url;
    }
  }

  /** A cached time moves on with the clock; other content does not. */
  function AdjustForElapsed(result: GatewayResult, elapsed: nat): GatewayResult {
    match result
    case NtpResult(ms) => NtpResult(ms + elapsed / NANOS_PER_MILLI)
    case HttpResult(_, _, _, _) => result
  }

  function TtlMillis(service: Service, result: GatewayResult, config: Config): nat {
    match (service, result)
    case (Ntp, _) => Max(config.ntpCacheTtlMs, 0)
    case (Http(_), HttpResult(_, _, _, cacheControl)) =>
      if cacheControl.Some? && cacheControl.value.noStore then 0
      else if cacheControl.Some? && cacheControl.value.maxAge.Some? then
        Min(Min(cacheControl.value.maxAge.value * 1000, U64_MAX), Max(config.httpMaxCacheTtlMs, 0))
      else Max(config.httpDefaultCacheTtlMs, 0)
    case (Http(_), NtpResult(_)) => 0
  }

  /** Ageing in two steps is ageing once; content does not age. */
  lemma AgeingAdds(result: GatewayResult, a: nat, b: nat)
    ensures AdjustForElapsed(AdjustForElapsed(result, a * NANOS_PER_MILLI), b)
            == AdjustForElapsed(result, a * NANOS_PER_MILLI + b)
    ensures AdjustForElapsed(result, 0) == result
    ensures result.HttpResult? ==> AdjustForElapsed(result, a) == result
  {
    if result.NtpResult? {
      assert (a * NANOS_PER_MILLI + b) / NANOS_PER_MILLI == a + b / NANOS_PER_MILLI;
    }
  }

  function FanoutSize(config: Config, queryPeers: nat): nat {
    if config.fanoutCount == 0 then queryPeers else Min(config.fanoutCount, queryPeers)
  }

  /** A front end starts only with enough peers to ask. */
  predicate QuorumCapable(config: Config, queryPeers: nat) {
    queryPeers >= config.quorumMinAgree
  }

  /** A quorum success: when it was decided, on which answers, and how long it may be served. */
  datatype Verified = Verified(service: Service, answers: Answers, result: GatewayResult, at: nat, ttl: nat)

  /** The answers it was decided on are those of the peers asked. */
  ghost predicate IsQuorumSuccess(v: Verified, config: Config, queryPeers: nat) {
    && |v.answers| == FanoutSize(config, queryPeers)
    && Aggregates(v.service, v.answers, config.ntpToleranceMs, config.quorumMinAgree, Agreed(v.result))
    && v.ttl == TtlMillis(v.service, v.result, config) * NANOS_PER_MILLI
  }

  /** `v` is served at `now`: it is for this service, younger than its lifetime, and shifted by its age. */
  ghost predicate ServedAt(v: Verified, service: Service, now: nat, result: GatewayResult) {
    && v.service == service
    && v.at <= now < v.at + v.ttl
    && result == AdjustForElapsed(v.result, now - v.at)
  }

  ghost predicate Backs(v: Verified, k: string, e: CacheEntry) {
    CacheKey(v.service) == k && e == CacheEntry(v.result, v.at, v.ttl)
  }

  /** The entry under `k` is some recorded success, with a lifetime of more than nothing. */
  ghost predicate Backed(successes: seq<Verified>, k: string, e: CacheEntry) {
    e.ttl > 0 && exists i :: 0 <= i < |successes| && Backs(successes[i], k, e)
  }

  ghost predicate AllSuccesses(successes: seq<Verified>, config: Config, queryPeers: nat, clock: nat) {
    forall i :: 0 <= i < |successes| ==> IsQuorumSuccess(successes[i], config, queryPeers) && successes[i].at <= clock
  }

  // ---- The latest success of a service ----

  /** The last success of the service that may be served at all. */
  ghost function Latest(successes: seq<Verified>, service: Service): Option<Verified> {
    if successes == [] then None
    else
      var last := successes[|successes| - 1];
      if last.service == service && last.ttl > 0 then Some(last) else Latest(successes[..|successes| - 1], service)
  }

  ghost function Kept(v: Option<Verified>): Option<CacheEntry> {
    if v.Some? then Some(CacheEntry(v.value.result, v.value.at, v.value.ttl)) else None
  }

  function Lookup(entries: map<string, CacheEntry>, k: string): Option<CacheEntry> {
    if k in entries then Some(entries[k]) else None
  }

  /** The cache holds exactly the latest success of each service. */
  ghost predicate InSync(entries: map<string, CacheEntry>, successes: seq<Verified>) {
    forall service :: Lookup(entries, CacheKey(service)) == Kept(Latest(successes, service))
  }

  /** What a success says at `now`: nothing once its lifetime is over. */
  ghost function ServedNow(v: Option<Verified>, now: nat): Option<GatewayResult> {
    if v.Some? && v.value.at <= now < v.value.at + v.value.ttl
    then Some(AdjustForElapsed(v.value.result, now - v.value.at)) else None
  }

  lemma {:induction false} LatestIsSuccess(successes: seq<Verified>, service: Service)
    requires Latest(successes, service).Some?
    ensures Latest(successes, service).value in successes && Latest(successes, service).value.service == service
  {
    var last := successes[|successes| - 1];
    if !(last.service == service && last.ttl > 0) {
      LatestIsSuccess(successes[..|successes| - 1], service);
    }
  }

  /** A new success replaces the entry of its own service, if it may be served, and no other. */
  lemma PutKeepsSync(entries: map<string, CacheEntry>, successes: seq<Verified>, v: Verified)
    requires InSync(entries, successes)
    ensures InSync(if v.ttl == 0 then entries else entries[CacheKey(v.service) := CacheEntry(v.result, v.at, v.ttl)],
                   successes + [v])
  {
    var after := if v.ttl == 0 then entries else entries[CacheKey(v.service) := CacheEntry(v.result, v.at, v.ttl)];
    forall service
      ensures Lookup(after, CacheKey(service)) == Kept(Latest(successes + [v], service))
    {
      CacheKeyInjective(service, v.service);
      assert (successes + [v])[..|successes|] == successes;
      assert Lookup(entries, CacheKey(service)) == Kept(Latest(successes, service));
    }
  }

  /** The latest success of a page's address, as served: exactly while its header and the settings permit. */
  lemma LatestPageServed(
    successes: seq<Verified>, config: Config, queryPeers: nat, clock: nat, service: Service, now: nat)
    requires AllSuccesses(successes, config, queryPeers, clock) && clock <= now && service.Http?
    requires config.httpMaxCacheTtlMs <= U64_MAX
    ensures PageServed(Latest(successes, service), config, now, ServedNow(Latest(successes, service), now))
  {
    hide IsQuorumSuccess, MayBeServed, Latest;
    if Latest(successes, service).Some? {
      LatestIsSuccess(successes, service);
      var v := Latest(successes, service).value;
      ServedContentExactly(v, config, queryPeers, service, now, v.result);
    }
  }

  lemma LatestTimeServed(
    successes: seq<Verified>, config: Config, queryPeers: nat, clock: nat, service: Service, now: nat)
    requires AllSuccesses(successes, config, queryPeers, clock) && clock <= now && service.Ntp?
    ensures TimeServed(Latest(successes, service), config, now, ServedNow(Latest(successes, service), now))
  {
    hide Latest, Aggregates, Support;
    if Latest(successes, service).Some? {
      LatestIsSuccess(successes, service);
      var v := Latest(successes, service).value;
      assert IsQuorumSuccess(v, config, queryPeers);
      AgreementNeedsSupport(v.service, v.answers, config.ntpToleranceMs, config.quorumMinAgree, v.result);
    }
  }

  /** `r` is the time of `latest` moved on by its age in milliseconds, while that is below the configured lifetime. */
  ghost predicate TimeServed(latest: Option<Verified>, config: Config, now: nat, r: Option<GatewayResult>) {
    match latest
    case None => r == None
    case Some(v) =>
      && v.result.NtpResult? && v.at <= now
      && r == if now - v.at < config.ntpCacheTtlMs * 1_000_000
              then Some(NtpResult(v.result.ms + (now - v.at) / 1_000_000)) else None
  }

  /** `r` is the page of `latest`, if there is one that may be served at this age, and nothing otherwise. */
  ghost predicate PageServed(latest: Option<Verified>, config: Config, now: nat, r: Option<GatewayResult>) {
    match latest
    case None => r == None
    case Some(v) =>
      && v.result.HttpResult? && v.at <= now
      && r == if MayBeServed(v.result, now - v.at, config) then Some(v.result) else None
  }

  lemma BackedHitIsServed(
    successes: seq<Verified>, config: Config, queryPeers: nat, clock: nat, service: Service, e: CacheEntry, now: nat)
    requires AllSuccesses(successes, config, queryPeers, clock) && clock <= now
    requires Backed(successes, CacheKey(service), e)
    ensures e.computedAt <= now
    ensures now - e.computedAt < e.ttl ==>
              exists v :: v in successes && ServedAt(v, service, now, AdjustForElapsed(e.result, now - e.computedAt))
  {
    hide IsQuorumSuccess;
    var i :| 0 <= i < |successes| && Backs(successes[i], CacheKey(service), e);
    CacheKeyInjective(successes[i].service, service);
    if now - e.computedAt < e.ttl {
      var v := successes[i];
      assert v in successes && ServedAt(v, service, now, AdjustForElapsed(e.result, now - e.computedAt));
    }
  }

  lemma StaysBacked(successes: seq<Verified>, v: Verified, k: string, e: CacheEntry)
    requires Backed(successes, k, e)
    ensures Backed(successes + [v], k, e)
  {
    var i :| 0 <= i < |successes| && Backs(successes[i], k, e);
    assert Backs((successes + [v])[i], k, e);
  }

  /** The resolution of a query from the cache's answer, the fan-out's outcome and what the own upstream
      and the relays would say. */
  function Resolve(
    hit: Option<GatewayResult>, queryPeers: nat, verified: Aggregate,
    direct: Result<Option<GatewayResult>, GatewayError>, relayed: Option<GatewayResult>): Resolution
  {
    if hit.Some? then Answer(Resolved(hit.value, Cache))
    else if queryPeers > 0 then
      match verified
      case Agreed(result) => Answer(Resolved(result, FromQuorum))
      case Disagreed => Failure(NoQuorum)
      case IndexPanic => Panic
    else if direct.Ok? && direct.value.Some? then Answer(Resolved(direct.value.value, Origin))
    else if relayed.Some? then Answer(Resolved(relayed.value, Relayed))
    else Failure(CannotResolve)
  }

  class Resolver {
    const config: Config
    const queryPeers: nat
    var entries: map<string, CacheEntry>
    /** The last clock reading. */
    var clock: nat
    /** Every quorum success of this node so far. */
    ghost var successes: seq<Verified>

    /** Every cache entry comes from a recorded quorum success, the latest of its service. */
    ghost predicate Valid()
      reads this
    {
      && AllSuccesses(successes, config, queryPeers, clock)
      && (forall k :: k in entries ==> Backed(successes, k, entries[k]))
      && InSync(entries, successes)
    }

    /** The answers of the peers that are asked. */
    function Asked(peerAnswers: Answers): (answers: Answers)
      requires |peerAnswers| == queryPeers
      ensures |answers| == FanoutSize(config, queryPeers) && answers <= peerAnswers
    {
      peerAnswers[..FanoutSize(config, queryPeers)]
    }

    constructor (config: Config, queryPeers: nat)
      ensures Valid() && this.config == config && this.queryPeers == queryPeers
      ensures successes == [] && entries == map[] && clock == 0
    {
      this.config, this.queryPeers, entries, clock, successes := config, queryPeers, map[], 0, [];
    }

    /** What the latest success of this very service says now: a time shifted by its age, or a page unchanged
        and exactly while it may be served. */
    method Get(service: Service, now: nat) returns (r: Option<GatewayResult>)
      requires Valid() && now >= clock
      modifies this`clock
      ensures Valid() && clock == now
      ensures r == ServedNow(Latest(successes, service), now)
      ensures r.Some? ==> exists v :: v in successes && ServedAt(v, service, now, r.value)
      ensures service.Http? && config.httpMaxCacheTtlMs <= U64_MAX ==>
                PageServed(Latest(successes, service), config, now, r)
      ensures service.Ntp? ==> TimeServed(Latest(successes, service), config, now, r)
    {
      hide IsQuorumSuccess, Latest, MayBeServed, PageServed, TimeServed;
      if service.Ntp? {
        LatestTimeServed(successes, config, queryPeers, clock, service, now);
      }
      assert Lookup(entries, CacheKey(service)) == Kept(Latest(successes, service));
      if service.Http? && config.httpMaxCacheTtlMs <= U64_MAX {
        LatestPageServed(successes, config, queryPeers, clock, service, now);
      }
      var k := CacheKey(service);
      if k !in entries {
        clock := now;
        return None;
      }
      var entry := entries[k];
      BackedHitIsServed(successes, config, queryPeers, clock, service, entry, now);
      clock := now;
      var elapsed := now - entry.computedAt;
      if entry.ttl == 0 || elapsed >= entry.ttl {
        return None;
      }
      r := Some(AdjustForElapsed(entry.result, elapsed));
    }

    /** Written only with a quorum success; a zero lifetime is not stored. */
    method Put(service: Service, result: GatewayResult, ttl: nat, now: nat, ghost answers: Answers)
      requires Valid() && now >= clock
      requires IsQuorumSuccess(Verified(service, answers, result, now, ttl), config, queryPeers)
      modifies this`entries, this`clock, this`successes
      ensures Valid() && clock == now
      ensures successes == old(successes) + [Verified(service, answers, result, now, ttl)]
      ensures entries == if ttl == 0 then old(entries)
                         else old(entries)[CacheKey(service) := CacheEntry(result, now, ttl)]
    {
      hide IsQuorumSuccess, InSync;
      clock := now;
      ghost var v := Verified(service, answers, result, now, ttl);
      PutKeepsSync(entries, successes, v);
      forall k | k in entries
        ensures Backed(successes + [v], k, entries[k])
      {
        StaysBacked(successes, v, k, entries[k]);
      }
      successes := successes + [v];
      if ttl != 0 {
        entries := entries[CacheKey(service) := CacheEntry(result, now, ttl)];
        assert Backs(successes[|successes| - 1], CacheKey(service), entries[CacheKey(service)]);
      }
    }

    /** One query, given what every configured peer, the own upstream and the relays would answer. Only the
        first peers are asked. `decidedAt` is the clock when the fan-out has ended. */
    method ResolveQuery(
      service: Service, now: nat, peerAnswers: Answers, decidedAt: nat,
      direct: Result<Option<GatewayResult>, GatewayError>, relayed: Option<GatewayResult>)
      returns (r: Resolution, ghost hit: Option<GatewayResult>, ghost verified: Aggregate)
      requires Valid() && clock <= now <= decidedAt && |peerAnswers| == queryPeers
      modifies this`entries, this`clock, this`successes
      ensures Valid() && clock <= decidedAt
      ensures r == Resolve(hit, queryPeers, verified, direct, relayed)
      ensures hit == ServedNow(Latest(old(successes), service), now)
      ensures hit.Some? ==> r == Answer(Resolved(hit.value, Cache))
      ensures hit.None? && queryPeers > 0 ==>
                r == match verified
                     case Agreed(result) => Answer(Resolved(result, FromQuorum))
                     case Disagreed => Failure(NoQuorum)
                     case IndexPanic => Panic
      ensures hit.None? && queryPeers == 0 ==>
                r == if direct.Ok? && direct.value.Some? then Answer(Resolved(direct.value.value, Origin))
                     else if relayed.Some? then Answer(Resolved(relayed.value, Relayed))
                     else Failure(CannotResolve)
      ensures hit.Some? ==> exists v :: v in old(successes) && ServedAt(v, service, now, hit.value)
      ensures hit.None? && queryPeers > 0 ==>
                Aggregates(service, Asked(peerAnswers), config.ntpToleranceMs, config.quorumMinAgree, verified)
      ensures if r.Answer? && r.resolved.servedFrom == FromQuorum
              then exists v :: successes == old(successes) + [v] && v.service == service
                               && v.answers == Asked(peerAnswers) && v.result == r.resolved.result && v.at == decidedAt
              else successes == old(successes) && entries == old(entries)
    {
      hide Aggregates, TtlMillis, AllSuccesses, Backed, InSync, Latest, MayBeServed, PageServed, TimeServed, ServedNow;
      var cached := Get(service, now);
      hit, verified := cached, Disagreed;
      if cached.Some? {
        return Answer(Resolved(cached.value, Cache)), hit, verified;
      }
      if queryPeers > 0 {
        var answers := Asked(peerAnswers);
        var outcome := AggregateQuorum(service, answers, config.ntpToleranceMs, config.quorumMinAgree);
        verified := outcome;
        match outcome {
          case Disagreed => r := Failure(NoQuorum);
          case IndexPanic => r := Panic;
          case Agreed(result) =>
            var ttl := TtlMillis(service, result, config) * NANOS_PER_MILLI;
            Put(service, result, ttl, decidedAt, answers);
            r := Answer(Resolved(result, FromQuorum));
        }
      } else if direct.Ok? && direct.value.Some? {
        r := Answer(Resolved(direct.value.value, Origin));
      } else if relayed.Some? {
        r := Answer(Resolved(relayed.value, Relayed));
      } else {
        r := Failure(CannotResolve);
      }
    }

    /** A query of an outside client. With admission and a positive threshold every answer is a recorded quorum
        success of its service, served within its lifetime or decided just now; there is no other failure than
        a missing quorum; and if fewer peers are asked than have to agree, nothing is ever answered. */
    method ResolveForFrontEnd(
      service: Service, now: nat, peerAnswers: Answers, decidedAt: nat,
      direct: Result<Option<GatewayResult>, GatewayError>, relayed: Option<GatewayResult>)
      returns (r: Resolution)
      requires Valid() && clock <= now <= decidedAt && |peerAnswers| == queryPeers
      modifies this`entries, this`clock, this`successes
      ensures Valid() && old(successes) <= successes
      ensures QuorumCapable(config, queryPeers) && config.quorumMinAgree >= 1 ==>
                match r
                case Answer(a) => IsVerified(successes, config, queryPeers, service, now, decidedAt, a.result)
                case Failure(e) => e == NoQuorum
                case Panic => false
      ensures QuorumCapable(config, queryPeers) && 0 < config.fanoutCount < config.quorumMinAgree ==>
                successes == [] && entries == map[] && r == Failure(NoQuorum)
    {
      hide Aggregates, AllSuccesses, Backed, ServedAt, IsQuorumSuccess, InSync;
      ghost var hit, verified;
      r, hit, verified := ResolveQuery(service, now, peerAnswers, decidedAt, direct, relayed);
      if QuorumCapable(config, queryPeers) && config.quorumMinAgree >= 1 {
        FrontEndResolution(config, queryPeers, service, Asked(peerAnswers), hit, verified, direct, relayed);
        if r.Answer? {
          ghost var result := r.resolved.result;
          ghost var v :| v in successes && (ServedAt(v, service, now, result)
                                            || (v.service == service && v.at == decidedAt && v.result == result));
          RecordedIsSuccess(successes, config, queryPeers, clock, v);
        }
      }
      if QuorumCapable(config, queryPeers) && 0 < config.fanoutCount < config.quorumMinAgree {
        TooFewNeverSucceed(successes, config, queryPeers, clock);
        NothingCached(entries, successes);
      }
    }
  }

  /** `result` is what some recorded quorum success of the service says at `now`, or was decided at `decidedAt`. */
  ghost predicate IsVerified(
    successes: seq<Verified>, config: Config, queryPeers: nat, service: Service, now: nat, decidedAt: nat,
    result: GatewayResult)
  {
    exists v :: v in successes && IsQuorumSuccess(v, config, queryPeers)
                && (ServedAt(v, service, now, result)
                    || (v.service == service && v.at == decidedAt && v.result == result))
  }

  lemma RecordedIsSuccess(successes: seq<Verified>, config: Config, queryPeers: nat, clock: nat, v: Verified)
    requires AllSuccesses(successes, config, queryPeers, clock) && v in successes
    ensures IsQuorumSuccess(v, config, queryPeers)
  {
    hide IsQuorumSuccess;
  }

  /** A node that asks fewer peers than have to agree never records a success, in any run. */
  lemma TooFewNeverSucceed(successes: seq<Verified>, config: Config, queryPeers: nat, clock: nat)
    requires AllSuccesses(successes, config, queryPeers, clock)
    requires FanoutSize(config, queryPeers) < Max(1, config.quorumMinAgree)
    ensures successes == []
  {
    if successes != [] {
      var v := successes[0];
      assert IsQuorumSuccess(v, config, queryPeers);
      hide Aggregates, Support;
      AgreementNeedsSupport(v.service, v.answers, config.ntpToleranceMs, config.quorumMinAgree, v.result);
      assert false;
    }
  }

  lemma NothingCached(entries: map<string, CacheEntry>, successes: seq<Verified>)
    requires successes == [] && forall k :: k in entries ==> Backed(successes, k, entries[k])
    ensures entries == map[]
  {
  }

  /** A page of this age may be served again: it does not forbid that, and is younger than its own max-age and
      the configured ceiling, or, without a max-age, than the configured default. */
  predicate MayBeServed(result: GatewayResult, age: nat, config: Config)
    requires result.HttpResult?
  {
    match result.cacheControl
    case None => age < config.httpDefaultCacheTtlMs * NANOS_PER_MILLI
    case Some(header) =>
      && !header.noStore
      && match header.maxAge
         case None => age < config.httpDefaultCacheTtlMs * NANOS_PER_MILLI
         case Some(seconds) =>
           age < seconds * 1000 * NANOS_PER_MILLI && age < config.httpMaxCacheTtlMs * NANOS_PER_MILLI
  }

  /** A success for a page stays within its lifetime exactly while that is so, and unchanged. */
  lemma ServedContentExactly(
    v: Verified, config: Config, queryPeers: nat, service: Service, now: nat, result: GatewayResult)
    requires IsQuorumSuccess(v, config, queryPeers) && v.service == service && service.Http? && v.at <= now
    requires config.httpMaxCacheTtlMs <= U64_MAX // a signed 64-bit setting
    ensures v.result.HttpResult?
    ensures ServedAt(v, service, now, result) <==> result == v.result && MayBeServed(v.result, now - v.at, config)
  {
    hide Aggregates, Support;
    AgreementNeedsSupport(v.service, v.answers, config.ntpToleranceMs, config.quorumMinAgree, v.result);
  }

  /** An admitted front end that asks for agreement resolves to its cache or a fresh quorum only. */
  lemma FrontEndResolution(
    config: Config, queryPeers: nat, service: Service, answers: Answers, hit: Option<GatewayResult>,
    verified: Aggregate,
    direct: Result<Option<GatewayResult>, GatewayError>, relayed: Option<GatewayResult>)
    requires QuorumCapable(config, queryPeers) && config.quorumMinAgree >= 1
    requires hit.None? ==> Aggregates(service, answers, config.ntpToleranceMs, config.quorumMinAgree, verified)
    ensures var r := Resolve(hit, queryPeers, verified, direct, relayed);
            match r
            case Answer(a) =>
              || (a.servedFrom == Cache && hit == Some(a.result))
              || (a.servedFrom == FromQuorum
                  && Aggregates(service, answers, config.ntpToleranceMs, config.quorumMinAgree, Agreed(a.result)))
            case Failure(e) => e == NoQuorum
            case Panic => false
  {
    hide NtpAggregate, HttpAggregate;
    if hit.Some? {
      return;
    }
    if service.Ntp? {
      PanicsExactly(Times(Oks(answers)), config.ntpToleranceMs, config.quorumMinAgree);
    } else if verified.IndexPanic? {
      HttpNeverPanics(Oks(answers), config.quorumMinAgree);
    }
  }

  lemma HttpNeverPanics(oks: seq<GatewayResult>, minAgree: nat)
    ensures !HttpAggregate(oks, minAgree, IndexPanic)
  {
  }

  /** Which admitted front ends can pass on an answer that no aggregation decided: exactly those that ask for
      no agreement and have no peers. */
  lemma UnaggregatedAnswersExactly(config: Config, queryPeers: nat)
    requires QuorumCapable(config, queryPeers)
    ensures (exists verified, direct, relayed :: NotAggregated(Resolve(None, queryPeers, verified, direct, relayed)))
            <==> config.quorumMinAgree == 0 && queryPeers == 0
  {
    if queryPeers == 0 {
      assert NotAggregated(Resolve(None, 0, Disagreed, Ok(None), Some(NtpResult(0))));
    }
  }

  ghost predicate NotAggregated(r: Resolution) {
    r.Answer? && (r.resolved.servedFrom == Origin || r.resolved.servedFrom == Relayed)
  }

  // ---- Fan-out ----

  /** The peers asked can ever agree exactly when they are as many as the threshold asks for, and at least
      one, and the tolerance is not negative. Admission counts the configured peers, not the peers asked, so
      an admitted front end may ask too few. */
  lemma AgreementPossibleExactly(config: Config, queryPeers: nat, service: Service)
    ensures CanAgree(service, FanoutSize(config, queryPeers), config.ntpToleranceMs, config.quorumMinAgree)
            <==> FanoutSize(config, queryPeers) >= Max(1, config.quorumMinAgree)
                 && (service.Ntp? ==> config.ntpToleranceMs >= 0)
    ensures QuorumCapable(config, queryPeers) && queryPeers > 0 ==>
              (FanoutSize(config, queryPeers) >= Max(1, config.quorumMinAgree)
               <==> config.fanoutCount == 0 || config.fanoutCount >= config.quorumMinAgree)
  {
    CanAgreeExactly(service, FanoutSize(config, queryPeers), config.ntpToleranceMs, config.quorumMinAgree);
  }

  /** Admission refuses no front end that could ever agree, and with an unlimited fan-out, a positive threshold and
      a tolerance that is not negative it admits exactly those that could. */
  lemma AdmissionExactly(config: Config, queryPeers: nat, service: Service)
    ensures CanAgree(service, FanoutSize(config, queryPeers), config.ntpToleranceMs, config.quorumMinAgree) ==>
              QuorumCapable(config, queryPeers)
    ensures config.fanoutCount == 0 && config.quorumMinAgree >= 1 && (service.Ntp? ==> config.ntpToleranceMs >= 0) ==>
              (QuorumCapable(config, queryPeers)
               <==> CanAgree(service, queryPeers, config.ntpToleranceMs, config.quorumMinAgree))
  {
    hide CanAgree;
    CanAgreeExactly(service, FanoutSize(config, queryPeers), config.ntpToleranceMs, config.quorumMinAgree);
    CanAgreeExactly(service, queryPeers, config.ntpToleranceMs, config.quorumMinAgree);
  }

  /** The configuration alone decides whether every agreed result is claimed by a majority of the asked peers. */
  lemma MajorityGuaranteedExactly(config: Config, queryPeers: nat, service: Service)
    ensures MajorityBacked(service, FanoutSize(config, queryPeers), config.ntpToleranceMs, config.quorumMinAgree)
            <==> 2 * Max(1, config.quorumMinAgree) > FanoutSize(config, queryPeers)
                 || (service.Ntp? && config.ntpToleranceMs < 0)
  {
    MajorityExactly(service, FanoutSize(config, queryPeers), config.ntpToleranceMs, config.quorumMinAgree);
  }
}

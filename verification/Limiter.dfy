/** The request limiter: one token bucket per source, dropped when idle. Seconds and tokens are reals. */
module Limiter {
  import opened Prelude

  const DEFAULT_RATE := 32.0
  const DEFAULT_BURST := 64.0
  const LEAST_IDLE := 30.0

  datatype Bucket = Bucket(tokens: real, last: real)

  datatype Request = Request(source: string, at: real)

  datatype Settings = Settings(rate: real, burst: real)

  /** No limiter at all for a negative rate; zero means the default. */
  function NewSettings(rate: real, burst: real): (s: Option<Settings>)
    ensures s.Some? ==> s.value.rate > 0.0
  {
    if rate < 0.0 then None
    else Some(Settings(if rate == 0.0 then DEFAULT_RATE else rate, if burst == 0.0 then DEFAULT_BURST else burst))
  }

  /** A negative rate is no limiter, a zero is not a setting but the want of one, and all else is taken as given. */
  lemma SettingsMean(rate: real, burst: real)
    ensures NewSettings(rate, burst).None? <==> rate < 0.0
    ensures rate > 0.0 && burst != 0.0 ==> NewSettings(rate, burst) == Some(Settings(rate, burst))
    ensures NewSettings(0.0, burst) == NewSettings(32.0, burst)
    ensures NewSettings(rate, 0.0) == NewSettings(rate, 64.0)
  {
  }

  function IdleFor(s: Settings): (d: real)
    requires s.rate > 0.0
    ensures d >= 30.0 && d >= s.burst / s.rate * 4.0
  {
    var refill := s.burst / s.rate * 4.0;
    if refill > LEAST_IDLE then refill else LEAST_IDLE
  }

  function Refilled(s: Settings, b: Bucket, now: real): real {
    var t := b.tokens + (now - b.last) * s.rate;
    if t > s.burst then s.burst else t
  }

  /** What a source can spend at `now`; one without a bucket starts full. */
  function Level(s: Settings, m: map<string, Bucket>, source: string, now: real): real {
    Refilled(s, if source in m then m[source] else Bucket(s.burst, now), now)
  }

  predicate Admits(s: Settings, m: map<string, Bucket>, r: Request) {
    Level(s, m, r.source, r.at) >= 1.0
  }

  function Spent(s: Settings, m: map<string, Bucket>, r: Request): map<string, Bucket> {
    var t := Level(s, m, r.source, r.at);
    m[r.source := Bucket(if t < 1.0 then t else t - 1.0, r.at)]
  }

  predicate Idle(s: Settings, b: Bucket, now: real)
    requires s.rate > 0.0
  {
    now - b.last > IdleFor(s)
  }

  function Evicted(s: Settings, m: map<string, Bucket>, now: real): map<string, Bucket>
    requires s.rate > 0.0
  {
    map k | k in m && !Idle(s, m[k], now) :: m[k]
  }

  /** Requests are counted by host; an address that does not split counts as a source of its own. */
  function SourceOf(remote: string, host: Option<string>): string {
    if host.Some? then host.value else remote
  }

  class Limiter {
    const disabled: bool
    const settings: Settings
    var buckets: map<string, Bucket>

    constructor (rate: real, burst: real)
      ensures disabled == NewSettings(rate, burst).None? && buckets == map[]
      ensures !disabled ==> Some(settings) == NewSettings(rate, burst)
      ensures !disabled ==> settings.rate > 0.0
    {
      disabled := rate < 0.0;
      settings := Settings(if rate == 0.0 then DEFAULT_RATE else rate, if burst == 0.0 then DEFAULT_BURST else burst);
      buckets := map[];
    }

    method EvictIdleLocked(now: real)
      requires settings.rate > 0.0
      modifies this
      ensures buckets == Evicted(settings, old(buckets), now)
    {
      var todo := buckets.Keys;
      while todo != {}
        invariant todo <= old(buckets).Keys && buckets.Keys <= old(buckets).Keys
        invariant forall k :: k in old(buckets) ==>
                    if k in todo then k in buckets else k in buckets <==> !Idle(settings, old(buckets)[k], now)
        invariant forall k :: k in buckets ==> buckets[k] == old(buckets)[k]
        decreases |todo|
      {
        var k :| k in todo;
        todo := todo - {k};
        if now - buckets[k].last > IdleFor(settings) {
          buckets := buckets - {k};
        }
      }
      assert buckets == Evicted(settings, old(buckets), now);
    }

    /** `host` is what splitting the remote address into host and port gave, if it could be split. */
    method Allow(remote: string, host: Option<string>, now: real) returns (ok: bool)
      requires !disabled ==> settings.rate > 0.0
      modifies this
      ensures disabled ==> ok && buckets == old(buckets)
      ensures !disabled ==>
                var m, r := Evicted(settings, old(buckets), now), Request(SourceOf(remote, host), now);
                ok == Admits(settings, m, r) && buckets == Spent(settings, m, r)
    {
      ok := true;
      if !disabled {
        var source := remote;
        if host.Some? {
          source := host.value;
        }
        EvictIdleLocked(now);
        var b := if source in buckets then buckets[source] else Bucket(settings.burst, now);
        var tokens := b.tokens + (now - b.last) * settings.rate;
        if tokens > settings.burst {
          tokens := settings.burst;
        }
        assert tokens == Level(settings, buckets, source, now);
        ok := tokens >= 1.0;
        if ok {
          tokens := tokens - 1.0;
        }
        buckets := buckets[source := Bucket(tokens, now)];
      }
    }
  }

  // ---------- runs ----------

  /** Times never go back, and none is before `from`. */
  predicate Monotone(rs: seq<Request>, from: real) {
    rs == [] || (from <= rs[0].at && Monotone(rs[1..], rs[0].at))
  }

  /** The answers of the limiter as written, and of one that keeps every bucket. */
  function Answers(s: Settings, m: map<string, Bucket>, rs: seq<Request>, evicting: bool): (answers: seq<bool>)
    requires s.rate > 0.0
    ensures |answers| == |rs|
    decreases |rs|
  {
    if rs == [] then []
    else
      var kept := if evicting then Evicted(s, m, rs[0].at) else m;
      [Admits(s, kept, rs[0])] + Answers(s, Spent(s, kept, rs[0]), rs[1..], evicting)
  }

  function Final(s: Settings, m: map<string, Bucket>, rs: seq<Request>, evicting: bool): map<string, Bucket>
    requires s.rate > 0.0
    decreases |rs|
  {
    if rs == [] then m
    else
      var kept := if evicting then Evicted(s, m, rs[0].at) else m;
      Final(s, Spent(s, kept, rs[0]), rs[1..], evicting)
  }

  /** Requests of one source that were let through. */
  function Grants(rs: seq<Request>, answers: seq<bool>, source: string): nat
    requires |answers| == |rs|
    decreases |rs|
  {
    if rs == [] then 0
    else (if rs[0].source == source && answers[0] then 1 else 0) + Grants(rs[1..], answers[1..], source)
  }

  // ---------- eviction is unobservable ----------

  predicate BucketOK(s: Settings, b: Bucket) {
    b.tokens <= s.burst && (b.tokens >= 0.0 || b.tokens == s.burst)
  }

  predicate BucketsOK(s: Settings, m: map<string, Bucket>, now: real) {
    forall k :: k in m ==> BucketOK(s, m[k]) && m[k].last <= now
  }

  /** `kept` has every bucket `m` has, and its other buckets have refilled. */
  ghost predicate Twins(s: Settings, m: map<string, Bucket>, kept: map<string, Bucket>, now: real) {
    BucketsOK(s, kept, now) &&
    (forall k :: k in m ==> k in kept && m[k] == kept[k]) &&
    (forall k :: k in kept && k !in m ==> Refilled(s, kept[k], now) == s.burst)
  }

  lemma ProductOrder(a: real, b: real, c: real)
    requires a <= b && 0.0 <= c
    ensures a * c <= b * c
  {
  }

  /** A full bucket stays full. */
  lemma StaysFull(s: Settings, b: Bucket, now: real, later: real)
    requires s.rate > 0.0 && now <= later && Refilled(s, b, now) == s.burst
    ensures Refilled(s, b, later) == s.burst
  {
    ProductOrder(now - b.last, later - b.last, s.rate);
  }

  /** An idle bucket has refilled: four times over, and the least wait only adds to that. */
  lemma IdleIsFull(s: Settings, b: Bucket, now: real)
    requires s.rate > 0.0 && BucketOK(s, b) && Idle(s, b, now)
    ensures Refilled(s, b, now) == s.burst
  {
    var e := now - b.last;
    FourTimes(s);
    ProductOrder(s.burst / s.rate * 4.0, e, s.rate);
    ProductOrder(0.0, e, s.rate);
  }

  lemma FourTimes(s: Settings)
    requires s.rate > 0.0
    ensures s.burst / s.rate * 4.0 * s.rate == 4.0 * s.burst
  {
    var x := s.burst / s.rate;
    assert x * s.rate == s.burst;
    assert x * 4.0 * s.rate == 4.0 * (x * s.rate);
  }

  lemma SpentIsOK(s: Settings, m: map<string, Bucket>, r: Request, now: real)
    requires s.rate > 0.0 && BucketsOK(s, m, now) && now <= r.at
    ensures BucketsOK(s, Spent(s, m, r), r.at)
  {
    if r.source in m {
      var b := m[r.source];
      ProductOrder(0.0, r.at - b.last, s.rate);
      assert BucketOK(s, b) && b.last <= r.at;
      assert 0.0 <= (r.at - b.last) * s.rate;
      assert b.tokens <= Refilled(s, b, r.at) <= s.burst;
    } else {
      NewIsFull(s, r.at);
    }
  }

  lemma TwinsAnswerAlike(s: Settings, m: map<string, Bucket>, kept: map<string, Bucket>, r: Request, now: real)
    requires s.rate > 0.0 && Twins(s, m, kept, now) && now <= r.at
    ensures var e := Evicted(s, m, r.at);
            Admits(s, e, r) == Admits(s, kept, r) && Twins(s, Spent(s, e, r), Spent(s, kept, r), r.at)
  {
    hide Refilled, IdleFor, Idle;
    var e := Evicted(s, m, r.at);
    forall k | k in kept && k !in e
      ensures Refilled(s, kept[k], r.at) == s.burst
    {
      if k in m {
        IdleIsFull(s, kept[k], r.at);
      } else {
        StaysFull(s, kept[k], now, r.at);
      }
    }
    NewIsFull(s, r.at);
    SpentIsOK(s, kept, r, now);
  }

  lemma NewIsFull(s: Settings, now: real)
    ensures Refilled(s, Bucket(s.burst, now), now) == s.burst
  {
  }

  /** Dropping idle buckets changes no answer: each one had refilled to the burst a new bucket starts with. */
  lemma {:induction false} EvictionIsUnobservable(
      s: Settings, m: map<string, Bucket>, kept: map<string, Bucket>, rs: seq<Request>, now: real)
    requires s.rate > 0.0 && Twins(s, m, kept, now) && Monotone(rs, now)
    ensures Answers(s, m, rs, true) == Answers(s, kept, rs, false)
    decreases |rs|
  {
    hide Twins, Admits, Spent, Evicted;
    if rs != [] {
      TwinsAnswerAlike(s, m, kept, rs[0], now);
      EvictionIsUnobservable(s, Spent(s, Evicted(s, m, rs[0].at), rs[0]), Spent(s, kept, rs[0]), rs[1..], rs[0].at);
    }
  }

  lemma {:induction false} TwinsAfterRun(
      s: Settings, m: map<string, Bucket>, kept: map<string, Bucket>, rs: seq<Request>, now: real)
    requires s.rate > 0.0 && Twins(s, m, kept, now) && Monotone(rs, now)
    ensures Twins(s, Final(s, m, rs, true), Final(s, kept, rs, false), Until(rs, now))
    decreases |rs|
  {
    hide Twins, Admits, Spent, Evicted;
    if rs != [] {
      TwinsAnswerAlike(s, m, kept, rs[0], now);
      TwinsAfterRun(s, Spent(s, Evicted(s, m, rs[0].at), rs[0]), Spent(s, kept, rs[0]), rs[1..], rs[0].at);
    }
  }

  // ---------- the rate holds in every window ----------

  /** The time of the last request, or `from` when there is none. */
  function Until(rs: seq<Request>, from: real): real {
    if rs == [] then from else Until(rs[1..], rs[0].at)
  }

  function AtLeastZero(x: real): real {
    if x < 0.0 then 0.0 else x
  }

  /** What waiting from one moment to another earns: the rate times the time between. */
  function Earnings(s: Settings, from: real, to: real): real {
    s.rate * (to - from)
  }

  lemma EarningsAdd(s: Settings, from: real, between: real, to: real)
    ensures Earnings(s, from, between) + Earnings(s, between, to) == Earnings(s, from, to)
  {
    assert s.rate * (between - from) + s.rate * (to - between) == s.rate * (to - from);
  }

  /** Waiting earns at most the rate. */
  lemma LevelGrows(s: Settings, m: map<string, Bucket>, source: string, now: real, later: real)
    requires s.rate > 0.0 && BucketsOK(s, m, now) && now <= later
    ensures Level(s, m, source, now) <= s.burst
    ensures Level(s, m, source, later) <= Level(s, m, source, now) + Earnings(s, now, later)
    ensures 0.0 <= Earnings(s, now, later)
  {
    hide Refilled, Earnings;
    EarningsRise(s, now, later);
    if source in m {
      RefillGrows(s, m[source], now, later);
    } else {
      NewIsFull(s, now);
      NewIsFull(s, later);
    }
  }

  lemma EarningsRise(s: Settings, now: real, later: real)
    requires s.rate > 0.0 && now <= later
    ensures 0.0 <= Earnings(s, now, later)
  {
    ProductOrder(0.0, later - now, s.rate);
  }

  lemma RefillGrows(s: Settings, b: Bucket, now: real, later: real)
    requires s.rate > 0.0 && now <= later
    ensures Refilled(s, b, now) <= s.burst
    ensures Refilled(s, b, later) <= Refilled(s, b, now) + Earnings(s, now, later)
  {
    EarningsRise(s, now, later);
    WaitSplits(s.rate, later, now, b.last);
  }

  lemma WaitSplits(rate: real, later: real, now: real, last: real)
    ensures (later - last) * rate == (now - last) * rate + rate * (later - now)
  {
  }

  /** A request let through costs its source one token, and no other source anything. */
  lemma SpendingCosts(s: Settings, m: map<string, Bucket>, r: Request, source: string)
    requires s.rate > 0.0
    ensures Level(s, Spent(s, m, r), source, r.at) ==
            Level(s, m, source, r.at) - if r.source == source && Admits(s, m, r) then 1.0 else 0.0
  {
    var t := Level(s, m, r.source, r.at);
    assert t <= s.burst;
    var b := Bucket(if t < 1.0 then t else t - 1.0, r.at);
    assert Spent(s, m, r) == m[r.source := b];
    RefilledNow(s, b, r.at);
  }

  lemma ZeroTimes(e: real, rate: real)
    requires e == 0.0
    ensures e * rate == 0.0
  {
  }

  lemma RefilledNow(s: Settings, b: Bucket, now: real)
    requires b.last == now && b.tokens <= s.burst
    ensures Refilled(s, b, now) == b.tokens
  {
    ZeroTimes(now - b.last, s.rate);
  }

  lemma CombineEarned(level: real, left: real, later: real, earned: real, rest: real, spent: nat, more: nat)
    requires left == level - spent as real && (spent == 1 ==> level >= 1.0) && spent <= 1 && 0.0 <= earned
    requires later <= left + earned && more as real <= AtLeastZero(later) + rest
    ensures (spent + more) as real <= AtLeastZero(level) + earned + rest
  {
  }

  lemma {:induction false} GrantsAreEarned(
      s: Settings, m: map<string, Bucket>, rs: seq<Request>, source: string, now: real)
    requires s.rate > 0.0 && BucketsOK(s, m, now) && Monotone(rs, now) && rs != []
    ensures Grants(rs, Answers(s, m, rs, false), source) as real <=
            AtLeastZero(Level(s, m, source, rs[0].at)) + Earnings(s, rs[0].at, Until(rs, now))
    decreases |rs|
  {
    hide Level, Spent, BucketsOK, Earnings;
    var r, more, next := rs[0], rs[1..], Spent(s, m, rs[0]);
    var answers := Answers(s, m, rs, false);
    SpendingCosts(s, m, r, source);
    SpentIsOK(s, m, r, now);
    assert answers[0] == Admits(s, m, r) && answers[1..] == Answers(s, next, more, false);
    if more == [] {
      assert Grants(more, answers[1..], source) == 0;
      EarningsAdd(s, r.at, r.at, r.at);
    } else {
      GrantsAreEarned(s, next, more, source, r.at);
      LevelGrows(s, next, source, r.at, more[0].at);
      EarningsAdd(s, r.at, more[0].at, Until(rs, now));
      CombineEarned(Level(s, m, source, r.at), Level(s, next, source, r.at), Level(s, next, source, more[0].at),
                    Earnings(s, r.at, more[0].at), Earnings(s, more[0].at, Until(rs, now)),
                    if r.source == source && answers[0] then 1 else 0, Grants(more, answers[1..], source));
    }
  }

  /**
   * In every run from a new limiter, and every window of it: the requests of one source let through are
   * at most the burst plus the rate times the window's length. A negative burst lets nothing through.
   */
  lemma WindowIsBounded(s: Settings, before: seq<Request>, window: seq<Request>, source: string, from: real)
    requires s.rate > 0.0 && window != [] && Monotone(before, from) && Monotone(window, Until(before, from))
    ensures var m := Final(s, map[], before, true);
            Grants(window, Answers(s, m, window, true), source) as real <=
            AtLeastZero(s.burst) + Earnings(s, window[0].at, Until(window, window[0].at))
  {
    hide Level, Spent, Evicted, Answers, Grants, Earnings, Final, BucketsOK;
    BucketsAreOKAtFirst(s, from);
    var m, kept, start := Final(s, map[], before, true), Final(s, map[], before, false), Until(before, from);
    TwinsAfterRun(s, map[], map[], before, from);
    EvictionIsUnobservable(s, m, kept, window, start);
    GrantsAreEarned(s, kept, window, source, start);
    BucketsStayOK(s, kept, start, window[0].at);
    LevelGrows(s, kept, source, window[0].at, window[0].at);
  }

  lemma BucketsAreOKAtFirst(s: Settings, from: real)
    ensures BucketsOK(s, map[], from)
  {
  }

  lemma BucketsStayOK(s: Settings, m: map<string, Bucket>, now: real, later: real)
    requires BucketsOK(s, m, now) && now <= later
    ensures BucketsOK(s, m, later)
  {
  }

  /** The answers of a whole run: dropping idle buckets shows in none of them. */
  lemma EvictingRunAnswersAlike(s: Settings, rs: seq<Request>, from: real)
    requires s.rate > 0.0 && Monotone(rs, from)
    ensures Answers(s, map[], rs, true) == Answers(s, map[], rs, false)
  {
    EvictionIsUnobservable(s, map[], map[], rs, from);
  }

  /** A burst below one token never lets anything through. */
  lemma {:induction false} SmallBurstGrantsNothing(
      s: Settings, m: map<string, Bucket>, rs: seq<Request>, source: string)
    requires s.rate > 0.0 && s.burst < 1.0
    ensures Grants(rs, Answers(s, m, rs, true), source) == 0
    decreases |rs|
  {
    if rs != [] {
      var kept := Evicted(s, m, rs[0].at);
      assert !Admits(s, kept, rs[0]);
      SmallBurstGrantsNothing(s, Spent(s, kept, rs[0]), rs[1..], source);
      assert Answers(s, m, rs, true)[1..] == Answers(s, Spent(s, kept, rs[0]), rs[1..], true);
    }
  }

  /** One request from a new limiter keeps to burst plus rate times nothing exactly when the burst is not negative. */
  lemma PlainBoundNeedsABurst(s: Settings, r: Request)
    requires s.rate > 0.0
    ensures var granted := Grants([r], Answers(s, map[], [r], true), r.source);
            granted as real <= s.burst + s.rate * (r.at - r.at) <==> s.burst >= 0.0
  {
    ZeroTimes(r.at - r.at, s.rate);
    if s.burst < 1.0 {
      SmallBurstGrantsNothing(s, map[], [r], r.source);
    } else {
      assert [r][1..] == [];
      assert Grants([r], Answers(s, map[], [r], true), r.source) <= 1;
    }
  }

  // ---------- and nothing is refused that need not be ----------

  lemma {:induction false} AnswersSnoc(s: Settings, m: map<string, Bucket>, rs: seq<Request>, r: Request,
                                       evicting: bool)
    requires s.rate > 0.0
    ensures var now := Final(s, m, rs, evicting);
            var kept := if evicting then Evicted(s, now, r.at) else now;
            Answers(s, m, rs + [r], evicting) == Answers(s, m, rs, evicting) + [Admits(s, kept, r)] &&
            Final(s, m, rs + [r], evicting) == Spent(s, kept, r)
    decreases |rs|
  {
    hide Admits, Spent, Evicted;
    if rs == [] {
      assert [] + [r] == [r] && [r][1..] == [];
    } else {
      var kept := if evicting then Evicted(s, m, rs[0].at) else m;
      assert (rs + [r])[0] == rs[0] && (rs + [r])[1..] == rs[1..] + [r];
      AnswersSnoc(s, Spent(s, kept, rs[0]), rs[1..], r, evicting);
    }
  }

  lemma {:induction false} GrantsSnoc(rs: seq<Request>, answers: seq<bool>, r: Request, ok: bool, source: string)
    requires |answers| == |rs|
    ensures Grants(rs + [r], answers + [ok], source) ==
            Grants(rs, answers, source) + if r.source == source && ok then 1 else 0
    decreases |rs|
  {
    if rs == [] {
      assert [] + [r] == [r] && answers + [ok] == [ok];
      assert Grants([r][1..], [ok][1..], source) == 0;
    } else {
      assert (rs + [r])[1..] == rs[1..] + [r] && (answers + [ok])[1..] == answers[1..] + [ok];
      GrantsSnoc(rs[1..], answers[1..], r, ok, source);
    }
  }

  /** Requests of the source let through from the k-th on. */
  function GrantedSince(rs: seq<Request>, answers: seq<bool>, k: nat, source: string): nat
    requires |answers| == |rs| && k <= |rs|
  {
    Grants(rs[k..], answers[k..], source)
  }

  lemma GrantedSinceSnoc(rs: seq<Request>, answers: seq<bool>, r: Request, ok: bool, k: nat, source: string)
    requires |answers| == |rs| && k <= |rs|
    ensures GrantedSince(rs + [r], answers + [ok], k, source) ==
            GrantedSince(rs, answers, k, source) + if r.source == source && ok then 1 else 0
  {
    assert (rs + [r])[k..] == rs[k..] + [r] && (answers + [ok])[k..] == answers[k..] + [ok];
    GrantsSnoc(rs[k..], answers[k..], r, ok, source);
  }

  /** `x` tokens are there if the burst allows them and so does every stretch of the run up to now. */
  ghost predicate RoomFor(s: Settings, rs: seq<Request>, answers: seq<bool>, source: string, now: real, x: real)
    requires |answers| == |rs|
  {
    x <= s.burst &&
    forall k :: 0 <= k < |rs| ==>
      GrantedSince(rs, answers, k, source) as real + x <= s.burst + Earnings(s, rs[k].at, now)
  }

  /** Level later from level now: earnings up to the burst. */
  lemma LevelLater(s: Settings, m: map<string, Bucket>, source: string, now: real, later: real, x: real)
    requires s.rate > 0.0 && now <= later
    ensures x <= Level(s, m, source, later) <==>
            x <= s.burst && x <= Level(s, m, source, now) + Earnings(s, now, later)
  {
    EarningsRise(s, now, later);
    if source in m {
      WaitSplits(s.rate, later, now, m[source].last);
      hide Earnings;
      assert Earnings(s, now, later) == Earnings(s, now, later);
      LevelLaterBucket(s, m[source], now, later, x);
    } else {
      NewIsFull(s, now);
      NewIsFull(s, later);
    }
  }

  lemma LevelLaterBucket(s: Settings, b: Bucket, now: real, later: real, x: real)
    requires s.rate > 0.0 && now <= later && 0.0 <= Earnings(s, now, later)
    ensures x <= Refilled(s, b, later) <==> x <= s.burst && x <= Refilled(s, b, now) + Earnings(s, now, later)
  {
    WaitSplits(s.rate, later, now, b.last);
  }

  lemma SpentLevelLater(s: Settings, m: map<string, Bucket>, r: Request, source: string, later: real, x: real)
    requires s.rate > 0.0 && r.at <= later
    ensures var g := if r.source == source && Admits(s, m, r) then 1.0 else 0.0;
            x <= Level(s, Spent(s, m, r), source, later) <==>
            x <= s.burst && x + g <= Level(s, m, source, r.at) + Earnings(s, r.at, later)
  {
    hide Level, Earnings, Spent, Admits;
    LevelLater(s, Spent(s, m, r), source, r.at, later, x);
    SpendingCosts(s, m, r, source);
  }

  lemma {:induction false} LevelIsTheRoom(s: Settings, rs: seq<Request>, from: real, source: string, now: real, x: real)
    requires s.rate > 0.0 && Monotone(rs, from) && Until(rs, from) <= now
    ensures x <= Level(s, Final(s, map[], rs, false), source, now) <==>
            RoomFor(s, rs, Answers(s, map[], rs, false), source, now, x)
    decreases |rs|
  {
    if rs == [] {
      NewIsFull(s, now);
    } else {
      var front, r := rs[..|rs| - 1], rs[|rs| - 1];
      assert front + [r] == rs;
      MonotoneFront(front, r, from);
      var kept := Final(s, map[], front, false);
      var ok := Admits(s, kept, r);
      AnswersSnoc(s, map[], front, r, false);
      SpentLevelLater(s, kept, r, source, now, x);
      var g := if r.source == source && ok then 1.0 else 0.0;
      LevelIsTheRoom(s, front, from, source, r.at, x + g - Earnings(s, r.at, now));
      RoomLater(s, front, Answers(s, map[], front, false), r, ok, source, now, x);
    }
  }

  lemma {:induction false} MonotoneFront(front: seq<Request>, r: Request, from: real)
    requires Monotone(front + [r], from)
    ensures Monotone(front, from) && Until(front, from) <= r.at && Until(front + [r], from) == r.at
    decreases |front|
  {
    if front == [] {
      assert [] + [r] == [r];
      assert Until([r][1..], r.at) == r.at;
    } else {
      assert (front + [r])[0] == front[0] && (front + [r])[1..] == front[1..] + [r];
      MonotoneFront(front[1..], r, front[0].at);
    }
  }

  lemma RoomLater(s: Settings, front: seq<Request>, answers: seq<bool>, r: Request, ok: bool, source: string,
                  now: real, x: real)
    requires |answers| == |front|
    ensures var g := if r.source == source && ok then 1.0 else 0.0;
            RoomFor(s, front + [r], answers + [ok], source, now, x) <==>
            x <= s.burst && RoomFor(s, front, answers, source, r.at, x + g - Earnings(s, r.at, now))
  {
    hide Earnings, GrantedSince;
    var rs, all := front + [r], answers + [ok];
    forall k | 0 <= k <= |front|
      ensures GrantedSince(rs, all, k, source) ==
              GrantedSince(front, answers, k, source) + if r.source == source && ok then 1 else 0
      ensures k < |front| ==>
                Earnings(s, rs[k].at, now) == Earnings(s, front[k].at, r.at) + Earnings(s, r.at, now)
    {
      GrantedSinceSnoc(front, answers, r, ok, k, source);
      if k < |front| {
        EarningsAdd(s, front[k].at, r.at, now);
      }
    }
    NothingGranted(front, answers, source);
    assert rs[|front|] == r;
  }

  lemma NothingGranted(rs: seq<Request>, answers: seq<bool>, source: string)
    requires |answers| == |rs|
    ensures GrantedSince(rs, answers, |rs|, source) == 0
  {
  }

  /**
   * In every run from a new limiter, evicting or not, a request is let through exactly when one more keeps
   * its source, over every stretch of the run that ends with it, within the burst and the stretch's earnings.
   */
  lemma AdmitsExactlyWhenThereIsRoom(s: Settings, before: seq<Request>, r: Request, from: real)
    requires s.rate > 0.0 && Monotone(before + [r], from)
    ensures Answers(s, map[], before + [r], true)[|before|] <==>
            RoomFor(s, before, Answers(s, map[], before, true), r.source, r.at, 1.0)
  {
    hide Level, Spent, Evicted, Answers, Earnings, Final, BucketsOK, RoomFor, Until, Monotone;
    MonotoneFront(before, r, from);
    EvictingRunAnswersAlike(s, before, from);
    EvictingRunAnswersAlike(s, before + [r], from);
    AnswersSnoc(s, map[], before, r, false);
    LevelIsTheRoom(s, before, from, r.source, r.at, 1.0);
  }
}

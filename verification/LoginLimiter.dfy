/**
  The login rate limiter: one token bucket per key, and a sweep on every request that forgets buckets
  idle for longer than the time to live. Instants are whole nanoseconds. A bucket's content is counted in
  nanoseconds too: one token is worth `interval` of them, so that refilling is exact.
 */
module LoginLimiter {
  import opened Base

  const MINUTE: int := 60_000_000_000

  /** `interval` is the time in which one token is refilled, `burst` the size of a bucket in tokens. */
  datatype Config = Config(interval: nat, burst: nat, ttl: nat)

  function ConfigOf(perMinute: nat, burst: nat): Config
    requires perMinute > 0
  {
    Config(MINUTE / perMinute, burst, 5 * MINUTE)
  }

  function Capacity(c: Config): nat {
    c.burst * c.interval
  }

  /** A bucket and the time of the last request on it. */
  datatype Bucket = Bucket(level: int, last: int)

  function Level(c: Config, b: Bucket, now: int): int {
    if b.level + (now - b.last) <= Capacity(c) then b.level + (now - b.last) else Capacity(c)
  }

  predicate Allows(c: Config, b: Bucket, now: int) {
    Level(c, b, now) >= c.interval
  }

  function Take(c: Config, b: Bucket, now: int): Bucket {
    Bucket(if Allows(c, b, now) then Level(c, b, now) - c.interval else Level(c, b, now), now)
  }

  type Buckets = map<string, Bucket>

  datatype Request = Request(key: string, now: int)

  function Sweep(c: Config, bs: Buckets, now: int): Buckets {
    map k | k in bs && now - bs[k].last <= c.ttl :: bs[k]
  }

  /** The bucket a request meets: the stored one or a new full one. */
  function BucketFor(c: Config, bs: Buckets, r: Request): Bucket {
    if r.key in bs then bs[r.key] else Bucket(Capacity(c), r.now)
  }

  /** The buckets after one request, with or without the sweep before it. */
  function Served(c: Config, evict: bool, bs: Buckets, r: Request): Buckets {
    var before := if evict then Sweep(c, bs, r.now) else bs;
    before[r.key := Take(c, BucketFor(c, before, r), r.now)]
  }

  predicate Decision(c: Config, evict: bool, bs: Buckets, r: Request) {
    Allows(c, BucketFor(c, if evict then Sweep(c, bs, r.now) else bs, r), r.now)
  }

  /** The limiter in place. */
  class Limiter {
    const config: Config
    var buckets: Buckets

    constructor (perMinute: nat, burst: nat)
      requires perMinute > 0
      ensures config == ConfigOf(perMinute, burst) && buckets == map[]
      ensures config.burst == burst && config.ttl == 300_000_000_000
      ensures config.interval * perMinute <= 60_000_000_000 < (config.interval + 1) * perMinute
    {
      config := ConfigOf(perMinute, burst);
      buckets := map[];
    }

    method Handle(r: Request) returns (allowed: bool)
      modifies this
      ensures allowed == Decision(config, true, old(buckets), r)
      ensures buckets == Served(config, true, old(buckets), r)
      ensures forall k | k != r.key ::
                && (k in buckets <==> k in old(buckets) && r.now - old(buckets)[k].last <= config.ttl)
                && (k in buckets ==> buckets[k] == old(buckets)[k])
      ensures r.key in buckets && buckets[r.key].last == r.now
    {
      var todo := buckets.Keys;
      while todo != {}
        invariant todo <= old(buckets).Keys
        invariant buckets == map k | k in old(buckets) && (k in todo || r.now - old(buckets)[k].last <= config.ttl) ::
                    old(buckets)[k]
        decreases |todo|
      {
        var k :| k in todo;
        if r.now - buckets[k].last > config.ttl {
          buckets := buckets - {k};
        }
        todo := todo - {k};
      }
      assert buckets == Sweep(config, old(buckets), r.now);
      if r.key !in buckets {
        buckets := buckets[r.key := Bucket(Capacity(config), r.now)];
      }
      allowed := Allows(config, buckets[r.key], r.now);
      buckets := buckets[r.key := Take(config, buckets[r.key], r.now)];
    }
  }

  // ----- runs of requests

  ghost predicate Ordered(rs: seq<Request>) {
    forall i, j | 0 <= i < j < |rs| :: rs[i].now <= rs[j].now
  }

  function Decisions(c: Config, evict: bool, bs: Buckets, rs: seq<Request>): (ds: seq<bool>)
    ensures |ds| == |rs|
    decreases |rs|
  {
    if rs == [] then []
    else [Decision(c, evict, bs, rs[0])] + Decisions(c, evict, Served(c, evict, bs, rs[0]), rs[1..])
  }

  function After(c: Config, evict: bool, bs: Buckets, rs: seq<Request>): Buckets
    decreases |rs|
  {
    if rs == [] then bs else After(c, evict, Served(c, evict, bs, rs[0]), rs[1..])
  }

  // ----- eviction cannot be observed

  /** Levels are within bounds and no bucket was used in the future. */
  ghost predicate Plausible(c: Config, bs: Buckets, now: int) {
    forall k | k in bs :: 0 <= bs[k].level <= Capacity(c) && bs[k].last <= now
  }

  /** The evicting limiter's buckets are the other's, less some that are full by `now`. */
  ghost predicate Forgets(c: Config, swept: Buckets, kept: Buckets, now: int) {
    && (forall k | k in swept :: k in kept && swept[k] == kept[k])
    && (forall k | k in kept && k !in swept :: Level(c, kept[k], now) == Capacity(c))
  }

  lemma SweepForgetsOnlyFull(c: Config, swept: Buckets, kept: Buckets, before: int, now: int)
    requires Capacity(c) <= c.ttl + 1
    requires before <= now && Plausible(c, kept, before) && Forgets(c, swept, kept, before)
    ensures Forgets(c, Sweep(c, swept, now), kept, now) && Plausible(c, kept, now)
  {
  }

  lemma {:induction false} SweepingDecidesAlike(c: Config, swept: Buckets, kept: Buckets, before: int, rs: seq<Request>)
    requires Capacity(c) <= c.ttl + 1
    requires Plausible(c, kept, before) && Forgets(c, swept, kept, before)
    requires Ordered(rs) && (rs != [] ==> before <= rs[0].now)
    ensures Decisions(c, true, swept, rs) == Decisions(c, false, kept, rs)
    decreases |rs|
  {
    if rs != [] {
      var r := rs[0];
      SweepForgetsOnlyFull(c, swept, kept, before, r.now);
      var swept', kept' := Served(c, true, swept, r), Served(c, false, kept, r);
      assert Forgets(c, swept', kept', r.now);
      assert Plausible(c, kept', r.now);
      SweepingDecidesAlike(c, swept', kept', r.now, rs[1..]);
    }
  }

  // ----- how much a bucket lets through

  /** The requests for `key` that were allowed. */
  function AllowedFor(key: string, rs: seq<Request>, ds: seq<bool>): nat
    requires |rs| == |ds|
  {
    if rs == [] then 0
    else (if rs[0].key == key && ds[0] then 1 else 0) + AllowedFor(key, rs[1..], ds[1..])
  }

  function LevelFor(c: Config, bs: Buckets, key: string, now: int): int {
    if key in bs then Level(c, bs[key], now) else Capacity(c)
  }

  lemma OneRequestIsPaidFor(c: Config, bs: Buckets, key: string, r: Request)
    requires Plausible(c, bs, r.now)
    ensures var bs' := Served(c, false, bs, r);
            && Plausible(c, bs', r.now)
            && LevelFor(c, bs', key, r.now)
               == LevelFor(c, bs, key, r.now) - (if r.key == key && Decision(c, false, bs, r) then c.interval else 0)
  {
  }

  lemma LevelGrowsWithTime(c: Config, bs: Buckets, key: string, from: int, to: int)
    requires Plausible(c, bs, from) && from <= to
    ensures 0 <= LevelFor(c, bs, key, to) <= LevelFor(c, bs, key, from) + (to - from)
  {
  }

  /** Conservation: what is let through was in the bucket or has been refilled meanwhile. */
  lemma {:induction false} AllowedIsPaidFor(c: Config, bs: Buckets, key: string, rs: seq<Request>)
    requires rs != [] && Ordered(rs) && Plausible(c, bs, rs[0].now)
    ensures AllowedFor(key, rs, Decisions(c, false, bs, rs)) * c.interval
            <= LevelFor(c, bs, key, rs[0].now) + rs[|rs| - 1].now - rs[0].now
    decreases |rs|
  {
    var r, bs' := rs[0], Served(c, false, bs, rs[0]);
    OneRequestIsPaidFor(c, bs, key, r);
    var rest := AllowedFor(key, rs[1..], Decisions(c, false, bs', rs[1..]));
    var first := if r.key == key && Decision(c, false, bs, r) then 1 else 0;
    assert AllowedFor(key, rs, Decisions(c, false, bs, rs)) == first + rest by {
      assert Decisions(c, false, bs, rs)[1..] == Decisions(c, false, bs', rs[1..]);
    }
    assert (first + rest) * c.interval == first * c.interval + rest * c.interval;
    if |rs| > 1 {
      AllowedIsPaidFor(c, bs', key, rs[1..]);
      LevelGrowsWithTime(c, bs', key, r.now, rs[1].now);
    } else {
      LevelGrowsWithTime(c, bs', key, r.now, r.now);
    }
  }

  lemma {:induction false} DecisionsSplit(c: Config, evict: bool, bs: Buckets, rs: seq<Request>, i: nat)
    requires i <= |rs|
    ensures Decisions(c, evict, bs, rs)[i..] == Decisions(c, evict, After(c, evict, bs, rs[..i]), rs[i..])
    decreases |rs|
  {
    if i > 0 {
      var bs' := Served(c, evict, bs, rs[0]);
      DecisionsSplit(c, evict, bs', rs[1..], i - 1);
      assert rs[..i][1..] == rs[1..][..i - 1] && rs[1..][i - 1..] == rs[i..];
      assert Decisions(c, evict, bs, rs)[i..] == Decisions(c, evict, bs', rs[1..])[i - 1..];
    } else {
      assert rs[..0] == [] && rs[0..] == rs;
    }
  }

  lemma {:induction false} DecisionsPrefix(c: Config, evict: bool, bs: Buckets, rs: seq<Request>, j: nat)
    requires j <= |rs|
    ensures Decisions(c, evict, bs, rs)[..j] == Decisions(c, evict, bs, rs[..j])
    decreases |rs|
  {
    if j > 0 {
      var bs' := Served(c, evict, bs, rs[0]);
      DecisionsPrefix(c, evict, bs', rs[1..], j - 1);
      assert rs[..j][1..] == rs[1..][..j - 1];
    }
  }

  lemma {:induction false} AfterStaysPlausible(c: Config, bs: Buckets, rs: seq<Request>, now: int)
    requires Ordered(rs) && (forall k | 0 <= k < |rs| :: rs[k].now <= now)
    requires Plausible(c, bs, if rs == [] then now else rs[0].now)
    ensures Plausible(c, After(c, false, bs, rs), now)
    decreases |rs|
  {
    if rs != [] {
      var bs' := Served(c, false, bs, rs[0]);
      assert Plausible(c, bs', rs[0].now);
      AfterStaysPlausible(c, bs', rs[1..], now);
    }
  }

  /** The decisions in a stretch of a run are those of a run that starts with the buckets met there. */
  lemma DecisionsWithin(c: Config, evict: bool, bs: Buckets, rs: seq<Request>, i: nat, j: nat)
    requires i < j <= |rs|
    ensures Decisions(c, evict, bs, rs)[i..j] == Decisions(c, evict, After(c, evict, bs, rs[..i]), rs[i..j])
  {
    DecisionsSplit(c, evict, bs, rs, i);
    DecisionsPrefix(c, evict, After(c, evict, bs, rs[..i]), rs[i..], j - i);
    assert rs[i..][..j - i] == rs[i..j];
    assert Decisions(c, evict, bs, rs)[i..][..j - i] == Decisions(c, evict, bs, rs)[i..j];
  }

  /** The bound on any stretch of requests of the limiter that never forgets. */
  lemma WindowBoundKept(c: Config, key: string, rs: seq<Request>, i: nat, j: nat)
    requires Ordered(rs) && i < j <= |rs| && c.interval > 0
    ensures AllowedFor(key, rs[i..j], Decisions(c, false, map[], rs)[i..j])
            <= c.burst + (rs[j - 1].now - rs[i].now) / c.interval
  {
    var bs := After(c, false, map[], rs[..i]);
    DecisionsWithin(c, false, map[], rs, i, j);
    AfterStaysPlausible(c, map[], rs[..i], rs[i].now);
    AllowedIsPaidFor(c, bs, key, rs[i..j]);
    var allowed := AllowedFor(key, rs[i..j], Decisions(c, false, bs, rs[i..j]));
    Divide(allowed, c.burst, rs[j - 1].now - rs[i].now, c.interval);
  }

  lemma MulLeq(a: nat, b: nat, m: nat)
    requires a <= b
    ensures a * m <= b * m
  {
  }

  lemma Divide(n: nat, burst: nat, w: nat, interval: nat)
    requires interval > 0 && n * interval <= burst * interval + w
    ensures n <= burst + w / interval
  {
    var q := w / interval;
    assert w == q * interval + w % interval;
    assert (burst + q + 1) * interval == burst * interval + q * interval + interval;
    if n >= burst + q + 1 {
      MulLeq(burst + q + 1, n, interval);
    }
  }

  // ----- exactly which requests are let through

  /** The stretch from request `i` up to request `j`: what was let through for `key`. */
  function Spent(c: Config, evict: bool, key: string, rs: seq<Request>, i: nat, j: nat): nat
    requires i <= j <= |rs|
  {
    AllowedFor(key, rs[i..j], Decisions(c, evict, map[], rs)[i..j])
  }

  lemma {:induction false} AllowedForOneMore(key: string, rs: seq<Request>, ds: seq<bool>, r: Request, d: bool)
    requires |rs| == |ds|
    ensures AllowedFor(key, rs + [r], ds + [d]) == AllowedFor(key, rs, ds) + if r.key == key && d then 1 else 0
    decreases |rs|
  {
    if rs == [] {
      assert ([r])[1..] == [] && ([d])[1..] == [] && rs + [r] == [r] && ds + [d] == [d];
      assert AllowedFor(key, [r], [d]) == (if r.key == key && d then 1 else 0) + AllowedFor(key, [], []);
    } else {
      assert (rs + [r])[1..] == rs[1..] + [r] && (ds + [d])[1..] == ds[1..] + [d];
      AllowedForOneMore(key, rs[1..], ds[1..], r, d);
    }
  }

  lemma SpentOneMore(c: Config, evict: bool, key: string, rs: seq<Request>, i: nat, j: nat)
    requires i <= j < |rs|
    ensures Spent(c, evict, key, rs, i, j + 1)
            == Spent(c, evict, key, rs, i, j) + if rs[j].key == key && Decisions(c, evict, map[], rs)[j] then 1 else 0
  {
    var ds := Decisions(c, evict, map[], rs);
    assert rs[i..j + 1] == rs[i..j] + [rs[j]] && ds[i..j + 1] == ds[i..j] + [ds[j]];
    AllowedForOneMore(key, rs[i..j], ds[i..j], rs[j], ds[j]);
  }

  lemma {:induction false} AfterOneMore(c: Config, evict: bool, bs: Buckets, rs: seq<Request>, j: nat)
    requires j < |rs|
    ensures After(c, evict, bs, rs[..j + 1]) == Served(c, evict, After(c, evict, bs, rs[..j]), rs[j])
    ensures Decisions(c, evict, bs, rs)[j] == Decision(c, evict, After(c, evict, bs, rs[..j]), rs[j])
    decreases j
  {
    if j == 0 {
      assert rs[..1][1..] == [] && rs[..0] == [] && rs[..1][0] == rs[0];
      assert After(c, evict, bs, rs[..1]) == After(c, evict, Served(c, evict, bs, rs[0]), []);
    } else {
      AfterOneMore(c, evict, Served(c, evict, bs, rs[0]), rs[1..], j - 1);
      assert rs[..j + 1][1..] == rs[1..][..j] && rs[..j][1..] == rs[1..][..j - 1];
    }
  }

  /** What request `j` finds in the bucket of `key`, in the limiter that never forgets. */
  function Found(c: Config, key: string, rs: seq<Request>, j: nat): int
    requires j < |rs|
  {
    LevelFor(c, After(c, false, map[], rs[..j]), key, rs[j].now)
  }

  /** What the stretch from request `i` leaves for request `j`. */
  function Left(c: Config, key: string, rs: seq<Request>, i: nat, j: nat): int
    requires i <= j < |rs|
  {
    Capacity(c) + rs[j].now - rs[i].now - Spent(c, false, key, rs, i, j) * c.interval
  }

  /** What request `j` costs the bucket of `key`. */
  function Cost(c: Config, key: string, rs: seq<Request>, j: nat): int
    requires j < |rs|
  {
    if rs[j].key == key && Decisions(c, false, map[], rs)[j] then c.interval else 0
  }

  lemma LeftNext(c: Config, key: string, rs: seq<Request>, i: nat, j: nat)
    requires i <= j && j + 1 < |rs|
    ensures Left(c, key, rs, i, j + 1) == Left(c, key, rs, i, j) - Cost(c, key, rs, j) + rs[j + 1].now - rs[j].now
  {
    SpentOneMore(c, false, key, rs, i, j);
    var n := Spent(c, false, key, rs, i, j);
    assert (n + 1) * c.interval == n * c.interval + c.interval;
  }

  lemma LeftAtOnce(c: Config, key: string, rs: seq<Request>, j: nat)
    requires j < |rs|
    ensures Left(c, key, rs, j, j) == Capacity(c)
  {
    assert rs[j..j] == [];
  }

  lemma FoundNext(c: Config, key: string, rs: seq<Request>, j: nat)
    requires Ordered(rs) && j + 1 < |rs|
    ensures var left := Found(c, key, rs, j) - Cost(c, key, rs, j) + rs[j + 1].now - rs[j].now;
            Found(c, key, rs, j + 1) == if left <= Capacity(c) then left else Capacity(c)
  {
    var bs := After(c, false, map[], rs[..j]);
    AfterStaysPlausible(c, map[], rs[..j], rs[j].now);
    AfterOneMore(c, false, map[], rs, j);
    OneRequestIsPaidFor(c, bs, key, rs[j]);
    RefillsExactly(c, Served(c, false, bs, rs[j]), key, rs[j].now, rs[j + 1].now);
  }

  /** A bucket refills by one nanosecond's worth every nanosecond until it is full. */
  lemma RefillsExactly(c: Config, bs: Buckets, key: string, from: int, to: int)
    requires Plausible(c, bs, from) && from <= to
    ensures var later := LevelFor(c, bs, key, from) + (to - from);
            LevelFor(c, bs, key, to) == if later <= Capacity(c) then later else Capacity(c)
  {
  }

  /** The bucket holds as much as the tightest stretch leaves: for some stretch exactly, for all others at most. */
  lemma {:induction false} FoundIsTheTightest(c: Config, key: string, rs: seq<Request>, j: nat) returns (i: nat)
    requires Ordered(rs) && j < |rs|
    ensures i <= j && Found(c, key, rs, j) == Left(c, key, rs, i, j)
    ensures forall k | 0 <= k <= j :: Found(c, key, rs, j) <= Left(c, key, rs, k, j)
    decreases j
  {
    LeftAtOnce(c, key, rs, j);
    if j == 0 {
      i := 0;
      assert rs[..0] == [];
    } else {
      i := FoundIsTheTightest(c, key, rs, j - 1);
      FoundNext(c, key, rs, j - 1);
      forall k | 0 <= k < j
        ensures Left(c, key, rs, k, j)
                == Left(c, key, rs, k, j - 1) - Cost(c, key, rs, j - 1) + rs[j].now - rs[j - 1].now
      {
        LeftNext(c, key, rs, k, j - 1);
      }
      if Found(c, key, rs, j) == Capacity(c) {
        i := j;
      }
    }
  }

  /** Counting request `j`, the stretch from request `i` stays within the burst and the refills of its length. */
  predicate Fits(c: Config, evict: bool, key: string, rs: seq<Request>, i: nat, j: nat)
    requires i <= j < |rs| && c.interval > 0
  {
    Spent(c, evict, key, rs, i, j) + 1 <= c.burst + (rs[j].now - rs[i].now) / c.interval
  }

  lemma FitsByLeft(c: Config, key: string, rs: seq<Request>, i: nat, j: nat)
    requires Ordered(rs) && i <= j < |rs| && c.interval > 0
    ensures Fits(c, false, key, rs, i, j) <==> Left(c, key, rs, i, j) >= c.interval
  {
    FitsExactly(Spent(c, false, key, rs, i, j), c.burst, rs[j].now - rs[i].now, c.interval);
  }

  lemma DecidedByFound(c: Config, rs: seq<Request>, j: nat)
    requires Ordered(rs) && j < |rs|
    ensures Decisions(c, false, map[], rs)[j] <==> Found(c, rs[j].key, rs, j) >= c.interval
  {
    AfterOneMore(c, false, map[], rs, j);
    AfterStaysPlausible(c, map[], rs[..j], rs[j].now);
    DecidedByLevel(c, After(c, false, map[], rs[..j]), rs[j]);
  }

  /** The converse of the bound: a request is let through if and only if counting it keeps every stretch of the run
      that ends with it within the bound. */
  lemma AllowedExactlyWhenItFits(c: Config, rs: seq<Request>, j: nat)
    requires Ordered(rs) && j < |rs| && c.interval > 0
    ensures Decisions(c, false, map[], rs)[j] <==> forall i | 0 <= i <= j :: Fits(c, false, rs[j].key, rs, i, j)
  {
    var key := rs[j].key;
    DecidedByFound(c, rs, j);
    var t := FoundIsTheTightest(c, key, rs, j);
    forall i | 0 <= i <= j
      ensures Fits(c, false, key, rs, i, j) <==> Left(c, key, rs, i, j) >= c.interval
    {
      FitsByLeft(c, key, rs, i, j);
    }
    assert Fits(c, false, key, rs, t, j) <==> Found(c, key, rs, j) >= c.interval;
  }

  lemma DecidedByLevel(c: Config, bs: Buckets, r: Request)
    requires Plausible(c, bs, r.now)
    ensures Decision(c, false, bs, r) <==> LevelFor(c, bs, r.key, r.now) >= c.interval
  {
  }

  lemma FitsExactly(n: nat, burst: nat, w: nat, interval: nat)
    requires interval > 0
    ensures n + 1 <= burst + w / interval <==> burst * interval + w - n * interval >= interval
  {
    assert (n + 1) * interval == n * interval + interval;
    if burst * interval + w - n * interval >= interval {
      Divide(n + 1, burst, w, interval);
    }
    var q := w / interval;
    assert w >= q * interval;
    if n + 1 <= burst + q {
      MulLeq(n + 1, burst + q, interval);
      assert (burst + q) * interval == burst * interval + q * interval;
    }
  }

  // ----- when eviction can be observed after all

  function Repeat(r: Request, n: nat): seq<Request> {
    seq(n, _ => r)
  }

  lemma {:induction false} BurstDrains(c: Config, evict: bool, bs: Buckets, r: Request, n: nat)
    requires n <= c.burst && BucketFor(c, bs, r) == Bucket(n * c.interval, r.now)
    requires r.key in bs || n == c.burst
    requires evict ==> Sweep(c, bs, r.now) == bs
    ensures forall d | d in Decisions(c, evict, bs, Repeat(r, n)) :: d
    ensures n > 0 ==> After(c, evict, bs, Repeat(r, n)) == bs[r.key := Bucket(0, r.now)]
    decreases n
  {
    if n > 0 {
      var bs' := Served(c, evict, bs, r);
      assert Repeat(r, n)[1..] == Repeat(r, n - 1);
      assert n * c.interval == (n - 1) * c.interval + c.interval;
      MulLeq(n, c.burst, c.interval);
      assert bs' == bs[r.key := Bucket((n - 1) * c.interval, r.now)];
      assert evict ==> Sweep(c, bs', r.now) == bs';
      BurstDrains(c, evict, bs', r, n - 1);
    }
  }

  lemma {:induction false} AllTrueCountsAll(key: string, rs: seq<Request>, ds: seq<bool>)
    requires |rs| == |ds| && (forall k | 0 <= k < |rs| :: rs[k].key == key && ds[k])
    ensures AllowedFor(key, rs, ds) == |rs|
  {
    if rs != [] {
      AllTrueCountsAll(key, rs[1..], ds[1..]);
    }
  }

  /** A burst, a pause just longer than the time to live, and a second burst: the limiter that forgets
      lets all of it through, the other cannot if it takes longer than that to refill. */
  lemma LongRefillShows(c: Config) returns (rs: seq<Request>)
    requires Capacity(c) > c.ttl + 1
    ensures Ordered(rs) && Decisions(c, true, map[], rs) != Decisions(c, false, map[], rs)
  {
    var r0, r1 := Request("", 0), Request("", c.ttl + 1);
    var n := c.burst;
    rs := Repeat(r0, n) + Repeat(r1, n);
    BurstDrains(c, true, map[], r0, n);
    BurstDrains(c, false, map[], r0, n);
    assert rs[..n] == Repeat(r0, n) && rs[n..] == Repeat(r1, n);
    DecisionsSplit(c, true, map[], rs, n);
    DecisionsSplit(c, false, map[], rs, n);
    var drained: Buckets := map["" := Bucket(0, 0)];
    assert Decisions(c, true, map[], rs)[n..] == Decisions(c, true, drained, Repeat(r1, n));
    assert Decisions(c, false, map[], rs)[n..] == Decisions(c, false, drained, Repeat(r1, n));
    SecondBurstDiffers(c, drained, r1);
  }

  lemma ForgetfulLimiterAllowsAll(c: Config, drained: Buckets, r: Request)
    requires r == Request("", c.ttl + 1) && drained == map["" := Bucket(0, 0)]
    ensures forall d | d in Decisions(c, true, drained, Repeat(r, c.burst)) :: d
  {
    var rs := Repeat(r, c.burst);
    assert Sweep(c, drained, r.now) == map[];
    if rs != [] {
      assert Served(c, true, drained, r) == Served(c, true, map[], r);
      assert Decision(c, true, drained, r) == Decision(c, true, map[], r);
    }
    assert Decisions(c, true, drained, rs) == Decisions(c, true, map[], rs);
    BurstDrains(c, true, map[], r, c.burst);
  }

  lemma SecondBurstDiffers(c: Config, drained: Buckets, r: Request)
    requires Capacity(c) > c.ttl + 1
    requires r == Request("", c.ttl + 1) && drained == map["" := Bucket(0, 0)]
    ensures Decisions(c, true, drained, Repeat(r, c.burst)) != Decisions(c, false, drained, Repeat(r, c.burst))
  {
    var rs := Repeat(r, c.burst);
    var kept, forgetful := Decisions(c, false, drained, rs), Decisions(c, true, drained, rs);
    ForgetfulLimiterAllowsAll(c, drained, r);
    AllowedIsPaidFor(c, drained, "", rs);
    assert AllowedFor("", rs, kept) * c.interval <= c.ttl + 1;
    assert forall k | 0 <= k < |rs| :: forgetful[k] in forgetful;
    AllTrueCountsAll("", rs, forgetful);
    assert AllowedFor("", rs, forgetful) * c.interval == Capacity(c);
  }

  /** The sweep is unobservable exactly when a bucket refills before it can be swept. */
  lemma EvictionUnobservableExactlyWhenRefilled(c: Config)
    ensures (forall rs: seq<Request> | Ordered(rs) :: Decisions(c, true, map[], rs) == Decisions(c, false, map[], rs))
            <==> Capacity(c) <= c.ttl + 1
  {
    if Capacity(c) <= c.ttl + 1 {
      forall rs: seq<Request> | Ordered(rs)
        ensures Decisions(c, true, map[], rs) == Decisions(c, false, map[], rs)
      {
        SweepingDecidesAlike(c, map[], map[], if rs == [] then 0 else rs[0].now, rs);
      }
    } else {
      var rs := LongRefillShows(c);
    }
  }

  // ----- the limiter as deployed: 5 per minute, bursts of 5

  /** Across any number of sweeps and recreated buckets, at most 5 requests plus one for every 12 seconds
      pass for one key, in any stretch of the run. */
  lemma LoginWindowBound(key: string, rs: seq<Request>, i: nat, j: nat)
    requires Ordered(rs) && i < j <= |rs|
    ensures AllowedFor(key, rs[i..j], Decisions(ConfigOf(5, 5), true, map[], rs)[i..j])
            <= 5 + (rs[j - 1].now - rs[i].now) / 12_000_000_000
  {
    var c := ConfigOf(5, 5);
    assert c.interval == 12_000_000_000 && Capacity(c) == MINUTE;
    EvictionUnobservableExactlyWhenRefilled(c);
    WindowBoundKept(c, key, rs, i, j);
  }

  /** The deployed limiter, sweeps and all, lets a request through if and only if, for every stretch of the run that
      ends with it, those let through for its key before and it are at most 5 plus one for every 12 seconds. */
  lemma LoginAllowedExactly(rs: seq<Request>, j: nat)
    requires Ordered(rs) && j < |rs|
    ensures Decisions(ConfigOf(5, 5), true, map[], rs)[j]
            <==> forall i | 0 <= i <= j ::
                   Spent(ConfigOf(5, 5), true, rs[j].key, rs, i, j) + 1 <= 5 + (rs[j].now - rs[i].now) / 12_000_000_000
  {
    var c := ConfigOf(5, 5);
    assert c.interval == 12_000_000_000 && c.burst == 5 && Capacity(c) == MINUTE;
    EvictionUnobservableExactlyWhenRefilled(c);
    AllowedExactlyWhenItFits(c, rs, j);
    assert Decisions(c, true, map[], rs) == Decisions(c, false, map[], rs);
    forall i | 0 <= i <= j
      ensures Fits(c, false, rs[j].key, rs, i, j)
              <==> Spent(c, true, rs[j].key, rs, i, j) + 1 <= 5 + (rs[j].now - rs[i].now) / 12_000_000_000
    {
    }
  }

  /** Five attempts at once, and a sixth: it is let through from 12 seconds later on, and not before. */
  lemma SixthAttempt(key: string, later: nat) returns (rs: seq<Request>)
    ensures rs == Repeat(Request(key, 0), 5) + [Request(key, later)] && Ordered(rs)
    ensures Decisions(ConfigOf(5, 5), true, map[], rs)[5] <==> later >= 12_000_000_000
  {
    var c := ConfigOf(5, 5);
    rs := Repeat(Request(key, 0), 5) + [Request(key, later)];
    assert c.interval == 12_000_000_000 && Capacity(c) == MINUTE;
    EvictionUnobservableExactlyWhenRefilled(c);
    BurstDrains(c, false, map[], Request(key, 0), 5);
    assert rs[..5] == Repeat(Request(key, 0), 5);
    AfterOneMore(c, false, map[], rs, 5);
  }
}

/** The per-key token bucket with its idle sweeper
    (fintech-gateway-go/internal/ratelimit/limiter.go).

    Times and durations are whole nanoseconds; token counts are real numbers in place of
    floating-point ones.  The 64-bit arithmetic that computes the idle time is kept. */
module RateLimiter {
  import Int64

  const SECOND: int := 1_000_000_000
  const MINUTE: int := 60 * SECOND
  const MAX_DURATION: int := Int64.MAX

  datatype Config = Config(rate: real, burst: int)

  /** Four times the time a bucket takes to fill, in whole seconds, and at least a minute. */
  function IdleTTL(c: Config): (ttl: int)
    requires c.rate > 0.0
    ensures MINUTE <= ttl < MAX_DURATION
  {
    var d := Int64.Wrap((c.burst as real / c.rate * 4.0).Floor * SECOND);
    if d < MINUTE then MINUTE else d
  }

  datatype Bucket = Bucket(tokens: real, lastSeen: int)

  type Buckets = map<string, Bucket>

  /** `time.Time.Sub` saturates. */
  function Elapsed(now: int, then_: int): int {
    var d := now - then_;
    if d > MAX_DURATION then MAX_DURATION else if d < -Int64.TWO63 then -Int64.TWO63 else d
  }

  function Seconds(d: int): real {
    d as real / SECOND as real
  }

  /** The tokens that arrive in a duration. */
  function Gain(c: Config, d: int): real {
    Seconds(d) * c.rate
  }

  lemma GainGrows(c: Config, a: int, b: int)
    requires c.rate > 0.0 && a <= b
    ensures Gain(c, a) <= Gain(c, b)
    ensures Gain(c, 0) == 0.0
  {
    assert Seconds(a) <= Seconds(b);
    MulMonotone(Seconds(a), Seconds(b), c.rate);
  }

  /** What a key may spend in `d` nanoseconds: a burst, and the rate's share of the time. */
  function Quota(c: Config, d: int): real {
    c.burst as real + d as real / 1_000_000_000.0 * c.rate
  }

  lemma QuotaIs(c: Config, d: int)
    ensures Quota(c, d) == c.burst as real + Gain(c, d)
  {
  }

  lemma MulMonotone(a: real, b: real, rate: real)
    requires a <= b && rate > 0.0
    ensures a * rate <= b * rate
  {
  }

  lemma MulStrict(a: real, b: real, rate: real)
    requires a < b && rate > 0.0
    ensures a * rate < b * rate
  {
  }

  function Refilled(c: Config, b: Bucket, now: int): real {
    var tokens := b.tokens + Gain(c, Elapsed(now, b.lastSeen));
    if tokens > c.burst as real then c.burst as real else tokens
  }

  /** What a key could spend at `now`; a key without a bucket has a full one. */
  function Level(c: Config, m: Buckets, key: string, now: int): real {
    if key in m then Refilled(c, m[key], now) else c.burst as real
  }

  /** The answer to a request, when a bucket holds at least one token. */
  function Answer(c: Config, m: Buckets, key: string, now: int): bool {
    key !in m || Level(c, m, key, now) >= 1.0
  }

  function Spent(c: Config, m: Buckets, key: string, now: int): Buckets {
    m[key := Bucket(Level(c, m, key, now) - (if Answer(c, m, key, now) then 1.0 else 0.0), now)]
  }

  predicate IsIdle(c: Config, b: Bucket, asOf: int)
    requires c.rate > 0.0
  {
    b.lastSeen < asOf - IdleTTL(c)
  }

  class Limiter {
    const config: Config
    const idleTTL: int
    var buckets: Buckets

    ghost predicate Valid() {
      config.rate > 0.0 && idleTTL == IdleTTL(config)
    }

    constructor (rate: real, burst: int)
      requires rate > 0.0
      ensures Valid() && config == Config(rate, burst) && buckets == map[]
    {
      config := Config(rate, burst);
      var d := Int64.Wrap((burst as real / rate * 4.0).Floor * SECOND);
      idleTTL := if d < MINUTE then MINUTE else d;
      buckets := map[];
    }

    method Allow(key: string, now: int) returns (ok: bool)
      modifies this`buckets
      ensures ok == Answer(config, old(buckets), key, now)
      ensures buckets == Spent(config, old(buckets), key, now)
      ensures buckets.Keys == old(buckets).Keys + {key} && buckets[key].lastSeen == now
      ensures forall other | other in old(buckets) && other != key :: buckets[other] == old(buckets)[other]
      ensures key !in old(buckets) ==> ok && buckets[key].tokens == config.burst as real - 1.0
      ensures key in old(buckets) ==>
              var least, most := -0x8000_0000_0000_0000, 0x7fff_ffff_ffff_ffff;
              var gap := now - old(buckets)[key].lastSeen;
              var elapsed := if gap < least then least else if gap > most then most else gap;
              var arrived := elapsed as real / 1_000_000_000.0 * config.rate;
              var full, sum := config.burst as real, old(buckets)[key].tokens + arrived;
              var tokens := if sum > full then full else sum;
              && (ok <==> tokens >= 1.0)
              && buckets[key].tokens == (if ok then tokens - 1.0 else tokens)
    {
      if key !in buckets {
        buckets := buckets[key := Bucket(config.burst as real - 1.0, now)];
        return true;
      }
      var b := buckets[key];
      var tokens := b.tokens + Gain(config, Elapsed(now, b.lastSeen));
      if tokens > config.burst as real {
        tokens := config.burst as real;
      }
      assert tokens == Level(config, buckets, key, now);
      if tokens < 1.0 {
        buckets := buckets[key := Bucket(tokens, now)];
        return false;
      }
      buckets := buckets[key := Bucket(tokens - 1.0, now)];
      ok := true;
    }

    method Sweep(now: int)
      requires Valid()
      modifies this`buckets
      ensures buckets == map k | k in old(buckets) && !IsIdle(config, old(buckets)[k], now) :: old(buckets)[k]
    {
      var cutoff := now - idleTTL;
      ghost var before := buckets;
      var todo := buckets.Keys;
      while todo != {}
        invariant todo <= before.Keys
        invariant buckets == map k | k in before && (k in todo || !IsIdle(config, before[k], now)) :: before[k]
        decreases |todo|
      {
        var key :| key in todo;
        if buckets[key].lastSeen < cutoff {
          buckets := buckets - {key};
        }
        todo := todo - {key};
      }
    }
  }

  // ---------------------------------------------------------------- runs

  /** The steps in the order of the lock: a request with the reading it took before, or the sweeper
      coming to one key and dropping it if it was idle at the sweep's one reading `asOf`. */
  datatype Step =
    | Request(key: string, at: int)
    | Drop(key: string, asOf: int)

  function Reading(s: Step): int {
    match s
    case Request(_, at) => at
    case Drop(_, asOf) => asOf
  }

  /** A request that reads `now` can come after the first `k` steps: no reading used in them is
      more than `lag` later, because that is the most a request waits for the lock. */
  ghost predicate Admits(run: seq<Step>, k: nat, lag: nat, now: int)
    requires k <= |run|
  {
    forall i | 0 <= i < k :: Reading(run[i]) <= now + lag
  }

  /** The clock does not run backward, but requests may be overtaken by others and by sweeps for
      up to `lag` between their reading and the lock. */
  ghost predicate IsRun(run: seq<Step>, lag: nat) {
    forall j | 0 <= j < |run| && run[j].Request? :: Admits(run, j, lag, run[j].at)
  }

  /** The sweeper at one key. */
  function Dropped(c: Config, m: Buckets, key: string, asOf: int): Buckets
    requires c.rate > 0.0
  {
    if key in m && IsIdle(c, m[key], asOf) then m - {key} else m
  }

  function DroppedAll(c: Config, m: Buckets, keys: seq<string>, asOf: int): Buckets
    requires c.rate > 0.0
  {
    if keys == [] then m else Dropped(c, DroppedAll(c, m, keys[..|keys| - 1], asOf), keys[|keys| - 1], asOf)
  }

  /** A sweep that nobody disturbs is the drops of all keys, in any order. */
  lemma {:induction false} SweepIsDrops(c: Config, m: Buckets, keys: seq<string>, asOf: int)
    requires c.rate > 0.0
    ensures DroppedAll(c, m, keys, asOf) == map k | k in m && !(k in keys && IsIdle(c, m[k], asOf)) :: m[k]
  {
    if keys != [] {
      SweepIsDrops(c, m, keys[..|keys| - 1], asOf);
      assert keys == keys[..|keys| - 1] + [keys[|keys| - 1]];
    }
  }

  /** The buckets after `k` steps, with or without the sweeper at work. */
  function After(c: Config, run: seq<Step>, k: nat, sweeping: bool): Buckets
    requires c.rate > 0.0 && k <= |run|
  {
    if k == 0 then map[]
    else
      var m := After(c, run, k - 1, sweeping);
      match run[k - 1]
      case Request(key, at) => Spent(c, m, key, at)
      case Drop(key, asOf) =>
        if sweeping then Dropped(c, m, key, asOf) else m
  }

  function AnswerAt(c: Config, run: seq<Step>, k: nat, sweeping: bool): bool
    requires c.rate > 0.0 && k < |run| && run[k].Request?
  {
    Answer(c, After(c, run, k, sweeping), run[k].key, run[k].at)
  }

  /** The shortest idle time of a dropped bucket, one nanosecond more than the idle time, brings in
      a whole burst even when the bucket's last request and the next one both lag behind. */
  predicate Covers(c: Config, lag: nat)
    requires c.rate > 0.0
  {
    (IdleTTL(c) + 1 - 2 * lag) as real / 1_000_000_000.0 * c.rate >= c.burst as real
  }

  lemma CoveredLagIsShort(c: Config, lag: nat)
    requires c.rate > 0.0 && c.burst >= 1 && Covers(c, lag)
    ensures 2 * lag <= IdleTTL(c) && lag <= MAX_DURATION
  {
    var least := IdleTTL(c) + 1 - 2 * lag;
    if least <= 0 {
      GainGrows(c, least, 0);
    }
  }

  // ---------------------------------------------------------------- how low a bucket can be

  /** No request of the key has read later than `hi`. */
  ghost predicate NoneAbove(run: seq<Step>, k: nat, key: string, hi: int)
    requires k <= |run|
  {
    forall i | 0 <= i < k && run[i].Request? && run[i].key == key :: run[i].at <= hi
  }

  /** A request that may lag leaves a bucket that the latest reading would bring back above
      zero. */
  lemma SpendingKeepsFloor(c: Config, m: Buckets, key: string, now: int, hi: int, lag: nat)
    requires c.rate > 0.0 && c.burst >= 1 && lag <= MAX_DURATION && now <= hi
    requires key in m ==>
               && m[key].tokens + Gain(c, hi - m[key].lastSeen) >= 0.0
               && m[key].tokens >= -Gain(c, lag) && m[key].lastSeen <= now + lag
    ensures Spent(c, m, key, now)[key].tokens + Gain(c, hi - now) >= 0.0
    ensures Spent(c, m, key, now)[key].tokens <= c.burst as real
  {
    GainGrows(c, 0, hi - now);
    if key in m {
      var b, d := m[key], Elapsed(now, m[key].lastSeen);
      if d == MAX_DURATION {
        GainGrows(c, lag, d);
      } else {
        GainAdds(c, d, hi - now);
      }
    }
  }

  lemma {:induction false} Floor(c: Config, run: seq<Step>, k: nat, lag: nat, sweeping: bool, key: string, hi: int)
    requires c.rate > 0.0 && c.burst >= 1 && lag <= MAX_DURATION && IsRun(run, lag) && k <= |run|
    requires NoneAbove(run, k, key, hi)
    ensures var m := After(c, run, k, sweeping);
            key in m ==>
              && m[key].tokens + Gain(c, hi - m[key].lastSeen) >= 0.0
              && -Gain(c, lag) <= m[key].tokens <= c.burst as real
              && (exists i | 0 <= i < k :: run[i] == Request(key, m[key].lastSeen))
  {
    if k > 0 {
      Floor(c, run, k - 1, lag, sweeping, key, hi);
      var m, s := After(c, run, k - 1, sweeping), run[k - 1];
      if s.Request? && s.key == key {
        assert Admits(run, k - 1, lag, s.at);
        Floor(c, run, k - 1, lag, sweeping, key, s.at + lag);
        SpendingKeepsFloor(c, m, key, s.at, hi, lag);
        SpendingKeepsFloor(c, m, key, s.at, s.at + lag, lag);
      }
    }
  }

  /** There is always a bound on the readings of a key. */
  lemma {:induction false} SomeBound(run: seq<Step>, k: nat, key: string) returns (hi: int)
    requires k <= |run|
    ensures NoneAbove(run, k, key, hi)
  {
    hi := 0;
    if k > 0 {
      hi := SomeBound(run, k - 1, key);
      if run[k - 1].Request? && run[k - 1].at > hi {
        hi := run[k - 1].at;
      }
    }
  }

  // ---------------------------------------------------------------- sweeping is invisible

  /** A bucket dropped at `asOf` would have been full at every reading that can still come. */
  lemma IdleIsFull(c: Config, b: Bucket, asOf: int, now: int, lag: nat)
    requires c.rate > 0.0 && c.burst >= 1 && Covers(c, lag) && b.tokens >= -Gain(c, lag)
    requires IsIdle(c, b, asOf) && asOf <= now + lag
    ensures Refilled(c, b, now) == c.burst as real
  {
    CoveredLagIsShort(c, lag);
    var least := IdleTTL(c) + 1 - lag;
    GainAdds(c, least - lag, lag);
    GainGrows(c, least, Elapsed(now, b.lastSeen));
  }

  /** With and without the sweeper a key has the same bucket, or none against one that is full
      whenever the next request comes. */
  ghost predicate SameToKey(c: Config, swept: Buckets, kept: Buckets, key: string, run: seq<Step>, k: nat, lag: nat)
    requires k <= |run|
  {
    if key in swept then key in kept && swept[key] == kept[key]
    else key in kept ==> forall now: int | Admits(run, k, lag, now) :: Refilled(c, kept[key], now) == c.burst as real
  }

  lemma AdmitsLess(run: seq<Step>, k: nat, lag: nat, now: int)
    requires 0 < k <= |run| && Admits(run, k, lag, now)
    ensures Admits(run, k - 1, lag, now) && Reading(run[k - 1]) <= now + lag
  {
  }

  lemma {:induction false} SweptAndKeptAgree(c: Config, run: seq<Step>, k: nat, lag: nat, key: string)
    requires c.rate > 0.0 && c.burst >= 1 && Covers(c, lag) && IsRun(run, lag) && k <= |run|
    ensures SameToKey(c, After(c, run, k, true), After(c, run, k, false), key, run, k, lag)
  {
    if k > 0 {
      SweptAndKeptAgree(c, run, k - 1, lag, key);
      var swept, kept, s := After(c, run, k - 1, true), After(c, run, k - 1, false), run[k - 1];
      if s.Request? && s.key == key {
        assert Admits(run, k - 1, lag, s.at);
      } else if s.Drop? && s.key == key && key in swept && IsIdle(c, swept[key], s.asOf) {
        DropIsInvisible(c, run, k, lag, key);
      } else {
        forall now: int | Admits(run, k, lag, now)
          ensures Admits(run, k - 1, lag, now)
        {
          AdmitsLess(run, k, lag, now);
        }
      }
    }
  }

  lemma DropIsInvisible(c: Config, run: seq<Step>, k: nat, lag: nat, key: string)
    requires c.rate > 0.0 && c.burst >= 1 && Covers(c, lag) && IsRun(run, lag) && 0 < k <= |run|
    requires run[k - 1].Drop? && key in After(c, run, k - 1, false)
    requires IsIdle(c, After(c, run, k - 1, false)[key], run[k - 1].asOf)
    ensures forall now: int | Admits(run, k, lag, now) ::
              Refilled(c, After(c, run, k - 1, false)[key], now) == c.burst as real
  {
    var b := After(c, run, k - 1, false)[key];
    CoveredLagIsShort(c, lag);
    var hi := SomeBound(run, k - 1, key);
    Floor(c, run, k - 1, lag, false, key, hi);
    forall now: int | Admits(run, k, lag, now)
      ensures Refilled(c, b, now) == c.burst as real
    {
      AdmitsLess(run, k, lag, now);
      IdleIsFull(c, b, run[k - 1].asOf, now, lag);
    }
  }

  ghost predicate SweepingIsInvisible(c: Config, lag: nat)
    requires c.rate > 0.0
  {
    forall run: seq<Step>, k: nat | IsRun(run, lag) && k < |run| && run[k].Request? ::
      AnswerAt(c, run, k, true) == AnswerAt(c, run, k, false)
  }

  lemma CoveredAnswersAgree(c: Config, run: seq<Step>, k: nat, lag: nat)
    requires c.rate > 0.0 && c.burst >= 1 && Covers(c, lag) && IsRun(run, lag) && k < |run| && run[k].Request?
    ensures AnswerAt(c, run, k, true) == AnswerAt(c, run, k, false)
  {
    SweptAndKeptAgree(c, run, k, lag, run[k].key);
    assert Admits(run, k, lag, run[k].at);
  }

  // ---------------------------------------------------------------- the rate over a window

  /** The requests of one key allowed in steps `i` to `k`. */
  ghost function AllowedIn(c: Config, run: seq<Step>, i: nat, k: nat, key: string, sweeping: bool): nat
    requires c.rate > 0.0 && i <= k <= |run|
    decreases k
  {
    if i == k then 0
    else
      var last := run[k - 1].Request? && run[k - 1].key == key && AnswerAt(c, run, k - 1, sweeping);
      AllowedIn(c, run, i, k - 1, key, sweeping) + (if last then 1 else 0)
  }

  lemma {:induction false} CoveredCountsAgree(c: Config, run: seq<Step>, i: nat, k: nat, lag: nat, key: string)
    requires c.rate > 0.0 && c.burst >= 1 && Covers(c, lag) && IsRun(run, lag) && i <= k <= |run|
    ensures AllowedIn(c, run, i, k, key, true) == AllowedIn(c, run, i, k, key, false)
    decreases k
  {
    if i < k {
      CoveredCountsAgree(c, run, i, k - 1, lag, key);
      if run[k - 1].Request? {
        CoveredAnswersAgree(c, run, k - 1, lag);
      }
    }
  }

  lemma GainAdds(c: Config, a: int, b: int)
    ensures Gain(c, a + b) == Gain(c, a) + Gain(c, b)
  {
    assert Seconds(a + b) == Seconds(a) + Seconds(b);
  }

  /** A bucket's tokens, as they would have been at time zero. */
  function Potential(c: Config, b: Bucket): real {
    b.tokens - Gain(c, b.lastSeen)
  }

  /** Every allowed request lowers the potential by one, and nothing raises it, in whatever order
      the readings come. */
  lemma SpendingLowersPotential(c: Config, m: Buckets, key: string, now: int)
    requires c.rate > 0.0 && key in m && now - m[key].lastSeen >= -Int64.TWO63
    ensures Potential(c, Spent(c, m, key, now)[key]) + (if Answer(c, m, key, now) then 1.0 else 0.0)
            <= Potential(c, m[key])
  {
    var b := m[key];
    GainGrows(c, Elapsed(now, b.lastSeen), now - b.lastSeen);
    GainAdds(c, now - b.lastSeen, b.lastSeen);
  }

  /** A request leaves a potential of at most a full bucket at its reading, less what it took. */
  lemma FirstSpendIsBounded(c: Config, m: Buckets, key: string, now: int)
    requires c.rate > 0.0
    ensures Potential(c, Spent(c, m, key, now)[key]) + (if Answer(c, m, key, now) then 1.0 else 0.0)
            <= c.burst as real - Gain(c, now)
  {
  }

  lemma {:induction false} WindowPays(c: Config, run: seq<Step>, i: nat, k: nat, lag: nat, key: string)
    requires c.rate > 0.0 && c.burst >= 1 && lag <= MAX_DURATION && IsRun(run, lag) && i < k <= |run|
    requires run[i].Request? && run[i].key == key
    ensures var m := After(c, run, k, false);
            && key in m
            && AllowedIn(c, run, i, k, key, false) as real + Potential(c, m[key])
               <= c.burst as real - Gain(c, run[i].at)
    decreases k
  {
    var m, s := After(c, run, k - 1, false), run[k - 1];
    if i == k - 1 {
      FirstSpendIsBounded(c, m, key, s.at);
    } else {
      WindowPays(c, run, i, k - 1, lag, key);
      if s.Request? && s.key == key {
        var hi := SomeBound(run, k - 1, key);
        Floor(c, run, k - 1, lag, false, key, hi);
        assert Admits(run, k - 1, lag, s.at);
        SpendingLowersPotential(c, m, key, s.at);
      }
    }
  }

  /** In every stretch that starts with a request of the key, at most a burst is allowed, plus what
      the rate brings in from that request's reading to the latest one of the key so far. */
  ghost predicate RateIsBounded(c: Config, lag: nat)
    requires c.rate > 0.0
  {
    forall run: seq<Step>, i: nat, k: nat, hi: int
      | IsRun(run, lag) && i < k <= |run| && run[i].Request? && NoneAbove(run, k, run[i].key, hi) ::
      AllowedIn(c, run, i, k, run[i].key, true) as real <= Quota(c, hi - run[i].at)
  }

  lemma CoveredRateIsBounded(c: Config, run: seq<Step>, i: nat, k: nat, lag: nat, hi: int)
    requires c.rate > 0.0 && c.burst >= 1 && Covers(c, lag) && IsRun(run, lag) && i < k <= |run|
    requires run[i].Request? && NoneAbove(run, k, run[i].key, hi)
    ensures AllowedIn(c, run, i, k, run[i].key, true) as real <= Quota(c, hi - run[i].at)
  {
    QuotaIs(c, hi - run[i].at);
    var key := run[i].key;
    CoveredLagIsShort(c, lag);
    CoveredCountsAgree(c, run, i, k, lag, key);
    WindowPays(c, run, i, k, lag, key);
    Floor(c, run, k, lag, false, key, hi);
    var b := After(c, run, k, false)[key];
    GainAdds(c, hi - b.lastSeen, b.lastSeen);
    GainAdds(c, hi - run[i].at, run[i].at);
  }

  function Longer(a: nat, b: nat): nat {
    if a > b then a else b
  }

  /** So in every stretch in which the key's readings span no more than `length`, at most a burst is
      allowed, plus what the rate brings in over that length or the lag, whichever is longer. */
  lemma {:induction false} WindowIsBounded(c: Config, run: seq<Step>, i: nat, k: nat, lag: nat, key: string, from: int,
                                           length: nat)
    requires c.rate > 0.0 && c.burst >= 1 && Covers(c, lag) && IsRun(run, lag) && i <= k <= |run|
    requires forall j | i <= j < k && run[j].Request? && run[j].key == key :: from <= run[j].at <= from + length
    ensures AllowedIn(c, run, i, k, key, true) as real <= Quota(c, Longer(length, lag))
    decreases k - i
  {
    QuotaIs(c, Longer(length, lag));
    if i == k {
      GainGrows(c, 0, Longer(length, lag));
    } else if run[i].Request? && run[i].key == key {
      assert Admits(run, i, lag, run[i].at);
      var hi := run[i].at + Longer(from + length - run[i].at, lag);
      CoveredRateIsBounded(c, run, i, k, lag, hi);
      QuotaIs(c, hi - run[i].at);
      GainGrows(c, hi - run[i].at, Longer(length, lag));
    } else {
      WindowIsBounded(c, run, i + 1, k, lag, key, from, length);
      AllowedSkips(c, run, i, k, key);
    }
  }

  lemma {:induction false} AllowedSkips(c: Config, run: seq<Step>, i: nat, k: nat, key: string)
    requires c.rate > 0.0 && i < k <= |run| && !(run[i].Request? && run[i].key == key)
    ensures AllowedIn(c, run, i, k, key, true) == AllowedIn(c, run, i + 1, k, key, true)
    decreases k
  {
    if i + 1 < k {
      AllowedSkips(c, run, i, k - 1, key);
    }
  }

  // ---------------------------------------------------------------- exactly when

  /** The level after `j` requests at one instant. */
  function Drained(level: real, j: nat): real {
    if j == 0 then level
    else
      var before := Drained(level, j - 1);
      if before >= 1.0 then before - 1.0 else before
  }

  lemma {:induction false} DrainedIs(level: real, j: nat)
    ensures level >= j as real ==> Drained(level, j) == level - j as real
    ensures Drained(level, j) == level - j as real || Drained(level, j) < 1.0
  {
    if j > 0 {
      DrainedIs(level, j - 1);
    }
  }

  /** Steps `s` to `s + n` are requests of one key with one reading. */
  ghost predicate IsBurst(run: seq<Step>, s: nat, n: nat, key: string, at: int) {
    s + n <= |run| && forall i | s <= i < s + n :: run[i] == Request(key, at)
  }

  lemma {:induction false} BurstDrains(c: Config, run: seq<Step>, s: nat, n: nat, j: nat, key: string, at: int,
                                       sweeping: bool)
    requires c.rate > 0.0 && c.burst >= 1 && j <= n && IsBurst(run, s, n, key, at)
    ensures var level := Level(c, After(c, run, s, sweeping), key, at);
            && Level(c, After(c, run, s + j, sweeping), key, at) == Drained(level, j)
            && (j > 0 ==> var m := After(c, run, s + j, sweeping);
                          key in m && m[key] == Bucket(Drained(level, j), at))
            && (j < n ==> AnswerAt(c, run, s + j, sweeping) == (Drained(level, j) >= 1.0))
    decreases j
  {
    GainGrows(c, 0, 0);
    if j > 0 {
      BurstDrains(c, run, s, n, j - 1, key, at, sweeping);
      assert run[s + j - 1] == Request(key, at);
      DrainedStays(Level(c, After(c, run, s, sweeping), key, at), j);
      LevelIsCapped(c, After(c, run, s, sweeping), key, at);
    }
    assert j < n ==> run[s + j] == Request(key, at);
  }

  lemma LevelIsCapped(c: Config, m: Buckets, key: string, now: int)
    ensures Level(c, m, key, now) <= c.burst as real
  {
  }

  lemma {:induction false} DrainedStays(level: real, j: nat)
    ensures Drained(level, j) <= level
  {
    if j > 0 {
      DrainedStays(level, j - 1);
    }
  }

  lemma {:induction false} FullBurstIsAllowed(c: Config, run: seq<Step>, i: nat, s: nat, n: nat, key: string, at: int)
    requires c.rate > 0.0 && c.burst >= 1 && n <= c.burst && i <= s && IsBurst(run, s, n, key, at)
    requires Level(c, After(c, run, s, true), key, at) == c.burst as real
    ensures AllowedIn(c, run, i, s + n, key, true) == AllowedIn(c, run, i, s, key, true) + n
  {
    if n > 0 {
      FullBurstIsAllowed(c, run, i, s, n - 1, key, at);
      BurstDrains(c, run, s, n, n - 1, key, at, true);
      DrainedIs(c.burst as real, n - 1);
    }
  }

  /** Drain a key; let a request that lags find it empty; let the sweeper drop it as soon as it may;
      and drain it again with requests that lag behind the sweeper. */
  ghost predicate IsWitness(run: seq<Step>, n: nat, back: int, asOf: int, last: int) {
    && |run| == 2 * n + 2
    && IsBurst(run, 0, n, "key", 0) && run[n] == Request("key", back) && run[n + 1] == Drop("key", asOf)
    && IsBurst(run, n + 2, n, "key", last)
  }

  lemma WitnessExists(n: nat, back: int, asOf: int, last: int) returns (run: seq<Step>)
    ensures IsWitness(run, n, back, asOf, last)
  {
    run := seq(n, _ => Request("key", 0)) + [Request("key", back), Drop("key", asOf)]
        + seq(n, _ => Request("key", last));
  }

  lemma WitnessIsRun(run: seq<Step>, n: nat, t: int, lag: int, most: nat)
    requires 0 <= lag <= t && lag <= most && IsWitness(run, n, -lag, t - lag, t - 2 * lag)
    ensures IsRun(run, most)
  {
    forall j | 0 <= j < |run| && run[j].Request?
      ensures Admits(run, j, most, run[j].at)
    {
      forall i | 0 <= i < j
        ensures Reading(run[i]) <= run[j].at + most
      {
        if i < n {
          assert run[i] == Request("key", 0);
        } else if i >= n + 2 {
          assert run[i] == Request("key", t - 2 * lag);
        }
      }
    }
  }

  lemma FirstBurstEmpties(c: Config, run: seq<Step>, n: nat, sweeping: bool)
    requires c.rate > 0.0 && c.burst == n >= 1 && IsBurst(run, 0, n, "key", 0)
    ensures var m := After(c, run, n, sweeping);
            "key" in m && m["key"] == Bucket(0.0, 0)
  {
    DrainedIs(n as real, n);
    BurstDrains(c, run, 0, n, n, "key", 0, sweeping);
  }

  /** A lagging request pulls an empty bucket below zero. */
  lemma EmptyIsPulledDown(c: Config, m: Buckets, back: int)
    requires c.rate > 0.0 && c.burst >= 1 && -MAX_DURATION <= back <= 0
    requires "key" in m && m["key"] == Bucket(0.0, 0)
    ensures !Answer(c, m, "key", back) && Spent(c, m, "key", back)["key"] == Bucket(Gain(c, back), back)
  {
    GainGrows(c, back, 0);
    assert Elapsed(back, 0) == back;
  }

  lemma BucketIsPulledDown(c: Config, run: seq<Step>, n: nat, back: int, asOf: int, last: int, sweeping: bool)
    requires c.rate > 0.0 && c.burst == n >= 1 && -MAX_DURATION <= back <= 0 && IsWitness(run, n, back, asOf, last)
    ensures var m := After(c, run, n + 1, sweeping);
            "key" in m && m["key"] == Bucket(Gain(c, back), back)
    ensures !AnswerAt(c, run, n, sweeping)
  {
    FirstBurstEmpties(c, run, n, sweeping);
    EmptyIsPulledDown(c, After(c, run, n, sweeping), back);
  }

  /** Then the swept key is full again, and the kept one has only what the idle time brought. */
  lemma WitnessLevels(c: Config, run: seq<Step>, n: nat, t: int, lag: int)
    requires c.rate > 0.0 && c.burst == n >= 1 && t == IdleTTL(c) + 1 && 0 <= lag <= t
    requires IsWitness(run, n, -lag, t - lag, t - 2 * lag) && Gain(c, t - 2 * lag) < n as real
    ensures Level(c, After(c, run, n + 2, true), "key", t - 2 * lag) == n as real
    ensures Level(c, After(c, run, n + 2, false), "key", t - 2 * lag) == Gain(c, t - 2 * lag)
  {
    BucketIsPulledDown(c, run, n, -lag, t - lag, t - 2 * lag, true);
    BucketIsPulledDown(c, run, n, -lag, t - lag, t - 2 * lag, false);
    GainAdds(c, -lag, t - lag);
    assert Elapsed(t - 2 * lag, -lag) == t - lag;
  }

  /** The last of a burst of `n` requests is allowed exactly when the key started with `n` tokens. */
  lemma LastOfBurst(c: Config, run: seq<Step>, s: nat, n: nat, key: string, at: int, sweeping: bool)
    requires c.rate > 0.0 && c.burst >= 1 && n >= 1 && IsBurst(run, s, n, key, at)
    ensures run[s + n - 1] == Request(key, at)
    ensures AnswerAt(c, run, s + n - 1, sweeping) <==> Level(c, After(c, run, s, sweeping), key, at) >= n as real
  {
    BurstDrains(c, run, s, n, n - 1, key, at, sweeping);
    DrainedIs(Level(c, After(c, run, s, sweeping), key, at), n - 1);
  }

  lemma UncoveredIsVisible(c: Config, n: nat, t: int, lag: int, most: nat)
    requires c.rate > 0.0 && c.burst == n >= 1 && t == IdleTTL(c) + 1 && 0 <= lag <= t && lag <= most
    requires Gain(c, t - 2 * lag) < n as real
    ensures !SweepingIsInvisible(c, most)
  {
    var at := t - 2 * lag;
    var run := WitnessExists(n, -lag, t - lag, at);
    WitnessIsRun(run, n, t, lag, most);
    WitnessLevels(c, run, n, t, lag);
    LastOfBurst(c, run, n + 2, n, "key", at, true);
    LastOfBurst(c, run, n + 2, n, "key", at, false);
    DifferingAnswerIsVisible(c, run, 2 * n + 1, most);
  }

  lemma DifferingAnswerIsVisible(c: Config, run: seq<Step>, k: nat, lag: nat)
    requires c.rate > 0.0 && IsRun(run, lag) && k < |run| && run[k].Request?
    requires AnswerAt(c, run, k, true) != AnswerAt(c, run, k, false)
    ensures !SweepingIsInvisible(c, lag)
  {
  }

  lemma FirstBurstIsAllowed(c: Config, run: seq<Step>, n: nat, back: int, asOf: int, last: int)
    requires c.rate > 0.0 && c.burst == n >= 1 && -MAX_DURATION <= back <= 0 && IsWitness(run, n, back, asOf, last)
    ensures AllowedIn(c, run, 0, n + 2, "key", true) == n
  {
    FullBurstIsAllowed(c, run, 0, 0, n, "key", 0);
    BucketIsPulledDown(c, run, n, back, asOf, last, true);
    assert AllowedIn(c, run, 0, n + 1, "key", true) == n;
  }

  lemma WitnessAllowsTwoBursts(c: Config, run: seq<Step>, n: nat, t: int, lag: int)
    requires c.rate > 0.0 && c.burst == n >= 1 && t == IdleTTL(c) + 1 && 0 <= lag <= t
    requires IsWitness(run, n, -lag, t - lag, t - 2 * lag) && Gain(c, t - 2 * lag) < n as real
    ensures AllowedIn(c, run, 0, 2 * n + 2, "key", true) == 2 * n
  {
    WitnessLevels(c, run, n, t, lag);
    FirstBurstIsAllowed(c, run, n, -lag, t - lag, t - 2 * lag);
    FullBurstIsAllowed(c, run, 0, n + 2, n, "key", t - 2 * lag);
  }

  lemma UncoveredExceedsRate(c: Config, n: nat, t: int, lag: int, most: nat)
    requires c.rate > 0.0 && c.burst == n >= 1 && t == IdleTTL(c) + 1 && 0 <= lag <= t && lag <= most
    requires Gain(c, t - 2 * lag) < n as real
    ensures !RateIsBounded(c, most)
  {
    var at := t - 2 * lag;
    var run := WitnessExists(n, -lag, t - lag, at);
    WitnessIsRun(run, n, t, lag, most);
    WitnessAllowsTwoBursts(c, run, n, t, lag);
    var hi, k := if at > 0 then at else 0, 2 * n + 2;
    GainGrows(c, 0, 0);
    assert run[0] == Request("key", 0);
    assert NoneAbove(run, k, "key", hi);
    QuotaIs(c, hi);
    assert !(AllowedIn(c, run, 0, k, run[0].key, true) as real <= Quota(c, hi - run[0].at));
  }

  /** For every configuration and every lag: sweeping is invisible in all runs exactly when the
      idle time less twice the lag covers a burst, and that is also exactly when the rate is
      bounded in all stretches. */
  lemma SweepingIsInvisibleIffCovered(c: Config, lag: nat)
    requires c.rate > 0.0 && c.burst >= 1
    ensures SweepingIsInvisible(c, lag) <==> Covers(c, lag)
    ensures RateIsBounded(c, lag) <==> Covers(c, lag)
  {
    if Covers(c, lag) {
      forall run: seq<Step>, k: nat | IsRun(run, lag) && k < |run| && run[k].Request?
        ensures AnswerAt(c, run, k, true) == AnswerAt(c, run, k, false)
      {
        CoveredAnswersAgree(c, run, k, lag);
      }
      forall run: seq<Step>, i: nat, k: nat, hi: int
        | IsRun(run, lag) && i < k <= |run| && run[i].Request? && NoneAbove(run, k, run[i].key, hi)
        ensures AllowedIn(c, run, i, k, run[i].key, true) as real <= Quota(c, hi - run[i].at)
      {
        CoveredRateIsBounded(c, run, i, k, lag, hi);
      }
    } else {
      UncoveredFails(c, lag);
    }
  }

  lemma UncoveredFails(c: Config, lag: nat)
    requires c.rate > 0.0 && c.burst >= 1 && !Covers(c, lag)
    ensures !SweepingIsInvisible(c, lag) && !RateIsBounded(c, lag)
  {
    var t := IdleTTL(c) + 1;
    var less: int := if lag <= t then lag else t;
    GainGrows(c, t - 2 * t, 0);
    UncoveredIsVisible(c, c.burst, t, less, lag);
    UncoveredExceedsRate(c, c.burst, t, less, lag);
  }

  /** A request that read the clock before the sweep and takes the lock after it is allowed; without
      the sweeper it would be refused. */
  lemma OvertakenRequestExample()
    ensures var c := Config(1.0, 1);
            var t := IdleTTL(c) + 1;
            var run := [Request("k", 0), Drop("k", t), Request("k", 0)];
            && Covers(c, 0) && IsRun(run, t)
            && AnswerAt(c, run, 2, true) && !AnswerAt(c, run, 2, false)
  {
    var c := Config(1.0, 1);
    var t := IdleTTL(c) + 1;
    var run := [Request("k", 0), Drop("k", t), Request("k", 0)];
    assert c.burst as real / c.rate * 4.0 == 4.0;
    assert IdleTTL(c) == MINUTE;
    GainGrows(c, 0, 0);
    assert After(c, run, 1, false) == map["k" := Bucket(0.0, 0)];
    assert After(c, run, 1, true) == map["k" := Bucket(0.0, 0)];
    assert After(c, run, 2, true) == map[];
  }

  /** The fill time in whole seconds fits a 64-bit count of nanoseconds. */
  predicate FitsDuration(c: Config)
    requires c.rate > 0.0
  {
    (c.burst as real / c.rate * 4.0).Floor * SECOND < Int64.TWO63
  }

  lemma Scaled(below: real, x: real, above: real, rate: real, whole: real)
    requires rate > 0.0 && x * rate == whole && below <= x < above
    ensures below * rate <= whole < above * rate
  {
    MulMonotone(below, x, rate);
    MulStrict(x, above, rate);
  }

  lemma FourFills(c: Config)
    requires c.rate > 0.0
    ensures c.burst as real / c.rate * 4.0 * c.rate == 4.0 * c.burst as real
  {
    assert c.burst as real / c.rate * c.rate == c.burst as real;
  }

  /** An idle time that does not overflow is the whole seconds in four fill times, the time in which
      the rate brings four bursts, and a minute when that is more. */
  lemma IdleTimeIsFourFills(c: Config) returns (seconds: int)
    requires c.rate > 0.0 && c.burst >= 1 && FitsDuration(c)
    ensures IdleTTL(c) == seconds * 1_000_000_000
    ensures if 4.0 * c.burst as real < 60.0 * c.rate then seconds == 60
            else seconds as real * c.rate <= 4.0 * c.burst as real < (seconds as real + 1.0) * c.rate
  {
    var fills := c.burst as real / c.rate * 4.0;
    FourFills(c);
    seconds := if fills < 60.0 then 60 else fills.Floor;
    if fills < 60.0 {
      MulStrict(fills, 60.0, c.rate);
    } else {
      MulMonotone(60.0, fills, c.rate);
      Scaled(seconds as real, fills, seconds as real + 1.0, c.rate, 4.0 * c.burst as real);
    }
  }

  /** Every configuration whose idle time does not overflow is covered for lags of up to 22 seconds:
      four fill times, cut to whole seconds and raised to a minute, are at least one fill time and
      44 seconds. */
  lemma FittingConfigsAreCovered(c: Config, lag: nat)
    requires c.rate > 0.0 && c.burst >= 1 && FitsDuration(c) && lag <= 22 * SECOND
    ensures Covers(c, lag)
  {
    var fill := c.burst as real / c.rate;
    assert fill * c.rate == c.burst as real;
    var idle := IdleTTL(c) + 1 - 2 * lag;
    assert IdleTTL(c) as real >= (4.0 * fill - 1.0) * SECOND as real;
    assert idle as real >= IdleTTL(c) as real - 44.0 * SECOND as real;
    assert Seconds(idle) >= fill;
    MulMonotone(fill, Seconds(idle), c.rate);
  }

  /** With ten tokens and a thousand-millionth of a token per second the idle time overflows and
      wraps to less than the fill time, so the sweeper hands out tokens early. */
  lemma OverflowIsNotCovered()
    ensures var c := Config(0.000000001, 10);
            c.burst as real / c.rate * 4.0 < Int64.TWO63 as real && !FitsDuration(c) && !Covers(c, 0)
  {
    var c := Config(0.000000001, 10);
    assert c.burst as real / c.rate * 4.0 == 40000000000.0;
    assert (c.burst as real / c.rate * 4.0).Floor == 40000000000;
    assert IdleTTL(c) == 3106511852580896768;
  }
}

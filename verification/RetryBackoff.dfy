/** The dispatcher's back-off (microservice/order/dispatcher.go, RetryPolicy). Durations are
    whole nanoseconds. */
module RetryBackoff {

  datatype RetryPolicy = RetryPolicy(maxAttempts: int, baseBackoff: int, maxBackoff: int)

  /** The defaults that a new dispatcher fills in. */
  function WithDefaults(p: RetryPolicy): (q: RetryPolicy)
    ensures q.maxAttempts >= 1 && q.baseBackoff > 0 && q.maxBackoff > 0
    ensures p.maxAttempts > 0 && p.baseBackoff > 0 && p.maxBackoff > 0 ==> q == p
  {
    RetryPolicy(
      if p.maxAttempts <= 0 then 8 else p.maxAttempts,
      if p.baseBackoff <= 0 then 1_000_000_000 else p.baseBackoff,
      if p.maxBackoff <= 0 then 120_000_000_000 else p.maxBackoff)
  }

  function Pow2(n: nat): nat {
    if n == 0 then 1 else 2 * Pow2(n - 1)
  }

  lemma {:induction false} Pow2Grows(m: nat, n: nat)
    requires m <= n
    ensures 1 <= Pow2(m) <= Pow2(n)
  {
    if m < n {
      Pow2Grows(m, n - 1);
    } else if n > 0 {
      Pow2Grows(m - 1, n - 1);
    }
  }

  /** The uncapped exponential: the base, doubled once for every attempt after the first. */
  function Exponential(p: RetryPolicy, attempt: int): int {
    p.baseBackoff * Pow2(if attempt <= 1 then 0 else attempt - 1)
  }

  function Capped(p: RetryPolicy, attempt: int): int {
    if Exponential(p, attempt) > p.maxBackoff then p.maxBackoff else Exponential(p, attempt)
  }

  /** One case is not the capped exponential: from the second attempt on, a delay that would
      come out one below the cap is rounded up to it, because half the cap is a whole number. */
  predicate OneBelowCap(p: RetryPolicy, attempt: int) {
    attempt >= 2 && Exponential(p, attempt) == p.maxBackoff - 1
  }

  /** Doubling with the cap looked up before each doubling. */
  function Climb(delay: int, rounds: nat, cap: int): int
    decreases rounds
  {
    if rounds == 0 then (if delay > cap then cap else delay)
    else if delay >= cap / 2 then cap
    else Climb(delay * 2, rounds - 1, cap)
  }

  function DelayOf(p: RetryPolicy, attempt: int): int {
    if p.baseBackoff <= 0 then 0 else Climb(p.baseBackoff, if attempt <= 1 then 0 else attempt - 1, p.maxBackoff)
  }

  method Delay(p: RetryPolicy, attempt: int) returns (delay: int)
    ensures delay == DelayOf(p, attempt)
  {
    if p.baseBackoff <= 0 {
      return 0;
    }
    delay := p.baseBackoff;
    var i := 1;
    while i < attempt
      invariant 1 <= i && (i <= attempt || i == 1)
      invariant DelayOf(p, attempt) == Climb(delay, if attempt <= i then 0 else attempt - i, p.maxBackoff)
    {
      if delay >= p.maxBackoff / 2 {
        return p.maxBackoff;
      }
      delay := delay * 2;
      i := i + 1;
    }
    if delay > p.maxBackoff {
      delay := p.maxBackoff;
    }
  }

  lemma ScaleGrows(x: int, p: nat, q: nat)
    requires x > 0 && 1 <= p <= q
    ensures x <= x * p <= x * q
  {
  }

  lemma DoublingRounds(delay: int, rounds: nat)
    requires rounds > 0
    ensures delay * Pow2(rounds) == (delay * 2) * Pow2(rounds - 1)
  {
  }

  predicate IsPeak(result: int, peak: int, rounds: nat, cap: int) {
    result == if peak > cap || (rounds > 0 && peak == cap - 1) then cap else peak
  }

  lemma {:induction false} ClimbReaches(delay: int, rounds: nat, cap: int)
    requires delay > 0
    ensures IsPeak(Climb(delay, rounds, cap), delay * Pow2(rounds), rounds, cap)
    decreases rounds
  {
    if rounds > 0 {
      Pow2Grows(0, rounds - 1);
      DoublingRounds(delay, rounds);
      ScaleGrows(delay * 2, 1, Pow2(rounds - 1));
      if delay < cap / 2 {
        ClimbReaches(delay * 2, rounds - 1, cap);
      }
    }
  }

  /** The delay is the capped exponential exactly when it is not the rounded-up case. */
  lemma DelayIsCappedExponential(p: RetryPolicy, attempt: int)
    requires p.baseBackoff > 0
    ensures DelayOf(p, attempt) == Capped(p, attempt) <==> !OneBelowCap(p, attempt)
    ensures OneBelowCap(p, attempt) ==> DelayOf(p, attempt) == p.maxBackoff
  {
    ClimbReaches(p.baseBackoff, if attempt <= 1 then 0 else attempt - 1, p.maxBackoff);
  }

  /** A cap of 5 ns over a base of 2 ns gives 5, not 4, at the second attempt. */
  lemma RoundedUpExample()
    ensures var p := RetryPolicy(8, 2, 5); DelayOf(p, 2) == 5 && Capped(p, 2) == 4
  {
    assert Climb(2, 1, 5) == 5;
    assert Pow2(1) == 2;
  }

  /** Delays never exceed the cap and never shrink from one attempt to a later one. */
  lemma DelayGrowsToCap(p: RetryPolicy, a: int, b: int)
    requires p.baseBackoff > 0 && p.maxBackoff > 0 && a <= b
    ensures 0 < DelayOf(p, a) <= DelayOf(p, b) <= p.maxBackoff
  {
    var m, n := if a <= 1 then 0 else a - 1, if b <= 1 then 0 else b - 1;
    Pow2Grows(m, n);
    ClimbReaches(p.baseBackoff, m, p.maxBackoff);
    ClimbReaches(p.baseBackoff, n, p.maxBackoff);
    ScaleGrows(p.baseBackoff, Pow2(m), Pow2(n));
  }
}

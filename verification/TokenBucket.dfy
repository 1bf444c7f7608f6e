/** The per-address request-rate bucket, on values. Times are in nanoseconds. */
module TokenBucket {
  import opened Prelude

  const SECOND: int := 1_000_000_000

  datatype Bucket = Bucket(tokens: int, lastAt: int)

  /** Division that drops the fraction, as a conversion from floating point does. */
  function TruncDiv(a: int, n: int): int
    requires n > 0
  {
    if a >= 0 then a / n else -((-a) / n)
  }

  /** Whole tokens earned in `elapsed` nanoseconds. */
  function Earned(elapsed: int, rate: int): int {
    TruncDiv(elapsed * rate, SECOND)
  }

  function Available(b: Bucket, rate: int, now: int): int {
    Min(b.tokens + Earned(now - b.lastAt, rate), rate)
  }

  predicate Grants(b: Bucket, rate: int, now: int) {
    Available(b, rate, now) >= 1
  }

  /** A granted request costs a token and restarts the clock; a refused one changes nothing. */
  function Taken(b: Bucket, rate: int, now: int): Bucket {
    if Grants(b, rate, now) then Bucket(Available(b, rate, now) - 1, now) else b
  }

  // ------------------------------------------------------------ rate bound

  /** Among the grants at times `log`, any stretch exceeds `rate` by no more than its duration earns. */
  predicate RateBounded(rate: int, log: seq<int>) {
    forall i, j :: 0 <= i <= j < |log| ==> (j - i + 1 - rate) * SECOND <= (log[j] - log[i]) * rate
  }

  /** The bucket accounts for all the grants in `log`. */
  predicate Accounts(rate: int, log: seq<int>, b: Bucket) {
    && 0 <= b.tokens <= rate
    && (log != [] ==> b.lastAt == log[|log| - 1])
    && (forall i :: 0 <= i < |log| ==> log[i] <= b.lastAt)
    && (forall i :: 0 <= i < |log| ==>
          (b.tokens + |log| - i - rate) * SECOND <= (b.lastAt - log[i]) * rate)
  }

  lemma EarnedBound(elapsed: int, rate: int)
    requires elapsed >= 0 && rate >= 0
    ensures 0 <= Earned(elapsed, rate)
    ensures Earned(elapsed, rate) * SECOND <= elapsed * rate
  {
    assert elapsed * rate >= 0;
  }

  /** Granting one more request keeps the accounts and the bound. */
  lemma GrantKeepsBound(rate: int, log: seq<int>, b: Bucket, now: int)
    requires rate > 0 && Accounts(rate, log, b) && RateBounded(rate, log)
    requires Grants(b, rate, now) && (log != [] ==> b.lastAt <= now)
    ensures Accounts(rate, log + [now], Taken(b, rate, now))
    ensures RateBounded(rate, log + [now])
  {
    hide Earned;
    var c := Taken(b, rate, now);
    var more := log + [now];
    forall i | 0 <= i < |more|
      ensures more[i] <= now
      ensures (c.tokens + |more| - i - rate) * SECOND <= (now - more[i]) * rate
      ensures (|more| - i - rate) * SECOND <= (now - more[i]) * rate
    {
      if i < |log| {
        EarnedBound(now - b.lastAt, rate);
        assert (now - log[i]) * rate == (now - b.lastAt) * rate + (b.lastAt - log[i]) * rate;
      }
    }
    forall i, j | 0 <= i <= j < |more|
      ensures (j - i + 1 - rate) * SECOND <= (more[j] - more[i]) * rate
    {
      if j < |log| { assert more[j] == log[j] && more[i] == log[i]; }
    }
  }

  /** The bucket after a run of requests, and the times of the granted ones. */
  function Serve(b: Bucket, rate: int, times: seq<int>): (Bucket, seq<int>) {
    if times == [] then (b, [])
    else
      var (c, log) := Serve(b, rate, times[..|times| - 1]);
      var now := times[|times| - 1];
      (Taken(c, rate, now), if Grants(c, rate, now) then log + [now] else log)
  }

  predicate Nondecreasing(ts: seq<int>) {
    forall i, j :: 0 <= i < j < |ts| ==> ts[i] <= ts[j]
  }

  /** Grants to one address in any window number at most rate + rate * (length in seconds). */
  lemma {:induction false} GrantsAreRateBounded(b: Bucket, rate: int, times: seq<int>)
    requires rate > 0 && 0 <= b.tokens <= rate && Nondecreasing(times)
    ensures var (c, log) := Serve(b, rate, times);
            && Accounts(rate, log, c) && RateBounded(rate, log)
            && (log != [] ==> times != [] && log[|log| - 1] <= times[|times| - 1])
  {
    if times != [] {
      var n := |times| - 1;
      GrantsAreRateBounded(b, rate, times[..n]);
      var (c, log) := Serve(b, rate, times[..n]);
      if Grants(c, rate, times[n]) {
        GrantKeepsBound(rate, log, c, times[n]);
      }
    }
  }

  /** Even a clock that jumps about cannot push the tokens out of 0..rate. */
  lemma {:induction false} TokensStayInRange(b: Bucket, rate: int, times: seq<int>)
    requires 0 <= b.tokens <= rate
    ensures 0 <= Serve(b, rate, times).0.tokens <= rate
  {
    if times != [] {
      TokensStayInRange(b, rate, times[..|times| - 1]);
    }
  }

  /** An address that waits for one token's worth of time is served. */
  lemma WaitingEarnsAToken(b: Bucket, rate: int, now: int)
    requires rate > 0 && b.tokens >= 0 && (now - b.lastAt) * rate >= SECOND
    ensures Grants(b, rate, now)
  {}

  /** The bound is reached: after an idle second, `rate` requests in a row are all granted. */
  lemma {:induction false} IdleSecondAllowsABurst(b: Bucket, rate: int, times: seq<int>)
    requires rate > 0 && b.tokens >= 0 && Nondecreasing(times) && |times| <= rate
    requires times != [] ==> times[0] >= b.lastAt + SECOND
    ensures var (c, log) := Serve(b, rate, times);
            && log == times
            && (times != [] ==> c.tokens >= rate - |times| && c.lastAt == times[|times| - 1])
  {
    if times != [] {
      var n := |times| - 1;
      var now := times[n];
      IdleSecondAllowsABurst(b, rate, times[..n]);
      var (c, log) := Serve(b, rate, times[..n]);
      if n == 0 {
        FullAfterASecond(b, rate, now);
      } else {
        assert times[..n][n - 1] == times[n - 1];
        EarnedBound(now - c.lastAt, rate);
      }
      assert times == times[..n] + [now];
    }
  }

  lemma FullAfterASecond(b: Bucket, rate: int, now: int)
    requires rate > 0 && b.tokens >= 0 && now - b.lastAt >= SECOND
    ensures Available(b, rate, now) == rate
  {
    var extra := now - b.lastAt - SECOND;
    assert (now - b.lastAt) * rate == SECOND * rate + extra * rate;
    assert extra * rate >= 0;
    assert (SECOND * rate + extra * rate) / SECOND >= rate;
  }

  // ---------------------------------------------------------- exact refill

  /** The same time, `m` times over. */
  function AllAt(now: int, m: nat): seq<int> {
    seq(m, _ => now)
  }

  /** What a bucket of `k` tokens holds `d` nanoseconds later, a clock set back taking tokens away. */
  function Refilled(k: int, rate: int, d: int): int {
    Min(rate, k + if d >= 0 then d * rate / SECOND else -(-d * rate / SECOND))
  }

  /**
   How much a wait is worth, exactly: of `m` requests at one instant, `d` nanoseconds after the last grant left
   `k` tokens, the first Min(m, Min(rate, k + d * rate / 10^9)) are granted and no more. The bucket is left
   with the rest, and with its clock at that instant if anything was granted.
   */
  lemma {:induction false} WaitIsWorthExactly(b: Bucket, rate: int, now: int, m: nat)
    requires rate > 0 && b.tokens >= 0
    ensures var (c, log) := Serve(b, rate, AllAt(now, m));
            var whole := Refilled(b.tokens, rate, now - b.lastAt);
            var granted := Max(0, Min(m, whole));
            && log == AllAt(now, granted)
            && c == if granted == 0 then b else Bucket(whole - granted, now)
  {
    if m > 0 {
      WaitIsWorthExactly(b, rate, now, m - 1);
      assert AllAt(now, m)[..m - 1] == AllAt(now, m - 1);
      var (c, log) := Serve(b, rate, AllAt(now, m - 1));
      var whole := Refilled(b.tokens, rate, now - b.lastAt);
      OneMoreAt(c, rate, now, b, whole, Max(0, Min(m - 1, whole)));
      assert forall n: nat :: AllAt(now, n) + [now] == AllAt(now, n + 1);
    }
  }

  /** The next request at the same instant is granted exactly if one of the whole tokens is left. */
  lemma OneMoreAt(c: Bucket, rate: int, now: int, b: Bucket, whole: int, granted: nat)
    requires rate > 0 && whole == Refilled(b.tokens, rate, now - b.lastAt)
    requires c == (if granted == 0 then b else Bucket(whole - granted, now)) && (granted > 0 ==> granted <= whole)
    ensures Grants(c, rate, now) <==> granted < whole
    ensures Taken(c, rate, now) == if granted < whole then Bucket(whole - granted - 1, now) else c
  {
    RefillIsAvailable(b, rate, now);
    if granted > 0 { RefillIsAvailable(c, rate, now); }
  }

  lemma RefillIsAvailable(b: Bucket, rate: int, now: int)
    requires rate > 0
    ensures Available(b, rate, now) == Refilled(b.tokens, rate, now - b.lastAt)
  {
    var d := now - b.lastAt;
    if d >= 0 { NonNegative(d, rate); } else { NonNegative(-d, rate); NegativeProduct(d, rate); }
  }

  lemma NonNegative(d: int, rate: int)
    requires d >= 0 && rate > 0
    ensures d * rate >= 0
  {}

  lemma NegativeProduct(d: int, rate: int)
    requires d < 0 && rate > 0
    ensures d * rate < 0 && -(d * rate) == -d * rate
  {}
}

/**
 Persisted exponential backoff (src/db.rs mark_source_failure, clear_source_failure,
 source_backoff_until; src/ingest/mod.rs run_one_source).
 */
module Backoff {
  import opened Wrappers
  import opened Machine

  /** Instants, in seconds. */
  type Instant = real

  /** The two keys of one source. */
  datatype Ledger = Ledger(failures: Option<nat>, until: Option<Instant>)

  const CLEAN := Ledger(None, None)

  function Power2(n: nat): (p: nat)
    ensures p >= 1
  {
    if n == 0 then 1 else 2 * Power2(n - 1)
  }

  /** The count stored by a failure: a saturating increment of the stored count, capped at 31. */
  function NextCount(failures: Option<nat>): nat {
    Min(SaturatingAdd(failures.GetOr(0), 1, U32_MAX), 31)
  }

  /** `1 << (count - 1)` on 64 bits; a shift by 64 or more would give the maximum. */
  function Multiplier(count: nat): nat
    requires count >= 1
  {
    if count - 1 >= 64 then U64_MAX else Power2(count - 1)
  }

  /** The delay as the code computes it on unsigned 64-bit seconds. */
  function DelaySeconds(count: nat, base: nat, maximum: nat): nat
    requires count >= 1
  {
    Min(SaturatingMul(base, Multiplier(count), U64_MAX), maximum)
  }

  /** The delay of the k-th failure in a row, in exact arithmetic. */
  function ExactDelay(k: nat, base: nat, maximum: nat): nat
    requires k >= 1
  {
    Min(base * Power2(Min(k, 31) - 1), maximum)
  }

  /** Saturation never shows: the cap of the configuration is itself a 64-bit number. */
  lemma SaturationIsInvisible(count: nat, base: nat, maximum: nat)
    requires 1 <= count <= 31 && maximum <= U64_MAX
    ensures DelaySeconds(count, base, maximum) == ExactDelay(count, base, maximum)
  {
  }

  lemma {:induction false} Power2Grows(a: nat, b: nat)
    requires a <= b
    ensures Power2(a) <= Power2(b)
    decreases b - a
  {
    if a < b { Power2Grows(a, b - 1); }
  }

  lemma Scale(base: nat, x: nat, y: nat)
    requires x <= y
    ensures base * x <= base * y
  {
  }

  /** Delays never shrink along a streak and stay between the base and the cap. */
  lemma DelaysGrow(j: nat, k: nat, base: nat, maximum: nat)
    requires 1 <= j <= k && base <= maximum
    ensures base <= ExactDelay(j, base, maximum) <= ExactDelay(k, base, maximum) <= maximum
  {
    Power2Grows(0, Min(j, 31) - 1);
    Power2Grows(Min(j, 31) - 1, Min(k, 31) - 1);
    Scale(base, 1, Power2(Min(j, 31) - 1));
    Scale(base, Power2(Min(j, 31) - 1), Power2(Min(k, 31) - 1));
  }

  /** The first delay is the base; each next one is twice the last, up to the cap and the 31st failure. */
  lemma DelayDoubles(k: nat, base: nat, maximum: nat)
    requires k >= 1
    ensures ExactDelay(1, base, maximum) == if base <= maximum then base else maximum
    ensures var delay, next := ExactDelay(k, base, maximum), ExactDelay(k + 1, base, maximum);
            next == if k >= 31 then delay else if 2 * delay <= maximum then 2 * delay else maximum
  {
    if k < 31 {
      assert Power2(k) == 2 * Power2(k - 1);
      Doubled(base, Power2(k - 1));
    }
  }

  lemma Doubled(base: nat, p: nat)
    ensures base * (2 * p) == 2 * (base * p)
  {
  }

  // ---------------------------------------------------------------- runs of one source

  /** One scheduled run: the clock when the deadline is checked, and how the adapter would end. */
  datatype Attempt = Attempt(checkedAt: Instant, succeeds: bool, failedAt: Instant)

  /** The adapter is called unless a stored deadline is still ahead. */
  predicate Runs(l: Ledger, a: Attempt) { l.until.None? || l.until.value <= a.checkedAt }

  function Failed(l: Ledger, at: Instant, base: nat, maximum: nat): Ledger {
    var count := NextCount(l.failures);
    Ledger(Some(count), Some(at + DelaySeconds(count, base, maximum) as real))
  }

  function Next(l: Ledger, a: Attempt, base: nat, maximum: nat): Ledger {
    if !Runs(l, a) then l
    else if a.succeeds then CLEAN
    else Failed(l, a.failedAt, base, maximum)
  }

  function After(attempts: seq<Attempt>, base: nat, maximum: nat): Ledger {
    if attempts == [] then CLEAN
    else Next(After(attempts[..|attempts| - 1], base, maximum), attempts[|attempts| - 1], base, maximum)
  }

  /** The attempts whose adapter was called. */
  function Called(attempts: seq<Attempt>, base: nat, maximum: nat): seq<Attempt> {
    if attempts == [] then []
    else
      var front, last := attempts[..|attempts| - 1], attempts[|attempts| - 1];
      Called(front, base, maximum) + (if Runs(After(front, base, maximum), last) then [last] else [])
  }

  /** The length of the run of failures that ends a history. */
  function Streak(called: seq<Attempt>): nat {
    if called == [] || called[|called| - 1].succeeds then 0 else 1 + Streak(called[..|called| - 1])
  }

  lemma DelayIsCapped(k: nat, base: nat, maximum: nat)
    requires k >= 1 && maximum <= U64_MAX
    ensures DelaySeconds(Min(31, k), base, maximum) == ExactDelay(k, base, maximum)
  {
    SaturationIsInvisible(Min(31, k), base, maximum);
  }

  /** What the calls so far have earned: the count of the streak that ends them, and its deadline. */
  function Earned(called: seq<Attempt>, base: nat, maximum: nat): Ledger {
    var k := Streak(called);
    if k == 0 then CLEAN
    else Ledger(Some(Min(31, k)), Some(called[|called| - 1].failedAt + ExactDelay(k, base, maximum) as real))
  }

  lemma EarnedGrows(called: seq<Attempt>, a: Attempt, base: nat, maximum: nat)
    requires maximum <= U64_MAX
    ensures Earned(called + [a], base, maximum)
         == if a.succeeds then CLEAN else Failed(Earned(called, base, maximum), a.failedAt, base, maximum)
  {
    hide ExactDelay, DelaySeconds;
    assert (called + [a])[..|called|] == called;
    if !a.succeeds {
      DelayIsCapped(Streak(called) + 1, base, maximum);
    }
  }

  /** Over every sequence of attempts the ledger records the streak, and the deadline it earns. */
  lemma {:induction false} LedgerIsStreak(attempts: seq<Attempt>, base: nat, maximum: nat)
    requires maximum <= U64_MAX
    ensures After(attempts, base, maximum) == Earned(Called(attempts, base, maximum), base, maximum)
  {
    if attempts == [] {
    } else {
      hide Earned, Failed, Runs;
      var front, last := attempts[..|attempts| - 1], attempts[|attempts| - 1];
      LedgerIsStreak(front, base, maximum);
      var before := Called(front, base, maximum);
      EarnedGrows(before, last, base, maximum);
      assert before + [] == before;
    }
  }

  /** An attempt becomes a call exactly when no failure precedes it or the earned delay has passed. */
  lemma CallsExactly(attempts: seq<Attempt>, a: Attempt, base: nat, maximum: nat)
    requires maximum <= U64_MAX
    ensures var called := Called(attempts, base, maximum);
            var k := Streak(called);
            Called(attempts + [a], base, maximum)
            == if k == 0 || a.checkedAt >= called[|called| - 1].failedAt + ExactDelay(k, base, maximum) as real
               then called + [a] else called
  {
    assert (attempts + [a])[..|attempts|] == attempts;
    LedgerIsStreak(attempts, base, maximum);
    hide ExactDelay;
    assert Called(attempts, base, maximum) + [] == Called(attempts, base, maximum);
  }

  /** A streak counts the calls since the last success. */
  lemma {:induction false} StreakEndsHistory(called: seq<Attempt>)
    ensures Streak(called) <= |called|
    ensures forall i | |called| - Streak(called) <= i < |called| :: !called[i].succeeds
    ensures Streak(called) < |called| ==> called[|called| - Streak(called) - 1].succeeds
  {
    if called != [] && !called[|called| - 1].succeeds {
      StreakEndsHistory(called[..|called| - 1]);
    }
  }

  /** In a streak of failures every call waits out the delay earned by the failures before it. */
  lemma {:induction false} CallsRespectDeadlines(attempts: seq<Attempt>, base: nat, maximum: nat, i: nat)
    requires maximum <= U64_MAX && i + 1 < |Called(attempts, base, maximum)|
    ensures var called := Called(attempts, base, maximum);
            var k := Streak(called[..i + 1]);
            k > 0 ==> called[i + 1].checkedAt >= called[i].failedAt + ExactDelay(k, base, maximum) as real
  {
    var front, last := attempts[..|attempts| - 1], attempts[|attempts| - 1];
    var before, called := Called(front, base, maximum), Called(attempts, base, maximum);
    if i + 1 < |before| {
      CallsRespectDeadlines(front, base, maximum, i);
      assert called[..i + 1] == before[..i + 1];
    } else {
      LedgerIsStreak(front, base, maximum);
      assert called[..i + 1] == before;
    }
  }
}

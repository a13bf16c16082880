/**
 The rotation of cross-validation (src/db.rs cve_ids_for_validation, src/ingest/validate.rs run).

 Each refresh validates the CVEs validated longest ago, never-validated ones first.  The query breaks
 ties as it likes, so a batch is any set that its ORDER BY and LIMIT allow.
 */
module Rotation {
  import opened Sets
  import opened TextOrder

  /** `calculated_at` of every CVE that has a validation. */
  type Calculated = map<string, string>

  /** x comes strictly before y: never validated before validated, then the earlier time. */
  predicate Sooner(c: Calculated, x: string, y: string) {
    y in c && (x !in c || Less(c[x], c[y]))
  }

  /** How many CVEs a batch holds: b, or all there are. */
  function BatchSize(n: nat, b: nat): nat { if b <= n then b else n }

  /** What ORDER BY ... LIMIT b can return, as a set. */
  ghost predicate IsBatch(c: Calculated, cves: set<string>, b: nat, batch: set<string>) {
    && batch <= cves
    && |batch| == BatchSize(|cves|, b)
    && forall x, y | x in batch && y in cves - batch :: !Sooner(c, y, x)
  }

  /** Validating `done`, at times later than any stored before. */
  ghost predicate Refreshes(c: Calculated, done: set<string>, d: Calculated) {
    && d.Keys == c.Keys + done
    && (forall x | x in c && x !in done :: d[x] == c[x])
    && (forall x, y | x in done && y in c :: Less(c[y], d[x]))
  }

  /** One refresh: it selects `batch` and validates `done` of it. */
  ghost predicate Refresh(c: Calculated, batch: set<string>, done: set<string>, d: Calculated, cves: set<string>, b: nat) {
    IsBatch(c, cves, b, batch) && done <= batch && Refreshes(c, done, d)
  }

  /** Refresh i takes `batches[i]` from state `states[i]`, validates `done[i]` of it and leaves `states[i + 1]`. */
  ghost predicate Refreshing(states: seq<Calculated>, batches: seq<set<string>>, done: seq<set<string>>, cves: set<string>, b: nat) {
    && |states| == |batches| + 1 && |done| == |batches|
    && forall i {:trigger batches[i]} | 0 <= i < |batches| ::
      Refresh(states[i], batches[i], done[i], states[i + 1], cves, b)
  }

  ghost function Union(sets: seq<set<string>>): set<string> {
    if sets == [] then {} else Union(sets[..|sets| - 1]) + sets[|sets| - 1]
  }

  /** How many validations the refreshes made, counting repetitions. */
  ghost function Total(sets: seq<set<string>>): nat {
    if sets == [] then 0 else Total(sets[..|sets| - 1]) + |sets[|sets| - 1]|
  }

  ghost predicate Missed(batches: seq<set<string>>, c: string) {
    forall i | 0 <= i < |batches| :: c !in batches[i]
  }

  /** Everything validated since the start of a window that missed `c` now comes after `c`. */
  ghost predicate Behind(start: Calculated, now: Calculated, c: string, done: set<string>) {
    && (c in now <==> c in start) && (c in start ==> now[c] == start[c])
    && forall x | x in done :: Sooner(now, c, x)
  }

  /** One more refresh that misses `c` takes a batch disjoint from all that was validated before it. */
  lemma MissedOnceMore(start: Calculated, now: Calculated, next: Calculated, cves: set<string>, b: nat,
                       batch: set<string>, more: set<string>, c: string, done: set<string>)
    requires Behind(start, now, c, done) && done <= cves && c in cves && c !in batch && more <= batch
    requires IsBatch(now, cves, b, batch) && Refreshes(now, more, next)
    ensures done !! batch && Behind(start, next, c, done + more)
  {
    forall x | x in done ensures x !in batch {
      assert Sooner(now, c, x);
    }
    forall x | x in done + more ensures Sooner(next, c, x) {
      if x in done { assert next[x] == now[x]; }
    }
  }

  /** While `c` is missed no CVE is validated twice: every validation uses up another CVE. */
  lemma {:induction false} MissedSoFar(states: seq<Calculated>, batches: seq<set<string>>, done: seq<set<string>>,
                                          cves: set<string>, b: nat, c: string)
    requires Refreshing(states, batches, done, cves, b) && c in cves && Missed(batches, c)
    ensures Behind(states[0], states[|batches|], c, Union(done))
    ensures Union(done) <= cves - {c} && |Union(done)| == Total(done)
    decreases |batches|
  {
    if batches == [] {
    } else {
      var k := |batches| - 1;
      var front, fewer := batches[..k], done[..k];
      FrontRefreshes(states, batches, done, cves, b);
      MissedSoFar(states[..k + 1], front, fewer, cves, b, c);
      assert batches[k] == batches[|batches| - 1];
      MissedOnceMore(states[0], states[k], states[k + 1], cves, b, batches[k], done[k], c, Union(fewer));
      assert |Union(done)| == |Union(fewer)| + |done[k]|;
    }
  }

  lemma FrontRefreshes(states: seq<Calculated>, batches: seq<set<string>>, done: seq<set<string>>, cves: set<string>, b: nat)
    requires batches != [] && Refreshing(states, batches, done, cves, b)
    ensures Refreshing(states[..|batches|], batches[..|batches| - 1], done[..|batches| - 1], cves, b)
  {
    hide Refresh;
    var front := batches[..|batches| - 1];
    assert forall i | 0 <= i < |front| :: front[i] == batches[i];
  }

  ghost predicate Selected(batches: seq<set<string>>, c: string) {
    exists i :: 0 <= i < |batches| && c in batches[i]
  }

  /**
   Fairness, with failures: once the validations before the last refresh and the last batch make up as many
   CVEs as there are, every CVE has been selected.  What the last refresh validates does not matter.
   */
  lemma LastBatchReaches(states: seq<Calculated>, batches: seq<set<string>>, done: seq<set<string>>, cves: set<string>, b: nat, c: string)
    requires Refreshing(states, batches, done, cves, b) && c in cves && batches != []
    requires Total(done[..|done| - 1]) + BatchSize(|cves|, b) >= |cves|
    ensures Selected(batches, c)
  {
    if Missed(batches, c) {
      var k := |batches| - 1;
      var front, fewer := batches[..k], done[..k];
      FrontRefreshes(states, batches, done, cves, b);
      MissedSoFar(states[..k + 1], front, fewer, cves, b, c);
      assert batches[k] == batches[|batches| - 1];
      MissedOnceMore(states[0], states[k], states[k + 1], cves, b, batches[k], done[k], c, Union(fewer));
      assert |Union(fewer) + batches[k]| == |Union(fewer)| + |batches[k]|;
      SubsetSize(Union(fewer) + batches[k], cves - {c});
    }
  }

  lemma {:induction false} TotalOfFull(batches: seq<set<string>>, m: nat)
    requires forall i | 0 <= i < |batches| :: |batches[i]| == m
    ensures Total(batches) == |batches| * m
    decreases |batches|
  {
    if batches == [] {
    } else {
      TotalOfFull(batches[..|batches| - 1], m);
      assert |batches| * m == (|batches| - 1) * m + m;
    }
  }

  /** The refreshes of one full turn: ceil(n / b). */
  function Ceiling(n: nat, b: nat): nat
    requires b >= 1
  {
    (n + b - 1) / b
  }

  lemma CeilingCovers(n: nat, b: nat)
    requires b >= 1
    ensures Ceiling(n, b) * b >= n
    ensures n > 0 ==> Ceiling(n, b) >= 1 && (Ceiling(n, b) - 1) * b < n
  {
    var q, r := (n + b - 1) / b, (n + b - 1) % b;
    assert n + b - 1 == q * b + r;
    assert (q - 1) * b == q * b - b;
  }

  lemma EnoughInWindow(n: nat, b: nat)
    requires b >= 1 && n >= 1
    ensures Ceiling(n, b) * BatchSize(n, b) >= n
  {
    CeilingCovers(n, b);
    if b > n {
      assert Ceiling(n, b) * n >= 1 * n;
    }
  }

  lemma WindowRefreshes(states: seq<Calculated>, batches: seq<set<string>>, cves: set<string>, b: nat, from: nat, k: nat)
    requires Refreshing(states, batches, batches, cves, b) && from + k <= |batches|
    ensures Refreshing(states[from..from + k + 1], batches[from..from + k], batches[from..from + k], cves, b)
  {
    hide Refresh;
    var w := batches[from..from + k];
    assert forall i | 0 <= i < k :: w[i] == batches[from + i];
  }

  /** A window of full batches holds as many validations before its last batch as that one leaves wanting. */
  lemma WindowTotal(w: seq<set<string>>, n: nat, b: nat)
    requires b >= 1 && n >= 1 && |w| == Ceiling(n, b) >= 1
    requires forall i | 0 <= i < |w| :: |w[i]| == BatchSize(n, b)
    ensures Total(w[..|w| - 1]) + BatchSize(n, b) >= n
  {
    hide Ceiling, BatchSize;
    EnoughInWindow(n, b);
    TotalOfFull(w[..|w| - 1], BatchSize(n, b));
    assert (|w| - 1) * BatchSize(n, b) + BatchSize(n, b) == |w| * BatchSize(n, b);
  }

  /** When every batch is validated whole, any ceil(n/b) consecutive refreshes validate every CVE. */
  lemma WindowIsFair(states: seq<Calculated>, batches: seq<set<string>>, cves: set<string>, b: nat, from: nat, c: string)
    requires b >= 1 && Refreshing(states, batches, batches, cves, b) && c in cves
    requires from + Ceiling(|cves|, b) <= |batches|
    ensures exists i :: from <= i < from + Ceiling(|cves|, b) && c in batches[i]
  {
    var k := Ceiling(|cves|, b);
    var w := batches[from..from + k];
    CeilingCovers(|cves|, b);
    WindowRefreshes(states, batches, cves, b, from, k);
    forall i | 0 <= i < k ensures |w[i]| == BatchSize(|cves|, b) {
      assert w[i] == batches[from + i];
    }
    hide Refreshing, Ceiling, BatchSize;
    WindowTotal(w, |cves|, b);
    LastBatchReaches(states[from..from + k + 1], w, w, cves, b, c);
    var i :| 0 <= i < |w| && c in w[i];
    assert c in batches[from + i];
  }

  // ---------------------------------------------------------------- exactly when

  function Sum(counts: seq<nat>): nat {
    if counts == [] then 0 else Sum(counts[..|counts| - 1]) + counts[|counts| - 1]
  }

  /** Refresh i made `counts[i]` validations. */
  ghost predicate Sizes(done: seq<set<string>>, counts: seq<nat>) {
    |done| == |counts| && forall i | 0 <= i < |done| :: |done[i]| == counts[i]
  }

  lemma {:induction false} TotalIsSum(done: seq<set<string>>, counts: seq<nat>)
    requires Sizes(done, counts)
    ensures Total(done) == Sum(counts)
    decreases |done|
  {
    if done == [] {
    } else {
      TotalIsSum(done[..|done| - 1], counts[..|counts| - 1]);
    }
  }

  /** Ever later times. */
  function Stamp(k: nat): (t: string)
    ensures t != "" && t[0] == 'a'
  {
    if k == 0 then "a" else "a" + Stamp(k - 1)
  }

  lemma {:induction false} StampsGrow(j: nat, k: nat)
    requires j < k
    ensures Less(Stamp(j), Stamp(k))
  {
    assert Stamp(k)[1..] == Stamp(k - 1);
    if j == 0 {
      assert Stamp(0)[1..] == "";
    } else {
      assert Stamp(j)[1..] == Stamp(j - 1);
      StampsGrow(j - 1, k - 1);
    }
  }

  lemma {:induction false} SubsetOfSize(s: set<string>, m: nat) returns (t: set<string>)
    requires m <= |s|
    ensures t <= s && |t| == m
  {
    if m == 0 {
      t := {};
    } else {
      var x :| x in s;
      t := SubsetOfSize(s - {x}, m - 1);
      t := t + {x};
    }
  }

  /** Every stored time comes before the k-th stamp. */
  ghost predicate Before(c: Calculated, k: nat) {
    forall x | x in c :: Less(c[x], Stamp(k))
  }

  /** A refresh that selects only never-validated CVEs, from a state of earlier stamps. */
  lemma UnseenRefresh(now: Calculated, cves: set<string>, b: nat, batch: set<string>, more: set<string>, k: nat)
    requires Before(now, k) && batch <= cves - now.Keys && |batch| == b <= |cves| && more <= batch
    ensures var next := now + map x | x in more :: Stamp(k);
            && Refresh(now, batch, more, next, cves, b) && Before(next, k + 1)
            && next.Keys == now.Keys + more
  {
    hide Less, Stamp;
    var next := now + map x | x in more :: Stamp(k);
    StampsGrow(k, k + 1);
    forall x | x in next ensures Less(next[x], Stamp(k + 1)) {
      if x in now && x !in more {
        LessIsTransitive(now[x], Stamp(k), Stamp(k + 1));
      }
    }
  }

  lemma SumOfFront(counts: seq<nat>)
    requires counts != []
    ensures Sum(counts) == Sum(counts[..|counts| - 1]) + counts[|counts| - 1]
  {
  }

  /** One more refresh at the end of a run. */
  lemma RunGrows(states: seq<Calculated>, batches: seq<set<string>>, done: seq<set<string>>, cves: set<string>, b: nat,
                 batch: set<string>, more: set<string>, next: Calculated)
    requires Refreshing(states, batches, done, cves, b)
    requires |states| == |batches| + 1 && Refresh(states[|batches|], batch, more, next, cves, b)
    ensures Refreshing(states + [next], batches + [batch], done + [more], cves, b)
  {
    hide Refresh;
    var all := batches + [batch];
    forall i | 0 <= i < |all|
      ensures Refresh((states + [next])[i], all[i], (done + [more])[i], (states + [next])[i + 1], cves, b)
    {
      if i < |batches| {
        assert all[i] == batches[i];
      }
    }
  }

  /** What a run from scratch that passes `c` over has come to. */
  ghost predicate PassedOver(now: Calculated, batches: seq<set<string>>, done: seq<set<string>>, counts: seq<nat>, cves: set<string>, c: string) {
    && Sizes(done, counts) && |batches| == |counts| && Missed(batches, c)
    && now.Keys <= cves - {c} && |now.Keys| == Sum(counts) && Before(now, |counts|)
  }

  lemma PassedOnceMore(now: Calculated, batches: seq<set<string>>, done: seq<set<string>>, counts: seq<nat>, cves: set<string>, c: string,
                       batch: set<string>, more: set<string>, next: Calculated)
    requires PassedOver(now, batches, done, counts, cves, c)
    requires more <= batch <= cves - {c} - now.Keys
    requires next.Keys == now.Keys + more && Before(next, |counts| + 1)
    ensures PassedOver(next, batches + [batch], done + [more], counts + [|more|], cves, c)
  {
    hide Before;
    assert (counts + [|more|])[..|counts|] == counts;
    assert |now.Keys + more| == |now.Keys| + |more|;
  }

  /** As long as enough CVEs other than `c` were never validated, a run from scratch can pass `c` over. */
  lemma {:induction false} PassOver(cves: set<string>, b: nat, counts: seq<nat>, c: string)
    returns (states: seq<Calculated>, batches: seq<set<string>>, done: seq<set<string>>)
    requires c in cves && forall i | 0 <= i < |counts| :: counts[i] <= b
    requires counts != [] ==> Sum(counts[..|counts| - 1]) + b < |cves|
    ensures Refreshing(states, batches, done, cves, b) && |states| == |counts| + 1
    ensures PassedOver(states[|counts|], batches, done, counts, cves, c)
    decreases |counts|
  {
    hide Refresh, Refreshing, PassedOver;
    if counts == [] {
      NothingPassed(cves, b, c);
      states, batches, done := [map[]], [], [];
    } else {
      var k := |counts| - 1;
      var fewer := counts[..k];
      if fewer == [] {
      } else {
        SumOfFront(fewer);
      }
      states, batches, done := PassOver(cves, b, fewer, c);
      var batch, more, next := PassStep(states[k], batches, done, fewer, cves, b, counts[k], c);
      assert fewer + [counts[k]] == counts;
      SameLengths(states, batches, done, cves, b);
      RunGrows(states, batches, done, cves, b, batch, more, next);
      states, batches, done := states + [next], batches + [batch], done + [more];
    }
  }

  lemma NothingPassed(cves: set<string>, b: nat, c: string)
    ensures Refreshing([map[]], [], [], cves, b) && PassedOver(map[], [], [], [], cves, c)
  {
  }

  lemma PassStep(now: Calculated, batches: seq<set<string>>, done: seq<set<string>>, counts: seq<nat>,
                 cves: set<string>, b: nat, count: nat, c: string)
    returns (batch: set<string>, more: set<string>, next: Calculated)
    requires PassedOver(now, batches, done, counts, cves, c) && c in cves
    requires Sum(counts) + b < |cves| && count <= b
    ensures Refresh(now, batch, more, next, cves, b)
    ensures PassedOver(next, batches + [batch], done + [more], counts + [count], cves, c)
  {
    var unseen := cves - {c} - now.Keys;
    assert |unseen| == |cves - {c}| - |now.Keys|;
    batch := SubsetOfSize(unseen, b);
    more := SubsetOfSize(batch, count);
    next := now + map x | x in more :: Stamp(|counts|);
    hide Refresh, Sizes, Missed, Before, Stamp, Sum;
    UnseenRefresh(now, cves, b, batch, more, |counts|);
    PassedOnceMore(now, batches, done, counts, cves, c, batch, more, next);
  }

  /**
   Given how many validations each refresh makes, `c` is selected whatever the ties and the start if and only
   if the validations before the last refresh and one batch reach the number of CVEs.
   */
  lemma SelectionExactly(cves: set<string>, b: nat, counts: seq<nat>, c: string)
    requires c in cves && counts != [] && forall i | 0 <= i < |counts| :: counts[i] <= b
    ensures (forall states, batches, done | Refreshing(states, batches, done, cves, b) && Sizes(done, counts) :: Selected(batches, c))
       <==> Sum(counts[..|counts| - 1]) + b >= |cves|
  {
    hide Refreshing;
    if Sum(counts[..|counts| - 1]) + b >= |cves| {
      forall states, batches, done | Refreshing(states, batches, done, cves, b) && Sizes(done, counts)
        ensures Selected(batches, c)
      {
        SameLengths(states, batches, done, cves, b);
        TotalIsSum(done[..|done| - 1], counts[..|counts| - 1]);
        LastBatchReaches(states, batches, done, cves, b, c);
      }
    } else {
      var states, batches, done := PassOver(cves, b, counts, c);
      assert Sizes(done, counts) && !Selected(batches, c);
    }
  }

  lemma SameLengths(states: seq<Calculated>, batches: seq<set<string>>, done: seq<set<string>>, cves: set<string>, b: nat)
    requires Refreshing(states, batches, done, cves, b)
    ensures |states| == |batches| + 1 && |done| == |batches|
  {
  }

  /** A refresh that validates nothing leaves the rotation where it was. */
  lemma NothingValidated(c: Calculated, d: Calculated)
    ensures Refreshes(c, {}, d) <==> d == c
  {
    if Refreshes(c, {}, d) {
      assert d.Keys == c.Keys;
    }
  }

  /** While nothing can be validated, a CVE can be passed over for ever, exactly when one batch does not hold all CVEs. */
  lemma StalledRotation(cves: set<string>, b: nat, c: string, m: nat)
    requires c in cves && m >= 1
    ensures (exists states, batches, done :: Refreshing(states, batches, done, cves, b) && Sizes(done, seq(m, _ => 0)) && Missed(batches, c))
       <==> b < |cves|
  {
    hide Refreshing;
    var counts: seq<nat> := seq(m, _ => 0);
    SumOfNothing(counts[..m - 1]);
    SelectionExactly(cves, b, counts, c);
    if b < |cves| {
      var states, batches, done :| Refreshing(states, batches, done, cves, b) && Sizes(done, counts) && !Selected(batches, c);
      assert Missed(batches, c);
    }
    if states, batches, done :| Refreshing(states, batches, done, cves, b) && Sizes(done, counts) && Missed(batches, c) {
      assert !Selected(batches, c);
    }
  }

  lemma {:induction false} SumOfNothing(counts: seq<nat>)
    requires forall i | 0 <= i < |counts| :: counts[i] == 0
    ensures Sum(counts) == 0
  {
    if counts == [] {
    } else {
      SumOfNothing(counts[..|counts| - 1]);
    }
  }
}

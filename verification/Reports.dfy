/** The report of a refresh (src/ingest/mod.rs, run_sources), as a count of completions in any order. */
module Reports {
  import opened Machine
  import opened SourceRun

  datatype Report = Report(succeeded: nat, failed: nat, skipped: nat, fetched: nat, upserted: nat, errors: seq<ErrorText>)

  const EMPTY_REPORT := Report(0, 0, 0, 0, 0, [])

  function ErrorsOf(f: Finished): seq<ErrorText> {
    if f.Err? then [WorkerFailed(f.error)] else if f.value.error.Some? then [f.value.error.value] else []
  }

  function StatusOf(f: Finished): RunStatus { if f.Err? then Failure else f.value.status }

  function FetchedOf(f: Finished): nat { if f.Err? then 0 else f.value.fetched }

  function UpsertedOf(f: Finished): nat { if f.Err? then 0 else f.value.upserted }

  function Count(done: seq<Finished>, s: RunStatus): nat {
    if done == [] then 0 else Count(done[..|done| - 1], s) + if StatusOf(done[|done| - 1]) == s then 1 else 0
  }

  function Fetched(done: seq<Finished>): nat {
    if done == [] then 0 else Fetched(done[..|done| - 1]) + FetchedOf(done[|done| - 1])
  }

  function Upserted(done: seq<Finished>): nat {
    if done == [] then 0 else Upserted(done[..|done| - 1]) + UpsertedOf(done[|done| - 1])
  }

  function Errors(done: seq<Finished>): seq<ErrorText> {
    if done == [] then [] else Errors(done[..|done| - 1]) + ErrorsOf(done[|done| - 1])
  }

  /** The report as counts, capped totals and collected errors of what finished. */
  function ReportOf(done: seq<Finished>): Report {
    Report(Count(done, Success), Count(done, Failure), Count(done, Skipped),
           Min(Fetched(done), USIZE_MAX), Min(Upserted(done), USIZE_MAX), Errors(done))
  }

  lemma {:induction false} CountsAdd(a: seq<Finished>, b: seq<Finished>, s: RunStatus)
    ensures Count(a + b, s) == Count(a, s) + Count(b, s)
    decreases |b|
  {
    if b == [] {
      assert a + b == a;
    } else {
      assert (a + b)[..|a + b| - 1] == a + b[..|b| - 1];
      CountsAdd(a, b[..|b| - 1], s);
    }
  }

  lemma {:induction false} AmountsAdd(a: seq<Finished>, b: seq<Finished>)
    ensures Fetched(a + b) == Fetched(a) + Fetched(b)
    ensures Upserted(a + b) == Upserted(a) + Upserted(b)
    decreases |b|
  {
    if b == [] {
      assert a + b == a;
    } else {
      assert (a + b)[..|a + b| - 1] == a + b[..|b| - 1];
      AmountsAdd(a, b[..|b| - 1]);
    }
  }

  lemma {:induction false} ErrorsAdd(a: seq<Finished>, b: seq<Finished>)
    ensures Errors(a + b) == Errors(a) + Errors(b)
    decreases |b|
  {
    hide ErrorsOf;
    if b == [] {
      assert a + b == a;
    } else {
      assert (a + b)[..|a + b| - 1] == a + b[..|b| - 1];
      ErrorsAdd(a, b[..|b| - 1]);
    }
  }

  lemma Totals(a: seq<Finished>, b: seq<Finished>, s: RunStatus)
    ensures Count(a + b, s) == Count(a, s) + Count(b, s)
    ensures Fetched(a + b) == Fetched(a) + Fetched(b)
    ensures Upserted(a + b) == Upserted(a) + Upserted(b)
    ensures Errors(a + b) == Errors(a) + Errors(b)
  {
    CountsAdd(a, b, s);
    AmountsAdd(a, b);
    ErrorsAdd(a, b);
  }

  predicate SameReport(a: Report, b: Report) {
    && a.succeeded == b.succeeded && a.failed == b.failed && a.skipped == b.skipped
    && a.fetched == b.fetched && a.upserted == b.upserted
    && multiset(a.errors) == multiset(b.errors)
  }

  ghost predicate SameTotals(a: seq<Finished>, b: seq<Finished>, s: RunStatus) {
    && Count(a, s) == Count(b, s) && Fetched(a) == Fetched(b) && Upserted(a) == Upserted(b)
    && multiset(Errors(a)) == multiset(Errors(b))
  }

  function Without<T>(s: seq<T>, i: nat): seq<T>
    requires i < |s|
  {
    s[..i] + s[i + 1..]
  }

  lemma WithoutOne<T>(s: seq<T>, i: nat)
    requires i < |s|
    ensures multiset(Without(s, i)) == multiset(s) - multiset{s[i]} && s[i] in multiset(s)
  {
    assert s == s[..i] + [s[i]] + s[i + 1..];
  }

  lemma Cancel<T>(a: multiset<T>, x: T)
    ensures (a + multiset{x}) - multiset{x} == a
  {
  }

  lemma TotalsWithout(b: seq<Finished>, i: nat, s: RunStatus)
    requires i < |b|
    ensures Count(b, s) == Count(Without(b, i), s) + Count([b[i]], s)
    ensures Fetched(b) == Fetched(Without(b, i)) + Fetched([b[i]])
    ensures Upserted(b) == Upserted(Without(b, i)) + Upserted([b[i]])
    ensures multiset(Errors(b)) == multiset(Errors(Without(b, i))) + multiset(Errors([b[i]]))
  {
    hide Count, Fetched, Upserted, Errors;
    var left, right := b[..i], b[i + 1..];
    assert b == left + [b[i]] + right;
    Totals(left, right, s);
    Totals(left, [b[i]], s);
    Totals(left + [b[i]], right, s);
  }

  /** Totals, counts and the multiset of errors do not depend on the order of completion. */
  lemma {:induction false} TotalsArePermutable(a: seq<Finished>, b: seq<Finished>, s: RunStatus)
    requires multiset(a) == multiset(b)
    ensures SameTotals(a, b, s)
    decreases |a|
  {
    hide Count, Fetched, Upserted, Errors, Without;
    if a == [] {
      assert |multiset(b)| == |b|;
    } else {
      assert a[0] in multiset(b);
      var i :| 0 <= i < |b| && b[i] == a[0];
      WithoutOne(a, 0);
      WithoutOne(b, i);
      assert |multiset(Without(a, 0))| == |Without(a, 0)| && |multiset(a)| == |a|;
      TotalsArePermutable(Without(a, 0), Without(b, i), s);
      TotalsWithout(a, 0, s);
      TotalsWithout(b, i, s);
    }
  }

  lemma ReportIsPermutable(a: seq<Finished>, b: seq<Finished>)
    requires multiset(a) == multiset(b)
    ensures SameReport(ReportOf(a), ReportOf(b))
  {
    TotalsArePermutable(a, b, Success);
    TotalsArePermutable(a, b, Failure);
    TotalsArePermutable(a, b, Skipped);
  }

  lemma {:induction false} EachIsCounted(done: seq<Finished>)
    ensures Count(done, Success) + Count(done, Failure) + Count(done, Skipped) == |done|
  {
    if done == [] {
    } else {
      EachIsCounted(done[..|done| - 1]);
    }
  }

  /** `next` counts one more completion, with its amounts under the cap and its error. */
  predicate Adds(report: Report, f: Finished, next: Report) {
    && next.fetched == (if f.Ok? then Min(report.fetched + FetchedOf(f), USIZE_MAX) else report.fetched)
    && next.upserted == (if f.Ok? then Min(report.upserted + UpsertedOf(f), USIZE_MAX) else report.upserted)
    && next.succeeded == report.succeeded + (if StatusOf(f) == Success then 1 else 0)
    && next.skipped == report.skipped + (if StatusOf(f) == Skipped then 1 else 0)
    && next.failed == report.failed + (if StatusOf(f) == Failure then 1 else 0)
    && next.errors == report.errors + ErrorsOf(f)
  }

  /** What the completion loop adds for one finished source. */
  method AddToReport(report: Report, f: Finished) returns (next: Report)
    ensures Adds(report, f, next)
  {
    next := report;
    match f {
      case Ok(outcome) =>
        next := next.(fetched := SaturatingAdd(report.fetched, outcome.fetched, USIZE_MAX));
        next := next.(upserted := SaturatingAdd(report.upserted, outcome.upserted, USIZE_MAX));
        match outcome.status {
          case Success => next := next.(succeeded := report.succeeded + 1);
          case Skipped => next := next.(skipped := report.skipped + 1);
          case Failure => next := next.(failed := report.failed + 1);
        }
        if outcome.error.Some? {
          next := next.(errors := report.errors + [outcome.error.value]);
        }
      case Err(error) =>
        next := next.(failed := report.failed + 1, errors := report.errors + [WorkerFailed(error)]);
    }
  }

  /** What the report of some completions says, and what one more adds to it. */
  lemma ReportMeans(done: seq<Finished>, f: Finished)
    ensures ReportOf([]) == Report(0, 0, 0, 0, 0, [])
    ensures var r, next := ReportOf(done), ReportOf(done + [f]);
            match f
            case Err(e) => next == r.(failed := r.failed + 1, errors := r.errors + [WorkerFailed(e)])
            case Ok(o) =>
              && next.succeeded == (if o.status == Success then r.succeeded + 1 else r.succeeded)
              && next.failed == (if o.status == Failure then r.failed + 1 else r.failed)
              && next.skipped == (if o.status == Skipped then r.skipped + 1 else r.skipped)
              && next.fetched == (if r.fetched + o.fetched <= 0xFFFF_FFFF_FFFF_FFFF then r.fetched + o.fetched else 0xFFFF_FFFF_FFFF_FFFF)
              && next.upserted == (if r.upserted + o.upserted <= 0xFFFF_FFFF_FFFF_FFFF then r.upserted + o.upserted else 0xFFFF_FFFF_FFFF_FFFF)
              && next.errors == r.errors + match o.error case Some(e) => [e] case None => []
  {
    assert (done + [f])[..|done|] == done;
  }

  /** 0, 1, ..., n-1. */
  function Indices(n: nat): (m: multiset<nat>)
    ensures |m| == n && forall i: nat :: m[i] == if i < n then 1 else 0
  {
    if n == 0 then multiset{} else Indices(n - 1) + multiset{n - 1}
  }

  function Pick(results: seq<Finished>, order: seq<nat>): (picked: seq<Finished>)
    requires Indexes(order, |results|)
    ensures |picked| == |order| && forall k | 0 <= k < |order| :: picked[k] == results[order[k]]
  {
    seq(|order|, k requires 0 <= k < |order| => results[order[k]])
  }

  predicate Indexes(order: seq<nat>, n: nat) { forall k | 0 <= k < |order| :: order[k] < n }

  lemma BelowLast(order: seq<nat>, n: nat)
    requires multiset(order) == Indices(n)
    ensures Indexes(order, n)
  {
    forall k | 0 <= k < |order| ensures order[k] < n {
      assert order[k] in multiset(order);
    }
  }

  lemma IndicesWithout(order: seq<nat>, p: nat, n: nat)
    requires p < |order| && order[p] == n && multiset(order) == Indices(n + 1)
    ensures multiset(Without(order, p)) == Indices(n) && Indexes(Without(order, p), n)
  {
    WithoutOne(order, p);
    Cancel(Indices(n), n);
    BelowLast(Without(order, p), n);
  }

  lemma PickWithout(results: seq<Finished>, order: seq<nat>, p: nat)
    requires Indexes(order, |results|) && p < |order| && order[p] == |results| - 1
    requires Indexes(Without(order, p), |results| - 1)
    ensures multiset(Pick(results[..|results| - 1], Without(order, p)))
         == multiset(Pick(results, order)) - multiset{results[|results| - 1]}
    ensures results[|results| - 1] in multiset(Pick(results, order))
  {
    assert Pick(results[..|results| - 1], Without(order, p)) == Without(Pick(results, order), p);
    WithoutOne(Pick(results, order), p);
  }

  lemma PositionOf(order: seq<nat>, n: nat) returns (p: nat)
    requires multiset(order) == Indices(n + 1)
    ensures p < |order| && order[p] == n
  {
    assert n in multiset(order);
    p :| 0 <= p < |order| && order[p] == n;
  }

  lemma Restore<T>(a: multiset<T>, b: multiset<T>, x: T)
    requires x in a && x in b && a - multiset{x} == b - multiset{x}
    ensures a == b
  {
    assert a == (a - multiset{x}) + multiset{x};
    assert b == (b - multiset{x}) + multiset{x};
  }

  /** Picking every index once, in any order, gives a permutation of the results. */
  lemma {:induction false} PickAll(results: seq<Finished>, order: seq<nat>)
    requires Indexes(order, |results|) && multiset(order) == Indices(|results|)
    ensures multiset(Pick(results, order)) == multiset(results)
    decreases |results|
  {
    if results == [] {
      assert |multiset(order)| == |order|;
    } else {
      hide Pick, Without, Indexes;
      var n := |results| - 1;
      var p := PositionOf(order, n);
      IndicesWithout(order, p, n);
      hide Indices;
      PickAll(results[..n], Without(order, p));
      PickWithout(results, order, p);
      LastOut(results);
      Restore(multiset(Pick(results, order)), multiset(results), results[n]);
    }
  }

  lemma LastOut<T>(s: seq<T>)
    requires s != []
    ensures multiset(s[..|s| - 1]) == multiset(s) - multiset{s[|s| - 1]} && s[|s| - 1] in multiset(s)
  {
    WithoutOne(s, |s| - 1);
    assert Without(s, |s| - 1) == s[..|s| - 1];
  }

  /** What holds of any report once every adapter has completed. */
  lemma AllCompleted(results: seq<Finished>, order: seq<nat>)
    requires Indexes(order, |results|) && multiset(order) == Indices(|results|)
    ensures |order| == |results|
    ensures var report := ReportOf(Pick(results, order));
            && SameReport(report, ReportOf(results))
            && report.succeeded + report.failed + report.skipped == |results|
  {
    assert |multiset(order)| == |order|;
    PickAll(results, order);
    ReportIsPermutable(Pick(results, order), results);
    EachIsCounted(results);
  }

  lemma ReportGrows(results: seq<Finished>, order: seq<nat>, i: nat, next: Report)
    requires Indexes(order, |results|) && i < |results| && Indexes(order + [i], |results|)
    requires Adds(ReportOf(Pick(results, order)), results[i], next)
    ensures next == ReportOf(Pick(results, order + [i]))
  {
    var finished := Pick(results, order);
    assert Pick(results, order + [i]) == finished + [results[i]];
    Totals(finished, [results[i]], Success);
    Totals(finished, [results[i]], Skipped);
    Totals(finished, [results[i]], Failure);
    assert Count([results[i]], Success) == if StatusOf(results[i]) == Success then 1 else 0;
    assert Count([results[i]], Skipped) == if StatusOf(results[i]) == Skipped then 1 else 0;
    assert Count([results[i]], Failure) == if StatusOf(results[i]) == Failure then 1 else 0;
    assert Errors([results[i]]) == ErrorsOf(results[i]);
  }
}

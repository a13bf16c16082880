/**
 Running all registered sources (src/ingest/mod.rs, run_sources): tasks that take their steps on one
 repository in any order, bounded by a semaphore, and are counted in one report as they complete.
 */
module Scheduler {
  import opened ItemMerge
  import opened Backoff
  import opened SourceHealth
  import opened Tables
  import opened Store
  import opened SourceRun
  import opened Reports
  import Evidence

  // ---------------------------------------------------------------- traces

  /** One step of one source. */
  datatype Event = Event(source: nat, step: Step)

  ghost predicate InRange(trace: seq<Event>, n: nat) {
    forall k | 0 <= k < |trace| :: trace[k].source < n
  }

  /** The steps of one source, in order. */
  function StepsIn(trace: seq<Event>, i: nat): seq<Step> {
    if trace == [] then [] else
      var last := trace[|trace| - 1];
      StepsIn(trace[..|trace| - 1], i) + if last.source == i then [last.step] else []
  }

  /** The sources that took a step of one kind, in order. */
  function Chosen(trace: seq<Event>, step: Step): seq<nat> {
    if trace == [] then [] else
      var last := trace[|trace| - 1];
      Chosen(trace[..|trace| - 1], step) + if last.step == step then [last.source] else []
  }

  /** The sources that hold a permit: started and not completed. */
  function Holders(trace: seq<Event>): multiset<nat> {
    if trace == [] then multiset{} else
      var last := trace[|trace| - 1];
      var before := Holders(trace[..|trace| - 1]);
      if last.step == Start then before + multiset{last.source}
      else if last.step == Complete then before - multiset{last.source}
      else before
  }

  /** At no time do more than `concurrency` sources hold a permit. */
  ghost predicate Bounded(trace: seq<Event>, concurrency: nat) {
    forall k | 0 <= k <= |trace| :: |Holders(trace[..k])| <= concurrency
  }

  /** When steps of one kind were taken. */
  ghost function Moments(trace: seq<Event>, step: Step): set<nat> { set k: nat | k < |trace| && trace[k].step == step }

  lemma MomentsGrow(trace: seq<Event>, e: Event, step: Step)
    ensures |Moments(trace + [e], step)| == |Moments(trace, step)| + if e.step == step then 1 else 0
  {
    var was, now, all := Moments(trace, step), Moments(trace + [e], step), trace + [e];
    assert all[|trace|] == e && forall k | 0 <= k < |trace| :: all[k] == trace[k];
    forall k: nat ensures k in now <==> k in was || (k == |trace| && e.step == step) {
      if k < |trace| { assert all[k] == trace[k]; }
    }
    assert |trace| !in was;
    hide Moments;
    if e.step == step {
      assert now == was + {|trace|};
    } else {
      assert now == was;
    }
  }

  lemma {:induction false} HoldersAreOpen(trace: seq<Event>)
    ensures |Moments(trace, Start)| <= |Moments(trace, Complete)| + |Holders(trace)|
  {
    if trace == [] {
    } else {
      var front, last := trace[..|trace| - 1], trace[|trace| - 1];
      assert trace == front + [last];
      HoldersAreOpen(front);
      MomentsGrow(front, last, Start);
      MomentsGrow(front, last, Complete);
    }
  }

  /** At every moment at most `concurrency` more have started than have completed. */
  lemma BoundedMeans(trace: seq<Event>, concurrency: nat)
    requires Bounded(trace, concurrency)
    ensures forall k | 0 <= k <= |trace| :: |Moments(trace[..k], Start)| <= |Moments(trace[..k], Complete)| + concurrency
  {
    forall k | 0 <= k <= |trace| ensures |Moments(trace[..k], Start)| <= |Moments(trace[..k], Complete)| + concurrency {
      HoldersAreOpen(trace[..k]);
    }
  }

  /** All the steps of one source, told from the state before the refresh. */
  function Script(t: SyncState, s: Source): seq<Step> { Rest(t, s, Waiting) }

  /** Every source took exactly the steps of its script, in their order. */
  ghost predicate Scripted(t: SyncState, sources: seq<Source>, trace: seq<Event>) {
    && InRange(trace, |sources|)
    && forall i | 0 <= i < |sources| :: StepsIn(trace, i) == Script(t, sources[i])
  }

  lemma TraceGrows(trace: seq<Event>, e: Event)
    ensures forall i: nat :: StepsIn(trace + [e], i) == StepsIn(trace, i) + if e.source == i then [e.step] else []
    ensures forall step :: Chosen(trace + [e], step) == Chosen(trace, step) + if e.step == step then [e.source] else []
    ensures Holders(trace + [e]) == if e.step == Start then Holders(trace) + multiset{e.source}
                                    else if e.step == Complete then Holders(trace) - multiset{e.source}
                                    else Holders(trace)
  {
    assert (trace + [e])[..|trace|] == trace;
  }

  lemma BoundedGrows(trace: seq<Event>, e: Event, concurrency: nat)
    requires Bounded(trace, concurrency) && |Holders(trace + [e])| <= concurrency
    ensures Bounded(trace + [e], concurrency)
  {
    hide Holders;
    var all := trace + [e];
    forall k | 0 <= k <= |all| ensures |Holders(all[..k])| <= concurrency {
      if k <= |trace| {
        assert all[..k] == trace[..k];
      } else {
        assert all[..k] == all;
      }
    }
  }

  lemma {:induction false} ChosenIndexes(trace: seq<Event>, step: Step, n: nat)
    requires InRange(trace, n)
    ensures Indexes(Chosen(trace, step), n)
  {
    if trace == [] {
    } else {
      ChosenIndexes(trace[..|trace| - 1], step, n);
      assert trace[|trace| - 1].source < n;
    }
  }

  /** A source is chosen for a step as often as the step is among its own. */
  lemma {:induction false} ChosenAsOften(trace: seq<Event>, step: Step, i: nat)
    ensures multiset(Chosen(trace, step))[i] == multiset(StepsIn(trace, i))[step]
  {
    if trace == [] {
    } else {
      ChosenAsOften(trace[..|trace| - 1], step, i);
    }
  }

  /** The four scripts. */
  function ScriptOf(t: SyncState, s: Source): seq<Step> {
    if !Readable(t, s) then [Start, Check, Complete]
    else if !Calls(t, s) then [Start, Check, Record, Complete]
    else if (if Accepted(s) then s.disk.clear else s.disk.mark) then [Start, Check, Adapter, Settle, Record, Complete]
    else [Start, Check, Adapter, Settle, Complete]
  }

  lemma ScriptIs(t: SyncState, s: Source)
    ensures Script(t, s) == ScriptOf(t, s)
  {
    assert Rest(t, s, Waiting) == [Start] + Rest(t, s, Started);
    if Readable(t, s) && Calls(t, s) {
      var end := if Accepted(s) then Delivered else Refused;
      assert Rest(t, s, Started) == [Check] + Rest(t, s, Called);
      assert Rest(t, s, Called) == [Adapter] + Rest(t, s, end);
    }
    hide LedgerOf, Readable, Accepted, Runs, AttemptOf;
  }

  /** A script starts once, first, and completes once, last. */
  ghost predicate StartsAndCompletes(script: seq<Step>) {
    && |script| >= 3 && script[0] == Start && script[|script| - 1] == Complete
    && (forall k | 0 < k < |script| - 1 :: script[k] != Start && script[k] != Complete)
  }

  lemma CompletesOnce(script: seq<Step>)
    requires StartsAndCompletes(script)
    ensures multiset(script)[Complete] == 1
  {
    var front := script[..|script| - 1];
    assert script == front + [Complete];
    assert Complete !in front;
    assert Complete !in multiset(front);
  }

  lemma ScriptShape(t: SyncState, s: Source)
    ensures StartsAndCompletes(Script(t, s))
    ensures Delivers(t, s) ==> Script(t, s)[2] == Adapter
  {
    ScriptIs(t, s);
    hide Script, LedgerOf, Readable, Accepted, Runs, AttemptOf;
  }

  /** A scripted trace completes every source once. */
  lemma CompletedOnce(t: SyncState, sources: seq<Source>, trace: seq<Event>)
    requires Scripted(t, sources, trace)
    ensures multiset(Chosen(trace, Complete)) == Indices(|sources|)
    ensures Indexes(Chosen(trace, Complete), |sources|)
  {
    hide Script, StepsIn;
    var order: seq<nat> := Chosen(trace, Complete);
    var counted: multiset<nat> := multiset(order);
    ChosenIndexes(trace, Complete, |sources|);
    forall i: nat ensures counted[i] == Indices(|sources|)[i] {
      ChosenAsOften(trace, Complete, i);
      if i < |sources| {
        ScriptShape(t, sources[i]);
        CompletesOnce(Script(t, sources[i]));
      } else {
        assert i !in order;
      }
    }
  }

  // ---------------------------------------------------------------- what completed steps come to

  /** The registry refuses a second source of the same id; adapters store cursors only. */
  ghost predicate Registered(sources: seq<Source>) {
    && (forall i, j | 0 <= i < j < |sources| :: sources[i].d.id != sources[j].d.id)
    && (forall i | 0 <= i < |sources| :: WritesNoLedger(sources[i]))
  }

  /** How each source ends, told from the state before any of them ran. */
  function OutcomesOf(t: SyncState, sources: seq<Source>, delays: Delays): (results: seq<Finished>)
    ensures |results| == |sources| && forall i | 0 <= i < |sources| :: results[i] == OutcomeOf(t, sources[i], delays)
  {
    seq(|sources|, i requires 0 <= i < |sources| => OutcomeOf(t, sources[i], delays))
  }

  function DeliveredItems(t: SyncState, s: Source): seq<Item> {
    if Delivers(t, s) then s.adapter.batch.items else []
  }

  function DeliveredEvidence(t: SyncState, s: Source): seq<Evidence.Record> {
    if Delivers(t, s) then s.adapter.batch.evidence else []
  }

  /** What the sources deliver, in the order their transactions are committed. */
  function Batches(t: SyncState, sources: seq<Source>, order: seq<nat>): (batches: seq<seq<Item>>)
    requires Indexes(order, |sources|)
    ensures |batches| == |order| && forall k | 0 <= k < |order| :: batches[k] == DeliveredItems(t, sources[order[k]])
  {
    seq(|order|, k requires 0 <= k < |order| => DeliveredItems(t, sources[order[k]]))
  }

  function EvidenceAfter(table: EvidenceTable, t: SyncState, sources: seq<Source>, order: seq<nat>): EvidenceTable
    requires Indexes(order, |sources|)
  {
    if order == [] then table
    else ApplyEvidence(EvidenceAfter(table, t, sources, order[..|order| - 1]), DeliveredEvidence(t, sources[order[|order| - 1]]))
  }

  /** The rows that the sources leave, in the order they are recorded. */
  function Rows(t: SyncState, sources: seq<Source>, order: seq<nat>, delays: Delays): seq<IngestionRun>
    requires Indexes(order, |sources|)
  {
    if order == [] then []
    else
      var s := sources[order[|order| - 1]];
      Rows(t, sources, order[..|order| - 1], delays) + RowOf(OutcomeOf(t, s, delays), s)
  }

  /** The tables as they were when the refresh began. */
  datatype Before = Before(sync: SyncState, items: Table, evidence: EvidenceTable, runs: seq<IngestionRun>)

  /** Every source stands where its own steps have led it. */
  ghost predicate StagesHold(start: SyncState, now: SyncState, sources: seq<Source>, delays: Delays, trace: seq<Event>, stages: seq<Stage>) {
    && |stages| == |sources| && InRange(trace, |sources|)
    && forall i {:trigger stages[i]} | 0 <= i < |sources| ::
         Reached(start, now, sources[i], delays, stages[i])
         && Script(start, sources[i]) == StepsIn(trace, i) + Rest(start, sources[i], stages[i])
  }

  /** The tables are what the deliveries and rows so far have made of them. */
  ghost predicate DataHolds(b: Before, items: Table, evidence: EvidenceTable, runs: seq<IngestionRun>,
                            sources: seq<Source>, delays: Delays, trace: seq<Event>)
  {
    && Indexes(Chosen(trace, Adapter), |sources|) && Indexes(Chosen(trace, Record), |sources|)
    && items == ApplyBatches(b.items, Batches(b.sync, sources, Chosen(trace, Adapter)))
    && evidence == EvidenceAfter(b.evidence, b.sync, sources, Chosen(trace, Adapter))
    && runs == b.runs + Rows(b.sync, sources, Chosen(trace, Record), delays)
  }

  /** The report counts the completions so far. */
  ghost predicate ReportHolds(start: SyncState, sources: seq<Source>, delays: Delays, trace: seq<Event>, report: Report) {
    && Indexes(Chosen(trace, Complete), |sources|)
    && report == ReportOf(Pick(OutcomesOf(start, sources, delays), Chosen(trace, Complete)))
  }

  /** Exactly the running sources are among `holders`. */
  ghost predicate HoldersAre(holders: multiset<nat>, stages: seq<Stage>) {
    forall i: nat :: holders[i] == if i < |stages| && IsRunning(stages[i]) then 1 else 0
  }

  /** Exactly the running sources hold a permit. */
  ghost predicate PermitsHold(trace: seq<Event>, stages: seq<Stage>, permits: nat, concurrency: nat) {
    && permits + |Holders(trace)| == concurrency && Bounded(trace, concurrency)
    && HoldersAre(Holders(trace), stages)
  }

  // ---------------------------------------------------------------- one more step

  lemma StagesAfter(start: SyncState, was: SyncState, now: SyncState, sources: seq<Source>, delays: Delays,
                    trace: seq<Event>, stages: seq<Stage>, i: nat, next: Stage)
    requires StagesHold(start, was, sources, delays, trace, stages) && i < |stages| && stages[i] != Counted
    requires Reached(start, now, sources[i], delays, next)
    requires Rest(start, sources[i], stages[i]) == [StepOf(stages[i])] + Rest(start, sources[i], next)
    requires forall j | 0 <= j < |sources| && j != i :: SameLedger(sources[j].d.id, was, now)
    ensures StagesHold(start, now, sources, delays, trace + [Event(i, StepOf(stages[i]))], stages[i := next])
  {
    hide Reached, Rest, Script, SameLedger, StepOf, StepsIn;
    var e := Event(i, StepOf(stages[i]));
    TraceGrows(trace, e);
    var after := stages[i := next];
    forall j {:trigger after[j]} | 0 <= j < |sources|
      ensures Reached(start, now, sources[j], delays, after[j])
      ensures Script(start, sources[j]) == StepsIn(trace + [e], j) + Rest(start, sources[j], after[j])
    {
      assert stages[j] == stages[j];
      if j != i {
        OthersStay(start, was, now, sources[j], delays, stages[j]);
      } else {
        Regroup(StepsIn(trace, i), StepOf(stages[i]), Rest(start, sources[i], next));
      }
    }
  }

  lemma Regroup(a: seq<Step>, b: Step, c: seq<Step>)
    ensures a + ([b] + c) == a + [b] + c
  {
  }

  lemma BatchesGrow(t: SyncState, items: Table, sources: seq<Source>, order: seq<nat>, i: nat)
    requires Indexes(order, |sources|) && i < |sources|
    ensures Indexes(order + [i], |sources|)
    ensures ApplyBatches(items, Batches(t, sources, order + [i]))
         == ApplyItems(ApplyBatches(items, Batches(t, sources, order)), DeliveredItems(t, sources[i]))
  {
    var all := order + [i];
    assert forall k | 0 <= k < |order| :: all[k] == order[k];
    var batches := Batches(t, sources, all);
    assert batches[..|order|] == Batches(t, sources, order);
  }

  lemma EvidenceGrows(table: EvidenceTable, t: SyncState, sources: seq<Source>, order: seq<nat>, i: nat)
    requires Indexes(order, |sources|) && i < |sources| && Indexes(order + [i], |sources|)
    ensures EvidenceAfter(table, t, sources, order + [i])
         == ApplyEvidence(EvidenceAfter(table, t, sources, order), DeliveredEvidence(t, sources[i]))
  {
    assert (order + [i])[..|order|] == order;
  }

  lemma RowsGrow(t: SyncState, sources: seq<Source>, order: seq<nat>, i: nat, delays: Delays)
    requires Indexes(order, |sources|) && i < |sources| && Indexes(order + [i], |sources|)
    ensures Rows(t, sources, order + [i], delays)
         == Rows(t, sources, order, delays) + RowOf(OutcomeOf(t, sources[i], delays), sources[i])
  {
    assert (order + [i])[..|order|] == order;
  }

  /** What one step of one source makes of the tables. */
  lemma DataAfter(b: Before, items: Table, evidence: EvidenceTable, runs: seq<IngestionRun>, sources: seq<Source>, delays: Delays,
                  trace: seq<Event>, i: nat, step: Step)
    requires DataHolds(b, items, evidence, runs, sources, delays, trace) && i < |sources|
    ensures DataHolds(b, if step == Adapter then ApplyItems(items, DeliveredItems(b.sync, sources[i])) else items,
                      if step == Adapter then ApplyEvidence(evidence, DeliveredEvidence(b.sync, sources[i])) else evidence,
                      if step == Record then runs + RowOf(OutcomeOf(b.sync, sources[i], delays), sources[i]) else runs,
                      sources, delays, trace + [Event(i, step)])
  {
    hide Chosen, ApplyItems, ApplyEvidence, ApplyBatches, Batches, EvidenceAfter, Rows, RowOf, DeliveredItems, DeliveredEvidence, OutcomeOf;
    TraceGrows(trace, Event(i, step));
    if step == Adapter {
      BatchesGrow(b.sync, b.items, sources, Chosen(trace, Adapter), i);
      EvidenceGrows(b.evidence, b.sync, sources, Chosen(trace, Adapter), i);
      assert Chosen(trace + [Event(i, step)], Record) == Chosen(trace, Record);
    } else if step == Record {
      assert Indexes(Chosen(trace, Record) + [i], |sources|);
      RowsGrow(b.sync, sources, Chosen(trace, Record), i, delays);
      assert Chosen(trace + [Event(i, step)], Adapter) == Chosen(trace, Adapter);
    } else {
      assert Chosen(trace + [Event(i, step)], Adapter) == Chosen(trace, Adapter);
      assert Chosen(trace + [Event(i, step)], Record) == Chosen(trace, Record);
    }
  }

  lemma NothingApplied(t: Table, evidence: EvidenceTable)
    ensures ApplyItems(t, []) == t && ApplyEvidence(evidence, []) == evidence
  {
  }

  lemma PermitTaken(trace: seq<Event>, stages: seq<Stage>, permits: nat, concurrency: nat, i: nat)
    requires PermitsHold(trace, stages, permits, concurrency) && i < |stages| && stages[i].Waiting? && permits > 0
    ensures PermitsHold(trace + [Event(i, Start)], stages[i := Started], permits - 1, concurrency)
  {
    hide Bounded;
    TraceGrows(trace, Event(i, Start));
    hide Holders;
    assert Holders(trace)[i] == 0;
    BoundedGrows(trace, Event(i, Start), concurrency);
  }

  lemma PermitReturned(trace: seq<Event>, stages: seq<Stage>, permits: nat, concurrency: nat, i: nat)
    requires PermitsHold(trace, stages, permits, concurrency) && i < |stages| && stages[i].Ended?
    ensures PermitsHold(trace + [Event(i, Complete)], stages[i := Counted], permits + 1, concurrency)
  {
    hide Bounded;
    TraceGrows(trace, Event(i, Complete));
    hide Holders;
    assert Holders(trace)[i] == 1;
    assert i in Holders(trace);
    BoundedGrows(trace, Event(i, Complete), concurrency);
  }

  lemma PermitKept(trace: seq<Event>, stages: seq<Stage>, permits: nat, concurrency: nat, i: nat, next: Stage)
    requires PermitsHold(trace, stages, permits, concurrency) && i < |stages| && IsRunning(stages[i]) && !stages[i].Ended?
    requires IsRunning(next)
    ensures PermitsHold(trace + [Event(i, StepOf(stages[i]))], stages[i := next], permits, concurrency)
  {
    hide Bounded;
    var e := Event(i, StepOf(stages[i]));
    assert e.step != Start && e.step != Complete;
    TraceGrows(trace, e);
    hide Holders, StepOf;
    assert Holders(trace + [e]) == Holders(trace);
    BoundedGrows(trace, e, concurrency);
  }

  lemma ReportAfter(start: SyncState, sources: seq<Source>, delays: Delays, trace: seq<Event>, report: Report, i: nat, next: Report)
    requires ReportHolds(start, sources, delays, trace, report) && i < |sources|
    requires Adds(report, OutcomeOf(start, sources[i], delays), next)
    ensures ReportHolds(start, sources, delays, trace + [Event(i, Complete)], next)
  {
    hide Adds, ReportOf, Pick, OutcomeOf, Chosen;
    TraceGrows(trace, Event(i, Complete));
    var order := Chosen(trace, Complete);
    assert Indexes(order + [i], |sources|);
    ReportGrows(OutcomesOf(start, sources, delays), order, i, next);
  }

  lemma ReportStays(start: SyncState, sources: seq<Source>, delays: Delays, trace: seq<Event>, report: Report, e: Event)
    requires ReportHolds(start, sources, delays, trace, report) && e.step != Complete
    ensures ReportHolds(start, sources, delays, trace + [e], report)
  {
    TraceGrows(trace, e);
    assert Chosen(trace + [e], Complete) == Chosen(trace, Complete);
    hide Chosen, ReportOf;
  }

  lemma SameToItself(sources: seq<Source>, t: SyncState)
    ensures forall j | 0 <= j < |sources| :: SameLedger(sources[j].d.id, t, t)
  {
  }

  /** A source takes a permit. */
  lemma StartStep(start: SyncState, now: SyncState, sources: seq<Source>, delays: Delays, trace: seq<Event>, stages: seq<Stage>, i: nat)
    requires StagesHold(start, now, sources, delays, trace, stages) && i < |stages| && stages[i].Waiting?
    ensures StagesHold(start, now, sources, delays, trace + [Event(i, Start)], stages[i := Started])
  {
    SameToItself(sources, now);
    assert Reached(start, now, sources[i], delays, stages[i]);
    StagesAfter(start, now, now, sources, delays, trace, stages, i, Started);
  }

  /** A source that has ended completes. */
  lemma CompleteStep(start: SyncState, now: SyncState, sources: seq<Source>, delays: Delays, trace: seq<Event>, stages: seq<Stage>, i: nat)
    requires StagesHold(start, now, sources, delays, trace, stages) && i < |stages| && stages[i].Ended?
    ensures stages[i].result == OutcomeOf(start, sources[i], delays)
    ensures StagesHold(start, now, sources, delays, trace + [Event(i, Complete)], stages[i := Counted])
  {
    SameToItself(sources, now);
    assert Reached(start, now, sources[i], delays, stages[i]);
    StagesAfter(start, now, now, sources, delays, trace, stages, i, Counted);
  }

  /** The same, told from the stage that the step leaves. */
  lemma DataAfterStage(b: Before, items: Table, evidence: EvidenceTable, runs: seq<IngestionRun>,
                       items2: Table, evidence2: EvidenceTable, runs2: seq<IngestionRun>,
                       sources: seq<Source>, delays: Delays, trace: seq<Event>, i: nat, stage: Stage)
    requires DataHolds(b, items, evidence, runs, sources, delays, trace) && i < |sources| && stage != Counted
    requires items2 == if stage.Called? && Delivers(b.sync, sources[i]) then ApplyItems(items, sources[i].adapter.batch.items) else items
    requires evidence2 ==
             if stage.Called? && Delivers(b.sync, sources[i]) then ApplyEvidence(evidence, sources[i].adapter.batch.evidence) else evidence
    requires runs2 == if StepOf(stage) == Record then runs + RowOf(OutcomeOf(b.sync, sources[i], delays), sources[i]) else runs
    ensures DataHolds(b, items2, evidence2, runs2, sources, delays, trace + [Event(i, StepOf(stage))])
  {
    hide DataHolds, ApplyItems, ApplyEvidence, RowOf, OutcomeOf;
    NothingApplied(items, evidence);
    DataAfter(b, items, evidence, runs, sources, delays, trace, i, StepOf(stage));
    hide Delivers;
  }

  /** A running source takes its next step on the shared repository. */
  method AdvanceOne(repository: Repository, sources: seq<Source>, delays: Delays, stages: seq<Stage>, i: nat,
                    ghost trace: seq<Event>, ghost b: Before)
    returns (next: Stage)
    requires repository.Valid() && Registered(sources) && i < |stages| && IsRunning(stages[i]) && !stages[i].Ended?
    requires StagesHold(b.sync, repository.syncState, sources, delays, trace, stages)
    requires DataHolds(b, repository.items, repository.evidence, repository.runs, sources, delays, trace)
    modifies repository`items, repository`evidence, repository`syncState, repository`cache, repository`runs
    ensures repository.Valid() && IsRunning(next) && StepsLeft(next) < StepsLeft(stages[i])
    ensures StagesHold(b.sync, repository.syncState, sources, delays, trace + [Event(i, StepOf(stages[i]))], stages[i := next])
    ensures DataHolds(b, repository.items, repository.evidence, repository.runs, sources, delays, trace + [Event(i, StepOf(stages[i]))])
  {
    ghost var was := repository.syncState;
    ghost var items, evidence, runs := repository.items, repository.evidence, repository.runs;
    assert Reached(b.sync, was, sources[i], delays, stages[i]);
    hide Reached, Rest, DataHolds, StagesHold, ApplyItems, ApplyEvidence, RowOf, OutcomeOf, Delivers, SameLedger, WritesNoLedger, StepOf,
         StepsLeft;
    next := Advance(repository, sources[i], delays, stages[i], b.sync);
    StagesAfter(b.sync, was, repository.syncState, sources, delays, trace, stages, i, next);
    DataAfterStage(b, items, evidence, runs, repository.items, repository.evidence, repository.runs, sources, delays, trace, i, stages[i]);
  }

  // ---------------------------------------------------------------- the run of all sources

  function Left(stages: seq<Stage>): nat {
    if stages == [] then 0 else Left(stages[..|stages| - 1]) + StepsLeft(stages[|stages| - 1])
  }

  lemma {:induction false} LeftFalls(stages: seq<Stage>, i: nat, next: Stage)
    requires i < |stages| && StepsLeft(next) < StepsLeft(stages[i])
    ensures Left(stages[i := next]) < Left(stages)
    decreases |stages|
  {
    var n := |stages| - 1;
    if i == n {
      assert stages[i := next][..n] == stages[..n];
    } else {
      assert stages[i := next][..n] == stages[..n][i := next];
      LeftFalls(stages[..n], i, next);
    }
  }

  /** Some source can always move: one that runs, or one that waits while a permit is free. */
  lemma SomeoneMoves(trace: seq<Event>, stages: seq<Stage>, permits: nat, concurrency: nat, i: nat)
    requires PermitsHold(trace, stages, permits, concurrency) && concurrency >= 1
    requires i < |stages| && stages[i] != Counted
    ensures exists j: nat :: j < |stages| && stages[j] != Counted && (stages[j].Waiting? ==> permits > 0)
  {
    if permits == 0 {
      var j :| j in Holders(trace);
      assert Holders(trace)[j] > 0;
      assert stages[j] != Counted;
    }
  }

  lemma StagesAtFirst(start: SyncState, sources: seq<Source>, delays: Delays, stages: seq<Stage>)
    requires |stages| == |sources| && forall i | 0 <= i < |stages| :: stages[i] == Waiting
    ensures StagesHold(start, start, sources, delays, [], stages)
  {
    forall i | 0 <= i < |sources|
      ensures Reached(start, start, sources[i], delays, Waiting)
      ensures Script(start, sources[i]) == StepsIn([], i) + Rest(start, sources[i], Waiting)
    {
      hide Rest;
    }
    hide Reached, Rest, StepsIn, Script;
  }

  lemma DataAtFirst(b: Before, sources: seq<Source>, delays: Delays)
    ensures DataHolds(b, b.items, b.evidence, b.runs, sources, delays, [])
    ensures ReportHolds(b.sync, sources, delays, [], EMPTY_REPORT)
  {
    hide OutcomeOf, DeliveredItems, DeliveredEvidence;
  }

  lemma PermitsAtFirst(stages: seq<Stage>, concurrency: nat)
    requires forall i | 0 <= i < |stages| :: stages[i] == Waiting
    ensures PermitsHold([], stages, concurrency, concurrency)
  {
  }

  /** What holds of a run of all sources, whatever its schedule. */
  ghost predicate RanAll(b: Before, sources: seq<Source>, delays: Delays, trace: seq<Event>,
                         sync: SyncState, items: Table, evidence: EvidenceTable, runs: seq<IngestionRun>) {
    && Scripted(b.sync, sources, trace)
    && DataHolds(b, items, evidence, runs, sources, delays, trace)
    && forall i | 0 <= i < |sources| :: LedgerOf(sync, sources[i].d.id) == FinalLedger(b.sync, sources[i], delays)
  }

  lemma AtLast(b: Before, sync: SyncState, sources: seq<Source>, delays: Delays, trace: seq<Event>, stages: seq<Stage>)
    requires StagesHold(b.sync, sync, sources, delays, trace, stages)
    requires forall i | 0 <= i < |stages| :: stages[i] == Counted
    ensures Scripted(b.sync, sources, trace)
    ensures forall i | 0 <= i < |sources| :: LedgerOf(sync, sources[i].d.id) == FinalLedger(b.sync, sources[i], delays)
  {
    hide LedgerOf, FinalLedger, StepsIn, Script;
    forall i | 0 <= i < |sources|
      ensures StepsIn(trace, i) == Script(b.sync, sources[i])
      ensures LedgerOf(sync, sources[i].d.id) == FinalLedger(b.sync, sources[i], delays)
    {
      assert stages[i] == Counted;
      assert StepsIn(trace, i) + [] == StepsIn(trace, i);
    }
  }

  /**
   Every source is a task that waits for a permit, takes its steps and completes; which one moves next is
   arbitrary.  Whatever the schedule, every source takes the steps of its script, at most `concurrency` hold a
   permit at any time, and outcomes, ledgers and report are those told from the state before.
   */
  method RunSources(repository: Repository, sources: seq<Source>, delays: Delays, concurrency: nat)
    returns (report: Report, ghost trace: seq<Event>)
    requires repository.Valid() && concurrency >= 1 && Registered(sources)
    modifies repository`items, repository`evidence, repository`syncState, repository`cache, repository`runs
    ensures repository.Valid()
    ensures Bounded(trace, concurrency)
    ensures forall k | 0 <= k <= |trace| :: |Moments(trace[..k], Start)| <= |Moments(trace[..k], Complete)| + concurrency
    ensures RanAll(old(Before(repository.syncState, repository.items, repository.evidence, repository.runs)), sources, delays, trace,
                   repository.syncState, repository.items, repository.evidence, repository.runs)
    ensures ReportHolds(old(repository.syncState), sources, delays, trace, report)
    ensures SameReport(report, ReportOf(OutcomesOf(old(repository.syncState), sources, delays)))
    ensures report.succeeded + report.failed + report.skipped == |sources|
  {
    ghost var b := Before(repository.syncState, repository.items, repository.evidence, repository.runs);
    var stages := seq(|sources|, _ => Waiting);
    var permits := concurrency;
    report, trace := EMPTY_REPORT, [];
    StagesAtFirst(b.sync, sources, delays, stages);
    DataAtFirst(b, sources, delays);
    PermitsAtFirst(stages, concurrency);
    while exists i :: 0 <= i < |stages| && stages[i] != Counted
      invariant repository.Valid() && |stages| == |sources|
      invariant StagesHold(b.sync, repository.syncState, sources, delays, trace, stages)
      invariant DataHolds(b, repository.items, repository.evidence, repository.runs, sources, delays, trace)
      invariant ReportHolds(b.sync, sources, delays, trace, report)
      invariant PermitsHold(trace, stages, permits, concurrency)
      decreases Left(stages)
    {
      report, stages, permits, trace := Turn(repository, sources, delays, concurrency, report, stages, permits, trace, b);
    }
    AtLast(b, repository.syncState, sources, delays, trace, stages);
    CompletedOnce(b.sync, sources, trace);
    AllCompleted(OutcomesOf(b.sync, sources, delays), Chosen(trace, Complete));
    BoundedMeans(trace, concurrency);
  }

  /** One step of some source that can take one. */
  method Turn(repository: Repository, sources: seq<Source>, delays: Delays, concurrency: nat, report: Report, stages: seq<Stage>,
              permits: nat, ghost trace: seq<Event>, ghost b: Before)
    returns (counted: Report, after: seq<Stage>, free: nat, ghost longer: seq<Event>)
    requires repository.Valid() && concurrency >= 1 && Registered(sources) && |stages| == |sources|
    requires exists i :: 0 <= i < |stages| && stages[i] != Counted
    requires StagesHold(b.sync, repository.syncState, sources, delays, trace, stages)
    requires DataHolds(b, repository.items, repository.evidence, repository.runs, sources, delays, trace)
    requires ReportHolds(b.sync, sources, delays, trace, report)
    requires PermitsHold(trace, stages, permits, concurrency)
    modifies repository`items, repository`evidence, repository`syncState, repository`cache, repository`runs
    ensures repository.Valid() && |after| == |sources| && Left(after) < Left(stages)
    ensures StagesHold(b.sync, repository.syncState, sources, delays, longer, after)
    ensures DataHolds(b, repository.items, repository.evidence, repository.runs, sources, delays, longer)
    ensures ReportHolds(b.sync, sources, delays, longer, counted)
    ensures PermitsHold(longer, after, free, concurrency)
  {
    hide StagesHold, DataHolds, ReportHolds, PermitsHold, Registered, Left, ApplyItems, ApplyEvidence;
    ghost var some: nat :| some < |stages| && stages[some] != Counted;
    SomeoneMoves(trace, stages, permits, concurrency, some);
    var i: nat :| i < |stages| && stages[i] != Counted && (stages[i].Waiting? ==> permits > 0);
    counted, free := report, permits;
    longer := trace + [Event(i, StepOf(stages[i]))];
    var next: Stage;
    if stages[i].Waiting? {
      next, free := Started, permits - 1;
      PermitTaken(trace, stages, permits, concurrency, i);
      StartStep(b.sync, repository.syncState, sources, delays, trace, stages, i);
      DataAfter(b, repository.items, repository.evidence, repository.runs, sources, delays, trace, i, Start);
      ReportStays(b.sync, sources, delays, trace, report, Event(i, Start));
    } else if stages[i].Ended? {
      next, free := Counted, permits + 1;
      PermitReturned(trace, stages, permits, concurrency, i);
      counted := AddToReport(report, stages[i].result);
      CompleteStep(b.sync, repository.syncState, sources, delays, trace, stages, i);
      DataAfter(b, repository.items, repository.evidence, repository.runs, sources, delays, trace, i, Complete);
      ReportAfter(b.sync, sources, delays, trace, report, i, counted);
    } else {
      ReportStays(b.sync, sources, delays, trace, report, Event(i, StepOf(stages[i])));
      next := AdvanceOne(repository, sources, delays, stages, i, trace, b);
      PermitKept(trace, stages, permits, concurrency, i, next);
    }
    LeftFalls(stages, i, next);
    after := stages[i := next];
  }

  // ---------------------------------------------------------------- the schedule does not matter

  lemma {:induction false} FlattenMembers(batches: seq<seq<Item>>, x: Item)
    ensures x in Flatten(batches) <==> exists k :: 0 <= k < |batches| && x in batches[k]
  {
    if batches == [] {
    } else {
      var front, last := batches[..|batches| - 1], batches[|batches| - 1];
      FlattenMembers(front, x);
      if k :| 0 <= k < |front| && x in front[k] { assert x in batches[k]; }
      if x in last { assert x in batches[|batches| - 1]; }
    }
  }

  /** Under every schedule exactly the items of the delivering sources are applied. */
  lemma DeliveredByAny(t: SyncState, sources: seq<Source>, trace: seq<Event>, x: Item)
    requires Scripted(t, sources, trace) && Indexes(Chosen(trace, Adapter), |sources|)
    ensures x in Flatten(Batches(t, sources, Chosen(trace, Adapter)))
       <==> exists i :: 0 <= i < |sources| && x in DeliveredItems(t, sources[i])
  {
    hide Delivers, Script, StepsIn;
    var order := Chosen(trace, Adapter);
    FlattenMembers(Batches(t, sources, order), x);
    if i :| 0 <= i < |sources| && x in DeliveredItems(t, sources[i]) {
      ScriptShape(t, sources[i]);
      assert Script(t, sources[i])[2] in multiset(Script(t, sources[i]));
      ChosenAsOften(trace, Adapter, i);
      assert i in multiset(order);
      var k :| 0 <= k < |order| && order[k] == i;
      assert x in Batches(t, sources, order)[k];
    }
    if k :| 0 <= k < |order| && x in Batches(t, sources, order)[k] {
      assert x in DeliveredItems(t, sources[order[k]]);
    }
  }

  /** Two schedules of the same refresh store the same ids with the same joined fields. */
  lemma ScheduleIsIrrelevant(t: SyncState, items: Table, sources: seq<Source>, one: seq<Event>, two: seq<Event>, id: string)
    requires Scripted(t, sources, one) && Indexes(Chosen(one, Adapter), |sources|)
    requires Scripted(t, sources, two) && Indexes(Chosen(two, Adapter), |sources|)
    requires forall i, x | 0 <= i < |sources| && x in DeliveredItems(t, sources[i]) :: Normalised(x.severity)
    requires id in items ==> Normalised(items[id].severity)
    ensures var a := ApplyBatches(items, Batches(t, sources, Chosen(one, Adapter)));
            var b := ApplyBatches(items, Batches(t, sources, Chosen(two, Adapter)));
            (id in a <==> id in b) && (id in a ==> SameJoins(a[id], b[id]))
  {
    hide DeliveredItems, Normalised, SameJoins, ApplyBatches, Flatten, Indexes, Scripted, Batches, Chosen;
    var a, b := Batches(t, sources, Chosen(one, Adapter)), Batches(t, sources, Chosen(two, Adapter));
    forall x ensures x in Flatten(a) <==> x in Flatten(b) {
      DeliveredByAny(t, sources, one, x);
      DeliveredByAny(t, sources, two, x);
    }
    forall x | x in Flatten(a) ensures Normalised(x.severity) {
      DeliveredByAny(t, sources, one, x);
    }
    ArrivalOrderIsIrrelevant(items, a, b, id);
  }

  /** A refresh adds no second kind of record of the CVE Program: adapters store records under their own ids. */
  lemma {:induction false} RefreshKeepsCanonicalKind(table: EvidenceTable, t: SyncState, sources: seq<Source>, order: seq<nat>)
    requires Indexes(order, |sources|) && CanonicalKind(table)
    requires forall i | 0 <= i < |sources| :: sources[i].d.id != Evidence.CANONICAL
    ensures CanonicalKind(EvidenceAfter(table, t, sources, order))
    decreases |order|
  {
    if order == [] {
    } else {
      var front, last := order[..|order| - 1], order[|order| - 1];
      RefreshKeepsCanonicalKind(table, t, sources, front);
      hide CanonicalKind, Readable, LedgerOf;
      CanonicalKindStays(EvidenceAfter(table, t, sources, front), DeliveredEvidence(t, sources[last]));
    }
  }
}

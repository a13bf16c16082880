/**
 One run of one registered source (src/ingest/mod.rs, run_one_source): from its backoff check to its
 committed batch or its recorded failure, as a chain of steps between which other sources may act.
 */
module SourceRun {
  import opened Wrappers
  import opened TextOrder
  import opened ItemMerge
  import opened Backoff
  import opened SourceHealth
  import opened Tables
  import opened Store

  datatype Descriptor = Descriptor(id: string, name: string, kind: string)

  /** How an adapter ends; `passes` is the verdict of the output check on everything but the source ids. */
  datatype AdapterResult =
    | Output(batch: IngestBatch, fetched: nat, skipped: bool, passes: bool)
    | AdapterFailed
    | Panicked
    | DeadlineExceeded

  /** Which of the database accesses of a run succeed. */
  datatype Disk = Disk(read: bool, apply: bool, clear: bool, mark: bool, record: bool)

  /** A source and all that its run meets: its adapter's end, the clock at each reading, the disk. */
  datatype Source = Source(
    d: Descriptor,
    adapter: AdapterResult,
    checkedAt: Instant,
    failedAt: Instant,
    finishedAt: string,
    disk: Disk)

  /** The configured base and maximum of the backoff, in seconds. */
  datatype Delays = Delays(base: nat, maximum: nat)

  datatype ErrorText = InBackoff(source: string, until: Instant) | RetryAfter(source: string, until: Instant) | WorkerFailed(cause: DbError)

  datatype RunStatus = Success | Skipped | Failure

  datatype Outcome = Outcome(status: RunStatus, fetched: nat, upserted: nat, error: Option<ErrorText>)

  type Finished = Result<Outcome, DbError>

  function StatusText(s: RunStatus): string {
    match s
    case Success => "success"
    case Skipped => "skipped"
    case Failure => "failed"
  }

  function RunRow(s: Source, status: RunStatus, error: Option<ErrorText>): IngestionRun {
    IngestionRun(s.d.id, s.d.name, s.d.kind, StatusText(status), if error.Some? then Some("error") else None, s.finishedAt)
  }

  // ---------------------------------------------------------------- what a run comes to

  /** The output check: every item and every record carries the id of the source, among other things. */
  predicate IsValid(s: Source) {
    && s.adapter.Output? && s.adapter.passes
    && (forall i | i in s.adapter.batch.items :: i.sourceId == s.d.id)
    && (forall r | r in s.adapter.batch.evidence :: r.sourceId == s.d.id)
  }

  /** The adapter's output is accepted: it ran to its end, passed the check and was committed. */
  predicate Accepted(s: Source) {
    IsValid(s) && (s.disk.apply || s.adapter.batch.IsEmpty())
  }

  /** The deadline of a source can be read, or there is none. */
  predicate Readable(t: SyncState, s: Source) {
    s.disk.read && (BackoffUntil(s.d.id) in t ==> t[BackoffUntil(s.d.id)].Moment?)
  }

  function AttemptOf(s: Source): Attempt { Attempt(s.checkedAt, Accepted(s), s.failedAt) }

  predicate Calls(t: SyncState, s: Source) {
    Readable(t, s) && Runs(LedgerOf(t, s.d.id), AttemptOf(s))
  }

  /** The data of the run arrives. */
  predicate Delivers(t: SyncState, s: Source) { Calls(t, s) && Accepted(s) }

  function NextLedger(t: SyncState, s: Source, delays: Delays): Ledger {
    Next(LedgerOf(t, s.d.id), AttemptOf(s), delays.base, delays.maximum)
  }

  /** How the run ends, told from what was stored about the source before it. */
  function OutcomeOf(t: SyncState, s: Source, delays: Delays): Finished {
    if !s.disk.read then Err(NotRead)
    else if !Readable(t, s) then Err(BadTimestamp)
    else if !Calls(t, s) then Recorded(s, Postponed(LedgerOf(t, s.d.id).until.value))
    else if Accepted(s) then if s.disk.clear then Recorded(s, Cleared) else Err(NotCommitted)
    else if s.disk.mark then Recorded(s, Marked(NextLedger(t, s, delays).until.value))
    else Err(NotCommitted)
  }

  /** What the data of the run makes of the sync state. */
  function AfterData(t: SyncState, s: Source): SyncState {
    if Delivers(t, s) then ApplySync(t, s.adapter.batch.syncUpdates) else t
  }

  /** The backoff of the source after the run, whichever database access failed. */
  function FinalLedger(t: SyncState, s: Source, delays: Delays): Ledger {
    if Delivers(t, s) then if s.disk.clear then CLEAN else LedgerOf(AfterData(t, s), s.d.id)
    else if Calls(t, s) && s.disk.mark then NextLedger(t, s, delays)
    else LedgerOf(t, s.d.id)
  }

  /** A run that reports its outcome has moved the ledger by one step of the backoff specification. */
  lemma ReportedMovesLedger(t: SyncState, s: Source, delays: Delays)
    requires OutcomeOf(t, s, delays).Ok?
    ensures FinalLedger(t, s, delays) == NextLedger(t, s, delays)
  {
  }

  /** What a reported outcome says about the run. */
  lemma ReportedMeans(t: SyncState, s: Source, delays: Delays)
    ensures OutcomeOf(t, s, delays).Ok? <==>
              Readable(t, s) && s.disk.record && (Calls(t, s) ==> if Accepted(s) then s.disk.clear else s.disk.mark)
    ensures var r := OutcomeOf(t, s, delays);
            r.Ok? ==>
              && (r.value.status == Failure <==> Calls(t, s) && !Accepted(s))
              && (r.value.status == Success <==> Delivers(t, s) && !s.adapter.skipped)
              && (r.value.error.None? <==> Delivers(t, s))
              && (Delivers(t, s) ==> r.value.fetched == s.adapter.fetched && r.value.upserted == |s.adapter.batch.items|)
  {
  }

  /**
   How a run ends on a disk that works: a deadline that is ahead postpones it; an output that passes the check and
   carries no other source's id arrives, and its own word tells success from skipping; any other end is a failure.
   */
  lemma WorkingRunMeans(t: SyncState, s: Source, delays: Delays)
    requires s.disk == Disk(true, true, true, true, true)
    ensures var k := BackoffUntil(s.d.id);
            var r := OutcomeOf(t, s, delays);
            if k in t && !t[k].Moment? then r == Err(BadTimestamp)
            else if k in t && t[k].at > s.checkedAt then
              !Calls(t, s) && r == Ok(Outcome(Skipped, 0, 0, Some(InBackoff(s.d.id, t[k].at))))
            else
              && Calls(t, s)
              && if && s.adapter.Output? && s.adapter.passes
                    && (forall i | i in s.adapter.batch.items :: i.sourceId == s.d.id)
                    && (forall e | e in s.adapter.batch.evidence :: e.sourceId == s.d.id)
                 then && Delivers(t, s)
                      && r == Ok(Outcome(if s.adapter.skipped then Skipped else Success, s.adapter.fetched, |s.adapter.batch.items|, None))
                 else && !Delivers(t, s)
                      && NextLedger(t, s, delays) == Failed(LedgerOf(t, s.d.id), s.failedAt, delays.base, delays.maximum)
                      && r.Ok? && r.value.status == Failure && r.value.fetched == 0 && r.value.upserted == 0
                      && r.value.error == Some(RetryAfter(s.d.id, NextLedger(t, s, delays).until.value))
  {
    hide DelaySeconds;
  }

  /** After a reported run the health page shows it as the last of its source, and counts it if it failed lately. */
  lemma ReportedIsShown(t: SyncState, s: Source, delays: Delays, runs: seq<IngestionRun>,
                        before: map<string, Health>, after: map<string, Health>, cutoff: string)
    requires OutcomeOf(t, s, delays).Ok? && |runs| < 10000
    requires DescribesAll(before, Newest(runs), cutoff)
    requires DescribesAll(after, Newest(runs + RowOf(OutcomeOf(t, s, delays), s)), cutoff)
    ensures s.d.id in after
    ensures var r, h := OutcomeOf(t, s, delays).value, after[s.d.id];
            && h.name == s.d.name && h.lastRunAt == Some(s.finishedAt)
            && h.lastStatus == (match r.status case Success => "success" case Skipped => "skipped" case Failure => "failed")
            && (h.lastError.Some? <==> r.error.Some?)
            && h.failures24h == FailuresShown(before, s.d.id) + (if r.status == Failure && AtMost(cutoff, s.finishedAt) then 1 else 0)
            && h.lastSuccessAt == if r.status == Success then Some(s.finishedAt) else SuccessShown(before, s.d.id)
  {
    hide DescribesAll, Newest, OutcomeOf, AtMost;
    var r := OutcomeOf(t, s, delays).value;
    var row := RunRow(s, r.status, r.error);
    NewRunIsShown(runs, row, after, cutoff);
    NewRunIsCounted(runs, row, before, after, cutoff, s.d.id);
  }

  // ---------------------------------------------------------------- the steps of a run

  datatype Step = Start | Check | Adapter | Settle | Record | Complete

  /** Where a run stands between two of its database accesses. */
  datatype Stage =
    | Waiting
    | Started
    | Postponed(until: Instant)
    | Called
    | Delivered
    | Refused
    | Cleared
    | Marked(until: Instant)
    | Ended(result: Finished)
    | Counted

  predicate IsRunning(stage: Stage) { stage != Waiting && stage != Counted }

  /** The step that is next. */
  function StepOf(stage: Stage): Step
    requires stage != Counted
  {
    match stage
    case Waiting => Start
    case Started => Check
    case Called => Adapter
    case Delivered => Settle
    case Refused => Settle
    case Postponed(_) => Record
    case Cleared => Record
    case Marked(_) => Record
    case Ended(_) => Complete
  }

  /** How many steps are to come, at most. */
  function StepsLeft(stage: Stage): nat {
    match stage
    case Waiting => 6
    case Started => 5
    case Called => 4
    case Delivered => 3
    case Refused => 3
    case Postponed(_) => 2
    case Cleared => 2
    case Marked(_) => 2
    case Ended(_) => 1
    case Counted => 0
  }

  /** All the steps that are to come, told from the state before the run. */
  function Rest(t: SyncState, s: Source, stage: Stage): seq<Step>
    decreases StepsLeft(stage)
  {
    match stage
    case Waiting => [Start] + Rest(t, s, Started)
    case Started =>
      [Check] + (if !Readable(t, s) then [Complete] else if !Calls(t, s) then [Record, Complete] else Rest(t, s, Called))
    case Called => [Adapter] + Rest(t, s, if Accepted(s) then Delivered else Refused)
    case Delivered => [Settle] + (if s.disk.clear then [Record, Complete] else [Complete])
    case Refused => [Settle] + (if s.disk.mark then [Record, Complete] else [Complete])
    case Postponed(_) => [Record, Complete]
    case Cleared => [Record, Complete]
    case Marked(_) => [Record, Complete]
    case Ended(_) => [Complete]
    case Counted => []
  }

  function OutcomeAt(s: Source, stage: Stage): Outcome {
    match stage
    case Postponed(until) => Outcome(Skipped, 0, 0, Some(InBackoff(s.d.id, until)))
    case Marked(until) => Outcome(Failure, 0, 0, Some(RetryAfter(s.d.id, until)))
    case _ =>
      Outcome(if s.adapter.Output? && s.adapter.skipped then Skipped else Success,
              if s.adapter.Output? then s.adapter.fetched else 0,
              if s.adapter.Output? then |s.adapter.batch.items| else 0, None)
  }

  function Recorded(s: Source, stage: Stage): Finished {
    if s.disk.record then Ok(OutcomeAt(s, stage)) else Err(NotCommitted)
  }

  /** The row that a run leaves, if it reports an outcome. */
  function RowOf(f: Finished, s: Source): seq<IngestionRun> {
    if f.Ok? then [RunRow(s, f.value.status, f.value.error)] else []
  }

  /**
   A run that began when the sync state was `start` has come to `stage`: that is where its own ledger puts it
   now, whatever other sources have done meanwhile.
   */
  ghost predicate Reached(start: SyncState, now: SyncState, s: Source, delays: Delays, stage: Stage) {
    match stage
    case Waiting => SameLedger(s.d.id, start, now)
    case Started => SameLedger(s.d.id, start, now)
    case Postponed(until) =>
      && SameLedger(s.d.id, start, now) && Readable(start, s) && !Calls(start, s)
      && LedgerOf(start, s.d.id).until == Some(until)
    case Called => SameLedger(s.d.id, start, now) && Calls(start, s)
    case Delivered => SameLedger(s.d.id, AfterData(start, s), now) && Delivers(start, s)
    case Refused => SameLedger(s.d.id, start, now) && Calls(start, s) && !Accepted(s)
    case Cleared => LedgerOf(now, s.d.id) == FinalLedger(start, s, delays) && Delivers(start, s) && s.disk.clear
    case Marked(until) =>
      && LedgerOf(now, s.d.id) == FinalLedger(start, s, delays) && Calls(start, s) && !Accepted(s) && s.disk.mark
      && NextLedger(start, s, delays).until == Some(until)
    case Ended(r) => LedgerOf(now, s.d.id) == FinalLedger(start, s, delays) && r == OutcomeOf(start, s, delays)
    case Counted => LedgerOf(now, s.d.id) == FinalLedger(start, s, delays)
  }

  // ---------------------------------------------------------------- one source leaves the others alone

  /** Only the backoff keys of the source may differ. */
  ghost predicate OnlyLedgerOf(id: string, was: SyncState, now: SyncState) {
    forall k | k != FailureCount(id) && k != BackoffUntil(id) ::
      (k in now <==> k in was) && (k in now ==> now[k] == was[k])
  }

  predicate SameKey(k: SyncKey, was: SyncState, now: SyncState) {
    (k in now <==> k in was) && (k in now ==> now[k] == was[k])
  }

  /** Nothing stored about the backoff of the source differs. */
  predicate SameLedger(id: string, was: SyncState, now: SyncState) {
    SameKey(FailureCount(id), was, now) && SameKey(BackoffUntil(id), was, now)
  }

  /** Adapters store cursors, never backoff keys. */
  ghost predicate WritesNoLedger(s: Source) {
    s.adapter.Output? ==>
      forall u | u in s.adapter.batch.syncUpdates :: !u.key.FailureCount? && !u.key.BackoffUntil?
  }

  lemma {:induction false} UpdatesKeepKey(t: SyncState, updates: seq<SyncUpdate>, k: SyncKey)
    requires forall u | u in updates :: u.key != k
    ensures SameKey(k, t, ApplySync(t, updates))
  {
    if updates == [] {
    } else {
      var front, last := updates[..|updates| - 1], updates[|updates| - 1];
      assert last in updates && forall u | u in front :: u in updates;
      UpdatesKeepKey(t, front, k);
    }
  }

  /** Updates make the same of a key wherever it was the same. */
  lemma {:induction false} UpdatesKeepSame(a: SyncState, b: SyncState, updates: seq<SyncUpdate>, k: SyncKey)
    requires SameKey(k, a, b)
    ensures SameKey(k, ApplySync(a, updates), ApplySync(b, updates))
  {
    if updates == [] {
    } else {
      UpdatesKeepSame(a, b, updates[..|updates| - 1], k);
    }
  }

  /** What an adapter stores leaves every ledger as it was. */
  lemma DataKeepsLedgers(t: SyncState, s: Source, id: string)
    requires WritesNoLedger(s) && s.adapter.Output?
    ensures SameLedger(id, t, ApplySync(t, s.adapter.batch.syncUpdates))
  {
    UpdatesKeepKey(t, s.adapter.batch.syncUpdates, FailureCount(id));
    UpdatesKeepKey(t, s.adapter.batch.syncUpdates, BackoffUntil(id));
  }

  /** What the run of another source does leaves a run where it stands. */
  lemma OthersStay(start: SyncState, was: SyncState, now: SyncState, s: Source, delays: Delays, stage: Stage)
    requires Reached(start, was, s, delays, stage) && SameLedger(s.d.id, was, now)
    ensures Reached(start, now, s, delays, stage)
  {
    assert LedgerOf(was, s.d.id) == LedgerOf(now, s.d.id);
    hide FinalLedger, OutcomeOf, LedgerOf, NextLedger, AfterData, Accepted, Readable;
  }

  /** A run depends on nothing but what is stored about its own source. */
  lemma SameLedgerSameRun(was: SyncState, now: SyncState, s: Source, delays: Delays)
    requires SameLedger(s.d.id, was, now)
    ensures LedgerOf(now, s.d.id) == LedgerOf(was, s.d.id)
    ensures Delivers(now, s) == Delivers(was, s)
    ensures OutcomeOf(now, s, delays) == OutcomeOf(was, s, delays)
  {
  }

  // ---------------------------------------------------------------- the run

  /** Is a deadline ahead? */
  method CheckDeadline(repository: Repository, s: Source) returns (next: Stage)
    ensures next == if !s.disk.read then Ended(Err(NotRead))
                    else if !Readable(repository.syncState, s) then Ended(Err(BadTimestamp))
                    else if Calls(repository.syncState, s) then Called
                    else Postponed(LedgerOf(repository.syncState, s.d.id).until.value)
  {
    var stored := repository.SourceBackoffUntil(s.d.id, s.disk.read);
    if stored.Err? {
      return Ended(Err(stored.error));
    }
    if stored.value.Some? && stored.value.value > s.checkedAt {
      return Postponed(stored.value.value);
    }
    return Called;
  }

  /** The adapter, the check of its output, and the transaction that applies it. */
  method RunAdapter(repository: Repository, s: Source) returns (next: Stage)
    requires repository.Valid()
    modifies repository`items, repository`evidence, repository`syncState, repository`cache
    ensures repository.Valid()
    ensures next == if Accepted(s) then Delivered else Refused
    ensures Accepted(s) ==>
              && repository.items == ApplyItems(old(repository.items), s.adapter.batch.items)
              && repository.evidence == ApplyEvidence(old(repository.evidence), s.adapter.batch.evidence)
              && repository.syncState == ApplySync(old(repository.syncState), s.adapter.batch.syncUpdates)
              && repository.cache == ApplyCache(old(repository.cache), s.adapter.batch.cacheUpdates)
    ensures !Accepted(s) ==>
              && repository.items == old(repository.items) && repository.evidence == old(repository.evidence)
              && repository.syncState == old(repository.syncState) && repository.cache == old(repository.cache)
  {
    hide ApplyItems, ApplyEvidence, ApplySync, ApplyCache;
    if !IsValid(s) {
      return Refused;
    }
    var applied := repository.ApplyBatch(s.adapter.batch, s.disk.apply);
    return if applied.Ok? then Delivered else Refused;
  }

  /** Forget the failures, or count one more. */
  method SettleLedger(repository: Repository, s: Source, delays: Delays, stage: Stage) returns (next: Stage)
    requires stage.Delivered? || stage.Refused?
    modifies repository`syncState
    ensures OnlyLedgerOf(s.d.id, old(repository.syncState), repository.syncState)
    ensures stage.Delivered? ==>
              && next == (if s.disk.clear then Cleared else Ended(Err(NotCommitted)))
              && LedgerOf(repository.syncState, s.d.id) == if s.disk.clear then CLEAN else LedgerOf(old(repository.syncState), s.d.id)
    ensures stage.Refused? ==>
              var ledger := Failed(LedgerOf(old(repository.syncState), s.d.id), s.failedAt, delays.base, delays.maximum);
              && next == (if s.disk.mark then Marked(ledger.until.value) else Ended(Err(NotCommitted)))
              && LedgerOf(repository.syncState, s.d.id) == if s.disk.mark then ledger else LedgerOf(old(repository.syncState), s.d.id)
  {
    if stage.Delivered? {
      var cleared := repository.ClearSourceFailure(s.d.id, s.disk.clear);
      next := if cleared.Ok? then Cleared else Ended(Err(cleared.error));
    } else {
      var until := repository.MarkSourceFailure(s.d.id, delays.base, delays.maximum, s.failedAt, s.disk.mark);
      next := if until.Ok? then Marked(until.value) else Ended(Err(until.error));
    }
  }

  /** The row of the run. */
  method RecordRun(repository: Repository, s: Source, stage: Stage) returns (r: Finished)
    requires stage.Postponed? || stage.Marked? || (stage.Cleared? && s.adapter.Output?)
    modifies repository`runs
    ensures r == Recorded(s, stage)
    ensures repository.runs == old(repository.runs) + RowOf(r, s)
  {
    var outcome: Outcome;
    match stage {
      case Postponed(until) => outcome := Outcome(Skipped, 0, 0, Some(InBackoff(s.d.id, until)));
      case Marked(until) => outcome := Outcome(Failure, 0, 0, Some(RetryAfter(s.d.id, until)));
      case Cleared =>
        var status := if s.adapter.skipped then Skipped else Success;
        outcome := Outcome(status, s.adapter.fetched, |s.adapter.batch.items|, None);
    }
    var recorded := repository.RecordIngestionRun(RunRow(s, outcome.status, outcome.error), s.disk.record);
    r := if recorded.Ok? then Ok(outcome) else Err(recorded.error);
  }

  /**
   One source, once, undisturbed.  The adapter is called exactly when no deadline is ahead; the data of an
   accepted output arrives as a whole and any other run leaves no data; whichever access fails, the outcome, the
   ledger and the row are those told from the state before.
   */
  method RunOneSource(repository: Repository, s: Source, delays: Delays) returns (r: Finished, called: bool)
    requires repository.Valid()
    modifies repository`items, repository`evidence, repository`syncState, repository`cache, repository`runs
    ensures repository.Valid()
    ensures called <==> Calls(old(repository.syncState), s)
    ensures r == OutcomeOf(old(repository.syncState), s, delays)
    ensures LedgerOf(repository.syncState, s.d.id) == FinalLedger(old(repository.syncState), s, delays)
    ensures OnlyLedgerOf(s.d.id, AfterData(old(repository.syncState), s), repository.syncState)
    ensures Delivers(old(repository.syncState), s) ==>
              && repository.items == ApplyItems(old(repository.items), s.adapter.batch.items)
              && repository.evidence == ApplyEvidence(old(repository.evidence), s.adapter.batch.evidence)
              && repository.cache == ApplyCache(old(repository.cache), s.adapter.batch.cacheUpdates)
    ensures !Delivers(old(repository.syncState), s) ==>
              && repository.items == old(repository.items) && repository.evidence == old(repository.evidence)
              && repository.cache == old(repository.cache)
    ensures repository.runs == old(repository.runs) + RowOf(r, s)
  {
    hide LedgerOf, ApplyItems, ApplyEvidence, ApplySync, ApplyCache, Failed, Tables.KeysOf, RunRow, OutcomeAt;
    var stage := CheckDeadline(repository, s);
    called := stage.Called?;
    if called {
      stage := RunAdapter(repository, s);
      stage := SettleLedger(repository, s, delays, stage);
    }
    if stage.Ended? {
      r := stage.result;
    } else {
      r := RecordRun(repository, s, stage);
    }
  }

  // ---------------------------------------------------------------- one step of a run among others

  /** One step has led from `stage` to `next`, and the sync state from `was` to `now`. */
  ghost predicate Stepped(start: SyncState, s: Source, delays: Delays, stage: Stage, next: Stage, was: SyncState, now: SyncState) {
    && IsRunning(next) && stage != Counted && StepsLeft(next) < StepsLeft(stage)
    && Reached(start, now, s, delays, next)
    && Rest(start, s, stage) == [StepOf(stage)] + Rest(start, s, next)
    && (WritesNoLedger(s) ==> forall id | id != s.d.id :: SameLedger(id, was, now))
  }

  lemma CheckSteps(start: SyncState, was: SyncState, s: Source, delays: Delays, next: Stage)
    requires Reached(start, was, s, delays, Started)
    requires next == if !s.disk.read then Ended(Err(NotRead))
                     else if !Readable(was, s) then Ended(Err(BadTimestamp))
                     else if Calls(was, s) then Called
                     else Postponed(LedgerOf(was, s.d.id).until.value)
    ensures Stepped(start, s, delays, Started, next, was, was)
  {
    hide Accepted;
    SameLedgerSameRun(start, was, s, delays);
  }

  lemma AdapterSteps(start: SyncState, was: SyncState, now: SyncState, s: Source, delays: Delays)
    requires Reached(start, was, s, delays, Called)
    requires now == if Accepted(s) then ApplySync(was, s.adapter.batch.syncUpdates) else was
    ensures Stepped(start, s, delays, Called, if Accepted(s) then Delivered else Refused, was, now)
  {
    UpdatesKeep(start, was, s);
    if WritesNoLedger(s) && s.adapter.Output? {
      forall id ensures SameLedger(id, was, ApplySync(was, s.adapter.batch.syncUpdates)) { DataKeepsLedgers(was, s, id); }
    }
    hide ApplySync, Readable, LedgerOf, WritesNoLedger;
  }

  lemma OtherLedgersKept(id: string, was: SyncState, now: SyncState)
    requires OnlyLedgerOf(id, was, now)
    ensures forall other | other != id :: SameLedger(other, was, now)
  {
  }

  lemma DeliveredSettles(start: SyncState, was: SyncState, now: SyncState, s: Source, delays: Delays)
    requires Reached(start, was, s, delays, Delivered) && OnlyLedgerOf(s.d.id, was, now)
    requires LedgerOf(now, s.d.id) == if s.disk.clear then CLEAN else LedgerOf(was, s.d.id)
    ensures Stepped(start, s, delays, Delivered, if s.disk.clear then Cleared else Ended(Err(NotCommitted)), was, now)
  {
    OtherLedgersKept(s.d.id, was, now);
    assert LedgerOf(was, s.d.id) == LedgerOf(AfterData(start, s), s.d.id);
    hide Accepted, WritesNoLedger, AfterData, LedgerOf, OnlyLedgerOf, SameLedger, NextLedger;
  }

  lemma RefusedSettles(start: SyncState, was: SyncState, now: SyncState, s: Source, delays: Delays)
    requires Reached(start, was, s, delays, Refused) && OnlyLedgerOf(s.d.id, was, now)
    requires LedgerOf(now, s.d.id)
          == if s.disk.mark then Failed(LedgerOf(was, s.d.id), s.failedAt, delays.base, delays.maximum) else LedgerOf(was, s.d.id)
    ensures var ledger := Failed(LedgerOf(was, s.d.id), s.failedAt, delays.base, delays.maximum);
            Stepped(start, s, delays, Refused, if s.disk.mark then Marked(ledger.until.value) else Ended(Err(NotCommitted)), was, now)
  {
    OtherLedgersKept(s.d.id, was, now);
    SameLedgerSameRun(start, was, s, delays);
    hide Accepted, WritesNoLedger, AfterData, LedgerOf, OnlyLedgerOf, SameLedger, Readable;
  }

  lemma RecordSteps(start: SyncState, was: SyncState, s: Source, delays: Delays, stage: Stage)
    requires (stage.Postponed? || stage.Cleared? || stage.Marked?) && Reached(start, was, s, delays, stage)
    ensures Recorded(s, stage) == OutcomeOf(start, s, delays)
    ensures Stepped(start, s, delays, stage, Ended(Recorded(s, stage)), was, was)
  {
    hide WritesNoLedger, ApplySync, OutcomeAt;
  }

  /** What one step does beside moving its own run on. */
  twostate predicate Effects(repository: Repository, start: SyncState, s: Source, delays: Delays, stage: Stage)
    reads repository
  {
    && repository.items == (if stage.Called? && Delivers(start, s) then ApplyItems(old(repository.items), s.adapter.batch.items)
                            else old(repository.items))
    && repository.evidence == (if stage.Called? && Delivers(start, s) then ApplyEvidence(old(repository.evidence), s.adapter.batch.evidence)
                               else old(repository.evidence))
    && repository.runs == (if stage != Counted && StepOf(stage) == Record then old(repository.runs) + RowOf(OutcomeOf(start, s, delays), s)
                           else old(repository.runs))
  }

  /** The next database access of a run that others may have overtaken. */
  method Advance(repository: Repository, s: Source, delays: Delays, stage: Stage, ghost start: SyncState) returns (next: Stage)
    requires repository.Valid() && IsRunning(stage) && !stage.Ended?
    requires Reached(start, repository.syncState, s, delays, stage)
    modifies repository`items, repository`evidence, repository`syncState, repository`cache, repository`runs
    ensures repository.Valid()
    ensures Stepped(start, s, delays, stage, next, old(repository.syncState), repository.syncState)
    ensures Effects(repository, start, s, delays, stage)
  {
    hide Stepped, LedgerOf, OutcomeOf, FinalLedger, OutcomeAt, Rest, SameLedger, ApplyItems, ApplyEvidence, ApplySync, ApplyCache, RowOf,
         Recorded, Accepted, Runs, Readable, OnlyLedgerOf, NextLedger;
    ghost var was := repository.syncState;
    if stage.Started? {
      next := CheckDeadline(repository, s);
      CheckSteps(start, was, s, delays, next);
    } else if stage.Called? {
      next := RunAdapter(repository, s);
      AdapterSteps(start, was, repository.syncState, s, delays);
    } else if stage.Delivered? || stage.Refused? {
      next := SettleLedger(repository, s, delays, stage);
      if stage.Delivered? {
        DeliveredSettles(start, was, repository.syncState, s, delays);
      } else {
        RefusedSettles(start, was, repository.syncState, s, delays);
      }
    } else {
      ClearedHasOutput(start, was, s, delays, stage);
      RecordSteps(start, was, s, delays, stage);
      var r := RecordRun(repository, s, stage);
      next := Ended(r);
    }
  }

  lemma ClearedHasOutput(start: SyncState, was: SyncState, s: Source, delays: Delays, stage: Stage)
    requires Reached(start, was, s, delays, stage)
    ensures stage.Cleared? ==> s.adapter.Output?
  {
  }

  lemma UpdatesKeep(start: SyncState, was: SyncState, s: Source)
    requires SameLedger(s.d.id, start, was)
    ensures s.adapter.Output? ==>
              SameLedger(s.d.id, ApplySync(start, s.adapter.batch.syncUpdates), ApplySync(was, s.adapter.batch.syncUpdates))
  {
    if s.adapter.Output? {
      UpdatesKeepSame(start, was, s.adapter.batch.syncUpdates, FailureCount(s.d.id));
      UpdatesKeepSame(start, was, s.adapter.batch.syncUpdates, BackoffUntil(s.d.id));
    }
  }
}

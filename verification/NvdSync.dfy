/**
 The NVD adapter on the repository (src/ingest/nvd.rs run, src/ingest/mod.rs run_one_source): data and cursor
 are committed together, so one run is one event of the coverage model.
 */
module NvdSync {
  import opened Wrappers
  import opened ItemMerge
  import opened Tables
  import opened Store
  import opened SourceRun
  import Evidence
  import Nvd

  const CURSOR := Cursor("nvd")

  /** The stored cursor; a text that is no timestamp counts as none. */
  function StoredCursor(t: SyncState): Option<Nvd.Instant> {
    if CURSOR in t && t[CURSOR].Stamp? then Some(t[CURSOR].nanoseconds) else None
  }

  type Parsed = (Item, Evidence.Record)

  function ItemsOf(batch: seq<Parsed>): (items: seq<Item>)
    ensures |items| == |batch| && forall i | 0 <= i < |batch| :: items[i] == batch[i].0
  {
    seq(|batch|, i requires 0 <= i < |batch| => batch[i].0)
  }

  function RecordsOf(batch: seq<Parsed>): (records: seq<Evidence.Record>)
    ensures |records| == |batch| && forall i | 0 <= i < |batch| :: records[i] == batch[i].1
  {
    seq(|batch|, i requires 0 <= i < |batch| => batch[i].1)
  }

  /** What the adapter hands to the scheduler. */
  function AdapterOf(r: Result<Nvd.Output<Parsed>, Nvd.PagingError>, passes: bool): AdapterResult {
    match r
    case Err(_) => AdapterFailed
    case Ok(o) =>
      Output(IngestBatch(ItemsOf(o.batch), RecordsOf(o.batch), [SyncUpdate(CURSOR, Stamp(o.cursor))], []), o.fetched, false, passes)
  }

  lemma ApplyOne(t: SyncState, u: SyncUpdate)
    ensures ApplySync(t, [u]) == t[u.key := u.value]
  {
    assert [u][..0] == [];
    assert ApplySync(t, []) == t;
  }

  /** The run of the source as the adapter's outcome makes it. */
  function SourceOf(frame: Source, r: Result<Nvd.Output<Parsed>, Nvd.PagingError>, passes: bool): Source {
    frame.(adapter := AdapterOf(r, passes))
  }

  /**
   One run of the NVD source.  If its data is delivered the stored cursor has moved to the end of the window and
   the records of the window are in the tables; otherwise neither has changed.  That is one step of the coverage
   model, on whose histories the coverage theorems are stated.
   */
  method RunNvd<R>(repository: Repository, config: Nvd.Config, frame: Source, delays: Delays, now: Nvd.Instant,
                   server: (Nvd.Window, nat, nat) -> Nvd.Response<R>, parse: R -> Option<Parsed>, passes: bool, ghost sync: Nvd.Sync)
    returns (ghost delivered: bool, ghost next: Nvd.Sync, ghost walk: seq<Nvd.Exchange<R>>)
    requires repository.Valid() && sync.cursor == StoredCursor(repository.syncState)
    modifies repository`items, repository`evidence, repository`syncState, repository`cache, repository`runs
    ensures repository.Valid()
    ensures var r := Nvd.RunResult(config, StoredCursor(old(repository.syncState)), now, server, parse);
            && delivered == Delivers(old(repository.syncState), SourceOf(frame, r, passes))
            && next == Nvd.Step(config, sync, if delivered then Nvd.Committed(now) else Nvd.Lost)
            && next.cursor == StoredCursor(repository.syncState)
            && (delivered ==>
                  && r.Ok?
                  && repository.items == ApplyItems(old(repository.items), ItemsOf(r.value.batch))
                  && repository.evidence == ApplyEvidence(old(repository.evidence), RecordsOf(r.value.batch)))
            && (!delivered ==> repository.items == old(repository.items) && repository.evidence == old(repository.evidence))
    ensures Nvd.IsWalk(Nvd.Asked(server, Nvd.WindowOf(config, sync.cursor, now)), walk) && 1 <= |walk| <= 500
    ensures walk[|walk| - 1].response.Broken? || Nvd.GoesOn(walk[|walk| - 1]) ==>
              && repository.items == old(repository.items) && repository.evidence == old(repository.evidence)
              && StoredCursor(repository.syncState) == StoredCursor(old(repository.syncState))
    ensures delivered ==>
              && repository.items == ApplyItems(old(repository.items), ItemsOf(Nvd.ParseAll(parse, Nvd.RecordsIn(walk))))
              && repository.evidence == ApplyEvidence(old(repository.evidence), RecordsOf(Nvd.ParseAll(parse, Nvd.RecordsIn(walk))))
              && StoredCursor(repository.syncState) == Some(Nvd.WindowOf(config, sync.cursor, now).to)
    ensures frame.disk == Disk(true, true, true, true, true) && BackoffUntil(frame.d.id) !in old(repository.syncState) ==>
              exists row :: repository.runs == old(repository.runs) + [row]
                && row.sourceId == frame.d.id && row.status == if delivered then "success" else "failed"
  {
    hide ApplyItems, ApplyEvidence, ApplySync, ApplyCache, OutcomeOf, FinalLedger, Calls, Nvd.Gather, Nvd.WindowOf, Nvd.ParseAll, Nvd.IsWalk,
         Nvd.RecordsIn, ItemsOf, RecordsOf;
    ghost var was := repository.syncState;
    var cursor := StoredCursor(repository.syncState);
    var r;
    r, walk := Nvd.Run(config, cursor, now, server, parse);
    var s := SourceOf(frame, r, passes);
    delivered := Delivers(was, s);
    next := Nvd.Step(config, sync, if delivered then Nvd.Committed(now) else Nvd.Lost);
    if r.Ok? {
      ApplyOne(was, SyncUpdate(CURSOR, Stamp(r.value.cursor)));
    }
    var finished, _ := RunOneSource(repository, s, delays);
    if s.disk == Disk(true, true, true, true, true) && BackoffUntil(s.d.id) !in was {
      WorkingRunMeans(was, s, delays);
      assert finished.Ok? && RowOf(finished, s) == [RunRow(s, finished.value.status, finished.value.error)];
    }
    assert CURSOR in repository.syncState <==> CURSOR in AfterData(was, s);
  }
}

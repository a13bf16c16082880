/**
 Keeping demonstration data and live data apart (src/demo.rs prepare, src/config.rs refresh_allowed,
 src/main.rs run): a mode marker stored with the fixture, checked at every start.
 */
module Demo {
  import opened Wrappers
  import opened ItemMerge
  import opened Tables
  import opened Store
  import opened SourceRun
  import Evidence

  const DEMO := "demo"
  const FIXTURE_SOURCE := "demo-fixture"
  const DATE := "2026-09-01T12:00:00Z"

  // ---------------------------------------------------------------- the fixture

  /** Fictional rows are told by their source. */
  ghost predicate IsFixture(fixture: seq<Item>) {
    forall i | 0 <= i < |fixture| :: fixture[i].sourceId == FIXTURE_SOURCE
  }

  const FIXTURE_EVIDENCE := Evidence.Record("CVE-2099-99991", FIXTURE_SOURCE, "classroom-fixture", Some("FICTIONAL DEMO"),
                                            Some("critical"), Some(9.1), Some(true), false)

  const FIXTURE_VALIDATION := Evidence.Validation("CVE-2099-99991", Evidence.Low, 1, 0, false, false, true, true,
                                                  Some("FICTIONAL DEMO"), None, DATE)

  // ---------------------------------------------------------------- one process

  /** The part of the database that the marker protects. */
  datatype Data = Data(items: Table, sync: SyncState)

  function Marker(sync: SyncState): Option<SyncValue> {
    if DataMode in sync then Some(sync[DataMode]) else None
  }

  /** Start-up refuses a demo database for live use, and a database with records and no marker for a demo. */
  predicate Refuses(d: Data, demoMode: bool) {
    if demoMode then Marker(d.sync).None? && d.items != map[] else Marker(d.sync) == Some(Word(DEMO))
  }

  function Seeded(fixture: seq<Item>, d: Data): Data {
    Data(ApplyItems(d.items, fixture), d.sync[DataMode := Word(DEMO)])
  }

  datatype Failure = WrongMode | Database(e: DbError)

  lemma CanonicalKindOfSeed(evidence: EvidenceTable)
    ensures CanonicalKind(evidence) ==> CanonicalKind(ApplyEvidence(evidence, [FIXTURE_EVIDENCE]))
  {
    if CanonicalKind(evidence) {
      CanonicalKindStays(evidence, [FIXTURE_EVIDENCE]);
    }
  }

  /** `seeds` and `validates` say whether the two transactions of a demo start reach the disk. */
  method Prepare(repository: Repository, fixture: seq<Item>, demoMode: bool, seeds: bool, validates: bool)
    returns (r: Result<(), Failure>)
    requires repository.Valid()
    modifies repository`items, repository`evidence, repository`syncState, repository`cache, repository`validations
    ensures repository.Valid() && (CanonicalKind(old(repository.evidence)) ==> CanonicalKind(repository.evidence))
    ensures repository.cache == old(repository.cache)
    ensures !demoMode ==> (r.Ok? <==> !(DataMode in old(repository.syncState) && old(repository.syncState)[DataMode] == Word("demo")))
    ensures !demoMode ==> repository.items == old(repository.items) && repository.syncState == old(repository.syncState)
    ensures demoMode && seeds && validates ==> (r.Ok? <==> DataMode in old(repository.syncState) || old(repository.items) == map[])
    ensures demoMode && r.Ok? ==> DataMode in repository.syncState && repository.syncState[DataMode] == Word("demo")
    ensures var was := Data(old(repository.items), old(repository.syncState));
            var now := Data(repository.items, repository.syncState);
            && now == (if !Refuses(was, demoMode) && demoMode && seeds then Seeded(fixture, was) else was)
            && (r == Err(WrongMode) <==> Refuses(was, demoMode))
            && (r.Ok? <==> !Refuses(was, demoMode) && (demoMode ==> seeds && validates))
            && (repository.evidence == if !Refuses(was, demoMode) && demoMode && seeds
                                       then ApplyEvidence(old(repository.evidence), [FIXTURE_EVIDENCE])
                                       else old(repository.evidence))
            && (repository.validations == if r.Ok? && demoMode
                                          then ApplyValidations(old(repository.validations), [FIXTURE_VALIDATION])
                                          else old(repository.validations))
  {
    hide ApplyItems, ApplyEvidence, ApplyValidations, LedgerOf;
    var existing := Marker(repository.syncState);
    if existing == Some(Word(DEMO)) && !demoMode {
      return Err(WrongMode);
    }
    if !demoMode {
      return Ok(());
    }
    if existing.None? && |repository.items| != 0 {
      return Err(WrongMode);
    }
    var batch := IngestBatch(fixture, [FIXTURE_EVIDENCE], [SyncUpdate(DataMode, Word(DEMO))], []);
    ghost var sync := repository.syncState;
    CanonicalKindOfSeed(repository.evidence);
    var seeded := repository.ApplyBatch(batch, seeds);
    assert batch.syncUpdates[..0] == [];
    assert ApplySync(sync, batch.syncUpdates) == sync[DataMode := Word(DEMO)];
    if seeded.Err? {
      return Err(Database(seeded.error));
    }
    var validated := repository.UpsertValidations([FIXTURE_VALIDATION], validates);
    if validated.Err? {
      return Err(Database(validated.error));
    }
    return Ok(());
  }

  // ---------------------------------------------------------------- many processes

  /** What a live process does to the items: a source's batch is committed, or old news is deleted. */
  datatype Work = Ingest(items: seq<Item>, updates: seq<SyncUpdate>) | Retire(ids: set<string>)

  /** Adapters emit items under their own id and write only their cursors. */
  predicate IsLiveWork(w: Work) {
    w.Ingest? ==>
      && (forall i | 0 <= i < |w.items| :: w.items[i].sourceId != FIXTURE_SOURCE)
      && (forall i | 0 <= i < |w.updates| :: w.updates[i].key != DataMode)
  }

  /** One process from start to end; it may die inside `prepare`, before or after the seed is committed. */
  datatype Lifetime = Lifetime(demoMode: bool, refreshEnabled: bool, seeds: bool, survivesStart: bool, work: seq<Work>)

  predicate RefreshAllowed(l: Lifetime) { l.refreshEnabled && !l.demoMode }

  function Perform(d: Data, w: Work): Data {
    match w
    case Ingest(items, updates) => Data(ApplyItems(d.items, items), ApplySync(d.sync, updates))
    case Retire(ids) => d.(items := d.items - ids)
  }

  function PerformAll(d: Data, work: seq<Work>): Data {
    if work == [] then d else Perform(PerformAll(d, work[..|work| - 1]), work[|work| - 1])
  }

  function Live(fixture: seq<Item>, d: Data, l: Lifetime): Data {
    var started := if !Refuses(d, l.demoMode) && l.demoMode && l.seeds then Seeded(fixture, d) else d;
    if Refuses(d, l.demoMode) || !l.survivesStart || (l.demoMode && !l.seeds) then started
    else if RefreshAllowed(l) then PerformAll(started, l.work)
    else started
  }

  /**
   A live process on an unmarked database does its work there; a demo process on an empty or marked one puts in
   its fixture and mark; no process does more, and one on a database of the other mode does nothing.
   */
  lemma LifeDoesItsWork(fixture: seq<Item>, d: Data, l: Lifetime)
    ensures var now := Live(fixture, d, l);
            var marked := DataMode in d.sync && d.sync[DataMode] == Word("demo");
            && (!l.demoMode && !marked && l.survivesStart && l.refreshEnabled ==> now == PerformAll(d, l.work))
            && (!l.demoMode && (marked || !l.survivesStart || !l.refreshEnabled) ==> now == d)
            && (l.demoMode && l.seeds && (DataMode in d.sync || d.items == map[]) ==>
                  && now.items == ApplyItems(d.items, fixture)
                  && now.sync == d.sync[DataMode := Word("demo")])
            && (l.demoMode && (!l.seeds || (DataMode !in d.sync && d.items != map[])) ==> now == d)
  {
    hide PerformAll, ApplyItems;
  }

  lemma WorkIsPerformed(d: Data, work: seq<Work>, w: Work)
    ensures var before, now := PerformAll(d, work), PerformAll(d, work + [w]);
            && now.items == (if w.Ingest? then ApplyItems(before.items, w.items) else before.items - w.ids)
            && now.sync == (if w.Ingest? then ApplySync(before.sync, w.updates) else before.sync)
    ensures PerformAll(d, []) == d
  {
    assert (work + [w])[..|work|] == work;
  }

  function History(fixture: seq<Item>, d: Data, lives: seq<Lifetime>): Data {
    if lives == [] then d else Live(fixture, History(fixture, d, lives[..|lives| - 1]), lives[|lives| - 1])
  }

  // ---------------------------------------------------------------- isolation

  predicate AllOrigin(items: Table, fixture: bool) {
    forall id | id in items :: (items[id].sourceId == FIXTURE_SOURCE) == fixture
  }

  /** A marked database holds fixture rows only, an unmarked one none, and no other mark exists. */
  predicate Isolated(d: Data) {
    && (Marker(d.sync).None? || Marker(d.sync) == Some(Word(DEMO)))
    && AllOrigin(d.items, Marker(d.sync).Some?)
  }

  lemma {:induction false} ApplyKeepsOrigin(t: Table, items: seq<Item>, fixture: bool)
    requires AllOrigin(t, fixture)
    requires forall i | 0 <= i < |items| :: (items[i].sourceId == FIXTURE_SOURCE) == fixture
    ensures AllOrigin(ApplyItems(t, items), fixture)
    decreases |items|
  {
    if items == [] {
    } else {
      ApplyKeepsOrigin(t, items[..|items| - 1], fixture);
    }
  }

  lemma {:induction false} SyncKeepsMarker(t: SyncState, updates: seq<SyncUpdate>)
    requires forall i | 0 <= i < |updates| :: updates[i].key != DataMode
    ensures Marker(ApplySync(t, updates)) == Marker(t)
    decreases |updates|
  {
    if updates == [] {
    } else {
      SyncKeepsMarker(t, updates[..|updates| - 1]);
    }
  }

  lemma {:induction false} WorkKeepsIsolation(d: Data, work: seq<Work>)
    requires Isolated(d) && Marker(d.sync).None? && forall i | 0 <= i < |work| :: IsLiveWork(work[i])
    ensures Isolated(PerformAll(d, work)) && Marker(PerformAll(d, work).sync).None?
    decreases |work|
  {
    if work == [] {
    } else {
      var front, last := work[..|work| - 1], work[|work| - 1];
      WorkKeepsIsolation(d, front);
      var before := PerformAll(d, front);
      assert IsLiveWork(last);
      if last.Ingest? {
        ApplyKeepsOrigin(before.items, last.items, false);
        SyncKeepsMarker(before.sync, last.updates);
      }
    }
  }

  /** What a source delivers is live work: the output check pins the source id, and adapters store cursors only. */
  lemma DeliveryIsLiveWork(t: SyncState, s: Source)
    requires Delivers(t, s) && s.d.id != FIXTURE_SOURCE
    requires forall u | u in s.adapter.batch.syncUpdates :: u.key.Cursor?
    ensures IsLiveWork(Ingest(s.adapter.batch.items, s.adapter.batch.syncUpdates))
  {
    forall i | 0 <= i < |s.adapter.batch.items| ensures s.adapter.batch.items[i].sourceId != FIXTURE_SOURCE {
      assert s.adapter.batch.items[i] in s.adapter.batch.items;
    }
  }

  lemma LifeKeepsIsolation(fixture: seq<Item>, d: Data, l: Lifetime)
    requires IsFixture(fixture) && Isolated(d) && forall i | 0 <= i < |l.work| :: IsLiveWork(l.work[i])
    ensures Isolated(Live(fixture, d, l))
    ensures Marker(d.sync).Some? ==> Marker(Live(fixture, d, l).sync) == Marker(d.sync)
  {
    hide ApplyItems;
    if !Refuses(d, l.demoMode) {
      if l.demoMode {
        ApplyKeepsOrigin(d.items, fixture, true);
      } else {
        WorkKeepsIsolation(d, l.work);
      }
    }
  }

  /**
   Over any sequence of process lifetimes, demo or live, ended at any point: fixture rows and ingested rows
   never meet in one database, and a demo mark stays.
   */
  lemma {:induction false} DemoAndLiveNeverMix(fixture: seq<Item>, d: Data, lives: seq<Lifetime>)
    requires IsFixture(fixture) && Isolated(d)
    requires forall k, i | 0 <= k < |lives| && 0 <= i < |lives[k].work| :: IsLiveWork(lives[k].work[i])
    ensures var now := History(fixture, d, lives);
            && Isolated(now)
            && (Marker(d.sync).Some? ==> Marker(now.sync) == Marker(d.sync))
            && !(exists a, b :: a in now.items && b in now.items
                   && now.items[a].sourceId == "demo-fixture" && now.items[b].sourceId != "demo-fixture")
    decreases |lives|
  {
    if lives == [] {
    } else {
      DemoAndLiveNeverMix(fixture, d, lives[..|lives| - 1]);
      LifeKeepsIsolation(fixture, History(fixture, d, lives[..|lives| - 1]), lives[|lives| - 1]);
    }
  }
}

/**
 The repository (src/db.rs): writes as atomic transactions, and the reads with loops of their own.

 Every write takes `commits`, which says whether its transaction reaches the disk; one that does not
 changes nothing.  Everything else a method is told (clock, query text) is a parameter.
 */
module Store {
  import opened Wrappers
  import opened Machine
  import opened TextOrder
  import opened ItemMerge
  import opened Keyset
  import opened Backoff
  import opened SourceHealth
  import opened Tables
  import opened ListView
  import Rotation
  import Evidence

  class Repository {
    var items: Table
    var evidence: EvidenceTable
    var syncState: SyncState
    var validations: Validations
    var cache: CacheTable
    var runs: seq<IngestionRun>

    /** Items and evidence are stored under their own keys. */
    ghost predicate Valid()
      reads this
    {
      WellKeyed(items) && WellKeyedEvidence(evidence)
    }

    constructor ()
      ensures Valid()
      ensures items == map[] && evidence == map[] && syncState == map[] && validations == map[] && cache == map[] && runs == []
    {
      items, evidence, syncState, validations, cache, runs := map[], map[], map[], map[], map[], [];
    }

    /** The upserts of a batch's items, inside its transaction. */
    static method UpsertItems(t: Table, items: seq<Item>) returns (now: Table)
      ensures now == ApplyItems(t, items)
    {
      now := t;
      for k := 0 to |items|
        invariant now == ApplyItems(t, items[..k])
      {
        var item := items[k];
        assert items[..k + 1] == items[..k] + [item];
        now := now[item.id := if item.id in now then Merge(now[item.id], item) else item];
      }
      assert items[..|items|] == items;
    }

    /** upsert_evidence_in_transaction */
    static method PutEvidence(t: EvidenceTable, records: seq<Evidence.Record>) returns (now: EvidenceTable)
      ensures now == ApplyEvidence(t, records)
    {
      now := t;
      for k := 0 to |records|
        invariant now == ApplyEvidence(t, records[..k])
      {
        assert records[..k + 1] == records[..k] + [records[k]];
        now := now[EvidenceKeyOf(records[k]) := records[k]];
      }
      assert records[..|records|] == records;
    }

    static method PutSync(t: SyncState, updates: seq<SyncUpdate>) returns (now: SyncState)
      ensures now == ApplySync(t, updates)
    {
      now := t;
      for k := 0 to |updates|
        invariant now == ApplySync(t, updates[..k])
      {
        assert updates[..k + 1] == updates[..k] + [updates[k]];
        now := now[updates[k].key := updates[k].value];
      }
      assert updates[..|updates|] == updates;
    }

    static method PutCache(t: CacheTable, updates: seq<CacheEntry>) returns (now: CacheTable)
      ensures now == ApplyCache(t, updates)
    {
      now := t;
      for k := 0 to |updates|
        invariant now == ApplyCache(t, updates[..k])
      {
        assert updates[..k + 1] == updates[..k] + [updates[k]];
        now := now[updates[k].sourceId := updates[k]];
      }
      assert updates[..|updates|] == updates;
    }

    /** One transaction: items, evidence, sync and cache updates of a batch, all or nothing. */
    method ApplyBatch(batch: IngestBatch, commits: bool) returns (r: Result<nat, DbError>)
      requires Valid()
      modifies this`items, this`evidence, this`syncState, this`cache
      ensures Valid()
      ensures r == if batch.IsEmpty() || commits then Ok(|batch.items|) else Err(NotCommitted)
      ensures r.Ok? ==>
                && items == ApplyItems(old(items), batch.items)
                && evidence == ApplyEvidence(old(evidence), batch.evidence)
                && syncState == ApplySync(old(syncState), batch.syncUpdates)
                && cache == ApplyCache(old(cache), batch.cacheUpdates)
      ensures r.Err? ==> items == old(items) && evidence == old(evidence) && syncState == old(syncState) && cache == old(cache)
    {
      if batch.IsEmpty() {
        return Ok(0);
      }
      hide ApplyItems, ApplyEvidence, ApplySync, ApplyCache, WellKeyed, WellKeyedEvidence;
      ItemsStayWellKeyed(items, batch.items);
      EvidenceStaysWellKeyed(evidence, batch.evidence);
      var newItems := UpsertItems(items, batch.items);
      var newEvidence := PutEvidence(evidence, batch.evidence);
      var newSync := PutSync(syncState, batch.syncUpdates);
      var newCache := PutCache(cache, batch.cacheUpdates);
      if !commits {
        return Err(NotCommitted);
      }
      items, evidence, syncState, cache := newItems, newEvidence, newSync, newCache;
      return Ok(|batch.items|);
    }

    /** Validations of one refresh, in one transaction. */
    method UpsertValidations(inputs: seq<Evidence.Validation>, commits: bool) returns (r: Result<(), DbError>)
      modifies this`validations
      ensures r.Ok? <==> inputs == [] || commits
      ensures validations == if r.Ok? then ApplyValidations(old(validations), inputs) else old(validations)
    {
      if inputs == [] {
        return Ok(());
      }
      var next := validations;
      for k := 0 to |inputs|
        invariant next == ApplyValidations(validations, inputs[..k])
      {
        assert inputs[..k + 1] == inputs[..k] + [inputs[k]];
        next := next[inputs[k].cveId := inputs[k]];
      }
      assert inputs[..|inputs|] == inputs;
      if !commits {
        return Err(NotCommitted);
      }
      validations := next;
      return Ok(());
    }

    method UpsertEvidence(records: seq<Evidence.Record>, commits: bool) returns (r: Result<(), DbError>)
      requires Valid()
      modifies this`evidence
      ensures Valid()
      ensures r.Ok? <==> records == [] || commits
      ensures evidence == if r.Ok? then ApplyEvidence(old(evidence), records) else old(evidence)
    {
      if records == [] {
        return Ok(());
      }
      EvidenceStaysWellKeyed(evidence, records);
      var next := PutEvidence(evidence, records);
      if !commits {
        return Err(NotCommitted);
      }
      evidence := next;
      return Ok(());
    }

    method RecordIngestionRun(run: IngestionRun, commits: bool) returns (r: Result<(), DbError>)
      modifies this`runs
      ensures r == if commits then Ok(()) else Err(NotCommitted)
      ensures runs == if commits then old(runs) + [run] else old(runs)
    {
      if !commits {
        return Err(NotCommitted);
      }
      runs := runs + [run];
      return Ok(());
    }

    // -------------------------------------------------------------- backoff

    /** `readable` says whether the query succeeds. */
    method SourceBackoffUntil(source: string, readable: bool) returns (r: Result<Option<Instant>, DbError>)
      ensures r == if !readable then Err(NotRead)
                   else if BackoffUntil(source) in syncState && !syncState[BackoffUntil(source)].Moment? then Err(BadTimestamp)
                   else Ok(LedgerOf(syncState, source).until)
    {
      if !readable {
        return Err(NotRead);
      }
      if BackoffUntil(source) !in syncState {
        return Ok(None);
      }
      var value := syncState[BackoffUntil(source)];
      if !value.Moment? {
        return Err(BadTimestamp);
      }
      return Ok(Some(value.at));
    }

    /** `commits` says whether the count is read and both keys are written. */
    method MarkSourceFailure(source: string, base: nat, maximum: nat, now: Instant, commits: bool)
      returns (r: Result<Instant, DbError>)
      modifies this`syncState
      ensures if commits then r.Ok? else r == Err(NotCommitted)
      ensures commits ==>
                && LedgerOf(syncState, source) == Failed(LedgerOf(old(syncState), source), now, base, maximum)
                && Some(r.value) == LedgerOf(syncState, source).until
      ensures !commits ==> syncState == old(syncState)
      ensures forall k | k != FailureCount(source) && k != BackoffUntil(source) ::
                (k in syncState <==> k in old(syncState)) && (k in syncState ==> syncState[k] == old(syncState)[k])
    {
      var countKey, untilKey := FailureCount(source), BackoffUntil(source);
      var previous := 0;
      if countKey in syncState && syncState[countKey].Number? && syncState[countKey].n <= U32_MAX {
        previous := syncState[countKey].n;
      }
      var count := Min(SaturatingAdd(previous, 1, U32_MAX), 31);
      var seconds := Min(SaturatingMul(base, Multiplier(count), U64_MAX), maximum);
      var until := now + seconds as real;
      if !commits {
        return Err(NotCommitted);
      }
      syncState := syncState[countKey := Number(count)][untilKey := Moment(until)];
      return Ok(until);
    }

    method ClearSourceFailure(source: string, commits: bool) returns (r: Result<(), DbError>)
      modifies this`syncState
      ensures r == if commits then Ok(()) else Err(NotCommitted)
      ensures syncState == if commits then old(syncState) - {FailureCount(source), BackoffUntil(source)} else old(syncState)
      ensures commits ==> LedgerOf(syncState, source) == CLEAN
    {
      if !commits {
        return Err(NotCommitted);
      }
      syncState := syncState - {FailureCount(source), BackoffUntil(source)};
      return Ok(());
    }

    // -------------------------------------------------------------- lists

    static method PickTop(left: set<Key>) returns (k: Key)
      requires left != {}
      ensures IsTop(k, left)
    {
      TopExists(left);
      k :| k in left && forall j | j in left :: j == k || Below(j, k);
    }

    /** ORDER BY timestamp DESC, id DESC over a set of keys. */
    static method SortNewestFirst(keys: set<Key>) returns (r: seq<Key>)
      ensures r == Descending(keys)
      decreases |keys|
    {
      hide Decreasing, SameElements;
      if keys == {} {
        r := [];
      } else {
        var k := PickTop(keys);
        TopIsListedFirst(keys, k);
        var rest := SortNewestFirst(keys - {k});
        r := [k] + rest;
      }
    }

    /** The loop over the rows of a query. */
    method ReadRows(rows: seq<Key>) returns (page: seq<Item>)
      requires forall k | k in rows :: k.id in items && KeyOf(items[k.id]) == k
      ensures KeysOf(page) == rows
      ensures forall i | 0 <= i < |page| :: page[i] == items[rows[i].id]
    {
      page := [];
      for n := 0 to |rows|
        invariant |page| == n
        invariant forall i | 0 <= i < n :: page[i] == items[rows[i].id] && KeyOf(page[i]) == rows[i]
      {
        assert rows[n] in rows;
        page := page + [items[rows[n].id]];
      }
    }

    /** The query of the item list. */
    method QueryRows(filter: Filter, limit: nat, offset: nat, cursor: Option<Key>)
      returns (rows: seq<Key>)
      requires Valid()
      ensures rows == Query(Matching(items, validations, filter), cursor, limit, offset)
      ensures forall k | k in rows :: k.id in items && KeyOf(items[k.id]) == k
    {
      hide Decreasing, Below;
      var matching := Matching(items, validations, filter);
      var selected := set k | k in matching && (cursor.None? || Below(k, cursor.value));
      assert selected == Eligible(matching, cursor);
      var sorted := SortNewestFirst(selected);
      rows := Prefix(Suffix(sorted, if cursor.Some? then 0 else offset), Clamp(limit) + 1);
      forall k | k in rows ensures k.id in items && KeyOf(items[k.id]) == k {
        assert k in Descending(selected);
        assert k in matching;
      }
    }

    /** One page of the item list: the keys are those of the page specification, the rows are the stored ones. */
    method ListItems(filter: Filter, limit: nat, offset: nat, cursor: Option<Key>)
      returns (page: seq<Item>, next: Option<Key>)
      requires Valid()
      ensures Page(KeysOf(page), next) == PageOf(Matching(items, validations, filter), cursor, limit, offset)
      ensures Shows(items, validations, filter, limit, cursor, page, next)
    {
      hide Shows, Query, Matching, KeyOf, WellKeyedEvidence, Effective, Below;
      var rows := QueryRows(filter, limit, offset, cursor);
      page := ReadRows(rows);
      assert forall i | 0 <= i < |page| :: rows[i] in rows;
      next := None;
      if |page| > Clamp(limit) {
        page := page[..|page| - 1];
        assert KeysOf(page) == rows[..|rows| - 1];
        if page != [] {
          next := Some(KeyOf(page[|page| - 1]));
        }
      }
      PageShows(items, validations, filter, limit, offset, cursor, page, next);
    }

    method PickRow(left: set<string>, calculated: Rotation.Calculated) returns (i: string)
      requires left != {} && CveRows(items, left)
      ensures IsFirst(items, calculated, left, i)
    {
      FirstExists(items, calculated, left);
      i :| i in left && forall j | j in left :: !PicksFirst(calculated, items[j], items[i]);
    }

    /** ORDER BY ... LIMIT over the CVE rows: at most `limit` rows, none after a row that is left. */
    method SelectRows(left: set<string>, calculated: Rotation.Calculated, limit: nat) returns (rows: seq<string>, rest: set<string>)
      requires CveRows(items, left)
      ensures SelectedRows(items, calculated, left, rows, rest, limit)
      decreases limit
    {
      hide PickedFirst, CvesAmong, PicksFirst, IsCveRow;
      if left == {} || limit == 0 {
        rows, rest := [], left;
        SelectNothing(items, calculated, left, limit);
      } else {
        var i := PickRow(left, calculated);
        rows, rest := SelectRows(left - {i}, calculated, limit - 1);
        SelectOneMore(items, calculated, left, i, rows, rest, limit);
        rows := [i] + rows;
      }
    }

    /** The loop over the rows of the query. */
    method ReadIdColumn(rows: seq<string>) returns (ids: seq<string>)
      requires forall i | i in rows :: i in items && IsCveRow(items[i])
      ensures ReadsIds(ids, items, rows)
    {
      ids := [];
      for n := 0 to |rows|
        invariant |ids| == n && forall k | 0 <= k < n :: ids[k] == items[rows[k]].cveId.value
      {
        assert rows[n] in rows;
        ids := ids + [items[rows[n]].cveId.value];
      }
      assert forall k | 0 <= k < |rows| :: rows[k] in rows;
    }

    /** The CVEs validated longest ago; rows that tie come in any order. */
    method CveIdsForValidation(limit: nat) returns (ids: seq<string>, ghost rows: seq<string>, ghost rest: set<string>)
      ensures SelectedRows(items, CalculatedAt(validations), AllRows(items), rows, rest, limit) && ReadsIds(ids, items, rows)
      ensures TakesOldest(items, validations, limit, rows)
      ensures |ids| == |rows| && forall k | 0 <= k < |rows| :: rows[k] in items && items[rows[k]].cveId == Some(ids[k])
      ensures forall c | c in ids :: c in CvesOf(items)
      ensures OneRowEach(items) ==>
                && Rotation.IsBatch(CalculatedAt(validations), CvesOf(items), limit, Members(ids))
                && |ids| == |Members(ids)|
    {
      hide SelectedRows, TakesOldest, OneRowEach, CvesOf, CalculatedAt, Members, Rotation.IsBatch;
      var selected, left := SelectRows(AllRows(items), CalculatedAt(validations), limit);
      rows, rest := selected, left;
      SelectedAreCveRows(items, validations, rows, rest, limit);
      ids := ReadIdColumn(selected);
      SelectedIds(items, validations, rows, rest, limit, ids);
      SelectedTakesOldest(items, validations, rows, rest, limit);
    }

    /** The records about a CVE, each once. */
    method GetEvidence(cve: string) returns (records: seq<Evidence.Record>)
      ensures AllAbout(records, evidence, cve)
      ensures |records| == |set k | k in evidence && k.cveId == cve|
    {
      var keys := set k | k in evidence && k.cveId == cve;
      ghost var all := keys;
      ghost var seen := {};
      records := [];
      while keys != {}
        invariant seen !! keys && seen + keys == all
        invariant ReadsRecords(records, evidence, seen)
        decreases keys
      {
        var k :| k in keys;
        ReadsOneMore(records, evidence, seen, k);
        records := records + [evidence[k]];
        keys, seen := keys - {k}, seen + {k};
      }
    }

    /** What the health loop makes of one row. */
    static method AbsorbRow(h: Health, row: IngestionRun, cutoff: string) returns (aggregate: Health)
      ensures aggregate == Absorb(h, row, cutoff)
    {
      aggregate := h;
      if aggregate.lastRunAt.None? {
        aggregate := aggregate.(name := row.name, kind := row.kind, lastStatus := row.status,
                                lastRunAt := Some(row.finishedAt), lastError := row.error);
      }
      if row.status == "success" && aggregate.lastSuccessAt.None? {
        aggregate := aggregate.(lastSuccessAt := Some(row.finishedAt));
      }
      if row.status == "failed" && AtMost(cutoff, row.finishedAt) {
        aggregate := aggregate.(failures24h := aggregate.failures24h + 1);
      }
    }

    /** One turn of the health loop. */
    static method AbsorbNext(health: map<string, Health>, ghost front: seq<IngestionRun>, row: IngestionRun, cutoff: string)
      returns (more: map<string, Health>)
      requires DescribesAll(health, front, cutoff)
      ensures DescribesAll(more, front + [row], cutoff)
    {
      hide DescribesAll, Absorb;
      AbsorbsAll(health, front, row, cutoff);
      var aggregate := AbsorbRow(if row.sourceId in health then health[row.sourceId] else EMPTY_HEALTH, row, cutoff);
      more := health[row.sourceId := aggregate];
    }

    /** The aggregate of every source, in one pass over its newest runs. */
    method CollectHealth(cutoff: string) returns (health: map<string, Health>)
      ensures DescribesAll(health, Newest(runs), cutoff)
    {
      var rows := Newest(runs);
      health := map[];
      for n := 0 to |rows|
        invariant DescribesAll(health, rows[..n], cutoff)
      {
        health := AbsorbNext(health, rows[..n], rows[n], cutoff);
        assert rows[..n + 1] == rows[..n] + [rows[n]];
      }
      assert rows[..|rows|] == rows;
    }

    static method PickName(health: map<string, Health>, left: set<string>) returns (s: string)
      requires left != {} && left <= health.Keys
      ensures IsLeastName(health, left, s)
    {
      LeastNameExists(health, left);
      s :| s in left && forall o | o in left :: AtMost(health[s].name, health[o].name);
    }

    /** sort_by on the source names. */
    static method SortByName(health: map<string, Health>, left: set<string>) returns (ids: seq<string>)
      requires left <= health.Keys
      ensures ListsByName(ids, health, left)
      decreases |left|
    {
      if left == {} {
        ids := [];
      } else {
        var s := PickName(health, left);
        var rest := SortByName(health, left - {s});
        LeastNameFirst(health, left, s, rest);
        ids := [s] + rest;
      }
    }

    /** The health page: every source once, by name, with its aggregate and its stored deadline. */
    method ListSourceHealth(cutoff: string) returns (page: seq<SourceSummary>)
      ensures exists health :: DescribesAll(health, Newest(runs), cutoff) && ShowsHealth(page, health, syncState)
    {
      var aggregates := CollectHealth(cutoff);
      var ids := SortByName(aggregates, aggregates.Keys);
      page := Summaries(aggregates, ids);
      hide DescribesAll;
      forall s | s in page ensures s.sourceId in aggregates && s == SummaryOf(aggregates, syncState, s.sourceId) {
        var i :| 0 <= i < |page| && page[i] == s;
        assert ids[i] in ids;
      }
      assert ShowsHealth(page, aggregates, syncState);
    }

    method Summaries(health: map<string, Health>, ids: seq<string>) returns (page: seq<SourceSummary>)
      requires forall s | s in ids :: s in health
      ensures IdsOf(page) == ids && forall i | 0 <= i < |page| :: page[i] == SummaryOf(health, syncState, ids[i])
    {
      page := [];
      for n := 0 to |ids|
        invariant |page| == n && forall i | 0 <= i < n :: page[i] == SummaryOf(health, syncState, ids[i])
      {
        var id := ids[n];
        assert id in ids;
        var until := if BackoffUntil(id) in syncState then Some(syncState[BackoffUntil(id)]) else None;
        page := page + [SourceSummary(id, health[id], until)];
      }
    }
  }
}

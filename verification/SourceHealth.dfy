/** What the health page says of a source, as questions about its newest runs (src/db.rs, list_source_health). */
module SourceHealth {
  import opened Wrappers
  import opened TextOrder

  datatype IngestionRun = IngestionRun(sourceId: string, name: string, kind: string, status: string, error: Option<string>, finishedAt: string)

  datatype Health = Health(
    name: string,
    kind: string,
    lastStatus: string,
    lastRunAt: Option<string>,
    lastSuccessAt: Option<string>,
    failures24h: nat,
    lastError: Option<string>)

  const EMPTY_HEALTH := Health("", "", "", None, None, 0, None)

  /** Rows of the page: at most this many of the newest. */
  const WINDOW: nat := 10000

  /** The runs in table order, newest first, as far as the query reads them. */
  function Newest(runs: seq<IngestionRun>): seq<IngestionRun> {
    Reverse(if |runs| > WINDOW then runs[|runs| - WINDOW..] else runs)
  }

  function Reverse<T>(s: seq<T>): (r: seq<T>)
    ensures |r| == |s| && forall i | 0 <= i < |s| :: r[i] == s[|s| - 1 - i]
  {
    if s == [] then [] else Reverse(s[1..]) + [s[0]]
  }

  predicate Succeeded(r: IngestionRun) { r.status == "success" }

  predicate FailedSince(r: IngestionRun, cutoff: string) { r.status == "failed" && AtMost(cutoff, r.finishedAt) }

  /** How many rows of the source failed at or after the cutoff. */
  function FailuresSince(rows: seq<IngestionRun>, source: string, cutoff: string): nat {
    if rows == [] then 0 else
      var last := rows[|rows| - 1];
      FailuresSince(rows[..|rows| - 1], source, cutoff)
      + if last.sourceId == source && FailedSince(last, cutoff) then 1 else 0
  }

  predicate IsNewest(rows: seq<IngestionRun>, source: string, k: nat) {
    && k < |rows| && rows[k].sourceId == source
    && forall j | 0 <= j < k :: rows[j].sourceId != source
  }

  predicate IsNewestSuccess(rows: seq<IngestionRun>, source: string, k: nat) {
    && k < |rows| && rows[k].sourceId == source && Succeeded(rows[k])
    && forall j | 0 <= j < k :: rows[j].sourceId != source || !Succeeded(rows[j])
  }

  ghost predicate NewestIs(h: Health, rows: seq<IngestionRun>, source: string) {
    exists k: nat :: IsNewest(rows, source, k)
      && h.name == rows[k].name && h.kind == rows[k].kind && h.lastStatus == rows[k].status
      && h.lastRunAt == Some(rows[k].finishedAt) && h.lastError == rows[k].error
  }

  ghost predicate NewestSuccessIs(t: Option<string>, rows: seq<IngestionRun>, source: string) {
    if t.None? then forall j | 0 <= j < |rows| :: rows[j].sourceId != source || !Succeeded(rows[j])
    else exists k: nat :: IsNewestSuccess(rows, source, k) && rows[k].finishedAt == t.value
  }

  /** The answer to each question about one source, asked of the rows separately. */
  ghost predicate Describes(h: Health, rows: seq<IngestionRun>, source: string, cutoff: string) {
    && NewestIs(h, rows, source)
    && NewestSuccessIs(h.lastSuccessAt, rows, source)
    && h.failures24h == FailuresSince(rows, source, cutoff)
  }

  ghost predicate Appears(rows: seq<IngestionRun>, source: string) {
    exists k :: 0 <= k < |rows| && rows[k].sourceId == source
  }

  /** Exactly the sources that have a row are described. */
  ghost predicate DescribesAll(all: map<string, Health>, rows: seq<IngestionRun>, cutoff: string) {
    && (forall s :: s in all <==> Appears(rows, s))
    && forall s | s in all :: Describes(all[s], rows, s, cutoff)
  }

  /** What the loop makes of one more (older) row of a source. */
  function Absorb(h: Health, row: IngestionRun, cutoff: string): Health {
    var first := if h.lastRunAt.None?
                 then h.(name := row.name, kind := row.kind, lastStatus := row.status,
                         lastRunAt := Some(row.finishedAt), lastError := row.error)
                 else h;
    var success := if Succeeded(row) && first.lastSuccessAt.None? then first.(lastSuccessAt := Some(row.finishedAt)) else first;
    if FailedSince(row, cutoff) then success.(failures24h := success.failures24h + 1) else success
  }

  lemma NewestStays(h: Health, rows: seq<IngestionRun>, row: IngestionRun, source: string)
    requires NewestIs(h, rows, source)
    ensures NewestIs(h, rows + [row], source)
  {
    var k: nat :| IsNewest(rows, source, k)
      && h.name == rows[k].name && h.kind == rows[k].kind && h.lastStatus == rows[k].status
      && h.lastRunAt == Some(rows[k].finishedAt) && h.lastError == rows[k].error;
    assert IsNewest(rows + [row], source, k) && (rows + [row])[k] == rows[k];
  }

  lemma SuccessOneMore(t: Option<string>, rows: seq<IngestionRun>, row: IngestionRun, source: string)
    requires NewestSuccessIs(t, rows, source)
    ensures NewestSuccessIs(if t.None? && row.sourceId == source && Succeeded(row) then Some(row.finishedAt) else t,
                            rows + [row], source)
  {
    var all := rows + [row];
    if t.Some? {
      var k: nat :| IsNewestSuccess(rows, source, k) && rows[k].finishedAt == t.value;
      assert IsNewestSuccess(all, source, k) && all[k] == rows[k];
    } else if row.sourceId == source && Succeeded(row) {
      assert IsNewestSuccess(all, source, |rows|) && all[|rows|] == row;
    }
  }

  lemma CountOneMore(rows: seq<IngestionRun>, row: IngestionRun, source: string, cutoff: string)
    ensures FailuresSince(rows + [row], source, cutoff)
         == FailuresSince(rows, source, cutoff) + if row.sourceId == source && FailedSince(row, cutoff) then 1 else 0
  {
    assert (rows + [row])[..|rows|] == rows;
  }

  lemma {:induction false} NoneToCount(rows: seq<IngestionRun>, source: string, cutoff: string)
    requires !Appears(rows, source)
    ensures FailuresSince(rows, source, cutoff) == 0
  {
    if rows == [] {
    } else {
      var front, last := rows[..|rows| - 1], rows[|rows| - 1];
      assert rows == front + [last];
      AppearsOneMore(front, last, source);
      NoneToCount(front, source, cutoff);
    }
  }

  lemma AbsorbsOwn(h: Health, rows: seq<IngestionRun>, row: IngestionRun, cutoff: string)
    requires Describes(h, rows, row.sourceId, cutoff)
    ensures Describes(Absorb(h, row, cutoff), rows + [row], row.sourceId, cutoff)
  {
    hide NewestSuccessIs, Succeeded, FailedSince;
    var next := Absorb(h, row, cutoff);
    NewestStays(h, rows, row, row.sourceId);
    SuccessOneMore(h.lastSuccessAt, rows, row, row.sourceId);
    CountOneMore(rows, row, row.sourceId, cutoff);
    assert NewestIs(next, rows + [row], row.sourceId);
  }

  lemma AbsorbsFirst(rows: seq<IngestionRun>, row: IngestionRun, cutoff: string)
    requires !Appears(rows, row.sourceId)
    ensures Describes(Absorb(EMPTY_HEALTH, row, cutoff), rows + [row], row.sourceId, cutoff)
  {
    var all := rows + [row];
    NoneToCount(rows, row.sourceId, cutoff);
    CountOneMore(rows, row, row.sourceId, cutoff);
    assert NewestSuccessIs(None, rows, row.sourceId);
    SuccessOneMore(None, rows, row, row.sourceId);
    assert IsNewest(all, row.sourceId, |rows|) && all[|rows|] == row;
  }

  /** One pass over the rows, newest first, answers every question about every source. */
  lemma AbsorbsAll(all: map<string, Health>, rows: seq<IngestionRun>, row: IngestionRun, cutoff: string)
    requires DescribesAll(all, rows, cutoff)
    ensures var h := if row.sourceId in all then all[row.sourceId] else EMPTY_HEALTH;
            DescribesAll(all[row.sourceId := Absorb(h, row, cutoff)], rows + [row], cutoff)
  {
    var h := if row.sourceId in all then all[row.sourceId] else EMPTY_HEALTH;
    var next := all[row.sourceId := Absorb(h, row, cutoff)];
    forall s ensures s in next <==> Appears(rows + [row], s) {
      AppearsOneMore(rows, row, s);
    }
    forall s | s in next ensures Describes(next[s], rows + [row], s, cutoff) {
      if s != row.sourceId {
        NewestStays(all[s], rows, row, s);
        SuccessOneMore(all[s].lastSuccessAt, rows, row, s);
        CountOneMore(rows, row, s, cutoff);
      } else if s in all {
        AbsorbsOwn(h, rows, row, cutoff);
      } else {
        AbsorbsFirst(rows, row, cutoff);
      }
    }
  }

  lemma AppearsOneMore(rows: seq<IngestionRun>, row: IngestionRun, source: string)
    ensures Appears(rows + [row], source) <==> Appears(rows, source) || row.sourceId == source
  {
    var all := rows + [row];
    if Appears(rows, source) {
      var k :| 0 <= k < |rows| && rows[k].sourceId == source;
      assert all[k].sourceId == source;
    }
    if row.sourceId == source {
      assert all[|rows|].sourceId == source;
    }
  }

  // ---------------------------------------------------------------- one more run

  /** The query reads the newest 10000 rows, the last one first. */
  lemma NewRowComesFirst(runs: seq<IngestionRun>, row: IngestionRun)
    ensures |runs| < 10000 ==> Newest(runs + [row]) == [row] + Newest(runs)
    ensures Newest(runs + [row]) != [] && Newest(runs + [row])[0] == row
    ensures |Newest(runs)| == if |runs| <= 10000 then |runs| else 10000
    ensures forall i | 0 <= i < |Newest(runs)| :: Newest(runs)[i] == runs[|runs| - 1 - i]
  {
    var all := Newest(runs + [row]);
    if |runs| < 10000 {
      assert |all| == |runs| + 1;
      forall i | 0 <= i < |all| ensures all[i] == ([row] + Newest(runs))[i] {
        assert all[i] == (runs + [row])[|runs| - i];
      }
    }
  }

  lemma {:induction false} CountFirst(row: IngestionRun, rows: seq<IngestionRun>, source: string, cutoff: string)
    ensures FailuresSince([row] + rows, source, cutoff)
         == FailuresSince(rows, source, cutoff) + if row.sourceId == source && row.status == "failed" && AtMost(cutoff, row.finishedAt) then 1 else 0
  {
    if rows == [] {
      assert [row][..0] == [];
    } else {
      var front, last := rows[..|rows| - 1], rows[|rows| - 1];
      assert ([row] + rows)[..|rows|] == [row] + front;
      CountFirst(row, front, source, cutoff);
    }
  }

  lemma SuccessIsUnique(rows: seq<IngestionRun>, source: string, t: Option<string>, u: Option<string>)
    requires NewestSuccessIs(t, rows, source) && NewestSuccessIs(u, rows, source)
    ensures t == u
  {
    if t.Some? {
      var k: nat :| IsNewestSuccess(rows, source, k) && rows[k].finishedAt == t.value;
    }
    if u.Some? {
      var k: nat :| IsNewestSuccess(rows, source, k) && rows[k].finishedAt == u.value;
    }
  }

  lemma SuccessFirst(row: IngestionRun, rows: seq<IngestionRun>, source: string, t: Option<string>)
    requires NewestSuccessIs(t, rows, source)
    ensures NewestSuccessIs(if row.sourceId == source && row.status == "success" then Some(row.finishedAt) else t, [row] + rows, source)
  {
    var all := [row] + rows;
    if row.sourceId == source && row.status == "success" {
      assert IsNewestSuccess(all, source, 0);
    } else if t.Some? {
      var k: nat :| IsNewestSuccess(rows, source, k) && rows[k].finishedAt == t.value;
      assert IsNewestSuccess(all, source, k + 1);
    }
  }

  lemma NewestIsUnique(rows: seq<IngestionRun>, source: string, g: Health, h: Health)
    requires NewestIs(g, rows, source) && NewestIs(h, rows, source)
    ensures g.name == h.name && g.kind == h.kind && g.lastStatus == h.lastStatus && g.lastRunAt == h.lastRunAt && g.lastError == h.lastError
  {
    var j: nat :| IsNewest(rows, source, j)
      && g.name == rows[j].name && g.kind == rows[j].kind && g.lastStatus == rows[j].status
      && g.lastRunAt == Some(rows[j].finishedAt) && g.lastError == rows[j].error;
    var k: nat :| IsNewest(rows, source, k)
      && h.name == rows[k].name && h.kind == rows[k].kind && h.lastStatus == rows[k].status
      && h.lastRunAt == Some(rows[k].finishedAt) && h.lastError == rows[k].error;
    assert j == k;
  }

  lemma OthersNewestStays(h: Health, row: IngestionRun, rows: seq<IngestionRun>, source: string)
    requires NewestIs(h, rows, source) && row.sourceId != source
    ensures NewestIs(h, [row] + rows, source)
  {
    var k: nat :| IsNewest(rows, source, k)
      && h.name == rows[k].name && h.kind == rows[k].kind && h.lastStatus == rows[k].status
      && h.lastRunAt == Some(rows[k].finishedAt) && h.lastError == rows[k].error;
    var all := [row] + rows;
    assert IsNewest(all, source, k + 1) && all[k + 1] == rows[k];
  }

  lemma NewestFirst(h: Health, row: IngestionRun, rows: seq<IngestionRun>)
    requires rows != [] && rows[0] == row && NewestIs(h, rows, row.sourceId)
    ensures h.name == row.name && h.kind == row.kind && h.lastStatus == row.status
    ensures h.lastRunAt == Some(row.finishedAt) && h.lastError == row.error
  {
  }

  /** How much of a source's failures a page shows; none of a source it does not show. */
  function FailuresShown(page: map<string, Health>, source: string): nat {
    if source in page then page[source].failures24h else 0
  }

  function SuccessShown(page: map<string, Health>, source: string): Option<string> {
    if source in page then page[source].lastSuccessAt else None
  }

  /** After one more run the page shows that run as the last of its source, however many runs there were. */
  lemma NewRunIsShown(runs: seq<IngestionRun>, row: IngestionRun, after: map<string, Health>, cutoff: string)
    requires DescribesAll(after, Newest(runs + [row]), cutoff)
    ensures row.sourceId in after
    ensures var h := after[row.sourceId];
            && h.name == row.name && h.kind == row.kind && h.lastStatus == row.status
            && h.lastRunAt == Some(row.finishedAt) && h.lastError == row.error
  {
    var rows := Newest(runs + [row]);
    NewRowComesFirst(runs, row);
    assert rows[0].sourceId == row.sourceId;
    assert Appears(rows, row.sourceId);
    assert Describes(after[row.sourceId], rows, row.sourceId, cutoff);
    NewestFirst(after[row.sourceId], row, rows);
  }

  /** Its failure counts if it is recent, its success is the last one, and nothing else moves on the page. */
  lemma NewRunIsCounted(runs: seq<IngestionRun>, row: IngestionRun, before: map<string, Health>, after: map<string, Health>,
                        cutoff: string, source: string)
    requires |runs| < 10000
    requires DescribesAll(before, Newest(runs), cutoff) && DescribesAll(after, Newest(runs + [row]), cutoff)
    ensures source in after <==> source in before || source == row.sourceId
    ensures FailuresShown(after, source) == FailuresShown(before, source)
              + if source == row.sourceId && row.status == "failed" && AtMost(cutoff, row.finishedAt) then 1 else 0
    ensures SuccessShown(after, source)
         == if source == row.sourceId && row.status == "success" then Some(row.finishedAt) else SuccessShown(before, source)
    ensures source in before && source != row.sourceId ==> after[source] == before[source]
  {
    var earlier, now := Newest(runs), Newest(runs + [row]);
    NewRowComesFirst(runs, row);
    CountFirst(row, earlier, source, cutoff);
    AppearsFirst(row, earlier, source);
    if source !in before {
      NoneToCount(earlier, source, cutoff);
      assert NewestSuccessIs(None, earlier, source);
    }
    hide NewestIs, NewestSuccessIs, Appears, FailuresSince;
    SuccessFirst(row, earlier, source, SuccessShown(before, source));
    if source in after {
      SuccessIsUnique(now, source, after[source].lastSuccessAt,
                      if row.sourceId == source && row.status == "success" then Some(row.finishedAt) else SuccessShown(before, source));
    }
    if source in before && source != row.sourceId {
      OthersNewestStays(before[source], row, earlier, source);
      NewestIsUnique(now, source, before[source], after[source]);
    }
  }

  lemma ShownIsCount(page: map<string, Health>, rows: seq<IngestionRun>, cutoff: string, source: string)
    requires DescribesAll(page, rows, cutoff)
    ensures FailuresShown(page, source) == FailuresSince(rows, source, cutoff)
  {
    if source !in page {
      NoneToCount(rows, source, cutoff);
    }
  }

  /** Of more runs a further one also pushes the oldest row out of the count. */
  lemma FullWindowDropsOldest(runs: seq<IngestionRun>, row: IngestionRun, before: map<string, Health>, after: map<string, Health>,
                              cutoff: string, source: string)
    requires |runs| >= 10000
    requires DescribesAll(before, Newest(runs), cutoff) && DescribesAll(after, Newest(runs + [row]), cutoff)
    ensures var oldest := runs[|runs| - 10000];
            FailuresShown(after, source)
              == FailuresShown(before, source)
                 + (if source == row.sourceId && row.status == "failed" && AtMost(cutoff, row.finishedAt) then 1 else 0)
                 - (if source == oldest.sourceId && oldest.status == "failed" && AtMost(cutoff, oldest.finishedAt) then 1 else 0)
  {
    var earlier, now, oldest := Newest(runs), Newest(runs + [row]), runs[|runs| - 10000];
    NewRowComesFirst(runs, row);
    NewRowComesFirst(runs + [row], row);
    var kept := earlier[..9999];
    assert earlier == kept + [oldest];
    forall i | 0 <= i < 10000 ensures now[i] == ([row] + kept)[i] {
      assert now[i] == (runs + [row])[|runs| - i];
    }
    assert now == [row] + kept;
    hide Newest, DescribesAll, FailuresSince;
    ShownIsCount(before, earlier, cutoff, source);
    ShownIsCount(after, now, cutoff, source);
    CountOneMore(kept, oldest, source, cutoff);
    CountFirst(row, kept, source, cutoff);
  }

  lemma AppearsFirst(row: IngestionRun, rows: seq<IngestionRun>, source: string)
    ensures Appears([row] + rows, source) <==> row.sourceId == source || Appears(rows, source)
  {
    var all := [row] + rows;
    assert all[0] == row && forall i | 0 <= i < |rows| :: all[i + 1] == rows[i];
  }
}

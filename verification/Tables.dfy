/**
 The tables of the embedded database (src/db.rs): what a write transaction does to them and what the
 queries see of them.
 */
module Tables {
  import opened Wrappers
  import opened Machine
  import opened TextOrder
  import opened ItemMerge
  import opened Keyset
  import opened Backoff
  import opened SourceHealth
  import Rotation
  import Evidence

  datatype SyncKey = FailureCount(source: string) | BackoffUntil(source: string) | Cursor(source: string) | DataMode

  /** A stored value, by what it parses as. */
  datatype SyncValue = Number(n: nat) | Moment(at: Instant) | Stamp(nanoseconds: int) | Word(text: string)

  datatype SyncUpdate = SyncUpdate(key: SyncKey, value: SyncValue)

  datatype EvidenceKey = EvidenceKey(cveId: string, sourceId: string, evidenceType: string)

  /** What a source remembers of the file it fetched last. */
  datatype CacheEntry = CacheEntry(sourceId: string, etag: Option<string>, lastModified: Option<string>, contentHash: string)

  datatype IngestBatch = IngestBatch(
    items: seq<Item>,
    evidence: seq<Evidence.Record>,
    syncUpdates: seq<SyncUpdate>,
    cacheUpdates: seq<CacheEntry>)
  {
    predicate IsEmpty() { items == [] && evidence == [] && syncUpdates == [] && cacheUpdates == [] }
  }

  datatype DbError = NotRead | NotCommitted | BadTimestamp

  type SyncState = map<SyncKey, SyncValue>
  type EvidenceTable = map<EvidenceKey, Evidence.Record>
  type Validations = map<string, Evidence.Validation>
  type CacheTable = map<string, CacheEntry>

  // ---------------------------------------------------------------- the effect of a batch

  function ApplyEvidence(t: EvidenceTable, records: seq<Evidence.Record>): EvidenceTable {
    if records == [] then t else
      var r := records[|records| - 1];
      ApplyEvidence(t, records[..|records| - 1])[EvidenceKeyOf(r) := r]
  }

  function EvidenceKeyOf(r: Evidence.Record): EvidenceKey { EvidenceKey(r.cveId, r.sourceId, r.evidenceType) }

  function ApplySync(t: SyncState, updates: seq<SyncUpdate>): SyncState {
    if updates == [] then t else
      var u := updates[|updates| - 1];
      ApplySync(t, updates[..|updates| - 1])[u.key := u.value]
  }

  function ApplyCache(t: CacheTable, updates: seq<CacheEntry>): CacheTable {
    if updates == [] then t else
      var u := updates[|updates| - 1];
      ApplyCache(t, updates[..|updates| - 1])[u.sourceId := u]
  }

  function ApplyValidations(t: Validations, inputs: seq<Evidence.Validation>): Validations {
    if inputs == [] then t else
      var v := inputs[|inputs| - 1];
      ApplyValidations(t, inputs[..|inputs| - 1])[v.cveId := v]
  }

  /** The key of a record: its CVE, its source and its type. */
  predicate HasKey(r: Evidence.Record, k: EvidenceKey) {
    r.cveId == k.cveId && r.sourceId == k.sourceId && r.evidenceType == k.evidenceType
  }

  /** The last record with a key replaces what was stored under it; other keys keep what they had. */
  ghost predicate IsRecordAfter(t: EvidenceTable, updates: seq<Evidence.Record>, k: EvidenceKey, now: EvidenceTable) {
    if exists i :: 0 <= i < |updates| && HasKey(updates[i], k)
    then k in now && exists i :: 0 <= i < |updates| && HasKey(updates[i], k) && now[k] == updates[i]
                               && forall j | i < j < |updates| :: !HasKey(updates[j], k)
    else (k in now <==> k in t) && (k in t ==> now[k] == t[k])
  }

  lemma {:induction false} RecordApplied(t: EvidenceTable, updates: seq<Evidence.Record>, k: EvidenceKey)
    ensures IsRecordAfter(t, updates, k, ApplyEvidence(t, updates))
  {
    if updates == [] {
    } else {
      var front, last := updates[..|updates| - 1], updates[|updates| - 1];
      RecordApplied(t, front, k);
      assert updates == front + [last];
      assert forall i | 0 <= i < |front| :: updates[i] == front[i];
      if HasKey(last, k) {
        assert HasKey(updates[|front|], k);
      }
    }
  }

  /** The last update of a key gives its value; other keys keep theirs. */
  ghost predicate IsSyncAfter(t: SyncState, updates: seq<SyncUpdate>, k: SyncKey, now: SyncState) {
    if exists i :: 0 <= i < |updates| && updates[i].key == k
    then k in now && exists i :: 0 <= i < |updates| && updates[i].key == k && now[k] == updates[i].value
                               && forall j | i < j < |updates| :: updates[j].key != k
    else (k in now <==> k in t) && (k in t ==> now[k] == t[k])
  }

  lemma {:induction false} SyncApplied(t: SyncState, updates: seq<SyncUpdate>, k: SyncKey)
    ensures IsSyncAfter(t, updates, k, ApplySync(t, updates))
  {
    if updates == [] {
    } else {
      var front, last := updates[..|updates| - 1], updates[|updates| - 1];
      SyncApplied(t, front, k);
      assert updates == front + [last];
      assert forall i | 0 <= i < |front| :: updates[i] == front[i];
      if last.key == k {
        assert updates[|front|].key == k;
      }
    }
  }

  /** The last entry of a source replaces the one before; other sources keep theirs. */
  ghost predicate IsCacheAfter(t: CacheTable, updates: seq<CacheEntry>, k: string, now: CacheTable) {
    if exists i :: 0 <= i < |updates| && updates[i].sourceId == k
    then k in now && exists i :: 0 <= i < |updates| && updates[i].sourceId == k && now[k] == updates[i]
                               && forall j | i < j < |updates| :: updates[j].sourceId != k
    else (k in now <==> k in t) && (k in t ==> now[k] == t[k])
  }

  lemma {:induction false} CacheApplied(t: CacheTable, updates: seq<CacheEntry>, k: string)
    ensures IsCacheAfter(t, updates, k, ApplyCache(t, updates))
  {
    if updates == [] {
    } else {
      var front, last := updates[..|updates| - 1], updates[|updates| - 1];
      CacheApplied(t, front, k);
      assert updates == front + [last];
      assert forall i | 0 <= i < |front| :: updates[i] == front[i];
      if last.sourceId == k {
        assert updates[|front|].sourceId == k;
      }
    }
  }

  // ---------------------------------------------------------------- what reads see

  function Effective(i: Item): string {
    if i.publishedAt.Some? then i.publishedAt.value else i.sourceUpdatedAt.GetOr(i.ingestedAt)
  }

  function KeyOf(i: Item): Key { Key(Effective(i), i.id) }

  function KeysOf(page: seq<Item>): (keys: seq<Key>)
    ensures |keys| == |page| && forall i | 0 <= i < |page| :: keys[i] == KeyOf(page[i])
  {
    seq(|page|, i requires 0 <= i < |page| => KeyOf(page[i]))
  }

  /** Every item is stored under its own id. */
  predicate WellKeyed(items: Table) { forall id | id in items :: items[id].id == id }

  /** Every record is stored under its own key. */
  predicate WellKeyedEvidence(evidence: EvidenceTable) { forall k | k in evidence :: k == EvidenceKeyOf(evidence[k]) }

  lemma {:induction false} ItemsStayWellKeyed(t: Table, items: seq<Item>)
    requires WellKeyed(t)
    ensures WellKeyed(ApplyItems(t, items))
    decreases |items|
  {
    if items == [] {
    } else {
      ItemsStayWellKeyed(t, items[..|items| - 1]);
    }
  }

  lemma {:induction false} EvidenceStaysWellKeyed(t: EvidenceTable, records: seq<Evidence.Record>)
    requires WellKeyedEvidence(t)
    ensures WellKeyedEvidence(ApplyEvidence(t, records))
    decreases |records|
  {
    if records == [] {
    } else {
      EvidenceStaysWellKeyed(t, records[..|records| - 1]);
    }
  }

  // ---------------------------------------------------------------- one record of the CVE Program

  const CANONICAL_RECORD := "canonical-record"

  /** Records of the CVE Program are of one type. */
  predicate IsCanonicalKind(r: Evidence.Record) {
    r.sourceId == Evidence.CANONICAL ==> r.evidenceType == CANONICAL_RECORD
  }

  ghost predicate CanonicalKind(evidence: EvidenceTable) {
    forall k | k in evidence :: IsCanonicalKind(evidence[k])
  }

  /** `records` are those of the table about one CVE. */
  ghost predicate AllAbout(records: seq<Evidence.Record>, evidence: EvidenceTable, cve: string) {
    forall r :: r in records <==> exists k :: k in evidence && k.cveId == cve && evidence[k] == r
  }

  /** The records stored under some keys, each once. */
  ghost predicate ReadsRecords(records: seq<Evidence.Record>, evidence: EvidenceTable, keys: set<EvidenceKey>) {
    keys <= evidence.Keys && |records| == |keys| && forall r :: r in records <==> exists k :: k in keys && evidence[k] == r
  }

  lemma ReadsOneMore(records: seq<Evidence.Record>, evidence: EvidenceTable, keys: set<EvidenceKey>, k: EvidenceKey)
    requires ReadsRecords(records, evidence, keys) && k in evidence && k !in keys
    ensures ReadsRecords(records + [evidence[k]], evidence, keys + {k})
  {
    var all := records + [evidence[k]];
    forall r ensures r in all <==> exists j :: j in keys + {k} && evidence[j] == r {
      if r == evidence[k] { assert k in keys + {k}; }
      if j :| j in keys && evidence[j] == r { assert j in keys + {k}; }
      assert r in all <==> r in records || r == evidence[k];
    }
  }

  lemma {:induction false} CanonicalKindStays(t: EvidenceTable, records: seq<Evidence.Record>)
    requires CanonicalKind(t) && forall r | r in records :: IsCanonicalKind(r)
    ensures CanonicalKind(ApplyEvidence(t, records))
    decreases |records|
  {
    hide IsCanonicalKind;
    if records == [] {
    } else {
      var front, last := records[..|records| - 1], records[|records| - 1];
      assert last in records && forall r | r in front :: r in records;
      CanonicalKindStays(t, front);
    }
  }

  /** Stored evidence holds at most one record of the CVE Program about a CVE, so its status is never in doubt. */
  lemma StoredCanonicalIsOne(evidence: EvidenceTable, cve: string, records: seq<Evidence.Record>)
    requires WellKeyedEvidence(evidence) && CanonicalKind(evidence) && AllAbout(records, evidence, cve)
    ensures Evidence.OneCanonicalStatus(records)
  {
    forall x, y | x in records && y in records && x.sourceId == Evidence.CANONICAL && y.sourceId == Evidence.CANONICAL
      ensures x.status == y.status
    {
      var j :| j in evidence && j.cveId == cve && evidence[j] == x;
      var k :| k in evidence && k.cveId == cve && evidence[k] == y;
      assert IsCanonicalKind(evidence[j]) && IsCanonicalKind(evidence[k]);
      assert j == k;
    }
  }

  /** So the validation of stored evidence does not depend on the order in which the query gives it. */
  lemma StoredOrderIsIrrelevant(evidence: EvidenceTable, norm: string -> Option<string>, cve: string, a: seq<Evidence.Record>,
                                b: seq<Evidence.Record>, epss: Option<Evidence.Epss>, now: string)
    requires WellKeyedEvidence(evidence) && CanonicalKind(evidence)
    requires AllAbout(a, evidence, cve) && AllAbout(b, evidence, cve)
    ensures Evidence.Calculate(norm, cve, a, epss, now) == Evidence.Calculate(norm, cve, b, epss, now)
  {
    StoredCanonicalIsOne(evidence, cve, a);
    assert Evidence.SameRecords(a, b);
    Evidence.OrderIsIrrelevant(norm, cve, a, b, epss, now);
  }

  // ---------------------------------------------------------------- lists and ledgers

  function Joined(validations: Validations, i: Item): Option<Evidence.Validation> {
    if i.cveId.Some? && i.cveId.value in validations then Some(validations[i.cveId.value]) else None
  }

  /** The keys of the rows a filter selects; a filter sees a row and the validation joined to it. */
  function Matching(items: Table, validations: Validations, filter: (Item, Option<Evidence.Validation>) -> bool): set<Key> {
    set id | id in items && filter(items[id], Joined(validations, items[id])) :: KeyOf(items[id])
  }

  /** The backoff keys of one source. */
  function LedgerOf(t: SyncState, source: string): Ledger {
    Ledger(
      if FailureCount(source) in t && t[FailureCount(source)].Number? && t[FailureCount(source)].n <= U32_MAX
      then Some(t[FailureCount(source)].n) else None,
      if BackoffUntil(source) in t && t[BackoffUntil(source)].Moment? then Some(t[BackoffUntil(source)].at) else None)
  }

  // ---------------------------------------------------------------- the rotation query

  /** Rows that the rotation may pick. */
  predicate IsCveRow(i: Item) { i.kind == "cve" && i.cveId.Some? }

  function AllRows(items: Table): set<string> { set i | i in items && IsCveRow(items[i]) }

  function CalculatedAt(validations: Validations): Rotation.Calculated {
    map c | c in validations :: validations[c].calculatedAt
  }

  /** The tie-break of the rotation query; unlike the list it prefers the source's update time. */
  function Freshness(i: Item): string {
    if i.sourceUpdatedAt.Some? then i.sourceUpdatedAt.value else i.publishedAt.GetOr(i.ingestedAt)
  }

  /** ORDER BY never-validated first, calculated_at ASC, freshness DESC. */
  predicate PicksFirst(c: Rotation.Calculated, x: Item, y: Item)
    requires IsCveRow(x) && IsCveRow(y)
  {
    || Rotation.Sooner(c, x.cveId.value, y.cveId.value)
    || (!Rotation.Sooner(c, y.cveId.value, x.cveId.value) && Less(Freshness(y), Freshness(x)))
  }

  ghost predicate OneRowEach(items: Table) {
    forall i, j | i in items && j in items && IsCveRow(items[i]) && IsCveRow(items[j]) && items[i].cveId == items[j].cveId :: i == j
  }

  ghost function CvesOf(items: Table): set<string> {
    set i | i in items && IsCveRow(items[i]) :: items[i].cveId.value
  }

  lemma SoonerIsWeakOrder(c: Rotation.Calculated, x: string, y: string, z: string)
    ensures Rotation.Sooner(c, x, y) ==> !Rotation.Sooner(c, y, x)
    ensures Rotation.Sooner(c, x, z) ==> Rotation.Sooner(c, x, y) || Rotation.Sooner(c, y, z)
  {
    if x in c && y in c { LessIsTotal(c[x], c[y]); }
    if y in c && z in c { LessIsTotal(c[y], c[z]); }
    if x in c && y in c && z in c && Less(c[x], c[z]) && c[y] != c[z] && Less(c[z], c[y]) {
      LessIsTransitive(c[x], c[z], c[y]);
    }
  }

  lemma PicksFirstIsTransitive(c: Rotation.Calculated, x: Item, y: Item, z: Item)
    requires IsCveRow(x) && IsCveRow(y) && IsCveRow(z)
    requires PicksFirst(c, x, y) && PicksFirst(c, y, z)
    ensures PicksFirst(c, x, z)
  {
    var a, b, d := x.cveId.value, y.cveId.value, z.cveId.value;
    SoonerIsWeakOrder(c, a, b, d);
    SoonerIsWeakOrder(c, b, a, d);
    SoonerIsWeakOrder(c, a, d, b);
    SoonerIsWeakOrder(c, d, b, a);
    SoonerIsWeakOrder(c, d, a, b);
    SoonerIsWeakOrder(c, b, d, a);
    if Less(Freshness(z), Freshness(y)) && Less(Freshness(y), Freshness(x)) {
      LessIsTransitive(Freshness(z), Freshness(y), Freshness(x));
    }
  }

  lemma PicksFirstIsStrict(c: Rotation.Calculated, x: Item)
    requires IsCveRow(x)
    ensures !PicksFirst(c, x, x)
  {
    SoonerIsWeakOrder(c, x.cveId.value, x.cveId.value, x.cveId.value);
    LessIsTotal(Freshness(x), Freshness(x));
  }

  ghost predicate IsFirst(items: Table, c: Rotation.Calculated, left: set<string>, i: string)
    requires forall j | j in left :: j in items && IsCveRow(items[j])
  {
    i in left && forall j | j in left :: !PicksFirst(c, items[j], items[i])
  }

  lemma {:induction false} FirstExists(items: Table, c: Rotation.Calculated, left: set<string>)
    requires left != {} && forall j | j in left :: j in items && IsCveRow(items[j])
    ensures exists i :: IsFirst(items, c, left, i)
    decreases left
  {
    hide PicksFirst, IsCveRow;
    var k :| k in left;
    var rest := left - {k};
    if rest == {} {
      assert left == {k};
      PicksFirstIsStrict(c, items[k]);
      assert IsFirst(items, c, left, k);
    } else {
      FirstExists(items, c, rest);
      var t :| IsFirst(items, c, rest, t);
      if PicksFirst(c, items[k], items[t]) {
        PicksFirstIsStrict(c, items[k]);
        forall j | j in left ensures !PicksFirst(c, items[j], items[k]) {
          if j != k && PicksFirst(c, items[j], items[k]) {
            PicksFirstIsTransitive(c, items[j], items[k], items[t]);
          }
        }
        assert IsFirst(items, c, left, k);
      } else {
        assert IsFirst(items, c, left, t);
      }
    }
  }

  ghost predicate CveRows(items: Table, rows: set<string>) {
    forall i | i in rows :: i in items && IsCveRow(items[i])
  }

  ghost function CvesAmong(items: Table, rows: set<string>): set<string>
    requires CveRows(items, rows)
  {
    set i | i in rows :: items[i].cveId.value
  }

  /** With one row each, rows and CVEs can be counted for one another. */
  lemma {:induction false} AsManyCves(items: Table, rows: set<string>)
    requires OneRowEach(items) && CveRows(items, rows)
    ensures |CvesAmong(items, rows)| == |rows|
    decreases rows
  {
    if rows == {} {
    } else {
      var i :| i in rows;
      var rest := rows - {i};
      AsManyCves(items, rest);
      var c := items[i].cveId.value;
      assert c !in CvesAmong(items, rest);
      assert CvesAmong(items, rows) == CvesAmong(items, rest) + {c};
    }
  }

  /** No row left behind comes before a row picked. */
  ghost predicate PickedFirst(items: Table, c: Rotation.Calculated, picked: set<string>, left: set<string>)
    requires CveRows(items, picked) && CveRows(items, left)
  {
    forall p, l | p in picked && l in left :: !PicksFirst(c, items[l], items[p])
  }

  /** Rows picked first, as many as the limit allows, are a batch of the rotation. */
  lemma PickedIsBatch(items: Table, validations: Validations, picked: set<string>, left: set<string>, limit: nat)
    requires OneRowEach(items) && CveRows(items, picked) && CveRows(items, left) && picked !! left
    requires picked + left == AllRows(items)
    requires PickedFirst(items, CalculatedAt(validations), picked, left)
    requires |picked| <= limit && (left == {} || |picked| == limit)
    ensures Rotation.IsBatch(CalculatedAt(validations), CvesOf(items), limit, CvesAmong(items, picked))
  {
    var c := CalculatedAt(validations);
    var batch, cves := CvesAmong(items, picked), CvesOf(items);
    assert cves == CvesAmong(items, picked + left);
    AsManyCves(items, picked);
    AsManyCves(items, picked + left);
    forall x, y | x in batch && y in cves - batch ensures !Rotation.Sooner(c, y, x) {
      var p :| p in picked && items[p].cveId.value == x;
      var l :| l in picked + left && items[l].cveId.value == y;
      assert l in left;
      assert !PicksFirst(c, items[l], items[p]);
    }
  }

  ghost function Members(rows: seq<string>): set<string> { set i | i in rows }

  /** No row is listed after one that it comes before. */
  ghost predicate InQueryOrder(items: Table, c: Rotation.Calculated, rows: seq<string>)
    requires CveRows(items, Members(rows))
  {
    forall a, b | 0 <= a < b < |rows| :: rows[a] in Members(rows) && rows[b] in Members(rows) && !PicksFirst(c, items[rows[b]], items[rows[a]])
  }

  /** `rows` are distinct, come first among `all`, in order, and stop only at the limit or when none is left. */
  ghost predicate SelectedRows(items: Table, c: Rotation.Calculated, all: set<string>, rows: seq<string>, rest: set<string>, limit: nat) {
    && CveRows(items, all)
    && Members(rows) + rest == all && Members(rows) !! rest
    && |Members(rows)| == |rows| <= limit && (rest == {} || |rows| == limit)
    && PickedFirst(items, c, Members(rows), rest)
    && InQueryOrder(items, c, rows)
  }

  lemma SelectNothing(items: Table, c: Rotation.Calculated, all: set<string>, limit: nat)
    requires CveRows(items, all) && (all == {} || limit == 0)
    ensures SelectedRows(items, c, all, [], all, limit)
  {
    assert Members([]) == {};
  }

  lemma FirstThenPicked(items: Table, c: Rotation.Calculated, all: set<string>, i: string, picked: set<string>, rest: set<string>)
    requires CveRows(items, all) && IsFirst(items, c, all, i) && picked <= all && rest <= all
    requires PickedFirst(items, c, picked, rest)
    ensures PickedFirst(items, c, {i} + picked, rest)
  {
    hide PicksFirst, IsCveRow;
  }

  lemma SelectOneMore(items: Table, c: Rotation.Calculated, all: set<string>, i: string, rows: seq<string>, rest: set<string>, limit: nat)
    requires CveRows(items, all) && IsFirst(items, c, all, i) && limit > 0
    requires SelectedRows(items, c, all - {i}, rows, rest, limit - 1)
    ensures SelectedRows(items, c, all, [i] + rows, rest, limit)
  {
    hide PicksFirst, PickedFirst, IsCveRow, InQueryOrder;
    var picked := Members(rows);
    assert Members([i] + rows) == {i} + picked;
    assert i !in picked && {i} + picked + rest == all;
    FirstThenPicked(items, c, all, i, picked, rest);
    FirstThenOrdered(items, c, all, i, rows);
  }

  lemma FirstThenOrdered(items: Table, c: Rotation.Calculated, all: set<string>, i: string, rows: seq<string>)
    requires CveRows(items, all) && IsFirst(items, c, all, i) && Members(rows) <= all
    requires InQueryOrder(items, c, rows)
    ensures Members([i] + rows) <= all && InQueryOrder(items, c, [i] + rows)
  {
    hide PicksFirst, IsCveRow;
    var more := [i] + rows;
    assert Members(more) == {i} + Members(rows);
    forall a, b | 0 <= a < b < |more|
      ensures more[a] in Members(more) && more[b] in Members(more) && !PicksFirst(c, items[more[b]], items[more[a]])
    {
      assert more[b] == rows[b - 1];
      assert rows[b - 1] in Members(rows);
      if a > 0 { assert more[a] == rows[a - 1]; }
    }
  }

  /** The id column of the selected rows. */
  ghost predicate ReadsIds(ids: seq<string>, items: Table, rows: seq<string>) {
    |ids| == |rows| && forall k | 0 <= k < |rows| :: rows[k] in items && IsCveRow(items[rows[k]]) && ids[k] == items[rows[k]].cveId.value
  }

  /** Update, else publication, else ingestion. */
  function TimeFresh(x: Item): string {
    match x.sourceUpdatedAt
    case Some(t) => t
    case None => match x.publishedAt case Some(t) => t case None => x.ingestedAt
  }

  /** `x` was never validated, or not later than `y`, and of two that tie `x` is as fresh. */
  predicate StandsFirst(validations: Validations, x: Item, y: Item)
    requires x.cveId.Some? && y.cveId.Some?
  {
    var c, d := x.cveId.value, y.cveId.value;
    if c !in validations then d in validations || AtMost(TimeFresh(y), TimeFresh(x))
    else
      && d in validations
      && AtMost(validations[c].calculatedAt, validations[d].calculatedAt)
      && (validations[c].calculatedAt == validations[d].calculatedAt ==> AtMost(TimeFresh(y), TimeFresh(x)))
  }

  lemma QueryOrderMeans(validations: Validations, x: Item, y: Item)
    requires IsCveRow(x) && IsCveRow(y)
    ensures !PicksFirst(CalculatedAt(validations), y, x) <==> StandsFirst(validations, x, y)
  {
    var c, d := x.cveId.value, y.cveId.value;
    LessIsTotal(TimeFresh(x), TimeFresh(y));
    LessIsTotal(TimeFresh(y), TimeFresh(x));
    if c in validations && d in validations {
      LessIsTotal(validations[c].calculatedAt, validations[d].calculatedAt);
      LessIsTotal(validations[d].calculatedAt, validations[c].calculatedAt);
    }
    hide Less;
  }

  predicate NamesCve(items: Table, i: string) { i in items && items[i].kind == "cve" && items[i].cveId.Some? }

  /** `rows` are CVE rows, each once, in the order of need, and whatever is left out is needed no more than any of them. */
  ghost predicate TakesOldest(items: Table, validations: Validations, limit: nat, rows: seq<string>) {
    && |rows| <= limit
    && (forall a | 0 <= a < |rows| :: NamesCve(items, rows[a]))
    && (forall a, b | 0 <= a < b < |rows| :: rows[a] != rows[b] && StandsFirst(validations, items[rows[a]], items[rows[b]]))
    && (forall i | NamesCve(items, i) && i !in rows ::
          |rows| == limit && forall a | 0 <= a < |rows| :: StandsFirst(validations, items[rows[a]], items[i]))
  }

  lemma {:induction false} AllDistinct(rows: seq<string>)
    requires |Members(rows)| == |rows|
    ensures forall a, b | 0 <= a < b < |rows| :: rows[a] != rows[b]
  {
    if rows == [] {
    } else {
      var front, last := rows[..|rows| - 1], rows[|rows| - 1];
      assert Members(rows) == Members(front) + {last};
      AtMostAsMany(front);
      AllDistinct(front);
      forall a, b | 0 <= a < b < |rows| ensures rows[a] != rows[b] {
        assert front[a] in Members(front);
        if b < |front| { assert front[a] != front[b]; }
      }
    }
  }

  lemma {:induction false} AtMostAsMany(ids: seq<string>)
    ensures |Members(ids)| <= |ids|
  {
    if ids == [] {
    } else {
      var front, last := ids[..|ids| - 1], ids[|ids| - 1];
      assert ids == front + [last];
      assert Members(ids) == Members(front) + {last};
      AtMostAsMany(front);
    }
  }

  lemma SelectedAreCveRows(items: Table, validations: Validations, rows: seq<string>, rest: set<string>, limit: nat)
    requires SelectedRows(items, CalculatedAt(validations), AllRows(items), rows, rest, limit)
    ensures forall i | i in rows :: i in items && IsCveRow(items[i])
  {
    hide IsCveRow, PickedFirst, InQueryOrder;
    forall i | i in rows ensures i in items && IsCveRow(items[i]) {
      assert i in Members(rows);
    }
  }

  lemma SelectedTakesOldest(items: Table, validations: Validations, rows: seq<string>, rest: set<string>, limit: nat)
    requires SelectedRows(items, CalculatedAt(validations), AllRows(items), rows, rest, limit)
    ensures TakesOldest(items, validations, limit, rows)
  {
    hide PicksFirst, StandsFirst;
    AllDistinct(rows);
    forall a | 0 <= a < |rows| ensures NamesCve(items, rows[a]) {
      assert rows[a] in Members(rows);
      assert rows[a] in AllRows(items);
    }
    forall a, b | 0 <= a < b < |rows| ensures StandsFirst(validations, items[rows[a]], items[rows[b]]) {
      QueryOrderMeans(validations, items[rows[a]], items[rows[b]]);
    }
    forall i | NamesCve(items, i) && i !in rows
      ensures |rows| == limit && forall a | 0 <= a < |rows| :: StandsFirst(validations, items[rows[a]], items[i])
    {
      assert i in AllRows(items);
      assert i in rest;
      forall a | 0 <= a < |rows| ensures StandsFirst(validations, items[rows[a]], items[i]) {
        assert rows[a] in Members(rows);
        QueryOrderMeans(validations, items[rows[a]], items[i]);
      }
    }
  }

  /** The CVEs of selected rows are a batch of the rotation when every CVE has one row. */
  lemma SelectedIds(items: Table, validations: Validations, rows: seq<string>, rest: set<string>, limit: nat, ids: seq<string>)
    requires SelectedRows(items, CalculatedAt(validations), AllRows(items), rows, rest, limit)
    requires ReadsIds(ids, items, rows)
    ensures forall c | c in ids :: c in CvesOf(items)
    ensures OneRowEach(items) ==>
              && Rotation.IsBatch(CalculatedAt(validations), CvesOf(items), limit, Members(ids))
              && |ids| == |Members(ids)|
  {
    var picked := Members(rows);
    if OneRowEach(items) {
      PickedIsBatch(items, validations, picked, rest, limit);
      AsManyCves(items, picked);
      IdsAreImage(items, rows, ids);
    }
  }

  lemma IdsAreImage(items: Table, rows: seq<string>, ids: seq<string>)
    requires CveRows(items, Members(rows)) && ReadsIds(ids, items, rows)
    ensures Members(ids) == CvesAmong(items, Members(rows))
  {
    forall c ensures c in ids <==> c in CvesAmong(items, Members(rows)) {
      if c in ids {
        var k :| 0 <= k < |ids| && ids[k] == c;
        assert rows[k] in Members(rows);
      }
      if c in CvesAmong(items, Members(rows)) {
        var i :| i in Members(rows) && items[i].cveId.value == c;
        var k :| 0 <= k < |rows| && rows[k] == i;
        assert ids[k] == c;
      }
    }
  }

  // ---------------------------------------------------------------- the health page

  datatype SourceSummary = SourceSummary(sourceId: string, health: Health, backoffUntil: Option<SyncValue>)

  function SummaryOf(health: map<string, Health>, t: SyncState, id: string): SourceSummary
    requires id in health
  {
    SourceSummary(id, health[id], if BackoffUntil(id) in t then Some(t[BackoffUntil(id)]) else None)
  }

  function IdsOf(page: seq<SourceSummary>): (ids: seq<string>)
    ensures |ids| == |page| && forall i | 0 <= i < |page| :: ids[i] == page[i].sourceId
  {
    seq(|page|, i requires 0 <= i < |page| => page[i].sourceId)
  }

  ghost predicate IsLeastName(health: map<string, Health>, left: set<string>, s: string)
    requires left <= health.Keys
  {
    s in left && forall o | o in left :: AtMost(health[s].name, health[o].name)
  }

  /** Each source of `left` once, in the order of names. */
  ghost predicate ListsByName(ids: seq<string>, health: map<string, Health>, left: set<string>)
  {
    && left <= health.Keys && |ids| == |left| && (forall s :: s in ids <==> s in left)
    && forall i, j | 0 <= i < j < |ids| :: AtMost(health[ids[i]].name, health[ids[j]].name)
  }

  /** The page shows each aggregate once, in the order of names, with the deadline stored for its source. */
  ghost predicate ShowsHealth(page: seq<SourceSummary>, health: map<string, Health>, t: SyncState) {
    && ListsByName(IdsOf(page), health, health.Keys)
    && forall s | s in page ::
         && s.sourceId in health && s.health == health[s.sourceId]
         && (if BackoffUntil(s.sourceId) in t then s.backoffUntil == Some(t[BackoffUntil(s.sourceId)]) else s.backoffUntil == None)
  }

  lemma {:induction false} LeastNameExists(health: map<string, Health>, left: set<string>)
    requires left != {} && left <= health.Keys
    ensures exists s :: IsLeastName(health, left, s)
    decreases left
  {
    var k :| k in left;
    var rest := left - {k};
    LessIsTotal(health[k].name, health[k].name);
    if rest == {} {
      assert left == {k};
      assert IsLeastName(health, left, k);
    } else {
      LeastNameExists(health, rest);
      var t :| IsLeastName(health, rest, t);
      LessIsTotal(health[k].name, health[t].name);
      hide Less;
      if AtMost(health[k].name, health[t].name) {
        forall o | o in left ensures AtMost(health[k].name, health[o].name) {
          if o != k { AtMostIsTransitive(health[k].name, health[t].name, health[o].name); }
        }
        assert IsLeastName(health, left, k);
      } else {
        assert IsLeastName(health, left, t);
      }
    }
  }

  lemma LeastNameFirst(health: map<string, Health>, left: set<string>, s: string, rest: seq<string>)
    requires left <= health.Keys && IsLeastName(health, left, s) && ListsByName(rest, health, left - {s})
    ensures ListsByName([s] + rest, health, left)
  {
    hide AtMost;
    var ids := [s] + rest;
    forall i, j | 0 <= i < j < |ids| ensures AtMost(health[ids[i]].name, health[ids[j]].name) {
      assert rest[j - 1] in rest;
    }
  }

  /** The last validation of a CVE replaces the one before; other CVEs keep theirs. */
  ghost predicate IsValidationAfter(t: Validations, updates: seq<Evidence.Validation>, k: string, now: Validations) {
    if exists i :: 0 <= i < |updates| && updates[i].cveId == k
    then k in now && exists i :: 0 <= i < |updates| && updates[i].cveId == k && now[k] == updates[i]
                               && forall j | i < j < |updates| :: updates[j].cveId != k
    else (k in now <==> k in t) && (k in t ==> now[k] == t[k])
  }

  lemma {:induction false} ValidationApplied(t: Validations, updates: seq<Evidence.Validation>, k: string)
    ensures IsValidationAfter(t, updates, k, ApplyValidations(t, updates))
  {
    if updates == [] {
    } else {
      var front, last := updates[..|updates| - 1], updates[|updates| - 1];
      ValidationApplied(t, front, k);
      assert updates == front + [last];
      assert forall i | 0 <= i < |front| :: updates[i] == front[i];
      if last.cveId == k {
        assert updates[|front|].cveId == k;
      }
    }
  }
}

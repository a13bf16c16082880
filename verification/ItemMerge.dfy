/**
 The merge of item records that share an id (src/db.rs, the upsert of apply_batch).

 A stored item is the fold of every input received for its id.  Three families of fields follow three
 rules: joins, which do not depend on the order of arrival; the provenance tuple, which comes whole
 from one input; and last-known fields.
 */
module ItemMerge {
  import opened Wrappers
  import opened TextOrder

  datatype Item = Item(
    id: string,
    kind: string,
    cveId: Option<string>,
    title: string,
    summary: string,
    url: string,
    sourceId: string,
    sourceName: string,
    sourceRegion: string,
    sourceLanguage: string,
    sourceTrust: nat,
    severity: Option<string>,
    cvssScore: Option<real>,
    publishedAt: Option<string>,
    sourceUpdatedAt: Option<string>,
    ingestedAt: string,
    exploited: bool,
    kevDateAdded: Option<string>,
    remediation: Option<string>,
    dueDate: Option<string>,
    ransomwareUse: Option<string>,
    vendor: Option<string>,
    product: Option<string>,
    rawJson: Option<string>,
    contentHash: string,
    categories: set<string>,
    cves: set<string>)

  function Max(a: nat, b: nat): nat { if a >= b then a else b }

  function Coalesce<T>(a: Option<T>, b: Option<T>): Option<T> { if a.Some? then a else b }

  function Rank(severity: Option<string>): nat {
    if severity.None? then 0
    else if severity.value == "critical" then 5
    else if severity.value == "high" then 4
    else if severity.value == "medium" then 3
    else if severity.value == "low" then 2
    else if severity.value == "none" then 1
    else 0
  }

  function MergeSeverity(was: Option<string>, now: Option<string>): Option<string> {
    if Rank(now) >= Rank(was) then Coalesce(now, was) else was
  }

  function Higher(a: Option<real>, b: Option<real>): Option<real> {
    if b.None? then a else if a.None? then b else if a.value >= b.value then a else b
  }

  function Earliest(a: Option<string>, b: Option<string>): Option<string> {
    if a.None? then b else if b.None? then a else if Less(b.value, a.value) then b else a
  }

  function Latest(a: Option<string>, b: Option<string>): Option<string> {
    if a.None? then b else if b.None? then a else if Less(a.value, b.value) then b else a
  }

  /** ON CONFLICT(id) DO UPDATE, and the rewritten category and CVE links. */
  function Merge(was: Item, now: Item): Item {
    var trusted := now.sourceTrust >= was.sourceTrust;
    Item(
      was.id,
      now.kind,
      Coalesce(now.cveId, was.cveId),
      if trusted then now.title else was.title,
      if trusted && now.summary != "" then now.summary else was.summary,
      if trusted then now.url else was.url,
      if trusted then now.sourceId else was.sourceId,
      if trusted then now.sourceName else was.sourceName,
      if trusted then now.sourceRegion else was.sourceRegion,
      if trusted then now.sourceLanguage else was.sourceLanguage,
      Max(was.sourceTrust, now.sourceTrust),
      MergeSeverity(was.severity, now.severity),
      Higher(was.cvssScore, now.cvssScore),
      Earliest(was.publishedAt, now.publishedAt),
      Latest(was.sourceUpdatedAt, now.sourceUpdatedAt),
      now.ingestedAt,
      was.exploited || now.exploited,
      Coalesce(now.kevDateAdded, was.kevDateAdded),
      Coalesce(now.remediation, was.remediation),
      Coalesce(now.dueDate, was.dueDate),
      Coalesce(now.ransomwareUse, was.ransomwareUse),
      Coalesce(now.vendor, was.vendor),
      Coalesce(now.product, was.product),
      if trusted then now.rawJson else was.rawJson,
      now.contentHash,
      now.categories,
      now.cves)
  }

  // ---------------------------------------------------------------- tables and histories

  type Table = map<string, Item>

  function Upsert(t: Table, item: Item): Table {
    t[item.id := if item.id in t then Merge(t[item.id], item) else item]
  }

  /** Items applied in order. */
  function ApplyItems(t: Table, items: seq<Item>): Table {
    if items == [] then t else Upsert(ApplyItems(t, items[..|items| - 1]), items[|items| - 1])
  }

  function ApplyBatches(t: Table, batches: seq<seq<Item>>): Table {
    if batches == [] then t else ApplyItems(ApplyBatches(t, batches[..|batches| - 1]), batches[|batches| - 1])
  }

  /** The item stored after a nonempty history of inputs to one id. */
  function Fold(h: seq<Item>): Item
    requires h != []
  {
    if |h| == 1 then h[0] else Merge(Fold(h[..|h| - 1]), h[|h| - 1])
  }

  /** The inputs to one id, in order. */
  function History(items: seq<Item>, id: string): seq<Item> {
    if items == [] then []
    else
      var before := History(items[..|items| - 1], id);
      if items[|items| - 1].id == id then before + [items[|items| - 1]] else before
  }

  /** The row an id has, and the inputs to it after that. */
  function HistoryFrom(t: Table, items: seq<Item>, id: string): seq<Item> {
    (if id in t then [t[id]] else []) + History(items, id)
  }

  function Flatten(batches: seq<seq<Item>>): seq<Item> {
    if batches == [] then [] else Flatten(batches[..|batches| - 1]) + batches[|batches| - 1]
  }

  lemma HistoryGrows(t: Table, front: seq<Item>, last: Item, id: string)
    ensures HistoryFrom(t, front + [last], id) == HistoryFrom(t, front, id) + if last.id == id then [last] else []
  {
    assert (front + [last])[..|front|] == front;
  }

  lemma FoldGrows(h: seq<Item>, x: Item)
    ensures Fold(h + [x]) == if h == [] then x else Merge(Fold(h), x)
  {
    assert (h + [x])[..|h|] == h;
  }

  /** The row of `id` is the fold of its history. */
  predicate RowIsFold(now: Table, history: seq<Item>, id: string) {
    (id in now <==> history != []) && (history != [] ==> now[id] == Fold(history))
  }

  lemma UpsertIsFold(now: Table, history: seq<Item>, id: string, x: Item)
    requires RowIsFold(now, history, id)
    ensures RowIsFold(Upsert(now, x), history + if x.id == id then [x] else [], id)
  {
    hide Merge, Fold;
    FoldGrows(history, x);
    assert history + [] == history;
  }

  lemma {:induction false} StoredIsFold(t: Table, items: seq<Item>, id: string)
    ensures RowIsFold(ApplyItems(t, items), HistoryFrom(t, items, id), id)
  {
    hide Merge, Upsert, History;
    if items == [] {
      hide Merge, Upsert;
      assert History([], id) == [] by { NoHistory(id); }
    } else {
      hide RowIsFold, HistoryFrom, Fold;
      var front, last := items[..|items| - 1], items[|items| - 1];
      assert items == front + [last];
      StoredIsFold(t, front, id);
      HistoryGrows(t, front, last, id);
      UpsertIsFold(ApplyItems(t, front), HistoryFrom(t, front, id), id, last);
    }
  }

  lemma NoHistory(id: string)
    ensures History([], id) == []
  {
  }

  lemma {:induction false} ApplyConcat(t: Table, a: seq<Item>, b: seq<Item>)
    ensures ApplyItems(t, a + b) == ApplyItems(ApplyItems(t, a), b)
  {
    if b == [] {
      assert a + b == a;
    } else {
      var front := b[..|b| - 1];
      assert (a + b)[..|a + b| - 1] == a + front;
      ApplyConcat(t, a, front);
    }
  }

  /** How the inputs are cut into batches does not matter. */
  lemma {:induction false} BatchesAreFlat(t: Table, batches: seq<seq<Item>>)
    ensures ApplyBatches(t, batches) == ApplyItems(t, Flatten(batches))
  {
    if batches == [] {
    } else {
      var front := batches[..|batches| - 1];
      BatchesAreFlat(t, front);
      ApplyConcat(t, Flatten(front), batches[|batches| - 1]);
    }
  }

  lemma {:induction false} HistoryMembers(items: seq<Item>, id: string)
    ensures forall x :: x in History(items, id) <==> x in items && x.id == id
  {
    if items == [] {
    } else {
      var front, last := items[..|items| - 1], items[|items| - 1];
      HistoryMembers(front, id);
      assert items == front + [last];
    }
  }

  // ---------------------------------------------------------------- joins

  /** Position of a normalised severity; null is the least. */
  function Level(severity: Option<string>): nat {
    if severity.None? then 0 else if severity.value == "unknown" then 1 else 1 + Rank(severity)
  }

  /** Null or one of the six names that normalisation produces. */
  predicate Normalised(severity: Option<string>) {
    severity.Some? ==> severity.value == "unknown" || Rank(severity) > 0
  }

  lemma LevelNames(a: Option<string>, b: Option<string>)
    requires Normalised(a) && Normalised(b) && Level(a) == Level(b)
    ensures a == b
  {
  }

  predicate ScoreAtMost(a: Option<real>, b: Option<real>) {
    a.Some? ==> b.Some? && a.value <= b.value
  }

  predicate TimeAtMost(a: Option<string>, b: Option<string>) {
    a.Some? ==> b.Some? && AtMost(a.value, b.value)
  }

  predicate NotLater(a: Option<string>, b: Option<string>) {
    b.Some? ==> a.Some? && AtMost(a.value, b.value)
  }

  /** `s` bounds input `x` in all six joined fields; `published_at` runs the other way. */
  predicate Bounds(s: Item, x: Item) {
    && x.sourceTrust <= s.sourceTrust
    && (x.exploited ==> s.exploited)
    && Level(x.severity) <= Level(s.severity)
    && ScoreAtMost(x.cvssScore, s.cvssScore)
    && TimeAtMost(x.sourceUpdatedAt, s.sourceUpdatedAt)
    && NotLater(s.publishedAt, x.publishedAt)
  }

  /** Each joined field of `s` is the value of some input. */
  ghost predicate Attained(s: Item, inputs: set<Item>) {
    && (exists x :: x in inputs && x.sourceTrust == s.sourceTrust)
    && (exists x :: x in inputs && x.exploited == s.exploited)
    && (exists x :: x in inputs && x.severity == s.severity)
    && (exists x :: x in inputs && x.cvssScore == s.cvssScore)
    && (exists x :: x in inputs && x.sourceUpdatedAt == s.sourceUpdatedAt)
    && (exists x :: x in inputs && x.publishedAt == s.publishedAt)
  }

  ghost predicate IsJoin(s: Item, inputs: set<Item>) {
    (forall x | x in inputs :: Bounds(s, x)) && Attained(s, inputs)
  }

  ghost function Inputs(h: seq<Item>): set<Item> { set x | x in h }

  predicate SameJoins(a: Item, b: Item) {
    && a.sourceTrust == b.sourceTrust
    && a.exploited == b.exploited
    && a.severity == b.severity
    && a.cvssScore == b.cvssScore
    && a.sourceUpdatedAt == b.sourceUpdatedAt
    && a.publishedAt == b.publishedAt
  }

  lemma TimeFacts(a: Option<string>, b: Option<string>)
    ensures TimeAtMost(a, Latest(a, b)) && TimeAtMost(b, Latest(a, b))
    ensures NotLater(Earliest(a, b), a) && NotLater(Earliest(a, b), b)
    ensures TimeAtMost(a, b) && TimeAtMost(b, a) ==> a == b
    ensures NotLater(a, b) && NotLater(b, a) ==> a == b
  {
    if a.Some? && b.Some? {
      LessIsTotal(a.value, b.value);
    }
  }

  lemma TimeChains(a: Option<string>, b: Option<string>, c: Option<string>)
    ensures TimeAtMost(a, b) && TimeAtMost(b, c) ==> TimeAtMost(a, c)
    ensures NotLater(a, b) && NotLater(b, c) ==> NotLater(a, c)
  {
    if a.Some? && b.Some? && c.Some? && Less(a.value, b.value) && Less(b.value, c.value) {
      LessIsTransitive(a.value, b.value, c.value);
    }
  }

  /** One merge never lowers what it joins, and never moves the publication later. */
  lemma MergeBounds(was: Item, now: Item)
    requires Normalised(was.severity) && Normalised(now.severity)
    ensures Bounds(Merge(was, now), was) && Bounds(Merge(was, now), now)
  {
    hide Less;
    TimeFacts(was.publishedAt, now.publishedAt);
    TimeFacts(was.sourceUpdatedAt, now.sourceUpdatedAt);
  }

  lemma BoundsChain(a: Item, b: Item, c: Item)
    requires Bounds(a, b) && Bounds(b, c)
    ensures Bounds(a, c)
  {
    TimeChains(c.sourceUpdatedAt, b.sourceUpdatedAt, a.sourceUpdatedAt);
    TimeChains(a.publishedAt, b.publishedAt, c.publishedAt);
  }

  /** The stored item is the join of every input of its history. */
  lemma {:induction false} FoldIsJoin(h: seq<Item>)
    requires h != [] && forall x | x in h :: Normalised(x.severity)
    ensures IsJoin(Fold(h), Inputs(h)) && Normalised(Fold(h).severity)
  {
    hide Less, Rank, Merge, Bounds, Attained, Normalised;
    if |h| == 1 {
      JoinOfOne(h[0]);
      assert Inputs(h) == {h[0]};
    } else {
      var front, last := h[..|h| - 1], h[|h| - 1];
      FoldIsJoin(front);
      assert Inputs(h) == Inputs(front) + {last};
      JoinOneMore(Fold(front), Inputs(front), last);
    }
  }

  lemma JoinOfOne(x: Item)
    ensures IsJoin(x, {x})
  {
    TimeFacts(x.sourceUpdatedAt, x.sourceUpdatedAt);
    TimeFacts(x.publishedAt, x.publishedAt);
    assert x in {x};
  }

  lemma JoinOneMore(was: Item, inputs: set<Item>, now: Item)
    requires IsJoin(was, inputs) && Normalised(was.severity) && Normalised(now.severity)
    ensures IsJoin(Merge(was, now), inputs + {now}) && Normalised(Merge(was, now).severity)
  {
    MergeBounds(was, now);
    var s := Merge(was, now);
    forall x | x in inputs + {now} ensures Bounds(s, x) {
      if x in inputs { BoundsChain(s, was, x); }
    }
    AttainedOneMore(was, inputs, now);
  }

  lemma AttainedOneMore(was: Item, inputs: set<Item>, now: Item)
    requires Attained(was, inputs)
    ensures Attained(Merge(was, now), inputs + {now})
  {
    hide Less, Rank;
    var all := inputs + {now};
    assert now in all;
    assert forall x | x in inputs :: x in all;
  }

  /** A join is determined by the set of inputs. */
  lemma JoinIsUnique(a: Item, b: Item, inputs: set<Item>)
    requires IsJoin(a, inputs) && IsJoin(b, inputs)
    requires Normalised(a.severity) && Normalised(b.severity)
    ensures SameJoins(a, b)
  {
    hide Less, Rank;
    LevelNamesOnce(a.severity, b.severity);
    TimeFacts(a.sourceUpdatedAt, b.sourceUpdatedAt);
    TimeFacts(a.publishedAt, b.publishedAt);
  }

  lemma LevelNamesOnce(a: Option<string>, b: Option<string>)
    requires Normalised(a) && Normalised(b)
    ensures Level(a) == Level(b) ==> a == b
  {
    if Level(a) == Level(b) { LevelNames(a, b); }
  }

  lemma SameInputs(t: Table, one: seq<Item>, two: seq<Item>, id: string)
    requires forall x :: x in one <==> x in two
    ensures Inputs(HistoryFrom(t, one, id)) == Inputs(HistoryFrom(t, two, id))
    ensures HistoryFrom(t, one, id) == [] <==> HistoryFrom(t, two, id) == []
  {
    HistoryMembers(one, id);
    HistoryMembers(two, id);
    var a, b := History(one, id), History(two, id);
    assert a != [] ==> a[0] in b;
    assert b != [] ==> b[0] in a;
    hide History;
    assert forall x :: x in HistoryFrom(t, one, id) <==> x in a || (id in t && x == t[id]);
    assert forall x :: x in HistoryFrom(t, two, id) <==> x in b || (id in t && x == t[id]);
  }

  /**
   Arrival order does not matter to the six joined fields: two runs that start from one table and receive
   the same inputs, in any order and cut into any batches, store the same ids with the same joins.
   */
  lemma ArrivalOrderIsIrrelevant(t: Table, one: seq<seq<Item>>, two: seq<seq<Item>>, id: string)
    requires forall x :: x in Flatten(one) <==> x in Flatten(two)
    requires forall x | x in Flatten(one) :: Normalised(x.severity)
    requires id in t ==> Normalised(t[id].severity)
    ensures id in ApplyBatches(t, one) <==> id in ApplyBatches(t, two)
    ensures id in ApplyBatches(t, one) ==> SameJoins(ApplyBatches(t, one)[id], ApplyBatches(t, two)[id])
  {
    hide Less, Rank, Merge, Bounds, Attained, SameJoins, Normalised, ApplyItems;
    BatchesAreFlat(t, one);
    BatchesAreFlat(t, two);
    StoredIsFold(t, Flatten(one), id);
    StoredIsFold(t, Flatten(two), id);
    SameInputs(t, Flatten(one), Flatten(two), id);
    HistoryMembers(Flatten(one), id);
    var a, b := HistoryFrom(t, Flatten(one), id), HistoryFrom(t, Flatten(two), id);
    if a != [] {
      forall x | x in a ensures Normalised(x.severity) {}
      forall x | x in b ensures Normalised(x.severity) { assert x in Inputs(a); }
      FoldIsJoin(a);
      FoldIsJoin(b);
      JoinIsUnique(Fold(a), Fold(b), Inputs(a));
    }
  }

  /** The normalised names, the gravest first. */
  const SEVERITIES: seq<string> := ["critical", "high", "medium", "low", "none", "unknown"]

  ghost predicate SomeoneSays(h: seq<Item>, name: string) { exists x :: x in h && x.severity == Some(name) }

  /** How the levels of a join follow the names. */
  lemma LevelsFollowNames(severity: Option<string>)
    requires Normalised(severity)
    ensures severity.None? <==> Level(severity) == 0
    ensures forall k | 0 <= k < 6 :: severity == Some(SEVERITIES[k]) <==> Level(severity) == 6 - k
  {
    forall k | 0 <= k < 6 ensures severity == Some(SEVERITIES[k]) <==> Level(severity) == 6 - k {
      NameHasLevel(k);
      if Level(severity) == 6 - k { LevelNames(severity, Some(SEVERITIES[k])); }
    }
  }

  lemma NameHasLevel(k: nat)
    requires k < 6
    ensures Normalised(Some(SEVERITIES[k])) && Level(Some(SEVERITIES[k])) == 6 - k
  {
  }

  /** The stored severity is the gravest name that any input gave, and null only if none gave one. */
  lemma StoredSeverityIsGravest(h: seq<Item>)
    requires h != [] && forall x | x in h :: Normalised(x.severity)
    ensures Fold(h).severity.None? <==> forall x | x in h :: x.severity.None?
    ensures forall k | 0 <= k < 6 ::
              Fold(h).severity == Some(SEVERITIES[k]) <==>
                SomeoneSays(h, SEVERITIES[k]) && forall j | 0 <= j < k :: !SomeoneSays(h, SEVERITIES[j])
  {
    FoldIsJoin(h);
    var s := Fold(h).severity;
    hide Fold, Level, Normalised, Rank;
    LevelsFollowNames(s);
    forall x | x in h ensures Level(x.severity) <= Level(s) && (x.severity.None? <==> Level(x.severity) == 0) {
      LevelsFollowNames(x.severity);
      assert x in Inputs(h);
    }
    var giver :| giver in Inputs(h) && giver.severity == s;
    assert giver in h;
    forall k | 0 <= k < 6
      ensures s == Some(SEVERITIES[k]) <==> SomeoneSays(h, SEVERITIES[k]) && forall j | 0 <= j < k :: !SomeoneSays(h, SEVERITIES[j])
    {
      GravestAmong(h, s, k);
    }
  }

  lemma GravestAmong(h: seq<Item>, s: Option<string>, k: nat)
    requires k < 6 && Normalised(s) && (forall x | x in h :: Normalised(x.severity) && Level(x.severity) <= Level(s))
    requires exists x :: x in h && x.severity == s
    ensures s == Some(SEVERITIES[k]) <==> SomeoneSays(h, SEVERITIES[k]) && forall j | 0 <= j < k :: !SomeoneSays(h, SEVERITIES[j])
  {
    hide Level, Normalised;
    LevelsFollowNames(s);
    LevelIsBounded(s);
    if Level(s) > 0 {
      assert s == Some(SEVERITIES[6 - Level(s)]);
      assert SomeoneSays(h, SEVERITIES[6 - Level(s)]);
    }
    if s == Some(SEVERITIES[k]) {
      forall j | 0 <= j < k ensures !SomeoneSays(h, SEVERITIES[j]) {
        forall x | x in h ensures x.severity != Some(SEVERITIES[j]) { LevelsFollowNames(x.severity); }
      }
    }
    if SomeoneSays(h, SEVERITIES[k]) && forall j | 0 <= j < k :: !SomeoneSays(h, SEVERITIES[j]) {
      var x :| x in h && x.severity == Some(SEVERITIES[k]);
      LevelsFollowNames(x.severity);
    }
  }

  lemma LevelIsBounded(s: Option<string>)
    ensures Level(s) <= 6
  {
  }

  // ---------------------------------------------------------------- last-known fields

  datatype Field = CveId | KevDateAdded | Remediation | DueDate | RansomwareUse | Vendor | Product | Severity

  function Read(f: Field, x: Item): Option<string> {
    match f
    case CveId => x.cveId
    case KevDateAdded => x.kevDateAdded
    case Remediation => x.remediation
    case DueDate => x.dueDate
    case RansomwareUse => x.ransomwareUse
    case Vendor => x.vendor
    case Product => x.product
    case Severity => x.severity
  }

  /** `v` is what the last input that knows the field says. */
  ghost predicate LastKnown(f: Field, v: Option<string>, h: seq<Item>) {
    if v.None? then forall i | 0 <= i < |h| :: Read(f, h[i]).None?
    else exists k :: 0 <= k < |h| && Read(f, h[k]) == v && forall j | k < j < |h| :: Read(f, h[j]).None?
  }

  lemma LastKnownOneMore(f: Field, v: Option<string>, h: seq<Item>, x: Item)
    requires LastKnown(f, v, h)
    ensures LastKnown(f, Coalesce(Read(f, x), v), h + [x])
  {
    hide Read;
    var all := h + [x];
    if Read(f, x).Some? {
      assert Read(f, all[|h|]) == Read(f, x);
    } else if v.Some? {
      var k :| 0 <= k < |h| && Read(f, h[k]) == v && forall j | k < j < |h| :: Read(f, h[j]).None?;
      assert Read(f, all[k]) == v;
    }
  }

  /** Each field merged by COALESCE holds the last non-null input. */
  lemma {:induction false} CoalescedIsLastKnown(f: Field, h: seq<Item>)
    requires h != [] && f != Severity
    ensures LastKnown(f, Read(f, Fold(h)), h)
  {
    if |h| == 1 {
      assert Read(f, h[0]) == Read(f, Fold(h));
    } else {
      var front, last := h[..|h| - 1], h[|h| - 1];
      CoalescedIsLastKnown(f, front);
      LastKnownOneMore(f, Read(f, Fold(front)), front, last);
      assert h == front + [last];
    }
  }

  // ---------------------------------------------------------------- provenance

  predicate SameProvenance(a: Item, b: Item) {
    && a.title == b.title
    && a.url == b.url
    && a.sourceId == b.sourceId
    && a.sourceName == b.sourceName
    && a.sourceRegion == b.sourceRegion
    && a.sourceLanguage == b.sourceLanguage
    && a.rawJson == b.rawJson
  }

  lemma MergeProvenance(was: Item, now: Item)
    ensures SameProvenance(Merge(was, now), if now.sourceTrust >= was.sourceTrust then now else was)
    ensures Merge(was, now).sourceTrust == Max(was.sourceTrust, now.sourceTrust)
  {
  }

  /** Input `k` is the last of those with the greatest trust. */
  ghost predicate LastMostTrusted(h: seq<Item>, k: nat) {
    && k < |h|
    && (forall j | 0 <= j < k :: h[j].sourceTrust <= h[k].sourceTrust)
    && (forall j | k < j < |h| :: h[j].sourceTrust < h[k].sourceTrust)
  }

  /** The provenance of a stored item comes whole from the last of its most trusted inputs. */
  lemma {:induction false} ProvenanceIsWhole(h: seq<Item>) returns (k: nat)
    requires h != []
    ensures LastMostTrusted(h, k)
    ensures SameProvenance(Fold(h), h[k]) && Fold(h).sourceTrust == h[k].sourceTrust
  {
    hide Merge;
    if |h| == 1 {
      k := 0;
    } else {
      k := ProvenanceIsWhole(h[..|h| - 1]);
      MergeProvenance(Fold(h[..|h| - 1]), h[|h| - 1]);
      if h[|h| - 1].sourceTrust >= h[k].sourceTrust {
        k := |h| - 1;
      }
    }
  }

  /** Input `k` was at least as trusted as all before it. */
  predicate RisesTo(h: seq<Item>, k: nat) {
    k < |h| && forall j | 0 <= j < k :: h[j].sourceTrust <= h[k].sourceTrust
  }

  lemma RisesAtEnd(h: seq<Item>, m: nat)
    requires |h| > 1 && LastMostTrusted(h[..|h| - 1], m)
    ensures RisesTo(h, |h| - 1) <==> h[|h| - 1].sourceTrust >= h[m].sourceTrust
    ensures forall j | 0 <= j < |h| - 1 :: RisesTo(h, j) <==> RisesTo(h[..|h| - 1], j)
  {
    var front := h[..|h| - 1];
    assert forall j | 0 <= j < |front| :: front[j] == h[j];
  }

  /** The summary is that of the last input that was trusted when it came and had one, or of the first. */
  lemma {:induction false} SummaryOrigin(h: seq<Item>) returns (k: nat)
    requires h != []
    ensures RisesTo(h, k) && (k == 0 || h[k].summary != "") && Fold(h).summary == h[k].summary
    ensures forall j | k < j < |h| && RisesTo(h, j) :: h[j].summary == ""
  {
    hide Merge, SameProvenance;
    if |h| == 1 {
      k := 0;
    } else {
      var front, last := h[..|h| - 1], h[|h| - 1];
      k := SummaryOrigin(front);
      var m := ProvenanceIsWhole(front);
      MergeSummary(Fold(front), last);
      RisesAtEnd(h, m);
      assert k < |front| && m < |front| by { hide Fold; }
      hide RisesTo;
      if last.sourceTrust >= Fold(front).sourceTrust && last.summary != "" {
        k := |h| - 1;
      }
    }
  }

  lemma MergeSummary(was: Item, now: Item)
    ensures Merge(was, now).summary
         == if now.sourceTrust >= was.sourceTrust && now.summary != "" then now.summary else was.summary
  {
  }

  /** The remaining fields, and the links rewritten with them, are those of the last input. */
  lemma LatestFields(h: seq<Item>)
    requires h != []
    ensures var s, x := Fold(h), h[|h| - 1];
            && s.kind == x.kind && s.ingestedAt == x.ingestedAt && s.contentHash == x.contentHash
            && s.categories == x.categories && s.cves == x.cves
  {
    if |h| > 1 {
      assert Fold(h) == Merge(Fold(h[..|h| - 1]), h[|h| - 1]);
    }
  }

  // ---------------------------------------------------------------- severities of any text

  ghost predicate AnyRanked(h: seq<Item>) { exists x :: x in h && Rank(x.severity) > 0 }

  ghost predicate OneText(h: seq<Item>) {
    forall x, y | x in h && y in h && x.severity.Some? && y.severity.Some? :: x.severity == y.severity
  }

  lemma RankNames(a: Option<string>, b: Option<string>)
    requires Rank(a) == Rank(b) > 0
    ensures a == b
  {
  }

  lemma MergeRank(was: Item, now: Item)
    ensures Rank(Merge(was, now).severity) == Max(Rank(was.severity), Rank(now.severity))
  {
  }

  lemma {:induction false} RankedSeverity(h: seq<Item>)
    requires h != []
    ensures forall x | x in h :: Rank(x.severity) <= Rank(Fold(h).severity)
    ensures exists x :: x in h && Rank(x.severity) == Rank(Fold(h).severity)
  {
    hide Merge, Rank;
    if |h| == 1 {
      assert h[0] in h;
    } else {
      var front, last := h[..|h| - 1], h[|h| - 1];
      RankedSeverity(front);
      MergeRank(Fold(front), last);
      var x :| x in front && Rank(x.severity) == Rank(Fold(front).severity);
      assert h == front + [last];
      assert x in h && last in h;
    }
  }

  lemma {:induction false} UnrankedSeverity(h: seq<Item>)
    requires h != [] && !AnyRanked(h)
    ensures LastKnown(Severity, Fold(h).severity, h) && Rank(Fold(h).severity) == 0
  {
    assert h[0] in h;
    if |h| > 1 {
      var front, last := h[..|h| - 1], h[|h| - 1];
      assert h == front + [last];
      assert last in h;
      forall x | x in front ensures Rank(x.severity) == 0 { assert x in h; }
      UnrankedSeverity(front);
      LastKnownOneMore(Severity, Fold(front).severity, front, last);
    }
  }

  function MoveLast(h: seq<Item>, i: nat): seq<Item>
    requires i < |h|
  {
    h[..i] + h[i + 1..] + [h[i]]
  }

  lemma MoveLastPermutes(h: seq<Item>, i: nat)
    requires i < |h|
    ensures multiset(MoveLast(h, i)) == multiset(h)
  {
    assert h == h[..i] + [h[i]] + h[i + 1..];
  }

  lemma SameMembers(a: seq<Item>, b: seq<Item>)
    requires multiset(a) == multiset(b)
    ensures forall x :: x in a <==> x in b
  {
    forall x ensures x in a <==> x in b {
      assert x in a <==> x in multiset(a);
    }
  }

  lemma LastTextWins(h: seq<Item>, i: nat)
    requires i < |h| && !AnyRanked(h) && h[i].severity.Some?
    ensures Fold(MoveLast(h, i)).severity == h[i].severity && multiset(MoveLast(h, i)) == multiset(h)
  {
    var m := MoveLast(h, i);
    MoveLastPermutes(h, i);
    SameMembers(m, h);
    UnrankedSeverity(m);
    assert m[|m| - 1] == h[i];
  }

  lemma SettledSeverity(a: seq<Item>, b: seq<Item>)
    requires a != [] && multiset(a) == multiset(b) && (AnyRanked(a) || OneText(a))
    ensures b != [] && Fold(a).severity == Fold(b).severity
  {
    SameMembers(a, b);
    assert a[0] in b;
    if AnyRanked(a) {
      RankedSeverity(a);
      RankedSeverity(b);
      RankNames(Fold(a).severity, Fold(b).severity);
    } else {
      UnrankedSeverity(a);
      UnrankedSeverity(b);
      UnrankedAgree(a, b);
    }
  }

  lemma UnrankedAgree(a: seq<Item>, b: seq<Item>)
    requires a != [] && b != [] && OneText(a) && forall x :: x in a <==> x in b
    requires LastKnown(Severity, Fold(a).severity, a)
    requires LastKnown(Severity, Fold(b).severity, b)
    ensures Fold(a).severity == Fold(b).severity
  {
    var u, v := Fold(a).severity, Fold(b).severity;
    if u.Some? {
      var k :| 0 <= k < |a| && a[k].severity == u;
      assert a[k] in b;
    }
    if v.Some? {
      var k :| 0 <= k < |b| && b[k].severity == v;
      assert b[k] in a;
    }
  }

  /** Among normalised severities the only unranked text is "unknown", so the condition below always holds. */
  lemma NormalisedAreSettled(h: seq<Item>)
    requires forall x | x in h :: Normalised(x.severity)
    ensures AnyRanked(h) || OneText(h)
  {
    if !AnyRanked(h) {
      forall x, y | x in h && y in h && x.severity.Some? && y.severity.Some? ensures x.severity == y.severity {
        assert Rank(x.severity) == 0 && Rank(y.severity) == 0;
      }
    }
  }

  /**
   For severities of any text the stored one is independent of order exactly when some input has a rank
   or all the unranked texts agree.
   */
  lemma SeverityOrderExactly(h: seq<Item>)
    requires h != []
    ensures (forall p: seq<Item> | p != [] && multiset(p) == multiset(h) :: Fold(p).severity == Fold(h).severity)
            <==> AnyRanked(h) || OneText(h)
  {
    hide Fold, Rank;
    if AnyRanked(h) || OneText(h) {
      forall p: seq<Item> | p != [] && multiset(p) == multiset(h) ensures Fold(p).severity == Fold(h).severity {
        SettledSeverity(h, p);
      }
    } else {
      var x, y :| x in h && y in h && x.severity.Some? && y.severity.Some? && x.severity != y.severity;
      var i :| 0 <= i < |h| && h[i] == x;
      var j :| 0 <= j < |h| && h[j] == y;
      LastTextWins(h, i);
      LastTextWins(h, j);
      assert Fold(MoveLast(h, i)).severity != Fold(MoveLast(h, j)).severity;
    }
  }
}

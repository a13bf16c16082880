/** The validation stage of a refresh (src/ingest/validate.rs, run): one turn of the rotation. */
module CrossValidation {
  import opened Wrappers
  import opened TextOrder
  import opened Tables
  import opened Store
  import Rotation
  import Evidence

  /** What the CVE Program answers for one CVE: a record in some state, nothing, or an error. */
  datatype Canonical = Found(status: Option<string>) | Absent | FetchFailed

  /** The evidence made of the answer. */
  function CanonicalRecord(cve: string, status: Option<string>): Evidence.Record {
    Evidence.Record(cve, Evidence.CANONICAL, CANONICAL_RECORD, status, None, None, None, true)
  }

  /** The world of one validation stage: the CVE Program, EPSS (None if it fails), readable evidence, and the clock per CVE. */
  datatype World = World(
    canonical: string -> Canonical,
    epss: Option<map<string, Evidence.Epss>>,
    readable: string -> bool,
    clock: string -> string)

  /** Every stamp of this stage is later than any stored one. */
  ghost predicate ClockIsAhead(w: World, validations: Validations) {
    forall c, y | y in validations :: Less(validations[y].calculatedAt, w.clock(c))
  }

  /** The CVEs of a batch whose evidence can be read. */
  ghost function Readable(ids: seq<string>, w: World): set<string> { set c | c in ids && w.readable(c) }

  function EpssOf(w: World, cve: string): Option<Evidence.Epss> {
    if w.epss.Some? && cve in w.epss.value then Some(w.epss.value[cve]) else None
  }

  /** What the stage reports: the CVEs validated and the warnings. */
  datatype Summary = Summary(validated: nat, warnings: nat)

  function Count(ids: seq<string>, p: string -> bool): nat {
    if ids == [] then 0 else Count(ids[..|ids| - 1], p) + if p(ids[|ids| - 1]) then 1 else 0
  }

  /** Every readable CVE is counted, and every failed fetch or read leaves one warning. */
  function SummaryOf(ids: seq<string>, w: World): Summary {
    if ids == [] then Summary(0, 0) else
      var validated := Count(ids, w.readable);
      Summary(validated, Count(ids, c => w.canonical(c).FetchFailed?) + (if w.epss.None? then 1 else 0) + Count(ids, c => !w.readable(c)))
  }

  /** `v` aggregates the whole evidence about its CVE, with its EPSS score, stamped by the clock. */
  ghost predicate Aggregates(v: Evidence.Validation, evidence: EvidenceTable, norm: string -> Option<string>, w: World) {
    exists records :: AllAbout(records, evidence, v.cveId)
      && v == Evidence.Calculate(norm, v.cveId, records, EpssOf(w, v.cveId), w.clock(v.cveId))
  }

  /** `inputs` holds one validation for each readable CVE of `ids`, and no others. */
  ghost predicate Computed(inputs: seq<Evidence.Validation>, ids: seq<string>, evidence: EvidenceTable, norm: string -> Option<string>, w: World) {
    && (forall k | 0 <= k < |inputs| :: inputs[k].cveId in Readable(ids, w) && Aggregates(inputs[k], evidence, norm, w))
    && (forall c | c in Readable(ids, w) :: exists k :: 0 <= k < |inputs| && inputs[k].cveId == c)
  }

  /** `r` is the record that the fetch for `cve` brought back. */
  predicate IsFetched(r: Evidence.Record, cve: string, w: World) {
    w.canonical(cve).Found? && r == CanonicalRecord(cve, w.canonical(cve).status)
  }

  /** The records of the CVE Program that the fetches for the CVEs of `ids` brought back. */
  ghost predicate Fetched(records: seq<Evidence.Record>, ids: seq<string>, w: World) {
    forall r :: r in records <==> exists k :: 0 <= k < |ids| && IsFetched(r, ids[k], w)
  }

  lemma FetchedOneMore(records: seq<Evidence.Record>, ids: seq<string>, cve: string, next: seq<Evidence.Record>, w: World)
    requires Fetched(records, ids, w)
    requires next == if w.canonical(cve).Found? then [CanonicalRecord(cve, w.canonical(cve).status)] else []
    ensures Fetched(records + next, ids + [cve], w)
  {
    var all := ids + [cve];
    forall r ensures r in records + next <==> exists k :: 0 <= k < |all| && IsFetched(r, all[k], w) {
      if r in next { assert IsFetched(r, all[|ids|], w); }
      if k :| 0 <= k < |ids| && IsFetched(r, ids[k], w) { assert IsFetched(r, all[k], w); }
      assert r in records + next <==> r in records || r in next;
    }
  }

  /** In a table of the usual kind no other enumeration of the evidence gives another validation. */
  lemma AggregateIsUnique(v: Evidence.Validation, evidence: EvidenceTable, norm: string -> Option<string>, w: World, records: seq<Evidence.Record>)
    requires Aggregates(v, evidence, norm, w) && WellKeyedEvidence(evidence) && CanonicalKind(evidence)
    requires AllAbout(records, evidence, v.cveId)
    ensures v == Evidence.Calculate(norm, v.cveId, records, EpssOf(w, v.cveId), w.clock(v.cveId))
  {
    hide Evidence.Calculate, AllAbout, WellKeyedEvidence, CanonicalKind;
    var stored :| AllAbout(stored, evidence, v.cveId)
               && v == Evidence.Calculate(norm, v.cveId, stored, EpssOf(w, v.cveId), w.clock(v.cveId));
    StoredOrderIsIrrelevant(evidence, norm, v.cveId, stored, records, EpssOf(w, v.cveId), w.clock(v.cveId));
  }

  /** The stage stores records of the CVE Program in their one kind. */
  lemma StageKeepsCanonicalKind(evidence: EvidenceTable, records: seq<Evidence.Record>, ids: seq<string>, w: World)
    requires Fetched(records, ids, w) && CanonicalKind(evidence)
    ensures CanonicalKind(ApplyEvidence(evidence, records))
  {
    forall r | r in records ensures IsCanonicalKind(r) {
      var k :| 0 <= k < |ids| && IsFetched(r, ids[k], w);
    }
    CanonicalKindStays(evidence, records);
  }

  /** After the stage every readable CVE has a validation of its whole evidence, and every other CVE the one it had. */
  ghost predicate Validated(was: Validations, now: Validations, ids: seq<string>, evidence: EvidenceTable, norm: string -> Option<string>, w: World) {
    && now.Keys == was.Keys + Readable(ids, w)
    && (forall c | c in now && c !in Readable(ids, w) :: c in was && now[c] == was[c])
    && (forall c | c in now && c in Readable(ids, w) :: now[c].cveId == c && Aggregates(now[c], evidence, norm, w))
  }

  lemma StoringValidates(was: Validations, inputs: seq<Evidence.Validation>, ids: seq<string>,
                         evidence: EvidenceTable, norm: string -> Option<string>, w: World)
    requires Computed(inputs, ids, evidence, norm, w)
    ensures Validated(was, ApplyValidations(was, inputs), ids, evidence, norm, w)
  {
    hide Aggregates, ApplyValidations;
    var now := ApplyValidations(was, inputs);
    hide Readable;
    forall c
      ensures c in now <==> c in was || c in Readable(ids, w)
      ensures c in now && c !in Readable(ids, w) ==> c in was && now[c] == was[c]
      ensures c in now && c in Readable(ids, w) ==> now[c].cveId == c && Aggregates(now[c], evidence, norm, w)
    {
      ValidationApplied(was, inputs, c);
    }
  }

  /** Under a clock that is ahead, what was validated is a refresh of the rotation. */
  lemma ValidatedRefreshes(was: Validations, now: Validations, ids: seq<string>, evidence: EvidenceTable, norm: string -> Option<string>, w: World)
    requires Validated(was, now, ids, evidence, norm, w) && ClockIsAhead(w, was)
    ensures Rotation.Refreshes(CalculatedAt(was), Readable(ids, w), CalculatedAt(now))
  {
    hide AllAbout, Evidence.Canonical, Evidence.ScoreRange, Evidence.Sources, Evidence.Authorities, Evidence.Severities, Evidence.Grade, Less;
    forall c | c in Readable(ids, w) ensures now[c].calculatedAt == w.clock(c) {
      assert Aggregates(now[c], evidence, norm, w);
    }
  }

  // ---------------------------------------------------------------- what the answers of the CVE Program do

  /** What is stored of the CVE Program about `c` is its answer, if it gave one, and else what was stored before. */
  ghost predicate StoresAnswer(was: EvidenceTable, now: EvidenceTable, c: string, answer: Canonical) {
    var k := EvidenceKey(c, "cve-program", "canonical-record");
    if answer.Found?
    then k in now && now[k] == Evidence.Record(c, "cve-program", "canonical-record", answer.status, None, None, None, true)
    else (k in now <==> k in was) && (k in was ==> now[k] == was[k])
  }

  lemma AnswersAreStored(was: EvidenceTable, records: seq<Evidence.Record>, ids: seq<string>, w: World, c: string)
    requires Fetched(records, ids, w) && c in ids
    ensures StoresAnswer(was, ApplyEvidence(was, records), c, w.canonical(c))
  {
    var k := EvidenceKey(c, "cve-program", "canonical-record");
    RecordApplied(was, records, k);
    if w.canonical(c).Found? {
      var r := CanonicalRecord(c, w.canonical(c).status);
      var n :| 0 <= n < |ids| && ids[n] == c;
      assert IsFetched(r, ids[n], w);
      assert r in records;
      var i :| 0 <= i < |records| && records[i] == r;
      assert HasKey(records[i], k);
    }
    forall i | 0 <= i < |records| && HasKey(records[i], k) ensures IsFetched(records[i], c, w) {
      assert records[i] in records;
      var n :| 0 <= n < |ids| && IsFetched(records[i], ids[n], w);
    }
  }

  /** Evidence of other sources, and about other CVEs, stays. */
  lemma OthersAreKept(was: EvidenceTable, records: seq<Evidence.Record>, ids: seq<string>, w: World, k: EvidenceKey)
    requires Fetched(records, ids, w) && (k.sourceId != "cve-program" || k.cveId !in ids)
    ensures var now := ApplyEvidence(was, records);
            (k in now <==> k in was) && (k in was ==> now[k] == was[k])
  {
    RecordApplied(was, records, k);
    forall i | 0 <= i < |records| ensures !HasKey(records[i], k) {
      assert records[i] in records;
      var n :| 0 <= n < |ids| && IsFetched(records[i], ids[n], w);
    }
  }

  /** The canonical status of an aggregate is that of the one stored record of the CVE Program. */
  lemma AggregateFollowsRecord(v: Evidence.Validation, evidence: EvidenceTable, norm: string -> Option<string>, w: World)
    requires Aggregates(v, evidence, norm, w) && WellKeyedEvidence(evidence) && CanonicalKind(evidence)
    ensures var k := EvidenceKey(v.cveId, "cve-program", "canonical-record");
            && (v.missingCanonical <==> k !in evidence)
            && v.canonicalStatus == (if k in evidence then evidence[k].status else None)
    ensures v.confidence == Evidence.Rejected <==> Evidence.SaysRejected(v.canonicalStatus)
  {
    hide Evidence.Sources, Evidence.Authorities, Evidence.Severities, Evidence.ScoreRange, Evidence.Canonical, Evidence.SaysRejected,
         Evidence.TwoAuthorities, Evidence.ThreeSources, Evidence.OneAuthority, Evidence.TwoSources, Evidence.Grade;
    var k := EvidenceKey(v.cveId, "cve-program", "canonical-record");
    var records :| AllAbout(records, evidence, v.cveId)
                && v == Evidence.Calculate(norm, v.cveId, records, EpssOf(w, v.cveId), w.clock(v.cveId));
    Evidence.GradesMean(norm, v.cveId, records, EpssOf(w, v.cveId), w.clock(v.cveId));
    Evidence.CanonicalIsThere(records);
    if k in evidence {
      assert evidence[k] in records;
      assert evidence[k].sourceId == "cve-program";
    }
    forall r: Evidence.Record | r in records && r.sourceId == "cve-program" ensures k in evidence && r == evidence[k] {
      var j :| j in evidence && j.cveId == v.cveId && evidence[j] == r;
      assert IsCanonicalKind(evidence[j]);
      assert j == k;
    }
  }

  /**
   The new validation of `c`: its status is the one the CVE Program answered, or else the one stored before, a
   status that says rejected rejects it whatever else is known, and score and stamp are those of the stage.
   */
  ghost predicate FollowsAnswer(was: EvidenceTable, v: Evidence.Validation, c: string, w: World) {
    var k := EvidenceKey(c, "cve-program", "canonical-record");
    && v.cveId == c
    && (w.canonical(c).Found? ==> v.canonicalStatus == w.canonical(c).status && !v.missingCanonical)
    && (!w.canonical(c).Found? ==>
          && v.missingCanonical == (k !in was)
          && v.canonicalStatus == if k in was then was[k].status else None)
    && (v.confidence == Evidence.Rejected <==> Evidence.SaysRejected(v.canonicalStatus))
    && (if w.epss.Some? && c in w.epss.value then v.epss == Some(w.epss.value[c]) else v.epss == None)
    && v.calculatedAt == w.clock(c)
  }

  /** Every readable CVE of the batch has a validation that follows the answer about it; other evidence stays. */
  ghost predicate AnswersDecide(was: EvidenceTable, now: EvidenceTable, validations: Validations, ids: seq<string>, w: World) {
    && (forall c | c in ids :: StoresAnswer(was, now, c, w.canonical(c)))
    && (forall k: EvidenceKey | k.sourceId != "cve-program" || k.cveId !in ids ::
          (k in now <==> k in was) && (k in was ==> now[k] == was[k]))
    && (forall c | c in ids && w.readable(c) :: c in validations && FollowsAnswer(was, validations[c], c, w))
  }

  lemma AnswersReachValidations(was: EvidenceTable, records: seq<Evidence.Record>, before: Validations, validations: Validations,
                                ids: seq<string>, norm: string -> Option<string>, w: World)
    requires Fetched(records, ids, w) && CanonicalKind(was) && WellKeyedEvidence(was)
    requires Validated(before, validations, ids, ApplyEvidence(was, records), norm, w)
    ensures AnswersDecide(was, ApplyEvidence(was, records), validations, ids, w)
  {
    hide Aggregates, Fetched, StoresAnswer, CanonicalKind, WellKeyedEvidence, ApplyEvidence, FollowsAnswer;
    var now := ApplyEvidence(was, records);
    EvidenceStaysWellKeyed(was, records);
    StageKeepsCanonicalKind(was, records, ids, w);
    forall c | c in ids ensures StoresAnswer(was, now, c, w.canonical(c)) {
      AnswersAreStored(was, records, ids, w, c);
    }
    forall k: EvidenceKey | k.sourceId != "cve-program" || k.cveId !in ids
      ensures (k in now <==> k in was) && (k in was ==> now[k] == was[k])
    {
      OthersAreKept(was, records, ids, w, k);
    }
    forall c | c in ids && w.readable(c) ensures c in validations && FollowsAnswer(was, validations[c], c, w) {
      assert c in Readable(ids, w);
      AnswerReaches(was, now, validations[c], c, norm, w);
    }
  }

  lemma AnswerReaches(was: EvidenceTable, now: EvidenceTable, v: Evidence.Validation, c: string, norm: string -> Option<string>, w: World)
    requires v.cveId == c && Aggregates(v, now, norm, w) && WellKeyedEvidence(now) && CanonicalKind(now)
    requires StoresAnswer(was, now, c, w.canonical(c))
    ensures FollowsAnswer(was, v, c, w)
  {
    hide AllAbout, CanonicalKind, WellKeyedEvidence, Evidence.SaysRejected;
    hide Evidence.Sources, Evidence.Authorities, Evidence.Severities, Evidence.ScoreRange, Evidence.Canonical, Evidence.Grade;
    AggregateFollowsRecord(v, now, norm, w);
  }

  ghost function Those(ids: seq<string>, p: string -> bool): set<string> { set c | c in ids && p(c) }

  lemma OneMoreOfThose(front: seq<string>, last: string, p: string -> bool)
    ensures Those(front + [last], p) == Those(front, p) + if p(last) then {last} else {}
    ensures Members(front + [last]) == Members(front) + {last}
  {
  }

  lemma {:induction false} CountIsSize(ids: seq<string>, p: string -> bool)
    requires |Members(ids)| == |ids|
    ensures Count(ids, p) == |Those(ids, p)|
  {
    if ids == [] {
    } else {
      var front, last := ids[..|ids| - 1], ids[|ids| - 1];
      assert ids == front + [last];
      OneMoreOfThose(front, last, p);
      AtMostAsMany(front);
      assert last !in Members(front);
      CountIsSize(front, p);
    }
  }

  /** What the counts of a batch say of its CVEs. */
  lemma SummaryMeans(ids: seq<string>, w: World)
    requires |Members(ids)| == |ids|
    ensures var s := SummaryOf(ids, w);
            && s.validated == |set c | c in ids && w.readable(c)|
            && (w.epss.Some? || ids == [] ==>
                  s.warnings == |set c | c in ids && w.canonical(c) == FetchFailed| + |set c | c in ids && !w.readable(c)|)
            && (w.epss.None? && ids != [] ==>
                  s.warnings == |set c | c in ids && w.canonical(c) == FetchFailed| + |set c | c in ids && !w.readable(c)| + 1)
  {
    CountIsSize(ids, w.readable);
    assert (set c | c in ids && w.readable(c)) == Those(ids, w.readable);
    var failed := c => w.canonical(c).FetchFailed?;
    var unread := c => !w.readable(c);
    CountIsSize(ids, failed);
    CountIsSize(ids, unread);
    assert (set c | c in ids && w.canonical(c) == FetchFailed) == Those(ids, failed);
    assert (set c | c in ids && !w.readable(c)) == Those(ids, unread);
    assert Count(ids, failed) == Count(ids, c => w.canonical(c).FetchFailed?);
    assert Count(ids, unread) == Count(ids, c => !w.readable(c));
  }

  // ---------------------------------------------------------------- the stage

  method CollectCanonical(ids: seq<string>, w: World) returns (records: seq<Evidence.Record>, warnings: nat)
    ensures Fetched(records, ids, w) && warnings == Count(ids, c => w.canonical(c).FetchFailed?)
  {
    records, warnings := [], 0;
    for n := 0 to |ids|
      invariant warnings == Count(ids[..n], c => w.canonical(c).FetchFailed?)
      invariant Fetched(records, ids[..n], w)
    {
      assert ids[..n + 1] == ids[..n] + [ids[n]] && ids[..n + 1][..n] == ids[..n];
      var answer := w.canonical(ids[n]);
      match answer {
        case Found(status) =>
          FetchedOneMore(records, ids[..n], ids[n], [CanonicalRecord(ids[n], status)], w);
          records := records + [CanonicalRecord(ids[n], status)];
        case Absent =>
          FetchedOneMore(records, ids[..n], ids[n], [], w);
          assert records + [] == records;
        case FetchFailed =>
          FetchedOneMore(records, ids[..n], ids[n], [], w);
          assert records + [] == records;
          warnings := warnings + 1;
      }
    }
    assert ids[..|ids|] == ids;
  }

  /** The validation of one CVE from the table. */
  method CalculateOne(repository: Repository, norm: string -> Option<string>, cve: string, w: World) returns (v: Evidence.Validation)
    ensures v.cveId == cve && Aggregates(v, repository.evidence, norm, w)
  {
    var records := repository.GetEvidence(cve);
    assert AllAbout(records, repository.evidence, cve);
    v := Evidence.Calculate(norm, cve, records, EpssOf(w, cve), w.clock(cve));
  }

  lemma ComputedOneMore(inputs: seq<Evidence.Validation>, next: seq<Evidence.Validation>, front: seq<string>, cve: string,
                        evidence: EvidenceTable, norm: string -> Option<string>, w: World)
    requires Computed(inputs, front, evidence, norm, w)
    requires if w.readable(cve) then |next| == 1 && next[0].cveId == cve && Aggregates(next[0], evidence, norm, w) else next == []
    ensures Computed(inputs + next, front + [cve], evidence, norm, w)
  {
    hide Aggregates;
    assert Readable(front + [cve], w) == Readable(front, w) + if w.readable(cve) then {cve} else {};
    var more := inputs + next;
    assert forall k | 0 <= k < |inputs| :: more[k] == inputs[k];
    assert w.readable(cve) ==> more[|inputs|] == next[0];
  }

  /** The validations of a batch, in any order that the reads finish in. */
  method CalculateAll(repository: Repository, norm: string -> Option<string>, ids: seq<string>, w: World)
    returns (inputs: seq<Evidence.Validation>, warnings: nat)
    ensures |inputs| == Count(ids, w.readable) && warnings == Count(ids, c => !w.readable(c))
    ensures Computed(inputs, ids, repository.evidence, norm, w)
  {
    inputs, warnings := [], 0;
    for n := 0 to |ids|
      invariant |inputs| == Count(ids[..n], w.readable) && warnings == Count(ids[..n], c => !w.readable(c))
      invariant Computed(inputs, ids[..n], repository.evidence, norm, w)
    {
      inputs, warnings := CalculateNext(repository, norm, ids[..n], ids[n], w, inputs, warnings);
      assert ids[..n + 1] == ids[..n] + [ids[n]];
    }
    assert ids[..|ids|] == ids;
  }

  /** One turn of the loop: a validation, or a warning when the evidence cannot be read. */
  method CalculateNext(repository: Repository, norm: string -> Option<string>, ghost front: seq<string>, cve: string, w: World,
                       inputs: seq<Evidence.Validation>, warnings: nat)
    returns (more: seq<Evidence.Validation>, warned: nat)
    requires |inputs| == Count(front, w.readable) && warnings == Count(front, c => !w.readable(c))
    requires Computed(inputs, front, repository.evidence, norm, w)
    ensures |more| == Count(front + [cve], w.readable) && warned == Count(front + [cve], c => !w.readable(c))
    ensures Computed(more, front + [cve], repository.evidence, norm, w)
  {
    hide Computed, Aggregates;
    assert (front + [cve])[..|front|] == front;
    more, warned := inputs, warnings;
    if w.readable(cve) {
      var v := CalculateOne(repository, norm, cve, w);
      more := inputs + [v];
      ComputedOneMore(inputs, [v], front, cve, repository.evidence, norm, w);
    } else {
      ComputedOneMore(inputs, [], front, cve, repository.evidence, norm, w);
      assert inputs + [] == inputs;
      warned := warnings + 1;
    }
  }

  /** Which transactions of the stage reach the disk. */
  datatype Disk = Disk(evidence: bool, validations: bool)

  /** The canonical records of the batch are fetched and stored. */
  method StoreCanonical(repository: Repository, ids: seq<string>, w: World, disk: Disk)
    returns (r: Result<nat, DbError>, ghost fetched: seq<Evidence.Record>)
    requires repository.Valid()
    modifies repository`evidence
    ensures repository.Valid() && Fetched(fetched, ids, w)
    ensures CanonicalKind(old(repository.evidence)) ==> CanonicalKind(repository.evidence)
    ensures disk.evidence ==> r.Ok?
    ensures r.Ok? ==>
              && r.value == Count(ids, c => w.canonical(c).FetchFailed?)
              && repository.evidence == ApplyEvidence(old(repository.evidence), fetched)
    ensures disk.evidence || repository.evidence == old(repository.evidence)
  {
    hide Fetched, Count, CanonicalKind, WellKeyed, WellKeyedEvidence, ApplyEvidence;
    NothingToStore(repository.evidence);
    var records, missed := CollectCanonical(ids, w);
    fetched := records;
    if CanonicalKind(repository.evidence) {
      StageKeepsCanonicalKind(repository.evidence, records, ids, w);
    }
    var stored := repository.UpsertEvidence(records, disk.evidence);
    r := if stored.Ok? then Ok(missed) else Err(stored.error);
  }

  /** The CVEs of the batch are validated against what is stored. */
  method StoreValidations(repository: Repository, norm: string -> Option<string>, ids: seq<string>, w: World, disk: Disk)
    returns (r: Result<nat, DbError>, warnings: nat)
    modifies repository`validations
    ensures disk.validations ==> r.Ok?
    ensures r.Ok? ==>
              && r.value == Count(ids, w.readable) && warnings == Count(ids, c => !w.readable(c))
              && Validated(old(repository.validations), repository.validations, ids, repository.evidence, norm, w)
              && (ClockIsAhead(w, old(repository.validations)) ==>
                    Rotation.Refreshes(CalculatedAt(old(repository.validations)), Readable(ids, w), CalculatedAt(repository.validations)))
    ensures r.Err? ==> repository.validations == old(repository.validations)
  {
    hide Count, Computed, Validated, ClockIsAhead, Rotation.Refreshes, CalculatedAt, Readable, ApplyValidations, Evidence.Calculate;
    ghost var was := repository.validations;
    var inputs, unread := CalculateAll(repository, norm, ids, w);
    warnings := unread;
    var saved := repository.UpsertValidations(inputs, disk.validations);
    if saved.Ok? {
      StoringValidates(was, inputs, ids, repository.evidence, norm, w);
      if ClockIsAhead(w, was) {
        ValidatedRefreshes(was, repository.validations, ids, repository.evidence, norm, w);
      }
    }
    r := if saved.Ok? then Ok(|inputs|) else Err(saved.error);
  }

  /**
   One validation stage.  It takes a batch of the rotation, stores what the CVE Program says of it, and
   validates each CVE of the batch whose evidence can be read against all its evidence; that is one
   refresh, which is what the fairness of the rotation rests on.
   */
  method Run(repository: Repository, limit: nat, norm: string -> Option<string>, w: World, disk: Disk)
    returns (r: Result<Summary, DbError>, ids: seq<string>, ghost fetched: seq<Evidence.Record>)
    requires repository.Valid()
    modifies repository`evidence, repository`validations
    ensures repository.Valid()
    ensures CanonicalKind(old(repository.evidence)) ==> CanonicalKind(repository.evidence)
    ensures r.Ok? && OneRowEach(repository.items) && ClockIsAhead(w, old(repository.validations)) ==>
              Rotation.Refresh(CalculatedAt(old(repository.validations)), Members(ids), Readable(ids, w),
                               CalculatedAt(repository.validations), CvesOf(repository.items), limit)
    ensures r.Ok? ==>
              && Fetched(fetched, ids, w) && repository.evidence == ApplyEvidence(old(repository.evidence), fetched)
              && Validated(old(repository.validations), repository.validations, ids, repository.evidence, norm, w)
    ensures r.Ok? && CanonicalKind(old(repository.evidence)) ==>
              AnswersDecide(old(repository.evidence), repository.evidence, repository.validations, ids, w)
    ensures disk.evidence && disk.validations ==> r.Ok?
    ensures r.Ok? ==> r.value == SummaryOf(ids, w)
    ensures r.Err? ==>
              && repository.validations == old(repository.validations)
              && (disk.evidence || repository.evidence == old(repository.evidence))
  {
    hide Rotation.IsBatch, Rotation.Refreshes, Rotation.Refresh, Validated, Fetched, Count, CanonicalKind, SelectedRows, ReadsIds, WellKeyed,
         WellKeyedEvidence, ApplyEvidence, Members, Readable, CvesOf, CalculatedAt, AllRows, OneRowEach, ClockIsAhead, AnswersDecide;
    ghost var rows, rest;
    ghost var was, stood := repository.evidence, repository.validations;
    ids, rows, rest := repository.CveIdsForValidation(limit);
    NothingToStore(repository.evidence);
    NothingToDo(repository.validations, repository.evidence, norm, w);
    ghost var before := CalculatedAt(repository.validations);
    if ids == [] {
      TurnIsRefresh(before, ids, w, before, CvesOf(repository.items), limit);
      if CanonicalKind(was) { AnswersReachValidations(was, [], stood, stood, ids, norm, w); }
      return Ok(Summary(0, 0)), ids, [];
    }
    var missed;
    missed, fetched := StoreCanonical(repository, ids, w, disk);
    if missed.Err? {
      return Err(missed.error), ids, fetched;
    }
    var validated, unread := StoreValidations(repository, norm, ids, w, disk);
    if validated.Err? {
      return Err(validated.error), ids, fetched;
    }
    TurnIsRefresh(before, ids, w, CalculatedAt(repository.validations), CvesOf(repository.items), limit);
    if CanonicalKind(was) { AnswersReachValidations(was, fetched, stood, repository.validations, ids, norm, w); }
    return Ok(Summary(validated.value, missed.value + (if w.epss.None? then 1 else 0) + unread)), ids, fetched;
  }

  lemma TurnIsRefresh(c: Rotation.Calculated, ids: seq<string>, w: World, d: Rotation.Calculated, cves: set<string>, limit: nat)
    ensures Rotation.IsBatch(c, cves, limit, Members(ids)) && Rotation.Refreshes(c, Readable(ids, w), d) ==>
              Rotation.Refresh(c, Members(ids), Readable(ids, w), d, cves, limit)
  {
  }

  lemma NothingToDo(was: Validations, evidence: EvidenceTable, norm: string -> Option<string>, w: World)
    ensures Rotation.Refreshes(CalculatedAt(was), Readable([], w), CalculatedAt(was))
    ensures Validated(was, was, [], evidence, norm, w) && Fetched([], [], w)
  {
  }

  lemma NothingToStore(evidence: EvidenceTable)
    ensures ApplyEvidence(evidence, []) == evidence
  {
  }
}

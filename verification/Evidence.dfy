/** Aggregating the evidence about one CVE (src/ingest/validate.rs, calculate_validation). */
module Evidence {
  import opened Sets
  import opened Wrappers

  /** One assertion of one source about a CVE; `(cveId, sourceId, evidenceType)` is its key. */
  datatype Record = Record(
    cveId: string,
    sourceId: string,
    evidenceType: string,
    status: Option<string>,
    severity: Option<string>,
    cvssScore: Option<real>,
    exploited: Option<bool>,
    authoritative: bool)

  datatype Epss = Epss(probability: real, percentile: real)

  datatype Confidence = Rejected | Low | Medium | High | VeryHigh

  datatype Validation = Validation(
    cveId: string,
    confidence: Confidence,
    independentSources: nat,
    authoritativeSources: nat,
    severityDisagreement: bool,
    cvssDisagreement: bool,
    uncorroboratedExploitation: bool,
    missingCanonical: bool,
    canonicalStatus: Option<string>,
    epss: Option<Epss>,
    calculatedAt: string)

  const CANONICAL := "cve-program"
  const CISA := "cisa-kev"

  function AsciiUpper(c: char): char {
    if 'a' <= c <= 'z' then c - 'a' + 'A' else c
  }

  function Upper(s: string): (u: string)
    ensures |u| == |s|
  {
    if s == "" then "" else [AsciiUpper(s[0])] + Upper(s[1..])
  }

  function Sources(evidence: seq<Record>): set<string> { set r | r in evidence :: r.sourceId }

  function Authorities(evidence: seq<Record>): set<string> { set r | r in evidence && r.authoritative :: r.sourceId }

  function Severities(norm: string -> Option<string>, evidence: seq<Record>): set<string> {
    set r | r in evidence && r.severity.Some? && norm(r.severity.value).Some? :: norm(r.severity.value).value
  }

  /** The fold over the scores: the least and the greatest so far. */
  function ScoreRange(evidence: seq<Record>): Option<(real, real)> {
    if evidence == [] then None else
      var before := ScoreRange(evidence[..|evidence| - 1]);
      var score := evidence[|evidence| - 1].cvssScore;
      if score.None? then before
      else if before.None? then Some((score.value, score.value))
      else Some((if score.value < before.value.0 then score.value else before.value.0,
                 if score.value > before.value.1 then score.value else before.value.1))
  }

  /** The first record of the CVE Program. */
  function Canonical(evidence: seq<Record>): Option<Record> {
    if evidence == [] then None
    else if evidence[0].sourceId == CANONICAL then Some(evidence[0])
    else Canonical(evidence[1..])
  }

  predicate IsRejected(status: Option<string>) { status.Some? && Upper(status.value) == "REJECTED" }

  function Grade(rejected: bool, authoritative: nat, independent: nat): Confidence {
    if rejected then Rejected
    else if authoritative >= 2 && independent >= 3 then VeryHigh
    else if authoritative >= 2 || (authoritative >= 1 && independent >= 3) then High
    else if authoritative >= 1 || independent >= 2 then Medium
    else Low
  }

  /** `norm` is the severity normalisation of src/classifier.rs; nothing here depends on which one it is. */
  function Calculate(norm: string -> Option<string>, cveId: string, evidence: seq<Record>, epss: Option<Epss>, now: string): Validation {
    var range := ScoreRange(evidence);
    var canonical := Canonical(evidence);
    var status := if canonical.Some? then canonical.value.status else None;
    Validation(
      cveId,
      Grade(IsRejected(status), |Authorities(evidence)|, |Sources(evidence)|),
      |Sources(evidence)|,
      |Authorities(evidence)|,
      |Severities(norm, evidence)| > 1,
      range.Some? && range.value.1 - range.value.0 >= 1.0,
      (exists r :: r in evidence && r.exploited == Some(true))
      && !(exists r :: r in evidence && r.sourceId == CISA && r.exploited == Some(true)),
      canonical.None?,
      status,
      epss,
      now)
  }

  // ---------------------------------------------------------------- what the fields mean

  lemma MoreThanOne<T>(s: set<T>)
    ensures |s| > 1 <==> exists x, y :: x in s && y in s && x != y
  {
    if |s| > 1 {
      var x :| x in s;
      var rest := s - {x};
      assert |rest| == |s| - 1;
      var y :| y in rest;
    }
    if x, y :| x in s && y in s && x != y {
      SubsetSize({x, y}, s);
    }
  }

  /** The range is attained by two records and bounds every score. */
  lemma {:induction false} RangeIsTight(evidence: seq<Record>)
    ensures ScoreRange(evidence).None? ==> forall r | r in evidence :: r.cvssScore.None?
    ensures ScoreRange(evidence).Some? ==>
              && (forall r | r in evidence && r.cvssScore.Some? ::
                    ScoreRange(evidence).value.0 <= r.cvssScore.value <= ScoreRange(evidence).value.1)
              && (exists r :: r in evidence && r.cvssScore == Some(ScoreRange(evidence).value.0))
              && (exists r :: r in evidence && r.cvssScore == Some(ScoreRange(evidence).value.1))
  {
    if evidence == [] {
    } else {
      var front, last := evidence[..|evidence| - 1], evidence[|evidence| - 1];
      RangeIsTight(front);
      assert evidence == front + [last];
      assert last in evidence;
      assert forall r | r in front :: r in evidence;
    }
  }

  /** Two records state scores at least one point apart. */
  ghost predicate ScoresDisagree(evidence: seq<Record>) {
    exists x, y :: x in evidence && y in evidence && x.cvssScore.Some? && y.cvssScore.Some?
                && x.cvssScore.value - y.cvssScore.value >= 1.0
  }

  /** Two records state severities that normalise to different names. */
  ghost predicate SeveritiesDisagree(norm: string -> Option<string>, evidence: seq<Record>) {
    exists x, y :: x in evidence && y in evidence && x.severity.Some? && y.severity.Some?
                && norm(x.severity.value).Some? && norm(y.severity.value).Some?
                && norm(x.severity.value) != norm(y.severity.value)
  }

  lemma ScoreFlag(evidence: seq<Record>)
    ensures var range := ScoreRange(evidence);
            range.Some? && range.value.1 - range.value.0 >= 1.0 <==> ScoresDisagree(evidence)
  {
    RangeIsTight(evidence);
    var range := ScoreRange(evidence);
    if range.Some? && range.value.1 - range.value.0 >= 1.0 {
      var x :| x in evidence && x.cvssScore == Some(range.value.1);
      var y :| y in evidence && y.cvssScore == Some(range.value.0);
    }
  }

  lemma SeverityFlag(norm: string -> Option<string>, evidence: seq<Record>)
    ensures |Severities(norm, evidence)| > 1 <==> SeveritiesDisagree(norm, evidence)
  {
    var all := Severities(norm, evidence);
    MoreThanOne(all);
    if SeveritiesDisagree(norm, evidence) {
      var x, y :| x in evidence && y in evidence && x.severity.Some? && y.severity.Some?
               && norm(x.severity.value).Some? && norm(y.severity.value).Some?
               && norm(x.severity.value) != norm(y.severity.value);
      assert norm(x.severity.value).value in all && norm(y.severity.value).value in all;
    }
  }

  lemma {:induction false} CanonicalIsThere(evidence: seq<Record>)
    ensures Canonical(evidence).None? <==> forall r | r in evidence :: r.sourceId != CANONICAL
    ensures Canonical(evidence).Some? ==> Canonical(evidence).value in evidence && Canonical(evidence).value.sourceId == CANONICAL
  {
    if evidence == [] {
    } else {
      CanonicalIsThere(evidence[1..]);
      assert evidence == [evidence[0]] + evidence[1..];
    }
  }

  /** "rejected" in any mixture of cases. */
  predicate SaysRejected(status: Option<string>) {
    status.Some? && |status.value| == 8
    && forall i | 0 <= i < 8 :: status.value[i] == "REJECTED"[i] || status.value[i] == "rejected"[i]
  }

  lemma {:induction false} UpperAt(s: string, i: nat)
    requires i < |s|
    ensures Upper(s)[i] == AsciiUpper(s[i])
  {
    if i > 0 {
      UpperAt(s[1..], i - 1);
    }
  }

  lemma RejectedInAnyCase(status: Option<string>)
    ensures IsRejected(status) <==> SaysRejected(status)
  {
    if status.Some? {
      var s := status.value;
      forall i | 0 <= i < |s| ensures Upper(s)[i] == AsciiUpper(s[i]) { UpperAt(s, i); }
      if IsRejected(status) {
        forall i | 0 <= i < 8 ensures s[i] == "REJECTED"[i] || s[i] == "rejected"[i] {
          assert Upper(s)[i] == "REJECTED"[i];
          OneCapital(s[i], i);
        }
      }
      if SaysRejected(status) {
        forall i | 0 <= i < 8 ensures Upper(s)[i] == "REJECTED"[i] { OneCapital(s[i], i); }
        assert Upper(s) == "REJECTED";
      }
    }
  }

  lemma OneCapital(c: char, i: nat)
    requires i < 8
    ensures AsciiUpper(c) == "REJECTED"[i] <==> c == "REJECTED"[i] || c == "rejected"[i]
  {
  }

  ghost predicate OneAuthority(evidence: seq<Record>) { exists x :: x in evidence && x.authoritative }

  ghost predicate TwoAuthorities(evidence: seq<Record>) {
    exists x, y :: x in evidence && y in evidence && x.authoritative && y.authoritative && x.sourceId != y.sourceId
  }

  ghost predicate TwoSources(evidence: seq<Record>) {
    exists x, y :: x in evidence && y in evidence && x.sourceId != y.sourceId
  }

  ghost predicate ThreeDiffer(evidence: seq<Record>, x: Record, y: Record, z: Record) {
    && x in evidence && y in evidence && z in evidence
    && x.sourceId != y.sourceId && y.sourceId != z.sourceId && x.sourceId != z.sourceId
  }

  ghost predicate ThreeSources(evidence: seq<Record>) {
    exists x, y, z :: ThreeDiffer(evidence, x, y, z)
  }

  lemma AuthorityCounts(evidence: seq<Record>)
    ensures |Authorities(evidence)| >= 1 <==> OneAuthority(evidence)
    ensures |Authorities(evidence)| >= 2 <==> TwoAuthorities(evidence)
  {
    var all := Authorities(evidence);
    MoreThanOne(all);
    if OneAuthority(evidence) {
      var x :| x in evidence && x.authoritative;
      assert x.sourceId in all;
    }
    if |all| >= 1 {
      var id :| id in all;
    }
    if TwoAuthorities(evidence) {
      var x, y :| x in evidence && y in evidence && x.authoritative && y.authoritative && x.sourceId != y.sourceId;
      assert x.sourceId in all && y.sourceId in all;
    }
  }

  lemma SourcesDiffer(evidence: seq<Record>)
    ensures |Sources(evidence)| >= 2 <==> TwoSources(evidence)
  {
    var all := Sources(evidence);
    MoreThanOne(all);
    if TwoSources(evidence) {
      var x, y :| x in evidence && y in evidence && x.sourceId != y.sourceId;
      assert x.sourceId in all && y.sourceId in all;
    }
  }

  lemma ThreeInSet<T>(s: set<T>, x: T, y: T, z: T)
    requires x in s && y in s && z in s && x != y && y != z && x != z
    ensures |s| > 2
  {
    SubsetSize({x, y, z}, s);
  }

  lemma ThreeOf<T>(s: set<T>) returns (x: T, y: T, z: T)
    requires |s| > 2
    ensures x in s && y in s && z in s && x != y && y != z && x != z
  {
    x :| x in s;
    var rest := s - {x};
    assert |rest| == |s| - 1;
    y :| y in rest;
    assert |rest - {y}| == |rest| - 1;
    z :| z in rest - {y};
  }

  lemma WitnessOf(evidence: seq<Record>, id: string) returns (r: Record)
    requires id in Sources(evidence)
    ensures r in evidence && r.sourceId == id
  {
    r :| r in evidence && r.sourceId == id;
  }

  lemma ThreeSourcesDiffer(evidence: seq<Record>)
    ensures |Sources(evidence)| >= 3 <==> ThreeSources(evidence)
  {
    var all := Sources(evidence);
    if |all| > 2 {
      var a, b, c := ThreeOf(all);
      var x := WitnessOf(evidence, a);
      var y := WitnessOf(evidence, b);
      var z := WitnessOf(evidence, c);
      assert ThreeDiffer(evidence, x, y, z);
    }
    if x, y, z :| ThreeDiffer(evidence, x, y, z) {
      ThreeInSet(all, x.sourceId, y.sourceId, z.sourceId);
    }
  }

  /** How much agreement each grade of confidence takes, in records. */
  lemma GradesMean(norm: string -> Option<string>, cveId: string, evidence: seq<Record>, epss: Option<Epss>, now: string)
    ensures var v := Calculate(norm, cveId, evidence, epss, now);
            if SaysRejected(v.canonicalStatus) then v.confidence == Rejected
            else if TwoAuthorities(evidence) && ThreeSources(evidence) then v.confidence == VeryHigh
            else if TwoAuthorities(evidence) || (OneAuthority(evidence) && ThreeSources(evidence)) then v.confidence == High
            else if OneAuthority(evidence) || TwoSources(evidence) then v.confidence == Medium
            else v.confidence == Low
  {
    AuthorityCounts(evidence);
    SourcesDiffer(evidence);
    ThreeSourcesDiffer(evidence);
    RejectedInAnyCase(Calculate(norm, cveId, evidence, epss, now).canonicalStatus);
    hide Authorities, Sources, TwoAuthorities, ThreeSources, OneAuthority, TwoSources, SaysRejected, IsRejected, Severities, ScoreRange, Canonical;
  }

  /** Each flag says what some pair, or some record, of the evidence says; authorities are sources. */
  lemma FieldsMeanWhatTheySay(norm: string -> Option<string>, cveId: string, evidence: seq<Record>, epss: Option<Epss>, now: string)
    ensures var v := Calculate(norm, cveId, evidence, epss, now);
            && v.authoritativeSources <= v.independentSources <= |evidence|
            && v.independentSources == |set r | r in evidence :: r.sourceId|
            && v.authoritativeSources == |set r | r in evidence && r.authoritative :: r.sourceId|
            && (v.severityDisagreement <==> SeveritiesDisagree(norm, evidence))
            && (v.cvssDisagreement <==> ScoresDisagree(evidence))
            && (v.missingCanonical <==> forall r | r in evidence :: r.sourceId != "cve-program")
            && (v.canonicalStatus.Some? ==> exists r :: r in evidence && r.sourceId == "cve-program" && r.status == v.canonicalStatus)
            && (v.uncorroboratedExploitation <==>
                  && (exists r :: r in evidence && r.exploited == Some(true))
                  && forall r | r in evidence && r.exploited == Some(true) :: r.sourceId != "cisa-kev")
            && v.cveId == cveId && v.epss == epss && v.calculatedAt == now
  {
    SubsetSize(Authorities(evidence), Sources(evidence));
    SourcesAtMost(evidence);
    assert Sources(evidence) == set r | r in evidence :: r.sourceId;
    assert Authorities(evidence) == set r | r in evidence && r.authoritative :: r.sourceId;
    SeverityFlag(norm, evidence);
    ScoreFlag(evidence);
    CanonicalIsThere(evidence);
  }

  lemma {:induction false} SourcesAtMost(evidence: seq<Record>)
    ensures |Sources(evidence)| <= |evidence|
  {
    if evidence == [] {
    } else {
      var front, last := evidence[..|evidence| - 1], evidence[|evidence| - 1];
      assert evidence == front + [last];
      assert Sources(evidence) == Sources(front) + {last.sourceId};
      SourcesAtMost(front);
    }
  }

  // ---------------------------------------------------------------- order

  ghost predicate SameRecords(a: seq<Record>, b: seq<Record>) { forall r :: r in a <==> r in b }

  /** All records of the CVE Program state one status; a single such record is the usual case. */
  ghost predicate OneCanonicalStatus(evidence: seq<Record>) {
    forall x, y | x in evidence && y in evidence && x.sourceId == CANONICAL && y.sourceId == CANONICAL :: x.status == y.status
  }

  lemma RangeInside(a: seq<Record>, b: seq<Record>)
    requires SameRecords(a, b) && ScoreRange(a).Some?
    ensures ScoreRange(b).Some?
    ensures ScoreRange(b).value.0 <= ScoreRange(a).value.0 && ScoreRange(a).value.1 <= ScoreRange(b).value.1
  {
    RangeIsTight(a);
    RangeIsTight(b);
    hide ScoreRange;
    var x :| x in a && x.cvssScore == Some(ScoreRange(a).value.0);
    var y :| y in a && y.cvssScore == Some(ScoreRange(a).value.1);
    assert x in b && y in b;
  }

  lemma RangeOfSameRecords(a: seq<Record>, b: seq<Record>)
    requires SameRecords(a, b)
    ensures ScoreRange(a) == ScoreRange(b)
  {
    if ScoreRange(a).Some? { RangeInside(a, b); }
    if ScoreRange(b).Some? { RangeInside(b, a); }
  }

  /** The validation does not depend on the order (or repetition) of the evidence. */
  lemma OrderIsIrrelevant(norm: string -> Option<string>, cveId: string, a: seq<Record>, b: seq<Record>, epss: Option<Epss>, now: string)
    requires SameRecords(a, b) && OneCanonicalStatus(a)
    ensures Calculate(norm, cveId, a, epss, now) == Calculate(norm, cveId, b, epss, now)
  {
    RangeOfSameRecords(a, b);
    CanonicalIsThere(a);
    CanonicalIsThere(b);
    assert Sources(a) == Sources(b);
    assert Authorities(a) == Authorities(b);
    assert Severities(norm, a) == Severities(norm, b);
  }

  lemma FrontRecordIsCanonical(evidence: seq<Record>, i: nat)
    requires i < |evidence| && evidence[i].sourceId == CANONICAL
    ensures var moved := ToFront(evidence, i);
            SameRecords(evidence, moved) && multiset(moved) == multiset(evidence) && Canonical(moved) == Some(evidence[i])
  {
    var moved := ToFront(evidence, i);
    assert evidence == evidence[..i] + [evidence[i]] + evidence[i + 1..];
    forall r ensures r in evidence <==> r in moved {
      assert r in evidence <==> r in multiset(evidence);
      assert r in moved <==> r in multiset(moved);
    }
  }

  function ToFront(evidence: seq<Record>, i: nat): seq<Record>
    requires i < |evidence|
  {
    [evidence[i]] + evidence[..i] + evidence[i + 1..]
  }

  lemma StatusOfFront(norm: string -> Option<string>, cveId: string, a: seq<Record>, i: nat, epss: Option<Epss>, now: string)
    requires i < |a| && a[i].sourceId == CANONICAL
    ensures SameRecords(a, ToFront(a, i))
    ensures Calculate(norm, cveId, ToFront(a, i), epss, now).canonicalStatus == a[i].status
  {
    FrontRecordIsCanonical(a, i);
  }

  /** Order is irrelevant exactly when the CVE Program records agree on the status. */
  lemma OrderIrrelevantExactly(norm: string -> Option<string>, cveId: string, a: seq<Record>, epss: Option<Epss>, now: string)
    ensures OneCanonicalStatus(a) <==>
            forall b: seq<Record> | SameRecords(a, b) :: Calculate(norm, cveId, b, epss, now) == Calculate(norm, cveId, a, epss, now)
  {
    hide SameRecords, Calculate;
    if OneCanonicalStatus(a) {
      forall b: seq<Record> | SameRecords(a, b) ensures Calculate(norm, cveId, b, epss, now) == Calculate(norm, cveId, a, epss, now) {
        OrderIsIrrelevant(norm, cveId, a, b, epss, now);
      }
    } else {
      var x, y :| x in a && y in a && x.sourceId == CANONICAL && y.sourceId == CANONICAL && x.status != y.status;
      var i :| 0 <= i < |a| && a[i] == x;
      var j :| 0 <= j < |a| && a[j] == y;
      StatusOfFront(norm, cveId, a, i, epss, now);
      StatusOfFront(norm, cveId, a, j, epss, now);
    }
  }

  // ---------------------------------------------------------------- enrichment and growth

  /** EPSS is carried along and changes nothing else. */
  lemma EpssIsOnlyEnrichment(norm: string -> Option<string>, cveId: string, evidence: seq<Record>, p: Option<Epss>, q: Option<Epss>, now: string)
    ensures Calculate(norm, cveId, evidence, p, now).(epss := q) == Calculate(norm, cveId, evidence, q, now)
  {
  }

  /** `c` is no better a grade than `d`, of those that are not rejected. */
  predicate NoBetter(c: Confidence, d: Confidence) {
    match d
    case Rejected => false
    case Low => c == Low
    case Medium => c == Low || c == Medium
    case High => c == Low || c == Medium || c == High
    case VeryHigh => c != Rejected
  }

  lemma {:induction false} CanonicalStays(evidence: seq<Record>, more: seq<Record>)
    ensures Canonical(evidence).Some? ==> Canonical(evidence + more) == Canonical(evidence)
  {
    if evidence == [] {
    } else {
      CanonicalStays(evidence[1..], more);
      assert (evidence + more)[1..] == evidence[1..] + more;
    }
  }

  lemma GradeGrows(a: nat, i: nat, b: nat, j: nat)
    requires a <= b && i <= j
    ensures NoBetter(Grade(false, a, i), Grade(false, b, j))
  {
  }

  lemma SourcesGrow(norm: string -> Option<string>, evidence: seq<Record>, more: seq<Record>)
    ensures |Sources(evidence)| <= |Sources(evidence + more)|
    ensures |Authorities(evidence)| <= |Authorities(evidence + more)|
    ensures |Severities(norm, evidence)| <= |Severities(norm, evidence + more)|
  {
    SubsetSize(Sources(evidence), Sources(evidence + more));
    SubsetSize(Authorities(evidence), Authorities(evidence + more));
    SubsetSize(Severities(norm, evidence), Severities(norm, evidence + more));
  }

  lemma DisagreementStays(evidence: seq<Record>, more: seq<Record>)
    ensures ScoresDisagree(evidence) ==> ScoresDisagree(evidence + more)
  {
    if x, y :| x in evidence && y in evidence && x.cvssScore.Some? && y.cvssScore.Some? && x.cvssScore.value - y.cvssScore.value >= 1.0 {
      assert x in evidence + more && y in evidence + more;
    }
  }

  /** Further evidence never lowers the confidence, unless the CVE Program rejects the CVE. */
  lemma EvidenceOnlyRaises(norm: string -> Option<string>, cveId: string, evidence: seq<Record>, more: seq<Record>, epss: Option<Epss>, now: string)
    ensures var before := Calculate(norm, cveId, evidence, epss, now);
            var after := Calculate(norm, cveId, evidence + more, epss, now);
            && before.independentSources <= after.independentSources
            && before.authoritativeSources <= after.authoritativeSources
            && (after.confidence != Rejected ==> before.confidence != Rejected)
            && (before.confidence == VeryHigh && after.confidence != Rejected ==> after.confidence == VeryHigh)
            && (before.confidence == High && after.confidence != Rejected ==> after.confidence in {High, VeryHigh})
            && (before.confidence == Medium && after.confidence != Rejected ==> after.confidence in {Medium, High, VeryHigh})
            && (before.severityDisagreement ==> after.severityDisagreement)
            && (before.cvssDisagreement ==> after.cvssDisagreement)
  {
    var all := evidence + more;
    CanonicalStays(evidence, more);
    SourcesGrow(norm, evidence, more);
    ScoreFlag(evidence);
    ScoreFlag(all);
    DisagreementStays(evidence, more);
    GradeGrows(|Authorities(evidence)|, |Sources(evidence)|, |Authorities(all)|, |Sources(all)|);
    hide Sources, Authorities, Severities, ScoreRange, Canonical, ScoresDisagree, Upper;
    RejectedGrade(IsRejected(Calculate(norm, cveId, all, epss, now).canonicalStatus), |Authorities(all)|, |Sources(all)|);
  }

  lemma RejectedGrade(rejected: bool, authoritative: nat, independent: nat)
    ensures Grade(rejected, authoritative, independent) == Rejected <==> rejected
  {
  }

  /** A claim of exploitation stays flagged until CISA makes it too, and only CISA can clear it. */
  lemma OnlyCisaCorroborates(norm: string -> Option<string>, cveId: string, evidence: seq<Record>, more: Record, epss: Option<Epss>, now: string)
    requires Calculate(norm, cveId, evidence, epss, now).uncorroboratedExploitation
    ensures Calculate(norm, cveId, evidence + [more], epss, now).uncorroboratedExploitation
       <==> !(more.sourceId == CISA && more.exploited == Some(true))
  {
    hide Severities, ScoreRange, Canonical, Grade, Sources, Authorities;
    var all := evidence + [more];
    assert forall r :: r in all <==> r in evidence || r == more;
    var x :| x in evidence && x.exploited == Some(true);
    assert x in all;
  }
}

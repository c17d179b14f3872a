/**
 * The relational shape of the system: the two enumerations, the three owned
 * entities (Report, Vulnerability, VulnInstance) and the store that holds them.
 *
 * The store keeps each table as a sequence in insertion order; identifiers are
 * handed out by per-table auto-increment counters, so insertion order is also
 * identifier order. The relationships are read in that order; the source gives
 * them no `order_by`, so this is the order the database usually returns rather
 * than one it promises.
 * Text columns hold the JSON value that was imported, unchanged.
 */
module Models {
  import opened Base
  import opened Json

  /** Remediation status of one instance. */
  datatype FixStatus = Pending | InProgress | Fixed | WontFix | FalsePositive {
    /** The string stored in the `fix_status` column. */
    function Value(): string {
      match this
      case Pending => "pending"
      case InProgress => "in_progress"
      case Fixed => "fixed"
      case WontFix => "wont_fix"
      case FalsePositive => "false_positive"
    }
  }

  /** The enumeration in declaration order. */
  const FixStatuses: seq<FixStatus> := [Pending, InProgress, Fixed, WontFix, FalsePositive]

  /** Membership test `status in [s.value for s in FixStatus]`, returning the member. */
  function ParseFixStatus(s: string): (r: Option<FixStatus>)
    ensures r.Some? ==> r.value.Value() == s
    ensures r.None? ==> forall f: FixStatus :: f.Value() != s
  {
    if s == "pending" then Some(Pending)
    else if s == "in_progress" then Some(InProgress)
    else if s == "fixed" then Some(Fixed)
    else if s == "wont_fix" then Some(WontFix)
    else if s == "false_positive" then Some(FalsePositive)
    else None
  }

  /** FixStatus has exactly five members, with five distinct stored values. */
  lemma FixStatusEnumeration()
    ensures |FixStatuses| == 5
    ensures forall f: FixStatus :: f in FixStatuses
    ensures forall i, j | 0 <= i < j < |FixStatuses| :: FixStatuses[i].Value() != FixStatuses[j].Value()
    ensures forall f: FixStatus :: ParseFixStatus(f.Value()) == Some(f)
  {
    forall f: FixStatus
      ensures f in FixStatuses
    {
      match f
      case Pending => assert FixStatuses[0] == f;
      case InProgress => assert FixStatuses[1] == f;
      case Fixed => assert FixStatuses[2] == f;
      case WontFix => assert FixStatuses[3] == f;
      case FalsePositive => assert FixStatuses[4] == f;
    }
  }

  /** Severity of a vulnerability. */
  datatype Severity = High | Medium | Low | Informational {
    /** The string stored in the `severity` column and used as a document key. */
    function Name(): string {
      match this
      case High => "High"
      case Medium => "Medium"
      case Low => "Low"
      case Informational => "Informational"
    }

    /** Position in the display order. */
    function Rank(): nat {
      match this
      case High => 0
      case Medium => 1
      case Low => 2
      case Informational => 3
    }
  }

  /** The enumeration in its fixed display order. */
  const SeverityLevels: seq<Severity> := [High, Medium, Low, Informational]

  /** The severity whose stored name is `s`, if any. */
  function ParseSeverity(s: string): (r: Option<Severity>)
    ensures r.Some? ==> r.value.Name() == s
    ensures r.None? ==> forall v: Severity :: v.Name() != s
  {
    if s == "High" then Some(High)
    else if s == "Medium" then Some(Medium)
    else if s == "Low" then Some(Low)
    else if s == "Informational" then Some(Informational)
    else None
  }

  /** SeverityLevel has exactly four members, listed High, Medium, Low, Informational. */
  lemma SeverityEnumeration()
    ensures |SeverityLevels| == 4
    ensures forall s: Severity :: SeverityLevels[s.Rank()] == s
    ensures forall s: Severity :: ParseSeverity(s.Name()) == Some(s)
    ensures forall s: Severity, t: Severity :: s.Name() == t.Name() ==> s == t
  {
  }

  /** The five named finding fields, each keyed in a document by a fixed label. */
  datatype Label = Method | Parameter | Attack | Evidence | OtherInfo {
    function Key(): string {
      match this
      case Method => "方法"
      case Parameter => "Parameter"
      case Attack => "攻擊"
      case Evidence => "Evidence"
      case OtherInfo => "Other Info"
    }
  }

  /** The labels in the order the exporter writes them. */
  const Labels: seq<Label> := [Method, Parameter, Attack, Evidence, OtherInfo]

  /** Top-level instance keys that are not kept in the extra-field bag. */
  predicate IsReservedKey(k: string) {
    k == "URL" || k == "content" || exists l: Label :: l.Key() == k
  }

  /** The five named columns of an instance. */
  datatype NamedFields = NamedFields(requestMethod: Json, parameter: Json, attack: Json, evidence: Json, otherInfo: Json) {
    function Field(l: Label): Json {
      match l
      case Method => requestMethod
      case Parameter => parameter
      case Attack => attack
      case Evidence => evidence
      case OtherInfo => otherInfo
    }
  }

  datatype Report = Report(
    id: nat,
    siteUrl: Json,
    summarySequences: Json,
    sequenceDetails: Json,
    fileName: Option<string>,
    importedAt: string,
    notes: Json)

  datatype Vulnerability = Vulnerability(
    id: nat,
    reportId: nat,
    severity: string,
    title: string,
    description: Json)

  datatype Instance = Instance(
    id: nat,
    vulnerabilityId: nat,
    url: Json,
    fields: NamedFields,
    extraData: Option<Fields>,
    fixStatus: string,
    fixedAt: Option<string>,
    fixedBy: Json,
    fixNotes: Json)

  /** The three tables and their auto-increment counters. */
  datatype Db = Db(
    reports: seq<Report>,
    vulnerabilities: seq<Vulnerability>,
    instances: seq<Instance>,
    nextReportId: nat,
    nextVulnerabilityId: nat,
    nextInstanceId: nat)

  const EmptyDb: Db := Db([], [], [], 1, 1, 1)

  function ReportIds(db: Db): set<nat> {
    set r | r in db.reports :: r.id
  }

  function VulnerabilityIds(db: Db): set<nat> {
    set v | v in db.vulnerabilities :: v.id
  }

  predicate ReportsSorted(rs: seq<Report>) {
    forall i, j | 0 <= i < j < |rs| :: rs[i].id < rs[j].id
  }

  predicate VulnerabilitiesSorted(vs: seq<Vulnerability>) {
    forall i, j | 0 <= i < j < |vs| :: vs[i].id < vs[j].id
  }

  predicate InstancesSorted(xs: seq<Instance>) {
    forall i, j | 0 <= i < j < |xs| :: xs[i].id < xs[j].id
  }

  /**
   * Store invariant: identifiers are positive, increase along each table and
   * stay below the counter; every vulnerability belongs to a stored report and
   * every instance to a stored vulnerability.
   */
  predicate Valid(db: Db) {
    && 0 < db.nextReportId && 0 < db.nextVulnerabilityId && 0 < db.nextInstanceId
    && ReportsSorted(db.reports)
    && VulnerabilitiesSorted(db.vulnerabilities)
    && InstancesSorted(db.instances)
    && (forall r | r in db.reports :: 0 < r.id < db.nextReportId)
    && (forall v | v in db.vulnerabilities :: 0 < v.id < db.nextVulnerabilityId)
    && (forall x | x in db.instances :: 0 < x.id < db.nextInstanceId)
    && (forall v | v in db.vulnerabilities :: v.reportId in ReportIds(db))
    && (forall x | x in db.instances :: x.vulnerabilityId in VulnerabilityIds(db))
  }

  /** Every stored severity is one of the four levels. */
  predicate KnownSeverities(db: Db) {
    forall v | v in db.vulnerabilities :: ParseSeverity(v.severity).Some?
  }

  /** `Report.query.get(id)`. */
  function FindReport(rs: seq<Report>, id: nat): (r: Option<Report>)
    ensures r.Some? ==> r.value in rs && r.value.id == id
    ensures r.None? <==> forall x | x in rs :: x.id != id
  {
    if |rs| == 0 then None
    else if rs[0].id == id then Some(rs[0])
    else FindReport(rs[1..], id)
  }

  /** `Vulnerability.query.get(id)`. */
  function FindVulnerability(vs: seq<Vulnerability>, id: nat): (r: Option<Vulnerability>)
    ensures r.Some? ==> r.value in vs && r.value.id == id
    ensures r.None? <==> forall x | x in vs :: x.id != id
  {
    if |vs| == 0 then None
    else if vs[0].id == id then Some(vs[0])
    else FindVulnerability(vs[1..], id)
  }

  /** `VulnInstance.query.get(id)`. */
  function FindInstance(xs: seq<Instance>, id: nat): (r: Option<Instance>)
    ensures r.Some? ==> r.value in xs && r.value.id == id
    ensures r.None? <==> forall x | x in xs :: x.id != id
  {
    if |xs| == 0 then None
    else if xs[0].id == id then Some(xs[0])
    else FindInstance(xs[1..], id)
  }

  /** `report.vulnerabilities`: the report's vulnerabilities in identifier order. */
  function VulnerabilitiesOf(vs: seq<Vulnerability>, rid: nat): (r: seq<Vulnerability>)
    ensures forall v :: v in r <==> v in vs && v.reportId == rid
    ensures |r| <= |vs|
  {
    if |vs| == 0 then []
    else if vs[0].reportId == rid then [vs[0]] + VulnerabilitiesOf(vs[1..], rid)
    else VulnerabilitiesOf(vs[1..], rid)
  }

  /** `vuln.instances`: the vulnerability's instances in identifier order. */
  function InstancesOf(xs: seq<Instance>, vid: nat): (r: seq<Instance>)
    ensures forall x :: x in r <==> x in xs && x.vulnerabilityId == vid
    ensures |r| <= |xs|
  {
    if |xs| == 0 then []
    else if xs[0].vulnerabilityId == vid then [xs[0]] + InstancesOf(xs[1..], vid)
    else InstancesOf(xs[1..], vid)
  }

  lemma {:induction false} VulnerabilitiesOfAppend(a: seq<Vulnerability>, b: seq<Vulnerability>, rid: nat)
    ensures VulnerabilitiesOf(a + b, rid) == VulnerabilitiesOf(a, rid) + VulnerabilitiesOf(b, rid)
    decreases |a|
  {
    if |a| > 0 {
      assert (a + b)[1..] == a[1..] + b;
      VulnerabilitiesOfAppend(a[1..], b, rid);
    } else {
      assert a + b == b;
    }
  }

  lemma {:induction false} InstancesOfAppend(a: seq<Instance>, b: seq<Instance>, vid: nat)
    ensures InstancesOf(a + b, vid) == InstancesOf(a, vid) + InstancesOf(b, vid)
    decreases |a|
  {
    if |a| > 0 {
      assert (a + b)[1..] == a[1..] + b;
      InstancesOfAppend(a[1..], b, vid);
    } else {
      assert a + b == b;
    }
  }

  // ---------------------------------------------------------------------------
  // Report.stats

  /** The number of vulnerabilities whose stored severity is exactly `name`. */
  function CountSeverity(vs: seq<Vulnerability>, name: string): (n: nat)
    ensures n <= |vs|
  {
    if |vs| == 0 then 0
    else (if vs[0].severity == name then 1 else 0) + CountSeverity(vs[1..], name)
  }

  /** Four buckets, one per severity name, all zero. */
  const ZeroSeverityBuckets: map<string, nat> :=
    map["High" := 0, "Medium" := 0, "Low" := 0, "Informational" := 0]

  /** The stats loop: a vulnerability bumps its bucket if it has one and is ignored otherwise. */
  function TallySeverities(vs: seq<Vulnerability>, acc: map<string, nat>): (r: map<string, nat>)
    ensures r.Keys == acc.Keys
    ensures forall k | k in acc :: r[k] == acc[k] + CountSeverity(vs, k)
  {
    if |vs| == 0 then acc
    else
      var s := vs[0].severity;
      var acc' := if s in acc then acc[s := acc[s] + 1] else acc;
      TallySeverities(vs[1..], acc')
  }

  /** `Report.stats` for the given list of the report's vulnerabilities. */
  function Stats(vs: seq<Vulnerability>): (r: map<string, nat>)
    ensures r.Keys == set s: Severity :: s.Name()
    ensures forall s: Severity :: r[s.Name()] == CountSeverity(vs, s.Name())
  {
    assert forall s: Severity :: s.Name() in ZeroSeverityBuckets;
    assert ZeroSeverityBuckets.Keys == set s: Severity :: s.Name() by {
      assert ParseSeverity("High") == Some(High);
      assert ParseSeverity("Medium") == Some(Medium);
      assert ParseSeverity("Low") == Some(Low);
      assert ParseSeverity("Informational") == Some(Informational);
    }
    TallySeverities(vs, ZeroSeverityBuckets)
  }

  /** Vulnerabilities are counted once at most, so the buckets add up to at most the list length. */
  lemma {:induction false} SeverityCountsBounded(vs: seq<Vulnerability>)
    ensures CountSeverity(vs, "High") + CountSeverity(vs, "Medium")
          + CountSeverity(vs, "Low") + CountSeverity(vs, "Informational") <= |vs|
    ensures (forall v | v in vs :: ParseSeverity(v.severity).Some?) ==>
          CountSeverity(vs, "High") + CountSeverity(vs, "Medium")
          + CountSeverity(vs, "Low") + CountSeverity(vs, "Informational") == |vs|
  {
    if |vs| > 0 {
      SeverityCountsBounded(vs[1..]);
      assert forall v | v in vs[1..] :: v in vs;
    }
  }

  /** Report.stats: four buckets whose sum never exceeds the report's vulnerability count. */
  lemma StatsSum(vs: seq<Vulnerability>)
    ensures var r := Stats(vs); r["High"] + r["Medium"] + r["Low"] + r["Informational"] <= |vs|
  {
    var r := Stats(vs);
    assert r[High.Name()] == CountSeverity(vs, "High");
    assert r[Medium.Name()] == CountSeverity(vs, "Medium");
    assert r[Low.Name()] == CountSeverity(vs, "Low");
    assert r[Informational.Name()] == CountSeverity(vs, "Informational");
    SeverityCountsBounded(vs);
  }

  // ---------------------------------------------------------------------------
  // Cascade delete

  datatype NotFound = NotFound

  /** Prepending a row whose id is below every id of a sorted table keeps it sorted. */
  lemma ReportsSortedCons(h: Report, rest: seq<Report>)
    requires ReportsSorted(rest)
    requires forall x | x in rest :: h.id < x.id
    ensures ReportsSorted([h] + rest)
  {
    forall i, j | 0 <= i < j < |[h] + rest| ensures ([h] + rest)[i].id < ([h] + rest)[j].id {
      assert ([h] + rest)[j] == rest[j - 1];
      if i > 0 { assert ([h] + rest)[i] == rest[i - 1]; }
    }
  }

  function ReportsWithout(rs: seq<Report>, rid: nat): (r: seq<Report>)
    ensures forall x :: x in r <==> x in rs && x.id != rid
    ensures ReportsSorted(rs) ==> ReportsSorted(r)
  {
    if |rs| == 0 then []
    else
      var rest := ReportsWithout(rs[1..], rid);
      if rs[0].id == rid then rest
      else
        assert ReportsSorted(rs) ==> forall x | x in rest :: rs[0].id < x.id by {
          if ReportsSorted(rs) {
            forall x | x in rest ensures rs[0].id < x.id {
              var j :| 0 <= j < |rs[1..]| && rs[1..][j] == x;
              assert rs[j + 1] == x;
            }
          }
        }
        if ReportsSorted(rs) then ReportsSortedCons(rs[0], rest); [rs[0]] + rest
        else [rs[0]] + rest
  }

  /** Prepending a row whose id is below every id of a sorted table keeps it sorted. */
  lemma VulnerabilitiesSortedCons(h: Vulnerability, rest: seq<Vulnerability>)
    requires VulnerabilitiesSorted(rest)
    requires forall x | x in rest :: h.id < x.id
    ensures VulnerabilitiesSorted([h] + rest)
  {
    forall i, j | 0 <= i < j < |[h] + rest| ensures ([h] + rest)[i].id < ([h] + rest)[j].id {
      assert ([h] + rest)[j] == rest[j - 1];
      if i > 0 { assert ([h] + rest)[i] == rest[i - 1]; }
    }
  }

  function VulnerabilitiesNotOf(vs: seq<Vulnerability>, rid: nat): (r: seq<Vulnerability>)
    ensures forall x :: x in r <==> x in vs && x.reportId != rid
    ensures VulnerabilitiesSorted(vs) ==> VulnerabilitiesSorted(r)
  {
    if |vs| == 0 then []
    else
      var rest := VulnerabilitiesNotOf(vs[1..], rid);
      if vs[0].reportId == rid then rest
      else
        assert VulnerabilitiesSorted(vs) ==> forall x | x in rest :: vs[0].id < x.id by {
          if VulnerabilitiesSorted(vs) {
            forall x | x in rest ensures vs[0].id < x.id {
              var j :| 0 <= j < |vs[1..]| && vs[1..][j] == x;
              assert vs[j + 1] == x;
            }
          }
        }
        if VulnerabilitiesSorted(vs) then VulnerabilitiesSortedCons(vs[0], rest); [vs[0]] + rest
        else [vs[0]] + rest
  }

  /** Prepending a row whose id is below every id of a sorted table keeps it sorted. */
  lemma InstancesSortedCons(h: Instance, rest: seq<Instance>)
    requires InstancesSorted(rest)
    requires forall x | x in rest :: h.id < x.id
    ensures InstancesSorted([h] + rest)
  {
    forall i, j | 0 <= i < j < |[h] + rest| ensures ([h] + rest)[i].id < ([h] + rest)[j].id {
      assert ([h] + rest)[j] == rest[j - 1];
      if i > 0 { assert ([h] + rest)[i] == rest[i - 1]; }
    }
  }

  function InstancesOutside(xs: seq<Instance>, doomed: set<nat>): (r: seq<Instance>)
    ensures forall x :: x in r <==> x in xs && x.vulnerabilityId !in doomed
    ensures InstancesSorted(xs) ==> InstancesSorted(r)
  {
    if |xs| == 0 then []
    else
      var rest := InstancesOutside(xs[1..], doomed);
      if xs[0].vulnerabilityId in doomed then rest
      else
        assert InstancesSorted(xs) ==> forall x | x in rest :: xs[0].id < x.id by {
          if InstancesSorted(xs) {
            forall x | x in rest ensures xs[0].id < x.id {
              var j :| 0 <= j < |xs[1..]| && xs[1..][j] == x;
              assert xs[j + 1] == x;
            }
          }
        }
        if InstancesSorted(xs) then InstancesSortedCons(xs[0], rest); [xs[0]] + rest
        else [xs[0]] + rest
  }

  /**
   * Deleting a report: the report, its vulnerabilities and, through them, their
   * instances go; every other row stays as it was.
   */
  function DeleteReport(db: Db, rid: nat): (r: Result<Db, NotFound>)
    ensures r.Err? <==> rid !in ReportIds(db)
    ensures r.Ok? ==> rid !in ReportIds(r.value)
    ensures r.Ok? ==> forall x :: x in r.value.reports <==> x in db.reports && x.id != rid
    ensures r.Ok? ==> forall v :: v in r.value.vulnerabilities <==> v in db.vulnerabilities && v.reportId != rid
    ensures r.Ok? ==> forall x :: x in r.value.instances <==>
              x in db.instances &&
              !exists v | v in db.vulnerabilities :: v.reportId == rid && v.id == x.vulnerabilityId
    ensures r.Ok? && Valid(db) ==> Valid(r.value)
    ensures r.Ok? && KnownSeverities(db) ==> KnownSeverities(r.value)
  {
    match FindReport(db.reports, rid)
    case None => Err(NotFound)
    case Some(_) =>
      var doomed := set v | v in db.vulnerabilities && v.reportId == rid :: v.id;
      var db' := db.(
        reports := ReportsWithout(db.reports, rid),
        vulnerabilities := VulnerabilitiesNotOf(db.vulnerabilities, rid),
        instances := InstancesOutside(db.instances, doomed));
      assert Valid(db) ==> Valid(db') by {
        if Valid(db) {
          forall x | x in db'.instances
            ensures x.vulnerabilityId in VulnerabilityIds(db')
          {
            var v :| v in db.vulnerabilities && v.id == x.vulnerabilityId;
            assert v.reportId != rid;
            assert v in db'.vulnerabilities;
          }
          forall v | v in db'.vulnerabilities
            ensures v.reportId in ReportIds(db')
          {
            var r :| r in db.reports && r.id == v.reportId;
            assert r in db'.reports;
          }
        }
      }
      Ok(db')
  }

  lemma {:induction false} InstancesOfAll(xs: seq<Instance>, vid: nat)
    requires forall x | x in xs :: x.vulnerabilityId == vid
    ensures InstancesOf(xs, vid) == xs
    decreases |xs|
  {
    if |xs| > 0 {
      InstancesOfAll(xs[1..], vid);
    }
  }

  lemma {:induction false} InstancesOfNone(xs: seq<Instance>, vid: nat)
    requires forall x | x in xs :: x.vulnerabilityId != vid
    ensures InstancesOf(xs, vid) == []
    decreases |xs|
  {
    if |xs| > 0 {
      InstancesOfNone(xs[1..], vid);
    }
  }

  lemma {:induction false} VulnerabilitiesOfAll(vs: seq<Vulnerability>, rid: nat)
    requires forall v | v in vs :: v.reportId == rid
    ensures VulnerabilitiesOf(vs, rid) == vs
    decreases |vs|
  {
    if |vs| > 0 {
      VulnerabilitiesOfAll(vs[1..], rid);
    }
  }

  lemma {:induction false} VulnerabilitiesOfNone(vs: seq<Vulnerability>, rid: nat)
    requires forall v | v in vs :: v.reportId != rid
    ensures VulnerabilitiesOf(vs, rid) == []
    decreases |vs|
  {
    if |vs| > 0 {
      VulnerabilitiesOfNone(vs[1..], rid);
    }
  }
}

/**
 * The remediation-status engine: updating the status of one instance, of a
 * batch of instances, and summarising statuses per bucket.
 *
 * A single update first looks the instance up (an unknown identifier fails
 * before the status is looked at), then checks the status against the five
 * FixStatus values. A successful update overwrites the status and the notes;
 * the fix time and the fixer change only when the new status is "fixed".
 */
module StatusEngine {
  import opened Base
  import opened Json
  import opened Models

  datatype UpdateError = InstanceNotFound | InvalidStatus

  /** `status in [s.value for s in FixStatus]` for a decoded request value, returning the member. */
  function StatusOf(status: Json): (r: Option<FixStatus>)
    ensures r.Some? ==> status == JStr(r.value.Value())
    ensures r.None? ==> forall f: FixStatus :: status != JStr(f.Value())
  {
    match status
    case JStr(s) => ParseFixStatus(s)
    case _ => None
  }

  /** `VulnInstance.query.get(id)` for any integer identifier. */
  function FindById(xs: seq<Instance>, id: int): (r: Option<Instance>)
    ensures r.Some? ==> r.value in xs && r.value.id == id
    ensures r.None? <==> forall x | x in xs :: x.id != id
  {
    if id < 0 then None else FindInstance(xs, id)
  }

  /** The row after a successful update to status `f`. */
  function Mark(x: Instance, f: FixStatus, notes: Json, fixedBy: Json, now: string): Instance {
    x.(fixStatus := f.Value(),
       fixNotes := notes,
       fixedAt := if f == Fixed then Some(now) else x.fixedAt,
       fixedBy := if f == Fixed then fixedBy else x.fixedBy)
  }

  /**
   * An update writes the status and the notes (even when the notes are null);
   * it stamps the fix time and the fixer exactly when the status is "fixed" and
   * leaves everything else about the row as it was.
   */
  lemma MarkFields(x: Instance, f: FixStatus, notes: Json, fixedBy: Json, now: string)
    ensures var y := Mark(x, f, notes, fixedBy, now);
            && ParseFixStatus(y.fixStatus) == Some(f)
            && y.fixNotes == notes
            && (f == Fixed ==> y.fixedAt == Some(now) && y.fixedBy == fixedBy)
            && (f != Fixed ==> y.fixedAt == x.fixedAt && y.fixedBy == x.fixedBy)
            && y.(fixStatus := x.fixStatus, fixNotes := x.fixNotes, fixedAt := x.fixedAt, fixedBy := x.fixedBy) == x
  {
    FixStatusEnumeration();
  }

  /** Repeating an update with the same arguments changes nothing more. */
  lemma MarkIdempotent(x: Instance, f: FixStatus, notes: Json, fixedBy: Json, now: string)
    ensures Mark(Mark(x, f, notes, fixedBy, now), f, notes, fixedBy, now) == Mark(x, f, notes, fixedBy, now)
  {
  }

  /** The instance table after marking the rows with identifier `id`. */
  function MarkWhere(xs: seq<Instance>, id: int, f: FixStatus, notes: Json, fixedBy: Json, now: string): (ys: seq<Instance>)
    ensures |ys| == |xs|
  {
    seq(|xs|, i requires 0 <= i < |xs| => if xs[i].id == id then Mark(xs[i], f, notes, fixedBy, now) else xs[i])
  }

  /**
   * `StatusService.update_instance_status`: the new store and the updated row,
   * or the reason for refusing.
   */
  function UpdateInstanceStatus(db: Db, id: int, status: Json, notes: Json, fixedBy: Json, now: string)
    : (r: Result<(Db, Instance), UpdateError>)
    ensures r.Err? && r.error == InstanceNotFound <==> FindById(db.instances, id).None?
    ensures r.Err? && r.error == InvalidStatus <==> FindById(db.instances, id).Some? && StatusOf(status).None?
    ensures r.Ok? ==> r.value.1.id == id && JStr(r.value.1.fixStatus) == status
  {
    match FindById(db.instances, id)
    case None => Err(InstanceNotFound)
    case Some(x) =>
      match StatusOf(status)
      case None => Err(InvalidStatus)
      case Some(f) =>
        Ok((db.(instances := MarkWhere(db.instances, id, f, notes, fixedBy, now)), Mark(x, f, notes, fixedBy, now)))
  }

  /**
   * A successful update changes exactly the row with the given identifier, as
   * `Mark` describes, and nothing else in the store.
   */
  lemma {:induction false} UpdateChangesOnlyTarget(db: Db, id: int, status: Json, notes: Json, fixedBy: Json, now: string)
    requires UpdateInstanceStatus(db, id, status, notes, fixedBy, now).Ok?
    ensures var (db', y) := UpdateInstanceStatus(db, id, status, notes, fixedBy, now).value;
            var f := StatusOf(status).value;
            && db'.reports == db.reports
            && db'.vulnerabilities == db.vulnerabilities
            && db'.nextReportId == db.nextReportId
            && db'.nextVulnerabilityId == db.nextVulnerabilityId
            && db'.nextInstanceId == db.nextInstanceId
            && |db'.instances| == |db.instances|
            && (forall i | 0 <= i < |db.instances| ::
                  db'.instances[i] == if db.instances[i].id == id then Mark(db.instances[i], f, notes, fixedBy, now)
                                      else db.instances[i])
            && y == Mark(FindById(db.instances, id).value, f, notes, fixedBy, now)
  {
  }

  /** Marking rows keeps every identifier and owner, so the store stays valid. */
  lemma {:induction false} MarkWhereValid(db: Db, id: int, f: FixStatus, notes: Json, fixedBy: Json, now: string)
    requires Valid(db)
    ensures Valid(db.(instances := MarkWhere(db.instances, id, f, notes, fixedBy, now)))
  {
    var xs := db.instances;
    var ys := MarkWhere(xs, id, f, notes, fixedBy, now);
    var db' := db.(instances := ys);
    assert forall i | 0 <= i < |ys| :: ys[i].id == xs[i].id && ys[i].vulnerabilityId == xs[i].vulnerabilityId;
    assert InstancesSorted(ys);
    assert VulnerabilityIds(db') == VulnerabilityIds(db);
    assert ReportIds(db') == ReportIds(db);
    forall y | y in ys
      ensures 0 < y.id < db.nextInstanceId && y.vulnerabilityId in VulnerabilityIds(db)
    {
      var i :| 0 <= i < |ys| && ys[i] == y;
      assert xs[i] in xs;
    }
  }

  /** A successful update keeps the store valid. */
  lemma {:induction false} UpdateKeepsValid(db: Db, id: int, status: Json, notes: Json, fixedBy: Json, now: string)
    requires Valid(db)
    requires UpdateInstanceStatus(db, id, status, notes, fixedBy, now).Ok?
    ensures Valid(UpdateInstanceStatus(db, id, status, notes, fixedBy, now).value.0)
  {
    MarkWhereValid(db, id, StatusOf(status).value, notes, fixedBy, now);
  }

  /** Marking rows never adds or removes an identifier. */
  lemma {:induction false} MarkWhereFinds(xs: seq<Instance>, id: int, f: FixStatus, notes: Json, fixedBy: Json, now: string,
                                         other: int)
    ensures FindById(MarkWhere(xs, id, f, notes, fixedBy, now), other).Some? <==> FindById(xs, other).Some?
  {
    var ys := MarkWhere(xs, id, f, notes, fixedBy, now);
    if FindById(xs, other).Some? {
      var i :| 0 <= i < |xs| && xs[i] == FindById(xs, other).value;
      assert ys[i] in ys;
    }
    if FindById(ys, other).Some? {
      var i :| 0 <= i < |ys| && ys[i] == FindById(ys, other).value;
      assert xs[i] in xs;
    }
  }

  // ---------------------------------------------------------------------------
  // Batch update

  /**
   * `StatusService.batch_update_status`: every identifier is tried in turn with
   * the same arguments; a failure is skipped and the loop goes on. Returns the
   * final store and the number of successful updates.
   */
  function BatchUpdateStatus(db: Db, ids: seq<int>, status: Json, notes: Json, fixedBy: Json, now: string): (r: (Db, nat))
    ensures r.1 <= |ids|
    ensures StatusOf(status).None? ==> r == (db, 0)
    decreases |ids|
  {
    if |ids| == 0 then (db, 0)
    else
      match UpdateInstanceStatus(db, ids[0], status, notes, fixedBy, now)
      case Ok((db', _)) =>
        var (db'', n) := BatchUpdateStatus(db', ids[1..], status, notes, fixedBy, now);
        (db'', n + 1)
      case Err(_) => BatchUpdateStatus(db, ids[1..], status, notes, fixedBy, now)
  }

  /** How many of `ids` name a stored instance, counting repeats. */
  function CountFound(xs: seq<Instance>, ids: seq<int>): (n: nat)
    ensures n <= |ids|
  {
    if |ids| == 0 then 0
    else (if FindById(xs, ids[0]).Some? then 1 else 0) + CountFound(xs, ids[1..])
  }

  lemma {:induction false} CountFoundMarked(xs: seq<Instance>, id: int, f: FixStatus, notes: Json, fixedBy: Json, now: string,
                                           ids: seq<int>)
    ensures CountFound(MarkWhere(xs, id, f, notes, fixedBy, now), ids) == CountFound(xs, ids)
    decreases |ids|
  {
    if |ids| > 0 {
      MarkWhereFinds(xs, id, f, notes, fixedBy, now, ids[0]);
      CountFoundMarked(xs, id, f, notes, fixedBy, now, ids[1..]);
    }
  }

  /** With a valid status, the batch reports one success per identifier that names a stored instance. */
  lemma {:induction false} BatchCount(db: Db, ids: seq<int>, status: Json, notes: Json, fixedBy: Json, now: string)
    requires StatusOf(status).Some?
    ensures BatchUpdateStatus(db, ids, status, notes, fixedBy, now).1 == CountFound(db.instances, ids)
    decreases |ids|
  {
    if |ids| > 0 {
      var f := StatusOf(status).value;
      if FindById(db.instances, ids[0]).Some? {
        var db' := db.(instances := MarkWhere(db.instances, ids[0], f, notes, fixedBy, now));
        assert UpdateInstanceStatus(db, ids[0], status, notes, fixedBy, now).value.0 == db';
        BatchCount(db', ids[1..], status, notes, fixedBy, now);
        CountFoundMarked(db.instances, ids[0], f, notes, fixedBy, now, ids[1..]);
      } else {
        BatchCount(db, ids[1..], status, notes, fixedBy, now);
      }
    }
  }

  /** The instance table with every row whose identifier is listed marked once. */
  function MarkListed(xs: seq<Instance>, ids: seq<int>, f: FixStatus, notes: Json, fixedBy: Json, now: string)
    : (ys: seq<Instance>)
    ensures |ys| == |xs|
  {
    seq(|xs|, i requires 0 <= i < |xs| => if xs[i].id in ids then Mark(xs[i], f, notes, fixedBy, now) else xs[i])
  }

  /**
   * With a valid status, the batch leaves the store as if every listed row had
   * been updated once, however often it is listed, and every other row and
   * table untouched.
   */
  lemma {:induction false} BatchResult(db: Db, ids: seq<int>, status: Json, notes: Json, fixedBy: Json, now: string)
    requires StatusOf(status).Some?
    ensures BatchUpdateStatus(db, ids, status, notes, fixedBy, now).0 ==
              db.(instances := MarkListed(db.instances, ids, StatusOf(status).value, notes, fixedBy, now))
    decreases |ids|
  {
    var f := StatusOf(status).value;
    var xs := db.instances;
    if |ids| == 0 {
      assert MarkListed(xs, ids, f, notes, fixedBy, now) == xs;
    } else if FindById(xs, ids[0]).Some? {
      var xs' := MarkWhere(xs, ids[0], f, notes, fixedBy, now);
      var db' := db.(instances := xs');
      assert UpdateInstanceStatus(db, ids[0], status, notes, fixedBy, now).value.0 == db';
      BatchResult(db', ids[1..], status, notes, fixedBy, now);
      MarkListedHead(xs, ids, f, notes, fixedBy, now);
    } else {
      BatchResult(db, ids[1..], status, notes, fixedBy, now);
      MarkListedMissing(xs, ids, f, notes, fixedBy, now);
    }
  }

  lemma MarkListedHead(xs: seq<Instance>, ids: seq<int>, f: FixStatus, notes: Json, fixedBy: Json, now: string)
    requires |ids| > 0
    ensures MarkListed(MarkWhere(xs, ids[0], f, notes, fixedBy, now), ids[1..], f, notes, fixedBy, now) ==
              MarkListed(xs, ids, f, notes, fixedBy, now)
  {
    var xs' := MarkWhere(xs, ids[0], f, notes, fixedBy, now);
    forall i | 0 <= i < |xs|
      ensures MarkListed(xs', ids[1..], f, notes, fixedBy, now)[i] == MarkListed(xs, ids, f, notes, fixedBy, now)[i]
    {
      assert xs[i].id in ids <==> xs[i].id == ids[0] || xs[i].id in ids[1..];
      MarkIdempotent(xs[i], f, notes, fixedBy, now);
    }
  }

  lemma MarkListedMissing(xs: seq<Instance>, ids: seq<int>, f: FixStatus, notes: Json, fixedBy: Json, now: string)
    requires |ids| > 0
    requires FindById(xs, ids[0]).None?
    ensures MarkListed(xs, ids[1..], f, notes, fixedBy, now) == MarkListed(xs, ids, f, notes, fixedBy, now)
  {
    forall i | 0 <= i < |xs|
      ensures MarkListed(xs, ids[1..], f, notes, fixedBy, now)[i] == MarkListed(xs, ids, f, notes, fixedBy, now)[i]
    {
      assert xs[i] in xs;
      assert xs[i].id in ids <==> xs[i].id == ids[0] || xs[i].id in ids[1..];
    }
  }

  // ---------------------------------------------------------------------------
  // Status summary

  /** The number of instances whose stored status is exactly `value`. */
  function CountStatus(xs: seq<Instance>, value: string): (n: nat)
    ensures n <= |xs|
  {
    if |xs| == 0 then 0
    else (if xs[0].fixStatus == value then 1 else 0) + CountStatus(xs[1..], value)
  }

  /** The number of instances whose stored status is one of the five values. */
  function CountRecognised(xs: seq<Instance>): (n: nat)
    ensures n <= |xs|
  {
    if |xs| == 0 then 0
    else (if ParseFixStatus(xs[0].fixStatus).Some? then 1 else 0) + CountRecognised(xs[1..])
  }

  /** Five buckets, one per status value, all zero. */
  const ZeroStatusBuckets: map<string, nat> :=
    map["pending" := 0, "in_progress" := 0, "fixed" := 0, "wont_fix" := 0, "false_positive" := 0]

  /** The summary loop: an instance bumps its bucket if it has one and is ignored otherwise. */
  function TallyStatuses(xs: seq<Instance>, acc: map<string, nat>): (r: map<string, nat>)
    ensures r.Keys == acc.Keys
    ensures forall k | k in acc :: r[k] == acc[k] + CountStatus(xs, k)
  {
    if |xs| == 0 then acc
    else
      var s := xs[0].fixStatus;
      var acc' := if s in acc then acc[s := acc[s] + 1] else acc;
      TallyStatuses(xs[1..], acc')
  }

  /** The instances of the report `rid`: those joined to a vulnerability of that report. */
  function InstancesOfReport(db: Db, rid: int): (r: seq<Instance>)
    ensures |r| <= |db.instances|
  {
    Filter(db.instances, db.vulnerabilities, rid)
  }

  function Filter(xs: seq<Instance>, vs: seq<Vulnerability>, rid: int): (r: seq<Instance>)
    ensures |r| <= |xs|
    ensures forall x :: x in r <==> x in xs && OwnedBy(x, vs, rid)
  {
    if |xs| == 0 then []
    else if OwnedBy(xs[0], vs, rid) then [xs[0]] + Filter(xs[1..], vs, rid)
    else Filter(xs[1..], vs, rid)
  }

  /** `join(Vulnerability).filter(Vulnerability.report_id == rid)` for one row. */
  predicate OwnedBy(x: Instance, vs: seq<Vulnerability>, rid: int) {
    match FindVulnerability(vs, x.vulnerabilityId)
    case Some(v) => v.reportId == rid
    case None => false
  }

  /** The rows a summary counts: all of them, or only one report's when a non-zero report is given. */
  function SummaryScope(db: Db, reportId: Option<int>): seq<Instance> {
    match reportId
    case Some(rid) => if rid != 0 then InstancesOfReport(db, rid) else db.instances
    case None => db.instances
  }

  /** The five zero buckets are keyed by exactly the five status values. */
  lemma ZeroStatusKeys()
    ensures ZeroStatusBuckets.Keys == set f: FixStatus :: f.Value()
  {
    FixStatusEnumeration();
    assert ParseFixStatus("pending") == Some(Pending);
    assert ParseFixStatus("in_progress") == Some(InProgress);
    assert ParseFixStatus("fixed") == Some(Fixed);
    assert ParseFixStatus("wont_fix") == Some(WontFix);
    assert ParseFixStatus("false_positive") == Some(FalsePositive);
  }

  /**
   * `StatusService.get_status_summary`: one bucket per status value counting the
   * rows in scope that carry it, and a total counting the rows with any of them.
   */
  function StatusSummary(db: Db, reportId: Option<int>): (r: map<string, nat>)
    ensures r.Keys == (set f: FixStatus :: f.Value()) + {"total"}
    ensures forall f: FixStatus :: r[f.Value()] == CountStatus(SummaryScope(db, reportId), f.Value())
    ensures r["total"] == CountRecognised(SummaryScope(db, reportId))
  {
    ZeroStatusKeys();
    var scope := SummaryScope(db, reportId);
    var b := TallyStatuses(scope, ZeroStatusBuckets);
    StatusCountsAddUp(scope);
    b["total" := b["pending"] + b["in_progress"] + b["fixed"] + b["wont_fix"] + b["false_positive"]]
  }

  /** The five counts add up to the number of rows with a recognised status. */
  lemma {:induction false} StatusCountsAddUp(xs: seq<Instance>)
    ensures CountStatus(xs, "pending") + CountStatus(xs, "in_progress") + CountStatus(xs, "fixed")
          + CountStatus(xs, "wont_fix") + CountStatus(xs, "false_positive") == CountRecognised(xs)
    decreases |xs|
  {
    if |xs| > 0 {
      StatusCountsAddUp(xs[1..]);
    }
  }

  /** Rows with no recognised status are counted nowhere, so the total never exceeds the scope. */
  lemma {:induction false} CountRecognisedBounded(xs: seq<Instance>)
    ensures CountRecognised(xs) == |xs| <==> forall x | x in xs :: ParseFixStatus(x.fixStatus).Some?
    decreases |xs|
  {
    if |xs| > 0 {
      CountRecognisedBounded(xs[1..]);
      assert forall x | x in xs :: x == xs[0] || x in xs[1..];
    }
  }

  /**
   * The summary's total never exceeds the number of rows in scope, and equals
   * it exactly when no row carries an unrecognised status.
   */
  lemma SummaryTotal(db: Db, reportId: Option<int>)
    ensures var scope := SummaryScope(db, reportId);
            && StatusSummary(db, reportId)["total"] <= |scope|
            && (StatusSummary(db, reportId)["total"] == |scope| <==> forall x | x in scope :: ParseFixStatus(x.fixStatus).Some?)
  {
    CountRecognisedBounded(SummaryScope(db, reportId));
  }

  /**
   * In a valid store, a report's scope holds exactly the instances of that
   * report's vulnerabilities.
   */
  lemma {:induction false} ReportScope(db: Db, rid: nat)
    requires Valid(db)
    requires rid != 0
    ensures forall x :: x in SummaryScope(db, Some(rid)) <==>
              x in db.instances && exists v | v in VulnerabilitiesOf(db.vulnerabilities, rid) :: v.id == x.vulnerabilityId
  {
    forall x | x in db.instances
      ensures OwnedBy(x, db.vulnerabilities, rid) <==>
                exists v | v in VulnerabilitiesOf(db.vulnerabilities, rid) :: v.id == x.vulnerabilityId
    {
      var w := FindVulnerability(db.vulnerabilities, x.vulnerabilityId);
      assert w.Some?;
      forall v | v in db.vulnerabilities && v.id == x.vulnerabilityId
        ensures v == w.value
      {
        UniqueIds(db.vulnerabilities, v, w.value);
      }
    }
  }

  lemma UniqueIds(vs: seq<Vulnerability>, a: Vulnerability, b: Vulnerability)
    requires VulnerabilitiesSorted(vs)
    requires a in vs && b in vs && a.id == b.id
    ensures a == b
  {
    var i :| 0 <= i < |vs| && vs[i] == a;
    var j :| 0 <= j < |vs| && vs[j] == b;
    assert !(i < j) && !(j < i);
  }
}

/**
 * What `Persist` writes: the rows of a successful import are exactly the
 * decomposed document, under fresh identifiers, after the rows already stored,
 * and the store stays consistent.
 */
module Persistence {
  import opened Base
  import opened Json
  import opened Models
  import opened Importer

  /** The rows written for one vulnerability read back as its drafted instances, all fresh. */
  lemma {:induction false} PersistInstancesRealise(ds: seq<DraftInstance>, vid: nat, iid: nat)
    ensures Realises(PersistInstances(ds, vid, iid), vid, ds)
    decreases |ds|
  {
    if |ds| > 0 {
      PersistInstancesRealise(ds[1..], vid, iid + 1);
      assert PersistInstances(ds, vid, iid)[1..] == PersistInstances(ds[1..], vid, iid + 1);
    }
  }

  /** The instance rows take consecutive fresh identifiers and point at the new vulnerabilities. */
  lemma {:induction false} PersistedInstanceIds(ds: seq<DraftVulnerability>, vid: nat, iid: nat)
    ensures forall x | x in InstanceRows(ds, vid, iid) ::
              iid <= x.id < iid + TotalInstances(ds) && vid <= x.vulnerabilityId < vid + |ds|
    ensures InstancesSorted(InstanceRows(ds, vid, iid))
    decreases |ds|
  {
    if |ds| > 0 {
      var xs := PersistInstances(ds[0].instances, vid, iid);
      var rest := InstanceRows(ds[1..], vid + 1, iid + |xs|);
      PersistedInstanceIds(ds[1..], vid + 1, iid + |xs|);
      assert InstanceRows(ds, vid, iid) == xs + rest;
      assert forall x | x in xs :: vid <= x.vulnerabilityId < vid + |ds|;
      SortedConcat(xs, rest, iid, iid + |xs|, iid + TotalInstances(ds), vid, vid + |ds|);
    }
  }

  /** Two id-ordered runs, the second above the first, concatenate to one. */
  lemma {:induction false} SortedConcat(xs: seq<Instance>, rest: seq<Instance>, lo: nat, mid: nat, hi: nat, vlo: nat, vhi: nat)
    requires lo <= mid <= hi
    requires InstancesSorted(xs) && InstancesSorted(rest)
    requires forall x | x in xs :: lo <= x.id < mid && vlo <= x.vulnerabilityId < vhi
    requires forall x | x in rest :: mid <= x.id < hi && vlo <= x.vulnerabilityId < vhi
    ensures InstancesSorted(xs + rest)
    ensures forall x | x in xs + rest :: lo <= x.id < hi && vlo <= x.vulnerabilityId < vhi
  {
    var all := xs + rest;
    forall i, j | 0 <= i < j < |all| ensures all[i].id < all[j].id {
      if j >= |xs| && i < |xs| {
        assert all[i] in xs && all[j] in rest;
      } else if i >= |xs| {
        assert all[i] == rest[i - |xs|] && all[j] == rest[j - |xs|];
      }
    }
    assert forall x | x in all :: x in xs || x in rest;
  }

  /** The stored instances of the `k`-th new vulnerability are exactly its drafted instances. */
  lemma {:induction false} PersistedInstancesRealise(ds: seq<DraftVulnerability>, vid: nat, iid: nat, k: nat)
    requires k < |ds|
    ensures Realises(InstancesOf(InstanceRows(ds, vid, iid), vid + k), vid + k, ds[k].instances)
    decreases |ds|
  {
    var xs := PersistInstances(ds[0].instances, vid, iid);
    var rest := InstanceRows(ds[1..], vid + 1, iid + |xs|);
    assert InstanceRows(ds, vid, iid) == xs + rest;
    if k == 0 {
      PersistedInstanceIds(ds[1..], vid + 1, iid + |xs|);
      PersistInstancesRealise(ds[0].instances, vid, iid);
      RealiseHead(xs, rest, vid, ds[0].instances);
    } else {
      PersistedInstancesRealise(ds[1..], vid + 1, iid + |xs|, k - 1);
      Reindex(rest, (vid + 1) + (k - 1), vid + k, ds[1..][k - 1].instances, ds[k].instances);
      RealiseTail(xs, rest, vid, k, ds[k].instances);
    }
  }

  lemma Reindex(xs: seq<Instance>, v: nat, w: nat, d: seq<DraftInstance>, e: seq<DraftInstance>)
    requires v == w && d == e
    requires Realises(InstancesOf(xs, v), v, d)
    ensures Realises(InstancesOf(xs, w), w, e)
  {
  }

  lemma {:induction false} RealiseTail(xs: seq<Instance>, rest: seq<Instance>, vid: nat, k: nat, d: seq<DraftInstance>)
    requires 0 < k
    requires forall x | x in xs :: x.vulnerabilityId == vid
    requires Realises(InstancesOf(rest, vid + k), vid + k, d)
    ensures Realises(InstancesOf(xs + rest, vid + k), vid + k, d)
  {
    InstancesOfSkip(xs, rest, vid + k);
  }

  /** Rows of other vulnerabilities in front change nothing about a vulnerability's rows. */
  lemma InstancesOfSkip(xs: seq<Instance>, rest: seq<Instance>, w: nat)
    requires forall x | x in xs :: x.vulnerabilityId != w
    ensures InstancesOf(xs + rest, w) == InstancesOf(rest, w)
  {
    InstancesOfAppend(xs, rest, w);
    InstancesOfNone(xs, w);
    assert [] + InstancesOf(rest, w) == InstancesOf(rest, w);
  }

  lemma {:induction false} RealiseHead(xs: seq<Instance>, rest: seq<Instance>, vid: nat, d: seq<DraftInstance>)
    requires Realises(xs, vid, d)
    requires forall x | x in xs :: x.vulnerabilityId == vid
    requires forall x | x in rest :: x.vulnerabilityId > vid
    ensures Realises(InstancesOf(xs + rest, vid), vid, d)
  {
    InstancesOfAppend(xs, rest, vid);
    InstancesOfAll(xs, vid);
    InstancesOfNone(rest, vid);
    assert xs + [] == xs;
  }

  /** Writing a draft keeps the store consistent and every stored severity known. */
  lemma {:induction false} PersistValid(db: Db, d: Draft, fileName: Option<string>, now: string)
    requires Valid(db)
    ensures Valid(Persist(db, d, fileName, now).0)
    ensures KnownSeverities(db) ==> KnownSeverities(Persist(db, d, fileName, now).0)
  {
    var rid, vid, iid := db.nextReportId, db.nextVulnerabilityId, db.nextInstanceId;
    var report := Report(rid, d.siteUrl, d.summarySequences, d.sequenceDetails, fileName, now, JNull);
    var vs, xs := VulnerabilityRows(d.vulnerabilities, rid, vid), InstanceRows(d.vulnerabilities, vid, iid);
    PersistedInstanceIds(d.vulnerabilities, vid, iid);
    var db' := Persist(db, d, fileName, now).0;
    assert db' == Db(db.reports + [report], db.vulnerabilities + vs, db.instances + xs, rid + 1, vid + |vs|, iid + |xs|);
    PersistKeepsValid(db, db', report, vs, xs, vid, iid);
    PersistedSeverities(d.vulnerabilities, rid, vid);
  }

  /** Every written severity is the name of a level. */
  lemma {:induction false} PersistedSeverities(ds: seq<DraftVulnerability>, rid: nat, vid: nat)
    ensures forall v | v in VulnerabilityRows(ds, rid, vid) :: ParseSeverity(v.severity).Some?
  {
    var vs := VulnerabilityRows(ds, rid, vid);
    SeverityEnumeration();
    forall v | v in vs ensures ParseSeverity(v.severity).Some? {
      var k :| 0 <= k < |vs| && vs[k] == v;
      assert v.severity == ds[k].severity.Name();
    }
  }

  lemma {:induction false} PersistKeepsValid(db: Db, db': Db, report: Report, vs: seq<Vulnerability>, xs: seq<Instance>, vid: nat, iid: nat)
    requires Valid(db)
    requires vid == db.nextVulnerabilityId && iid == db.nextInstanceId
    requires report.id == db.nextReportId
    requires forall k | 0 <= k < |vs| :: vs[k].id == vid + k && vs[k].reportId == report.id
    requires InstancesSorted(xs)
    requires forall x | x in xs :: iid <= x.id < iid + |xs| && vid <= x.vulnerabilityId < vid + |vs|
    requires db' == Db(db.reports + [report], db.vulnerabilities + vs, db.instances + xs,
                       report.id + 1, vid + |vs|, iid + |xs|)
    ensures Valid(db')
  {
    assert ReportsSorted(db'.reports) by {
      forall i, j | 0 <= i < j < |db'.reports| ensures db'.reports[i].id < db'.reports[j].id {
        assert db'.reports[i] in db.reports;
        if j < |db.reports| {
          assert db'.reports[j] == db.reports[j];
        }
      }
    }
    assert VulnerabilitiesSorted(db'.vulnerabilities) by {
      var all := db'.vulnerabilities;
      forall i, j | 0 <= i < j < |all| ensures all[i].id < all[j].id {
        if j < |db.vulnerabilities| {
          assert all[i] == db.vulnerabilities[i] && all[j] == db.vulnerabilities[j];
        } else if i < |db.vulnerabilities| {
          assert all[i] in db.vulnerabilities;
          assert all[j] == vs[j - |db.vulnerabilities|];
        } else {
          assert all[i] == vs[i - |db.vulnerabilities|] && all[j] == vs[j - |db.vulnerabilities|];
        }
      }
    }
    assert InstancesSorted(db'.instances) by {
      var all := db'.instances;
      forall i, j | 0 <= i < j < |all| ensures all[i].id < all[j].id {
        if j < |db.instances| {
          assert all[i] == db.instances[i] && all[j] == db.instances[j];
        } else if i < |db.instances| {
          assert all[i] in db.instances;
          assert all[j] in xs;
        } else {
          assert all[i] == xs[i - |db.instances|] && all[j] == xs[j - |db.instances|];
        }
      }
    }
    forall v | v in db'.vulnerabilities ensures 0 < v.id < db'.nextVulnerabilityId && v.reportId in ReportIds(db') {
      if v in db.vulnerabilities {
        var r :| r in db.reports && r.id == v.reportId;
        assert r in db'.reports;
      } else {
        var k :| 0 <= k < |vs| && vs[k] == v;
        assert report in db'.reports;
      }
    }
    forall x | x in db'.instances ensures x.vulnerabilityId in VulnerabilityIds(db') {
      if x in db.instances {
        var v :| v in db.vulnerabilities && v.id == x.vulnerabilityId;
        assert v in db'.vulnerabilities;
      } else {
        var k := x.vulnerabilityId - vid;
        assert vs[k] in db'.vulnerabilities;
      }
    }
  }

  /**
   * A successful import adds exactly one report, under a fresh identifier, holding
   * the decomposed document; the rows already stored are kept as they were and the
   * store stays consistent.
   */
  lemma {:induction false} ImportedView(db: Db, doc: Json, fileName: Option<string>, now: string, order: seq<Severity>)
    requires Valid(db)
    requires ImportJson(db, doc, fileName, now, order).Ok?
    ensures var (db', rid) := ImportJson(db, doc, fileName, now, order).value;
            var d := Decompose(doc, order).value;
            && Valid(db')
            && rid !in ReportIds(db)
            && ReportIds(db') == ReportIds(db) + {rid}
            && FindReport(db'.reports, rid) == Some(Report(rid, d.siteUrl, d.summarySequences, d.sequenceDetails, fileName, now, JNull))
            && Stores(db', rid, db.nextVulnerabilityId, d)
            && db.reports <= db'.reports && db.vulnerabilities <= db'.vulnerabilities && db.instances <= db'.instances
  {
    var d := Decompose(doc, order).value;
    assert ImportJson(db, doc, fileName, now, order).value == Persist(db, d, fileName, now);
    PersistValid(db, d, fileName, now);
    PersistFindsReport(db, d, fileName, now);
    PersistStores(db, d, fileName, now);
  }

  /** The new report row is found under the new identifier, which no earlier row used. */
  lemma {:induction false} PersistFindsReport(db: Db, d: Draft, fileName: Option<string>, now: string)
    requires Valid(db)
    ensures var (db', rid) := Persist(db, d, fileName, now);
            && rid !in ReportIds(db)
            && ReportIds(db') == ReportIds(db) + {rid}
            && FindReport(db'.reports, rid) == Some(Report(rid, d.siteUrl, d.summarySequences, d.sequenceDetails, fileName, now, JNull))
  {
    var (db', rid) := Persist(db, d, fileName, now);
    var report := Report(rid, d.siteUrl, d.summarySequences, d.sequenceDetails, fileName, now, JNull);
    assert db'.reports == db.reports + [report];
    assert rid !in ReportIds(db);
    assert ReportIds(db') == ReportIds(db) + {rid};
    var found := FindReport(db'.reports, rid);
    assert found == Some(report) by {
      assert report in db'.reports;
      assert found.value !in db.reports;
    }
  }

  /** The persisted rows of a draft are exactly what the draft describes. */
  lemma {:induction false} PersistStores(db: Db, d: Draft, fileName: Option<string>, now: string)
    requires Valid(db)
    ensures Stores(Persist(db, d, fileName, now).0, db.nextReportId, db.nextVulnerabilityId, d)
  {
    PersistedVulnerabilities(db, d, fileName, now);
    InstanceOwnersBelow(db);
    forall k | 0 <= k < |d.vulnerabilities|
      ensures Realises(InstancesOf(Persist(db, d, fileName, now).0.instances, db.nextVulnerabilityId + k),
                       db.nextVulnerabilityId + k, d.vulnerabilities[k].instances)
    {
      PersistedInstances(db, d, fileName, now, k);
    }
  }

  lemma {:induction false} PersistedVulnerabilities(db: Db, d: Draft, fileName: Option<string>, now: string)
    requires Valid(db)
    ensures VulnerabilitiesOf(Persist(db, d, fileName, now).0.vulnerabilities, db.nextReportId)
            == VulnerabilityRows(d.vulnerabilities, db.nextReportId, db.nextVulnerabilityId)
  {
    var rid := db.nextReportId;
    var vs := VulnerabilityRows(d.vulnerabilities, rid, db.nextVulnerabilityId);
    assert Persist(db, d, fileName, now).0.vulnerabilities == db.vulnerabilities + vs;
    VulnerabilitiesOfAppend(db.vulnerabilities, vs, rid);
    VulnerabilitiesOfNone(db.vulnerabilities, rid);
    VulnerabilitiesOfAll(vs, rid);
  }

  lemma {:induction false} PersistedInstances(db: Db, d: Draft, fileName: Option<string>, now: string, k: nat)
    requires k < |d.vulnerabilities|
    requires forall x | x in db.instances :: x.vulnerabilityId < db.nextVulnerabilityId
    ensures Realises(InstancesOf(Persist(db, d, fileName, now).0.instances, db.nextVulnerabilityId + k),
                     db.nextVulnerabilityId + k, d.vulnerabilities[k].instances)
  {
    PersistedInstancesRealise(d.vulnerabilities, db.nextVulnerabilityId, db.nextInstanceId, k);
    RealisesInTable(db, d, fileName, now, db.nextVulnerabilityId + k, d.vulnerabilities[k].instances);
  }

  lemma {:induction false} RealisesInTable(db: Db, d: Draft, fileName: Option<string>, now: string, v: nat, ds: seq<DraftInstance>)
    requires forall x | x in db.instances :: x.vulnerabilityId < v
    requires Realises(InstancesOf(InstanceRows(d.vulnerabilities, db.nextVulnerabilityId, db.nextInstanceId), v), v, ds)
    ensures Realises(InstancesOf(Persist(db, d, fileName, now).0.instances, v), v, ds)
  {
    var xs := InstanceRows(d.vulnerabilities, db.nextVulnerabilityId, db.nextInstanceId);
    RealiseAfter(db.instances, xs, v, ds);
    assert Persist(db, d, fileName, now).0.instances == db.instances + xs;
  }

  lemma {:induction false} InstanceOwnersBelow(db: Db)
    requires Valid(db)
    ensures forall x | x in db.instances :: x.vulnerabilityId < db.nextVulnerabilityId
  {
    forall x | x in db.instances ensures x.vulnerabilityId < db.nextVulnerabilityId {
      var v :| v in db.vulnerabilities && v.id == x.vulnerabilityId;
    }
  }

  lemma {:induction false} RealiseAfter(before: seq<Instance>, xs: seq<Instance>, vid: nat, d: seq<DraftInstance>)
    requires forall x | x in before :: x.vulnerabilityId < vid
    requires Realises(InstancesOf(xs, vid), vid, d)
    ensures Realises(InstancesOf(before + xs, vid), vid, d)
  {
    InstancesOfAppend(before, xs, vid);
    InstancesOfNone(before, vid);
    assert [] + InstancesOf(xs, vid) == InstancesOf(xs, vid);
  }
}

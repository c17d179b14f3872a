/**
 * Import followed by export: the exported document of a freshly imported
 * report carries the imported header, groups the vulnerabilities by severity
 * in document order, and gives back every instance's URL, extra keys and
 * truthy named fields.
 */
module RoundTrip {
  import opened Base
  import opened Json
  import opened Models
  import opened Importer
  import opened Persistence
  import opened Exporter

  /** How a drafted instance exports once stored: pending, with no fix data. */
  function RenderDraft(d: DraftInstance, withStatus: bool): Fields {
    RenderInstance(NewInstance(0, 0, d), withStatus)
  }

  function RenderDrafts(ds: seq<DraftInstance>, withStatus: bool): (r: seq<Json>)
    ensures |r| == |ds|
  {
    if |ds| == 0 then [] else [JObj(RenderDraft(ds[0], withStatus))] + RenderDrafts(ds[1..], withStatus)
  }

  /** How a drafted vulnerability exports once stored. */
  function DraftEntry(d: DraftVulnerability, withStatus: bool): Json {
    JObj([(d.title, JObj([("Description", d.description), ("instances", JArr(RenderDrafts(d.instances, withStatus)))]))])
  }

  function DraftEntries(ds: seq<DraftVulnerability>, withStatus: bool): (r: seq<Json>)
    ensures |r| == |ds|
  {
    if |ds| == 0 then [] else [DraftEntry(ds[0], withStatus)] + DraftEntries(ds[1..], withStatus)
  }

  /** Rows fresh from import export exactly as their drafts do. */
  lemma {:induction false} RenderFresh(xs: seq<Instance>, vid: nat, ds: seq<DraftInstance>, withStatus: bool)
    requires Realises(xs, vid, ds)
    ensures RenderInstances(xs, withStatus) == RenderDrafts(ds, withStatus)
    decreases |xs|
  {
    if |xs| > 0 {
      RenderFresh(xs[1..], vid, ds[1..], withStatus);
    }
  }

  /**
   * The stored vulnerabilities of a report, written from drafts `dvs` with
   * identifiers from `vid`, export under each severity as the drafts of that
   * severity do, in draft order.
   */
  lemma {:induction false} EntriesMatch(vs: seq<Vulnerability>, dvs: seq<DraftVulnerability>, xs: seq<Instance>,
                                        rid: nat, vid: nat, s: Severity, withStatus: bool)
    requires |vs| == |dvs|
    requires forall k | 0 <= k < |vs| ::
               vs[k] == Vulnerability(vid + k, rid, dvs[k].severity.Name(), dvs[k].title, dvs[k].description)
    requires forall k | 0 <= k < |vs| :: Realises(InstancesOf(xs, vid + k), vid + k, dvs[k].instances)
    ensures EntriesWith(vs, s.Name(), xs, withStatus) == DraftEntries(OfSeverity(dvs, s), withStatus)
    decreases |vs|
  {
    if |vs| > 0 {
      SeverityEnumeration();
      forall k | 0 <= k < |vs[1..]|
        ensures vs[1..][k] == Vulnerability((vid + 1) + k, rid, dvs[1..][k].severity.Name(), dvs[1..][k].title, dvs[1..][k].description)
        ensures Realises(InstancesOf(xs, (vid + 1) + k), (vid + 1) + k, dvs[1..][k].instances)
      {
        assert vs[1..][k] == vs[k + 1] && dvs[1..][k] == dvs[k + 1];
      }
      EntriesMatch(vs[1..], dvs[1..], xs, rid, vid + 1, s, withStatus);
      if dvs[0].severity == s {
        RenderFresh(InstancesOf(xs, vid), vid, dvs[0].instances, withStatus);
      }
    }
  }

  /** The header keys are not severity names. */
  lemma {:induction false} HeaderKeysAreNotSeverities(rep: Report, now: string, s: Severity)
    requires !Truthy(rep.notes)
    ensures Get(Header(rep, now), s.Name()) == None
  {
    HeaderKeys(rep, now);
  }

  /**
   * A report stored as drafted, with no notes, exports its header and under each
   * severity key the entries of that severity's drafts in order, the key being
   * absent when there are none.
   */
  lemma {:induction false} ExportStored(db: Db, rid: nat, vid: nat, d: Draft, rep: Report, withStatus: bool, later: string)
    requires FindReport(db.reports, rid) == Some(rep)
    requires !Truthy(rep.notes)
    requires Stores(db, rid, vid, d)
    ensures ExportReport(db, rid, withStatus, later).Ok?
    ensures var out := ExportReport(db, rid, withStatus, later).value.fields;
            && Get(out, "SiteURL") == Some(rep.siteUrl)
            && Get(out, "SummaryofSequences") == Some(rep.summarySequences)
            && Get(out, "SequenceDetails") == Some(rep.sequenceDetails)
            && Get(out, "exported_at") == Some(JStr(later))
            && Get(out, "report_notes") == None
            && forall s: Severity :: Get(out, s.Name()) ==
                 if OfSeverity(d.vulnerabilities, s) == [] then None
                 else Some(JArr(DraftEntries(OfSeverity(d.vulnerabilities, s), withStatus)))
  {
    StoredSeveritiesNamed(db, rid, vid, d);
    ExportNamedOk(db, rid, rep, withStatus, later);
    ExportNamedHeader(db, rid, rep, withStatus, later);
    var vs := VulnerabilitiesOf(db.vulnerabilities, rid);
    forall s: Severity
      ensures Get(AddVulnerabilities(Header(rep, later), vs, db.instances, withStatus).value, s.Name()) ==
                if OfSeverity(d.vulnerabilities, s) == [] then None
                else Some(JArr(DraftEntries(OfSeverity(d.vulnerabilities, s), withStatus)))
    {
      HeaderKeysAreNotSeverities(rep, later, s);
      SeverityEntries(Header(rep, later), vs, d.vulnerabilities, db.instances, rid, vid, s, withStatus);
    }
  }

  /** The header survives the vulnerability loop when every severity is named. */
  lemma {:induction false} ExportNamedHeader(db: Db, rid: nat, rep: Report, withStatus: bool, later: string)
    requires FindReport(db.reports, rid) == Some(rep)
    requires !Truthy(rep.notes)
    requires SeveritiesNamed(VulnerabilitiesOf(db.vulnerabilities, rid))
    ensures ExportReport(db, rid, withStatus, later).Ok?
    ensures var out := ExportReport(db, rid, withStatus, later).value.fields;
            && Get(out, "SiteURL") == Some(rep.siteUrl)
            && Get(out, "SummaryofSequences") == Some(rep.summarySequences)
            && Get(out, "SequenceDetails") == Some(rep.sequenceDetails)
            && Get(out, "exported_at") == Some(JStr(later))
            && Get(out, "report_notes") == None
  {
    var header := Header(rep, later);
    var vs := VulnerabilitiesOf(db.vulnerabilities, rid);
    ExportNamedOk(db, rid, rep, withStatus, later);
    HeaderGet(rep, later);
    HeaderKeysUnnamed();
    NamedSeveritiesSkip(header, vs, db.instances, withStatus, "SiteURL");
    NamedSeveritiesSkip(header, vs, db.instances, withStatus, "SummaryofSequences");
    NamedSeveritiesSkip(header, vs, db.instances, withStatus, "SequenceDetails");
    NamedSeveritiesSkip(header, vs, db.instances, withStatus, "exported_at");
    NamedSeveritiesSkip(header, vs, db.instances, withStatus, "report_notes");
  }

  /** Under one severity key absent from the header, the loop lists that severity's drafts in order. */
  lemma {:induction false} SeverityEntries(header: Fields, vs: seq<Vulnerability>, dvs: seq<DraftVulnerability>,
                                           xs: seq<Instance>, rid: nat, vid: nat, s: Severity, withStatus: bool)
    requires |vs| == |dvs|
    requires forall k | 0 <= k < |vs| ::
               vs[k] == Vulnerability(vid + k, rid, dvs[k].severity.Name(), dvs[k].title, dvs[k].description)
    requires forall k | 0 <= k < |vs| :: Realises(InstancesOf(xs, vid + k), vid + k, dvs[k].instances)
    requires Get(header, s.Name()) == None
    requires AddVulnerabilities(header, vs, xs, withStatus).Ok?
    ensures Get(AddVulnerabilities(header, vs, xs, withStatus).value, s.Name()) ==
              if OfSeverity(dvs, s) == [] then None else Some(JArr(DraftEntries(OfSeverity(dvs, s), withStatus)))
  {
    AddVulnerabilitiesGet(header, vs, xs, withStatus, s.Name());
    EntriesMatch(vs, dvs, xs, rid, vid, s, withStatus);
    var es := EntriesWith(vs, s.Name(), xs, withStatus);
    assert ItemsAt(header, s.Name()) == [];
    assert ItemsAt(header, s.Name()) + es == es;
    assert |es| == 0 <==> OfSeverity(dvs, s) == [];
  }

  /** No header key names a severity. */
  lemma HeaderKeysUnnamed()
    ensures ParseSeverity("SiteURL").None? && ParseSeverity("SummaryofSequences").None?
    ensures ParseSeverity("SequenceDetails").None? && ParseSeverity("exported_at").None?
    ensures ParseSeverity("report_notes").None?
  {
  }

  /** Every vulnerability in `vs` is stored under a severity name. */
  predicate SeveritiesNamed(vs: seq<Vulnerability>) {
    forall v | v in vs :: ParseSeverity(v.severity).Some?
  }

  lemma {:induction false} StoredSeveritiesNamed(db: Db, rid: nat, vid: nat, d: Draft)
    requires Stores(db, rid, vid, d)
    ensures SeveritiesNamed(VulnerabilitiesOf(db.vulnerabilities, rid))
  {
    var vs := VulnerabilitiesOf(db.vulnerabilities, rid);
    SeverityEnumeration();
    forall v | v in vs ensures ParseSeverity(v.severity).Some? {
      var k :| 0 <= k < |vs| && vs[k] == v;
      assert v.severity == d.vulnerabilities[k].severity.Name();
    }
  }

  /** A report without notes whose severities are all named exports without error. */
  lemma {:induction false} ExportNamedOk(db: Db, rid: nat, rep: Report, withStatus: bool, later: string)
    requires FindReport(db.reports, rid) == Some(rep)
    requires !Truthy(rep.notes)
    requires SeveritiesNamed(VulnerabilitiesOf(db.vulnerabilities, rid))
    ensures AddVulnerabilities(Header(rep, later), VulnerabilitiesOf(db.vulnerabilities, rid), db.instances, withStatus).Ok?
    ensures ExportReport(db, rid, withStatus, later) ==
              Ok(JObj(AddVulnerabilities(Header(rep, later), VulnerabilitiesOf(db.vulnerabilities, rid), db.instances, withStatus).value))
  {
    var header := Header(rep, later);
    var vs := VulnerabilitiesOf(db.vulnerabilities, rid);
    forall v | v in vs ensures Appendable(header, v.severity) {
      HeaderKeysAreNotSeverities(rep, later, ParseSeverity(v.severity).value);
    }
    AddVulnerabilitiesOk(header, vs, db.instances, withStatus);
  }

  /** Keys that are not severity names are left alone by the vulnerability loop. */
  lemma {:induction false} NamedSeveritiesSkip(out: Fields, vs: seq<Vulnerability>, xs: seq<Instance>, withStatus: bool, key: string)
    requires SeveritiesNamed(vs)
    requires ParseSeverity(key).None?
    requires AddVulnerabilities(out, vs, xs, withStatus).Ok?
    ensures Get(AddVulnerabilities(out, vs, xs, withStatus).value, key) == Get(out, key)
  {
    AddVulnerabilitiesGet(out, vs, xs, withStatus, key);
  }

  /**
   * Exporting a freshly imported report gives back the imported header, no notes,
   * and under each severity key the entries of that severity's drafts in order,
   * the key being absent when there are none.
   */
  lemma {:induction false} ExportAfterImport(db: Db, doc: Json, fileName: Option<string>, now: string, order: seq<Severity>,
                                             withStatus: bool, later: string)
    requires Valid(db)
    requires ImportJson(db, doc, fileName, now, order).Ok?
    ensures var (db', rid) := ImportJson(db, doc, fileName, now, order).value;
            var d := Decompose(doc, order).value;
            && ExportReport(db', rid, withStatus, later).Ok?
            && var out := ExportReport(db', rid, withStatus, later).value.fields;
               && Get(out, "SiteURL") == Some(d.siteUrl)
               && Get(out, "SummaryofSequences") == Some(d.summarySequences)
               && Get(out, "SequenceDetails") == Some(d.sequenceDetails)
               && Get(out, "exported_at") == Some(JStr(later))
               && Get(out, "report_notes") == None
               && forall s: Severity :: Get(out, s.Name()) ==
                    if OfSeverity(d.vulnerabilities, s) == [] then None
                    else Some(JArr(DraftEntries(OfSeverity(d.vulnerabilities, s), withStatus)))
  {
    var (db', rid) := ImportJson(db, doc, fileName, now, order).value;
    var d := Decompose(doc, order).value;
    ImportedView(db, doc, fileName, now, order);
    var rep := Report(rid, d.siteUrl, d.summarySequences, d.sequenceDetails, fileName, now, JNull);
    ExportStored(db', rid, db.nextVulnerabilityId, d, rep, withStatus, later);
  }

  /**
   * One instance object through import and export: the exported row has the
   * URL, a `content` mapping holding exactly the truthy named columns as the
   * import resolved them, every non-reserved key of the object with its value,
   * under `withStatus` a `_fix_status` entry, and nothing else.
   */
  lemma InstanceRoundTrip(inst: Fields, withStatus: bool)
    requires DistinctKeys(inst)
    requires ContentOf(inst).JObj? && UrlOf(inst) != JNull
    ensures var r := RenderDraft(ImportInstance(inst).value, withStatus);
            && Get(r, "URL") == Some(UrlOf(inst))
            && Get(r, "content") == Some(JObj(ContentFrom(ImportInstance(inst).value.fields, Labels)))
            && (forall k | k in UnreservedKeys(inst) && !(withStatus && k == "_fix_status") :: Get(r, k) == Get(inst, k))
            && (forall k :: Get(r, k).Some? <==>
                  (k == "URL" || k == "content" || k in UnreservedKeys(inst) || (withStatus && k == "_fix_status")))
    ensures forall l: Label ::
              var v := Resolve(ContentOf(inst).fields, inst, l);
              Get(ContentFrom(ImportInstance(inst).value.fields, Labels), l.Key()) == if Truthy(v) then Some(v) else None
  {
    var d := ImportInstance(inst).value;
    ImportInstanceSpec(inst);
    ExtraFieldsSpec(inst);
    RenderedRow(inst, d, withStatus);
    forall l: Label
      ensures var v := Resolve(ContentOf(inst).fields, inst, l);
              Get(ContentFrom(d.fields, Labels), l.Key()) == if Truthy(v) then Some(v) else None
    {
      ContentGet(d.fields, l);
    }
  }

  /** The exported row of a draft whose URL and extra-field bag come from `inst`. */
  lemma RenderedRow(inst: Fields, d: DraftInstance, withStatus: bool)
    requires d.url == UrlOf(inst)
    requires d.extraData.None? <==> UnreservedKeys(inst) == {}
    requires d.extraData.Some? ==> d.extraData.value == ExtraFields(inst)
    requires DistinctKeys(ExtraFields(inst))
    requires Keys(ExtraFields(inst)) == UnreservedKeys(inst)
    requires forall k | k in UnreservedKeys(inst) :: Get(ExtraFields(inst), k) == Get(inst, k)
    ensures var r := RenderDraft(d, withStatus);
            && Get(r, "URL") == Some(UrlOf(inst))
            && Get(r, "content") == Some(JObj(ContentFrom(d.fields, Labels)))
            && (forall k | k in UnreservedKeys(inst) && !(withStatus && k == "_fix_status") :: Get(r, k) == Get(inst, k))
            && (forall k :: Get(r, k).Some? <==>
                  (k == "URL" || k == "content" || k in UnreservedKeys(inst) || (withStatus && k == "_fix_status")))
  {
    var x := NewInstance(0, 0, d);
    var extra := if d.extraData.Some? then d.extraData.value else [];
    assert Keys(extra) == UnreservedKeys(inst) by {
      if d.extraData.None? { KeysEmpty(extra); }
    }
    assert "URL" !in Keys(extra) && "content" !in Keys(extra) by {
      assert IsReservedKey("URL") && IsReservedKey("content");
    }
    RenderInstanceGet(x, withStatus, "URL");
    RenderInstanceGet(x, withStatus, "content");
    forall k | k in UnreservedKeys(inst) && !(withStatus && k == "_fix_status")
      ensures Get(RenderDraft(d, withStatus), k) == Get(inst, k)
    {
      RenderInstanceGet(x, withStatus, k);
    }
    RenderedKeys(d, extra, withStatus);
  }

  /** A row exports exactly its URL, its content, its extra keys and, under `withStatus`, `_fix_status`. */
  lemma RenderedKeys(d: DraftInstance, extra: Fields, withStatus: bool)
    requires extra == if d.extraData.Some? then d.extraData.value else []
    requires d.extraData.Some? ==> DistinctKeys(d.extraData.value)
    ensures forall k :: Get(RenderDraft(d, withStatus), k).Some? <==>
              (k == "URL" || k == "content" || k in Keys(extra) || (withStatus && k == "_fix_status"))
  {
    forall k ensures Get(RenderDraft(d, withStatus), k).Some? <==>
                       (k == "URL" || k == "content" || k in Keys(extra) || (withStatus && k == "_fix_status"))
    {
      RenderInstanceGet(NewInstance(0, 0, d), withStatus, k);
    }
  }
}

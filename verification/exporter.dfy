/**
 * The exporter: rebuilds the nested scan document of one stored report
 * (ReportService.export_report), optionally carrying each instance's
 * remediation state under `_fix_status`.
 *
 * The output object starts with the four header keys; each vulnerability is
 * then appended as a `{title: {Description, instances}}` entry to the array
 * under its severity, which is created the first time that severity is met.
 */
module Exporter {
  import opened Base
  import opened Json
  import opened Models

  /** The exceptions that abort an export. */
  datatype ExportError =
    | ReportNotFound      // `Report.query.get_or_404`
    | SeverityKeyNotList  // `output[severity].append` where a header key holds a non-list

  // ---------------------------------------------------------------------------
  // One instance

  /** The `content` mapping: every named field whose value is truthy, in label order. */
  function ContentFrom(f: NamedFields, ls: seq<Label>): (r: Fields)
    ensures |r| <= |ls|
    decreases |ls|
  {
    if |ls| == 0 then []
    else (if Truthy(f.Field(ls[0])) then [(ls[0].Key(), f.Field(ls[0]))] else []) + ContentFrom(f, ls[1..])
  }

  /** Distinct labels have distinct document keys. */
  lemma LabelKeysDistinct()
    ensures forall l: Label, m: Label :: l.Key() == m.Key() ==> l == m
    ensures forall i, j | 0 <= i < j < |Labels| :: Labels[i] != Labels[j]
    ensures forall l: Label :: l in Labels
  {
    forall l: Label ensures l in Labels {
      match l
      case Method => assert Labels[0] == l;
      case Parameter => assert Labels[1] == l;
      case Attack => assert Labels[2] == l;
      case Evidence => assert Labels[3] == l;
      case OtherInfo => assert Labels[4] == l;
    }
  }

  /**
   * A label's key is in the content mapping exactly when the label is listed and
   * its field is truthy, and then it maps to that field.
   */
  lemma {:induction false} ContentFromGet(f: NamedFields, ls: seq<Label>, l: Label)
    requires forall i, j | 0 <= i < j < |ls| :: ls[i] != ls[j]
    ensures Get(ContentFrom(f, ls), l.Key()) == if l in ls && Truthy(f.Field(l)) then Some(f.Field(l)) else None
    decreases |ls|
  {
    if |ls| > 0 {
      LabelKeysDistinct();
      var rest := ContentFrom(f, ls[1..]);
      assert forall i, j | 0 <= i < j < |ls[1..]| :: ls[1..][i] != ls[1..][j] by {
        forall i, j | 0 <= i < j < |ls[1..]| ensures ls[1..][i] != ls[1..][j] {
          assert ls[1..][i] == ls[i + 1] && ls[1..][j] == ls[j + 1];
        }
      }
      ContentFromGet(f, ls[1..], l);
      var head: Fields := if Truthy(f.Field(ls[0])) then [(ls[0].Key(), f.Field(ls[0]))] else [];
      GetAppend(head, rest, l.Key());
      if ls[0] == l {
        assert l !in ls[1..] by {
          forall i | 0 <= i < |ls[1..]| ensures ls[1..][i] != l {
            assert ls[1..][i] == ls[i + 1];
          }
        }
      } else {
        assert l in ls <==> l in ls[1..];
      }
    }
  }

  /** The content mapping of a row: the truthy named fields, keyed by their labels. */
  lemma ContentGet(f: NamedFields, l: Label)
    ensures Get(ContentFrom(f, Labels), l.Key()) == if Truthy(f.Field(l)) then Some(f.Field(l)) else None
  {
    LabelKeysDistinct();
    ContentFromGet(f, Labels, l);
  }

  /** The `_fix_status` object of a row. */
  function FixStatusJson(x: Instance): Json {
    JObj([("status", JStr(x.fixStatus)),
          ("fixed_at", match x.fixedAt case Some(t) => JStr(t) case None => JNull),
          ("fixed_by", x.fixedBy),
          ("notes", x.fixNotes)])
  }

  /** The object one instance row is exported as. */
  function RenderInstance(x: Instance, withStatus: bool): (r: Fields)
    ensures "URL" in Keys(r) && "content" in Keys(r)
    ensures withStatus ==> "_fix_status" in Keys(r)
  {
    var base := [("URL", x.url), ("content", JObj(ContentFrom(x.fields, Labels)))];
    assert "URL" in Keys(base) && "content" in Keys(base);
    var withExtra := if x.extraData.Some? && |x.extraData.value| > 0 then UpdateAll(base, x.extraData.value) else base;
    if withStatus then Put(withExtra, "_fix_status", FixStatusJson(x)) else withExtra
  }

  /** The rows of one vulnerability, exported in order. */
  function RenderInstances(xs: seq<Instance>, withStatus: bool): (r: seq<Json>)
    ensures |r| == |xs|
  {
    if |xs| == 0 then [] else [JObj(RenderInstance(xs[0], withStatus))] + RenderInstances(xs[1..], withStatus)
  }

  /**
   * What a row exports as: the URL and the content mapping unless an extra key
   * of the same name overrides them, every extra key with its stored value, and
   * under `withStatus` the remediation state, which wins over an extra key of that name.
   */
  lemma RenderInstanceGet(x: Instance, withStatus: bool, k: string)
    requires x.extraData.Some? ==> DistinctKeys(x.extraData.value)
    ensures var r := RenderInstance(x, withStatus);
            var extra := if x.extraData.Some? then x.extraData.value else [];
            Get(r, k) ==
              if withStatus && k == "_fix_status" then Some(FixStatusJson(x))
              else if k in Keys(extra) then Get(extra, k)
              else if k == "URL" then Some(x.url)
              else if k == "content" then Some(JObj(ContentFrom(x.fields, Labels)))
              else None
  {
    var base := [("URL", x.url), ("content", JObj(ContentFrom(x.fields, Labels)))];
    var extra := if x.extraData.Some? then x.extraData.value else [];
    var withExtra := if x.extraData.Some? && |x.extraData.value| > 0 then UpdateAll(base, x.extraData.value) else base;
    KeysEmpty(extra);
    if k in Keys(extra) {
      UpdateAllGet(base, extra, k);
    } else if x.extraData.Some? && |x.extraData.value| > 0 {
      UpdateAllGetOther(base, extra, k);
    }
    if withStatus {
      PutGet(withExtra, "_fix_status", FixStatusJson(x), k);
    }
  }

  // ---------------------------------------------------------------------------
  // Vulnerabilities

  /** `{vuln.title: {'Description': ..., 'instances': [...]}}`. */
  function VulnEntry(v: Vulnerability, insts: seq<Instance>, withStatus: bool): Json {
    JObj([(v.title, JObj([("Description", v.description), ("instances", JArr(RenderInstances(insts, withStatus)))]))])
  }

  /** `key` holds nothing or an array. */
  predicate Appendable(out: Fields, key: string) {
    Get(out, key).None? || Get(out, key).value.JArr?
  }

  /** `if severity not in output: output[severity] = []`, then `output[severity].append(entry)`. */
  function AppendEntry(out: Fields, key: string, entry: Json): (r: Result<Fields, ExportError>)
    ensures r.Err? <==> !Appendable(out, key)
    ensures r.Err? ==> r.error == SeverityKeyNotList
  {
    match Get(out, key)
    case None => Ok(Put(out, key, JArr([entry])))
    case Some(JArr(items)) => Ok(Put(out, key, JArr(items + [entry])))
    case Some(_) => Err(SeverityKeyNotList)
  }

  /** After an append, `key` holds its old items followed by the entry; every other key is unchanged. */
  lemma AppendEntryGet(out: Fields, key: string, entry: Json, k: string)
    requires AppendEntry(out, key, entry).Ok?
    ensures Get(AppendEntry(out, key, entry).value, k) ==
              if k == key then Some(JArr(ItemsAt(out, key) + [entry])) else Get(out, k)
  {
    AppendEntryValue(out, key, entry);
    PutGet(out, key, JArr(ItemsAt(out, key) + [entry]), k);
  }

  lemma AppendEntryValue(out: Fields, key: string, entry: Json)
    requires AppendEntry(out, key, entry).Ok?
    ensures AppendEntry(out, key, entry).value == Put(out, key, JArr(ItemsAt(out, key) + [entry]))
  {
    if Get(out, key).None? {
      assert ItemsAt(out, key) + [entry] == [entry];
    }
  }

  /** The loop over `report.vulnerabilities`. */
  function AddVulnerabilities(out: Fields, vs: seq<Vulnerability>, xs: seq<Instance>, withStatus: bool)
    : (r: Result<Fields, ExportError>)
    ensures r.Err? ==> r.error == SeverityKeyNotList
    decreases |vs|
  {
    if |vs| == 0 then Ok(out)
    else
      var out' :- AppendEntry(out, vs[0].severity, VulnEntry(vs[0], InstancesOf(xs, vs[0].id), withStatus));
      AddVulnerabilities(out', vs[1..], xs, withStatus)
  }

  /** The array already under `key`, or none. */
  function ItemsAt(out: Fields, key: string): seq<Json> {
    match Get(out, key)
    case Some(JArr(items)) => items
    case _ => []
  }

  /** The entries of the vulnerabilities stored under severity `key`, in order. */
  function EntriesWith(vs: seq<Vulnerability>, key: string, xs: seq<Instance>, withStatus: bool): (r: seq<Json>)
    ensures |r| <= |vs|
    ensures |r| == 0 <==> forall v | v in vs :: v.severity != key
  {
    if |vs| == 0 then []
    else
      var rest := EntriesWith(vs[1..], key, xs, withStatus);
      assert forall v | v in vs :: v == vs[0] || v in vs[1..];
      if vs[0].severity == key then [VulnEntry(vs[0], InstancesOf(xs, vs[0].id), withStatus)] + rest else rest
  }

  /**
   * The loop fails exactly when some vulnerability's severity names a key that
   * already holds a non-list.
   */
  lemma {:induction false} AddVulnerabilitiesOk(out: Fields, vs: seq<Vulnerability>, xs: seq<Instance>, withStatus: bool)
    ensures AddVulnerabilities(out, vs, xs, withStatus).Ok? <==> forall v | v in vs :: Appendable(out, v.severity)
    decreases |vs|
  {
    if |vs| > 0 {
      var key := vs[0].severity;
      var e := VulnEntry(vs[0], InstancesOf(xs, vs[0].id), withStatus);
      assert forall v | v in vs :: v == vs[0] || v in vs[1..];
      if AppendEntry(out, key, e).Ok? {
        var out' := AppendEntry(out, key, e).value;
        assert AddVulnerabilities(out, vs, xs, withStatus) == AddVulnerabilities(out', vs[1..], xs, withStatus);
        AddVulnerabilitiesOk(out', vs[1..], xs, withStatus);
        forall v | v in vs[1..] ensures Appendable(out', v.severity) <==> Appendable(out, v.severity) {
          AppendEntryGet(out, key, e, v.severity);
        }
      }
    }
  }

  /**
   * After the loop, a key that no vulnerability uses keeps its value; a severity
   * key holds what it held before followed by one entry per vulnerability of
   * that severity, in order.
   */
  lemma {:induction false} AddVulnerabilitiesGet(out: Fields, vs: seq<Vulnerability>, xs: seq<Instance>, withStatus: bool, key: string)
    requires AddVulnerabilities(out, vs, xs, withStatus).Ok?
    ensures Get(AddVulnerabilities(out, vs, xs, withStatus).value, key) ==
              if |EntriesWith(vs, key, xs, withStatus)| == 0 then Get(out, key)
              else Some(JArr(ItemsAt(out, key) + EntriesWith(vs, key, xs, withStatus)))
    decreases |vs|
  {
    if |vs| > 0 {
      var sev := vs[0].severity;
      var e := VulnEntry(vs[0], InstancesOf(xs, vs[0].id), withStatus);
      var out' := AppendEntry(out, sev, e).value;
      assert AddVulnerabilities(out, vs, xs, withStatus) == AddVulnerabilities(out', vs[1..], xs, withStatus);
      AddVulnerabilitiesGet(out', vs[1..], xs, withStatus, key);
      var rest := EntriesWith(vs[1..], key, xs, withStatus);
      assert EntriesWith(vs, key, xs, withStatus) == if sev == key then [e] + rest else rest;
      AppendThenGet(out, sev, e, key, rest);
    }
  }

  /** One append followed by the entries `rest` is the same as appending all at once. */
  lemma AppendThenGet(out: Fields, sev: string, e: Json, key: string, rest: seq<Json>)
    requires AppendEntry(out, sev, e).Ok?
    ensures var out' := AppendEntry(out, sev, e).value;
            var es := if sev == key then [e] + rest else rest;
            (if |rest| == 0 then Get(out', key) else Some(JArr(ItemsAt(out', key) + rest)))
            == (if |es| == 0 then Get(out, key) else Some(JArr(ItemsAt(out, key) + es)))
  {
    var out' := AppendEntry(out, sev, e).value;
    AppendEntryGet(out, sev, e, key);
    if sev == key {
      assert ItemsAt(out', key) == ItemsAt(out, key) + [e];
      assert ItemsAt(out, key) + [e] + rest == ItemsAt(out, key) + ([e] + rest);
      assert [e] + [] == [e];
    } else {
      assert ItemsAt(out', key) == ItemsAt(out, key);
    }
  }

  /** The keys after the loop: the old ones and every severity met. */
  lemma {:induction false} AddVulnerabilitiesKeys(out: Fields, vs: seq<Vulnerability>, xs: seq<Instance>, withStatus: bool)
    requires AddVulnerabilities(out, vs, xs, withStatus).Ok?
    ensures Keys(AddVulnerabilities(out, vs, xs, withStatus).value) == Keys(out) + set v | v in vs :: v.severity
    ensures DistinctKeys(out) ==> DistinctKeys(AddVulnerabilities(out, vs, xs, withStatus).value)
    decreases |vs|
  {
    if |vs| > 0 {
      var sev := vs[0].severity;
      var e := VulnEntry(vs[0], InstancesOf(xs, vs[0].id), withStatus);
      var out' := AppendEntry(out, sev, e).value;
      AppendEntryValue(out, sev, e);
      assert AddVulnerabilities(out, vs, xs, withStatus) == AddVulnerabilities(out', vs[1..], xs, withStatus);
      AddVulnerabilitiesKeys(out', vs[1..], xs, withStatus);
      if DistinctKeys(out) {
        PutDistinct(out, sev, JArr(ItemsAt(out, sev) + [e]));
      }
      SeveritiesCons(vs);
    }
  }

  lemma SeveritiesCons(vs: seq<Vulnerability>)
    requires |vs| > 0
    ensures (set v | v in vs :: v.severity) == {vs[0].severity} + set v | v in vs[1..] :: v.severity
  {
    assert forall v | v in vs :: v == vs[0] || v in vs[1..];
  }

  // ---------------------------------------------------------------------------
  // The report

  /** The header keys of every export, plus `report_notes` when the notes are truthy. */
  function Header(rep: Report, now: string): (r: Fields)
    ensures DistinctKeys(r)
  {
    [("SiteURL", rep.siteUrl), ("SummaryofSequences", rep.summarySequences),
     ("SequenceDetails", rep.sequenceDetails), ("exported_at", JStr(now))]
    + (if Truthy(rep.notes) then [("report_notes", rep.notes)] else [])
  }

  /** The header carries the report's three document fields, the export time and the truthy notes. */
  lemma HeaderGet(rep: Report, now: string)
    ensures Get(Header(rep, now), "SiteURL") == Some(rep.siteUrl)
    ensures Get(Header(rep, now), "SummaryofSequences") == Some(rep.summarySequences)
    ensures Get(Header(rep, now), "SequenceDetails") == Some(rep.sequenceDetails)
    ensures Get(Header(rep, now), "exported_at") == Some(JStr(now))
    ensures Get(Header(rep, now), "report_notes") == if Truthy(rep.notes) then Some(rep.notes) else None
  {
    var h := Header(rep, now);
    GetEntry(h, 0);
    GetEntry(h, 1);
    GetEntry(h, 2);
    GetEntry(h, 3);
    if Truthy(rep.notes) {
      GetEntry(h, 4);
    } else {
      HeaderKeys(rep, now);
    }
  }

  /** The header has exactly those keys. */
  lemma HeaderKeys(rep: Report, now: string)
    ensures Keys(Header(rep, now)) == {"SiteURL", "SummaryofSequences", "SequenceDetails", "exported_at"}
              + (if Truthy(rep.notes) then {"report_notes"} else {})
  {
    var fixed: Fields := [("SiteURL", rep.siteUrl), ("SummaryofSequences", rep.summarySequences),
                          ("SequenceDetails", rep.sequenceDetails), ("exported_at", JStr(now))];
    var notes: Fields := if Truthy(rep.notes) then [("report_notes", rep.notes)] else [];
    assert Keys(fixed[3..]) == {"exported_at"};
    assert Keys(fixed[2..]) == {"SequenceDetails", "exported_at"};
    assert Keys(fixed) == {"SiteURL", "SummaryofSequences", "SequenceDetails", "exported_at"};
    assert Keys(notes) == if Truthy(rep.notes) then {"report_notes"} else {};
    KeysAppend(fixed, notes);
  }

  /** `ReportService.export_report`. */
  function ExportReport(db: Db, rid: nat, withStatus: bool, now: string): (r: Result<Json, ExportError>)
    ensures r.Err? && r.error == ReportNotFound <==> rid !in ReportIds(db)
    ensures r.Ok? ==> r.value.JObj?
  {
    match FindReport(db.reports, rid)
    case None => Err(ReportNotFound)
    case Some(rep) =>
      var out :- AddVulnerabilities(Header(rep, now), VulnerabilitiesOf(db.vulnerabilities, rid), db.instances, withStatus);
      Ok(JObj(out))
  }
}

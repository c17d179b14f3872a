/**
 * The importer: decomposes a nested scan document into one report, its
 * vulnerabilities and their instances (ReportService.import_json).
 *
 * It runs in two stages. `Decompose` walks the document and yields a `Draft`
 * (or the exception that aborts the import). `Persist` then stores the draft
 * with fresh identifiers. A failed import returns `Err` and writes no rows; the
 * caller's rollback removes whatever the source had already flushed. The model
 * also leaves the auto-increment counters as they were, which is an
 * abstraction: a database does not hand back identifiers consumed by rows that
 * were flushed and then rolled back.
 *
 * The source walks the severity keys of a Python set, so the order is not
 * specified. Here it is the parameter `order`: any listing of the four levels.
 */
module Importer {
  import opened Base
  import opened Json
  import opened Models

  /** The exceptions that abort an import. */
  datatype ImportError =
    | DocumentNotMapping    // `json_data.get` on a value that is not an object
    | NullSiteUrl           // `site_url` is a NOT NULL column
    | EntryNotMapping       // `vuln_obj.items()` on a value that is not an object
    | InstancesNotIterable  // `for inst in instances` over null, a number or a boolean
    | ContentNotMapping     // `content.get` on a value that is not an object
    | NullUrl               // `url` is a NOT NULL column

  /** One instance as decomposed, before it gets an identifier. */
  datatype DraftInstance = DraftInstance(url: Json, fields: NamedFields, extraData: Option<Fields>)

  /** One vulnerability as decomposed, before it gets an identifier. */
  datatype DraftVulnerability = DraftVulnerability(
    severity: Severity, title: string, description: Json, instances: seq<DraftInstance>)

  /** The whole report as decomposed. */
  datatype Draft = Draft(
    siteUrl: Json, summarySequences: Json, sequenceDetails: Json,
    vulnerabilities: seq<DraftVulnerability>)

  /** `order` lists each of the four severity levels exactly once. */
  predicate IsSeverityOrder(order: seq<Severity>) {
    && (forall i, j | 0 <= i < j < |order| :: order[i] != order[j])
    && (forall s: Severity :: s in order)
  }

  // ---------------------------------------------------------------------------
  // One instance

  /**
   * Content-first precedence for a named field: the `content` value when the
   * key is there (whatever the value), else the top-level value, else ''.
   */
  function Resolve(content: Fields, inst: Fields, l: Label): (r: Json)
    ensures l.Key() in Keys(content) ==> Get(content, l.Key()) == Some(r)
    ensures l.Key() !in Keys(content) && l.Key() in Keys(inst) ==> Get(inst, l.Key()) == Some(r)
    ensures l.Key() !in Keys(content) && l.Key() !in Keys(inst) ==> r == JStr("")
  {
    GetOr(content, l.Key(), GetOr(inst, l.Key(), JStr("")))
  }

  /** The keys of `fs` that the extra-field bag keeps. */
  function UnreservedKeys(fs: Fields): set<string> {
    set k | k in Keys(fs) && !IsReservedKey(k)
  }

  /** The loop that copies every non-reserved top-level entry into the bag. */
  function CollectExtra(fs: Fields, acc: Fields): (r: Fields)
    ensures Keys(r) == Keys(acc) + UnreservedKeys(fs)
    decreases |fs|
  {
    if |fs| == 0 then acc
    else
      var acc' := if IsReservedKey(fs[0].0) then acc else Put(acc, fs[0].0, fs[0].1);
      var r := CollectExtra(fs[1..], acc');
      assert Keys(fs) == {fs[0].0} + Keys(fs[1..]);
      r
  }

  /** The extra-field bag of an instance object. */
  function ExtraFields(inst: Fields): Fields {
    CollectExtra(inst, [])
  }

  lemma {:induction false} CollectExtraDistinct(fs: Fields, acc: Fields)
    requires DistinctKeys(acc)
    ensures DistinctKeys(CollectExtra(fs, acc))
    decreases |fs|
  {
    if |fs| > 0 {
      if !IsReservedKey(fs[0].0) {
        PutDistinct(acc, fs[0].0, fs[0].1);
      }
      CollectExtraDistinct(fs[1..], if IsReservedKey(fs[0].0) then acc else Put(acc, fs[0].0, fs[0].1));
    }
  }

  lemma {:induction false} CollectExtraGet(fs: Fields, acc: Fields, k: string)
    requires DistinctKeys(fs)
    requires k in UnreservedKeys(fs)
    ensures Get(CollectExtra(fs, acc), k) == Get(fs, k)
    decreases |fs|
  {
    DistinctTail(fs);
    var acc' := if IsReservedKey(fs[0].0) then acc else Put(acc, fs[0].0, fs[0].1);
    assert Keys(fs) == {fs[0].0} + Keys(fs[1..]);
    if fs[0].0 == k {
      PutGet(acc, fs[0].0, fs[0].1, k);
      CollectExtraKeep(fs[1..], acc', k);
    } else {
      CollectExtraGet(fs[1..], acc', k);
    }
  }

  lemma {:induction false} CollectExtraKeep(fs: Fields, acc: Fields, k: string)
    requires k !in Keys(fs)
    ensures Get(CollectExtra(fs, acc), k) == Get(acc, k)
    decreases |fs|
  {
    if |fs| > 0 {
      assert Keys(fs) == {fs[0].0} + Keys(fs[1..]);
      var acc' := if IsReservedKey(fs[0].0) then acc else Put(acc, fs[0].0, fs[0].1);
      if !IsReservedKey(fs[0].0) {
        PutGet(acc, fs[0].0, fs[0].1, k);
      }
      CollectExtraKeep(fs[1..], acc', k);
    }
  }

  /**
   * The bag holds exactly the top-level keys outside URL, content and the five
   * labels, each with its value unchanged, and never repeats a key.
   */
  lemma ExtraFieldsSpec(inst: Fields)
    requires DistinctKeys(inst)
    ensures DistinctKeys(ExtraFields(inst))
    ensures Keys(ExtraFields(inst)) == UnreservedKeys(inst)
    ensures forall k | k in UnreservedKeys(inst) :: Get(ExtraFields(inst), k) == Get(inst, k)
  {
    CollectExtraDistinct(inst, []);
    forall k | k in UnreservedKeys(inst)
      ensures Get(ExtraFields(inst), k) == Get(inst, k)
    {
      CollectExtraGet(inst, [], k);
    }
  }

  /** The `content` mapping of an instance, `{}` when absent. */
  function ContentOf(inst: Fields): Json {
    GetOr(inst, "content", JObj([]))
  }

  /** The instance URL, '' when absent. */
  function UrlOf(inst: Fields): Json {
    GetOr(inst, "URL", JStr(""))
  }

  /** One instance object becomes one draft instance (services.py:69-86). */
  function ImportInstance(inst: Fields): (r: Result<DraftInstance, ImportError>)
    ensures r.Ok? <==> ContentOf(inst).JObj? && UrlOf(inst) != JNull
    ensures !ContentOf(inst).JObj? ==> r == Err(ContentNotMapping)
  {
    var content := ContentOf(inst);
    var extra := ExtraFields(inst);
    if !content.JObj? then Err(ContentNotMapping)
    else
      var url := UrlOf(inst);
      if url == JNull then Err(NullUrl)
      else
        var c := content.fields;
        var fields := NamedFields(
          Resolve(c, inst, Method), Resolve(c, inst, Parameter), Resolve(c, inst, Attack),
          Resolve(c, inst, Evidence), Resolve(c, inst, OtherInfo));
        Ok(DraftInstance(url, fields, if |extra| == 0 then None else Some(extra)))
  }

  /**
   * A decomposed instance keeps the URL, takes each named field by content-first
   * precedence, and carries the extra-field bag only when it is non-empty.
   */
  lemma ImportInstanceSpec(inst: Fields)
    requires ContentOf(inst).JObj? && UrlOf(inst) != JNull
    ensures ImportInstance(inst).value.url == UrlOf(inst)
    ensures forall l: Label :: ImportInstance(inst).value.fields.Field(l) == Resolve(ContentOf(inst).fields, inst, l)
    ensures ImportInstance(inst).value.extraData.None? <==> UnreservedKeys(inst) == {}
    ensures ImportInstance(inst).value.extraData.Some? ==> ImportInstance(inst).value.extraData.value == ExtraFields(inst)
  {
    var extra := ExtraFields(inst);
    assert Keys(extra) == UnreservedKeys(inst);
    KeysEmpty(extra);
    var d := ImportInstance(inst).value;
    forall l: Label
      ensures d.fields.Field(l) == Resolve(ContentOf(inst).fields, inst, l)
    {
      match l
      case Method =>
      case Parameter =>
      case Attack =>
      case Evidence =>
      case OtherInfo =>
    }
  }

  // ---------------------------------------------------------------------------
  // The instance list of one vulnerability

  /** The object elements of a list, in order: every other element is skipped. */
  function ObjectsIn(xs: seq<Json>): (r: seq<Fields>)
    ensures |r| <= |xs|
    ensures forall fs | fs in r :: JObj(fs) in xs
  {
    if |xs| == 0 then []
    else if xs[0].JObj? then [xs[0].fields] + ObjectsIn(xs[1..])
    else ObjectsIn(xs[1..])
  }

  /** The loop over an instance list; elements that are not objects are skipped. */
  function ImportInstances(xs: seq<Json>): (r: Result<seq<DraftInstance>, ImportError>)
  {
    if |xs| == 0 then Ok([])
    else if !xs[0].JObj? then ImportInstances(xs[1..])
    else
      var d :- ImportInstance(xs[0].fields);
      var ds :- ImportInstances(xs[1..]);
      Ok([d] + ds)
  }

  /**
   * The instance list yields one draft per object element, in order, and
   * fails exactly when one of those elements fails.
   */
  lemma {:induction false} ImportInstancesSpec(xs: seq<Json>)
    ensures ImportInstances(xs).Ok? <==> AllOk(ImportInstance, ObjectsIn(xs))
    ensures ImportInstances(xs).Ok? ==> Yields(ImportInstance, ObjectsIn(xs), ImportInstances(xs).value)
    decreases |xs|
  {
    if |xs| > 0 {
      ImportInstancesSpec(xs[1..]);
      var tail := ObjectsIn(xs[1..]);
      if !xs[0].JObj? {
        assert ObjectsIn(xs) == tail;
        assert ImportInstances(xs) == ImportInstances(xs[1..]);
      } else {
        assert ObjectsIn(xs) == [xs[0].fields] + tail;
        AllOkCons(ImportInstance, xs[0].fields, tail);
        var h, t := ImportInstance(xs[0].fields), ImportInstances(xs[1..]);
        if h.Err? {
          assert ImportInstances(xs) == Err(h.error);
        } else if t.Err? {
          assert ImportInstances(xs) == Err(t.error);
        } else {
          assert ImportInstances(xs) == Ok([h.value] + t.value);
          YieldsCons(ImportInstance, xs[0].fields, tail, h.value, t.value);
        }
      }
    }
  }

  /**
   * `for inst in vuln_data.get('instances', [])`: a list is walked; a string or
   * an object iterates characters or keys, none of which is an object, so it
   * yields nothing; anything else cannot be iterated and aborts the import.
   */
  function ImportInstanceList(j: Json): (r: Result<seq<DraftInstance>, ImportError>)
    ensures j.JArr? ==> r == ImportInstances(j.items)
    ensures (j.JStr? || j.JObj?) ==> r == Ok([])
    ensures (j.JNull? || j.JNum? || j.JBool?) ==> r == Err(InstancesNotIterable)
  {
    match j
    case JArr(xs) => ImportInstances(xs)
    case JStr(_) => Ok([])
    case JObj(_) => Ok([])
    case _ => Err(InstancesNotIterable)
  }

  // ---------------------------------------------------------------------------
  // Vulnerabilities

  /** The entries of a finding mapping whose body is an object; other entries are skipped. */
  function ObjectBodies(fs: Fields): (r: seq<(string, Fields)>)
    ensures |r| <= |fs|
    ensures forall e | e in r :: (e.0, JObj(e.1)) in fs
  {
    if |fs| == 0 then []
    else if fs[0].1.JObj? then [(fs[0].0, fs[0].1.fields)] + ObjectBodies(fs[1..])
    else ObjectBodies(fs[1..])
  }

  /** The vulnerability a `{title: body}` entry yields once its instances are decomposed. */
  function VulnerabilityFrom(sev: Severity, title: string, body: Fields): Result<DraftVulnerability, ImportError> {
    var insts :- ImportInstanceList(GetOr(body, "instances", JArr([])));
    Ok(DraftVulnerability(sev, title, GetOr(body, "Description", JStr("")), insts))
  }

  /**
   * `for title, vuln_data in vuln_obj.items()`: every key whose body is an
   * object becomes one vulnerability titled by the key.
   */
  function ImportTitles(sev: Severity, fs: Fields): (r: Result<seq<DraftVulnerability>, ImportError>)
    ensures r.Ok? ==> forall d | d in r.value :: d.severity == sev
  {
    if |fs| == 0 then Ok([])
    else if !fs[0].1.JObj? then ImportTitles(sev, fs[1..])
    else
      var d :- VulnerabilityFrom(sev, fs[0].0, fs[0].1.fields);
      var ds :- ImportTitles(sev, fs[1..]);
      Ok([d] + ds)
  }

  /** Every object-bodied entry decomposes. */
  predicate BodiesImport(sev: Severity, bs: seq<(string, Fields)>) {
    forall k | 0 <= k < |bs| :: VulnerabilityFrom(sev, bs[k].0, bs[k].1).Ok?
  }

  /** `ds` holds, position by position, what each object-bodied entry decomposes to. */
  predicate BodiesYield(sev: Severity, bs: seq<(string, Fields)>, ds: seq<DraftVulnerability>) {
    && |ds| == |bs|
    && forall k | 0 <= k < |bs| :: VulnerabilityFrom(sev, bs[k].0, bs[k].1) == Ok(ds[k])
  }

  lemma BodiesImportCons(sev: Severity, b: (string, Fields), bs: seq<(string, Fields)>)
    ensures BodiesImport(sev, [b] + bs) <==> VulnerabilityFrom(sev, b.0, b.1).Ok? && BodiesImport(sev, bs)
  {
    if VulnerabilityFrom(sev, b.0, b.1).Ok? && BodiesImport(sev, bs) {
      forall k | 0 <= k < |[b] + bs| ensures VulnerabilityFrom(sev, ([b] + bs)[k].0, ([b] + bs)[k].1).Ok? {
        if k > 0 { assert ([b] + bs)[k] == bs[k - 1]; }
      }
    }
    if BodiesImport(sev, [b] + bs) {
      assert ([b] + bs)[0] == b;
      forall k | 0 <= k < |bs| ensures VulnerabilityFrom(sev, bs[k].0, bs[k].1).Ok? {
        assert ([b] + bs)[k + 1] == bs[k];
      }
    }
  }

  lemma BodiesYieldCons(sev: Severity, b: (string, Fields), bs: seq<(string, Fields)>,
                        d: DraftVulnerability, ds: seq<DraftVulnerability>)
    requires VulnerabilityFrom(sev, b.0, b.1) == Ok(d)
    requires BodiesYield(sev, bs, ds)
    ensures BodiesYield(sev, [b] + bs, [d] + ds)
  {
    forall k | 0 <= k < |[b] + bs| ensures VulnerabilityFrom(sev, ([b] + bs)[k].0, ([b] + bs)[k].1) == Ok(([d] + ds)[k]) {
      if k > 0 { assert ([b] + bs)[k] == bs[k - 1] && ([d] + ds)[k] == ds[k - 1]; }
    }
  }

  /**
   * One finding mapping yields one vulnerability per entry with an object body,
   * in key order, and fails exactly when one of those entries fails.
   */
  lemma {:induction false} ImportTitlesSpec(sev: Severity, fs: Fields)
    ensures ImportTitles(sev, fs).Ok? <==> BodiesImport(sev, ObjectBodies(fs))
    ensures ImportTitles(sev, fs).Ok? ==> BodiesYield(sev, ObjectBodies(fs), ImportTitles(sev, fs).value)
    decreases |fs|
  {
    if |fs| > 0 {
      ImportTitlesSpec(sev, fs[1..]);
      var tail := ObjectBodies(fs[1..]);
      if !fs[0].1.JObj? {
        assert ObjectBodies(fs) == tail;
        assert ImportTitles(sev, fs) == ImportTitles(sev, fs[1..]);
      } else {
        var b := (fs[0].0, fs[0].1.fields);
        assert ObjectBodies(fs) == [b] + tail;
        BodiesImportCons(sev, b, tail);
        var h, t := VulnerabilityFrom(sev, b.0, b.1), ImportTitles(sev, fs[1..]);
        if h.Err? {
          assert ImportTitles(sev, fs) == Err(h.error);
        } else if t.Err? {
          assert ImportTitles(sev, fs) == Err(t.error);
        } else {
          assert ImportTitles(sev, fs) == Ok([h.value] + t.value);
          BodiesYieldCons(sev, b, tail, h.value, t.value);
        }
      }
    }
  }

  /** `for vuln_obj in vuln_list`: an element that is not an object aborts the import. */
  function ImportVulnerabilityList(sev: Severity, xs: seq<Json>): (r: Result<seq<DraftVulnerability>, ImportError>)
    ensures r.Ok? ==> forall d | d in r.value :: d.severity == sev
    ensures (exists k | 0 <= k < |xs| :: !xs[k].JObj?) ==> r.Err?
  {
    if |xs| == 0 then Ok([])
    else if !xs[0].JObj? then Err(EntryNotMapping)
    else
      var ds :- ImportTitles(sev, xs[0].fields);
      var rest :- ImportVulnerabilityList(sev, xs[1..]);
      assert forall k | 1 <= k < |xs| :: xs[k] == xs[1..][k - 1];
      Ok(ds + rest)
  }

  /** The vulnerabilities one element of a severity list yields, when it yields any. */
  function TitlesAt(sev: Severity, j: Json): seq<DraftVulnerability> {
    if j.JObj? && ImportTitles(sev, j.fields).Ok? then ImportTitles(sev, j.fields).value else []
  }

  /**
   * A severity list decomposes exactly when every element is an object whose
   * entries decompose, and then yields each element's vulnerabilities in turn.
   */
  lemma {:induction false} ImportVulnerabilityListSpec(sev: Severity, xs: seq<Json>)
    ensures ImportVulnerabilityList(sev, xs).Ok? <==>
              forall k | 0 <= k < |xs| :: xs[k].JObj? && ImportTitles(sev, xs[k].fields).Ok?
    ensures ImportVulnerabilityList(sev, xs).Ok? ==>
              ImportVulnerabilityList(sev, xs).value == Concat(seq(|xs|, k requires 0 <= k < |xs| => TitlesAt(sev, xs[k])))
    decreases |xs|
  {
    if |xs| > 0 {
      ImportVulnerabilityListSpec(sev, xs[1..]);
      var all := seq(|xs|, k requires 0 <= k < |xs| => TitlesAt(sev, xs[k]));
      var rest := seq(|xs| - 1, k requires 0 <= k < |xs| - 1 => TitlesAt(sev, xs[1..][k]));
      assert all[1..] == rest;
      assert forall k | 1 <= k < |xs| :: xs[k] == xs[1..][k - 1];
    }
  }

  /** One severity key: a list is walked; a missing key or any other value is skipped. */
  function ImportSeverity(doc: Fields, sev: Severity): (r: Result<seq<DraftVulnerability>, ImportError>)
    ensures r.Ok? ==> forall d | d in r.value :: d.severity == sev
    ensures (Get(doc, sev.Name()).None? || !Get(doc, sev.Name()).value.JArr?) ==> r == Ok([])
  {
    match Get(doc, sev.Name())
    case Some(JArr(xs)) => ImportVulnerabilityList(sev, xs)
    case _ => Ok([])
  }

  /** The outer loop over the severity keys, in the given order. */
  function ImportSeverities(doc: Fields, order: seq<Severity>): (r: Result<seq<DraftVulnerability>, ImportError>)
    ensures r.Ok? <==> forall s | s in order :: ImportSeverity(doc, s).Ok?
    ensures r.Ok? ==> forall d | d in r.value :: d.severity in order
  {
    if |order| == 0 then Ok([])
    else
      var ds :- ImportSeverity(doc, order[0]);
      var rest :- ImportSeverities(doc, order[1..]);
      assert forall s | s in order :: s == order[0] || s in order[1..];
      Ok(ds + rest)
  }

  /** The vulnerabilities of one severity, in order. */
  function OfSeverity(ds: seq<DraftVulnerability>, s: Severity): (r: seq<DraftVulnerability>)
    ensures forall d :: d in r <==> d in ds && d.severity == s
  {
    if |ds| == 0 then []
    else if ds[0].severity == s then [ds[0]] + OfSeverity(ds[1..], s)
    else OfSeverity(ds[1..], s)
  }

  lemma {:induction false} OfSeverityAppend(a: seq<DraftVulnerability>, b: seq<DraftVulnerability>, s: Severity)
    ensures OfSeverity(a + b, s) == OfSeverity(a, s) + OfSeverity(b, s)
    decreases |a|
  {
    if |a| > 0 {
      assert (a + b)[1..] == a[1..] + b;
      OfSeverityAppend(a[1..], b, s);
    } else {
      assert a + b == b;
    }
  }

  lemma {:induction false} OfSeverityAll(ds: seq<DraftVulnerability>, s: Severity)
    requires forall d | d in ds :: d.severity == s
    ensures OfSeverity(ds, s) == ds
    decreases |ds|
  {
    if |ds| > 0 {
      OfSeverityAll(ds[1..], s);
    }
  }

  lemma {:induction false} OfSeverityNone(ds: seq<DraftVulnerability>, s: Severity)
    requires forall d | d in ds :: d.severity != s
    ensures OfSeverity(ds, s) == []
    decreases |ds|
  {
    if |ds| > 0 {
      OfSeverityNone(ds[1..], s);
    }
  }

  /**
   * Whatever order the severity keys are visited in, the vulnerabilities of one
   * severity are exactly those its own key yields, in list order.
   */
  lemma {:induction false} ImportSeveritiesPerSeverity(doc: Fields, order: seq<Severity>, s: Severity)
    requires forall i, j | 0 <= i < j < |order| :: order[i] != order[j]
    requires ImportSeverities(doc, order).Ok?
    ensures OfSeverity(ImportSeverities(doc, order).value, s) ==
              if s in order then ImportSeverity(doc, s).value else []
    decreases |order|
  {
    if |order| > 0 {
      var ds := ImportSeverity(doc, order[0]).value;
      var rest := ImportSeverities(doc, order[1..]).value;
      assert ImportSeverities(doc, order).value == ds + rest;
      OfSeverityAppend(ds, rest, s);
      ImportSeveritiesPerSeverity(doc, order[1..], s);
      if order[0] == s {
        OfSeverityAll(ds, s);
        assert s !in order[1..] by {
          forall i | 0 <= i < |order[1..]| ensures order[1..][i] != s {
            assert order[1..][i] == order[i + 1];
          }
        }
      } else {
        OfSeverityNone(ds, s);
        assert s in order <==> s in order[1..];
      }
    }
  }

  // ---------------------------------------------------------------------------
  // The whole document

  /** `import_json` up to the point where rows are written. */
  function Decompose(doc: Json, order: seq<Severity>): (r: Result<Draft, ImportError>)
    ensures r.Ok? <==> doc.JObj? && GetOr(doc.fields, "SiteURL", JStr("")) != JNull
                       && ImportSeverities(doc.fields, order).Ok?
    ensures !doc.JObj? ==> r == Err(DocumentNotMapping)
    ensures doc.JObj? && GetOr(doc.fields, "SiteURL", JStr("")) == JNull ==> r == Err(NullSiteUrl)
    ensures r.Ok? ==> doc.JObj? && r.value.siteUrl == GetOr(doc.fields, "SiteURL", JStr(""))
    ensures r.Ok? ==> r.value.summarySequences == GetOr(doc.fields, "SummaryofSequences", JStr(""))
    ensures r.Ok? ==> r.value.sequenceDetails == GetOr(doc.fields, "SequenceDetails", JStr(""))
    ensures r.Ok? ==> ImportSeverities(doc.fields, order) == Ok(r.value.vulnerabilities)
  {
    if !doc.JObj? then Err(DocumentNotMapping)
    else
      var site := GetOr(doc.fields, "SiteURL", JStr(""));
      if site == JNull then Err(NullSiteUrl)
      else
        var vs :- ImportSeverities(doc.fields, order);
        Ok(Draft(site, GetOr(doc.fields, "SummaryofSequences", JStr("")),
                 GetOr(doc.fields, "SequenceDetails", JStr("")), vs))
  }

  /** A document without any of the four severity keys contributes no vulnerabilities. */
  lemma {:induction false} NoSeverityKeys(doc: Fields, order: seq<Severity>)
    requires forall s: Severity :: s.Name() !in Keys(doc)
    ensures ImportSeverities(doc, order) == Ok([])
    decreases |order|
  {
    if |order| > 0 {
      NoSeverityKeys(doc, order[1..]);
      assert Get(doc, order[0].Name()).None?;
      assert ImportSeverity(doc, order[0]) == Ok([]);
      var none: seq<DraftVulnerability> := [];
      assert ImportSeverities(doc, order) == Ok(none + none);
      assert none + none == none;
    }
  }

  /**
   * An object document with a non-null SiteURL and none of the severity keys
   * decomposes into a report with no vulnerabilities; `{}` is one.
   */
  lemma HeaderOnlyDocument(fs: Fields, order: seq<Severity>)
    requires forall s: Severity :: s.Name() !in Keys(fs)
    requires GetOr(fs, "SiteURL", JStr("")) != JNull
    ensures Decompose(JObj(fs), order) ==
              Ok(Draft(GetOr(fs, "SiteURL", JStr("")), GetOr(fs, "SummaryofSequences", JStr("")),
                       GetOr(fs, "SequenceDetails", JStr("")), []))
    ensures Decompose(JObj([]), order) == Ok(Draft(JStr(""), JStr(""), JStr(""), []))
  {
    NoSeverityKeys(fs, order);
    NoSeverityKeys([], order);
  }

  /**
   * Whether an import succeeds does not depend on the order the severity keys
   * are visited in, and neither do the vulnerabilities of any one severity.
   */
  lemma ImportOrderIndependent(doc: Json, o1: seq<Severity>, o2: seq<Severity>, s: Severity)
    requires IsSeverityOrder(o1) && IsSeverityOrder(o2)
    ensures Decompose(doc, o1).Ok? <==> Decompose(doc, o2).Ok?
    ensures Decompose(doc, o1).Ok? ==>
              OfSeverity(Decompose(doc, o1).value.vulnerabilities, s) ==
              OfSeverity(Decompose(doc, o2).value.vulnerabilities, s)
  {
    if doc.JObj? {
      assert forall t | t in o1 :: t in o2;
      assert forall t | t in o2 :: t in o1;
      if Decompose(doc, o1).Ok? {
        ImportSeveritiesPerSeverity(doc.fields, o1, s);
        ImportSeveritiesPerSeverity(doc.fields, o2, s);
      }
    }
  }

  // ---------------------------------------------------------------------------
  // Writing the rows

  /** A freshly created instance: status pending, no fix data. */
  function NewInstance(id: nat, vid: nat, d: DraftInstance): Instance {
    Instance(id, vid, d.url, d.fields, d.extraData, Pending.Value(), None, JNull, JNull)
  }

  /**
   * `xs` are the stored instances of vulnerability `vid` drafted as `ds`, fresh
   * from import: row by row, each is the draft under its identifier, pending,
   * with no fix data.
   */
  predicate Realises(xs: seq<Instance>, vid: nat, ds: seq<DraftInstance>)
    decreases |xs|
  {
    && |xs| == |ds|
    && (|xs| > 0 ==> xs[0] == NewInstance(xs[0].id, vid, ds[0]) && Realises(xs[1..], vid, ds[1..]))
  }

  /** The instances of one vulnerability, numbered from `iid`. */
  function PersistInstances(ds: seq<DraftInstance>, vid: nat, iid: nat): (r: seq<Instance>)
    ensures |r| == |ds|
    ensures InstancesSorted(r)
    ensures forall x | x in r :: iid <= x.id < iid + |ds| && x.vulnerabilityId == vid
  {
    seq(|ds|, j requires 0 <= j < |ds| => NewInstance(iid + j, vid, ds[j]))
  }

  /** The number of instances drafted across `ds`. */
  function TotalInstances(ds: seq<DraftVulnerability>): nat {
    if |ds| == 0 then 0 else |ds[0].instances| + TotalInstances(ds[1..])
  }

  /** The vulnerability rows of a report, numbered from `vid` in draft order. */
  function VulnerabilityRows(ds: seq<DraftVulnerability>, rid: nat, vid: nat): (r: seq<Vulnerability>)
    ensures |r| == |ds|
    ensures forall k | 0 <= k < |ds| ::
              r[k] == Vulnerability(vid + k, rid, ds[k].severity.Name(), ds[k].title, ds[k].description)
  {
    seq(|ds|, k requires 0 <= k < |ds| => Vulnerability(vid + k, rid, ds[k].severity.Name(), ds[k].title, ds[k].description))
  }

  /** The instance rows of a report, numbered from `iid`: each vulnerability's run in draft order. */
  function InstanceRows(ds: seq<DraftVulnerability>, vid: nat, iid: nat): (r: seq<Instance>)
    ensures |r| == TotalInstances(ds)
    decreases |ds|
  {
    if |ds| == 0 then []
    else PersistInstances(ds[0].instances, vid, iid) + InstanceRows(ds[1..], vid + 1, iid + |ds[0].instances|)
  }

  /**
   * The vulnerabilities numbered from `vid` and their instances numbered from
   * `iid`, in draft order: each vulnerability's instances follow it.
   */
  function PersistVulnerabilities(ds: seq<DraftVulnerability>, rid: nat, vid: nat, iid: nat)
    : (r: (seq<Vulnerability>, seq<Instance>))
  {
    (VulnerabilityRows(ds, rid, vid), InstanceRows(ds, vid, iid))
  }

  /** The rows of one report written after the existing ones; the new report's identifier. */
  function Persist(db: Db, d: Draft, fileName: Option<string>, now: string): (r: (Db, nat))
    ensures r.1 == db.nextReportId
    ensures r.0.reports == db.reports + [Report(r.1, d.siteUrl, d.summarySequences, d.sequenceDetails, fileName, now, JNull)]
    ensures db.vulnerabilities <= r.0.vulnerabilities && db.instances <= r.0.instances
  {
    var rid, vid, iid := db.nextReportId, db.nextVulnerabilityId, db.nextInstanceId;
    var report := Report(rid, d.siteUrl, d.summarySequences, d.sequenceDetails, fileName, now, JNull);
    var rows := PersistVulnerabilities(d.vulnerabilities, rid, vid, iid);
    (Db(db.reports + [report], db.vulnerabilities + rows.0, db.instances + rows.1, rid + 1, vid + |rows.0|, iid + |rows.1|), rid)
  }

  // ---------------------------------------------------------------------------
  // The whole import

  /** `ReportService.import_json`: the new store and the new report's identifier, or the exception. */
  function ImportJson(db: Db, doc: Json, fileName: Option<string>, now: string, order: seq<Severity>)
    : (r: Result<(Db, nat), ImportError>)
    ensures r.Ok? <==> Decompose(doc, order).Ok?
    ensures r.Err? ==> r.error == Decompose(doc, order).error
    ensures r.Ok? ==> r.value.1 == db.nextReportId
  {
    var d :- Decompose(doc, order);
    Ok(Persist(db, d, fileName, now))
  }

  /**
   * `db'` holds report `rid` as drafted by `d`: its vulnerabilities in draft
   * order with identifiers from `vid`, each followed by its drafted instances.
   */
  predicate Stores(db': Db, rid: nat, vid: nat, d: Draft) {
    var vs := VulnerabilitiesOf(db'.vulnerabilities, rid);
    && |vs| == |d.vulnerabilities|
    && (forall k | 0 <= k < |vs| ::
          var dv := d.vulnerabilities[k];
          vs[k] == Vulnerability(vid + k, rid, dv.severity.Name(), dv.title, dv.description))
    && (forall k | 0 <= k < |vs| :: Realises(InstancesOf(db'.instances, vid + k), vid + k, d.vulnerabilities[k].instances))
  }
}

/**
 * The HTTP-facing rules around the core: which requests the import and
 * status routes refuse before reaching the services, which exceptions become
 * which status codes, and what a failing request leaves in the store.
 *
 * A request body is the decoded JSON value; an uploaded file is its name and
 * what `json.load` makes of its bytes. A status code stands for the whole
 * response.
 */
module Handlers {
  import opened Base
  import opened Json
  import opened Models
  import opened Importer
  import opened Persistence
  import opened StatusEngine

  // ---------------------------------------------------------------------------
  // Single import

  /**
   * What `json.load` makes of an uploaded file's bytes. Bytes that are not
   * valid text raise `UnicodeDecodeError`, which is not a `JSONDecodeError`.
   */
  datatype Body =
    | Decoded(doc: Json)  // the bytes are text and parse as JSON
    | NotJson             // the text does not parse: `JSONDecodeError`
    | NotText             // the bytes are not valid text: `UnicodeDecodeError`

  datatype Upload = Upload(fileName: string, body: Body)

  datatype ImportReply =
    | NoFile                       // 400: no `file` part
    | NoFileName                   // 400: empty file name
    | NotJsonName                  // 400: the name does not end in `.json`
    | BadJson                      // 400: the text does not parse as JSON
    | Unreadable                   // 500: the bytes are not text; rolled back
    | ImportFailed(error: ImportError)  // 500: the import raised and was rolled back
    | Imported(reportId: nat, siteUrl: Json)  // 200
  {
    function Code(): nat {
      match this
      case Unreadable => 500
      case ImportFailed(_) => 500
      case Imported(_, _) => 200
      case _ => 400
    }
  }

  /** A file the import accepts: a `.json` name and a body that decodes and decomposes. */
  predicate Accepts(u: Upload, order: seq<Severity>) {
    EndsWith(u.fileName, ".json") && u.body.Decoded? && Decompose(u.body.doc, order).Ok?
  }

  /** `POST /api/import`: the store after the request and the reply. */
  function ImportRoute(db: Db, file: Option<Upload>, now: string, order: seq<Severity>): (r: (Db, ImportReply))
    ensures r.1.Imported? <==> file.Some? && Accepts(file.value, order)
    ensures !r.1.Imported? ==> r.0 == db
    ensures r.1.Imported? ==> r == (ImportJson(db, file.value.body.doc, Some(file.value.fileName), now, order).value.0,
                                    Imported(db.nextReportId, Decompose(file.value.body.doc, order).value.siteUrl))
  {
    match file
    case None => (db, NoFile)
    case Some(u) =>
      if u.fileName == "" then (db, NoFileName)
      else if !EndsWith(u.fileName, ".json") then (db, NotJsonName)
      else match u.body
        case NotJson => (db, BadJson)
        case NotText => (db, Unreadable)
        case Decoded(doc) =>
          match ImportJson(db, doc, Some(u.fileName), now, order)
          case Err(e) => (db, ImportFailed(e))
          case Ok((db', rid)) => (db', Imported(rid, Decompose(doc, order).value.siteUrl))
  }

  /**
   * A refused request answers 400; bytes that are not text, or an import that
   * raises, answer 500; in both cases the store is as before. An accepted file
   * answers 200.
   */
  lemma ImportRouteOutcome(db: Db, file: Option<Upload>, now: string, order: seq<Severity>)
    ensures var (db', reply) := ImportRoute(db, file, now, order);
            && (reply.Code() == 200 <==> file.Some? && Accepts(file.value, order))
            && (reply.Code() == 500 <==> file.Some? && EndsWith(file.value.fileName, ".json")
                                         && (file.value.body.NotText?
                                             || (file.value.body.Decoded? && Decompose(file.value.body.doc, order).Err?)))
            && (reply.Code() == 400 <==> file.None? || !EndsWith(file.value.fileName, ".json") || file.value.body.NotJson?)
            && (reply.Code() != 200 ==> db' == db)
  {
  }

  /** Whatever the request, the store stays valid, and a 200 reply names a report that is new. */
  lemma ImportRouteFresh(db: Db, file: Option<Upload>, now: string, order: seq<Severity>)
    requires Valid(db)
    ensures var (db', reply) := ImportRoute(db, file, now, order);
            && Valid(db')
            && (reply.Imported? ==> reply.reportId !in ReportIds(db) && ReportIds(db') == ReportIds(db) + {reply.reportId})
  {
    if file.Some? && Accepts(file.value, order) {
      ImportedView(db, file.value.body.doc, Some(file.value.fileName), now, order);
    }
  }

  // ---------------------------------------------------------------------------
  // Bulk import

  datatype FileError = NotJsonFile | UndecodableFile | UnreadableFile | ImportRaised(error: ImportError)

  datatype ImportedFile = ImportedFile(fileName: string, reportId: nat, siteUrl: Json)
  datatype FailedFile = FailedFile(fileName: string, error: FileError)

  /** One turn of the bulk loop: the store and the entry for `imported`, or the entry for `errors`. */
  function ImportOne(db: Db, u: Upload, now: string, order: seq<Severity>): (r: Result<(Db, ImportedFile), FailedFile>)
    ensures r.Ok? <==> Accepts(u, order)
    ensures r.Ok? ==> r.value.1.fileName == u.fileName
    ensures r.Err? ==> r.error.fileName == u.fileName
  {
    if !EndsWith(u.fileName, ".json") then Err(FailedFile(u.fileName, NotJsonFile))
    else match u.body
      case NotJson => Err(FailedFile(u.fileName, UndecodableFile))
      case NotText => Err(FailedFile(u.fileName, UnreadableFile))
      case Decoded(doc) =>
        match ImportJson(db, doc, Some(u.fileName), now, order)
        case Err(e) => Err(FailedFile(u.fileName, ImportRaised(e)))
        case Ok((db1, rid)) => Ok((db1, ImportedFile(u.fileName, rid, Decompose(doc, order).value.siteUrl)))
  }

  /** An accepted file is imported exactly as the single import would, under a fresh identifier. */
  lemma ImportOneAccepted(db: Db, u: Upload, now: string, order: seq<Severity>)
    requires Valid(db)
    requires Accepts(u, order)
    ensures var (db1, f) := ImportOne(db, u, now, order).value;
            && db1 == ImportJson(db, u.body.doc, Some(u.fileName), now, order).value.0
            && f.reportId == db.nextReportId
            && Valid(db1)
            && db1.nextReportId == db.nextReportId + 1
            && ReportIds(db1) == ReportIds(db) + {f.reportId}
  {
    ImportedView(db, u.body.doc, Some(u.fileName), now, order);
  }

  /** The loop of `POST /api/import/bulk`: each file is imported or rolled back on its own. */
  function ImportFiles(db: Db, files: seq<Upload>, now: string, order: seq<Severity>)
    : (r: (Db, seq<ImportedFile>, seq<FailedFile>))
    ensures |r.1| + |r.2| == |files|
    decreases |files|
  {
    if |files| == 0 then (db, [], [])
    else
      match ImportOne(db, files[0], now, order)
      case Ok((db1, f)) =>
        var (db', ok, bad) := ImportFiles(db1, files[1..], now, order);
        (db', [f] + ok, bad)
      case Err(e) =>
        var (db', ok, bad) := ImportFiles(db, files[1..], now, order);
        (db', ok, [e] + bad)
  }

  datatype BulkReply = NoFiles | Results(imported: seq<ImportedFile>, errors: seq<FailedFile>)

  /** `POST /api/import/bulk`: 400 without a `files` part, otherwise the per-file results. */
  function BulkImport(db: Db, files: Option<seq<Upload>>, now: string, order: seq<Severity>): (r: (Db, BulkReply))
    ensures files.None? <==> r.1.NoFiles?
    ensures files.None? ==> r.0 == db
  {
    match files
    case None => (db, NoFiles)
    case Some(fs) =>
      var (db', ok, bad) := ImportFiles(db, fs, now, order);
      (db', Results(ok, bad))
  }

  /** The accepted files, in upload order. */
  function AcceptedFiles(files: seq<Upload>, order: seq<Severity>): (r: seq<Upload>)
    ensures |r| <= |files|
    ensures forall u | u in r :: u in files && Accepts(u, order)
  {
    if |files| == 0 then []
    else (if Accepts(files[0], order) then [files[0]] else []) + AcceptedFiles(files[1..], order)
  }

  /** The names of the refused files, in upload order. */
  function RejectedNames(files: seq<Upload>, order: seq<Severity>): seq<string> {
    if |files| == 0 then []
    else (if Accepts(files[0], order) then [] else [files[0].fileName]) + RejectedNames(files[1..], order)
  }

  function UploadNames(us: seq<Upload>): seq<string> {
    if |us| == 0 then [] else [us[0].fileName] + UploadNames(us[1..])
  }

  function ImportedNames(ok: seq<ImportedFile>): seq<string> {
    if |ok| == 0 then [] else [ok[0].fileName] + ImportedNames(ok[1..])
  }

  function FailedNames(bad: seq<FailedFile>): seq<string> {
    if |bad| == 0 then [] else [bad[0].fileName] + FailedNames(bad[1..])
  }

  lemma ConsTail<T>(x: T, xs: seq<T>)
    ensures ([x] + xs)[0] == x && ([x] + xs)[1..] == xs
  {
  }

  /**
   * Every file lands in exactly one of the two lists: the accepted files in
   * `imported` and the refused ones in `errors`, each in upload order.
   */
  lemma {:induction false} ImportFilesPartition(db: Db, files: seq<Upload>, now: string, order: seq<Severity>)
    ensures var (db', ok, bad) := ImportFiles(db, files, now, order);
            && ImportedNames(ok) == UploadNames(AcceptedFiles(files, order))
            && FailedNames(bad) == RejectedNames(files, order)
    decreases |files|
  {
    if |files| > 0 {
      var u := files[0];
      match ImportOne(db, u, now, order)
      case Ok((db1, f)) =>
        ImportFilesPartition(db1, files[1..], now, order);
        var (db', ok, bad) := ImportFiles(db1, files[1..], now, order);
        ConsTail(f, ok);
        ConsTail(u, AcceptedFiles(files[1..], order));
      case Err(e) =>
        ImportFilesPartition(db, files[1..], now, order);
        var (db', ok, bad) := ImportFiles(db, files[1..], now, order);
        assert AcceptedFiles(files, order) == [] + AcceptedFiles(files[1..], order);
        assert [] + AcceptedFiles(files[1..], order) == AcceptedFiles(files[1..], order);
        ConsTail(e, bad);
    }
  }

  /**
   * Refused files leave no trace: the store and the `imported` list are what
   * uploading only the accepted files gives.
   */
  lemma {:induction false} ImportFilesSkipRefused(db: Db, files: seq<Upload>, now: string, order: seq<Severity>)
    ensures var (db', ok, bad) := ImportFiles(db, files, now, order);
            ImportFiles(db, AcceptedFiles(files, order), now, order) == (db', ok, [])
    decreases |files|
  {
    if |files| > 0 {
      var u := files[0];
      var rest := AcceptedFiles(files[1..], order);
      ImportFilesStep(db, u, files[1..], now, order);
      assert [u] + files[1..] == files;
      if Accepts(u, order) {
        ImportFilesSkipRefused(ImportOne(db, u, now, order).value.0, files[1..], now, order);
        assert AcceptedFiles(files, order) == [u] + rest;
        ImportFilesStep(db, u, rest, now, order);
      } else {
        ImportFilesSkipRefused(db, files[1..], now, order);
        assert AcceptedFiles(files, order) == [] + rest == rest;
      }
    }
  }

  /** One turn of the bulk loop, unrolled. */
  lemma ImportFilesStep(db: Db, u: Upload, us: seq<Upload>, now: string, order: seq<Severity>)
    ensures var o := ImportOne(db, u, now, order);
            o.Ok? ==> var r := ImportFiles(o.value.0, us, now, order);
                      ImportFiles(db, [u] + us, now, order) == (r.0, [o.value.1] + r.1, r.2)
    ensures var o := ImportOne(db, u, now, order);
            o.Err? ==> var r := ImportFiles(db, us, now, order);
                       ImportFiles(db, [u] + us, now, order) == (r.0, r.1, [o.error] + r.2)
  {
    ConsTail(u, us);
  }

  /** The report identifiers of the `imported` entries. */
  function ImportedIds(ok: seq<ImportedFile>): set<nat> {
    set f | f in ok :: f.reportId
  }

  /**
   * Importing files one after another keeps the store valid and gives the
   * imported ones consecutive identifiers from the counter, none of them used
   * before. Consecutive holds because a refused file consumes no identifier,
   * which is the model's abstraction of the rollback.
   */
  lemma {:induction false} ImportFilesFresh(db: Db, files: seq<Upload>, now: string, order: seq<Severity>)
    requires Valid(db)
    ensures var (db', ok, bad) := ImportFiles(db, files, now, order);
            && Valid(db')
            && (forall k | 0 <= k < |ok| :: ok[k].reportId == db.nextReportId + k)
            && ImportedIds(ok) !! ReportIds(db)
            && ReportIds(db') == ReportIds(db) + ImportedIds(ok)
            && db'.nextReportId == db.nextReportId + |ok|
    decreases |files|
  {
    if |files| > 0 {
      var u := files[0];
      match ImportOne(db, u, now, order)
      case Ok((db1, f)) =>
        ImportOneAccepted(db, u, now, order);
        ImportFilesFresh(db1, files[1..], now, order);
        var (db', ok, bad) := ImportFiles(db1, files[1..], now, order);
        FreshCons(db, f, ok);
      case Err(e) =>
        ImportFilesFresh(db, files[1..], now, order);
    }
  }

  lemma FreshCons(db: Db, f: ImportedFile, ok: seq<ImportedFile>)
    requires Valid(db)
    requires f.reportId == db.nextReportId
    requires forall k | 0 <= k < |ok| :: ok[k].reportId == db.nextReportId + 1 + k
    ensures forall k | 0 <= k < |[f] + ok| :: ([f] + ok)[k].reportId == db.nextReportId + k
    ensures ImportedIds([f] + ok) == {f.reportId} + ImportedIds(ok)
    ensures ImportedIds([f] + ok) !! ReportIds(db)
  {
    var all := [f] + ok;
    forall k | 0 <= k < |all| ensures all[k].reportId == db.nextReportId + k {
      if k > 0 {
        assert all[k] == ok[k - 1];
      }
    }
    forall x | x in ImportedIds(all) ensures x !in ReportIds(db) {
      var g :| g in all && g.reportId == x;
      var k :| 0 <= k < |all| && all[k] == g;
      assert x >= db.nextReportId;
    }
  }

  // ---------------------------------------------------------------------------
  // Status routes

  datatype StatusReply =
    | MissingStatus               // 400: no or empty `status`
    | Rejected                    // 400: ValueError from the service
    | Crashed                     // 500: any other exception
    | Updated(instanceId: nat, status: string)  // 200
  {
    function Code(): nat {
      match this
      case Crashed => 500
      case Updated(_, _) => 200
      case _ => 400
    }
  }

  /**
   * `PUT /api/instances/<id>/status` as written: the broad exception handler
   * also catches the not-found raised by the lookup, so a missing instance
   * answers 500.
   */
  function UpdateStatusRoute(db: Db, id: nat, data: Json, now: string): (r: (Db, StatusReply))
    ensures !r.1.Updated? ==> r.0 == db
  {
    match data
    case JObj(fs) =>
      var status := GetOr(fs, "status", JNull);
      if !Truthy(status) then (db, MissingStatus)
      else
        (match UpdateInstanceStatus(db, id, status, GetOr(fs, "notes", JNull), GetOr(fs, "fixed_by", JNull), now)
         case Ok((db', x)) => (db', Updated(x.id, x.fixStatus))
         case Err(InvalidStatus) => (db, Rejected)
         case Err(InstanceNotFound) => (db, Crashed))
    case _ => (db, Crashed)
  }

  /**
   * An object body with an empty or missing status is refused with 400 before
   * the instance is looked up; a status outside the five values is refused
   * with 400; an unknown instance answers 500; otherwise the update succeeds
   * with 200 and echoes the identifier and the new status.
   */
  lemma UpdateStatusRouteCodes(db: Db, id: nat, fs: Fields, now: string)
    ensures var (db', reply) := UpdateStatusRoute(db, id, JObj(fs), now);
            var status := GetOr(fs, "status", JNull);
            && (reply == MissingStatus <==> !Truthy(status))
            && (reply.Code() == 400 <==> !Truthy(status) || (FindById(db.instances, id).Some? && StatusOf(status).None?))
            && (reply.Code() == 500 <==> Truthy(status) && FindById(db.instances, id).None?)
            && (reply.Code() == 200 <==> FindById(db.instances, id).Some? && StatusOf(status).Some?)
            && (reply.Updated? ==> reply.instanceId == id && JStr(reply.status) == status)
  {
    FixStatusEnumeration();
    var status := GetOr(fs, "status", JNull);
    if StatusOf(status).Some? {
      assert Truthy(status);
    }
  }

  /** The same route with the not-found answered as the lookup intends. */
  datatype IntendedStatusReply = Answer(reply: StatusReply) | NotFoundReply {
    function Code(): nat {
      match this
      case Answer(r) => r.Code()
      case NotFoundReply => 404
    }
  }

  function UpdateStatusRouteIntended(db: Db, id: nat, data: Json, now: string): (r: (Db, IntendedStatusReply))
    ensures !(r.1.Answer? && r.1.reply.Updated?) ==> r.0 == db
  {
    match data
    case JObj(fs) =>
      var status := GetOr(fs, "status", JNull);
      if !Truthy(status) then (db, Answer(MissingStatus))
      else
        (match UpdateInstanceStatus(db, id, status, GetOr(fs, "notes", JNull), GetOr(fs, "fixed_by", JNull), now)
         case Ok((db', x)) => (db', Answer(Updated(x.id, x.fixStatus)))
         case Err(InvalidStatus) => (db, Answer(Rejected))
         case Err(InstanceNotFound) => (db, NotFoundReply))
    case _ => (db, Answer(Crashed))
  }

  /** As written, an update of a missing instance with a real status answers 500, not 404. */
  lemma MissingInstanceAnswers500(fs: Fields, now: string)
    requires Truthy(GetOr(fs, "status", JNull))
    ensures UpdateStatusRoute(EmptyDb, 1, JObj(fs), now).1.Code() == 500
  {
  }

  /**
   * With the lookup's not-found passed through, a missing instance with a real
   * status answers 404, and every other request answers as before.
   */
  lemma IntendedRouteCodes(db: Db, id: nat, data: Json, now: string)
    ensures var (db1, a) := UpdateStatusRouteIntended(db, id, data, now);
            var (db2, b) := UpdateStatusRoute(db, id, data, now);
            && db1 == db2
            && (a.Code() == 404 <==>
                  data.JObj? && Truthy(GetOr(data.fields, "status", JNull)) && FindById(db.instances, id).None?)
            && (a.Code() != 404 ==> a == Answer(b))
  {
  }

  datatype BatchReply = Incomplete | BatchCrashed | BatchDone(updatedCount: nat) {
    function Code(): nat {
      match this
      case Incomplete => 400
      case BatchCrashed => 500
      case BatchDone(_) => 200
    }
  }

  /** The values `for inst_id in instance_ids` walks over. */
  function Iterated(ids: Json): Option<seq<Json>> {
    match ids
    case JArr(items) => Some(items)
    case JStr(s) => Some(seq(|s|, i requires 0 <= i < |s| => JStr([s[i]])))
    case JObj(fs) => Some(seq(|fs|, i requires 0 <= i < |fs| => JStr(fs[i].0)))
    case _ => None
  }

  /** The integer identifiers among the iterated values. */
  function IntegerIds(items: seq<Json>): (r: seq<int>)
    ensures |r| <= |items|
  {
    if |items| == 0 then []
    else (if items[0].JNum? then [items[0].n] else []) + IntegerIds(items[1..])
  }

  /** `PUT /api/instances/batch-status`. */
  function BatchStatusRoute(db: Db, data: Json, now: string): (r: (Db, BatchReply))
    ensures !r.1.BatchDone? ==> r.0 == db
  {
    match data
    case JObj(fs) =>
      var ids := GetOr(fs, "instance_ids", JArr([]));
      var status := GetOr(fs, "status", JNull);
      if !Truthy(ids) || !Truthy(status) then (db, Incomplete)
      else
        (match Iterated(ids)
         case None => (db, BatchCrashed)
         case Some(items) =>
           var (db', n) := BatchUpdateStatus(db, IntegerIds(items), status,
                                             GetOr(fs, "notes", JNull), GetOr(fs, "fixed_by", JNull), now);
           (db', BatchDone(n)))
    case _ => (db, BatchCrashed)
  }

  /**
   * A batch with no identifiers or no status is refused with 400 and changes
   * nothing; a list of identifiers with a status outside the five values
   * answers 200 with a count of zero and changes nothing; with a valid status
   * the count is the number of listed identifiers that name a stored instance.
   */
  lemma BatchStatusRouteOutcome(db: Db, fs: Fields, now: string)
    ensures var (db', reply) := BatchStatusRoute(db, JObj(fs), now);
            var ids := GetOr(fs, "instance_ids", JArr([]));
            var status := GetOr(fs, "status", JNull);
            && (reply == Incomplete <==> !Truthy(ids) || !Truthy(status))
            && (reply == Incomplete ==> db' == db)
            && (Truthy(ids) && ids.JArr? && Truthy(status) && StatusOf(status).None? ==> reply == BatchDone(0) && db' == db)
            && (Truthy(ids) && ids.JArr? && StatusOf(status).Some? ==>
                  reply == BatchDone(CountFound(db.instances, IntegerIds(ids.items))))
  {
    var ids := GetOr(fs, "instance_ids", JArr([]));
    var status := GetOr(fs, "status", JNull);
    if Truthy(ids) && ids.JArr? && StatusOf(status).Some? {
      FixStatusEnumeration();
      assert Truthy(status);
      BatchCount(db, IntegerIds(ids.items), status, GetOr(fs, "notes", JNull), GetOr(fs, "fixed_by", JNull), now);
    }
  }
}

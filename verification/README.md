# vuln-manager core, modelled in Dafny

vuln-manager stores web-scanner reports. A report is a nested JSON document with four header fields and four severity keys (High, Medium, Low, Informational). Under each severity key is a list of `{title: {Description, instances}}` findings. The backend flattens the document into three tables: reports, vulnerabilities and vulnerability instances. It exports a stored report back into the nested shape and tracks a remediation status for every instance. It also shows the data as dashboard counters and as a report → severity → vulnerability → instance tree.

This project models that core as pure functions over immutable data:

- `base.dfy`: `Option`, `Result` (usable with `:-`) and two generic predicates over lists of results.
- `json.dfy`: decoded JSON values. Objects are ordered key/value sequences, with Python's `d.get`, `d[k] = v` and `d.update`.
- `models.dfy`: the `FixStatus` and `SeverityLevel` enumerations and the three entities with their defaults. Also the store as three id-ordered tables with auto-increment counters, `Report.stats`, and the cascade delete of a report.
- `importer.dfy`: `ReportService.import_json`. A document is decomposed into a draft, then written with fresh identifiers. Any failure returns an error and writes no rows, which is the caller's rollback. The model also leaves the auto-increment counters unchanged on a failure, which the database does not promise (see Left out).
- `persistence.dfy`: what the written rows are. The store stays valid, and the new report holds exactly what was drafted.
- `exporter.dfy`: `ReportService.export_report`, with and without `_fix_status`.
- `round_trip.dfy`: exporting a report right after importing it. Covers the header fields, the per-severity entries, and each instance's URL, named fields and extra fields.
- `status_engine.dfy`: `StatusService.update_instance_status`, `batch_update_status` and `get_status_summary`.
- `views.dfy`: the dashboard counters and the two tree builders.
- `handlers.dfy`: the single and bulk import routes and the two status routes. Covers their refusals, status codes and rollback.

Wall-clock time is a parameter `now`. The iteration order of the Python set `SEVERITY_KEYS` is a parameter `order`: any listing of the four levels. `ImportOrderIndependent` shows that nothing per-severity depends on it.

## Model

The two tree builders (backend/app.py:385-432 and 434-477) share their grouping code; the rows below cite the single-report one.

| member | source | states |
|---|---|---|
| Models.FixStatusEnumeration | backend/models.py:11-16 | FixStatus has exactly five members with five distinct stored values, and each value parses back to its member |
| Models.ParseFixStatus | backend/services.py:211-212 | a string is accepted exactly when it is the stored value of some FixStatus member, and the member returned has that value |
| Models.SeverityEnumeration | backend/models.py:19-23 | SeverityLevel has exactly four members, listed High, Medium, Low, Informational; names are distinct and parse back |
| Models.FindReport | backend/services.py:118 | the lookup returns a stored report with the requested id, and fails exactly when no stored report has that id |
| Models.VulnerabilitiesOf | backend/models.py:39 | a report's vulnerabilities are exactly the stored ones whose report id is the report's |
| Models.InstancesOf | backend/models.py:65 | a vulnerability's instances are exactly the stored ones whose vulnerability id is the vulnerability's |
| Models.Stats | backend/models.py:44-51 | the stats map has exactly the four severity names as keys, and each bucket counts the vulnerabilities with exactly that severity |
| Models.SeverityCountsBounded | backend/models.py:48-51 | the four buckets add up to at most the number of vulnerabilities, and to exactly that number when every severity is one of the four |
| Models.StatsSum | backend/models.py:44-51 | the buckets of `Report.stats` add up to no more than the report's vulnerability count |
| Models.DeleteReport | backend/models.py:39-76 | deleting a missing report fails. Otherwise the report, its vulnerabilities and their instances are removed, every other row is kept, and store validity and known severities are preserved |
| Importer.Resolve | backend/services.py:80-84 | a named field takes the `content` value when the key is in `content` (whatever the value), else the top-level value, else '' |
| Importer.ExtraFieldsSpec | backend/services.py:70-75 | the extra bag holds exactly the top-level keys outside URL, content and the five labels, each with its value unchanged, and no key twice |
| Importer.ImportInstance | backend/services.py:66-86 | one instance object decomposes exactly when its `content` is an object and its URL is not null; a non-object `content` raises |
| Importer.ImportInstanceSpec | backend/services.py:77-86 | a decomposed instance keeps the URL, takes every named field by content-first precedence, and carries the extra bag exactly when it is non-empty |
| Importer.ImportInstancesSpec | backend/services.py:64-67 | an instance list yields one draft per object element, in order, and fails exactly when one of those elements fails; other elements are skipped |
| Importer.ImportInstanceList | backend/services.py:64-65 | a list is walked, a string or an object yields nothing, and null, numbers and booleans cannot be iterated and abort the import |
| Importer.ImportTitlesSpec | backend/services.py:49-61 | every key of a finding mapping whose body is an object becomes one vulnerability titled by the key, in key order; other bodies are skipped |
| Importer.ImportVulnerabilityList | backend/services.py:43-49 | every vulnerability gets the list's severity, and an element that is not an object aborts the import |
| Importer.ImportVulnerabilityListSpec | backend/services.py:47-61 | a severity list decomposes exactly when every element is an object whose entries decompose, and then yields each element's vulnerabilities in list order, joined |
| Importer.ImportSeverity | backend/services.py:39-45 | a missing severity key or one whose value is not a list yields nothing |
| Importer.ImportSeverities | backend/services.py:39-45 | the walk succeeds exactly when every severity succeeds, and every stored severity is one of the four |
| Importer.ImportSeveritiesPerSeverity | backend/services.py:39-67 | in any visiting order, the vulnerabilities of one severity are exactly what its own key yields, in list order |
| Importer.ImportOrderIndependent | backend/services.py:13-39 | success, and the vulnerabilities of each severity, do not depend on the iteration order of the severity set |
| Importer.Decompose | backend/services.py:29-34 | a document decomposes exactly when it is an object with a non-null SiteURL whose severity walk succeeds; otherwise a non-object document or a null SiteURL aborts; the header fields are read with '' as default, and the vulnerabilities are those of the severity walk |
| Importer.HeaderOnlyDocument | backend/services.py:28-45 | an object document with a non-null SiteURL and none of the four severity keys, `{}` among them, imports as a report with its header fields and no vulnerabilities |
| Importer.ImportJson | backend/services.py:17-90 | the import succeeds exactly when the document decomposes, fails with the decomposition's error, and names the new report by the report counter |
| Importer.Persist | backend/services.py:29-36 | the new report row is appended with the counter's id, no notes and the import time, and the existing rows are kept as a prefix |
| Persistence.PersistValid | backend/models.py:30-76 | writing a draft keeps ids increasing and below the counters and keeps every foreign key pointing at a stored row; stored severities stay among the four |
| Persistence.PersistStores | backend/services.py:54-87 | the stored report holds the drafted vulnerabilities in draft order, each followed by its drafted instances, all pending with no fix data |
| Persistence.ImportedView | backend/services.py:17-90 | after a successful import the store is valid, the new report id is fresh and findable, and the report stores exactly its draft |
| Persistence.PersistInstancesRealise | backend/models.py:86-89 | every freshly written instance is its draft under its identifier, pending, with no fix time, fixer or notes |
| Exporter.ContentGet | backend/services.py:142-156 | the exported `content` holds a named field exactly when its stored value is truthy |
| Exporter.RenderInstanceGet | backend/services.py:142-168 | an exported instance has URL and content, the extra keys merged over them, and `_fix_status` last, which overrides an extra key of that name |
| Exporter.AppendEntry | backend/services.py:131-172 | appending under a severity fails exactly when that key already holds a non-list |
| Exporter.AddVulnerabilitiesOk | backend/services.py:131-172 | adding the vulnerabilities fails exactly when one of their severities names a header key that holds a non-list |
| Exporter.AddVulnerabilitiesGet | backend/services.py:131-172 | each severity key ends up holding the entries of its vulnerabilities in order, after anything that was there before |
| Exporter.AddVulnerabilitiesKeys | backend/services.py:131-134 | the export gains exactly one key per severity met, and no key twice |
| Exporter.HeaderGet | backend/services.py:120-128 | the header holds the three document fields, the export time, and the notes exactly when they are truthy |
| Exporter.HeaderKeys | backend/services.py:120-128 | the header has exactly those keys |
| Exporter.ExportReport | backend/services.py:107-118 | exporting fails as not found exactly when no stored report has the id; an exported report is an object |
| RoundTrip.ExportAfterImport | backend/services.py:120-172 | exporting a freshly imported report reproduces its header fields and puts under each severity exactly the drafted vulnerabilities of that severity, in order |
| RoundTrip.InstanceRoundTrip | backend/services.py:69-168 | an instance exported after import has its URL, every unreserved top-level key with its value, and every truthy resolved named field inside `content`, and no other keys |
| RoundTrip.RenderFresh | backend/services.py:141-170 | freshly stored instances export exactly as their drafts do |
| StatusEngine.MarkFields | backend/services.py:214-219 | an update writes the status and the notes (even null); it sets the fix time and fixer exactly when the status is fixed, and changes nothing else |
| StatusEngine.MarkIdempotent | backend/services.py:214-219 | repeating the same update changes nothing more |
| StatusEngine.UpdateInstanceStatus | backend/services.py:207-222 | an unknown id fails as not found before the status is checked; a status outside the five values fails as invalid; a success stores the requested status |
| StatusEngine.UpdateChangesOnlyTarget | backend/services.py:209-221 | a successful update rewrites only the instance with the given id, and the other tables and counters stay as they were |
| StatusEngine.UpdateKeepsValid | backend/services.py:207-222 | an update keeps the store valid |
| StatusEngine.BatchUpdateStatus | backend/services.py:225-234 | the count is at most the number of ids, and an invalid status updates nothing and counts 0 |
| StatusEngine.BatchCount | backend/services.py:225-234 | with a valid status the count is the number of ids that name a stored instance; failures never stop the loop |
| StatusEngine.BatchResult | backend/services.py:225-234 | the batch leaves the store as marking every listed instance in turn would; missing ids change nothing |
| StatusEngine.StatusSummary | backend/services.py:237-249 | the summary has exactly the five status buckets plus total; each bucket counts its exact status in scope, and total counts the recognised ones |
| StatusEngine.StatusCountsAddUp | backend/services.py:248 | the five buckets add up to the number of instances with a recognised status |
| StatusEngine.SummaryTotal | backend/services.py:243-248 | total is at most the number of instances in scope, and equals it exactly when every status is recognised |
| StatusEngine.ReportScope | backend/services.py:240-241 | with a report id, the summary counts exactly the instances of that report's vulnerabilities |
| Views.DashboardStats | backend/app.py:65-97 | the dashboard totals are the sizes of the three tables |
| Views.DashboardSeverities | backend/app.py:73-76 | `severity_stats` has exactly the four levels, each counting vulnerabilities with exactly that severity |
| Views.DashboardSeveritiesTotal | backend/app.py:68-76 | when every stored severity is one of the four, the four counts add up to the vulnerability total |
| Views.DashboardIsSumOfReportStats | backend/app.py:73-87 | each dashboard count is the sum of that bucket of `Report.stats` over all reports |
| Views.Truncate | backend/app.py:417 | a URL of at most 80 characters is kept; a longer one becomes its first 80 characters and '...', so a label is never over 83 |
| Views.VulnNodeOf | backend/app.py:410-421 | a vulnerability node has the vulnerability's id and title, and its instance count is its number of instance children, one per instance |
| Views.ReportName | backend/app.py:441 | the report node is named by the site URL, or the file name when the site URL is empty |
| Views.GroupsGet | backend/app.py:447-469 | a severity group holds the nodes of that severity's vulnerabilities in report order, and exists exactly when there is one |
| Views.ReportTreeGroups | backend/app.py:471-475 | the tree emits, for High, Medium, Low, Informational in that order, the group of each severity that has vulnerabilities |
| Views.ReportTreeShape | backend/app.py:446-475 | groups come in rank order, each at most once and non-empty; each vulnerability of a known severity sits in its group, and one of any other severity is in none |
| Views.VulnTree | backend/app.py:388-432 | given the stored reports in the order the query lists them, the full tree has one node per stored report, in listing order, each node being the full tree of the report at that position (so `ReportTreeGroups` and `ReportTreeShape` apply to it), and every stored report's tree is among the nodes |
| Views.VulnTreeByReport | backend/app.py:434-477 | the single-report tree fails as not found exactly when the id is not stored, and otherwise is a one-element list whose node is `ReportTree` of the stored report with that id, so `ReportTreeGroups` and `ReportTreeShape` apply to it |
| Handlers.ImportRoute | backend/app.py:198-228 | a request imports exactly when a `.json` file whose bytes are text, parse as JSON and decompose was sent; any other request leaves the store untouched |
| Handlers.ImportRouteOutcome | backend/app.py:201-228 | the reply is 200 exactly on acceptance; 500 exactly when a `.json` file's bytes are not valid text or its document decodes but the import raises; 400 exactly when there is no file, the name is not `.json`, or the text does not parse; every non-200 reply leaves the store as it was |
| Handlers.ImportRouteFresh | backend/app.py:211-223 | the store stays valid, and an accepted file gets a report id not used before |
| Handlers.ImportOne | backend/app.py:240-260 | one bulk file is imported exactly when it is accepted, and either way it is reported under its own name; bytes that are not text and text that does not parse are error entries, as the loop's `except Exception` makes them |
| Handlers.ImportFiles | backend/app.py:239-260 | the two lists together have exactly one entry per uploaded file (which list each goes to is `ImportFilesPartition`) |
| Handlers.ImportFilesPartition | backend/app.py:239-260 | the imported list names exactly the accepted files and the error list exactly the refused ones, each in upload order |
| Handlers.ImportFilesSkipRefused | backend/app.py:247-260 | a failing file is rolled back: the result is as if only the accepted files had been sent |
| Handlers.ImportFilesFresh | backend/app.py:247-254 | bulk import keeps the store valid and gives the imported reports consecutive, previously unused ids |
| Handlers.BulkImport | backend/app.py:233-234 | a request without files is refused and leaves the store as it was |
| Handlers.UpdateStatusRouteCodes | backend/app.py:287-314 | a missing or empty status is refused with 400 before the service runs; an invalid status gives 400, a missing instance 500, and a success 200 echoing the id and status |
| Handlers.BatchStatusRouteOutcome | backend/app.py:316-336 | empty ids or a missing status are refused and change nothing; an invalid status counts 0; otherwise the count is the number of ids that name a stored instance |
| Handlers.MissingInstanceAnswers500 | backend/app.py:298-314 | as written, a status update with a truthy status for instance 1 of an empty store answers 500: the concrete witness of the finding, whose general form is the 500 clause of `UpdateStatusRouteCodes` |
| Handlers.IntendedRouteCodes | backend/app.py:298-314 | with not-found passed through, a missing instance answers 404 and every other reply and store effect is unchanged |

## Left out

- HTTP plumbing is not modelled: Flask routing, CORS, `jsonify`, `send_file`, pagination and the search route. A reply is a datatype with its status code.
- Database bootstrap, reset, and SQL import/export are not modelled. They drive a live MySQL server and subprocesses.
- The ZIP export of all reports and the file and string wrappers `import_json_file`, `import_json_string` and `bulk_import_directory` are not modelled. They are file-system and parser I/O.
- `LogService` and `OperationLog` are not modelled. They are append-only logging with no logic.
- `backend/config.py` and the frontend are not part of this model.
- Wall-clock time: `datetime.utcnow()` becomes the string parameter `now`. `imported_at`, `fixed_at` and `exported_at` hold that string. `created_at` and `updated_at` are not modelled.
- JSON decoding is not modelled. An upload's body is what `json.load` makes of its bytes: a decoded value, text that does not parse (`JSONDecodeError`), or bytes that are not valid text (`UnicodeDecodeError`, which the single import's `except json.JSONDecodeError` does not catch, so it answers 500). Numbers are integers only, because floats are out of scope.
- Database type coercion and column lengths (`String(500)` and the like) are not modelled. A text column holds the imported JSON value unchanged.
- `export_report`'s `include_status` comes from the query string. The model takes it as a boolean and does not model the string parsing.
- Report ordering by `imported_at` is not modelled. `Views.VulnTree` takes the report listing as a parameter.
- The dashboard's `recent_reports` list is not modelled: it is five reports by time, with their stats, which `Models.Stats` covers.
- Handlers.ImportFiles: all files of one bulk request share one `now`.
- Importer.ImportJson: when several errors are possible, the model reports the first one met in document order. It does not model which exception Python's message text names.
- Importer.IsSeverityOrder: the iteration order of the Python set `SEVERITY_KEYS` is a parameter rather than a fixed order.
- Handlers.BatchStatusRouteOutcome: only integer ids are looked up. Other values in `instance_ids` count as not found, because the model does not model how the ORM coerces them.
- Handlers.BatchStatusRouteOutcome: when `instance_ids` is a string or an object, the model states nothing beyond the refusal rule. It iterates the string's characters or the object's keys, which then count as not found.
- Views.InstanceLabel: a URL that is not a string is passed through, not truncated. The source's text column would hold its string form, and that coercion is not modelled.
- Handlers.UpdateStatusRoute: a request body that is not a JSON object answers 500, because `data.get` raises outside the `try` and Flask answers the unhandled exception with 500. `UpdateStatusRouteCodes` states the codes for object bodies only.
- RoundTrip.InstanceRoundTrip: requires that the instance object has distinct keys, which every decoded JSON object has.
- RoundTrip.ExportAfterImport: covers a report whose notes are empty, which a fresh import always is. Notes are written by a route this model leaves out.

- Handlers.ImportRoute: a failed import leaves the store, counters included, as it was. The source flushes the report row (backend/services.py:35-36) and, per vulnerability, the rows added so far (backend/services.py:61) before an exception can occur, and the rollback (backend/app.py:227) does not give back auto-increment values that MariaDB/InnoDB handed out. Which values are consumed depends on the flush order and batching of the ORM and on the engine's auto-increment lock mode, so the counters' advance on failure is not modelled.
- Handlers.ImportRouteOutcome: every non-200 reply leaves the store as it was, counters included; in the source a 500 can leave the report, vulnerability and instance counters advanced, for the reason given on the Handlers.ImportRoute line.
- Handlers.ImportFilesSkipRefused: "as if only the accepted files were sent" includes the identifiers the accepted files get; in the source a refused file that failed after its flush has consumed identifiers, so later files get larger ones. The rows' contents and order are as stated; only the identifiers can differ.
- Handlers.ImportFilesFresh: the imported reports get consecutive identifiers only because a failed file consumes none in the model; in the source they are fresh and increasing, with gaps where a failed file's report row was flushed and rolled back.
- Views.DashboardSeverities: counts vulnerabilities whose stored severity equals a level's name exactly. The source counts with SQL `filter_by(severity=...)` (backend/app.py:75) on a database created with the case-insensitive, pad-space collation `utf8mb4_unicode_ci` (backend/app.py:29), so a severity such as "high" would be counted under High there. The collation is not modelled; the importer only ever stores the four exact names (`Persistence.PersistValid`), so the two agree on every store the import routes build.
- Views.DashboardIsSumOfReportStats: the equality with the sum of `Report.stats`, whose test is exact Python string comparison (backend/models.py:48-50), holds in the source only for severities outside the collation's case and trailing-space variants, for the reason given on the Views.DashboardSeverities line.
- Models.VulnerabilitiesOf: a report's vulnerabilities, and Models.InstancesOf a vulnerability's instances, are read in identifier order. The `lazy='dynamic'` relationships (backend/models.py:39, 65) have no `order_by`, so the source's order is whatever the database returns, usually primary-key order. The "in order" of `RoundTrip.ExportAfterImport` and the "report order" of `Views.GroupsGet` rest on this.
- StatusEngine.BatchResult: every row of a batch is stamped with one `now`; the source calls `datetime.utcnow()` once per row (backend/services.py:218, called from 230), so the fix times of one batch may differ slightly.

## Findings

| source | as written | input that shows it | evidently intended | confidence | as-written member | corrected member |
|---|---|---|---|---|---|---|
| backend/app.py:298-314 | `get_or_404` raises inside the `try`, so the broad `except Exception` turns a missing instance into a 500 carrying the 404 message | `PUT /api/instances/1/status` with body `{"status": "fixed"}` on an empty store | answer 404 for a missing instance, as the routes that call `get_or_404` outside a `try` do (backend/app.py:135, 178, 191, 437) | not executed | Handlers.MissingInstanceAnswers500 | Handlers.IntendedRouteCodes |

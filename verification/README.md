# Verified models of sub2api components

This project models six components of sub2api in Dafny 4.11 and proves what they promise.

- **Bulk create** (`BulkCreate.dfy`, `AccountCreate.dfy`). The `Save` of a `*CreateBulk` builder is a
  chain: the mutator of builder i checks, builds its spec and calls mutator i+1 from inside itself; the
  innermost one runs the batch insert; identifiers and `done` flags are set on the way out. A hook returns
  without calling `next`, or edits the mutation (in place or as a copy), calls `next` once and answers with
  any error of its own: it may pass the outcome on, fail after success, or drop the error. The chain is
  generic in the mutation, the node, the spec and the error; `check`, `createSpec`, `defaults` and the
  insert are parameters. `Bulk.Mutate` is the run; `Bulk.Depth`, `Bulk.Path`, `Bulk.Report` and
  `Bulk.Completing` describe it without running it, and the class `BulkSave` is the imperative form.
- **Eager loading** (`EagerLoad.dfy`, `AccountQuery.dfy`). Each loader asks one batched query and indexes
  the answer. Loaders are proved against the plain join or lookup they replace; `AccountQuery` composes the
  six loaders with column selection. A node is its position in the list of nodes.
- **API-key rows** (`ApiKeyRow.dfy`). The node that a create returns against the node that a later read
  rebuilds from the written row.
- **Probe-evidence import** (`ProbeImport.dfy`). Probe files are merged into snapshots, each snapshot
  becomes one guarded UPDATE, and runs of imports and edits act on the rows. Timestamps are integers: one
  format is assumed in which the string order of the merge and the timestamp order of the UPDATE agree.
- **Audit-exception gate** (`AuditText.dfy`, `AuditGate.dfy`). The exception-list parser with a printer,
  the findings of an audit report, the index and the verdict loops. Lower-casing, ISO date parsing and the
  current date are parameters.
- **Branding** (`Branding.dfy`). HTML escaping and the two leftmost-match rewrites of the index page. URL
  parsing is a parameter.

`Common.dfy` holds option and result types and sequence facts. `dafny verify dfyconfig.toml` checks
everything.

Five properties hold only under a condition. The exact condition is proved, and a failing input is given:

- A bulk save is all-or-nothing exactly when a builder that stops the descent is reported as an error and
  the hooks of no builder in front of it turn an error into success or success into an error
  (`SaveIsAllOrNothing`; failing inputs in `LateErrorLeavesAMark` and `DroppedErrorLooksLikeSuccess`). For
  hooks that never drop an error this is: something obstructs, the insert fails, or no hook fails after
  success (`KeptErrorsMakeItAllOrNothing`), and the mutations that stay marked otherwise are exactly a final
  stretch of the builders (`LateFailureMarksASuffix`).
- What a bulk save inserts for a builder has passed `check`, for every `check`, exactly when it is one of the
  mutations that were checked (`InsertedWasChecked`, `UncheckedCanBeInserted`; failing input in
  `CopyEscapesCheck`): the check runs before the mutation that a hook passed on replaces the builder's own.
- One import of many entries equals importing them one at a time exactly when no entry without a verdict
  follows the last definitive one with a later timestamp (`OneImportEqualsMany`; failing input in
  `SilentEntryMovesTheTimestamp`).
- The order of the audit findings is irrelevant exactly when the exceptions are rejected anyway, a gated
  finding has a blank key or a key of which no finding is excused, or all gated findings are excused
  (`FindingOrderIsIrrelevantIff`; failing input in `FindingOrderCanMatter`).
- Branding is idempotent unless the leftmost icon overlaps the leftmost title and a second, different
  title follows (`InjectIdempotentIff`; failing input in `BrandingTwiceCanDiffer`).

## Model

| member | source | states |
|---|---|---|
| `BulkCreate.Bulk.MutateBehaves` | backend/ent/account_create.go:2176-2213 | any run of a mutator with any hooks, checks and insert answer: the error it returns, the nested trace, the specs, and exactly which mutations end up done and pointing at their node |
| `BulkCreate.Bulk.SuccessfulSaveIsWellNested` | backend/ent/account_create.go:2172-2220 | with hooks that never drop an error, a successful save has saved everything: it enters builder 0's hooks in order, checks and builds, then builder 1's, and so on, inserts once with every spec at its builder's index, and leaves in exact reverse order |
| `BulkCreate.Bulk.WellNestedIff` | backend/ent/account_create.go:2172-2220 | with any hooks, the events are those of that full plan exactly when every mutation is done with the insert's id |
| `BulkCreate.Bulk.EverySaveIsNested` | backend/ent/account_create.go:2172-2220 | every save, failed ones included, follows a prefix of that plan, runs the insert at most once and at the centre, and leaves what it entered in reverse; the insert is missing exactly when some hook does not call `next` or some check fails |
| `BulkCreate.Bulk.ObstructedSaveNeverInserts` | backend/ent/account_create.go:2181-2193 | when any builder has a hook that does not call `next` or fails its check, no insert occurs anywhere in the run |
| `BulkCreate.Bulk.SaveIsAllOrNothing` | backend/ent/account_create.go:2181-2208 | an error leaves no mutation done or with an id and success saves all of them with the insert's ids, if and only if an obstructing builder is reported as an error and no builder in front of it has hooks that turn the outcome round |
| `BulkCreate.Bulk.KeptErrorsMakeItAllOrNothing` | backend/ent/account_create.go:2181-2208 | with hooks that never drop an error, that is the case if and only if the save is obstructed, the insert fails, or no hook fails afterwards |
| `BulkCreate.Bulk.MarkedIff` | backend/ent/account_create.go:2199-2207 | a mutation is done and points at its node exactly when no builder up to its own obstructs and no error comes back to its builder |
| `BulkCreate.LateErrorLeavesAMark` | backend/ent/account_create.go:2199-2213 | a concrete save that returns an error and leaves its mutation marked |
| `BulkCreate.DroppedErrorLooksLikeSuccess` | backend/ent/account_create.go:2188-2207 | a concrete save of two builders that returns success, marks the first mutation and never inserts |
| `BulkCreate.Bulk.LateFailureMarksASuffix` | backend/ent/account_create.go:2199-2213 | with hooks that never drop an error, after a successful insert mutation j is done exactly when no later builder has a hook that fails afterwards |
| `BulkCreate.Bulk.CheckSeesOwnMutation` | backend/ent/account_create.go:2176-2186 | the checked mutation has the edits of the hooks in front of the first one that passes on a copy, the saved one has the edits of all hooks; they are the same when all hooks edit in place |
| `BulkCreate.Bulk.InsertedWasChecked` | backend/ent/account_create.go:2181-2193 | what an unobstructed save inserts for a builder has passed the check whenever it is one of the checked mutations |
| `BulkCreate.Bulk.UncheckedCanBeInserted` | backend/ent/account_create.go:2181-2187 | whenever it is not, some check rejects it and yet lets the whole save through |
| `BulkCreate.CopyEscapesCheck` | backend/ent/account_create.go:2181-2187 | a concrete save that succeeds and saves everything although `check` rejects what was inserted |
| `BulkCreate.BulkSave.Mutate` | backend/ent/account_create.go:2188-2213 | the hooks around a mutator, over mutable slices, have exactly the effect of the specified run |
| `BulkCreate.BulkSave.MutateInner` | backend/ent/account_create.go:2176-2209 | the mutator itself, over mutable slices, has exactly the effect of the specified run |
| `BulkCreate.BulkSave.Save` | backend/ent/account_create.go:2165-2222 | a pending error changes nothing, no builders give no insert, and otherwise the defaults loop and the chain give the specified outcome |
| `AccountCreate.AccountBuilder.Defaults` | backend/ent/account_create.go:541-600 | the effect of the assignments on the builder is the specified one, and an error names the first field whose default function is missing |
| `AccountCreate.DefaultedFieldByField` | backend/ent/account_create.go:541-600 | field by field: a set field keeps its value, an unset one in front of the first missing default function gets the default of its own name, an unset one behind it stays unset, and name, platform, type and session window status never change |
| `AccountCreate.CheckNamesTheFirst` | backend/ent/account_create.go:602-676 | `check` names the first field, in the order of the code, that is missing or rejected |
| `AccountCreate.CheckIff` | backend/ent/account_create.go:602-676 | `check` passes exactly when every field that has a default is set and the user's fields are present and accepted by their validators |
| `AccountCreate.CheckAfterDefaults` | backend/ent/account_create.go:541-676 | a failing `defaults` makes `check` fail; after a successful one `check` fails exactly on a missing name, platform or type or a rejecting validator |
| `AccountCreate.IgnoringDefaultsIsSafe` | backend/ent/account_create.go:2172-2220 | a bulk save in which a defaulted field is still unset when its builder is checked never inserts and is not saved; with hooks that never drop an error it returns an error and marks nothing |
| `AccountCreate.GapsAreCaught` | backend/ent/account_create.go:541-676 | a field that a failing `defaults` left unset is still unset at the check, unless a hook that edits the builder's own mutation fills it |
| `EagerLoad.LoadGroups` | backend/ent/account_query.go:627-687 | every node gets the groups joined to its ID, the last node of an ID taking them, whatever the order in which the audience sets are visited |
| `EagerLoad.JoinedGroupsSpec` | backend/ent/account_query.go:661-685 | those groups are exactly the joined ones, each once, ordered by the group's first appearance among all joined rows |
| `EagerLoad.LoadToOne` | backend/ent/account_query.go:720-751 | every node gets the returned row whose ID is its foreign key, and the load fails exactly when a returned row answers no foreign key |
| `EagerLoad.LoadToMany` | backend/ent/account_query.go:752-784 | every node gets the rows that refer to it, in order, and the load fails exactly when a returned row has a nil or unknown foreign key |
| `EagerLoad.LoadToManyConserves` | backend/ent/account_query.go:772-782 | the loaded lists together are, as a multiset, exactly the returned rows |
| `EagerLoad.DistinctIdsLoadAll` | backend/ent/account_query.go:753-761 | with distinct node IDs every list is the order-preserving filter by foreign key |
| `AccountQuery.QuerySpec` | backend/ent/account_query.go:858-880 | the column list built step by step is the selection with the ID in front and the needed foreign keys appended |
| `AccountQuery.SelectionKeepsKeys` | backend/ent/account_query.go:866-880 | with any selection the ID comes first and exactly once, and exactly the ID, the selected and the needed columns are read |
| `AccountQuery.ReaderShows` | backend/ent/account_query.go:566-571 | for any row and selection, a column is read exactly when it is the ID, selected or needed (or nothing is selected), with its value unchanged |
| `AccountQuery.SqlAll` | backend/ent/account_query.go:550-625 | for any selection no loader fails, every node shows the values of exactly the ID, the selected and the needed columns, and all six edges are those that the unselected rows call for |
| `AccountQuery.GroupsThroughQuery` | backend/ent/account_query.go:637-676 | the groups loaded through a selecting join query, keyed by its first column, are the joined groups of the whole rows, read with that selection |
| `AccountQuery.EveryNodeIsDecided` | backend/ent/account.go:120-140 | a requested parent or proxy is never reported as not loaded: it is the row whose ID is the foreign key, with exactly the wanted columns, or not found exactly when there is none |
| `AccountQuery.EveryNodeIsListed` | backend/ent/account_query.go:752-845 | the last node of an ID finds, in table order, exactly the accounts whose `parent_account_id` and the usage logs and account groups whose `account_id` is its ID, each with exactly its wanted columns; an earlier node of the same ID finds none |
| `AccountQuery.EveryNodeHasItsGroups` | backend/ent/account_query.go:627-687 | a requested group list is never reported as not loaded: it is the joined groups, each with exactly its wanted columns |
| `AccountQuery.KeysAre` | backend/ent/account.go:201-414 | a row refers to an ID exactly when the value of its column is that key, and a row without an ID counts as 0 |
| `AccountQuery.ParentChildDuality` | backend/ent/account_query.go:720-784 | over one account table and for any two requests and column selections, c is among the loaded children of p exactly when p is the loaded parent of c |
| `ApiKeyRow.ScanValues` | backend/ent/apikey.go:120-139 | every column gets the scan destination of its type |
| `ApiKeyRow.AssignValues` | backend/ent/apikey.go:143-309 | too few values or a value of the wrong type is an error, otherwise the columns are assigned one after the other to a zero node |
| `ApiKeyRow.ReadRow` | backend/ent/apikey.go:120-309 | scanning a row into the destinations of its columns and assigning the values is the specified read, and a cell that does not fit its destination is an error |
| `ApiKeyRow.AssignChangesOneField` | backend/ent/apikey.go:147-303 | assigning a scanned column never raises a type error, sets the field behind it and leaves every other field alone |
| `ApiKeyRow.RowRoundTrip` | backend/ent/apikey_create.go:508-649 | reading the written row back through the full column list, in any order, with repetitions and unknown columns, gives exactly the node that the save returned, with the unknown columns set aside |
| `ApiKeyRow.PartialRowRoundTrip` | backend/ent/apikey.go:143-309 | any column list reads the selected fields of the saved node and zero values for the rest |
| `ApiKeyRow.ReadBackKeepsAside` | backend/ent/apikey.go:303-306 | the values set aside are those of exactly the unknown columns that were read, and a well-typed row is always readable |
| `ApiKeyRow.CheckFillsRequiredColumns` | backend/ent/apikey_create.go:426-488 | `check` passes exactly when the row fills every required column and the validators agree |
| `ApiKeyRow.CheckNamesTheFirst` | backend/ent/apikey_create.go:426-488 | `check` names the first column, in the order of the code, that is missing or rejected |
| `ProbeImport.VerdictIff` | tools/import_model_route_probes.py:9-20 | the verdict is supported exactly when the probe says so, and unsupported exactly for any other result with status 400, 404, 410 or 422 whose text contains one of nine phrases or a quoted model that is not available, in any letter case |
| `ProbeImport.UnsupportedNamesAModel` | tools/import_model_route_probes.py:9-20 | an unsupported verdict needs one of the four statuses and a message about a model, so an ordinary 404 is never evidence |
| `ProbeImport.VerdictSurvivesContext` | tools/import_model_route_probes.py:13-20 | an explicit model error stays definitive inside any surrounding text |
| `ProbeImport.Snapshots` | tools/import_model_route_probes.py:23-36 | the loops over files and accounts compute the merged evidence of all entries in order |
| `ProbeImport.RTrimIs` | tools/import_model_route_probes.py:28 | the host is the address without its trailing slashes: all of them and nothing else |
| `ProbeImport.SlashesDoNotMatter` | tools/import_model_route_probes.py:28-52 | adding or removing trailing slashes, in any entries and in the stored address, changes nothing about what an import stores |
| `ProbeImport.VisitAccount` | tools/import_model_route_probes.py:28-35 | visiting one account joins what the entry says alone into the dictionary |
| `ProbeImport.SnapshotsSpec` | tools/import_model_route_probes.py:23-36 | a key is present exactly when it has a definitive row, its timestamp is the latest of all its entries, and each model has the verdict of its last definitive row |
| `ProbeImport.EntryIsStored` | tools/import_model_route_probes.py:23-56 | a definitive entry is stored, timestamp, host and verdicts, in the live API-key row of its account whose address differs at most in trailing slashes and whose evidence is not newer; stored verdicts of that host on other models stay, nothing else changes, and every other row is left alone |
| `ProbeImport.CombinedConcat` | tools/import_model_route_probes.py:24-35 | the dictionary of concatenated inputs is the merge of the separate dictionaries |
| `ProbeImport.BatchIsPointwise` | tools/import_model_route_probes.py:68-70 | a whole batch acts on every row as the one statement for the row's own host |
| `ProbeImport.BatchCommutes` | tools/import_model_route_probes.py:46-54 | any two orders of the statements of a batch give the same database |
| `ProbeImport.BatchIsIdempotent` | tools/import_model_route_probes.py:46-54 | applying the same batch again, at any time, leaves the same rows up to `updated_at` |
| `ProbeImport.OneImportEqualsMany` | tools/import_model_route_probes.py:23-56 | for a live matching row and entries in time order, one import equals importing one entry at a time if and only if no later entry without a verdict has a later timestamp |
| `ProbeImport.DefinitiveEntriesImportAlike` | tools/import_model_route_probes.py:23-56 | the two are equal whenever every entry of the row has a definitive verdict |
| `ProbeImport.SilentEntryMovesTheTimestamp` | tools/import_model_route_probes.py:31-36 | two concrete entries for which one import and two imports store different timestamps |
| `ProbeImport.RunSummarised` | tools/import_model_route_probes.py:43-56 | after any run of imports and edits the evidence is that of the accepted snapshots since the last accepted snapshot of another host, their timestamps never go back, and other keys of `extra` are untouched |
| `ProbeImport.CheckedAtNeverDecreases` | tools/import_model_route_probes.py:53-54 | from any row, the stored timestamp never decreases between two points of a run |
| `ProbeImport.StoredVerdictsAreWitnessed` | tools/import_model_route_probes.py:43-56 | in every reachable state each stored verdict is one that an import of the run gave for the stored host |
| `ProbeImport.ImportSparesOtherRows` | tools/import_model_route_probes.py:51-52 | a deleted row, a row of another type, or one whose host has no definitive row never changes |
| `ProbeImport.QuoteRoundTrip` | tools/import_model_route_probes.py:39-40 | SQL reads a quoted value back whole, and the text that follows stays outside the literal |
| `AuditText.ParseExceptions` | tools/check_pnpm_audit_exceptions.py:23-48 | the parser loop computes the records of the line-by-line specification, with the error of a colon-less item |
| `AuditText.ParsePrinted` | tools/check_pnpm_audit_exceptions.py:12-48 | printing any list of nonempty records, each value in double quotes, in single quotes or bare, and parsing the text gives the same records back |
| `AuditText.ParseFailsIff` | tools/check_pnpm_audit_exceptions.py:12-48 | parsing raises an error exactly for a text with an item line that has no colon |
| `AuditText.FirstLine` | tools/check_pnpm_audit_exceptions.py:28 | a line ends at a newline, a carriage return, or both together |
| `AuditText.IndentationMeansNothing` | tools/check_pnpm_audit_exceptions.py:29 | white space around a line means nothing |
| `AuditText.BlanksMeanNothing` | tools/check_pnpm_audit_exceptions.py:12-20 | white space around a key and around a value means nothing |
| `AuditText.BlanksAfterDash` | tools/check_pnpm_audit_exceptions.py:34-42 | nor does white space behind the dash of an item |
| `AuditText.IgnoredLinesMeanNothing` | tools/check_pnpm_audit_exceptions.py:30-33 | blank lines, comments and the two headers never change the records |
| `AuditText.UnquoteLone` | tools/check_pnpm_audit_exceptions.py:16-19 | a value that is a single quote character reads as the empty text |
| `AuditGate.IndexExceptions` | tools/check_pnpm_audit_exceptions.py:153-184 | no error is recorded exactly when every exception is complete, dated, not blank and unique, and the dictionary then holds exactly these |
| `AuditGate.CheckFindings` | tools/check_pnpm_audit_exceptions.py:186-219 | no error is recorded exactly when every gated finding has an advisory key and the first one of each key is excused by the dictionary |
| `AuditGate.Verdict` | tools/check_pnpm_audit_exceptions.py:153-243 | the status is 0 exactly when the plain quantified policy accepts the exceptions and findings |
| `AuditGate.WithoutExceptions` | tools/check_pnpm_audit_exceptions.py:187-240 | without exceptions the gate passes exactly the reports with no named finding whose severity, trimmed and lower-cased, is high or critical |
| `AuditGate.OneAgainstOne` | tools/check_pnpm_audit_exceptions.py:153-219 | from the fields of both: one exception and one finding pass exactly when the exception is sound and, for a serious finding, package, advisory and severity agree up to white space (and case, except for the package) and today is not past the expiry date |
| `AuditGate.EveryFieldIsRequired` | tools/check_pnpm_audit_exceptions.py:9-162 | a record that lacks any of the five fields, or leaves it empty, is never accepted |
| `AuditGate.ExceptionOrderIsIrrelevant` | tools/check_pnpm_audit_exceptions.py:153-184 | permuting the exceptions never changes the verdict |
| `AuditGate.FindingOrderIsIrrelevantIff` | tools/check_pnpm_audit_exceptions.py:186-219 | all orders of the findings get one verdict if and only if the exceptions are rejected, a gated finding has a blank key or a key without an excused finding, or every gated finding is excused |
| `AuditGate.FindingOrderIsIrrelevant` | tools/check_pnpm_audit_exceptions.py:190-219 | in particular permuting the findings never changes the verdict when each key has one severity |
| `AuditGate.FindingOrderCanMatter` | tools/check_pnpm_audit_exceptions.py:201-214 | two findings of one key with different severities whose order decides the verdict |
| `AuditGate.IterVulns` | tools/check_pnpm_audit_exceptions.py:64-111 | the generator with its two loops yields the specified findings of both report shapes in order |
| `AuditGate.AdvisoryReported` | tools/check_pnpm_audit_exceptions.py:51-78 | finding i is advisory i: its identifier is the first nonempty one of GitHub id, URL, first CVE, id, title, advisory and overview, its name that of module name and name, its title that of title, advisory, overview and URL, each absent exactly when all are empty |
| `AuditGate.VulnerabilityReported` | tools/check_pnpm_audit_exceptions.py:80-111 | a vulnerability is reported once for each identifier in its `via` value, in order, under its own name and severity; an item gives the first nonempty one of GitHub id, URL, source, title and name, and for its title of title, URL, advisory and source |
| `AuditGate.VulnerabilitiesFollow` | tools/check_pnpm_audit_exceptions.py:66-111 | behind the advisories come the findings of the vulnerabilities, one after the other |
| `AuditGate.JoinTitlesConcat` | tools/check_pnpm_audit_exceptions.py:109 | titles are joined by a semicolon and a blank |
| `AuditGate.VulnerabilitySeen` | tools/check_pnpm_audit_exceptions.py:82-111 | a vulnerability is seen exactly through the identifiers in its `via` list |
| `AuditGate.RunGate` | tools/check_pnpm_audit_exceptions.py:142-243 | from exception text and report to exit status: the policy applied to the parsed records and the yielded findings |
| `AuditGate.WrittenExceptionIsRead` | tools/check_pnpm_audit_exceptions.py:12-182 | the five lines of a written exception, in any quoting, are read into the five fields of their names |
| `AuditGate.PrintedExceptionsAreJudged` | tools/check_pnpm_audit_exceptions.py:142-243 | a printed exception list gets the verdict of the records it was printed from, in any order |
| `Branding.DecodeEscaped` | frontend/vite.config.ts:6-14 | decoding the five references of section 13.1.4 of the HTML Living Standard undoes escaping |
| `Branding.TrimIs` | frontend/vite.config.ts:31-39 | a trimmed setting is the setting without the white space around it: all of it and nothing else |
| `Branding.IsTitleIff` | frontend/vite.config.ts:34 | a title is an opening tag, a text without an angle bracket and a closing tag, in any letter case |
| `Branding.IsIconIff` | frontend/vite.config.ts:42 | an icon is matched as its pattern is written, part by part |
| `Branding.EscapedIsInert` | frontend/vite.config.ts:6-14 | escaped text contains no angle bracket and no quote |
| `Branding.SearchFinds` | frontend/vite.config.ts:33-36 | the scanning search returns the leftmost match, by its plain definition |
| `Branding.InjectBranding` | frontend/vite.config.ts:29-47 | the two conditional rewrites compute the specified page |
| `Branding.BrandedTitle` | frontend/vite.config.ts:29-37 | the text of the branded page's leftmost title decodes to the trimmed site name followed by " - AI API Gateway", on every page that has a title apart from its icon |
| `Branding.OverlappedTitle` | frontend/vite.config.ts:29-46 | when the icon runs into the title and both are replaced, the leftmost title afterwards is the unchanged second one, if there is one |
| `Branding.BrandedIcon` | frontend/vite.config.ts:39-45 | a branded page has an icon exactly when the page had one, and its href decodes to the trimmed logo |
| `Branding.TitleRequestedIff` | frontend/vite.config.ts:31-32 | a title is written exactly for a site name that is not blank |
| `Branding.IconRequestedIff` | frontend/vite.config.ts:16-40 | an icon is written exactly for a logo that is not blank and starts with one slash only, starts with `data:image/` in any letter case, or is an http(s) URL |
| `Branding.ExpandPattern` | frontend/vite.config.ts:33-44 | where a setting does contain a dollar pattern, it is replaced by what that pattern stands for in `String.replace` |
| `Branding.InjectIdempotentIff` | frontend/vite.config.ts:29-47 | branding twice equals branding once if and only if not both tags are requested, the two tags do not overlap, or no different second title follows |
| `Branding.InjectIsIdempotent` | frontend/vite.config.ts:29-47 | branding is idempotent on every page whose leftmost title and icon do not overlap |
| `Branding.OverlapIsNotIdempotent` | frontend/vite.config.ts:29-47 | branding twice differs from branding once on every page made of an icon header that runs into the first of two titles, when the second one is shorter than any title that branding writes |
| `Branding.BrandingTwiceCanDiffer` | frontend/vite.config.ts:33-44 | one concrete page of this kind, for every configuration with both settings |
| `Branding.InjectKeepsTheRest` | frontend/vite.config.ts:29-47 | for any page and any combination of settings, branding writes the requested tags over their leftmost matches and keeps every other character; where the icon runs into the title, the union of the two is replaced |
| `Branding.InjectLeavesPlainPages` | frontend/vite.config.ts:30-46 | a page without the tags, or a configuration without the settings, is left alone |
| `Branding.DollarFreeIsLiteral` | frontend/vite.config.ts:35-43 | settings without a dollar sign never write a replacement pattern |

## Left out

- ApiKeyRow.RowRoundTrip: `createSpec` is modelled on values, as the node it returns and the row its fields and edges write, not as a sequence of conditional assignments.
- ApiKeyRow.AssignChangesOneField: a value of another type than the scan destination is an error, while the Go driver converts some; written rows never need a conversion.
- ProbeImport.VerdictIff: lower-casing covers ASCII letters only.
- ProbeImport.Snapshots: files that raise an exception while being read (missing keys, an `error` that is not a string) are not modelled.
- AuditGate.WithoutExceptions: assumes of the lower-casing parameter that it maps the empty text to itself.
- AuditGate.OneAgainstOne: the same assumption.
- AuditGate.CheckFindings: error texts and the order of the messages are not modelled, only whether there is an error.
- AuditGate.IterVulns: values that JSON allows but the code would crash on (a severity that is not a string) are not modelled; numbers are given as their decimal text, so a numeric 0, which Python treats as absent, is not distinguished from the text "0".
- Branding.InjectIdempotentIff: assumes replacement texts without replacement patterns, because `String.replace` interprets a dollar sign; `Expand` models that interpretation.
- BulkCreate.Bulk.MutateBehaves: hooks that call `next` more than once, and hooks that pass on a mutation of another type, are not modelled.
- BulkCreate.BulkSave.Save: two builders that share one mutation object, hooks that touch another builder's mutation, and the wrapping of constraint errors are not modelled.
- EagerLoad.LoadGroups: the joined query returns only rows of requested accounts, as its WHERE clause says.
- Row locks, transactions, interceptors, ordering, limits and `Unique` of a query: library behaviour; a batched query returns exactly the rows whose key was asked for, in table order.
- `prepareQuery` and nested eager loading of neighbours: the first only rejects unknown columns, the second repeats the same loaders one level down.
- `scanValues`, `assignValues` and `createSpec` of accounts: the API-key template with more columns.
- Setters, upserts, updates, deletes, `SaveX`-style wrappers, `String`, `GroupBy`: forwarding or formatting.
- JSON and URL parsing, file reading, argument parsing, `docker exec`, `fetch` and build configuration: input and output.
- The gateway services under backend/internal (scheduling, billing, leases): not part of this model.

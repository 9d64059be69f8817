# New employees: Costpoint → Connecteam, in Dafny

This project models the reconciliation job that brings new Costpoint
employees into Connecteam. It also proves properties of that model.

The job runs as a series of phases:
1. It reads the CT projects from Costpoint. These are active, chargeable projects whose NOTES child carries the configured filter value.
2. It reads each project's workforce. Each employee is reduced to one record, taken from their default labor-category row. The rosters are merged first-seen-wins.
3. It looks up every employee's details and keeps only the active ones.
4. It lists the Costpoint ids already stored on Connecteam users, active and archived.
5. It computes the employees that are still missing.
6. It either previews the creation payloads (dry run) or creates the users one at a time.

A plain-text and HTML report then goes out by email, or the preview is saved. `sync` maps the run's outcome to exit code 0 or 1 and closes both API clients once both are built. Building them happens outside the guarded block, so a Connecteam API key that cannot be sent as a header escapes `sync` and leaves the Costpoint client open.

Modules follow the program's files:

| module | file | contents |
|---|---|---|
| `Model` | `model.dfy` | the record types and the two configuration records (`app/models/model.py`) |
| `Deltek` | `deltek.dfy` | the Costpoint row tree and how `get_ct_projects`, `get_workforce` and `get_employee` read it (`app/clients/deltek.py`) |
| `Connecteam` | `connecteam.dfy` | `format_date`, `get_team`, `build_payload`, the paged users listing and `post_user` (`app/clients/connecteam.py`) |
| `Email` | `email.dfy` | the report rows, counts, plain-text body, recipient parsing and delivery branch (`app/services/email_service.py`) |
| `Sync` | `sync.dfy` | phases 2, 3, 5 and 6, the early returns, exit codes and client cleanup of `sync` (`app/services/sync.py`) |
| `Base`, `Http`, `Text`, `Seqs`, `OrderedMaps` | `base.dfy`, `http.dfy`, `text.dfy`, `seqs.dfy`, `ordered_maps.dfy` | shared vocabulary, described below |

The shared modules hold:
- `Base`: `Option`, `Result`, the exceptions that escape (`Fault`), JSON scalars, and `MapResult`, a loop over a list that stops at the first exception.
- `Http`: a call's final reply and `raise_for_status` + `json()`.
- `Text`: Python's `str.split`, `strip` and `join`.
- `Seqs`: first-occurrence order, `Dedup`, subsequences and `MapSeq`.
- `OrderedMaps`: Python's insertion-ordered `dict`, as a key sequence plus a map.

Every remote service is a function-typed parameter, an oracle giving the reply to each request:
- Costpoint: `Sync.CostpointApi`, from a query to the reply after the client's timeout retries.
- Connecteam's users listing: `Connecteam.UsersApi`, from a status and an offset to a page.
- Connecteam's create endpoint: `Connecteam.CreateApi`.
- The mail service: `Email.Mailer`.

An exception that Python would raise is an `Err` carrying a `Base.Fault`. It travels up to `sync`'s `except Exception`.

## Model

| member | source | states |
|---|---|---|
| Model.DeltekFromEnv | app/models/model.py:46-55 | every connection setting falls back to the empty string when its key is missing, except the notes filter, which falls back to "CT"; the company is the string form of whatever `cp_company` holds |
| Model.FullUrlParts | app/models/model.py:57-59 | the Costpoint URL splits back at `?` and `&` into the base URL, `system=<system>` and `company=<company>`, in that order |
| Model.ValidateFromEnv | app/models/model.py:61-62 | a configuration read from a secret validates exactly when base URL, system, username and password are present and truthy and `cp_company` is present and not the empty string |
| Model.ConnecteamFromEnv | app/models/model.py:71-76 | reading the Connecteam configuration fails with the missing-key error exactly when `key` is absent or falsy; otherwise the key is kept and the users endpoint is the fixed default |
| Http.Decode | app/clients/deltek.py:33-41 | a reply yields its body exactly when the status is 2xx and the body is JSON; a timeout and a non-2xx status each surface as their own fault |
| Deltek.CtProjectRows | app/clients/deltek.py:68-79 | the rows kept are exactly the response rows that are `PJMBASIC_PROJ` rows with a `PJMBASIC_PROJ_NOTES` child whose NOTES equals the filter |
| Deltek.CollectCtProjectsSpec | app/clients/deltek.py:67-79 | the project map lists the qualifying rows' ids once each, in order of first appearance, and a repeated id keeps the name of its last qualifying row |
| Deltek.CtProjectMembership | app/clients/deltek.py:70-79 | a project id is found exactly when some top-level project row with that id has a NOTES child matching the filter |
| Deltek.GetCtProjects | app/clients/deltek.py:43-83 | a failed Costpoint call fails the same way; otherwise the result is the ordered project map of the qualifying rows |
| Deltek.WorkforceLeaves | app/clients/deltek.py:120-127 | among a labor-category row's children, exactly the `PJM_PROJEMPLLABCAT_PLCWK` rows with a non-empty employee id are kept |
| Deltek.WorkforceRowsOnPath | app/clients/deltek.py:111-130 | a data row is collected exactly when it sits on a header → labor category → workforce path and names an employee |
| Deltek.GroupByEmployee | app/clients/deltek.py:128-130 | the rows are grouped per employee, employees in order of first appearance, each group holding that employee's rows in order |
| Deltek.FirstDefaultOfGroup | app/clients/deltek.py:134 | the first default row of an employee's group is their first default row in the whole response, and none exists exactly when the response has none for them |
| Deltek.WithDefault | app/clients/deltek.py:133-135 | the employees kept, in order, are exactly those with a row flagged `DFLT_FL = Y` |
| Deltek.SelectDefaultsFails | app/clients/deltek.py:132-141 | selection fails, with a missing-field error, exactly when some employee's first default row has no labor category |
| Deltek.SelectDefaultsRecords | app/clients/deltek.py:132-141 | a successful selection has one record per employee with a default row, in order, each built from that employee's first default row |
| Deltek.WorkforceRecords | app/clients/deltek.py:111-144 | the records follow first-appearance order, name no employee twice, carry the given project id and name, and take the labor category from the employee's first default row |
| Deltek.GetWorkforce | app/clients/deltek.py:85-144 | a failed call fails the same way; otherwise the result is the record selection over the rows on the workforce path |
| Deltek.EmployeeFromRow | app/clients/deltek.py:177-185 | the record carries the requested id, copies each detail field or reads it as "" when absent, and is active exactly when `S_EMPL_STATUS_CD` is "ACT" |
| Deltek.GetEmployee | app/clients/deltek.py:146-186 | an HTTP error status or an empty row list gives no employee; otherwise the record comes from the first row only; timeouts and undecodable bodies escape |
| Connecteam.FormatDate | app/clients/connecteam.py:24-26 | an ISO date, with or without a time, is accepted exactly when it names a valid calendar date; the result rearranges its digits to MM/DD/YYYY and reads back as the same date; anything else raises |
| Connecteam.FormatDateRoundTrip | app/clients/connecteam.py:24-26 | every valid date written as YYYY-MM-DD comes out as that date in MM/DD/YYYY, which parses back to the date |
| Connecteam.FormatDateIgnoresTime | app/clients/connecteam.py:24-26 | adding a valid time of day after `T` changes neither acceptance nor the result |
| Connecteam.FormatDateExample | app/clients/connecteam.py:25 | "2011-07-11T00:00:00" becomes "07/11/2011" |
| Connecteam.GetTeam | app/clients/connecteam.py:29-31 | the team is "FL Security 2025" exactly when the project id starts with "2392", and "FL Baker 2025" otherwise |
| Connecteam.GetTeamByPrefix | app/clients/connecteam.py:29-31 | ids shorter than the prefix go to Baker, ids sharing their first four characters share a team, and every "2392…" id goes to Security |
| Connecteam.DateField | app/clients/connecteam.py:112-121 | an empty date adds no field; a non-empty one adds exactly one field holding its formatted value, or raises when it does not parse |
| Connecteam.FixedFields | app/clients/connecteam.py:104-110 | the five leading custom fields are CP id, title, branch, team and org, in that order, each holding its record value |
| Connecteam.BuildPayload | app/clients/connecteam.py:101-135 | a payload is built unless a non-empty date fails to parse; it is an active user with the employee's names, the five fixed fields first, one field per non-empty date, and an email exactly when one is on file |
| Connecteam.BuildPayloadReadBack | app/clients/connecteam.py:104-131 | looking fields up by id finds every record value, field ids are distinct, and a date field is present exactly when its source date is non-empty |
| Connecteam.CollectFrom | app/clients/connecteam.py:61-86 | a listing that succeeds starts at the requested offset |
| Connecteam.CollectFromSpec | app/clients/connecteam.py:66-84 | the requested offsets strictly increase, each following the previous page's `paging.offset`; the loop stops at the first empty page or non-advancing offset; the ids are the truthy CP-id fields of every requested page; a failure is some page's failure |
| Connecteam.OffsetsRequestedOnce | app/clients/connecteam.py:80-84 | strictly increasing offsets never repeat, so no page is requested twice |
| Connecteam.GetExistingCpIds | app/clients/connecteam.py:88-99 | the id set is the union of the active and the archived listing; the first failing listing's error is raised |
| Connecteam.PostUser | app/clients/connecteam.py:137-182 | a payload error or a timeout escapes; a 2xx reply gives success with the response, any other status gives failure with the status and the error detail; both carry the employee's id and "first last" name |
| Email.ResultMap | app/services/email_service.py:48 | an id is in the result map exactly when some result carries it |
| Email.CreatedIffLastSucceeded | app/services/email_service.py:143-156 | an id counts as created exactly when its last result is a success |
| Email.CountsAddUp | app/services/email_service.py:34-35 | successes and failures add up to the number of results, and there are no failures exactly when every result succeeded |
| Email.HireCell | app/services/email_service.py:155 | the hire-date cell is the placeholder dash when the date is empty; otherwise it fails exactly when the date does not parse, and a cell that is built reads back as the hire date |
| Email.RowFor | app/services/email_service.py:152-161 | a row carries the employee's id, name, email or placeholder, project, team, labor category and hire cell; it has a status only in a live run, and that status is the result map's verdict for the missing id |
| Email.ReportRows | app/services/email_service.py:152-161 | there is one row per missing id, in order, unless some employee's hire date fails to parse |
| Email.LiveRowStatus | app/services/email_service.py:156 | in a live report each row says created exactly when that employee's last result is a success |
| Email.ProjectCountIsDistinctIds | app/services/email_service.py:146 | the project count is the number of distinct project ids among the missing employees, never more than the number of missing employees |
| Email.HtmlSummary | app/services/email_service.py:25-35 | the summary counts the missing employees and their projects; only a live run has success and failure counts, and failures are the total minus the successes |
| Email.SummaryFailures | app/services/email_service.py:34-35 | with one result per missing employee, the failure figure is the number of failed results, zero exactly when all succeeded |
| Email.PadRight | app/services/email_service.py:158-159 | a left-justified cell starts with its text, is padded with spaces to the width, and is never cut |
| Email.SeparatorLine | app/services/email_service.py:150 | the separator is 86 dashes in a dry run and 95 in a live run |
| Email.ReportLines | app/services/email_service.py:144-163 | the body holds the title, the counts, a blank line, the header and the separator, then one line per row, then in a dry run a blank line and the preview note |
| Email.PlainTextEmail | app/services/email_service.py:135-164 | the text body fails exactly when a row fails, and is otherwise the report lines joined by newlines |
| Email.ReportLinesSplit | app/services/email_service.py:164 | when no cell holds a newline, splitting the body at newlines gives back its lines |
| Email.PlainTextLines | app/services/email_service.py:142-164 | read line by line, the text body has the title, the employee and distinct-project counts, one line per missing employee in order, and in a dry run the preview note last |
| Email.LiveLineStatus | app/services/email_service.py:156-160 | a live line ends in "Created" exactly when its row says created, and in "FAILED" otherwise |
| Email.ParseRecipients | app/services/email_service.py:183 | the recipients are the comma-separated entries, stripped, in order, with the blank ones dropped: a subsequence of the stripped entries that holds every non-blank one and no blank one, one per non-blank entry (`Seqs.DropsIsWithout` shows this pins the list down); each is non-empty, stripped and free of commas |
| Email.RecipientsRoundTrip | app/services/email_service.py:183 | a comma-joined list of stripped, comma-free addresses parses back to the same list |
| Email.NoRecipients | app/services/email_service.py:183-186 | no recipient is named exactly when the variable holds nothing but commas and whitespace (an unset variable reads as "") |
| Email.SendImportEmail | app/services/email_service.py:167-211 | both bodies are built first and a bad hire date escapes; a dry run saves the preview and returns true without mailing; a live run with no recipients returns false without mailing; otherwise it returns what the mail service answers |
| Sync.Merge | app/services/sync.py:50-52 | merging a roster keeps the map well formed |
| Sync.MergeIsFirstWins | app/services/sync.py:48-52 | merging a roster into the map of earlier records gives the first-seen-wins map of all records |
| Sync.Phase2IsFirstWins | app/services/sync.py:47-52 | phase 2 fails exactly when some roster fetch fails, and otherwise builds the first-seen-wins map of all rosters in project order |
| Sync.FirstWinsSpec | app/services/sync.py:47-52 | the first-seen-wins map lists each employee once, in order of first appearance, with the record of that first appearance |
| Sync.Flat | app/services/sync.py:48-49 | the concatenated rosters fail exactly when some project's roster fails |
| Sync.FlatCovers | app/services/sync.py:48-52 | an employee appears in the concatenated rosters exactly when some project's roster lists them |
| Sync.Phase2 | app/services/sync.py:37-63 | the roster map is a well-formed ordered map |
| Sync.Phase2Spec | app/services/sync.py:47-52 | the roster map's keys are the distinct employee ids of all rosters, an employee is present exactly when some roster lists them, and their record comes from the earliest project listing them |
| Sync.Lookup | app/services/sync.py:86 | a record found by lookup carries the id it was looked up by |
| Sync.Phase3 | app/services/sync.py:70-109 | the active-employee map is well formed and its ids are a subsequence of the roster's ids |
| Sync.Phase3Fails | app/services/sync.py:80-98 | phase 3 fails exactly when some lookup raises |
| Sync.Phase3Kept | app/services/sync.py:80-98 | a successful phase 3 keeps an id exactly when its lookup found an active employee, and stores that lookup's record under it |
| Sync.Phase3Ids | app/services/sync.py:86-98 | every kept employee is keyed by their own id |
| Sync.Phase5 | app/services/sync.py:134-148 | the missing ids keep the active employees' order, have no duplicates, and are exactly the active ids not already in Connecteam |
| Sync.Phase5Unique | app/services/sync.py:141 | any order-preserving selection of exactly the active ids absent from Connecteam is the phase 5 list |
| Sync.Preview | app/services/sync.py:171-179 | the dry-run preview has one entry per missing id, in order, with the id, the name and the built payload; a payload error escapes |
| Sync.PostAll | app/services/sync.py:187-196 | a live run posts once per missing id, in order, with one result each; an exception escapes |
| Sync.Phase6 | app/services/sync.py:155-204 | a dry run returns no results and keeps the preview; a live run returns the posting results and no preview |
| Sync.DryRunPostsNothing | app/services/sync.py:171-185 | a dry run's outcome does not depend on the create endpoint, and it returns no results |
| Sync.LiveResultsFollowMissing | app/services/sync.py:187-196 | in a live run the i-th result belongs to the i-th missing employee, under their id and name |
| Sync.Pipeline | app/services/sync.py:243-248 | a failing project fetch ends the run with that fault; the run stops for lack of projects exactly when the project map is empty; a finished run hands the report consistent inputs |
| Sync.AfterProjects | app/services/sync.py:250-254 | a failing roster fetch ends the run with that fault; the run stops for lack of workforce exactly when the roster map is empty; a finished run reports on that roster |
| Sync.AfterWorkforce | app/services/sync.py:256-260 | a failing lookup ends the run with that fault; the run stops for lack of active employees exactly when none is kept; a finished run reports on those employees |
| Sync.AfterEmployees | app/services/sync.py:262-275 | a failing users listing ends the run with that fault; the run stops with nothing missing exactly when phase 5 is empty; a finished run carries the phase 5 list and the phase 6 results |
| Sync.Finish | app/services/sync.py:277-278 | the report is sent only for a finished run; an exception from building it ends the run with that fault, and its return value is kept but not acted on |
| Sync.ExitCode | app/services/sync.py:244-300 | an escaping exception, no projects or no workforce exit 1; no active employees or nothing missing exit 0; a finished dry run exits 0 |
| Sync.LiveExitReflectsFailures | app/services/sync.py:280-287 | a finished live run exits 1 exactly when some creation result is a failure |
| Sync.SyncRun | app/services/sync.py:211-304 | `sync` returns 0 or 1 or lets an exception escape; both clients are closed exactly when the guarded block ran, and then the code follows where the pipeline stopped |
| Sync.SyncConfiguration | app/services/sync.py:228-243 | a non-ValueError secret-store error escapes; an unreadable secret or a missing or falsy API key returns 1 before any client is built; a truthy key that is not a non-empty ASCII string escapes while the Connecteam client is built, outside the try, so no client is closed; otherwise both clients are built and closed |
| Sync.ExitIgnoresMailer | app/services/sync.py:277-293 | the exit code is the same whatever the mail service does |

## Left out

- HTTP transport is not modelled: the httpx clients, headers, Basic authentication, the request payloads' filter JSON and the `stamina` timeout retries. One rule of client construction is kept as an assumption about httpx, which is not part of this model: a header value must be a `str` that encodes as ASCII (`Connecteam.ClientBuilds`). The Costpoint client's Basic header comes from an f-string encoded as UTF-8, so building it never fails. Each call is an oracle giving its final reply after the retries. A `TimedOut` reply stands for the exception that escapes after the third timeout.
- The `time.sleep` pacing in phases 2, 3 and 6 is left out. It affects rate limiting only.
- The snapshot writes (`save_json`, `save_html`) are left out; the model assumes they succeed. In the code such a write is not best-effort: a failing S3 write raises inside `sync`'s try block and the run returns 1. The model does not show that path.
- Telemetry, logging, `datetime.now()` (the run id and the HTML footer date), `AWS_LAMBDA_FUNCTION_NAME` and `main.py` are left out. None of them affects a returned value.
- Secrets Manager access and decoding are abstracted to `Sync.SecretFetch`: a decoded object, a ValueError, or another client error. A secret that decodes to a JSON value other than an object is not modelled.
- Model.Secrets: holds only JSON null, booleans, integers and strings. JSON floats are not modelled (a `cp_company` of 12.0, which Python renders as "12.0"), and neither are nested values in a secret.
- JSON bodies that the job only passes along (the create response, a structured error detail) are opaque `Http.Json` text.
- Model.Validate: modelled, but `sync` never calls it. A configuration with empty Costpoint settings therefore runs, and the Costpoint calls fail instead.
- Connecteam.FormatDate: accepts only `YYYY-MM-DD` and `YYYY-MM-DDTHH:MM:SS`. Other shapes that `datetime.fromisoformat` also accepts are read as a ValueError: fractional seconds, offsets, the basic format and a space separator. The year is written with the input's four digits; the platform-dependent `%Y` rendering of years below 1000 is not modelled.
- Connecteam.CollectFrom: requires the listing to end by an offset bound (`EndsBy`), so the recursion terminates. The code only guarantees strictly increasing offsets, so termination in the code depends on the server.
- Connecteam.GetExistingCpIds: requires the same ending bound for both statuses.
- Sync.Pipeline: requires the same ending bound for both statuses.
- Sync.SyncRun: requires the same ending bound for both statuses.
- Connecteam.PostUser: `errorStatus` keeps the status code rather than the text of `str(exc)`. A 2xx reply whose body is not JSON, or a payload whose date fails to parse, escapes as in the code.
- The users-listing page shape is reduced to `data.users[*].customFields` and `paging.offset`. An offset that is not an integer is not modelled, and neither is a float `customFieldId` such as 15329039.0, which Python compares equal to the CP-id field.
- Email.HtmlSummary: models the HTML email's figures only: the totals, project set and counts. It leaves out the markup, colours, header texts, footer date and the sorted project-id list.
- The email subject, the sender address and the exact SES request are left out. `Email.Mailer` stands for the SES call and its `except Exception` and returns whether the mail went out.
- `send_import_email` is given `results or None`. The model passes the list itself, because an empty list and `None` are treated identically.
- The column padding of the text report is modelled by `Email.PadRight`. The reading-back lemmas assume no cell holds a newline.
- Phase 1 and phase 4 wrappers (`run_phase_1`, `run_phase_4`) only add a snapshot and a log line. They appear inside `Sync.Pipeline` as direct calls to `Deltek.GetCtProjects` and `Connecteam.GetExistingCpIds`.
- `get_workforce` reads the labor category with `dflt[...]`. A missing key raises `KeyError`, which aborts the run; this is modelled as a fault. A field value that is not a string, which pydantic would reject, is not modelled, because row data is modelled as strings.

/** The import report (app/services/email_service.py): the per-employee rows
    shared by the HTML and plain-text bodies, the plain-text body itself, the
    counts of the HTML summary, recipient parsing and the choice between
    saving a dry-run preview and mailing the report. */
module Email {
  import opened Base
  import opened Text
  import opened Seqs
  import opened Model
  import opened Connecteam

  /** The placeholder for a missing hire date or email. */
  const Placeholder: string := "\U{2014}"

  // ---------------------------------------------------------------------------
  // Results as the report reads them
  // ---------------------------------------------------------------------------

  /** `{r["empl_id"]: r["success"] for r in results}`: a later result for
      the same id overrides an earlier one. */
  function ResultMap(results: seq<PostResult>): (m: map<string, bool>)
    ensures forall id :: id in m <==> exists i | 0 <= i < |results| :: results[i].emplId == id
  {
    if results == [] then map[]
    else
      var last := results[|results| - 1];
      var m := ResultMap(results[..|results| - 1]);
      assert forall i | 0 <= i < |results| - 1 :: results[..|results| - 1][i] == results[i];
      m[last.emplId := last.success]
  }

  /** `result_map.get(empl_id)` is truthy. */
  predicate Created(results: seq<PostResult>, id: string) {
    var m := ResultMap(results);
    id in m && m[id]
  }

  /** The last result for `id` exists and is a success. */
  predicate LastSucceeded(results: seq<PostResult>, id: string) {
    exists i | 0 <= i < |results| ::
      && results[i].emplId == id
      && results[i].success
      && forall j | i < j < |results| :: results[j].emplId != id
  }

  /** An id counts as created exactly when its last result is a success. */
  lemma {:induction false} CreatedIffLastSucceeded(results: seq<PostResult>, id: string)
    ensures Created(results, id) <==> LastSucceeded(results, id)
  {
    if results != [] {
      var n := |results|;
      var pre := results[..n - 1];
      var last := results[n - 1];
      assert ResultMap(results) == ResultMap(pre)[last.emplId := last.success];
      if last.emplId == id {
        assert Created(results, id) == last.success;
        if last.success {
          assert LastSucceeded(results, id) by {
            assert results[n - 1].emplId == id && results[n - 1].success;
          }
        } else {
          assert results[n - 1].emplId == id && !results[n - 1].success;
        }
      } else {
        assert Created(results, id) == Created(pre, id);
        CreatedIffLastSucceeded(pre, id);
        LastSucceededDropOther(results, id);
      }
    }
  }

  /** A last result for another id does not change whether `id` last
      succeeded. */
  lemma LastSucceededDropOther(results: seq<PostResult>, id: string)
    requires results != [] && results[|results| - 1].emplId != id
    ensures LastSucceeded(results, id) <==> LastSucceeded(results[..|results| - 1], id)
  {
    var n := |results|;
    var pre := results[..n - 1];
    if LastSucceeded(results, id) {
      var i :| 0 <= i < n && results[i].emplId == id && results[i].success
        && forall j | i < j < n :: results[j].emplId != id;
      assert i < n - 1;
      assert pre[i] == results[i];
      assert forall j | i < j < n - 1 :: pre[j] == results[j];
    }
    if LastSucceeded(pre, id) {
      var i :| 0 <= i < n - 1 && pre[i].emplId == id && pre[i].success
        && forall j | i < j < n - 1 :: pre[j].emplId != id;
      assert results[i] == pre[i];
      assert forall j | i < j < n - 1 :: results[j] == pre[j];
    }
  }

  /** `sum(1 for r in results if r["success"])`. */
  function SuccessCount(results: seq<PostResult>): (n: nat)
    ensures n <= |results|
  {
    if results == [] then 0
    else SuccessCount(results[..|results| - 1]) + (if results[|results| - 1].success then 1 else 0)
  }

  /** `sum(1 for r in results if not r["success"])`. */
  function FailureCount(results: seq<PostResult>): (n: nat)
    ensures n <= |results|
  {
    if results == [] then 0
    else FailureCount(results[..|results| - 1]) + (if results[|results| - 1].success then 0 else 1)
  }

  /** Every result is either a success or a failure. */
  lemma {:induction false} CountsAddUp(results: seq<PostResult>)
    ensures SuccessCount(results) + FailureCount(results) == |results|
    ensures FailureCount(results) == 0 <==> forall i | 0 <= i < |results| :: results[i].success
  {
    if results != [] {
      var pre := results[..|results| - 1];
      CountsAddUp(pre);
      assert forall i | 0 <= i < |pre| :: pre[i] == results[i];
    }
  }

  // ---------------------------------------------------------------------------
  // Report rows
  // ---------------------------------------------------------------------------

  /** The report's inputs: every missing id has a workforce record and an
      employee record, as the job guarantees. */
  predicate Covered(workforce: map<string, WorkforceRecord>, employees: map<string, EmployeeRecord>, missing: seq<string>) {
    forall id | id in missing :: id in workforce && id in employees
  }

  /** The cells of one employee's row. `status` is absent in a dry run and
      otherwise says whether the employee counts as created. */
  datatype ReportRow = ReportRow(
    emplId: string,
    name: string,
    email: string,
    projId: string,
    projName: string,
    team: string,
    laborCat: string,
    hireDate: string,
    status: Option<bool>)

  /** The hire-date cell: the formatted date, or the placeholder when there
      is none; a malformed date raises ValueError. */
  function HireCell(origHireDt: string): (r: Result<string>)
    ensures origHireDt == "" ==> r == Ok(Placeholder)
    ensures r.Err? <==> origHireDt != "" && ParseIsoDateTime(origHireDt).None?
    ensures r.Ok? && origHireDt != "" ==> ParseUsDate(r.value) == ParseIsoDateTime(origHireDt)
    ensures origHireDt != "" ==> r == FormatDate(origHireDt)
  {
    if origHireDt == "" then Ok(Placeholder) else FormatDate(origHireDt)
  }

  /** The row for the missing id `id`; its status is looked up by that id. */
  function RowFor(id: string, w: WorkforceRecord, e: EmployeeRecord, results: seq<PostResult>, dryRun: bool): (r: Result<ReportRow>)
    ensures r.Err? <==> HireCell(e.origHireDt).Err?
    ensures r.Ok? ==> r.value.emplId == e.emplId && r.value.name == FullName(e)
    ensures r.Ok? ==> r.value.email == (if e.homeEmailId != "" then e.homeEmailId else Placeholder)
    ensures r.Ok? ==> r.value.projId == w.projId && r.value.projName == w.projName && r.value.laborCat == w.billLabCatCd
    ensures r.Ok? ==> r.value.team == GetTeam(w.projId) && r.value.hireDate == HireCell(e.origHireDt).value
    ensures r.Ok? ==> (r.value.status.None? <==> dryRun)
    ensures r.Ok? && !dryRun ==> r.value.status == Some(Created(results, id))
  {
    match HireCell(e.origHireDt)
    case Err(f) => Err(f)
    case Ok(hire) =>
      Ok(ReportRow(
        emplId := e.emplId,
        name := FullName(e),
        email := if e.homeEmailId != "" then e.homeEmailId else Placeholder,
        projId := w.projId,
        projName := w.projName,
        team := GetTeam(w.projId),
        laborCat := w.billLabCatCd,
        hireDate := hire,
        status := if dryRun then None else Some(Created(results, id))))
  }

  /** The employee's hire date is present but does not parse. */
  predicate BadHireDate(employees: map<string, EmployeeRecord>, id: string)
    requires id in employees
  {
    HireCell(employees[id].origHireDt).Err?
  }

  /** `RowFor` as a function of the id alone; an id without records would
      be the dictionary lookup's KeyError. */
  function RowOf(
    workforce: map<string, WorkforceRecord>,
    employees: map<string, EmployeeRecord>,
    results: seq<PostResult>,
    dryRun: bool): (f: string -> Result<ReportRow>)
    ensures forall id | id in workforce && id in employees ::
      f(id) == RowFor(id, workforce[id], employees[id], results, dryRun)
  {
    id => if id in workforce && id in employees
      then RowFor(id, workforce[id], employees[id], results, dryRun)
      else Err(MissingField(id))
  }

  /** The row loop: one row per missing id, in order, or the first hire-date
      error. */
  function ReportRows(
    workforce: map<string, WorkforceRecord>,
    employees: map<string, EmployeeRecord>,
    missing: seq<string>,
    results: seq<PostResult>,
    dryRun: bool): (r: Result<seq<ReportRow>>)
    requires Covered(workforce, employees, missing)
    ensures r.Err? <==> exists i | 0 <= i < |missing| :: BadHireDate(employees, missing[i])
    ensures r.Ok? ==> |r.value| == |missing|
    ensures r.Ok? ==> forall i | 0 <= i < |missing| ::
      RowFor(missing[i], workforce[missing[i]], employees[missing[i]], results, dryRun) == Ok(r.value[i])
  {
    MapResult(missing, RowOf(workforce, employees, results, dryRun))
  }

  /** In a live report an employee's row says created exactly when their
      last creation result is a success; a missing or failed result shows
      as a failure. */
  lemma LiveRowStatus(
    workforce: map<string, WorkforceRecord>,
    employees: map<string, EmployeeRecord>,
    missing: seq<string>,
    results: seq<PostResult>,
    i: nat)
    requires Covered(workforce, employees, missing)
    requires i < |missing| && ReportRows(workforce, employees, missing, results, false).Ok?
    ensures var row := ReportRows(workforce, employees, missing, results, false).value[i];
      var id := missing[i];
      && row.status.Some?
      && (row.status.value <==> LastSucceeded(results, id))
  {
    CreatedIffLastSucceeded(results, missing[i]);
  }

  // ---------------------------------------------------------------------------
  // Counts
  // ---------------------------------------------------------------------------

  /** `{workforce[eid].proj_id for eid in missing_ids}`. */
  function ProjectSet(workforce: map<string, WorkforceRecord>, missing: seq<string>): set<string>
    requires forall id | id in missing :: id in workforce
  {
    set id | id in missing :: workforce[id].projId
  }

  /** The project ids of the missing employees, in order, with repeats. */
  function ProjectIds(workforce: map<string, WorkforceRecord>, missing: seq<string>): (ps: seq<string>)
    requires forall id | id in missing :: id in workforce
    ensures |ps| == |missing|
    ensures forall i | 0 <= i < |missing| :: ps[i] == workforce[missing[i]].projId
  {
    if missing == [] then []
    else ProjectIds(workforce, missing[..|missing| - 1]) + [workforce[missing[|missing| - 1]].projId]
  }

  /** The number of projects reported is the number of distinct project ids
      among the missing employees, counted in order of first appearance. */
  lemma ProjectCountIsDistinctIds(workforce: map<string, WorkforceRecord>, missing: seq<string>)
    requires forall id | id in missing :: id in workforce
    ensures |ProjectSet(workforce, missing)| == |Dedup(ProjectIds(workforce, missing))|
    ensures |ProjectSet(workforce, missing)| <= |missing|
  {
    var ps := ProjectIds(workforce, missing);
    assert ProjectSet(workforce, missing) == Elems(ps) by {
      forall p | p in Elems(ps)
        ensures p in ProjectSet(workforce, missing)
      {
        var i :| 0 <= i < |ps| && ps[i] == p;
        assert missing[i] in missing;
      }
      forall p | p in ProjectSet(workforce, missing)
        ensures p in Elems(ps)
      {
        var id :| id in missing && workforce[id].projId == p;
        var i :| 0 <= i < |missing| && missing[i] == id;
        assert ps[i] == p;
      }
    }
    CardinalityIsDedupLength(ps);
  }

  /** The figures of the HTML summary. `successCount` and `failCount` are
      shown in a live run only. */
  datatype Summary = Summary(total: nat, projects: set<string>, successCount: Option<nat>, failCount: Option<int>)

  /** The summary and counts of `build_html_email`. */
  function HtmlSummary(workforce: map<string, WorkforceRecord>, missing: seq<string>, results: seq<PostResult>, dryRun: bool): (s: Summary)
    requires forall id | id in missing :: id in workforce
    ensures s.total == |missing|
    ensures s.projects == ProjectSet(workforce, missing)
    ensures dryRun <==> s.successCount.None?
    ensures s.successCount.None? <==> s.failCount.None?
    ensures !dryRun ==> s.successCount == Some(SuccessCount(results))
    ensures !dryRun ==> s.failCount.value == s.total - s.successCount.value
  {
    if dryRun then Summary(|missing|, ProjectSet(workforce, missing), None, None)
    else
      var success := SuccessCount(results);
      Summary(|missing|, ProjectSet(workforce, missing), Some(success), Some(|missing| - success))
  }

  /** With one result per missing employee, as a live run produces, the
      failure count of the summary is the number of failed results, and it
      is zero exactly when every creation succeeded. */
  lemma SummaryFailures(workforce: map<string, WorkforceRecord>, missing: seq<string>, results: seq<PostResult>)
    requires forall id | id in missing :: id in workforce
    requires |results| == |missing|
    ensures HtmlSummary(workforce, missing, results, false).failCount == Some(FailureCount(results))
    ensures FailureCount(results) == 0 <==> forall i | 0 <= i < |results| :: results[i].success
  {
    CountsAddUp(results);
  }

  // ---------------------------------------------------------------------------
  // The plain-text body
  // ---------------------------------------------------------------------------

  /** `f"{s:<w}"`: left-justified in a field of width `w`, never cut. */
  function PadRight(s: string, w: nat): (r: string)
    ensures |r| == if |s| < w then w else |s|
    ensures r[..|s|] == s
    ensures forall i | |s| <= i < |r| :: r[i] == ' '
  {
    if |s| < w then s + Repeat(' ', w - |s|) else s
  }

  function StatusWord(created: bool): string {
    if created then "Created" else "FAILED"
  }

  /** One body line: the cells in fixed-width columns, then the status in a
      live run. */
  function RowLine(row: ReportRow): string {
    PadRight(row.emplId, 10) + " " + PadRight(row.name, 28) + " " + PadRight(row.projId, 14) + " "
      + PadRight(row.team, 20) + " " + PadRight(row.laborCat, 12) + " " + PadRight(row.hireDate, 12)
      + (match row.status
         case None => ""
         case Some(created) => " " + StatusWord(created))
  }

  function Title(dryRun: bool): string {
    "New Employees CP \U{2192} Connecteam \U{2014} " + (if dryRun then "DRY RUN PREVIEW" else "IMPORT COMPLETE")
  }

  function SummaryLine(total: nat, projects: nat): string {
    "Total: " + NatToString(total) + " employees | " + NatToString(projects) + " projects"
  }

  function HeaderLine(dryRun: bool): string {
    PadRight("ID", 10) + " " + PadRight("Name", 28) + " " + PadRight("Project", 14) + " "
      + PadRight("Team", 20) + " " + PadRight("Labor Cat", 12) + " " + PadRight("Hire Date", 12)
      + (if dryRun then "" else " Status")
  }

  function SeparatorLine(dryRun: bool): (s: string)
    ensures |s| == (if dryRun then 86 else 95)
    ensures forall i | 0 <= i < |s| :: s[i] == '-'
  {
    Repeat('-', if dryRun then 86 else 95)
  }

  const PreviewNote: string := "No changes have been made." + " This is a preview only."

  /** Five heading lines, then the body lines, then the trailer. */
  function Assemble(head: seq<string>, body: seq<string>, tail: seq<string>): (ls: seq<string>)
    requires |head| == 5
    ensures |ls| == 5 + |body| + |tail|
    ensures forall i | 0 <= i < 5 :: ls[i] == head[i]
    ensures forall i | 0 <= i < |body| :: ls[5 + i] == body[i]
    ensures forall i | 0 <= i < |tail| :: ls[5 + |body| + i] == tail[i]
  {
    head + body + tail
  }

  /** The lines of the text body for given totals and rows: a title, a
      summary, a blank line, a header, a separator, one line per row and, in
      a dry run, a blank line and the preview note. */
  function ReportLines(total: nat, projects: nat, rows: seq<ReportRow>, dryRun: bool): (ls: seq<string>)
    ensures |ls| == 5 + |rows| + (if dryRun then 2 else 0)
    ensures ls[0] == Title(dryRun) && ls[1] == SummaryLine(total, projects) && ls[2] == ""
    ensures ls[3] == HeaderLine(dryRun) && ls[4] == SeparatorLine(dryRun)
    ensures forall i | 0 <= i < |rows| :: ls[5 + i] == RowLine(rows[i])
    ensures dryRun ==> ls[|ls| - 2] == "" && ls[|ls| - 1] == PreviewNote
  {
    var head := [Title(dryRun), SummaryLine(total, projects), "", HeaderLine(dryRun), SeparatorLine(dryRun)];
    var tail := if dryRun then ["", PreviewNote] else [];
    var ls := Assemble(head, MapSeq(rows, RowLine), tail);
    assert ls[0] == head[0] && ls[1] == head[1] && ls[2] == head[2] && ls[3] == head[3] && ls[4] == head[4];
    assert dryRun ==> ls[|ls| - 2] == tail[0] && ls[|ls| - 1] == tail[1];
    ls
  }

  /** `build_plain_text_email`: the lines for the missing employees joined
      with newlines, or the first hire-date error. */
  function PlainTextEmail(
    workforce: map<string, WorkforceRecord>,
    employees: map<string, EmployeeRecord>,
    missing: seq<string>,
    results: seq<PostResult>,
    dryRun: bool): (r: Result<string>)
    requires Covered(workforce, employees, missing)
    ensures r.Err? <==> ReportRows(workforce, employees, missing, results, dryRun).Err?
    ensures r.Ok? ==> r.value == Join(ReportLines(|missing|, |ProjectSet(workforce, missing)|,
      ReportRows(workforce, employees, missing, results, dryRun).value, dryRun), '\n')
  {
    match ReportRows(workforce, employees, missing, results, dryRun)
    case Err(f) => Err(f)
    case Ok(rows) => Ok(Join(ReportLines(|missing|, |ProjectSet(workforce, missing)|, rows, dryRun), '\n'))
  }

  predicate NoNewline(row: ReportRow) {
    '\n' !in row.emplId && '\n' !in row.name && '\n' !in row.projId && '\n' !in row.team
      && '\n' !in row.laborCat && '\n' !in row.hireDate
  }

  /** When no cell holds a newline, splitting the text body at newlines
      gives back its lines. */
  lemma ReportLinesSplit(total: nat, projects: nat, rows: seq<ReportRow>, dryRun: bool)
    requires forall i | 0 <= i < |rows| :: NoNewline(rows[i])
    ensures Split(Join(ReportLines(total, projects, rows, dryRun), '\n'), '\n') == ReportLines(total, projects, rows, dryRun)
  {
    var ls := ReportLines(total, projects, rows, dryRun);
    FixedLinesNoNewline(dryRun);
    SummaryLineNoNewline(total, projects);
    forall k | 0 <= k < |ls|
      ensures '\n' !in ls[k]
    {
      if k == 0 {
        assert ls[k] == Title(dryRun);
      } else if k == 1 {
        assert ls[k] == SummaryLine(total, projects);
      } else if k == 2 {
        assert ls[k] == "";
      } else if k == 3 {
        assert ls[k] == HeaderLine(dryRun);
      } else if k == 4 {
        assert ls[k] == SeparatorLine(dryRun);
      } else if k < 5 + |rows| {
        assert ls[k] == RowLine(rows[k - 5]);
        RowLineNoNewline(rows[k - 5]);
      } else if k == |ls| - 2 {
        assert ls[k] == "";
      } else {
        assert ls[k] == PreviewNote;
      }
    }
    SplitJoin(ls, '\n');
  }

  /** The text body read line by line: the title, the counts of employees
      and distinct projects, the header, one line per missing employee and,
      in a dry run, the preview note at the end. */
  lemma PlainTextLines(
    workforce: map<string, WorkforceRecord>,
    employees: map<string, EmployeeRecord>,
    missing: seq<string>,
    results: seq<PostResult>,
    dryRun: bool)
    requires Covered(workforce, employees, missing)
    requires PlainTextEmail(workforce, employees, missing, results, dryRun).Ok?
    requires forall i | 0 <= i < |missing| :: NoNewline(ReportRows(workforce, employees, missing, results, dryRun).value[i])
    ensures var ls := Split(PlainTextEmail(workforce, employees, missing, results, dryRun).value, '\n');
      && |ls| == 5 + |missing| + (if dryRun then 2 else 0)
      && ls[0] == Title(dryRun)
      && ls[1] == SummaryLine(|missing|, |ProjectSet(workforce, missing)|)
      && (forall i | 0 <= i < |missing| ::
            ls[5 + i] == RowLine(ReportRows(workforce, employees, missing, results, dryRun).value[i]))
      && (dryRun ==> ls[|ls| - 1] == PreviewNote)
  {
    var rows := ReportRows(workforce, employees, missing, results, dryRun).value;
    ReportLinesSplit(|missing|, |ProjectSet(workforce, missing)|, rows, dryRun);
  }

  lemma PadRightNoNewline(s: string, w: nat)
    requires '\n' !in s
    ensures '\n' !in PadRight(s, w)
  {
    if |s| < w {
      assert forall i | |s| <= i < w :: PadRight(s, w)[i] == ' ';
    }
  }

  lemma RowLineNoNewline(row: ReportRow)
    requires NoNewline(row)
    ensures '\n' !in RowLine(row)
  {
    PadRightNoNewline(row.emplId, 10);
    PadRightNoNewline(row.name, 28);
    PadRightNoNewline(row.projId, 14);
    PadRightNoNewline(row.team, 20);
    PadRightNoNewline(row.laborCat, 12);
    PadRightNoNewline(row.hireDate, 12);
  }

  lemma FixedLinesNoNewline(dryRun: bool)
    ensures '\n' !in Title(dryRun) && '\n' !in HeaderLine(dryRun)
    ensures '\n' !in SeparatorLine(dryRun) && '\n' !in PreviewNote && '\n' !in ""
  {
    TitleNoNewline(dryRun);
    HeaderNoNewline(dryRun);
    PreviewNoteNoNewline();
  }

  lemma TitleNoNewline(dryRun: bool)
    ensures '\n' !in Title(dryRun)
  {
    var mode := if dryRun then "DRY RUN PREVIEW" else "IMPORT COMPLETE";
    var lead := "New Employees CP \U{2192} Connecteam \U{2014} ";
    assert '\n' !in lead;
    assert '\n' !in mode;
    assert Title(dryRun) == lead + mode;
  }

  lemma PreviewNoteNoNewline()
    ensures '\n' !in PreviewNote
  {
    assert '\n' !in "No changes have been made.";
    assert '\n' !in " This is a preview only.";
  }

  lemma HeaderNoNewline(dryRun: bool)
    ensures '\n' !in HeaderLine(dryRun)
  {
    var cells := [PadRight("ID", 10), PadRight("Name", 28), PadRight("Project", 14),
      PadRight("Team", 20), PadRight("Labor Cat", 12), PadRight("Hire Date", 12)];
    PadRightNoNewline("ID", 10);
    PadRightNoNewline("Name", 28);
    PadRightNoNewline("Project", 14);
    PadRightNoNewline("Team", 20);
    PadRightNoNewline("Labor Cat", 12);
    PadRightNoNewline("Hire Date", 12);
    var front := cells[0] + " " + cells[1] + " " + cells[2] + " " + cells[3] + " " + cells[4] + " " + cells[5];
    assert '\n' !in front;
    assert HeaderLine(dryRun) == front + (if dryRun then "" else " Status");
  }

  lemma SummaryLineNoNewline(total: nat, projects: nat)
    ensures '\n' !in SummaryLine(total, projects)
  {
    var a := NatToString(total);
    var b := NatToString(projects);
    assert forall i | 0 <= i < |a| :: IsDigit(a[i]);
    assert forall i | 0 <= i < |b| :: IsDigit(b[i]);
  }

  /** A live line ends with the status word, so it reads "Created" at its
      end exactly when the row says created. */
  lemma LiveLineStatus(row: ReportRow)
    requires row.status.Some?
    ensures var line := RowLine(row);
      && |line| >= 7
      && (row.status.value <==> line[|line| - 7..] == "Created")
      && (!row.status.value <==> line[|line| - 6..] == "FAILED")
  {
    var word := StatusWord(row.status.value);
    var line := RowLine(row);
    var front := PadRight(row.emplId, 10) + " " + PadRight(row.name, 28) + " " + PadRight(row.projId, 14) + " "
      + PadRight(row.team, 20) + " " + PadRight(row.laborCat, 12) + " " + PadRight(row.hireDate, 12);
    assert line == front + " " + word;
    assert |front| >= 10;
    assert line[|line| - |word|..] == word;
    if row.status.value {
      assert line[|line| - 6..] == "reated";
    } else {
      assert line[|line| - 7..][6] == 'D';
    }
  }

  // ---------------------------------------------------------------------------
  // send_import_email
  // ---------------------------------------------------------------------------

  /** `[e.strip() for e in SES_TO_EMAILS.split(",") if e.strip()]`: the
      comma-separated entries, stripped, in order, with the blank ones
      dropped. */
  function ParseRecipients(env: string): (r: seq<string>)
    ensures forall i | 0 <= i < |r| :: r[i] != "" && IsStripped(r[i]) && ',' !in r[i]
    ensures Drops(r, MapSeq(Split(env, ','), Strip), "")
  {
    KeepAddressesDrops(Split(env, ','));
    KeepAddresses(Split(env, ','))
  }

  function KeepAddresses(parts: seq<string>): (r: seq<string>)
    requires forall k | 0 <= k < |parts| :: ',' !in parts[k]
    ensures forall i | 0 <= i < |r| :: r[i] != "" && IsStripped(r[i]) && ',' !in r[i]
    ensures |r| <= |parts|
  {
    if parts == [] then []
    else
      var rest := KeepAddresses(parts[..|parts| - 1]);
      var a := Strip(parts[|parts| - 1]);
      assert forall c | c in a :: c in parts[|parts| - 1];
      if a != "" then rest + [a] else rest
  }

  lemma {:induction false} KeepAddressesDrops(parts: seq<string>)
    requires forall k | 0 <= k < |parts| :: ',' !in parts[k]
    ensures Drops(KeepAddresses(parts), MapSeq(parts, Strip), "")
  {
    if parts != [] {
      var pre := parts[..|parts| - 1];
      KeepAddressesDrops(pre);
      var a := Strip(parts[|parts| - 1]);
      assert MapSeq(parts, Strip) == MapSeq(pre, Strip) + [a];
      DropsSnoc(KeepAddresses(pre), MapSeq(pre, Strip), "", a);
    }
  }

  /** A list of addresses written with commas is read back as the same
      list. */
  lemma {:induction false} RecipientsRoundTrip(addrs: seq<string>)
    requires |addrs| >= 1
    requires forall i | 0 <= i < |addrs| :: addrs[i] != "" && IsStripped(addrs[i]) && ',' !in addrs[i]
    ensures ParseRecipients(Join(addrs, ',')) == addrs
  {
    SplitJoin(addrs, ',');
    KeepStripped(addrs);
  }

  lemma {:induction false} KeepStripped(addrs: seq<string>)
    requires forall i | 0 <= i < |addrs| :: addrs[i] != "" && IsStripped(addrs[i]) && ',' !in addrs[i]
    ensures KeepAddresses(addrs) == addrs
  {
    if addrs != [] {
      KeepStripped(addrs[..|addrs| - 1]);
      assert addrs == addrs[..|addrs| - 1] + [addrs[|addrs| - 1]];
    }
  }

  /** No recipient is named exactly when the variable holds nothing but
      commas and whitespace; an unset variable reads as "". */
  lemma NoRecipients(env: string)
    ensures ParseRecipients(env) == [] <==> forall c | c in env :: c == ',' || IsWhitespace(c)
  {
    if forall c | c in env :: c == ',' || IsWhitespace(c) {
      BlankEntriesNameNoOne(env);
    } else {
      var c :| c in env && c != ',' && !IsWhitespace(c);
      AddressCharNamesRecipient(env, c);
    }
  }

  /** Commas and whitespace alone strip every entry to nothing. */
  lemma BlankEntriesNameNoOne(env: string)
    requires forall c | c in env :: c == ',' || IsWhitespace(c)
    ensures ParseRecipients(env) == []
  {
    var parts := Split(env, ',');
    var stripped := MapSeq(parts, Strip);
    BlankEntries(env);
    assert forall k | 0 <= k < |stripped| :: stripped[k] == Strip(parts[k]) == "";
    DropsAll(ParseRecipients(env), stripped, "");
  }

  lemma BlankEntries(env: string)
    requires forall c | c in env :: c == ',' || IsWhitespace(c)
    ensures forall k | 0 <= k < |Split(env, ',')| :: Strip(Split(env, ',')[k]) == ""
  {
    var parts := Split(env, ',');
    forall k | 0 <= k < |parts|
      ensures Strip(parts[k]) == ""
    {
      SplitPartChars(env, ',', k);
      StripBlank(parts[k]);
    }
  }

  /** Any other character keeps the entry holding it, so that entry names a
      recipient. */
  lemma AddressCharNamesRecipient(env: string, c: char)
    requires c in env && c != ',' && !IsWhitespace(c)
    ensures ParseRecipients(env) != []
  {
    var stripped := MapSeq(Split(env, ','), Strip);
    var k := EntryWithAddressChar(env, c);
    assert stripped[k] in stripped;
  }

  /** The position of an entry holding `c` that does not strip to nothing. */
  lemma EntryWithAddressChar(env: string, c: char) returns (k: nat)
    requires c in env && c != ',' && !IsWhitespace(c)
    ensures k < |Split(env, ',')| && Strip(Split(env, ',')[k]) != ""
  {
    var parts := Split(env, ',');
    JoinSplit(env, ',');
    JoinChars(parts, ',', c);
    k :| 0 <= k < |parts| && c in parts[k];
    var m :| 0 <= m < |parts[k]| && parts[k][m] == c;
    StripBlank(parts[k]);
  }

  /** What a call leaves behind: the HTML preview written to storage, or a
      message handed to the mail service. */
  datatype Delivery = PreviewSaved(html: Summary) | Mailed(recipients: seq<string>, text: string)

  /** The mail service, taking the recipients and the text body; `false`
      stands for any exception it raises, which the function logs. */
  type Mailer = (seq<string>, string) -> bool

  /** `send_import_email`: both bodies are built first (a malformed hire
      date raises); a dry run saves the preview and reports true; a live run
      with no recipients reports false without mailing; otherwise the report
      is mailed and the mail service's outcome reported. */
  function SendImportEmail(
    workforce: map<string, WorkforceRecord>,
    employees: map<string, EmployeeRecord>,
    missing: seq<string>,
    results: seq<PostResult>,
    dryRun: bool,
    env: string,
    mailer: Mailer): (r: Result<(bool, Option<Delivery>)>)
    requires Covered(workforce, employees, missing)
    ensures r.Err? <==> ReportRows(workforce, employees, missing, results, dryRun).Err?
    ensures r.Ok? && dryRun ==> r.value == (true, Some(PreviewSaved(HtmlSummary(workforce, missing, results, true))))
    ensures r.Ok? && !dryRun && ParseRecipients(env) == [] ==> r.value == (false, None)
    ensures r.Ok? && !dryRun && ParseRecipients(env) != [] ==>
      var text := PlainTextEmail(workforce, employees, missing, results, dryRun).value;
      r.value == (mailer(ParseRecipients(env), text), Some(Mailed(ParseRecipients(env), text)))
    ensures r.Ok? ==> (r.value.1.Some? <==> dryRun || ParseRecipients(env) != [])
  {
    match PlainTextEmail(workforce, employees, missing, results, dryRun)
    case Err(f) => Err(f)
    case Ok(text) =>
      if dryRun then Ok((true, Some(PreviewSaved(HtmlSummary(workforce, missing, results, true)))))
      else
        var recipients := ParseRecipients(env);
        if recipients == [] then Ok((false, None))
        else Ok((mailer(recipients, text), Some(Mailed(recipients, text))))
  }
}

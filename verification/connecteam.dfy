/** The Connecteam side of the job (app/clients/connecteam.py): date and team
    derivation, the user-creation payload, the paged listing of existing
    users' Costpoint ids, and the result record of one creation call. The
    HTTP calls are oracles handed in by the caller. */
module Connecteam {
  import opened Base
  import opened Text
  import opened Seqs
  import opened Http
  import opened Model

  // ---------------------------------------------------------------------------
  // Custom field ids of the Connecteam account
  // ---------------------------------------------------------------------------

  const CfCpId: int := 15329039      // Costpoint employee id, the dedup key
  const CfHireDate: int := 4360693   // employment start date
  const CfBirthDate: int := 4360698
  const CfBranch: int := 4360696     // project id
  const CfTeam: int := 4360694
  const CfTitle: int := 4360692      // labor category
  const CfOrg: int := 4360695        // project name

  // ---------------------------------------------------------------------------
  // format_date
  // ---------------------------------------------------------------------------

  datatype Date = Date(year: int, month: int, day: int)

  predicate IsLeapYear(y: int) {
    y % 4 == 0 && (y % 100 != 0 || y % 400 == 0)
  }

  function DaysInMonth(y: int, m: int): (n: int)
    requires 1 <= m <= 12
    ensures 28 <= n <= 31
    ensures n == 29 <==> m == 2 && IsLeapYear(y)
  {
    if m == 2 then (if IsLeapYear(y) then 29 else 28)
    else if m == 4 || m == 6 || m == 9 || m == 11 then 30
    else 31
  }

  /** A calendar date Python's `datetime` can represent. */
  predicate ValidDate(d: Date) {
    1 <= d.year <= 9999 && 1 <= d.month <= 12 && 1 <= d.day <= DaysInMonth(d.year, d.month)
  }

  /** The last `w` decimal digits of `n`, zero-padded. */
  function Pad(n: nat, w: nat): (s: string)
    ensures |s| == w && AllDigits(s)
  {
    if w == 0 then [] else Pad(n / 10, w - 1) + [DigitChar(n % 10)]
  }

  function Pow10(w: nat): (p: nat)
    ensures p >= 1
  {
    if w == 0 then 1 else 10 * Pow10(w - 1)
  }

  /** Padding a number that fits the width and reading it back gives the
      number. */
  lemma {:induction false} PadValue(n: nat, w: nat)
    requires n < Pow10(w)
    ensures DigitsValue(Pad(n, w)) == n
  {
    if w > 0 {
      var s := Pad(n, w);
      assert s[..w - 1] == Pad(n / 10, w - 1);
      PadValue(n / 10, w - 1);
    }
  }

  /** A digit string is the padding of its own value to its own length. */
  lemma {:induction false} PadDigits(t: string)
    requires AllDigits(t)
    ensures Pad(DigitsValue(t), |t|) == t
  {
    if t != [] {
      var init := t[..|t| - 1];
      var n := DigitsValue(t);
      PadDigits(init);
      assert n / 10 == DigitsValue(init);
      assert n % 10 == DigitValue(t[|t| - 1]);
      assert t == init + [t[|t| - 1]];
    }
  }

  /** `YYYY-MM-DD`, when it names a valid date. */
  function ParseIsoDate(s: string): (r: Option<Date>)
    ensures r.Some? ==> ValidDate(r.value) && |s| == 10
  {
    if |s| == 10 && s[4] == '-' && s[7] == '-' && AllDigits(s[..4]) && AllDigits(s[5..7]) && AllDigits(s[8..]) then
      var d := Date(DigitsValue(s[..4]), DigitsValue(s[5..7]), DigitsValue(s[8..]));
      if ValidDate(d) then Some(d) else None
    else None
  }

  /** `HH:MM:SS` on the 24-hour clock. */
  predicate IsIsoTime(t: string) {
    && |t| == 8 && t[2] == ':' && t[5] == ':'
    && AllDigits(t[..2]) && AllDigits(t[3..5]) && AllDigits(t[6..])
    && DigitsValue(t[..2]) < 24 && DigitsValue(t[3..5]) < 60 && DigitsValue(t[6..]) < 60
  }

  /** The date of `YYYY-MM-DD` or `YYYY-MM-DDTHH:MM:SS`. */
  function ParseIsoDateTime(s: string): (r: Option<Date>)
    ensures r.Some? ==> ValidDate(r.value) && |s| >= 10 && r == ParseIsoDate(s[..10])
  {
    if |s| == 10 then (assert s[..10] == s; ParseIsoDate(s))
    else if |s| == 19 && s[10] == 'T' && IsIsoTime(s[11..]) then ParseIsoDate(s[..10])
    else None
  }

  /** `MM/DD/YYYY` with zero padding. */
  function RenderUsDate(d: Date): (s: string)
    requires ValidDate(d)
    ensures |s| == 10 && s[2] == '/' && s[5] == '/'
  {
    Pad(d.month, 2) + "/" + Pad(d.day, 2) + "/" + Pad(d.year, 4)
  }

  /** `YYYY-MM-DD` with zero padding. */
  function RenderIsoDate(d: Date): (s: string)
    requires ValidDate(d)
    ensures |s| == 10 && s[4] == '-' && s[7] == '-'
  {
    Pad(d.year, 4) + "-" + Pad(d.month, 2) + "-" + Pad(d.day, 2)
  }

  /** Reading a `MM/DD/YYYY` string back into a date. */
  function ParseUsDate(u: string): (r: Option<Date>)
    ensures r.Some? ==> ValidDate(r.value)
  {
    if |u| == 10 && u[2] == '/' && u[5] == '/' && AllDigits(u[..2]) && AllDigits(u[3..5]) && AllDigits(u[6..]) then
      var d := Date(DigitsValue(u[6..]), DigitsValue(u[..2]), DigitsValue(u[3..5]));
      if ValidDate(d) then Some(d) else None
    else None
  }

  /** `format_date`: `datetime.fromisoformat(s).strftime("%m/%d/%Y")`. The
      result is the input's month, day and year digits rearranged, and it
      reads back as the same date; a string that is not a valid ISO date
      raises ValueError. */
  function FormatDate(s: string): (r: Result<string>)
    ensures r.Ok? <==> ParseIsoDateTime(s).Some?
    ensures r.Err? ==> r.fault == InvalidDate(s)
    ensures r.Ok? ==> |s| >= 10 && r.value == s[5..7] + "/" + s[8..10] + "/" + s[..4]
    ensures r.Ok? ==> ParseUsDate(r.value) == ParseIsoDateTime(s)
  {
    match ParseIsoDateTime(s)
    case None => Err(InvalidDate(s))
    case Some(d) =>
      var u := RenderUsDate(d);
      var t := s[..10];
      assert t[..4] == s[..4] && t[5..7] == s[5..7] && t[8..] == s[8..10];
      PadDigits(s[..4]);
      PadDigits(s[5..7]);
      PadDigits(s[8..10]);
      assert u == s[5..7] + "/" + s[8..10] + "/" + s[..4];
      assert u[..2] == s[5..7] && u[3..5] == s[8..10] && u[6..] == s[..4];
      Ok(u)
  }

  /** Every valid date written as `YYYY-MM-DD` is accepted and comes out as
      the same date in `MM/DD/YYYY`. */
  lemma FormatDateRoundTrip(d: Date)
    requires ValidDate(d)
    ensures FormatDate(RenderIsoDate(d)) == Ok(RenderUsDate(d))
    ensures ParseUsDate(RenderUsDate(d)) == Some(d)
  {
    var s := RenderIsoDate(d);
    var u := RenderUsDate(d);
    assert Pow10(4) == 10000 && Pow10(2) == 100;
    PadValue(d.year, 4);
    PadValue(d.month, 2);
    PadValue(d.day, 2);
    assert s[..4] == Pad(d.year, 4) && s[5..7] == Pad(d.month, 2) && s[8..] == Pad(d.day, 2);
    assert s[..10] == s;
    assert ParseIsoDateTime(s) == Some(d);
    assert u[..2] == Pad(d.month, 2) && u[3..5] == Pad(d.day, 2) && u[6..] == Pad(d.year, 4);
  }

  /** Only the date part matters: a valid time of day after `T` changes
      neither whether the date is accepted nor its rendering. */
  lemma FormatDateIgnoresTime(date: string, time: string)
    requires |date| == 10 && IsIsoTime(time)
    ensures FormatDate(date + "T" + time).Ok? <==> FormatDate(date).Ok?
    ensures FormatDate(date).Ok? ==> FormatDate(date + "T" + time).value == FormatDate(date).value
  {
    var s := date + "T" + time;
    assert s[..10] == date && s[10] == 'T' && s[11..] == time;
    assert date[..10] == date;
  }

  lemma ExampleDate()
    ensures ParseIsoDate("2011-07-11") == Some(Date(2011, 7, 11))
  {
    var t := "2011-07-11";
    assert t[..4] == "2011";
    assert t[5] == '0' && t[6] == '7';
    assert t[5..7] == "07";
    assert t[8] == '1' && t[9] == '1';
    assert t[8..] == "11";
    assert AllDigits("2011") && AllDigits("07") && AllDigits("11");
    assert DigitsValue("2011") == 2011 by {
      assert "2011"[..3] == "201" && "201"[..2] == "20" && "20"[..1] == "2" && "2"[..0] == "";
    }
    assert DigitsValue("07") == 7 by {
      assert "07"[..1] == "0" && "0"[..0] == "";
    }
    assert DigitsValue("11") == 11 by {
      assert "11"[..1] == "1" && "1"[..0] == "";
    }
    assert ValidDate(Date(2011, 7, 11));
  }

  lemma ExampleTime()
    ensures IsIsoTime("00:00:00")
  {
    var tm := "00:00:00";
    assert tm[..2] == "00" && tm[3..5] == "00" && tm[6..] == "00";
    assert AllDigits("00");
    assert DigitsValue("00") == 0 by {
      assert "00"[..1] == "0" && "0"[..0] == "";
    }
  }

  /** The example of the function's documentation. */
  lemma FormatDateExample()
    ensures FormatDate("2011-07-11T00:00:00") == Ok("07/11/2011")
  {
    var s := "2011-07-11T00:00:00";
    ExampleDate();
    ExampleTime();
    assert s[..10] == "2011-07-11" && s[10] == 'T' && s[11..] == "00:00:00";
    assert ParseIsoDateTime(s).Some?;
    assert s[5..7] == "07" && s[8..10] == "11" && s[..4] == "2011";
    assert FormatDate(s).value == "07" + "/" + "11" + "/" + "2011";
    assert "07" + "/" + "11" + "/" + "2011" == "07/11/2011";
  }

  // ---------------------------------------------------------------------------
  // ConnecteamAPIClient(config)
  // ---------------------------------------------------------------------------

  /** Whether `ConnecteamAPIClient(config)` can be built. The API key is
      sent as the `X-API-KEY` default header, and httpx takes a header value
      only as a `str` it can encode as ASCII: a number, a boolean or a key
      with a non-ASCII character raises while the client is built. */
  predicate ClientBuilds(c: ConnecteamConfig) {
    c.apiKey.JsonStr? && IsAscii(c.apiKey.s)
  }

  // ---------------------------------------------------------------------------
  // get_team
  // ---------------------------------------------------------------------------

  const SecurityPrefix: string := "2392"
  const SecurityTeam: string := "FL Security 2025"
  const BakerTeam: string := "FL Baker 2025"

  /** `get_team`: the team named after the project-id prefix. */
  function GetTeam(projId: string): (team: string)
    ensures team == SecurityTeam || team == BakerTeam
    ensures team == SecurityTeam <==> StartsWith(projId, SecurityPrefix)
  {
    if StartsWith(projId, SecurityPrefix) then SecurityTeam else BakerTeam
  }

  /** The team depends on the first four characters of the project id only;
      an id shorter than the prefix is always a Baker project. */
  lemma GetTeamByPrefix(a: string, b: string)
    ensures |a| < |SecurityPrefix| ==> GetTeam(a) == BakerTeam
    ensures |a| >= 4 && |b| >= 4 && a[..4] == b[..4] ==> GetTeam(a) == GetTeam(b)
    ensures GetTeam(SecurityPrefix + b) == SecurityTeam
  {
    assert (SecurityPrefix + b)[..4] == SecurityPrefix;
  }

  // ---------------------------------------------------------------------------
  // build_payload
  // ---------------------------------------------------------------------------

  datatype CustomField = CustomField(fieldId: int, value: string)

  /** The JSON object posted to create one user. `email` is absent (`None`)
      rather than empty. */
  datatype Payload = Payload(
    userType: string,
    isArchived: bool,
    firstName: string,
    lastName: string,
    customFields: seq<CustomField>,
    email: Option<string>)

  /** The custom field for an optional date: none when the source string is
      empty, the formatted date otherwise. */
  function DateField(fieldId: int, text: string): (r: Result<seq<CustomField>>)
    ensures text == "" ==> r == Ok([])
    ensures text != "" ==> (r.Ok? <==> FormatDate(text).Ok?)
    ensures text != "" && r.Ok? ==> r.value == [CustomField(fieldId, FormatDate(text).value)]
    ensures r.Err? ==> r.fault == InvalidDate(text)
  {
    if text == "" then Ok([])
    else match FormatDate(text)
      case Err(f) => Err(f)
      case Ok(v) => Ok([CustomField(fieldId, v)])
  }

  /** The five custom fields every payload begins with. */
  function FixedFields(w: WorkforceRecord, e: EmployeeRecord): (cf: seq<CustomField>)
    ensures |cf| == 5
    ensures cf[0] == CustomField(CfCpId, e.emplId)
    ensures cf[1] == CustomField(CfTitle, w.billLabCatCd)
    ensures cf[2] == CustomField(CfBranch, w.projId)
    ensures cf[3] == CustomField(CfTeam, GetTeam(w.projId))
    ensures cf[4] == CustomField(CfOrg, w.projName)
  {
    [ CustomField(CfCpId, e.emplId),
      CustomField(CfTitle, w.billLabCatCd),
      CustomField(CfBranch, w.projId),
      CustomField(CfTeam, GetTeam(w.projId)),
      CustomField(CfOrg, w.projName) ]
  }

  /** `build_payload`: five fixed custom fields, then the hire date and the
      birth date when present, and the email when present. A malformed date
      raises ValueError, the hire date's first. */
  function BuildPayload(w: WorkforceRecord, e: EmployeeRecord): (r: Result<Payload>)
    ensures r.Err? <==> (e.origHireDt != "" && FormatDate(e.origHireDt).Err?) || (e.birthDt != "" && FormatDate(e.birthDt).Err?)
    ensures r.Err? ==> r.fault == (if e.origHireDt != "" && FormatDate(e.origHireDt).Err? then InvalidDate(e.origHireDt) else InvalidDate(e.birthDt))
    ensures r.Ok? ==> r.value.userType == "user" && !r.value.isArchived
    ensures r.Ok? ==> r.value.firstName == e.firstName && r.value.lastName == e.lastName
    ensures r.Ok? ==> |r.value.customFields| >= 5 && r.value.customFields[..5] == FixedFields(w, e)
    ensures r.Ok? ==> |r.value.customFields| == 5 + (if e.origHireDt != "" then 1 else 0) + (if e.birthDt != "" then 1 else 0)
    ensures r.Ok? ==> (r.value.email.Some? <==> e.homeEmailId != "")
    ensures r.Ok? && r.value.email.Some? ==> r.value.email.value == e.homeEmailId
  {
    var hire := DateField(CfHireDate, e.origHireDt);
    var birth := DateField(CfBirthDate, e.birthDt);
    if hire.Err? then Err(hire.fault)
    else if birth.Err? then Err(birth.fault)
    else
      var cf := FixedFields(w, e) + hire.value + birth.value;
      assert cf[..5] == FixedFields(w, e);
      Ok(Payload(
        userType := "user",
        isArchived := false,
        firstName := e.firstName,
        lastName := e.lastName,
        customFields := cf,
        email := if e.homeEmailId != "" then Some(e.homeEmailId) else None))
  }

  /** The value of the first custom field with the given id. */
  function FieldValue(fields: seq<CustomField>, fieldId: int): (r: Option<string>)
    ensures r.None? <==> forall i | 0 <= i < |fields| :: fields[i].fieldId != fieldId
  {
    if fields == [] then None
    else if fields[0].fieldId == fieldId then Some(fields[0].value)
    else FieldValue(fields[1..], fieldId)
  }

  function FieldIds(fields: seq<CustomField>): (ids: seq<int>)
    ensures |ids| == |fields|
    ensures forall i | 0 <= i < |fields| :: ids[i] == fields[i].fieldId
  {
    if fields == [] then [] else FieldIds(fields[..|fields| - 1]) + [fields[|fields| - 1].fieldId]
  }

  /** Reading a built payload back by field id gives each record value once:
      the ids are distinct, and a date field is present exactly when its
      source string is non-empty, never with an empty value. */
  lemma BuildPayloadReadBack(w: WorkforceRecord, e: EmployeeRecord)
    requires BuildPayload(w, e).Ok?
    ensures var cf := BuildPayload(w, e).value.customFields;
      && Distinct(FieldIds(cf))
      && FieldValue(cf, CfCpId) == Some(e.emplId)
      && FieldValue(cf, CfTitle) == Some(w.billLabCatCd)
      && FieldValue(cf, CfBranch) == Some(w.projId)
      && FieldValue(cf, CfTeam) == Some(GetTeam(w.projId))
      && FieldValue(cf, CfOrg) == Some(w.projName)
      && FieldValue(cf, CfHireDate) == (if e.origHireDt == "" then None else Some(FormatDate(e.origHireDt).value))
      && FieldValue(cf, CfBirthDate) == (if e.birthDt == "" then None else Some(FormatDate(e.birthDt).value))
  {
    var cf := BuildPayload(w, e).value.customFields;
    var fixed := FixedFields(w, e);
    var hire := DateField(CfHireDate, e.origHireDt).value;
    var birth := DateField(CfBirthDate, e.birthDt).value;
    assert cf == fixed + hire + birth;
    OptionalFieldsFound(fixed, hire, birth);
    FixedFieldsFound(fixed, hire + birth);
    assert fixed + hire + birth == fixed + (hire + birth);
  }

  /** The fixed fields are found first, whatever follows them. */
  lemma FixedFieldsFound(fixed: seq<CustomField>, rest: seq<CustomField>)
    requires |fixed| == 5
    requires fixed[0].fieldId == CfCpId && fixed[1].fieldId == CfTitle && fixed[2].fieldId == CfBranch
    requires fixed[3].fieldId == CfTeam && fixed[4].fieldId == CfOrg
    ensures forall k | 0 <= k < 5 :: FieldValue(fixed + rest, fixed[k].fieldId) == Some(fixed[k].value)
  {
    var cf := fixed + rest;
    forall k | 0 <= k < 5
      ensures FieldValue(cf, fixed[k].fieldId) == Some(fixed[k].value)
    {
      assert cf[k] == fixed[k];
      FieldValueAt(cf, k);
    }
  }

  /** The optional date fields, each present at most once after five fixed
      fields with other ids, are found exactly when present; all ids of the
      payload are distinct. */
  lemma OptionalFieldsFound(fixed: seq<CustomField>, hire: seq<CustomField>, birth: seq<CustomField>)
    requires |fixed| == 5
    requires fixed[0].fieldId == CfCpId && fixed[1].fieldId == CfTitle && fixed[2].fieldId == CfBranch
    requires fixed[3].fieldId == CfTeam && fixed[4].fieldId == CfOrg
    requires hire == [] || (|hire| == 1 && hire[0].fieldId == CfHireDate)
    requires birth == [] || (|birth| == 1 && birth[0].fieldId == CfBirthDate)
    ensures FieldValue(fixed + hire + birth, CfHireDate) == (if hire == [] then None else Some(hire[0].value))
    ensures FieldValue(fixed + hire + birth, CfBirthDate) == (if birth == [] then None else Some(birth[0].value))
    ensures Distinct(FieldIds(fixed + hire + birth))
  {
    FixedFieldIds(fixed);
    FieldAbsent(fixed, CfHireDate);
    FieldAbsent(fixed, CfBirthDate);
    FieldValueAppend(fixed, hire, CfHireDate);
    FieldValueAppend(fixed, hire, CfBirthDate);
    FieldValueAppend(fixed + hire, birth, CfHireDate);
    FieldValueAppend(fixed + hire, birth, CfBirthDate);
    OptionalFieldValues(hire, birth);
    OptionalFieldIds(fixed, hire, birth);
  }

  lemma OptionalFieldValues(hire: seq<CustomField>, birth: seq<CustomField>)
    requires hire == [] || (|hire| == 1 && hire[0].fieldId == CfHireDate)
    requires birth == [] || (|birth| == 1 && birth[0].fieldId == CfBirthDate)
    ensures FieldValue(hire, CfHireDate) == (if hire == [] then None else Some(hire[0].value))
    ensures FieldValue(hire, CfBirthDate).None?
    ensures FieldValue(birth, CfHireDate).None?
    ensures FieldValue(birth, CfBirthDate) == (if birth == [] then None else Some(birth[0].value))
  {
  }

  lemma OptionalFieldIds(fixed: seq<CustomField>, hire: seq<CustomField>, birth: seq<CustomField>)
    requires FieldIds(fixed) == [CfCpId, CfTitle, CfBranch, CfTeam, CfOrg]
    requires hire == [] || (|hire| == 1 && hire[0].fieldId == CfHireDate)
    requires birth == [] || (|birth| == 1 && birth[0].fieldId == CfBirthDate)
    ensures Distinct(FieldIds(fixed + hire + birth))
  {
    FieldIdsAppend(fixed, hire);
    FieldIdsAppend(fixed + hire, birth);
    var ids := FieldIds(fixed + hire + birth);
    assert FieldIds(fixed) == [15329039, 4360692, 4360696, 4360694, 4360695];
    assert hire == [] ==> FieldIds(hire) == [];
    assert hire != [] ==> FieldIds(hire) == [4360693];
    assert birth == [] ==> FieldIds(birth) == [];
    assert birth != [] ==> FieldIds(birth) == [4360698];
    forall i, j | 0 <= i < j < |ids|
      ensures ids[i] != ids[j]
    {
      if j < 5 {
      } else if j == 5 && hire != [] {
        assert ids[j] == 4360693;
      } else {
        assert ids[j] == 4360698;
      }
    }
  }

  lemma FixedFieldIds(fixed: seq<CustomField>)
    requires |fixed| == 5
    requires fixed[0].fieldId == CfCpId && fixed[1].fieldId == CfTitle && fixed[2].fieldId == CfBranch
    requires fixed[3].fieldId == CfTeam && fixed[4].fieldId == CfOrg
    ensures FieldIds(fixed) == [CfCpId, CfTitle, CfBranch, CfTeam, CfOrg]
  {
  }

  lemma FieldAbsent(fields: seq<CustomField>, fieldId: int)
    requires fieldId !in FieldIds(fields)
    ensures FieldValue(fields, fieldId).None?
  {
  }

  lemma FieldIdsAppend(a: seq<CustomField>, b: seq<CustomField>)
    ensures FieldIds(a + b) == FieldIds(a) + FieldIds(b)
  {
  }

  /** Looking up in a concatenation looks in the first part, then in the
      second. */
  lemma {:induction false} FieldValueAppend(a: seq<CustomField>, b: seq<CustomField>, fieldId: int)
    ensures FieldValue(a + b, fieldId) == if FieldValue(a, fieldId).Some? then FieldValue(a, fieldId) else FieldValue(b, fieldId)
  {
    if a == [] {
      assert a + b == b;
    } else {
      assert (a + b)[0] == a[0];
      assert (a + b)[1..] == a[1..] + b;
      FieldValueAppend(a[1..], b, fieldId);
    }
  }

  /** A field present at a known position and nowhere before it is what the
      lookup finds. */
  lemma {:induction false} FieldValueAt(fields: seq<CustomField>, i: nat)
    requires i < |fields|
    requires forall j | 0 <= j < i :: fields[j].fieldId != fields[i].fieldId
    ensures FieldValue(fields, fields[i].fieldId) == Some(fields[i].value)
  {
    if i > 0 {
      FieldValueAt(fields[1..], i - 1);
    }
  }

  // ---------------------------------------------------------------------------
  // _collect_cp_ids_by_status and get_existing_cp_ids
  // ---------------------------------------------------------------------------

  /** A custom field of a listed user; a missing id or value reads `None`. */
  datatype UserField = UserField(fieldId: Scalar, value: Scalar)

  datatype User = User(customFields: seq<UserField>)

  /** One page of the users listing: `data.users` and `paging.offset`. */
  datatype UsersPage = UsersPage(users: seq<User>, nextOffset: Option<int>)

  /** The listing endpoint: a page for a user status and an offset, after
      the client's timeout retries. */
  type UsersApi = (string, int) -> Reply<UsersPage>

  /** A field that contributes a Costpoint id: the CP_ID field with a truthy
      value. */
  predicate IsCpIdField(f: UserField) {
    f.fieldId == JsonInt(CfCpId) && Truthy(f.value)
  }

  /** The Costpoint ids listed on one page, as strings. */
  function PageCpIds(p: UsersPage): set<string> {
    set u, f | u in p.users && f in u.customFields && IsCpIdField(f) :: PyStr(f.value)
  }

  function PageAt(api: UsersApi, status: string, offset: int): Result<UsersPage> {
    Decode(api(status, offset))
  }

  /** The loop goes on after a page that listed users and names a later
      offset. */
  predicate Continues(p: UsersPage, offset: int) {
    p.users != [] && p.nextOffset.Some? && p.nextOffset.value > offset
  }

  /** The listing is finite: at and beyond `bound` every page is empty. */
  ghost predicate EndsBy(api: UsersApi, status: string, bound: int) {
    forall o: int | o >= bound :: PageAt(api, status, o).Ok? && PageAt(api, status, o).value.users == []
  }

  predicate StrictlyIncreasing(s: seq<int>) {
    forall i, j | 0 <= i < j < |s| :: s[i] < s[j]
  }

  /** The ids collected and the offsets requested, in request order. */
  datatype Listing = Listing(ids: set<string>, offsets: seq<int>)

  /** `_collect_cp_ids_by_status` from a given offset: request the page,
      stop on a page that does not continue, otherwise go on at the offset
      the page names. A failed page request ends the loop with its error. */
  function CollectFrom(api: UsersApi, status: string, offset: int, bound: int): (r: Result<Listing>)
    requires EndsBy(api, status, bound)
    ensures r.Ok? ==> |r.value.offsets| >= 1 && r.value.offsets[0] == offset
    decreases bound - offset
  {
    match PageAt(api, status, offset)
    case Err(f) => Err(f)
    case Ok(p) =>
      if Continues(p, offset) then
        assert offset < bound;
        match CollectFrom(api, status, p.nextOffset.value, bound)
        case Err(f) => Err(f)
        case Ok(rest) => Ok(Listing(PageCpIds(p) + rest.ids, [offset] + rest.offsets))
      else
        Ok(Listing(PageCpIds(p), [offset]))
  }

  /** Every requested page was fetched. */
  ghost predicate Fetched(api: UsersApi, status: string, offs: seq<int>) {
    forall i | 0 <= i < |offs| :: PageAt(api, status, offs[i]).Ok?
  }

  /** Each requested page but the last continues to the next requested
      offset, and the last does not continue. */
  ghost predicate Chained(api: UsersApi, status: string, offs: seq<int>)
    requires Fetched(api, status, offs)
  {
    && (forall i | 0 <= i < |offs| - 1 ::
          && Continues(PageAt(api, status, offs[i]).value, offs[i])
          && PageAt(api, status, offs[i]).value.nextOffset == Some(offs[i + 1]))
    && (offs != [] ==> !Continues(PageAt(api, status, offs[|offs| - 1]).value, offs[|offs| - 1]))
  }

  /** `ids` holds exactly the ids listed on the requested pages. */
  ghost predicate ListsIds(api: UsersApi, status: string, ids: set<string>, offs: seq<int>)
    requires Fetched(api, status, offs)
  {
    forall x :: x in ids <==> exists i | 0 <= i < |offs| :: x in PageCpIds(PageAt(api, status, offs[i]).value)
  }

  /** What the listing loop guarantees: the offsets requested strictly
      increase from the first one, each following the previous page's
      `paging.offset`; the loop stops after the first page that does not
      continue; the ids are those of all requested pages; and an error is
      the error of some page request. */
  lemma {:induction false} CollectFromSpec(api: UsersApi, status: string, offset: int, bound: int)
    requires EndsBy(api, status, bound)
    ensures CollectFrom(api, status, offset, bound).Err? ==>
      exists o | offset <= o < bound :: PageAt(api, status, o) == Err(CollectFrom(api, status, offset, bound).fault)
    ensures CollectFrom(api, status, offset, bound).Ok? ==>
      var l := CollectFrom(api, status, offset, bound).value;
      && StrictlyIncreasing(l.offsets)
      && Fetched(api, status, l.offsets)
      && Chained(api, status, l.offsets)
      && ListsIds(api, status, l.ids, l.offsets)
    decreases bound - offset
  {
    var r := CollectFrom(api, status, offset, bound);
    match PageAt(api, status, offset)
    case Err(f) =>
      assert offset < bound;
      assert r == Err(f);
    case Ok(p) =>
      if Continues(p, offset) {
        assert offset < bound;
        var next := p.nextOffset.value;
        CollectFromSpec(api, status, next, bound);
        var rest := CollectFrom(api, status, next, bound);
        if rest.Err? {
          assert r == Err(rest.fault);
        } else {
          var l := rest.value;
          assert r == Ok(Listing(PageCpIds(p) + l.ids, [offset] + l.offsets));
          ListingCons(api, status, offset, p, l);
        }
      } else {
        assert r == Ok(Listing(PageCpIds(p), [offset]));
        ListingSingle(api, status, offset, p);
      }
  }

  lemma ListingSingle(api: UsersApi, status: string, offset: int, p: UsersPage)
    requires PageAt(api, status, offset) == Ok(p) && !Continues(p, offset)
    ensures StrictlyIncreasing([offset])
    ensures Fetched(api, status, [offset])
    ensures Chained(api, status, [offset])
    ensures ListsIds(api, status, PageCpIds(p), [offset])
  {
    forall x
      ensures x in PageCpIds(p) <==> exists i | 0 <= i < 1 :: x in PageCpIds(PageAt(api, status, [offset][i]).value)
    {
      assert [offset][0] == offset;
    }
  }

  lemma ListingCons(api: UsersApi, status: string, offset: int, p: UsersPage, l: Listing)
    requires PageAt(api, status, offset) == Ok(p) && Continues(p, offset)
    requires |l.offsets| >= 1 && l.offsets[0] == p.nextOffset.value
    requires StrictlyIncreasing(l.offsets)
    requires Fetched(api, status, l.offsets)
    requires Chained(api, status, l.offsets)
    requires ListsIds(api, status, l.ids, l.offsets)
    ensures StrictlyIncreasing([offset] + l.offsets)
    ensures Fetched(api, status, [offset] + l.offsets)
    ensures Chained(api, status, [offset] + l.offsets)
    ensures ListsIds(api, status, PageCpIds(p) + l.ids, [offset] + l.offsets)
  {
    var offs := [offset] + l.offsets;
    assert forall i | 1 <= i < |offs| :: offs[i] == l.offsets[i - 1];
    assert Fetched(api, status, offs);
    assert offs[|offs| - 1] == l.offsets[|l.offsets| - 1];
    ListingIdsCons(api, status, offset, p, l);
  }

  /** The ids of `[offset] + rest.offsets` are the first page's ids and the
      rest's. */
  lemma ListingIdsCons(api: UsersApi, status: string, offset: int, p: UsersPage, rest: Listing)
    requires PageAt(api, status, offset) == Ok(p)
    requires Fetched(api, status, rest.offsets)
    requires ListsIds(api, status, rest.ids, rest.offsets)
    requires Fetched(api, status, [offset] + rest.offsets)
    ensures ListsIds(api, status, PageCpIds(p) + rest.ids, [offset] + rest.offsets)
  {
    var offs := [offset] + rest.offsets;
    var ids := PageCpIds(p) + rest.ids;
    forall x
      ensures x in ids <==> exists i | 0 <= i < |offs| :: x in PageCpIds(PageAt(api, status, offs[i]).value)
    {
      if x in rest.ids {
        var j :| 0 <= j < |rest.offsets| && x in PageCpIds(PageAt(api, status, rest.offsets[j]).value);
        assert offs[j + 1] == rest.offsets[j];
      }
      if x in PageCpIds(p) {
        assert offs[0] == offset;
      }
      if exists i | 0 <= i < |offs| :: x in PageCpIds(PageAt(api, status, offs[i]).value) {
        var i :| 0 <= i < |offs| && x in PageCpIds(PageAt(api, status, offs[i]).value);
        if i > 0 {
          assert offs[i] == rest.offsets[i - 1];
        }
      }
    }
  }

  /** Strictly increasing offsets: no offset is requested twice. */
  lemma OffsetsRequestedOnce(offs: seq<int>)
    requires StrictlyIncreasing(offs)
    ensures Distinct(offs)
  {
  }

  /** `get_existing_cp_ids`: the active listing, then the archived one, and
      the union of their ids; the first failure is raised. */
  function GetExistingCpIds(api: UsersApi, bound: int): (r: Result<set<string>>)
    requires EndsBy(api, "active", bound) && EndsBy(api, "archived", bound)
    ensures var active := CollectFrom(api, "active", 0, bound);
      var archived := CollectFrom(api, "archived", 0, bound);
      && (r.Ok? <==> active.Ok? && archived.Ok?)
      && (active.Err? ==> r == Err(active.fault))
      && (active.Ok? && archived.Err? ==> r == Err(archived.fault))
      && (r.Ok? ==> forall x :: x in r.value <==> x in active.value.ids || x in archived.value.ids)
  {
    match CollectFrom(api, "active", 0, bound)
    case Err(f) => Err(f)
    case Ok(active) =>
      match CollectFrom(api, "archived", 0, bound)
      case Err(f) => Err(f)
      case Ok(archived) => Ok(active.ids + archived.ids)
  }

  // ---------------------------------------------------------------------------
  // post_user
  // ---------------------------------------------------------------------------

  /** The error detail: the decoded error body, or its raw text. */
  datatype Detail = JsonDetail(json: Json) | TextDetail(text: string)

  /** The dict `post_user` returns. `errorStatus` stands for the `error`
      message, which names the status code; it and `detail` are present only
      on failure, `response` only on success. */
  datatype PostResult = PostResult(
    success: bool,
    emplId: string,
    name: string,
    response: Option<Json>,
    errorStatus: Option<int>,
    detail: Option<Detail>)

  /** The user-creation endpoint, after the client's timeout retries. */
  type CreateApi = Payload -> Reply<Json>

  /** `post_user`: build the payload (a date error escapes before anything
      is sent), post it, and report success on a 2xx reply or failure with
      the error detail on any other status. A timeout, or a 2xx body that is
      not JSON, escapes. */
  function PostUser(w: WorkforceRecord, e: EmployeeRecord, create: CreateApi): (r: Result<PostResult>)
    ensures BuildPayload(w, e).Err? ==> r == Err(BuildPayload(w, e).fault)
    ensures BuildPayload(w, e).Ok? && create(BuildPayload(w, e).value).TimedOut? ==> r == Err(Timeout)
    ensures r.Ok? ==> BuildPayload(w, e).Ok? && create(BuildPayload(w, e).value).Response?
    ensures r.Ok? ==> r.value.emplId == e.emplId && r.value.name == FullName(e)
    ensures r.Ok? ==> var reply := create(BuildPayload(w, e).value);
      && (r.value.success <==> IsSuccess(reply.status))
      && (r.value.success ==>
            reply.body.Parsed? && r.value.response == Some(reply.body.value) && r.value.errorStatus.None? && r.value.detail.None?)
      && (!r.value.success ==>
            r.value.response.None? && r.value.errorStatus == Some(reply.status) && r.value.detail.Some?)
    ensures BuildPayload(w, e).Ok? ==> var reply := create(BuildPayload(w, e).value);
      reply.Response? && IsSuccess(reply.status) && reply.body.Unparsable? ==> r == Err(InvalidJson)
  {
    match BuildPayload(w, e)
    case Err(f) => Err(f)
    case Ok(payload) =>
      match create(payload)
      case TimedOut => Err(Timeout)
      case Response(status, body) =>
        if IsSuccess(status) then
          match body
          case Parsed(v) => Ok(PostResult(true, e.emplId, FullName(e), Some(v), None, None))
          case Unparsable(_) => Err(InvalidJson)
        else
          var detail := match body
            case Parsed(v) => JsonDetail(v)
            case Unparsable(t) => TextDetail(t);
          Ok(PostResult(false, e.emplId, FullName(e), None, Some(status), Some(detail)))
  }
}

/** The records passed between the phases, and the two API configurations
    read from the secret store (app/models/model.py). */
module Model {
  import opened Base
  import opened Text

  /** One employee's assignment on a CT project, taken from the row flagged
      as the default labor category. */
  datatype WorkforceRecord = WorkforceRecord(emplId: string, projId: string, projName: string, billLabCatCd: string)

  /** The Costpoint employee details needed to create a Connecteam user.
      Dates are ISO strings such as "2011-07-11T00:00:00", possibly empty. */
  datatype EmployeeRecord = EmployeeRecord(
    emplId: string,
    firstName: string,
    lastName: string,
    homeEmailId: string,
    origHireDt: string,
    birthDt: string,
    isActive: bool)

  /** The display name used in results and reports: first and last name
      separated by one space. */
  function FullName(e: EmployeeRecord): string {
    e.firstName + " " + e.lastName
  }

  /** The employee ids of a roster, in roster order. */
  function RecordIds(recs: seq<WorkforceRecord>): (ids: seq<string>)
    ensures |ids| == |recs|
    ensures forall i | 0 <= i < |recs| :: ids[i] == recs[i].emplId
  {
    if recs == [] then [] else RecordIds(recs[..|recs| - 1]) + [recs[|recs| - 1].emplId]
  }

  /** A decoded secret: the JSON object stored in the secret store. */
  type Secrets = map<string, Scalar>

  /** `secrets.get(key, default)`. */
  function SecretOr(secrets: Secrets, key: string, default: Scalar): Scalar {
    if key in secrets then secrets[key] else default
  }

  /** Costpoint connection settings. Fields other than `company` keep the raw
      secret value, exactly as the Python dataclass does; `company` is always
      the `str()` of the stored value. */
  datatype DeltekConfig = DeltekConfig(
    baseUrl: Scalar,
    system: Scalar,
    company: string,
    username: Scalar,
    password: Scalar,
    filterNotesValue: Scalar)

  const DefaultFilterNotesValue: string := "CT"

  /** `DeltekConfig.from_env`. */
  function DeltekFromEnv(secrets: Secrets): (c: DeltekConfig)
    ensures c.baseUrl == SecretOr(secrets, "base_url", JsonStr(""))
    ensures c.system == SecretOr(secrets, "system", JsonStr(""))
    ensures c.company == if "cp_company" in secrets then PyStr(secrets["cp_company"]) else ""
    ensures c.username == SecretOr(secrets, "username", JsonStr(""))
    ensures c.password == SecretOr(secrets, "password", JsonStr(""))
    ensures c.filterNotesValue == if "filter_notes_value" in secrets then secrets["filter_notes_value"] else JsonStr("CT")
  {
    DeltekConfig(
      baseUrl := SecretOr(secrets, "base_url", JsonStr("")),
      system := SecretOr(secrets, "system", JsonStr("")),
      company := PyStr(SecretOr(secrets, "cp_company", JsonStr(""))),
      username := SecretOr(secrets, "username", JsonStr("")),
      password := SecretOr(secrets, "password", JsonStr("")),
      filterNotesValue := SecretOr(secrets, "filter_notes_value", JsonStr(DefaultFilterNotesValue)))
  }

  /** `DeltekConfig.full_url`: the endpoint with the system and company query
      parameters. */
  function FullUrl(c: DeltekConfig): string {
    PyStr(c.baseUrl) + "?system=" + PyStr(c.system) + "&company=" + c.company
  }

  /** When neither the base URL nor the parameter values contain `?` or `&`,
      the URL falls apart into the base URL and the two query parameters, in
      that order. */
  lemma FullUrlParts(c: DeltekConfig)
    requires '?' !in PyStr(c.baseUrl) && '?' !in PyStr(c.system) && '?' !in c.company
    requires '&' !in PyStr(c.system) && '&' !in c.company
    ensures Split(FullUrl(c), '?') == [PyStr(c.baseUrl), "system=" + PyStr(c.system) + "&company=" + c.company]
    ensures Split(Split(FullUrl(c), '?')[1], '&') == ["system=" + PyStr(c.system), "company=" + c.company]
  {
    var base := PyStr(c.baseUrl);
    var p1 := "system=" + PyStr(c.system);
    var p2 := "company=" + c.company;
    var query := p1 + ['&'] + p2;
    assert "&company=" == ['&'] + "company=";
    assert query == "system=" + PyStr(c.system) + "&company=" + c.company;
    assert FullUrl(c) == base + ['?'] + query;
    assert '?' !in query && '&' !in p1 && '&' !in p2;
    SplitTwo(base, query, '?');
    SplitTwo(p1, p2, '&');
  }

  /** `DeltekConfig.validate()`: every connection setting is truthy. */
  predicate Validate(c: DeltekConfig) {
    Truthy(c.baseUrl) && Truthy(c.system) && c.company != "" && Truthy(c.username) && Truthy(c.password)
  }

  /** A configuration read from a secret validates exactly when the five
      connection keys are all present with truthy values; a `cp_company`
      that is present but not the empty string always counts, whatever its
      type, because it is stringified first. */
  lemma ValidateFromEnv(secrets: Secrets)
    ensures Validate(DeltekFromEnv(secrets)) <==>
      && "base_url" in secrets && Truthy(secrets["base_url"])
      && "system" in secrets && Truthy(secrets["system"])
      && "cp_company" in secrets && secrets["cp_company"] != JsonStr("")
      && "username" in secrets && Truthy(secrets["username"])
      && "password" in secrets && Truthy(secrets["password"])
  {
    if "cp_company" in secrets {
      TruthyRendersNonEmpty(secrets["cp_company"]);
    }
  }

  /** Connecteam connection settings. */
  datatype ConnecteamConfig = ConnecteamConfig(apiKey: Scalar, usersBaseUrl: string)

  const DefaultUsersBaseUrl: string := "https://api.connecteam.com/users/v1/users"

  /** `ConnecteamConfig.from_env`: fails when the `key` entry is missing or
      falsy, otherwise keeps the key and the default users endpoint. */
  function ConnecteamFromEnv(secrets: Secrets): (r: Result<ConnecteamConfig>)
    ensures r.Err? <==> !("key" in secrets && Truthy(secrets["key"]))
    ensures r.Err? ==> r.fault == MissingApiKey
    ensures r.Ok? ==> r.value.apiKey == secrets["key"] && r.value.usersBaseUrl == DefaultUsersBaseUrl
  {
    var apiKey := SecretOr(secrets, "key", JsonStr(""));
    if !Truthy(apiKey) then Err(MissingApiKey)
    else Ok(ConnecteamConfig(apiKey, DefaultUsersBaseUrl))
  }
}

/** The reconciliation pipeline (app/services/sync.py): the phases that turn
    Costpoint projects into a roster, the roster into active employees, and
    the active employees missing from Connecteam into created users, and the
    exit code of a whole run. */
module Sync {
  import opened Base
  import opened Seqs
  import opened Http
  import opened OrderedMaps
  import opened Model
  import Deltek
  import opened Connecteam
  import Email
  import Text

  /** The Costpoint service: the reply to each query, after the client's
      timeout retries. */
  type CostpointApi = Deltek.Query -> Reply<Deltek.Document>

  // ---------------------------------------------------------------------------
  // Phase 2: one roster over all CT projects, first project wins
  // ---------------------------------------------------------------------------

  /** `get_workforce(proj_id, proj_name)` as the phases see it. */
  type RosterFetch = (string, string) -> Result<seq<WorkforceRecord>>

  /** The client's roster fetch over a Costpoint service. */
  function FetchRoster(api: CostpointApi): RosterFetch {
    (p, n) => Deltek.GetWorkforce(p, n, api(Deltek.WorkforceQuery(p)))
  }

  /** The roster of one project. */
  function Roster(fetch: RosterFetch, projects: OrderedMap<string, string>, p: string): Result<seq<WorkforceRecord>>
    requires p in projects.values
  {
    fetch(p, projects.values[p])
  }

  /** The inner loop of phase 2: each record is stored unless its employee
      is already there. */
  function Merge(acc: OrderedMap<string, WorkforceRecord>, recs: seq<WorkforceRecord>): (r: OrderedMap<string, WorkforceRecord>)
    requires Valid(acc)
    ensures Valid(r)
  {
    if recs == [] then acc
    else
      var last := recs[|recs| - 1];
      PutIfAbsent(Merge(acc, recs[..|recs| - 1]), last.emplId, last)
  }

  /** The same first-seen-wins map built from one flat list of records. */
  function FirstWins(recs: seq<WorkforceRecord>): (r: OrderedMap<string, WorkforceRecord>)
    ensures Valid(r)
  {
    Merge(Empty(), recs)
  }

  /** `run_phase_2`: the projects in order, each roster merged in, any
      failure of a roster fetch ending the phase. */
  function Phase2(fetch: RosterFetch, projects: OrderedMap<string, string>, ids: seq<string>): (r: Result<OrderedMap<string, WorkforceRecord>>)
    requires forall p | p in ids :: p in projects.values
    ensures r.Ok? ==> Valid(r.value)
  {
    if ids == [] then Ok(Empty())
    else
      var p := ids[|ids| - 1];
      match Phase2(fetch, projects, ids[..|ids| - 1])
      case Err(f) => Err(f)
      case Ok(acc) =>
        match Roster(fetch, projects, p)
        case Err(f) => Err(f)
        case Ok(recs) => Ok(Merge(acc, recs))
  }

  /** All records of the projects' rosters, project after project. */
  function Flat(fetch: RosterFetch, projects: OrderedMap<string, string>, ids: seq<string>): (r: Result<seq<WorkforceRecord>>)
    requires forall p | p in ids :: p in projects.values
    ensures r.Err? <==> exists i | 0 <= i < |ids| :: Roster(fetch, projects, ids[i]).Err?
  {
    if ids == [] then Ok([])
    else
      var pre := ids[..|ids| - 1];
      var p := ids[|ids| - 1];
      assert forall i | 0 <= i < |pre| :: pre[i] == ids[i];
      match Flat(fetch, projects, pre)
      case Err(f) => Err(f)
      case Ok(acc) =>
        match Roster(fetch, projects, p)
        case Err(f) => Err(f)
        case Ok(recs) =>
          Ok(acc + recs)
  }

  lemma {:induction false} RecordIdsAppend(a: seq<WorkforceRecord>, b: seq<WorkforceRecord>)
    ensures RecordIds(a + b) == RecordIds(a) + RecordIds(b)
  {
    var l, r := RecordIds(a + b), RecordIds(a) + RecordIds(b);
    assert |l| == |r|;
    forall k | 0 <= k < |l|
      ensures l[k] == r[k]
    {
      if k < |a| {
        assert (a + b)[k] == a[k];
      } else {
        assert (a + b)[k] == b[k - |a|];
      }
    }
  }

  /** Merging a list into the map of a prefix gives the map of the whole. */
  lemma {:induction false} MergeIsFirstWins(a: seq<WorkforceRecord>, b: seq<WorkforceRecord>)
    ensures Merge(FirstWins(a), b) == FirstWins(a + b)
  {
    if b == [] {
      assert a + b == a;
    } else {
      var b' := b[..|b| - 1];
      var x := b[|b| - 1];
      MergeIsFirstWins(a, b');
      assert (a + b)[..|a + b| - 1] == a + b';
      assert (a + b)[|a + b| - 1] == x;
      assert Merge(FirstWins(a), b) == PutIfAbsent(Merge(FirstWins(a), b'), x.emplId, x);
      assert FirstWins(a + b) == PutIfAbsent(Merge(Empty(), a + b'), x.emplId, x);
    }
  }

  /** Phase 2 builds the first-seen-wins map of the flat record list. */
  lemma {:induction false} Phase2IsFirstWins(fetch: RosterFetch, projects: OrderedMap<string, string>, ids: seq<string>)
    requires forall p | p in ids :: p in projects.values
    ensures Phase2(fetch, projects, ids).Ok? <==> Flat(fetch, projects, ids).Ok?
    ensures Phase2(fetch, projects, ids).Ok? ==> Phase2(fetch, projects, ids).value == FirstWins(Flat(fetch, projects, ids).value)
  {
    if ids != [] {
      var pre := ids[..|ids| - 1];
      Phase2IsFirstWins(fetch, projects, pre);
      if Flat(fetch, projects, pre).Ok? {
        var p := ids[|ids| - 1];
        if Roster(fetch, projects, p).Ok? {
          MergeIsFirstWins(Flat(fetch, projects, pre).value, Roster(fetch, projects, p).value);
        }
      }
    }
  }

  /** The first-seen-wins map holds each employee once, in order of first
      appearance, with the first record seen for them. */
  lemma {:induction false} FirstWinsSpec(recs: seq<WorkforceRecord>)
    ensures FirstWins(recs).keys == Dedup(RecordIds(recs))
    ensures forall e | e in FirstWins(recs).values ::
      && e in RecordIds(recs)
      && FirstWins(recs).values[e] == recs[FirstIndex(RecordIds(recs), e)]
  {
    if recs != [] {
      var pre := recs[..|recs| - 1];
      var x := recs[|recs| - 1];
      FirstWinsSpec(pre);
      assert FirstWins(recs) == PutIfAbsent(FirstWins(pre), x.emplId, x);
      var ids := RecordIds(pre);
      assert RecordIds(recs) == ids + [x.emplId];
      DedupSnoc(ids, x.emplId);
      var m := FirstWins(pre);
      assert x.emplId in m.values <==> x.emplId in ids by {
        assert Elems(m.keys) == m.values.Keys;
      }
      forall e | e in m.values
        ensures FirstIndex(RecordIds(recs), e) == FirstIndex(ids, e)
      {
        FirstIndexAppend(ids, [x.emplId], e);
      }
      forall e | e in FirstWins(recs).values
        ensures e in RecordIds(recs) && FirstWins(recs).values[e] == recs[FirstIndex(RecordIds(recs), e)]
      {
        if e in m.values {
          assert recs[FirstIndex(ids, e)] == pre[FirstIndex(ids, e)];
        } else {
          assert e == x.emplId && e !in ids;
          assert FirstIndex(RecordIds(recs), e) == |pre|;
        }
      }
    }
  }

  /** The first occurrence of an element missing from `s` lies in `t`. */
  lemma FirstIndexAfter<T>(s: seq<T>, t: seq<T>, x: T)
    requires x !in s && x in t
    ensures FirstIndex(s + t, x) == |s| + FirstIndex(t, x)
  {
    var k := FirstIndex(s + t, x);
    var j := FirstIndex(t, x);
    assert (s + t)[|s| + j] == x;
    assert k >= |s|;
    assert t[k - |s|] == x;
  }

  /** Project `ids[i]` is the earliest whose roster lists employee `e`. */
  predicate ListedFirstIn(fetch: RosterFetch, projects: OrderedMap<string, string>, ids: seq<string>, i: int, e: string)
    requires forall p | p in ids :: p in projects.values
  {
    && 0 <= i < |ids|
    && Roster(fetch, projects, ids[i]).Ok?
    && e in RecordIds(Roster(fetch, projects, ids[i]).value)
    && forall j | 0 <= j < i :: Roster(fetch, projects, ids[j]).Ok? && e !in RecordIds(Roster(fetch, projects, ids[j]).value)
  }

  /** The first record for employee `e` in a list. */
  function FirstRecord(recs: seq<WorkforceRecord>, e: string): (rec: WorkforceRecord)
    requires e in RecordIds(recs)
    ensures rec in recs && rec.emplId == e
  {
    recs[FirstIndex(RecordIds(recs), e)]
  }

  /** The first occurrence of an employee in the flat list is their record
      in the earliest project whose roster lists them. */
  lemma {:induction false} FlatFirstProject(fetch: RosterFetch, projects: OrderedMap<string, string>, ids: seq<string>, e: string)
    requires forall p | p in ids :: p in projects.values
    requires Flat(fetch, projects, ids).Ok? && e in RecordIds(Flat(fetch, projects, ids).value)
    ensures exists i ::
      && ListedFirstIn(fetch, projects, ids, i, e)
      && FirstRecord(Flat(fetch, projects, ids).value, e) == FirstRecord(Roster(fetch, projects, ids[i]).value, e)
  {
    var pre := ids[..|ids| - 1];
    var acc := Flat(fetch, projects, pre).value;
    assert forall p | p in pre :: p in ids;
    if e in RecordIds(acc) {
      FlatFirstProject(fetch, projects, pre, e);
      var i :| ListedFirstIn(fetch, projects, pre, i, e)
        && FirstRecord(acc, e) == FirstRecord(Roster(fetch, projects, pre[i]).value, e);
      FlatFirstEarlier(fetch, projects, ids, e, i);
    } else {
      FlatFirstLast(fetch, projects, ids, e);
    }
  }

  /** An employee already listed before the last project keeps their first
      record. */
  lemma FlatFirstEarlier(fetch: RosterFetch, projects: OrderedMap<string, string>, ids: seq<string>, e: string, i: int)
    requires ids != [] && forall p | p in ids :: p in projects.values
    requires Flat(fetch, projects, ids).Ok? && e in RecordIds(Flat(fetch, projects, ids).value)
    requires ListedFirstIn(fetch, projects, ids[..|ids| - 1], i, e)
    requires e in RecordIds(Flat(fetch, projects, ids[..|ids| - 1]).value)
    requires FirstRecord(Flat(fetch, projects, ids[..|ids| - 1]).value, e)
      == FirstRecord(Roster(fetch, projects, ids[..|ids| - 1][i]).value, e)
    ensures && ListedFirstIn(fetch, projects, ids, i, e)
      && FirstRecord(Flat(fetch, projects, ids).value, e) == FirstRecord(Roster(fetch, projects, ids[i]).value, e)
  {
    var pre := ids[..|ids| - 1];
    var acc := Flat(fetch, projects, pre).value;
    var recs := Roster(fetch, projects, ids[|ids| - 1]).value;
    assert Flat(fetch, projects, ids).value == acc + recs;
    FirstRecordAppend(acc, recs, e);
    ListedFirstExtend(fetch, projects, ids, i, e);
    assert ids[i] == pre[i];
  }

  /** An employee first listed by the last project has that roster's record. */
  lemma FlatFirstLast(fetch: RosterFetch, projects: OrderedMap<string, string>, ids: seq<string>, e: string)
    requires ids != [] && forall p | p in ids :: p in projects.values
    requires Flat(fetch, projects, ids).Ok? && e in RecordIds(Flat(fetch, projects, ids).value)
    requires e !in RecordIds(Flat(fetch, projects, ids[..|ids| - 1]).value)
    ensures ListedFirstIn(fetch, projects, ids, |ids| - 1, e)
    ensures FirstRecord(Flat(fetch, projects, ids).value, e) == FirstRecord(Roster(fetch, projects, ids[|ids| - 1]).value, e)
  {
    var pre := ids[..|ids| - 1];
    var acc := Flat(fetch, projects, pre).value;
    var recs := Roster(fetch, projects, ids[|ids| - 1]).value;
    assert Flat(fetch, projects, ids).value == acc + recs;
    RecordIdsAppend(acc, recs);
    assert forall p | p in pre :: p in ids;
    FlatCovers(fetch, projects, pre, e);
    forall j | 0 <= j < |pre|
      ensures Roster(fetch, projects, ids[j]).Ok? && e !in RecordIds(Roster(fetch, projects, ids[j]).value)
    {
      assert pre[j] == ids[j];
    }
    FirstRecordAfter(acc, recs, e);
  }

  lemma FirstRecordAppend(a: seq<WorkforceRecord>, b: seq<WorkforceRecord>, e: string)
    requires e in RecordIds(a)
    ensures RecordIds(a + b) == RecordIds(a) + RecordIds(b)
    ensures FirstRecord(a + b, e) == FirstRecord(a, e)
  {
    RecordIdsAppend(a, b);
    FirstIndexAppend(RecordIds(a), RecordIds(b), e);
  }

  lemma FirstRecordAfter(a: seq<WorkforceRecord>, b: seq<WorkforceRecord>, e: string)
    requires e !in RecordIds(a) && e in RecordIds(b)
    ensures RecordIds(a + b) == RecordIds(a) + RecordIds(b)
    ensures FirstRecord(a + b, e) == FirstRecord(b, e)
  {
    RecordIdsAppend(a, b);
    FirstIndexAfter(RecordIds(a), RecordIds(b), e);
    var k := FirstIndex(RecordIds(b), e);
    assert FirstIndex(RecordIds(a + b), e) == |a| + k;
    assert (a + b)[|a| + k] == b[k];
  }

  lemma ListedFirstExtend(fetch: RosterFetch, projects: OrderedMap<string, string>, ids: seq<string>, i: int, e: string)
    requires ids != [] && forall p | p in ids :: p in projects.values
    requires ListedFirstIn(fetch, projects, ids[..|ids| - 1], i, e)
    ensures ListedFirstIn(fetch, projects, ids, i, e)
  {
    var pre := ids[..|ids| - 1];
    assert forall j | 0 <= j <= i :: pre[j] == ids[j];
  }

  /** Phase 2 lists every employee of every roster exactly once, in order of
      first appearance across the projects, and keeps for each the record
      from the earliest project that lists them. */
  lemma Phase2Spec(fetch: RosterFetch, projects: OrderedMap<string, string>, ids: seq<string>, e: string)
    requires forall p | p in ids :: p in projects.values
    requires Phase2(fetch, projects, ids).Ok?
    ensures Flat(fetch, projects, ids).Ok?
    ensures Phase2(fetch, projects, ids).value.keys == Dedup(RecordIds(Flat(fetch, projects, ids).value))
    ensures e in Phase2(fetch, projects, ids).value.values <==>
      exists i | 0 <= i < |ids| :: e in RecordIds(Roster(fetch, projects, ids[i]).value)
    ensures e in Phase2(fetch, projects, ids).value.values ==> exists i ::
      && ListedFirstIn(fetch, projects, ids, i, e)
      && Phase2(fetch, projects, ids).value.values[e] == FirstRecord(Roster(fetch, projects, ids[i]).value, e)
  {
    Phase2IsFirstWins(fetch, projects, ids);
    var flat := Flat(fetch, projects, ids).value;
    FirstWinsSpec(flat);
    var m := Phase2(fetch, projects, ids).value;
    assert e in m.values <==> e in RecordIds(flat) by {
      assert Elems(m.keys) == m.values.Keys;
    }
    FlatCovers(fetch, projects, ids, e);
    if e in RecordIds(flat) {
      FlatFirstProject(fetch, projects, ids, e);
      assert m.values[e] == FirstRecord(flat, e);
    }
  }

  /** Every id of the flat list comes from some project's roster. */
  lemma {:induction false} FlatCovers(fetch: RosterFetch, projects: OrderedMap<string, string>, ids: seq<string>, e: string)
    requires forall p | p in ids :: p in projects.values
    requires Flat(fetch, projects, ids).Ok?
    ensures e in RecordIds(Flat(fetch, projects, ids).value) <==>
      exists i | 0 <= i < |ids| :: e in RecordIds(Roster(fetch, projects, ids[i]).value)
  {
    if ids != [] {
      var pre := ids[..|ids| - 1];
      var p := ids[|ids| - 1];
      FlatCovers(fetch, projects, pre, e);
      var acc := Flat(fetch, projects, pre).value;
      var recs := Roster(fetch, projects, p).value;
      assert Flat(fetch, projects, ids).value == acc + recs;
      RecordIdsAppend(acc, recs);
      assert forall i | 0 <= i < |pre| :: pre[i] == ids[i];
      if exists i | 0 <= i < |ids| :: e in RecordIds(Roster(fetch, projects, ids[i]).value) {
        var i :| 0 <= i < |ids| && e in RecordIds(Roster(fetch, projects, ids[i]).value);
        if i < |pre| {
          assert e in RecordIds(acc);
        }
      }
    }
  }

  // ---------------------------------------------------------------------------
  // Phase 3: active employees
  // ---------------------------------------------------------------------------

  /** The employee lookup of one id. */
  function Lookup(api: CostpointApi, id: string): (r: Result<Option<EmployeeRecord>>)
    ensures r.Ok? && r.value.Some? ==> r.value.value.emplId == id
  {
    Deltek.GetEmployee(id, api(Deltek.EmployeeQuery(id)))
  }

  /** The lookup found an active employee. */
  predicate Kept(api: CostpointApi, id: string) {
    Lookup(api, id).Ok? && Lookup(api, id).value.Some? && Lookup(api, id).value.value.isActive
  }

  /** `run_phase_3`: each id looked up in turn; a missing or inactive
      employee is skipped, an active one stored, and a failed lookup ends
      the phase. */
  function Phase3(api: CostpointApi, ids: seq<string>): (r: Result<OrderedMap<string, EmployeeRecord>>)
    requires Distinct(ids)
    ensures r.Ok? ==> Valid(r.value) && IsSubsequence(r.value.keys, ids)
  {
    if ids == [] then Ok(Empty())
    else
      var pre := ids[..|ids| - 1];
      var id := ids[|ids| - 1];
      assert forall i | 0 <= i < |pre| :: pre[i] == ids[i];
      match Phase3(api, pre)
      case Err(f) => Err(f)
      case Ok(acc) =>
        match Lookup(api, id)
        case Err(f) => Err(f)
        case Ok(found) =>
          Phase3Step(acc, ids);
          if found.Some? && found.value.isActive then
            SubsequenceTakeLast(acc.keys, ids);
            Ok(Put(acc, id, found.value))
          else
            Ok(acc)
  }

  /** The id looked up next is not yet stored, and skipping it keeps the
      stored ids in lookup order. */
  lemma Phase3Step(acc: OrderedMap<string, EmployeeRecord>, ids: seq<string>)
    requires ids != [] && Distinct(ids)
    requires Valid(acc) && IsSubsequence(acc.keys, ids[..|ids| - 1])
    ensures ids[|ids| - 1] !in acc.values
    ensures IsSubsequence(acc.keys, ids)
  {
    var pre := ids[..|ids| - 1];
    SubsequenceElems(acc.keys, pre);
    assert Elems(acc.keys) == acc.values.Keys;
    assert ids[|ids| - 1] !in pre;
    SubsequenceSkipLast(acc.keys, ids);
  }

  /** Phase 3 fails exactly when some lookup fails. */
  lemma {:induction false} Phase3Fails(api: CostpointApi, ids: seq<string>)
    requires Distinct(ids)
    ensures Phase3(api, ids).Err? <==> exists i | 0 <= i < |ids| :: Lookup(api, ids[i]).Err?
  {
    if ids != [] {
      var pre := ids[..|ids| - 1];
      assert forall i | 0 <= i < |pre| :: pre[i] == ids[i];
      Phase3Fails(api, pre);
      if Phase3(api, pre).Ok? && Lookup(api, ids[|ids| - 1]).Err? {
        assert Phase3(api, ids).Err?;
      }
    }
  }

  /** A successful phase 3 keeps an id exactly when its lookup found an
      active employee, and stores that employee under it. */
  lemma {:induction false} Phase3Kept(api: CostpointApi, ids: seq<string>)
    requires Distinct(ids) && Phase3(api, ids).Ok?
    ensures forall id | id in ids :: (id in Phase3(api, ids).value.values <==> Kept(api, id))
    ensures forall id | id in Phase3(api, ids).value.values ::
      Kept(api, id) && Phase3(api, ids).value.values[id] == Lookup(api, id).value.value
  {
    if ids != [] {
      var pre := ids[..|ids| - 1];
      var id := ids[|ids| - 1];
      assert forall i | 0 <= i < |pre| :: pre[i] == ids[i];
      var acc := Phase3(api, pre).value;
      Phase3Kept(api, pre);
      Phase3Step(acc, ids);
      assert forall x | x in ids :: x in pre || x == id;
    }
  }

  /** Every employee phase 3 keeps carries the id it was looked up by. */
  lemma Phase3Ids(api: CostpointApi, ids: seq<string>)
    requires Distinct(ids) && Phase3(api, ids).Ok?
    ensures forall id | id in Phase3(api, ids).value.values :: id in ids && Phase3(api, ids).value.values[id].emplId == id
  {
    Phase3Kept(api, ids);
    var m := Phase3(api, ids).value;
    SubsequenceElems(m.keys, ids);
    assert Elems(m.keys) == m.values.Keys;
  }

  // ---------------------------------------------------------------------------
  // Phase 5: missing employees
  // ---------------------------------------------------------------------------

  /** `run_phase_5`: the active employees, in order, whose id Connecteam
      does not hold. */
  function Phase5(employees: OrderedMap<string, EmployeeRecord>, existing: set<string>): (r: seq<string>)
    requires Valid(employees)
    ensures Distinct(r) && IsSubsequence(r, employees.keys)
    ensures forall id :: id in r <==> id in employees.values && id !in existing
  {
    assert Elems(employees.keys) == employees.values.Keys;
    Without(employees.keys, existing)
  }

  /** No other list answers the phase's description: phase 5 is the only
      duplicate-free, order-preserving selection of exactly the employees
      Connecteam lacks. */
  lemma Phase5Unique(employees: OrderedMap<string, EmployeeRecord>, existing: set<string>, r: seq<string>)
    requires Valid(employees)
    requires IsSubsequence(r, employees.keys)
    requires forall id :: id in r <==> id in employees.values && id !in existing
    ensures r == Phase5(employees, existing)
  {
    assert Elems(employees.keys) == employees.values.Keys;
    WithoutUnique(employees.keys, existing, r);
  }

  // ---------------------------------------------------------------------------
  // Phase 6: preview or create
  // ---------------------------------------------------------------------------

  /** `build_payload` and `post_user` as phase 6 sees them. */
  type Build = (WorkforceRecord, EmployeeRecord) -> Result<Payload>
  type Post = (WorkforceRecord, EmployeeRecord) -> Result<PostResult>

  /** The client's methods over a Connecteam create endpoint. */
  function ClientBuild(): Build {
    (w, e) => BuildPayload(w, e)
  }

  function ClientPost(create: CreateApi): Post {
    (w, e) => PostUser(w, e, create)
  }

  /** One entry of the dry-run preview. */
  datatype PreviewEntry = PreviewEntry(emplId: string, name: string, payload: Payload)

  /** The dry-run branch of `run_phase_6`: one preview per missing id, in
      order; a payload error escapes. */
  function Preview(workforce: map<string, WorkforceRecord>, employees: map<string, EmployeeRecord>, missing: seq<string>, build: Build): (r: Result<seq<PreviewEntry>>)
    requires Email.Covered(workforce, employees, missing)
    ensures r.Err? <==> exists i | 0 <= i < |missing| :: build(workforce[missing[i]], employees[missing[i]]).Err?
    ensures r.Ok? ==> |r.value| == |missing|
    ensures r.Ok? ==> forall i | 0 <= i < |missing| ::
      var id := missing[i];
      r.value[i] == PreviewEntry(id, FullName(employees[id]), build(workforce[id], employees[id]).value)
  {
    if missing == [] then Ok([])
    else
      var pre := missing[..|missing| - 1];
      var id := missing[|missing| - 1];
      assert forall i | 0 <= i < |pre| :: pre[i] == missing[i];
      match Preview(workforce, employees, pre, build)
      case Err(f) => Err(f)
      case Ok(entries) =>
        match build(workforce[id], employees[id])
        case Err(f) => Err(f)
        case Ok(payload) => Ok(entries + [PreviewEntry(id, FullName(employees[id]), payload)])
  }

  /** The live branch of `run_phase_6`: `post_user` once per missing id, in
      order; an exception escapes and ends the phase. */
  function PostAll(workforce: map<string, WorkforceRecord>, employees: map<string, EmployeeRecord>, missing: seq<string>, post: Post): (r: Result<seq<PostResult>>)
    requires Email.Covered(workforce, employees, missing)
    ensures r.Err? <==> exists i | 0 <= i < |missing| :: post(workforce[missing[i]], employees[missing[i]]).Err?
    ensures r.Ok? ==> |r.value| == |missing|
    ensures r.Ok? ==> forall i | 0 <= i < |missing| :: post(workforce[missing[i]], employees[missing[i]]) == Ok(r.value[i])
  {
    if missing == [] then Ok([])
    else
      var pre := missing[..|missing| - 1];
      var id := missing[|missing| - 1];
      assert forall i | 0 <= i < |pre| :: pre[i] == missing[i];
      match PostAll(workforce, employees, pre, post)
      case Err(f) => Err(f)
      case Ok(results) =>
        match post(workforce[id], employees[id])
        case Err(f) => Err(f)
        case Ok(result) => Ok(results + [result])
  }

  /** What phase 6 produces: the creation results and the dry-run preview. */
  datatype Phase6Out = Phase6Out(results: seq<PostResult>, preview: seq<PreviewEntry>)

  /** `run_phase_6`: a dry run previews and returns no results; a live run
      posts every missing employee and returns their results. */
  function Phase6(
    workforce: map<string, WorkforceRecord>,
    employees: map<string, EmployeeRecord>,
    missing: seq<string>,
    dryRun: bool,
    build: Build,
    post: Post): (r: Result<Phase6Out>)
    requires Email.Covered(workforce, employees, missing)
    ensures dryRun ==> r.Err? == Preview(workforce, employees, missing, build).Err?
    ensures dryRun && r.Ok? ==> r.value.results == [] && r.value.preview == Preview(workforce, employees, missing, build).value
    ensures !dryRun ==> r.Err? == PostAll(workforce, employees, missing, post).Err?
    ensures !dryRun && r.Ok? ==> r.value.preview == [] && r.value.results == PostAll(workforce, employees, missing, post).value
  {
    if dryRun then
      match Preview(workforce, employees, missing, build)
      case Err(f) => Err(f)
      case Ok(entries) => Ok(Phase6Out([], entries))
    else
      match PostAll(workforce, employees, missing, post)
      case Err(f) => Err(f)
      case Ok(results) => Ok(Phase6Out(results, []))
  }

  /** A dry run never posts: its outcome is the same whatever posting would
      do, and it returns no results. */
  lemma DryRunPostsNothing(
    workforce: map<string, WorkforceRecord>,
    employees: map<string, EmployeeRecord>,
    missing: seq<string>,
    build: Build,
    post1: Post,
    post2: Post)
    requires Email.Covered(workforce, employees, missing)
    ensures Phase6(workforce, employees, missing, true, build, post1) == Phase6(workforce, employees, missing, true, build, post2)
    ensures Phase6(workforce, employees, missing, true, build, post1).Ok? ==> Phase6(workforce, employees, missing, true, build, post1).value.results == []
  {
  }

  /** In a live run with the client's `post_user`, the i-th result is the
      one for the i-th missing employee, under that employee's id and
      name. */
  lemma LiveResultsFollowMissing(
    workforce: map<string, WorkforceRecord>,
    employees: map<string, EmployeeRecord>,
    missing: seq<string>,
    create: CreateApi)
    requires Email.Covered(workforce, employees, missing)
    requires forall id | id in missing :: employees[id].emplId == id
    requires Phase6(workforce, employees, missing, false, ClientBuild(), ClientPost(create)).Ok?
    ensures var results := Phase6(workforce, employees, missing, false, ClientBuild(), ClientPost(create)).value.results;
      && |results| == |missing|
      && forall i | 0 <= i < |missing| :: results[i].emplId == missing[i] && results[i].name == FullName(employees[missing[i]])
  {
    var results := Phase6(workforce, employees, missing, false, ClientBuild(), ClientPost(create)).value.results;
    forall i | 0 <= i < |missing|
      ensures results[i].emplId == missing[i] && results[i].name == FullName(employees[missing[i]])
    {
      var id := missing[i];
      assert ClientPost(create)(workforce[id], employees[id]) == Ok(results[i]);
      assert PostUser(workforce[id], employees[id], create) == Ok(results[i]);
    }
  }

  // ---------------------------------------------------------------------------
  // sync: configuration, the staged pipeline and the exit code
  // ---------------------------------------------------------------------------

  /** What the secret store answered for one secret: the decoded object, a
      ValueError (missing secret, no payload, payload not JSON), or any other
      client error, which `get_secret` re-raises. */
  datatype SecretFetch = Found(secrets: Secrets) | ConfigError | OtherError

  /** The services the pipeline talks to: the Costpoint service,
      Connecteam's users listing (with the offset from which it lists nothing
      more) and its create endpoint. */
  datatype Services = Services(costpoint: CostpointApi, users: UsersApi, usersBound: int, create: CreateApi)

  /** The listing ends on both statuses, as the offset-based pagination
      needs in order to stop. */
  ghost predicate ListingEnds(svc: Services) {
    EndsBy(svc.users, "active", svc.usersBound) && EndsBy(svc.users, "archived", svc.usersBound)
  }

  /** Where the guarded part of `sync` stopped: an escaping exception, one
      of the early returns, or phase 6 done with the roster, the active
      employees, the missing ids and the creation results. */
  datatype Stop =
    | Failed(fault: Fault)
    | NoProjects
    | NoWorkforce
    | NoEmployees
    | NothingMissing
    | Reached(workforce: map<string, WorkforceRecord>, employees: map<string, EmployeeRecord>, missing: seq<string>, results: seq<PostResult>)

  /** What a pipeline that reached the end hands to the report. */
  predicate WellFormed(stop: Stop, dryRun: bool) {
    stop.Reached? ==>
      && Email.Covered(stop.workforce, stop.employees, stop.missing)
      && stop.missing != [] && Distinct(stop.missing)
      && (forall id | id in stop.missing :: stop.employees[id].emplId == id)
      && (dryRun ==> stop.results == [])
      && (!dryRun ==> |stop.results| == |stop.missing|)
  }

  /** Phases 1 to 6, inside `sync`'s try block. */
  function Pipeline(config: DeltekConfig, svc: Services, dryRun: bool): (stop: Stop)
    requires ListingEnds(svc)
    ensures WellFormed(stop, dryRun)
    ensures var projects := Deltek.GetCtProjects(svc.costpoint(Deltek.ProjectsQuery), config.filterNotesValue);
      && (projects.Err? ==> stop == Failed(projects.fault))
      && (stop == NoProjects <==> projects.Ok? && projects.value.keys == [])
  {
    match Deltek.GetCtProjects(svc.costpoint(Deltek.ProjectsQuery), config.filterNotesValue)
    case Err(f) => Failed(f)
    case Ok(projects) =>
      if projects.keys == [] then NoProjects
      else AfterProjects(svc, projects, dryRun)
  }

  /** Phase 2 onwards, for a non-empty project map. */
  function AfterProjects(svc: Services, projects: OrderedMap<string, string>, dryRun: bool): (stop: Stop)
    requires ListingEnds(svc) && Valid(projects)
    ensures WellFormed(stop, dryRun)
    ensures stop != NoProjects
    ensures var workforce := Phase2(FetchRoster(svc.costpoint), projects, projects.keys);
      && (workforce.Err? ==> stop == Failed(workforce.fault))
      && (stop == NoWorkforce <==> workforce.Ok? && workforce.value.keys == [])
      && (stop.Reached? ==> workforce.Ok? && stop.workforce == workforce.value.values)
  {
    assert Elems(projects.keys) == projects.values.Keys;
    match Phase2(FetchRoster(svc.costpoint), projects, projects.keys)
    case Err(f) => Failed(f)
    case Ok(workforce) =>
      if workforce.keys == [] then NoWorkforce
      else AfterWorkforce(svc, workforce, dryRun)
  }

  /** Phase 3 onwards, for a non-empty roster. */
  function AfterWorkforce(svc: Services, workforce: OrderedMap<string, WorkforceRecord>, dryRun: bool): (stop: Stop)
    requires ListingEnds(svc) && Valid(workforce)
    ensures WellFormed(stop, dryRun)
    ensures stop != NoProjects && stop != NoWorkforce
    ensures var employees := Phase3(svc.costpoint, workforce.keys);
      && (employees.Err? ==> stop == Failed(employees.fault))
      && (stop == NoEmployees <==> employees.Ok? && employees.value.keys == [])
      && (stop.Reached? ==> employees.Ok? && stop.employees == employees.value.values && stop.workforce == workforce.values)
  {
    match Phase3(svc.costpoint, workforce.keys)
    case Err(f) => Failed(f)
    case Ok(employees) =>
      if employees.keys == [] then NoEmployees
      else
        Phase3Ids(svc.costpoint, workforce.keys);
        SubsequenceElems(employees.keys, workforce.keys);
        assert Elems(employees.keys) == employees.values.Keys;
        assert Elems(workforce.keys) == workforce.values.Keys;
        AfterEmployees(svc, workforce.values, employees, dryRun)
  }

  /** Phases 4 to 6, for a non-empty set of active employees. */
  function AfterEmployees(svc: Services, workforce: map<string, WorkforceRecord>, employees: OrderedMap<string, EmployeeRecord>, dryRun: bool): (stop: Stop)
    requires ListingEnds(svc) && Valid(employees)
    requires forall id | id in employees.values :: id in workforce && employees.values[id].emplId == id
    ensures WellFormed(stop, dryRun)
    ensures stop != NoProjects && stop != NoWorkforce && stop != NoEmployees
    ensures var existing := GetExistingCpIds(svc.users, svc.usersBound);
      && (existing.Err? ==> stop == Failed(existing.fault))
      && (stop == NothingMissing <==> existing.Ok? && Phase5(employees, existing.value) == [])
      && (stop.Reached? ==>
            && existing.Ok?
            && stop.missing == Phase5(employees, existing.value)
            && stop.employees == employees.values
            && stop.workforce == workforce
            && Phase6(workforce, employees.values, stop.missing, dryRun, ClientBuild(), ClientPost(svc.create)).Ok?
            && stop.results == Phase6(workforce, employees.values, stop.missing, dryRun, ClientBuild(), ClientPost(svc.create)).value.results)
  {
    match GetExistingCpIds(svc.users, svc.usersBound)
    case Err(f) => Failed(f)
    case Ok(existing) =>
      var missing := Phase5(employees, existing);
      if missing == [] then NothingMissing
      else
        match Phase6(workforce, employees.values, missing, dryRun, ClientBuild(), ClientPost(svc.create))
        case Err(f) => Failed(f)
        case Ok(out) => Reached(workforce, employees.values, missing, out.results)
  }

  /** The report step after the pipeline: `send_import_email` with
      `results or None` (an empty list reads like none). An exception it
      raises ends the run as any other; its return value is not looked at. */
  function Finish(stop: Stop, dryRun: bool, recipients: string, mailer: Email.Mailer): (r: (Stop, Option<(bool, Option<Email.Delivery>)>))
    requires WellFormed(stop, dryRun)
    ensures !stop.Reached? ==> r == (stop, None)
    ensures stop.Reached? ==>
      var sent := Email.SendImportEmail(stop.workforce, stop.employees, stop.missing, stop.results, dryRun, recipients, mailer);
      && (sent.Err? ==> r == (Failed(sent.fault), None))
      && (sent.Ok? ==> r == (stop, Some(sent.value)))
  {
    if !stop.Reached? then (stop, None)
    else
      match Email.SendImportEmail(stop.workforce, stop.employees, stop.missing, stop.results, dryRun, recipients, mailer)
      case Err(f) => (Failed(f), None)
      case Ok(report) => (stop, Some(report))
  }

  /** The return value of `sync` for where the run stopped. */
  function ExitCode(stop: Stop, dryRun: bool): (code: int)
    ensures code == 0 || code == 1
    ensures stop.Failed? || stop.NoProjects? || stop.NoWorkforce? ==> code == 1
    ensures stop.NoEmployees? || stop.NothingMissing? ==> code == 0
    ensures stop.Reached? && dryRun ==> code == 0
  {
    match stop
    case Failed(_) => 1
    case NoProjects => 1
    case NoWorkforce => 1
    case NoEmployees => 0
    case NothingMissing => 0
    case Reached(_, _, _, results) => if !dryRun && Email.FailureCount(results) > 0 then 1 else 0
  }

  /** A live run that gets to the end exits with 1 exactly when some
      creation failed. */
  lemma LiveExitReflectsFailures(stop: Stop)
    requires stop.Reached?
    ensures ExitCode(stop, false) == 1 <==> exists i | 0 <= i < |stop.results| :: !stop.results[i].success
  {
    Email.CountsAddUp(stop.results);
  }

  /** How a run ended: a return code, or an exception that escapes `sync`. */
  datatype Exit = Code(code: int) | Raised

  /** The observable outcome of `sync`: how it ended, whether both clients
      were closed, where the guarded part stopped if it ran, and what the
      report step returned if it completed. */
  datatype Run = Run(exit: Exit, clientsClosed: bool, stop: Option<Stop>, report: Option<(bool, Option<Email.Delivery>)>)

  /** `sync(client_name, dry_run)`: read both secrets and build both
      configurations (a ValueError returns 1 before any client exists), then
      build the two clients outside the guarded block: the Costpoint client
      cannot fail, but a Connecteam key httpx cannot send as a header raises
      there, escaping `sync` with the Costpoint client left open. Otherwise
      run the pipeline and the report with both clients and close them
      whatever happens. `recipients` is the `SES_TO_EMAILS` value. */
  function SyncRun(deltekSecret: SecretFetch, ctSecret: SecretFetch, svc: Services, dryRun: bool, recipients: string, mailer: Email.Mailer): (run: Run)
    requires ListingEnds(svc)
    ensures run.exit == Raised || run.exit == Code(0) || run.exit == Code(1)
    ensures run.clientsClosed <==> run.stop.Some?
    ensures run.stop.Some? ==> run.exit == Code(ExitCode(run.stop.value, dryRun))
    ensures run.report.Some? ==> run.stop.Some? && run.stop.value.Reached?
  {
    match deltekSecret
    case OtherError => Run(Raised, false, None, None)
    case ConfigError => Run(Code(1), false, None, None)
    case Found(ds) =>
      match ctSecret
      case OtherError => Run(Raised, false, None, None)
      case ConfigError => Run(Code(1), false, None, None)
      case Found(cs) =>
        match ConnecteamFromEnv(cs)
        case Err(_) => Run(Code(1), false, None, None)
        case Ok(config) =>
          if !ClientBuilds(config) then Run(Raised, false, None, None)
          else
            var (stop, report) := Finish(Pipeline(DeltekFromEnv(ds), svc, dryRun), dryRun, recipients, mailer);
            Run(Code(ExitCode(stop, dryRun)), true, Some(stop), report)
  }

  /** A Connecteam secret whose `key` httpx can send: a non-empty ASCII
      string. */
  predicate SendableKey(secrets: Secrets) {
    "key" in secrets && secrets["key"].JsonStr? && secrets["key"].s != "" && Text.IsAscii(secrets["key"].s)
  }

  /** The configuration step: an unexpected secret-store error escapes; a
      ValueError (an unreadable secret or a missing or falsy Connecteam API
      key) returns 1 without building clients; a truthy key that is not
      ASCII text escapes while the clients are built, before the guarded
      block; otherwise the pipeline runs and both clients are closed. */
  lemma SyncConfiguration(deltekSecret: SecretFetch, ctSecret: SecretFetch, svc: Services, dryRun: bool, recipients: string, mailer: Email.Mailer)
    requires ListingEnds(svc)
    ensures var run := SyncRun(deltekSecret, ctSecret, svc, dryRun, recipients, mailer);
      && (run.exit == Raised <==>
            || deltekSecret.OtherError?
            || (deltekSecret.Found? && ctSecret.OtherError?)
            || (deltekSecret.Found? && ctSecret.Found? && "key" in ctSecret.secrets
                && Truthy(ctSecret.secrets["key"]) && !SendableKey(ctSecret.secrets)))
      && (run.clientsClosed <==> deltekSecret.Found? && ctSecret.Found? && SendableKey(ctSecret.secrets))
      && (!run.clientsClosed && run.exit != Raised ==> run.exit == Code(1))
  {
  }

  /** An integer API key passes the configuration check but cannot be sent
      as a header: the run escapes before the guarded block and no client is
      closed. */
  lemma IntegerKeyEscapes(ds: Secrets, svc: Services, dryRun: bool, recipients: string, mailer: Email.Mailer)
    requires ListingEnds(svc)
    ensures var run := SyncRun(Found(ds), Found(map["key" := JsonInt(7)]), svc, dryRun, recipients, mailer);
      run.exit == Raised && !run.clientsClosed
  {
  }

  /** Whether the report is mailed never changes the exit code: a run exits
      the same whatever the mail service does. */
  lemma ExitIgnoresMailer(deltekSecret: SecretFetch, ctSecret: SecretFetch, svc: Services, dryRun: bool, recipients: string, mailer1: Email.Mailer, mailer2: Email.Mailer)
    requires ListingEnds(svc)
    ensures SyncRun(deltekSecret, ctSecret, svc, dryRun, recipients, mailer1).exit
         == SyncRun(deltekSecret, ctSecret, svc, dryRun, recipients, mailer2).exit
  {
  }
}

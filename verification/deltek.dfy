/** Interpretation of Costpoint query responses (app/clients/deltek.py).
    A response document is a list of rows; each row names its result set
    (`rsId`), carries a flat `data` object and nests child rows. The HTTP
    call itself is an oracle reply handed in by the caller. */
module Deltek {
  import opened Base
  import opened Http
  import opened Seqs
  import opened OrderedMaps
  import opened Model

  /** A row's `data` object; Costpoint returns its fields as strings. */
  type Data = map<string, string>

  /** A row of a response tree. A missing `rsId` is `None`; a missing `row`
      wrapper, `data` or `children` reads as an empty row, map or list. */
  datatype Row = Row(rsId: Option<string>, data: Data, children: seq<Row>)

  /** `data["document"]["rows"]`, empty when either key is absent. */
  type Document = seq<Row>

  const ProjectRs: string := "PJMBASIC_PROJ"
  const NotesRs: string := "PJMBASIC_PROJ_NOTES"
  const HeaderRs: string := "PJM_PROJEMPL_HDR"
  const LaborCategoryRs: string := "PJM_PROJEMPL_LABCAT_PLCWKFRCE"
  const WorkforceRs: string := "PJM_PROJEMPLLABCAT_PLCWK"
  const EmplIdKey: string := "PJM_PROJEMPLLABCAT_PLCWK_EMPL_ID"
  const LaborCatKey: string := "PJM_PROJEMPLLABCAT_PLCWK_BILL_LAB_CAT_CD"

  /** The queries the client sends; `url` and credentials are added by the
      transport. */
  datatype Query = ProjectsQuery | WorkforceQuery(projId: string) | EmployeeQuery(emplId: string)

  /** `d.get(key, "")`. */
  function Field(d: Data, key: string): string {
    if key in d then d[key] else ""
  }

  predicate HasRs(r: Row, rs: string) {
    r.rsId == Some(rs)
  }

  // ---------------------------------------------------------------------------
  // get_ct_projects
  // ---------------------------------------------------------------------------

  /** `child_row.get("data", {}).get("NOTES")`: `None` when absent. */
  function NotesOf(r: Row): Scalar {
    if "NOTES" in r.data then JsonStr(r.data["NOTES"]) else JsonNull
  }

  /** A top-level project row with a NOTES child equal to the filter value. */
  predicate IsCtProject(r: Row, filter: Scalar) {
    HasRs(r, ProjectRs) && exists c | c in r.children :: HasRs(c, NotesRs) && NotesOf(c) == filter
  }

  function ProjIdOf(r: Row): string {
    Field(r.data, "PROJ_ID")
  }

  function ProjNameOf(r: Row): string {
    Field(r.data, "PROJ_NAME")
  }

  /** The rows that qualify as CT projects, in response order. */
  function CtProjectRows(rows: seq<Row>, filter: Scalar): (q: seq<Row>)
    ensures forall r | r in q :: r in rows && IsCtProject(r, filter)
    ensures forall r | r in rows && IsCtProject(r, filter) :: r in q
  {
    if rows == [] then []
    else
      var q := CtProjectRows(rows[..|rows| - 1], filter);
      var r := rows[|rows| - 1];
      if IsCtProject(r, filter) then q + [r] else q
  }

  function ProjIds(rows: seq<Row>): (ids: seq<string>)
    ensures |ids| == |rows|
    ensures forall i | 0 <= i < |rows| :: ids[i] == ProjIdOf(rows[i])
  {
    if rows == [] then [] else ProjIds(rows[..|rows| - 1]) + [ProjIdOf(rows[|rows| - 1])]
  }

  /** The loop of `get_ct_projects`: each qualifying row assigns
      `ct_projects[proj_id] = proj_name`. */
  function CollectCtProjects(rows: seq<Row>, filter: Scalar): (m: OrderedMap<string, string>)
    ensures Valid(m)
  {
    if rows == [] then Empty()
    else
      var r := rows[|rows| - 1];
      var m := CollectCtProjects(rows[..|rows| - 1], filter);
      if IsCtProject(r, filter) then Put(m, ProjIdOf(r), ProjNameOf(r)) else m
  }

  /** The projects found are the qualifying rows' ids in order of first
      appearance; when several qualifying rows share an id, the position is
      the first one's and the name the last one's (Python dict assignment). */
  predicate FoundFrom(m: OrderedMap<string, string>, q: seq<Row>) {
    && m.keys == Dedup(ProjIds(q))
    && forall p | p in m.values :: p in ProjIds(q) && m.values[p] == ProjNameOf(q[LastIndex(ProjIds(q), p)])
  }

  /** One more qualifying row: `ct_projects[proj_id] = proj_name`. */
  lemma FoundFromPut(m: OrderedMap<string, string>, q: seq<Row>, r: Row)
    requires Valid(m) && FoundFrom(m, q)
    ensures FoundFrom(Put(m, ProjIdOf(r), ProjNameOf(r)), q + [r])
  {
    var ids := ProjIds(q);
    var id := ProjIdOf(r);
    var q' := q + [r];
    var ids' := ids + [id];
    assert ProjIds(q') == ids' by {
      assert q'[..|q'| - 1] == q;
    }
    DedupSnoc(ids, id);
    assert id in m.values <==> id in ids;
    var m' := Put(m, id, ProjNameOf(r));
    forall p | p in m'.values
      ensures p in ids' && m'.values[p] == ProjNameOf(q'[LastIndex(ids', p)])
    {
      if p == id {
        assert LastIndex(ids', p) == |ids|;
      } else {
        assert ids'[..|ids|] == ids;
        assert LastIndex(ids', p) == LastIndex(ids, p);
        assert q'[LastIndex(ids, p)] == q[LastIndex(ids, p)];
      }
    }
  }

  lemma {:induction false} CollectCtProjectsSpec(rows: seq<Row>, filter: Scalar)
    ensures FoundFrom(CollectCtProjects(rows, filter), CtProjectRows(rows, filter))
  {
    if rows != [] {
      var pre := rows[..|rows| - 1];
      var r := rows[|rows| - 1];
      CollectCtProjectsSpec(pre, filter);
      if IsCtProject(r, filter) {
        FoundFromPut(CollectCtProjects(pre, filter), CtProjectRows(pre, filter), r);
      }
    }
  }

  /** `get_ct_projects`: the projects whose row carries the CT note, or the
      failure of the Costpoint call. */
  function GetCtProjects(reply: Reply<Document>, filter: Scalar): (r: Result<OrderedMap<string, string>>)
    ensures r.Err? <==> Decode(reply).Err?
    ensures r.Err? ==> r.fault == Decode(reply).fault
    ensures r.Ok? ==> Valid(r.value)
    ensures r.Ok? ==>
      var q := CtProjectRows(Decode(reply).value, filter);
      && r.value.keys == Dedup(ProjIds(q))
      && forall p | p in r.value.values :: p in ProjIds(q) && r.value.values[p] == ProjNameOf(q[LastIndex(ProjIds(q), p)])
  {
    match Decode(reply)
    case Err(f) => Err(f)
    case Ok(rows) =>
      CollectCtProjectsSpec(rows, filter);
      Ok(CollectCtProjects(rows, filter))
  }

  /** A project id is found exactly when some row of the response is a CT
      project with that id. */
  lemma CtProjectMembership(rows: seq<Row>, filter: Scalar, p: string)
    ensures p in CollectCtProjects(rows, filter).values <==>
      exists row | row in rows :: IsCtProject(row, filter) && ProjIdOf(row) == p
  {
    var q := CtProjectRows(rows, filter);
    var m := CollectCtProjects(rows, filter);
    var ids := ProjIds(q);
    assert p in m.values <==> p in ids by {
      CollectCtProjectsSpec(rows, filter);
      assert Elems(m.keys) == m.values.Keys;
    }
    if p in ids {
      var i :| 0 <= i < |q| && ids[i] == p;
      assert q[i] in rows && IsCtProject(q[i], filter) && ProjIdOf(q[i]) == p;
    }
    if exists row | row in rows :: IsCtProject(row, filter) && ProjIdOf(row) == p {
      var row :| row in rows && IsCtProject(row, filter) && ProjIdOf(row) == p;
      assert row in q;
      assert ids[FirstIndex(q, row)] == p;
    }
  }

  // ---------------------------------------------------------------------------
  // get_workforce
  // ---------------------------------------------------------------------------

  function EmplIdOf(d: Data): string {
    Field(d, EmplIdKey)
  }

  /** `r.get("DFLT_FL") == "Y"`. */
  predicate IsDefault(d: Data) {
    "DFLT_FL" in d && d["DFLT_FL"] == "Y"
  }

  /** A grandchild on the header → labor category → workforce path, with a
      non-empty employee id, whose data is `d`. */
  ghost predicate OnWorkforcePath(rows: seq<Row>, d: Data) {
    exists h, c, g | h in rows && c in h.children && g in c.children ::
      && HasRs(h, HeaderRs) && HasRs(c, LaborCategoryRs) && HasRs(g, WorkforceRs)
      && EmplIdOf(g.data) != "" && g.data == d
  }

  function WorkforceLeaves(gs: seq<Row>): (ds: seq<Data>)
    ensures forall d | d in ds :: EmplIdOf(d) != ""
    ensures forall d | d in ds :: exists g | g in gs :: HasRs(g, WorkforceRs) && EmplIdOf(g.data) != "" && g.data == d
    ensures forall g | g in gs && HasRs(g, WorkforceRs) && EmplIdOf(g.data) != "" :: g.data in ds
  {
    if gs == [] then []
    else
      var g := gs[|gs| - 1];
      WorkforceLeaves(gs[..|gs| - 1]) + (if HasRs(g, WorkforceRs) && EmplIdOf(g.data) != "" then [g.data] else [])
  }

  function LaborCategoryLeaves(cs: seq<Row>): (ds: seq<Data>)
    ensures forall d | d in ds :: EmplIdOf(d) != ""
    ensures forall d | d in ds :: exists c | c in cs :: HasRs(c, LaborCategoryRs) && d in WorkforceLeaves(c.children)
    ensures forall c | c in cs && HasRs(c, LaborCategoryRs) :: forall d | d in WorkforceLeaves(c.children) :: d in ds
  {
    if cs == [] then []
    else
      var c := cs[|cs| - 1];
      LaborCategoryLeaves(cs[..|cs| - 1]) + (if HasRs(c, LaborCategoryRs) then WorkforceLeaves(c.children) else [])
  }

  /** The data of every workforce grandchild with an employee id, in
      traversal order; rows off the header → labor category → workforce
      path are skipped. */
  function WorkforceRows(rows: seq<Row>): (ds: seq<Data>)
    ensures forall d | d in ds :: EmplIdOf(d) != ""
    ensures forall d | d in ds :: exists h | h in rows :: HasRs(h, HeaderRs) && d in LaborCategoryLeaves(h.children)
    ensures forall h | h in rows && HasRs(h, HeaderRs) :: forall d | d in LaborCategoryLeaves(h.children) :: d in ds
  {
    if rows == [] then []
    else
      var h := rows[|rows| - 1];
      WorkforceRows(rows[..|rows| - 1]) + (if HasRs(h, HeaderRs) then LaborCategoryLeaves(h.children) else [])
  }

  /** The rows kept are exactly the data of the grandchildren on the path
      that carry an employee id. */
  lemma WorkforceRowsSound(rows: seq<Row>, d: Data)
    requires d in WorkforceRows(rows)
    ensures OnWorkforcePath(rows, d)
  {
    var h :| h in rows && HasRs(h, HeaderRs) && d in LaborCategoryLeaves(h.children);
    var c :| c in h.children && HasRs(c, LaborCategoryRs) && d in WorkforceLeaves(c.children);
    var g :| g in c.children && HasRs(g, WorkforceRs) && EmplIdOf(g.data) != "" && g.data == d;
  }

  lemma WorkforceRowsComplete(rows: seq<Row>, d: Data)
    requires OnWorkforcePath(rows, d)
    ensures d in WorkforceRows(rows)
  {
    var h, c, g :| h in rows && c in h.children && g in c.children
      && HasRs(h, HeaderRs) && HasRs(c, LaborCategoryRs) && HasRs(g, WorkforceRs)
      && EmplIdOf(g.data) != "" && g.data == d;
    assert d in WorkforceLeaves(c.children);
    assert d in LaborCategoryLeaves(h.children);
  }

  /** The rows kept are exactly the data of the grandchildren on the path
      that carry an employee id. */
  lemma WorkforceRowsOnPath(rows: seq<Row>, d: Data)
    ensures d in WorkforceRows(rows) <==> OnWorkforcePath(rows, d)
  {
    if d in WorkforceRows(rows) {
      WorkforceRowsSound(rows, d);
    }
    if OnWorkforcePath(rows, d) {
      WorkforceRowsComplete(rows, d);
    }
  }

  function EmplIds(ds: seq<Data>): (ids: seq<string>)
    ensures |ids| == |ds|
    ensures forall i | 0 <= i < |ds| :: ids[i] == EmplIdOf(ds[i])
  {
    if ds == [] then [] else EmplIds(ds[..|ds| - 1]) + [EmplIdOf(ds[|ds| - 1])]
  }

  /** The rows of one employee, in order. */
  function RowsOf(ds: seq<Data>, e: string): (rs: seq<Data>)
    ensures forall d | d in rs :: d in ds && EmplIdOf(d) == e
    ensures rs == [] <==> e !in EmplIds(ds)
  {
    if ds == [] then []
    else
      var d := ds[|ds| - 1];
      RowsOf(ds[..|ds| - 1], e) + (if EmplIdOf(d) == e then [d] else [])
  }

  /** The `empl_rows` dict: rows grouped by employee, employees in order of
      first appearance. */
  function GroupByEmployee(ds: seq<Data>): (m: OrderedMap<string, seq<Data>>)
    ensures Valid(m)
    ensures m.keys == Dedup(EmplIds(ds))
    ensures forall e | e in m.values :: m.values[e] == RowsOf(ds, e)
  {
    if ds == [] then Empty()
    else
      var pre := ds[..|ds| - 1];
      var d := ds[|ds| - 1];
      var g := GroupByEmployee(pre);
      var e := EmplIdOf(d);
      assert EmplIds(ds) == EmplIds(pre) + [e];
      PutKeysDedup(g, EmplIds(pre), e, (if e in g.values then g.values[e] else []) + [d]);
      assert forall x | x in AddToGroup(g, d).values :: AddToGroup(g, d).values[x] == RowsOf(ds, x) by {
        forall x | x in AddToGroup(g, d).values
          ensures AddToGroup(g, d).values[x] == RowsOf(ds, x)
        {
          GroupSnocRows(g, ds, x);
        }
      }
      AddToGroup(g, d)
  }

  /** `empl_rows.setdefault(e, []).append(d)` for the row's employee `e`. */
  function AddToGroup(g: OrderedMap<string, seq<Data>>, d: Data): (m: OrderedMap<string, seq<Data>>)
    requires Valid(g)
    ensures Valid(m)
    ensures m.keys == if EmplIdOf(d) in g.values then g.keys else g.keys + [EmplIdOf(d)]
    ensures forall x | x in m.values :: x in g.values || x == EmplIdOf(d)
  {
    var e := EmplIdOf(d);
    Put(g, e, (if e in g.values then g.values[e] else []) + [d])
  }

  /** Adding the last row gives each employee exactly their rows. */
  lemma GroupSnocRows(g: OrderedMap<string, seq<Data>>, ds: seq<Data>, x: string)
    requires ds != []
    requires Valid(g) && g.keys == Dedup(EmplIds(ds[..|ds| - 1]))
    requires forall e | e in g.values :: g.values[e] == RowsOf(ds[..|ds| - 1], e)
    requires x in AddToGroup(g, ds[|ds| - 1]).values
    ensures AddToGroup(g, ds[|ds| - 1]).values[x] == RowsOf(ds, x)
  {
    var pre := ds[..|ds| - 1];
    var d := ds[|ds| - 1];
    var e := EmplIdOf(d);
    var m := AddToGroup(g, d);
    if x != e {
      assert RowsOf(ds, x) == RowsOf(pre, x) + [];
      assert m.values[x] == g.values[x];
    } else if e in g.values {
      assert RowsOf(ds, x) == RowsOf(pre, x) + [d];
      assert m.values[x] == g.values[x] + [d];
    } else {
      assert RowsOf(ds, x) == RowsOf(pre, x) + [d];
      assert e !in EmplIds(pre) by {
        assert Elems(g.keys) == g.values.Keys;
      }
      assert m.values[x] == [] + [d];
    }
  }

  /** `next((r for r in rows if r.get("DFLT_FL") == "Y"), None)`. */
  function FirstDefault(rs: seq<Data>): (r: Option<Data>)
  {
    if rs == [] then None
    else match FirstDefault(rs[..|rs| - 1])
      case Some(d) => Some(d)
      case None => if IsDefault(rs[|rs| - 1]) then Some(rs[|rs| - 1]) else None
  }

  /** The position, in the flat workforce rows, of employee `e`'s first row
      flagged as default. */
  function FirstDefaultIndex(ds: seq<Data>, e: string): (k: Option<nat>)
    ensures k.Some? ==> k.value < |ds| && EmplIdOf(ds[k.value]) == e && IsDefault(ds[k.value])
    ensures k.Some? ==> forall j | 0 <= j < k.value :: !(EmplIdOf(ds[j]) == e && IsDefault(ds[j]))
    ensures k.None? ==> forall j | 0 <= j < |ds| :: !(EmplIdOf(ds[j]) == e && IsDefault(ds[j]))
  {
    if ds == [] then None
    else match FirstDefaultIndex(ds[..|ds| - 1], e)
      case Some(i) => Some(i)
      case None =>
        var d := ds[|ds| - 1];
        if EmplIdOf(d) == e && IsDefault(d) then Some(|ds| - 1) else None
  }

  /** Picking the first default row of an employee's group is picking their
      first default row in the flat list. */
  lemma {:induction false} FirstDefaultOfGroup(ds: seq<Data>, e: string)
    ensures FirstDefaultIndex(ds, e).None? ==> FirstDefault(RowsOf(ds, e)).None?
    ensures FirstDefaultIndex(ds, e).Some? ==> FirstDefault(RowsOf(ds, e)) == Some(ds[FirstDefaultIndex(ds, e).value])
  {
    if ds != [] {
      var pre := ds[..|ds| - 1];
      var d := ds[|ds| - 1];
      FirstDefaultOfGroup(pre, e);
      var rs := RowsOf(pre, e);
      var k := FirstDefaultIndex(pre, e);
      if k.Some? {
        assert FirstDefaultIndex(ds, e) == k;
        assert ds[k.value] == pre[k.value];
      }
      if EmplIdOf(d) == e {
        assert RowsOf(ds, e) == rs + [d];
        assert (rs + [d])[..|rs|] == rs;
        assert FirstDefault(rs + [d]) == if FirstDefault(rs).Some? then FirstDefault(rs) else if IsDefault(d) then Some(d) else None;
      } else {
        assert RowsOf(ds, e) == rs;
      }
    }
  }

  /** The employees, in the given order, that have a row flagged as default. */
  function WithDefault(ids: seq<string>, ds: seq<Data>): (r: seq<string>)
    ensures IsSubsequence(r, ids)
    ensures forall e | e in r :: e in ids && FirstDefaultIndex(ds, e).Some?
    ensures forall e | e in ids && FirstDefaultIndex(ds, e).Some? :: e in r
  {
    if ids == [] then []
    else
      var e := ids[|ids| - 1];
      var w := WithDefault(ids[..|ids| - 1], ds);
      assert ids[..|ids| - 1] + [e] == ids;
      if FirstDefaultIndex(ds, e).Some? then
        SubsequenceSnoc(w, ids[..|ids| - 1], e);
        w + [e]
      else
        assert w != [] ==> w[|w| - 1] in w;
        SubsequenceExtend(w, ids[..|ids| - 1], e);
        w
  }

  /** The employees, in the given order, whose first default row lacks the
      labor category field. */
  predicate LacksLaborCategory(ds: seq<Data>, e: string) {
    var k := FirstDefaultIndex(ds, e);
    k.Some? && LaborCatKey !in ds[k.value]
  }

  /** The record built for an employee from their first default row. */
  predicate IsRecordFor(rec: WorkforceRecord, ds: seq<Data>, projId: string, projName: string) {
    var k := FirstDefaultIndex(ds, rec.emplId);
    && rec.projId == projId && rec.projName == projName
    && k.Some? && LaborCatKey in ds[k.value] && rec.billLabCatCd == ds[k.value][LaborCatKey]
  }

  /** The `records` loop of `get_workforce`. */
  function SelectDefaults(projId: string, projName: string, ids: seq<string>, groups: map<string, seq<Data>>): Result<seq<WorkforceRecord>>
    requires forall e | e in ids :: e in groups
  {
    if ids == [] then Ok([])
    else match SelectDefaults(projId, projName, ids[..|ids| - 1], groups)
      case Err(f) => Err(f)
      case Ok(recs) =>
        var e := ids[|ids| - 1];
        match FirstDefault(groups[e])
        case None => Ok(recs)
        case Some(d) =>
          if LaborCatKey in d then Ok(recs + [WorkforceRecord(e, projId, projName, d[LaborCatKey])])
          else Err(MissingField(LaborCatKey))
  }

  /** The group `groups[e]` yields, as its first default row, employee
      `e`'s first default row in the flat list. */
  predicate PicksFirstDefault(groups: map<string, seq<Data>>, ds: seq<Data>, e: string) {
    && e in groups
    && var k := FirstDefaultIndex(ds, e);
      if k.Some? then FirstDefault(groups[e]) == Some(ds[k.value]) else FirstDefault(groups[e]).None?
  }

  /** What holds of every selected employee holds of every employee but the
      last. */
  lemma PicksPrefix(groups: map<string, seq<Data>>, ds: seq<Data>, ids: seq<string>)
    requires ids != []
    requires forall e | e in ids :: e in groups
    requires forall e | e in ids :: PicksFirstDefault(groups, ds, e)
    ensures forall e | e in ids[..|ids| - 1] :: e in groups && PicksFirstDefault(groups, ds, e)
  {
    assert forall e | e in ids[..|ids| - 1] :: e in ids;
  }

  /** Selection fails exactly when some employee's first default row lacks
      the labor category, and the failure is then that missing field. */
  lemma {:induction false} SelectDefaultsFails(projId: string, projName: string, ids: seq<string>, ds: seq<Data>, groups: map<string, seq<Data>>)
    requires forall e | e in ids :: e in groups
    requires forall e | e in ids :: PicksFirstDefault(groups, ds, e)
    ensures var r := SelectDefaults(projId, projName, ids, groups);
      && (r.Err? <==> exists e | e in ids :: LacksLaborCategory(ds, e))
      && (r.Err? ==> r.fault == MissingField(LaborCatKey))
  {
    if ids != [] {
      var pre := ids[..|ids| - 1];
      var e := ids[|ids| - 1];
      assert ids == pre + [e];
      assert forall x | x in pre :: x in ids;
      SelectDefaultsFails(projId, projName, pre, ds, groups);
      if SelectDefaults(projId, projName, pre, groups).Ok? {
        assert forall x | x in pre :: !LacksLaborCategory(ds, x);
        assert PicksFirstDefault(groups, ds, e);
        if LacksLaborCategory(ds, e) {
          assert SelectDefaults(projId, projName, ids, groups) == Err(MissingField(LaborCatKey));
        } else {
          assert SelectDefaults(projId, projName, ids, groups).Ok?;
        }
      }
    }
  }

  /** A successful selection yields one record per employee with a default
      row, in the given order, each built from that row. */
  lemma {:induction false} SelectDefaultsRecords(projId: string, projName: string, ids: seq<string>, ds: seq<Data>, groups: map<string, seq<Data>>)
    requires forall e | e in ids :: e in groups
    requires forall e | e in ids :: PicksFirstDefault(groups, ds, e)
    requires SelectDefaults(projId, projName, ids, groups).Ok?
    ensures var recs := SelectDefaults(projId, projName, ids, groups).value;
      && RecordIds(recs) == WithDefault(ids, ds)
      && forall i | 0 <= i < |recs| :: IsRecordFor(recs[i], ds, projId, projName)
  {
    if ids != [] {
      var pre := ids[..|ids| - 1];
      var e := ids[|ids| - 1];
      PicksPrefix(groups, ds, ids);
      SelectDefaultsRecords(projId, projName, pre, ds, groups);
      var recs := SelectDefaults(projId, projName, pre, groups).value;
      var k := FirstDefaultIndex(ds, e);
      assert PicksFirstDefault(groups, ds, e);
      if k.None? {
        assert SelectDefaults(projId, projName, ids, groups) == Ok(recs);
        assert WithDefault(ids, ds) == WithDefault(pre, ds);
      } else {
        var rec := WorkforceRecord(e, projId, projName, ds[k.value][LaborCatKey]);
        assert SelectDefaults(projId, projName, ids, groups) == Ok(recs + [rec]);
        assert RecordIds(recs + [rec]) == RecordIds(recs) + [e];
        assert WithDefault(ids, ds) == WithDefault(pre, ds) + [e];
        forall i | 0 <= i < |recs + [rec]|
          ensures IsRecordFor((recs + [rec])[i], ds, projId, projName)
        {
          if i < |recs| {
            assert (recs + [rec])[i] == recs[i];
          } else {
            assert (recs + [rec])[i] == rec;
          }
        }
      }
    }
  }

  /** The records chosen from the flat workforce rows: rows grouped by
      employee, then each group's first default row. */
  function WorkforceRecords(projId: string, projName: string, ds: seq<Data>): (r: Result<seq<WorkforceRecord>>)
    ensures r.Err? <==> exists e | e in EmplIds(ds) :: LacksLaborCategory(ds, e)
    ensures r.Err? ==> r.fault == MissingField(LaborCatKey)
    ensures r.Ok? ==> RecordIds(r.value) == WithDefault(Dedup(EmplIds(ds)), ds)
    ensures r.Ok? ==> Distinct(RecordIds(r.value))
    ensures r.Ok? ==> forall i | 0 <= i < |r.value| :: IsRecordFor(r.value[i], ds, projId, projName)
  {
    var g := GroupByEmployee(ds);
    assert forall e | e in g.keys :: e in g.values by {
      assert Elems(g.keys) == g.values.Keys;
    }
    assert forall e | e in g.keys :: PicksFirstDefault(g.values, ds, e) by {
      forall e | e in g.keys
        ensures PicksFirstDefault(g.values, ds, e)
      {
        FirstDefaultOfGroup(ds, e);
      }
    }
    SelectDefaultsFails(projId, projName, g.keys, ds, g.values);
    var r := SelectDefaults(projId, projName, g.keys, g.values);
    assert r.Err? <==> exists e | e in EmplIds(ds) :: LacksLaborCategory(ds, e) by {
      if r.Err? {
        var e :| e in g.keys && LacksLaborCategory(ds, e);
        assert e in EmplIds(ds);
      }
      if exists e | e in EmplIds(ds) :: LacksLaborCategory(ds, e) {
        var e :| e in EmplIds(ds) && LacksLaborCategory(ds, e);
        assert e in g.keys;
      }
    }
    if r.Ok? then
      SelectDefaultsRecords(projId, projName, g.keys, ds, g.values);
      SubsequenceDistinct(RecordIds(r.value), g.keys);
      r
    else
      r
  }

  /** `get_workforce`: one record per employee of the project that has a row
      flagged as default, in order of first appearance, or the failure of the
      call (an HTTP error is not caught here), or the KeyError raised when a
      chosen row lacks the labor category. */
  function GetWorkforce(projId: string, projName: string, reply: Reply<Document>): (r: Result<seq<WorkforceRecord>>)
    ensures Decode(reply).Err? ==> r == Err(Decode(reply).fault)
    ensures Decode(reply).Ok? ==> r == WorkforceRecords(projId, projName, WorkforceRows(Decode(reply).value))
  {
    match Decode(reply)
    case Err(f) => Err(f)
    case Ok(rows) => WorkforceRecords(projId, projName, WorkforceRows(rows))
  }

  // ---------------------------------------------------------------------------
  // get_employee
  // ---------------------------------------------------------------------------

  const StatusKey: string := "S_EMPL_STATUS_CD"
  const ActiveStatus: string := "ACT"

  /** The EmployeeRecord built from the first row's data. */
  function EmployeeFromRow(emplId: string, d: Data): (e: EmployeeRecord)
    ensures e.emplId == emplId
    ensures e.isActive <==> StatusKey in d && d[StatusKey] == ActiveStatus
    ensures e.firstName == (if "FIRST_NAME" in d then d["FIRST_NAME"] else "")
    ensures e.lastName == (if "LAST_NAME" in d then d["LAST_NAME"] else "")
    ensures e.homeEmailId == (if "HOME_EMAIL_ID" in d then d["HOME_EMAIL_ID"] else "")
    ensures e.origHireDt == (if "ORIG_HIRE_DT" in d then d["ORIG_HIRE_DT"] else "")
    ensures e.birthDt == (if "BIRTH_DT" in d then d["BIRTH_DT"] else "")
  {
    EmployeeRecord(
      emplId := emplId,
      firstName := Field(d, "FIRST_NAME"),
      lastName := Field(d, "LAST_NAME"),
      homeEmailId := Field(d, "HOME_EMAIL_ID"),
      origHireDt := Field(d, "ORIG_HIRE_DT"),
      birthDt := Field(d, "BIRTH_DT"),
      isActive := Field(d, StatusKey) == ActiveStatus)
  }

  /** `get_employee`: `None` on an HTTP error status or an empty row list;
      otherwise the record read from the first row only. Timeouts and
      undecodable bodies are not caught. */
  function GetEmployee(emplId: string, reply: Reply<Document>): (r: Result<Option<EmployeeRecord>>)
    ensures reply.TimedOut? ==> r == Err(Timeout)
    ensures reply.Response? && !IsSuccess(reply.status) ==> r == Ok(None)
    ensures reply.Response? && IsSuccess(reply.status) && reply.body.Unparsable? ==> r == Err(InvalidJson)
    ensures reply.Response? && IsSuccess(reply.status) && reply.body.Parsed? ==>
      var rows := reply.body.value;
      && (rows == [] ==> r == Ok(None))
      && (rows != [] ==> r == Ok(Some(EmployeeFromRow(emplId, rows[0].data))))
    ensures r.Ok? && r.value.Some? ==> r.value.value.emplId == emplId
  {
    match reply
    case TimedOut => Err(Timeout)
    case Response(status, body) =>
      if !IsSuccess(status) then Ok(None)
      else match body
        case Unparsable(_) => Err(InvalidJson)
        case Parsed(rows) =>
          if rows == [] then Ok(None) else Ok(Some(EmployeeFromRow(emplId, rows[0].data)))
  }
}

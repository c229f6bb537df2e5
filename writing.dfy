/**
 * Naming and writing one element's table in `aggregate_scenarios_to_csv`:
 * the schema's index names with 'scenario' in front, the column renamed to
 * the element, the header-only tables of void elements, and the `iindex`
 * flag that decides whether the index is written.
 */
module Writing {
  import opened Wrappers
  import opened Frames
  import opened Elements

  /** The schema `indexname`: element name to the names of its index levels. */
  type Names = map<Label, seq<Label>>

  /**
   * A written `<elem>.csv`: the header cells before the body's columns (the
   * index names when the index is written, the inserted columns otherwise),
   * the body, and whether the index is written (`index=iindex`).
   */
  datatype Sheet = Sheet(header: seq<Label>, body: Frame, withIndex: bool)

  /** The name given to the new first index level, the scenario. */
  const ScenarioColumn: Label := "scenario"

  /** Unnamed index levels. */
  function Blanks(n: nat): (r: seq<Label>)
    ensures |r| == n && forall i :: 0 <= i < n ==> r[i] == ""
  {
    seq(n, _ => "")
  }

  /** The header-only file `pd.DataFrame(columns=['scenario'] + declared + [elem])`, written without index. */
  function Placeholder(elem: Label, declared: seq<Label>): (s: Sheet)
    ensures s.header == [ScenarioColumn] + declared + [elem] && !s.withIndex
    ensures s.body.rows == {} && s.body.values == map[]
  {
    Sheet([ScenarioColumn] + declared + [elem], EmptyTable, false)
  }

  /**
   * How far a run has got: the files written so far (element to sheet), the
   * schema's lists as they now are (`None` for `indexname=0`), the `iindex`
   * flag left by the last element that set it, and the exception, if one
   * ended the run.
   */
  datatype State = State(files: map<Label, Sheet>, names: Option<Names>, iindex: Option<bool>, failure: Option<Failure>)

  /** `pdata.insert(k, header[k], 0)` for every k succeeds: the names are new and pairwise different. */
  predicate Insertable(header: seq<Label>, columns: set<Label>) {
    Distinct(header) && forall i :: 0 <= i < |header| ==> header[i] !in columns
  }

  /** Writing `pdata` with the index flag an earlier element left, or failing when none did. */
  function WriteCarried(s: State, elem: Label, pdata: Frame): (r: State)
    requires s.failure.None?
    ensures r.names == s.names
    ensures r.failure.Some? <==> s.iindex.None?
    ensures r.failure.Some? ==> r.failure == Some(UnboundIndexFlag) && r.files == s.files
    ensures r.failure.None? ==> elem in r.files && r.files == s.files[elem := r.files[elem]] && r.files[elem].body == pdata && r.files[elem].withIndex == s.iindex.value
  {
    match s.iindex
    case None => s.(failure := Some(UnboundIndexFlag))
    case Some(b) => s.(files := s.files[elem := Sheet(if b then Blanks(pdata.levels) else [], pdata, b)])
  }

  /**
   * Naming and writing `pdata`, the three cases of the source:
   *   a table with cells: with a schema, 'scenario' goes in front of the
   *     element's list, which names the index levels, and the single column
   *     becomes the element's name; the index is written;
   *   an empty nested table: with a schema, 'scenario' goes in front of the
   *     list and each name becomes a new leading column; written without index;
   *   an empty tuple table of a declared element: 'scenario' goes in front of
   *     the list and a header-only table with the element as last column is
   *     written without index.
   * Any other empty table is written as it is, with the index flag of an
   * earlier element.
   */
  function Export(st: Settings, elem: Label, pdata: Frame, s: State): State
    requires s.failure.None?
  {
    if !IsEmpty(pdata) then
      match s.names
      case None => s.(files := s.files[elem := Sheet(Blanks(pdata.levels), pdata, true)], iindex := Some(true))
      case Some(nm) =>
        if elem !in nm then s.(failure := Some(MissingSchemaEntry))
        else
          var header := [ScenarioColumn] + nm[elem];
          var named := s.(names := Some(nm[elem := header]));
          if |header| != pdata.levels then named.(failure := Some(LevelNamesMismatch))
          else if st.renameCol && |pdata.columns| != 1 then named.(failure := Some(ColumnNamesMismatch))
          else
            var body := if st.renameCol then RenameColumn(pdata, elem) else pdata;
            named.(files := s.files[elem := Sheet(header, body, true)], iindex := Some(true))
    else if st.keyType == NestedKeys then
      match s.names
      case None => WriteCarried(s, elem, pdata)
      case Some(nm) =>
        if elem !in nm then s.(failure := Some(MissingSchemaEntry))
        else
          var header := [ScenarioColumn] + nm[elem];
          var named := s.(names := Some(nm[elem := header]));
          if !Insertable(header, pdata.columns) then named.(failure := Some(DuplicateColumn))
          else named.(files := s.files[elem := Sheet(header, pdata, false)], iindex := Some(false))
    else
      match s.names
      case None => s.(failure := Some(NoSchemaMap))
      case Some(nm) =>
        if elem in nm then
          s.(files := s.files[elem := Placeholder(elem, nm[elem])], names := Some(nm[elem := [ScenarioColumn] + nm[elem]]),
             iindex := Some(false))
        else WriteCarried(s, elem, pdata)
  }

  /** Writing one element touches only that element's file and that element's list. */
  lemma ExportTouchesOnlyElement(st: Settings, elem: Label, pdata: Frame, s: State, r: State)
    requires s.failure.None? && r == Export(st, elem, pdata, s)
    // only this element's file and this element's list change
    ensures r.failure.None? ==> elem in r.files && r.files == s.files[elem := r.files[elem]]
    ensures r.failure.Some? ==> r.files == s.files
    ensures r.names.Some? <==> s.names.Some?
    ensures s.names.Some? ==> r.names.value.Keys == s.names.value.Keys
    ensures s.names.Some? ==> forall k :: k in s.names.value && k != elem ==> r.names.value[k] == s.names.value[k]
    ensures s.names.Some? && elem !in s.names.value ==> r.names == s.names
    // with a schema, a declared element gets 'scenario' in front of its list, once
    ensures s.names.Some? && elem in s.names.value ==>
              r.names.value[elem] == [ScenarioColumn] + s.names.value[elem]
  {
  }

  /** What is written for each kind of table, and which exception is raised when. */
  lemma ExportCases(st: Settings, elem: Label, pdata: Frame, s: State, r: State)
    requires s.failure.None? && r == Export(st, elem, pdata, s)
    // a table with cells, named by the schema
    ensures !IsEmpty(pdata) && s.names.Some? ==>
              (r.failure.None? <==>
                 elem in s.names.value && 1 + |s.names.value[elem]| == pdata.levels && (st.renameCol ==> |pdata.columns| == 1))
    ensures !IsEmpty(pdata) && s.names.Some? && r.failure.None? ==>
              && r.files[elem].header == [ScenarioColumn] + s.names.value[elem]
              && r.files[elem].withIndex && r.iindex == Some(true)
              && r.files[elem].body.rows == pdata.rows
              && (st.renameCol ==>
                    && r.files[elem].body.columns == {elem}
                    && forall x :: x in pdata.rows ==> Get(r.files[elem].body, (x, elem)) == Get(pdata, (x, OnlyColumn(pdata))))
              && (!st.renameCol ==> r.files[elem].body == pdata)
    ensures !IsEmpty(pdata) && s.names.None? ==>
              r.failure.None? && r.files[elem] == Sheet(Blanks(pdata.levels), pdata, true) &&
              r.iindex == Some(true)
    // an empty nested table
    ensures IsEmpty(pdata) && st.keyType == NestedKeys && s.names.Some? ==>
              (r.failure.None? <==> elem in s.names.value && Insertable([ScenarioColumn] + s.names.value[elem], pdata.columns))
    ensures IsEmpty(pdata) && st.keyType == NestedKeys && s.names.Some? && r.failure.None? ==>
              r.files[elem] == Sheet([ScenarioColumn] + s.names.value[elem], pdata, false) && r.iindex == Some(false)
    // an empty tuple table
    ensures IsEmpty(pdata) && st.keyType == TupleKeys ==> (s.names.None? <==> r.failure == Some(NoSchemaMap))
    ensures IsEmpty(pdata) && st.keyType == TupleKeys && s.names.Some? && elem in s.names.value ==>
              r.failure.None? && r.files[elem] == Placeholder(elem, s.names.value[elem]) &&
              r.iindex == Some(false)
    // every other empty table keeps the earlier flag
    ensures IsEmpty(pdata) && (if st.keyType == NestedKeys then s.names.None? else s.names.Some? && elem !in s.names.value) ==>
              r == WriteCarried(s, elem, pdata)
  {
  }
}

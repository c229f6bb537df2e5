/**
 * One element's table in `aggregate_scenarios_to_csv`: the scenarios that
 * hold the element, their tables (each minus its reference scenario's table
 * when a reference map is given), the tables of the most common arity, and
 * their concatenation keyed by scenario.
 */
module Elements {
  import opened Wrappers
  import opened Frames
  import opened Builder
  import opened Arity

  /** How `vardic[scen][elem]` is read: `keytype='tuple'` or `keytype='nested'`. */
  datatype KeyType = TupleKeys | NestedKeys

  /** One scenario's result for one element, in one of its two encodings. */
  datatype Raw = TupleKeyed(cells: TupleData) | NestedDict(tree: NestedData)

  /** One scenario's results: element name to result. */
  type Bundle = map<Label, Raw>

  /** `vardic`: scenario id to its results. */
  type Store = map<Label, Bundle>

  /** `keytype`, `refscen` (`None` for `refscen=0`) and `renamecol == 1`. */
  datatype Settings = Settings(keyType: KeyType, refscen: Option<map<Label, Label>>, renameCol: bool)

  /** The exceptions a run can end with. */
  datatype Failure =
    | NoFrames             // max() of no arities: no scenario holds the element
    | MissingSchemaEntry   // indexname[elem] for an element the schema does not declare
    | LevelNamesMismatch   // index.names set to a list of the wrong length
    | ColumnNamesMismatch  // columns=[elem] on a table that has another number of columns
    | DuplicateColumn      // insert() of a column name the table already has
    | NoSchemaMap          // indexname.keys() when indexname is 0
    | UnboundIndexFlag     // iindex read before any element assigned it
    | IndexJoin            // subtract() of two tables whose indexes have different numbers of levels

  // ------------------------------------------------------------------
  // Which scenarios, which tables
  // ------------------------------------------------------------------

  /** A result is read with the key type it is written in; tuple keys all have one length. */
  predicate Encoded(kt: KeyType, r: Raw) {
    match r
    case TupleKeyed(d) => kt == TupleKeys && UniformKeys(d)
    case NestedDict(_) => kt == NestedKeys
  }

  predicate WellEncoded(kt: KeyType, store: Store) {
    forall s, e :: s in store && e in store[s] ==> Encoded(kt, store[s][e])
  }

  /** A scenario holds the element: it has the key (tuple), and its nested result is not `{}` (nested). */
  predicate Holds(kt: KeyType, b: Bundle, elem: Label) {
    elem in b && (kt == NestedKeys ==> b[elem].NestedDict? && b[elem].tree != map[])
  }

  /** `refscen[scen]` exists, is a scenario of `vardic`, and has a non-void result for the element. */
  predicate ReferenceReady(st: Settings, store: Store, s: Label, elem: Label)
    requires st.refscen.Some?
  {
    var refs := st.refscen.value;
    && s in refs && refs[s] in store && elem in store[refs[s]]
    && (st.keyType == NestedKeys ==> store[refs[s]][elem].NestedDict? && store[refs[s]][elem].tree != map[])
  }

  /**
   * What the code needs for `elem` to be processed without a KeyError: every
   * scenario is in `vardic`; with nested keys every scenario has the key
   * (its value is read to test it against `{}`); with a reference map every
   * scenario holding the element has a reference that holds it too.
   */
  predicate Ready(st: Settings, scenarios: seq<Label>, store: Store, elem: Label) {
    && (forall s :: s in scenarios ==> s in store)
    && (st.keyType == NestedKeys ==> forall s :: s in scenarios ==> elem in store[s])
    && (st.refscen.Some? ==>
          forall s :: s in scenarios && Holds(st.keyType, store[s], elem) ==> ReferenceReady(st, store, s, elem))
  }

  /** `scenpresent`: the scenarios holding the element, in their order. */
  function Present(kt: KeyType, scenarios: seq<Label>, store: Store, elem: Label): (r: seq<Label>)
    requires forall s :: s in scenarios ==> s in store
    ensures forall s :: s in r <==> s in scenarios && Holds(kt, store[s], elem)
    ensures |r| <= |scenarios|
    ensures Distinct(scenarios) ==> Distinct(r)
    ensures SubsequenceOf(r, scenarios)
  {
    if scenarios == [] then SubsequenceEmpty(scenarios); []
    else
      var n := |scenarios| - 1;
      var s := scenarios[n];
      assert forall x :: x in scenarios <==> x in scenarios[..n] || x == s by {
        assert scenarios == scenarios[..n] + [s];
      }
      assert Distinct(scenarios) ==> Distinct(scenarios[..n]) by {
        if Distinct(scenarios) {
          DistinctPrefix(scenarios, n);
        }
      }
      var r := Present(kt, scenarios[..n], store, elem);
      SubsequenceExtend(r, scenarios);
      r + (if Holds(kt, store[s], elem) then [s] else [])
  }

  /**
   * A scenario listed several times is present as often as it is listed,
   * when it holds the element, and not at all otherwise.
   */
  lemma {:induction false} PresentCounts(kt: KeyType, scenarios: seq<Label>, store: Store, elem: Label, x: Label)
    requires forall s :: s in scenarios ==> s in store
    ensures multiset(Present(kt, scenarios, store, elem))[x] ==
            if x in scenarios && Holds(kt, store[x], elem) then multiset(scenarios)[x] else 0
  {
    if scenarios != [] {
      var n := |scenarios| - 1;
      var s := scenarios[n];
      var prefix := scenarios[..n];
      assert scenarios == prefix + [s];
      assert forall y :: y in scenarios <==> y in prefix || y == s;
      PresentCounts(kt, prefix, store, elem, x);
      var tail := if Holds(kt, store[s], elem) then [s] else [];
      assert Present(kt, scenarios, store, elem) == Present(kt, prefix, store, elem) + tail;
      assert multiset(scenarios) == multiset(prefix) + multiset{s};
      assert multiset(Present(kt, scenarios, store, elem)) == multiset(Present(kt, prefix, store, elem)) + multiset(tail);
    }
  }

  /** The table of one result: `pd.Series(d)` for tuple keys, `dict_to_pd(d)` for nested ones. */
  function Build(r: Raw): (f: Frame)
    requires r.TupleKeyed? ==> UniformKeys(r.cells)
    requires r.NestedDict? ==> r.tree != map[]
    ensures WellFormed(f)
  {
    match r
    case TupleKeyed(d) => SeriesOf(d)
    case NestedDict(t) => DictToFrameShape(t); DictToFrame(t).value
  }

  /** Scenario `s` holds the element and, with a reference map, so does its reference. */
  predicate Fetchable(st: Settings, store: Store, s: Label, elem: Label) {
    s in store && Holds(st.keyType, store[s], elem) && (st.refscen.Some? ==> ReferenceReady(st, store, s, elem))
  }

  /**
   * Without a reference map there is nothing to subtract; with one, the
   * scenario's table and its reference's have the same number of index
   * levels, which `subtract` needs to join their indexes.
   */
  predicate Aligned(st: Settings, store: Store, s: Label, elem: Label)
    requires WellEncoded(st.keyType, store) && Fetchable(st, store, s, elem)
  {
    match st.refscen
    case None => true
    case Some(refs) => Build(store[s][elem]).levels == Build(store[refs[s]][elem]).levels
  }

  /** Some present scenario's table cannot be subtracted from: the `frames` comprehension raises. */
  predicate Misaligned(st: Settings, scenarios: seq<Label>, store: Store, elem: Label)
    requires WellEncoded(st.keyType, store) && Ready(st, scenarios, store, elem)
  {
    var present := Present(st.keyType, scenarios, store, elem);
    assert forall s :: s in present ==> Fetchable(st, store, s, elem);
    exists s :: s in present && !Aligned(st, store, s, elem)
  }

  /** Scenario `s`'s table for the element, minus its reference's table when a reference map is given. */
  function FrameFor(st: Settings, store: Store, s: Label, elem: Label): (f: Frame)
    requires WellEncoded(st.keyType, store) && Fetchable(st, store, s, elem) && Aligned(st, store, s, elem)
    ensures WellFormed(f) && f.levels == Build(store[s][elem]).levels
  {
    var own := Build(store[s][elem]);
    match st.refscen
    case None => own
    case Some(refs) =>
      var ref := Build(store[refs[s]][elem]);
      DiffWellFormed(own, ref);
      Diff(own, ref)
  }

  /** `frames`: one table per present scenario, in the same order. */
  function FramesFor(st: Settings, store: Store, present: seq<Label>, elem: Label): (fs: seq<Frame>)
    requires WellEncoded(st.keyType, store)
    requires forall s :: s in present ==> Fetchable(st, store, s, elem) && Aligned(st, store, s, elem)
    ensures |fs| == |present|
    ensures forall k :: 0 <= k < |present| ==> fs[k] == FrameFor(st, store, present[k], elem)
  {
    seq(|present|, k requires 0 <= k < |present| => assert present[k] in present; FrameFor(st, store, present[k], elem))
  }

  /** `nlevels`: the index arity of every table. */
  function LevelsOf(fs: seq<Frame>): (ns: seq<nat>)
    ensures |ns| == |fs| && forall k :: 0 <= k < |fs| ==> ns[k] == fs[k].levels
  {
    seq(|fs|, k requires 0 <= k < |fs| => fs[k].levels)
  }

  /** The key of a scenario's block: its id, or `scen + '_' + refscen[scen]` with a reference map. */
  function Tag(st: Settings, s: Label): Label
    requires st.refscen.Some? ==> s in st.refscen.value
  {
    match st.refscen
    case None => s
    case Some(refs) => s + "_" + refs[s]
  }

  function Tags(st: Settings, ss: seq<Label>): (ts: seq<Label>)
    requires st.refscen.Some? ==> forall s :: s in ss ==> s in st.refscen.value
    ensures |ts| == |ss| && forall k :: 0 <= k < |ss| ==> ts[k] == Tag(st, ss[k])
  {
    seq(|ss|, k requires 0 <= k < |ss| => assert ss[k] in ss; Tag(st, ss[k]))
  }

  /**
   * The frames of the most common arity, each concatenated with its tag as
   * the new first index level (`framestokeep`, `scentokeep`, `pd.concat`).
   * No frame at all is the `max()` of an empty set.
   */
  function Combine(fs: seq<Frame>, tags: seq<Label>): (r: Result<Frame, Failure>)
    requires |fs| == |tags|
    ensures r.Err? <==> fs == []
    ensures r.Err? ==> r.error == NoFrames
  {
    var ns := LevelsOf(fs);
    match ModalArity(ns)
    case None => Err(NoFrames)
    case Some(m) => Ok(Concat(Keep(fs, ns, m), Keep(tags, ns, m)))
  }

  /**
   * `pdata` for one element: the present scenarios' tables, combined under
   * their tags. A table whose index cannot be joined with its reference's
   * stops the `frames` comprehension before `max()` is reached.
   */
  function Assemble(st: Settings, scenarios: seq<Label>, store: Store, elem: Label): (r: Result<Frame, Failure>)
    requires WellEncoded(st.keyType, store) && Ready(st, scenarios, store, elem)
    ensures r.Err? <==> Present(st.keyType, scenarios, store, elem) == [] || Misaligned(st, scenarios, store, elem)
    ensures r.Err? ==> (r.error == IndexJoin <==> Misaligned(st, scenarios, store, elem))
    ensures r.Err? ==> r.error == NoFrames || r.error == IndexJoin
    ensures st.refscen.None? ==> !Misaligned(st, scenarios, store, elem)
  {
    var present := Present(st.keyType, scenarios, store, elem);
    assert forall s :: s in present ==> Fetchable(st, store, s, elem);
    if Misaligned(st, scenarios, store, elem) then Err(IndexJoin)
    else Combine(FramesFor(st, store, present, elem), Tags(st, present))
  }

  /**
   * A scenario whose result for the element is void (`pd.Series({})`, one
   * index level) against a reference that has three-level keys: `subtract`
   * cannot join the two indexes, so the element raises instead of being
   * written.
   */
  lemma VoidAgainstReference(st: Settings, void: Raw, full: Raw, store: Store)
    requires st == Settings(TupleKeys, Some(map["A" := "B"]), true)
    requires void == TupleKeyed(map[]) && full == TupleKeyed(map[["2024", "z1", "wheat"] := 4.0])
    requires store == map["A" := map["x" := void], "B" := map["x" := full]]
    ensures WellEncoded(st.keyType, store) && Ready(st, ["A"], store, "x")
    ensures Assemble(st, ["A"], store, "x") == Err(IndexJoin)
  {
    VoidAgainstReferenceReady(st, void, full, store);
    assert Holds(st.keyType, store["A"], "x");
    assert "A" in Present(st.keyType, ["A"], store, "x");
    ThreeLevels(full);
    assert Build(void).levels == 1;
    assert !Aligned(st, store, "A", "x");
  }

  /** The store of `VoidAgainstReference` meets what the code needs to reach `subtract`. */
  lemma VoidAgainstReferenceReady(st: Settings, void: Raw, full: Raw, store: Store)
    requires st == Settings(TupleKeys, Some(map["A" := "B"]), true)
    requires void == TupleKeyed(map[]) && full == TupleKeyed(map[["2024", "z1", "wheat"] := 4.0])
    requires store == map["A" := map["x" := void], "B" := map["x" := full]]
    ensures WellEncoded(st.keyType, store) && Ready(st, ["A"], store, "x")
  {
    var key: Index := ["2024", "z1", "wheat"];
    assert full.cells.Keys == {key};
    assert UniformKeys(full.cells);
    forall s, e | s in store && e in store[s] ensures Encoded(st.keyType, store[s][e]) {
      assert s == "A" || s == "B";
    }
    assert ReferenceReady(st, store, "A", "x");
  }

  /** A result with three-level keys builds a three-level table. */
  lemma ThreeLevels(full: Raw)
    requires full == TupleKeyed(map[["2024", "z1", "wheat"] := 4.0])
    ensures UniformKeys(full.cells) && Build(full).levels == 3
  {
    var key: Index := ["2024", "z1", "wheat"];
    assert key in full.cells && |key| == 3;
  }

  // ------------------------------------------------------------------
  // What the concatenation holds
  // ------------------------------------------------------------------

  /**
   * The combined table has one more index level than the chosen arity, the
   * arity that the most frames have.
   */
  lemma CombineArity(fs: seq<Frame>, tags: seq<Label>)
    requires |fs| == |tags| && fs != []
    ensures var ns := LevelsOf(fs);
            && ModalArity(ns).Some?
            && Combine(fs, tags).value.levels == ModalArity(ns).value + 1
            && forall x :: Count(ns, x) <= Count(ns, ModalArity(ns).value)
  {
    var ns := LevelsOf(fs);
    var m := ModalArity(ns).value;
    var ps := Positions(ns, m);
    assert Keep(fs, ns, m)[0] == fs[ps[0]];
  }

  /** Every kept frame (`framestokeep`) has the chosen arity. */
  lemma KeptArity(fs: seq<Frame>, m: nat)
    ensures forall f :: f in Keep(fs, LevelsOf(fs), m) ==> f.levels == m
  {
    var ps := Positions(LevelsOf(fs), m);
  }

  /**
   * With the blocks filtered by arity `m`: a row of the concatenation is a
   * row of a block of arity `m` with its tag in front, and every such row is
   * there.
   */
  lemma KeptRows(fs: seq<Frame>, tags: seq<Label>, ns: seq<nat>, m: nat, y: Index)
    requires |fs| == |ns| && |tags| == |ns| && m in ns
    ensures y in Concat(Keep(fs, ns, m), Keep(tags, ns, m)).rows <==>
            exists j :: 0 <= j < |ns| && ns[j] == m && |y| > 0 && y[0] == tags[j] && y[1..] in fs[j].rows
  {
    var kf, kt := Keep(fs, ns, m), Keep(tags, ns, m);
    ConcatRows(kf, kt, y);
    if y in Concat(kf, kt).rows {
      var k :| 0 <= k < |kf| && |y| > 0 && y[0] == kt[k] && y[1..] in kf[k].rows;
      KeepAt(fs, ns, m, k);
      KeepAt(tags, ns, m, k);
      var j := Positions(ns, m)[k];
      assert 0 <= j < |ns| && ns[j] == m && |y| > 0 && y[0] == tags[j] && y[1..] in fs[j].rows;
    } else {
      forall j | 0 <= j < |ns| && ns[j] == m && |y| > 0 && y[0] == tags[j]
        ensures y[1..] !in fs[j].rows
      {
        PositionIndex(ns, m, j);
        var k :| 0 <= k < Count(ns, m) && Positions(ns, m)[k] == j;
        KeepAt(fs, ns, m, k);
        KeepAt(tags, ns, m, k);
      }
    }
  }

  /**
   * A row of the combined table is a row of a frame of the chosen arity with
   * that frame's tag in front, and every such row is there.
   */
  lemma CombineRows(fs: seq<Frame>, tags: seq<Label>, y: Index)
    requires |fs| == |tags| && fs != []
    ensures ModalArity(LevelsOf(fs)).Some?
    ensures y in Combine(fs, tags).value.rows <==>
            exists j :: 0 <= j < |fs| && fs[j].levels == ModalArity(LevelsOf(fs)).value &&
                        |y| > 0 && y[0] == tags[j] && y[1..] in fs[j].rows
  {
    var ns := LevelsOf(fs);
    var m := ModalArity(ns).value;
    assert Combine(fs, tags).value == Concat(Keep(fs, ns, m), Keep(tags, ns, m));
    KeptRows(fs, tags, ns, m, y);
  }

  /**
   * With distinct tags, a cell of a frame of the chosen arity keeps its
   * value in the combined table, under the frame's tag.
   */
  lemma CombineValues(fs: seq<Frame>, tags: seq<Label>, j: nat, x: Index, col: Label)
    requires |fs| == |tags| && Distinct(tags)
    requires j < |fs| && (x, col) in fs[j].values
    ensures ModalArity(LevelsOf(fs)).Some?
    ensures fs[j].levels == ModalArity(LevelsOf(fs)).value ==>
              Get(Combine(fs, tags).value, ([tags[j]] + x, col)) == Some(fs[j].values[(x, col)])
  {
    var ns := LevelsOf(fs);
    var m := ModalArity(ns).value;
    if fs[j].levels == m {
      var ps := Positions(ns, m);
      assert j in ps;
      var k :| 0 <= k < |ps| && ps[k] == j;
      KeepDistinct(tags, ns, m);
      ConcatValues(Keep(fs, ns, m), Keep(tags, ns, m), k, x, col);
    }
  }

  /**
   * With distinct tags the combined table has as many rows as the frames of
   * the chosen arity together, and, block by block, they are the same frames
   * as the kept scenarios'.
   */
  lemma CombineRowCount(fs: seq<Frame>, tags: seq<Label>)
    requires |fs| == |tags| && fs != [] && Distinct(tags)
    ensures ModalArity(LevelsOf(fs)).Some?
    ensures var ns := LevelsOf(fs);
            |Combine(fs, tags).value.rows| == TotalRows(Keep(fs, ns, ModalArity(ns).value))
  {
    var ns := LevelsOf(fs);
    var m := ModalArity(ns).value;
    KeepDistinct(tags, ns, m);
    ConcatRowCount(Keep(fs, ns, m), Keep(tags, ns, m));
  }

  /** Without a reference map the tags are the scenario names, so distinct scenarios give distinct tags. */
  lemma TagsDistinct(st: Settings, ss: seq<Label>)
    requires st.refscen.None? && Distinct(ss)
    ensures Distinct(Tags(st, ss))
  {
    assert Tags(st, ss) == ss;
  }
}

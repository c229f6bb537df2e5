/**
 * A whole run of `aggregate_scenarios_to_csv` as a value: the element loop
 * as a fold over the elements, stopped by the first exception, followed by
 * the header-only files of the declared elements that were not visited.
 * An element's table does not depend on anything the loop changes, so the
 * tables are built first and the loop reads them.
 */
module Runs {
  import opened Wrappers
  import opened Frames
  import opened Elements
  import opened Writing

  /** Each visited element's table, or the exception building it raised. */
  type Tables = map<Label, Result<Frame, Failure>>

  function TablesFor(st: Settings, scenarios: seq<Label>, store: Store, elems: seq<Label>): (t: Tables)
    requires WellEncoded(st.keyType, store)
    requires forall e :: e in elems ==> Ready(st, scenarios, store, e)
    ensures forall e :: e in elems ==> e in t && t[e] == Assemble(st, scenarios, store, e)
  {
    map e | e in elems :: Assemble(st, scenarios, store, e)
  }

  /** One pass of the element loop: the table, then its file. */
  function Step(st: Settings, tables: Tables, s: State, elem: Label): State
    requires elem in tables && s.failure.None?
  {
    match tables[elem]
    case Err(f) => s.(failure := Some(f))
    case Ok(pdata) => Export(st, elem, pdata, s)
  }

  /** The element loop; an exception ends it. */
  function Fold(st: Settings, tables: Tables, s: State, elems: seq<Label>): State
    requires forall e :: e in elems ==> e in tables
    decreases |elems|
  {
    if elems == [] || s.failure.Some? then s
    else
      assert elems[0] in elems && forall e :: e in elems[1..] ==> e in elems;
      Fold(st, tables, Step(st, tables, s, elems[0]), elems[1..])
  }

  /**
   * After the loop: for every declared element not in `elist`, 'scenario'
   * goes in front of its list and a header-only file is written.
   */
  function Finish(s: State, listed: set<Label>): State {
    match s.names
    case None => s
    case Some(nm) => s.(files := s.files + Placeholders(nm, listed), names := Some(Prefixed(nm, listed)))
  }

  /** The header-only files of the declared elements not listed. */
  function Placeholders(nm: Names, listed: set<Label>): map<Label, Sheet> {
    map k | k in nm.Keys - listed :: Placeholder(k, nm[k])
  }

  /** The schema after the placeholder loop: 'scenario' in front of every list not listed. */
  function Prefixed(nm: Names, listed: set<Label>): Names {
    map k | k in nm :: if k in listed then nm[k] else [ScenarioColumn] + nm[k]
  }

  /** A whole run over the elements in loop order, starting from the caller's schema. */
  function Run(st: Settings, scenarios: seq<Label>, store: Store, names: Option<Names>, elems: seq<Label>): State
    requires WellEncoded(st.keyType, store)
    requires forall e :: e in elems ==> Ready(st, scenarios, store, e)
  {
    var s := Fold(st, TablesFor(st, scenarios, store, elems), State(map[], names, None, None), elems);
    if s.failure.Some? then s else Finish(s, set e | e in elems)
  }

  // ------------------------------------------------------------------
  // The loop
  // ------------------------------------------------------------------

  /** Once an exception is raised nothing more happens. */
  lemma FoldStops(st: Settings, tables: Tables, s: State, elems: seq<Label>)
    requires forall e :: e in elems ==> e in tables
    requires s.failure.Some?
    ensures Fold(st, tables, s, elems) == s
  {
  }

  /** The loop takes its first element, then goes on with the rest. */
  lemma FoldFirst(st: Settings, tables: Tables, s: State, elems: seq<Label>)
    requires forall e :: e in elems ==> e in tables
    requires elems != [] && s.failure.None?
    ensures elems[0] in tables
    ensures Fold(st, tables, s, elems) == Fold(st, tables, Step(st, tables, s, elems[0]), elems[1..])
  {
    assert elems[0] in elems;
  }

  /** Running a list in two halves is running it whole. */
  lemma {:induction false} FoldAppend(st: Settings, tables: Tables, s: State, a: seq<Label>, b: seq<Label>)
    requires forall e :: e in a + b ==> e in tables
    ensures forall e :: e in a ==> e in tables
    ensures forall e :: e in b ==> e in tables
    ensures Fold(st, tables, s, a + b) == Fold(st, tables, Fold(st, tables, s, a), b)
    decreases |a|
  {
    assert forall e :: e in a + b <==> e in a || e in b;
    if a == [] {
      assert a + b == b;
    } else if s.failure.Some? {
      FoldStops(st, tables, s, b);
    } else {
      assert (a + b)[0] == a[0] && (a + b)[1..] == a[1..] + b;
      FoldAppend(st, tables, Step(st, tables, s, a[0]), a[1..], b);
    }
  }

  /** One pass of the loop touches only its element's file and its element's list. */
  lemma StepTouchesOnlyElement(st: Settings, tables: Tables, s: State, elem: Label)
    requires elem in tables && s.failure.None?
    ensures var r := Step(st, tables, s, elem);
            && (r.failure.None? ==> elem in r.files && r.files == s.files[elem := r.files[elem]])
            && (r.failure.Some? ==> r.files == s.files)
            && (r.names.Some? <==> s.names.Some?)
            && (s.names.Some? ==> r.names.value.Keys == s.names.value.Keys)
            && (s.names.Some? ==> forall k :: k in s.names.value && k != elem ==> r.names.value[k] == s.names.value[k])
            && (s.names.Some? && elem in s.names.value && r.failure.None? ==>
                  r.names.value[elem] == [ScenarioColumn] + s.names.value[elem])
  {
    match tables[elem]
    case Err(_) =>
    case Ok(pdata) => ExportTouchesOnlyElement(st, elem, pdata, s, Export(st, elem, pdata, s));
  }

  /** The loop keeps the schema's set of declared elements. */
  lemma {:induction false} FoldKeepsSchemaKeys(st: Settings, tables: Tables, s: State, elems: seq<Label>)
    requires forall e :: e in elems ==> e in tables
    requires s.failure.None?
    ensures var r := Fold(st, tables, s, elems);
            (r.names.Some? <==> s.names.Some?) && (s.names.Some? ==> r.names.value.Keys == s.names.value.Keys)
    decreases |elems|
  {
    if elems != [] {
      FoldFirst(st, tables, s, elems);
      var t := Step(st, tables, s, elems[0]);
      StepTouchesOnlyElement(st, tables, s, elems[0]);
      if t.failure.None? {
        FoldKeepsSchemaKeys(st, tables, t, elems[1..]);
      } else {
        FoldStops(st, tables, t, elems[1..]);
      }
    }
  }

  /** An element the loop does not visit keeps its file (or its lack of one) and its list. */
  lemma {:induction false} FoldKeepsOthers(st: Settings, tables: Tables, s: State, elems: seq<Label>, k: Label)
    requires forall e :: e in elems ==> e in tables
    requires s.failure.None? && k !in elems
    ensures var r := Fold(st, tables, s, elems);
            && (k in r.files <==> k in s.files)
            && (k in s.files ==> r.files[k] == s.files[k])
            && (s.names.Some? && k in s.names.value ==> r.names.Some? && k in r.names.value && r.names.value[k] == s.names.value[k])
    decreases |elems|
  {
    if elems != [] {
      FoldFirst(st, tables, s, elems);
      var t := Step(st, tables, s, elems[0]);
      StepTouchesOnlyElement(st, tables, s, elems[0]);
      ElementsOfCons(elems);
      if t.failure.None? {
        FoldKeepsOthers(st, tables, t, elems[1..], k);
      } else {
        FoldStops(st, tables, t, elems[1..]);
      }
    }
  }

  /** When the loop raises nothing, it has written a file for every element it visited. */
  lemma {:induction false} FoldWritesAll(st: Settings, tables: Tables, s: State, elems: seq<Label>)
    requires forall e :: e in elems ==> e in tables
    requires s.failure.None? && Fold(st, tables, s, elems).failure.None?
    ensures forall k :: k in Fold(st, tables, s, elems).files <==> k in s.files || k in elems
    decreases |elems|
  {
    if elems != [] {
      FoldFirst(st, tables, s, elems);
      var t := Step(st, tables, s, elems[0]);
      StepTouchesOnlyElement(st, tables, s, elems[0]);
      assert t.failure.None?;
      FoldWritesAll(st, tables, t, elems[1..]);
      ElementsOfCons(elems);
    }
  }

  /** Along a loop that raises nothing, a declared element met once gets 'scenario' in front of its list once. */
  lemma {:induction false} FoldPrependsOnce(st: Settings, tables: Tables, s: State, elems: seq<Label>, k: Label)
    requires forall e :: e in elems ==> e in tables
    requires s.failure.None? && Fold(st, tables, s, elems).failure.None?
    requires Distinct(elems) && k in elems && s.names.Some? && k in s.names.value
    ensures var r := Fold(st, tables, s, elems);
            r.names.Some? && k in r.names.value && r.names.value[k] == [ScenarioColumn] + s.names.value[k]
    decreases |elems|
  {
    var e := elems[0];
    FoldFirst(st, tables, s, elems);
    var t := Step(st, tables, s, e);
    StepTouchesOnlyElement(st, tables, s, e);
    assert t.failure.None?;
    DistinctTail(elems);
    ElementsOfCons(elems);
    if k == e {
      FoldKeepsOthers(st, tables, t, elems[1..], k);
    } else {
      FoldPrependsOnce(st, tables, t, elems[1..], k);
    }
  }

  /**
   * An element visited once by a loop that raises nothing: its file is the
   * one its own pass wrote, from the state the earlier elements left, in
   * which its list is still the caller's.
   */
  lemma FoldVisitsOnce(st: Settings, tables: Tables, s: State, elems: seq<Label>, i: nat)
    requires forall e :: e in elems ==> e in tables
    requires s.failure.None? && Fold(st, tables, s, elems).failure.None?
    requires Distinct(elems) && i < |elems|
    ensures forall e :: e in elems[..i] ==> e in tables
    ensures elems[i] in tables
    ensures var s1, r := Fold(st, tables, s, elems[..i]), Fold(st, tables, s, elems);
            && s1.failure.None?
            && (s.names.Some? && elems[i] in s.names.value ==>
                  s1.names.Some? && elems[i] in s1.names.value && s1.names.value[elems[i]] == s.names.value[elems[i]])
            && Step(st, tables, s1, elems[i]).failure.None?
            && elems[i] in r.files && r.files[elems[i]] == Step(st, tables, s1, elems[i]).files[elems[i]]
  {
    var e := elems[i];
    var before, after := elems[..i], elems[i + 1..];
    SplitAt(elems, i);
    FoldAppend(st, tables, s, before, [e] + after);
    var s1 := Fold(st, tables, s, before);
    assert s1.failure.None?;
    FoldKeepsOthers(st, tables, s, before, e);
    var s2 := Step(st, tables, s1, e);
    assert ([e] + after)[0] == e && ([e] + after)[1..] == after;
    assert s2.failure.None?;
    StepTouchesOnlyElement(st, tables, s1, e);
    FoldKeepsOthers(st, tables, s2, after, e);
  }

  // ------------------------------------------------------------------
  // The placeholders
  // ------------------------------------------------------------------

  /** Finishing leaves the files of the listed elements alone. */
  lemma FinishKeepsListed(s: State, listed: set<Label>, k: Label)
    requires k in listed && k in s.files
    ensures k in Finish(s, listed).files && Finish(s, listed).files[k] == s.files[k]
  {
  }

  /** With every declared element listed, finishing writes nothing and changes no list. */
  lemma FinishNone(s: State, listed: set<Label>)
    requires s.names.Some? && s.names.value.Keys <= listed
    ensures Finish(s, listed) == s
  {
    var nm := s.names.value;
    assert Placeholders(nm, listed) == map[];
    assert Prefixed(nm, listed) == nm;
    assert s.files + map[] == s.files;
  }

  /** Unlisting one declared element adds its placeholder. */
  lemma PlaceholdersOne(nm: Names, listed: set<Label>, elem: Label)
    requires elem in nm && elem !in listed
    ensures Placeholders(nm, listed) == Placeholders(nm, listed + {elem})[elem := Placeholder(elem, nm[elem])]
  {
    assert nm.Keys - listed == (nm.Keys - (listed + {elem})) + {elem};
  }

  /** Unlisting one declared element puts 'scenario' in front of its list. */
  lemma PrefixedOne(nm: Names, listed: set<Label>, elem: Label)
    requires elem in nm && elem !in listed
    ensures Prefixed(nm, listed) == Prefixed(nm, listed + {elem})[elem := [ScenarioColumn] + nm[elem]]
  {
  }

  /** Taking one declared element off the list adds its placeholder and puts 'scenario' in front of its list. */
  lemma FinishOne(s: State, listed: set<Label>, elem: Label)
    requires s.names.Some? && elem in s.names.value && elem !in listed
    ensures var r := Finish(s, listed + {elem});
            Finish(s, listed) == r.(files := r.files[elem := Placeholder(elem, s.names.value[elem])],
                                    names := Some(r.names.value[elem := [ScenarioColumn] + s.names.value[elem]]))
  {
    var nm := s.names.value;
    PlaceholdersOne(nm, listed, elem);
    PrefixedOne(nm, listed, elem);
    var p := Placeholders(nm, listed + {elem});
    var v := Placeholder(elem, nm[elem]);
    assert s.files + p[elem := v] == (s.files + p)[elem := v];
  }

  // ------------------------------------------------------------------
  // Properties of a whole run
  // ------------------------------------------------------------------

  /** A run without exception writes one file per visited element and one per declared element, and no other. */
  lemma RunFiles(st: Settings, scenarios: seq<Label>, store: Store, names: Option<Names>, elems: seq<Label>)
    requires WellEncoded(st.keyType, store)
    requires forall e :: e in elems ==> Ready(st, scenarios, store, e)
    requires Run(st, scenarios, store, names, elems).failure.None?
    ensures forall k :: k in Run(st, scenarios, store, names, elems).files <==>
                        k in elems || (names.Some? && k in names.value)
  {
    var tables := TablesFor(st, scenarios, store, elems);
    var start := State(map[], names, None, None);
    FoldWritesAll(st, tables, start, elems);
    FoldKeepsSchemaKeys(st, tables, start, elems);
  }

  /**
   * A declared element the loop never visited gets the header-only file
   * `['scenario'] + indexname[elem] + [elem]` with no rows, and its list gets
   * 'scenario' in front.
   */
  lemma RunPlaceholder(st: Settings, scenarios: seq<Label>, store: Store, nm: Names, elems: seq<Label>, k: Label)
    requires WellEncoded(st.keyType, store)
    requires forall e :: e in elems ==> Ready(st, scenarios, store, e)
    requires Run(st, scenarios, store, Some(nm), elems).failure.None?
    requires k in nm && k !in elems
    ensures var r := Run(st, scenarios, store, Some(nm), elems);
            && k in r.files && r.files[k] == Placeholder(k, nm[k])
            && r.names.Some? && k in r.names.value && r.names.value[k] == [ScenarioColumn] + nm[k]
  {
    var tables := TablesFor(st, scenarios, store, elems);
    FoldKeepsOthers(st, tables, State(map[], Some(nm), None, None), elems, k);
    FoldKeepsSchemaKeys(st, tables, State(map[], Some(nm), None, None), elems);
  }

  /**
   * With elements visited once each, a run without exception leaves every
   * declared list with exactly one 'scenario' in front, whether the element
   * was exported or got a placeholder.
   */
  lemma RunPrependsOnce(st: Settings, scenarios: seq<Label>, store: Store, nm: Names, elems: seq<Label>, k: Label)
    requires WellEncoded(st.keyType, store)
    requires forall e :: e in elems ==> Ready(st, scenarios, store, e)
    requires Run(st, scenarios, store, Some(nm), elems).failure.None?
    requires Distinct(elems) && k in nm
    ensures var r := Run(st, scenarios, store, Some(nm), elems);
            r.names.Some? && k in r.names.value && r.names.value[k] == [ScenarioColumn] + nm[k]
  {
    var tables := TablesFor(st, scenarios, store, elems);
    var start := State(map[], Some(nm), None, None);
    FoldKeepsSchemaKeys(st, tables, start, elems);
    if k in elems {
      FoldPrependsOnce(st, tables, start, elems, k);
    } else {
      RunPlaceholder(st, scenarios, store, nm, elems, k);
    }
  }

  /**
   * The file of a visited element, under a schema, when the element is
   * visited once: a table with cells is written with its index, under
   * `['scenario'] + indexname[elem]`, with the element as its column when
   * renaming; an empty tuple table of a declared element is the header-only
   * placeholder.
   */
  lemma FoldElementFile(st: Settings, tables: Tables, nm: Names, elems: seq<Label>, i: nat)
    requires forall e :: e in elems ==> e in tables
    requires Fold(st, tables, State(map[], Some(nm), None, None), elems).failure.None?
    requires Distinct(elems) && i < |elems|
    requires elems[i] in tables && tables[elems[i]].Ok?
    ensures var e, pdata, r := elems[i], tables[elems[i]].value, Fold(st, tables, State(map[], Some(nm), None, None), elems);
            && e in r.files
            && (!IsEmpty(pdata) ==>
                  && e in nm
                  && r.files[e].header == [ScenarioColumn] + nm[e] && r.files[e].withIndex
                  && r.files[e].body.rows == pdata.rows
                  && (st.renameCol ==> r.files[e].body.columns == {e})
                  && (!st.renameCol ==> r.files[e].body == pdata))
            && (IsEmpty(pdata) && st.keyType == TupleKeys && e in nm ==> r.files[e] == Placeholder(e, nm[e]))
  {
    var e := elems[i];
    var pdata := tables[e].value;
    var start := State(map[], Some(nm), None, None);
    FoldVisitsOnce(st, tables, start, elems, i);
    FoldKeepsSchemaKeys(st, tables, start, elems[..i]);
    var s1 := Fold(st, tables, start, elems[..i]);
    var s2 := Step(st, tables, s1, e);
    assert s2 == Export(st, e, pdata, s1);
    ExportCases(st, e, pdata, s1, s2);
  }

  /** The same for a whole run: the placeholders come after, and leave the visited elements' files alone. */
  lemma RunElementFile(st: Settings, scenarios: seq<Label>, store: Store, nm: Names, elems: seq<Label>, i: nat)
    requires WellEncoded(st.keyType, store)
    requires forall e :: e in elems ==> Ready(st, scenarios, store, e)
    requires Run(st, scenarios, store, Some(nm), elems).failure.None?
    requires Distinct(elems) && i < |elems|
    requires Ready(st, scenarios, store, elems[i]) && Assemble(st, scenarios, store, elems[i]).Ok?
    ensures var e, pdata, r := elems[i], Assemble(st, scenarios, store, elems[i]).value, Run(st, scenarios, store, Some(nm), elems);
            && e in r.files
            && (!IsEmpty(pdata) ==>
                  && e in nm
                  && r.files[e].header == [ScenarioColumn] + nm[e] && r.files[e].withIndex
                  && r.files[e].body.rows == pdata.rows
                  && (st.renameCol ==> r.files[e].body.columns == {e})
                  && (!st.renameCol ==> r.files[e].body == pdata))
            && (IsEmpty(pdata) && st.keyType == TupleKeys && e in nm ==> r.files[e] == Placeholder(e, nm[e]))
  {
    var e := elems[i];
    var tables := TablesFor(st, scenarios, store, elems);
    assert e in elems;
    FoldElementFile(st, tables, nm, elems, i);
    assert e in set x | x in elems;
    FinishKeepsListed(Fold(st, tables, State(map[], Some(nm), None, None), elems), (set x | x in elems), e);
  }
}

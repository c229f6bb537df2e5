/**
 * `aggregate_scenarios_to_csv` as the source runs it: a loop over the
 * elements that writes one file per element into a dictionary of files and
 * changes the caller's `indexname` lists in place, then the header-only
 * files of the declared elements that were not visited. Each method is
 * proved equal to the corresponding function of `Runs`.
 */
module Aggregator {
  import opened Wrappers
  import opened Frames
  import opened Elements
  import opened Writing
  import opened Runs

  /** The caller's `indexname` dictionary; the run changes its lists in place. */
  class Schema {
    var names: Names

    constructor (names: Names)
      ensures this.names == names
    {
      this.names := names;
    }

    /** `indexname[elem].insert(0, 'scenario')`. */
    method InsertScenario(elem: Label)
      requires elem in names
      modifies this
      ensures names == old(names)[elem := [ScenarioColumn] + old(names)[elem]]
    {
      names := names[elem := [ScenarioColumn] + names[elem]];
    }
  }

  /** The schema's lists, `None` for `indexname=0`. */
  function NamesOf(schema: Schema?): Option<Names>
    reads schema
  {
    if schema == null then None else Some(schema.names)
  }

  /** The scenarios' elements, restricted to the schema's when there is one. */
  function ElementSet(scenarios: seq<Label>, store: Store, names: Option<Names>): set<Label>
    requires forall s :: s in scenarios ==> s in store
  {
    set s, e | s in scenarios && e in store[s] && (names.None? || e in names.value) :: e
  }

  /** `elist=0`: collect every scenario's element keys (those the schema declares, if any) into a set. */
  method DiscoverElements(scenarios: seq<Label>, store: Store, names: Option<Names>) returns (elist: set<Label>)
    requires forall s :: s in scenarios ==> s in store
    ensures forall e :: e in elist <==>
              (exists s :: s in scenarios && e in store[s]) && (names.None? || e in names.value)
    ensures elist == ElementSet(scenarios, store, names)
  {
    var found: seq<Label> := [];
    for i := 0 to |scenarios|
      invariant forall e :: e in found <==>
                  (exists j :: 0 <= j < i && e in store[scenarios[j]]) && (names.None? || e in names.value)
    {
      var keys := store[scenarios[i]].Keys;
      while keys != {}
        invariant keys <= store[scenarios[i]].Keys
        invariant forall e :: e in found <==>
                    ((exists j :: 0 <= j < i && e in store[scenarios[j]]) || e in store[scenarios[i]].Keys - keys) &&
                    (names.None? || e in names.value)
        decreases keys
      {
        var key :| key in keys;
        if names.None? || key in names.value {
          found := found + [key];
        }
        keys := keys - {key};
      }
    }
    elist := set e | e in found;
  }

  /** The order the element loop visits: the given `elist`, or the discovered set in its iteration order. */
  function LoopOrder(elist: Option<seq<Label>>, setOrder: seq<Label>): seq<Label> {
    match elist
    case Some(l) => l
    case None => setOrder
  }

  /** Lines 132-153 on the caller's schema: naming and writing one element's table. */
  method ExportElement(st: Settings, elem: Label, pdata: Frame, schema: Schema?, files: map<Label, Sheet>, iindex: Option<bool>)
    returns (files': map<Label, Sheet>, iindex': Option<bool>, failure: Option<Failure>)
    modifies schema
    ensures State(files', NamesOf(schema), iindex', failure) == Export(st, elem, pdata, State(files, old(NamesOf(schema)), iindex, None))
  {
    files', iindex', failure := files, iindex, None;
    var sheet: Sheet;
    if !IsEmpty(pdata) {
      if schema != null {
        if elem !in schema.names {
          failure := Some(MissingSchemaEntry);
          return;
        }
        schema.InsertScenario(elem);
        if |schema.names[elem]| != pdata.levels {
          failure := Some(LevelNamesMismatch);
          return;
        }
        var body := pdata;
        if st.renameCol {
          if |pdata.columns| != 1 {
            failure := Some(ColumnNamesMismatch);
            return;
          }
          body := RenameColumn(pdata, elem);
        }
        sheet := Sheet(schema.names[elem], body, true);
      } else {
        sheet := Sheet(Blanks(pdata.levels), pdata, true);
      }
      iindex' := Some(true);
    } else if st.keyType == NestedKeys {
      if schema != null {
        if elem !in schema.names {
          failure := Some(MissingSchemaEntry);
          return;
        }
        schema.InsertScenario(elem);
        if !Insertable(schema.names[elem], pdata.columns) {
          failure := Some(DuplicateColumn);
          return;
        }
        sheet := Sheet(schema.names[elem], pdata, false);
        iindex' := Some(false);
      } else {
        if iindex.None? {
          failure := Some(UnboundIndexFlag);
          return;
        }
        sheet := Sheet(if iindex.value then Blanks(pdata.levels) else [], pdata, iindex.value);
      }
    } else {
      if schema == null {
        failure := Some(NoSchemaMap);
        return;
      }
      if elem in schema.names {
        schema.InsertScenario(elem);
        sheet := Sheet(schema.names[elem] + [elem], EmptyTable, false);
        iindex' := Some(false);
      } else {
        if iindex.None? {
          failure := Some(UnboundIndexFlag);
          return;
        }
        sheet := Sheet(if iindex.value then Blanks(pdata.levels) else [], pdata, iindex.value);
      }
    }
    files' := files[elem := sheet];
  }

  /** Lines 155-162 on the caller's schema: the header-only files of the declared elements not in `elist`. */
  method WritePlaceholders(schema: Schema, listed: set<Label>, files: map<Label, Sheet>, iindex: Option<bool>)
    returns (files': map<Label, Sheet>)
    modifies schema
    ensures State(files', NamesOf(schema), iindex, None) == Finish(State(files, old(NamesOf(schema)), iindex, None), listed)
  {
    files' := files;
    ghost var start := State(files, NamesOf(schema), iindex, None);
    var keys := schema.names.Keys;
    FinishNone(start, listed + keys);
    while keys != {}
      invariant keys <= start.names.value.Keys
      invariant State(files', NamesOf(schema), iindex, None) == Finish(start, listed + keys)
      decreases keys
    {
      var elem :| elem in keys;
      if elem !in listed {
        FinishOne(start, listed + (keys - {elem}), elem);
        assert listed + keys == listed + (keys - {elem}) + {elem};
        schema.InsertScenario(elem);
        files' := files'[elem := Sheet(schema.names[elem] + [elem], EmptyTable, false)];
      } else {
        assert listed + (keys - {elem}) == listed + keys;
      }
      keys := keys - {elem};
    }
    assert listed + keys == listed;
  }

  /** One pass of the loop on the caller's schema: the element's table, then its file. */
  method ProcessElement(st: Settings, scenarios: seq<Label>, store: Store, ghost tables: Tables, schema: Schema?,
                        elem: Label, files: map<Label, Sheet>, iindex: Option<bool>)
    returns (files': map<Label, Sheet>, iindex': Option<bool>, failure: Option<Failure>)
    requires WellEncoded(st.keyType, store) && Ready(st, scenarios, store, elem)
    requires elem in tables && tables[elem] == Assemble(st, scenarios, store, elem)
    modifies schema
    ensures State(files', NamesOf(schema), iindex', failure) ==
            Step(st, tables, State(files, old(NamesOf(schema)), iindex, None), elem)
  {
    var assembled := Assemble(st, scenarios, store, elem);
    if assembled.Err? {
      files', iindex', failure := files, iindex, Some(assembled.error);
    } else {
      files', iindex', failure := ExportElement(st, elem, assembled.value, schema, files, iindex);
    }
  }

  /** Lines 96-153 on the caller's schema: the element loop, up to the first exception. */
  method ExportElements(st: Settings, scenarios: seq<Label>, store: Store, schema: Schema?, order: seq<Label>)
    returns (files: map<Label, Sheet>, iindex: Option<bool>, failure: Option<Failure>)
    requires WellEncoded(st.keyType, store)
    requires forall e :: e in order ==> Ready(st, scenarios, store, e)
    modifies schema
    ensures State(files, NamesOf(schema), iindex, failure) ==
            Fold(st, TablesFor(st, scenarios, store, order), State(map[], old(NamesOf(schema)), None, None), order)
  {
    ghost var tables := TablesFor(st, scenarios, store, order);
    files, iindex, failure := map[], None, None;
    var i := 0;
    while i < |order| && failure.None?
      invariant 0 <= i <= |order|
      invariant forall e :: e in order[i..] ==> e in order
      invariant Fold(st, tables, State(files, NamesOf(schema), iindex, failure), order[i..]) ==
                Fold(st, tables, State(map[], old(NamesOf(schema)), None, None), order)
    {
      FoldFirst(st, tables, State(files, NamesOf(schema), iindex, None), order[i..]);
      assert order[i..][0] == order[i] && order[i..][1..] == order[i + 1..];
      assert order[i] in order;
      files, iindex, failure := ProcessElement(st, scenarios, store, tables, schema, order[i], files, iindex);
      i := i + 1;
    }
    if failure.Some? {
      FoldStops(st, tables, State(files, NamesOf(schema), iindex, failure), order[i..]);
    } else {
      assert order[i..] == [];
    }
  }

  /**
   * `aggregate_scenarios_to_csv(scenarios, vardic, outpath, keytype, indexname, elist, refscen, renamecol)`:
   * the files written (element to sheet) and the exception that ended the
   * run, if any; the caller's schema is left as the run changed it. When no
   * `elist` is given, `setOrder` is the order in which the set of
   * discovered elements is iterated.
   */
  method AggregateScenarios(scenarios: seq<Label>, store: Store, st: Settings, schema: Schema?,
                            elist: Option<seq<Label>>, setOrder: seq<Label>)
    returns (files: map<Label, Sheet>, failure: Option<Failure>)
    requires forall s :: s in scenarios ==> s in store
    requires WellEncoded(st.keyType, store)
    requires elist.None? ==> Distinct(setOrder) && (set e | e in setOrder) == ElementSet(scenarios, store, NamesOf(schema))
    requires forall e :: e in LoopOrder(elist, setOrder) ==> Ready(st, scenarios, store, e)
    modifies schema
    ensures var run := Run(st, scenarios, store, old(NamesOf(schema)), LoopOrder(elist, setOrder));
            files == run.files && failure == run.failure && NamesOf(schema) == run.names
  {
    var order: seq<Label>;
    var listed: set<Label>;
    if elist.Some? {
      order := elist.value;
      listed := set e | e in order;
    } else {
      listed := DiscoverElements(scenarios, store, NamesOf(schema));
      order := setOrder;
    }
    var iindex;
    files, iindex, failure := ExportElements(st, scenarios, store, schema, order);
    if failure.None? && schema != null {
      files := WritePlaceholders(schema, listed, files, iindex);
    }
  }
}

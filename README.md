# WHAT-IF scenario aggregation, modelled in Dafny

WHAT-IF's Power BI export script collects the results of several model
scenarios and writes one long-format CSV table per result element (a
decision variable, a balance, an indicator). Its core is
`aggregate_scenarios_to_csv`. For every element it:

- finds the scenarios that hold the element;
- builds one table per scenario. A tuple-keyed result becomes a Series. A
  nested result `{k: {i: {j: v}}}` is flattened by `dict_to_pd`;
- subtracts the reference scenario's table if a reference map is given
  (`diff_panda`). Where the reference has no value, the scenario's value is
  kept;
- keeps the tables with the most common index arity;
- concatenates them with the scenario (or `scen_ref`) as the new first index
  level;
- names the index after the element's schema list, with `'scenario'` put in
  front of it in place;
- writes the file.

Declared elements that were never produced get a header-only file. The
project also models two expressions of the surrounding script and one
helper:

- the set of scenarios whose results are loaded;
- the decade a year is reported under;
- the choice of CSV separator.

The model is organised by the program's own structure:

- `Frames`: tables as grids of cells. NaN is a missing cell. It holds
  `diff_panda`, `pd.concat(..., keys=...)` and the column renaming.
- `Builder`: `pd.Series(d)` for tuple-keyed results, and `dict_to_pd` for
  nested ones.
- `Arity`: the most common arity (`max(set(nlevels), key=nlevels.count)`)
  and the paired filtering of `frames` and `scenpresent`.
- `Elements`: the result store and settings, the present scenarios, the
  per-scenario tables, and the combined table `pdata` of one element.
- `Writing`: what one element's file looks like, and which exception it
  raises. This covers schema naming, the nested-empty and tuple-empty cases,
  the placeholder file, and the carried `iindex` flag.
- `Runs`: one run as a value. The element loop is a fold stopped by the
  first exception, and `Finish` adds the placeholders. Lemmas relate the
  whole run to its parts.
- `Aggregator`: the source's imperative form.
  - The caller's `indexname` dictionary is a `Schema` object whose lists
    `InsertScenario` changes in place.
  - `DiscoverElements` is the `append` loop with its set conversion.
  - The element loop, the placeholder loop and `AggregateScenarios` are
    methods, each proved equal to the function in `Runs`. The properties
    proved about those functions therefore hold for the methods.
- `Script`: `CSVSEPARATOR`, `scen_to_load`, and the decade rule
  `int(str(k-1)[0:3]+'0')`, computed on decimal text as the script does.

Modelling decisions:

- **Errors.** Exceptions the function raises are values of `Failure`:
  - no present scenario (`max()` of an empty set);
  - an element missing from the schema;
  - a level-name or column-name length mismatch;
  - a duplicate inserted column;
  - `indexname=0` with an empty tuple table;
  - an unbound `iindex`;
  - with a reference map, a scenario's table whose index has another number
    of levels than its reference's. `subtract` cannot join such indexes
    (pandas raises `ValueError`), so the `frames` comprehension stops before
    `max()` is reached.
- **Output files.** The files written are a map from element to `Sheet` (header, body, whether the index is written).
- **Preconditions instead of KeyErrors and TypeErrors.** Lookups that fail
  with a KeyError in the code are preconditions (`Ready`):
  - a scenario missing from `vardic`;
  - a nested key missing from a scenario's bundle;
  - a reference that lacks the element.

  So is one TypeError: with nested keys, a reference whose result is `{}`.
  There `dict_to_pd` returns `None`, and line 115 subtracts `None`.
- **Assumptions about the pickled data.** `WellEncoded` is not an error path
  of the code, which checks neither of its two demands:
  - every result has the kind `keytype` names (tuple-keyed or nested);
  - the keys of one tuple-keyed result are nonempty tuples of one length.
    This is the shape `pd.Series` turns into an index of one arity.
- **Loop order.** With `elist=0` the loop order is the iteration order of a
  Python set, which the code does not fix. It is a parameter (`setOrder`),
  required to list the discovered set once.
- **Tie-break.** When several arities are equally common, the smallest is
  chosen. Python's choice depends on set iteration order.
- **Nested results with no leaves.** Such a result (every inner dictionary
  empty) gives a table with the outer keys as columns and no rows (line 61).
  The model gives that table a one-level index.

## Model

| member | source | states |
|---|---|---|
| Frames.Diff | WHATIF_scenario_to_powerBI.py:82-85 | the difference's rows and columns are the union of both tables'; a cell is filled exactly where the scenario has a value; the index keeps the scenario's arity |
| Frames.DiffAt | WHATIF_scenario_to_powerBI.py:82-85 | each cell is scenario minus reference where both have a value, the scenario's value where only it has one, NaN where the scenario has none |
| Frames.DiffRestoresScenario | WHATIF_scenario_to_powerBI.py:82-85 | adding the reference back to a differenced cell gives the scenario's value |
| Frames.DiffAgainstNothing | WHATIF_scenario_to_powerBI.py:82-85 | against a reference with no values the scenario's values are unchanged |
| Frames.DiffWellFormed | WHATIF_scenario_to_powerBI.py:82-85 | differencing two grids of one arity gives a grid |
| Frames.Tagged | WHATIF_scenario_to_powerBI.py:124-126 | a block has the tag in front of every row index, one more level, the same columns, and each value at its tagged cell and nowhere else |
| Frames.TaggedRowCount | WHATIF_scenario_to_powerBI.py:124-126 | tagging keeps the number of rows |
| Frames.Merge | WHATIF_scenario_to_powerBI.py:124-126 | two blocks side by side; no ensures, stated through `Concat` by `ConcatRows`, `ConcatColumns` and `ConcatValuesFrom` |
| Frames.IsEmpty | WHATIF_scenario_to_powerBI.py:132-146 | pandas' `.empty`: no rows or no columns; no ensures, stated by `ConcatEmpty` and `ExportCases` |
| Frames.Concat | WHATIF_scenario_to_powerBI.py:124-126 | the concatenation has one index level more than its blocks |
| Frames.ConcatRows | WHATIF_scenario_to_powerBI.py:124-126 | a row of the concatenation is exactly some block's row with that block's tag in front |
| Frames.ConcatColumns | WHATIF_scenario_to_powerBI.py:124-126 | the columns are exactly those of the blocks |
| Frames.ConcatValues | WHATIF_scenario_to_powerBI.py:124-126 | with distinct tags every block value is found at its tagged cell |
| Frames.ConcatValuesFrom | WHATIF_scenario_to_powerBI.py:124-126 | every value of the concatenation is some block's value under that block's tag |
| Frames.ConcatRowCount | WHATIF_scenario_to_powerBI.py:124-126 | with distinct tags the row count is the sum of the blocks' row counts |
| Frames.ConcatWellFormed | WHATIF_scenario_to_powerBI.py:124-126 | blocks of one arity m give a grid of arity m + 1 |
| Frames.ConcatEmpty | WHATIF_scenario_to_powerBI.py:124-132 | the concatenation is empty exactly when all blocks have no rows or all have no columns |
| Frames.RenameColumn | WHATIF_scenario_to_powerBI.py:137-138 | the single column is renamed to the element, rows and every row's value unchanged |
| Builder.KeyArity | WHATIF_scenario_to_powerBI.py:107 | the Series' index arity is the key length, 1 for an empty result |
| Builder.SeriesOf | WHATIF_scenario_to_powerBI.py:107 | one row per key, each key's value in the single column, nothing else |
| Builder.SeriesRoundTrip | WHATIF_scenario_to_powerBI.py:107 | reading the Series back gives the result dictionary, one cell per key |
| Builder.LeafValues | WHATIF_scenario_to_powerBI.py:58 | the cells after stack/unstack(0): every leaf `k, i, j` has its value at row `(i, j)` column `k`, and every cell is such a leaf's |
| Builder.DictToFrame | WHATIF_scenario_to_powerBI.py:53-61 | `{}` gives no table, anything else a table |
| Builder.DictToFrameShape | WHATIF_scenario_to_powerBI.py:53-61 | without leaves the table has the outer keys as columns and no rows; with leaves the index has two levels `(i, j)`; the table is a grid |
| Builder.DictToFrameGrid | WHATIF_scenario_to_powerBI.py:56-58 | a row `(i, j)` exists exactly when some outer key has a leaf there; a column exactly when the outer key has a leaf |
| Builder.DictToFrameCells | WHATIF_scenario_to_powerBI.py:56-58 | every leaf `k, i, j` is at row `(i, j)` column `k`, and every cell is some leaf |
| Builder.DictToFrameLeafCount | WHATIF_scenario_to_powerBI.py:56-58 | each leaf appears exactly once: as many cells as leaves |
| Arity.Count | WHATIF_scenario_to_powerBI.py:119 | `nlevels.count(x)` is positive exactly when x occurs |
| Arity.ModeAmong | WHATIF_scenario_to_powerBI.py:119 | the candidate chosen is counted at least as often as any candidate, and is the smallest of the equally frequent |
| Arity.ModalArity | WHATIF_scenario_to_powerBI.py:119 | no arity exactly when there are no frames; otherwise an arity that occurs, at least as often as any other, the smallest among ties |
| Arity.ModalArityUnique | WHATIF_scenario_to_powerBI.py:119 | any arity with those properties is the one chosen |
| Arity.Positions | WHATIF_scenario_to_powerBI.py:120-121 | exactly the positions with arity m, increasing, as many as m occurs |
| Arity.Pick | WHATIF_scenario_to_powerBI.py:120-121 | entry i of the result is the entry at the i-th position |
| Arity.Keep | WHATIF_scenario_to_powerBI.py:120-121 | the filtered list has as many entries as m occurs |
| Arity.KeptStayPaired | WHATIF_scenario_to_powerBI.py:120-121 | `framestokeep` and `scentokeep` have equal length and are the same increasing positions of their lists, all of arity m, and every position of arity m is kept |
| Arity.KeepFrom | WHATIF_scenario_to_powerBI.py:120-121 | a kept entry is an entry of the list |
| Arity.KeepDistinct | WHATIF_scenario_to_powerBI.py:120-121 | filtering a list without repetitions keeps it without repetitions |
| Arity.MajorityExample | WHATIF_scenario_to_powerBI.py:117-121 | arities 3, 3, 2 choose 3 and keep the first two |
| Elements.Holds | WHATIF_scenario_to_powerBI.py:99-102 | the filter of `scenpresent`: the key is there (tuple), the result is not `{}` (nested); no ensures, used by `Present` |
| Elements.Present | WHATIF_scenario_to_powerBI.py:99-102 | a scenario is present exactly when it holds the element (has the key; for nested results, a result other than `{}`); the result is a subsequence of the scenarios, in their order; no repetitions added (how often a repeated scenario appears is `PresentCounts`) |
| Elements.PresentCounts | WHATIF_scenario_to_powerBI.py:99-102 | a scenario listed several times is present as often as it is listed when it holds the element, and never otherwise |
| Elements.Build | WHATIF_scenario_to_powerBI.py:107-109 | each scenario's table is a grid |
| Elements.Aligned | WHATIF_scenario_to_powerBI.py:82-83 | `subtract` can join the two indexes: no reference map, or both tables have the same number of levels; no ensures, used by `FrameFor` and `Misaligned` |
| Elements.FrameFor | WHATIF_scenario_to_powerBI.py:104-115 | one scenario's table, minus its reference's when a reference map is given, is a grid with the scenario's own number of index levels |
| Elements.FramesFor | WHATIF_scenario_to_powerBI.py:104-115 | `frames`: entry k is the table of the k-th present scenario |
| Elements.Misaligned | WHATIF_scenario_to_powerBI.py:111-115 | some present scenario's table cannot be joined with its reference's; no ensures, used by `Assemble` |
| Elements.Tag | WHATIF_scenario_to_powerBI.py:123-126 | the block key, `scen` or `scen + '_' + refscen[scen]`; no ensures, stated by `TagsDistinct` and the `Combine` lemmas |
| Elements.Tags | WHATIF_scenario_to_powerBI.py:123-126 | the `keys=` list: entry k is the tag of the k-th scenario |
| Elements.LevelsOf | WHATIF_scenario_to_powerBI.py:118 | `nlevels`: entry k is the index arity of the k-th table |
| Elements.Combine | WHATIF_scenario_to_powerBI.py:117-126 | no frames raise the `max()` error, and only they do |
| Elements.Assemble | WHATIF_scenario_to_powerBI.py:98-128 | `pdata` fails exactly when no scenario holds the element or some table cannot be subtracted from; the failure is `IndexJoin` exactly in the second case and `NoFrames` otherwise; without a reference map the second case never occurs |
| Elements.VoidAgainstReference | WHATIF_scenario_to_powerBI.py:111-113 | a void tuple result (one level) against a three-level reference meets every precondition and fails with `IndexJoin` |
| Elements.KeptArity | WHATIF_scenario_to_powerBI.py:120 | every kept frame has the chosen arity |
| Elements.KeptRows | WHATIF_scenario_to_powerBI.py:120-126 | a row of the concatenated kept frames is exactly a row of a frame of arity m under that frame's tag |
| Elements.CombineArity | WHATIF_scenario_to_powerBI.py:118-124 | `pdata` has one level more than the chosen arity, which no arity outnumbers |
| Elements.CombineRows | WHATIF_scenario_to_powerBI.py:118-126 | each row of `pdata` is a row of a frame of the chosen arity with its scenario's tag in front, and every such row is there |
| Elements.CombineValues | WHATIF_scenario_to_powerBI.py:118-126 | with distinct tags each value of a kept frame is in `pdata` at its row under the frame's tag |
| Elements.CombineRowCount | WHATIF_scenario_to_powerBI.py:118-126 | with distinct tags `pdata` has as many rows as the kept frames together |
| Elements.TagsDistinct | WHATIF_scenario_to_powerBI.py:123-124 | without a reference map distinct scenarios give distinct tags |
| Writing.Blanks | WHATIF_scenario_to_powerBI.py:134-139 | without a schema every index level is unnamed |
| Writing.Placeholder | WHATIF_scenario_to_powerBI.py:146-150 | the header is `['scenario'] + indexname[elem] + [elem]`, no rows, no index |
| Writing.WriteCarried | WHATIF_scenario_to_powerBI.py:151-153 | a table not renamed is written with the `iindex` of an earlier element, and fails when there is none; no list changes |
| Writing.Insertable | WHATIF_scenario_to_powerBI.py:143-144 | the `pdata.insert` loop succeeds: the names are pairwise different and none is already a column; no ensures, stated by `ExportCases` |
| Writing.Export | WHATIF_scenario_to_powerBI.py:132-153 | one element's naming and file; no ensures, stated by `ExportCases` and `ExportTouchesOnlyElement` |
| Writing.ExportTouchesOnlyElement | WHATIF_scenario_to_powerBI.py:132-153 | writing one element changes only its own file and its own schema list, which gets 'scenario' in front once |
| Writing.ExportCases | WHATIF_scenario_to_powerBI.py:132-153 | for each kind of table, the conditions for each exception in both directions, the header, the body, the index flag and the renamed column |
| Runs.TablesFor | WHATIF_scenario_to_powerBI.py:96-128 | each visited element's `pdata` as `Assemble` builds it |
| Runs.Step | WHATIF_scenario_to_powerBI.py:98-153 | one pass: the table's exception, or its file; no ensures, stated by `StepTouchesOnlyElement` and `FoldFirst` |
| Runs.Fold | WHATIF_scenario_to_powerBI.py:96-153 | the element loop; no ensures, stated by the `Fold` lemmas below |
| Runs.Finish | WHATIF_scenario_to_powerBI.py:155-162 | the placeholder loop; no ensures, stated by `FinishKeepsListed`, `FinishNone` and `FinishOne` |
| Runs.Run | WHATIF_scenario_to_powerBI.py:96-162 | a whole run; no ensures, stated by `RunFiles`, `RunPlaceholder`, `RunPrependsOnce` and `RunElementFile` |
| Runs.FoldStops | WHATIF_scenario_to_powerBI.py:96-153 | after an exception nothing more is written |
| Runs.FoldFirst | WHATIF_scenario_to_powerBI.py:96 | one unfolding of the loop: its first element, then the rest |
| Runs.FoldAppend | WHATIF_scenario_to_powerBI.py:96 | looping over a list in two halves is looping over it whole |
| Runs.StepTouchesOnlyElement | WHATIF_scenario_to_powerBI.py:96-153 | one pass touches only its element's file and list |
| Runs.FoldKeepsSchemaKeys | WHATIF_scenario_to_powerBI.py:135-148 | the loop keeps the set of declared elements |
| Runs.FoldKeepsOthers | WHATIF_scenario_to_powerBI.py:96-153 | an element the loop does not visit keeps its file and its list |
| Runs.FoldWritesAll | WHATIF_scenario_to_powerBI.py:152-153 | with no exception, a file is written for exactly the visited elements |
| Runs.FoldPrependsOnce | WHATIF_scenario_to_powerBI.py:135-148 | an element visited once gets 'scenario' in front of its list exactly once |
| Runs.FoldVisitsOnce | WHATIF_scenario_to_powerBI.py:96-153 | an element visited once has the file its own pass wrote, from its caller's list |
| Runs.Placeholders | WHATIF_scenario_to_powerBI.py:157-162 | the header-only files of the declared elements not in `elist`; no ensures, stated by `PlaceholdersOne`, `FinishOne` and `RunPlaceholder` |
| Runs.Prefixed | WHATIF_scenario_to_powerBI.py:157-159 | the schema after `insert(0,'scenario')` on every list not in `elist`; no ensures, stated by `PrefixedOne`, `FinishOne` and `RunPrependsOnce` |
| Runs.PlaceholdersOne | WHATIF_scenario_to_powerBI.py:157-162 | taking one declared element off the list adds exactly its header-only file |
| Runs.PrefixedOne | WHATIF_scenario_to_powerBI.py:157-159 | taking one declared element off the list puts 'scenario' in front of exactly its list |
| Runs.FinishKeepsListed | WHATIF_scenario_to_powerBI.py:155-162 | placeholders never overwrite a listed element's file |
| Runs.FinishNone | WHATIF_scenario_to_powerBI.py:155-162 | with every declared element listed, nothing is written and no list changes |
| Runs.FinishOne | WHATIF_scenario_to_powerBI.py:155-162 | one more unlisted declared element adds its placeholder and one 'scenario' in front of its list |
| Runs.RunFiles | WHATIF_scenario_to_powerBI.py:96-162 | a run without exception writes exactly one file per visited element and per declared element |
| Runs.RunPlaceholder | WHATIF_scenario_to_powerBI.py:155-162 | a declared element that was never visited gets `['scenario'] + indexname[elem] + [elem]` with no rows, and 'scenario' in front of its list |
| Runs.RunPrependsOnce | WHATIF_scenario_to_powerBI.py:134-162 | with elements visited once, every declared list ends with exactly one 'scenario' in front |
| Runs.FoldElementFile | WHATIF_scenario_to_powerBI.py:132-153 | a visited element's file: with cells, header `['scenario'] + indexname[elem]`, index written, rows of `pdata`, column renamed to the element or body unchanged; empty tuple tables of declared elements are placeholders |
| Runs.RunElementFile | WHATIF_scenario_to_powerBI.py:132-162 | the same file after the placeholders are written |
| Aggregator.Schema.constructor | WHATIF_scenario_to_powerBI.py:71 | the schema holds the caller's lists |
| Aggregator.Schema.InsertScenario | WHATIF_scenario_to_powerBI.py:135 | 'scenario' goes at position 0 of that element's list, and no other list changes |
| Aggregator.DiscoverElements | WHATIF_scenario_to_powerBI.py:88-94 | an element is found exactly when some scenario's bundle has it and the schema, if any, declares it |
| Aggregator.LoopOrder | WHATIF_scenario_to_powerBI.py:87-96 | the order the loop visits: the caller's `elist`, or the discovered set in its iteration order; no ensures, used by `AggregateScenarios` |
| Aggregator.ExportElement | WHATIF_scenario_to_powerBI.py:132-153 | the file written, the flag and the in-place list change are those of `Writing.Export` |
| Aggregator.WritePlaceholders | WHATIF_scenario_to_powerBI.py:155-162 | the placeholder loop writes and changes exactly what `Runs.Finish` says |
| Aggregator.ProcessElement | WHATIF_scenario_to_powerBI.py:98-153 | one pass of the loop is `Runs.Step` |
| Aggregator.ExportElements | WHATIF_scenario_to_powerBI.py:96-153 | the element loop, stopped by the first exception, is `Runs.Fold` |
| Aggregator.AggregateScenarios | WHATIF_scenario_to_powerBI.py:63-162 | the files written, the exception raised and the caller's schema afterwards are those of `Runs.Run` |
| Script.Separator | WHATIF_scenario_to_powerBI.py:31-33 | the separator is ';' exactly when the decimal mark is ',', ',' otherwise, and never the decimal mark |
| Script.ScenariosToLoad | WHATIF_scenario_to_powerBI.py:214 | a scenario is loaded exactly when it is on the sheet or is the non-empty reference of one |
| Script.LoadWithoutReferences | WHATIF_scenario_to_powerBI.py:214 | with no reference named only the sheet's scenarios are loaded |
| Script.ShowNat | WHATIF_scenario_to_powerBI.py:290 | `str(n)` is `Digits(n)` decimal digits, without a leading zero |
| Script.Show | WHATIF_scenario_to_powerBI.py:290 | `str(i)` starts with '-' exactly for negative i |
| Script.Take | WHATIF_scenario_to_powerBI.py:290 | `s[0:n]` is the first n characters, or all of a shorter string |
| Script.ParseNat | WHATIF_scenario_to_powerBI.py:290 | `int(s)` for digits; no ensures, stated by `ParseShowNat` |
| Script.Parse | WHATIF_scenario_to_powerBI.py:290 | `int(s)` with an optional minus sign; no ensures, stated by `ParseShow` |
| Script.ParseShowNat | WHATIF_scenario_to_powerBI.py:290 | `int(str(n)) == n` for natural n |
| Script.ParseShow | WHATIF_scenario_to_powerBI.py:290 | `int(str(i)) == i` for every integer |
| Script.Decade | WHATIF_scenario_to_powerBI.py:290 | the decade rule on decimal text; no ensures, stated by `DecadeOfYear`, `DecadeExample` and `DecadeShortYears` |
| Script.DecadeOfYear | WHATIF_scenario_to_powerBI.py:290 | for a four-digit k - 1 the rule gives ((k - 1) div 10) * 10 |
| Script.DecadeExample | WHATIF_scenario_to_powerBI.py:290 | years 2021 to 2030 go under 2020, 2031 under 2030 |
| Script.DecadeShortYears | WHATIF_scenario_to_powerBI.py:290 | for k - 1 below 1000 the rule appends a zero instead of rounding: (k - 1) * 10 |

## Left out

- File and spreadsheet I/O is not modelled: `pickle.load`, `pd.read_excel`, `to_csv`/`pd_to_csv`, `os.makedirs`, the Excel writer and `print`. The files written are a map from element to header, body and index flag.
- The locale lookup of the decimal mark is external state. The mark is a parameter of `Script.Separator`.
- The reporting section (`table_ag`: group-by sums, means and ratio pivots, the yield division) is floating-point aggregation over pandas. Only its decade expression is modelled.
- The module-level configuration globals and the schema dictionary literals are data, not logic.
- Row and column order of the written tables is not modelled. Tables are sets of rows and columns, and pandas' sorting of a MultiIndex is left out.
- Floating-point arithmetic is not modelled. Values are reals, and `dtype='float64'` coercion is left out.
- Frames.Diff: on its own it aligns any two tables cell by cell on equal index tuples. The code's `subtract` raises instead when the two indexes have different numbers of levels. The model applies `Diff` only to tables of one arity: `Elements.Assemble` turns the other case into the `IndexJoin` failure.
- Frames.Concat: blocks with equal tags are merged by union, whereas pandas would repeat the rows. This happens when `scenarios` lists one scenario twice, with or without a reference map, and with a reference map also when `scen + '_' + ref` collides for two scenarios. Elements.CombineValues and Elements.CombineRowCount therefore require distinct tags.
- Aggregator.Schema: the lists are values. A list object shared by two schema entries, which `insert` would change under both names, is not modelled.
- Arity.ModalArity: ties between equally common arities go to the smallest arity. Python's `max` over a set is not modelled.
- Aggregator.AggregateScenarios: the KeyError paths are preconditions, not modelled failures. These are: a scenario missing from `vardic`; a nested key missing from a scenario; a reference that lacks the element (lines 113 and 115); with nested keys, a reference whose result is `{}`, which line 115 subtracts as `None` (a TypeError).
- Aggregator.AggregateScenarios: with `elist=0` the iteration order of the discovered set is a parameter, because the code does not fix it.

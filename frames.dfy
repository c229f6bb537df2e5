/**
 * The tables the aggregation works on. A pandas Series or DataFrame is seen
 * as a grid: a set of row indexes (tuples of index labels, all with the same
 * number of levels), a set of column labels, and the cells that hold a
 * number. A cell of the grid with no entry in `values` is NaN.
 */
module Frames {
  import opened Wrappers

  /** A categorical index label or a column name; years and ids alike are text here. */
  type Label = string
  /** The index of one row: one label per index level. */
  type Index = seq<Label>
  /** A cell of a table: its row index and its column. */
  type Cell = (Index, Label)

  datatype Frame = Frame(levels: nat, rows: set<Index>, columns: set<Label>, values: map<Cell, real>)

  /** The column name pandas gives a Series turned into a table by `to_frame()`. */
  const SeriesColumn: Label := "0"

  /** A table with no rows and no columns (a fresh `pd.DataFrame`). */
  const EmptyTable: Frame := Frame(1, {}, {}, map[])

  /** Every row has `levels` labels and every filled cell lies on the grid. */
  predicate WellFormed(f: Frame) {
    && (forall r :: r in f.rows ==> |r| == f.levels)
    && (forall c :: c in f.values ==> c.0 in f.rows && c.1 in f.columns)
  }

  /** pandas' `DataFrame.empty`: no rows or no columns. */
  predicate IsEmpty(f: Frame) {
    f.rows == {} || f.columns == {}
  }

  /** The content of one cell; `None` is NaN. */
  function Get(f: Frame, c: Cell): Option<real> {
    if c in f.values then Some(f.values[c]) else None
  }

  // ------------------------------------------------------------------
  // diff_panda: panda.subtract(pandaref).fillna(panda)
  // ------------------------------------------------------------------

  /**
   * Scenario minus reference, aligned on rows and columns. `subtract` gives
   * NaN wherever either side is NaN; `fillna(panda)` then puts back the
   * scenario's own value, so a cell is filled exactly where the scenario has
   * one. The grid is the union of both grids; the index keeps the scenario's
   * number of levels.
   */
  function Diff(a: Frame, b: Frame): (r: Frame)
    ensures r.levels == a.levels
    ensures r.rows == a.rows + b.rows && r.columns == a.columns + b.columns
    ensures forall c :: c in r.values <==> c in a.values
  {
    Frame(a.levels, a.rows + b.rows, a.columns + b.columns,
          map c | c in a.values :: if c in b.values then a.values[c] - b.values[c] else a.values[c])
  }

  /** Cell by cell: both present gives the difference, only the scenario gives its value, otherwise NaN. */
  lemma DiffAt(a: Frame, b: Frame, c: Cell)
    ensures Get(Diff(a, b), c) ==
      (match (Get(a, c), Get(b, c))
       case (Some(x), Some(y)) => Some(x - y)
       case (Some(x), None) => Some(x)
       case (None, _) => None)
  {
  }

  /** Adding the reference back to a differenced cell gives the scenario's value. */
  lemma DiffRestoresScenario(a: Frame, b: Frame, c: Cell)
    requires c in a.values && c in b.values
    ensures Diff(a, b).values[c] + b.values[c] == a.values[c]
  {
  }

  /** Against a reference with no values, differencing leaves every scenario value as it is. */
  lemma DiffAgainstNothing(a: Frame, b: Frame)
    requires b.values == map[]
    ensures Diff(a, b).values == a.values
  {
  }

  /** Differencing two well-formed tables of the same arity gives a well-formed table. */
  lemma DiffWellFormed(a: Frame, b: Frame)
    requires WellFormed(a) && WellFormed(b) && a.levels == b.levels
    ensures WellFormed(Diff(a, b))
  {
  }

  // ------------------------------------------------------------------
  // pd.concat(frames, keys=tags): every block gets its tag as a new
  // outermost index level
  // ------------------------------------------------------------------

  lemma ConsInjective(tag: Label)
    ensures forall x: Index, y: Index {:trigger [tag] + x, [tag] + y} :: [tag] + x == [tag] + y ==> x == y
  {
    forall x: Index, y: Index | [tag] + x == [tag] + y
      ensures x == y
    {
      assert x == ([tag] + x)[1..];
      assert y == ([tag] + y)[1..];
    }
  }

  /** One block of a concatenation: the table with `tag` prepended to every row index. */
  function Tagged(f: Frame, tag: Label): (r: Frame)
    ensures r.levels == f.levels + 1 && r.columns == f.columns
    ensures forall x :: x in f.rows ==> [tag] + x in r.rows
    ensures forall y :: y in r.rows ==> |y| > 0 && y[0] == tag && y[1..] in f.rows
    ensures forall x, col :: (x, col) in f.values ==>
              ([tag] + x, col) in r.values && r.values[([tag] + x, col)] == f.values[(x, col)]
    ensures forall c :: c in r.values ==> |c.0| > 0 && c.0[0] == tag && (c.0[1..], c.1) in f.values
  {
    ConsInjective(tag);
    var r := Frame(f.levels + 1, set x | x in f.rows :: [tag] + x, f.columns,
                   map c | c in f.values :: ([tag] + c.0, c.1) := f.values[c]);
    assert forall x :: ([tag] + x)[1..] == x;
    r
  }

  /** Prepending a tag loses no row: two rows stay two rows. */
  lemma TaggedRowCount(f: Frame, tag: Label)
    ensures |Tagged(f, tag).rows| == |f.rows|
  {
    var g := (x: Index) => [tag] + x;
    ConsInjective(tag);
    InjectiveImageCount(f.rows, g);
    var rows := Tagged(f, tag).rows;
    forall y | y in rows ensures y in Image(f.rows, g) {
      assert y == g(y[1..]);
    }
    assert rows == Image(f.rows, g);
  }

  /** Stacking two blocks: rows, columns and cells side by side. */
  function Merge(a: Frame, b: Frame): Frame {
    Frame(a.levels, a.rows + b.rows, a.columns + b.columns, a.values + b.values)
  }

  /** `pd.concat(fs, keys=tags)`: block k is `fs[k]` with `tags[k]` as its new first index level. */
  function Concat(fs: seq<Frame>, tags: seq<Label>): (r: Frame)
    requires |fs| == |tags| > 0
    ensures r.levels == fs[0].levels + 1
    decreases |fs|
  {
    var n := |fs| - 1;
    var last := Tagged(fs[n], tags[n]);
    if n == 0 then last else Merge(Concat(fs[..n], tags[..n]), last)
  }

  /** Each row of the concatenation is some block's row with that block's tag in front, and back. */
  lemma {:induction false} ConcatRows(fs: seq<Frame>, tags: seq<Label>, y: Index)
    requires |fs| == |tags| > 0
    ensures y in Concat(fs, tags).rows <==>
            exists k :: 0 <= k < |fs| && |y| > 0 && y[0] == tags[k] && y[1..] in fs[k].rows
    decreases |fs|
  {
    var n := |fs| - 1;
    var last := Tagged(fs[n], tags[n]);
    if n > 0 {
      ConcatRows(fs[..n], tags[..n], y);
    }
    if exists k :: 0 <= k < |fs| && |y| > 0 && y[0] == tags[k] && y[1..] in fs[k].rows {
      var k :| 0 <= k < |fs| && |y| > 0 && y[0] == tags[k] && y[1..] in fs[k].rows;
      if k == n {
        assert [tags[n]] + y[1..] == y;
      } else {
        assert fs[..n][k] == fs[k] && tags[..n][k] == tags[k];
      }
    }
    if n > 0 && y in Concat(fs, tags).rows && y !in last.rows {
      var k :| 0 <= k < n && |y| > 0 && y[0] == tags[..n][k] && y[1..] in fs[..n][k].rows;
      assert fs[..n][k] == fs[k] && tags[..n][k] == tags[k];
    }
  }

  /** The columns of the concatenation are those of its blocks. */
  lemma {:induction false} ConcatColumns(fs: seq<Frame>, tags: seq<Label>, col: Label)
    requires |fs| == |tags| > 0
    ensures col in Concat(fs, tags).columns <==> exists k :: 0 <= k < |fs| && col in fs[k].columns
    decreases |fs|
  {
    var n := |fs| - 1;
    if n > 0 {
      ConcatColumns(fs[..n], tags[..n], col);
      if exists k :: 0 <= k < |fs| && col in fs[k].columns {
        var k :| 0 <= k < |fs| && col in fs[k].columns;
        if k < n {
          assert fs[..n][k] == fs[k];
        }
      }
      if col in Concat(fs[..n], tags[..n]).columns {
        var k :| 0 <= k < n && col in fs[..n][k].columns;
        assert fs[..n][k] == fs[k];
      }
    }
  }

  /** With distinct tags, every cell of every block is found, with its value, under its tagged index. */
  lemma {:induction false} ConcatValues(fs: seq<Frame>, tags: seq<Label>, k: nat, x: Index, col: Label)
    requires |fs| == |tags| > 0 && Distinct(tags)
    requires k < |fs| && (x, col) in fs[k].values
    ensures Get(Concat(fs, tags), ([tags[k]] + x, col)) == Some(fs[k].values[(x, col)])
    decreases |fs|
  {
    var n := |fs| - 1;
    var last := Tagged(fs[n], tags[n]);
    var key := ([tags[k]] + x, col);
    if k < n {
      var prefix := Concat(fs[..n], tags[..n]);
      assert tags[..n][k] == tags[k] && fs[..n][k] == fs[k];
      DistinctPrefix(tags, n);
      ConcatValues(fs[..n], tags[..n], k, x, col);
      assert tags[k] != tags[n];
      assert key !in last.values by {
        assert key.0[0] == tags[k];
      }
      assert Concat(fs, tags).values == prefix.values + last.values;
    } else {
      assert key in last.values && last.values[key] == fs[k].values[(x, col)];
    }
  }

  /** Conversely, every filled cell of the concatenation comes from the block its tag names. */
  lemma {:induction false} ConcatValuesFrom(fs: seq<Frame>, tags: seq<Label>, c: Cell)
    requires |fs| == |tags| > 0 && c in Concat(fs, tags).values
    ensures exists k :: 0 <= k < |fs| && |c.0| > 0 && c.0[0] == tags[k] && (c.0[1..], c.1) in fs[k].values &&
                        Concat(fs, tags).values[c] == fs[k].values[(c.0[1..], c.1)]
    decreases |fs|
  {
    var n := |fs| - 1;
    var last := Tagged(fs[n], tags[n]);
    if c in last.values {
      assert [tags[n]] + c.0[1..] == c.0;
    } else {
      ConcatValuesFrom(fs[..n], tags[..n], c);
      var k :| 0 <= k < n && |c.0| > 0 && c.0[0] == tags[..n][k] && (c.0[1..], c.1) in fs[..n][k].values &&
               Concat(fs[..n], tags[..n]).values[c] == fs[..n][k].values[(c.0[1..], c.1)];
      assert fs[..n][k] == fs[k] && tags[..n][k] == tags[k];
    }
  }

  /** The number of rows of the blocks taken together. */
  function TotalRows(fs: seq<Frame>): nat {
    if fs == [] then 0 else TotalRows(fs[..|fs| - 1]) + |fs[|fs| - 1].rows|
  }

  /** With distinct tags no two blocks share a row: the row count is the sum of the blocks' row counts. */
  lemma {:induction false} ConcatRowCount(fs: seq<Frame>, tags: seq<Label>)
    requires |fs| == |tags| > 0 && Distinct(tags)
    ensures |Concat(fs, tags).rows| == TotalRows(fs)
    decreases |fs|
  {
    var n := |fs| - 1;
    var last := Tagged(fs[n], tags[n]);
    TaggedRowCount(fs[n], tags[n]);
    assert fs[..n] == fs[..|fs| - 1];
    if n > 0 {
      var prefix := Concat(fs[..n], tags[..n]);
      DistinctPrefix(tags, n);
      ConcatRowCount(fs[..n], tags[..n]);
      forall y | y in prefix.rows ensures y !in last.rows {
        ConcatRows(fs[..n], tags[..n], y);
        var k :| 0 <= k < n && |y| > 0 && y[0] == tags[..n][k] && y[1..] in fs[..n][k].rows;
        assert tags[..n][k] == tags[k] != tags[n];
      }
      assert prefix.rows * last.rows == {};
    }
  }

  /** Every row of every block has `m` levels: the concatenation is well formed with `m + 1` levels. */
  lemma {:induction false} ConcatWellFormed(fs: seq<Frame>, tags: seq<Label>, m: nat)
    requires |fs| == |tags| > 0
    requires forall k :: 0 <= k < |fs| ==> WellFormed(fs[k]) && fs[k].levels == m
    ensures WellFormed(Concat(fs, tags)) && Concat(fs, tags).levels == m + 1
    decreases |fs|
  {
    var n := |fs| - 1;
    if n > 0 {
      ConcatWellFormed(fs[..n], tags[..n], m);
    }
  }

  /** The concatenation is empty exactly when every block has no rows or every block has no columns. */
  lemma ConcatEmpty(fs: seq<Frame>, tags: seq<Label>)
    requires |fs| == |tags| > 0
    ensures IsEmpty(Concat(fs, tags)) <==>
            (forall k :: 0 <= k < |fs| ==> fs[k].rows == {}) || (forall k :: 0 <= k < |fs| ==> fs[k].columns == {})
  {
    var r := Concat(fs, tags);
    if forall k :: 0 <= k < |fs| ==> fs[k].rows == {} {
      forall y | y in r.rows ensures false {
        ConcatRows(fs, tags, y);
      }
    } else if forall k :: 0 <= k < |fs| ==> fs[k].columns == {} {
      forall col | col in r.columns ensures false {
        ConcatColumns(fs, tags, col);
      }
    } else {
      var i :| 0 <= i < |fs| && fs[i].rows != {};
      var j :| 0 <= j < |fs| && fs[j].columns != {};
      var x :| x in fs[i].rows;
      var col :| col in fs[j].columns;
      ConcatRows(fs, tags, [tags[i]] + x);
      assert ([tags[i]] + x)[1..] == x;
      ConcatColumns(fs, tags, col);
    }
  }

  // ------------------------------------------------------------------
  // pdata.columns = [elem]
  // ------------------------------------------------------------------

  lemma SingletonUnique(s: set<Label>)
    requires |s| == 1
    ensures forall a, b :: a in s && b in s ==> a == b
  {
    var x :| x in s;
    assert |s - {x}| == 0;
    assert s == {x} by {
      assert s - {x} == {};
    }
  }

  /** The one column of a single-column table. */
  function OnlyColumn(f: Frame): (c: Label)
    requires |f.columns| == 1
    ensures f.columns == {c}
  {
    SingletonUnique(f.columns);
    var c :| c in f.columns;
    c
  }

  /** The table with its only column renamed; rows and values stay where they were. */
  function RenameColumn(f: Frame, name: Label): (r: Frame)
    requires |f.columns| == 1
    ensures r.levels == f.levels && r.rows == f.rows && r.columns == {name}
    ensures forall x :: x in f.rows ==> Get(r, (x, name)) == Get(f, (x, OnlyColumn(f)))
    ensures WellFormed(f) ==> WellFormed(r)
  {
    var c := OnlyColumn(f);
    var cells := set x | x in f.rows && (x, c) in f.values :: (x, name);
    Frame(f.levels, f.rows, {name}, map cell | cell in cells :: f.values[(cell.0, c)])
  }
}

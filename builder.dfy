/**
 * The Table Builder: the two encodings a result bundle uses for one element,
 * and how each becomes a table (`pd.Series(...)` for tuple keys,
 * `dict_to_pd` for nested dictionaries).
 */
module Builder {
  import opened Wrappers
  import opened Frames

  /** A tuple-keyed result `{(i1, ..., in): value}`. */
  type TupleData = map<Index, real>

  /** A nested result `{k: {i: {j: value}}}`. */
  type NestedData = map<Label, map<Label, map<Label, real>>>

  /** Every key is a tuple of one or more labels, and all keys have the same length. */
  predicate UniformKeys(d: TupleData) {
    forall a, b :: a in d && b in d ==> 0 < |a| == |b|
  }

  /** The number of index levels of `pd.Series(d)`: the key length, and 1 for an empty dict. */
  function KeyArity(d: TupleData): (n: nat)
    requires UniformKeys(d)
    ensures d == map[] ==> n == 1
    ensures forall x :: x in d ==> n == |x|
  {
    if d == map[] then 1 else var k :| k in d; |k|
  }

  /** `pd.Series(d, dtype='float64')`: one row per key, its value in the single column. */
  function SeriesOf(d: TupleData): (f: Frame)
    requires UniformKeys(d)
    ensures WellFormed(f) && f.levels == KeyArity(d)
    ensures f.rows == d.Keys && f.columns == {SeriesColumn}
    ensures forall x :: Get(f, (x, SeriesColumn)) == (if x in d then Some(d[x]) else None)
  {
    Frame(KeyArity(d), d.Keys, {SeriesColumn}, map x | x in d :: (x, SeriesColumn) := d[x])
  }

  /** Reading a single-column table back into a dictionary. */
  function SeriesData(f: Frame): TupleData {
    map x | x in f.rows && (x, SeriesColumn) in f.values :: f.values[(x, SeriesColumn)]
  }

  /** Building the Series loses and invents nothing: reading it back gives the dictionary. */
  lemma SeriesRoundTrip(d: TupleData)
    requires UniformKeys(d)
    ensures SeriesData(SeriesOf(d)) == d
    ensures |SeriesOf(d).values| == |d|
  {
    var f := SeriesOf(d);
    var g := (x: Index) => (x, SeriesColumn);
    InjectiveImageCount(d.Keys, g);
    forall c | c in f.values ensures c in Image(d.Keys, g) {
      assert c == g(c.0);
    }
    assert f.values.Keys == Image(d.Keys, g);
  }

  /** The leaves `(k, i, j)` of a nested result. */
  function Leaves(dic: NestedData): (r: set<(Label, Label, Label)>)
    ensures forall t :: t in r <==> t.0 in dic && t.1 in dic[t.0] && t.2 in dic[t.0][t.1]
  {
    set k, i, j | k in dic && i in dic[k] && j in dic[k][i] :: (k, i, j)
  }

  /** Where `dict_to_pd` puts a leaf: row `(i, j)`, column `k`. */
  function LeafCell(t: (Label, Label, Label)): Cell {
    ([t.1, t.2], t.0)
  }

  lemma LeafCellInjective()
    ensures forall t, u {:trigger LeafCell(t), LeafCell(u)} :: LeafCell(t) == LeafCell(u) ==> t == u
  {
    forall t: (Label, Label, Label), u: (Label, Label, Label) | LeafCell(t) == LeafCell(u)
      ensures t == u
    {
      assert LeafCell(t).0[0] == t.1 && LeafCell(t).0[1] == t.2;
      assert LeafCell(u).0[0] == u.1 && LeafCell(u).0[1] == u.2;
    }
  }

  /** The cells of the flattened table, each leaf at its own cell. */
  function LeafValues(dic: NestedData): (m: map<Cell, real>)
    ensures forall t :: t in Leaves(dic) ==> LeafCell(t) in m && m[LeafCell(t)] == dic[t.0][t.1][t.2]
    ensures forall c :: c in m ==> |c.0| == 2 && (c.1, c.0[0], c.0[1]) in Leaves(dic)
  {
    var cells := set t | t in Leaves(dic) :: LeafCell(t);
    assert forall c :: c in cells ==> |c.0| == 2 && (c.1, c.0[0], c.0[1]) in Leaves(dic) by {
      forall c | c in cells ensures |c.0| == 2 && (c.1, c.0[0], c.0[1]) in Leaves(dic) {
        var t :| t in Leaves(dic) && LeafCell(t) == c;
        assert c.0 == [t.1, t.2] && c.1 == t.0;
      }
    }
    assert forall t :: t in Leaves(dic) ==> LeafCell(t) in cells && LeafCell(t).0[0] == t.1 && LeafCell(t).0[1] == t.2;
    map c | c in cells :: dic[c.1][c.0[0]][c.0[1]]
  }

  /**
   * `dict_to_pd(dic)`: `{k: {i: {j: v}}}` becomes a table indexed by `(i, j)`
   * with one column per outer key `k` (concat of the transposed inner tables,
   * `stack()`, `unstack(0)`). An empty dict gives no table (the function
   * returns None); a dict without any leaf gives a table with the outer keys
   * as columns, no rows and a plain one-level index.
   */
  function DictToFrame(dic: NestedData): (r: Option<Frame>)
    ensures r.None? <==> dic == map[]
  {
    if dic == map[] then None
    else if Leaves(dic) == {} then Some(Frame(1, {}, dic.Keys, map[]))
    else Some(Frame(2, set t | t in Leaves(dic) :: [t.1, t.2], set t | t in Leaves(dic) :: t.0, LeafValues(dic)))
  }

  /** Without leaves the table is the header-only one; with leaves its index has the two levels `(i, j)`. */
  lemma DictToFrameShape(dic: NestedData)
    requires dic != map[]
    ensures Leaves(dic) == {} ==> DictToFrame(dic).value == Frame(1, {}, dic.Keys, map[])
    ensures Leaves(dic) != {} ==> DictToFrame(dic).value.levels == 2
    ensures WellFormed(DictToFrame(dic).value)
  {
  }

  /** A row `(i, j)` exists exactly when some outer key has a leaf at `i`, `j`; a column exactly when the outer key has a leaf. */
  lemma DictToFrameGrid(dic: NestedData)
    requires Leaves(dic) != {}
    ensures forall x :: x in DictToFrame(dic).value.rows <==> |x| == 2 && exists k :: (k, x[0], x[1]) in Leaves(dic)
    ensures forall col :: col in DictToFrame(dic).value.columns <==> exists i, j :: (col, i, j) in Leaves(dic)
  {
    var f := DictToFrame(dic).value;
    forall x | |x| == 2 && (exists k :: (k, x[0], x[1]) in Leaves(dic)) ensures x in f.rows {
      var k :| (k, x[0], x[1]) in Leaves(dic);
      assert [x[0], x[1]] == x;
    }
  }

  /** Every leaf is in the table at row `(i, j)`, column `k`, and the table holds nothing else. */
  lemma DictToFrameCells(dic: NestedData)
    requires dic != map[]
    ensures forall t :: t in Leaves(dic) ==> Get(DictToFrame(dic).value, LeafCell(t)) == Some(dic[t.0][t.1][t.2])
    ensures forall c :: c in DictToFrame(dic).value.values ==> |c.0| == 2 && (c.1, c.0[0], c.0[1]) in Leaves(dic)
  {
  }

  /** Each leaf has a cell of its own: the flattened cells are as many as the leaves. */
  lemma LeafValuesCount(dic: NestedData)
    ensures |LeafValues(dic).Keys| == |Leaves(dic)|
  {
    var m, leaves := LeafValues(dic), Leaves(dic);
    LeafCellInjective();
    InjectiveImageCount(leaves, LeafCell);
    forall c | c in m ensures c in Image(leaves, LeafCell) {
      assert c == LeafCell((c.1, c.0[0], c.0[1]));
    }
    assert m.Keys == Image(leaves, LeafCell);
  }

  /** Each leaf appears exactly once: the table has as many filled cells as the dict has leaves. */
  lemma DictToFrameLeafCount(dic: NestedData)
    requires dic != map[]
    ensures |DictToFrame(dic).value.values| == |Leaves(dic)|
  {
    if Leaves(dic) != {} {
      LeafValuesCount(dic);
      assert DictToFrame(dic).value.values == LeafValues(dic);
    }
  }
}

/**
 * The dataset the engine profiles: a pandas DataFrame as `read_csv` leaves
 * it, with a 0-based positional row index and a numeric / non-numeric tag
 * per column standing for pandas' dtype inference.
 */
module Frames {
  import opened Common

  /** The exceptions the analysis raises. */
  datatype AnalysisError =
    | EmptyDataFrame      // `ValueError("DataFrame is empty")`
    | MaskLengthMismatch  // pandas refusing a boolean mask whose length differs from the frame's

  /** One column: its name, its dtype's name, whether pandas counts it as numeric, its cells. */
  datatype Column = Column(name: string, dtype: string, numeric: bool, cells: seq<Option<real>>)

  datatype Frame = Frame(rows: nat, columns: seq<Column>)
  {
    /** Every column has one cell per row, and column names are unique (read_csv renames duplicates). */
    predicate Valid()
    {
      && (forall k :: 0 <= k < |columns| ==> |columns[k].cells| == rows)
      && DistinctNames(columns)
    }

    /** pandas' `DataFrame.empty`: no rows or no columns. */
    predicate IsEmpty()
    {
      rows == 0 || |columns| == 0
    }
  }

  predicate DistinctNames(cols: seq<Column>)
  {
    forall i, j :: 0 <= i < j < |cols| ==> cols[i].name != cols[j].name
  }

  /** The column names in frame order (`list(df.columns)`). */
  function Names(cols: seq<Column>): (r: seq<string>)
    ensures |r| == |cols|
    ensures forall k :: 0 <= k < |cols| ==> r[k] == cols[k].name
  {
    seq(|cols|, k requires 0 <= k < |cols| => cols[k].name)
  }

  function NameSet(cols: seq<Column>): set<string>
  {
    set c | c in cols :: c.name
  }

  lemma NameSetMembers(cols: seq<Column>)
    ensures forall x :: x in NameSet(cols) <==> exists k :: 0 <= k < |cols| && cols[k].name == x
  {
    forall x ensures x in NameSet(cols) <==> exists k :: 0 <= k < |cols| && cols[k].name == x {
      if x in NameSet(cols) {
        var c :| c in cols && c.name == x;
        var k :| 0 <= k < |cols| && cols[k] == c;
      }
    }
  }

  /** With distinct names, equal names mean the same position. */
  lemma NamesInjective(cols: seq<Column>)
    requires DistinctNames(cols)
    ensures forall i, j :: 0 <= i < |cols| && 0 <= j < |cols| && cols[i].name == cols[j].name ==> i == j
  {
  }

  /** `df.select_dtypes(include=[np.number])`: the numeric columns, in frame order. */
  function NumericColumns(cols: seq<Column>): (r: seq<Column>)
    ensures forall c :: c in r <==> c in cols && c.numeric
    ensures DistinctNames(cols) ==> DistinctNames(r)
    ensures |r| <= |cols|
  {
    if cols == [] then []
    else
      var rest := NumericColumns(cols[1..]);
      assert forall c :: c in cols[1..] ==> c in cols;
      if cols[0].numeric then
        assert DistinctNames(cols) ==> forall c :: c in rest ==> c.name != cols[0].name by {
          if DistinctNames(cols) {
            forall c | c in rest ensures c.name != cols[0].name {
              var k :| 0 <= k < |cols[1..]| && cols[1..][k] == c;
              assert cols[k + 1] == c;
            }
          }
        }
        [cols[0]] + rest
      else rest
  }

  function IfNumeric(c: Column): Option<Column> { if c.numeric then Some(c) else None }

  /** `select_dtypes` keeps every numeric column, once, in frame order. */
  lemma {:induction false} NumericColumnsInFrameOrder(cols: seq<Column>)
    ensures exists idx :: Subsequence(cols, NumericColumns(cols), IfNumeric, idx)
  {
    if cols == [] {
      assert Subsequence(cols, NumericColumns(cols), IfNumeric, []);
    } else {
      NumericColumnsInFrameOrder(cols[1..]);
      var idx :| Subsequence(cols[1..], NumericColumns(cols[1..]), IfNumeric, idx);
      SubsequenceCons(cols, NumericColumns(cols[1..]), IfNumeric, idx);
      var p := IfNumeric(cols[0]);
      assert NumericColumns(cols) == (if p.Some? then [p.value] else []) + NumericColumns(cols[1..]);
      assert Subsequence(cols, NumericColumns(cols), IfNumeric, (if p.Some? then [0] else []) + Shift(idx));
    }
  }

  /** `column.dropna()`: the non-null values, in row order. */
  function NonNull(cells: seq<Option<real>>): (r: seq<real>)
    ensures |r| <= |cells|
    ensures forall x :: x in r <==> Some(x) in cells
  {
    if cells == [] then []
    else
      assert forall o :: o in cells <==> o == cells[0] || o in cells[1..];
      (if cells[0].Some? then [cells[0].value] else []) + NonNull(cells[1..])
  }

  function KeepPresent(o: Option<real>): Option<real> { o }

  /** `dropna` keeps every present value, once, in row order. */
  lemma {:induction false} NonNullInRowOrder(cells: seq<Option<real>>)
    ensures exists idx :: Subsequence(cells, NonNull(cells), KeepPresent, idx)
  {
    if cells == [] {
      assert Subsequence(cells, NonNull(cells), KeepPresent, []);
    } else {
      NonNullInRowOrder(cells[1..]);
      var idx :| Subsequence(cells[1..], NonNull(cells[1..]), KeepPresent, idx);
      SubsequenceCons(cells, NonNull(cells[1..]), KeepPresent, idx);
      var p := KeepPresent(cells[0]);
      assert NonNull(cells) == (if p.Some? then [p.value] else []) + NonNull(cells[1..]);
      assert Subsequence(cells, NonNull(cells), KeepPresent, (if p.Some? then [0] else []) + Shift(idx));
    }
  }

  /** `column.isnull().sum()`. */
  function NullCount(cells: seq<Option<real>>): (r: nat)
    ensures r <= |cells|
    ensures r == 0 <==> forall i :: 0 <= i < |cells| ==> cells[i].Some?
    ensures r + |NonNull(cells)| == |cells|
  {
    if cells == [] then 0
    else
      var rest := NullCount(cells[1..]);
      assert forall i :: 1 <= i < |cells| ==> cells[i] == cells[1..][i - 1];
      (if cells[0].None? then 1 else 0) + rest
  }

  /** The null count is the number of null cells. */
  lemma {:induction false} NullCountCountsNulls(cells: seq<Option<real>>)
    ensures NullCount(cells) == multiset(cells)[None]
  {
    if cells != [] {
      NullCountCountsNulls(cells[1..]);
      assert cells == [cells[0]] + cells[1..];
    }
  }
}

/**
 * Missing-value accounting (`analyze_missing_values`): per-column null
 * counts over every column, numeric or not, their total, and each count as
 * a percentage of the row count. The two-decimal rounding is not modelled:
 * the percentage is the exact ratio.
 */
module Missing {
  import opened Common
  import opened Frames

  datatype MissingReport = MissingReport(
    totalMissing: nat,
    perColumn: map<string, nat>,
    percentage: map<string, real>)

  /** `df.isnull().sum().sum()`: nulls over all columns. */
  function TotalNulls(cols: seq<Column>): nat
  {
    if cols == [] then 0 else NullCount(cols[0].cells) + TotalNulls(cols[1..])
  }

  /** The values of `m` at `keys`, added up in order. */
  function SumAt(m: map<string, nat>, keys: seq<string>): nat
    requires forall k :: k in keys ==> k in m
  {
    if keys == [] then 0 else m[keys[0]] + SumAt(m, keys[1..])
  }

  function PerColumnNulls(cols: seq<Column>): (m: map<string, nat>)
    requires DistinctNames(cols)
    ensures m.Keys == NameSet(cols)
    ensures forall k :: 0 <= k < |cols| ==> m[cols[k].name] == NullCount(cols[k].cells)
  {
    NameSetMembers(cols);
    NamesInjective(cols);
    map k | 0 <= k < |cols| :: cols[k].name := NullCount(cols[k].cells)
  }

  /** `count / rows * 100`, unrounded. */
  function Percent(count: nat, rows: nat): real
    requires rows > 0
  {
    count as real / rows as real * 100.0
  }

  function NullPercentages(cols: seq<Column>, rows: nat): (m: map<string, real>)
    requires DistinctNames(cols) && rows > 0
    ensures m.Keys == NameSet(cols)
    ensures forall k :: 0 <= k < |cols| ==> m[cols[k].name] == Percent(NullCount(cols[k].cells), rows)
  {
    NameSetMembers(cols);
    NamesInjective(cols);
    map k | 0 <= k < |cols| :: cols[k].name := Percent(NullCount(cols[k].cells), rows)
  }

  function AnalyzeMissingValues(df: Frame): (r: MissingReport)
    requires df.Valid() && df.rows > 0
    ensures r.perColumn.Keys == NameSet(df.columns) && r.percentage.Keys == NameSet(df.columns)
    ensures forall c :: c in df.columns ==> r.perColumn[c.name] == NullCount(c.cells)
    ensures forall c :: c in df.columns ==> r.percentage[c.name] == Percent(NullCount(c.cells), df.rows)
    ensures forall c :: c in df.columns ==> 0.0 <= r.percentage[c.name] <= 100.0
    ensures r.totalMissing == SumAt(r.perColumn, Names(df.columns))
  {
    var perColumn := PerColumnNulls(df.columns);
    var percentage := NullPercentages(df.columns, df.rows);
    PercentagesInRange(df);
    TotalIsSumOfColumns(df.columns, perColumn);
    MissingReport(TotalNulls(df.columns), perColumn, percentage)
  }

  // ---------------------------------------------------------------- lemmas

  /** Each column's null count is at most the row count, so its share lies in [0, 100]. */
  lemma PercentagesInRange(df: Frame)
    requires df.Valid() && df.rows > 0
    ensures forall c :: c in df.columns ==> 0.0 <= NullPercentages(df.columns, df.rows)[c.name] <= 100.0
  {
    forall c | c in df.columns ensures 0.0 <= NullPercentages(df.columns, df.rows)[c.name] <= 100.0 {
      var k :| 0 <= k < |df.columns| && df.columns[k] == c;
      PercentInRange(NullCount(c.cells), df.rows);
    }
  }

  lemma PercentInRange(count: nat, rows: nat)
    requires count <= rows && rows > 0
    ensures 0.0 <= Percent(count, rows) <= 100.0
  {
    var q := count as real / rows as real;
    assert q * rows as real == count as real;
    assert 0.0 <= q <= 1.0;
  }

  /** The total equals the per-column counts added up in column order. */
  lemma {:induction false} TotalIsSumOfColumns(cols: seq<Column>, m: map<string, nat>)
    requires forall c :: c in cols ==> c.name in m && m[c.name] == NullCount(c.cells)
    ensures forall k :: k in Names(cols) ==> k in m
    ensures TotalNulls(cols) == SumAt(m, Names(cols))
  {
    if cols != [] {
      assert Names(cols)[1..] == Names(cols[1..]);
      assert forall c :: c in cols[1..] ==> c in cols;
      TotalIsSumOfColumns(cols[1..], m);
    }
  }
}

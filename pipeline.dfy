/**
 * The two in-memory steps of the population pipeline, over a table of
 * named columns and rows of possibly-missing cells:
 *   CleanData   -- `clean_data`: drop rows with a missing cell, normalise headers;
 *   ProcessData -- `process_data`: sum the `2020_census` column into a one-cell
 *                  `total_population` summary.
 */
module Pipeline {
  import opened Wrappers
  import opened Headers

  /** numpy's int64, the dtype of an integer CSV column. */
  newtype Int64 = x: int | -0x8000_0000_0000_0000 <= x < 0x8000_0000_0000_0000

  const TwoTo64: int := 0x1_0000_0000_0000_0000

  /** A present cell: an integer, a string, or a value the model treats as opaque (a float, say). */
  datatype Cell = Num(n: Int64) | Text(s: string) | Other(tag: nat)

  /** One record; `None` is a missing value. */
  type Row = seq<Option<Cell>>

  /** A data frame: headers in order, rows in order. */
  datatype Table = Table(columns: seq<string>, rows: seq<Row>)

  /** The exceptions `process_data` can raise, mapped to one kind each. */
  datatype PipelineError =
    | ColumnNotFound(name: string)   // KeyError from `df['2020_census']`
    | DuplicateColumn(name: string)  // the label selects more than one column
    | NotNumeric(name: string)       // the column holds a value that is not an integer

  const CensusColumn: string := "2020_census"
  const TotalColumn: string := "total_population"

  /** Every row has one cell per column, as in any data frame. */
  predicate WellFormed(t: Table) {
    forall r :: r in t.rows ==> |r| == |t.columns|
  }

  /** A row `dropna()` keeps: no cell is missing. */
  predicate Complete(r: Row): (b: bool)
    ensures b <==> forall i :: 0 <= i < |r| ==> r[i].Some?
  {
    None !in r
  }

  // ---------------------------------------------------------------------------
  // clean_data
  // ---------------------------------------------------------------------------

  /** `rows.dropna()`: the complete rows, in their original order. */
  function DropMissing(rows: seq<Row>): (kept: seq<Row>)
    ensures |kept| <= |rows|
    ensures forall r :: r in kept ==> r in rows && Complete(r)
  {
    if rows == [] then []
    else if Complete(rows[0]) then [rows[0]] + DropMissing(rows[1..])
    else DropMissing(rows[1..])
  }

  /** The positions, from `lo` on, of the rows that have no missing cell. */
  function CompleteFrom(rows: seq<Row>, lo: nat): (idx: seq<nat>)
    requires lo <= |rows|
    ensures forall k :: 0 <= k < |idx| ==> lo <= idx[k] < |rows| && Complete(rows[idx[k]])
    ensures forall k, l :: 0 <= k < l < |idx| ==> idx[k] < idx[l]
    ensures forall i :: lo <= i < |rows| && Complete(rows[i]) ==> i in idx
    decreases |rows| - lo
  {
    if lo == |rows| then []
    else if Complete(rows[lo]) then [lo] + CompleteFrom(rows, lo + 1)
    else CompleteFrom(rows, lo + 1)
  }

  /** The positions of all complete rows, increasing. */
  function CompleteIndices(rows: seq<Row>): (idx: seq<nat>)
    ensures forall k :: 0 <= k < |idx| ==> idx[k] < |rows| && Complete(rows[idx[k]])
    ensures forall k, l :: 0 <= k < l < |idx| ==> idx[k] < idx[l]
    ensures forall i :: 0 <= i < |rows| && Complete(rows[i]) ==> i in idx
  {
    CompleteFrom(rows, 0)
  }

  /** The rows `dropna()` removes, in order. */
  function MissingRows(rows: seq<Row>): (dropped: seq<Row>)
    ensures forall r :: r in dropped ==> r in rows && !Complete(r)
    ensures multiset(DropMissing(rows)) + multiset(dropped) == multiset(rows)
  {
    if rows == [] then []
    else
      assert rows == [rows[0]] + rows[1..];
      if Complete(rows[0]) then MissingRows(rows[1..])
      else [rows[0]] + MissingRows(rows[1..])
  }

  /** How many rows have at least one missing cell. */
  function CountMissing(rows: seq<Row>): (n: nat)
    ensures n <= |rows|
  {
    if rows == [] then 0
    else (if Complete(rows[0]) then 0 else 1) + CountMissing(rows[1..])
  }

  /** The first step of `clean_data`: drop the incomplete rows, keep the headers. */
  function DropIncomplete(t: Table): (r: Table)
    ensures r.columns == t.columns
    ensures |r.rows| <= |t.rows|
    ensures WellFormed(t) ==> WellFormed(r)
  {
    Table(t.columns, DropMissing(t.rows))
  }

  /** The second step of `clean_data`: rewrite every header, keep the rows. */
  function RenameColumns(t: Table): (r: Table)
    ensures r.rows == t.rows
    ensures |r.columns| == |t.columns|
    ensures forall i :: 0 <= i < |r.columns| ==> IsNormalized(r.columns[i])
    ensures WellFormed(t) ==> WellFormed(r)
  {
    Table(NormalizeAll(t.columns), t.rows)
  }

  /** `clean_data`: `dropna()`, then the header comprehension, on the copy `dropna()` returns. */
  function CleanData(t: Table): (r: Table)
    ensures |r.columns| == |t.columns|
    ensures forall i :: 0 <= i < |r.columns| ==> IsNormalized(r.columns[i])
    ensures |r.rows| <= |t.rows|
    ensures forall row :: row in r.rows ==> row in t.rows && Complete(row)
    ensures WellFormed(t) ==> WellFormed(r)
  {
    RenameColumns(DropIncomplete(t))
  }

  /** The rows at the given positions, in the order the positions are listed. */
  function Select(rows: seq<Row>, idx: seq<nat>): (picked: seq<Row>)
    requires forall k :: 0 <= k < |idx| ==> idx[k] < |rows|
    ensures |picked| == |idx|
    ensures forall k :: 0 <= k < |idx| ==> picked[k] == rows[idx[k]]
  {
    if idx == [] then [] else [rows[idx[0]]] + Select(rows, idx[1..])
  }

  /** From any start position, `dropna()` keeps the rows at the complete positions. */
  lemma {:induction false} DropMissingFrom(rows: seq<Row>, lo: nat)
    requires lo <= |rows|
    ensures DropMissing(rows[lo..]) == Select(rows, CompleteFrom(rows, lo))
    decreases |rows| - lo
  {
    var tail := rows[lo..];
    if lo == |rows| {
      assert tail == [];
    } else {
      DropMissingFrom(rows, lo + 1);
      assert tail[0] == rows[lo];
      assert tail[1..] == rows[lo + 1..];
      var ix := CompleteFrom(rows, lo + 1);
      if Complete(rows[lo]) {
        assert DropMissing(tail) == [rows[lo]] + DropMissing(rows[lo + 1..]);
        assert CompleteFrom(rows, lo) == [lo] + ix;
        assert ([lo] + ix)[1..] == ix;
        assert Select(rows, [lo] + ix) == [rows[lo]] + Select(rows, ix);
      } else {
        assert DropMissing(tail) == DropMissing(rows[lo + 1..]);
        assert CompleteFrom(rows, lo) == ix;
      }
    }
  }

  /** `dropna()` keeps exactly the complete rows, unchanged and in their original order. */
  lemma DropMissingSelects(rows: seq<Row>)
    ensures DropMissing(rows) == Select(rows, CompleteIndices(rows))
  {
    DropMissingFrom(rows, 0);
    assert rows[0..] == rows;
  }

  /** The row count after `dropna()` is the input count minus the incomplete rows. */
  lemma {:induction false} DropMissingCount(rows: seq<Row>)
    ensures |DropMissing(rows)| == |rows| - CountMissing(rows)
    ensures |MissingRows(rows)| == CountMissing(rows)
  {
    if rows != [] {
      DropMissingCount(rows[1..]);
    }
  }

  /** A table with no missing cell loses no row. */
  lemma {:induction false} DropMissingComplete(rows: seq<Row>)
    requires forall r :: r in rows ==> Complete(r)
    ensures DropMissing(rows) == rows
  {
    if rows != [] {
      DropMissingComplete(rows[1..]);
    }
  }

  /** Dropping incomplete rows twice is dropping them once. */
  lemma DropMissingIdempotent(rows: seq<Row>)
    ensures DropMissing(DropMissing(rows)) == DropMissing(rows)
  {
    DropMissingComplete(DropMissing(rows));
  }

  /** The headers after cleaning are the normalised input headers, position by position. */
  lemma CleanDataHeaders(t: Table)
    ensures |CleanData(t).columns| == |t.columns|
    ensures forall i :: 0 <= i < |t.columns| ==>
      CleanData(t).columns[i] == Normalize(t.columns[i])
  {
  }

  /** Which rows are dropped does not depend on the headers; filtering and renaming commute. */
  lemma CleanDataCommutes(t: Table, u: Table)
    requires t.rows == u.rows
    ensures CleanData(t).rows == CleanData(u).rows
    ensures CleanData(t) == DropIncomplete(RenameColumns(t))
  {
  }

  /** Cleaning a cleaned table changes nothing. */
  lemma CleanDataIdempotent(t: Table)
    ensures CleanData(CleanData(t)) == CleanData(t)
  {
    DropMissingIdempotent(t.rows);
    NormalizeAllIdempotent(t.columns);
  }

  // ---------------------------------------------------------------------------
  // process_data
  // ---------------------------------------------------------------------------

  /** The first position of `name` among the headers. */
  function IndexOf(cols: seq<string>, name: string): (i: nat)
    requires name in cols
    ensures i < |cols| && cols[i] == name
    ensures name !in cols[..i]
  {
    if cols[0] == name then 0
    else
      var j := IndexOf(cols[1..], name);
      assert cols[1..][..j] == cols[1..j + 1];
      j + 1
  }

  /** `df[name]` as a column selection: the one position holding `name`, or the error. */
  function Lookup(cols: seq<string>, name: string): (r: Result<nat, PipelineError>)
    ensures r.Ok? ==> r.value < |cols| && cols[r.value] == name
    ensures r.Ok? ==> forall j :: 0 <= j < |cols| && j != r.value ==> cols[j] != name
    ensures r.Err? ==> r.error == ColumnNotFound(name) || r.error == DuplicateColumn(name)
    ensures r == Err(ColumnNotFound(name)) <==> name !in cols
  {
    if name !in cols then Err(ColumnNotFound(name))
    else
      var i := IndexOf(cols, name);
      if name in cols[i + 1..] then Err(DuplicateColumn(name))
      else
        assert forall j :: 0 <= j < i ==> cols[j] == cols[..i][j];
        assert forall j :: i < j < |cols| ==> cols[j] == cols[i + 1..][j - i - 1];
        Ok(i)
  }

  /** A header held at exactly one position is found there. */
  lemma LookupFinds(cols: seq<string>, name: string, i: nat)
    requires i < |cols| && cols[i] == name
    requires forall j :: 0 <= j < |cols| && j != i ==> cols[j] != name
    ensures Lookup(cols, name) == Ok(i)
  {
    var k := IndexOf(cols, name);
    assert k == i;
    var rest := cols[i + 1..];
    forall j | 0 <= j < |rest| ensures rest[j] != name {
      assert rest[j] == cols[i + 1 + j];
    }
  }

  /** A header held at two positions makes the selection ambiguous. */
  lemma LookupAmbiguous(cols: seq<string>, name: string, i: nat, j: nat)
    requires i < j < |cols| && cols[i] == name && cols[j] == name
    ensures Lookup(cols, name) == Err(DuplicateColumn(name))
  {
  }

  /** Every cell of column `c` is missing or an integer, so the sum does not raise. */
  predicate NumericAt(rows: seq<Row>, c: nat): (b: bool)
    requires forall r :: r in rows ==> c < |r|
    ensures b <==> forall k :: 0 <= k < |rows| ==> rows[k][c].None? || rows[k][c].value.Num?
  {
    forall r: Row :: r in rows ==> r[c].None? || r[c].value.Num?
  }

  /** What a cell adds to a sum: missing values are skipped, as `skipna=True` does. */
  function CellValue(cell: Option<Cell>): (v: int)
    ensures cell.None? ==> v == 0
    ensures cell.Some? && !cell.value.Num? ==> v == 0
    ensures cell.Some? && cell.value.Num? ==> v == cell.value.n as int
    ensures -0x8000_0000_0000_0000 <= v < 0x8000_0000_0000_0000
  {
    if cell.Some? && cell.value.Num? then cell.value.n as int else 0
  }

  /** The exact sum of column `c`, before any machine-integer wrap-around. */
  function ColumnSum(rows: seq<Row>, c: nat): (s: int)
    requires forall r :: r in rows ==> c < |r|
    ensures -(|rows| * 0x8000_0000_0000_0000) <= s <= |rows| * 0x7FFF_FFFF_FFFF_FFFF
    ensures (forall k :: 0 <= k < |rows| ==> CellValue(rows[k][c]) == 0) ==> s == 0
  {
    if rows == [] then 0 else CellValue(rows[0][c]) + ColumnSum(rows[1..], c)
  }

  /** An int64 addition chain: the exact value reduced into the signed 64-bit range. */
  function Wrap64(x: int): (r: Int64)
    ensures (r as int - x) % TwoTo64 == 0
    ensures -0x8000_0000_0000_0000 <= x < 0x8000_0000_0000_0000 ==> r as int == x
  {
    ((x + 0x8000_0000_0000_0000) % TwoTo64 - 0x8000_0000_0000_0000) as Int64
  }

  /** `pd.DataFrame({'total_population': [total]})`. */
  function Summary(total: Int64): (s: Table)
    ensures s.columns == [TotalColumn] && |s.rows| == 1 && WellFormed(s)
    ensures s.rows[0] == [Some(Num(total))]
  {
    Table([TotalColumn], [[Some(Num(total))]])
  }

  /** `process_data`: the `2020_census` total as a one-row, one-column table. */
  function ProcessData(t: Table): (r: Result<Table, PipelineError>)
    requires WellFormed(t)
    ensures r.Ok? ==>
              && r.value.columns == [TotalColumn] && |r.value.rows| == 1
              && |r.value.rows[0]| == 1 && r.value.rows[0][0].Some? && r.value.rows[0][0].value.Num?
    ensures r == Err(ColumnNotFound(CensusColumn)) <==> CensusColumn !in t.columns
    ensures r.Ok? <==>
              && Lookup(t.columns, CensusColumn).Ok?
              && NumericAt(t.rows, Lookup(t.columns, CensusColumn).value)
  {
    match Lookup(t.columns, CensusColumn)
    case Err(e) => Err(e)
    case Ok(c) =>
      if NumericAt(t.rows, c) then Ok(Summary(Wrap64(ColumnSum(t.rows, c))))
      else Err(NotNumeric(CensusColumn))
  }

  /** The value `process_data` reports, when it succeeds. */
  function Total(t: Table): (n: Int64)
    requires WellFormed(t) && ProcessData(t).Ok?
  {
    ProcessData(t).value.rows[0][0].value.n
  }

  /** The sum of a concatenation is the sum of the parts. */
  lemma {:induction false} ColumnSumAppend(a: seq<Row>, b: seq<Row>, c: nat)
    requires forall r :: r in a + b ==> c < |r|
    ensures ColumnSum(a + b, c) == ColumnSum(a, c) + ColumnSum(b, c)
  {
    if a == [] {
      assert a + b == b;
    } else {
      assert (a + b)[0] == a[0];
      assert (a + b)[1..] == a[1..] + b;
      ColumnSumAppend(a[1..], b, c);
    }
  }

  /** Summing the raw rows is summing the kept rows plus the dropped rows. */
  lemma {:induction false} ColumnSumSplit(rows: seq<Row>, c: nat)
    requires forall r :: r in rows ==> c < |r|
    ensures ColumnSum(rows, c) == ColumnSum(DropMissing(rows), c) + ColumnSum(MissingRows(rows), c)
  {
    if rows != [] {
      ColumnSumSplit(rows[1..], c);
      if Complete(rows[0]) {
        ColumnSumAppend([rows[0]], DropMissing(rows[1..]), c);
      } else {
        ColumnSumAppend([rows[0]], MissingRows(rows[1..]), c);
      }
    }
  }

  /** The total is the sum of the census cells, wrapped to int64; an empty table totals 0. */
  lemma ProcessDataTotal(t: Table)
    requires WellFormed(t) && ProcessData(t).Ok?
    ensures Lookup(t.columns, CensusColumn).Ok?
    ensures Total(t) == Wrap64(ColumnSum(t.rows, Lookup(t.columns, CensusColumn).value))
    ensures t.rows == [] ==> Total(t) == 0
  {
  }

  /** `clean_data` followed by `process_data`, the in-memory part of `main`. */
  function CleanThenProcess(t: Table): (r: Result<Table, PipelineError>)
    requires WellFormed(t)
    ensures r == Err(ColumnNotFound(CensusColumn)) <==>
      forall i :: 0 <= i < |t.columns| ==> Normalize(t.columns[i]) != CensusColumn
  {
    CleanDataHeaders(t);
    ProcessData(CleanData(t))
  }

  /** After cleaning, the total covers every kept row: the raw sum minus the dropped rows' census values. */
  lemma CleanThenProcessTotal(t: Table)
    requires WellFormed(t) && CleanThenProcess(t).Ok?
    ensures Lookup(NormalizeAll(t.columns), CensusColumn).Ok?
    ensures
      var c := Lookup(NormalizeAll(t.columns), CensusColumn).value;
      Total(CleanData(t)) == Wrap64(ColumnSum(t.rows, c) - ColumnSum(MissingRows(t.rows), c))
  {
    var c := Lookup(NormalizeAll(t.columns), CensusColumn).value;
    ColumnSumSplit(t.rows, c);
  }
}

/** Record sets as the scripts hold them in pandas DataFrames: named
    columns, rows of string-keyed cells, and the column-level operations the
    pipelines use (`reindex`, column selection, `concat`, cell stringifying). */
module Frames {
  import opened Options
  import opened Dates
  import opened Sequences

  /** A cell: `None`/`NaN`/`NaT` (all `Null`), text, or a parsed timestamp. */
  datatype Value = Null | Str(text: string) | When(at: Stamp)

  /** One row, from column name to cell. */
  type Record = map<string, Value>

  /** A DataFrame: its ordered column labels and its rows. */
  datatype Table = Table(columns: seq<string>, rows: seq<Record>)

  /** Indexing a DataFrame with a label it lacks raises `KeyError`. */
  datatype Result<T> = Ok(value: T) | KeyError(column: string)

  /** The cell of `r` in column `c`; a column the row lacks reads as NaN,
      as pandas fills it when frames are aligned. */
  function Get(r: Record, c: string): Value {
    if c in r then r[c] else Null
  }

  predicate Distinct(cols: seq<string>) {
    forall i, j :: 0 <= i < j < |cols| ==> cols[i] != cols[j]
  }

  /** Distinct labels, and every row has exactly the table's columns. */
  predicate WellFormed(t: Table) {
    && Distinct(t.columns)
    && forall r <- t.rows :: r.Keys == set c | c in t.columns
  }

  /** Every cell of the table is text. */
  predicate AllText(t: Table) {
    forall r <- t.rows :: forall c <- r.Keys :: r[c].Str?
  }

  /** No cell of column `c` holds a timestamp: the frame was read as text. */
  predicate NoTimestamps(t: Table, c: string) {
    forall r <- t.rows :: !Get(r, c).When?
  }

  /** `Series.fillna(other)` / `combine_first` on one cell: a null takes the
      other side's value, anything else (the empty string included) stays. */
  function FillNa(a: Value, b: Value): Value {
    if a.Null? then b else a
  }

  /** `Series.astype(str)` on one cell. */
  function AsText(v: Value): string {
    match v
    case Null => "None"
    case Str(s) => s
    case When(t) => FormatIsoDateTime(t)
  }

  /** `str(cell) if cell is not None else ''`. */
  function CellText(v: Value): string {
    match v
    case Null => ""
    case Str(s) => s
    case When(t) => FormatIsoDateTime(t)
  }

  /** `cols` minus the labels in `have`, in the order of `cols`. */
  function Missing(cols: seq<string>, have: seq<string>): (m: seq<string>)
    ensures forall c <- m :: c in cols && c !in have
    ensures forall c <- cols :: c !in have ==> c in m
    ensures Distinct(cols) ==> Distinct(m)
  {
    if cols == [] then []
    else
      var rest := Missing(cols[1..], have);
      if cols[0] in have then rest
      else
        assert cols[0] !in cols[1..] ==> cols[0] !in rest;
        [cols[0]] + rest
  }

  /** One row conformed to `cols`. */
  function Conform(r: Record, cols: seq<string>): Record {
    map c | c in cols :: Get(r, c)
  }

  /** `DataFrame(rows).reindex(columns=cols, fill_value=None)`: exactly the
      columns `cols` in that order; a column a row lacks becomes null and a
      column not in `cols` is dropped. */
  function Reindex(rows: seq<Record>, cols: seq<string>): (t: Table)
    ensures t.columns == cols && |t.rows| == |rows|
    ensures forall r <- t.rows :: r.Keys == set c | c in cols
    ensures Distinct(cols) ==> WellFormed(t)
    ensures forall i, c :: 0 <= i < |rows| && c in cols && c in rows[i] ==> c in t.rows[i] && t.rows[i][c] == rows[i][c]
    ensures forall i, c :: 0 <= i < |rows| && c in cols && c !in rows[i] ==> c in t.rows[i] && t.rows[i][c] == Null
    ensures forall i, c :: 0 <= i < |rows| && c !in cols ==> c !in t.rows[i]
  {
    Table(cols, seq(|rows|, i requires 0 <= i < |rows| => Conform(rows[i], cols)))
  }

  /** `df[cols]`: `KeyError` naming a requested label the frame lacks,
      otherwise the rows restricted to `cols`, in that order. */
  function Project(t: Table, cols: seq<string>): (r: Result<Table>)
    ensures r.Ok? <==> forall c <- cols :: c in t.columns
    ensures r.KeyError? ==> r.column in cols && r.column !in t.columns
    ensures r.Ok? ==> r.value == Reindex(t.rows, cols)
  {
    var absent := Missing(cols, t.columns);
    if absent != [] then
      assert absent[0] in absent;
      KeyError(absent[0])
    else Ok(Reindex(t.rows, cols))
  }

  /** `df[col] = f(df[col])`: column `col` of every row replaced by `f` of
      its value, every other cell kept. */
  function MapColumn(t: Table, col: string, f: Value -> Value): (u: Table)
    ensures u.columns == t.columns && |u.rows| == |t.rows|
    ensures forall i :: 0 <= i < |t.rows| ==> Get(u.rows[i], col) == f(Get(t.rows[i], col))
    ensures forall i, c :: 0 <= i < |t.rows| && c != col ==> Get(u.rows[i], c) == Get(t.rows[i], c)
    ensures col in t.columns && WellFormed(t) ==> WellFormed(u)
  {
    Table(t.columns, seq(|t.rows|, i requires 0 <= i < |t.rows| => t.rows[i][col := f(Get(t.rows[i], col))]))
  }

  lemma DistinctAppend(a: seq<string>, b: seq<string>)
    requires Distinct(a) && Distinct(b) && forall c <- b :: c !in a
    ensures Distinct(a + b)
  {
    forall i, j | 0 <= i < j < |a + b| ensures (a + b)[i] != (a + b)[j] {
      if i < |a| && |a| <= j {
        assert (a + b)[j] == b[j - |a|] && b[j - |a|] in b;
      }
    }
  }

  /** The labels at positions `lo` to `hi` each differ from every later
      label; a fixed list is shown `Distinct` a few positions at a time. */
  predicate DistinctFrom(cs: seq<string>, lo: nat, hi: nat) {
    forall i, j :: lo <= i < hi && i < j < |cs| ==> cs[i] != cs[j]
  }

  /** `pd.concat([a, b], ignore_index=True)`: the rows of `a` then those of
      `b`, over the union of their columns (those of `a` first); a column one
      side lacks is null there. */
  function Concat(a: Table, b: Table): (t: Table)
    ensures t.columns == a.columns + Missing(b.columns, a.columns)
    ensures |t.rows| == |a.rows| + |b.rows|
    ensures forall r <- t.rows :: r.Keys == set c | c in t.columns
    ensures forall i, c :: 0 <= i < |a.rows| && c in t.columns ==> Get(t.rows[i], c) == Get(a.rows[i], c)
    ensures forall i, c :: 0 <= i < |b.rows| && c in t.columns ==> Get(t.rows[|a.rows| + i], c) == Get(b.rows[i], c)
    ensures Distinct(a.columns) && Distinct(b.columns) ==> WellFormed(t)
  {
    var cols := a.columns + Missing(b.columns, a.columns);
    if Distinct(a.columns) && Distinct(b.columns) then
      DistinctAppend(a.columns, Missing(b.columns, a.columns));
      Reindex(a.rows + b.rows, cols)
    else Reindex(a.rows + b.rows, cols)
  }

  /** A label is a column of `Concat(a, b)` exactly when one side has it. */
  lemma ConcatColumns(a: Table, b: Table)
    ensures forall c :: c in Concat(a, b).columns <==> c in a.columns || c in b.columns
  {
  }

  /** One cell of `Concat(a, b)`: null in a column the result lacks,
      otherwise the cell of the row it came from. */
  lemma ConcatCell(a: Table, b: Table, i: nat, c: string)
    requires i < |a.rows| + |b.rows|
    ensures var t := Concat(a, b);
      && |t.rows| == |a.rows| + |b.rows|
      && Get(t.rows[i], c) ==
         if c !in t.columns then Null
         else if i < |a.rows| then Get(a.rows[i], c)
         else Get(b.rows[i - |a.rows|], c)
  {
    var t := Concat(a, b);
    assert t.rows[i] in t.rows;
    if i >= |a.rows| {
      assert t.rows[|a.rows| + (i - |a.rows|)] == t.rows[i];
    }
  }

  /** A column of the appended frame reads, in `Concat`, as it did there. */
  lemma ConcatRightCell(a: Table, b: Table, q: nat, c: string)
    requires c in b.columns && q < |b.rows|
    ensures |a.rows| + q < |Concat(a, b).rows|
    ensures Get(Concat(a, b).rows[|a.rows| + q], c) == Get(b.rows[q], c)
  {
    if c !in a.columns {
      assert c in Missing(b.columns, a.columns);
    }
  }

  /** Selecting labels every row has keeps each selected cell as it was. */
  lemma ProjectCells(t: Table, cols: seq<string>)
    requires forall c <- cols :: c in t.columns
    requires forall r <- t.rows :: r.Keys == set c | c in t.columns
    ensures Project(t, cols).Ok?
    ensures var u := Project(t, cols).value;
      && u.columns == cols && |u.rows| == |t.rows|
      && (forall i, c :: 0 <= i < |t.rows| && c in cols ==> c in u.rows[i] && u.rows[i][c] == t.rows[i][c])
      && (AllText(t) ==> AllText(u))
      && (Distinct(cols) ==> WellFormed(u))
  {
    var u := Project(t, cols).value;
    forall i, c | 0 <= i < |t.rows| && c in cols ensures c in u.rows[i] && u.rows[i][c] == t.rows[i][c] {
      assert t.rows[i] in t.rows;
    }
    if AllText(t) {
      forall r | r in u.rows ensures forall c <- r.Keys :: r[c].Str? {
        var i :| 0 <= i < |u.rows| && u.rows[i] == r;
        assert t.rows[i] in t.rows;
      }
    }
  }

  // ------------------------------------------------- sheet grid (text rows)

  /** A row's cells as text, in column order. */
  function RowCells(r: Record, cols: seq<string>): (cells: seq<string>)
    ensures |cells| == |cols|
    ensures forall j :: 0 <= j < |cols| ==> cells[j] == CellText(Get(r, cols[j]))
  {
    seq(|cols|, j requires 0 <= j < |cols| => CellText(Get(r, cols[j])))
  }

  /** `[df.columns.values.tolist()] + df.values.tolist()` with every cell
      stringified: the header row, then one text row per record, in order. */
  function ToGrid(t: Table): (g: seq<seq<string>>)
    ensures |g| == |t.rows| + 1 && g[0] == t.columns
    ensures forall i :: 0 <= i < |t.rows| ==> g[i + 1] == RowCells(t.rows[i], t.columns)
  {
    [t.columns] + seq(|t.rows|, i requires 0 <= i < |t.rows| => RowCells(t.rows[i], t.columns))
  }

  /** One sheet row read back under `header`. */
  function RowOf(header: seq<string>, cells: seq<string>): Record
    requires |cells| == |header|
  {
    map c | c in header :: Str(cells[Position(header, c)])
  }

  /** `pd.DataFrame(data[1:], columns=data[0])` over a sheet's values:
      `None` for an empty sheet (`data[0]` raises) and for shapes a `Table`
      does not represent (repeated header labels, rows of another width). */
  function ReadTable(grid: seq<seq<string>>): (r: Option<Table>)
    ensures r.Some? ==> WellFormed(r.value) && AllText(r.value)
    ensures r.Some? ==> grid != [] && r.value.columns == grid[0] && |r.value.rows| == |grid| - 1
  {
    if grid == [] || !Distinct(grid[0]) then None
    else if exists i :: 1 <= i < |grid| && |grid[i]| != |grid[0]| then None
    else Some(Table(grid[0], seq(|grid| - 1, i requires 0 <= i < |grid| - 1 => RowOf(grid[0], grid[i + 1]))))
  }

  /** The cells as a sheet stores them: each one replaced by its text. */
  function AsWritten(t: Table): Table {
    Table(t.columns, seq(|t.rows| , i requires 0 <= i < |t.rows| =>
      map c | c in t.rows[i] :: Str(CellText(t.rows[i][c]))))
  }

  /** A table that holds only text is stored unchanged. */
  lemma AsWrittenText(t: Table)
    requires AllText(t)
    ensures AsWritten(t) == t
  {
    forall i | 0 <= i < |t.rows| ensures AsWritten(t).rows[i] == t.rows[i] {
      assert t.rows[i] in t.rows;
    }
  }

  lemma DistinctPosition(cols: seq<string>, j: nat)
    requires Distinct(cols) && j < |cols|
    ensures Position(cols, cols[j]) == j
  {
  }

  lemma RowReadBack(r: Record, cols: seq<string>)
    requires Distinct(cols) && r.Keys == set c | c in cols
    ensures RowOf(cols, RowCells(r, cols)) == map c | c in r :: Str(CellText(r[c]))
  {
    var cells := RowCells(r, cols);
    forall c | c in cols ensures RowOf(cols, cells)[c] == Str(CellText(r[c])) {
      var j := Position(cols, c);
      DistinctPosition(cols, j);
    }
  }

  /** What `ToGrid` writes, `ReadTable` reads back as the same table with
      every cell replaced by its text (a null comes back as `''`). */
  lemma ReadBackWritten(t: Table)
    requires WellFormed(t)
    ensures ReadTable(ToGrid(t)) == Some(AsWritten(t))
  {
    var g := ToGrid(t);
    forall i | 1 <= i < |g| ensures |g[i]| == |g[0]| {
      assert g[i] == RowCells(t.rows[i - 1], t.columns);
    }
    var back := seq(|g| - 1, i requires 0 <= i < |g| - 1 => RowOf(g[0], g[i + 1]));
    forall i | 0 <= i < |t.rows| ensures back[i] == AsWritten(t).rows[i] {
      assert t.rows[i] in t.rows;
      RowReadBack(t.rows[i], t.columns);
    }
    assert back == AsWritten(t).rows;
  }
}

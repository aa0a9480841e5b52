/** `eccn_MCM.py`: the export's composite key and fixed schema, then the
    reconciliation of the export (the source) into the worksheet (the
    destination): key and date normalisation, left merge with null filling,
    new-row detection, the (date descending, invoice ascending) sort,
    rendering, projection and the guarded clear-then-write. */
module Mcm {
  import opened Options
  import opened Text
  import opened Dates
  import opened Sequences
  import opened Frames
  import opened Sheets

  const Key := "Subform_id"
  const DateColumn := "Date of Order Received"
  const Invoice := "Raptor Invoice"
  const Sku := "Grainger SKU"
  const GrKeyColumn := "grkey"
  const Remarks := "Remarks"
  const CrmStatus := "CRM Update Status"

  /** The export's schema. `'COO''Remarks'` is one literal, so the list has
      a single `COORemarks` column and neither `COO` nor `Remarks`. */
  const OrderedColumns: seq<string> := [
    "Invoice_ID", "Subform_id", "Lead Zoho ID", "version_id", "Product_id", "SNO",
    "Product Name", "Version Sheet.Stage", "Raptor Invoice", "grkey",
    "Date of Order Received", "Shipping Country", "Inco Term", "Raptor SKU",
    "Grainger SKU", "Grainger/Non_Grainger", "Rpt_Billing_Entity_supplier", "ECCN",
    "HS_code", "COORemarks", "CRM Update Status"]

  /** The worksheet's column order. */
  const NewOrder: seq<string> := [
    "Invoice_ID", "Subform_id", "Lead Zoho ID", "version_id", "Product_id", "SNO",
    "Product Name", "Version Sheet.Stage", "Raptor Invoice", "grkey",
    "Date of Order Received", "Shipping Country", "Inco Term", "Raptor SKU",
    "Grainger SKU", "Grainger/Non_Grainger", "Rpt_Billing_Entity_supplier", "ECCN",
    "HS_code", "COO", "Remarks", "CRM Update Status"]

  lemma OrderedColumnsDistinct()
    ensures Distinct(OrderedColumns)
  {
    OrderedColumnsHead();
    OrderedColumnsMiddle();
    OrderedColumnsTail();
  }

  lemma OrderedColumnsHead() ensures DistinctFrom(OrderedColumns, 0, 5) {}
  lemma OrderedColumnsMiddle() ensures DistinctFrom(OrderedColumns, 5, 11) {}
  lemma OrderedColumnsTail() ensures DistinctFrom(OrderedColumns, 11, 21) {}

  lemma NewOrderDistinct()
    ensures Distinct(NewOrder)
  {
    NewOrderHead();
    NewOrderMiddle();
    NewOrderTail();
  }

  lemma NewOrderHead() ensures DistinctFrom(NewOrder, 0, 5) {}
  lemma NewOrderMiddle() ensures DistinctFrom(NewOrder, 5, 11) {}
  lemma NewOrderTail() ensures DistinctFrom(NewOrder, 11, 22) {}

  // ------------------------------------------------------ export shaping

  lemma ExportSchema()
    ensures GrKeyColumn in OrderedColumns && CrmStatus in OrderedColumns
    ensures "COO" !in OrderedColumns && Remarks !in OrderedColumns
  {
    assert OrderedColumns[9] == GrKeyColumn && OrderedColumns[20] == CrmStatus;
    ExportLacksCoo();
    ExportLacksRemarks();
  }

  lemma ExportLacksCoo() ensures "COO" !in OrderedColumns {}
  lemma ExportLacksRemarks() ensures Remarks !in OrderedColumns {}

  /** `Raptor Invoice`'s text before the first `|` (all of it when there is
      none) followed directly by `Grainger SKU`; null when either is null. */
  function GrKey(r: Record): (k: Value)
    ensures k.Str? <==> Get(r, Invoice).Str? && Get(r, Sku).Str?
    ensures !k.Str? ==> k == Null
    ensures k.Str? ==>
      var inv, sku := Get(r, Invoice).text, Get(r, Sku).text;
      && |k.text| >= |sku| && k.text[|k.text| - |sku|..] == sku
      && var p := k.text[..|k.text| - |sku|];
         p <= inv && '|' !in p && (|p| < |inv| ==> inv[|p|] == '|')
  {
    match (Get(r, Invoice), Get(r, Sku))
    case (Str(inv), Str(sku)) =>
      FirstField(inv, '|');
      var p := Split(inv, '|')[0];
      assert (p + sku)[..|p|] == p;
      Str(p + sku)
    case _ => Null
  }

  /** Lines 56-57 on one exported row: add `grkey`, and set `Remarks` and
      `CRM Update Status` to the empty string. */
  function Prepare(r: Record): Record {
    r[GrKeyColumn := GrKey(r)][Remarks := Str("")][CrmStatus := Str("")]
  }

  predicate HasColumn(records: seq<Record>, c: string) {
    exists r <- records :: c in r
  }

  /** The exported rows shaped into the export's table (lines 55-63): a
      `KeyError` when no row has `Raptor Invoice` or `Grainger SKU` (the
      frame then lacks that column), otherwise the prepared rows reindexed
      to `OrderedColumns`. */
  function ShapeExport(records: seq<Record>): (r: Result<Table>)
    ensures r.KeyError? <==> !HasColumn(records, Invoice) || !HasColumn(records, Sku)
    ensures r.KeyError? ==> r.column == if HasColumn(records, Invoice) then Sku else Invoice
    ensures r.Ok? ==> r.value.columns == OrderedColumns && |r.value.rows| == |records| && WellFormed(r.value)
    ensures r.Ok? ==> "COO" !in r.value.columns && Remarks !in r.value.columns
    ensures r.Ok? ==> forall i :: 0 <= i < |records| ==>
      && r.value.rows[i][GrKeyColumn] == GrKey(records[i])
      && r.value.rows[i][CrmStatus] == Str("")
      && forall c <- r.value.columns :: c != GrKeyColumn && c != CrmStatus ==> r.value.rows[i][c] == Get(records[i], c)
  {
    if !HasColumn(records, Invoice) then KeyError(Invoice)
    else if !HasColumn(records, Sku) then KeyError(Sku)
    else
      OrderedColumnsDistinct();
      ExportSchema();
      var prepared := seq(|records|, i requires 0 <= i < |records| => Prepare(records[i]));
      PreparedRows(records, prepared);
      Ok(Reindex(prepared, OrderedColumns))
  }

  lemma PreparedRows(records: seq<Record>, prepared: seq<Record>)
    requires |prepared| == |records| && forall i :: 0 <= i < |records| ==> prepared[i] == Prepare(records[i])
    ensures var t := Reindex(prepared, OrderedColumns);
      forall i :: 0 <= i < |records| ==>
        && t.rows[i][GrKeyColumn] == GrKey(records[i])
        && t.rows[i][CrmStatus] == Str("")
        && forall c <- t.columns :: c != GrKeyColumn && c != CrmStatus ==> t.rows[i][c] == Get(records[i], c)
  {
    var t := Reindex(prepared, OrderedColumns);
    ExportSchema();
    forall i, c | 0 <= i < |records| && c in t.columns && c != GrKeyColumn && c != CrmStatus
      ensures t.rows[i][c] == Get(records[i], c)
    {
      assert c != Remarks;
      assert Get(prepared[i], c) == Get(records[i], c);
    }
  }

  // ------------------------------------------ per-column normalisation

  /** `astype(str)` on a key cell. */
  function KeyText(v: Value): Value {
    Str(AsText(v))
  }

  /** `pd.to_datetime(..., format='%d/%m/%Y', errors='coerce')` on a cell. */
  function DayFirstDate(v: Value): Value {
    match v
    case Null => Null
    case When(t) => When(t)
    case Str(s) =>
      match ParseDayMonthYear(s)
      case Some(t) => When(t)
      case None => Null
  }

  /** Lines 89-90 and 97/100 on one frame: the key as text, the date
      parsed. */
  function Normalise(t: Table): Table {
    MapColumn(MapColumn(t, Key, KeyText), DateColumn, DayFirstDate)
  }

  // -------------------------------------------------------- left merge

  /** A row of `gsheets_df.merge(zoho_df, on='Subform_id', how='left',
      suffixes=('', '_zoho'))`: the destination row and the matching source
      row (the empty map, every cell null, when nothing matched). The
      `_zoho` columns of pandas are the `zoho` side here. */
  datatype Joined = Joined(dest: Record, zoho: Record)

  /** Source rows whose key equals `k`, in source order. */
  function Matches(src: seq<Record>, k: Value): (ms: seq<Record>)
    ensures forall z <- ms :: z in src && Get(z, Key) == k
    ensures forall z <- src :: Get(z, Key) == k ==> z in ms
  {
    Filter(src, (z: Record) => Get(z, Key) == k)
  }

  /** Row `d` paired with each of `ms`, in order. */
  function Pairs(d: Record, ms: seq<Record>): (js: seq<Joined>)
    ensures |js| == |ms|
    ensures forall k :: 0 <= k < |ms| ==> js[k] == Joined(d, ms[k])
  {
    if ms == [] then [] else [Joined(d, ms[0])] + Pairs(d, ms[1..])
  }

  /** The merge rows one destination row produces: one per matching source
      row, or one with no match. */
  function JoinOne(d: Record, src: seq<Record>): (js: seq<Joined>)
    ensures |js| >= 1
    ensures forall j <- js :: j.dest == d
    ensures forall j <- js :: j.zoho == map[] || (j.zoho in src && Get(j.zoho, Key) == Get(d, Key))
    ensures var ms := Matches(src, Get(d, Key));
      && (ms == [] ==> js == [Joined(d, map[])])
      && (ms != [] ==> |js| == |ms| && forall k :: 0 <= k < |ms| ==> js[k] == Joined(d, ms[k]))
  {
    var ms := Matches(src, Get(d, Key));
    if ms == [] then [Joined(d, map[])]
    else Pairs(d, ms)
  }

  /** The left merge, in destination order. */
  function LeftJoin(dests: seq<Record>, src: seq<Record>): (js: seq<Joined>)
    ensures |js| >= |dests|
    ensures forall j <- js :: j.dest in dests
    ensures forall j <- js :: j.zoho == map[] || (j.zoho in src && Get(j.zoho, Key) == Get(j.dest, Key))
  {
    if dests == [] then []
    else
      var first, rest := JoinOne(dests[0], src), LeftJoin(dests[1..], src);
      assert forall j <- rest :: j.dest in dests;
      first + rest
  }

  /** Whether the loop at lines 110-117 refreshes column `c`: it is a
      destination column that the source also has (so the merge carries a
      `c_zoho` twin), other than the merge key. */
  predicate Refreshable(c: string, destCols: seq<string>, srcCols: seq<string>) {
    c in destCols && c in srcCols && c != Key
  }

  /** A merge row once the columns in `srcCols` have been refreshed: each
      refreshable destination cell that is null takes the source's value. */
  function FillColumns(j: Joined, destCols: seq<string>, srcCols: seq<string>): Joined {
    Joined(map c | c in j.dest ::
             if Refreshable(c, destCols, srcCols) then FillNa(j.dest[c], Get(j.zoho, c)) else j.dest[c],
           j.zoho)
  }

  /** One column's refresh on one merge row:
      `merged_df[col] = merged_df[col].fillna(merged_df[col + '_zoho'])`
      (`combine_first` for the date column has the same effect on a cell). */
  function FillOne(j: Joined, col: string): Joined {
    if col in j.dest then Joined(j.dest[col := FillNa(j.dest[col], Get(j.zoho, col))], j.zoho) else j
  }

  lemma FillStep(j: Joined, destCols: seq<string>, done: seq<string>, col: string)
    ensures FillColumns(j, destCols, done + [col])
         == if col in destCols && col != Key then FillOne(FillColumns(j, destCols, done), col)
            else FillColumns(j, destCols, done)
  {
  }

  /** The loop at lines 110-117, column by column over the source's columns
      and row by row down each refreshed column. The `elif` branch of the
      source never applies: pandas suffixes only the labels both frames
      share, so a source label is always a column of the merge. */
  method FillFromSource(joined: seq<Joined>, destCols: seq<string>, srcCols: seq<string>)
    returns (filled: seq<Joined>)
    ensures |filled| == |joined|
    ensures forall i :: 0 <= i < |joined| ==> filled[i] == FillColumns(joined[i], destCols, srcCols)
  {
    filled := joined;
    for k := 0 to |srcCols|
      invariant |filled| == |joined|
      invariant forall i :: 0 <= i < |joined| ==> filled[i] == FillColumns(joined[i], destCols, srcCols[..k])
    {
      var col := srcCols[k];
      assert srcCols[..k + 1] == srcCols[..k] + [col];
      if col in destCols && col != Key {
        for i := 0 to |filled|
          invariant |filled| == |joined|
          invariant forall m :: 0 <= m < i ==> filled[m] == FillColumns(joined[m], destCols, srcCols[..k + 1])
          invariant forall m :: i <= m < |joined| ==> filled[m] == FillColumns(joined[m], destCols, srcCols[..k])
        {
          FillStep(joined[i], destCols, srcCols[..k], col);
          filled := filled[i := FillOne(filled[i], col)];
        }
      } else {
        forall i | 0 <= i < |joined| {
          FillStep(joined[i], destCols, srcCols[..k], col);
        }
      }
    }
    assert srcCols[..|srcCols|] == srcCols;
  }

  /** The specification of `FillFromSource` over a whole merge. */
  function FillAll(js: seq<Joined>, destCols: seq<string>, srcCols: seq<string>): seq<Joined> {
    seq(|js|, i requires 0 <= i < |js| => FillColumns(js[i], destCols, srcCols))
  }

  predicate HasSuffix(c: string) {
    |c| >= 5 && c[|c| - 5..] == "_zoho"
  }

  /** The merge's columns once every label ending in `_zoho` is dropped
      (line 120): the destination's, then the source-only ones. */
  function MergedColumns(destCols: seq<string>, srcCols: seq<string>): seq<string> {
    Filter(destCols + Missing(srcCols, destCols), (c: string) => !HasSuffix(c))
  }

  /** A filled merge row over the kept columns: destination columns from the
      destination side, source-only columns from the source side. */
  function Flatten(j: Joined, destCols: seq<string>, cols: seq<string>): Record {
    map c | c in cols :: if c in destCols then Get(j.dest, c) else Get(j.zoho, c)
  }

  /** Lines 107-120: left merge, null filling, suffix columns dropped. */
  function Merge(dest: Table, src: Table): (t: Table)
    ensures t.columns == MergedColumns(dest.columns, src.columns)
    ensures |t.rows| == |LeftJoin(dest.rows, src.rows)| >= |dest.rows|
  {
    var cols := MergedColumns(dest.columns, src.columns);
    var filled := FillAll(LeftJoin(dest.rows, src.rows), dest.columns, src.columns);
    Table(cols, seq(|filled|, i requires 0 <= i < |filled| => Flatten(filled[i], dest.columns, cols)))
  }

  /** The keys a frame's rows carry. */
  function KeySet(rows: seq<Record>): set<Value> {
    set r | r in rows :: Get(r, Key)
  }

  /** Line 123: source rows whose key is not among the destination's keys,
      in source order, with all the source's columns. */
  function NewRows(src: Table, dest: Table): Table {
    var known := KeySet(dest.rows);
    Table(src.columns, Filter(src.rows, (z: Record) => Get(z, Key) !in known))
  }

  /** Line 130: the merge followed by the new rows. */
  function Combined(src: Table, dest: Table): Table {
    Concat(Merge(dest, src), NewRows(src, dest))
  }

  // -------------------------------------------------------------- sort

  function DateOf(r: Record): Option<Stamp> {
    match Get(r, DateColumn)
    case When(t) => Some(t)
    case _ => None
  }

  function InvoiceOf(r: Record): Option<string> {
    match Get(r, Invoice)
    case Str(s) => Some(s)
    case _ => None
  }

  /** Dates descending, NaT after every date. */
  predicate DateFirst(a: Option<Stamp>, b: Option<Stamp>) {
    match (a, b)
    case (Some(x), Some(y)) => AtOrBefore(y, x)
    case (Some(_), None) => true
    case (None, Some(_)) => false
    case (None, None) => true
  }

  /** Invoices ascending, null after every invoice. */
  predicate InvoiceFirst(a: Option<string>, b: Option<string>) {
    match (a, b)
    case (Some(x), Some(y)) => LexLe(x, y)
    case (Some(_), None) => true
    case (None, Some(_)) => false
    case (None, None) => true
  }

  /** `sort_values(by=['Date of Order Received', 'Raptor Invoice'],
      ascending=[False, True], na_position='last')`: `a` may come before `b`. */
  predicate OrderedBefore(a: Record, b: Record) {
    if DateOf(a) == DateOf(b) then InvoiceFirst(InvoiceOf(a), InvoiceOf(b))
    else DateFirst(DateOf(a), DateOf(b))
  }

  // ----------------------------------------------------------- render

  /** Lines 137 and 140 on one cell: a date as `%d/%m/%Y`, NaT and null as
      `''`, and the text `'NaT'` or `'NaN'` replaced by `''` as well. Line 137
      formats the date column alone; both frames are read as text and
      only the date column is ever parsed, so no other column holds a
      timestamp and rendering one the same way wherever it appears agrees
      with the script. */
  function RenderCell(v: Value): Value {
    match v
    case Null => Str("")
    case When(t) => Str(FormatDayMonthYear(t))
    case Str(s) => if s == "NaT" || s == "NaN" then Str("") else Str(s)
  }

  function RenderRow(r: Record): Record {
    map c | c in r :: RenderCell(r[c])
  }

  function RenderRows(rows: seq<Record>): seq<Record> {
    seq(|rows|, i requires 0 <= i < |rows| => RenderRow(rows[i]))
  }

  // ----------------------------------------------------- whole pipeline

  /** The four columns `sort_and_append_to_gsheets` reads before the merge. */
  predicate HasInputColumns(src: Table, dest: Table) {
    Key in src.columns && Key in dest.columns && DateColumn in src.columns && DateColumn in dest.columns
  }

  /** The merged and appended rows in their sorted order (line 133). */
  function Reconciled(src: Table, dest: Table): seq<Record> {
    Sort(Combined(Normalise(src), Normalise(dest)).rows, OrderedBefore)
  }

  /** Lines 87-145: what `sort_and_append_to_gsheets` hands to
      `append_to_gsheets`, or the `KeyError` it raises first. */
  function Reconcile(src: Table, dest: Table): (r: Result<Table>) {
    if Key !in src.columns then KeyError(Key)
    else if Key !in dest.columns then KeyError(Key)
    else if DateColumn !in src.columns then KeyError(DateColumn)
    else if DateColumn !in dest.columns then KeyError(DateColumn)
    else
      var combined := Combined(Normalise(src), Normalise(dest));
      if Invoice !in combined.columns then KeyError(Invoice)
      else Project(Table(combined.columns, RenderRows(Sort(combined.rows, OrderedBefore))), NewOrder)
  }

  // -------------------------------------------------------- write-back

  /** Lines 155-172 of `append_to_gsheets`: an empty frame leaves the sheet
      as it was; otherwise the sheet is cleared and then holds the header row
      followed by every row, each cell as text. */
  method AppendToSheet(sheet: Sheet, t: Table) returns (wrote: bool)
    modifies sheet
    ensures wrote == (t.rows != [] && t.columns != [])
    ensures wrote ==> sheet.grid == ToGrid(t)
    ensures !wrote ==> sheet.grid == old(sheet.grid)
  {
    if t.rows == [] || t.columns == [] {
      return false;
    }
    var data := ToGrid(t);
    sheet.Clear();
    sheet.AppendRows(data);
    return true;
  }

  /** `sort_and_append_to_gsheets` run step by step, ending in the write.
      It fails with the `KeyError` `Reconcile` names, before touching the
      sheet; otherwise it writes what `Reconcile` computes. */
  method SortAndAppend(sheet: Sheet, zoho: Table, gsheets: Table) returns (r: Result<bool>)
    modifies sheet
    ensures r.KeyError? <==> Reconcile(zoho, gsheets).KeyError?
    ensures r.KeyError? ==> r.column == Reconcile(zoho, gsheets).column && sheet.grid == old(sheet.grid)
    ensures r.Ok? ==>
      var t := Reconcile(zoho, gsheets).value;
      && r.value == (t.rows != [])
      && sheet.grid == (if r.value then ToGrid(t) else old(sheet.grid))
  {
    var z, g := zoho, gsheets;
    if Key !in z.columns { return KeyError(Key); }
    if Key !in g.columns { return KeyError(Key); }
    z := MapColumn(z, Key, KeyText);
    g := MapColumn(g, Key, KeyText);
    if DateColumn !in z.columns { return KeyError(DateColumn); }
    z := MapColumn(z, DateColumn, DayFirstDate);
    if DateColumn !in g.columns { return KeyError(DateColumn); }
    g := MapColumn(g, DateColumn, DayFirstDate);

    var joined := LeftJoin(g.rows, z.rows);
    var filled := FillFromSource(joined, g.columns, z.columns);
    assert filled == FillAll(joined, g.columns, z.columns);
    var cols := MergedColumns(g.columns, z.columns);
    var merged := Table(cols, seq(|filled|, i requires 0 <= i < |filled| => Flatten(filled[i], g.columns, cols)));
    assert merged == Merge(g, z);
    var added := NewRows(z, g);
    merged := Concat(merged, added);

    if Invoice !in merged.columns { return KeyError(Invoice); }
    var sorted := Sort(merged.rows, OrderedBefore);
    var shown := Table(merged.columns, RenderRows(sorted));
    var projected := Project(shown, NewOrder);
    if projected.KeyError? { return KeyError(projected.column); }
    var wrote := AppendToSheet(sheet, projected.value);
    return Ok(wrote);
  }
}

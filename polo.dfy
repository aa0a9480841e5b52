/** `eccn_MCM_polo.py`: the export rows the worksheet lacks are found by
    their stripped `Subform_id`, appended to the worksheet's rows, and the
    rows with a readable order date are written back in date order. */
module Polo {
  import opened Options
  import opened Text
  import opened Dates
  import opened Sequences
  import opened Frames
  import opened Sheets

  const Key := "Subform_id"
  const DateColumn := "Date of Order Received"

  /** The columns written back, in sheet order (lines 150-152). */
  const NewOrder: seq<string> := [
    "Subform_id", "Lead Zoho ID", "version_id", "Product_id", "Product Name",
    "Version Sheet.Stage", "Raptor Invoice", "Date of Order Received", "Shipping Country",
    "Inco Term", "Raptor SKU", "Grainger SKU", "Grainger/Non_Grainger",
    "Rpt_Billing_Entity_supplier", "ECCN", "HS_code", "COO"
  ]

  lemma NewOrderDistinct()
    ensures Distinct(NewOrder)
  {
    NewOrderHead();
    NewOrderMiddle();
    NewOrderTail();
  }

  lemma NewOrderHead() ensures DistinctFrom(NewOrder, 0, 5) {}
  lemma NewOrderMiddle() ensures DistinctFrom(NewOrder, 5, 11) {}
  lemma NewOrderTail() ensures DistinctFrom(NewOrder, 11, 17) {}

  // ------------------------------------------- identify_missing_rows

  /** `list(set(a) & set(b))`: each label both sides have, once. Python's
      set order is not modelled; only which labels are there is promised. */
  function CommonColumns(a: seq<string>, b: seq<string>): (cs: seq<string>)
    ensures forall c :: c in cs <==> c in a && c in b
    ensures Distinct(cs)
  {
    if a == [] then []
    else
      var rest := CommonColumns(a[1..], b);
      if a[0] in b && a[0] !in rest then
        assert forall c <- rest :: c != a[0];
        [a[0]] + rest
      else rest
  }

  /** `astype(str).str.strip()` on a row's key. */
  function StrippedKey(r: Record): string {
    Strip(AsText(Get(r, Key)))
  }

  /** The stripped keys of the worksheet's rows. */
  function KnownKeys(rows: seq<Record>): set<string> {
    set r | r in rows :: StrippedKey(r)
  }

  /** An export row as a missing row: its cells in the common columns, the
      key replaced by its stripped text. */
  function MissingRow(z: Record, cols: seq<string>): (r: Record)
    requires Key in cols
    ensures r.Keys == set c | c in cols
    ensures Get(r, Key) == Str(StrippedKey(z))
    ensures forall c :: c in cols && c != Key ==> Get(r, c) == Get(z, c)
  {
    (map c | c in cols :: Get(z, c))[Key := Str(StrippedKey(z))]
  }

  /** Lines 94-121: the export rows whose stripped key no worksheet row has,
      in export order, over the columns both frames share; a frame with no
      rows and no columns when `Subform_id` is not shared. */
  function MissingRows(zoho: Table, gsheets: Table): (t: Table)
    ensures Key !in zoho.columns || Key !in gsheets.columns ==> t == Table([], [])
    ensures Key in zoho.columns && Key in gsheets.columns ==>
      t.columns == CommonColumns(zoho.columns, gsheets.columns) && WellFormed(t)
  {
    var cols := CommonColumns(zoho.columns, gsheets.columns);
    if Key !in cols then Table([], [])
    else
      var known := KnownKeys(gsheets.rows);
      var left := Filter(zoho.rows, (z: Record) => StrippedKey(z) !in known);
      Table(cols, MissingRowsOf(left, cols))
  }

  /** `MissingRow` of each row of `left`, in order. */
  function MissingRowsOf(left: seq<Record>, cols: seq<string>): (rows: seq<Record>)
    requires Key in cols
    ensures |rows| == |left|
    ensures forall i :: 0 <= i < |left| ==> rows[i] == MissingRow(left[i], cols)
    ensures forall r <- rows :: r.Keys == set c | c in cols
  {
    seq(|left|, i requires 0 <= i < |left| => MissingRow(left[i], cols))
  }

  // --------------------------------------------- sort_and_append_to_gsheets

  /** `pd.to_datetime(..., format='%Y-%m-%d %H:%M:%S', errors='coerce')` on
      a cell: text that does not match becomes NaT (`Null`). */
  function ParseDate(v: Value): (w: Value)
    ensures w.Null? || w.When?
    ensures v.Str? && w.When? ==> Representable(w.at) && v.text == FormatIsoDateTime(w.at)
    ensures v.Str? && w.Null? ==> forall t :: Representable(t) ==> v.text != FormatIsoDateTime(t)
    ensures !v.Str? ==> w == v
    // The same in terms of the parser, for callers that reason about it:
    ensures v.Str? && ParseIsoDateTime(v.text).Some? ==> w == When(ParseIsoDateTime(v.text).value)
    ensures v.Str? && ParseIsoDateTime(v.text).None? ==> w.Null?
  {
    match v
    case Str(s) =>
      (match ParseIsoDateTime(s)
       case Some(t) => When(t)
       case None => IsoUnmatched(s); Null)
    case _ => v
  }

  /** A row that survives `dropna(subset=['Date of Order Received'])`. */
  predicate Dated(r: Record) {
    Get(r, DateColumn).When?
  }

  /** `sort_values(by='Date of Order Received', ascending=True)`: earlier
      dates first, NaT last. */
  predicate DateBefore(a: Record, b: Record) {
    match (Get(a, DateColumn), Get(b, DateColumn))
    case (When(x), When(y)) => AtOrBefore(x, y)
    case (When(_), _) => true
    case (_, When(_)) => false
    case _ => true
  }

  /** Lines 142-146: the worksheet's rows then the missing rows, dates
      parsed, undated rows dropped, in date order. */
  function Ordered(gsheets: Table, missing: Table): seq<Record> {
    var parsed := MapColumn(Concat(gsheets, missing), DateColumn, ParseDate);
    Sort(Filter(parsed.rows, Dated), DateBefore)
  }

  /** Whether every timestamp of the rows falls at midnight. */
  predicate DatesOnly(rows: seq<Record>) {
    forall r <- rows :: Get(r, DateColumn).When? ==> IsMidnight(Get(r, DateColumn).at)
  }

  /** `astype(str)` on one cell of a timestamp column: pandas writes
      `YYYY-MM-DD` for every cell when the column's timestamps all fall at
      midnight, `YYYY-MM-DD HH:MM:SS` otherwise, and `NaT` for a missing
      one. */
  function DateText(v: Value, datesOnly: bool): (w: Value)
    ensures w.Str?
    ensures v.When? && datesOnly ==> w.text == FormatIsoDate(v.at)
    ensures v.When? && !datesOnly ==> w.text == FormatIsoDateTime(v.at)
  {
    match v
    case When(t) => Str(if datesOnly then FormatIsoDate(t) else FormatIsoDateTime(t))
    case _ => Str("NaT")
  }

  /** Line 156: the date column written as text, every other cell kept. */
  function RenderDates(t: Table, datesOnly: bool): (u: Table)
    ensures u.columns == t.columns && |u.rows| == |t.rows|
    ensures forall i :: 0 <= i < |t.rows| ==> Get(u.rows[i], DateColumn) == DateText(Get(t.rows[i], DateColumn), datesOnly)
    ensures forall i, c :: 0 <= i < |t.rows| && c != DateColumn ==> Get(u.rows[i], c) == Get(t.rows[i], c)
    ensures DateColumn in t.columns && WellFormed(t) ==> WellFormed(u)
  {
    MapColumn(t, DateColumn, (v: Value) => DateText(v, datesOnly))
  }

  /** Lines 141-156: `KeyError` when neither frame has the date column or
      an output column is on neither side; otherwise the ordered rows over
      `NewOrder` with the date written as text. */
  function PoloReconcile(gsheets: Table, missing: Table): (r: Result<Table>)
    ensures r.KeyError? ==> r.column == DateColumn || r.column in NewOrder
  {
    var combined := Concat(gsheets, missing);
    if DateColumn !in combined.columns then KeyError(DateColumn)
    else
      var rows := Ordered(gsheets, missing);
      match Project(Table(combined.columns, rows), NewOrder)
      case KeyError(c) => KeyError(c)
      case Ok(t) => Ok(RenderDates(t, DatesOnly(rows)))
  }

  /** Lines 133-137: the worksheet is cleared, then holds the header row and
      one text row per row of `t`. */
  method ClearAndAppend(sheet: Sheet, t: Table)
    modifies sheet
    ensures sheet.grid == ToGrid(t)
  {
    sheet.Clear();
    var data := ToGrid(t);
    sheet.AppendRows(data);
  }

  /** Lines 141-158, step by step: on `KeyError` the worksheet is left as it
      was; otherwise it holds exactly the reconciled table. */
  method SortAndAppend(sheet: Sheet, gsheets: Table, missing: Table) returns (r: Result<Table>)
    modifies sheet
    ensures r == PoloReconcile(gsheets, missing)
    ensures r.Ok? ==> sheet.grid == ToGrid(r.value)
    ensures r.KeyError? ==> sheet.grid == old(sheet.grid)
  {
    var combined := Concat(gsheets, missing);
    if DateColumn !in combined.columns {
      return KeyError(DateColumn);
    }
    var parsed := MapColumn(combined, DateColumn, ParseDate);
    var kept := Filter(parsed.rows, Dated);
    var sorted := Sort(kept, DateBefore);
    var selected := Project(Table(combined.columns, sorted), NewOrder);
    if selected.KeyError? {
      return KeyError(selected.column);
    }
    var t := selected.value;
    t := RenderDates(t, DatesOnly(sorted));
    ClearAndAppend(sheet, t);
    return Ok(t);
  }
}

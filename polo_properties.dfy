/** What `eccn_MCM_polo.py` promises: the missing rows are exactly the
    export rows with a stripped key the worksheet lacks, and once appended
    nothing is missing any more; the write-back keeps exactly the rows with
    a readable date, sorted by it, over the sheet's columns, and the dates
    it writes are read back by the next run unless they were written
    without a time of day. */
module PoloProperties {
  import opened Options
  import opened Text
  import opened Dates
  import opened Sequences
  import opened Frames
  import opened Polo

  // ------------------------------------------------------- missing rows

  /** Each missing row is an export row whose stripped key the worksheet
      does not know, shaped to the common columns. */
  lemma MissingRowIsNew(zoho: Table, gsheets: Table, j: nat)
    requires j < |MissingRows(zoho, gsheets).rows|
    ensures Key in CommonColumns(zoho.columns, gsheets.columns)
    ensures exists z <- zoho.rows ::
      && StrippedKey(z) !in KnownKeys(gsheets.rows)
      && MissingRows(zoho, gsheets).rows[j] == MissingRow(z, CommonColumns(zoho.columns, gsheets.columns))
  {
    var cols := CommonColumns(zoho.columns, gsheets.columns);
    var known := KnownKeys(gsheets.rows);
    var left := Filter(zoho.rows, (z: Record) => StrippedKey(z) !in known);
    assert left[j] in left;
  }

  /** The missing rows follow the export's order and keep every
      occurrence: the `q`th missing row is the `q`th export row, in export
      order, whose stripped key the worksheet does not know. */
  lemma MissingRowsInOrder(zoho: Table, gsheets: Table)
    requires Key in zoho.columns && Key in gsheets.columns
    ensures Key in CommonColumns(zoho.columns, gsheets.columns)
    ensures var ix, m := Selected(zoho.rows, (z: Record) => StrippedKey(z) !in KnownKeys(gsheets.rows)), MissingRows(zoho, gsheets).rows;
      && |m| == |ix|
      && (forall q :: 0 <= q < |ix| ==>
            ix[q] < |zoho.rows| && m[q] == MissingRow(zoho.rows[ix[q]], CommonColumns(zoho.columns, gsheets.columns)))
      && (forall q, q' :: 0 <= q < q' < |ix| ==> ix[q] < ix[q'])
      && (forall i :: 0 <= i < |zoho.rows| ==> (i in ix <==> StrippedKey(zoho.rows[i]) !in KnownKeys(gsheets.rows)))
  {
    FilterSelected(zoho.rows, (z: Record) => StrippedKey(z) !in KnownKeys(gsheets.rows));
  }

  /** Every export row whose stripped key the worksheet does not know is
      among the missing rows. */
  lemma MissingRowsCover(zoho: Table, gsheets: Table, z: Record)
    requires Key in zoho.columns && Key in gsheets.columns
    requires z in zoho.rows && StrippedKey(z) !in KnownKeys(gsheets.rows)
    ensures Key in CommonColumns(zoho.columns, gsheets.columns)
    ensures MissingRow(z, CommonColumns(zoho.columns, gsheets.columns)) in MissingRows(zoho, gsheets).rows
  {
    var cols := CommonColumns(zoho.columns, gsheets.columns);
    var known := KnownKeys(gsheets.rows);
    var left := Filter(zoho.rows, (x: Record) => StrippedKey(x) !in known);
    var rows := MissingRows(zoho, gsheets).rows;
    assert z in left;
    var i :| 0 <= i < |left| && left[i] == z;
    assert rows[i] == MissingRow(z, cols);
  }

  /** A missing row keeps its stripped key when read again. */
  lemma MissingRowKey(z: Record, cols: seq<string>)
    requires Key in cols
    ensures StrippedKey(MissingRow(z, cols)) == StrippedKey(z)
  {
    StripIdempotent(AsText(Get(z, Key)));
  }

  /** Once the missing rows are appended to the worksheet, no export row is
      missing any more. */
  lemma MissingRowsIdempotent(zoho: Table, gsheets: Table)
    ensures MissingRows(zoho, Concat(gsheets, MissingRows(zoho, gsheets))).rows == []
  {
    var m := MissingRows(zoho, gsheets);
    var g := Concat(gsheets, m);
    if Key in zoho.columns && Key in gsheets.columns {
      assert Key in g.columns;
      AllKnown(zoho, gsheets, m, g);
      NoneMissing(zoho, g);
    } else {
      assert g.columns == gsheets.columns;
    }
  }

  /** When the worksheet knows every export row's stripped key, no row is
      missing. */
  lemma NoneMissing(zoho: Table, gsheets: Table)
    requires forall z <- zoho.rows :: StrippedKey(z) in KnownKeys(gsheets.rows)
    ensures MissingRows(zoho, gsheets).rows == []
  {
    var known := KnownKeys(gsheets.rows);
    FilterNone(zoho.rows, (z: Record) => StrippedKey(z) !in known);
  }

  lemma AllKnown(zoho: Table, gsheets: Table, m: Table, g: Table)
    requires Key in zoho.columns && Key in gsheets.columns
    requires m == MissingRows(zoho, gsheets) && g == Concat(gsheets, m)
    ensures forall z <- zoho.rows :: StrippedKey(z) in KnownKeys(g.rows)
  {
    var cols := CommonColumns(zoho.columns, gsheets.columns);
    KnownOrMissing(zoho, gsheets, cols, m);
    AllKnownAfterConcat(zoho.rows, gsheets, m, cols, g);
  }

  /** Appending rows that cover every export row the worksheet does not
      know leaves no export row unknown. */
  lemma AllKnownAfterConcat(zoho: seq<Record>, gsheets: Table, m: Table, cols: seq<string>, g: Table)
    requires Key in cols && Key in gsheets.columns && g == Concat(gsheets, m)
    requires forall z <- zoho :: StrippedKey(z) in KnownKeys(gsheets.rows) || MissingRow(z, cols) in m.rows
    ensures forall z <- zoho :: StrippedKey(z) in KnownKeys(g.rows)
  {
    ConcatKeyCells(gsheets, m, g);
    AllKnownIn(zoho, gsheets.rows, m.rows, cols, g.rows);
  }

  /** Every export row is known to the worksheet or has its missing row. */
  lemma KnownOrMissing(zoho: Table, gsheets: Table, cols: seq<string>, m: Table)
    requires Key in zoho.columns && Key in gsheets.columns
    requires cols == CommonColumns(zoho.columns, gsheets.columns) && m == MissingRows(zoho, gsheets)
    ensures Key in cols
    ensures forall z <- zoho.rows :: StrippedKey(z) in KnownKeys(gsheets.rows) || MissingRow(z, cols) in m.rows
  {
    forall z | z in zoho.rows
      ensures StrippedKey(z) in KnownKeys(gsheets.rows) || MissingRow(z, cols) in m.rows
    {
      if StrippedKey(z) !in KnownKeys(gsheets.rows) {
        MissingRowsCover(zoho, gsheets, z);
      }
    }
  }

  /** The key cells of `Concat(gsheets, m)`: the worksheet's, then the
      appended rows'. */
  lemma ConcatKeyCells(gsheets: Table, m: Table, g: Table)
    requires Key in gsheets.columns && g == Concat(gsheets, m)
    ensures |g.rows| == |gsheets.rows| + |m.rows|
    ensures forall i :: 0 <= i < |gsheets.rows| ==> Get(g.rows[i], Key) == Get(gsheets.rows[i], Key)
    ensures forall q :: 0 <= q < |m.rows| ==> Get(g.rows[|gsheets.rows| + q], Key) == Get(m.rows[q], Key)
  {
    assert Key in g.columns;
  }

  /** When every export row is known to the worksheet or has its missing
      row among `missing`, every export key is known to rows that carry the
      worksheet's key cells and then the missing rows' key cells. */
  lemma AllKnownIn(zoho: seq<Record>, gsheets: seq<Record>, missing: seq<Record>, cols: seq<string>, rows: seq<Record>)
    requires Key in cols
    requires forall z <- zoho :: StrippedKey(z) in KnownKeys(gsheets) || MissingRow(z, cols) in missing
    requires |rows| == |gsheets| + |missing|
    requires forall i :: 0 <= i < |gsheets| ==> Get(rows[i], Key) == Get(gsheets[i], Key)
    requires forall q :: 0 <= q < |missing| ==> Get(rows[|gsheets| + q], Key) == Get(missing[q], Key)
    ensures forall z <- zoho :: StrippedKey(z) in KnownKeys(rows)
  {
    forall z | z in zoho
      ensures StrippedKey(z) in KnownKeys(rows)
    {
      if StrippedKey(z) in KnownKeys(gsheets) {
        KnownStaysKnown(gsheets, rows, StrippedKey(z));
      } else {
        var q :| 0 <= q < |missing| && missing[q] == MissingRow(z, cols);
        AppendedKnown(rows, |gsheets| + q, z, cols, missing[q]);
      }
    }
  }

  /** A worksheet key stays known when rows are appended. */
  lemma KnownStaysKnown(old_rows: seq<Record>, rows: seq<Record>, key: string)
    requires |old_rows| <= |rows|
    requires forall i :: 0 <= i < |old_rows| ==> Get(rows[i], Key) == Get(old_rows[i], Key)
    requires key in KnownKeys(old_rows)
    ensures key in KnownKeys(rows)
  {
    var r :| r in old_rows && StrippedKey(r) == key;
    var i :| 0 <= i < |old_rows| && old_rows[i] == r;
    KnownKeyOf(rows, i, r);
  }

  /** An export row's key is known once its missing row is appended. */
  lemma AppendedKnown(rows: seq<Record>, k: nat, z: Record, cols: seq<string>, mr: Record)
    requires Key in cols && mr == MissingRow(z, cols)
    requires k < |rows| && Get(rows[k], Key) == Get(mr, Key)
    ensures StrippedKey(z) in KnownKeys(rows)
  {
    KnownKeyOf(rows, k, mr);
    MissingRowKey(z, cols);
  }

  /** A row with the same key cell as a row of `rows` has a known key. */
  lemma KnownKeyOf(rows: seq<Record>, k: nat, r: Record)
    requires k < |rows| && Get(rows[k], Key) == Get(r, Key)
    ensures StrippedKey(r) in KnownKeys(rows)
  {
    assert rows[k] in rows;
    assert StrippedKey(rows[k]) == StrippedKey(r);
  }

  // ------------------------------------------------------------ ordering

  /** Earlier dates first and undated rows last compares every two rows,
      transitively. */
  lemma DateBeforeIsTotalPreorder()
    ensures TotalPreorder(DateBefore)
  {
    forall a: Record, b: Record ensures DateBefore(a, b) || DateBefore(b, a) {
      var x, y := Get(a, DateColumn), Get(b, DateColumn);
      if x.When? && y.When? {
        BeforeIsStrictTotalOrder(x.at, y.at, x.at);
      }
    }
    forall a: Record, b: Record, c: Record | DateBefore(a, b) && DateBefore(b, c)
      ensures DateBefore(a, c)
    {
      var x, y, z := Get(a, DateColumn), Get(b, DateColumn), Get(c, DateColumn);
      if x.When? && y.When? && z.When? {
        BeforeIsStrictTotalOrder(x.at, y.at, z.at);
        BeforeIsStrictTotalOrder(z.at, y.at, x.at);
        BeforeIsStrictTotalOrder(x.at, z.at, y.at);
      }
    }
  }

  /** The concatenated frame with its dates parsed. */
  function Parsed(gsheets: Table, missing: Table): Table {
    MapColumn(Concat(gsheets, missing), DateColumn, ParseDate)
  }

  /** The rows written back are the dated rows, each once, sorted by date:
      a row is kept exactly when its date parsed. */
  lemma OrderedIsSortedDatedRows(gsheets: Table, missing: Table)
    ensures var s, p := Ordered(gsheets, missing), Parsed(gsheets, missing).rows;
      && Sorted(s, DateBefore)
      && multiset(s) == multiset(Filter(p, Dated))
      && (forall r <- s :: Dated(r))
      && (forall r <- p :: r in s <==> Dated(r))
  {
    var p := Parsed(gsheets, missing).rows;
    var kept := Filter(p, Dated);
    var s := Ordered(gsheets, missing);
    DateBeforeIsTotalPreorder();
    SortSorted(kept, DateBefore);
    forall r | r in s ensures r in kept {
      assert r in multiset(kept);
    }
    forall r | r in kept ensures r in s {
      assert r in multiset(s);
    }
  }

  /** A row of the concatenated frame keeps a date exactly when its cell, in
      the frame it came from, is text in `%Y-%m-%d %H:%M:%S` form (or
      already a timestamp). */
  lemma DatedIff(gsheets: Table, missing: Table, i: nat)
    requires DateColumn in Concat(gsheets, missing).columns
    requires i < |gsheets.rows| + |missing.rows|
    ensures i < |Parsed(gsheets, missing).rows|
    ensures var v := if i < |gsheets.rows| then Get(gsheets.rows[i], DateColumn)
                     else Get(missing.rows[i - |gsheets.rows|], DateColumn);
      Dated(Parsed(gsheets, missing).rows[i]) <==>
        v.When? || (v.Str? && ParseIsoDateTime(v.text).Some?)
  {
    ConcatCell(gsheets, missing, i, DateColumn);
  }

  // -------------------------------------------------------------- output

  /** `sort_and_append_to_gsheets` writes exactly when every output column
      is on one side or the other; otherwise it raises `KeyError` and
      writes nothing. */
  lemma PoloSucceedsIff(gsheets: Table, missing: Table)
    ensures PoloReconcile(gsheets, missing).Ok? <==>
      forall c <- NewOrder :: c in gsheets.columns || c in missing.columns
  {
    var combined := Concat(gsheets, missing);
    assert forall c :: c in combined.columns <==> c in gsheets.columns || c in missing.columns;
    assert DateColumn in NewOrder;
  }

  lemma ParsedKeys(gsheets: Table, missing: Table, p: Table)
    requires DateColumn in Concat(gsheets, missing).columns
    requires p == Parsed(gsheets, missing)
    ensures forall r <- p.rows :: r.Keys == set c | c in p.columns
  {
    var t := Concat(gsheets, missing);
    forall r | r in p.rows ensures r.Keys == set c | c in p.columns {
      var i :| 0 <= i < |p.rows| && p.rows[i] == r;
      assert t.rows[i] in t.rows;
    }
  }

  /** The kept rows are dated rows of the parsed frame. */
  lemma OrderedInParsed(p: seq<Record>, s: seq<Record>)
    requires s == Sort(Filter(p, Dated), DateBefore)
    ensures forall r <- s :: r in p && Dated(r)
  {
    var kept := Filter(p, Dated);
    forall r | r in s ensures r in p && Dated(r) {
      assert r in multiset(kept);
    }
  }

  lemma OrderedKeys(gsheets: Table, missing: Table, cols: seq<string>, s: seq<Record>)
    requires DateColumn in Concat(gsheets, missing).columns
    requires cols == Concat(gsheets, missing).columns && s == Ordered(gsheets, missing)
    ensures forall r <- s :: r.Keys == set c | c in cols
  {
    var p := Parsed(gsheets, missing);
    ParsedKeys(gsheets, missing, p);
    assert s == Sort(Filter(p.rows, Dated), DateBefore);
    OrderedInParsed(p.rows, s);
  }

  /** The written frame has the sheet's columns in order, one row per kept
      row in date order, each cell as in that row, and the date as text: a
      bare date when every kept date falls at midnight. */
  lemma PoloShape(gsheets: Table, missing: Table)
    requires PoloReconcile(gsheets, missing).Ok?
    ensures var t, s := PoloReconcile(gsheets, missing).value, Ordered(gsheets, missing);
      && t.columns == NewOrder && WellFormed(t) && |t.rows| == |s|
      && (forall i, c :: 0 <= i < |s| && c in NewOrder && c != DateColumn ==> Get(t.rows[i], c) == Get(s[i], c))
      && (forall i :: 0 <= i < |s| ==> Dated(s[i]))
      && (forall i :: 0 <= i < |s| ==> Get(t.rows[i], DateColumn) == DateText(Get(s[i], DateColumn), DatesOnly(s)))
  {
    var cols := Concat(gsheets, missing).columns;
    var s := Ordered(gsheets, missing);
    var t := PoloReconcile(gsheets, missing).value;
    PoloValue(gsheets, missing, cols, s, t);
    RenderedShape(Table(cols, s), t, DatesOnly(s));
    OrderedDated(gsheets, missing, s);
  }

  /** A successful write-back renders the kept rows over `NewOrder`. */
  lemma PoloValue(gsheets: Table, missing: Table, cols: seq<string>, s: seq<Record>, t: Table)
    requires PoloReconcile(gsheets, missing).Ok? && t == PoloReconcile(gsheets, missing).value
    requires cols == Concat(gsheets, missing).columns && s == Ordered(gsheets, missing)
    ensures forall c <- NewOrder :: c in cols
    ensures forall r <- s :: r.Keys == set c | c in cols
    ensures t == RenderDates(Project(Table(cols, s), NewOrder).value, DatesOnly(s))
  {
    PoloSucceedsIff(gsheets, missing);
    ConcatColumns(gsheets, missing);
    assert DateColumn in NewOrder;
    OrderedKeys(gsheets, missing, cols, s);
  }

  /** The rows of `shown` over `NewOrder`, their dates written as text. */
  lemma RenderedShape(shown: Table, t: Table, datesOnly: bool)
    requires forall c <- NewOrder :: c in shown.columns
    requires forall r <- shown.rows :: r.Keys == set c | c in shown.columns
    requires t == RenderDates(Project(shown, NewOrder).value, datesOnly)
    ensures t.columns == NewOrder && WellFormed(t) && |t.rows| == |shown.rows|
    ensures forall i, c :: 0 <= i < |shown.rows| && c in NewOrder && c != DateColumn ==> Get(t.rows[i], c) == Get(shown.rows[i], c)
    ensures forall i :: 0 <= i < |shown.rows| ==> Get(t.rows[i], DateColumn) == DateText(Get(shown.rows[i], DateColumn), datesOnly)
  {
    var u := Project(shown, NewOrder).value;
    ProjectedShape(shown, u);
    assert DateColumn in NewOrder;
  }

  /** The rows of `shown` over `NewOrder`, each selected cell kept. */
  lemma ProjectedShape(shown: Table, u: Table)
    requires forall c <- NewOrder :: c in shown.columns
    requires forall r <- shown.rows :: r.Keys == set c | c in shown.columns
    requires u == Project(shown, NewOrder).value
    ensures u.columns == NewOrder && WellFormed(u) && |u.rows| == |shown.rows|
    ensures forall i, c :: 0 <= i < |shown.rows| && c in NewOrder ==> Get(u.rows[i], c) == Get(shown.rows[i], c)
  {
    NewOrderDistinct();
    ProjectCells(shown, NewOrder);
  }

  /** Every kept row has a date. */
  lemma OrderedDated(gsheets: Table, missing: Table, s: seq<Record>)
    requires s == Ordered(gsheets, missing)
    ensures forall i :: 0 <= i < |s| ==> Dated(s[i])
  {
    OrderedFromParsed(gsheets, missing, Parsed(gsheets, missing).rows, s);
    forall i | 0 <= i < |s| ensures Dated(s[i]) {
      assert s[i] in s;
    }
  }

  /** What is written reads back, on the next run, as the same frame with
      each cell as text (a null as `''`). */
  lemma PoloReadsBack(gsheets: Table, missing: Table)
    requires PoloReconcile(gsheets, missing).Ok?
    ensures ReadTable(ToGrid(PoloReconcile(gsheets, missing).value)) == Some(AsWritten(PoloReconcile(gsheets, missing).value))
  {
    PoloShape(gsheets, missing);
    ReadBackWritten(PoloReconcile(gsheets, missing).value);
  }

  // -------------------------------------------------------------- dates

  /** A parsed date of a frame read from text came from parsing, so
      pandas can hold it. */
  lemma ParsedDateRepresentable(gsheets: Table, missing: Table, p: Table, i: nat)
    requires NoTimestamps(gsheets, DateColumn) && NoTimestamps(missing, DateColumn)
    requires DateColumn in Concat(gsheets, missing).columns
    requires p == Parsed(gsheets, missing) && i < |p.rows| && Dated(p.rows[i])
    ensures Representable(Get(p.rows[i], DateColumn).at)
  {
    ConcatCell(gsheets, missing, i, DateColumn);
    if i < |gsheets.rows| {
      assert gsheets.rows[i] in gsheets.rows;
    } else {
      assert missing.rows[i - |gsheets.rows|] in missing.rows;
    }
  }

  /** A kept row's date came from parsing, so pandas can hold it. */
  lemma OrderedDatesRepresentable(gsheets: Table, missing: Table)
    requires NoTimestamps(gsheets, DateColumn) && NoTimestamps(missing, DateColumn)
    requires DateColumn in Concat(gsheets, missing).columns
    ensures forall r <- Ordered(gsheets, missing) :: Dated(r) && Representable(Get(r, DateColumn).at)
  {
    var p := Parsed(gsheets, missing);
    ParsedDatesRepresentable(gsheets, missing, p);
    OrderedFromParsed(gsheets, missing, p.rows, Ordered(gsheets, missing));
  }

  lemma ParsedDatesRepresentable(gsheets: Table, missing: Table, p: Table)
    requires NoTimestamps(gsheets, DateColumn) && NoTimestamps(missing, DateColumn)
    requires DateColumn in Concat(gsheets, missing).columns
    requires p == Parsed(gsheets, missing)
    ensures forall r <- p.rows :: Dated(r) ==> Representable(Get(r, DateColumn).at)
  {
    forall r | r in p.rows && Dated(r)
      ensures Representable(Get(r, DateColumn).at)
    {
      var i :| 0 <= i < |p.rows| && p.rows[i] == r;
      ParsedDateRepresentable(gsheets, missing, p, i);
    }
  }

  /** The kept rows are dated rows of the parsed frame. */
  lemma OrderedFromParsed(gsheets: Table, missing: Table, p: seq<Record>, s: seq<Record>)
    requires p == Parsed(gsheets, missing).rows && s == Ordered(gsheets, missing)
    ensures forall r <- s :: r in p && Dated(r)
  {
    assert s == Sort(Filter(p, Dated), DateBefore);
    OrderedInParsed(p, s);
  }

  /** When some kept date has a time of day, every written date is read by
      the next run as the date its row was sorted on. */
  lemma WrittenDatesReadBack(gsheets: Table, missing: Table, i: nat)
    requires NoTimestamps(gsheets, DateColumn) && NoTimestamps(missing, DateColumn)
    requires PoloReconcile(gsheets, missing).Ok? && !DatesOnly(Ordered(gsheets, missing))
    requires i < |Ordered(gsheets, missing)|
    ensures i < |PoloReconcile(gsheets, missing).value.rows|
    ensures ParseDate(Get(PoloReconcile(gsheets, missing).value.rows[i], DateColumn)) == Get(Ordered(gsheets, missing)[i], DateColumn)
  {
    var s := Ordered(gsheets, missing);
    PoloShape(gsheets, missing);
    PoloSucceedsIff(gsheets, missing);
    assert DateColumn in NewOrder;
    OrderedDatesRepresentable(gsheets, missing);
    assert s[i] in s;
    FormatThenParseIsoDateTime(Get(s[i], DateColumn).at);
  }

  /** When every kept date falls at midnight, pandas writes bare dates,
      which `%Y-%m-%d %H:%M:%S` does not match under pandas 2.x's exact
      format matching: the next run reads every written date as NaT and
      drops the row. */
  lemma DatesOnlyAreDroppedNextRun(gsheets: Table, missing: Table, i: nat)
    requires PoloReconcile(gsheets, missing).Ok? && DatesOnly(Ordered(gsheets, missing))
    requires i < |Ordered(gsheets, missing)|
    ensures i < |PoloReconcile(gsheets, missing).value.rows|
    ensures ParseDate(Get(PoloReconcile(gsheets, missing).value.rows[i], DateColumn)) == Null
  {
    var s := Ordered(gsheets, missing);
    PoloShape(gsheets, missing);
    IsoDateDoesNotParse(Get(s[i], DateColumn).at);
  }
}

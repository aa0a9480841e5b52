/** What `eccn_MCM.py`'s reconciliation promises: the sort order is a total
    preorder and the result is sorted, a permutation and stable; the merge
    keeps every worksheet row and fills only its empty cells; no key is lost;
    the output has the worksheet's schema, holds only text, reads back as
    written, and its dates read back as the dates it was sorted on. */
module McmProperties {
  import opened Options
  import opened Text
  import opened Dates
  import opened Sequences
  import opened Frames
  import opened Mcm

  // ------------------------------------------------------------ ordering

  lemma DateFirstOrder(x: Option<Stamp>, y: Option<Stamp>, z: Option<Stamp>)
    ensures DateFirst(x, y) || DateFirst(y, x)
    ensures DateFirst(x, y) && DateFirst(y, x) ==> x == y
    ensures DateFirst(x, y) && DateFirst(y, z) ==> DateFirst(x, z)
  {
    if x.Some? && y.Some? && z.Some? {
      var a, b, c := x.value, y.value, z.value;
      BeforeIsStrictTotalOrder(a, b, c);
      BeforeIsStrictTotalOrder(a, c, b);
      BeforeIsStrictTotalOrder(b, a, c);
      BeforeIsStrictTotalOrder(b, c, a);
      BeforeIsStrictTotalOrder(c, a, b);
      BeforeIsStrictTotalOrder(c, b, a);
    } else if x.Some? && y.Some? {
      BeforeIsStrictTotalOrder(x.value, y.value, x.value);
      BeforeIsStrictTotalOrder(y.value, x.value, y.value);
    }
  }

  lemma InvoiceFirstOrder(x: Option<string>, y: Option<string>, z: Option<string>)
    ensures InvoiceFirst(x, y) || InvoiceFirst(y, x)
    ensures InvoiceFirst(x, y) && InvoiceFirst(y, z) ==> InvoiceFirst(x, z)
  {
    if x.Some? && y.Some? {
      LexLeTotal(x.value, y.value);
      if z.Some? && LexLe(x.value, y.value) && LexLe(y.value, z.value) {
        LexLeTransitive(x.value, y.value, z.value);
      }
    }
  }

  /** The order `sort_values` applies (dates newest first, then invoices
      ascending, nulls last in both) compares every two rows, transitively. */
  lemma OrderedBeforeIsTotalPreorder()
    ensures TotalPreorder(OrderedBefore)
  {
    forall a: Record, b: Record ensures OrderedBefore(a, b) || OrderedBefore(b, a) {
      DateFirstOrder(DateOf(a), DateOf(b), DateOf(b));
      InvoiceFirstOrder(InvoiceOf(a), InvoiceOf(b), InvoiceOf(b));
    }
    forall a: Record, b: Record, c: Record | OrderedBefore(a, b) && OrderedBefore(b, c)
      ensures OrderedBefore(a, c)
    {
      DateFirstOrder(DateOf(a), DateOf(b), DateOf(c));
      InvoiceFirstOrder(InvoiceOf(a), InvoiceOf(b), InvoiceOf(c));
    }
  }

  /** The rows handed on are the merged and appended rows, reordered so that
      each may precede every later one, and rows the order ties keep their
      relative order (`np.lexsort` is stable). */
  lemma ReconciledIsOrdered(src: Table, dest: Table)
    ensures var rows, s := Combined(Normalise(src), Normalise(dest)).rows, Reconciled(src, dest);
      && multiset(s) == multiset(rows)
      && Sorted(s, OrderedBefore)
      && forall x :: Equivalents(s, x, OrderedBefore) == Equivalents(rows, x, OrderedBefore)
  {
    OrderedBeforeIsTotalPreorder();
    var rows := Combined(Normalise(src), Normalise(dest)).rows;
    SortSorted(rows, OrderedBefore);
    forall x ensures Equivalents(Sort(rows, OrderedBefore), x, OrderedBefore) == Equivalents(rows, x, OrderedBefore) {
      SortStable(rows, x, OrderedBefore);
    }
  }

  // ---------------------------------------------------------- left merge

  /** No two rows share a key. */
  predicate UniqueKeys(rows: seq<Record>) {
    forall i, j :: 0 <= i < j < |rows| ==> Get(rows[i], Key) != Get(rows[j], Key)
  }

  lemma UniqueKeysTail(src: seq<Record>)
    requires src != [] && UniqueKeys(src)
    ensures UniqueKeys(src[1..])
    ensures Get(src[0], Key) !in KeySet(src[1..])
  {
    forall i, j | 0 <= i < j < |src[1..]| ensures Get(src[1..][i], Key) != Get(src[1..][j], Key) {
      assert src[1..][i] == src[i + 1] && src[1..][j] == src[j + 1];
    }
    forall r | r in src[1..] ensures Get(r, Key) != Get(src[0], Key) {
      var j :| 0 <= j < |src[1..]| && src[1..][j] == r;
      assert src[j + 1] == r;
    }
  }

  lemma KeySetCons(src: seq<Record>)
    requires src != []
    ensures KeySet(src) == {Get(src[0], Key)} + KeySet(src[1..])
  {
    assert src == [src[0]] + src[1..];
    assert forall r :: r in src <==> r == src[0] || r in src[1..];
  }

  lemma {:induction false} MatchesOfUniqueKeys(src: seq<Record>, k: Value)
    requires UniqueKeys(src)
    ensures |Matches(src, k)| <= 1
    ensures Matches(src, k) != [] <==> k in KeySet(src)
  {
    if src != [] {
      UniqueKeysTail(src);
      MatchesOfUniqueKeys(src[1..], k);
      KeySetCons(src);
    }
  }

  /** Where the merge rows of worksheet row `k` start in the left merge. */
  function Offset(dests: seq<Record>, src: seq<Record>, k: nat): nat
    requires k <= |dests|
  {
    if k == 0 then 0 else |JoinOne(dests[0], src)| + Offset(dests[1..], src, k - 1)
  }

  /** The left merge of a non-empty worksheet: its first row's merge rows,
      then the rest. */
  lemma LeftJoinCons(dests: seq<Record>, src: seq<Record>)
    requires dests != []
    ensures LeftJoin(dests, src) == JoinOne(dests[0], src) + LeftJoin(dests[1..], src)
  {
  }

  lemma {:induction false} LeftJoinAt(dests: seq<Record>, src: seq<Record>, k: nat)
    requires k < |dests|
    ensures Offset(dests, src, k) < |LeftJoin(dests, src)|
    ensures LeftJoin(dests, src)[Offset(dests, src, k)].dest == dests[k]
  {
    LeftJoinCons(dests, src);
    var first := JoinOne(dests[0], src);
    if k == 0 {
      assert first[0] in first;
    } else {
      var rest := LeftJoin(dests[1..], src);
      LeftJoinAt(dests[1..], src, k - 1);
      var o := Offset(dests[1..], src, k - 1);
      assert Offset(dests, src, k) == |first| + o;
      assert (first + rest)[|first| + o] == rest[o];
      assert dests[1..][k - 1] == dests[k];
    }
  }

  /** The left merge works row by row: merging a worksheet made of two
      parts is merging each part, one after the other, and a one-row
      worksheet yields that row's merge rows. With `JoinOne`'s contract this
      fixes the whole merge: each worksheet row's block, in worksheet order. */
  lemma {:induction false} LeftJoinAppend(a: seq<Record>, b: seq<Record>, src: seq<Record>)
    ensures LeftJoin(a + b, src) == LeftJoin(a, src) + LeftJoin(b, src)
    ensures |a| == 1 ==> LeftJoin(a, src) == JoinOne(a[0], src)
  {
    if a != [] {
      assert (a + b)[1..] == a[1..] + b && (a + b)[0] == a[0];
      var x, y, z := JoinOne(a[0], src), LeftJoin(a[1..], src), LeftJoin(b, src);
      LeftJoinAppend(a[1..], b, src);
      LeftJoinCons(a + b, src);
      LeftJoinCons(a, src);
      AppendAssociative(x, y, z);
    } else {
      assert a + b == b;
    }
  }

  /** Every worksheet row yields at least one merge row. */
  lemma LeftJoinCovers(dests: seq<Record>, src: seq<Record>, k: nat)
    requires k < |dests|
    ensures exists i :: 0 <= i < |LeftJoin(dests, src)| && LeftJoin(dests, src)[i].dest == dests[k]
  {
    LeftJoinAt(dests, src, k);
  }

  /** The merge rows of one worksheet row when the export's keys are
      unique: exactly one, paired with the export row of the same key or
      with nothing. */
  lemma JoinOneUnique(d: Record, src: seq<Record>)
    requires UniqueKeys(src)
    ensures var js := JoinOne(d, src);
      && |js| == 1 && js[0].dest == d
      && (Get(d, Key) in KeySet(src) ==> js[0].zoho in src && Get(js[0].zoho, Key) == Get(d, Key))
      && (Get(d, Key) !in KeySet(src) ==> js[0].zoho == map[])
  {
    MatchesOfUniqueKeys(src, Get(d, Key));
    var ms := Matches(src, Get(d, Key));
    if ms != [] {
      assert ms[0] in ms;
    }
  }

  /** When the export's keys are unique the left merge pairs the worksheet's
      rows one to one, in order, each with the export row of the same key,
      or with nothing when the export lacks that key. */
  lemma {:induction false} UniqueKeysJoin(dests: seq<Record>, src: seq<Record>)
    requires UniqueKeys(src)
    ensures var js := LeftJoin(dests, src);
      && |js| == |dests|
      && forall i :: 0 <= i < |dests| ==>
        && js[i].dest == dests[i]
        && (Get(dests[i], Key) in KeySet(src) ==> js[i].zoho in src && Get(js[i].zoho, Key) == Get(dests[i], Key))
        && (Get(dests[i], Key) !in KeySet(src) ==> js[i].zoho == map[])
  {
    if dests != [] {
      UniqueKeysJoin(dests[1..], src);
      JoinOneUnique(dests[0], src);
      var first: seq<Joined>, rest: seq<Joined> := JoinOne(dests[0], src), LeftJoin(dests[1..], src);
      var js := first + rest;
      assert LeftJoin(dests, src) == js;
      forall i | 0 <= i < |dests|
        ensures && js[i].dest == dests[i]
                && (Get(dests[i], Key) in KeySet(src) ==> js[i].zoho in src && Get(js[i].zoho, Key) == Get(dests[i], Key))
                && (Get(dests[i], Key) !in KeySet(src) ==> js[i].zoho == map[])
      {
        if i > 0 {
          assert js[i] == rest[i - 1] && dests[i] == dests[1..][i - 1];
        }
      }
    }
  }

  /** One cell of a merge row in the kept columns: a worksheet cell stays
      unless it is null, a null worksheet cell in a column both sides share
      takes the export's value, the key and worksheet-only columns stay, and
      an export-only column takes the export's value. */
  lemma MergedCell(dest: Table, src: Table, i: nat, c: string)
    requires WellFormed(dest)
    requires i < |LeftJoin(dest.rows, src.rows)| && c in MergedColumns(dest.columns, src.columns)
    ensures var j, cell := LeftJoin(dest.rows, src.rows)[i], Get(Merge(dest, src).rows[i], c);
      && (c in dest.columns && !Get(j.dest, c).Null? ==> cell == Get(j.dest, c))
      && (Refreshable(c, dest.columns, src.columns) && Get(j.dest, c).Null? ==> cell == Get(j.zoho, c))
      && (c in dest.columns && !Refreshable(c, dest.columns, src.columns) ==> cell == Get(j.dest, c))
      && (c !in dest.columns ==> cell == Get(j.zoho, c))
  {
    var js := LeftJoin(dest.rows, src.rows);
    assert js[i] in js;
    assert js[i].dest in dest.rows;
  }

  /** With unique export keys, a worksheet row the export does not know
      comes through the merge unchanged (export-only columns empty), and a
      known row has each shared, null cell filled from its export row. */
  lemma UniqueMergeRow(dest: Table, src: Table, i: nat, c: string)
    requires WellFormed(dest) && UniqueKeys(src.rows)
    requires i < |dest.rows| && c in MergedColumns(dest.columns, src.columns)
    ensures i < |Merge(dest, src).rows|
    ensures Get(dest.rows[i], Key) !in KeySet(src.rows) ==> Get(Merge(dest, src).rows[i], c) == Get(dest.rows[i], c)
    ensures Get(dest.rows[i], Key) in KeySet(src.rows) && Refreshable(c, dest.columns, src.columns) ==>
      exists z <- src.rows :: Get(z, Key) == Get(dest.rows[i], Key)
        && Get(Merge(dest, src).rows[i], c) == FillNa(Get(dest.rows[i], c), Get(z, c))
  {
    UniqueKeysJoin(dest.rows, src.rows);
    MergedCell(dest, src, i, c);
    var j := LeftJoin(dest.rows, src.rows)[i];
    if Get(dest.rows[i], Key) in KeySet(src.rows) && Refreshable(c, dest.columns, src.columns) {
      assert j.zoho in src.rows;
    }
  }

  // ---------------------------------------------------------------- keys

  /** The key cell of a merge row is its worksheet row's key. */
  lemma MergedKey(dest: Table, src: Table, i: nat)
    requires Key in dest.columns && i < |LeftJoin(dest.rows, src.rows)|
    ensures Get(Merge(dest, src).rows[i], Key) == Get(LeftJoin(dest.rows, src.rows)[i].dest, Key)
  {
    var cols := MergedColumns(dest.columns, src.columns);
    assert Key in dest.columns + Missing(src.columns, dest.columns);
    assert Key in cols;
  }

  /** The appended rows are exactly the export rows whose key the worksheet
      lacks, in export order; when the worksheet knows every export key
      there are none. */
  lemma NewRowsExact(src: Table, dest: Table)
    ensures NewRows(src, dest).columns == src.columns
    ensures forall z <- src.rows :: z in NewRows(src, dest).rows <==> Get(z, Key) !in KeySet(dest.rows)
    ensures KeySet(src.rows) <= KeySet(dest.rows) ==> NewRows(src, dest).rows == []
    ensures var ix, n := Selected(src.rows, (z: Record) => Get(z, Key) !in KeySet(dest.rows)), NewRows(src, dest).rows;
      && |n| == |ix|
      && (forall q :: 0 <= q < |ix| ==> ix[q] < |src.rows| && n[q] == src.rows[ix[q]])
      && (forall q, q' :: 0 <= q < q' < |ix| ==> ix[q] < ix[q'])
      && (forall i :: 0 <= i < |src.rows| ==> (i in ix <==> Get(src.rows[i], Key) !in KeySet(dest.rows)))
  {
    FilterSelected(src.rows, (z: Record) => Get(z, Key) !in KeySet(dest.rows));
    var n := NewRows(src, dest).rows;
    if n != [] {
      var x := n[0];
      assert x in n;
      assert Get(x, Key) in KeySet(src.rows);
    }
  }

  lemma KeyKept(dest: Table, src: Table)
    requires Key in dest.columns
    ensures Key in MergedColumns(dest.columns, src.columns)
  {
    assert Key in dest.columns + Missing(src.columns, dest.columns);
  }

  lemma CombinedLength(src: Table, dest: Table)
    ensures |Combined(src, dest).rows| == |LeftJoin(dest.rows, src.rows)| + |NewRows(src, dest).rows|
  {
  }

  /** The key of a merge row of `Combined` is its worksheet row's. */
  lemma MergeRowKey(src: Table, dest: Table, i: nat)
    requires Key in dest.columns && i < |LeftJoin(dest.rows, src.rows)|
    ensures var t, js := Combined(src, dest).rows, LeftJoin(dest.rows, src.rows);
      i < |t| && js[i].dest in dest.rows && Get(t[i], Key) == Get(js[i].dest, Key)
  {
    var js := LeftJoin(dest.rows, src.rows);
    CombinedLength(src, dest);
    KeyKept(dest, src);
    MergedKey(dest, src, i);
    assert js[i] in js;
  }

  /** The key of an appended row of `Combined` is its export row's. */
  lemma NewRowKey(src: Table, dest: Table, q: nat)
    requires Key in src.columns && q < |NewRows(src, dest).rows|
    ensures var t, k, n := Combined(src, dest).rows, |LeftJoin(dest.rows, src.rows)|, NewRows(src, dest).rows;
      k + q < |t| && n[q] in src.rows && Get(t[k + q], Key) == Get(n[q], Key)
  {
    var m, n := Merge(dest, src), NewRows(src, dest);
    assert n.rows[q] in n.rows;
    ConcatRightCell(m, n, q, Key);
  }

  /** No key is lost and none is invented: the merged and appended rows carry
      exactly the keys of the worksheet and of the export. */
  lemma CombinedKeys(src: Table, dest: Table)
    requires Key in src.columns && Key in dest.columns
    ensures KeySet(Combined(src, dest).rows) == KeySet(src.rows) + KeySet(dest.rows)
  {
    var t := Combined(src, dest).rows;
    var js, n := LeftJoin(dest.rows, src.rows), NewRows(src, dest).rows;
    CombinedLength(src, dest);
    MergeRowKeys(src, dest, t, js);
    NewRowKeys(src, dest, t, js, n);
    WorksheetCovered(dest.rows, src.rows, js);
    NewRowsExact(src, dest);
    KeysFromParts(t, js, n, dest.rows, src.rows);
  }

  lemma MergeRowKeys(src: Table, dest: Table, t: seq<Record>, js: seq<Joined>)
    requires Key in dest.columns
    requires t == Combined(src, dest).rows && js == LeftJoin(dest.rows, src.rows)
    ensures forall i :: 0 <= i < |js| ==> i < |t| && js[i].dest in dest.rows && Get(t[i], Key) == Get(js[i].dest, Key)
  {
    forall i | 0 <= i < |js|
      ensures i < |t| && js[i].dest in dest.rows && Get(t[i], Key) == Get(js[i].dest, Key)
    {
      MergeRowKey(src, dest, i);
    }
  }

  lemma NewRowKeys(src: Table, dest: Table, t: seq<Record>, js: seq<Joined>, n: seq<Record>)
    requires Key in src.columns
    requires t == Combined(src, dest).rows && js == LeftJoin(dest.rows, src.rows) && n == NewRows(src, dest).rows
    ensures forall q :: 0 <= q < |n| ==> |js| + q < |t| && n[q] in src.rows && Get(t[|js| + q], Key) == Get(n[q], Key)
  {
    forall q | 0 <= q < |n|
      ensures |js| + q < |t| && n[q] in src.rows && Get(t[|js| + q], Key) == Get(n[q], Key)
    {
      NewRowKey(src, dest, q);
    }
  }

  lemma WorksheetCovered(dests: seq<Record>, src: seq<Record>, js: seq<Joined>)
    requires js == LeftJoin(dests, src)
    ensures forall d <- dests :: exists i :: 0 <= i < |js| && js[i].dest == d
  {
    forall d | d in dests
      ensures exists i :: 0 <= i < |js| && js[i].dest == d
    {
      var p :| 0 <= p < |dests| && dests[p] == d;
      LeftJoinAt(dests, src, p);
      var i := Offset(dests, src, p);
      assert 0 <= i < |js| && js[i].dest == d;
    }
  }

  lemma KeysFromParts(t: seq<Record>, js: seq<Joined>, n: seq<Record>, dests: seq<Record>, srcRows: seq<Record>)
    requires |t| == |js| + |n|
    requires forall i :: 0 <= i < |js| ==> i < |t| && js[i].dest in dests && Get(t[i], Key) == Get(js[i].dest, Key)
    requires forall q :: 0 <= q < |n| ==> |js| + q < |t| && n[q] in srcRows && Get(t[|js| + q], Key) == Get(n[q], Key)
    requires forall d <- dests :: exists i :: 0 <= i < |js| && js[i].dest == d
    requires forall z <- srcRows :: z in n <==> Get(z, Key) !in KeySet(dests)
    ensures KeySet(t) == KeySet(srcRows) + KeySet(dests)
  {
    forall k | k in KeySet(t) ensures k in KeySet(srcRows) + KeySet(dests) {
      var r :| r in t && Get(r, Key) == k;
      var i :| 0 <= i < |t| && t[i] == r;
      if i < |js| {
        assert js[i].dest in dests;
      } else {
        var q := i - |js|;
        assert t[|js| + q] == r && n[q] in srcRows;
      }
    }
    forall k | k in KeySet(srcRows) + KeySet(dests) ensures k in KeySet(t) {
      if k in KeySet(dests) {
        var d :| d in dests && Get(d, Key) == k;
        var i :| 0 <= i < |js| && js[i].dest == d;
        assert t[i] in t;
      } else {
        var z :| z in srcRows && Get(z, Key) == k;
        var q :| 0 <= q < |n| && n[q] == z;
        assert t[|js| + q] in t;
      }
    }
  }

  lemma KeySetOfPermutation(a: seq<Record>, b: seq<Record>)
    requires multiset(a) == multiset(b)
    ensures KeySet(a) == KeySet(b)
  {
    forall r | r in a ensures r in b { assert r in multiset(a); }
    forall r | r in b ensures r in a { assert r in multiset(b); }
  }

  /** Every key of the worksheet and of the export is among the rows that
      are written back, and no other key is. */
  lemma ReconciledKeys(src: Table, dest: Table)
    requires HasInputColumns(src, dest)
    ensures KeySet(Reconciled(src, dest)) == KeySet(Normalise(src).rows) + KeySet(Normalise(dest).rows)
  {
    ReconciledIsOrdered(src, dest);
    CombinedKeys(Normalise(src), Normalise(dest));
    KeySetOfPermutation(Reconciled(src, dest), Combined(Normalise(src), Normalise(dest)).rows);
  }

  // ------------------------------------------------------------ columns

  lemma NewOrderUnsuffixed()
    ensures forall c <- NewOrder :: !HasSuffix(c)
  {
  }

  /** A label survives the merge and the append exactly when the export has
      it or the worksheet has it without the `_zoho` ending. */
  lemma CombinedColumns(src: Table, dest: Table, c: string)
    ensures c in Combined(src, dest).columns <==> c in src.columns || (c in dest.columns && !HasSuffix(c))
  {
    var m := Merge(dest, src);
    var all := dest.columns + Missing(src.columns, dest.columns);
    assert c in m.columns <==> c in all && !HasSuffix(c);
    assert c in all <==> c in dest.columns || c in src.columns;
  }

  /** `sort_and_append_to_gsheets` reaches the write exactly when both frames
      have the key and the date columns and every output column is on one
      side or the other; otherwise it raises `KeyError`. */
  lemma ReconcileSucceedsIff(src: Table, dest: Table)
    ensures Reconcile(src, dest).Ok? <==>
      HasInputColumns(src, dest) && forall c <- NewOrder :: c in src.columns || c in dest.columns
  {
    if HasInputColumns(src, dest) {
      var combined := Combined(Normalise(src), Normalise(dest));
      NewOrderInCombined(src, dest, combined);
      assert Invoice in NewOrder;
    }
  }

  /** An output column is among the combined columns exactly when one of
      the two frames has it. */
  lemma NewOrderInCombined(src: Table, dest: Table, combined: Table)
    requires combined == Combined(Normalise(src), Normalise(dest))
    ensures forall c <- NewOrder :: c in combined.columns <==> c in src.columns || c in dest.columns
  {
    NewOrderUnsuffixed();
    forall c <- NewOrder
      ensures c in combined.columns <==> c in src.columns || c in dest.columns
    {
      CombinedColumns(Normalise(src), Normalise(dest), c);
    }
  }

  /** The export has no `COO` and no `Remarks` column (`'COO''Remarks'` is
      one label), so a reconciliation of an export succeeds only against a
      worksheet that has both. */
  lemma ExportNeedsSheetCooAndRemarks(records: seq<Record>, dest: Table)
    requires ShapeExport(records).Ok? && Reconcile(ShapeExport(records).value, dest).Ok?
    ensures "COO" in dest.columns && Remarks in dest.columns
  {
    ReconcileSucceedsIff(ShapeExport(records).value, dest);
    assert "COO" in NewOrder && Remarks in NewOrder;
  }

  // ------------------------------------------------------------- output

  /** The frame handed to `append_to_gsheets` has the worksheet's columns in
      order, one row per reconciled row, every cell text, each the rendering
      of the reconciled row's cell. */
  lemma ReconcileShape(src: Table, dest: Table)
    requires Reconcile(src, dest).Ok?
    ensures var t, s := Reconcile(src, dest).value, Reconciled(src, dest);
      && t.columns == NewOrder && WellFormed(t) && AllText(t) && |t.rows| == |s|
      && forall i, c :: 0 <= i < |s| && c in NewOrder ==> c in t.rows[i] && t.rows[i][c] == RenderCell(Get(s[i], c))
  {
    var combined := Combined(Normalise(src), Normalise(dest));
    var s := Reconciled(src, dest);
    var shown := Table(combined.columns, RenderRows(s));
    assert Reconcile(src, dest) == Project(shown, NewOrder);
    NewOrderDistinct();
    ReconciledIsOrdered(src, dest);
    SameRowsSameKeys(s, combined.rows, combined.columns);
    RenderedRows(s, combined.columns);
    ProjectCells(shown, NewOrder);
  }

  lemma SameRowsSameKeys(s: seq<Record>, rows: seq<Record>, cols: seq<string>)
    requires multiset(s) == multiset(rows)
    requires forall r <- rows :: r.Keys == set c | c in cols
    ensures forall r <- s :: r.Keys == set c | c in cols
  {
    forall r | r in s ensures r.Keys == set c | c in cols {
      assert r in multiset(rows);
    }
  }

  /** Rendering keeps every column and leaves only text. */
  lemma RenderedRows(s: seq<Record>, cols: seq<string>)
    requires forall r <- s :: r.Keys == set c | c in cols
    ensures var t := Table(cols, RenderRows(s));
      && |t.rows| == |s|
      && AllText(t)
      && (forall r <- t.rows :: r.Keys == set c | c in cols)
      && forall i, c :: 0 <= i < |s| && c in cols ==> c in t.rows[i] && t.rows[i][c] == RenderCell(Get(s[i], c))
  {
    var t := Table(cols, RenderRows(s));
    forall r | r in t.rows ensures r.Keys == (set c | c in cols) && forall c <- r.Keys :: r[c].Str? {
      var i :| 0 <= i < |t.rows| && t.rows[i] == r;
      assert s[i] in s;
    }
    forall i, c | 0 <= i < |s| && c in cols ensures c in t.rows[i] && t.rows[i][c] == RenderCell(Get(s[i], c)) {
      assert s[i] in s;
    }
  }

  /** What is written reads back, on the next run, as the same frame. */
  lemma ReconcileReadsBack(src: Table, dest: Table)
    requires Reconcile(src, dest).Ok?
    ensures ReadTable(ToGrid(Reconcile(src, dest).value)) == Some(Reconcile(src, dest).value)
  {
    ReconcileShape(src, dest);
    ReadBackWritten(Reconcile(src, dest).value);
    AsWrittenText(Reconcile(src, dest).value);
  }

  // -------------------------------------------------------------- dates

  /** A date cell once parsed: NaT, or a date pandas can hold, at midnight. */
  predicate ParsedDate(v: Value) {
    v.Null? || (v.When? && Representable(v.at) && IsMidnight(v.at))
  }

  predicate DatesParsed(rows: seq<Record>) {
    forall r <- rows :: ParsedDate(Get(r, DateColumn))
  }

  lemma NormaliseParsesDates(t: Table)
    requires NoTimestamps(t, DateColumn)
    ensures DatesParsed(Normalise(t).rows)
  {
    var u := MapColumn(t, Key, KeyText);
    forall r | r in Normalise(t).rows ensures ParsedDate(Get(r, DateColumn)) {
      var i :| 0 <= i < |Normalise(t).rows| && Normalise(t).rows[i] == r;
      assert Get(u.rows[i], DateColumn) == Get(t.rows[i], DateColumn);
      assert t.rows[i] in t.rows;
    }
  }

  lemma MergeRowDate(dest: Table, src: Table, i: nat)
    requires DatesParsed(src.rows) && DatesParsed(dest.rows)
    requires i < |LeftJoin(dest.rows, src.rows)|
    ensures i < |Merge(dest, src).rows| && ParsedDate(Get(Merge(dest, src).rows[i], DateColumn))
  {
    var js := LeftJoin(dest.rows, src.rows);
    assert js[i] in js;
    assert js[i].dest in dest.rows;
    assert js[i].zoho == map[] || js[i].zoho in src.rows;
    assert ParsedDate(Get(js[i].zoho, DateColumn));
  }

  lemma CombinedDatesParsed(src: Table, dest: Table)
    requires DatesParsed(src.rows) && DatesParsed(dest.rows)
    ensures DatesParsed(Combined(src, dest).rows)
  {
    var m, n := Merge(dest, src), NewRows(src, dest);
    var t := Combined(src, dest);
    forall r | r in t.rows ensures ParsedDate(Get(r, DateColumn)) {
      var i :| 0 <= i < |t.rows| && t.rows[i] == r;
      ConcatCell(m, n, i, DateColumn);
      if i < |m.rows| {
        MergeRowDate(dest, src, i);
      } else {
        assert n.rows[i - |m.rows|] in n.rows;
      }
    }
  }

  /** The rows handed on carry parsed dates only. */
  lemma ReconciledDatesParsed(src: Table, dest: Table)
    requires NoTimestamps(src, DateColumn) && NoTimestamps(dest, DateColumn)
    ensures DatesParsed(Reconciled(src, dest))
  {
    NormaliseParsesDates(src);
    NormaliseParsesDates(dest);
    var rows := Combined(Normalise(src), Normalise(dest)).rows;
    CombinedDatesParsed(Normalise(src), Normalise(dest));
    ReconciledIsOrdered(src, dest);
    forall r | r in Reconciled(src, dest) ensures ParsedDate(Get(r, DateColumn)) {
      assert r in multiset(rows);
    }
  }

  /** A parsed date cell, rendered and parsed again, is the same cell:
      `%d/%m/%Y` round-trips and NaT is shown as `''`, which parses to NaT. */
  lemma RenderedDateReadsBack(v: Value)
    requires ParsedDate(v)
    ensures DayFirstDate(RenderCell(v)) == v
  {
    match v
    case When(t) => FormatThenParseDayMonthYear(t);
    case Null => assert Split("", '/') == [""];
  }

  /** Each date the worksheet now shows is read back by the next run as the
      date its row was sorted on. */
  lemma WrittenDatesReadBack(src: Table, dest: Table, i: nat)
    requires NoTimestamps(src, DateColumn) && NoTimestamps(dest, DateColumn) && Reconcile(src, dest).Ok?
    requires i < |Reconcile(src, dest).value.rows|
    ensures DayFirstDate(Get(Reconcile(src, dest).value.rows[i], DateColumn)) == Get(Reconciled(src, dest)[i], DateColumn)
  {
    ReconcileShape(src, dest);
    var s := Reconciled(src, dest);
    assert DateColumn in NewOrder;
    ReconciledDatesParsed(src, dest);
    assert s[i] in s;
    RenderedDateReadsBack(Get(s[i], DateColumn));
  }
}

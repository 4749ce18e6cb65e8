/**
 * The scan in `copy_files` (Code/experiment_creator.py and
 * Code/HoMoPaD/experiment_creator.py).  Reading the rows of a repeated
 * experiment's result file, it maps column 7 (a permutation count) to
 * column 6 (the compression it reached).  Rows whose columns 6 and 7 are both
 * -1 are sentinels; the table wanted is the first run of data rows after the
 * leading sentinels.  A row whose columns do not parse raises, and the
 * handler in `copy_files` returns what was collected until then.
 */
module RepeatScan {

  /** A row of the result file, reduced to its columns 6 and 7 (`fields[5]`, `fields[6]`). */
  datatype Row = Cols(col6: int, col7: int) | Unparsable

  predicate IsSentinel(r: Row) {
    r.Cols? && r.col6 == -1 && r.col7 == -1
  }

  predicate IsData(r: Row) {
    r.Cols? && !IsSentinel(r)
  }

  /** The first row at or after `i` that is not a sentinel. */
  function SkipFrom(rows: seq<Row>, i: nat): (j: nat)
    requires i <= |rows|
    ensures i <= j <= |rows|
    ensures forall k :: i <= k < j ==> IsSentinel(rows[k])
    ensures j < |rows| ==> !IsSentinel(rows[j])
    decreases |rows| - i
  {
    if i < |rows| && IsSentinel(rows[i]) then SkipFrom(rows, i + 1) else i
  }

  /** The first row at or after `i` that is not a data row. */
  function DataEnd(rows: seq<Row>, i: nat): (j: nat)
    requires i <= |rows|
    ensures i <= j <= |rows|
    ensures forall k :: i <= k < j ==> IsData(rows[k])
    ensures j < |rows| ==> !IsData(rows[j])
    decreases |rows| - i
  {
    if i < |rows| && IsData(rows[i]) then DataEnd(rows, i + 1) else i
  }

  /** Column 7 to column 6 over a run of parsed rows, a later row overwriting an earlier one. */
  function Collect(rows: seq<Row>): map<int, int>
    requires forall k :: 0 <= k < |rows| ==> rows[k].Cols?
  {
    if |rows| == 0 then map[]
    else
      var last := rows[|rows| - 1];
      Collect(rows[..|rows| - 1])[last.col7 := last.col6]
  }

  /** The data rows between the leading sentinels and the next row that is not data. */
  function Window(rows: seq<Row>): seq<Row> {
    var s := SkipFrom(rows, 0);
    rows[s..DataEnd(rows, s)]
  }

  /** The dictionary `copy_files` returns for the rows of its target file. */
  function Extracted(rows: seq<Row>): map<int, int> {
    Collect(Window(rows))
  }

  /** The scan as Code/experiment_creator.py writes it. */
  method ScanRows(rows: seq<Row>) returns (data: map<int, int>)
    ensures data == Extracted(rows)
  {
    data := map[];
    var processing := false;
    var lineCounter := 0;
    var prev6, prev7 := -1, -1;
    var k := 0;
    ghost var s := SkipFrom(rows, 0);
    while k < |rows|
      invariant 0 <= k <= |rows|
      invariant lineCounter == 0 ==> !processing && data == map[] && s == SkipFrom(rows, k)
      invariant lineCounter > 0 ==>
        processing && s < k && IsData(rows[k - 1]) && prev6 == rows[k - 1].col6 && prev7 == rows[k - 1].col7 &&
        DataEnd(rows, s) == DataEnd(rows, k) && data == Collect(rows[s..k])
    {
      if rows[k].Unparsable? {
        ScanDone(rows, s, k, lineCounter > 0, data);
        break;
      }
      var col6, col7 := rows[k].col6, rows[k].col7;
      if col6 == -1 && col7 == -1 {
        if lineCounter != 0 {
          if prev6 == -1 && prev7 == -1 {
          } else {
            if processing {
              ScanDone(rows, s, k, true, data);
              break;
            }
            processing := true;
          }
        } else {
          prev6, prev7 := -1, -1;
          ScanSkip(rows, k);
          k := k + 1;
          continue;
        }
      } else {
        ScanData(rows, s, k, lineCounter > 0, data);
        data := data[col7 := col6];
        processing := true;
      }
      prev6, prev7 := col6, col7;
      lineCounter := lineCounter + 1;
      k := k + 1;
    }
    if k == |rows| {
      ScanDone(rows, s, k, lineCounter > 0, data);
    }
  }

  /**
   * The scan as Code/HoMoPaD/experiment_creator.py writes it: a sentinel
   * after a sentinel is skipped with `continue`, and the first-row branch
   * only compares the previous columns with -1 before skipping the row.
   */
  method ScanRowsOld(rows: seq<Row>) returns (data: map<int, int>)
    ensures data == Extracted(rows)
  {
    data := map[];
    var processing := false;
    var lineCounter := 0;
    var prev7, prev6 := -1, -1;
    var k := 0;
    ghost var s := SkipFrom(rows, 0);
    while k < |rows|
      invariant 0 <= k <= |rows|
      invariant lineCounter == 0 ==> !processing && data == map[] && s == SkipFrom(rows, k)
      invariant lineCounter > 0 ==>
        processing && s < k && IsData(rows[k - 1]) && prev6 == rows[k - 1].col6 && prev7 == rows[k - 1].col7 &&
        DataEnd(rows, s) == DataEnd(rows, k) && data == Collect(rows[s..k])
    {
      if rows[k].Unparsable? {
        ScanDone(rows, s, k, lineCounter > 0, data);
        break;
      }
      var col6, col7 := rows[k].col6, rows[k].col7;
      if col6 == -1 && col7 == -1 {
        if lineCounter != 0 {
          if prev6 == -1 && prev7 == -1 {
            k := k + 1;
            continue;
          } else {
            if processing {
              ScanDone(rows, s, k, true, data);
              break;
            }
            processing := true;
          }
        } else {
          ScanSkip(rows, k);
          k := k + 1;
          continue;
        }
      } else {
        ScanData(rows, s, k, lineCounter > 0, data);
        data := data[col7 := col6];
        processing := true;
      }
      prev6, prev7 := col6, col7;
      lineCounter := lineCounter + 1;
      k := k + 1;
    }
    if k == |rows| {
      ScanDone(rows, s, k, lineCounter > 0, data);
    }
  }

  // ---------------------------------------------------------------- the steps of the scans

  lemma ScanSkip(rows: seq<Row>, k: nat)
    requires k < |rows| && IsSentinel(rows[k])
    ensures SkipFrom(rows, k) == SkipFrom(rows, k + 1)
  {
  }

  /** A data row starts the run when none has been seen, and extends it otherwise. */
  lemma ScanData(rows: seq<Row>, s: nat, k: nat, started: bool, data: map<int, int>)
    requires k < |rows| && IsData(rows[k]) && s <= |rows|
    requires !started ==> s == SkipFrom(rows, k) && data == map[]
    requires started ==> s < k && DataEnd(rows, s) == DataEnd(rows, k) && data == Collect(rows[s..k])
    ensures s <= k && DataEnd(rows, s) == DataEnd(rows, k + 1)
    ensures data[rows[k].col7 := rows[k].col6] == Collect(rows[s..k + 1])
  {
    if started {
      assert rows[s..k + 1][..k - s] == rows[s..k];
    } else {
      assert rows[s..k + 1] == [rows[k]];
      assert rows[s..k + 1][..0] == [];
    }
  }

  /** Where a scan stops, what it collected is the table of the first run of data rows. */
  lemma ScanDone(rows: seq<Row>, s: nat, k: nat, started: bool, data: map<int, int>)
    requires s == SkipFrom(rows, 0) && k <= |rows|
    requires !started ==> data == map[] && s == SkipFrom(rows, k) && (k < |rows| ==> rows[k].Unparsable?)
    requires started ==> s < k && DataEnd(rows, s) == DataEnd(rows, k) && data == Collect(rows[s..k]) && (k < |rows| ==> !IsData(rows[k]))
    ensures data == Extracted(rows)
  {
    if started {
      assert DataEnd(rows, k) == k;
    } else {
      assert s == k;
      assert DataEnd(rows, k) == k;
    }
  }

  // ---------------------------------------------------------------- the declarative rule

  /**
   * Whatever `s` and `e` split the rows into leading sentinels, a run of
   * data rows and a rest that does not start with a data row, the table
   * holds exactly the column-7 values of that run, each mapped to the
   * column 6 of the last row of the run that carries it.
   */
  lemma ExtractedRule(rows: seq<Row>, s: nat, e: nat)
    requires s <= e <= |rows|
    requires forall k :: 0 <= k < s ==> IsSentinel(rows[k])
    requires s < |rows| ==> !IsSentinel(rows[s])
    requires forall k :: s <= k < e ==> IsData(rows[k])
    requires e < |rows| ==> !IsData(rows[e])
    ensures forall c :: c in Extracted(rows) <==> exists i :: s <= i < e && IsData(rows[i]) && rows[i].col7 == c
    ensures forall i :: s <= i < e && (forall j :: i < j < e ==> rows[j].col7 != rows[i].col7) ==>
      Extracted(rows)[rows[i].col7] == rows[i].col6
  {
    WindowAt(rows, s, e);
    var w := rows[s..e];
    assert forall k :: 0 <= k < |w| ==> w[k] == rows[s + k];
    forall c ensures c in Extracted(rows) <==> exists i :: s <= i < e && IsData(rows[i]) && rows[i].col7 == c {
      SliceKeys(rows, s, e, w, c);
    }
    forall i | s <= i < e && (forall j :: i < j < e ==> rows[j].col7 != rows[i].col7)
      ensures Extracted(rows)[rows[i].col7] == rows[i].col6
    {
      SliceVal(rows, s, e, w, i);
    }
  }

  lemma SliceKeys(rows: seq<Row>, s: nat, e: nat, w: seq<Row>, c: int)
    requires s <= e <= |rows| && w == rows[s..e] && forall k :: s <= k < e ==> IsData(rows[k])
    requires forall k :: 0 <= k < |w| ==> w[k].Cols?
    ensures c in Collect(w) <==> exists i :: s <= i < e && IsData(rows[i]) && rows[i].col7 == c
  {
    CollectRule(w);
    if c in Collect(w) {
      var m :| 0 <= m < |w| && w[m].col7 == c;
      assert rows[s + m].col7 == c;
    }
    if exists i :: s <= i < e && IsData(rows[i]) && rows[i].col7 == c {
      var i :| s <= i < e && IsData(rows[i]) && rows[i].col7 == c;
      assert w[i - s].col7 == c;
    }
  }

  lemma SliceVal(rows: seq<Row>, s: nat, e: nat, w: seq<Row>, i: nat)
    requires s <= i < e <= |rows| && w == rows[s..e] && forall k :: s <= k < e ==> rows[k].Cols?
    requires forall k :: 0 <= k < |w| ==> w[k].Cols?
    requires forall j :: i < j < e ==> rows[j].col7 != rows[i].col7
    ensures rows[i].col7 in Collect(w) && Collect(w)[rows[i].col7] == rows[i].col6
  {
    CollectRule(w);
    assert w[i - s] == rows[i];
    forall j | i - s < j < |w| ensures w[j].col7 != w[i - s].col7 {
      assert w[j] == rows[s + j];
    }
  }

  lemma WindowAt(rows: seq<Row>, s: nat, e: nat)
    requires s <= e <= |rows|
    requires forall k :: 0 <= k < s ==> IsSentinel(rows[k])
    requires s < |rows| ==> !IsSentinel(rows[s])
    requires forall k :: s <= k < e ==> IsData(rows[k])
    requires e < |rows| ==> !IsData(rows[e])
    ensures Window(rows) == rows[s..e]
  {
    assert SkipFrom(rows, 0) == s;
    assert DataEnd(rows, s) == e;
  }

  /** The keys of a collected run are its column-7 values; each maps to the column 6 of its last row. */
  lemma {:induction false} CollectRule(rows: seq<Row>)
    requires forall k :: 0 <= k < |rows| ==> rows[k].Cols?
    ensures forall c :: c in Collect(rows) <==> exists m :: 0 <= m < |rows| && rows[m].col7 == c
    ensures forall m :: 0 <= m < |rows| && (forall j :: m < j < |rows| ==> rows[j].col7 != rows[m].col7) ==>
      Collect(rows)[rows[m].col7] == rows[m].col6
  {
    if |rows| > 0 {
      var init := rows[..|rows| - 1];
      var last := rows[|rows| - 1];
      CollectRule(init);
      forall c ensures c in Collect(rows) <==> exists m :: 0 <= m < |rows| && rows[m].col7 == c {
        if c in Collect(init) {
          var m :| 0 <= m < |init| && init[m].col7 == c;
          assert rows[m].col7 == c;
        }
        if exists m :: 0 <= m < |rows| && rows[m].col7 == c {
          var m :| 0 <= m < |rows| && rows[m].col7 == c;
          if m < |init| {
            assert init[m].col7 == c;
          }
        }
      }
      forall m | 0 <= m < |rows| && (forall j :: m < j < |rows| ==> rows[j].col7 != rows[m].col7)
        ensures Collect(rows)[rows[m].col7] == rows[m].col6
      {
        if m < |init| {
          assert init[m] == rows[m];
          assert last.col7 != rows[m].col7;
          forall j | m < j < |init| ensures init[j].col7 != init[m].col7 {
            assert init[j] == rows[j];
          }
        }
      }
    }
  }
}

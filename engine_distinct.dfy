/**
 * The buckets of a run hold distinct paths, so every pruning step removes
 * exactly the windows of the next bucket, and a finished table keeps only
 * records that are neither the prefix nor the suffix of a longer one.
 */
module EngineDistinct {
  import opened Wrappers
  import opened Seqs
  import PyDict
  import opened Engine
  import opened EnginePrune

  /** No record of `lower` is the prefix or the suffix of a length-(k + 1) path of `upper`. */
  predicate Covers(lower: seq<Rec>, upper: seq<Rec>, k: int)
    requires k >= 0
  {
    forall x, u :: x in lower && u in upper ==>
      |u.path| == k + 1 && x.path != u.path[..k] && x.path != u.path[1..]
  }

  /** Bucket k is not covered by bucket k + 1. */
  predicate MaximalAt(d: Table, k: int) {
    k >= 0 && k in d && k + 1 in d ==> Covers(d[k], d[k + 1], k)
  }

  /** No record of bucket k >= 1 is the prefix or the suffix of a bucket-(k + 1) path. */
  predicate Maximal(d: Table) {
    forall k :: k in d && 1 <= k ==> MaximalAt(d, k)
  }

  /** Every bucket holds distinct paths. */
  predicate AllDistinct(d: Table) {
    forall k :: k in d ==> DistinctPaths(d[k])
  }

  lemma DistinctSnoc(b: seq<Rec>, x: Rec)
    requires DistinctPaths(b) && forall r :: r in b ==> r.path != x.path
    ensures DistinctPaths(b + [x])
  {
    var c := b + [x];
    forall i, j | 0 <= i < j < |c|
      ensures c[i].path != c[j].path
    {
      assert c[i] == b[i];
      if j < |b| {
        assert c[j] == b[j];
      } else {
        assert b[i] in b;
      }
    }
  }

  lemma DistinctConcat(a: seq<Rec>, b: seq<Rec>)
    requires DistinctPaths(a) && DistinctPaths(b)
    requires forall x, y :: x in a && y in b ==> x.path != y.path
    ensures DistinctPaths(a + b)
  {
    var c := a + b;
    forall i, j | 0 <= i < j < |c|
      ensures c[i].path != c[j].path
    {
      if j < |a| {
        assert c[i] == a[i] && c[j] == a[j];
      } else if i >= |a| {
        assert c[i] == b[i - |a|] && c[j] == b[j - |a|];
      } else {
        assert c[i] == a[i] && a[i] in a;
        assert c[j] == b[j - |a|] && b[j - |a|] in b;
      }
    }
  }

  // ---------------------------------------------------------------- one round

  /** With distinct sensor edges, round 1 emits distinct one-edge paths, each a sensor edge. */
  lemma {:induction false} Round1Distinct(ctx: Ctx, sensors: seq<SensorRow>, adj: Adj, i: nat)
    requires PyDict.Valid(adj) && i <= |sensors| && NoDup(RowEdges(sensors))
    requires Round1Upto(ctx, sensors, adj, i).Ok?
    ensures var out := Round1Upto(ctx, sensors, adj, i).value.out;
            DistinctPaths(out) &&
            forall r :: r in out ==> exists k :: 0 <= k < i && r.path == [sensors[k].edge]
  {
    if i > 0 {
      var st := Round1Upto(ctx, sensors, adj, i - 1);
      var e := sensors[i - 1].edge;
      assert st.Ok?;
      Round1Distinct(ctx, sensors, adj, i - 1);
      var out0 := st.value.out;
      var out := Round1Upto(ctx, sensors, adj, i).value.out;
      if e in adj.vals && Passes1(ctx, sensors, e) {
        var rec := Rec([e], LastObjs(sensors, e));
        assert out == out0 + [rec];
        forall r | r in out0
          ensures r.path != rec.path
        {
          var k :| 0 <= k < i - 1 && r.path == [sensors[k].edge];
          assert RowEdges(sensors)[k] != RowEdges(sensors)[i - 1];
        }
        DistinctSnoc(out0, rec);
      } else {
        assert out == out0;
      }
    }
  }

  /** Appending the cell of column `keys[j - 1]` keeps the new records distinct. */
  lemma AppendCol(out0: seq<Rec>, m: nat, rec: Rec, p: seq<int>, keys: seq<int>, j: nat)
    requires m <= |out0| && NoDup(keys) && 0 < j <= |keys| && rec.path == p + [keys[j - 1]]
    requires DistinctPaths(out0[m..])
    requires forall r :: r in out0[m..] ==> exists jj :: 0 <= jj < j - 1 && r.path == p + [keys[jj]]
    ensures var out := out0 + [rec];
            out[..m] == out0[..m] && DistinctPaths(out[m..]) &&
            forall r :: r in out[m..] ==> exists jj :: 0 <= jj < j && r.path == p + [keys[jj]]
  {
    var out := out0 + [rec];
    assert out[m..] == out0[m..] + [rec];
    forall r | r in out0[m..]
      ensures r.path != rec.path
    {
      var jj :| 0 <= jj < j - 1 && r.path == p + [keys[jj]];
      assert keys[jj] != keys[j - 1];
      assert r.path[|p|] == keys[jj];
    }
    DistinctSnoc(out0[m..], rec);
    forall r | r in out[m..]
      ensures exists jj :: 0 <= jj < j && r.path == p + [keys[jj]]
    {
      if r != rec {
        assert r in out0[m..];
      }
    }
  }

  /** The cells of row `p` append distinct paths `p + [c]`, one per column at most. */
  lemma {:induction false} ColsDistinct(ctx: Ctx, rows: seq<Rec>, single: seq<Rec>, adj: Adj,
                                        st: Result<Found>, p: seq<int>, j: nat)
    requires PyDict.Valid(adj) && j <= |adj.keys|
    requires st.Ok? && PyDict.Valid(st.value.next)
    requires ColsUpto(ctx, rows, single, adj, st, p, j).Ok?
    ensures var out := ColsUpto(ctx, rows, single, adj, st, p, j).value.out;
            var m := |st.value.out|;
            m <= |out| && out[..m] == st.value.out && DistinctPaths(out[m..]) &&
            forall r :: r in out[m..] ==> exists jj :: 0 <= jj < j && r.path == p + [adj.keys[jj]]
  {
    var m := |st.value.out|;
    if j == 0 {
      assert ColsUpto(ctx, rows, single, adj, st, p, 0).value.out[m..] == [];
    } else {
      var prev := ColsUpto(ctx, rows, single, adj, st, p, j - 1);
      assert prev.Ok?;
      ColsDistinct(ctx, rows, single, adj, st, p, j - 1);
      var out0 := prev.value.out;
      var out := ColsUpto(ctx, rows, single, adj, st, p, j).value.out;
      var c := adj.keys[j - 1];
      if Linked(adj, p, c) && Denominator(ctx) != 0 && Emits(ctx, rows, single, adj, p, c) {
        var rec := Rec(p + [c], CellObjs(rows, single, p, c));
        assert out == out0 + [rec];
        AppendCol(out0, m, rec, p, adj.keys, j);
      } else {
        assert out == out0;
      }
    }
  }

  /** Records extending earlier rows and records extending row `i - 1` have different paths. */
  lemma ExtendedRows(rows: seq<Rec>, i: nat, a: seq<Rec>, b: seq<Rec>, keys: seq<int>)
    requires 0 < i <= |rows| && DistinctPaths(rows)
    requires forall r :: r in a ==> |r.path| > 0 && exists k :: 0 <= k < i - 1 && r.path[..|r.path| - 1] == rows[k].path
    requires forall r :: r in b ==> exists jj :: 0 <= jj < |keys| && r.path == rows[i - 1].path + [keys[jj]]
    ensures forall x, y :: x in a && y in b ==> x.path != y.path
    ensures forall r :: r in a + b ==> |r.path| > 0 && exists k :: 0 <= k < i && r.path[..|r.path| - 1] == rows[k].path
  {
    forall r | r in b
      ensures |r.path| > 0 && r.path[..|r.path| - 1] == rows[i - 1].path
    {
      var jj :| 0 <= jj < |keys| && r.path == rows[i - 1].path + [keys[jj]];
      assert r.path[..|r.path| - 1] == rows[i - 1].path;
    }
    forall x, y | x in a && y in b
      ensures x.path != y.path
    {
      var k :| 0 <= k < i - 1 && x.path[..|x.path| - 1] == rows[k].path;
      assert rows[k].path != rows[i - 1].path;
    }
  }

  lemma {:induction false} RowsDistinct(ctx: Ctx, rows: seq<Rec>, single: seq<Rec>, adj: Adj, i: nat)
    requires PyDict.Valid(adj) && i <= |rows| && DistinctPaths(rows)
    requires RowsUpto(ctx, rows, single, adj, i).Ok?
    ensures var out := RowsUpto(ctx, rows, single, adj, i).value.out;
            DistinctPaths(out) &&
            forall r :: r in out ==> |r.path| > 0 && exists k :: 0 <= k < i && r.path[..|r.path| - 1] == rows[k].path
  {
    if i > 0 {
      var st := RowsUpto(ctx, rows, single, adj, i - 1);
      var p := rows[i - 1].path;
      if st.Err? {
        ColsErr(ctx, rows, single, adj, st, p, |adj.keys|);
      }
      assert st.Ok?;
      RowsDistinct(ctx, rows, single, adj, i - 1);
      ColsDistinct(ctx, rows, single, adj, st, p, |adj.keys|);
      var a := st.value.out;
      var out := RowsUpto(ctx, rows, single, adj, i).value.out;
      var b := out[|a|..];
      assert out == a + b;
      ExtendedRows(rows, i, a, b, adj.keys);
      DistinctConcat(a, b);
    }
  }

  /** Round n >= 2 on rows with distinct paths emits distinct paths, each a row path extended by one edge. */
  lemma RoundNDistinct(ctx: Ctx, rows: seq<Rec>, single: seq<Rec>, adj: Adj)
    requires PyDict.Valid(adj) && DistinctPaths(rows)
    requires RoundNSpec(ctx, rows, single, adj).Ok?
    ensures var out := RoundNSpec(ctx, rows, single, adj).value.out;
            DistinctPaths(out) &&
            forall r :: r in out ==> |r.path| > 0 && exists k :: 0 <= k < |rows| && r.path[..|r.path| - 1] == rows[k].path
  {
    RowsDistinct(ctx, rows, single, adj, |rows|);
  }

  // ---------------------------------------------------------------- the recursion

  /** The recursion state after round `n`: distinct buckets, the pruned ones maximal, bucket n the last round's rows. */
  predicate DInv(rows: seq<Rec>, d: Table, n: int) {
    1 <= n <= Limit &&
    (forall k :: k in d ==> 0 <= k <= n) &&
    (forall r :: r in rows ==> |r.path| == n) &&
    (|rows| > 0 ==> n in d && d[n] == rows) &&
    AllDistinct(d) && Maximal(d)
  }

  /** Pruning distinct `lower` with length-(n + 1) paths leaves distinct records of `lower` that `upper` does not cover. */
  lemma PruneCovers(lower: seq<Rec>, upper: seq<Rec>, n: int)
    requires n >= 1 && DistinctPaths(lower)
    requires forall u :: u in upper ==> |u.path| == n + 1
    ensures var pruned := PruneSpec(lower, upper, n + 1);
            DistinctPaths(pruned) && Covers(pruned, upper, n) && forall x :: x in pruned ==> x in lower
  {
    PruneRule(lower, upper, n + 1);
    WithoutDistinct(lower, Gone(upper, n + 1));
  }

  lemma MaximalUpdate(d: Table, n: int, pruned: seq<Rec>, out: seq<Rec>)
    requires n >= 1 && n in d && (forall k :: k in d ==> 0 <= k <= n) && Maximal(d)
    requires Covers(pruned, out, n) && forall x :: x in pruned ==> x in d[n]
    ensures Maximal(d[n := pruned][n + 1 := out])
  {
    var d1 := d[n := pruned][n + 1 := out];
    forall k | k in d1 && 1 <= k
      ensures MaximalAt(d1, k)
    {
      if k + 1 == n {
        assert MaximalAt(d, k);
        assert d1[k] == d[k] && d1[n] == pruned;
      } else if k + 1 < n && k + 1 in d1 {
        assert MaximalAt(d, k);
        assert d1[k] == d[k] && d1[k + 1] == d[k + 1];
      } else if k > n {
        assert k + 1 !in d1;
      }
    }
  }

  lemma DistinctUpdate(d: Table, n: int, pruned: seq<Rec>, out: seq<Rec>)
    requires AllDistinct(d) && DistinctPaths(pruned) && DistinctPaths(out)
    ensures AllDistinct(d[n := pruned][n + 1 := out])
  {
  }

  /** Adding round n + 1's records and pruning bucket n keeps the state. */
  lemma {:induction false} DStep(rows: seq<Rec>, d: Table, n: int, out: seq<Rec>)
    requires DInv(rows, d, n) && |rows| > 0 && n < Limit
    requires DistinctPaths(out) && forall r :: r in out ==> |r.path| == n + 1
    ensures PruneTable(AddBucket(d, n + 1, out), n + 1).Ok?
    ensures DInv(out, PruneTable(AddBucket(d, n + 1, out), n + 1).value, n + 1)
  {
    if |out| > 0 {
      var d0 := d[n + 1 := out];
      assert [] + out == out;
      assert AddBucket(d, n + 1, out) == d0;
      var pruned := PruneSpec(d[n], out, n + 1);
      assert PruneTable(d0, n + 1) == Ok(d0[n := pruned]);
      assert d0[n := pruned] == d[n := pruned][n + 1 := out];
      PruneCovers(d[n], out, n);
      MaximalUpdate(d, n, pruned, out);
      DistinctUpdate(d, n, pruned, out);
    }
  }

  lemma {:induction false} RoundsFromDistinct(ctx: Ctx, single: seq<Rec>, rows: seq<Rec>, adj: Adj, d: Table, n: int)
    requires PyDict.Valid(adj) && DInv(rows, d, n)
    ensures RoundsFrom(ctx, single, rows, adj, d, n).Ok? ==>
              AllDistinct(RoundsFrom(ctx, single, rows, adj, d, n).value) &&
              Maximal(RoundsFrom(ctx, single, rows, adj, d, n).value)
    decreases Limit - n
  {
    if |rows| > 0 && n < Limit {
      var rn := RoundNSpec(ctx, rows, single, adj);
      if rn.Ok? {
        RoundNDistinct(ctx, rows, single, adj);
        forall r | r in rn.value.out
          ensures |r.path| == n + 1
        {
          var k :| 0 <= k < |rows| && r.path[..|r.path| - 1] == rows[k].path;
          assert rows[k] in rows;
        }
        DStep(rows, d, n, rn.value.out);
        var d1 := PruneTable(AddBucket(d, n + 1, rn.value.out), n + 1).value;
        RoundsFromDistinct(ctx, single, rn.value.out, rn.value.next, d1, n + 1);
      }
    }
  }

  /**
   * A finished run whose sensor edges are distinct (the older copy fails
   * otherwise): every bucket holds distinct paths, so each pruning step
   * removed exactly the prefixes and suffixes of the next bucket's paths,
   * and no record left in bucket k >= 1 is the prefix or the suffix of a
   * record of bucket k + 1.
   */
  lemma RunDistinct(ctx: Ctx, conn: Adj, sensors: seq<SensorRow>)
    requires PyDict.Valid(conn)
    requires ctx.variant == Older || NoDup(RowEdges(sensors))
    ensures RunSpec(ctx, conn, sensors).Ok? ==>
              AllDistinct(RunSpec(ctx, conn, sensors).value) && Maximal(RunSpec(ctx, conn, sensors).value)
  {
    var r1 := Round1Spec(ctx, sensors, conn);
    if r1.Ok? {
      assert NoDup(RowEdges(sensors));
      Round1Distinct(ctx, sensors, conn, |sensors|);
      var single := r1.value.out;
      forall r | r in single
        ensures |r.path| == 1
      {
        var k :| 0 <= k < |sensors| && r.path == [sensors[k].edge];
      }
      var d := AddBucket(AddBucket(map[], 0, single), 1, single);
      assert [] + single == single;
      assert DInv(single, d, 1);
      RoundsFromDistinct(ctx, single, single, r1.value.next, d, 1);
    }
  }

  /**
   * Why `RunDistinct` needs distinct sensor edges for the current copy: a
   * sensor file that lists edge 5 twice gives bucket 1 the homoedge `[5]` twice.
   */
  lemma RepeatedEdgeRepeatsHomoedge()
    ensures var ctx := Ctx(Current, Hashed, 1, 1, 0.0);
            var sensors := [SensorRow(5, 1, [7]), SensorRow(5, 1, [7])];
            var conn := PyDict.Dict([5], map[5 := []]);
            PyDict.Valid(conn) &&
            RunSpec(ctx, conn, sensors).Ok? && !AllDistinct(RunSpec(ctx, conn, sensors).value)
  {
    var ctx := Ctx(Current, Hashed, 1, 1, 0.0);
    var sensors := [SensorRow(5, 1, [7]), SensorRow(5, 1, [7])];
    var conn: Adj := PyDict.Dict([5], map[5 := []]);
    var rec := Rec([5], [7]);
    RepeatedEdgeRound1();
    var f := Found([rec, rec], conn);
    var d: Table := map[0 := [rec, rec], 1 := [rec, rec]];
    assert [] + f.out == f.out;
    assert AddBucket(AddBucket(map[], 0, f.out), 1, f.out) == d;
    assert !Linked(f.next, [5], 5);
    var st0: Result<Found> := Ok(Found([], PyDict.Empty()));
    assert ColsUpto(ctx, f.out, f.out, f.next, st0, [5], 1) == st0;
    assert RowsUpto(ctx, f.out, f.out, f.next, 1) == st0;
    assert RowsUpto(ctx, f.out, f.out, f.next, 2) == st0;
    assert RoundNSpec(ctx, f.out, f.out, f.next) == Ok(Found([], PyDict.Empty()));
    assert RoundsFrom(ctx, f.out, f.out, f.next, d, 1) == RoundsFrom(ctx, f.out, [], PyDict.Empty(), d, 2);
    assert RunSpec(ctx, conn, sensors) == Ok(d);
    assert !DistinctPaths(d[1]);
  }

  /** Round 1 of that run: both sensor rows give the same one-edge record, and the adjacency is kept whole. */
  lemma RepeatedEdgeRound1()
    ensures var ctx := Ctx(Current, Hashed, 1, 1, 0.0);
            var sensors := [SensorRow(5, 1, [7]), SensorRow(5, 1, [7])];
            var conn := PyDict.Dict([5], map[5 := []]);
            PyDict.Valid(conn) && Round1Spec(ctx, sensors, conn) == Ok(Found([Rec([5], [7]), Rec([5], [7])], conn))
  {
    var ctx := Ctx(Current, Hashed, 1, 1, 0.0);
    var sensors := [SensorRow(5, 1, [7]), SensorRow(5, 1, [7])];
    var conn: Adj := PyDict.Dict([5], map[5 := []]);
    var rec := Rec([5], [7]);
    assert FirstRawCount(sensors, 5) == 1;
    assert LastObjs(sensors, 5) == [7];
    assert Round1Upto(ctx, sensors, conn, 1).Ok?;
    assert Round1Upto(ctx, sensors, conn, 1).value.out == [rec];
    var f := Round1Upto(ctx, sensors, conn, 2).value;
    assert f.out == [rec, rec];
    assert Round1Spec(ctx, sensors, conn) == Ok(f);
    assert f.next.vals == map[5 := []];
    assert f.next.keys == [5];
  }
}

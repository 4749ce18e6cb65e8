/**
 * Facts about a whole run of the homopath engine: the shape of the table
 * that `calculate_obj_id_intersection` returns.
 */
module EngineRun {
  import opened Wrappers
  import opened Seqs
  import PyDict
  import opened Engine
  import opened EngineRounds
  import EnginePrune

  /** The objects every edge of `p` shares: the intersection of the edges' last-row object sets. */
  function Common(sensors: seq<SensorRow>, p: seq<int>): set<int>
    requires |p| > 0
  {
    if |p| == 1 then Elems(LastObjs(sensors, p[0]))
    else Common(sensors, p[..|p| - 1]) * Elems(LastObjs(sensors, p[|p| - 1]))
  }

  /** Every step of `p` follows the adjacency map. */
  predicate Walk(conn: Adj, p: seq<int>) {
    forall i :: 0 <= i < |p| - 1 ==> p[i] in conn.vals && p[i + 1] in conn.vals[p[i]]
  }

  /** What the cycle guard leaves: a repeated edge only right after itself (current), no repeat at all (older). */
  predicate Guarded(variant: Variant, p: seq<int>) {
    match variant
    case Current => forall j :: 0 < j < |p| && p[j] in p[..j] ==> p[j] == p[j - 1]
    case Older => forall i, j :: 0 <= i < j < |p| ==> p[i] != p[j]
  }

  /** A stored record: a guarded walk of homoedges carrying the objects its edges share. */
  ghost predicate Good(ctx: Ctx, conn: Adj, sensors: seq<SensorRow>, single: seq<Rec>, r: Rec) {
    |r.path| > 0 && Walk(conn, r.path) && (forall e :: e in r.path ==> HasEdge(single, e)) &&
    Elems(r.objs) == Common(sensors, r.path) && Guarded(ctx.variant, r.path)
  }

  /** The homoedge records of round 1: one edge of the adjacency map with its last-row objects. */
  ghost predicate SingleFits(conn: Adj, sensors: seq<SensorRow>, single: seq<Rec>) {
    forall r :: r in single ==>
      |r.path| == 1 && r.path[0] in conn.vals && r.objs == LastObjs(sensors, r.path[0])
  }

  /** The restricted adjacency of a round: homoedges only, with their successors from the full map. */
  ghost predicate AdjFits(conn: Adj, single: seq<Rec>, adj: Adj) {
    PyDict.Valid(adj) &&
    forall k :: k in adj.vals ==> k in conn.vals && adj.vals[k] == conn.vals[k] && HasEdge(single, k)
  }

  /** The shape of a finished table. */
  ghost predicate TableFacts(ctx: Ctx, conn: Adj, sensors: seq<SensorRow>, single: seq<Rec>, d: Table) {
    (forall k :: k in d ==> 0 <= k <= Limit) &&
    ((0 in d) == (|single| > 0)) && (0 in d ==> d[0] == single) &&
    (forall k, r :: k in d && r in d[k] ==>
       |r.path| == (if k == 0 then 1 else k) && Good(ctx, conn, sensors, single, r))
  }

  /** The state of the recursion after round `n`. */
  ghost predicate Inv(ctx: Ctx, conn: Adj, sensors: seq<SensorRow>, single: seq<Rec>,
                      rows: seq<Rec>, adj: Adj, d: Table, n: int) {
    1 <= n <= Limit &&
    SingleFits(conn, sensors, single) && AdjFits(conn, single, adj) &&
    (forall k :: k in d ==> 0 <= k <= n) &&
    ((0 in d) == (|single| > 0)) && (0 in d ==> d[0] == single) &&
    (forall k, r :: k in d && r in d[k] ==>
       |r.path| == (if k == 0 then 1 else k) && Good(ctx, conn, sensors, single, r)) &&
    (forall r :: r in rows ==> |r.path| == n && Good(ctx, conn, sensors, single, r)) &&
    (|rows| > 0 ==> n in d)
  }

  // ---------------------------------------------------------------- error kinds

  lemma {:induction false} Round1UptoErrKind(ctx: Ctx, sensors: seq<SensorRow>, adj: Adj, i: nat)
    requires PyDict.Valid(adj) && i <= |sensors|
    ensures Round1Upto(ctx, sensors, adj, i).Err? ==> Round1Upto(ctx, sensors, adj, i).error == ZeroDivisionError
  {
    if i > 0 {
      Round1UptoErrKind(ctx, sensors, adj, i - 1);
    }
  }

  lemma {:induction false} ColsErrKind(ctx: Ctx, rows: seq<Rec>, single: seq<Rec>, adj: Adj, st: Result<Found>,
                                       p: seq<int>, j: nat)
    requires PyDict.Valid(adj) && j <= |adj.keys|
    requires st.Ok? ==> PyDict.Valid(st.value.next)
    requires st.Err? ==> st.error == ZeroDivisionError
    ensures ColsUpto(ctx, rows, single, adj, st, p, j).Err? ==>
              ColsUpto(ctx, rows, single, adj, st, p, j).error == ZeroDivisionError
  {
    if j > 0 {
      ColsErrKind(ctx, rows, single, adj, st, p, j - 1);
    }
  }

  lemma {:induction false} RowsErrKind(ctx: Ctx, rows: seq<Rec>, single: seq<Rec>, adj: Adj, i: nat)
    requires PyDict.Valid(adj) && i <= |rows|
    ensures RowsUpto(ctx, rows, single, adj, i).Err? ==>
              RowsUpto(ctx, rows, single, adj, i).error == ZeroDivisionError
  {
    if i > 0 {
      RowsErrKind(ctx, rows, single, adj, i - 1);
      ColsErrKind(ctx, rows, single, adj, RowsUpto(ctx, rows, single, adj, i - 1), rows[i - 1].path, |adj.keys|);
    }
  }

  // ---------------------------------------------------------------- one extension

  lemma {:induction false} FirstObjsOfRow(rows: seq<Rec>, k: nat)
    requires k < |rows|
    ensures exists r :: r in rows && r.path == rows[k].path && r.objs == FirstObjs(rows, rows[k].path)
  {
    if rows[0].path != rows[k].path {
      FirstObjsOfRow(rows[1..], k - 1);
      var r :| r in rows[1..] && r.path == rows[1..][k - 1].path && r.objs == FirstObjs(rows[1..], rows[k].path);
      assert r in rows;
    }
  }

  lemma {:induction false} FirstEdgeObjsOfSingle(conn: Adj, sensors: seq<SensorRow>, single: seq<Rec>, c: int)
    requires SingleFits(conn, sensors, single) && HasEdge(single, c)
    ensures FirstEdgeObjs(single, c) == LastObjs(sensors, c)
  {
    if !(|single[0].path| > 0 && single[0].path[0] == c) {
      var r :| r in single && |r.path| > 0 && r.path[0] == c;
      assert r in single[1..];
      FirstEdgeObjsOfSingle(conn, sensors, single[1..], c);
    }
  }

  lemma KeepElems(xs: seq<int>, ys: seq<int>)
    ensures Elems(Keep(xs, ys)) == Elems(xs) * Elems(ys)
  {
  }

  lemma GuardedExtend(variant: Variant, p: seq<int>, c: int)
    requires |p| > 0 && Guarded(variant, p) && Appends(variant, p, c)
    ensures Guarded(variant, p + [c])
  {
    var q := p + [c];
    match variant {
      case Current =>
        forall j | 0 < j < |q| && q[j] in q[..j]
          ensures q[j] == q[j - 1]
        {
          if j < |p| {
            assert q[..j] == p[..j];
          } else {
            assert q[..j] == p;
          }
        }
      case Older =>
        forall i, j | 0 <= i < j < |q|
          ensures q[i] != q[j]
        {
          if j == |p| {
            assert q[i] == p[i];
          }
        }
    }
  }

  /** A record emitted by round n + 1 is again a good record, one edge longer. */
  lemma Extend(ctx: Ctx, conn: Adj, sensors: seq<SensorRow>, single: seq<Rec>,
               rows: seq<Rec>, adj: Adj, k: nat, c: int)
    requires k < |rows| && SingleFits(conn, sensors, single) && AdjFits(conn, single, adj)
    requires forall r :: r in rows ==> Good(ctx, conn, sensors, single, r)
    requires c in adj.vals && Linked(adj, rows[k].path, c) && Appends(ctx.variant, rows[k].path, c)
    ensures Good(ctx, conn, sensors, single, Rec(rows[k].path + [c], CellObjs(rows, single, rows[k].path, c)))
  {
    var p := rows[k].path;
    var q := p + [c];
    assert Good(ctx, conn, sensors, single, rows[k]);
    FirstObjsOfRow(rows, k);
    var r :| r in rows && r.path == p && r.objs == FirstObjs(rows, p);
    assert Good(ctx, conn, sensors, single, r);
    FirstEdgeObjsOfSingle(conn, sensors, single, c);
    KeepElems(FirstObjs(rows, p), FirstEdgeObjs(single, c));
    assert q[..|q| - 1] == p;
    assert Common(sensors, q) == Common(sensors, p) * Elems(LastObjs(sensors, c));
    forall i | 0 <= i < |q| - 1
      ensures q[i] in conn.vals && q[i + 1] in conn.vals[q[i]]
    {
      if i + 1 < |p| {
        assert q[i] == p[i] && q[i + 1] == p[i + 1];
      }
    }
    forall e | e in q
      ensures HasEdge(single, e)
    {
      if e != c {
        assert e in p;
      }
    }
    GuardedExtend(ctx.variant, p, c);
  }

  // ---------------------------------------------------------------- the recursion

  /** One more round keeps the recursion state. */
  lemma RoundStep(ctx: Ctx, conn: Adj, sensors: seq<SensorRow>, single: seq<Rec>,
                  rows: seq<Rec>, adj: Adj, n: int)
    requires SingleFits(conn, sensors, single) && AdjFits(conn, single, adj)
    requires forall r :: r in rows ==> |r.path| == n && Good(ctx, conn, sensors, single, r)
    requires RoundNSpec(ctx, rows, single, adj).Ok?
    ensures var f := RoundNSpec(ctx, rows, single, adj).value;
            AdjFits(conn, single, f.next) &&
            forall r :: r in f.out ==> |r.path| == n + 1 && Good(ctx, conn, sensors, single, r)
  {
    RoundNRule(ctx, rows, single, adj);
    var f := RoundNSpec(ctx, rows, single, adj).value;
    forall r | r in f.out
      ensures |r.path| == n + 1 && Good(ctx, conn, sensors, single, r)
    {
      var k, c :| 0 <= k < |rows| && c in adj.vals && Denominator(ctx) != 0 &&
                  Emits(ctx, rows, single, adj, rows[k].path, c) &&
                  r == Rec(rows[k].path + [c], CellObjs(rows, single, rows[k].path, c));
      assert rows[k] in rows;
      Extend(ctx, conn, sensors, single, rows, adj, k, c);
    }
  }

  /** The buckets of a table: keys up to `n`, bucket 0 the homoedges, every record good and of its bucket's length. */
  ghost predicate Buckets(ctx: Ctx, conn: Adj, sensors: seq<SensorRow>, single: seq<Rec>, d: Table, n: int) {
    (forall k :: k in d ==> 0 <= k <= n) &&
    ((0 in d) == (|single| > 0)) && (0 in d ==> d[0] == single) &&
    (forall k, r :: k in d && r in d[k] ==>
       |r.path| == (if k == 0 then 1 else k) && Good(ctx, conn, sensors, single, r))
  }

  lemma InvBuckets(ctx: Ctx, conn: Adj, sensors: seq<SensorRow>, single: seq<Rec>,
                   rows: seq<Rec>, adj: Adj, d: Table, n: int)
    requires Inv(ctx, conn, sensors, single, rows, adj, d, n)
    ensures Buckets(ctx, conn, sensors, single, d, n)
  {
  }

  lemma BucketsUpdate(ctx: Ctx, conn: Adj, sensors: seq<SensorRow>, single: seq<Rec>, d: Table, n: int,
                      pruned: seq<Rec>, out: seq<Rec>)
    requires 1 <= n && Buckets(ctx, conn, sensors, single, d, n) && n in d
    requires forall r :: r in pruned ==> r in d[n]
    requires forall r :: r in out ==> |r.path| == n + 1 && Good(ctx, conn, sensors, single, r)
    ensures Buckets(ctx, conn, sensors, single, d[n := pruned][n + 1 := out], n + 1)
  {
    var d1 := d[n := pruned][n + 1 := out];
    forall k: int, r: Rec | k in d1 && r in d1[k]
      ensures |r.path| == (if k == 0 then 1 else k) && Good(ctx, conn, sensors, single, r)
    {
      if k == n {
        assert r in d[n];
      } else if k < n {
        assert d1[k] == d[k];
      }
    }
  }

  /** Appending round n + 1's records and pruning bucket n keeps the buckets' shape. */
  lemma AddPrune(ctx: Ctx, conn: Adj, sensors: seq<SensorRow>, single: seq<Rec>, d: Table, n: int, out: seq<Rec>)
    requires 1 <= n && Buckets(ctx, conn, sensors, single, d, n) && n in d
    requires forall r :: r in out ==> |r.path| == n + 1 && Good(ctx, conn, sensors, single, r)
    ensures PruneTable(AddBucket(d, n + 1, out), n + 1).Ok?
    ensures Buckets(ctx, conn, sensors, single, PruneTable(AddBucket(d, n + 1, out), n + 1).value, n + 1)
  {
    assert n + 1 !in d;
    if |out| > 0 {
      var d0 := d[n + 1 := out];
      assert [] + out == out;
      assert AddBucket(d, n + 1, out) == d0;
      var pruned := PruneSpec(d[n], out, n + 1);
      assert PruneTable(d0, n + 1) == Ok(d0[n := pruned]);
      assert d0[n := pruned] == d[n := pruned][n + 1 := out];
      EnginePrune.PruneSubset(d[n], out, n + 1);
      BucketsUpdate(ctx, conn, sensors, single, d, n, pruned, out);
    }
  }

  /** One more round keeps the recursion state. */
  lemma PruneStep(ctx: Ctx, conn: Adj, sensors: seq<SensorRow>, single: seq<Rec>,
                  rows: seq<Rec>, adj: Adj, d: Table, n: int, out: seq<Rec>, next: Adj)
    requires Inv(ctx, conn, sensors, single, rows, adj, d, n) && |rows| > 0 && n < Limit
    requires AdjFits(conn, single, next)
    requires forall r :: r in out ==> |r.path| == n + 1 && Good(ctx, conn, sensors, single, r)
    ensures PruneTable(AddBucket(d, n + 1, out), n + 1).Ok?
    ensures Inv(ctx, conn, sensors, single, out, next, PruneTable(AddBucket(d, n + 1, out), n + 1).value, n + 1)
  {
    InvBuckets(ctx, conn, sensors, single, rows, adj, d, n);
    AddPrune(ctx, conn, sensors, single, d, n, out);
  }

  lemma {:induction false} RoundsFromFacts(ctx: Ctx, conn: Adj, sensors: seq<SensorRow>, single: seq<Rec>,
                                           rows: seq<Rec>, adj: Adj, d: Table, n: int)
    requires Inv(ctx, conn, sensors, single, rows, adj, d, n)
    ensures RoundsFrom(ctx, single, rows, adj, d, n).Err? ==>
              RoundsFrom(ctx, single, rows, adj, d, n).error in {IndexError, ZeroDivisionError}
    ensures RoundsFrom(ctx, single, rows, adj, d, n).Ok? ==>
              TableFacts(ctx, conn, sensors, single, RoundsFrom(ctx, single, rows, adj, d, n).value)
    decreases Limit - n
  {
    if |rows| > 0 && n < Limit {
      var rn := RoundNSpec(ctx, rows, single, adj);
      if rn.Err? {
        if !(ctx.variant == Older && !NoDup(Paths(rows))) {
          RowsErrKind(ctx, rows, single, adj, |rows|);
        }
      } else {
        RoundStep(ctx, conn, sensors, single, rows, adj, n);
        PruneStep(ctx, conn, sensors, single, rows, adj, d, n, rn.value.out, rn.value.next);
        var d1 := PruneTable(AddBucket(d, n + 1, rn.value.out), n + 1).value;
        RoundsFromFacts(ctx, conn, sensors, single, rn.value.out, rn.value.next, d1, n + 1);
      }
    }
  }

  /**
   * A finished run: every bucket key lies in 0..100, bucket 0 holds the
   * homoedges unpruned, every record of bucket k >= 1 has k edges, forms a
   * guarded walk of homoedges and carries exactly the objects its edges
   * share.  The `dictionary[n - 1]` lookup of the pruning step never fails.
   */
  lemma RunFacts(ctx: Ctx, conn: Adj, sensors: seq<SensorRow>)
    requires PyDict.Valid(conn)
    ensures RunSpec(ctx, conn, sensors).Err? ==> RunSpec(ctx, conn, sensors).error in {IndexError, ZeroDivisionError}
    ensures RunSpec(ctx, conn, sensors).Ok? ==>
              TableFacts(ctx, conn, sensors, Round1Spec(ctx, sensors, conn).value.out, RunSpec(ctx, conn, sensors).value)
  {
    Round1Rule(ctx, sensors, conn);
    var r1 := Round1Spec(ctx, sensors, conn);
    if r1.Err? {
      if !(ctx.variant == Older && !NoDup(RowEdges(sensors))) {
        Round1UptoErrKind(ctx, sensors, conn, |sensors|);
      }
    } else {
      var single := r1.value.out;
      var d := AddBucket(AddBucket(map[], 0, single), 1, single);
      assert [] + single == single;
      forall r | r in single
        ensures |r.path| == 1 && r.path[0] in conn.vals && r.objs == LastObjs(sensors, r.path[0])
        ensures Good(ctx, conn, sensors, single, r)
      {
        var k :| 0 <= k < |sensors| && Homoedge(ctx, sensors, conn, sensors[k].edge) &&
                 r == Rec([sensors[k].edge], LastObjs(sensors, sensors[k].edge));
        assert r.path[0] in r.path;
      }
      forall k | k in r1.value.next.vals
        ensures HasEdge(single, k)
      {
        var r :| r in single && EndsWith(r, k);
      }
      RoundsFromFacts(ctx, conn, sensors, single, single, r1.value.next, d, 1);
    }
  }
}

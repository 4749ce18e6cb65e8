/** What one round of the homopath engine emits, stated for every input. */
module EngineRounds {
  import opened Wrappers
  import opened Seqs
  import PyDict
  import opened Engine

  /** The record ends with edge `k`. */
  predicate EndsWith(r: Rec, k: int) {
    |r.path| > 0 && r.path[|r.path| - 1] == k
  }

  /** The restricted adjacency of the next round: exactly the last edges of the new records, with their successors. */
  ghost predicate NextFits(adj: Adj, f: Found) {
    (forall k :: k in f.next.vals <==> exists r :: r in f.out && EndsWith(r, k)) &&
    (forall k :: k in f.next.vals ==> k in adj.vals && f.next.vals[k] == adj.vals[k])
  }

  /** Round-1 homoedge rule for sensor row `k`. */
  predicate Homoedge(ctx: Ctx, sensors: seq<SensorRow>, adj: Adj, e: int) {
    e in adj.vals && ctx.total != 0 && Passes1(ctx, sensors, e)
  }

  lemma Round1Err(ctx: Ctx, sensors: seq<SensorRow>, adj: Adj, i: nat)
    requires PyDict.Valid(adj) && i <= |sensors|
    ensures Round1Upto(ctx, sensors, adj, i).Err? <==>
              ctx.total == 0 && exists k :: 0 <= k < i && sensors[k].edge in adj.vals
  {
    if i > 0 {
      Round1Err(ctx, sensors, adj, i - 1);
      if ctx.total == 0 && sensors[i - 1].edge in adj.vals {
        assert Round1Upto(ctx, sensors, adj, i).Err?;
      }
    }
  }

  lemma Round1Out(ctx: Ctx, sensors: seq<SensorRow>, adj: Adj, i: nat)
    requires PyDict.Valid(adj) && i <= |sensors|
    requires Round1Upto(ctx, sensors, adj, i).Ok?
    ensures var f := Round1Upto(ctx, sensors, adj, i).value;
            NextFits(adj, f) &&
            forall r :: r in f.out <==>
              exists k :: 0 <= k < i && Homoedge(ctx, sensors, adj, sensors[k].edge) &&
                          r == Rec([sensors[k].edge], LastObjs(sensors, sensors[k].edge))
  {
    if i > 0 {
      var st := Round1Upto(ctx, sensors, adj, i - 1);
      var e := sensors[i - 1].edge;
      assert st.Ok?;
      Round1Out(ctx, sensors, adj, i - 1);
      var f0 := st.value;
      var f := Round1Upto(ctx, sensors, adj, i).value;
      if e in adj.vals && Passes1(ctx, sensors, e) {
        var rec := Rec([e], LastObjs(sensors, e));
        assert f.out == f0.out + [rec];
        assert EndsWith(rec, e);
        forall r | r in f.out
          ensures exists k :: 0 <= k < i && Homoedge(ctx, sensors, adj, sensors[k].edge) &&
                              r == Rec([sensors[k].edge], LastObjs(sensors, sensors[k].edge))
        {
          if r != rec {
            assert r in f0.out;
          }
        }
        forall k | k in f.next.vals
          ensures exists r :: r in f.out && EndsWith(r, k)
        {
          if k != e {
            assert k in f0.next.vals;
            var r0 :| r0 in f0.out && EndsWith(r0, k);
            assert r0 in f.out;
          }
        }
      } else {
        assert f == f0;
        forall r, k | r in f.out && 0 <= k < i && Homoedge(ctx, sensors, adj, sensors[k].edge) &&
                       r == Rec([sensors[k].edge], LastObjs(sensors, sensors[k].edge))
          ensures k < i - 1
        {
        }
      }
    }
  }

  /**
   * Round 1: an observed edge becomes a homoedge iff it is an adjacency key
   * and its ratio passes; each is recorded as `[[e], objs]`.  The older copy
   * fails on a repeated edge, and a zero total fails once a key is observed.
   */
  lemma Round1Rule(ctx: Ctx, sensors: seq<SensorRow>, adj: Adj)
    requires PyDict.Valid(adj)
    ensures Round1Spec(ctx, sensors, adj).Err? <==>
              (ctx.variant == Older && !NoDup(RowEdges(sensors))) ||
              (ctx.total == 0 && exists k :: 0 <= k < |sensors| && sensors[k].edge in adj.vals)
    ensures Round1Spec(ctx, sensors, adj).Ok? ==>
              var f := Round1Spec(ctx, sensors, adj).value;
              NextFits(adj, f) &&
              forall r :: r in f.out <==>
                exists k :: 0 <= k < |sensors| && Homoedge(ctx, sensors, adj, sensors[k].edge) &&
                            r == Rec([sensors[k].edge], LastObjs(sensors, sensors[k].edge))
  {
    if !(ctx.variant == Older && !NoDup(RowEdges(sensors))) {
      Round1Err(ctx, sensors, adj, |sensors|);
      if Round1Spec(ctx, sensors, adj).Ok? {
        Round1Out(ctx, sensors, adj, |sensors|);
      }
    }
  }

  // ---------------------------------------------------------------- rounds n >= 2

  lemma ColsErrIff(ctx: Ctx, rows: seq<Rec>, single: seq<Rec>, adj: Adj, st: Result<Found>, p: seq<int>, j: nat)
    requires PyDict.Valid(adj) && j <= |adj.keys|
    requires st.Ok? && PyDict.Valid(st.value.next)
    ensures ColsUpto(ctx, rows, single, adj, st, p, j).Err? <==>
              Denominator(ctx) == 0 && exists jj :: 0 <= jj < j && Linked(adj, p, adj.keys[jj])
  {
    if j > 0 {
      ColsErrIff(ctx, rows, single, adj, st, p, j - 1);
      if Denominator(ctx) == 0 && Linked(adj, p, adj.keys[j - 1]) {
        assert ColsUpto(ctx, rows, single, adj, st, p, j).Err?;
      }
    }
  }

  lemma ColsOut(ctx: Ctx, rows: seq<Rec>, single: seq<Rec>, adj: Adj, st: Result<Found>, p: seq<int>, j: nat)
    requires PyDict.Valid(adj) && j <= |adj.keys|
    requires st.Ok? && PyDict.Valid(st.value.next) && NextFits(adj, st.value)
    requires ColsUpto(ctx, rows, single, adj, st, p, j).Ok?
    ensures var f := ColsUpto(ctx, rows, single, adj, st, p, j).value;
            NextFits(adj, f) &&
            forall r :: r in f.out <==>
              r in st.value.out ||
              exists jj :: 0 <= jj < j && Denominator(ctx) != 0 &&
                           Emits(ctx, rows, single, adj, p, adj.keys[jj]) &&
                           r == Rec(p + [adj.keys[jj]], CellObjs(rows, single, p, adj.keys[jj]))
  {
    if j > 0 {
      var prev := ColsUpto(ctx, rows, single, adj, st, p, j - 1);
      assert prev.Ok?;
      ColsOut(ctx, rows, single, adj, st, p, j - 1);
      var f0 := prev.value;
      var f := ColsUpto(ctx, rows, single, adj, st, p, j).value;
      var c := adj.keys[j - 1];
      if Linked(adj, p, c) && Denominator(ctx) != 0 && Emits(ctx, rows, single, adj, p, c) {
        var rec := Rec(p + [c], CellObjs(rows, single, p, c));
        assert f.out == f0.out + [rec];
        assert EndsWith(rec, c);
        forall r | r in f.out && r != rec
          ensures r in f0.out
        {
        }
        forall k | k in f.next.vals
          ensures exists r :: r in f.out && EndsWith(r, k)
        {
          if k != c {
            assert k in f0.next.vals;
            var r0 :| r0 in f0.out && EndsWith(r0, k);
            assert r0 in f.out;
          }
        }
      } else {
        assert f == f0;
      }
    }
  }

  lemma RowsErrIff(ctx: Ctx, rows: seq<Rec>, single: seq<Rec>, adj: Adj, i: nat)
    requires PyDict.Valid(adj) && i <= |rows|
    ensures RowsUpto(ctx, rows, single, adj, i).Err? <==>
              Denominator(ctx) == 0 &&
              exists k, c :: 0 <= k < i && c in adj.vals && Linked(adj, rows[k].path, c)
  {
    if i > 0 {
      RowsErrIff(ctx, rows, single, adj, i - 1);
      var st := RowsUpto(ctx, rows, single, adj, i - 1);
      var p := rows[i - 1].path;
      if st.Err? {
        ColsErr(ctx, rows, single, adj, st, p, |adj.keys|);
      } else {
        ColsErrIff(ctx, rows, single, adj, st, p, |adj.keys|);
        if Denominator(ctx) == 0 {
          if exists c :: c in adj.vals && Linked(adj, p, c) {
            var c :| c in adj.vals && Linked(adj, p, c);
            var jj :| 0 <= jj < |adj.keys| && adj.keys[jj] == c;
            assert Linked(adj, p, adj.keys[jj]);
          }
        }
      }
    }
  }

  lemma RowsOut(ctx: Ctx, rows: seq<Rec>, single: seq<Rec>, adj: Adj, i: nat)
    requires PyDict.Valid(adj) && i <= |rows|
    requires RowsUpto(ctx, rows, single, adj, i).Ok?
    ensures var f := RowsUpto(ctx, rows, single, adj, i).value;
            NextFits(adj, f) &&
            forall r :: r in f.out <==>
              exists k, c :: 0 <= k < i && c in adj.vals && Denominator(ctx) != 0 &&
                             Emits(ctx, rows, single, adj, rows[k].path, c) &&
                             r == Rec(rows[k].path + [c], CellObjs(rows, single, rows[k].path, c))
  {
    if i > 0 {
      var st := RowsUpto(ctx, rows, single, adj, i - 1);
      if st.Err? {
        ColsErr(ctx, rows, single, adj, st, rows[i - 1].path, |adj.keys|);
      }
      assert st.Ok?;
      RowsOut(ctx, rows, single, adj, i - 1);
      var p := rows[i - 1].path;
      ColsOut(ctx, rows, single, adj, st, p, |adj.keys|);
      var f := RowsUpto(ctx, rows, single, adj, i).value;
      forall r | r in f.out
        ensures exists k, c :: 0 <= k < i && c in adj.vals && Denominator(ctx) != 0 &&
                               Emits(ctx, rows, single, adj, rows[k].path, c) &&
                               r == Rec(rows[k].path + [c], CellObjs(rows, single, rows[k].path, c))
      {
        if r !in st.value.out {
          var jj :| 0 <= jj < |adj.keys| && Denominator(ctx) != 0 &&
                    Emits(ctx, rows, single, adj, p, adj.keys[jj]) &&
                    r == Rec(p + [adj.keys[jj]], CellObjs(rows, single, p, adj.keys[jj]));
          assert adj.keys[jj] in adj.vals;
        }
      }
      forall r, k, c | 0 <= k < i && c in adj.vals && Denominator(ctx) != 0 &&
                       Emits(ctx, rows, single, adj, rows[k].path, c) &&
                       r == Rec(rows[k].path + [c], CellObjs(rows, single, rows[k].path, c))
        ensures r in f.out
      {
        if k == i - 1 {
          var jj :| 0 <= jj < |adj.keys| && adj.keys[jj] == c;
        }
      }
    }
  }

  /**
   * Round n >= 2: a record is emitted exactly for a row path `p` and a column
   * `c` that is a successor of `p`'s last edge, whose ratio passes and which
   * the cycle guard accepts; it is `p + [c]` with `p`'s objects that occur
   * among `c`'s.  The next round's columns are the last edges of the new
   * records.  Failures: the older copy on repeated row paths, and a zero
   * denominator as soon as one cell is linked.
   */
  lemma RoundNRule(ctx: Ctx, rows: seq<Rec>, single: seq<Rec>, adj: Adj)
    requires PyDict.Valid(adj)
    ensures RoundNSpec(ctx, rows, single, adj).Err? <==>
              (ctx.variant == Older && !NoDup(Paths(rows))) ||
              (Denominator(ctx) == 0 &&
               exists k, c :: 0 <= k < |rows| && c in adj.vals && Linked(adj, rows[k].path, c))
    ensures RoundNSpec(ctx, rows, single, adj).Ok? ==>
              var f := RoundNSpec(ctx, rows, single, adj).value;
              NextFits(adj, f) &&
              forall r :: r in f.out <==>
                exists k, c :: 0 <= k < |rows| && c in adj.vals && Denominator(ctx) != 0 &&
                               Emits(ctx, rows, single, adj, rows[k].path, c) &&
                               r == Rec(rows[k].path + [c], CellObjs(rows, single, rows[k].path, c))
  {
    if !(ctx.variant == Older && !NoDup(Paths(rows))) {
      RowsErrIff(ctx, rows, single, adj, |rows|);
      if RoundNSpec(ctx, rows, single, adj).Ok? {
        RowsOut(ctx, rows, single, adj, |rows|);
      }
    }
  }
}

/**
 * Per-region homopath discovery, `calculate_obj_id_intersection` in
 * Code/homopa.py and in its older copy Code/HoMoPaD/homopa.py.
 *
 * Round 1 turns sensor rows into homoedges; round n >= 2 extends every
 * length-(n-1) path of the previous round by one successor edge.  Results
 * go into a table keyed by path length (bucket 0 repeats the homoedges).
 * The Boolean matrix of the source is not modelled: only its header row
 * (the adjacency keys) and header column (the row paths) are ever read.
 */
module Engine {
  import opened Wrappers
  import opened Seqs
  import PyDict

  datatype Mode = Raw | Hashed

  /** Current = Code/homopa.py, Older = Code/HoMoPaD/homopa.py. */
  datatype Variant = Current | Older

  /**
   * One parsed sensor line.  Raw mode: `[[edge], objs]` (rawCount unused);
   * hashed mode: `[[edge], rawCount, signature]` with the signature in objs.
   */
  datatype SensorRow = SensorRow(edge: int, rawCount: int, objs: seq<int>)

  /** A `[path, objs]` record of a bucket. */
  datatype Rec = Rec(path: seq<int>, objs: seq<int>)

  /** The parameters every round shares. */
  datatype Ctx = Ctx(variant: Variant, mode: Mode, perms: int, total: int, thr: real)

  /** Output of one round: new records and the restricted adjacency for the next round. */
  datatype Found = Found(out: seq<Rec>, next: Adj)

  type Adj = PyDict.Dict<seq<int>>
  type Table = map<int, seq<Rec>>

  /** The recursion limit; the `limit` argument is overwritten with this value. */
  const Limit: int := 100

  /** Python true division of two ints, compared against the threshold exactly. */
  function Ratio(a: int, b: int): real
    requires b != 0
  {
    (a as real) / (b as real)
  }

  function Denominator(ctx: Ctx): int {
    if ctx.mode == Hashed then ctx.perms else ctx.total
  }

  // ---------------------------------------------------------------- lookups

  /** `obj_ids_on_edge[(e,)]`: objects of the last sensor row of `e` (later rows overwrite). */
  function LastObjs(rows: seq<SensorRow>, e: int): seq<int> {
    if |rows| == 0 then []
    else if rows[|rows| - 1].edge == e then rows[|rows| - 1].objs
    else LastObjs(rows[..|rows| - 1], e)
  }

  /** Raw object count of the first sensor row of `e` (hashed round-1 numerator). */
  function FirstRawCount(rows: seq<SensorRow>, e: int): int {
    if |rows| == 0 then 0
    else if rows[0].edge == e then rows[0].rawCount
    else FirstRawCount(rows[1..], e)
  }

  /** Objects of the first record whose path equals `p`. */
  function FirstObjs(rows: seq<Rec>, p: seq<int>): seq<int> {
    if |rows| == 0 then []
    else if rows[0].path == p then rows[0].objs
    else FirstObjs(rows[1..], p)
  }

  /** Objects of the first record whose path starts with edge `c`. */
  function FirstEdgeObjs(recs: seq<Rec>, c: int): seq<int> {
    if |recs| == 0 then []
    else if |recs[0].path| > 0 && recs[0].path[0] == c then recs[0].objs
    else FirstEdgeObjs(recs[1..], c)
  }

  predicate HasEdge(recs: seq<Rec>, c: int) {
    exists r :: r in recs && |r.path| > 0 && r.path[0] == c
  }

  function RowEdges(rows: seq<SensorRow>): seq<int> {
    seq(|rows|, i requires 0 <= i < |rows| => rows[i].edge)
  }

  function Paths(recs: seq<Rec>): seq<seq<int>> {
    seq(|recs|, i requires 0 <= i < |recs| => recs[i].path)
  }

  // ---------------------------------------------------------------- round 1

  /** Numerator of the round-1 ratio: distinct objects (raw) or the stored raw count (hashed). */
  function Numerator1(mode: Mode, sensors: seq<SensorRow>, e: int): int {
    if mode == Raw then |Elems(LastObjs(sensors, e))| else FirstRawCount(sensors, e)
  }

  /** Whether an observed edge that is an adjacency key passes the round-1 threshold. */
  predicate Passes1(ctx: Ctx, sensors: seq<SensorRow>, e: int)
    requires ctx.total != 0
  {
    Ratio(Numerator1(ctx.mode, sensors, e), ctx.total) >= ctx.thr
  }

  /** The round-1 cell of a sensor row: its edge matches at most one column. */
  function Step1(ctx: Ctx, sensors: seq<SensorRow>, adj: Adj, st: Result<Found>, e: int): (r: Result<Found>)
    requires PyDict.Valid(adj)
    requires st.Ok? ==> PyDict.Valid(st.value.next)
    ensures r.Ok? ==> PyDict.Valid(r.value.next)
  {
    if st.Err? || e !in adj.vals then st
    else if ctx.total == 0 then Err(ZeroDivisionError)
    else if Passes1(ctx, sensors, e) then
      Ok(Found(st.value.out + [Rec([e], LastObjs(sensors, e))],
               PyDict.Put(st.value.next, e, adj.vals[e])))
    else st
  }

  /** Round 1 over the first `i` sensor rows. */
  function Round1Upto(ctx: Ctx, sensors: seq<SensorRow>, adj: Adj, i: nat): (r: Result<Found>)
    requires PyDict.Valid(adj)
    requires i <= |sensors|
    ensures r.Ok? ==> PyDict.Valid(r.value.next)
  {
    if i == 0 then Ok(Found([], PyDict.Empty()))
    else Step1(ctx, sensors, adj, Round1Upto(ctx, sensors, adj, i - 1), sensors[i - 1].edge)
  }

  /** Round 1; the older copy sizes its matrix by distinct row paths and overruns it on a repeated edge. */
  function Round1Spec(ctx: Ctx, sensors: seq<SensorRow>, adj: Adj): (r: Result<Found>)
    requires PyDict.Valid(adj)
    ensures r.Ok? ==> PyDict.Valid(r.value.next)
  {
    if ctx.variant == Older && !NoDup(RowEdges(sensors)) then Err(IndexError)
    else Round1Upto(ctx, sensors, adj, |sensors|)
  }

  /** An error stops round 1: every longer prefix fails the same way. */
  lemma Round1Sticky(ctx: Ctx, sensors: seq<SensorRow>, adj: Adj, i: nat, k: nat)
    requires PyDict.Valid(adj)
    requires i <= k <= |sensors|
    requires Round1Upto(ctx, sensors, adj, i).Err?
    ensures Round1Upto(ctx, sensors, adj, k) == Round1Upto(ctx, sensors, adj, i)
    decreases k - i
  {
    if i < k {
      Round1Sticky(ctx, sensors, adj, i + 1, k);
    }
  }

  method Round1(ctx: Ctx, sensors: seq<SensorRow>, adj: Adj) returns (r: Result<Found>)
    requires PyDict.Valid(adj)
    ensures r == Round1Spec(ctx, sensors, adj)
  {
    if ctx.variant == Older && !NoDup(RowEdges(sensors)) {
      return Err(IndexError);
    }
    var out: seq<Rec> := [];
    var next: Adj := PyDict.Empty();
    var i := 0;
    while i < |sensors|
      invariant 0 <= i <= |sensors|
      invariant PyDict.Valid(next)
      invariant Round1Upto(ctx, sensors, adj, i) == Ok(Found(out, next))
    {
      var e := sensors[i].edge;
      var j := 0;
      while j < |adj.keys|
        invariant 0 <= j <= |adj.keys|
        invariant (exists jj :: 0 <= jj < j && adj.keys[jj] == e) ==>
                    ctx.total != 0 && !Passes1(ctx, sensors, e)
      {
        if adj.keys[j] == e {
          if ctx.total == 0 {
            Round1Sticky(ctx, sensors, adj, i + 1, |sensors|);
            return Err(ZeroDivisionError);
          }
          if Ratio(Numerator1(ctx.mode, sensors, e), ctx.total) >= ctx.thr {
            out := out + [Rec([e], LastObjs(sensors, e))];
            next := PyDict.Put(next, e, adj.vals[e]);
            break;
          }
        }
        j := j + 1;
      }
      i := i + 1;
    }
    r := Ok(Found(out, next));
  }

  // ---------------------------------------------------------------- rounds n >= 2

  /** The column `c` is a successor of the last edge of the row path `p`. */
  predicate Linked(adj: Adj, p: seq<int>, c: int) {
    |p| > 0 && p[|p| - 1] in adj.vals && c in adj.vals[p[|p| - 1]]
  }

  /**
   * The cycle guard.  Code/homopa.py skips `c` when it occurs in `p`, unless
   * `c` is the last edge of `p`; Code/HoMoPaD/homopa.py builds the path only
   * when `c` differs from the last edge and then skips it when it occurs in `p`.
   */
  predicate Appends(variant: Variant, p: seq<int>, c: int)
    requires |p| > 0
  {
    match variant
    case Current => c == p[|p| - 1] || c !in p
    case Older => c != p[|p| - 1] && c !in p
  }

  /** The objects stored with `p + [c]`: `p`'s objects that occur among `c`'s. */
  function CellObjs(rows: seq<Rec>, single: seq<Rec>, p: seq<int>, c: int): seq<int> {
    Keep(FirstObjs(rows, p), FirstEdgeObjs(single, c))
  }

  /** A linked cell whose ratio passes and whose edge the cycle guard accepts. */
  predicate Emits(ctx: Ctx, rows: seq<Rec>, single: seq<Rec>, adj: Adj, p: seq<int>, c: int)
    requires Denominator(ctx) != 0
  {
    Linked(adj, p, c) &&
    Ratio(|CellObjs(rows, single, p, c)|, Denominator(ctx)) >= ctx.thr &&
    Appends(ctx.variant, p, c)
  }

  /** One cell (row path `p`, column `c`) of round n >= 2. */
  function Cell(ctx: Ctx, rows: seq<Rec>, single: seq<Rec>, adj: Adj, st: Result<Found>,
                p: seq<int>, c: int): (r: Result<Found>)
    requires PyDict.Valid(adj) && c in adj.vals
    requires st.Ok? ==> PyDict.Valid(st.value.next)
    ensures r.Ok? ==> PyDict.Valid(r.value.next)
  {
    if st.Err? || !Linked(adj, p, c) then st
    else if Denominator(ctx) == 0 then Err(ZeroDivisionError)
    else if Emits(ctx, rows, single, adj, p, c) then
      Ok(Found(st.value.out + [Rec(p + [c], CellObjs(rows, single, p, c))],
               PyDict.Put(st.value.next, c, adj.vals[c])))
    else st
  }

  /** The cells of row path `p` against the first `j` columns. */
  function ColsUpto(ctx: Ctx, rows: seq<Rec>, single: seq<Rec>, adj: Adj, st: Result<Found>,
                    p: seq<int>, j: nat): (r: Result<Found>)
    requires PyDict.Valid(adj) && j <= |adj.keys|
    requires st.Ok? ==> PyDict.Valid(st.value.next)
    ensures r.Ok? ==> PyDict.Valid(r.value.next)
  {
    if j == 0 then st
    else Cell(ctx, rows, single, adj, ColsUpto(ctx, rows, single, adj, st, p, j - 1), p, adj.keys[j - 1])
  }

  /** Round n >= 2 over the first `i` rows. */
  function RowsUpto(ctx: Ctx, rows: seq<Rec>, single: seq<Rec>, adj: Adj, i: nat): (r: Result<Found>)
    requires PyDict.Valid(adj) && i <= |rows|
    ensures r.Ok? ==> PyDict.Valid(r.value.next)
  {
    if i == 0 then Ok(Found([], PyDict.Empty()))
    else ColsUpto(ctx, rows, single, adj, RowsUpto(ctx, rows, single, adj, i - 1), rows[i - 1].path, |adj.keys|)
  }

  function RoundNSpec(ctx: Ctx, rows: seq<Rec>, single: seq<Rec>, adj: Adj): (r: Result<Found>)
    requires PyDict.Valid(adj)
    ensures r.Ok? ==> PyDict.Valid(r.value.next)
  {
    if ctx.variant == Older && !NoDup(Paths(rows)) then Err(IndexError)
    else RowsUpto(ctx, rows, single, adj, |rows|)
  }

  lemma ColsErr(ctx: Ctx, rows: seq<Rec>, single: seq<Rec>, adj: Adj, st: Result<Found>, p: seq<int>, j: nat)
    requires PyDict.Valid(adj) && j <= |adj.keys| && st.Err?
    ensures ColsUpto(ctx, rows, single, adj, st, p, j) == st
  {
    if j > 0 {
      ColsErr(ctx, rows, single, adj, st, p, j - 1);
    }
  }

  lemma ColsSticky(ctx: Ctx, rows: seq<Rec>, single: seq<Rec>, adj: Adj, st: Result<Found>,
                   p: seq<int>, j: nat, k: nat)
    requires PyDict.Valid(adj) && j <= k <= |adj.keys|
    requires st.Ok? ==> PyDict.Valid(st.value.next)
    requires ColsUpto(ctx, rows, single, adj, st, p, j).Err?
    ensures ColsUpto(ctx, rows, single, adj, st, p, k) == ColsUpto(ctx, rows, single, adj, st, p, j)
    decreases k - j
  {
    if j < k {
      ColsSticky(ctx, rows, single, adj, st, p, j + 1, k);
    }
  }

  lemma RowsSticky(ctx: Ctx, rows: seq<Rec>, single: seq<Rec>, adj: Adj, i: nat, k: nat)
    requires PyDict.Valid(adj) && i <= k <= |rows|
    requires RowsUpto(ctx, rows, single, adj, i).Err?
    ensures RowsUpto(ctx, rows, single, adj, k) == RowsUpto(ctx, rows, single, adj, i)
    decreases k - i
  {
    if i < k {
      ColsErr(ctx, rows, single, adj, RowsUpto(ctx, rows, single, adj, i), rows[i].path, |adj.keys|);
      RowsSticky(ctx, rows, single, adj, i + 1, k);
    }
  }

  /** One round n >= 2: every row path against every column, in row-major order. */
  method RoundN(ctx: Ctx, rows: seq<Rec>, single: seq<Rec>, adj: Adj) returns (r: Result<Found>)
    requires PyDict.Valid(adj)
    ensures r == RoundNSpec(ctx, rows, single, adj)
  {
    if ctx.variant == Older && !NoDup(Paths(rows)) {
      return Err(IndexError);
    }
    var out: seq<Rec> := [];
    var next: Adj := PyDict.Empty();
    var i := 0;
    while i < |rows|
      invariant 0 <= i <= |rows|
      invariant PyDict.Valid(next)
      invariant RowsUpto(ctx, rows, single, adj, i) == Ok(Found(out, next))
    {
      var p := rows[i].path;
      ghost var st := RowsUpto(ctx, rows, single, adj, i);
      var j := 0;
      while j < |adj.keys|
        invariant 0 <= j <= |adj.keys|
        invariant PyDict.Valid(next)
        invariant ColsUpto(ctx, rows, single, adj, st, p, j) == Ok(Found(out, next))
      {
        var c := adj.keys[j];
        if Linked(adj, p, c) {
          if Denominator(ctx) == 0 {
            ColsSticky(ctx, rows, single, adj, st, p, j + 1, |adj.keys|);
            RowsSticky(ctx, rows, single, adj, i + 1, |rows|);
            return Err(ZeroDivisionError);
          }
          var objs := CellObjs(rows, single, p, c);
          if Ratio(|objs|, Denominator(ctx)) >= ctx.thr && Appends(ctx.variant, p, c) {
            out := out + [Rec(p + [c], objs)];
            next := PyDict.Put(next, c, adj.vals[c]);
          }
        }
        j := j + 1;
      }
      i := i + 1;
    }
    r := Ok(Found(out, next));
  }

  // ---------------------------------------------------------------- pruning

  /** `bucket.remove(x)`: drops the first element equal to `x`. */
  function RemoveFirst(b: seq<Rec>, x: Rec): (r: seq<Rec>)
    ensures forall y :: y in r ==> y in b
    ensures |r| == if x in b then |b| - 1 else |b|
  {
    if |b| == 0 then []
    else if b[0] == x then b[1..]
    else [b[0]] + RemoveFirst(b[1..], x)
  }

  /**
   * `for r in b: if r.path == w: b.remove(r)` from position `idx` on, with
   * Python's index-based list iterator: after a removal the element that
   * moves into the current position is skipped.
   */
  function IterRemove(b: seq<Rec>, idx: nat, w: seq<int>): seq<Rec>
    decreases |b| + 1 - idx
  {
    if idx >= |b| then b
    else if b[idx].path == w then IterRemove(RemoveFirst(b, b[idx]), idx + 1, w)
    else IterRemove(b, idx + 1, w)
  }

  /** The slices `p[i:i + w]` for `i in range(len(p) - w + 1)`. */
  function Windows(p: seq<int>, w: nat): seq<seq<int>> {
    var count := if |p| >= w then |p| - w + 1 else 0;
    seq(count, i requires 0 <= i < count => p[i..i + w])
  }

  /** Removal of every window in `ws`, in order. */
  function ApplyWindows(b: seq<Rec>, ws: seq<seq<int>>): seq<Rec> {
    if |ws| == 0 then b
    else IterRemove(ApplyWindows(b, ws[..|ws| - 1]), 0, ws[|ws| - 1])
  }

  /** The outer `for i in range(len(p) - (n - 1))` repeats the window removals. */
  function Repeat(b: seq<Rec>, p: seq<int>, n: int, t: nat): seq<Rec>
    requires n >= 2
  {
    if t == 0 then b
    else ApplyWindows(Repeat(b, p, n, t - 1), Windows(p, n - 1))
  }

  function Reps(p: seq<int>, n: int): nat {
    if |p| - (n - 1) > 0 then |p| - (n - 1) else 0
  }

  /** Bucket n - 1 after pruning with the paths of bucket n, taken in order. */
  function PruneSpec(lower: seq<Rec>, upper: seq<Rec>, n: int): seq<Rec>
    requires n >= 2
  {
    if |upper| == 0 then lower
    else
      var p := upper[|upper| - 1].path;
      Repeat(PruneSpec(lower, upper[..|upper| - 1], n), p, n, Reps(p, n))
  }

  method RemoveMatching(b: seq<Rec>, w: seq<int>) returns (r: seq<Rec>)
    ensures r == IterRemove(b, 0, w)
  {
    r := b;
    var idx := 0;
    while idx < |r|
      invariant idx <= |r| + 1
      invariant IterRemove(r, idx, w) == IterRemove(b, 0, w)
      decreases |r| + 1 - idx
    {
      if r[idx].path == w {
        r := RemoveFirst(r, r[idx]);
      }
      idx := idx + 1;
    }
  }

  /** The pruning loop after round n: bucket n - 1 loses the windows of bucket n's paths. */
  method Prune(lower: seq<Rec>, upper: seq<Rec>, n: int) returns (r: seq<Rec>)
    requires n >= 2
    ensures r == PruneSpec(lower, upper, n)
  {
    r := lower;
    var u := 0;
    while u < |upper|
      invariant 0 <= u <= |upper|
      invariant r == PruneSpec(lower, upper[..u], n)
    {
      var p := upper[u].path;
      ghost var start := r;
      var ws := Windows(p, n - 1);
      var t := 0;
      while t < |p| - (n - 1)
        invariant 0 <= t <= Reps(p, n)
        invariant r == Repeat(start, p, n, t)
      {
        ghost var before := r;
        var k := 0;
        while k < |ws|
          invariant 0 <= k <= |ws|
          invariant r == ApplyWindows(before, ws[..k])
        {
          r := RemoveMatching(r, ws[k]);
          assert ws[..k + 1][..k] == ws[..k];
          k := k + 1;
        }
        assert ws[..|ws|] == ws;
        t := t + 1;
      }
      assert upper[..u + 1][..u] == upper[..u];
      u := u + 1;
    }
    assert upper[..|upper|] == upper;
  }

  // ---------------------------------------------------------------- recursion

  /** `setdefault(n, []).extend(out)`: a bucket appears only when something is appended. */
  function AddBucket(d: Table, n: int, out: seq<Rec>): Table {
    if |out| > 0 then d[n := (if n in d then d[n] else []) + out] else d
  }

  /** The pruning step after round n >= 2; a missing bucket n - 1 would be a KeyError. */
  function PruneTable(d: Table, n: int): Result<Table>
    requires n >= 2
  {
    if n !in d then Ok(d)
    else if n - 1 !in d then Err(KeyError)
    else Ok(d[n - 1 := PruneSpec(d[n - 1], d[n], n)])
  }

  /**
   * The recursive calls after round `n`, whose records are `rows` and whose
   * restricted adjacency is `adj`: the next round runs only while the last
   * round produced a record and n < 100.
   */
  function RoundsFrom(ctx: Ctx, single: seq<Rec>, rows: seq<Rec>, adj: Adj, d: Table, n: int): Result<Table>
    requires PyDict.Valid(adj)
    requires 1 <= n <= Limit
    decreases Limit - n
  {
    if |rows| == 0 || n >= Limit then Ok(d)
    else
      match RoundNSpec(ctx, rows, single, adj)
      case Err(e) => Err(e)
      case Ok(f) =>
        match PruneTable(AddBucket(d, n + 1, f.out), n + 1)
        case Err(e) => Err(e)
        case Ok(d1) => RoundsFrom(ctx, single, f.out, f.next, d1, n + 1)
  }

  /** Round 1 fills buckets 0 and 1 with the homoedges, then the rounds recurse. */
  function RunSpec(ctx: Ctx, conn: Adj, sensors: seq<SensorRow>): Result<Table>
    requires PyDict.Valid(conn)
  {
    match Round1Spec(ctx, sensors, conn)
    case Err(e) => Err(e)
    case Ok(f) => RoundsFrom(ctx, f.out, f.out, f.next, AddBucket(AddBucket(map[], 0, f.out), 1, f.out), 1)
  }

  /** `calculate_obj_id_intersection` called with n = 1 and no dictionary. */
  method Run(ctx: Ctx, conn: Adj, sensors: seq<SensorRow>) returns (res: Result<Table>)
    requires PyDict.Valid(conn)
    ensures res == RunSpec(ctx, conn, sensors)
  {
    var r1 := Round1(ctx, sensors, conn);
    if r1.Err? {
      return Err(r1.error);
    }
    var single := r1.value.out;
    var d: Table := map[];
    if |single| > 0 {
      d := map[0 := single, 1 := single];
    }
    assert [] + single == single;
    assert d == AddBucket(AddBucket(map[], 0, single), 1, single);
    var rows := single;
    var adj := r1.value.next;
    var n := 1;
    while |rows| > 0 && n < Limit
      invariant 1 <= n <= Limit
      invariant PyDict.Valid(adj)
      invariant RoundsFrom(ctx, single, rows, adj, d, n) == RunSpec(ctx, conn, sensors)
      decreases Limit - n
    {
      var rn := RoundN(ctx, rows, single, adj);
      if rn.Err? {
        return Err(rn.error);
      }
      var out := rn.value.out;
      n := n + 1;
      if |out| > 0 {
        d := d[n := (if n in d then d[n] else []) + out];
      }
      if n in d {
        if n - 1 !in d {
          return Err(KeyError);
        }
        var pruned := Prune(d[n - 1], d[n], n);
        d := d[n - 1 := pruned];
      }
      rows := out;
      adj := rn.value.next;
    }
    res := Ok(d);
  }
}

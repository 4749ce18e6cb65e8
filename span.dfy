/**
 * The coordinator's spanning step (`start_Top_leader`, Code/homopa.py and
 * the older copy Code/HoMoPaD/homopa.py): a path `p1` of region A whose last
 * edge is linked to the first edge of a path `p2` of region B is extended
 * edge by edge with `p2` while the carried object intersection keeps its
 * ratio at or above the threshold.
 *
 * The nested loops of the source (regions A, lengths of A, regions B, lengths
 * of B, paths p1, paths p2) are flattened into one list of pair jobs in the
 * same order; see Coordinator.Items.  The objects the coordinator asks for are
 * the answers of the regions' workers (Worker.Lookup).
 */
module Span {
  import opened Wrappers
  import opened Seqs
  import opened Engine
  import Worker

  /** A value of `all_HOMOPATHS[X][Y][path]`: a marker (-1, 0) or a list. */
  datatype Val = Mark(n: int) | List(xs: seq<int>)

  type Hom = map<int, map<int, map<seq<int>, Val>>>

  /** `all_connections[A][B][tail]`: the first edges of B linked to edge `tail` of A. */
  type Conns = map<int, map<int, map<int, seq<int>>>>

  datatype SpanCtx = SpanCtx(variant: Variant, thr: real, conn: Conns)

  /** One (p1, p2) pair: regions, the ratio denominator, the paths and the two regions' tables. */
  datatype Job = Job(a: int, b: int, nobj: int, p1: seq<int>, p2: seq<int>, ta: Table, tb: Table)

  /** What the spanning step has produced so far: the nested dictionary and `list_of_span_homopaths`. */
  datatype SpanState = SpanState(hom: Hom, spans: seq<seq<int>>)

  predicate Has3(h: Hom, a: int, b: int, k: seq<int>) {
    a in h && b in h[a] && k in h[a][b]
  }

  /** `h[a][b][k] = v`. */
  function Put3(h: Hom, a: int, b: int, k: seq<int>, v: Val): Hom {
    var ha := if a in h then h[a] else map[];
    var hab := if b in ha then ha[b] else map[];
    h[a := ha[b := hab[k := v]]]
  }

  /** `Put3` sets one entry and keeps every other one (and every level that existed). */
  lemma Put3Facts(h: Hom, a: int, b: int, k: seq<int>, v: Val)
    ensures Has3(Put3(h, a, b, k, v), a, b, k) && Put3(h, a, b, k, v)[a][b][k] == v
    ensures forall x, y, q :: Has3(h, x, y, q) && (x, y, q) != (a, b, k) ==>
      Has3(Put3(h, a, b, k, v), x, y, q) && Put3(h, a, b, k, v)[x][y][q] == h[x][y][q]
    ensures forall x, y, q :: Has3(Put3(h, a, b, k, v), x, y, q) ==> Has3(h, x, y, q) || (x, y, q) == (a, b, k)
    ensures forall x, y :: x in h && y in h[x] ==> x in Put3(h, a, b, k, v) && y in Put3(h, a, b, k, v)[x]
  {
  }

  /** `if b not in h[a]: h[a][b] = {}`, creating `h[a]` first when it is missing. */
  function Touch(h: Hom, a: int, b: int): Hom {
    if a in h && b in h[a] then h
    else h[a := (if a in h then h[a] else map[])[b := map[]]]
  }

  /** `Touch` creates the two levels and changes no entry. */
  lemma TouchFacts(h: Hom, a: int, b: int)
    ensures a in Touch(h, a, b) && b in Touch(h, a, b)[a]
    ensures forall x, y, q :: Has3(Touch(h, a, b), x, y, q) <==> Has3(h, x, y, q)
    ensures forall x, y, q :: Has3(h, x, y, q) ==> Touch(h, a, b)[x][y][q] == h[x][y][q]
    ensures forall x, y :: x in h && y in h[x] ==> x in Touch(h, a, b) && y in Touch(h, a, b)[x]
  {
  }

  datatype Link = Extend | StoreP1 | Nothing

  /**
   * The link test.  `p1[-1]` and `p2[0]` are evaluated only once the
   * conditions before them hold.  Current: any failing condition stores `p1`
   * under (A, A).  Older: when the tail of `p1` is a key but the head of `p2`
   * is not linked to it, nothing happens.
   */
  function LinkOf(variant: Variant, conn: Conns, a: int, b: int, p1: seq<int>, p2: seq<int>): Result<Link> {
    if !(a in conn && b in conn[a]) then Ok(StoreP1)
    else if |p1| == 0 then Err(IndexError)
    else if !(p1[|p1| - 1] in conn[a][b]) then Ok(StoreP1)
    else if |p2| == 0 then Err(IndexError)
    else if p2[0] in conn[a][b][p1[|p1| - 1]] then Ok(Extend)
    else if variant == Current then Ok(StoreP1)
    else Ok(Nothing)
  }

  /** The variables of the extension loop. */
  datatype Ext = Ext(inter: seq<int>, edges: seq<int>, forSure: seq<int>, count: int,
                     hom: Hom, spans: seq<seq<int>>, done: bool)

  /**
   * The carried intersection: the objects of `base` (the objects of `p1` on
   * the first edge, the carried list afterwards) that `e` also holds; when
   * there are none, the carried list keeps its previous value.
   */
  function Carry(count: int, obj1: seq<int>, inter: seq<int>, obj2: seq<int>): seq<int> {
    var m := Keep(if count < 1 then obj1 else inter, obj2);
    if |m| > 0 then m else inter
  }

  /** Compare the ratio for edge `e` (objects `obj2`), then record, continue or stop. */
  function Advance(thr: real, job: Job, obj1: seq<int>, s: Ext, e: int, obj2: seq<int>): Result<Ext>
    requires |job.p2| > 0
  {
    var inter := Carry(s.count, obj1, s.inter, obj2);
    if job.nobj == 0 then Err(ZeroDivisionError)
    else if Ratio(|inter|, job.nobj) >= thr then
      var hom := Put3(s.hom, job.b, job.b, job.p2, Mark(-1));
      var edges := s.edges + [e];
      if e == job.p2[|job.p2| - 1] then
        var key := job.p1 + edges;
        Ok(Ext(inter, edges, inter, s.count, Put3(hom, job.a, job.b, key, List(inter)), s.spans + [key], true))
      else Ok(Ext(inter, edges, inter, 1, hom, s.spans, false))
    else if |s.forSure| > 0 then
      var key := job.p1 + s.edges;
      Ok(Ext(inter, s.edges, s.forSure, s.count, Put3(s.hom, job.a, job.b, key, List(s.forSure)),
             s.spans + [key], true))
    else Ok(Ext(inter, s.edges, s.forSure, s.count, s.hom, s.spans, true))
  }

  /** One edge `e` of `p2`: fetch its objects from B; a missing answer (`None`) cannot be iterated. */
  function ExtStep(thr: real, job: Job, obj1: seq<int>, st: Result<Ext>, e: int): Result<Ext>
    requires |job.p2| > 0
  {
    if st.Err? || st.value.done then st
    else match Worker.Lookup(2, [e], job.tb)
      case None => Err(TypeError)
      case Some(obj2) => Advance(thr, job, obj1, st.value, e, obj2)
  }

  function ExtUpto(thr: real, job: Job, obj1: seq<int>, init: Ext, i: nat): Result<Ext>
    requires |job.p2| > 0 && i <= |job.p2|
  {
    if i == 0 then Ok(init) else ExtStep(thr, job, obj1, ExtUpto(thr, job, obj1, init, i - 1), job.p2[i - 1])
  }

  /** The edges of `p2` that were not appended, in order (`if edge_2 not in edges_to_append`). */
  function Leftover(p2: seq<int>, edges: seq<int>): (r: seq<int>)
    ensures forall x :: x in r <==> x in p2 && x !in edges
    ensures |r| <= |p2|
  {
    if |p2| == 0 then []
    else (if p2[0] in edges then [] else [p2[0]]) + Leftover(p2[1..], edges)
  }

  function Start(st: SpanState): Ext {
    Ext([], [], [], 0, st.hom, st.spans, false)
  }

  /** After the loop: store the edges of `p2` that were not appended under (B, B) with 0. */
  function Finish(job: Job, x: Ext): SpanState {
    var left := Leftover(job.p2, x.edges);
    if |x.edges| > 0 && |left| > 0 then SpanState(Put3(x.hom, job.b, job.b, left, Mark(0)), x.spans)
    else SpanState(x.hom, x.spans)
  }

  /** The whole linked branch for one pair; the objects of `p1` come from A first. */
  function ExtendSpec(thr: real, job: Job, st: SpanState): Result<SpanState>
    requires |job.p2| > 0
  {
    match Worker.Lookup(1, job.p1, job.ta)
    case None => Err(TypeError)
    case Some(obj1) =>
      match ExtUpto(thr, job, obj1, Start(st), |job.p2|)
      case Err(e) => Err(e)
      case Ok(x) => Ok(Finish(job, x))
  }

  /** The unlinked branch: `p1` is kept under (A, A) with its own edges, unless already there. */
  function StoreSpec(job: Job, st: SpanState): SpanState {
    if Has3(st.hom, job.a, job.a, job.p1) then st
    else SpanState(Put3(st.hom, job.a, job.a, job.p1, List(job.p1)), st.spans)
  }

  function JobStep(c: SpanCtx, st: Result<SpanState>, job: Job): Result<SpanState> {
    if st.Err? then st
    else match LinkOf(c.variant, c.conn, job.a, job.b, job.p1, job.p2)
      case Err(e) => Err(e)
      case Ok(Extend) => ExtendSpec(c.thr, job, st.value)
      case Ok(StoreP1) => Ok(StoreSpec(job, st.value))
      case Ok(Nothing) => st
  }

  /**
   * One step of the flattened loops: either the "create the level if it is
   * missing" statements at the head of the region loops, or one (p1, p2) pair.
   */
  datatype Item = Level(x: int, y: int) | Pair(job: Job)

  function ItemStep(c: SpanCtx, st: Result<SpanState>, it: Item): Result<SpanState> {
    if st.Err? then st
    else match it
      case Level(x, y) => Ok(SpanState(Touch(st.value.hom, x, y), st.value.spans))
      case Pair(job) => JobStep(c, st, job)
  }

  function JobsUpto(c: SpanCtx, items: seq<Item>, init: SpanState, i: nat): Result<SpanState>
    requires i <= |items|
  {
    if i == 0 then Ok(init) else ItemStep(c, JobsUpto(c, items, init, i - 1), items[i - 1])
  }

  function SpanSpec(c: SpanCtx, items: seq<Item>, init: SpanState): Result<SpanState> {
    JobsUpto(c, items, init, |items|)
  }

  lemma {:induction false} ExtSticky(thr: real, job: Job, obj1: seq<int>, init: Ext, i: nat, k: nat)
    requires |job.p2| > 0 && i <= k <= |job.p2|
    requires ExtUpto(thr, job, obj1, init, i).Err? || ExtUpto(thr, job, obj1, init, i).value.done
    ensures ExtUpto(thr, job, obj1, init, k) == ExtUpto(thr, job, obj1, init, i)
    decreases k
  {
    if k > i {
      ExtSticky(thr, job, obj1, init, i, k - 1);
    }
  }

  /** The edge loop goes on while no step failed and `done` is not set. */
  predicate Going(x: Result<Ext>) {
    x.Ok? && !x.value.done
  }

  /** The edge loop ends at the last edge, at the first failure, or once `done` is set. */
  lemma ExtDone(thr: real, job: Job, obj1: seq<int>, init: Ext, i: nat)
    requires |job.p2| > 0 && i <= |job.p2|
    requires i < |job.p2| ==> !Going(ExtUpto(thr, job, obj1, init, i))
    ensures ExtUpto(thr, job, obj1, init, |job.p2|) == ExtUpto(thr, job, obj1, init, i)
  {
    if i < |job.p2| {
      ExtSticky(thr, job, obj1, init, i, |job.p2|);
    }
  }

  lemma JobsNext(c: SpanCtx, items: seq<Item>, init: SpanState, i: nat, st: SpanState, y: Result<SpanState>)
    requires i < |items| && JobsUpto(c, items, init, i) == Ok(st)
    requires y == ItemStep(c, Ok(st), items[i])
    ensures JobsUpto(c, items, init, i + 1) == y
    ensures y.Err? ==> SpanSpec(c, items, init) == y
  {
    if y.Err? {
      JobsSticky(c, items, init, i + 1, |items|);
    }
  }

  lemma {:induction false} JobsSticky(c: SpanCtx, jobs: seq<Item>, init: SpanState, i: nat, k: nat)
    requires i <= k <= |jobs|
    requires JobsUpto(c, jobs, init, i).Err?
    ensures JobsUpto(c, jobs, init, k) == JobsUpto(c, jobs, init, i)
    decreases k
  {
    if k > i {
      JobsSticky(c, jobs, init, i, k - 1);
    }
  }

  // ---------------------------------------------------------------- the loops

  /** The `for edge_of_path2 in hot_path2` loop and the leftover bookkeeping after it. */
  method ExtendPair(thr: real, job: Job, st: SpanState) returns (r: Result<SpanState>)
    requires |job.p2| > 0
    ensures r == ExtendSpec(thr, job, st)
  {
    var found := Worker.Lookup(1, job.p1, job.ta);
    if found.None? {
      return Err(TypeError);
    }
    var x := EdgeLoop(thr, job, found.value, Start(st));
    if x.Err? {
      return Err(x.error);
    }
    return Ok(Finish(job, x.value));
  }

  /** `for edge_of_path2 in hot_path2`, left at the first failure or once `done` is set. */
  method EdgeLoop(thr: real, job: Job, obj1: seq<int>, init: Ext) returns (x: Result<Ext>)
    requires |job.p2| > 0
    ensures x == ExtUpto(thr, job, obj1, init, |job.p2|)
  {
    var cur: Result<Ext> := Ok(init);
    var i := 0;
    while i < |job.p2| && Going(cur)
      invariant EdgeAt(thr, job, obj1, init, i, cur)
    {
      var y := AdvanceEdge(thr, job, obj1, cur.value, job.p2[i]);
      EdgeNext(thr, job, obj1, init, i, cur, y);
      cur, i := y, i + 1;
    }
    ExtDone(thr, job, obj1, init, i);
    x := cur;
  }

  /** The edge loop has handled the first `i` edges of `p2`, reaching `cur`. */
  predicate EdgeAt(thr: real, job: Job, obj1: seq<int>, init: Ext, i: int, cur: Result<Ext>) {
    |job.p2| > 0 && 0 <= i <= |job.p2| && ExtUpto(thr, job, obj1, init, i) == cur
  }

  lemma EdgeNext(thr: real, job: Job, obj1: seq<int>, init: Ext, i: int, cur: Result<Ext>, y: Result<Ext>)
    requires EdgeAt(thr, job, obj1, init, i, cur) && i < |job.p2| && Going(cur)
    requires y == ExtStep(thr, job, obj1, Ok(cur.value), job.p2[i])
    ensures EdgeAt(thr, job, obj1, init, i + 1, y)
  {
  }

  /** The body of the edge loop. */
  method AdvanceEdge(thr: real, job: Job, obj1: seq<int>, x: Ext, e: int) returns (y: Result<Ext>)
    requires |job.p2| > 0 && !x.done
    ensures y == ExtStep(thr, job, obj1, Ok(x), e)
  {
    var obj2 := Worker.Lookup(2, [e], job.tb);
    if obj2.None? {
      return Err(TypeError);
    }
    var inter := x.inter;
    var m := Keep(if x.count < 1 then obj1 else x.inter, obj2.value);
    if |m| > 0 {
      inter := m;
    }
    if job.nobj == 0 {
      return Err(ZeroDivisionError);
    }
    if Ratio(|inter|, job.nobj) >= thr {
      var hom := Put3(x.hom, job.b, job.b, job.p2, Mark(-1));
      var edges := x.edges + [e];
      if e == job.p2[|job.p2| - 1] {
        var key := job.p1 + edges;
        y := Ok(Ext(inter, edges, inter, x.count, Put3(hom, job.a, job.b, key, List(inter)), x.spans + [key], true));
      } else {
        y := Ok(Ext(inter, edges, inter, 1, hom, x.spans, false));
      }
    } else if |x.forSure| > 0 {
      var key := job.p1 + x.edges;
      y := Ok(Ext(inter, x.edges, x.forSure, x.count, Put3(x.hom, job.a, job.b, key, List(x.forSure)),
                  x.spans + [key], true));
    } else {
      y := Ok(x.(inter := inter, done := true));
    }
  }

  /** The flattened pair loops of the spanning step. */
  method SpanAll(c: SpanCtx, items: seq<Item>, init: SpanState) returns (r: Result<SpanState>)
    ensures r == SpanSpec(c, items, init)
  {
    var st := init;
    var i := 0;
    while i < |items|
      invariant 0 <= i <= |items|
      invariant JobsUpto(c, items, init, i) == Ok(st)
    {
      var y := SpanItem(c, st, items[i]);
      JobsNext(c, items, init, i, st, y);
      if y.Err? {
        return y;
      }
      st := y.value;
      i := i + 1;
    }
    return Ok(st);
  }

  /** The body of the flattened loops. */
  method SpanItem(c: SpanCtx, st: SpanState, it: Item) returns (r: Result<SpanState>)
    ensures r == ItemStep(c, Ok(st), it)
  {
    if it.Level? {
      return Ok(SpanState(Touch(st.hom, it.x, it.y), st.spans));
    }
    var job := it.job;
    var link := LinkOf(c.variant, c.conn, job.a, job.b, job.p1, job.p2);
    if link.Err? {
      return Err(link.error);
    }
    if link.value == Extend {
      r := ExtendPair(c.thr, job, st);
    } else if link.value == StoreP1 && !Has3(st.hom, job.a, job.a, job.p1) {
      r := Ok(SpanState(Put3(st.hom, job.a, job.a, job.p1, List(job.p1)), st.spans));
    } else {
      r := Ok(st);
    }
  }
}

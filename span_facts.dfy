/** What one pair of the spanning step records, and what it leaves alone. */
module SpanFacts {
  import opened Wrappers
  import opened Seqs
  import opened Engine
  import Worker
  import opened Span

  /** Entries of `h` other than the at most two that the linked branch writes under (A, B) and (B, B). */
  ghost predicate KeptExcept(h0: Hom, h: Hom, t1: (int, int, seq<int>), t2: (int, int, seq<int>)) {
    (forall y, z, q :: Has3(h0, y, z, q) && (y, z, q) != t1 && (y, z, q) != t2 ==>
       Has3(h, y, z, q) && h[y][z][q] == h0[y][z][q]) &&
    (forall y, z, q :: Has3(h, y, z, q) ==> Has3(h0, y, z, q) || (y, z, q) == t1 || (y, z, q) == t2)
  }

  /** The state of the edge loop after `i` edges of `p2`. */
  ghost predicate ExtInv(thr: real, job: Job, obj1: seq<int>, st: SpanState, x: Ext, i: nat) {
    |x.edges| <= i <= |job.p2| && x.edges == job.p2[..|x.edges|] &&
    (!x.done ==> |x.edges| == i && x.spans == st.spans && (i > 0 ==> x.count == 1) && (i == 0 ==> x.count == 0)) &&
    (i == |job.p2| ==> x.done) &&
    Elems(x.inter) <= Elems(obj1) && Elems(x.forSure) <= Elems(obj1) &&
    (thr > 0.0 && |x.edges| > 0 ==> |x.forSure| > 0) &&
    (|x.edges| == 0 ==> x.spans == st.spans) &&
    (x.spans == st.spans || (x.done && |x.edges| > 0 && x.spans == st.spans + [job.p1 + x.edges])) &&
    (x.done && |x.edges| > 0 && thr > 0.0 ==> x.spans == st.spans + [job.p1 + x.edges]) &&
    (|x.edges| > 0 ==> Has3(x.hom, job.b, job.b, job.p2) && x.hom[job.b][job.b][job.p2] == Mark(-1)) &&
    (x.spans != st.spans ==>
       Has3(x.hom, job.a, job.b, job.p1 + x.edges) && x.hom[job.a][job.b][job.p1 + x.edges] == List(x.forSure)) &&
    (|x.edges| == 0 ==> x.forSure == []) &&
    KeptExcept(st.hom, x.hom, (job.b, job.b, job.p2),
               if x.spans != st.spans then (job.a, job.b, job.p1 + x.edges) else (job.b, job.b, job.p2))
  }

  lemma CarrySubset(count: int, obj1: seq<int>, inter: seq<int>, obj2: seq<int>)
    requires Elems(inter) <= Elems(obj1)
    ensures Elems(Carry(count, obj1, inter, obj2)) <= Elems(obj1)
    ensures count >= 1 ==> |Carry(count, obj1, inter, obj2)| <= |inter|
  {
  }

  lemma PassLastInv(thr: real, job: Job, obj1: seq<int>, st: SpanState, x: Ext, i: nat, inter: seq<int>)
    requires job.a != job.b && i < |job.p2| && !x.done
    requires ExtInv(thr, job, obj1, st, x, i)
    requires Elems(inter) <= Elems(obj1) && (thr > 0.0 ==> |inter| > 0)
    requires job.p2[i] == job.p2[|job.p2| - 1]
    ensures var hom := Put3(x.hom, job.b, job.b, job.p2, Mark(-1));
            var edges := x.edges + [job.p2[i]];
            ExtInv(thr, job, obj1, st,
                   Ext(inter, edges, inter, x.count, Put3(hom, job.a, job.b, job.p1 + edges, List(inter)),
                       x.spans + [job.p1 + edges], true), i + 1)
  {
    var hom := Put3(x.hom, job.b, job.b, job.p2, Mark(-1));
    Put3Facts(x.hom, job.b, job.b, job.p2, Mark(-1));
    var edges := x.edges + [job.p2[i]];
    assert edges == job.p2[..i + 1];
    Put3Facts(hom, job.a, job.b, job.p1 + edges, List(inter));
  }

  lemma PassMoreInv(thr: real, job: Job, obj1: seq<int>, st: SpanState, x: Ext, i: nat, inter: seq<int>)
    requires job.a != job.b && i < |job.p2| && !x.done
    requires ExtInv(thr, job, obj1, st, x, i)
    requires Elems(inter) <= Elems(obj1) && (thr > 0.0 ==> |inter| > 0)
    requires job.p2[i] != job.p2[|job.p2| - 1]
    ensures ExtInv(thr, job, obj1, st,
                   Ext(inter, x.edges + [job.p2[i]], inter, 1, Put3(x.hom, job.b, job.b, job.p2, Mark(-1)),
                       x.spans, false), i + 1)
  {
    Put3Facts(x.hom, job.b, job.b, job.p2, Mark(-1));
    assert x.edges + [job.p2[i]] == job.p2[..i + 1];
  }

  lemma FailInv(thr: real, job: Job, obj1: seq<int>, st: SpanState, x: Ext, i: nat, inter: seq<int>)
    requires job.a != job.b && i < |job.p2| && !x.done
    requires ExtInv(thr, job, obj1, st, x, i)
    requires Elems(inter) <= Elems(obj1)
    ensures ExtInv(thr, job, obj1, st,
                   if |x.forSure| > 0 then
                     Ext(inter, x.edges, x.forSure, x.count,
                         Put3(x.hom, job.a, job.b, job.p1 + x.edges, List(x.forSure)), x.spans + [job.p1 + x.edges], true)
                   else Ext(inter, x.edges, x.forSure, x.count, x.hom, x.spans, true), i + 1)
  {
    if |x.forSure| > 0 {
      Put3Facts(x.hom, job.a, job.b, job.p1 + x.edges, List(x.forSure));
      assert |x.edges| > 0;
    }
  }

  lemma RatioZero(n: int)
    requires n != 0
    ensures Ratio(0, n) == 0.0
  {
  }

  lemma PassInv(thr: real, job: Job, obj1: seq<int>, st: SpanState, x: Ext, i: nat, obj2: seq<int>)
    requires job.a != job.b && i < |job.p2| && !x.done && job.nobj != 0
    requires ExtInv(thr, job, obj1, st, x, i)
    requires Ratio(|Carry(x.count, obj1, x.inter, obj2)|, job.nobj) >= thr
    ensures Advance(thr, job, obj1, x, job.p2[i], obj2).Ok?
    ensures ExtInv(thr, job, obj1, st, Advance(thr, job, obj1, x, job.p2[i], obj2).value, i + 1)
  {
    var inter := Carry(x.count, obj1, x.inter, obj2);
    CarrySubset(x.count, obj1, x.inter, obj2);
    if thr > 0.0 && |inter| == 0 {
      RatioZero(job.nobj);
    }
    var e := job.p2[i];
    var hom := Put3(x.hom, job.b, job.b, job.p2, Mark(-1));
    var edges := x.edges + [e];
    if e == job.p2[|job.p2| - 1] {
      var y := Ext(inter, edges, inter, x.count, Put3(hom, job.a, job.b, job.p1 + edges, List(inter)),
                   x.spans + [job.p1 + edges], true);
      assert Advance(thr, job, obj1, x, e, obj2) == Ok(y);
      PassLastInv(thr, job, obj1, st, x, i, inter);
    } else {
      var y := Ext(inter, edges, inter, 1, hom, x.spans, false);
      assert Advance(thr, job, obj1, x, e, obj2) == Ok(y);
      PassMoreInv(thr, job, obj1, st, x, i, inter);
    }
  }

  lemma FailStepInv(thr: real, job: Job, obj1: seq<int>, st: SpanState, x: Ext, i: nat, obj2: seq<int>)
    requires job.a != job.b && i < |job.p2| && !x.done && job.nobj != 0
    requires ExtInv(thr, job, obj1, st, x, i)
    requires !(Ratio(|Carry(x.count, obj1, x.inter, obj2)|, job.nobj) >= thr)
    ensures Advance(thr, job, obj1, x, job.p2[i], obj2).Ok?
    ensures ExtInv(thr, job, obj1, st, Advance(thr, job, obj1, x, job.p2[i], obj2).value, i + 1)
  {
    CarrySubset(x.count, obj1, x.inter, obj2);
    FailInv(thr, job, obj1, st, x, i, Carry(x.count, obj1, x.inter, obj2));
  }

  lemma AdvanceInv(thr: real, job: Job, obj1: seq<int>, st: SpanState, x: Ext, i: nat, obj2: seq<int>)
    requires job.a != job.b && i < |job.p2| && !x.done
    requires ExtInv(thr, job, obj1, st, x, i)
    requires Advance(thr, job, obj1, x, job.p2[i], obj2).Ok?
    ensures ExtInv(thr, job, obj1, st, Advance(thr, job, obj1, x, job.p2[i], obj2).value, i + 1)
  {
    if Ratio(|Carry(x.count, obj1, x.inter, obj2)|, job.nobj) >= thr {
      PassInv(thr, job, obj1, st, x, i, obj2);
    } else {
      FailStepInv(thr, job, obj1, st, x, i, obj2);
    }
  }

  lemma {:induction false} ExtUptoInv(thr: real, job: Job, obj1: seq<int>, st: SpanState, i: nat)
    requires job.a != job.b && |job.p2| > 0 && i <= |job.p2|
    ensures ExtUpto(thr, job, obj1, Start(st), i).Ok? ==>
      ExtInv(thr, job, obj1, st, ExtUpto(thr, job, obj1, Start(st), i).value, i)
  {
    if i > 0 {
      ExtUptoInv(thr, job, obj1, st, i - 1);
      var prev := ExtUpto(thr, job, obj1, Start(st), i - 1);
      if prev.Ok? && !prev.value.done {
        var obj2 := Worker.Lookup(2, [job.p2[i - 1]], job.tb);
        if obj2.Some? && Advance(thr, job, obj1, prev.value, job.p2[i - 1], obj2.value).Ok? {
          AdvanceInv(thr, job, obj1, st, prev.value, i - 1, obj2.value);
        }
      }
    }
  }

  /** The edges of `p2` that the linked branch appended to `p1`. */
  function Appended(thr: real, job: Job, st: SpanState): seq<int>
    requires |job.p2| > 0
  {
    match Worker.Lookup(1, job.p1, job.ta)
    case None => []
    case Some(obj1) =>
      match ExtUpto(thr, job, obj1, Start(st), |job.p2|)
      case Err(_) => []
      case Ok(x) => x.edges
  }

  lemma LeftoverMissesHead(p2: seq<int>, q: seq<int>)
    requires |q| > 0 && |p2| > 0 && q[0] == p2[0]
    ensures Leftover(p2, q) != p2
  {
    assert p2[0] in p2 && p2[0] !in Leftover(p2, q);
  }

  /**
   * One linked pair.  The appended edges are a prefix of `p2`; `p1` plus that
   * prefix is recorded under (A, B), once, exactly when at least one edge
   * passed (for a positive threshold), with objects drawn from those of `p1`;
   * `p2` is marked -1 under (B, B) once an edge passed, and its edges that
   * were not appended are stored there with 0.  Nothing else changes.
   */
  lemma ExtendRule(thr: real, job: Job, st: SpanState)
    requires job.a != job.b && |job.p2| > 0
    requires ExtendSpec(thr, job, st).Ok?
    ensures var r := ExtendSpec(thr, job, st).value;
            var q := Appended(thr, job, st);
            var obj1 := Worker.Lookup(1, job.p1, job.ta);
            var left := Leftover(job.p2, q);
            obj1.Some? &&
            |q| <= |job.p2| && q == job.p2[..|q|] &&
            (r.spans == st.spans || (|q| > 0 && r.spans == st.spans + [job.p1 + q])) &&
            (|q| == 0 ==> r.spans == st.spans) &&
            (|q| > 0 && thr > 0.0 ==> r.spans == st.spans + [job.p1 + q]) &&
            (r.spans != st.spans ==>
               Has3(r.hom, job.a, job.b, job.p1 + q) && r.hom[job.a][job.b][job.p1 + q].List? &&
               Elems(r.hom[job.a][job.b][job.p1 + q].xs) <= Elems(obj1.value)) &&
            (|q| > 0 ==> Has3(r.hom, job.b, job.b, job.p2) && r.hom[job.b][job.b][job.p2] == Mark(-1)) &&
            (|q| > 0 && |left| > 0 ==> Has3(r.hom, job.b, job.b, left) && r.hom[job.b][job.b][left] == Mark(0)) &&
            (forall y, z, k :: Has3(st.hom, y, z, k) && (y, z, k) != (job.b, job.b, job.p2) &&
                               (y, z, k) != (job.a, job.b, job.p1 + q) && (y, z, k) != (job.b, job.b, left) ==>
               Has3(r.hom, y, z, k) && r.hom[y][z][k] == st.hom[y][z][k])
  {
    var obj1 := Worker.Lookup(1, job.p1, job.ta).value;
    ExtUptoInv(thr, job, obj1, st, |job.p2|);
    var x := ExtUpto(thr, job, obj1, Start(st), |job.p2|).value;
    var q := x.edges;
    var left := Leftover(job.p2, q);
    assert Appended(thr, job, st) == q;
    if |q| > 0 && |left| > 0 {
      Put3Facts(x.hom, job.b, job.b, left, Mark(0));
      LeftoverMissesHead(job.p2, q);
    }
  }

  // ---------------------------------------------------------------- where the extension stops

  /** Region B's answers to request 2 for the edges of `p2`, in order (None: no answer). */
  function Answers(job: Job): (ans: seq<Option<seq<int>>>)
    ensures |ans| == |job.p2|
  {
    seq(|job.p2|, k requires 0 <= k < |job.p2| => Worker.Lookup(2, [job.p2[k]], job.tb))
  }

  /**
   * The carried intersection after the first `n` edges of `p2`: `Carry`
   * folded over the answers for those edges (the objects of `p1` on the
   * first edge, the carried list afterwards); None once an edge has no answer.
   */
  function CarryUpto(obj1: seq<int>, ans: seq<Option<seq<int>>>, n: nat): Option<seq<int>>
    requires n <= |ans|
  {
    if n == 0 then Some([])
    else match CarryUpto(obj1, ans, n - 1)
      case None => None
      case Some(inter) =>
        match ans[n - 1]
        case None => None
        case Some(obj2) => Some(Carry(if n == 1 then 0 else 1, obj1, inter, obj2))
  }

  /** Edge `k` keeps the ratio of the carried intersection at or above the threshold. */
  predicate Passes(thr: real, nobj: int, obj1: seq<int>, ans: seq<Option<seq<int>>>, k: nat)
    requires k < |ans|
  {
    nobj != 0 && CarryUpto(obj1, ans, k + 1).Some? && Ratio(|CarryUpto(obj1, ans, k + 1).value|, nobj) >= thr
  }

  /** Edge `k` is answered and its ratio falls below the threshold. */
  predicate FailAt(thr: real, nobj: int, obj1: seq<int>, ans: seq<Option<seq<int>>>, k: nat) {
    k < |ans| && nobj != 0 && CarryUpto(obj1, ans, k + 1).Some? &&
    Ratio(|CarryUpto(obj1, ans, k + 1).value|, nobj) < thr
  }

  /** The `n`-th edge of `p2` equals its last edge, so passing it ends the loop. */
  predicate Settled(p2: seq<int>, n: nat) {
    0 < n <= |p2| && p2[n - 1] == p2[|p2| - 1]
  }

  /** The first `n` edges all passed. */
  predicate PassUpto(thr: real, nobj: int, obj1: seq<int>, ans: seq<Option<seq<int>>>, n: nat)
    requires n <= |ans|
  {
    n == 0 || (PassUpto(thr, nobj, obj1, ans, n - 1) && Passes(thr, nobj, obj1, ans, n - 1))
  }

  lemma {:induction false} PassUptoAt(thr: real, nobj: int, obj1: seq<int>, ans: seq<Option<seq<int>>>, n: nat, k: nat)
    requires n <= |ans| && PassUpto(thr, nobj, obj1, ans, n) && k < n
    ensures Passes(thr, nobj, obj1, ans, k)
  {
    if k < n - 1 {
      PassUptoAt(thr, nobj, obj1, ans, n - 1, k);
    }
  }

  /** No edge of `p2` before position `m` equals its last edge. */
  predicate NoLastBefore(p2: seq<int>, m: int) {
    m <= |p2| && forall k :: 0 <= k < m ==> p2[k] != p2[|p2| - 1]
  }

  /** Where the edge loop stands after `i` edges, in terms of the folded intersection. */
  predicate StopInv(thr: real, job: Job, obj1: seq<int>, ans: seq<Option<seq<int>>>, st: SpanState, x: Ext, i: nat) {
    |ans| == |job.p2| && i <= |job.p2| && |x.edges| <= i && (i > 0 ==> job.nobj != 0) &&
    CarryUpto(obj1, ans, |x.edges|).Some? && PassUpto(thr, job.nobj, obj1, ans, |x.edges|) &&
    (!x.done ==>
       |x.edges| == i && NoLastBefore(job.p2, i) && x.spans == st.spans &&
       x.count == (if i == 0 then 0 else 1) &&
       x.inter == CarryUpto(obj1, ans, i).value && x.forSure == x.inter) &&
    (x.done ==>
       NoLastBefore(job.p2, |x.edges| - 1) &&
       x.forSure == CarryUpto(obj1, ans, |x.edges|).value &&
       (Settled(job.p2, |x.edges|) || FailAt(thr, job.nobj, obj1, ans, |x.edges|)) &&
       (x.spans != st.spans <==> |x.edges| > 0 && (Settled(job.p2, |x.edges|) || |x.forSure| > 0)))
  }

  lemma StopPassLast(thr: real, job: Job, obj1: seq<int>, ans: seq<Option<seq<int>>>, st: SpanState, x: Ext, i: nat,
                     inter: seq<int>, hom: Hom)
    requires i < |job.p2| && !x.done && StopInv(thr, job, obj1, ans, st, x, i)
    requires CarryUpto(obj1, ans, i + 1) == Some(inter) && Passes(thr, job.nobj, obj1, ans, i)
    requires job.p2[i] == job.p2[|job.p2| - 1]
    ensures StopInv(thr, job, obj1, ans, st, Ext(inter, x.edges + [job.p2[i]], inter, x.count, hom,
                                                 x.spans + [job.p1 + x.edges + [job.p2[i]]], true), i + 1)
  {
    assert PassUpto(thr, job.nobj, obj1, ans, i + 1);
  }

  lemma StopPassMore(thr: real, job: Job, obj1: seq<int>, ans: seq<Option<seq<int>>>, st: SpanState, x: Ext, i: nat,
                     inter: seq<int>, hom: Hom)
    requires i < |job.p2| && !x.done && StopInv(thr, job, obj1, ans, st, x, i)
    requires CarryUpto(obj1, ans, i + 1) == Some(inter) && Passes(thr, job.nobj, obj1, ans, i)
    requires job.p2[i] != job.p2[|job.p2| - 1]
    ensures StopInv(thr, job, obj1, ans, st, Ext(inter, x.edges + [job.p2[i]], inter, 1, hom, x.spans, false), i + 1)
  {
    assert PassUpto(thr, job.nobj, obj1, ans, i + 1);
    NoLastSnoc(job.p2, i);
    StopInvLive(thr, job, obj1, ans, st, Ext(inter, x.edges + [job.p2[i]], inter, 1, hom, x.spans, false), i + 1);
  }

  lemma NoLastSnoc(p2: seq<int>, i: nat)
    requires i < |p2| && NoLastBefore(p2, i) && p2[i] != p2[|p2| - 1]
    ensures NoLastBefore(p2, i + 1)
  {
  }

  /** The invariant of a pass still under way, from its parts. */
  lemma StopInvLive(thr: real, job: Job, obj1: seq<int>, ans: seq<Option<seq<int>>>, st: SpanState, y: Ext, n: nat)
    requires |ans| == |job.p2| && n <= |job.p2| && (n > 0 ==> job.nobj != 0) && !y.done
    requires |y.edges| == n && NoLastBefore(job.p2, n) && y.spans == st.spans && y.count == (if n == 0 then 0 else 1)
    requires CarryUpto(obj1, ans, n).Some? && y.inter == CarryUpto(obj1, ans, n).value && y.forSure == y.inter
    requires PassUpto(thr, job.nobj, obj1, ans, n)
    ensures StopInv(thr, job, obj1, ans, st, y, n)
  {
  }

  lemma StopFail(thr: real, job: Job, obj1: seq<int>, ans: seq<Option<seq<int>>>, st: SpanState, x: Ext, i: nat,
                 inter: seq<int>, hom: Hom)
    requires i < |job.p2| && !x.done && StopInv(thr, job, obj1, ans, st, x, i)
    requires CarryUpto(obj1, ans, i + 1) == Some(inter) && job.nobj != 0 && Ratio(|inter|, job.nobj) < thr
    ensures StopInv(thr, job, obj1, ans, st,
                    if |x.forSure| > 0 then Ext(inter, x.edges, x.forSure, x.count, hom, x.spans + [job.p1 + x.edges], true)
                    else Ext(inter, x.edges, x.forSure, x.count, x.hom, x.spans, true), i + 1)
  {
    assert FailAt(thr, job.nobj, obj1, ans, i);
    assert !Settled(job.p2, i) by {
      if i > 0 {
        assert job.p2[i - 1] != job.p2[|job.p2| - 1];
      }
    }
  }

  lemma StopStep(thr: real, job: Job, obj1: seq<int>, ans: seq<Option<seq<int>>>, st: SpanState, x: Ext, i: nat,
                 obj2: seq<int>)
    requires i < |job.p2| && !x.done
    requires StopInv(thr, job, obj1, ans, st, x, i) && ans[i] == Some(obj2)
    requires Advance(thr, job, obj1, x, job.p2[i], obj2).Ok?
    ensures StopInv(thr, job, obj1, ans, st, Advance(thr, job, obj1, x, job.p2[i], obj2).value, i + 1)
  {
    var inter := Carry(x.count, obj1, x.inter, obj2);
    assert CarryUpto(obj1, ans, i + 1) == Some(inter);
    var e := job.p2[i];
    var hom := Put3(x.hom, job.b, job.b, job.p2, Mark(-1));
    if Ratio(|inter|, job.nobj) >= thr {
      if e == job.p2[|job.p2| - 1] {
        var key := job.p1 + (x.edges + [e]);
        assert job.p1 + x.edges + [e] == key;
        var h := Put3(hom, job.a, job.b, key, List(inter));
        assert Advance(thr, job, obj1, x, e, obj2) == Ok(Ext(inter, x.edges + [e], inter, x.count, h, x.spans + [key], true));
        StopPassLast(thr, job, obj1, ans, st, x, i, inter, h);
      } else {
        assert Advance(thr, job, obj1, x, e, obj2) == Ok(Ext(inter, x.edges + [e], inter, 1, hom, x.spans, false));
        StopPassMore(thr, job, obj1, ans, st, x, i, inter, hom);
      }
    } else {
      var h := Put3(x.hom, job.a, job.b, job.p1 + x.edges, List(x.forSure));
      assert Advance(thr, job, obj1, x, e, obj2) ==
             if |x.forSure| > 0 then Ok(Ext(inter, x.edges, x.forSure, x.count, h, x.spans + [job.p1 + x.edges], true))
             else Ok(Ext(inter, x.edges, x.forSure, x.count, x.hom, x.spans, true));
      StopFail(thr, job, obj1, ans, st, x, i, inter, h);
    }
  }

  lemma {:induction false} ExtUptoStop(thr: real, job: Job, obj1: seq<int>, st: SpanState, i: nat)
    requires |job.p2| > 0 && i <= |job.p2|
    ensures ExtUpto(thr, job, obj1, Start(st), i).Ok? ==>
      StopInv(thr, job, obj1, Answers(job), st, ExtUpto(thr, job, obj1, Start(st), i).value, i)
  {
    if i > 0 {
      ExtUptoStop(thr, job, obj1, st, i - 1);
      var prev := ExtUpto(thr, job, obj1, Start(st), i - 1);
      if prev.Ok? && !prev.value.done {
        var obj2 := Worker.Lookup(2, [job.p2[i - 1]], job.tb);
        if obj2.Some? && Advance(thr, job, obj1, prev.value, job.p2[i - 1], obj2.value).Ok? {
          StopStep(thr, job, obj1, Answers(job), st, prev.value, i - 1, obj2.value);
        }
      }
    }
  }

  /** The state the edge loop ends in, stated with the folded intersection. */
  lemma StopFacts(thr: real, job: Job, obj1: seq<int>, ans: seq<Option<seq<int>>>, st: SpanState, x: Ext)
    requires job.a != job.b && |job.p2| > 0
    requires ExtInv(thr, job, obj1, st, x, |job.p2|) && StopInv(thr, job, obj1, ans, st, x, |job.p2|)
    ensures x.done && |x.edges| <= |job.p2| && x.edges == job.p2[..|x.edges|]
    ensures CarryUpto(obj1, ans, |x.edges|).Some? && job.nobj != 0
    ensures forall k :: 0 <= k < |x.edges| ==> Passes(thr, job.nobj, obj1, ans, k)
    ensures NoLastBefore(job.p2, |x.edges| - 1)
    ensures Settled(job.p2, |x.edges|) || FailAt(thr, job.nobj, obj1, ans, |x.edges|)
    ensures x.spans == (if |x.edges| > 0 && (Settled(job.p2, |x.edges|) || |CarryUpto(obj1, ans, |x.edges|).value| > 0)
                        then st.spans + [job.p1 + x.edges] else st.spans)
    ensures x.spans != st.spans ==>
              Has3(x.hom, job.a, job.b, job.p1 + x.edges) &&
              x.hom[job.a][job.b][job.p1 + x.edges] == List(CarryUpto(obj1, ans, |x.edges|).value)
  {
    forall k | 0 <= k < |x.edges|
      ensures Passes(thr, job.nobj, obj1, ans, k)
    {
      PassUptoAt(thr, job.nobj, obj1, ans, |x.edges|, k);
    }
  }

  /**
   * Where one linked pair stops.  Every appended edge passed the threshold
   * with the intersection carried along `p2` up to it, and the loop stopped
   * right after the appended edges: either the last of them equals the last
   * edge of `p2` (the whole of `p2`, or an earlier copy of its last edge), or
   * the next edge is the first whose ratio falls below the threshold.  `p1`
   * plus the appended edges is recorded exactly when some edge passed and
   * either the loop settled or the carried intersection is not empty, and
   * the value stored under (A, B) is that carried intersection.
   */
  lemma ExtendStops(thr: real, job: Job, st: SpanState)
    requires job.a != job.b && |job.p2| > 0
    requires ExtendSpec(thr, job, st).Ok?
    ensures var r := ExtendSpec(thr, job, st).value;
            var q := Appended(thr, job, st);
            var obj1 := Worker.Lookup(1, job.p1, job.ta).value;
            var ans := Answers(job);
            job.nobj != 0 && |q| <= |job.p2| && q == job.p2[..|q|] &&
            var carried := CarryUpto(obj1, ans, |q|);
            carried.Some? &&
            (forall k :: 0 <= k < |q| ==> Passes(thr, job.nobj, obj1, ans, k)) &&
            NoLastBefore(job.p2, |q| - 1) &&
            (Settled(job.p2, |q|) || FailAt(thr, job.nobj, obj1, ans, |q|)) &&
            r.spans == (if |q| > 0 && (Settled(job.p2, |q|) || |carried.value| > 0)
                        then st.spans + [job.p1 + q] else st.spans) &&
            (r.spans != st.spans ==>
               Has3(r.hom, job.a, job.b, job.p1 + q) && r.hom[job.a][job.b][job.p1 + q] == List(carried.value))
  {
    var obj1 := Worker.Lookup(1, job.p1, job.ta).value;
    ExtUptoInv(thr, job, obj1, st, |job.p2|);
    ExtUptoStop(thr, job, obj1, st, |job.p2|);
    var x := ExtUpto(thr, job, obj1, Start(st), |job.p2|).value;
    assert Appended(thr, job, st) == x.edges;
    StopFacts(thr, job, obj1, Answers(job), st, x);
    var left := Leftover(job.p2, x.edges);
    if |x.edges| > 0 && |left| > 0 {
      Put3Facts(x.hom, job.b, job.b, left, Mark(0));
    }
  }

  /** An unlinked pair keeps `p1` under (A, A) with its own edges, unless an entry is already there. */
  lemma UnlinkedKeepsP1(c: SpanCtx, st: SpanState, job: Job)
    requires LinkOf(c.variant, c.conn, job.a, job.b, job.p1, job.p2) == Ok(StoreP1)
    ensures var r := JobStep(c, Ok(st), job);
            r.Ok? && r.value.spans == st.spans &&
            Has3(r.value.hom, job.a, job.a, job.p1) &&
            r.value.hom[job.a][job.a][job.p1] ==
              (if Has3(st.hom, job.a, job.a, job.p1) then st.hom[job.a][job.a][job.p1] else List(job.p1)) &&
            forall y, z, k :: Has3(st.hom, y, z, k) ==> Has3(r.value.hom, y, z, k) && r.value.hom[y][z][k] == st.hom[y][z][k]
  {
    Put3Facts(st.hom, job.a, job.a, job.p1, List(job.p1));
  }

  /**
   * The two copies part ways on a pair whose `p1` tail is a key of the
   * connection map but whose `p2` head is not linked to it: the current copy
   * keeps `p1` under (A, A), the older copy does nothing at all.
   */
  lemma HeadNotLinked(c: SpanCtx, st: SpanState, job: Job)
    requires job.a in c.conn && job.b in c.conn[job.a] && |job.p1| > 0 && |job.p2| > 0
    requires job.p1[|job.p1| - 1] in c.conn[job.a][job.b]
    requires job.p2[0] !in c.conn[job.a][job.b][job.p1[|job.p1| - 1]]
    ensures c.variant == Older ==> JobStep(c, Ok(st), job) == Ok(st)
    ensures c.variant == Current ==> JobStep(c, Ok(st), job) == Ok(StoreSpec(job, st))
  {
  }

  /** `s` is `p1` of some linked pair before position `i`, extended by a non-empty prefix of its `p2`. */
  ghost predicate FromLinked(c: SpanCtx, items: seq<Item>, i: nat, s: seq<int>)
    requires i <= |items|
  {
    exists j, n :: 0 <= j < i && items[j].Pair? && 1 <= n <= |items[j].job.p2| &&
      LinkOf(c.variant, c.conn, items[j].job.a, items[j].job.b, items[j].job.p1, items[j].job.p2) == Ok(Extend) &&
      s == items[j].job.p1 + items[j].job.p2[..n]
  }

  /** Only a linked pair can add a spanning path, and a linked pair adds at most one. */
  lemma {:induction false} SpansFromJobs(c: SpanCtx, items: seq<Item>, init: SpanState, i: nat)
    requires i <= |items|
    requires forall j :: 0 <= j < |items| && items[j].Pair? ==> items[j].job.a != items[j].job.b
    requires JobsUpto(c, items, init, i).Ok?
    ensures var r := JobsUpto(c, items, init, i).value;
            |init.spans| <= |r.spans| <= |init.spans| + i && r.spans[..|init.spans|] == init.spans &&
            forall k :: |init.spans| <= k < |r.spans| ==> FromLinked(c, items, i, r.spans[k])
  {
    if i > 0 {
      SpansFromJobs(c, items, init, i - 1);
      var prev := JobsUpto(c, items, init, i - 1).value;
      var r := JobsUpto(c, items, init, i).value;
      var q: seq<int> := [];
      if items[i - 1].Pair? {
        var job := items[i - 1].job;
        var link := LinkOf(c.variant, c.conn, job.a, job.b, job.p1, job.p2);
        if link == Ok(Extend) {
          ExtendRule(c.thr, job, prev);
          assert JobsUpto(c, items, init, i) == ExtendSpec(c.thr, job, prev);
          q := Appended(c.thr, job, prev);
        } else if link == Ok(StoreP1) {
          UnlinkedKeepsP1(c, prev, job);
          assert r == JobStep(c, Ok(prev), job).value;
        } else {
          assert link == Ok(Nothing);
          assert r == prev;
        }
      }
      assert r.spans == prev.spans ||
             (items[i - 1].Pair? &&
              LinkOf(c.variant, c.conn, items[i - 1].job.a, items[i - 1].job.b, items[i - 1].job.p1, items[i - 1].job.p2) == Ok(Extend) &&
              1 <= |q| <= |items[i - 1].job.p2| &&
              r.spans == prev.spans + [items[i - 1].job.p1 + items[i - 1].job.p2[..|q|]]);
      forall k | |init.spans| <= k < |r.spans|
        ensures FromLinked(c, items, i, r.spans[k])
      {
        if k == |prev.spans| {
          assert r.spans[k] == items[i - 1].job.p1 + items[i - 1].job.p2[..|q|];
        } else {
          assert FromLinked(c, items, i - 1, prev.spans[k]);
          var j, n :| 0 <= j < i - 1 && items[j].Pair? && 1 <= n <= |items[j].job.p2| &&
              LinkOf(c.variant, c.conn, items[j].job.a, items[j].job.b, items[j].job.p1, items[j].job.p2) == Ok(Extend) &&
              prev.spans[k] == items[j].job.p1 + items[j].job.p2[..n];
          assert r.spans[k] == items[j].job.p1 + items[j].job.p2[..n];
        }
      }
      assert r.spans[..|init.spans|] == prev.spans[..|init.spans|];
    }
  }

  /**
   * The carried intersection in action: `p1 = [1]` holds object 7, the first
   * edge of `p2 = [2, 3]` holds 7 and the second holds only 8.  The second
   * edge shares nothing with the carried list, which therefore keeps [7];
   * the ratio still passes and `[1, 2, 3]` is recorded with object 7.
   */
  lemma CarriedIntersection()
    ensures var ta: Table := map[1 := [Rec([1], [7])]];
            var tb: Table := map[0 := [Rec([2], [7]), Rec([3], [8])]];
            var job := Job(10, 20, 1, [1], [2, 3], ta, tb);
            var st := SpanState(map[], []);
            var r := ExtendSpec(0.5, job, st);
            r.Ok? && r.value.spans == [[1, 2, 3]] &&
            Has3(r.value.hom, 10, 20, [1, 2, 3]) && r.value.hom[10][20][[1, 2, 3]] == List([7]) &&
            Worker.Lookup(2, [3], tb) == Some([8])
  {
    var ta: Table := map[1 := [Rec([1], [7])]];
    var tb: Table := map[0 := [Rec([2], [7]), Rec([3], [8])]];
    var job := Job(10, 20, 1, [1], [2, 3], ta, tb);
    var st := SpanState(map[], []);
    assert Worker.Lookup(1, [1], ta) == Some([7]);
    assert Worker.Lookup(2, [2], tb) == Some([7]);
    assert Worker.Lookup(2, [3], tb) == Some([8]) by {
      assert tb[0][1..] == [Rec([3], [8])];
    }
    assert Keep([7], [7]) == [7];
    assert Keep([7], [8]) == [];
    assert Carry(0, [7], [], [7]) == [7];
    assert Carry(1, [7], [7], [8]) == [7];
    assert [1] + ([2] + [3]) == [1, 2, 3];
    assert Ratio(1, 1) == 1.0;
    var x1 := ExtUpto(0.5, job, [7], Start(st), 1);
    assert x1.Ok? && x1.value.inter == [7] && x1.value.edges == [2] && x1.value.count == 1 && !x1.value.done;
    var x2 := ExtUpto(0.5, job, [7], Start(st), 2);
    assert x2.Ok? && x2.value.edges == [2, 3] && x2.value.spans == [[1, 2, 3]];
    Put3Facts(x1.value.hom, 20, 20, [2, 3], Mark(-1));
    Put3Facts(Put3(x1.value.hom, 20, 20, [2, 3], Mark(-1)), 10, 20, [1, 2, 3], List([7]));
  }
}

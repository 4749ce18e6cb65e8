/** What the pruning loop removes, and what Python's remove-while-iterating does to it. */
module EnginePrune {
  import opened Seqs
  import opened Engine

  /** No two records of the bucket share a path. */
  predicate DistinctPaths(b: seq<Rec>) {
    forall i, j :: 0 <= i < j < |b| ==> b[i].path != b[j].path
  }

  /** The records of `b`, in order, whose path is not in `gone`. */
  function Without(b: seq<Rec>, gone: set<seq<int>>): seq<Rec> {
    if |b| == 0 then []
    else (if b[0].path in gone then [] else [b[0]]) + Without(b[1..], gone)
  }

  lemma {:induction false} WithoutAppend(a: seq<Rec>, b: seq<Rec>, gone: set<seq<int>>)
    ensures Without(a + b, gone) == Without(a, gone) + Without(b, gone)
  {
    if |a| == 0 {
      assert a + b == b;
    } else {
      assert (a + b)[0] == a[0];
      assert (a + b)[1..] == a[1..] + b;
      WithoutAppend(a[1..], b, gone);
    }
  }

  lemma {:induction false} WithoutMem(b: seq<Rec>, gone: set<seq<int>>)
    ensures forall x :: x in Without(b, gone) <==> x in b && x.path !in gone
  {
    if |b| > 0 {
      WithoutMem(b[1..], gone);
      assert b == [b[0]] + b[1..];
    }
  }

  lemma WithoutCons(x: Rec, t: seq<Rec>, gone: set<seq<int>>)
    ensures Without([x] + t, gone) == (if x.path in gone then [] else [x]) + Without(t, gone)
  {
    assert ([x] + t)[1..] == t;
  }

  lemma DistinctRemoveAt(b: seq<Rec>, idx: nat)
    requires idx < |b| && DistinctPaths(b)
    ensures DistinctPaths(b[..idx] + b[idx + 1..])
  {
    var b' := b[..idx] + b[idx + 1..];
    forall i, j | 0 <= i < j < |b'|
      ensures b'[i].path != b'[j].path
    {
      var i0 := if i < idx then i else i + 1;
      var j0 := if j < idx then j else j + 1;
      assert b'[i] == b[i0] && b'[j] == b[j0];
    }
  }

  lemma {:induction false} WithoutNothing(b: seq<Rec>)
    ensures Without(b, {}) == b
  {
    if |b| > 0 {
      WithoutNothing(b[1..]);
      assert b == [b[0]] + b[1..];
    }
  }

  lemma {:induction false} WithoutTwice(b: seq<Rec>, s: set<seq<int>>, t: set<seq<int>>)
    ensures Without(Without(b, s), t) == Without(b, s + t)
  {
    if |b| > 0 {
      WithoutTwice(b[1..], s, t);
      var head := if b[0].path in s then [] else [b[0]];
      WithoutAppend(head, Without(b[1..], s), t);
    }
  }

  lemma {:induction false} WithoutDistinct(b: seq<Rec>, s: set<seq<int>>)
    requires DistinctPaths(b)
    ensures DistinctPaths(Without(b, s))
  {
    if |b| > 0 {
      var t := b[1..];
      forall i, j | 0 <= i < j < |t|
        ensures t[i].path != t[j].path
      {
        assert t[i] == b[i + 1] && t[j] == b[j + 1];
      }
      WithoutDistinct(t, s);
      WithoutMem(t, s);
      var r := Without(t, s);
      forall x | x in r
        ensures x.path != b[0].path
      {
        var k :| 0 <= k < |t| && t[k] == x;
        assert t[k] == b[k + 1];
      }
      if b[0].path !in s {
        var c := [b[0]] + r;
        forall i, j | 0 <= i < j < |c|
          ensures c[i].path != c[j].path
        {
          assert c[j] == r[j - 1];
          if i > 0 {
            assert c[i] == r[i - 1];
          }
        }
      }
    }
  }

  lemma {:induction false} RemoveFirstAt(b: seq<Rec>, idx: nat)
    requires idx < |b|
    requires forall t :: 0 <= t < idx ==> b[t] != b[idx]
    ensures RemoveFirst(b, b[idx]) == b[..idx] + b[idx + 1..]
  {
    if idx == 0 {
      assert b[..0] + b[1..] == b[1..];
    } else {
      var t := b[1..];
      assert t[idx - 1] == b[idx];
      assert b[0] != b[idx];
      assert RemoveFirst(b, b[idx]) == [b[0]] + RemoveFirst(t, b[idx]);
      forall tt | 0 <= tt < idx - 1
        ensures t[tt] != t[idx - 1]
      {
        assert t[tt] == b[tt + 1];
      }
      RemoveFirstAt(t, idx - 1);
      assert t[..idx - 1] + t[idx..] == b[1..idx] + b[idx + 1..];
      assert b[..idx] == [b[0]] + b[1..idx];
    }
  }

  /** Past the last record with path `w`, the loop changes nothing. */
  lemma {:induction false} IterRemoveNone(b: seq<Rec>, idx: nat, w: seq<int>)
    requires forall t :: idx <= t < |b| ==> b[t].path != w
    ensures IterRemove(b, idx, w) == b
    decreases |b| + 1 - idx
  {
    if idx < |b| {
      IterRemoveNone(b, idx + 1, w);
    }
  }

  lemma {:induction false} WithoutNone(b: seq<Rec>, w: seq<int>)
    requires forall t :: 0 <= t < |b| ==> b[t].path != w
    ensures Without(b, {w}) == b
  {
    if |b| > 0 {
      WithoutNone(b[1..], w);
      assert b == [b[0]] + b[1..];
    }
  }

  /** The record at `idx` is the match: it goes, and nothing after it matches. */
  lemma IterRemoveHit(b: seq<Rec>, idx: nat, w: seq<int>)
    requires idx < |b| && DistinctPaths(b) && b[idx].path == w
    requires forall t :: 0 <= t < idx ==> b[t].path != w
    ensures IterRemove(b, idx, w) == b[..idx] + Without(b[idx..], {w})
  {
    forall t | idx < t < |b| ensures b[t].path != w {
      assert b[idx].path != b[t].path;
    }
    HitRemoved(b, idx, w);
    HitWithout(b, idx, w);
  }

  lemma HitRemoved(b: seq<Rec>, idx: nat, w: seq<int>)
    requires idx < |b| && b[idx].path == w
    requires forall t :: 0 <= t < idx ==> b[t].path != w
    requires forall t :: idx < t < |b| ==> b[t].path != w
    ensures IterRemove(b, idx, w) == b[..idx] + b[idx + 1..]
  {
    RemoveFirstAt(b, idx);
    var b' := b[..idx] + b[idx + 1..];
    assert IterRemove(b, idx, w) == IterRemove(b', idx + 1, w);
    forall t | idx + 1 <= t < |b'|
      ensures b'[t].path != w
    {
      assert b'[t] == b[t + 1];
    }
    IterRemoveNone(b', idx + 1, w);
  }

  lemma HitWithout(b: seq<Rec>, idx: nat, w: seq<int>)
    requires idx < |b| && b[idx].path == w
    requires forall t :: idx < t < |b| ==> b[t].path != w
    ensures Without(b[idx..], {w}) == b[idx + 1..]
  {
    var rest := b[idx + 1..];
    assert b[idx..] == [b[idx]] + rest;
    WithoutCons(b[idx], rest, {w});
    forall t | 0 <= t < |rest|
      ensures rest[t].path != w
    {
      assert rest[t] == b[idx + 1 + t];
    }
    WithoutNone(rest, w);
  }

  /** From position `idx` on, with no earlier match and distinct paths, the loop is a filter. */
  lemma {:induction false} IterRemoveFrom(b: seq<Rec>, idx: nat, w: seq<int>)
    requires idx <= |b| && DistinctPaths(b)
    requires forall t :: 0 <= t < idx ==> b[t].path != w
    ensures IterRemove(b, idx, w) == b[..idx] + Without(b[idx..], {w})
    decreases |b| - idx
  {
    if idx == |b| {
      assert b[..idx] == b && b[idx..] == [];
    } else if b[idx].path == w {
      IterRemoveHit(b, idx, w);
    } else {
      IterRemoveFrom(b, idx + 1, w);
      assert b[..idx + 1] == b[..idx] + [b[idx]];
      assert b[idx..] == [b[idx]] + b[idx + 1..];
      WithoutCons(b[idx], b[idx + 1..], {w});
    }
  }

  /** With distinct paths in the bucket, `for r in b: if r.path == w: b.remove(r)` drops exactly the records with path `w`. */
  lemma {:induction false} IterRemoveFilters(b: seq<Rec>, w: seq<int>)
    requires DistinctPaths(b)
    ensures IterRemove(b, 0, w) == Without(b, {w})
  {
    IterRemoveFrom(b, 0, w);
    assert b[0..] == b;
  }

  /** Without distinct paths the loop is not a filter: of two equal records the second is skipped and survives. */
  lemma {:induction false} IterRemoveSkipsDuplicate()
    ensures var x := Rec([7, 8], [1]);
            IterRemove([x, x], 0, [7, 8]) == [x] && Without([x, x], {[7, 8]}) == []
  {
    var x := Rec([7, 8], [1]);
    assert RemoveFirst([x, x], x) == [x];
    assert IterRemove([x], 1, [7, 8]) == [x];
    assert [x, x][1..] == [x] && [x][1..] == [];
    assert Without([x], {[7, 8]}) == [];
  }

  lemma {:induction false} IterRemoveSubset(b: seq<Rec>, idx: nat, w: seq<int>)
    ensures forall x :: x in IterRemove(b, idx, w) ==> x in b
    decreases |b| + 1 - idx
  {
    if idx < |b| {
      if b[idx].path == w {
        IterRemoveSubset(RemoveFirst(b, b[idx]), idx + 1, w);
      } else {
        IterRemoveSubset(b, idx + 1, w);
      }
    }
  }

  lemma {:induction false} ApplyWindowsDistinct(b: seq<Rec>, ws: seq<seq<int>>)
    requires DistinctPaths(b)
    ensures ApplyWindows(b, ws) == Without(b, Elems(ws))
  {
    if |ws| == 0 {
      assert Elems(ws) == {};
      WithoutNothing(b);
    } else {
      var init := ws[..|ws| - 1];
      var w := ws[|ws| - 1];
      var mid := Without(b, Elems(init));
      ApplyWindowsDistinct(b, init);
      assert ApplyWindows(b, ws) == IterRemove(mid, 0, w);
      WithoutDistinct(b, Elems(init));
      IterRemoveFilters(mid, w);
      WithoutTwice(b, Elems(init), {w});
      ElemsSnoc(init, w);
      assert init + [w] == ws;
    }
  }

  lemma {:induction false} ApplyWindowsSubset(b: seq<Rec>, ws: seq<seq<int>>)
    ensures forall x :: x in ApplyWindows(b, ws) ==> x in b
  {
    if |ws| > 0 {
      ApplyWindowsSubset(b, ws[..|ws| - 1]);
      IterRemoveSubset(ApplyWindows(b, ws[..|ws| - 1]), 0, ws[|ws| - 1]);
    }
  }

  lemma {:induction false} RepeatDistinct(b: seq<Rec>, p: seq<int>, n: int, t: nat)
    requires n >= 2 && DistinctPaths(b)
    ensures Repeat(b, p, n, t) == if t == 0 then b else Without(b, Elems(Windows(p, n - 1)))
  {
    if t > 0 {
      var s := Elems(Windows(p, n - 1));
      RepeatDistinct(b, p, n, t - 1);
      if t == 1 {
        ApplyWindowsDistinct(b, Windows(p, n - 1));
      } else {
        WithoutDistinct(b, s);
        ApplyWindowsDistinct(Without(b, s), Windows(p, n - 1));
        WithoutTwice(b, s, s);
        assert s + s == s;
      }
    }
  }

  lemma {:induction false} RepeatSubset(b: seq<Rec>, p: seq<int>, n: int, t: nat)
    requires n >= 2
    ensures forall x :: x in Repeat(b, p, n, t) ==> x in b
  {
    if t > 0 {
      RepeatSubset(b, p, n, t - 1);
      ApplyWindowsSubset(Repeat(b, p, n, t - 1), Windows(p, n - 1));
    }
  }

  /** Pruning only ever removes records. */
  lemma {:induction false} PruneSubset(lower: seq<Rec>, upper: seq<Rec>, n: int)
    requires n >= 2
    ensures forall x :: x in PruneSpec(lower, upper, n) ==> x in lower
  {
    if |upper| > 0 {
      var p := upper[|upper| - 1].path;
      PruneSubset(lower, upper[..|upper| - 1], n);
      RepeatSubset(PruneSpec(lower, upper[..|upper| - 1], n), p, n, Reps(p, n));
    }
  }

  /** The paths the pruning of bucket n - 1 removes: every length-(n-1) window of a bucket-n path. */
  function Gone(upper: seq<Rec>, n: int): set<seq<int>>
    requires n >= 2
  {
    if |upper| == 0 then {}
    else
      var p := upper[|upper| - 1].path;
      Gone(upper[..|upper| - 1], n) + (if Reps(p, n) > 0 then Elems(Windows(p, n - 1)) else {})
  }

  lemma {:induction false} PruneDistinct(lower: seq<Rec>, upper: seq<Rec>, n: int)
    requires n >= 2 && DistinctPaths(lower)
    ensures PruneSpec(lower, upper, n) == Without(lower, Gone(upper, n))
  {
    if |upper| == 0 {
      WithoutNothing(lower);
    } else {
      var init := upper[..|upper| - 1];
      var p := upper[|upper| - 1].path;
      PruneDistinct(lower, init, n);
      WithoutDistinct(lower, Gone(init, n));
      RepeatDistinct(Without(lower, Gone(init, n)), p, n, Reps(p, n));
      if Reps(p, n) > 0 {
        WithoutTwice(lower, Gone(init, n), Elems(Windows(p, n - 1)));
      } else {
        assert Gone(upper, n) == Gone(init, n);
      }
    }
  }

  /** A length-n path has exactly two length-(n-1) windows: its prefix and its suffix. */
  lemma {:induction false} WindowsOfFullPath(p: seq<int>, n: int)
    requires n >= 2 && |p| == n
    ensures Reps(p, n) == 1
    ensures Windows(p, n - 1) == [p[..n - 1], p[1..]]
  {
    var ws := Windows(p, n - 1);
    assert |ws| == 2;
    assert ws[0] == p[0..n - 1] == p[..n - 1];
    assert ws[1] == p[1..n] == p[1..];
  }

  lemma {:induction false} GoneOfFullPaths(upper: seq<Rec>, n: int)
    requires n >= 2
    requires forall u :: u in upper ==> |u.path| == n
    ensures forall q :: q in Gone(upper, n) <==>
              exists u :: u in upper && (q == u.path[..n - 1] || q == u.path[1..])
  {
    if |upper| > 0 {
      var init := upper[..|upper| - 1];
      var last := upper[|upper| - 1];
      GoneOfFullPaths(init, n);
      WindowsOfFullPath(last.path, n);
      assert Elems(Windows(last.path, n - 1)) == {last.path[..n - 1], last.path[1..]};
      LastSplit(upper);
    }
  }

  /**
   * Pruning after round n >= 2, when bucket n - 1 has distinct paths and
   * every bucket-n path has length n: bucket n - 1 keeps, in order, exactly
   * the records that are neither the prefix nor the suffix of a bucket-n path.
   */
  lemma {:induction false} PruneRule(lower: seq<Rec>, upper: seq<Rec>, n: int)
    requires n >= 2 && DistinctPaths(lower)
    requires forall u :: u in upper ==> |u.path| == n
    ensures PruneSpec(lower, upper, n) == Without(lower, Gone(upper, n))
    ensures forall x :: x in PruneSpec(lower, upper, n) <==>
              x in lower && forall u :: u in upper ==> x.path != u.path[..n - 1] && x.path != u.path[1..]
  {
    PruneDistinct(lower, upper, n);
    GoneOfFullPaths(upper, n);
    WithoutMem(lower, Gone(upper, n));
  }
}

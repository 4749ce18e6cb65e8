/**
 * What the connection map holds, stated without the loops: for distinct
 * regions A and B, `conn[A][B][e]` lists, over A's lines for edge `e` in
 * order, each successor `s` once for every line of B's file that starts with
 * `s`.
 */
module RegionConnsFacts {
  import opened Wrappers
  import opened Seqs
  import opened RegionConns

  // ---------------------------------------------------------------- reference definitions

  /** `n` copies of `s`. */
  function Rep(s: int, n: nat): seq<int> {
    if n == 0 then [] else Rep(s, n - 1) + [s]
  }

  /** The first values of the (non-blank) lines of a file. */
  function Firsts(lines: seq<Line>): seq<int> {
    if |lines| == 0 then []
    else
      var last := lines[|lines| - 1];
      Firsts(lines[..|lines| - 1]) + (if |last| > 0 then [last[0]] else [])
  }

  /** What the successors of one line contribute to a row for a file whose first values are `fB`. */
  function Hits(nexts: seq<int>, fB: seq<int>): seq<int> {
    if |nexts| == 0 then []
    else Hits(nexts[..|nexts| - 1], fB) + Rep(nexts[|nexts| - 1], Count(fB, nexts[|nexts| - 1]))
  }

  /** Everything appended under edge `e`, over the lines of A's file, in order. */
  function Flat(lines: seq<Line>, e: int, fB: seq<int>): seq<int> {
    if |lines| == 0 then []
    else
      var last := lines[|lines| - 1];
      Flat(lines[..|lines| - 1], e, fB) + (if |last| > 0 && last[0] == e then Hits(last[1..], fB) else [])
  }

  /** The row for region B: an entry for each edge of A that gained at least one successor. */
  function RowRef(lines: seq<Line>, fB: seq<int>): Row {
    map e | e in Firsts(lines) && Flat(lines, e, fB) != [] :: Flat(lines, e, fB)
  }

  /** Some line of the file has a successor, so the loop over the other files runs. */
  ghost predicate HasNext(lines: seq<Line>) {
    exists k :: 0 <= k < |lines| && |lines[k]| > 1
  }

  /** `row.setdefault(e, []).extend(h)`, which creates no entry when `h` is empty. */
  function AddHits(row: Row, e: int, h: seq<int>): Row {
    if h == [] then row else row[e := Get(row, e) + h]
  }

  function GetRow(c: RegionMap, k: int): Row {
    if k in c then c[k] else map[]
  }

  /** The ids of the files other than `me`. */
  function OtherIds(regs: seq<Reg>, me: string): set<int>
    requires AllOk(regs)
  {
    set j | 0 <= j < |regs| && regs[j].name != me :: regs[j].id.value
  }

  /** No two listed files carry the same id. */
  predicate DistinctIds(regs: seq<Reg>)
    requires AllOk(regs)
  {
    forall i, j :: 0 <= i < j < |regs| ==> regs[i].id.value != regs[j].id.value
  }

  // ---------------------------------------------------------------- small facts

  lemma CountSnoc(a: seq<int>, x: int, s: int)
    ensures Count(a + [x], s) == Count(a, s) + (if x == s then 1 else 0)
  {
    assert (a + [x])[..|a|] == a;
  }

  lemma AddHitsTwice(row: Row, e: int, h1: seq<int>, h2: seq<int>)
    ensures AddHits(AddHits(row, e, h1), e, h2) == AddHits(row, e, h1 + h2)
  {
    if h1 == [] {
      assert h1 + h2 == h2;
    } else if h2 == [] {
      assert h1 + h2 == h1;
    } else {
      assert Get(row, e) + h1 + h2 == Get(row, e) + (h1 + h2);
    }
  }

  /** The innermost loop appends `s` once per line of the other file that starts with it. */
  lemma {:induction false} RowRule(row: Row, e: int, s: int, lines2: seq<Line>)
    ensures RowSpec(row, e, s, lines2) == AddHits(row, e, Rep(s, Count(Firsts(lines2), s)))
  {
    if |lines2| > 0 {
      var init := lines2[..|lines2| - 1];
      var last := lines2[|lines2| - 1];
      RowRule(row, e, s, init);
      var c0 := Count(Firsts(init), s);
      if |last| > 0 {
        CountSnoc(Firsts(init), last[0], s);
        if last[0] == s {
          AddHitsTwice(row, e, Rep(s, c0), [s]);
        }
      } else {
        assert Firsts(lines2) == Firsts(init);
      }
    }
  }

  lemma AllOkInit(regs: seq<Reg>)
    requires |regs| > 0 && AllOk(regs)
    ensures AllOk(regs[..|regs| - 1])
    ensures DistinctIds(regs) ==> DistinctIds(regs[..|regs| - 1])
  {
    assert forall j :: 0 <= j < |regs| - 1 ==> regs[..|regs| - 1][j] == regs[j];
  }

  lemma OtherIdsSnoc(regs: seq<Reg>, me: string)
    requires |regs| > 0 && AllOk(regs)
    ensures AllOk(regs[..|regs| - 1])
    ensures var last := regs[|regs| - 1];
      OtherIds(regs, me) == OtherIds(regs[..|regs| - 1], me) + (if last.name != me then {last.id.value} else {})
  {
    var init := regs[..|regs| - 1];
    AllOkInit(regs);
    assert forall j :: 0 <= j < |init| ==> init[j] == regs[j];
  }

  /** One pass over the other files: each other file's row gains its matches for `s`; nothing else changes. */
  lemma {:induction false} OthersRule(cA: RegionMap, regs: seq<Reg>, me: string, e: int, s: int)
    requires AllOk(regs) && DistinctIds(regs)
    ensures var R := OthersSpec(cA, regs, me, e, s);
      (forall K :: K in R <==> K in cA || K in OtherIds(regs, me)) &&
      (forall j :: 0 <= j < |regs| && regs[j].name != me ==>
        R[regs[j].id.value] == AddHits(GetRow(cA, regs[j].id.value), e, Rep(s, Count(Firsts(regs[j].lines), s)))) &&
      (forall K :: K in cA && K !in OtherIds(regs, me) ==> R[K] == cA[K])
  {
    if |regs| > 0 {
      var init := regs[..|regs| - 1];
      var g := regs[|regs| - 1];
      AllOkInit(regs);
      OtherIdsSnoc(regs, me);
      OthersRule(cA, init, me, e, s);
      var c := OthersSpec(cA, init, me, e, s);
      assert forall j :: 0 <= j < |init| ==> init[j] == regs[j];
      assert RegOk(regs[|regs| - 1]);
      if g.name != me {
        var id := g.id.value;
        assert id !in OtherIds(init, me);
        var row := if id in c then c[id] else map[];
        assert row == GetRow(cA, id);
        RowRule(row, e, s, g.lines);
      }
    }
  }

  /** The loop over the successors of edge `e`: each other file's row gains, under `e`, its hits for every successor in turn. */
  lemma {:induction false} NextsRule(cA: RegionMap, regs: seq<Reg>, me: string, e: int, nexts: seq<int>)
    requires AllOk(regs) && DistinctIds(regs)
    ensures var R := NextsSpec(cA, regs, me, e, nexts);
      (forall K :: K in R <==> K in cA || (|nexts| > 0 && K in OtherIds(regs, me))) &&
      (forall j :: 0 <= j < |regs| && regs[j].name != me ==>
        GetRow(R, regs[j].id.value) == AddHits(GetRow(cA, regs[j].id.value), e, Hits(nexts, Firsts(regs[j].lines)))) &&
      (forall K :: K in cA && K !in OtherIds(regs, me) ==> R[K] == cA[K])
  {
    if |nexts| > 0 {
      var init := nexts[..|nexts| - 1];
      var s := nexts[|nexts| - 1];
      NextsRule(cA, regs, me, e, init);
      var c := NextsSpec(cA, regs, me, e, init);
      OthersRule(c, regs, me, e, s);
      forall j | 0 <= j < |regs| && regs[j].name != me
        ensures GetRow(NextsSpec(cA, regs, me, e, nexts), regs[j].id.value) ==
          AddHits(GetRow(cA, regs[j].id.value), e, Hits(nexts, Firsts(regs[j].lines)))
      {
        var id := regs[j].id.value;
        var f := Firsts(regs[j].lines);
        assert id in OtherIds(regs, me);
        AddHitsTwice(GetRow(cA, id), e, Hits(init, f), Rep(s, Count(f, s)));
      }
    }
  }

  /** `row` holds, for every edge of `lines`, exactly what `Flat` says, and no edge whose `Flat` is empty. */
  ghost predicate RowMatches(row: Row, lines: seq<Line>, fB: seq<int>) {
    (forall e :: e in row <==> Flat(lines, e, fB) != []) &&
    (forall e :: e in row ==> row[e] == Flat(lines, e, fB))
  }

  /** The loop over region A's own lines, started from the empty map. */
  lemma {:induction false} LinesRule(regs: seq<Reg>, me: string, lines: seq<Line>)
    requires AllOk(regs) && DistinctIds(regs)
    ensures var R := LinesSpec(regs, me, lines);
      (forall K :: K in R <==> HasNext(lines) && K in OtherIds(regs, me)) &&
      (forall j :: 0 <= j < |regs| && regs[j].name != me ==>
        RowMatches(GetRow(R, regs[j].id.value), lines, Firsts(regs[j].lines)))
  {
    if |lines| > 0 {
      var init := lines[..|lines| - 1];
      var last := lines[|lines| - 1];
      LinesRule(regs, me, init);
      var c := LinesSpec(regs, me, init);
      HasNextSnoc(lines);
      if |last| == 0 {
        assert LinesSpec(regs, me, lines) == c;
        assert HasNext(lines) == HasNext(init);
        assert forall K :: K in c <==> HasNext(init) && K in OtherIds(regs, me);
        forall j | 0 <= j < |regs| && regs[j].name != me
          ensures RowMatches(GetRow(LinesSpec(regs, me, lines), regs[j].id.value), lines, Firsts(regs[j].lines))
        {
          BlankStep(GetRow(c, regs[j].id.value), lines, Firsts(regs[j].lines));
        }
      } else {
        NextsRule(c, regs, me, last[0], last[1..]);
        forall j | 0 <= j < |regs| && regs[j].name != me
          ensures RowMatches(GetRow(LinesSpec(regs, me, lines), regs[j].id.value), lines, Firsts(regs[j].lines))
        {
          LineStep(GetRow(c, regs[j].id.value), lines, Firsts(regs[j].lines));
        }
      }
    }
  }

  lemma HasNextSnoc(lines: seq<Line>)
    requires |lines| > 0
    ensures HasNext(lines) <==> HasNext(lines[..|lines| - 1]) || |lines[|lines| - 1]| > 1
  {
    var init := lines[..|lines| - 1];
    assert forall k :: 0 <= k < |init| ==> init[k] == lines[k];
  }

  lemma BlankStep(row: Row, lines: seq<Line>, fB: seq<int>)
    requires |lines| > 0 && |lines[|lines| - 1]| == 0 && RowMatches(row, lines[..|lines| - 1], fB)
    ensures RowMatches(row, lines, fB)
  {
  }

  lemma LineStep(row: Row, lines: seq<Line>, fB: seq<int>)
    requires |lines| > 0 && |lines[|lines| - 1]| > 0 && RowMatches(row, lines[..|lines| - 1], fB)
    ensures var last := lines[|lines| - 1];
      RowMatches(AddHits(row, last[0], Hits(last[1..], fB)), lines, fB)
  {
  }

  // ---------------------------------------------------------------- the outer loop and the whole map

  /** After the first `k` files every listed id has its entry, filled from its own file's lines. */
  lemma {:induction false} ConnUptoRule(regs: seq<Reg>, k: nat)
    requires k <= |regs| && AllOk(regs) && DistinctIds(regs)
    ensures var C := ConnUpto(regs, k);
      (forall K :: K in C <==> exists a :: 0 <= a < k && regs[a].id.value == K) &&
      (forall a :: 0 <= a < k ==> C[regs[a].id.value] == LinesSpec(regs, regs[a].name, regs[a].lines))
  {
    if k > 0 {
      ConnUptoRule(regs, k - 1);
      assert RegOk(regs[k - 1]);
    }
  }

  lemma {:induction false} FirstsRule(lines: seq<Line>)
    ensures forall x :: x in Firsts(lines) <==> exists k :: 0 <= k < |lines| && |lines[k]| > 0 && lines[k][0] == x
  {
    if |lines| > 0 {
      var init := lines[..|lines| - 1];
      FirstsRule(init);
      assert forall k :: 0 <= k < |init| ==> init[k] == lines[k];
    }
  }

  /** An edge that starts no line gets nothing. */
  lemma {:induction false} FlatOutside(lines: seq<Line>, e: int, fB: seq<int>)
    requires e !in Firsts(lines)
    ensures Flat(lines, e, fB) == []
  {
    if |lines| > 0 {
      var init := lines[..|lines| - 1];
      assert Firsts(lines) == Firsts(init) + (if |lines[|lines| - 1]| > 0 then [lines[|lines| - 1][0]] else []);
      FlatOutside(init, e, fB);
    }
  }

  /** A row that matches `Flat` edge by edge is the reference row. */
  lemma RowRefRule(row: Row, lines: seq<Line>, fB: seq<int>)
    requires RowMatches(row, lines, fB)
    ensures row == RowRef(lines, fB)
  {
    var ref := RowRef(lines, fB);
    forall e
      ensures e in row <==> e in ref
    {
      if e !in Firsts(lines) {
        FlatOutside(lines, e, fB);
      }
    }
    assert forall e :: e in row ==> row[e] == ref[e];
  }

  /** How often `s` follows `e` over the lines. */
  function Occ(lines: seq<Line>, e: int, s: int): nat {
    if |lines| == 0 then 0
    else
      var last := lines[|lines| - 1];
      Occ(lines[..|lines| - 1], e, s) + (if |last| > 0 && last[0] == e then Count(last[1..], s) else 0)
  }

  lemma CountApp(a: seq<int>, b: seq<int>, s: int)
    ensures Count(a + b, s) == Count(a, s) + Count(b, s)
  {
    if |b| > 0 {
      assert (a + b)[..|a + b| - 1] == a + b[..|b| - 1];
      CountApp(a, b[..|b| - 1], s);
    } else {
      assert a + b == a;
    }
  }

  lemma {:induction false} RepCount(x: int, n: nat, s: int)
    ensures Count(Rep(x, n), s) == if x == s then n else 0
  {
    if n > 0 {
      RepCount(x, n - 1, s);
      CountSnoc(Rep(x, n - 1), x, s);
    }
  }

  /** Every successor `s` gets one copy per line of B's file that starts with `s`. */
  lemma {:induction false} HitsCount(nexts: seq<int>, fB: seq<int>, s: int)
    ensures Count(Hits(nexts, fB), s) == Count(nexts, s) * Count(fB, s)
  {
    if |nexts| > 0 {
      var x := nexts[|nexts| - 1];
      var init := nexts[..|nexts| - 1];
      HitsCount(init, fB, s);
      CountApp(Hits(init, fB), Rep(x, Count(fB, x)), s);
      RepCount(x, Count(fB, x), s);
      var a, b := Count(init, s), Count(fB, s);
      assert Count(Hits(nexts, fB), s) == a * b + (if x == s then b else 0);
      assert Count(nexts, s) == a + (if x == s then 1 else 0);
      if x == s {
        Distrib(a, 1, b);
      }
    }
  }

  lemma Distrib(a: int, n: int, b: int)
    ensures (a + n) * b == a * b + n * b
  {
  }

  /**
   * Under edge `e`, successor `s` appears as many times as it follows `e` in
   * A's lines times the number of B's lines that start with `s`.
   */
  lemma {:induction false} FlatCount(lines: seq<Line>, e: int, fB: seq<int>, s: int)
    ensures Count(Flat(lines, e, fB), s) == Occ(lines, e, s) * Count(fB, s)
  {
    if |lines| > 0 {
      var init := lines[..|lines| - 1];
      var last := lines[|lines| - 1];
      FlatCount(init, e, fB, s);
      if |last| > 0 && last[0] == e {
        var a, n, b := Occ(init, e, s), Count(last[1..], s), Count(fB, s);
        CountApp(Flat(init, e, fB), Hits(last[1..], fB), s);
        HitsCount(last[1..], fB, s);
        assert Count(Flat(lines, e, fB), s) == a * b + n * b;
        Distrib(a, n, b);
        assert Occ(lines, e, s) == a + n;
      } else {
        assert Flat(lines, e, fB) == Flat(init, e, fB);
        assert Occ(lines, e, s) == Occ(init, e, s);
      }
    }
  }

  /**
   * Region A's entry: an entry for each other region B exactly when some
   * line of A has a successor, holding the reference row, and none for A.
   */
  lemma EntryRule(regs: seq<Reg>, a: nat)
    requires a < |regs| && AllOk(regs) && DistinctIds(regs)
    ensures var E := LinesSpec(regs, regs[a].name, regs[a].lines);
      (forall b :: 0 <= b < |regs| && regs[a].name != regs[b].name ==>
        (regs[b].id.value in E <==> HasNext(regs[a].lines)) &&
        (HasNext(regs[a].lines) ==> E[regs[b].id.value] == RowRef(regs[a].lines, Firsts(regs[b].lines)))) &&
      regs[a].id.value !in E
  {
    var me := regs[a].name;
    LinesRule(regs, me, regs[a].lines);
    assert forall K :: K in LinesSpec(regs, me, regs[a].lines) <==> HasNext(regs[a].lines) && K in OtherIds(regs, me);
    assert regs[a].id.value !in OtherIds(regs, me) by {
      forall j | 0 <= j < |regs| && regs[j].name != me
        ensures regs[j].id.value != regs[a].id.value
      {
        assert j != a;
      }
    }
    var ida := regs[a].id.value;
    assert ida in LinesSpec(regs, me, regs[a].lines) <==> HasNext(regs[a].lines) && ida in OtherIds(regs, me);
    assert ida !in OtherIds(regs, me);
    assert regs[a].id.value !in LinesSpec(regs, me, regs[a].lines);
    forall b | 0 <= b < |regs| && me != regs[b].name
      ensures (regs[b].id.value in LinesSpec(regs, me, regs[a].lines) <==> HasNext(regs[a].lines)) &&
        (HasNext(regs[a].lines) ==> LinesSpec(regs, me, regs[a].lines)[regs[b].id.value] == RowRef(regs[a].lines, Firsts(regs[b].lines)))
    {
      assert regs[b].id.value in OtherIds(regs, me);
      RowRefRule(GetRow(LinesSpec(regs, me, regs[a].lines), regs[b].id.value), regs[a].lines, Firsts(regs[b].lines));
    }
  }

  /** The map the outer loop leaves, over the parsed files. */
  lemma MapRule(regs: seq<Reg>)
    requires AllOk(regs) && DistinctIds(regs)
    ensures var C := ConnUpto(regs, |regs|);
      (forall K :: K in C <==> exists a :: 0 <= a < |regs| && regs[a].id.value == K) &&
      (forall a, b :: 0 <= a < |regs| && 0 <= b < |regs| && regs[a].name != regs[b].name ==>
        (regs[b].id.value in C[regs[a].id.value] <==> HasNext(regs[a].lines)) &&
        (HasNext(regs[a].lines) ==> C[regs[a].id.value][regs[b].id.value] == RowRef(regs[a].lines, Firsts(regs[b].lines)))) &&
      (forall a :: 0 <= a < |regs| ==> regs[a].id.value !in C[regs[a].id.value])
  {
    ConnUptoRule(regs, |regs|);
    var C := ConnUpto(regs, |regs|);
    forall a | 0 <= a < |regs|
      ensures var E := C[regs[a].id.value];
        (forall b :: 0 <= b < |regs| && regs[a].name != regs[b].name ==>
          (regs[b].id.value in E <==> HasNext(regs[a].lines)) &&
          (HasNext(regs[a].lines) ==> E[regs[b].id.value] == RowRef(regs[a].lines, Firsts(regs[b].lines)))) &&
        regs[a].id.value !in E
    {
      EntryRule(regs, a);
    }
  }
}

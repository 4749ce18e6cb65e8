/**
 * What the top leader's three stages add up to: the requests each region
 * receives, what the collection reads back from the workers, and where the
 * spanning paths come from.
 */
module CoordinatorFacts {
  import opened Wrappers
  import opened Seqs
  import opened Engine
  import Worker
  import Wire
  import PyStr
  import opened Span
  import opened SpanFacts
  import opened Coordinator

  /** Region ids are distinct: every regional leader announces itself once. */
  predicate DistinctIds(peers: seq<Peer>) {
    forall i, j :: 0 <= i < j < |peers| ==> peers[i].id != peers[j].id
  }

  /** The requests a region receives during collection. */
  function PeerMsgs(p: Peer): seq<Msg> {
    if Worker.Ready(p.reg) then [Msg(p.id, Worker.HomopathList), Msg(p.id, Worker.NumberOfObjs), Msg(p.id, Worker.TotalIntegers)]
    else [Msg(p.id, Worker.NumberOfObjs), Msg(p.id, Worker.Stop)]
  }

  /** The collection requests of all regions, region by region. */
  function AllMsgs(peers: seq<Peer>): seq<Msg> {
    if |peers| == 0 then [] else AllMsgs(peers[..|peers| - 1]) + PeerMsgs(peers[|peers| - 1])
  }

  /** The ids of the regions with homopaths, in order. */
  function ReadyIds(peers: seq<Peer>): (r: seq<int>)
    ensures |r| <= |peers|
    ensures forall x :: x in r <==> exists k :: 0 <= k < |peers| && peers[k].id == x && Worker.Ready(peers[k].reg)
  {
    if |peers| == 0 then []
    else
      var init := peers[..|peers| - 1];
      var last := peers[|peers| - 1];
      var r := ReadyIds(init) + (if Worker.Ready(last.reg) then [last.id] else []);
      assert forall k :: 0 <= k < |init| ==> init[k] == peers[k];
      r
  }

  /** The number of regions with homopaths. */
  function NReady(peers: seq<Peer>): nat {
    if |peers| == 0 then 0
    else NReady(peers[..|peers| - 1]) + (if Worker.Ready(peers[|peers| - 1].reg) then 1 else 0)
  }

  /** The union of the regions' object sets. */
  function AllObjs(peers: seq<Peer>): set<int> {
    if |peers| == 0 then {} else AllObjs(peers[..|peers| - 1]) + Elems(peers[|peers| - 1].reg.uniq)
  }

  /** Four bytes per integer the regions with homopaths received from their sensors. */
  function FirstLevelBytes(peers: seq<Peer>): int {
    if |peers| == 0 then 0
    else
      var last := peers[|peers| - 1];
      FirstLevelBytes(peers[..|peers| - 1]) + (if Worker.Ready(last.reg) then 4 * last.reg.integers else 0)
  }

  /**
   * One region: the collection fails exactly when the region has no objects
   * (`int('et(')` of `str(set())`), and otherwise reads back exactly what the
   * worker holds.
   */
  lemma StepFacts(hashed: bool, s: Gathered, p: Peer)
    ensures var r := Collect1(hashed, Ok(s), Expected(p));
      (r.Ok? <==> |p.reg.uniq| > 0) && (r.Err? ==> r.error == ValueError) &&
      (r.Ok? ==>
        r.value.ready == s.ready + (if Worker.Ready(p.reg) then [p.id] else []) &&
        r.value.trace == s.trace + PeerMsgs(p) &&
        r.value.total == s.total + Elems(p.reg.uniq) &&
        r.value.firstLevel == s.firstLevel + (if Worker.Ready(p.reg) then 4 * p.reg.integers else 0) &&
        r.value.hot == (if Worker.Ready(p.reg) then s.hot[p.id := Worker.PathsOnly(p.reg.table)] else s.hot) &&
        r.value.objOf == (if Worker.Ready(p.reg) then s.objOf[p.id := if hashed then {} else Elems(p.reg.uniq)]
                          else s.objOf))
  {
    if Worker.Ready(p.reg) {
      var m := Worker.PathsOnly(p.reg.table);
      if |p.reg.uniq| > 0 {
        assert Collect1(hashed, Ok(s), Expected(p)) == Ok(AddReady(hashed, s, p.id, m, p.reg.integers, Elems(p.reg.uniq)));
      }
    }
  }

  lemma {:induction false} CollectSame(hashed: bool, a: seq<Peer>, b: seq<Peer>, i: nat)
    requires i <= |a| && i <= |b| && a[..i] == b[..i]
    ensures CollectUpto(hashed, a, i) == CollectUpto(hashed, b, i)
  {
    if i > 0 {
      assert a[..i - 1] == b[..i - 1] by {
        assert a[..i - 1] == a[..i][..i - 1];
        assert b[..i - 1] == b[..i][..i - 1];
      }
      assert a[i - 1] == a[..i][i - 1] == b[..i][i - 1] == b[i - 1];
      CollectSame(hashed, a, b, i - 1);
    }
  }

  lemma CollectPrefix(hashed: bool, peers: seq<Peer>, i: nat)
    requires i <= |peers|
    ensures CollectUpto(hashed, peers, i) == CollectSpec(hashed, peers[..i])
  {
    CollectSame(hashed, peers, peers[..i], i);
  }

  lemma StepOk(hashed: bool, s: Gathered, p: Peer)
    ensures Collect1(hashed, Ok(s), Expected(p)).Ok? <==> |p.reg.uniq| > 0
    ensures Collect1(hashed, Ok(s), Expected(p)).Err? ==> Collect1(hashed, Ok(s), Expected(p)).error == ValueError
  {
    StepFacts(hashed, s, p);
  }

  /** Every one of the first `i` regions holds at least one object. */
  predicate HasObjsUpto(peers: seq<Peer>, i: nat)
    requires i <= |peers|
  {
    forall k :: 0 <= k < i ==> |peers[k].reg.uniq| > 0
  }

  lemma {:induction false} CollectOkUpto(hashed: bool, peers: seq<Peer>, i: nat)
    requires i <= |peers|
    ensures CollectUpto(hashed, peers, i).Ok? <==> HasObjsUpto(peers, i)
    ensures CollectUpto(hashed, peers, i).Err? ==> CollectUpto(hashed, peers, i).error == ValueError
  {
    if i > 0 {
      CollectOkUpto(hashed, peers, i - 1);
      var prev := CollectUpto(hashed, peers, i - 1);
      assert HasObjsUpto(peers, i) <==> HasObjsUpto(peers, i - 1) && |peers[i - 1].reg.uniq| > 0;
      if prev.Ok? {
        StepOk(hashed, prev.value, peers[i - 1]);
      }
    }
  }

  /** The whole collection stage succeeds exactly when every region has at least one object. */
  lemma CollectOk(hashed: bool, peers: seq<Peer>)
    ensures CollectSpec(hashed, peers).Ok? <==> forall k :: 0 <= k < |peers| ==> |peers[k].reg.uniq| > 0
    ensures CollectSpec(hashed, peers).Err? ==> CollectSpec(hashed, peers).error == ValueError
  {
    CollectOkUpto(hashed, peers, |peers|);
    assert HasObjsUpto(peers, |peers|) <==> forall k :: 0 <= k < |peers| ==> |peers[k].reg.uniq| > 0;
  }

  /**
   * After a successful collection the coordinator holds the ready regions in
   * order, the union of all object sets, the first-level byte count and the
   * collection requests, and it keeps paths and objects for the ready regions.
   */
  lemma {:induction false} CollectFacts(hashed: bool, peers: seq<Peer>)
    requires CollectSpec(hashed, peers).Ok?
    ensures var g := CollectSpec(hashed, peers).value;
      g.ready == ReadyIds(peers) && g.trace == AllMsgs(peers) && g.total == AllObjs(peers) &&
      g.firstLevel == FirstLevelBytes(peers) && g.hot.Keys == Elems(g.ready) && g.objOf.Keys == Elems(g.ready)
    decreases |peers|
  {
    if |peers| > 0 {
      var init := peers[..|peers| - 1];
      var last := peers[|peers| - 1];
      CollectPrefix(hashed, peers, |peers| - 1);
      var prev := CollectSpec(hashed, init);
      assert prev.Ok?;
      CollectFacts(hashed, init);
      StepFacts(hashed, prev.value, last);
      assert CollectSpec(hashed, peers) == Collect1(hashed, Ok(prev.value), Expected(last));
      FactsStep(hashed, peers, prev.value, CollectSpec(hashed, peers).value);
    }
  }

  /** The summary of `CollectFacts` carried over one region, on the gathered values alone. */
  lemma FactsStep(hashed: bool, peers: seq<Peer>, s: Gathered, r: Gathered)
    requires |peers| > 0
    requires var init := peers[..|peers| - 1];
      s.ready == ReadyIds(init) && s.trace == AllMsgs(init) && s.total == AllObjs(init) &&
      s.firstLevel == FirstLevelBytes(init) && s.hot.Keys == Elems(s.ready) && s.objOf.Keys == Elems(s.ready)
    requires var p := peers[|peers| - 1];
      r.ready == s.ready + (if Worker.Ready(p.reg) then [p.id] else []) &&
      r.trace == s.trace + PeerMsgs(p) &&
      r.total == s.total + Elems(p.reg.uniq) &&
      r.firstLevel == s.firstLevel + (if Worker.Ready(p.reg) then 4 * p.reg.integers else 0) &&
      r.hot == (if Worker.Ready(p.reg) then s.hot[p.id := Worker.PathsOnly(p.reg.table)] else s.hot) &&
      r.objOf == (if Worker.Ready(p.reg) then s.objOf[p.id := if hashed then {} else Elems(p.reg.uniq)] else s.objOf)
    ensures r.ready == ReadyIds(peers) && r.trace == AllMsgs(peers) && r.total == AllObjs(peers) &&
      r.firstLevel == FirstLevelBytes(peers) && r.hot.Keys == Elems(r.ready) && r.objOf.Keys == Elems(r.ready)
  {
    var p := peers[|peers| - 1];
    SumsStep(peers);
    KeysStep(s.ready, r.ready, s.hot, r.hot, p.id, Worker.Ready(p.reg), Worker.PathsOnly(p.reg.table));
    KeysStep(s.ready, r.ready, s.objOf, r.objOf, p.id, Worker.Ready(p.reg), if hashed then {} else Elems(p.reg.uniq));
  }

  /** The four summaries over one more region. */
  lemma SumsStep(peers: seq<Peer>)
    requires |peers| > 0
    ensures var init, p := peers[..|peers| - 1], peers[|peers| - 1];
      ReadyIds(peers) == ReadyIds(init) + (if Worker.Ready(p.reg) then [p.id] else []) &&
      AllMsgs(peers) == AllMsgs(init) + PeerMsgs(p) &&
      AllObjs(peers) == AllObjs(init) + Elems(p.reg.uniq) &&
      FirstLevelBytes(peers) == FirstLevelBytes(init) + (if Worker.Ready(p.reg) then 4 * p.reg.integers else 0)
  {
  }

  /** A dictionary keyed by the ready ids stays so when a ready id is added with its entry. */
  lemma KeysStep<V>(ready: seq<int>, ready': seq<int>, m: map<int, V>, m': map<int, V>, id: int, add: bool, v: V)
    requires m.Keys == Elems(ready)
    requires ready' == ready + (if add then [id] else [])
    requires m' == if add then m[id := v] else m
    ensures m'.Keys == Elems(ready')
  {
    if add {
      ElemsSnoc(ready, id);
    }
  }

  // ---------------------------------------------------------------- the request trace

  /** The requests sent to region `id`, in order. */
  function Sent(trace: seq<Msg>, id: int): seq<Worker.Request> {
    if |trace| == 0 then []
    else Sent(trace[..|trace| - 1], id) + (if trace[|trace| - 1].to == id then [trace[|trace| - 1].req] else [])
  }

  lemma {:induction false} SentAppend(a: seq<Msg>, b: seq<Msg>, id: int)
    ensures Sent(a + b, id) == Sent(a, id) + Sent(b, id)
    decreases |b|
  {
    if |b| > 0 {
      assert (a + b)[..|a + b| - 1] == a + b[..|b| - 1];
      SentAppend(a, b[..|b| - 1], id);
    } else {
      assert a + b == a;
    }
  }

  /** What a region receives during collection. */
  function CollectReqs(p: Peer): seq<Worker.Request> {
    if Worker.Ready(p.reg) then [Worker.HomopathList, Worker.NumberOfObjs, Worker.TotalIntegers]
    else [Worker.NumberOfObjs, Worker.Stop]
  }

  lemma SentOne(x: Msg, id: int)
    ensures Sent([x], id) == if x.to == id then [x.req] else []
  {
    assert [x][..0] == [];
  }

  lemma PeerSent(p: Peer, id: int)
    ensures Sent(PeerMsgs(p), id) == if id == p.id then CollectReqs(p) else []
  {
    var a := Msg(p.id, Worker.NumberOfObjs);
    if Worker.Ready(p.reg) {
      var h := Msg(p.id, Worker.HomopathList);
      var t := Msg(p.id, Worker.TotalIntegers);
      assert PeerMsgs(p) == [h] + [a] + [t];
      SentAppend([h] + [a], [t], id);
      SentAppend([h], [a], id);
      SentOne(h, id);
      SentOne(a, id);
      SentOne(t, id);
    } else {
      var z := Msg(p.id, Worker.Stop);
      assert PeerMsgs(p) == [a] + [z];
      SentAppend([a], [z], id);
      SentOne(a, id);
      SentOne(z, id);
    }
  }

  /** With distinct ids, the collection requests to one region are that region's own. */
  lemma {:induction false} AllSent(peers: seq<Peer>, id: int)
    requires DistinctIds(peers)
    ensures (forall k :: 0 <= k < |peers| ==> peers[k].id != id) ==> Sent(AllMsgs(peers), id) == []
    ensures forall k :: 0 <= k < |peers| && peers[k].id == id ==> Sent(AllMsgs(peers), id) == CollectReqs(peers[k])
    decreases |peers|
  {
    if |peers| > 0 {
      var init := peers[..|peers| - 1];
      var last := peers[|peers| - 1];
      assert DistinctIds(init);
      AllSent(init, id);
      SentAppend(AllMsgs(init), PeerMsgs(last), id);
      PeerSent(last, id);
      var s := Sent(AllMsgs(peers), id);
      assert s == Sent(AllMsgs(init), id) + Sent(PeerMsgs(last), id);
      forall k | 0 <= k < |peers| && peers[k].id == id ensures s == CollectReqs(peers[k]) {
        if k < |init| {
          assert init[k] == peers[k];
          assert last.id != id;
        } else {
          forall j | 0 <= j < |init| ensures init[j].id != id {
            assert init[j] == peers[j];
          }
        }
      }
      if forall k :: 0 <= k < |peers| ==> peers[k].id != id {
        assert last.id != id;
        forall j | 0 <= j < |init| ensures init[j].id != id {
          assert init[j] == peers[j];
        }
      }
    }
  }

  lemma StopsAppend(a: seq<int>, b: seq<int>)
    ensures Stops(a + b) == Stops(a) + Stops(b)
  {
  }

  lemma StopsSentLast(peers: seq<Peer>, id: int)
    requires |peers| > 0
    ensures var last := peers[|peers| - 1];
      Sent(Stops(ReadyIds(peers)), id) ==
        Sent(Stops(ReadyIds(peers[..|peers| - 1])), id) +
        (if Worker.Ready(last.reg) && last.id == id then [Worker.Stop] else [])
  {
    var init := peers[..|peers| - 1];
    var last := peers[|peers| - 1];
    var tail: seq<int> := if Worker.Ready(last.reg) then [last.id] else [];
    assert ReadyIds(peers) == ReadyIds(init) + tail;
    StopsAppend(ReadyIds(init), tail);
    SentAppend(Stops(ReadyIds(init)), Stops(tail), id);
    if Worker.Ready(last.reg) {
      assert Stops(tail) == [Msg(last.id, Worker.Stop)];
      assert Stops(tail)[..0] == [];
    }
  }

  lemma {:induction false} StopsSent(peers: seq<Peer>, id: int)
    requires DistinctIds(peers)
    ensures (forall k :: 0 <= k < |peers| ==> peers[k].id != id) ==> Sent(Stops(ReadyIds(peers)), id) == []
    ensures forall k :: 0 <= k < |peers| && peers[k].id == id ==>
      Sent(Stops(ReadyIds(peers)), id) == if Worker.Ready(peers[k].reg) then [Worker.Stop] else []
    decreases |peers|
  {
    if |peers| > 0 {
      var init := peers[..|peers| - 1];
      assert forall k :: 0 <= k < |init| ==> init[k] == peers[k];
      StopsSent(init, id);
      StopsSentLast(peers, id);
    }
  }

  lemma {:induction false} ReadyCount(peers: seq<Peer>)
    ensures |ReadyIds(peers)| == NReady(peers)
    decreases |peers|
  {
    if |peers| > 0 {
      ReadyCount(peers[..|peers| - 1]);
    }
  }

  /**
   * The request trace: a region without homopaths receives 4 and then "[-1]";
   * a region with homopaths receives 3, 4 and 5 during collection and "[-1]"
   * after spanning.  Either way it is closed exactly once, and the result is
   * the number of regions with homopaths.
   */
  lemma TraceRule(ctx: SpanCtx, hashed: bool, perms: int, peers: seq<Peer>, k: nat)
    requires DistinctIds(peers) && k < |peers|
    requires CoordinatorSpec(ctx, hashed, perms, peers).Ok?
    ensures var o := CoordinatorSpec(ctx, hashed, perms, peers).value;
      Sent(o.trace, peers[k].id) ==
        (if Worker.Ready(peers[k].reg)
         then [Worker.HomopathList, Worker.NumberOfObjs, Worker.TotalIntegers, Worker.Stop]
         else [Worker.NumberOfObjs, Worker.Stop]) &&
      o.result == NReady(peers)
  {
    SpecOutcome(ctx, hashed, perms, peers);
    CollectTrace(hashed, peers, k);
  }

  /** The outcome's trace and result come from the collection stage. */
  lemma SpecOutcome(ctx: SpanCtx, hashed: bool, perms: int, peers: seq<Peer>)
    requires CoordinatorSpec(ctx, hashed, perms, peers).Ok?
    ensures CollectSpec(hashed, peers).Ok?
    ensures var o := CoordinatorSpec(ctx, hashed, perms, peers).value;
      var g := CollectSpec(hashed, peers).value;
      o.trace == g.trace + Stops(g.ready) && o.result == |g.ready|
  {
  }

  /** The requests of one region over collection and termination. */
  lemma CollectTrace(hashed: bool, peers: seq<Peer>, k: nat)
    requires DistinctIds(peers) && k < |peers|
    requires CollectSpec(hashed, peers).Ok?
    ensures var g := CollectSpec(hashed, peers).value;
      Sent(g.trace + Stops(g.ready), peers[k].id) ==
        (if Worker.Ready(peers[k].reg)
         then [Worker.HomopathList, Worker.NumberOfObjs, Worker.TotalIntegers, Worker.Stop]
         else [Worker.NumberOfObjs, Worker.Stop]) &&
      |g.ready| == NReady(peers)
  {
    var g := CollectSpec(hashed, peers).value;
    CollectFacts(hashed, peers);
    var id := peers[k].id;
    SentAppend(g.trace, Stops(g.ready), id);
    AllSent(peers, id);
    StopsSent(peers, id);
    ReadyCount(peers);
  }

  lemma OneStop(r: seq<Worker.Request>)
    requires r == [Worker.HomopathList, Worker.NumberOfObjs, Worker.TotalIntegers, Worker.Stop] ||
             r == [Worker.NumberOfObjs, Worker.Stop]
    ensures Count(r, Worker.Stop) == 1
  {
    if |r| == 4 {
      assert r[..3][..2][..1] == [Worker.HomopathList];
      assert Count(r[..3][..2], Worker.Stop) == 0;
      assert Count(r[..3], Worker.Stop) == 0;
    } else {
      assert r[..1] == [Worker.NumberOfObjs];
      assert Count(r[..1], Worker.Stop) == 0;
    }
  }

  /** Every region is closed exactly once. */
  lemma ClosedOnce(ctx: SpanCtx, hashed: bool, perms: int, peers: seq<Peer>, k: nat)
    requires DistinctIds(peers) && k < |peers|
    requires CoordinatorSpec(ctx, hashed, perms, peers).Ok?
    ensures Count(Sent(CoordinatorSpec(ctx, hashed, perms, peers).value.trace, peers[k].id), Worker.Stop) == 1
  {
    TraceRule(ctx, hashed, perms, peers, k);
    OneStop(Sent(CoordinatorSpec(ctx, hashed, perms, peers).value.trace, peers[k].id));
  }

  // ---------------------------------------------------------------- the flattened pair loops

  /** `p` is a path of region `x` under one of the lengths `lens`. */
  ghost predicate FromLens(g: Gathered, x: int, lens: seq<int>, p: seq<int>) {
    exists len :: len in lens && p in Bucket(HotOf(g, x), len)
  }

  /** The denominator and the two tables a pair job of (A, B) carries. */
  predicate Fits(hashed: bool, perms: int, g: Gathered, peers: seq<Peer>, j: Job) {
    j.nobj == Nobj(hashed, perms, g, j.a, j.b) && j.ta == TableOf(peers, j.a) && j.tb == TableOf(peers, j.b)
  }

  /**
   * A pair of the spanning step: two different regions with homopaths, a
   * path of A and a path of B, each under a length > 0 with a non-empty list.
   */
  ghost predicate PairOf(hashed: bool, perms: int, g: Gathered, peers: seq<Peer>, j: Job) {
    j.a in g.ready && j.b in g.ready && j.a != j.b && Fits(hashed, perms, g, peers, j) &&
    FromLens(g, j.a, Lens(HotOf(g, j.a)), j.p1) && FromLens(g, j.b, Lens(HotOf(g, j.b)), j.p2)
  }

  lemma {:induction false} RowIn(a: int, b: int, nobj: int, p1: seq<int>, ps2: seq<seq<int>>, ta: Table, tb: Table, j: Job)
    ensures Pair(j) in Row(a, b, nobj, p1, ps2, ta, tb) <==> j == Job(a, b, nobj, p1, j.p2, ta, tb) && j.p2 in ps2
    decreases |ps2|
  {
    if |ps2| > 0 {
      RowIn(a, b, nobj, p1, ps2[1..], ta, tb, j);
      assert j.p2 in ps2 <==> j.p2 == ps2[0] || j.p2 in ps2[1..];
    }
  }

  lemma {:induction false} GridIn(a: int, b: int, nobj: int, ps1: seq<seq<int>>, ps2: seq<seq<int>>, ta: Table, tb: Table, j: Job)
    ensures Pair(j) in Grid(a, b, nobj, ps1, ps2, ta, tb) <==>
            j == Job(a, b, nobj, j.p1, j.p2, ta, tb) && j.p1 in ps1 && j.p2 in ps2
    decreases |ps1|
  {
    if |ps1| > 0 {
      GridIn(a, b, nobj, ps1[1..], ps2, ta, tb, j);
      RowIn(a, b, nobj, ps1[0], ps2, ta, tb, j);
      assert j.p1 in ps1 <==> j.p1 == ps1[0] || j.p1 in ps1[1..];
    }
  }

  lemma {:induction false} AgainstBIn(g: Gathered, a: int, b: int, nobj: int, ps1: seq<seq<int>>, lens: seq<int>,
                                      ta: Table, tb: Table, j: Job)
    ensures Pair(j) in AgainstB(g, a, b, nobj, ps1, lens, ta, tb) <==>
            j == Job(a, b, nobj, j.p1, j.p2, ta, tb) && j.p1 in ps1 && FromLens(g, b, lens, j.p2)
    decreases |lens|
  {
    if |lens| > 0 {
      AgainstBIn(g, a, b, nobj, ps1, lens[1..], ta, tb, j);
      GridIn(a, b, nobj, ps1, Bucket(HotOf(g, b), lens[0]), ta, tb, j);
      if FromLens(g, b, lens, j.p2) {
        var len :| len in lens && j.p2 in Bucket(HotOf(g, b), len);
        if len != lens[0] {
          assert len in lens[1..];
        }
      }
      if FromLens(g, b, lens[1..], j.p2) {
        var len :| len in lens[1..] && j.p2 in Bucket(HotOf(g, b), len);
        assert len in lens;
      }
    }
  }

  lemma ItemsBIn(hashed: bool, perms: int, g: Gathered, peers: seq<Peer>, a: int, len: int, b: int, j: Job)
    ensures Pair(j) in ItemsB(hashed, perms, g, peers, a, len, b) <==>
            b != a && j.a == a && j.b == b && Fits(hashed, perms, g, peers, j) &&
            j.p1 in Bucket(HotOf(g, a), len) && FromLens(g, b, Lens(HotOf(g, b)), j.p2)
  {
    if b != a {
      AgainstBIn(g, a, b, Nobj(hashed, perms, g, a, b), Bucket(HotOf(g, a), len), Lens(HotOf(g, b)),
                 TableOf(peers, a), TableOf(peers, b), j);
    }
  }

  lemma {:induction false} OverBsIn(hashed: bool, perms: int, g: Gathered, peers: seq<Peer>, a: int, len: int,
                                    bs: seq<int>, j: Job)
    ensures Pair(j) in OverBs(hashed, perms, g, peers, a, len, bs) <==>
            j.a == a && j.b in bs && j.b != a && Fits(hashed, perms, g, peers, j) &&
            j.p1 in Bucket(HotOf(g, a), len) && FromLens(g, j.b, Lens(HotOf(g, j.b)), j.p2)
    decreases |bs|
  {
    if |bs| > 0 {
      OverBsIn(hashed, perms, g, peers, a, len, bs[1..], j);
      ItemsBIn(hashed, perms, g, peers, a, len, bs[0], j);
      assert j.b in bs <==> j.b == bs[0] || j.b in bs[1..];
    }
  }

  lemma {:induction false} OverLensIn(hashed: bool, perms: int, g: Gathered, peers: seq<Peer>, a: int,
                                      lens: seq<int>, j: Job)
    ensures Pair(j) in OverLens(hashed, perms, g, peers, a, lens) <==>
            j.a == a && j.b in g.ready && j.b != a && Fits(hashed, perms, g, peers, j) &&
            FromLens(g, a, lens, j.p1) && FromLens(g, j.b, Lens(HotOf(g, j.b)), j.p2)
    decreases |lens|
  {
    if |lens| > 0 {
      OverLensIn(hashed, perms, g, peers, a, lens[1..], j);
      OverBsIn(hashed, perms, g, peers, a, lens[0], g.ready, j);
      if FromLens(g, a, lens, j.p1) {
        var len :| len in lens && j.p1 in Bucket(HotOf(g, a), len);
        if len != lens[0] {
          assert len in lens[1..];
        }
      }
      if FromLens(g, a, lens[1..], j.p1) {
        var len :| len in lens[1..] && j.p1 in Bucket(HotOf(g, a), len);
        assert len in lens;
      }
    }
  }

  lemma {:induction false} OverAsIn(hashed: bool, perms: int, g: Gathered, peers: seq<Peer>, as_: seq<int>, j: Job)
    ensures Pair(j) in OverAs(hashed, perms, g, peers, as_) <==>
            j.a in as_ && j.b in g.ready && j.a != j.b && Fits(hashed, perms, g, peers, j) &&
            FromLens(g, j.a, Lens(HotOf(g, j.a)), j.p1) && FromLens(g, j.b, Lens(HotOf(g, j.b)), j.p2)
    decreases |as_|
  {
    if |as_| > 0 {
      OverAsIn(hashed, perms, g, peers, as_[1..], j);
      OverLensIn(hashed, perms, g, peers, as_[0], Lens(HotOf(g, as_[0])), j);
      assert j.a in as_ <==> j.a == as_[0] || j.a in as_[1..];
    }
  }

  /**
   * The flattened loops visit exactly the pairs of the spanning step: every
   * (A, B, p1, p2) with A ≠ B both with homopaths, p1 a path of A and p2 a
   * path of B under lengths > 0, and nothing else.
   */
  lemma ItemsIn(hashed: bool, perms: int, g: Gathered, peers: seq<Peer>, j: Job)
    ensures Pair(j) in Items(hashed, perms, g, peers) <==> PairOf(hashed, perms, g, peers, j)
  {
    OverAsIn(hashed, perms, g, peers, g.ready, j);
  }

  // ---------------------------------------------------------------- the spanning stage

  /** With at most one region holding homopaths the spanning step is skipped. */
  lemma NoSpanBelowTwo(ctx: SpanCtx, hashed: bool, perms: int, peers: seq<Peer>)
    requires CollectSpec(hashed, peers).Ok? && NReady(peers) <= 1
    ensures CoordinatorSpec(ctx, hashed, perms, peers).Ok?
    ensures CoordinatorSpec(ctx, hashed, perms, peers).value.hom == map[]
    ensures CoordinatorSpec(ctx, hashed, perms, peers).value.spans == []
  {
    CollectFacts(hashed, peers);
    ReadyCount(peers);
  }

  /**
   * `s` extends a path of region A by a non-empty prefix of a path of
   * region B, for a linked pair of the spanning step.
   */
  ghost predicate Spanned(ctx: SpanCtx, hashed: bool, perms: int, g: Gathered, peers: seq<Peer>, s: seq<int>) {
    exists j, n :: PairOf(hashed, perms, g, peers, j) && 1 <= n <= |j.p2| &&
      LinkOf(ctx.variant, ctx.conn, j.a, j.b, j.p1, j.p2) == Ok(Extend) && s == j.p1 + j.p2[..n]
  }

  /** Every spanning path comes from a linked pair of two different regions. */
  lemma SpanOrigin(ctx: SpanCtx, hashed: bool, perms: int, peers: seq<Peer>)
    requires CoordinatorSpec(ctx, hashed, perms, peers).Ok?
    ensures var g := CollectSpec(hashed, peers).value;
            var o := CoordinatorSpec(ctx, hashed, perms, peers).value;
            forall k :: 0 <= k < |o.spans| ==> Spanned(ctx, hashed, perms, g, peers, o.spans[k])
  {
    var g := CollectSpec(hashed, peers).value;
    var o := CoordinatorSpec(ctx, hashed, perms, peers).value;
    if |g.ready| > 1 {
      var items := Items(hashed, perms, g, peers);
      forall i | 0 <= i < |items| && items[i].Pair?
        ensures items[i].job.a != items[i].job.b
      {
        assert items[i] in items;
        ItemsIn(hashed, perms, g, peers, items[i].job);
      }
      SpansFromJobs(ctx, items, Empty(), |items|);
      forall k | 0 <= k < |o.spans|
        ensures Spanned(ctx, hashed, perms, g, peers, o.spans[k])
      {
        assert FromLinked(ctx, items, |items|, o.spans[k]);
        var i, n :| 0 <= i < |items| && items[i].Pair? && 1 <= n <= |items[i].job.p2| &&
          LinkOf(ctx.variant, ctx.conn, items[i].job.a, items[i].job.b, items[i].job.p1, items[i].job.p2) == Ok(Extend) &&
          o.spans[k] == items[i].job.p1 + items[i].job.p2[..n];
        assert items[i] in items;
        ItemsIn(hashed, perms, g, peers, items[i].job);
      }
    }
  }

  // ---------------------------------------------------------------- pairs in the regions' own terms

  /** `p` is a path of the table under a length > 0. */
  ghost predicate InTable(t: Table, p: seq<int>) {
    exists len, i :: len in t && len > 0 && 0 <= i < |t[len]| && t[len][i].path == p
  }

  /** A region with homopaths is kept with exactly the paths and objects its worker holds. */
  lemma {:induction false} HotUpto(hashed: bool, peers: seq<Peer>, i: nat, k: nat)
    requires DistinctIds(peers) && k < i <= |peers|
    requires CollectUpto(hashed, peers, i).Ok? && Worker.Ready(peers[k].reg)
    ensures var g := CollectUpto(hashed, peers, i).value;
            peers[k].id in g.hot && g.hot[peers[k].id] == Worker.PathsOnly(peers[k].reg.table) &&
            peers[k].id in g.objOf && g.objOf[peers[k].id] == (if hashed then {} else Elems(peers[k].reg.uniq))
  {
    if k < i - 1 {
      CollectPrev(hashed, peers, i);
      HotUpto(hashed, peers, i - 1, k);
      HotKeep(hashed, peers, i, k);
    } else {
      HotHere(hashed, peers, i);
    }
  }

  lemma CollectPrev(hashed: bool, peers: seq<Peer>, i: nat)
    requires 0 < i <= |peers| && CollectUpto(hashed, peers, i).Ok?
    ensures CollectUpto(hashed, peers, i - 1).Ok?
  {
  }

  /** The region collected last is kept with its paths and objects. */
  lemma HotHere(hashed: bool, peers: seq<Peer>, i: nat)
    requires 0 < i <= |peers|
    requires CollectUpto(hashed, peers, i).Ok? && Worker.Ready(peers[i - 1].reg)
    ensures var g := CollectUpto(hashed, peers, i).value;
            peers[i - 1].id in g.hot && g.hot[peers[i - 1].id] == Worker.PathsOnly(peers[i - 1].reg.table) &&
            peers[i - 1].id in g.objOf && g.objOf[peers[i - 1].id] == (if hashed then {} else Elems(peers[i - 1].reg.uniq))
  {
    var prev := CollectUpto(hashed, peers, i - 1);
    StepHot(hashed, prev.value, peers[i - 1]);
  }

  /** A later region with another id leaves what is kept for an earlier one. */
  lemma HotKeep(hashed: bool, peers: seq<Peer>, i: nat, k: nat)
    requires DistinctIds(peers) && k < i - 1 && i <= |peers|
    requires CollectUpto(hashed, peers, i).Ok?
    requires var g := CollectUpto(hashed, peers, i - 1).value;
      CollectUpto(hashed, peers, i - 1).Ok? && peers[k].id in g.hot && peers[k].id in g.objOf
    ensures var g := CollectUpto(hashed, peers, i).value;
            var h := CollectUpto(hashed, peers, i - 1).value;
            peers[k].id in g.hot && g.hot[peers[k].id] == h.hot[peers[k].id] &&
            peers[k].id in g.objOf && g.objOf[peers[k].id] == h.objOf[peers[k].id]
  {
    var prev := CollectUpto(hashed, peers, i - 1);
    assert peers[k].id != peers[i - 1].id;
    StepHot(hashed, prev.value, peers[i - 1]);
  }

  /** What one collection step does to the kept paths and objects. */
  lemma StepHot(hashed: bool, s: Gathered, p: Peer)
    requires Collect1(hashed, Ok(s), Expected(p)).Ok?
    ensures var r := Collect1(hashed, Ok(s), Expected(p)).value;
      r.hot == (if Worker.Ready(p.reg) then s.hot[p.id := Worker.PathsOnly(p.reg.table)] else s.hot) &&
      r.objOf == (if Worker.Ready(p.reg) then s.objOf[p.id := if hashed then {} else Elems(p.reg.uniq)] else s.objOf)
  {
    StepFacts(hashed, s, p);
  }

  /** With distinct ids, the table of region `peers[k].id` is that peer's table. */
  lemma {:induction false} TableOfPeer(peers: seq<Peer>, k: nat)
    requires DistinctIds(peers) && k < |peers|
    ensures TableOf(peers, peers[k].id) == peers[k].reg.table
  {
    if k > 0 {
      assert peers[1..][k - 1] == peers[k];
      TableOfPeer(peers[1..], k - 1);
    }
  }

  /** The lengths the pair loops visit reach exactly the table's paths under a length > 0. */
  lemma LensTable(g: Gathered, x: int, t: Table, p: seq<int>)
    requires x in g.hot && g.hot[x] == Worker.PathsOnly(t)
    ensures FromLens(g, x, Lens(HotOf(g, x)), p) <==> InTable(t, p)
  {
    var m := HotOf(g, x);
    if FromLens(g, x, Lens(m), p) {
      var len :| len in Lens(m) && p in Bucket(m, len);
      var i :| 0 <= i < |m[len]| && m[len][i] == p;
      assert t[len][i].path == p;
    }
    if InTable(t, p) {
      var len, i :| len in t && len > 0 && 0 <= i < |t[len]| && t[len][i].path == p;
      assert m[len][i] == p;
      assert len in Lens(m);
    }
  }

  /**
   * The spanning step pairs regions `peers[ka]` and `peers[kb]` exactly when
   * both have homopaths and are different; `p1` and `p2` range over their
   * paths under lengths > 0; the job carries their two tables and, raw, the
   * number of objects both regions hold (hashed, the number of permutations).
   */
  lemma ItemsPeers(hashed: bool, perms: int, peers: seq<Peer>, j: Job, ka: nat, kb: nat)
    requires DistinctIds(peers) && CollectSpec(hashed, peers).Ok?
    requires ka < |peers| && kb < |peers| && j.a == peers[ka].id && j.b == peers[kb].id
    ensures Pair(j) in Items(hashed, perms, CollectSpec(hashed, peers).value, peers) <==>
      ka != kb && Worker.Ready(peers[ka].reg) && Worker.Ready(peers[kb].reg) &&
      InTable(peers[ka].reg.table, j.p1) && InTable(peers[kb].reg.table, j.p2) &&
      j.ta == peers[ka].reg.table && j.tb == peers[kb].reg.table &&
      j.nobj == (if hashed then perms else |Elems(peers[ka].reg.uniq) * Elems(peers[kb].reg.uniq)|)
  {
    var g := CollectSpec(hashed, peers).value;
    CollectFacts(hashed, peers);
    ItemsIn(hashed, perms, g, peers, j);
    TableOfPeer(peers, ka);
    TableOfPeer(peers, kb);
    assert j.a in g.ready <==> Worker.Ready(peers[ka].reg) by {
      if j.a in g.ready {
        var k :| 0 <= k < |peers| && peers[k].id == j.a && Worker.Ready(peers[k].reg);
        assert k == ka;
      }
    }
    assert j.b in g.ready <==> Worker.Ready(peers[kb].reg) by {
      if j.b in g.ready {
        var k :| 0 <= k < |peers| && peers[k].id == j.b && Worker.Ready(peers[k].reg);
        assert k == kb;
      }
    }
    assert j.a != j.b <==> ka != kb;
    if Worker.Ready(peers[ka].reg) && Worker.Ready(peers[kb].reg) {
      HotUpto(hashed, peers, |peers|, ka);
      HotUpto(hashed, peers, |peers|, kb);
      LensTable(g, j.a, peers[ka].reg.table, j.p1);
      LensTable(g, j.b, peers[kb].reg.table, j.p2);
    }
  }
}

/**
 * The top leader, `start_Top_leader` (Code/homopa.py; the older copy
 * Code/HoMoPaD/homopa.py has the same stages):
 *
 *  1. collection: for every region, in the order the regions announced
 *     themselves, ask a region with homopaths for its paths (request 3), its
 *     object set (4) and its integer count (5); ask any other region only for
 *     its object set and then close it ("[-1]");
 *  2. spanning, when at least two regions have homopaths (module Span);
 *  3. termination: close every region with homopaths, in order; the result
 *     is the number of such regions.
 *
 * A region is a `Peer`: its id and the worker that answers for it
 * (Worker.Answer).  The messages of stages 1 and 3 are recorded in a trace.
 */
module Coordinator {
  import opened Wrappers
  import opened Seqs
  import opened Engine
  import Worker
  import Wire
  import PyStr
  import opened Span

  datatype Peer = Peer(id: int, reg: Worker.Region)

  /** A request sent to region `to`. */
  datatype Msg = Msg(to: int, req: Worker.Request)

  /**
   * What stage 1 gathers: the regions with homopaths, in order
   * (`all_hot_paths`' keys), their paths by length, `objOfRegion`,
   * `totalUniqObjs`, `first_level_total_integers`, and the messages sent.
   */
  datatype Gathered = Gathered(ready: seq<int>, hot: map<int, map<int, seq<seq<int>>>>,
                               objOf: map<int, set<int>>, total: set<int>,
                               firstLevel: int, trace: seq<Msg>)

  /** What the top leader ends with. */
  datatype Outcome = Outcome(hom: Hom, spans: seq<seq<int>>, total: set<int>, firstLevel: int,
                             trace: seq<Msg>, result: int)

  // ---------------------------------------------------------------- stage 1

  /** `{int(k): v for k, v in reply.items()}`: only a dictionary reply has items. */
  function PathsReply(r: Result<Worker.Reply>): Result<map<int, seq<seq<int>>>> {
    if r.Ok? && r.value.Paths? then Ok(r.value.byLength) else Err(AttributeError)
  }

  /** `{int(value.strip()) for value in reply[1:-1].split(',')}`. */
  function ObjsReply(r: Result<Worker.Reply>): Result<set<int>> {
    if r.Ok? && r.value.Text? then Wire.ParseObjs(r.value.s) else Err(TypeError)
  }

  /**
   * The decoded integer-count reply.  A reply `int()` cannot read makes the
   * request return None, and `None * 4` raises TypeError.
   */
  function IntReply(r: Result<Worker.Reply>): Result<int> {
    if r.Ok? && r.value.Text? then
      match PyStr.ParseInt(r.value.s)
      case Some(n) => Ok(n)
      case None => Err(TypeError)
    else Err(TypeError)
  }

  /**
   * What the coordinator reads back from one region: whether it has
   * homopaths, and its decoded replies to requests 3, 5 and 4.
   */
  datatype Reading = Reading(id: int, ready: bool, paths: Result<map<int, seq<seq<int>>>>,
                             count: Result<int>, objs: Result<set<int>>)

  function Read(p: Peer): Reading {
    Reading(p.id, Worker.Ready(p.reg),
            PathsReply(Worker.Answer(p.reg, Worker.HomopathList)),
            IntReply(Worker.Answer(p.reg, Worker.TotalIntegers)),
            ObjsReply(Worker.Answer(p.reg, Worker.NumberOfObjs)))
  }

  /**
   * What a region's replies decode to, in the worker's own terms: its paths
   * when it has homopaths (otherwise "-1", which has no items), its integer
   * count (otherwise -1), and its objects, which `int()` cannot read when
   * there are none.
   */
  function Expected(p: Peer): Reading {
    var ready := Worker.Ready(p.reg);
    Reading(p.id, ready,
            if ready then Ok(Worker.PathsOnly(p.reg.table)) else Err(AttributeError),
            Ok(if ready then p.reg.integers else -1),
            if |p.reg.uniq| == 0 then Err(ValueError) else Ok(Elems(p.reg.uniq)))
  }

  /** A region with homopaths: requests 3, 5 and 4, in the order their answers are used. */
  function CollectReady(hashed: bool, s: Gathered, r: Reading): Result<Gathered> {
    var m :- r.paths;
    var n :- r.count;
    var objs :- r.objs;
    Ok(AddReady(hashed, s, r.id, m, n, objs))
  }

  /** What a region with homopaths adds: its paths, its objects (unless hashed), its integers, three messages. */
  function AddReady(hashed: bool, s: Gathered, id: int, m: map<int, seq<seq<int>>>, n: int, objs: set<int>): Gathered {
    Gathered(s.ready + [id], s.hot[id := m], s.objOf[id := if hashed then {} else objs],
             s.total + objs, s.firstLevel + n * 4,
             s.trace + [Msg(id, Worker.HomopathList), Msg(id, Worker.NumberOfObjs), Msg(id, Worker.TotalIntegers)])
  }

  /** A region without homopaths: request 4, then "[-1]". */
  function CollectOther(s: Gathered, r: Reading): Result<Gathered> {
    var objs :- r.objs;
    Ok(s.(total := s.total + objs, trace := s.trace + [Msg(r.id, Worker.NumberOfObjs), Msg(r.id, Worker.Stop)]))
  }

  /** The collection of one region; after a failure nothing more is collected. */
  function Collect1(hashed: bool, g: Result<Gathered>, r: Reading): Result<Gathered> {
    if g.Err? then g
    else if r.ready then CollectReady(hashed, g.value, r)
    else CollectOther(g.value, r)
  }

  function NoneGathered(): Gathered {
    Gathered([], map[], map[], {}, 0, [])
  }

  function CollectUpto(hashed: bool, peers: seq<Peer>, i: nat): Result<Gathered>
    requires i <= |peers|
  {
    if i == 0 then Ok(NoneGathered()) else Collect1(hashed, CollectUpto(hashed, peers, i - 1), Expected(peers[i - 1]))
  }

  function CollectSpec(hashed: bool, peers: seq<Peer>): Result<Gathered> {
    CollectUpto(hashed, peers, |peers|)
  }

  lemma {:induction false} CollectSticky(hashed: bool, peers: seq<Peer>, i: nat, k: nat)
    requires i <= k <= |peers|
    requires CollectUpto(hashed, peers, i).Err?
    ensures CollectUpto(hashed, peers, k) == CollectUpto(hashed, peers, i)
    decreases k
  {
    if k > i {
      CollectSticky(hashed, peers, i, k - 1);
    }
  }

  lemma CollectNext(hashed: bool, peers: seq<Peer>, i: nat, g: Gathered, x: Result<Gathered>)
    requires i < |peers| && CollectUpto(hashed, peers, i) == Ok(g)
    requires x == Collect1(hashed, Ok(g), Expected(peers[i]))
    ensures CollectUpto(hashed, peers, i + 1) == x
    ensures x.Err? ==> CollectSpec(hashed, peers) == x
  {
    if x.Err? {
      CollectSticky(hashed, peers, i + 1, |peers|);
    }
  }

  /** The coordinator decodes exactly what the worker holds. */
  lemma ReadBack(p: Peer)
    ensures Read(p) == Expected(p)
  {
    ReadCount(p.reg);
    ReadObjs(p.reg);
  }

  lemma ReadCount(reg: Worker.Region)
    ensures IntReply(Worker.Answer(reg, Worker.TotalIntegers)) == Ok(if Worker.Ready(reg) then reg.integers else -1)
  {
    if Worker.Ready(reg) {
      Worker.IntegersReadBack(reg);
    } else {
      NoCount(reg);
    }
  }

  /** A region without homopaths answers "-1", which reads as -1. */
  lemma NoCount(reg: Worker.Region)
    requires !Worker.Ready(reg)
    ensures IntReply(Worker.Answer(reg, Worker.TotalIntegers)) == Ok(-1)
  {
    PyStr.ParseShow(-1);
    assert PyStr.Show(-1) == "-1";
  }

  lemma ReadObjs(reg: Worker.Region)
    ensures ObjsReply(Worker.Answer(reg, Worker.NumberOfObjs)) ==
            if |reg.uniq| == 0 then Err(ValueError) else Ok(Elems(reg.uniq))
  {
    Worker.ObjsReadBack(reg);
  }

  // ---------------------------------------------------------------- stage 2

  function HotOf(g: Gathered, a: int): map<int, seq<seq<int>>> {
    if a in g.hot then g.hot[a] else map[]
  }

  function Bucket(m: map<int, seq<seq<int>>>, len: int): seq<seq<int>> {
    if len in m then m[len] else []
  }

  /** The lengths of a region's paths that the pair loops visit: `length > 0` and a non-empty list. */
  function Lens(m: map<int, seq<seq<int>>>): seq<int> {
    Sorted(set k | k in m && k > 0 && |m[k]| > 0)
  }

  /** `numberOfObjects`: the objects A and B share (raw) or the number of permutations (hashed). */
  function Nobj(hashed: bool, perms: int, g: Gathered, a: int, b: int): int {
    if hashed then perms
    else if a in g.objOf && b in g.objOf then |g.objOf[a] * g.objOf[b]|
    else 0
  }

  /** The table of the worker that answers for region `id`: the first peer with that id. */
  function TableOf(peers: seq<Peer>, id: int): Table {
    if |peers| == 0 then map[]
    else if peers[0].id == id then peers[0].reg.table
    else TableOf(peers[1..], id)
  }

  /** `for hot_path2 in hot_paths2` for one `hot_path1`. */
  function Row(a: int, b: int, nobj: int, p1: seq<int>, ps2: seq<seq<int>>, ta: Table, tb: Table): seq<Item> {
    if |ps2| == 0 then []
    else [Pair(Job(a, b, nobj, p1, ps2[0], ta, tb))] + Row(a, b, nobj, p1, ps2[1..], ta, tb)
  }

  /** `for hot_path1 in hot_paths1: for hot_path2 in hot_paths2`. */
  function Grid(a: int, b: int, nobj: int, ps1: seq<seq<int>>, ps2: seq<seq<int>>, ta: Table, tb: Table): seq<Item> {
    if |ps1| == 0 then []
    else Row(a, b, nobj, ps1[0], ps2, ta, tb) + Grid(a, b, nobj, ps1[1..], ps2, ta, tb)
  }

  /** `for length2, hot_paths2 in c_hot_paths2.items()` against one list of paths of A. */
  function AgainstB(g: Gathered, a: int, b: int, nobj: int, ps1: seq<seq<int>>, lens: seq<int>, ta: Table, tb: Table): seq<Item> {
    if |lens| == 0 then []
    else Grid(a, b, nobj, ps1, Bucket(HotOf(g, b), lens[0]), ta, tb) + AgainstB(g, a, b, nobj, ps1, lens[1..], ta, tb)
  }

  /** Region B against one length of region A: the level statements, then (when B ≠ A) B's lengths. */
  function ItemsB(hashed: bool, perms: int, g: Gathered, peers: seq<Peer>, a: int, len: int, b: int): seq<Item> {
    [Level(a, b), Level(b, b)] +
    (if b == a then []
     else AgainstB(g, a, b, Nobj(hashed, perms, g, a, b), Bucket(HotOf(g, a), len), Lens(HotOf(g, b)),
                   TableOf(peers, a), TableOf(peers, b)))
  }

  /** `for region_id2, c_hot_paths2 in all_hot_paths.items()`. */
  function OverBs(hashed: bool, perms: int, g: Gathered, peers: seq<Peer>, a: int, len: int, bs: seq<int>): seq<Item> {
    if |bs| == 0 then [] else ItemsB(hashed, perms, g, peers, a, len, bs[0]) + OverBs(hashed, perms, g, peers, a, len, bs[1..])
  }

  /** `for length, hot_paths1 in c_hot_paths1.items()`. */
  function OverLens(hashed: bool, perms: int, g: Gathered, peers: seq<Peer>, a: int, lens: seq<int>): seq<Item> {
    if |lens| == 0 then []
    else OverBs(hashed, perms, g, peers, a, lens[0], g.ready) + OverLens(hashed, perms, g, peers, a, lens[1..])
  }

  /** Region A: its own level, then every length against every region. */
  function ItemsA(hashed: bool, perms: int, g: Gathered, peers: seq<Peer>, a: int): seq<Item> {
    [Level(a, a)] + OverLens(hashed, perms, g, peers, a, Lens(HotOf(g, a)))
  }

  /** `for region_id, c_hot_paths1 in all_hot_paths.items()`. */
  function OverAs(hashed: bool, perms: int, g: Gathered, peers: seq<Peer>, as_: seq<int>): seq<Item> {
    if |as_| == 0 then [] else ItemsA(hashed, perms, g, peers, as_[0]) + OverAs(hashed, perms, g, peers, as_[1..])
  }

  /** The nested loops of the spanning step, flattened in their order. */
  function Items(hashed: bool, perms: int, g: Gathered, peers: seq<Peer>): seq<Item> {
    OverAs(hashed, perms, g, peers, g.ready)
  }

  // ---------------------------------------------------------------- stage 3

  function Stops(ids: seq<int>): (r: seq<Msg>)
    ensures |r| == |ids| && forall i :: 0 <= i < |ids| ==> r[i] == Msg(ids[i], Worker.Stop)
  {
    if |ids| == 0 then [] else Stops(ids[..|ids| - 1]) + [Msg(ids[|ids| - 1], Worker.Stop)]
  }

  function Empty(): SpanState {
    SpanState(map[], [])
  }

  /** Stage 2 runs only when at least two regions have homopaths. */
  function SpanStage(ctx: SpanCtx, hashed: bool, perms: int, g: Gathered, peers: seq<Peer>): Result<SpanState> {
    if |g.ready| > 1 then SpanSpec(ctx, Items(hashed, perms, g, peers), Empty()) else Ok(Empty())
  }

  function CoordinatorSpec(ctx: SpanCtx, hashed: bool, perms: int, peers: seq<Peer>): Result<Outcome> {
    var g :- CollectSpec(hashed, peers);
    var st :- SpanStage(ctx, hashed, perms, g, peers);
    Ok(Outcome(st.hom, st.spans, g.total, g.firstLevel, g.trace + Stops(g.ready), |g.ready|))
  }

  /** The three stages, with the collection and termination loops. */
  method Coordinate(ctx: SpanCtx, hashed: bool, perms: int, peers: seq<Peer>) returns (r: Result<Outcome>)
    ensures r == CoordinatorSpec(ctx, hashed, perms, peers)
  {
    var c := Gather(hashed, peers);
    if c.Err? {
      return Err(c.error);
    }
    var g := c.value;
    var st := RunSpanStage(ctx, hashed, perms, g, peers);
    if st.Err? {
      return Err(st.error);
    }
    var trace := Terminate(g.trace, g.ready);
    return Ok(Outcome(st.value.hom, st.value.spans, g.total, g.firstLevel, trace, |g.ready|));
  }

  /** The collection loop, `for region_id in regions_ready_counter`. */
  method Gather(hashed: bool, peers: seq<Peer>) returns (r: Result<Gathered>)
    ensures r == CollectSpec(hashed, peers)
  {
    var g := NoneGathered();
    var i := 0;
    while i < |peers|
      invariant 0 <= i <= |peers|
      invariant CollectUpto(hashed, peers, i) == Ok(g)
    {
      var x := GatherOne(hashed, g, peers[i]);
      CollectNext(hashed, peers, i, g, x);
      if x.Err? {
        return x;
      }
      g := x.value;
      i := i + 1;
    }
    return Ok(g);
  }

  method RunSpanStage(ctx: SpanCtx, hashed: bool, perms: int, g: Gathered, peers: seq<Peer>) returns (r: Result<SpanState>)
    ensures r == SpanStage(ctx, hashed, perms, g, peers)
  {
    if |g.ready| > 1 {
      r := SpanAll(ctx, Items(hashed, perms, g, peers), Empty());
    } else {
      r := Ok(Empty());
    }
  }

  /** `for region_id in regions_ready_counter: send("[-1]")`. */
  method Terminate(trace: seq<Msg>, ready: seq<int>) returns (r: seq<Msg>)
    ensures r == trace + Stops(ready)
  {
    r := trace;
    var j := 0;
    while j < |ready|
      invariant 0 <= j <= |ready|
      invariant r == trace + Stops(ready[..j])
    {
      r := r + [Msg(ready[j], Worker.Stop)];
      j := j + 1;
      assert ready[..j][..j - 1] == ready[..j - 1];
    }
    assert ready[..|ready|] == ready;
  }

  /** The body of the collection loop. */
  method GatherOne(hashed: bool, s: Gathered, p: Peer) returns (r: Result<Gathered>)
    ensures r == Collect1(hashed, Ok(s), Expected(p))
  {
    ReadBack(p);
    if Worker.Ready(p.reg) {
      r := GatherReady(hashed, s, p);
    } else {
      r := GatherOther(s, p);
    }
  }

  method GatherReady(hashed: bool, s: Gathered, p: Peer) returns (r: Result<Gathered>)
    ensures r == CollectReady(hashed, s, Read(p))
  {
    var m := PathsReply(Worker.Answer(p.reg, Worker.HomopathList));
    if m.Err? {
      return Err(m.error);
    }
    var n := IntReply(Worker.Answer(p.reg, Worker.TotalIntegers));
    if n.Err? {
      return Err(n.error);
    }
    var objs := ObjsReply(Worker.Answer(p.reg, Worker.NumberOfObjs));
    if objs.Err? {
      return Err(objs.error);
    }
    r := Ok(AddReady(hashed, s, p.id, m.value, n.value, objs.value));
  }

  method GatherOther(s: Gathered, p: Peer) returns (r: Result<Gathered>)
    ensures r == CollectOther(s, Read(p))
  {
    var objs := ObjsReply(Worker.Answer(p.reg, Worker.NumberOfObjs));
    if objs.Err? {
      return Err(objs.error);
    }
    r := Ok(s.(total := s.total + objs.value,
               trace := s.trace + [Msg(p.id, Worker.NumberOfObjs), Msg(p.id, Worker.Stop)]));
  }
}

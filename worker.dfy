/**
 * A regional leader after its table is built: the request loop of
 * `start_regional_leader` and the lookup `find_obj_ids_for_edge_path`
 * (Code/homopa.py; the older copy Code/HoMoPaD/homopa.py behaves the same).
 * The socket, the JSON encoding of requests and replies and the 1024-byte
 * chunking are not modelled: a request arrives as a decoded value and a
 * reply leaves as a value (or as the text the worker would send).
 */
module Worker {
  import opened Wrappers
  import Seqs
  import opened Engine
  import opened EngineRun
  import PyStr
  import Wire

  /** What a worker serves: its table, the iteration order of its set of distinct objects, its integer count. */
  datatype Region = Region(table: Table, uniq: seq<int>, integers: int)

  /** A decoded request. */
  datatype Request =
    | Stop               // the string "[-1]"
    | HomopathList       // "Homopath_list"
    | NumberOfObjs       // "Homopath_NumberOfObjs"
    | TotalIntegers      // "total_information_integers"
    | Query(kind: int, path: seq<int>)  // {"path_edge_ID": path, "requestPathORedge": kind}
    | NotADict           // any other JSON value that is not a dictionary: the source first keeps
                         // reading chunks until one ends with "}" (Code/homopa.py:1084-1086) and
                         // only then fails subscripting it; the model goes straight to that TypeError
    | MissingKey         // a dictionary without one of the two keys

  datatype Reply =
    | Closed
    | Paths(byLength: map<int, seq<seq<int>>>)
    | Text(s: string)
    | Objs(found: Option<seq<int>>)

  /** Objects of the first record of `b` whose path is `p`. */
  function FindPath(b: seq<Rec>, p: seq<int>): (r: Option<seq<int>>)
    ensures r.None? <==> forall i :: 0 <= i < |b| ==> b[i].path != p
    ensures r.Some? ==> exists i :: 0 <= i < |b| && b[i].path == p && b[i].objs == r.value &&
                                    forall j :: 0 <= j < i ==> b[j].path != p
  {
    if |b| == 0 then None
    else if b[0].path == p then Some(b[0].objs)
    else
      var r := FindPath(b[1..], p);
      assert forall i :: 1 <= i < |b| ==> b[i] == b[1..][i - 1];
      r
  }

  /**
   * `find_obj_ids_for_edge_path`: kind 1 searches the bucket of the request's
   * length, kind 2 the homoedge bucket 0; any other kind finds nothing.
   */
  function Lookup(kind: int, request: seq<int>, table: Table): (r: Option<seq<int>>)
    ensures r.Some? ==> (kind == 1 || kind == 2)
    ensures kind == 1 ==> r == (if |request| in table then FindPath(table[|request|], request) else None)
    ensures kind == 2 ==> r == (if 0 in table then FindPath(table[0], request) else None)
  {
    if kind == 1 && |request| in table then FindPath(table[|request|], request)
    else if kind == 2 && 0 in table then FindPath(table[0], request)
    else None
  }

  /** `if regions_hot_paths:` — a dictionary is true when it has a key. */
  predicate Ready(reg: Region) {
    |reg.table| > 0
  }

  /** `{key: [path[0] for path in paths]}`: the table without the objects. */
  function PathsOnly(t: Table): (m: map<int, seq<seq<int>>>)
    ensures m.Keys == t.Keys
    ensures forall k :: k in t ==> |m[k]| == |t[k]| && forall i :: 0 <= i < |t[k]| ==> m[k][i] == t[k][i].path
  {
    map k | k in t :: Engine.Paths(t[k])
  }

  /** One request handled; a request that is not understood raises. */
  function Answer(reg: Region, req: Request): Result<Reply> {
    match req
    case Stop => Ok(Closed)
    case HomopathList => Ok(if Ready(reg) then Paths(PathsOnly(reg.table)) else Text("-1"))
    case NumberOfObjs => Ok(Text(Wire.SetText(reg.uniq)))
    case TotalIntegers => Ok(Text(if Ready(reg) then PyStr.Show(reg.integers) else "-1"))
    case Query(kind, path) => Ok(Objs(Lookup(kind, path, reg.table)))
    case NotADict => Err(TypeError)
    case MissingKey => Err(KeyError)
  }

  /** The replies so far and whether the server socket is still open. */
  datatype Session = Session(replies: seq<Reply>, open: bool)

  function Serve1(reg: Region, st: Result<Session>, req: Request): Result<Session> {
    if st.Err? || !st.value.open then st
    else match Answer(reg, req)
      case Err(e) => Err(e)
      case Ok(a) => Ok(Session(st.value.replies + [a], req != Stop))
  }

  function ServeUpto(reg: Region, reqs: seq<Request>, i: nat): Result<Session>
    requires i <= |reqs|
  {
    if i == 0 then Ok(Session([], true)) else Serve1(reg, ServeUpto(reg, reqs, i - 1), reqs[i - 1])
  }

  /** The `while True` loop over the connections the worker accepts. */
  function ServeSpec(reg: Region, reqs: seq<Request>): Result<Session> {
    ServeUpto(reg, reqs, |reqs|)
  }

  lemma {:induction false} ServeSticky(reg: Region, reqs: seq<Request>, i: nat, k: nat)
    requires i <= k <= |reqs|
    requires ServeUpto(reg, reqs, i).Err? || !ServeUpto(reg, reqs, i).value.open
    ensures ServeUpto(reg, reqs, k) == ServeUpto(reg, reqs, i)
    decreases k
  {
    if k > i {
      ServeSticky(reg, reqs, i, k - 1);
    }
  }

  method ServeLoop(reg: Region, reqs: seq<Request>) returns (r: Result<Session>)
    ensures r == ServeSpec(reg, reqs)
  {
    var replies: seq<Reply> := [];
    var i := 0;
    while i < |reqs|
      invariant 0 <= i <= |reqs|
      invariant ServeUpto(reg, reqs, i) == Ok(Session(replies, true))
    {
      var a := Answer(reg, reqs[i]);
      if a.Err? {
        ServeSticky(reg, reqs, i + 1, |reqs|);
        return Err(a.error);
      }
      replies := replies + [a.value];
      i := i + 1;
      if reqs[i - 1] == Stop {
        ServeSticky(reg, reqs, i, |reqs|);
        return Ok(Session(replies, false));
      }
    }
    return Ok(Session(replies, true));
  }

  // ---------------------------------------------------------------- properties

  /** Before the first stop every request gets its answer, in order; the stop closes the server. */
  lemma {:induction false} ServeRule(reg: Region, reqs: seq<Request>, i: nat)
    requires i <= |reqs|
    requires forall j :: 0 <= j < i ==> reqs[j] != Stop && Answer(reg, reqs[j]).Ok?
    ensures ServeUpto(reg, reqs, i).Ok? && ServeUpto(reg, reqs, i).value.open
    ensures |ServeUpto(reg, reqs, i).value.replies| == i
    ensures forall j :: 0 <= j < i ==> ServeUpto(reg, reqs, i).value.replies[j] == Answer(reg, reqs[j]).value
  {
    if i > 0 {
      ServeRule(reg, reqs, i - 1);
    }
  }

  /** No request after the first stop is read. */
  lemma StopCloses(reg: Region, reqs: seq<Request>, k: nat)
    requires k < |reqs| && reqs[k] == Stop
    requires forall j :: 0 <= j < k ==> reqs[j] != Stop && Answer(reg, reqs[j]).Ok?
    ensures ServeSpec(reg, reqs).Ok? && !ServeSpec(reg, reqs).value.open
    ensures |ServeSpec(reg, reqs).value.replies| == k + 1
    ensures ServeSpec(reg, reqs).value.replies[k] == Closed
    ensures forall j :: 0 <= j < k ==> ServeSpec(reg, reqs).value.replies[j] == Answer(reg, reqs[j]).value
  {
    ServeRule(reg, reqs, k);
    ServeSticky(reg, reqs, k + 1, |reqs|);
  }

  /** The coordinator reads back exactly the worker's objects, unless it has none. */
  lemma ObjsReadBack(reg: Region)
    ensures Answer(reg, NumberOfObjs).Ok? && Answer(reg, NumberOfObjs).value.Text?
    ensures Wire.ParseObjs(Answer(reg, NumberOfObjs).value.s) ==
            if |reg.uniq| == 0 then Err(ValueError) else Ok(Seqs.Elems(reg.uniq))
  {
    Wire.SetTextRoundTrip(reg.uniq);
  }

  /** `int()` of the integer-count reply of a ready worker is its count. */
  lemma IntegersReadBack(reg: Region)
    requires Ready(reg)
    ensures Answer(reg, TotalIntegers) == Ok(Text(PyStr.Show(reg.integers)))
    ensures PyStr.ParseInt(Answer(reg, TotalIntegers).value.s) == Some(reg.integers)
  {
    PyStr.ParseShow(reg.integers);
  }

  /**
   * For a table the engine built, every object list a lookup returns belongs
   * to a stored walk of homoedges and holds exactly the objects its edges share.
   */
  lemma LookupGood(ctx: Ctx, conn: Adj, sensors: seq<SensorRow>, single: seq<Rec>, t: Table,
                   kind: int, request: seq<int>)
    requires TableFacts(ctx, conn, sensors, single, t)
    requires Lookup(kind, request, t).Some?
    ensures exists k, r :: k in t && r in t[k] && r.path == request && r.objs == Lookup(kind, request, t).value
    ensures |request| > 0 && Walk(conn, request) && Guarded(ctx.variant, request)
    ensures Seqs.Elems(Lookup(kind, request, t).value) == Common(sensors, request)
    ensures kind == 2 ==> |request| == 1
  {
    var k := if kind == 1 then |request| else 0;
    var i :| 0 <= i < |t[k]| && t[k][i].path == request && t[k][i].objs == Lookup(kind, request, t).value;
    assert t[k][i] in t[k];
  }
}

/**
 * `find_connected_edges` (Code/preparation.py, the same in
 * Code/HoMoPaD/preparation.py): the successor lists of the road network,
 * over the lines of the combined nodes-and-edges file already split at
 * commas into integers `edge, start node, end node, ..., weight`.
 *
 * The second pass calls `next(infile)` before its loop, so the edge on the
 * first line is never compared as a candidate successor.
 */
module Successors {
  import opened Wrappers
  import opened Seqs

  type Line = seq<int>

  /** The first pass: `int(parts[0])` of a blank line, then `parts[1]`, `parts[2]` and `parts[7]`. */
  function LineError(l: Line): Option<PyError> {
    if |l| == 0 then Some(ValueError)
    else if |l| < 8 then Some(IndexError)
    else None
  }

  /** The error of the first line the first pass cannot read. */
  function FirstError(lines: seq<Line>): (r: Option<PyError>)
    ensures r.None? <==> forall k :: 0 <= k < |lines| ==> |lines[k]| >= 8
  {
    if |lines| == 0 then None
    else if LineError(lines[0]).Some? then LineError(lines[0])
    else FirstError(lines[1..])
  }

  predicate Readable(lines: seq<Line>) {
    forall k :: 0 <= k < |lines| ==> |lines[k]| >= 8
  }

  /** `endNodeOfEdge` after the first `i` lines: a later line of the same edge overwrites. */
  function Ends(lines: seq<Line>, i: nat): map<int, int>
    requires i <= |lines| && Readable(lines)
  {
    if i == 0 then map[] else Ends(lines, i - 1)[lines[i - 1][0] := lines[i - 1][2]]
  }

  /** `edges`: the ids of the first `i` lines. */
  function Ids(lines: seq<Line>, i: nat): set<int>
    requires i <= |lines| && Readable(lines)
  {
    set k | 0 <= k < i :: lines[k][0]
  }

  /**
   * `mainEdge` once the second pass has read lines 1 .. k-1: for every edge,
   * the ids of those lines that start where the edge ends.
   */
  function MainUpto(lines: seq<Line>, k: nat): map<int, set<int>>
    requires 1 <= k <= |lines| && Readable(lines)
  {
    var ends := Ends(lines, |lines|);
    map m | m in ends :: Succ(lines, k, ends[m])
  }

  /** The ids of lines 1 .. k-1 that start at node `node`. */
  function Succ(lines: seq<Line>, k: nat, node: int): set<int>
    requires k <= |lines| && Readable(lines)
  {
    set j | 1 <= j < k && lines[j][1] == node :: lines[j][0]
  }

  /** The successor dictionary and `len(mainEdge)`, or the exception the passes raise. */
  function SuccessorSpec(lines: seq<Line>): Result<(map<int, set<int>>, int)> {
    match FirstError(lines)
    case Some(e) => Err(e)
    case None =>
      if |lines| == 0 then Err(StopIteration)
      else
        var main := MainUpto(lines, |lines|);
        Ok((main, |main.Keys|))
  }

  lemma EndsKeys(lines: seq<Line>, i: nat)
    requires i <= |lines| && Readable(lines)
    ensures Ends(lines, i).Keys == Ids(lines, i)
  {
    if i > 0 {
      EndsKeys(lines, i - 1);
      assert Ids(lines, i) == Ids(lines, i - 1) + {lines[i - 1][0]};
    }
  }

  method FindConnectedEdges(lines: seq<Line>) returns (r: Result<(map<int, set<int>>, int)>)
    ensures r == SuccessorSpec(lines)
  {
    var first := FirstPass(lines);
    if first.Err? {
      return Err(first.error);
    }
    if |lines| == 0 {
      return Err(StopIteration);
    }
    var (ends, edges) := first.value;
    EndsKeys(lines, |lines|);
    var main: map<int, set<int>> := map m | m in edges :: {};
    assert forall m :: m in edges ==> MainUpto(lines, 1)[m] == {};
    var k := 1;
    while k < |lines|
      invariant 1 <= k <= |lines|
      invariant main == MainUpto(lines, k)
    {
      main := Connect(lines, main, edges, ends, k);
      k := k + 1;
    }
    return Ok((main, |main.Keys|));
  }

  /** The first pass: `endNodeOfEdge` and `edges`, or the error of the first line it cannot read. */
  method FirstPass(lines: seq<Line>) returns (r: Result<(map<int, int>, set<int>)>)
    ensures FirstError(lines).Some? ==> r == Err(FirstError(lines).value)
    ensures FirstError(lines).None? ==> Readable(lines) && r == Ok((Ends(lines, |lines|), Ids(lines, |lines|)))
  {
    var ends: map<int, int> := map[];
    var edges: set<int> := {};
    var i := 0;
    while i < |lines|
      invariant 0 <= i <= |lines|
      invariant forall k :: 0 <= k < i ==> |lines[k]| >= 8
      invariant FirstError(lines) == FirstError(lines[i..])
      invariant Readable(lines[..i]) && ends == Ends(lines[..i], i) && edges == Ids(lines[..i], i)
    {
      assert lines[i..][1..] == lines[i + 1..];
      if LineError(lines[i]).Some? {
        return Err(LineError(lines[i]).value);
      }
      EndsPrefix(lines, i + 1);
      ends := ends[lines[i][0] := lines[i][2]];
      edges := edges + {lines[i][0]};
      i := i + 1;
    }
    assert lines[..|lines|] == lines;
    r := Ok((ends, edges));
  }

  lemma EndsPrefix(lines: seq<Line>, i: nat)
    requires 0 < i <= |lines| && Readable(lines[..i])
    ensures Readable(lines[..i - 1])
    ensures Ends(lines[..i], i) == Ends(lines[..i - 1], i - 1)[lines[i - 1][0] := lines[i - 1][2]]
    ensures Ids(lines[..i], i) == Ids(lines[..i - 1], i - 1) + {lines[i - 1][0]}
  {
    assert forall k :: 0 <= k < i - 1 ==> lines[..i - 1][k] == lines[..i][k];
    EndsSame(lines[..i], lines[..i - 1], i - 1);
  }

  lemma {:induction false} EndsSame(a: seq<Line>, b: seq<Line>, i: nat)
    requires i <= |a| && i <= |b| && Readable(a) && Readable(b)
    requires forall k :: 0 <= k < i ==> a[k] == b[k]
    ensures Ends(a, i) == Ends(b, i) && Ids(a, i) == Ids(b, i)
  {
    if i > 0 {
      EndsSame(a, b, i - 1);
    }
  }

  /** `for mainedge in edges: if current_node_start == endNodeOfEdge[mainedge]: ...add(current_edge_id)`. */
  method Connect(lines: seq<Line>, main: map<int, set<int>>, edges: set<int>, ends: map<int, int>, k: nat)
    returns (r: map<int, set<int>>)
    requires 1 <= k < |lines| && Readable(lines)
    requires ends == Ends(lines, |lines|) && edges == Ids(lines, |lines|) && edges == ends.Keys
    requires main == MainUpto(lines, k)
    ensures r == MainUpto(lines, k + 1)
  {
    var line := lines[k];
    r := main;
    var todo := edges;
    while todo != {}
      invariant todo <= edges && r.Keys == edges
      invariant forall m :: m in edges ==>
        r[m] == if m in todo then main[m] else main[m] + (if line[1] == ends[m] then {line[0]} else {})
      decreases todo
    {
      NonEmpty(todo);
      var m :| m in todo;
      if line[1] == ends[m] {
        r := r[m := r[m] + {line[0]}];
      }
      todo := todo - {m};
    }
    MainStep(lines, k, r);
  }

  /** Line `k` is added to the successors of exactly the edges that end where it starts. */
  lemma MainStep(lines: seq<Line>, k: nat, r: map<int, set<int>>)
    requires 1 <= k < |lines| && Readable(lines)
    requires var ends := Ends(lines, |lines|);
      r.Keys == ends.Keys &&
      forall m :: m in ends ==>
        r[m] == MainUpto(lines, k)[m] + (if lines[k][1] == ends[m] then {lines[k][0]} else {})
    ensures r == MainUpto(lines, k + 1)
  {
    var ends := Ends(lines, |lines|);
    forall m | m in ends
      ensures r[m] == MainUpto(lines, k + 1)[m]
    {
      SuccStep(lines, k, ends[m]);
    }
  }

  lemma SuccStep(lines: seq<Line>, k: nat, node: int)
    requires 1 <= k < |lines| && Readable(lines)
    ensures Succ(lines, k + 1, node) == Succ(lines, k, node) + (if lines[k][1] == node then {lines[k][0]} else {})
  {
    var want, have := Succ(lines, k + 1, node), Succ(lines, k, node);
    forall x | x in want
      ensures x in have + (if lines[k][1] == node then {lines[k][0]} else {})
    {
      var j :| 1 <= j < k + 1 && lines[j][1] == node && lines[j][0] == x;
      if j < k {
        assert x in have;
      }
    }
  }

  // ---------------------------------------------------------------- what the successor lists hold

  /** The end node kept for an edge is the one on its last line. */
  lemma {:induction false} EndsAt(lines: seq<Line>, i: nat, k: nat)
    requires i <= |lines| && Readable(lines) && k < i
    requires forall j :: k < j < i ==> lines[j][0] != lines[k][0]
    ensures lines[k][0] in Ends(lines, i) && Ends(lines, i)[lines[k][0]] == lines[k][2]
  {
    if k < i - 1 {
      EndsAt(lines, i - 1, k);
    }
  }

  /**
   * The passes succeed exactly when the file has a line and every line has
   * eight fields; then every edge has a list, the count is the number of
   * distinct edges, and `c` is listed for `m` exactly when a line after the
   * first has edge `c` starting at the end node of `m`'s last line.
   */
  lemma SuccessorRule(lines: seq<Line>)
    ensures SuccessorSpec(lines).Ok? <==> |lines| > 0 && Readable(lines)
    ensures SuccessorSpec(lines).Err? ==> SuccessorSpec(lines).error in {ValueError, IndexError, StopIteration}
    ensures SuccessorSpec(lines).Ok? ==>
      var main := SuccessorSpec(lines).value.0;
      main.Keys == (set k | 0 <= k < |lines| :: lines[k][0]) && SuccessorSpec(lines).value.1 == |main.Keys| &&
      forall k, c :: 0 <= k < |lines| && (forall j :: k < j < |lines| ==> lines[j][0] != lines[k][0]) ==>
        (c in main[lines[k][0]] <==> exists j :: 1 <= j < |lines| && lines[j][0] == c && lines[j][1] == lines[k][2])
  {
    FirstErrorKind(lines);
    if SuccessorSpec(lines).Ok? {
      EndsKeys(lines, |lines|);
      forall k | 0 <= k < |lines| && (forall j :: k < j < |lines| ==> lines[j][0] != lines[k][0]) {
        EndsAt(lines, |lines|, k);
      }
    }
  }

  lemma {:induction false} FirstErrorKind(lines: seq<Line>)
    ensures FirstError(lines).Some? ==> FirstError(lines).value in {ValueError, IndexError}
  {
    if |lines| > 0 && LineError(lines[0]).None? {
      FirstErrorKind(lines[1..]);
    }
  }

  /** The edge on the first line is listed for no edge unless a later line repeats it. */
  lemma FirstLineSkipped(lines: seq<Line>)
    requires SuccessorSpec(lines).Ok?
    requires forall j :: 1 <= j < |lines| ==> lines[j][0] != lines[0][0]
    ensures forall m :: m in SuccessorSpec(lines).value.0 ==> lines[0][0] !in SuccessorSpec(lines).value.0[m]
  {
  }

  // ---------------------------------------------------------------- the first line, compared

  /** The ids of all lines, the first included, that start at node `node`. */
  function SuccAll(lines: seq<Line>, node: int): set<int>
    requires Readable(lines)
  {
    set j | 0 <= j < |lines| && lines[j][1] == node :: lines[j][0]
  }

  /**
   * The passes as meant: the file written by `create_network` has no header
   * line (its first line is read as an edge by the first pass), so the
   * second pass compares every line, and an empty file gives no edges.
   */
  function SuccessorAll(lines: seq<Line>): Result<(map<int, set<int>>, int)> {
    match FirstError(lines)
    case Some(e) => Err(e)
    case None =>
      var ends := Ends(lines, |lines|);
      var main := map m | m in ends :: SuccAll(lines, ends[m]);
      Ok((main, |main.Keys|))
  }

  /**
   * The corrected passes succeed exactly when every line has eight fields;
   * then every edge has a set, the count is the number of distinct edges,
   * and `c` is listed for `m` exactly when some line, the first included,
   * has edge `c` starting at the end node of `m`'s last line.
   */
  lemma SuccessorAllRule(lines: seq<Line>)
    ensures SuccessorAll(lines).Ok? <==> Readable(lines)
    ensures SuccessorAll(lines).Err? ==> SuccessorAll(lines).error in {ValueError, IndexError}
    ensures SuccessorAll(lines).Ok? ==>
      var main := SuccessorAll(lines).value.0;
      main.Keys == (set k | 0 <= k < |lines| :: lines[k][0]) && SuccessorAll(lines).value.1 == |main.Keys| &&
      forall k, c :: 0 <= k < |lines| && (forall j :: k < j < |lines| ==> lines[j][0] != lines[k][0]) ==>
        (c in main[lines[k][0]] <==> exists j :: 0 <= j < |lines| && lines[j][0] == c && lines[j][1] == lines[k][2])
  {
    FirstErrorKind(lines);
    if SuccessorAll(lines).Ok? {
      EndsKeys(lines, |lines|);
      forall k | 0 <= k < |lines| && (forall j :: k < j < |lines| ==> lines[j][0] != lines[k][0]) {
        EndsAt(lines, |lines|, k);
      }
    }
  }

  /**
   * Edge 2 ends at node 10, where edge 1 on the first line starts: the
   * passes as written omit 1 from the successors of 2, the corrected ones
   * list it.
   */
  lemma FirstLineMissed()
    ensures var lines := [[1, 10, 20, 0, 0, 0, 0, 0], [2, 20, 10, 0, 0, 0, 0, 0]];
      SuccessorSpec(lines).Ok? && 2 in SuccessorSpec(lines).value.0 && 1 !in SuccessorSpec(lines).value.0[2] &&
      SuccessorAll(lines).Ok? && 2 in SuccessorAll(lines).value.0 && 1 in SuccessorAll(lines).value.0[2]
  {
    var lines := [[1, 10, 20, 0, 0, 0, 0, 0], [2, 20, 10, 0, 0, 0, 0, 0]];
    assert FirstError(lines[1..][1..]) == None;
    assert Ends(lines, |lines|) == map[1 := 20, 2 := 10];
    assert 0 <= 0 < |lines| && lines[0][1] == 10;
  }
}

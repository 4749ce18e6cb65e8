/**
 * The connection map between regions (`create_RegionConnections_for_Top_Leader`
 * in Code/preparation.py and Code/HoMoPaD/preparation.py, which agree).  Each
 * regional edge-connection file lists an edge and its successors; for every
 * successor `s` of edge `e` in region A's file, and every other region B whose
 * file has a line starting with `s`, `s` is appended to `conn[A][B][e]` once
 * per such line.  The result is the map the coordinator consults when it
 * joins a path of one region to a path of another.
 */
module RegionConns {
  import opened Wrappers
  import opened Seqs
  import PyStr
  import Regions
  import Span

  /** A line of a regional file, already split at commas into integers; a blank line is empty. */
  type Line = seq<int>

  /** A directory entry: its name and, for a regional file, its lines. */
  datatype RegFile = RegFile(name: string, lines: seq<Line>)

  /** `[f for f in os.listdir('.') if f.startswith(file_prefix) and f.endswith(file_extension)]`. */
  function Listed(prefix: string, ext: string, listing: seq<RegFile>): seq<RegFile> {
    if |listing| == 0 then []
    else
      var last := listing[|listing| - 1];
      Listed(prefix, ext, listing[..|listing| - 1]) +
        (if Regions.StartsWith(last.name, prefix) && Regions.EndsWith(last.name, ext) then [last] else [])
  }

  /**
   * `file[len(file_prefix):-len(file_extension)]` with Python's slice rules:
   * an empty extension slices up to index 0, and a start past the end gives
   * the empty string.
   */
  function Middle(prefix: string, ext: string, name: string): string {
    if |ext| == 0 || |ext| > |name| then ""
    else if |prefix| <= |name| - |ext| then name[|prefix|..|name| - |ext|]
    else ""
  }

  /** `int(file[len(file_prefix):-len(file_extension)])`, None where it raises ValueError. */
  function FileId(prefix: string, ext: string, name: string): Option<int> {
    PyStr.ParseInt(Middle(prefix, ext, name))
  }

  /** A listed file with the id its name yields (None where `int` raises ValueError). */
  datatype Reg = Reg(name: string, id: Option<int>, lines: seq<Line>)

  /** The listed files with their names parsed. */
  function Parsed(prefix: string, ext: string, files: seq<RegFile>): (regs: seq<Reg>)
    ensures |regs| == |files|
  {
    if |files| == 0 then []
    else
      var f := files[|files| - 1];
      Parsed(prefix, ext, files[..|files| - 1]) + [Reg(f.name, FileId(prefix, ext, f.name), f.lines)]
  }

  /** Entry `k` of `Parsed` is file `k` with its name parsed. */
  lemma {:induction false} ParsedAt(prefix: string, ext: string, files: seq<RegFile>, k: nat)
    requires k < |files|
    ensures Parsed(prefix, ext, files)[k] == Reg(files[k].name, FileId(prefix, ext, files[k].name), files[k].lines)
    decreases |files|
  {
    if k < |files| - 1 {
      ParsedAt(prefix, ext, files[..|files| - 1], k);
    }
  }

  /** `regs` is `files` with their names parsed, entry by entry. */
  ghost predicate ParsedAs(prefix: string, ext: string, files: seq<RegFile>, regs: seq<Reg>) {
    |regs| == |files| &&
    forall k {:trigger files[k]} :: 0 <= k < |files| ==>
      regs[k] == Reg(files[k].name, FileId(prefix, ext, files[k].name), files[k].lines)
  }

  lemma ParsedAll(prefix: string, ext: string, files: seq<RegFile>)
    ensures ParsedAs(prefix, ext, files, Parsed(prefix, ext, files))
  {
    forall k | 0 <= k < |files| {
      ParsedAt(prefix, ext, files, k);
    }
  }

  /** `[int(val) for val in line.strip().split(',')]` succeeds on every line. */
  predicate LinesOk(lines: seq<Line>) {
    forall k :: 0 <= k < |lines| ==> |lines[k]| > 0
  }

  predicate RegOk(g: Reg) {
    g.id.Some? && LinesOk(g.lines)
  }

  /** No name and no line of any listed file makes the run raise ValueError. */
  predicate AllOk(regs: seq<Reg>) {
    forall k :: 0 <= k < |regs| ==> RegOk(regs[k])
  }

  // ---------------------------------------------------------------- the nested loops as folds

  type Row = map<int, seq<int>>
  type RegionMap = map<int, Row>

  /** `row.get(e, [])`. */
  function Get(row: Row, e: int): seq<int> {
    if e in row then row[e] else []
  }

  /** The innermost loop: every line of the other file that starts with `s` appends `s` to `row[e]`. */
  function RowSpec(row: Row, e: int, s: int, lines2: seq<Line>): Row {
    if |lines2| == 0 then row
    else
      var r := RowSpec(row, e, s, lines2[..|lines2| - 1]);
      var last := lines2[|lines2| - 1];
      if |last| > 0 && last[0] == s then r[e := Get(r, e) + [s]] else r
  }

  /**
   * The loop over the other files for one successor `s`: each gets its row,
   * created empty if absent.  (A file whose name has no id would have raised
   * ValueError; it is skipped here, and the run's result is then the error.)
   */
  function OthersSpec(cA: RegionMap, regs: seq<Reg>, me: string, e: int, s: int): RegionMap {
    if |regs| == 0 then cA
    else OtherSpec(OthersSpec(cA, regs[..|regs| - 1], me, e, s), regs[|regs| - 1], me, e, s)
  }

  /** One step of that loop: file `g`, unless it is region A's own, gets its row for `e`. */
  function OtherSpec(c: RegionMap, g: Reg, me: string, e: int, s: int): RegionMap {
    if g.name == me || g.id.None? then c
    else
      var c1 := if g.id.value in c then c else c[g.id.value := map[]];
      c1[g.id.value := RowSpec(c1[g.id.value], e, s, g.lines)]
  }

  /** The loop over the successors `values[1:]` of edge `e`. */
  function NextsSpec(cA: RegionMap, regs: seq<Reg>, me: string, e: int, nexts: seq<int>): RegionMap {
    if |nexts| == 0 then cA
    else OthersSpec(NextsSpec(cA, regs, me, e, nexts[..|nexts| - 1]), regs, me, e, nexts[|nexts| - 1])
  }

  /** The loop over the lines of region A's own file. */
  function LinesSpec(regs: seq<Reg>, me: string, lines: seq<Line>): RegionMap {
    if |lines| == 0 then map[]
    else LineSpec(LinesSpec(regs, me, lines[..|lines| - 1]), regs, me, lines[|lines| - 1])
  }

  /** One line of region A's file: its first value is the edge, the rest its successors. */
  function LineSpec(c: RegionMap, regs: seq<Reg>, me: string, line: Line): RegionMap {
    if |line| == 0 then c else NextsSpec(c, regs, me, line[0], line[1..])
  }

  /** The outer loop over the first `k` files: each resets and then fills its own entry. */
  function ConnUpto(regs: seq<Reg>, k: nat): Span.Conns
    requires k <= |regs|
  {
    if k == 0 then map[]
    else
      var c := ConnUpto(regs, k - 1);
      var f := regs[k - 1];
      if f.id.None? then c else c[f.id.value := LinesSpec(regs, f.name, f.lines)]
  }

  /** What `create_RegionConnections_for_Top_Leader` returns, or the error it raises. */
  function ConnSpec(prefix: string, ext: string, listing: seq<RegFile>): Result<Span.Conns> {
    var regs := Parsed(prefix, ext, Listed(prefix, ext, listing));
    if AllOk(regs) then Ok(ConnUpto(regs, |regs|)) else Err(ValueError)
  }

  // ---------------------------------------------------------------- the loops

  method ReadOther(row: Row, e: int, s: int, lines2: seq<Line>) returns (r: Result<Row>)
    ensures r == if LinesOk(lines2) then Ok(RowSpec(row, e, s, lines2)) else Err(ValueError)
  {
    var cur := row;
    var k := 0;
    while k < |lines2|
      invariant 0 <= k <= |lines2| && cur == RowSpec(row, e, s, lines2[..k])
      invariant forall m :: 0 <= m < k ==> |lines2[m]| > 0
    {
      assert lines2[..k + 1][..k] == lines2[..k];
      var values2 := lines2[k];
      if |values2| == 0 {
        return Err(ValueError);
      }
      if values2[0] == s {
        cur := cur[e := Get(cur, e) + [s]];
      }
      k := k + 1;
    }
    assert lines2[..|lines2|] == lines2;
    return Ok(cur);
  }

  /** The loop over the other files for successor `s`, parsing each name as it goes. */
  method OverOthers(cA: RegionMap, prefix: string, ext: string, files: seq<RegFile>, ghost regs: seq<Reg>, me: string, e: int, s: int)
    returns (r: Result<RegionMap>)
    requires ParsedAs(prefix, ext, files, regs)
    ensures r.Ok? ==> r.value == OthersSpec(cA, regs, me, e, s)
    ensures r.Err? ==> !AllOk(regs) && r.error == ValueError
    ensures AllOk(regs) ==> r.Ok?
  {
    var c := cA;
    var j := 0;
    while j < |files|
      invariant 0 <= j <= |files|
      invariant c == OthersSpec(cA, regs[..j], me, e, s)
    {
      assert regs[..j + 1][..j] == regs[..j];
      c :- OtherFile(c, prefix, ext, files, regs, me, e, s, j);
      j := j + 1;
    }
    assert regs[..|regs|] == regs;
    return Ok(c);
  }

  /** One pass of that loop: file `j`, unless it is region A's own, gets its row for `e`. */
  method OtherFile(c: RegionMap, prefix: string, ext: string, files: seq<RegFile>, ghost regs: seq<Reg>, me: string, e: int, s: int, j: nat)
    returns (r: Result<RegionMap>)
    requires ParsedAs(prefix, ext, files, regs) && j < |files|
    ensures r.Ok? ==> r.value == OtherSpec(c, regs[j], me, e, s)
    ensures r.Err? ==> !RegOk(regs[j]) && r == Err(ValueError)
  {
    var other := files[j];
    if other.name == me {
      return Ok(c);
    }
    var id := FileId(prefix, ext, other.name);
    if id.None? {
      return Err(ValueError);
    }
    var c1 := c;
    if id.value !in c1 {
      c1 := c1[id.value := map[]];
    }
    var row := ReadOther(c1[id.value], e, s, other.lines);
    if row.Err? {
      return Err(ValueError);
    }
    return Ok(c1[id.value := row.value]);
  }

  method OverNexts(cA: RegionMap, prefix: string, ext: string, files: seq<RegFile>, ghost regs: seq<Reg>, me: string, e: int, nexts: seq<int>)
    returns (r: Result<RegionMap>)
    requires ParsedAs(prefix, ext, files, regs)
    ensures r.Ok? ==> r.value == NextsSpec(cA, regs, me, e, nexts)
    ensures r.Err? ==> !AllOk(regs) && r.error == ValueError
    ensures AllOk(regs) ==> r.Ok?
  {
    var c := cA;
    var k := 0;
    while k < |nexts|
      invariant 0 <= k <= |nexts| && c == NextsSpec(cA, regs, me, e, nexts[..k])
    {
      assert nexts[..k + 1][..k] == nexts[..k];
      c :- OverOthers(c, prefix, ext, files, regs, me, e, nexts[k]);
      k := k + 1;
    }
    assert nexts[..|nexts|] == nexts;
    return Ok(c);
  }

  /** The lines of file `a`, read and followed successor by successor. */
  method OverOwnLines(prefix: string, ext: string, files: seq<RegFile>, ghost regs: seq<Reg>, a: nat) returns (r: Result<RegionMap>)
    requires ParsedAs(prefix, ext, files, regs) && a < |files|
    ensures r.Ok? ==> r.value == LinesSpec(regs, files[a].name, files[a].lines) && LinesOk(files[a].lines)
    ensures r.Err? ==> !AllOk(regs) && r.error == ValueError
    ensures AllOk(regs) ==> r.Ok?
  {
    var lines := files[a].lines;
    var c: RegionMap := map[];
    var k := 0;
    while k < |lines|
      invariant 0 <= k <= |lines| && forall m :: 0 <= m < k ==> |lines[m]| > 0
      invariant c == LinesSpec(regs, files[a].name, lines[..k])
    {
      if |lines[k]| == 0 {
        assert !RegOk(regs[a]);
        return Err(ValueError);
      }
      c :- OwnLine(c, prefix, ext, files, regs, files[a].name, lines, k);
      k := k + 1;
    }
    assert lines[..|lines|] == lines;
    return Ok(c);
  }

  /** Line `k` of region A's file: its first value is the edge and the rest its successors. */
  method OwnLine(c: RegionMap, prefix: string, ext: string, files: seq<RegFile>, ghost regs: seq<Reg>, me: string, lines: seq<Line>, k: nat)
    returns (r: Result<RegionMap>)
    requires ParsedAs(prefix, ext, files, regs)
    requires k < |lines| && |lines[k]| > 0 && c == LinesSpec(regs, me, lines[..k])
    ensures r.Ok? ==> r.value == LinesSpec(regs, me, lines[..k + 1])
    ensures r.Err? ==> !AllOk(regs) && r == Err(ValueError)
  {
    assert lines[..k + 1][..k] == lines[..k];
    var values := lines[k];
    r := OverNexts(c, prefix, ext, files, regs, me, values[0], values[1..]);
    if r.Err? {
      return Err(ValueError);
    }
  }

  method CreateRegionConnectionsForTopLeader(prefix: string, ext: string, listing: seq<RegFile>) returns (r: Result<Span.Conns>)
    ensures r == ConnSpec(prefix, ext, listing)
  {
    var files := Listed(prefix, ext, listing);
    r := OverFiles(prefix, ext, files);
  }

  /** The outer loop, over the listed regional files. */
  method OverFiles(prefix: string, ext: string, files: seq<RegFile>) returns (r: Result<Span.Conns>)
    ensures var regs := Parsed(prefix, ext, files);
      r == if AllOk(regs) then Ok(ConnUpto(regs, |regs|)) else Err(ValueError)
  {
    ghost var regs := Parsed(prefix, ext, files);
    ParsedAll(prefix, ext, files);
    var conn: Span.Conns := map[];
    var a := 0;
    while a < |files|
      invariant 0 <= a <= |files|
      invariant AllOk(regs[..a])
      invariant conn == ConnUpto(regs, a)
    {
      conn :- OneFile(prefix, ext, files, regs, a, conn);
      GoodFile(regs, a);
      a := a + 1;
    }
    assert regs[..|regs|] == regs;
    return Ok(conn);
  }

  /** One pass of the outer loop: reset the file's entry, then fill it from its lines. */
  method OneFile(prefix: string, ext: string, files: seq<RegFile>, ghost regs: seq<Reg>, a: nat, conn: Span.Conns) returns (r: Result<Span.Conns>)
    requires ParsedAs(prefix, ext, files, regs) && a < |files| && conn == ConnUpto(regs, a)
    ensures r.Ok? ==> RegOk(regs[a]) && r.value == ConnUpto(regs, a + 1)
    ensures r.Err? ==> !AllOk(regs) && r == Err(ValueError)
  {
    var id := FileId(prefix, ext, files[a].name);
    if id.None? {
      assert !RegOk(regs[a]);
      return Err(ValueError);
    }
    var c := conn[id.value := map[]];
    var cA := OverOwnLines(prefix, ext, files, regs, a);
    if cA.Err? {
      return Err(ValueError);
    }
    return Ok(c[id.value := cA.value]);
  }

  lemma GoodFile(regs: seq<Reg>, a: nat)
    requires a < |regs| && AllOk(regs[..a]) && RegOk(regs[a])
    ensures AllOk(regs[..a + 1])
  {
    assert forall k :: 0 <= k < a ==> regs[..a + 1][k] == regs[..a][k];
  }
}

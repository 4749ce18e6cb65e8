/**
 * Map partitioning (`main_partitioning_map_`, `recursively_map_partition`
 * and `partition_data` in Code/preparation.py and
 * Code/HoMoPaD/preparation.py): the edge records are split at the midpoint
 * of their x-coordinates into a left part '1' and a right part '2', level by
 * level, and every part is written to a file named after the digits of its
 * ancestors and its level.  The records are read from lines already split at
 * commas into integers; a file written at one level is read back at the next.
 */
module Partition {
  import opened Wrappers
  import opened Seqs
  import PyStr
  import Engine

  type Line = seq<int>

  /** One edge record: `edgeID, nodeID1, nodeID2, x1, y1, x2, y2`. */
  datatype Rec = Rec(edge: int, n1: int, n2: int, x1: int, y1: int, x2: int, y2: int)

  datatype Side = Left | Right

  /** A written part: its file name, its level `i` and its records. */
  datatype File = File(name: string, level: int, recs: seq<Rec>)

  /** `int(values[0])` of a blank line fails; a line of fewer than seven fields has no `values[6]`. */
  function ParseRec(l: Line): Result<Rec> {
    if |l| == 0 then Err(ValueError)
    else if |l| < 7 then Err(IndexError)
    else Ok(Rec(l[0], l[1], l[2], l[3], l[4], l[5], l[6]))
  }

  /** The records of a file, read line by line; the first bad line stops the read. */
  function ParseAll(lines: seq<Line>): Result<seq<Rec>> {
    if |lines| == 0 then Ok([])
    else
      var init :- ParseAll(lines[..|lines| - 1]);
      var r :- ParseRec(lines[|lines| - 1]);
      Ok(init + [r])
  }

  /** `','.join(str(value) for value in record.values())`, the line a part's file holds. */
  function Fields(r: Rec): Line {
    [r.edge, r.n1, r.n2, r.x1, r.y1, r.x2, r.y2]
  }

  function Lines(rs: seq<Rec>): (ls: seq<Line>)
    ensures |ls| == |rs| && forall k :: 0 <= k < |rs| ==> ls[k] == Fields(rs[k])
  {
    if |rs| == 0 then [] else [Fields(rs[0])] + Lines(rs[1..])
  }

  /** A read succeeds exactly when every line holds a record, and then yields them in order. */
  lemma {:induction false} ParseAllRule(lines: seq<Line>)
    ensures ParseAll(lines).Ok? <==> forall k :: 0 <= k < |lines| ==> ParseRec(lines[k]).Ok?
    ensures ParseAll(lines).Ok? ==>
      |ParseAll(lines).value| == |lines| &&
      forall k :: 0 <= k < |lines| ==> ParseRec(lines[k]) == Ok(ParseAll(lines).value[k])
    ensures ParseAll(lines).Err? ==> exists k :: 0 <= k < |lines| && ParseRec(lines[k]) == Err(ParseAll(lines).error)
  {
    if |lines| > 0 {
      var init := lines[..|lines| - 1];
      ParseAllRule(init);
      assert forall k :: 0 <= k < |init| ==> lines[k] == init[k];
      if ParseAll(init).Err? {
        var k :| 0 <= k < |init| && ParseRec(init[k]) == Err(ParseAll(init).error);
        assert ParseRec(lines[k]) == Err(ParseAll(lines).error);
      }
    }
  }

  /** Once a prefix of the lines fails to read, the whole file fails the same way. */
  lemma {:induction false} ParseAllSticky(lines: seq<Line>, k: nat)
    requires k <= |lines| && ParseAll(lines[..k]).Err?
    ensures ParseAll(lines) == ParseAll(lines[..k])
    decreases |lines| - k
  {
    if k < |lines| {
      assert lines[..k + 1][..k] == lines[..k];
      ParseAllSticky(lines, k + 1);
    } else {
      assert lines[..k] == lines;
    }
  }

  /** A part written at one level is read back unchanged at the next. */
  lemma {:induction false} ReadBack(rs: seq<Rec>)
    ensures ParseAll(Lines(rs)) == Ok(rs)
  {
    if |rs| > 0 {
      var init, last := rs[..|rs| - 1], rs[|rs| - 1];
      var ls := Lines(rs);
      assert ls[..|rs| - 1] == Lines(init);
      ReadBack(init);
      assert ls[|rs| - 1] == Fields(last);
      ParseAllLast(ls, init, last);
      assert init + [last] == rs;
    }
  }

  lemma ParseAllLast(lines: seq<Line>, rs: seq<Rec>, r: Rec)
    requires |lines| > 0 && ParseAll(lines[..|lines| - 1]) == Ok(rs) && ParseRec(lines[|lines| - 1]) == Ok(r)
    ensures ParseAll(lines) == Ok(rs + [r])
  {
  }

  // ---------------------------------------------------------------- the midpoint

  /** `min(min(record['x1'], record['x2']) for record in data)`. */
  function MinX(data: seq<Rec>): int
    requires |data| > 0
  {
    var here := if data[0].x1 <= data[0].x2 then data[0].x1 else data[0].x2;
    if |data| == 1 then here
    else
      var rest := MinX(data[1..]);
      if here <= rest then here else rest
  }

  /** `max(max(record['x1'], record['x2']) for record in data)`. */
  function MaxX(data: seq<Rec>): int
    requires |data| > 0
  {
    var here := if data[0].x1 >= data[0].x2 then data[0].x1 else data[0].x2;
    if |data| == 1 then here
    else
      var rest := MaxX(data[1..]);
      if here >= rest then here else rest
  }

  /** The two are the least and the greatest x-coordinate of any endpoint. */
  lemma {:induction false} MinMaxX(data: seq<Rec>)
    requires |data| > 0
    ensures forall k :: 0 <= k < |data| ==> MinX(data) <= data[k].x1 <= MaxX(data) && MinX(data) <= data[k].x2 <= MaxX(data)
    ensures exists k :: 0 <= k < |data| && (MinX(data) == data[k].x1 || MinX(data) == data[k].x2)
    ensures exists k :: 0 <= k < |data| && (MaxX(data) == data[k].x1 || MaxX(data) == data[k].x2)
  {
    if |data| > 1 {
      MinMaxX(data[1..]);
      assert forall k :: 1 <= k < |data| ==> data[k] == data[1..][k - 1];
      var a :| 0 <= a < |data| - 1 && (MinX(data[1..]) == data[1..][a].x1 || MinX(data[1..]) == data[1..][a].x2);
      var b :| 0 <= b < |data| - 1 && (MaxX(data[1..]) == data[1..][b].x1 || MaxX(data[1..]) == data[1..][b].x2);
      assert data[a + 1] == data[1..][a];
      assert data[b + 1] == data[1..][b];
    }
  }

  /** `split_x = (min_x + max_x) / 2`, a float in the source and an exact real here. */
  function SplitX(data: seq<Rec>): real
    requires |data| > 0
  {
    (MinX(data) + MaxX(data)) as real / 2.0
  }

  // ---------------------------------------------------------------- one bisection

  function Abs(x: real): real {
    if x < 0.0 then -x else x
  }

  /**
   * The branch of `partition_data` a record takes.  The older copy adds the
   * test `(x1 <= split and x2 >= split) or (x2 <= split and x1 >= split)` in
   * front of the crossing case and drops a record that fails it.
   */
  function SideOf(variant: Engine.Variant, split: real, r: Rec): Option<Side> {
    var x1 := r.x1 as real;
    var x2 := r.x2 as real;
    if x1 <= split && x2 <= split then Some(Left)
    else if x1 > split && x2 > split then Some(Right)
    else if variant == Engine.Older && !((x1 <= split && x2 >= split) || (x2 <= split && x1 >= split)) then None
    else if Abs(x1 - split) >= Abs(x2 - split) then (if x1 > x2 then Some(Right) else Some(Left))
    else (if x2 > x1 then Some(Right) else Some(Left))
  }

  /** The records of `data` that land on `side`, in order. */
  function Part(variant: Engine.Variant, split: real, data: seq<Rec>, side: Side): seq<Rec> {
    if |data| == 0 then []
    else
      var last := data[|data| - 1];
      Part(variant, split, data[..|data| - 1], side) + (if SideOf(variant, split, last) == Some(side) then [last] else [])
  }

  /** The dictionary `partition_data` returns, as its items in order. */
  function BisectSpec(variant: Engine.Variant, data: seq<Rec>, split: real, depth: int): seq<(char, seq<Rec>)> {
    if depth == 0 then [('1', data)]
    else [('1', Part(variant, split, data, Left)), ('2', Part(variant, split, data, Right))]
  }

  method PartitionData(variant: Engine.Variant, data: seq<Rec>, split: real, depth: int) returns (parts: seq<(char, seq<Rec>)>)
    ensures parts == BisectSpec(variant, data, split, depth)
  {
    var left: seq<Rec> := [];
    var right: seq<Rec> := [];
    if depth == 0 {
      var k := 0;
      while k < |data|
        invariant 0 <= k <= |data| && left == data[..k]
      {
        left := left + [data[k]];
        k := k + 1;
      }
      assert data[..|data|] == data;
      return [('1', left)];
    }
    var k := 0;
    while k < |data|
      invariant 0 <= k <= |data|
      invariant left == Part(variant, split, data[..k], Left) && right == Part(variant, split, data[..k], Right)
    {
      assert data[..k + 1][..k] == data[..k];
      var side := SideOf(variant, split, data[k]);
      if side == Some(Left) {
        left := left + [data[k]];
      } else if side == Some(Right) {
        right := right + [data[k]];
      }
      k := k + 1;
    }
    assert data[..|data|] == data;
    return [('1', left), ('2', right)];
  }

  /** The endpoint farther from the split line; on a tie, the first. */
  function Far(split: real, r: Rec): real {
    if Abs(r.x1 as real - split) >= Abs(r.x2 as real - split) then r.x1 as real else r.x2 as real
  }

  /**
   * In both copies a record lands on the side of its endpoint farthest from
   * the split line, the first endpoint on a tie: both endpoints left of or on
   * the line go left, both right go right.  In particular the older copy's
   * extra crossing test never fails.
   */
  lemma SideRule(variant: Engine.Variant, split: real, r: Rec)
    ensures SideOf(variant, split, r) == Some(if Far(split, r) > split then Right else Left)
  {
  }

  lemma {:induction false} PartSplits(variant: Engine.Variant, split: real, data: seq<Rec>)
    ensures multiset(Part(variant, split, data, Left)) + multiset(Part(variant, split, data, Right)) == multiset(data)
  {
    if |data| > 0 {
      var init := data[..|data| - 1];
      var last := data[|data| - 1];
      PartSplits(variant, split, init);
      var toLeft := SideOf(variant, split, last) == Some(Left);
      SideSome(variant, split, last);
      assert Part(variant, split, data, Left) == Part(variant, split, init, Left) + (if toLeft then [last] else []);
      assert Part(variant, split, data, Right) == Part(variant, split, init, Right) + (if toLeft then [] else [last]);
      LastSplit(data);
      SplitStep(Part(variant, split, init, Left), Part(variant, split, init, Right), init, last, toLeft);
    }
  }

  lemma SideSome(variant: Engine.Variant, split: real, r: Rec)
    ensures SideOf(variant, split, r) == Some(Left) || SideOf(variant, split, r) == Some(Right)
  {
    SideRule(variant, split, r);
  }

  lemma SplitStep<T>(a: seq<T>, b: seq<T>, c: seq<T>, x: T, toLeft: bool)
    requires multiset(a) + multiset(b) == multiset(c)
    ensures multiset(a + (if toLeft then [x] else [])) + multiset(b + (if toLeft then [] else [x])) == multiset(c + [x])
  {
  }

  lemma {:induction false} PartOrder(variant: Engine.Variant, split: real, data: seq<Rec>, side: Side)
    ensures IsSubseq(Part(variant, split, data, side), data)
  {
    if |data| > 0 {
      var init := data[..|data| - 1];
      var last := data[|data| - 1];
      var p := Part(variant, split, init, side);
      PartOrder(variant, split, init, side);
      LastSplit(data);
      SubseqSnoc(p, init, last);
      if SideOf(variant, split, last) == Some(side) {
        assert Part(variant, split, data, side) == p + [last];
      } else {
        assert Part(variant, split, data, side) == p;
      }
    }
  }

  /**
   * Every record lands in exactly one of the two parts, each part keeps the
   * order of the input, and at depth 0 everything is in part '1'.
   */
  lemma BisectRule(variant: Engine.Variant, data: seq<Rec>, split: real, depth: int)
    ensures depth == 0 ==> BisectSpec(variant, data, split, depth) == [('1', data)]
    ensures depth != 0 ==>
      var parts := BisectSpec(variant, data, split, depth);
      |parts| == 2 && parts[0].0 == '1' && parts[1].0 == '2' &&
      multiset(parts[0].1) + multiset(parts[1].1) == multiset(data) &&
      IsSubseq(parts[0].1, data) && IsSubseq(parts[1].1, data) &&
      (forall r :: r in parts[0].1 ==> Far(split, r) <= split) &&
      (forall r :: r in parts[1].1 ==> Far(split, r) > split)
  {
    if depth != 0 {
      PartSplits(variant, split, data);
      PartOrder(variant, split, data, Left);
      PartOrder(variant, split, data, Right);
      PartFar(variant, split, data);
    }
  }

  /** A record in the left part has its far endpoint on or left of the line, one in the right part beyond it. */
  lemma PartFar(variant: Engine.Variant, split: real, data: seq<Rec>)
    ensures forall r :: r in Part(variant, split, data, Left) ==> Far(split, r) <= split
    ensures forall r :: r in Part(variant, split, data, Right) ==> Far(split, r) > split
  {
    PartSides(variant, split, data, Left);
    PartSides(variant, split, data, Right);
    forall r | r in Part(variant, split, data, Left) || r in Part(variant, split, data, Right)
      ensures r in Part(variant, split, data, Left) ==> Far(split, r) <= split
      ensures r in Part(variant, split, data, Right) ==> Far(split, r) > split
    {
      SideRule(variant, split, r);
    }
  }

  lemma {:induction false} PartSides(variant: Engine.Variant, split: real, data: seq<Rec>, side: Side)
    ensures forall r :: r in Part(variant, split, data, side) ==> SideOf(variant, split, r) == Some(side)
  {
    if |data| > 0 {
      PartSides(variant, split, data[..|data| - 1], side);
    }
  }

  // ---------------------------------------------------------------- the recursion

  /** `f'{prefix_file_Name_map}{right_left}{i}.txt'`. */
  function FileName(prefix: string, side: char, i: int): string {
    prefix + [side] + PyStr.Show(i) + ".txt"
  }

  /**
   * The files `recursively_map_partition` writes, in the order it writes
   * them: both parts of this level, then everything below part '1', then
   * everything below part '2'.  An empty part is written but not split
   * further.  `min()` over no records raises ValueError.
   */
  function MapPartitionSpec(variant: Engine.Variant, lines: seq<Line>, prefix: string, depth: int, i: int): Result<seq<File>>
    decreases if i > depth then 0 else depth - i + 1, 1
  {
    if i > depth then Ok([])
    else
      var data :- ParseAll(lines);
      if |data| == 0 then Err(ValueError)
      else Level(variant, data, prefix, depth, i)
  }

  /** One level of the recursion, once the records are read. */
  function Level(variant: Engine.Variant, data: seq<Rec>, prefix: string, depth: int, i: int): Result<seq<File>>
    requires |data| > 0 && i <= depth
    decreases depth - i + 1, 0
  {
    if depth == 0 then Ok([File(FileName(prefix, '1', i), i, data)])
    else
      var split := SplitX(data);
      var left := Part(variant, split, data, Left);
      var right := Part(variant, split, data, Right);
      var deepLeft :- Deeper(variant, left, prefix + "1", depth, i + 1);
      var deepRight :- Deeper(variant, right, prefix + "2", depth, i + 1);
      Ok([File(FileName(prefix, '1', i), i, left), File(FileName(prefix, '2', i), i, right)] + deepLeft + deepRight)
  }

  /** `if right_left_data[right_left]:` the recursive call on a written part, skipped when it is empty. */
  function Deeper(variant: Engine.Variant, part: seq<Rec>, prefix: string, depth: int, i: int): Result<seq<File>>
    decreases if i > depth then 0 else depth - i + 1, 2
  {
    if |part| > 0 then MapPartitionSpec(variant, Lines(part), prefix, depth, i) else Ok([])
  }

  /** `main_partitioning_map_`: depth 0 writes level 0, any other depth starts at level 1. */
  function StartLevel(depth: int): int {
    if depth == 0 then 0 else 1
  }

  /** Reads the records of one file, as the `for line in lines` loop does. */
  method ReadRecords(lines: seq<Line>) returns (r: Result<seq<Rec>>)
    ensures r == ParseAll(lines)
  {
    var data: seq<Rec> := [];
    var k := 0;
    while k < |lines|
      invariant 0 <= k <= |lines| && ParseAll(lines[..k]) == Ok(data)
    {
      assert lines[..k + 1][..k] == lines[..k];
      var rec := ParseRec(lines[k]);
      if rec.Err? {
        assert ParseAll(lines[..k + 1]) == Err(rec.error);
        ParseAllSticky(lines, k + 1);
        return Err(rec.error);
      }
      data := data + [rec.value];
      k := k + 1;
    }
    assert lines[..|lines|] == lines;
    return Ok(data);
  }

  method RecursivelyMapPartition(variant: Engine.Variant, lines: seq<Line>, prefix: string, depth: int, i: int)
    returns (r: Result<seq<File>>)
    ensures r == MapPartitionSpec(variant, lines, prefix, depth, i)
    decreases if i > depth then 0 else depth - i + 1, 1
  {
    if i > depth {
      return Ok([]);
    }
    var read := ReadRecords(lines);
    if read.Err? {
      return Err(read.error);
    }
    var data := read.value;
    if |data| == 0 {
      return Err(ValueError);
    }
    r := MapLevel(variant, data, prefix, depth, i);
  }

  /** The part of `recursively_map_partition` after the read: split, write, recurse. */
  method MapLevel(variant: Engine.Variant, data: seq<Rec>, prefix: string, depth: int, i: int)
    returns (r: Result<seq<File>>)
    requires |data| > 0 && i <= depth
    ensures r == Level(variant, data, prefix, depth, i)
    decreases depth - i + 1, 0
  {
    var split := SplitX(data);
    if depth == 0 {
      var parts := PartitionData(variant, data, 0.0, depth);
      return Ok([File(FileName(prefix, parts[0].0, i), i, parts[0].1)]);
    }
    var parts := PartitionData(variant, data, split, depth);
    var left := parts[0].1;
    var right := parts[1].1;
    var files := [File(FileName(prefix, parts[0].0, i), i, left), File(FileName(prefix, parts[1].0, i), i, right)];
    // The dictionary has the two keys '1' and '2', visited in that order.
    var deepLeft: seq<File> := [];
    if |left| > 0 {
      deepLeft :- RecursivelyMapPartition(variant, Lines(left), prefix + [parts[0].0], depth, i + 1);
    }
    var deepRight: seq<File> := [];
    if |right| > 0 {
      deepRight :- RecursivelyMapPartition(variant, Lines(right), prefix + [parts[1].0], depth, i + 1);
    }
    return Ok(files + deepLeft + deepRight);
  }

  /** `main_partitioning_map_`, leaving out the deletion of the other map files afterwards. */
  method MainPartitioningMap(variant: Engine.Variant, lines: seq<Line>, prefix: string, depth: int) returns (r: Result<seq<File>>)
    ensures r == MapPartitionSpec(variant, lines, prefix, depth, StartLevel(depth))
  {
    var i := if depth == 0 then 0 else 1;
    r := RecursivelyMapPartition(variant, lines, prefix, depth, i);
  }

  // ---------------------------------------------------------------- what the recursion writes

  /** The records written at level `L`, over all files. */
  function LevelBag(files: seq<File>, L: int): multiset<Rec> {
    if |files| == 0 then multiset{}
    else
      var last := files[|files| - 1];
      LevelBag(files[..|files| - 1], L) + (if last.level == L then multiset(last.recs) else multiset{})
  }

  lemma {:induction false} LevelBagAppend(a: seq<File>, b: seq<File>, L: int)
    ensures LevelBag(a + b, L) == LevelBag(a, L) + LevelBag(b, L)
    decreases |b|
  {
    if |b| > 0 {
      assert (a + b)[..|a + b| - 1] == a + b[..|b| - 1];
      LevelBagAppend(a, b[..|b| - 1], L);
    } else {
      assert a + b == a;
    }
  }

  lemma {:induction false} LevelBagNone(files: seq<File>, L: int)
    requires forall f :: f in files ==> f.level != L
    ensures LevelBag(files, L) == multiset{}
  {
    if |files| > 0 {
      assert files[|files| - 1] in files;
      LevelBagNone(files[..|files| - 1], L);
    }
  }

  /** At depth 0 the one file is `<prefix>10.txt` and holds every record. */
  lemma DepthZero(variant: Engine.Variant, lines: seq<Line>, prefix: string)
    requires ParseAll(lines).Ok? && |ParseAll(lines).value| > 0
    ensures MapPartitionSpec(variant, lines, prefix, 0, StartLevel(0)) == Ok([File(prefix + "10.txt", 0, ParseAll(lines).value)])
  {
    assert PyStr.Show(0) == "0";
    assert FileName(prefix, '1', 0) == prefix + "10.txt";
  }

  /** A part the recursion reads back yields the same files as splitting it directly. */
  lemma DeeperIsLevel(variant: Engine.Variant, part: seq<Rec>, prefix: string, depth: int, i: int)
    ensures |part| > 0 && i <= depth ==> Deeper(variant, part, prefix, depth, i) == Level(variant, part, prefix, depth, i)
    ensures |part| == 0 || i > depth ==> Deeper(variant, part, prefix, depth, i) == Ok([])
  {
    ReadBack(part);
  }

  /** Once some record is read, no level of the recursion can fail. */
  lemma {:induction false} LevelOk(variant: Engine.Variant, data: seq<Rec>, prefix: string, depth: int, i: int)
    requires |data| > 0 && i <= depth
    ensures Level(variant, data, prefix, depth, i).Ok?
    decreases depth - i
  {
    if depth != 0 {
      var split := SplitX(data);
      var left := Part(variant, split, data, Left);
      var right := Part(variant, split, data, Right);
      DeeperIsLevel(variant, left, prefix + "1", depth, i + 1);
      DeeperIsLevel(variant, right, prefix + "2", depth, i + 1);
      if |left| > 0 && i + 1 <= depth {
        LevelOk(variant, left, prefix + "1", depth, i + 1);
      }
      if |right| > 0 && i + 1 <= depth {
        LevelOk(variant, right, prefix + "2", depth, i + 1);
      }
      assert Deeper(variant, left, prefix + "1", depth, i + 1).Ok?;
      assert Deeper(variant, right, prefix + "2", depth, i + 1).Ok?;
    }
  }

  /**
   * The run fails exactly when the input file does not read or holds no
   * record, and then with the read's error or ValueError.
   */
  lemma MapPartitionOk(variant: Engine.Variant, lines: seq<Line>, prefix: string, depth: int, i: int)
    requires i <= depth
    ensures MapPartitionSpec(variant, lines, prefix, depth, i).Ok? <==> ParseAll(lines).Ok? && |ParseAll(lines).value| > 0
    ensures ParseAll(lines).Err? ==> MapPartitionSpec(variant, lines, prefix, depth, i) == Err(ParseAll(lines).error)
    ensures ParseAll(lines) == Ok([]) ==> MapPartitionSpec(variant, lines, prefix, depth, i) == Err(ValueError)
  {
    if ParseAll(lines).Ok? && |ParseAll(lines).value| > 0 {
      LevelOk(variant, ParseAll(lines).value, prefix, depth, i);
    }
  }

  /** Every file is written at a level between the starting level and the depth. */
  lemma {:induction false} LevelLevels(variant: Engine.Variant, data: seq<Rec>, prefix: string, depth: int, i: int)
    requires |data| > 0 && i <= depth && Level(variant, data, prefix, depth, i).Ok?
    ensures forall f :: f in Level(variant, data, prefix, depth, i).value ==> i <= f.level <= depth
    decreases depth - i, 1
  {
    if depth != 0 {
      var split := SplitX(data);
      var left := Part(variant, split, data, Left);
      var right := Part(variant, split, data, Right);
      LevelFiles(variant, data, prefix, depth, i);
      DeeperLevels(variant, left, prefix + "1", depth, i);
      DeeperLevels(variant, right, prefix + "2", depth, i);
    }
  }

  lemma {:induction false} DeeperLevels(variant: Engine.Variant, part: seq<Rec>, prefix: string, depth: int, i: int)
    requires i <= depth && Deeper(variant, part, prefix, depth, i + 1).Ok?
    ensures forall f :: f in Deeper(variant, part, prefix, depth, i + 1).value ==> i + 1 <= f.level <= depth
    decreases depth - i, 0
  {
    DeeperIsLevel(variant, part, prefix, depth, i + 1);
    if |part| > 0 && i + 1 <= depth {
      LevelLevels(variant, part, prefix, depth, i + 1);
    }
  }

  /** The files of one level with a non-zero depth: this level's two parts, then the files below each. */
  lemma LevelFiles(variant: Engine.Variant, data: seq<Rec>, prefix: string, depth: int, i: int)
    requires |data| > 0 && depth != 0 && i <= depth && Level(variant, data, prefix, depth, i).Ok?
    ensures
      var split := SplitX(data);
      var left := Part(variant, split, data, Left);
      var right := Part(variant, split, data, Right);
      Deeper(variant, left, prefix + "1", depth, i + 1).Ok? && Deeper(variant, right, prefix + "2", depth, i + 1).Ok? &&
      Level(variant, data, prefix, depth, i).value ==
        [File(FileName(prefix, '1', i), i, left), File(FileName(prefix, '2', i), i, right)] +
        Deeper(variant, left, prefix + "1", depth, i + 1).value + Deeper(variant, right, prefix + "2", depth, i + 1).value
  {
  }

  lemma PairBag(a: File, b: File, L: int)
    ensures LevelBag([a, b], L) ==
      (if a.level == L then multiset(a.recs) else multiset{}) + (if b.level == L then multiset(b.recs) else multiset{})
  {
    assert [a, b][..1] == [a];
    assert [a][..0] == [];
    assert LevelBag([a], L) == if a.level == L then multiset(a.recs) else multiset{};
  }

  /**
   * With a non-zero depth every level from the starting level to the depth
   * holds each record of the input exactly once, over all of its files.
   */
  lemma {:induction false} LevelBags(variant: Engine.Variant, data: seq<Rec>, prefix: string, depth: int, i: int, L: int)
    requires |data| > 0 && depth != 0 && i <= L <= depth && Level(variant, data, prefix, depth, i).Ok?
    ensures LevelBag(Level(variant, data, prefix, depth, i).value, L) == multiset(data)
    decreases depth - i
  {
    var split := SplitX(data);
    var left := Part(variant, split, data, Left);
    var right := Part(variant, split, data, Right);
    PartSplits(variant, split, data);
    LevelFiles(variant, data, prefix, depth, i);
    var here := [File(FileName(prefix, '1', i), i, left), File(FileName(prefix, '2', i), i, right)];
    var deepLeft := Deeper(variant, left, prefix + "1", depth, i + 1).value;
    var deepRight := Deeper(variant, right, prefix + "2", depth, i + 1).value;
    LevelBagAppend(here + deepLeft, deepRight, L);
    LevelBagAppend(here, deepLeft, L);
    PairBag(here[0], here[1], L);
    DeeperBag(variant, left, prefix + "1", depth, i, L);
    DeeperBag(variant, right, prefix + "2", depth, i, L);
  }

  /** What the recursion below one part of level `i` adds to the records of level `L`. */
  lemma {:induction false} DeeperBag(variant: Engine.Variant, part: seq<Rec>, prefix: string, depth: int, i: int, L: int)
    requires depth != 0 && i <= L <= depth && Deeper(variant, part, prefix, depth, i + 1).Ok?
    ensures LevelBag(Deeper(variant, part, prefix, depth, i + 1).value, L) == if L == i then multiset{} else multiset(part)
    decreases depth - i, 0
  {
    DeeperIsLevel(variant, part, prefix, depth, i + 1);
    if |part| > 0 && i + 1 <= depth {
      if L == i {
        LevelLevels(variant, part, prefix, depth, i + 1);
        LevelBagNone(Deeper(variant, part, prefix, depth, i + 1).value, L);
      } else {
        LevelBags(variant, part, prefix, depth, i + 1, L);
      }
    }
  }

  /** A string of part digits, '1' for a left part and '2' for a right one. */
  predicate Sides(s: string) {
    forall k :: 0 <= k < |s| ==> s[k] == '1' || s[k] == '2'
  }

  /** `f` is named after the parts it descends through from level `i` down to its own level. */
  ghost predicate NamedBelow(prefix: string, i: int, f: File) {
    exists sides: string :: |sides| == f.level - i + 1 && Sides(sides) && f.name == prefix + sides + PyStr.Show(f.level) + ".txt"
  }

  lemma NamedShift(prefix: string, c: char, i: int, f: File)
    requires c == '1' || c == '2'
    requires NamedBelow(prefix + [c], i + 1, f)
    ensures NamedBelow(prefix, i, f)
  {
    var sides: string :| |sides| == f.level - (i + 1) + 1 && Sides(sides) && f.name == prefix + [c] + sides + PyStr.Show(f.level) + ".txt";
    assert prefix + [c] + sides == prefix + ([c] + sides);
    assert Sides([c] + sides);
  }

  lemma NamedHere(prefix: string, c: char, i: int, recs: seq<Rec>)
    requires c == '1' || c == '2'
    ensures NamedBelow(prefix, i, File(FileName(prefix, c, i), i, recs))
  {
    assert Sides([c]);
  }

  /**
   * Every file is named `<prefix><sides><level>.txt`, where `sides` holds
   * one part digit per level from the starting level down to the file's.
   */
  lemma {:induction false} LevelNames(variant: Engine.Variant, data: seq<Rec>, prefix: string, depth: int, i: int)
    requires |data| > 0 && i <= depth && Level(variant, data, prefix, depth, i).Ok?
    ensures forall f :: f in Level(variant, data, prefix, depth, i).value ==> NamedBelow(prefix, i, f)
    decreases depth - i, 1
  {
    if depth == 0 {
      NamedHere(prefix, '1', i, data);
    } else {
      var split := SplitX(data);
      var left := Part(variant, split, data, Left);
      var right := Part(variant, split, data, Right);
      LevelFiles(variant, data, prefix, depth, i);
      NamedHere(prefix, '1', i, left);
      NamedHere(prefix, '2', i, right);
      DeeperNames(variant, left, prefix, '1', depth, i);
      DeeperNames(variant, right, prefix, '2', depth, i);
    }
  }

  lemma {:induction false} DeeperNames(variant: Engine.Variant, part: seq<Rec>, prefix: string, c: char, depth: int, i: int)
    requires c == '1' || c == '2'
    requires i <= depth && Deeper(variant, part, prefix + [c], depth, i + 1).Ok?
    ensures forall f :: f in Deeper(variant, part, prefix + [c], depth, i + 1).value ==> NamedBelow(prefix, i, f)
    decreases depth - i, 0
  {
    DeeperIsLevel(variant, part, prefix + [c], depth, i + 1);
    if |part| > 0 && i + 1 <= depth {
      LevelNames(variant, part, prefix + [c], depth, i + 1);
      forall f | f in Deeper(variant, part, prefix + [c], depth, i + 1).value
        ensures NamedBelow(prefix, i, f)
      {
        NamedShift(prefix, c, i, f);
      }
    }
  }

  /**
   * A run of `main_partitioning_map_` with a positive depth writes, for each
   * level from 1 to the depth, files that together hold every input record
   * once, each named after its chain of parts.
   */
  lemma MainPartitionRule(variant: Engine.Variant, lines: seq<Line>, prefix: string, depth: int)
    requires depth > 0 && MapPartitionSpec(variant, lines, prefix, depth, StartLevel(depth)).Ok?
    ensures var files := MapPartitionSpec(variant, lines, prefix, depth, StartLevel(depth)).value;
      (forall f :: f in files ==> 1 <= f.level <= depth && NamedBelow(prefix, 1, f)) &&
      forall L :: 1 <= L <= depth ==> LevelBag(files, L) == multiset(ParseAll(lines).value)
  {
    var data := ParseAll(lines).value;
    LevelLevels(variant, data, prefix, depth, 1);
    LevelNames(variant, data, prefix, depth, 1);
    forall L | 1 <= L <= depth
      ensures LevelBag(Level(variant, data, prefix, depth, 1).value, L) == multiset(data)
    {
      LevelBags(variant, data, prefix, depth, 1, L);
    }
  }
}

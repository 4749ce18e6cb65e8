/**
 * The two file loaders of a regional leader, `Dict_Read_Edge_Connections_from_File`
 * and `prepare_data_from_file` (the same in Code/homopa.py and
 * Code/HoMoPaD/homopa.py), over lines already split at commas into integers.
 * A blank line has no fields; `int('')` on it raises ValueError.
 */
module Loaders {
  import opened Wrappers
  import opened Seqs
  import PyDict
  import opened Engine

  type Line = seq<int>

  // ---------------------------------------------------------------- adjacency file

  /** The dictionary after the first `i` lines of `edge, succ_1, succ_2, ...`. */
  function ConnUpto(lines: seq<Line>, i: nat): (r: Result<Adj>)
    requires i <= |lines|
    ensures r.Ok? ==> PyDict.Valid(r.value)
  {
    if i == 0 then Ok(PyDict.Empty())
    else
      match ConnUpto(lines, i - 1)
      case Err(e) => Err(e)
      case Ok(d) =>
        if |lines[i - 1]| == 0 then Err(ValueError)
        else Ok(PyDict.Put(d, lines[i - 1][0], lines[i - 1][1..]))
  }

  /** The dictionary and its number of keys. */
  function ConnSpec(lines: seq<Line>): Result<(Adj, int)> {
    match ConnUpto(lines, |lines|)
    case Err(e) => Err(e)
    case Ok(d) => Ok((d, |d.keys|))
  }

  lemma {:induction false} ConnSticky(lines: seq<Line>, i: nat, k: nat)
    requires i <= k <= |lines| && ConnUpto(lines, i).Err?
    ensures ConnUpto(lines, k) == ConnUpto(lines, i)
    decreases k - i
  {
    if i < k {
      ConnSticky(lines, i + 1, k);
    }
  }

  method ReadConnections(lines: seq<Line>) returns (r: Result<(Adj, int)>)
    ensures r == ConnSpec(lines)
  {
    var d: Adj := PyDict.Empty();
    var i := 0;
    while i < |lines|
      invariant 0 <= i <= |lines|
      invariant ConnUpto(lines, i) == Ok(d)
    {
      if |lines[i]| == 0 {
        ConnSticky(lines, i + 1, |lines|);
        return Err(ValueError);
      }
      d := PyDict.Put(d, lines[i][0], lines[i][1..]);
      i := i + 1;
    }
    r := Ok((d, |d.keys|));
  }

  /** Line `j` is the last of the first `i` lines that starts with `k`. */
  predicate LastFor(lines: seq<Line>, i: nat, j: int, k: int)
    requires i <= |lines|
  {
    0 <= j < i && |lines[j]| > 0 && lines[j][0] == k &&
    forall t :: j < t < i && |lines[t]| > 0 ==> lines[t][0] != k
  }

  /** The distinct first fields of the first `i` lines. */
  function Keys(lines: seq<Line>, i: nat): set<int>
    requires i <= |lines|
  {
    set j | 0 <= j < i && |lines[j]| > 0 :: lines[j][0]
  }

  /** The first fields of the non-blank lines among the first `i`, in line order. */
  function Firsts(lines: seq<Line>, i: nat): seq<int>
    requires i <= |lines|
  {
    if i == 0 then []
    else Firsts(lines, i - 1) + (if |lines[i - 1]| > 0 then [lines[i - 1][0]] else [])
  }

  lemma {:induction false} ConnUptoRule(lines: seq<Line>, i: nat)
    requires i <= |lines|
    ensures ConnUpto(lines, i).Err? <==> exists j :: 0 <= j < i && |lines[j]| == 0
    ensures ConnUpto(lines, i).Err? ==> ConnUpto(lines, i).error == ValueError
    ensures ConnUpto(lines, i).Ok? ==>
              var d := ConnUpto(lines, i).value;
              Elems(d.keys) == Keys(lines, i) && d.keys == Dedup(Firsts(lines, i)) &&
              (forall k :: k in d.vals <==> k in Keys(lines, i)) &&
              (forall j, k :: LastFor(lines, i, j, k) ==> d.vals[k] == lines[j][1..])
  {
    if i > 0 {
      ConnUptoRule(lines, i - 1);
      var prev := ConnUpto(lines, i - 1);
      if prev.Ok? && |lines[i - 1]| > 0 {
        var d := ConnUpto(lines, i).value;
        var k0 := lines[i - 1][0];
        assert Keys(lines, i) == Keys(lines, i - 1) + {k0};
        var fs := Firsts(lines, i - 1);
        assert Firsts(lines, i) == fs + [k0];
        assert (fs + [k0])[..|fs + [k0]| - 1] == fs;
        if k0 !in prev.value.vals {
          ElemsSnoc(prev.value.keys, k0);
        }
        forall j, k | LastFor(lines, i, j, k)
          ensures d.vals[k] == lines[j][1..]
        {
          if j < i - 1 {
            assert LastFor(lines, i - 1, j, k);
          }
        }
      }
    }
  }

  /**
   * The adjacency file: a blank line raises ValueError; otherwise every
   * line's first integer maps to the rest of the line, the last such line
   * winning, the keys come in first-seen order, and the count is the number
   * of distinct first integers.
   */
  lemma ConnRule(lines: seq<Line>)
    ensures ConnSpec(lines).Err? <==> exists j :: 0 <= j < |lines| && |lines[j]| == 0
    ensures ConnSpec(lines).Err? ==> ConnSpec(lines).error == ValueError
    ensures ConnSpec(lines).Ok? ==>
              var (d, count) := ConnSpec(lines).value;
              count == |Keys(lines, |lines|)| && d.keys == Dedup(Firsts(lines, |lines|)) &&
              (forall k :: k in d.vals <==> k in Keys(lines, |lines|)) &&
              (forall j, k :: LastFor(lines, |lines|, j, k) ==> d.vals[k] == lines[j][1..])
  {
    ConnUptoRule(lines, |lines|);
    if ConnUpto(lines, |lines|).Ok? {
      NoDupCard(ConnUpto(lines, |lines|).value.keys);
    }
  }

  // ---------------------------------------------------------------- sensor file

  /** One sensor line: `edge, obj, ...` (raw) or `edge, rawCount, sig, ...` (hashed). */
  function ParseSensorLine(mode: Mode, line: Line): Result<SensorRow> {
    if |line| == 0 then Err(ValueError)
    else if mode == Raw then Ok(SensorRow(line[0], 0, Dedup(line[1..])))
    else if |line| == 1 then Err(IndexError)
    else Ok(SensorRow(line[0], line[1], line[2..]))
  }

  /** The object fields of a line: after the edge id (raw) or after the raw count (hashed). */
  function ObjFields(mode: Mode, line: Line): seq<int> {
    var skip := if mode == Raw then 1 else 2;
    if |line| >= skip then line[skip..] else []
  }

  /** A parsed line keeps the line's object fields: each once (raw) or all in order (hashed). */
  lemma ParseLineRule(mode: Mode, line: Line)
    ensures ParseSensorLine(mode, line).Err? <==> BadLine(mode, line)
    ensures ParseSensorLine(mode, line).Ok? ==>
              var row := ParseSensorLine(mode, line).value;
              row.edge == line[0] && Elems(row.objs) == Elems(ObjFields(mode, line)) &&
              (mode == Raw ==> NoDup(row.objs) && LineIntegers(mode, row) == 1 + |Elems(ObjFields(mode, line))|) &&
              (mode == Hashed ==> row.rawCount == line[1] && row.objs == ObjFields(mode, line) &&
                                  LineIntegers(mode, row) == |line|)
  {
    if !BadLine(mode, line) && mode == Raw {
      NoDupCard(ParseSensorLine(mode, line).value.objs);
    }
  }

  /** The integers a parsed line accounts for: the edge id, the raw count when hashed, then the objects. */
  function LineIntegers(mode: Mode, row: SensorRow): int {
    (if mode == Raw then 1 else 2) + |row.objs|
  }

  /** What the loop has accumulated: `combined_data`, `UniqObjs` and `total_information_integers`. */
  datatype Loaded = Loaded(rows: seq<SensorRow>, uniq: set<int>, integers: int)

  /** One iteration of the loop; an exception ends it. */
  function LoadLine(mode: Mode, st: Result<Loaded>, line: Line): Result<Loaded> {
    if st.Err? then st
    else
      match ParseSensorLine(mode, line)
      case Err(e) => Err(e)
      case Ok(row) => Ok(Loaded(st.value.rows + [row], st.value.uniq + Elems(row.objs),
                                st.value.integers + LineIntegers(mode, row)))
  }

  function LoadUpto(mode: Mode, lines: seq<Line>, i: nat): Result<Loaded>
    requires i <= |lines|
  {
    if i == 0 then Ok(Loaded([], {}, 0))
    else LoadLine(mode, LoadUpto(mode, lines, i - 1), lines[i - 1])
  }

  /** The returned tuple, without the floating-point cost. */
  datatype Prepared = Prepared(rows: seq<SensorRow>, uniq: set<int>, uniqCount: int, bytes: int, integers: int)

  /** `total_information_bytes` is only assigned inside the loop: an empty file leaves it unbound. */
  function LoadSpec(mode: Mode, lines: seq<Line>): Result<Prepared> {
    if |lines| == 0 then Err(UnboundLocalError)
    else
      match LoadUpto(mode, lines, |lines|)
      case Err(e) => Err(e)
      case Ok(l) => Ok(Prepared(l.rows, l.uniq, |l.uniq|, 4 * l.integers, l.integers))
  }

  lemma {:induction false} LoadSticky(mode: Mode, lines: seq<Line>, i: nat, k: nat)
    requires i <= k <= |lines| && LoadUpto(mode, lines, i).Err?
    ensures LoadUpto(mode, lines, k) == LoadUpto(mode, lines, i)
    decreases k - i
  {
    if i < k {
      LoadSticky(mode, lines, i + 1, k);
    }
  }

  /** A bad line ends the load with its exception. */
  lemma LoadBad(mode: Mode, lines: seq<Line>, i: nat)
    requires i < |lines| && LoadUpto(mode, lines, i).Ok? && BadLine(mode, lines[i])
    ensures LoadSpec(mode, lines) == Err(if |lines[i]| == 0 then ValueError else IndexError)
  {
    assert LoadUpto(mode, lines, i + 1) == Err(if |lines[i]| == 0 then ValueError else IndexError);
    LoadSticky(mode, lines, i + 1, |lines|);
  }

  lemma LoadDone(mode: Mode, lines: seq<Line>, l: Loaded)
    requires |lines| > 0 && LoadUpto(mode, lines, |lines|) == Ok(l)
    ensures LoadSpec(mode, lines) == Ok(Prepared(l.rows, l.uniq, |l.uniq|, 4 * l.integers, l.integers))
  {
  }

  lemma LoadStep(mode: Mode, lines: seq<Line>, i: nat, l: Loaded)
    requires i < |lines| && LoadUpto(mode, lines, i) == Ok(l) && !BadLine(mode, lines[i])
    ensures var row := ParseSensorLine(mode, lines[i]).value;
            LoadUpto(mode, lines, i + 1) ==
              Ok(Loaded(l.rows + [row], l.uniq + Elems(row.objs), l.integers + LineIntegers(mode, row)))
  {
    ParseLineRule(mode, lines[i]);
  }

  /** `for obj in obj_ids: UniqObjs.add(obj); topic_information_integers += 1`. */
  method AddObjects(uniq: set<int>, objs: seq<int>, topic: int) returns (u: set<int>, t: int)
    ensures u == uniq + Elems(objs) && t == topic + |objs|
  {
    u, t := uniq, topic;
    var k := 0;
    while k < |objs|
      invariant 0 <= k <= |objs|
      invariant u == uniq + Elems(objs[..k])
      invariant t == topic + k
    {
      ElemsSnoc(objs[..k], objs[k]);
      assert objs[..k + 1] == objs[..k] + [objs[k]];
      u := u + {objs[k]};
      t := t + 1;
      k := k + 1;
    }
    assert objs[..|objs|] == objs;
  }

  method PrepareData(mode: Mode, lines: seq<Line>) returns (r: Result<Prepared>)
    ensures r == LoadSpec(mode, lines)
  {
    var rows: seq<SensorRow> := [];
    var uniq: set<int> := {};
    var integers := 0;
    var bytes := 0;
    var bound := false;
    var i := 0;
    while i < |lines|
      invariant 0 <= i <= |lines|
      invariant LoadUpto(mode, lines, i) == Ok(Loaded(rows, uniq, integers))
      invariant bound <==> i > 0
      invariant bound ==> bytes == 4 * integers
    {
      var parts := lines[i];
      var topic := 0;
      if |parts| == 0 {
        LoadBad(mode, lines, i);
        return Err(ValueError);
      }
      var edge := parts[0];
      topic := topic + 1;
      var count := 0;
      var objs: seq<int>;
      if mode == Raw {
        objs := Dedup(parts[1..]);
      } else {
        if |parts| == 1 {
          LoadBad(mode, lines, i);
          return Err(IndexError);
        }
        count := parts[1];
        topic := topic + 1;
        objs := parts[2..];
      }
      ghost var seen := uniq;
      uniq, topic := AddObjects(uniq, objs, topic);
      LoadStep(mode, lines, i, Loaded(rows, seen, integers));
      assert ParseSensorLine(mode, lines[i]) == Ok(SensorRow(edge, count, objs));
      rows := rows + [SensorRow(edge, count, objs)];
      integers := integers + topic;
      bytes := 4 * integers;
      bound := true;
      i := i + 1;
    }
    if !bound {
      return Err(UnboundLocalError);
    }
    LoadDone(mode, lines, Loaded(rows, uniq, integers));
    r := Ok(Prepared(rows, uniq, |uniq|, bytes, integers));
  }

  /** A line that stops the loader. */
  predicate BadLine(mode: Mode, line: Line) {
    |line| == 0 || (mode == Hashed && |line| == 1)
  }

  /** The integers a raw line contributes: its edge id and its distinct objects. */
  function RawInts(lines: seq<Line>): int {
    if |lines| == 0 then 0
    else RawInts(lines[..|lines| - 1]) + 1 + |Elems(ObjFields(Raw, lines[|lines| - 1]))|
  }

  /** Every field of every line. */
  function Fields(lines: seq<Line>): int {
    if |lines| == 0 then 0 else Fields(lines[..|lines| - 1]) + |lines[|lines| - 1]|
  }

  /** The objects listed on the first `i` lines after the edge id (raw) or after the raw count (hashed). */
  ghost function Listed(mode: Mode, lines: seq<Line>, i: nat): set<int>
    requires i <= |lines|
  {
    set j, x | 0 <= j < i && x in ObjFields(mode, lines[j]) :: x
  }

  lemma ListedSnoc(mode: Mode, lines: seq<Line>, i: nat)
    requires 0 < i <= |lines|
    ensures Listed(mode, lines, i) == Listed(mode, lines, i - 1) + Elems(ObjFields(mode, lines[i - 1]))
  {
    forall x | x in Listed(mode, lines, i)
      ensures x in Listed(mode, lines, i - 1) + Elems(ObjFields(mode, lines[i - 1]))
    {
      var j, y :| 0 <= j < i && y in ObjFields(mode, lines[j]) && y == x;
      if j < i - 1 {
        assert x in Listed(mode, lines, i - 1);
      }
    }
    forall x | x in Elems(ObjFields(mode, lines[i - 1]))
      ensures x in Listed(mode, lines, i)
    {
      assert 0 <= i - 1 < i && x in ObjFields(mode, lines[i - 1]);
    }
  }

  lemma LoadLineErr(mode: Mode, st: Result<Loaded>, line: Line)
    ensures LoadLine(mode, st, line).Err? <==> st.Err? || BadLine(mode, line)
  {
  }

  lemma {:induction false} LoadUptoErr(mode: Mode, lines: seq<Line>, i: nat)
    requires i <= |lines|
    ensures LoadUpto(mode, lines, i).Err? <==> exists j :: 0 <= j < i && BadLine(mode, lines[j])
  {
    if i > 0 {
      LoadUptoErr(mode, lines, i - 1);
      LoadLineErr(mode, LoadUpto(mode, lines, i - 1), lines[i - 1]);
      if BadLine(mode, lines[i - 1]) {
        assert 0 <= i - 1 < i;
      } else {
        assert (exists j :: 0 <= j < i && BadLine(mode, lines[j])) <==>
               (exists j :: 0 <= j < i - 1 && BadLine(mode, lines[j]));
      }
    }
  }

  lemma CountsSnoc(lines: seq<Line>, i: nat)
    requires 0 < i <= |lines|
    ensures RawInts(lines[..i]) == RawInts(lines[..i - 1]) + 1 + |Elems(ObjFields(Raw, lines[i - 1]))|
    ensures Fields(lines[..i]) == Fields(lines[..i - 1]) + |lines[i - 1]|
  {
    assert lines[..i][..i - 1] == lines[..i - 1];
    assert lines[..i][i - 1] == lines[i - 1];
  }

  /** The parsed line's objects and the integers it accounts for. */
  lemma ParseCounts(mode: Mode, line: Line)
    requires !BadLine(mode, line)
    ensures var row := ParseSensorLine(mode, line).value;
            Elems(row.objs) == Elems(ObjFields(mode, line)) &&
            LineIntegers(mode, row) == if mode == Raw then 1 + |Elems(ObjFields(Raw, line))| else |line|
  {
    if mode == Raw {
      NoDupCard(ParseSensorLine(mode, line).value.objs);
    }
  }

  lemma {:induction false} LoadUptoRule(mode: Mode, lines: seq<Line>, i: nat)
    requires i <= |lines| && LoadUpto(mode, lines, i).Ok?
    ensures var l := LoadUpto(mode, lines, i).value;
            |l.rows| == i &&
            (forall j :: 0 <= j < i ==> ParseSensorLine(mode, lines[j]).Ok? &&
                                        l.rows[j] == ParseSensorLine(mode, lines[j]).value) &&
            l.uniq == Listed(mode, lines, i) &&
            l.integers == (if mode == Raw then RawInts(lines[..i]) else Fields(lines[..i]))
  {
    if i > 0 {
      var prev := LoadUpto(mode, lines, i - 1);
      var line := lines[i - 1];
      LoadLineErr(mode, prev, line);
      LoadUptoRule(mode, lines, i - 1);
      var row := ParseSensorLine(mode, line).value;
      var l := LoadUpto(mode, lines, i).value;
      assert l == Loaded(prev.value.rows + [row], prev.value.uniq + Elems(row.objs),
                         prev.value.integers + LineIntegers(mode, row));
      forall j | 0 <= j < i
        ensures ParseSensorLine(mode, lines[j]).Ok? && l.rows[j] == ParseSensorLine(mode, lines[j]).value
      {
        if j < i - 1 {
          assert l.rows[j] == prev.value.rows[j];
        }
      }
      ParseCounts(mode, line);
      ListedSnoc(mode, lines, i);
      CountsSnoc(lines, i);
    }
  }

  /**
   * The sensor file: an empty file leaves the byte total unbound, a blank
   * line raises ValueError and a hashed line without a raw count raises
   * IndexError.  Otherwise one row per line; raw rows keep each object
   * once; the unique-object set is the union of all lines' objects; each
   * line accounts for 1 + its distinct objects (raw) or all its fields
   * (hashed); and the byte total is four bytes per integer.
   */
  lemma LoadRule(mode: Mode, lines: seq<Line>)
    ensures LoadSpec(mode, lines).Err? <==> |lines| == 0 || exists j :: 0 <= j < |lines| && BadLine(mode, lines[j])
    ensures LoadSpec(mode, lines).Ok? ==>
              var p := LoadSpec(mode, lines).value;
              |p.rows| == |lines| &&
              (forall j :: 0 <= j < |lines| ==>
                 p.rows[j].edge == lines[j][0] && Elems(p.rows[j].objs) == Elems(ObjFields(mode, lines[j]))) &&
              (mode == Raw ==> forall j :: 0 <= j < |lines| ==> NoDup(p.rows[j].objs)) &&
              (mode == Hashed ==> forall j :: 0 <= j < |lines| ==>
                 p.rows[j].rawCount == lines[j][1] && p.rows[j].objs == ObjFields(mode, lines[j])) &&
              p.uniq == Listed(mode, lines, |lines|) && p.uniqCount == |p.uniq| &&
              p.integers == (if mode == Raw then RawInts(lines) else Fields(lines)) &&
              p.bytes == 4 * p.integers
  {
    LoadUptoErr(mode, lines, |lines|);
    if LoadSpec(mode, lines).Ok? {
      LoadUptoRule(mode, lines, |lines|);
    }
    assert lines[..|lines|] == lines;
    forall j | 0 <= j < |lines| && LoadSpec(mode, lines).Ok?
      ensures !BadLine(mode, lines[j])
    {
    }
    forall j | 0 <= j < |lines| && !BadLine(mode, lines[j])
    {
      ParseLineRule(mode, lines[j]);
    }
  }
}

/**
 * The result writers: the experiments log of
 * `write_results_to_file_ResultsOfExperiments` (Code/preparation.py), and the
 * per-region line, the "all together" line and the packet cost of
 * `write_results_from_Top_Leader_to_file` (Code/HoMoPaD/preparation.py).
 * Dictionaries are given as their items in iteration order.
 */
module Results {
  import opened Seqs
  import opened PyStr
  import Engine
  import Loaders
  import Span

  // ---------------------------------------------------------------- the experiments log

  /** One region pair's entries of `all_HOMOPATHS`, in iteration order. */
  type PathItems = seq<(seq<int>, Span.Val)>

  /** `json.dumps(path)` of a list of integers. */
  function Json(p: seq<int>): string {
    "[" + Join(Shows(p), ", ") + "]"
  }

  /** Whether an entry is written: its value is not the `-1` of a consumed `p2` path. */
  predicate Written(v: Span.Val) {
    v != Span.Mark(-1)
  }

  /** The paths written, in order. */
  function Kept(items: PathItems): seq<seq<int>> {
    if |items| == 0 then []
    else
      var last := items[|items| - 1];
      Kept(items[..|items| - 1]) + (if Written(last.1) then [last.0] else [])
  }

  /** The text of the path loop: `json.dumps(path) + ","` per written entry. */
  function Entries(items: PathItems): string {
    if |items| == 0 then ""
    else
      var last := items[|items| - 1];
      Entries(items[..|items| - 1]) + (if Written(last.1) then Json(last.0) + "," else "")
  }

  /** `json.dumps(p) + ","` for each path in order. */
  function JsonAll(ps: seq<seq<int>>): string {
    if |ps| == 0 then "" else JsonAll(ps[..|ps| - 1]) + Json(ps[|ps| - 1]) + ","
  }

  function RegionLine(region: int, items: PathItems): string {
    "    " + Show(region) + ": " + Entries(items) + "\n\n\n"
  }

  /** The part of the log below the header: per main region, its name and one line per region. */
  function LogBody(all: seq<(int, seq<(int, PathItems)>)>): string {
    if |all| == 0 then ""
    else LogBody(all[..|all| - 1]) + Show(all[|all| - 1].0) + "\n" + Block(all[|all| - 1].1)
  }

  function Block(regions: seq<(int, PathItems)>): string {
    if |regions| == 0 then ""
    else Block(regions[..|regions| - 1]) + RegionLine(regions[|regions| - 1].0, regions[|regions| - 1].1)
  }

  /** The innermost loop: one region's line. */
  method WriteRegion(region: int, items: PathItems) returns (s: string)
    ensures s == RegionLine(region, items)
  {
    var body := "";
    var k := 0;
    while k < |items|
      invariant 0 <= k <= |items| && body == Entries(items[..k])
    {
      assert items[..k + 1][..k] == items[..k];
      var (path, value) := items[k];
      if value != Span.Mark(-1) {
        body := body + Json(path) + ",";
      }
      k := k + 1;
    }
    assert items[..|items|] == items;
    s := "    " + Show(region) + ": " + body + "\n\n\n";
  }

  /** The loops of `write_results_to_file_ResultsOfExperiments` after its header. */
  method WriteResultsToFile(all: seq<(int, seq<(int, PathItems)>)>) returns (s: string)
    ensures s == LogBody(all)
  {
    s := "";
    var i := 0;
    while i < |all|
      invariant 0 <= i <= |all| && s == LogBody(all[..i])
    {
      LogBodyStep(all, i);
      var block := WriteMain(all[i].1);
      s := s + Show(all[i].0) + "\n" + block;
      i := i + 1;
    }
    assert all[..|all|] == all;
  }

  lemma LogBodyStep(all: seq<(int, seq<(int, PathItems)>)>, i: nat)
    requires i < |all|
    ensures LogBody(all[..i + 1]) == LogBody(all[..i]) + Show(all[i].0) + "\n" + Block(all[i].1)
  {
    assert all[..i + 1][..i] == all[..i];
  }

  /** One main region's lines. */
  method WriteMain(regions: seq<(int, PathItems)>) returns (block: string)
    ensures block == Block(regions)
  {
    block := "";
    var j := 0;
    while j < |regions|
      invariant 0 <= j <= |regions| && block == Block(regions[..j])
    {
      assert regions[..j + 1][..j] == regions[..j];
      var line := WriteRegion(regions[j].0, regions[j].1);
      block := block + line;
      j := j + 1;
    }
    assert regions[..|regions|] == regions;
  }

  /**
   * A region line lists exactly the paths whose value is not -1, in their
   * order: the written text is the written paths' JSON, each followed by a
   * comma.
   */
  lemma {:induction false} KeptText(items: PathItems)
    ensures Entries(items) == JsonAll(Kept(items))
  {
    if |items| > 0 {
      var init := items[..|items| - 1];
      var last := items[|items| - 1];
      KeptText(init);
      var ps := Kept(init);
      if Written(last.1) {
        assert (ps + [last.0])[..|ps|] == ps;
        assert JsonAll(ps + [last.0]) == JsonAll(ps) + Json(last.0) + ",";
      } else {
        assert Kept(items) == ps;
      }
    }
  }

  /** A path is written exactly when some entry holds it with a value other than -1. */
  lemma {:induction false} KeptRule(items: PathItems, p: seq<int>)
    ensures p in Kept(items) <==> exists i :: 0 <= i < |items| && items[i].0 == p && Written(items[i].1)
    ensures |Kept(items)| <= |items|
  {
    if |items| > 0 {
      var init := items[..|items| - 1];
      KeptRule(init, p);
      assert forall i :: 0 <= i < |init| ==> init[i] == items[i];
    }
  }

  // ---------------------------------------------------------------- the Top Leader's result files

  /** One region's `{length: [paths]}`, in iteration order. */
  type Buckets = seq<(int, seq<seq<int>>)>

  /** `'[{}]'.format(','.join(map(str, sublist)))`. */
  function Bracket(p: seq<int>): string {
    "[" + Join(Shows(p), ",") + "]"
  }

  /** The bracketed paths of every bucket with a positive key, in order. */
  function Formatted(buckets: Buckets): seq<string> {
    if |buckets| == 0 then []
    else
      var last := buckets[|buckets| - 1];
      Formatted(buckets[..|buckets| - 1]) + (if last.0 > 0 then Brackets(last.1) else [])
  }

  function Brackets(paths: seq<seq<int>>): (r: seq<string>)
    ensures |r| == |paths| && forall k :: 0 <= k < |paths| ==> r[k] == Bracket(paths[k])
  {
    seq(|paths|, k requires 0 <= k < |paths| => Bracket(paths[k]))
  }

  /**
   * `line_with_brackets` for region `key`; `header` is the five leading
   * fields (objects, threshold, edges, permutations, compression) as written.
   */
  function BracketLine(header: seq<string>, key: int, buckets: Buckets): string {
    Join(header + [Show(key), Join(Formatted(buckets), ",")], ",")
  }

  /** The first file: one line per region, in order. */
  method WriteWithBrackets(header: seq<string>, data: seq<(int, Buckets)>) returns (lines: seq<string>)
    ensures |lines| == |data|
    ensures forall m :: 0 <= m < |data| ==> lines[m] == BracketLine(header, data[m].0, data[m].1)
  {
    lines := [];
    var m := 0;
    while m < |data|
      invariant 0 <= m <= |data| && |lines| == m
      invariant forall i :: 0 <= i < m ==> lines[i] == BracketLine(header, data[i].0, data[i].1)
    {
      var formatted := FormatBuckets(data[m].1);
      lines := lines + [Join(header + [Show(data[m].0), Join(formatted, ",")], ",")];
      m := m + 1;
    }
  }

  /** The comprehension over `value.items()` with `nested_key > 0`. */
  method FormatBuckets(buckets: Buckets) returns (out: seq<string>)
    ensures out == Formatted(buckets)
  {
    out := [];
    var j := 0;
    while j < |buckets|
      invariant 0 <= j <= |buckets| && out == Formatted(buckets[..j])
    {
      assert buckets[..j + 1][..j] == buckets[..j];
      var (key, paths) := buckets[j];
      if key > 0 {
        var k := 0;
        var more := [];
        while k < |paths|
          invariant 0 <= k <= |paths| && more == Brackets(paths[..k])
        {
          more := more + [Bracket(paths[k])];
          k := k + 1;
        }
        assert paths[..|paths|] == paths;
        out := out + more;
      }
      j := j + 1;
    }
    assert buckets[..|buckets|] == buckets;
  }

  /** The paths of the buckets with a positive key, in order. */
  function Positive(buckets: Buckets): seq<seq<int>> {
    if |buckets| == 0 then []
    else
      var last := buckets[|buckets| - 1];
      Positive(buckets[..|buckets| - 1]) + (if last.0 > 0 then last.1 else [])
  }

  /** The per-region line writes, in order, the paths of every bucket except key 0 (the single edges). */
  lemma {:induction false} FormattedPaths(buckets: Buckets)
    ensures Formatted(buckets) == Brackets(Positive(buckets))
  {
    if |buckets| > 0 {
      var init := buckets[..|buckets| - 1];
      FormattedPaths(init);
    }
  }

  lemma {:induction false} PositiveRule(buckets: Buckets, p: seq<int>)
    ensures p in Positive(buckets) <==>
      exists j, k :: 0 <= j < |buckets| && buckets[j].0 > 0 && 0 <= k < |buckets[j].1| && buckets[j].1[k] == p
  {
    if |buckets| > 0 {
      var init := buckets[..|buckets| - 1];
      PositiveRule(init, p);
      assert forall j :: 0 <= j < |init| ==> init[j] == buckets[j];
    }
  }

  /** Every edge id of every path of every bucket (key 0 included) of every region, in order. */
  function AllInts(data: seq<(int, Buckets)>): seq<int> {
    if |data| == 0 then [] else AllInts(data[..|data| - 1]) + BucketInts(data[|data| - 1].1)
  }

  function BucketInts(buckets: Buckets): seq<int> {
    if |buckets| == 0 then [] else BucketInts(buckets[..|buckets| - 1]) + PathInts(buckets[|buckets| - 1].1)
  }

  function PathInts(paths: seq<seq<int>>): seq<int> {
    if |paths| == 0 then [] else PathInts(paths[..|paths| - 1]) + paths[|paths| - 1]
  }

  /** `dict_values_temp`: the loops that extend it with `str(num)`. */
  method CollectValues(data: seq<(int, Buckets)>) returns (temp: seq<string>)
    ensures temp == Shows(AllInts(data))
  {
    var ints := [];
    var i := 0;
    while i < |data|
      invariant 0 <= i <= |data| && ints == AllInts(data[..i])
    {
      assert data[..i + 1][..i] == data[..i];
      var buckets := data[i].1;
      var j := 0;
      var acc := ints;
      while j < |buckets|
        invariant 0 <= j <= |buckets| && acc == ints + BucketInts(buckets[..j])
      {
        assert buckets[..j + 1][..j] == buckets[..j];
        var paths := buckets[j].1;
        var k := 0;
        var acc2 := acc;
        while k < |paths|
          invariant 0 <= k <= |paths| && acc2 == acc + PathInts(paths[..k])
        {
          assert paths[..k + 1][..k] == paths[..k];
          acc2 := acc2 + paths[k];
          k := k + 1;
        }
        assert paths[..|paths|] == paths;
        acc := acc2;
        j := j + 1;
      }
      assert buckets[..|buckets|] == buckets;
      ints := acc;
      i := i + 1;
    }
    assert data[..|data|] == data;
    temp := Shows(ints);
  }

  /** `set_items`: the distinct edge ids over everything, written as text. */
  function AllTogether(data: seq<(int, Buckets)>): set<string> {
    set n | n in AllInts(data) :: Show(n)
  }

  /**
   * An id is in the "all together" set exactly when it occurs in some path
   * of some bucket of some region, and there is one text per distinct id.
   */
  lemma AllTogetherRule(data: seq<(int, Buckets)>, n: int)
    ensures Show(n) in AllTogether(data) <==>
      exists i, j, k :: 0 <= i < |data| && 0 <= j < |data[i].1| && 0 <= k < |data[i].1[j].1| && n in data[i].1[j].1[k]
    ensures |AllTogether(data)| == |Elems(AllInts(data))|
  {
    AllIntsRule(data, n);
    ShowInjective(AllInts(data));
    if Show(n) in AllTogether(data) {
      var m :| m in AllInts(data) && Show(m) == Show(n);
      ShowInj(m, n);
    }
  }

  lemma {:induction false} AllIntsRule(data: seq<(int, Buckets)>, n: int)
    ensures n in AllInts(data) <==>
      exists i, j, k :: 0 <= i < |data| && 0 <= j < |data[i].1| && 0 <= k < |data[i].1[j].1| && n in data[i].1[j].1[k]
  {
    if |data| > 0 {
      var init := data[..|data| - 1];
      AllIntsRule(init, n);
      BucketIntsRule(data[|data| - 1].1, n);
      assert forall i :: 0 <= i < |init| ==> init[i] == data[i];
    }
  }

  lemma {:induction false} BucketIntsRule(buckets: Buckets, n: int)
    ensures n in BucketInts(buckets) <==>
      exists j, k :: 0 <= j < |buckets| && 0 <= k < |buckets[j].1| && n in buckets[j].1[k]
  {
    if |buckets| > 0 {
      var init := buckets[..|buckets| - 1];
      BucketIntsRule(init, n);
      PathIntsRule(buckets[|buckets| - 1].1, n);
      assert forall j :: 0 <= j < |init| ==> init[j] == buckets[j];
    }
  }

  lemma {:induction false} PathIntsRule(paths: seq<seq<int>>, n: int)
    ensures n in PathInts(paths) <==> exists k :: 0 <= k < |paths| && n in paths[k]
  {
    if |paths| > 0 {
      var init := paths[..|paths| - 1];
      PathIntsRule(init, n);
      assert forall k :: 0 <= k < |init| ==> init[k] == paths[k];
    }
  }

  /** Distinct ids have distinct texts, so the set of texts is as large as the set of ids. */
  lemma ShowInjective(xs: seq<int>)
    ensures |set n | n in xs :: Show(n)| == |Elems(xs)|
  {
    forall a, b | Show(a) == Show(b)
      ensures a == b
    {
      ShowInj(a, b);
    }
    ShowSetCard(Elems(xs));
    assert (set n | n in xs :: Show(n)) == (set n | n in Elems(xs) :: Show(n));
  }

  lemma ShowInj(a: int, b: int)
    ensures Show(a) == Show(b) ==> a == b
  {
    ParseShow(a);
    ParseShow(b);
  }

  lemma ShowSetCard(s: set<int>)
    requires forall a, b :: Show(a) == Show(b) ==> a == b
    ensures |set n | n in s :: Show(n)| == |s|
  {
    if s != {} {
      NonEmpty(s);
      var x :| x in s;
      ShowSetCard(s - {x});
      assert (set n | n in s :: Show(n)) == (set n | n in s - {x} :: Show(n)) + {Show(x)};
    }
  }

  /** `order` is an iteration of the set `set_items`: each of its texts once. */
  predicate Iterates(order: seq<string>, data: seq<(int, Buckets)>) {
    NoDup(order) && Elems(order) == AllTogether(data)
  }

  /** The "all together" line, for the order in which `set_items` is iterated. */
  function AllTogetherLine(header: seq<string>, data: seq<(int, Buckets)>, order: seq<string>): string
    requires Iterates(order, data)
  {
    Join(header + ["0", "[" + Join(order, ",") + "]"], ",")
  }

  /** The line always ends with `]`, so the `if not ...endswith("]")` repair never fires. */
  lemma AllTogetherEnds(header: seq<string>, data: seq<(int, Buckets)>, order: seq<string>)
    requires Iterates(order, data)
    ensures var line := AllTogetherLine(header, data, order);
      |line| > 0 && line[|line| - 1] == ']'
  {
    JoinLast(header + ["0", "[" + Join(order, ",") + "]"], ",");
  }

  /**
   * Between the brackets, splitting at the commas gives back the iteration:
   * one text per distinct edge id, none twice; with no ids the brackets are empty.
   */
  lemma AllTogetherItems(data: seq<(int, Buckets)>, order: seq<string>)
    requires Iterates(order, data)
    ensures |order| == |Elems(AllInts(data))|
    ensures |order| == 0 ==> Join(order, ",") == ""
    ensures |order| > 0 ==> Split(Join(order, ","), ',') == order
  {
    NoDupCard(order);
    ShowInjective(AllInts(data));
    if |order| > 0 {
      forall k | 0 <= k < |order|
        ensures Free(order[k], ',')
      {
        assert order[k] in AllTogether(data);
        var n :| n in AllInts(data) && Show(n) == order[k];
        ShowShape(n);
      }
      JoinSplit(order, ',');
    }
  }

  // ---------------------------------------------------------------- packet cost

  /** `total_bytes`: four bytes per integer; the packet is `num_of_objs + 2` integers when hashed (flag 1), else `+ 1`. */
  function PacketBytes(rawOrHashed: int, numOfObjs: int): int {
    4 * (if rawOrHashed == 1 then numOfObjs + 2 else numOfObjs + 1)
  }

  /**
   * A packet costs four bytes for each integer a sensor line with that many
   * objects accounts for when it is loaded: edge id and objects (raw), plus
   * the raw count (hashed).
   */
  lemma PacketRule(rawOrHashed: int, row: Engine.SensorRow)
    ensures PacketBytes(rawOrHashed, |row.objs|) ==
      4 * Loaders.LineIntegers(if rawOrHashed == 1 then Engine.Hashed else Engine.Raw, row)
    ensures PacketBytes(1, |row.objs|) == PacketBytes(0, |row.objs|) + 4
  {
  }
}

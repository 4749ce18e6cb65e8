/**
 * The row preparation of `hash_data` (Code/experiment_creator.py and
 * Code/HoMoPaD/experiment_creator.py).  Every line of the sensor file is
 * `edge,obj1,obj2,...`; all its fields must be integers, the lines are
 * stably sorted by their first object id, and each line becomes
 * `(edge, number of object tokens, signature)`, where the signature is the
 * MinHash of the distinct object tokens with every value masked to its low
 * 32 bits.  MinHash itself (the `datasketch` library, seeded with `seed`
 * and `num_perm`) is the parameter `minhash`.
 */
module SensorHash {
  import opened Wrappers
  import opened Seqs
  import opened PyStr

  // ---------------------------------------------------------------- stable sort by key

  /** `x` placed after every element whose key is at most its own, scanning from the right. */
  function InsertAfter<T>(x: (int, T), s: seq<(int, T)>): (r: seq<(int, T)>)
    ensures |r| == |s| + 1
  {
    if |s| == 0 || s[|s| - 1].0 <= x.0 then s + [x]
    else InsertAfter(x, s[..|s| - 1]) + [s[|s| - 1]]
  }

  /** `sorted(s, key=lambda x: x[0])`, as an insertion sort. */
  function SortByKey<T>(s: seq<(int, T)>): (r: seq<(int, T)>)
    ensures |r| == |s|
  {
    if |s| == 0 then [] else InsertAfter(s[|s| - 1], SortByKey(s[..|s| - 1]))
  }

  predicate KeySorted<T>(s: seq<(int, T)>) {
    forall i, j :: 0 <= i < j < |s| ==> s[i].0 <= s[j].0
  }

  /** The elements with key `k`, in order. */
  function WithKey<T>(s: seq<(int, T)>, k: int): seq<(int, T)> {
    if |s| == 0 then []
    else WithKey(s[..|s| - 1], k) + (if s[|s| - 1].0 == k then [s[|s| - 1]] else [])
  }

  lemma {:induction false} InsertCount<T>(x: (int, T), s: seq<(int, T)>)
    ensures multiset(InsertAfter(x, s)) == multiset(s) + multiset{x}
  {
    if !(|s| == 0 || s[|s| - 1].0 <= x.0) {
      var init := s[..|s| - 1];
      InsertCount(x, init);
      LastSplit(s);
    }
  }

  lemma {:induction false} InsertSorted<T>(x: (int, T), s: seq<(int, T)>)
    requires KeySorted(s)
    ensures KeySorted(InsertAfter(x, s))
  {
    if !(|s| == 0 || s[|s| - 1].0 <= x.0) {
      var init := s[..|s| - 1];
      var last := s[|s| - 1];
      InsertSorted(x, init);
      InsertCount(x, init);
      var r := InsertAfter(x, init);
      forall i | 0 <= i < |r| ensures r[i].0 <= last.0 {
        assert r[i] in multiset(r);
        if r[i] != x {
          assert r[i] in multiset(init);
          var j :| 0 <= j < |init| && init[j] == r[i];
          assert s[j] == init[j];
        }
      }
    }
  }

  lemma {:induction false} InsertWithKey<T>(x: (int, T), s: seq<(int, T)>, k: int)
    ensures WithKey(InsertAfter(x, s), k) == WithKey(s, k) + (if x.0 == k then [x] else [])
  {
    if |s| == 0 || s[|s| - 1].0 <= x.0 {
      assert (s + [x])[..|s|] == s;
    } else {
      var init := s[..|s| - 1];
      var last := s[|s| - 1];
      var r := InsertAfter(x, init);
      InsertWithKey(x, init, k);
      assert (r + [last])[..|r|] == r;
      assert !(x.0 == k && last.0 == k);
    }
  }

  /**
   * The sort is sorted by key, a permutation of its input, and stable: the
   * elements of each key keep their input order.
   */
  lemma {:induction false} SortRule<T>(s: seq<(int, T)>)
    ensures KeySorted(SortByKey(s))
    ensures multiset(SortByKey(s)) == multiset(s)
    ensures forall k :: WithKey(SortByKey(s), k) == WithKey(s, k)
  {
    if |s| > 0 {
      var init := s[..|s| - 1];
      var last := s[|s| - 1];
      SortRule(init);
      InsertSorted(last, SortByKey(init));
      InsertCount(last, SortByKey(init));
      LastSplit(s);
      forall k ensures WithKey(SortByKey(s), k) == WithKey(s, k) {
        InsertWithKey(last, SortByKey(init), k);
      }
    }
  }

  // ---------------------------------------------------------------- the rows

  /** `line.strip().split(',')`. */
  function Fields(line: string): seq<string> {
    Split(Strip(line), ',')
  }

  /** Every field of the line is accepted by `int`. */
  predicate AllInts(line: string) {
    forall k :: 0 <= k < |Fields(line)| ==> ParseInt(Fields(line)[k]).Some?
  }

  /** `(x[1][1], line)`: the sort key of a line that parses and has an object, with the line. */
  function Keyed(line: string): (int, string)
    requires AllInts(line) && |Fields(line)| >= 2
  {
    (ParseInt(Fields(line)[1]).value, line)
  }

  /**
   * The lines paired with their keys: `ValueError` when some field of some
   * line is not an integer (the list comprehension runs over the whole file
   * before the sort), `IndexError` when some line has no object.
   */
  function KeyedLines(lines: seq<string>): (r: Result<seq<(int, string)>>)
    ensures r.Ok? ==> |r.value| == |lines|
  {
    if exists k :: 0 <= k < |lines| && !AllInts(lines[k]) then Err(ValueError)
    else if exists k :: 0 <= k < |lines| && |Fields(lines[k])| < 2 then Err(IndexError)
    else Ok(seq(|lines|, k requires 0 <= k < |lines| => Keyed(lines[k])))
  }

  /** `int(value) & ((1 << 32) - 1)`. */
  function Mask32(v: int): (r: int)
    ensures 0 <= r < 0x1_0000_0000
    ensures 0 <= v < 0x1_0000_0000 ==> r == v
  {
    v % 0x1_0000_0000
  }

  /** A row of `hashed_data`: `(sensor_id, number_of_Raw_ObjIDS, new_m)`. */
  datatype Hashed = Hashed(sensorId: string, rawCount: nat, signature: seq<int>)

  function MaskAll(vs: seq<int>): (r: seq<int>)
    ensures |r| == |vs|
    ensures forall i :: 0 <= i < |r| ==> 0 <= r[i] < 0x1_0000_0000
  {
    seq(|vs|, i requires 0 <= i < |vs| => Mask32(vs[i]))
  }

  /** The hashed row of one line: its first token, the number of the others, and the masked MinHash of their set. */
  function HashRow(line: string, minhash: set<string> -> seq<int>): Hashed {
    var f := Fields(line);
    Hashed(f[0], |f| - 1, MaskAll(minhash(Elems(f[1..]))))
  }

  /** The rows `hash_data` returns, or the exception it raises. */
  function HashSpec(lines: seq<string>, minhash: set<string> -> seq<int>): Result<seq<Hashed>> {
    match KeyedLines(lines)
    case Err(e) => Err(e)
    case Ok(keyed) =>
      var sorted := SortByKey(keyed);
      Ok(seq(|sorted|, m requires 0 <= m < |sorted| => HashRow(sorted[m].1, minhash)))
  }

  /** `hash_data` up to the writing of the hashed file. */
  method HashData(lines: seq<string>, minhash: set<string> -> seq<int>) returns (r: Result<seq<Hashed>>)
    ensures r == HashSpec(lines, minhash)
  {
    var ok := AllLinesInts(lines);
    if !ok {
      assert KeyedLines(lines) == Err(ValueError);
      return Err(ValueError);
    }
    var keyed := KeyAll(lines);
    if keyed.Err? {
      return Err(keyed.error);
    }
    var sorted := SortByKey(keyed.value);
    SortedFields(keyed.value, lines);
    var hashed := HashSorted(sorted, minhash);
    ghost var spec := HashSpec(lines, minhash).value;
    assert |spec| == |hashed| && forall m :: 0 <= m < |spec| ==> spec[m] == hashed[m];
    assert spec == hashed;
    r := Ok(hashed);
  }

  /** `[list(map(int, line.split(','))) for line in file]`: whether every field of every line is an integer. */
  method AllLinesInts(lines: seq<string>) returns (ok: bool)
    ensures ok <==> forall i :: 0 <= i < |lines| ==> AllInts(lines[i])
  {
    var k := 0;
    while k < |lines|
      invariant 0 <= k <= |lines| && forall i :: 0 <= i < k ==> AllInts(lines[i])
    {
      var here := LineInts(lines[k]);
      if !here {
        return false;
      }
      k := k + 1;
    }
    return true;
  }

  /** `list(map(int, line.split(',')))` of one line: whether every field is an integer. */
  method LineInts(line: string) returns (ok: bool)
    ensures ok <==> AllInts(line)
  {
    var fields := Fields(line);
    var j := 0;
    while j < |fields|
      invariant 0 <= j <= |fields| && IntsUpto(fields, j)
    {
      if ParseInt(fields[j]).None? {
        return false;
      }
      j := j + 1;
    }
    IntsUptoAll(fields, j);
    return true;
  }

  /** The first `j` fields are integers. */
  predicate IntsUpto(fields: seq<string>, j: nat)
    requires j <= |fields|
  {
    j == 0 || (IntsUpto(fields, j - 1) && ParseInt(fields[j - 1]).Some?)
  }

  lemma {:induction false} IntsUptoAll(fields: seq<string>, j: nat)
    requires j <= |fields| && IntsUpto(fields, j)
    ensures forall i :: 0 <= i < j ==> ParseInt(fields[i]).Some?
  {
    if j > 0 {
      IntsUptoAll(fields, j - 1);
    }
  }

  /** The sort keys `x[1][1]` of lines that all parse. */
  method KeyAll(lines: seq<string>) returns (r: Result<seq<(int, string)>>)
    requires forall i :: 0 <= i < |lines| ==> AllInts(lines[i])
    ensures r == KeyedLines(lines)
  {
    var keyed := [];
    var k := 0;
    while k < |lines|
      invariant 0 <= k <= |lines| && |keyed| == k
      invariant forall i :: 0 <= i < k ==> |Fields(lines[i])| >= 2 && keyed[i] == Keyed(lines[i])
    {
      var fields := Fields(lines[k]);
      if |fields| < 2 {
        assert |Fields(lines[k])| < 2;
        assert KeyedLines(lines) == Err(IndexError);
        return Err(IndexError);
      }
      keyed := keyed + [(ParseInt(fields[1]).value, lines[k])];
      k := k + 1;
    }
    assert keyed == KeyedLines(lines).value;
    r := Ok(keyed);
  }

  /** The loop over the sorted lines: each line's hashed row. */
  method HashSorted(sorted: seq<(int, string)>, minhash: set<string> -> seq<int>) returns (hashed: seq<Hashed>)
    requires forall m :: 0 <= m < |sorted| ==> |Fields(sorted[m].1)| >= 2
    ensures |hashed| == |sorted| && forall m :: 0 <= m < |sorted| ==> hashed[m] == HashRow(sorted[m].1, minhash)
  {
    hashed := [];
    var k := 0;
    while k < |sorted|
      invariant 0 <= k <= |sorted| && |hashed| == k
      invariant forall m :: 0 <= m < k ==> hashed[m] == HashRow(sorted[m].1, minhash)
    {
      var fields := Fields(sorted[k].1);
      var sensorId := fields[0];
      var objIds := fields[1..];
      var numberOfRawObjIds := |objIds|;
      if |objIds| >= 1 {
        var data := Elems(objIds);
        var newM := MaskAll(minhash(data));
        hashed := hashed + [Hashed(sensorId, numberOfRawObjIds, newM)];
      }
      k := k + 1;
    }
  }

  /** Every sorted line has an object, as every input line does. */
  lemma SortedFields(keyed: seq<(int, string)>, lines: seq<string>)
    requires |keyed| == |lines| && forall i :: 0 <= i < |lines| ==> |Fields(lines[i])| >= 2 && keyed[i].1 == lines[i]
    ensures forall m :: 0 <= m < |keyed| ==> |Fields(SortByKey(keyed)[m].1)| >= 2
  {
    var sorted := SortByKey(keyed);
    SortRule(keyed);
    forall m | 0 <= m < |sorted| ensures |Fields(sorted[m].1)| >= 2 {
      assert sorted[m] in multiset(keyed);
      var i :| 0 <= i < |keyed| && keyed[i] == sorted[m];
    }
  }

  /** One line of the hashed sensor file, without its line break: `f"{entry[0]},{entry[1]},{','.join(map(str, entry[2]))}"`. */
  function HashedText(h: Hashed): string {
    h.sensorId + "," + Show(h.rawCount) + "," + Join(Shows(h.signature), ",")
  }

  /** The write loop of `hash_data`. */
  method WriteHashed(rows: seq<Hashed>) returns (out: seq<string>)
    ensures |out| == |rows| && forall m :: 0 <= m < |rows| ==> out[m] == HashedText(rows[m]) + "\n"
  {
    out := [];
    var m := 0;
    while m < |rows|
      invariant 0 <= m <= |rows| && |out| == m
      invariant forall i :: 0 <= i < m ==> out[i] == HashedText(rows[i]) + "\n"
    {
      var entry := rows[m];
      out := out + [entry.sensorId + "," + Show(entry.rawCount) + "," + Join(Shows(entry.signature), ",") + "\n"];
      m := m + 1;
    }
  }

  /**
   * A written line splits at its commas back into the sensor id, the raw
   * count and the signature values, each of which `int` reads back: what a
   * reader of the hashed file relies on.
   */
  lemma HashedTextRoundTrip(h: Hashed)
    requires Free(h.sensorId, ',') && |h.signature| > 0
    ensures Split(HashedText(h), ',') == [h.sensorId, Show(h.rawCount)] + Shows(h.signature)
    ensures ParseInt(Split(HashedText(h), ',')[1]) == Some(h.rawCount as int)
    ensures forall i :: 0 <= i < |h.signature| ==> ParseInt(Split(HashedText(h), ',')[i + 2]) == Some(h.signature[i])
  {
    HashedSplit(h);
    ParseFields(Split(HashedText(h), ','), h);
  }

  /** `int` reads back the count and every signature value of a hashed line's fields. */
  lemma ParseFields(parts: seq<string>, h: Hashed)
    requires parts == [h.sensorId, Show(h.rawCount)] + Shows(h.signature)
    ensures ParseInt(parts[1]) == Some(h.rawCount as int)
    ensures forall i :: 0 <= i < |h.signature| ==> ParseInt(parts[i + 2]) == Some(h.signature[i])
  {
    assert parts[1] == Show(h.rawCount);
    ParseShow(h.rawCount);
    forall i | 0 <= i < |h.signature| ensures ParseInt(parts[i + 2]) == Some(h.signature[i]) {
      ParseSigAt(parts, h, i);
    }
  }

  lemma ParseSigAt(parts: seq<string>, h: Hashed, i: int)
    requires parts == [h.sensorId, Show(h.rawCount)] + Shows(h.signature) && 0 <= i < |h.signature|
    ensures ParseInt(parts[i + 2]) == Some(h.signature[i])
  {
    assert parts[i + 2] == Shows(h.signature)[i];
    ParseShow(h.signature[i]);
  }

  /** The fields of a hashed line are its id, its count and its signature values. */
  lemma HashedSplit(h: Hashed)
    requires Free(h.sensorId, ',') && |h.signature| > 0
    ensures Split(HashedText(h), ',') == [h.sensorId, Show(h.rawCount)] + Shows(h.signature)
  {
    var s := Shows(h.signature);
    var parts := [h.sensorId, Show(h.rawCount)] + s;
    assert Join(parts, [',']) == HashedText(h) by {
      assert parts[1..] == [Show(h.rawCount)] + s;
      assert parts[1..][1..] == s;
    }
    assert forall k :: 0 <= k < |parts| ==> Free(parts[k], ',') by {
      ShowShape(h.rawCount);
      forall i | 0 <= i < |s| ensures Free(s[i], ',') {
        ShowShape(h.signature[i]);
      }
      assert forall k :: 2 <= k < |parts| ==> parts[k] == s[k - 2];
    }
    JoinSplit(parts, ',');
  }

  /** Every id `hash_data` writes is a comma field of its input line, so the round trip applies to its rows. */
  lemma HashedIdsFree(lines: seq<string>, minhash: set<string> -> seq<int>)
    requires HashSpec(lines, minhash).Ok?
    ensures forall m :: 0 <= m < |HashSpec(lines, minhash).value| ==> Free(HashSpec(lines, minhash).value[m].sensorId, ',')
  {
    var sorted := SortByKey(KeyedLines(lines).value);
    forall m | 0 <= m < |sorted| ensures Free(Fields(sorted[m].1)[0], ',') {
      SplitFree(Strip(sorted[m].1), ',');
    }
  }

  /**
   * `hash_data` succeeds exactly when every field of every line is an
   * integer and every line has an object; it raises `ValueError` when some
   * field is not an integer, even if another line has no object.
   */
  lemma HashOk(lines: seq<string>, minhash: set<string> -> seq<int>)
    ensures HashSpec(lines, minhash).Ok? <==>
      (forall k :: 0 <= k < |lines| ==> AllInts(lines[k])) && (forall k :: 0 <= k < |lines| ==> |Fields(lines[k])| >= 2)
    ensures (exists k :: 0 <= k < |lines| && !AllInts(lines[k])) ==> HashSpec(lines, minhash) == Err(ValueError)
  {
  }

  /**
   * On success there is one row per line; the rows follow the lines sorted
   * by first object id, stably; each row counts its line's object tokens
   * with repeats, hashes only their set, and every emitted value is below
   * 2^32.
   */
  lemma HashRows(lines: seq<string>, minhash: set<string> -> seq<int>)
    requires HashSpec(lines, minhash).Ok?
    ensures var keyed := KeyedLines(lines).value;
      var sorted := SortByKey(keyed);
      var rows := HashSpec(lines, minhash).value;
      |rows| == |lines| &&
      KeySorted(sorted) && multiset(sorted) == multiset(keyed) && (forall key :: WithKey(sorted, key) == WithKey(keyed, key)) &&
      forall m :: 0 <= m < |rows| ==>
        var f := Fields(sorted[m].1);
        |f| >= 2 && rows[m].sensorId == f[0] && rows[m].rawCount == |f| - 1 && rows[m].rawCount >= 1 &&
        |Elems(f[1..])| <= rows[m].rawCount &&
        rows[m].signature == MaskAll(minhash(Elems(f[1..]))) &&
        forall i :: 0 <= i < |rows[m].signature| ==> 0 <= rows[m].signature[i] < 0x1_0000_0000
  {
    var keyed := KeyedLines(lines).value;
    var sorted := SortByKey(keyed);
    SortRule(keyed);
    SortedFields(keyed, lines);
    forall m | 0 <= m < |sorted| ensures |Elems(Fields(sorted[m].1)[1..])| <= |Fields(sorted[m].1)| - 1 {
      ElemsCard(Fields(sorted[m].1)[1..]);
    }
  }

  lemma {:induction false} ElemsCard<T>(s: seq<T>)
    ensures |Elems(s)| <= |s|
  {
    if |s| > 0 {
      var init := s[..|s| - 1];
      ElemsCard(init);
      LastSplit(s);
      ElemsSnoc(init, s[|s| - 1]);
    }
  }
}

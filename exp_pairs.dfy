/**
 * The pairs file of `create_testing_file_for_pairs` (Code/experiment_creator.py,
 * Code/HoMoPaD/experiment_creator.py): the compare file's fields are grouped
 * by (threshold, permutation), their numbers are paired and encoded as
 * `zfill3(a) + "000" + zfill3(b)`, each top-leader row is written with its
 * first 8 columns and the bracketed encoded pairs, and the double quotes the
 * CSV writer put around that column are removed again.  CSV reading is
 * abstracted: a file is the list of its rows' fields.
 */
module PairsFile {
  import opened Wrappers
  import opened Seqs
  import opened PyStr

  // ---------------------------------------------------------------- process_pairs

  /** `re.findall(r'\d+', s)`: the maximal runs of digits, left to right. */
  function Runs(s: string): (r: seq<string>)
    ensures forall k :: 0 <= k < |r| ==> |r[k]| > 0 && AllDigits(r[k])
    decreases |s|
  {
    if |s| == 0 then []
    else if !IsDigit(s[0]) then Runs(s[1..])
    else
      var j := DigitPrefix(s);
      assert AllDigits(s[..j]);
      [s[..j]] + Runs(s[j..])
  }

  /** The numbers of all pair strings, in order: the `extend` loop. */
  function Numbers(pairs: seq<string>): seq<string> {
    if |pairs| == 0 then [] else Numbers(pairs[..|pairs| - 1]) + Runs(pairs[|pairs| - 1])
  }

  function Zeros(n: nat): (z: string)
    ensures |z| == n && forall i :: 0 <= i < n ==> z[i] == '0'
  {
    if n == 0 then "" else "0" + Zeros(n - 1)
  }

  /** `s.zfill(w)` for a string of digits. */
  function ZFill(s: string, w: nat): string {
    if |s| >= w then s else Zeros(w - |s|) + s
  }

  /** `f"{first.zfill(3)}000{second.zfill(3)}"`. */
  function Encode(first: string, second: string): string {
    ZFill(first, 3) + "000" + ZFill(second, 3)
  }

  /** Consecutive numbers paired up, a trailing unpaired one dropped. */
  function Paired(nums: seq<string>): seq<string> {
    seq(|nums| / 2, m requires 0 <= m < |nums| / 2 => Encode(nums[2 * m], nums[2 * m + 1]))
  }

  /** `process_pairs`: number extraction, then pairing over `range(0, len(all_numbers), 2)`. */
  method ProcessPairs(pairsList: seq<string>) returns (processed: seq<string>)
    ensures processed == Paired(Numbers(pairsList))
  {
    var allNumbers := [];
    var k := 0;
    while k < |pairsList|
      invariant 0 <= k <= |pairsList| && allNumbers == Numbers(pairsList[..k])
    {
      assert pairsList[..k + 1][..k] == pairsList[..k];
      allNumbers := allNumbers + Runs(pairsList[k]);
      k := k + 1;
    }
    assert pairsList[..|pairsList|] == pairsList;
    processed := [];
    var i := 0;
    while i < |allNumbers|
      invariant i % 2 == 0 && 0 <= i <= |allNumbers| + 1
      invariant |processed| == (if i <= |allNumbers| then i else |allNumbers|) / 2
      invariant forall m :: 0 <= m < |processed| ==> processed[m] == Encode(allNumbers[2 * m], allNumbers[2 * m + 1])
    {
      if i + 1 < |allNumbers| {
        var first, second := allNumbers[i], allNumbers[i + 1];
        processed := processed + [ZFill(first, 3) + "000" + ZFill(second, 3)];
      }
      i := i + 2;
    }
    assert processed == Paired(allNumbers);
  }

  // ---------------------------------------------------------------- what the encoding keeps

  lemma {:induction false} DigitPrefixAt(d: string, t: string)
    requires AllDigits(d) && (|t| == 0 || !IsDigit(t[0]))
    ensures DigitPrefix(d + t) == |d|
  {
    if |d| > 0 {
      assert (d + t)[1..] == d[1..] + t;
      DigitPrefixAt(d[1..], t);
    } else {
      assert d + t == t;
    }
  }

  /** A run of digits followed by a non-digit (or nothing) is found whole. */
  lemma RunsLead(d: string, t: string)
    requires |d| > 0 && AllDigits(d) && (|t| == 0 || !IsDigit(t[0]))
    ensures Runs(d + t) == [d] + Runs(t)
  {
    DigitPrefixAt(d, t);
    assert (d + t)[..|d|] == d;
    assert (d + t)[|d|..] == t;
  }

  lemma RunsSkip(c: char, t: string)
    requires !IsDigit(c)
    ensures Runs([c] + t) == Runs(t)
  {
    assert ([c] + t)[1..] == t;
  }

  function ShowNats(ns: seq<nat>): (r: seq<string>)
    ensures |r| == |ns|
  {
    seq(|ns|, i requires 0 <= i < |ns| => ShowNat(ns[i]))
  }

  /** A run of digits closed by a comma is found whole, and the comma is skipped. */
  lemma RunsSep(d: string, t: string)
    requires |d| > 0 && AllDigits(d)
    ensures Runs(d + "," + t) == [d] + Runs(t)
  {
    var ct := [','] + t;
    assert d + "," + t == d + ct;
    RunsLead(d, ct);
    RunsSkip(',', t);
  }

  /** The numbers of a comma-separated list of digit runs, followed by a non-digit or nothing, are those runs. */
  lemma {:induction false} RunsJoin(parts: seq<string>, t: string)
    requires |parts| > 0 && forall k :: 0 <= k < |parts| ==> |parts[k]| > 0 && AllDigits(parts[k])
    requires |t| == 0 || !IsDigit(t[0])
    ensures Runs(Join(parts, ",") + t) == parts + Runs(t)
  {
    if |parts| == 1 {
      RunsLead(parts[0], t);
    } else {
      var tail := parts[1..];
      RunsJoin(tail, t);
      RunsJoinStep(parts[0], tail, t);
      assert [parts[0]] + tail == parts;
    }
  }

  lemma RunsJoinStep(d: string, tail: seq<string>, t: string)
    requires |d| > 0 && AllDigits(d) && |tail| > 0
    requires Runs(Join(tail, ",") + t) == tail + Runs(t)
    ensures Runs(Join([d] + tail, ",") + t) == [d] + tail + Runs(t)
  {
    JoinCons(d, tail, t);
    RunsSepAt(Join([d] + tail, ",") + t, d, Join(tail, ",") + t);
  }

  lemma JoinCons(d: string, tail: seq<string>, t: string)
    requires |tail| > 0
    ensures Join([d] + tail, ",") + t == d + "," + (Join(tail, ",") + t)
  {
    assert ([d] + tail)[1..] == tail;
  }

  lemma RunsSepAt(s: string, d: string, x: string)
    requires |d| > 0 && AllDigits(d) && s == d + "," + x
    ensures Runs(s) == [d] + Runs(x)
  {
    RunsSep(d, x);
  }

  /** `str(ns)` without blanks: `[n0,n1,...]`. */
  function ListText(ns: seq<nat>): string {
    "[" + Join(ShowNats(ns), ",") + "]"
  }

  lemma ListRuns(ns: seq<nat>)
    requires |ns| > 0
    ensures Runs(ListText(ns)) == ShowNats(ns)
  {
    var j := Join(ShowNats(ns), ",");
    assert ListText(ns) == ['['] + (j + "]");
    RunsSkip('[', j + "]");
    RunsJoin(ShowNats(ns), "]");
    assert "]" == [']'] + "";
    RunsSkip(']', "");
  }

  /** The pair texts `[a,b]` of the given pairs. */
  function PairTexts(ps: seq<(nat, nat)>): (r: seq<string>)
    ensures |r| == |ps|
  {
    seq(|ps|, i requires 0 <= i < |ps| => ListText([ps[i].0, ps[i].1]))
  }

  lemma {:induction false} NumbersOfPairs(ps: seq<(nat, nat)>)
    ensures |Numbers(PairTexts(ps))| == 2 * |ps|
    ensures forall i :: 0 <= i < |ps| ==>
      Numbers(PairTexts(ps))[2 * i] == ShowNat(ps[i].0) && Numbers(PairTexts(ps))[2 * i + 1] == ShowNat(ps[i].1)
  {
    if |ps| > 0 {
      var init := ps[..|ps| - 1];
      NumbersOfPairs(init);
      assert PairTexts(ps)[..|ps| - 1] == PairTexts(init);
      var last := ps[|ps| - 1];
      ListRuns([last.0, last.1]);
      assert ShowNats([last.0, last.1]) == [ShowNat(last.0), ShowNat(last.1)];
    }
  }

  lemma {:induction false} ZerosVal(k: nat, s: string)
    requires AllDigits(s)
    ensures AllDigits(Zeros(k) + s) && DigitsVal(Zeros(k) + s) == DigitsVal(s)
  {
    var z := Zeros(k);
    if |s| == 0 {
      assert z + s == z;
      ZerosZero(k);
    } else {
      var init := s[..|s| - 1];
      ZerosVal(k, init);
      assert (z + s)[..|z + s| - 1] == z + init;
    }
  }

  lemma {:induction false} ZerosZero(k: nat)
    ensures AllDigits(Zeros(k)) && DigitsVal(Zeros(k)) == 0
  {
    if k > 0 {
      var z := Zeros(k);
      ZerosZero(k - 1);
      assert z[..k - 1] == Zeros(k - 1);
    }
  }

  lemma ShowNatShort(n: nat)
    requires n < 1000
    ensures |ShowNat(n)| <= 3
  {
    if n >= 10 {
      if n / 10 >= 10 {
        assert |ShowNat(n / 10 / 10)| == 1;
      }
    }
  }

  /**
   * Numbers of at most three digits are encoded in nine characters from
   * which both are read back: the first three and the last three
   * characters carry their values, with `000` between.
   */
  lemma EncodeDecode(first: string, second: string)
    requires AllDigits(first) && |first| <= 3 && AllDigits(second) && |second| <= 3
    ensures var e := Encode(first, second);
      |e| == 9 && AllDigits(e) && e[3..6] == "000" &&
      DigitsVal(e[..3]) == DigitsVal(first) && DigitsVal(e[6..]) == DigitsVal(second)
  {
    var a := ZFill(first, 3);
    var b := ZFill(second, 3);
    ZerosVal(3 - |first|, first);
    ZerosVal(3 - |second|, second);
    var e := a + "000" + b;
    assert e[..3] == a;
    assert e[3..6] == "000";
    assert e[6..] == b;
    assert forall i :: 0 <= i < 9 ==> IsDigit(e[i]) by {
      forall i | 0 <= i < 9 ensures IsDigit(e[i]) {
        if i < 3 {
          assert e[i] == a[i];
        } else if i < 6 {
          assert e[i] == '0';
        } else {
          assert e[i] == b[i - 6];
        }
      }
    }
  }

  /**
   * For pairs written as `[a,b]` with both below 1000, `process_pairs` gives
   * one code per pair, in order, each decoding back to its pair.
   */
  lemma PairsRoundTrip(ps: seq<(nat, nat)>)
    requires forall i :: 0 <= i < |ps| ==> ps[i].0 < 1000 && ps[i].1 < 1000
    ensures var codes := Paired(Numbers(PairTexts(ps)));
      |codes| == |ps| &&
      forall i :: 0 <= i < |ps| ==>
        |codes[i]| == 9 && AllDigits(codes[i]) && codes[i][3..6] == "000" &&
        DigitsVal(codes[i][..3]) == ps[i].0 && DigitsVal(codes[i][6..]) == ps[i].1
  {
    var nums := Numbers(PairTexts(ps));
    NumbersOfPairs(ps);
    var codes := Paired(nums);
    forall i | 0 <= i < |ps|
      ensures |codes[i]| == 9 && AllDigits(codes[i]) && codes[i][3..6] == "000" &&
        DigitsVal(codes[i][..3]) == ps[i].0 && DigitsVal(codes[i][6..]) == ps[i].1
    {
      ShowNatShort(ps[i].0);
      ShowNatShort(ps[i].1);
      ShowNatVal(ps[i].0);
      ShowNatVal(ps[i].1);
      assert codes[i] == Encode(ShowNat(ps[i].0), ShowNat(ps[i].1));
      EncodeDecode(ShowNat(ps[i].0), ShowNat(ps[i].1));
    }
  }

  // ---------------------------------------------------------------- read_compare_file

  /** `(threshold, permutation)`. */
  type Key = (real, int)

  /** `(float(row[1]), int(row[3]))`, or the exception the first failing step raises. */
  function RowKey(row: seq<string>): Result<Key> {
    if |row| < 2 then Err(IndexError)
    else
      match ParseFloat(row[1])
      case None => Err(ValueError)
      case Some(t) =>
        if |row| < 4 then Err(IndexError)
        else
          match ParseInt(row[3])
          case None => Err(ValueError)
          case Some(p) => Ok((t, p))
  }

  /** `row[6:]`. */
  function Tail6(row: seq<string>): seq<string> {
    if |row| <= 6 then [] else row[6..]
  }

  /** The elements other than `bad`, in order. */
  function Without<T(==, !new)>(xs: seq<T>, bad: T): (r: seq<T>)
    ensures forall x :: x in r <==> x in xs && x != bad
    ensures IsSubseq(r, xs)
  {
    if |xs| == 0 then []
    else
      var init := Without(xs[..|xs| - 1], bad);
      var last := xs[|xs| - 1];
      assert xs == xs[..|xs| - 1] + [last];
      SubseqSnoc(init, xs[..|xs| - 1], last);
      if last != bad then init + [last] else init
  }

  /** The stripped pair fields of a row other than the placeholder `[0]`. */
  function Kept(row: seq<string>): seq<string> {
    Without(Stripped(Tail6(row)), "[0]")
  }

  function Stripped(pairs: seq<string>): (r: seq<string>)
    ensures |r| == |pairs| && forall j :: 0 <= j < |pairs| ==> r[j] == Strip(pairs[j])
  {
    seq(|pairs|, j requires 0 <= j < |pairs| => Strip(pairs[j]))
  }

  /** `compare_dict[key]` extended by `xs`, created empty first when missing. */
  function Append<K, V>(d: map<K, seq<V>>, k: K, xs: seq<V>): map<K, seq<V>> {
    d[k := (if k in d then d[k] else []) + xs]
  }

  /** The grouping loop over rows already reduced to their keys and kept fields; the first failing key ends it. */
  function Group<K, V>(keys: seq<Result<K>>, vals: seq<seq<V>>): Result<map<K, seq<V>>>
    requires |keys| == |vals|
  {
    if |keys| == 0 then Ok(map[])
    else
      match Group(keys[..|keys| - 1], vals[..|vals| - 1])
      case Err(e) => Err(e)
      case Ok(d) =>
        match keys[|keys| - 1]
        case Err(e) => Err(e)
        case Ok(k) => Ok(Append(d, k, vals[|vals| - 1]))
  }

  function RowKeys(rows: seq<seq<string>>): (r: seq<Result<Key>>)
    ensures |r| == |rows|
  {
    seq(|rows|, i requires 0 <= i < |rows| => RowKey(rows[i]))
  }

  function RowVals(rows: seq<seq<string>>): (r: seq<seq<string>>)
    ensures |r| == |rows|
  {
    seq(|rows|, i requires 0 <= i < |rows| => Kept(rows[i]))
  }

  /** The dictionary `read_compare_file` returns, or the exception it raises. */
  function CompareSpec(rows: seq<seq<string>>): Result<map<Key, seq<string>>> {
    Group(RowKeys(rows), RowVals(rows))
  }

  /** `read_compare_file` over the rows `csv.reader` yields. */
  method ReadCompareFile(rows: seq<seq<string>>) returns (r: Result<map<Key, seq<string>>>)
    ensures r == CompareSpec(rows)
  {
    var compareDict: map<Key, seq<string>> := map[];
    var k := 0;
    while k < |rows|
      invariant 0 <= k <= |rows| && CompareSpec(rows[..k]) == Ok(compareDict)
    {
      var row := rows[k];
      CompareNext(rows, k, compareDict);
      var key := RowKey(row);
      if key.Err? {
        return Err(key.error);
      }
      var pairs := if |row| <= 6 then [] else row[6..];
      compareDict := AddPairs(compareDict, key.value, pairs);
      k := k + 1;
    }
    assert rows[..|rows|] == rows;
    r := Ok(compareDict);
  }

  lemma ComparePrefix(rows: seq<seq<string>>, k: nat)
    requires k <= |rows|
    ensures RowKeys(rows[..k]) == RowKeys(rows)[..k]
    ensures RowVals(rows[..k]) == RowVals(rows)[..k]
  {
  }

  /** One more row with a key extends the dictionary by that row's kept fields. */
  lemma CompareStep(rows: seq<seq<string>>, k: nat, d: map<Key, seq<string>>)
    requires k < |rows| && CompareSpec(rows[..k]) == Ok(d) && RowKey(rows[k]).Ok?
    ensures CompareSpec(rows[..k + 1]) == Ok(Append(d, RowKey(rows[k]).value, Kept(rows[k])))
  {
    var keys, vals := RowKeys(rows), RowVals(rows);
    ComparePrefix(rows, k);
    ComparePrefix(rows, k + 1);
    GroupStep(keys, vals, k, d);
  }

  /** One row of the loop: its key fails and so does the read, or the dictionary grows by its kept fields. */
  lemma CompareNext(rows: seq<seq<string>>, k: nat, d: map<Key, seq<string>>)
    requires k < |rows| && CompareSpec(rows[..k]) == Ok(d)
    ensures RowKey(rows[k]).Err? ==> CompareSpec(rows) == Err(RowKey(rows[k]).error)
    ensures RowKey(rows[k]).Ok? ==>
      CompareSpec(rows[..k + 1]) == Ok(Append(d, RowKey(rows[k]).value, Without(Stripped(Tail6(rows[k])), "[0]")))
  {
    if RowKey(rows[k]).Err? {
      CompareErr(rows, k);
    } else {
      CompareStep(rows, k, d);
    }
  }

  /** A row whose key fails makes the whole read fail with that error. */
  lemma CompareErr(rows: seq<seq<string>>, k: nat)
    requires k < |rows| && CompareSpec(rows[..k]).Ok? && RowKey(rows[k]).Err?
    ensures CompareSpec(rows) == Err(RowKey(rows[k]).error)
  {
    var keys, vals := RowKeys(rows), RowVals(rows);
    ComparePrefix(rows, k);
    GroupErr(keys, vals, k + 1);
  }

  /** The grouping of one row: the key's list created when missing, then extended by the row's kept fields. */
  method AddPairs(compareDict: map<Key, seq<string>>, key: Key, pairs: seq<string>) returns (d: map<Key, seq<string>>)
    ensures d == Append(compareDict, key, Without(Stripped(pairs), "[0]"))
  {
    d := compareDict;
    if key !in d {
      d := d[key := []];
    }
    ghost var base := d;
    AppendAt(compareDict, key, base, []);
    ghost var stripped := Stripped(pairs);
    WithoutStep(stripped, 0, "[0]");
    var j := 0;
    while j < |pairs|
      invariant 0 <= j <= |pairs| && d == base[key := base[key] + Without(stripped[..j], "[0]")]
    {
      WithoutStep(stripped, j, "[0]");
      var pair := Strip(pairs[j]);
      if pair != "[0]" {
        ExtendTwice(base, key, Without(stripped[..j], "[0]"), pair);
        d := d[key := d[key] + [pair]];
      }
      j := j + 1;
    }
    assert stripped[..|pairs|] == stripped;
    AppendAt(compareDict, key, base, Without(stripped, "[0]"));
  }

  lemma WithoutStep<T(!new)>(xs: seq<T>, j: nat, bad: T)
    requires j <= |xs|
    ensures Without(xs[..0], bad) == []
    ensures j < |xs| && xs[j] != bad ==> Without(xs[..j + 1], bad) == Without(xs[..j], bad) + [xs[j]]
    ensures j < |xs| && xs[j] == bad ==> Without(xs[..j + 1], bad) == Without(xs[..j], bad)
  {
    if j < |xs| {
      assert xs[..j + 1][..j] == xs[..j];
    }
  }

  lemma ExtendTwice<K, V>(base: map<K, seq<V>>, k: K, xs: seq<V>, x: V)
    requires k in base
    ensures var d := base[k := base[k] + xs]; d[k := d[k] + [x]] == base[k := base[k] + (xs + [x])]
  {
    assert base[k] + xs + [x] == base[k] + (xs + [x]);
  }

  /** The dictionary after `if key not in compare_dict: compare_dict[key] = []` and the extension by `xs`. */
  lemma AppendAt<K, V>(before: map<K, seq<V>>, k: K, base: map<K, seq<V>>, xs: seq<V>)
    requires base == if k in before then before else before[k := []]
    ensures base[k := base[k] + xs] == Append(before, k, xs)
    ensures xs == [] ==> base[k := base[k] + xs] == base
  {
    assert base[k] + [] == base[k];
  }

  lemma GroupStep<K, V>(keys: seq<Result<K>>, vals: seq<seq<V>>, k: nat, d: map<K, seq<V>>)
    requires |keys| == |vals| && k < |keys|
    requires Group(keys[..k], vals[..k]) == Ok(d) && keys[k].Ok?
    ensures Group(keys[..k + 1], vals[..k + 1]) == Ok(Append(d, keys[k].value, vals[k]))
  {
    assert keys[..k + 1][..k] == keys[..k] && vals[..k + 1][..k] == vals[..k];
  }

  /** Once a key fails, the grouping has failed with that error. */
  lemma {:induction false} GroupErr<K, V>(keys: seq<Result<K>>, vals: seq<seq<V>>, k: nat)
    requires |keys| == |vals| && 0 < k <= |keys|
    requires Group(keys[..k - 1], vals[..k - 1]).Ok? && keys[k - 1].Err?
    ensures Group(keys, vals) == Err(keys[k - 1].error)
    decreases |keys|
  {
    if k < |keys| {
      var n := |keys| - 1;
      assert keys[..n][..k - 1] == keys[..k - 1] && vals[..n][..k - 1] == vals[..k - 1];
      GroupErr(keys[..n], vals[..n], k);
    } else {
      assert keys[..k - 1] == keys[..|keys| - 1] && vals[..k - 1] == vals[..|vals| - 1];
    }
  }

  /**
   * The grouping succeeds exactly when every key does, and otherwise fails
   * with the first failing key's error.  On success the dictionary's keys
   * are the rows' keys, and a key's list holds exactly the kept fields of
   * the rows with that key.
   */
  lemma GroupRule<K, V>(keys: seq<Result<K>>, vals: seq<seq<V>>)
    requires |keys| == |vals|
    ensures Group(keys, vals).Ok? <==> forall i :: 0 <= i < |keys| ==> keys[i].Ok?
    ensures Group(keys, vals).Err? ==>
      exists i :: 0 <= i < |keys| && keys[i] == Err(Group(keys, vals).error) && forall j :: 0 <= j < i ==> keys[j].Ok?
    ensures Group(keys, vals).Ok? ==> forall k :: k in Group(keys, vals).value <==> exists i :: 0 <= i < |keys| && keys[i] == Ok(k)
    ensures Group(keys, vals).Ok? ==> forall k, x :: k in Group(keys, vals).value ==>
      (x in Group(keys, vals).value[k] <==> exists i :: 0 <= i < |keys| && keys[i] == Ok(k) && x in vals[i])
  {
    GroupOkRule(keys, vals);
    if Group(keys, vals).Ok? {
      GroupKeysRule(keys, vals);
      GroupValsRule(keys, vals);
    }
  }

  /** The grouping fails exactly at the first failing key, with its error. */
  lemma {:induction false} GroupOkRule<K, V>(keys: seq<Result<K>>, vals: seq<seq<V>>)
    requires |keys| == |vals|
    ensures Group(keys, vals).Ok? <==> forall i :: 0 <= i < |keys| ==> keys[i].Ok?
    ensures Group(keys, vals).Err? ==>
      exists i :: 0 <= i < |keys| && keys[i] == Err(Group(keys, vals).error) && forall j :: 0 <= j < i ==> keys[j].Ok?
  {
    if |keys| > 0 {
      var n := |keys| - 1;
      var ki, vi := keys[..n], vals[..n];
      GroupOkRule(ki, vi);
      assert forall i :: 0 <= i < n ==> ki[i] == keys[i];
      var g := Group(ki, vi);
      if g.Err? {
        var i :| 0 <= i < n && ki[i] == Err(g.error) && forall j :: 0 <= j < i ==> ki[j].Ok?;
        assert keys[i] == Err(g.error);
      } else {
        assert forall j :: 0 <= j < n ==> keys[j].Ok?;
      }
    }
  }

  /** A successful grouping has exactly the rows' keys. */
  lemma {:induction false} GroupKeysRule<K, V>(keys: seq<Result<K>>, vals: seq<seq<V>>)
    requires |keys| == |vals| && Group(keys, vals).Ok?
    ensures forall k :: k in Group(keys, vals).value <==> exists i :: 0 <= i < |keys| && keys[i] == Ok(k)
  {
    if |keys| > 0 {
      var n := |keys| - 1;
      var ki, vi := keys[..n], vals[..n];
      GroupKeysRule(ki, vi);
      var d := Group(ki, vi).value;
      forall k ensures k in Group(keys, vals).value <==> exists i :: 0 <= i < |keys| && keys[i] == Ok(k) {
        if k in d {
          var i :| 0 <= i < n && ki[i] == Ok(k);
          assert keys[i] == Ok(k);
        }
        if exists i :: 0 <= i < |keys| && keys[i] == Ok(k) {
          var i :| 0 <= i < |keys| && keys[i] == Ok(k);
          if i < n {
            assert ki[i] == Ok(k);
          }
        }
      }
    }
  }

  /** In a successful grouping a key's list holds exactly the kept fields of the rows with that key. */
  lemma {:induction false} GroupValsRule<K, V>(keys: seq<Result<K>>, vals: seq<seq<V>>)
    requires |keys| == |vals| && Group(keys, vals).Ok?
    ensures forall k, x :: k in Group(keys, vals).value ==>
      (x in Group(keys, vals).value[k] <==> exists i :: 0 <= i < |keys| && keys[i] == Ok(k) && x in vals[i])
  {
    if |keys| > 0 {
      var n := |keys| - 1;
      var ki, vi := keys[..n], vals[..n];
      GroupValsRule(ki, vi);
      GroupKeysRule(ki, vi);
      var d := Group(ki, vi).value;
      var kn := keys[n].value;
      forall k, x | k in Group(keys, vals).value
        ensures x in Group(keys, vals).value[k] <==> exists i :: 0 <= i < |keys| && keys[i] == Ok(k) && x in vals[i]
      {
        if x in Group(keys, vals).value[k] {
          if k == kn && x in vals[n] {
          } else {
            assert k in d && x in d[k];
            var i :| 0 <= i < n && ki[i] == Ok(k) && x in vi[i];
            assert keys[i] == Ok(k) && x in vals[i];
          }
        }
        if exists i :: 0 <= i < |keys| && keys[i] == Ok(k) && x in vals[i] {
          var i :| 0 <= i < |keys| && keys[i] == Ok(k) && x in vals[i];
          if i < n {
            assert ki[i] == Ok(k) && x in vi[i];
            assert k in d;
          }
        }
      }
    }
  }

  /** A row keeps exactly its stripped fields from index 6 on that are not `[0]`, in order. */
  lemma KeptRule(row: seq<string>)
    ensures forall x :: x in Kept(row) <==> exists j :: 6 <= j < |row| && Strip(row[j]) == x && x != "[0]"
  {
    var pairs := Tail6(row);
    var stripped := seq(|pairs|, j requires 0 <= j < |pairs| => Strip(pairs[j]));
    forall x ensures x in Kept(row) <==> exists j :: 6 <= j < |row| && Strip(row[j]) == x && x != "[0]" {
      if x in Kept(row) {
        var m :| 0 <= m < |stripped| && stripped[m] == x;
        assert Strip(row[6 + m]) == x;
      }
      if exists j :: 6 <= j < |row| && Strip(row[j]) == x && x != "[0]" {
        var j :| 6 <= j < |row| && Strip(row[j]) == x && x != "[0]";
        assert stripped[j - 6] == x;
      }
    }
  }

  // ---------------------------------------------------------------- write_output_file

  /** The processed-pairs column: the bracketed codes when the key has compare data, else `''`. */
  function PairColumn(key: Key, compare: map<Key, seq<string>>): string {
    if key in compare then "[" + Join(Paired(Numbers(compare[key])), ",") + "]" else ""
  }

  /** `top_leader_row[:8] + [column]`. */
  function OutputRow(key: Key, row: seq<string>, compare: map<Key, seq<string>>): seq<string> {
    (if |row| <= 8 then row else row[..8]) + [PairColumn(key, compare)]
  }

  /** A field `csv.writer` puts in double quotes (its default, minimal quoting). */
  predicate NeedsQuotes(f: string) {
    exists i :: 0 <= i < |f| && (f[i] == ',' || f[i] == '"' || f[i] == '\r' || f[i] == '\n')
  }

  /** Every `"` written twice, as the writer escapes it inside quotes. */
  function DoubleQuotes(f: string): string {
    if |f| == 0 then ""
    else DoubleQuotes(f[..|f| - 1]) + (if f[|f| - 1] == '"' then "\"\"" else [f[|f| - 1]])
  }

  function CsvField(f: string): string {
    if NeedsQuotes(f) then "\"" + DoubleQuotes(f) + "\"" else f
  }

  function CsvFields(fields: seq<string>): (r: seq<string>)
    ensures |r| == |fields|
  {
    seq(|fields|, i requires 0 <= i < |fields| => CsvField(fields[i]))
  }

  /** The record `writer.writerow(fields)` writes, before its line terminator; a lone empty field is written as `""`. */
  function CsvLine(fields: seq<string>): string {
    if fields == [""] then "\"\"" else Join(CsvFields(fields), ",")
  }

  /** `write_output_file`: one record per top-leader entry, in the dictionary's order. */
  method WriteOutputFile(topLeader: seq<(Key, seq<string>)>, compare: map<Key, seq<string>>) returns (records: seq<string>)
    ensures |records| == |topLeader|
    ensures forall m :: 0 <= m < |topLeader| ==> records[m] == CsvLine(OutputRow(topLeader[m].0, topLeader[m].1, compare))
  {
    records := [];
    var m := 0;
    while m < |topLeader|
      invariant 0 <= m <= |topLeader| && |records| == m
      invariant forall i :: 0 <= i < m ==> records[i] == CsvLine(OutputRow(topLeader[i].0, topLeader[i].1, compare))
    {
      var (key, topLeaderRow) := topLeader[m];
      var first8 := if |topLeaderRow| <= 8 then topLeaderRow else topLeaderRow[..8];
      var newRow;
      if key in compare {
        var processedPairs := ProcessPairs(compare[key]);
        var processedPairsStr := "[" + Join(processedPairs, ",") + "]";
        newRow := first8 + [processedPairsStr];
      } else {
        newRow := first8 + [""];
      }
      records := records + [CsvLine(newRow)];
      m := m + 1;
    }
  }

  // ---------------------------------------------------------------- remove_double_quotes_from_file

  /** `s.replace('"', '')`. */
  function Unquote(s: string): string {
    if |s| == 0 then ""
    else Unquote(s[..|s| - 1]) + (if s[|s| - 1] == '"' then "" else [s[|s| - 1]])
  }

  /** `line.strip().replace('"', '')`. */
  function Clean(line: string): string {
    Unquote(Strip(line))
  }

  /** `remove_double_quotes_from_file`: each line as read, cleaned and written back with `\n`. */
  method RemoveDoubleQuotes(lines: seq<string>) returns (out: seq<string>)
    ensures |out| == |lines| && forall m :: 0 <= m < |lines| ==> out[m] == Clean(lines[m]) + "\n"
  {
    var cleaned := [];
    var m := 0;
    while m < |lines|
      invariant 0 <= m <= |lines| && |cleaned| == m && forall i :: 0 <= i < m ==> cleaned[i] == Clean(lines[i])
    {
      var line := Strip(lines[m]);
      var t := "";
      var k := 0;
      while k < |line|
        invariant 0 <= k <= |line| && t == Unquote(line[..k])
      {
        assert line[..k + 1][..k] == line[..k];
        if line[k] != '"' {
          t := t + [line[k]];
        }
        k := k + 1;
      }
      assert line[..|line|] == line;
      cleaned := cleaned + [t];
      m := m + 1;
    }
    out := [];
    m := 0;
    while m < |cleaned|
      invariant 0 <= m <= |cleaned| && |out| == m && forall i :: 0 <= i < m ==> out[i] == cleaned[i] + "\n"
    {
      out := out + [cleaned[m] + "\n"];
      m := m + 1;
    }
  }

  /** A cleaned line holds no `"` and every other character of the stripped line, in order and as often. */
  lemma {:induction false} UnquoteRule(s: string)
    ensures Free(Unquote(s), '"')
    ensures IsSubseq(Unquote(s), s)
    ensures forall c :: c != '"' ==> Count(Unquote(s), c) == Count(s, c)
  {
    if |s| > 0 {
      var init := s[..|s| - 1];
      var last := s[|s| - 1];
      UnquoteRule(init);
      var u := Unquote(init);
      LastSplit(s);
      SubseqSnoc(u, init, last);
      if last != '"' {
        assert (u + [last])[..|u + [last]| - 1] == u;
        forall i | 0 <= i < |u + [last]| ensures (u + [last])[i] != '"' {
          if i < |u| {
            assert (u + [last])[i] == u[i];
          }
        }
      } else {
        assert Unquote(s) == u;
      }
    }
  }

  lemma {:induction false} UnquoteApp(a: string, b: string)
    ensures Unquote(a + b) == Unquote(a) + Unquote(b)
    decreases |b|
  {
    if |b| == 0 {
      assert a + b == a;
    } else {
      var init := b[..|b| - 1];
      UnquoteApp(a, init);
      assert (a + b)[..|a + b| - 1] == a + init;
    }
  }

  lemma {:induction false} UnquotePlain(s: string)
    requires Free(s, '"')
    ensures Unquote(s) == s && DoubleQuotes(s) == s
  {
    if |s| > 0 {
      UnquotePlain(s[..|s| - 1]);
      LastSplit(s);
    }
  }

  /** No `"`, `\r` or `\n` in the field. */
  predicate Plain(f: string) {
    Free(f, '"') && Free(f, '\r') && Free(f, '\n')
  }

  lemma UnquoteQuoted(f: string)
    requires Free(f, '"')
    ensures Unquote(['"'] + f + ['"']) == f
  {
    var q := ['"'] + f;
    assert (q + ['"'])[..|q|] == q;
    UnquoteApp(['"'], f);
    assert ['"'][..0] == [];
    UnquotePlain(f);
  }

  lemma UnquoteField(f: string)
    requires Free(f, '"')
    ensures Unquote(CsvField(f)) == f
  {
    UnquotePlain(f);
    if NeedsQuotes(f) {
      assert CsvField(f) == ['"'] + f + ['"'];
      UnquoteQuoted(f);
    }
  }

  lemma {:induction false} UnquoteJoin(fields: seq<string>)
    requires forall i :: 0 <= i < |fields| ==> Free(fields[i], '"')
    ensures Unquote(Join(CsvFields(fields), ",")) == Join(fields, ",")
  {
    var cf := CsvFields(fields);
    if |fields| == 1 {
      UnquoteField(fields[0]);
    } else if |fields| > 1 {
      UnquoteJoin(fields[1..]);
      assert CsvFields(fields[1..]) == cf[1..];
      UnquoteField(fields[0]);
      UnquoteApp(cf[0] + ",", Join(cf[1..], ","));
      UnquoteApp(cf[0], ",");
      UnquotePlain(",");
    }
  }

  /**
   * Writing a row with the CSV writer, reading the record back as a line
   * and cleaning it gives the plain comma-joined row, provided no field
   * holds a quote or a line break and the row has no blank at either end.
   */
  lemma WriteClean(fields: seq<string>)
    requires |fields| >= 2 && forall i :: 0 <= i < |fields| ==> Plain(fields[i])
    requires |fields[0]| > 0 && !IsSpace(fields[0][0])
    requires var l := fields[|fields| - 1]; |l| == 0 || !IsSpace(l[|l| - 1])
    ensures Clean(CsvLine(fields) + "\n") == Join(fields, ",")
  {
    var cf := CsvFields(fields);
    var line := CsvLine(fields);
    assert fields != [""];
    assert line == Join(cf, ",");
    assert line == cf[0] + "," + Join(cf[1..], ",");
    assert !IsSpace(cf[0][0]);
    JoinSnoc(cf, ",");
    var l := fields[|fields| - 1];
    assert !IsSpace(line[|line| - 1]) by {
      if NeedsQuotes(l) {
        assert line[|line| - 1] == '"';
      } else if |l| > 0 {
        assert line[|line| - 1] == l[|l| - 1];
      } else {
        assert line[|line| - 1] == ',';
      }
    }
    StripNewline(line);
    UnquoteJoin(fields);
  }

  /** The codes of `process_pairs` are digits only. */
  lemma PairedDigits(nums: seq<string>)
    requires forall k :: 0 <= k < |nums| ==> AllDigits(nums[k])
    ensures forall m :: 0 <= m < |Paired(nums)| ==> AllDigits(Paired(nums)[m])
  {
    forall m | 0 <= m < |Paired(nums)| ensures AllDigits(Paired(nums)[m]) {
      var a, b := nums[2 * m], nums[2 * m + 1];
      ZerosVal(if |a| >= 3 then 0 else 3 - |a|, a);
      ZerosVal(if |b| >= 3 then 0 else 3 - |b|, b);
      var e := ZFill(a, 3) + "000" + ZFill(b, 3);
      forall i | 0 <= i < |e| ensures IsDigit(e[i]) {
        if i < |ZFill(a, 3)| {
          assert e[i] == ZFill(a, 3)[i];
        } else if i < |ZFill(a, 3)| + 3 {
          assert e[i] == '0';
        } else {
          assert e[i] == ZFill(b, 3)[i - |ZFill(a, 3)| - 3];
        }
      }
    }
  }

  lemma NumbersDigits(pairs: seq<string>)
    ensures forall k :: 0 <= k < |Numbers(pairs)| ==> AllDigits(Numbers(pairs)[k])
  {
    if |pairs| > 0 {
      NumbersDigits(pairs[..|pairs| - 1]);
    }
  }

  /** Digits, commas and brackets only. */
  predicate ListChars(s: string) {
    forall i :: 0 <= i < |s| ==> IsDigit(s[i]) || s[i] == ',' || s[i] == '[' || s[i] == ']'
  }

  lemma {:induction false} JoinListChars(parts: seq<string>)
    requires forall k :: 0 <= k < |parts| ==> AllDigits(parts[k])
    ensures ListChars(Join(parts, ","))
  {
    if |parts| > 1 {
      JoinListChars(parts[1..]);
      var r := Join(parts[1..], ",");
      var j := parts[0] + "," + r;
      forall i | 0 <= i < |j| ensures IsDigit(j[i]) || j[i] == ',' || j[i] == '[' || j[i] == ']' {
        if i < |parts[0]| {
          assert j[i] == parts[0][i];
        } else if i > |parts[0]| {
          assert j[i] == r[i - |parts[0]| - 1];
        }
      }
    }
  }

  /** The pair column holds no quote and no line break, and ends in `]` unless it is empty. */
  lemma PairColumnPlain(key: Key, compare: map<Key, seq<string>>)
    ensures Plain(PairColumn(key, compare))
    ensures var c := PairColumn(key, compare); |c| == 0 || c[|c| - 1] == ']'
  {
    if key in compare {
      var nums := Numbers(compare[key]);
      NumbersDigits(compare[key]);
      PairedDigits(nums);
      var j := Join(Paired(nums), ",");
      JoinListChars(Paired(nums));
      var c := "[" + j + "]";
      forall i | 0 <= i < |c| ensures IsDigit(c[i]) || c[i] == ',' || c[i] == '[' || c[i] == ']' {
        if 0 < i < |c| - 1 {
          assert c[i] == j[i - 1];
        }
      }
    }
  }

  /**
   * `create_testing_file_for_pairs`: after writing and quote removal, the
   * line of a top-leader entry is its first 8 columns and its pair column,
   * joined by commas, when its columns hold no quote or line break and its
   * first column starts with a non-blank.
   */
  lemma TestingFileLine(key: Key, row: seq<string>, compare: map<Key, seq<string>>)
    requires |row| > 0 && |row[0]| > 0 && !IsSpace(row[0][0])
    requires forall i :: 0 <= i < |row| ==> Plain(row[i])
    ensures Clean(CsvLine(OutputRow(key, row, compare)) + "\n") == Join(OutputRow(key, row, compare), ",")
  {
    var out := OutputRow(key, row, compare);
    PairColumnPlain(key, compare);
    assert out[0] == row[0];
    assert forall i :: 0 <= i < |out| - 1 ==> out[i] == row[i];
    WriteClean(out);
  }
}

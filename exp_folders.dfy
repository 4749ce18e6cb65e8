/**
 * `extract_Infos_from_Experiment_folders` (Code/experiment_creator.py and
 * Code/HoMoPaD/experiment_creator.py): the parameters of an experiment to
 * repeat are read from its folder name,
 * `Experiment_<edges>_<objs>_<threshold>_<avg_length>_<map_id>_<anything>`,
 * and its seed from the part before the first `;` on the second line of the
 * folder's `seeds.txt`.  Whether the folder exists, and the lines of
 * `seeds.txt` when it exists, are parameters; copying the sensor files is
 * left out.
 */
module ExperimentFolder {
  import opened Wrappers
  import opened PyStr

  /** `(num_of_edges, num_of_objs, threshold, avg_length_path, map_id, seed)`. */
  datatype Info = Info(edges: int, objs: int, threshold: int, avgLength: int, mapId: int, seed: int)

  const Prefix: string := "Experiment_"

  /** What `(\d+)` matches: a nonempty run of digits. */
  predicate DigitGroup(g: string) {
    |g| > 0 && AllDigits(g)
  }

  /** One `(\d+)_` at the start of `s`: the digits, and the text after the `_`. */
  function Group(s: string): (r: Option<(string, string)>)
    ensures r.Some? ==> DigitGroup(r.value.0) && s == r.value.0 + "_" + r.value.1
  {
    var j := DigitPrefix(s);
    if 0 < j < |s| && s[j] == '_' then
      assert s == s[..j] + [s[j]] + s[j + 1..];
      Some((s[..j], s[j + 1..]))
    else None
  }

  /** The groups of `(\d+)_` repeated `n` times at the start of `s`, and the text after them. */
  function Groups(s: string, n: nat): (r: Option<(seq<string>, string)>)
    ensures r.Some? ==> |r.value.0| == n
    decreases n
  {
    if n == 0 then Some(([], s))
    else
      match Group(s)
      case None => None
      case Some((g, t)) =>
        match Groups(t, n - 1)
        case None => None
        case Some((gs, rest)) => Some(([g] + gs, rest))
  }

  /** Every one of `gs` is a nonempty run of digits. */
  predicate AllGroups(gs: seq<string>) {
    |gs| == 0 || (DigitGroup(gs[0]) && AllGroups(gs[1..]))
  }

  lemma {:induction false} AllGroupsIndex(gs: seq<string>)
    requires AllGroups(gs)
    ensures forall k :: 0 <= k < |gs| ==> DigitGroup(gs[k])
  {
    if |gs| > 0 {
      AllGroupsIndex(gs[1..]);
      forall k | 0 < k < |gs| ensures DigitGroup(gs[k]) {
        assert gs[k] == gs[1..][k - 1];
      }
    }
  }

  /** Each group found is a nonempty run of digits. */
  lemma {:induction false} GroupsDigits(s: string, n: nat)
    requires Groups(s, n).Some?
    ensures AllGroups(Groups(s, n).value.0)
    ensures forall k :: 0 <= k < n ==> DigitGroup(Groups(s, n).value.0[k])
    decreases n
  {
    if n > 0 {
      var (g, t) := Group(s).value;
      GroupsDigits(t, n - 1);
      var gs := Groups(s, n).value.0;
      assert gs[0] == g && gs[1..] == Groups(t, n - 1).value.0;
    }
    AllGroupsIndex(Groups(s, n).value.0);
  }

  /** The text the groups `gs` match, each closed by `_`, followed by `rest`. */
  function Named(gs: seq<string>, rest: string): (r: string)
    ensures |r| >= |rest|
  {
    if |gs| == 0 then rest else gs[0] + "_" + Named(gs[1..], rest)
  }

  /** `re.match(r'Experiment_(\d+)_(\d+)_(\d+)_(\d+)_(\d+)_.*', name)`, as the five `int(group)` values. */
  function FolderName(name: string): (r: Option<seq<int>>)
    ensures r.Some? ==> |r.value| == 5
  {
    if |Prefix| <= |name| && name[..|Prefix|] == Prefix then
      match Groups(name[|Prefix|..], 5)
      case None => None
      case Some(m) =>
        GroupsDigits(name[|Prefix|..], 5);
        var g := m.0;
        Some([DigitsVal(g[0]) as int, DigitsVal(g[1]) as int, DigitsVal(g[2]) as int, DigitsVal(g[3]) as int, DigitsVal(g[4]) as int])
    else None
  }

  /** `int(lines[1].split(';')[0])`, `None` where `int` raises. */
  function SeedLine(line: string): Option<int> {
    ParseInt(Split(line, ';')[0])
  }

  /**
   * The current copy: a missing folder or a name that does not match gives
   * zeros; the seed stays 0 unless `seeds.txt` has a second line whose first
   * field parses.
   */
  function FolderInfo(name: string, isDir: bool, seeds: Option<seq<string>>): Info {
    if !isDir then Info(0, 0, 0, 0, 0, 0)
    else
      match FolderName(name)
      case None => Info(0, 0, 0, 0, 0, 0)
      case Some(v) =>
        var seed := if seeds.Some? && |seeds.value| > 1 then
            match SeedLine(seeds.value[1]) case Some(x) => x case None => 0
          else 0;
        Info(v[0], v[1], v[2], v[3], v[4], seed)
  }

  /**
   * The older copy: nothing is given a default, so a missing folder, a name
   * that does not match, a missing `seeds.txt` or one without a second line
   * reaches the `return` with a variable unbound, and a first field that
   * does not parse raises from `int`.
   */
  function FolderInfoOld(name: string, isDir: bool, seeds: Option<seq<string>>): Result<Info> {
    if !isDir then Err(UnboundLocalError)
    else
      match FolderName(name)
      case None => Err(UnboundLocalError)
      case Some(v) =>
        if seeds.None? || |seeds.value| <= 1 then Err(UnboundLocalError)
        else
          match SeedLine(seeds.value[1])
          case None => Err(ValueError)
          case Some(x) => Ok(Info(v[0], v[1], v[2], v[3], v[4], x))
  }

  // ---------------------------------------------------------------- the name pattern

  /** Digit groups followed by `_`, then any text, match those groups. */
  lemma {:induction false} GroupsOf(gs: seq<string>, rest: string)
    requires forall k :: 0 <= k < |gs| ==> DigitGroup(gs[k])
    ensures Groups(Named(gs, rest), |gs|) == Some((gs, rest))
  {
    if |gs| > 0 {
      var t := Named(gs[1..], rest);
      GroupsOf(gs[1..], rest);
      GroupOf(gs[0], t);
      assert [gs[0]] + gs[1..] == gs;
    } else {
      assert gs == [];
    }
  }

  /** A run of digits closed by `_` is one group. */
  lemma GroupOf(g: string, tail: string)
    requires DigitGroup(g)
    ensures Group(g + "_" + tail) == Some((g, tail))
  {
    DigitPrefixOf(g, tail);
    var s := g + "_" + tail;
    assert s[..|g|] == g;
    assert s[|g| + 1..] == tail;
  }

  lemma {:induction false} DigitPrefixOf(g: string, tail: string)
    requires AllDigits(g)
    ensures DigitPrefix(g + "_" + tail) == |g|
  {
    if |g| > 0 {
      var s := g + "_" + tail;
      assert s[1..] == g[1..] + "_" + tail;
      DigitPrefixOf(g[1..], tail);
    }
  }

  /** Conversely, a match splits its text into the groups found, each closed by `_`, and the rest. */
  lemma {:induction false} GroupsNamed(s: string, n: nat)
    requires Groups(s, n).Some?
    ensures s == Named(Groups(s, n).value.0, Groups(s, n).value.1)
    decreases n
  {
    if n > 0 {
      var t := Group(s).value.1;
      GroupsNamed(t, n - 1);
      assert Groups(s, n).value.0[1..] == Groups(t, n - 1).value.0;
    }
  }

  /**
   * A name matches exactly when it is `Experiment_` followed by five runs
   * of digits each closed by `_`, and then anything; it yields the values of
   * those runs, in order.
   */
  lemma FolderNameOf(gs: seq<string>, rest: string)
    requires |gs| == 5 && forall k :: 0 <= k < 5 ==> |gs[k]| > 0 && AllDigits(gs[k])
    ensures FolderName(Prefix + Named(gs, rest)) ==
      Some([DigitsVal(gs[0]) as int, DigitsVal(gs[1]) as int, DigitsVal(gs[2]) as int, DigitsVal(gs[3]) as int, DigitsVal(gs[4]) as int])
  {
    var name := Prefix + Named(gs, rest);
    assert name[..|Prefix|] == Prefix;
    assert name[|Prefix|..] == Named(gs, rest);
    GroupsOf(gs, rest);
  }

  /** Conversely, every name that matches has that shape, so `FolderNameOf` gives its values. */
  lemma FolderNameShape(name: string) returns (gs: seq<string>, rest: string)
    requires FolderName(name).Some?
    ensures |gs| == 5 && forall k :: 0 <= k < 5 ==> DigitGroup(gs[k])
    ensures name == Prefix + Named(gs, rest)
  {
    var s := name[|Prefix|..];
    assert name[..|Prefix|] == Prefix;
    var m := Groups(s, 5).value;
    GroupsNamed(s, 5);
    GroupsDigits(s, 5);
    gs, rest := m.0, m.1;
    assert name == Prefix + s;
  }

  /** The folder names `main_function` creates, built from `str` of the five parameters, give those parameters back. */
  lemma FolderNameRoundTrip(a: nat, b: nat, c: nat, d: nat, e: nat, rest: string)
    ensures FolderName(Prefix + Named([ShowNat(a), ShowNat(b), ShowNat(c), ShowNat(d), ShowNat(e)], rest)) == Some([a, b, c, d, e])
  {
    ShowNatVal(a);
    ShowNatVal(b);
    ShowNatVal(c);
    ShowNatVal(d);
    ShowNatVal(e);
    FolderNameOf([ShowNat(a), ShowNat(b), ShowNat(c), ShowNat(d), ShowNat(e)], rest);
  }

  // ---------------------------------------------------------------- the seed

  /** A second line written as `str(seed)` followed by `;` and anything gives that seed back, negative or not. */
  lemma SeedRoundTrip(n: int, rest: string)
    ensures SeedLine(Show(n) + ";" + rest) == Some(n)
  {
    var m := if n < 0 then -n else n;
    assert forall i :: 0 <= i < |ShowNat(m)| ==> IsDigit(ShowNat(m)[i]);
    assert forall i :: 0 <= i < |Show(n)| ==> Show(n)[i] != ';' by {
      if n < 0 {
        assert forall i :: 1 <= i < |Show(n)| ==> Show(n)[i] == ShowNat(m)[i - 1];
      }
    }
    SplitAt(Show(n), rest, ';');
    assert Show(n) + ";" + rest == Show(n) + [';'] + rest;
    ParseShow(n);
  }

  /** The two copies agree wherever the older one returns, and the current one gives the defaults where the older one fails. */
  lemma CopiesAgree(name: string, isDir: bool, seeds: Option<seq<string>>)
    ensures FolderInfoOld(name, isDir, seeds).Ok? ==> FolderInfoOld(name, isDir, seeds).value == FolderInfo(name, isDir, seeds)
    ensures FolderInfoOld(name, isDir, seeds) == Err(UnboundLocalError) ==>
      FolderInfo(name, isDir, seeds).seed == 0 &&
      (!isDir || FolderName(name).None? ==> FolderInfo(name, isDir, seeds) == Info(0, 0, 0, 0, 0, 0))
    ensures FolderInfoOld(name, isDir, seeds) == Err(ValueError) ==> FolderInfo(name, isDir, seeds).seed == 0
    ensures FolderInfoOld(name, isDir, seeds).Err? <==>
      !isDir || FolderName(name).None? || seeds.None? || |seeds.value| <= 1 || SeedLine(seeds.value[1]).None?
  {
  }

  /** A repeated experiment whose folder was named from its parameters and whose seed line starts with `str(seed);` is recovered exactly, by both copies. */
  lemma FolderInfoRoundTrip(a: nat, b: nat, c: nat, d: nat, e: nat, rest: string, first: string, seed: int, tail: string, more: seq<string>)
    ensures var name := Prefix + Named([ShowNat(a), ShowNat(b), ShowNat(c), ShowNat(d), ShowNat(e)], rest);
      var seeds := Some([first, Show(seed) + ";" + tail] + more);
      FolderInfo(name, true, seeds) == Info(a, b, c, d, e, seed) &&
      FolderInfoOld(name, true, seeds) == Ok(Info(a, b, c, d, e, seed))
  {
    FolderNameRoundTrip(a, b, c, d, e, rest);
    SeedRoundTrip(seed, tail);
    assert ([first, Show(seed) + ";" + tail] + more)[1] == Show(seed) + ";" + tail;
  }
}

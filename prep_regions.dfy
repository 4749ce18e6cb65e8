/**
 * Per-region files (`create_regional_edgeconnections` and
 * `create_edgeConnections_and_sensorInfo_for_each_Region` in
 * Code/preparation.py and Code/HoMoPaD/preparation.py): a region keeps the
 * lines of the network-wide edge-connection or sensor file whose first
 * comma field names one of the edges of its map file, and a region's id is
 * the first run of digits in its map file's name.
 */
module Regions {
  import opened Wrappers
  import opened Seqs
  import opened PyStr

  // ---------------------------------------------------------------- the line filter

  /** `line.split(',')[0].strip()`. */
  function FirstField(line: string): string {
    Strip(Split(line, ',')[0])
  }

  /** `[line.split(',')[0].strip() for line in map_lines]`. */
  function FirstFields(lines: seq<string>): seq<string> {
    seq(|lines|, k requires 0 <= k < |lines| => FirstField(lines[k]))
  }

  /** The lines of `lines`, in order, whose first field is one of `keys`. */
  function Regional(keys: seq<string>, lines: seq<string>): seq<string> {
    if |lines| == 0 then []
    else
      var last := lines[|lines| - 1];
      Regional(keys, lines[..|lines| - 1]) + (if FirstField(last) in keys then [last] else [])
  }

  /** The lines written to the regional file, given the map file's lines and the network-wide file's lines. */
  method CreateRegionalEdgeConnections(mapLines: seq<string>, lines: seq<string>) returns (out: seq<string>)
    ensures out == Regional(FirstFields(mapLines), lines)
  {
    var keys := [];
    var k := 0;
    while k < |mapLines|
      invariant 0 <= k <= |mapLines| && keys == FirstFields(mapLines[..k])
    {
      keys := keys + [FirstField(mapLines[k])];
      k := k + 1;
    }
    assert mapLines[..|mapLines|] == mapLines;
    out := [];
    k := 0;
    while k < |lines|
      invariant 0 <= k <= |lines| && out == Regional(keys, lines[..k])
    {
      assert lines[..k + 1][..k] == lines[..k];
      if FirstField(lines[k]) in keys {
        out := out + [lines[k]];
      }
      k := k + 1;
    }
    assert lines[..|lines|] == lines;
  }

  /**
   * A line is kept exactly as often as it occurs when its first field is
   * the first field of some map line, and not at all otherwise; the kept
   * lines keep their order.
   */
  lemma {:induction false} RegionalRule(mapLines: seq<string>, lines: seq<string>)
    ensures var out := Regional(FirstFields(mapLines), lines);
      IsSubseq(out, lines) &&
      (forall x :: Count(out, x) == if (exists m :: m in mapLines && FirstField(m) == FirstField(x)) then Count(lines, x) else 0) &&
      forall x :: x in out <==> x in lines && exists m :: m in mapLines && FirstField(m) == FirstField(x)
  {
    var keys := FirstFields(mapLines);
    var out := Regional(keys, lines);
    RegionalCount(keys, lines);
    RegionalOrder(keys, lines);
    CountIn(out);
    CountIn(lines);
    forall x
      ensures Count(out, x) == if (exists m :: m in mapLines && FirstField(m) == FirstField(x)) then Count(lines, x) else 0
      ensures x in out <==> x in lines && exists m :: m in mapLines && FirstField(m) == FirstField(x)
    {
      KeyIn(mapLines, FirstField(x));
    }
  }

  /** A field is a key exactly when some map line has it as its first field. */
  lemma KeyIn(mapLines: seq<string>, f: string)
    ensures f in FirstFields(mapLines) <==> exists m :: m in mapLines && FirstField(m) == f
  {
    var keys := FirstFields(mapLines);
    if f in keys {
      var k :| 0 <= k < |keys| && keys[k] == f;
      assert mapLines[k] in mapLines;
    }
    if exists m :: m in mapLines && FirstField(m) == f {
      var m :| m in mapLines && FirstField(m) == f;
      var k :| 0 <= k < |mapLines| && mapLines[k] == m;
      assert keys[k] == f;
    }
  }

  lemma {:induction false} RegionalCount(keys: seq<string>, lines: seq<string>)
    ensures forall x :: Count(Regional(keys, lines), x) == if FirstField(x) in keys then Count(lines, x) else 0
  {
    if |lines| > 0 {
      var init := lines[..|lines| - 1];
      var last := lines[|lines| - 1];
      RegionalCount(keys, init);
      var r := Regional(keys, init);
      if FirstField(last) in keys {
        assert (r + [last])[..|r + [last]| - 1] == r;
      } else {
        assert Regional(keys, lines) == r;
      }
    }
  }

  lemma {:induction false} RegionalOrder(keys: seq<string>, lines: seq<string>)
    ensures IsSubseq(Regional(keys, lines), lines)
  {
    if |lines| > 0 {
      var init := lines[..|lines| - 1];
      var last := lines[|lines| - 1];
      var r := Regional(keys, init);
      RegionalOrder(keys, init);
      LastSplit(lines);
      SubseqSnoc(r, init, last);
      if FirstField(last) in keys {
        assert Regional(keys, lines) == r + [last];
      } else {
        assert Regional(keys, lines) == r;
      }
    }
  }

  /** An element occurs in a sequence exactly when it is counted there. */
  lemma CountIn<T>(s: seq<T>)
    ensures forall x :: x in s <==> Count(s, x) > 0
  {
    if |s| > 0 {
      CountIn(s[..|s| - 1]);
      LastSplit(s);
    }
  }

  // ---------------------------------------------------------------- region ids

  predicate StartsWith(s: string, p: string) {
    |p| <= |s| && s[..|p|] == p
  }

  predicate EndsWith(s: string, p: string) {
    |p| <= |s| && s[|s| - |p|..] == p
  }

  /** The first digit at or after `i`, if there is one. */
  function FirstDigitFrom(s: string, i: nat): (r: Option<nat>)
    requires i <= |s|
    ensures r.Some? ==> i <= r.value < |s| && IsDigit(s[r.value]) && forall k :: i <= k < r.value ==> !IsDigit(s[k])
    ensures r.None? ==> forall k :: i <= k < |s| ==> !IsDigit(s[k])
    decreases |s| - i
  {
    if i == |s| then None
    else if IsDigit(s[i]) then Some(i)
    else FirstDigitFrom(s, i + 1)
  }

  /** The end of the run of digits that starts at `i`. */
  function RunEnd(s: string, i: nat): (j: nat)
    requires i <= |s|
    ensures i <= j <= |s| && (forall k :: i <= k < j ==> IsDigit(s[k])) && (j < |s| ==> !IsDigit(s[j]))
    decreases |s| - i
  {
    if i < |s| && IsDigit(s[i]) then RunEnd(s, i + 1) else i
  }

  /** `re.search(r'\d+', s)`: the leftmost run of digits, as long as it goes. */
  function SearchDigits(s: string): Option<string> {
    match FirstDigitFrom(s, 0)
    case None => None
    case Some(p) => Some(s[p..RunEnd(s, p)])
  }

  /**
   * The match is the leftmost maximal run of digits: nothing before it is a
   * digit, it is all digits and nonempty, and the character after it (if
   * any) is not a digit.  There is no match exactly when there is no digit.
   */
  lemma SearchDigitsRule(s: string)
    ensures SearchDigits(s).None? <==> forall k :: 0 <= k < |s| ==> !IsDigit(s[k])
    ensures SearchDigits(s).Some? ==>
      (exists p, q :: 0 <= p < q <= |s| && SearchDigits(s).value == s[p..q] &&
        (forall k :: 0 <= k < p ==> !IsDigit(s[k])) && (forall k :: p <= k < q ==> IsDigit(s[k])) && (q < |s| ==> !IsDigit(s[q])))
  {
    match FirstDigitFrom(s, 0)
    case None =>
    case Some(p) =>
      var q := RunEnd(s, p);
      assert IsDigit(s[p]);
      assert p < q;
  }

  /** A name built as prefix, digits, extension, with no digit in the prefix, yields exactly those digits. */
  lemma SearchNamed(prefix: string, digits: string, ext: string)
    requires |digits| > 0 && AllDigits(digits)
    requires forall k :: 0 <= k < |prefix| ==> !IsDigit(prefix[k])
    requires |ext| > 0 && !IsDigit(ext[0])
    ensures SearchDigits(prefix + digits + ext) == Some(digits)
  {
    var s := prefix + digits + ext;
    var p, q := |prefix|, |prefix| + |digits|;
    forall k | 0 <= k < p ensures !IsDigit(s[k]) {
      assert s[k] == prefix[k];
    }
    forall k | p <= k < q ensures IsDigit(s[k]) {
      assert s[k] == digits[k - p];
    }
    assert s[q] == ext[0];
    FirstDigitAt(s, p);
    RunEndAt(s, p, q);
    assert s[p..q] == digits;
  }

  lemma FirstDigitAt(s: string, p: nat)
    requires p < |s| && IsDigit(s[p]) && forall k :: 0 <= k < p ==> !IsDigit(s[k])
    ensures FirstDigitFrom(s, 0) == Some(p)
  {
  }

  lemma RunEndAt(s: string, p: nat, q: nat)
    requires p <= q < |s| && (forall k :: p <= k < q ==> IsDigit(s[k])) && !IsDigit(s[q])
    ensures RunEnd(s, p) == q
  {
  }

  /** The region id of a directory entry, when it is a map file whose name holds a digit. */
  function RegionId(prefix: string, name: string): Option<int> {
    if StartsWith(name, prefix) && EndsWith(name, ".txt") then
      match SearchDigits(name)
      case None => None
      case Some(d) =>
        SearchDigitsShape(name);
        Some(DigitsVal(d))
    else None
  }

  lemma SearchDigitsShape(s: string)
    ensures SearchDigits(s).Some? ==> AllDigits(SearchDigits(s).value)
  {
    match FirstDigitFrom(s, 0)
    case None =>
    case Some(p) =>
      var q := RunEnd(s, p);
      assert forall k :: 0 <= k < q - p ==> s[p..q][k] == s[p + k];
  }

  /** The ids appended to `regionids`, in directory order. */
  function RegionIds(prefix: string, names: seq<string>): seq<int> {
    if |names| == 0 then []
    else
      var id := RegionId(prefix, names[|names| - 1]);
      RegionIds(prefix, names[..|names| - 1]) + (if id.Some? then [id.value] else [])
  }

  /** The id loop of `create_edgeConnections_and_sensorInfo_for_each_Region`, over the listed names. */
  method CollectRegionIds(prefix: string, names: seq<string>) returns (ids: seq<int>)
    ensures ids == RegionIds(prefix, names)
  {
    ids := [];
    var k := 0;
    while k < |names|
      invariant 0 <= k <= |names| && ids == RegionIds(prefix, names[..k])
    {
      assert names[..k + 1][..k] == names[..k];
      var name := names[k];
      if StartsWith(name, prefix) && EndsWith(name, ".txt") {
        var m := SearchDigits(name);
        if m.Some? {
          SearchDigitsShape(name);
          ids := ids + [DigitsVal(m.value)];
        }
      }
      k := k + 1;
    }
    assert names[..|names|] == names;
  }

  /**
   * One id per listed map file whose name holds a digit, in listing order:
   * the m-th id comes from the m-th such name.
   */
  lemma {:induction false} RegionIdsRule(prefix: string, names: seq<string>)
    ensures |RegionIds(prefix, names)| == |Wanted(prefix, names)|
    ensures forall m :: 0 <= m < |RegionIds(prefix, names)| ==> Some(RegionIds(prefix, names)[m]) == RegionId(prefix, Wanted(prefix, names)[m])
  {
    if |names| > 0 {
      RegionIdsRule(prefix, names[..|names| - 1]);
    }
  }

  /** The listed names that yield a region id. */
  function Wanted(prefix: string, names: seq<string>): (r: seq<string>)
    ensures forall m :: 0 <= m < |r| ==> RegionId(prefix, r[m]).Some?
    ensures IsSubseq(r, names)
  {
    if |names| == 0 then []
    else
      var last := names[|names| - 1];
      var init := Wanted(prefix, names[..|names| - 1]);
      assert names == names[..|names| - 1] + [last];
      SubseqSnoc(init, names[..|names| - 1], last);
      if RegionId(prefix, last).Some? then init + [last] else init
  }
}

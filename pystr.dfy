/**
 * The few Python string operations the model needs: `str(int)`, `int(s)`,
 * `s.strip()`, `s.split(c)` and `sep.join(parts)`.
 */
module PyStr {
  import opened Wrappers

  predicate IsDigit(c: char) {
    '0' <= c <= '9'
  }

  /** The ASCII characters `str.isspace` accepts, which `strip()` and `int()` skip: space, \t to \r, and \x1c to \x1f. */
  predicate IsSpace(c: char) {
    c == ' ' || c == '\t' || c == '\n' || c == '\U{0B}' || c == '\U{0C}' || c == '\r' ||
    c == '\U{1C}' || c == '\U{1D}' || c == '\U{1E}' || c == '\U{1F}'
  }

  predicate AllDigits(s: string) {
    forall i :: 0 <= i < |s| ==> IsDigit(s[i])
  }

  function DigitChar(d: int): (c: char)
    requires 0 <= d < 10
    ensures IsDigit(c) && (c as int) - ('0' as int) == d
  {
    (('0' as int) + d) as char
  }

  /** The decimal digits of `n`, without leading zeros. */
  function ShowNat(n: nat): (s: string)
    ensures |s| > 0 && AllDigits(s)
  {
    if n < 10 then [DigitChar(n)] else ShowNat(n / 10) + [DigitChar(n % 10)]
  }

  /** `str(n)`. */
  function Show(n: int): string {
    if n < 0 then "-" + ShowNat(-n) else ShowNat(n)
  }

  /** `map(str, p)`. */
  function Shows(p: seq<int>): (r: seq<string>)
    ensures |r| == |p| && forall i :: 0 <= i < |p| ==> r[i] == Show(p[i])
  {
    seq(|p|, i requires 0 <= i < |p| => Show(p[i]))
  }

  /** The length of the run of digits that starts `s`. */
  function DigitPrefix(s: string): (n: nat)
    ensures n <= |s|
    ensures forall k :: 0 <= k < n ==> IsDigit(s[k])
    ensures n < |s| ==> !IsDigit(s[n])
  {
    if |s| > 0 && IsDigit(s[0]) then 1 + DigitPrefix(s[1..]) else 0
  }

  /** The value of a string of decimal digits. */
  function DigitsVal(s: string): nat
    requires AllDigits(s)
  {
    if |s| == 0 then 0
    else DigitsVal(s[..|s| - 1]) * 10 + ((s[|s| - 1] as int) - ('0' as int))
  }

  function LStrip(s: string): (r: string)
    ensures |r| > 0 ==> !IsSpace(r[0])
    ensures |r| <= |s|
  {
    if |s| > 0 && IsSpace(s[0]) then LStrip(s[1..]) else s
  }

  function RStrip(s: string): (r: string)
    ensures |r| > 0 ==> !IsSpace(r[|r| - 1])
    ensures |r| <= |s|
  {
    if |s| > 0 && IsSpace(s[|s| - 1]) then RStrip(s[..|s| - 1]) else s
  }

  /** `s.strip()`. */
  function Strip(s: string): string {
    RStrip(LStrip(s))
  }

  /** `int(s)`: optional surrounding whitespace, an optional sign, then at least one digit. */
  function ParseInt(s: string): Option<int> {
    var t := Strip(s);
    if |t| > 1 && t[0] == '-' && AllDigits(t[1..]) then Some(0 - DigitsVal(t[1..]) as int)
    else if |t| > 1 && t[0] == '+' && AllDigits(t[1..]) then Some(DigitsVal(t[1..]))
    else if |t| > 0 && AllDigits(t) then Some(DigitsVal(t))
    else None
  }

  function Pow10(n: nat): (p: nat)
    ensures p > 0
  {
    if n == 0 then 1 else 10 * Pow10(n - 1)
  }

  /**
   * `float(s)` for decimal notation: optional surrounding whitespace, an
   * optional sign, then digits with at most one `.` and at least one digit.
   */
  function ParseFloat(s: string): Option<real> {
    var t := Strip(s);
    var u := if |t| > 0 && (t[0] == '-' || t[0] == '+') then t[1..] else t;
    var i := DigitPrefix(u);
    var whole := DigitsVal(u[..i]) as real;
    var mag :=
      if i == |u| then (if i > 0 then Some(whole) else None)
      else if u[i] == '.' && AllDigits(u[i + 1..]) && (i > 0 || i + 1 < |u|) then
        Some(whole + (DigitsVal(u[i + 1..]) as real) / (Pow10(|u| - i - 1) as real))
      else None;
    match mag
    case None => None
    case Some(m) => Some(if |t| > 0 && t[0] == '-' then -m else m)
  }

  /** Every text `int` accepts, `float` accepts with the same value. */
  lemma IntFloat(s: string)
    requires ParseInt(s).Some?
    ensures ParseFloat(s) == Some(ParseInt(s).value as real)
  {
    var t := Strip(s);
    var u := if |t| > 0 && (t[0] == '-' || t[0] == '+') then t[1..] else t;
    assert AllDigits(u);
    var i := DigitPrefix(u);
    assert i == |u|;
    assert u[..i] == u;
  }

  /** `s.split(c)`: the pieces between the separators, one more than there are separators. */
  function Split(s: string, c: char): (r: seq<string>)
    ensures |r| > 0
  {
    if |s| == 0 then [""]
    else
      var rest := Split(s[1..], c);
      if s[0] == c then [""] + rest else [[s[0]] + rest[0]] + rest[1..]
  }

  /** `sep.join(parts)`. */
  function Join(parts: seq<string>, sep: string): string {
    if |parts| == 0 then ""
    else if |parts| == 1 then parts[0]
    else parts[0] + sep + Join(parts[1..], sep)
  }

  // ---------------------------------------------------------------- lemmas

  lemma {:induction false} ShowNatVal(n: nat)
    ensures DigitsVal(ShowNat(n)) == n
  {
    if n >= 10 {
      ShowNatVal(n / 10);
      var s := ShowNat(n);
      assert s[..|s| - 1] == ShowNat(n / 10);
    }
  }

  lemma ShowShape(n: int)
    ensures |Show(n)| > 0 && !IsSpace(Show(n)[0]) && !IsSpace(Show(n)[|Show(n)| - 1])
    ensures forall i :: 0 <= i < |Show(n)| ==> Show(n)[i] != ','
  {
    var s := ShowNat(if n < 0 then -n else n);
    assert IsDigit(s[|s| - 1]) && IsDigit(s[0]);
    if n < 0 {
      assert Show(n) == "-" + s;
      assert Show(n)[|Show(n)| - 1] == s[|s| - 1];
    }
  }

  lemma {:induction false} LStripSpace(t: string)
    ensures LStrip(" " + t) == LStrip(t)
  {
    assert (" " + t)[1..] == t;
  }

  lemma StripPlain(t: string)
    requires |t| > 0 && !IsSpace(t[0]) && !IsSpace(t[|t| - 1])
    ensures Strip(t) == t
  {
  }

  /** `int(str(n)) == n`, also with the blank that `", ".join` leaves in front. */
  lemma ParseShow(n: int)
    ensures ParseInt(Show(n)) == Some(n)
    ensures ParseInt(" " + Show(n)) == Some(n)
  {
    ShowShape(n);
    StripPlain(Show(n));
    LStripSpace(Show(n));
    assert Strip(" " + Show(n)) == Strip(Show(n));
    var m := if n < 0 then -n else n;
    ShowNatVal(m);
    if n < 0 {
      assert Show(n)[1..] == ShowNat(m);
    }
  }

  lemma {:induction false} SplitPlain(a: string, c: char)
    requires forall i :: 0 <= i < |a| ==> a[i] != c
    ensures Split(a, c) == [a]
  {
    if |a| > 0 {
      SplitPlain(a[1..], c);
      assert [a[0]] + a[1..] == a;
    }
  }

  lemma {:induction false} SplitAt(a: string, b: string, c: char)
    requires forall i :: 0 <= i < |a| ==> a[i] != c
    ensures Split(a + [c] + b, c) == [a] + Split(b, c)
  {
    if |a| == 0 {
      assert a + [c] + b == [c] + b;
      assert ([c] + b)[1..] == b;
    } else {
      var s := a + [c] + b;
      assert s[0] == a[0];
      assert s[1..] == a[1..] + [c] + b;
      SplitAt(a[1..], b, c);
      assert [a[0]] + a[1..] == a;
    }
  }

  /** No character of `x` is `c`. */
  predicate Free(x: string, c: char) {
    forall i :: 0 <= i < |x| ==> x[i] != c
  }

  /** The pieces of a split contain no separator. */
  lemma {:induction false} SplitFree(s: string, c: char)
    ensures forall k :: 0 <= k < |Split(s, c)| ==> Free(Split(s, c)[k], c)
  {
    if |s| > 0 {
      SplitFree(s[1..], c);
    }
  }

  /** Joining pieces free of `c` with `c` and splitting at `c` gives the pieces back. */
  lemma {:induction false} JoinSplit(parts: seq<string>, c: char)
    requires |parts| > 0 && forall k :: 0 <= k < |parts| ==> Free(parts[k], c)
    ensures Split(Join(parts, [c]), c) == parts
  {
    if |parts| == 1 {
      SplitPlain(parts[0], c);
    } else {
      JoinSplit(parts[1..], c);
      SplitAt(parts[0], Join(parts[1..], [c]), c);
      assert [parts[0]] + parts[1..] == parts;
    }
  }

  /** `strip()` removes the line break `readline` leaves, and nothing more, from a line with no blank at either end. */
  lemma StripNewline(t: string)
    requires |t| > 0 && !IsSpace(t[0]) && !IsSpace(t[|t| - 1])
    ensures Strip(t + "\n") == t
  {
    var s := t + "\n";
    assert s[0] == t[0];
    assert LStrip(s) == s;
    assert s[..|s| - 1] == t;
    assert RStrip(s) == RStrip(t);
  }

  /** A join ends with its last part. */
  lemma {:induction false} JoinLast(parts: seq<string>, sep: string)
    requires |parts| > 0
    ensures var j := Join(parts, sep); var p := parts[|parts| - 1];
      |p| <= |j| && j[|j| - |p|..] == p
  {
    if |parts| > 1 {
      JoinLast(parts[1..], sep);
      var rest := Join(parts[1..], sep);
      var p := parts[|parts| - 1];
      assert parts[1..][|parts[1..]| - 1] == p;
      var j := parts[0] + sep + rest;
      assert j[|j| - |p|..] == rest[|rest| - |p|..];
    }
  }

  /** A join of two or more parts is the join of all but the last, the separator, and the last part. */
  lemma {:induction false} JoinSnoc(parts: seq<string>, sep: string)
    requires |parts| >= 2
    ensures Join(parts, sep) == Join(parts[..|parts| - 1], sep) + sep + parts[|parts| - 1]
  {
    if |parts| > 2 {
      JoinSnoc(parts[1..], sep);
      assert parts[1..][..|parts[1..]| - 1] == parts[..|parts| - 1][1..];
    } else {
      assert parts[..1] == [parts[0]];
    }
  }
}

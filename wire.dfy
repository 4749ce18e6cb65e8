/**
 * The text a region worker sends for its set of distinct object ids
 * (`str(set)`) and the way the coordinator reads it back
 * (`{int(v.strip()) for v in s[1:-1].split(',')}`).
 */
module Wire {
  import opened Wrappers
  import opened Seqs
  import opened PyStr

  function ShowAll(xs: seq<int>): (r: seq<string>)
    ensures |r| == |xs|
    ensures forall i :: 0 <= i < |xs| ==> r[i] == Show(xs[i])
  {
    if |xs| == 0 then [] else [Show(xs[0])] + ShowAll(xs[1..])
  }

  /** `str(s)` for a Python set of ints whose iteration order is `xs`. */
  function SetText(xs: seq<int>): string {
    if |xs| == 0 then "set()" else "{" + Join(ShowAll(xs), ", ") + "}"
  }

  /** `s[1:-1]`. */
  function Inner(s: string): string {
    if |s| >= 2 then s[1..|s| - 1] else ""
  }

  /** The set comprehension over the pieces; the first piece that is not an int raises. */
  function ParseAll(ps: seq<string>): (r: Result<set<int>>)
    ensures r.Err? ==> r.error == ValueError
  {
    if |ps| == 0 then Ok({})
    else match ParseInt(ps[0])
      case None => Err(ValueError)
      case Some(n) =>
        match ParseAll(ps[1..])
        case Err(e) => Err(e)
        case Ok(rest) => Ok({n} + rest)
  }

  /** How the coordinator turns a worker's reply into its set of object ids. */
  function ParseObjs(s: string): Result<set<int>> {
    ParseAll(Split(Inner(s), ','))
  }

  lemma ParseAllEach(ps: seq<string>)
    ensures ParseAll(ps).Ok? <==> forall i :: 0 <= i < |ps| ==> ParseInt(ps[i]).Some?
    ensures ParseAll(ps).Ok? ==>
      forall n :: n in ParseAll(ps).value <==> exists i :: 0 <= i < |ps| && ParseInt(ps[i]) == Some(n)
  {
    if |ps| > 0 {
      ParseAllEach(ps[1..]);
      assert forall i :: 1 <= i < |ps| ==> ps[i] == ps[1..][i - 1];
      if ParseAll(ps).Ok? {
        forall n | n in ParseAll(ps).value
          ensures exists i :: 0 <= i < |ps| && ParseInt(ps[i]) == Some(n)
        {
          if ParseInt(ps[0]) != Some(n) {
            var i :| 0 <= i < |ps[1..]| && ParseInt(ps[1..][i]) == Some(n);
            assert ParseInt(ps[i + 1]) == Some(n);
          }
        }
        forall n, i | 0 <= i < |ps| && ParseInt(ps[i]) == Some(n)
          ensures n in ParseAll(ps).value
        {
          if i > 0 {
            assert ParseInt(ps[1..][i - 1]) == Some(n);
          }
        }
      }
    }
  }

  lemma ParseHead(pre: string, x: int)
    requires pre == "" || pre == " "
    ensures ParseInt(pre + Show(x)) == Some(x)
    ensures forall i :: 0 <= i < |pre + Show(x)| ==> (pre + Show(x))[i] != ','
  {
    ShowShape(x);
    ParseShow(x);
    if pre == "" {
      assert pre + Show(x) == Show(x);
    }
  }

  lemma {:induction false} ParseJoined(pre: string, xs: seq<int>)
    requires |xs| > 0
    requires pre == "" || pre == " "
    ensures ParseAll(Split(pre + Join(ShowAll(xs), ", "), ',')) == Ok(Elems(xs))
    decreases |xs|
  {
    if |xs| == 1 {
      ParseJoinedOne(pre, xs);
    } else {
      ParseJoined(" ", xs[1..]);
      ParseJoinedStep(pre, xs);
    }
  }

  lemma ParseJoinedOne(pre: string, xs: seq<int>)
    requires |xs| == 1
    requires pre == "" || pre == " "
    ensures ParseAll(Split(pre + Join(ShowAll(xs), ", "), ',')) == Ok(Elems(xs))
  {
    var head := pre + Show(xs[0]);
    ParseHead(pre, xs[0]);
    assert pre + Join(ShowAll(xs), ", ") == head;
    SplitPlain(head, ',');
    ParseAllOne(head, xs[0]);
    assert Elems(xs) == {xs[0]};
  }

  lemma ParseAllOne(h: string, n: int)
    requires ParseInt(h) == Some(n)
    ensures ParseAll([h]) == Ok({n})
  {
    assert [h][1..] == [];
    assert {n} + {} == {n};
  }

  lemma ParseJoinedStep(pre: string, xs: seq<int>)
    requires |xs| > 1
    requires pre == "" || pre == " "
    requires ParseAll(Split(" " + Join(ShowAll(xs[1..]), ", "), ',')) == Ok(Elems(xs[1..]))
    ensures ParseAll(Split(pre + Join(ShowAll(xs), ", "), ',')) == Ok(Elems(xs))
  {
    var head := pre + Show(xs[0]);
    ParseHead(pre, xs[0]);
    var rest := Join(ShowAll(xs[1..]), ", ");
    assert ShowAll(xs)[1..] == ShowAll(xs[1..]);
    assert pre + Join(ShowAll(xs), ", ") == head + [','] + (" " + rest);
    SplitAt(head, " " + rest, ',');
    ElemsCons(xs);
  }

  lemma ElemsCons(xs: seq<int>)
    requires |xs| > 0
    ensures Elems(xs) == {xs[0]} + Elems(xs[1..])
  {
    assert forall y :: y in xs <==> y == xs[0] || y in xs[1..];
  }

  /**
   * Reading back what a worker wrote gives exactly its objects; an empty
   * set prints as `set()`, which the coordinator cannot read.
   */
  lemma SetTextRoundTrip(xs: seq<int>)
    ensures ParseObjs(SetText(xs)) == if |xs| == 0 then Err(ValueError) else Ok(Elems(xs))
  {
    if |xs| == 0 {
      assert Inner(SetText(xs)) == "et(";
      SplitPlain("et(", ',');
      assert Strip("et(") == "et(";
    } else {
      var body := Join(ShowAll(xs), ", ");
      assert Inner(SetText(xs)) == "" + body;
      ParseJoined("", xs);
    }
  }
}

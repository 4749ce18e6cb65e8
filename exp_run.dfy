/**
 * What `run_script` (Code/experiment_creator.py, Code/HoMoPaD/experiment_creator.py)
 * returns once the launched `homopa.py` has ended: the last line of its
 * standard output that `int()` accepts, provided the exit code is 0, and
 * `None` otherwise.  The process itself is replaced by the lines it printed
 * and its exit code.
 */
module ScriptOutput {
  import opened Wrappers
  import opened PyStr

  /** What `int(line.strip())` gives for each line, `None` where it raises. */
  function LineValues(lines: seq<string>): (vs: seq<Option<int>>)
    ensures |vs| == |lines|
  {
    seq(|lines|, k requires 0 <= k < |lines| => ParseInt(Strip(lines[k])))
  }

  /** The last value present. */
  function LastSome<T>(vs: seq<Option<T>>): Option<T> {
    if |vs| == 0 then None
    else if vs[|vs| - 1].Some? then vs[|vs| - 1]
    else LastSome(vs[..|vs| - 1])
  }

  /** The value `run_script` returns. */
  function ScriptResult(lines: seq<string>, returnCode: int): Option<int> {
    if returnCode == 0 then LastSome(LineValues(lines)) else None
  }

  /** The read loop over the lines `readline` returned, then the exit-code test. */
  method RunScript(lines: seq<string>, returnCode: int) returns (r: Option<int>)
    ensures r == ScriptResult(lines, returnCode)
  {
    ghost var vs := LineValues(lines);
    var lastOutput: Option<int> := None;
    var k := 0;
    while k < |lines|
      invariant 0 <= k <= |lines| && lastOutput == LastSome(vs[..k])
    {
      assert vs[..k + 1][..k] == vs[..k];
      var output := lines[k];
      if output != "" {
        var v := ParseInt(Strip(output));
        if v.Some? {
          lastOutput := v;
        }
      } else {
        assert ParseInt(Strip("")).None?;
      }
      k := k + 1;
    }
    assert vs[..|lines|] == vs;
    if returnCode == 0 {
      if lastOutput.Some? {
        r := lastOutput;
      } else {
        r := None;
      }
    } else {
      r := None;
    }
  }

  /**
   * The result is `n` exactly when some line parses as `n` and no later
   * line parses at all; it is `None` exactly when no line parses.
   */
  lemma {:induction false} LastSomeRule<T>(vs: seq<Option<T>>)
    ensures forall n :: LastSome(vs) == Some(n) <==>
      exists i :: 0 <= i < |vs| && vs[i] == Some(n) && forall j :: i < j < |vs| ==> vs[j].None?
    ensures LastSome(vs).None? <==> forall i :: 0 <= i < |vs| ==> vs[i].None?
  {
    if |vs| > 0 {
      var init := vs[..|vs| - 1];
      LastSomeRule(init);
      assert forall j :: 0 <= j < |init| ==> init[j] == vs[j];
      forall n ensures LastSome(vs) == Some(n) <==>
        exists i :: 0 <= i < |vs| && vs[i] == Some(n) && forall j :: i < j < |vs| ==> vs[j].None?
      {
        if vs[|vs| - 1].None? && exists i :: 0 <= i < |vs| && vs[i] == Some(n) && forall j :: i < j < |vs| ==> vs[j].None? {
          var i :| 0 <= i < |vs| && vs[i] == Some(n) && forall j :: i < j < |vs| ==> vs[j].None?;
          assert init[i] == Some(n);
        }
      }
    }
  }

  /** Stated over the printed lines: the run reports the last line `int()` accepts, or `None` when it failed or printed none. */
  lemma ScriptResultRule(lines: seq<string>, returnCode: int)
    ensures forall n :: ScriptResult(lines, returnCode) == Some(n) <==>
      returnCode == 0 &&
      exists i :: 0 <= i < |lines| && ParseInt(Strip(lines[i])) == Some(n) &&
        forall j :: i < j < |lines| ==> ParseInt(Strip(lines[j])).None?
    ensures ScriptResult(lines, returnCode).None? <==>
      returnCode != 0 || forall i :: 0 <= i < |lines| ==> ParseInt(Strip(lines[i])).None?
  {
    var vs := LineValues(lines);
    LastSomeRule(vs);
    assert forall i :: 0 <= i < |lines| ==> vs[i] == ParseInt(Strip(lines[i]));
  }

  /** A run that exits with 0 after printing `n` on its last line reports `n`, whatever it printed before. */
  lemma PrintedLast(lines: seq<string>, n: int)
    ensures ScriptResult(lines + [Show(n) + "\n"], 0) == Some(n)
  {
    var all := lines + [Show(n) + "\n"];
    ShowShape(n);
    StripNewline(Show(n));
    ParseShow(n);
    assert all[|all| - 1] == Show(n) + "\n";
  }
}

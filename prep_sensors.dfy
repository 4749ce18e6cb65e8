/**
 * The motion-to-sensor inversion of `write_data_to_sensors_file` in
 * Code/preparation.py.  Each motion line is `obj,e1,e2,...`; the result maps
 * every edge, in the order edges are first seen, to the objects whose motion
 * passes it, each object once and in first-seen order, and is written as one
 * line `edge,obj1,obj2,...` per edge.
 */
module Sensors {
  import opened Seqs
  import opened PyStr

  // ---------------------------------------------------------------- a motion line

  /** A motion line split at commas: the object id and the edge ids it passes. */
  datatype Motion<T> = Motion(obj: T, edges: seq<T>)

  /** `values = line.strip().split(',')`; `values[0]` and `values[1:]`. */
  function ParseMotion(line: string): Motion<string> {
    var values := Split(Strip(line), ',');
    Motion(values[0], values[1..])
  }

  function Motions(lines: seq<string>): (ms: seq<Motion<string>>)
    ensures |ms| == |lines|
  {
    seq(|lines|, k requires 0 <= k < |lines| => ParseMotion(lines[k]))
  }

  // ---------------------------------------------------------------- reference definitions

  /** Every edge token of every motion, in reading order, repeats included. */
  function AllEdges<T>(ms: seq<Motion<T>>): seq<T> {
    if |ms| == 0 then []
    else AllEdges(ms[..|ms| - 1]) + ms[|ms| - 1].edges
  }

  /** The objects of the motions whose edges include `e`, one per such motion, in reading order. */
  function ObjsOf<T(==)>(ms: seq<Motion<T>>, e: T): seq<T> {
    if |ms| == 0 then []
    else
      var last := ms[|ms| - 1];
      ObjsOf(ms[..|ms| - 1], e) + (if e in last.edges then [last.obj] else [])
  }

  // ---------------------------------------------------------------- the dictionary as a fold

  /** `edge_sensors`: its keys in insertion order, and each key's list. */
  datatype Table<T> = Table(keys: seq<T>, vals: map<T, seq<T>>)

  /** `edge_sensors.get(e, [])`. */
  function Objs<T>(t: Table<T>, e: T): seq<T> {
    if e in t.vals then t.vals[e] else []
  }

  /** The inner loop: object `o` added, once, under each edge of `es`, each edge created empty when new. */
  function AddObj<T(==)>(t: Table<T>, o: T, es: seq<T>): Table<T> {
    if |es| == 0 then t
    else AddOne(AddObj(t, o, es[..|es| - 1]), o, es[|es| - 1])
  }

  /** One pass of the inner loop: `e` created empty when new, then `o` appended unless present. */
  function AddOne<T(==)>(u: Table<T>, o: T, e: T): Table<T> {
    var cur := Objs(u, e);
    Table(if e in u.vals then u.keys else u.keys + [e], u.vals[e := if o in cur then cur else cur + [o]])
  }

  /** The outer loop over the motion lines. */
  function Invert<T(==)>(ms: seq<Motion<T>>): Table<T> {
    if |ms| == 0 then Table([], map[])
    else AddObj(Invert(ms[..|ms| - 1]), ms[|ms| - 1].obj, ms[|ms| - 1].edges)
  }

  // ---------------------------------------------------------------- the loops

  /** Steps 1 and 2 of `write_data_to_sensors_file`: the dictionary built from the motion lines. */
  method InvertMotions(lines: seq<string>) returns (t: Table<string>)
    ensures t == Invert(Motions(lines))
  {
    ghost var ms := Motions(lines);
    t := Table([], map[]);
    var j := 0;
    while j < |lines|
      invariant 0 <= j <= |lines| && t == Invert(ms[..j])
    {
      assert ms[..j + 1][..j] == ms[..j];
      var values := Split(Strip(lines[j]), ',');
      t := AddLine(t, values[0], values[1..]);
      j := j + 1;
    }
    assert ms[..|ms|] == ms;
  }

  /** One motion line: its object is added under each of its edges. */
  method AddLine(t0: Table<string>, o: string, es: seq<string>) returns (t: Table<string>)
    ensures t == AddObj(t0, o, es)
  {
    var keys, vals := t0.keys, t0.vals;
    var k := 0;
    while k < |es|
      invariant 0 <= k <= |es| && Table(keys, vals) == AddObj(t0, o, es[..k])
    {
      assert es[..k + 1][..k] == es[..k];
      var e := es[k];
      if e !in vals {
        keys := keys + [e];
        vals := vals[e := []];
      }
      if o !in vals[e] {
        vals := vals[e := vals[e] + [o]];
      }
      k := k + 1;
    }
    assert es[..|es|] == es;
    return Table(keys, vals);
  }

  /** Writing out a line `edge_id,obj1,obj2,...` per key, in key order. */
  function SensorLines(t: Table<string>): (out: seq<string>)
    ensures |out| == |t.keys|
    ensures forall m :: 0 <= m < |out| ==> out[m] == t.keys[m] + "," + Join(Objs(t, t.keys[m]), ",")
  {
    seq(|t.keys|, m requires 0 <= m < |t.keys| => t.keys[m] + "," + Join(Objs(t, t.keys[m]), ","))
  }

  /** `write_data_to_sensors_file` without the files: the motion lines in, the sensor lines out. */
  method WriteDataToSensorsFile(lines: seq<string>) returns (out: seq<string>)
    ensures out == SensorLines(Invert(Motions(lines)))
  {
    var t := InvertMotions(lines);
    out := [];
    var m := 0;
    while m < |t.keys|
      invariant 0 <= m <= |t.keys| && out == SensorLines(t)[..m]
    {
      var e := t.keys[m];
      out := out + [e + "," + Join(Objs(t, e), ",")];
      m := m + 1;
    }
  }

  // ---------------------------------------------------------------- what the table holds

  /** The keys are the distinct edges in first-seen order, and exactly they have lists. */
  lemma {:induction false} KeysRule<T(!new)>(ms: seq<Motion<T>>)
    ensures Invert(ms).keys == Dedup(AllEdges(ms))
    ensures forall e :: e in Invert(ms).vals <==> e in Invert(ms).keys
  {
    if |ms| > 0 {
      var init := ms[..|ms| - 1];
      KeysRule(init);
      AddObjKeys(Invert(init), AllEdges(init), ms[|ms| - 1].obj, ms[|ms| - 1].edges);
    }
  }

  lemma {:induction false} AddObjKeys<T(!new)>(t: Table<T>, seen: seq<T>, o: T, es: seq<T>)
    requires t.keys == Dedup(seen) && forall e :: e in t.vals <==> e in t.keys
    ensures AddObj(t, o, es).keys == Dedup(seen + es)
    ensures forall e :: e in AddObj(t, o, es).vals <==> e in AddObj(t, o, es).keys
  {
    if |es| == 0 {
      assert seen + es == seen;
    } else {
      var init := es[..|es| - 1];
      var e := es[|es| - 1];
      AddObjKeys(t, seen, o, init);
      var S := seen + init;
      assert seen + es == S + [e];
      var u := AddObj(t, o, init);
      assert AddObj(t, o, es) == AddOne(u, o, e);
      AddOneKeys(u, S, o, e);
    }
  }

  lemma AddOneKeys<T(!new)>(u: Table<T>, S: seq<T>, o: T, e: T)
    requires u.keys == Dedup(S) && forall x :: x in u.vals <==> x in u.keys
    ensures AddOne(u, o, e).keys == Dedup(S + [e])
    ensures forall x :: x in AddOne(u, o, e).vals <==> x in AddOne(u, o, e).keys
  {
    assert (S + [e])[..|S|] == S;
    assert Dedup(S + [e]) == if e in Dedup(S) then Dedup(S) else Dedup(S) + [e];
  }

  /** Each edge's list is the distinct objects of the motions through it, in first-seen order. */
  lemma {:induction false} ValsRule<T(!new)>(ms: seq<Motion<T>>, e: T)
    ensures Objs(Invert(ms), e) == Dedup(ObjsOf(ms, e))
  {
    if |ms| > 0 {
      var init := ms[..|ms| - 1];
      var last := ms[|ms| - 1];
      ValsRule(init, e);
      AddObjVal(Invert(init), last.obj, last.edges, e);
      var x := ObjsOf(init, e);
      if e in last.edges {
        assert (x + [last.obj])[..|x|] == x;
      } else {
        assert ObjsOf(ms, e) == x;
      }
    }
  }

  lemma {:induction false} AddObjVal<T(!new)>(t: Table<T>, o: T, es: seq<T>, e: T)
    ensures Objs(AddObj(t, o, es), e) ==
      if e in es then (if o in Objs(t, e) then Objs(t, e) else Objs(t, e) + [o]) else Objs(t, e)
  {
    if |es| > 0 {
      var init := es[..|es| - 1];
      AddObjVal(t, o, init, e);
      LastSplit(es);
      if e in init && e == es[|es| - 1] {
        var cur := Objs(t, e);
        assert o in (if o in cur then cur else cur + [o]);
      }
    }
  }

  /**
   * Object `o` is listed under edge `e` exactly when `e` occurs in a motion
   * of `o`; the lists have no duplicates and neither do the keys.
   */
  lemma InversionRule<T(!new)>(ms: seq<Motion<T>>, e: T, o: T)
    ensures o in Objs(Invert(ms), e) <==> exists k :: 0 <= k < |ms| && ms[k].obj == o && e in ms[k].edges
    ensures NoDup(Objs(Invert(ms), e)) && NoDup(Invert(ms).keys)
    ensures e in Invert(ms).keys <==> exists k :: 0 <= k < |ms| && e in ms[k].edges
  {
    ValsRule(ms, e);
    KeysRule(ms);
    ObjsOfRule(ms, e, o);
    AllEdgesRule(ms, e);
  }

  lemma {:induction false} ObjsOfRule<T>(ms: seq<Motion<T>>, e: T, o: T)
    ensures o in ObjsOf(ms, e) <==> exists k :: 0 <= k < |ms| && ms[k].obj == o && e in ms[k].edges
  {
    if |ms| > 0 {
      var init := ms[..|ms| - 1];
      ObjsOfRule(init, e, o);
      assert forall k :: 0 <= k < |init| ==> init[k] == ms[k];
    }
  }

  lemma {:induction false} AllEdgesRule<T>(ms: seq<Motion<T>>, e: T)
    ensures e in AllEdges(ms) <==> exists k :: 0 <= k < |ms| && e in ms[k].edges
  {
    if |ms| > 0 {
      var init := ms[..|ms| - 1];
      AllEdgesRule(init, e);
      assert forall k :: 0 <= k < |init| ==> init[k] == ms[k];
    }
  }

  /** A sensor line read back at commas gives its edge and its objects (the list of a key is never empty). */
  lemma SensorLineRoundTrip(lines: seq<string>, m: nat)
    requires m < |SensorLines(Invert(Motions(lines)))|
    ensures var t := Invert(Motions(lines));
      Split(SensorLines(t)[m], ',') == [t.keys[m]] + Objs(t, t.keys[m]) && |Objs(t, t.keys[m])| > 0
  {
    var t := Invert(Motions(lines));
    var e := t.keys[m];
    KeyTokens(lines, e);
    SplitAt(e, Join(Objs(t, e), ","), ',');
    JoinSplit(Objs(t, e), ',');
  }

  /** A key and the objects under it are comma-free, and a key always has an object. */
  lemma KeyTokens(lines: seq<string>, e: string)
    requires e in Invert(Motions(lines)).keys
    ensures var t := Invert(Motions(lines));
      Free(e, ',') && |Objs(t, e)| > 0 && forall x :: x in Objs(t, e) ==> Free(x, ',')
  {
    var ms := Motions(lines);
    var t := Invert(ms);
    KeysRule(ms);
    AllEdgesRule(ms, e);
    var k :| 0 <= k < |ms| && e in ms[k].edges;
    ObjsOfRule(ms, e, ms[k].obj);
    ValsRule(ms, e);
    assert ms[k].obj in Objs(t, e);
    TokensFree(lines);
    forall x | x in Objs(t, e)
      ensures Free(x, ',')
    {
      ObjsOfRule(ms, e, x);
    }
  }

  /** Every token of a motion line is comma-free, being a piece of a split at commas. */
  lemma TokensFree(lines: seq<string>)
    ensures forall k :: 0 <= k < |lines| ==> Free(Motions(lines)[k].obj, ',')
    ensures forall k, x :: 0 <= k < |lines| && x in Motions(lines)[k].edges ==> Free(x, ',')
  {
    forall k | 0 <= k < |lines|
      ensures Free(Motions(lines)[k].obj, ',') && forall x :: x in Motions(lines)[k].edges ==> Free(x, ',')
    {
      SplitFree(Strip(lines[k]), ',');
    }
  }
}

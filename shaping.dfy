/** `display_result` and `get_projection`: turning an output matrix into a
    list of labelled entries, and a list of field names into a projection. */
module Shaping {
  import opened Wrappers
  import opened Json
  import opened Frames

  /** The `m` argument of `display_result`: left at its default `[]`, a
      numpy array of labels, or a bool passed in its position. */
  datatype MArg = Default | Ids(ids: seq<string>) | Flag(b: bool)

  /** What `m` becomes in every entry; `len()` of a bool is a TypeError. */
  function MValue(m: MArg): (r: Result<Json>)
    ensures r.Failure? <==> m.Flag?
  {
    match m
    case Default => Success(JList([]))
    case Ids(ids) => Success(Strings(ids))
    case Flag(_) => Failure("TypeError: object of type 'bool' has no len()")
  }

  /** The labels used: the frame's row labels, or its column labels. */
  function LabelsOf(f: Frame, rowWise: bool): seq<string>
  {
    if rowWise then f.rows else f.cols
  }

  function Entry(id: string, d: Json, m: Json): Json
  {
    JObj(map["id" := JStr(id), "d" := d, "m" := m])
  }

  /** What `display_result(inputdata, f, m, row_wise)` returns or raises. */
  function DisplaySpec(inputdata: seq<Json>, f: Frame, m: MArg, rowWise: bool): Result<seq<Json>>
  {
    var labels := LabelsOf(f, rowWise);
    if |labels| != |inputdata| then Failure("AssertionError")
    else
      match MValue(m)
      case Failure(e) => Failure(e)
      case Success(mv) =>
        Success(seq(|inputdata|, i requires 0 <= i < |inputdata| => Entry(labels[i], inputdata[i], mv)))
  }

  /** `display_result`: asserts one label per input row, then labels each row. */
  method DisplayResult(inputdata: seq<Json>, f: Frame, m: MArg, rowWise: bool) returns (r: Result<seq<Json>>)
    ensures r == DisplaySpec(inputdata, f, m, rowWise)
  {
    var labels := LabelsOf(f, rowWise);
    if |labels| != |inputdata| {
      return Failure("AssertionError");
    }
    var mv := MValue(m);
    if mv.Failure? {
      return Failure(mv.error);
    }
    var output: seq<Json> := [];
    var idx := 0;
    while idx < |inputdata|
      invariant idx <= |inputdata|
      invariant output == seq(idx, i requires 0 <= i < idx => Entry(labels[i], inputdata[i], mv.value))
    {
      output := output + [Entry(labels[idx], inputdata[idx], mv.value)];
      idx := idx + 1;
    }
    r := Success(output);
  }

  /** The call fails iff the label count differs from the number of input
      rows (an AssertionError) or `m` is a bool; otherwise entry `i` carries
      the `i`-th label and the `i`-th input row, and every entry the same `m`. */
  lemma DisplaySpecProperties(inputdata: seq<Json>, f: Frame, m: MArg, rowWise: bool)
    ensures DisplaySpec(inputdata, f, m, rowWise).Failure? <==>
      |LabelsOf(f, rowWise)| != |inputdata| || m.Flag?
    ensures |LabelsOf(f, rowWise)| != |inputdata| ==> DisplaySpec(inputdata, f, m, rowWise) == Failure("AssertionError")
    ensures DisplaySpec(inputdata, f, m, rowWise).Success? ==>
      var out := DisplaySpec(inputdata, f, m, rowWise).value;
      |out| == |inputdata| &&
      forall i :: 0 <= i < |out| ==>
        out[i].JObj? && out[i].fields.Keys == {"id", "d", "m"} &&
        out[i].fields["id"] == JStr(LabelsOf(f, rowWise)[i]) &&
        out[i].fields["d"] == inputdata[i] &&
        out[i].fields["m"] == MValue(m).value
  {
  }

  /** Passing `False` where `m` goes makes every call raise: an
      AssertionError when the lengths differ, a TypeError otherwise. */
  lemma DisplayFlagRaises(inputdata: seq<Json>, f: Frame, b: bool)
    ensures DisplaySpec(inputdata, f, Flag(b), true).Failure?
    ensures |f.rows| == |inputdata| ==>
      DisplaySpec(inputdata, f, Flag(b), true).error == "TypeError: object of type 'bool' has no len()"
  {
  }

  /** `get_projection`: None for a missing or empty list, otherwise every
      item mapped to 1. */
  method GetProjection(items: Option<seq<string>>) returns (r: Option<map<string, int>>)
    ensures r.None? <==> items.None? || |items.value| == 0
    ensures r.Some? ==> forall k :: k in r.value <==> k in items.value
    ensures r.Some? ==> forall k :: k in r.value ==> r.value[k] == 1
  {
    if items.None? || |items.value| == 0 {
      return None;
    }
    var ret: map<string, int> := map[];
    for i := 0 to |items.value|
      invariant forall k :: k in ret <==> k in items.value[..i]
      invariant forall k :: k in ret ==> ret[k] == 1
    {
      assert items.value[..i + 1] == items.value[..i] + [items.value[i]];
      ret := ret[items.value[i] := 1];
    }
    assert items.value[..|items.value|] == items.value;
    r := Some(ret);
  }
}

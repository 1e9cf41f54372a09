/** `DistanceWrapper`: sample-to-sample correlation between the two
    molecular frames over the genes they share. */
module Distance {
  import opened Wrappers
  import opened Order
  import opened Json
  import opened Frames
  import opened Numerics
  import opened Shaping
  import opened AlgorithmWrapper

  /** A name followed by the same name with `2` appended, which `sorted`
      leaves in that order. */
  function Paired(x: string): (r: seq<string>)
    ensures Sorted(r) && Distinct(r) && SetOf(r) == {x, x + "2"}
  {
    var r := [x, x + "2"];
    assert r[0] <= r[1];
    assert Distinct(r) by { assert |r[0]| != |r[1]|; }
    LePrefix(r[0], r[1]);
    SortedFromNeighbours(r);
    r
  }

  /** `get_input_parameters`: the keys a request must carry, in `sorted` order. */
  function InputParameters(): (r: seq<string>)
    ensures Sorted(r) && Distinct(r)
    ensures SetOf(r) == {"molecular_collection", "molecular_collection2"}
  {
    assert "molecular_collection" + "2" == "molecular_collection2";
    Paired("molecular_collection")
  }

  /** `sorted` has only one possible result on these keys. */
  lemma InputParametersUnique(xs: seq<string>)
    requires Sorted(xs) && Distinct(xs) && SetOf(xs) == {"molecular_collection", "molecular_collection2"}
    ensures xs == InputParameters()
  {
    SortedUnique(xs, InputParameters());
  }

  /** `np.intersect1d`: the labels in both lists, sorted, each once. */
  function Intersect1d(a: seq<string>, b: seq<string>): (r: seq<string>)
    ensures Sorted(r) && Distinct(r)
    ensures forall x :: x in r <==> x in a && x in b
  {
    SortedSetSpec(SetOf(a) * SetOf(b));
    assert forall x :: x in SortedSet(SetOf(a) * SetOf(b)) <==> x in SetOf(SortedSet(SetOf(a) * SetOf(b)));
    SortedSet(SetOf(a) * SetOf(b))
  }

  const NoMolDf2 := "'DistanceWrapper' object has no attribute 'mol_df2'"
  const NoOverlap := "No overlapping genes for comparison"
  const UnboundD := "UnboundLocalError: local variable 'D' referenced before assignment"
  const NaND := "results are NaN; no overlapping marker IDs?"

  /** The first row of `D[-n2:, ...]` in a matrix of `h` rows: `-0` is 0,
      and a start before the first row is clamped to it. */
  function BlockStart(h: nat, n2: nat): (start: nat)
    ensures start <= h
    ensures 0 < n2 <= h ==> h - start == n2
  {
    if n2 == 0 || n2 > h then 0 else h - n2
  }

  /** The wrapper's frames, error and warnings, and `D` when bound, after
      the `try` block of lines 38-66. */
  datatype TryState = TryState(molDf: Frame, molDf2: Option<Frame>, error: Option<string>,
                               warning: seq<string>, d: Option<Mat>)

  /** Lines 38-66: the correlation over the shared genes, with the
      warnings collected and any exception's text recorded as the error. */
  function TrySpec(molDf: Frame, molDf2: Option<Frame>, error: Option<string>, warning: seq<string>,
                   corrcoef: (Frame, Frame) -> Computation<Mat>): (t: TryState)
    requires Shaped(molDf) && (molDf2.Some? ==> Shaped(molDf2.value))
    ensures Shaped(t.molDf) && (t.molDf2.Some? ==> Shaped(t.molDf2.value))
    ensures t.d.Some? ==> t.molDf2.Some?
  {
    if Truthy(error) then TryState(molDf, molDf2, error, warning, None)
    else if molDf2.None? then TryState(molDf, molDf2, Some(NoMolDf2), warning, None)
    else
      var sameGenes := Intersect1d(molDf.cols, molDf2.value.cols);
      if |sameGenes| == 0 then TryState(molDf, molDf2, Some(NoOverlap), warning, None)
      else
        var m1 := SelectColumns(molDf, sameGenes).value;
        var m2 := SelectColumns(molDf2.value, sameGenes).value;
        var c := corrcoef(m1, m2);
        match c.outcome
        case Raised(msg) => TryState(m1, Some(m2), Some(msg), warning + c.warnings, None)
        case Returned(full) =>
          TryState(m1, Some(m2), error, warning + c.warnings,
                   Some(Slice(full, BlockStart(full.height, |m2.rows|), |m1.rows|)))
  }

  function Base(): map<string, Json>
  {
    map["dataType" := JStr("Distance"), "D" := JNull, "metadata" := JNull]
  }

  /** Lines 68-87 after the `try` block: the NaN check, then the reason, or
      `D` labelled by the second frame's samples, each entry carrying the
      first frame's samples. */
  function Finish(t: TryState): RunState
    requires t.d.Some? ==> t.molDf2.Some?
  {
    if !Truthy(t.error) && t.d.None? then RunState(t.error, t.warning, Raised(UnboundD))
    else
      var e := if !Truthy(t.error) && AllNaN(t.d.value) then Some(NaND) else t.error;
      if Truthy(e) then RunState(e, t.warning, Returned(Base()["reason" := JStr(e.value)]))
      else
        match DisplaySpec(ToList(t.d.value), t.molDf2.value, Ids(t.molDf.rows), true)
        case Failure(x) => RunState(e, t.warning, Raised(x))
        case Success(out) =>
          RunState(e, t.warning, Returned(Base() + map["D" := JList(out)] + WarningField(t.warning)))
  }

  /** `run_algorithm` on the wrapper's state and the outcome of `np.corrcoef`. */
  function RunSpec(molDf: Frame, molDf2: Option<Frame>, error: Option<string>, warning: seq<string>,
                   corrcoef: (Frame, Frame) -> Computation<Mat>): RunState
    requires Shaped(molDf) && (molDf2.Some? ==> Shaped(molDf2.value))
  {
    Finish(TrySpec(molDf, molDf2, error, warning, corrcoef))
  }

  /** A set error skips the calculation and a missing second frame becomes
      the reason; the frames keep their samples whatever happens. */
  lemma TrySpecSkips(molDf: Frame, molDf2: Option<Frame>, error: Option<string>, warning: seq<string>,
                     corrcoef: (Frame, Frame) -> Computation<Mat>)
    requires Shaped(molDf) && (molDf2.Some? ==> Shaped(molDf2.value))
    ensures var t := TrySpec(molDf, molDf2, error, warning, corrcoef);
      (Truthy(error) ==> t == TryState(molDf, molDf2, error, warning, None)) &&
      (!Truthy(error) && molDf2.None? ==> t == TryState(molDf, molDf2, Some(NoMolDf2), warning, None)) &&
      (t.molDf.rows == molDf.rows) &&
      (t.molDf2.Some? <==> molDf2.Some?) &&
      (t.molDf2.Some? ==> t.molDf2.value.rows == molDf2.value.rows)
  {
    if !Truthy(error) && molDf2.Some? {
      var genes := Intersect1d(molDf.cols, molDf2.value.cols);
      if |genes| > 0 {
        var m1 := SelectColumns(molDf, genes).value;
        var m2 := SelectColumns(molDf2.value, genes).value;
        var t := TrySpec(molDf, molDf2, error, warning, corrcoef);
        assert t.molDf == m1 && t.molDf2 == Some(m2);
      }
    }
  }

  /** Without an error set, an empty overlap of the genes becomes the reason;
      otherwise both frames are cut down to the shared genes, in the same
      sorted order. */
  lemma TrySpecGenes(molDf: Frame, molDf2: Frame, error: Option<string>, warning: seq<string>,
                     corrcoef: (Frame, Frame) -> Computation<Mat>)
    requires Shaped(molDf) && Shaped(molDf2) && !Truthy(error)
    ensures var t := TrySpec(molDf, Some(molDf2), error, warning, corrcoef);
      var genes := Intersect1d(molDf.cols, molDf2.cols);
      (|genes| == 0 <==> forall x :: x in molDf.cols ==> x !in molDf2.cols) &&
      (|genes| == 0 ==> t.error == Some(NoOverlap) && t.d.None?) &&
      (|genes| > 0 && Distinct(molDf.cols) && Distinct(molDf2.cols) ==>
        t.molDf.cols == genes && t.molDf2.value.cols == genes)
  {
    var genes := Intersect1d(molDf.cols, molDf2.cols);
    if |genes| == 0 {
      forall x | x in molDf.cols ensures x !in molDf2.cols {
        assert x in molDf2.cols ==> x in genes;
      }
    } else {
      assert genes[0] in molDf.cols && genes[0] in molDf2.cols;
      if Distinct(molDf.cols) && Distinct(molDf2.cols) {
        SelectColumnsSpec(molDf, genes);
        SelectColumnsSpec(molDf2, genes);
        var t := TrySpec(molDf, Some(molDf2), error, warning, corrcoef);
        assert t.molDf == SelectColumns(molDf, genes).value;
        assert t.molDf2 == Some(SelectColumns(molDf2, genes).value);
      }
    }
  }

  lemma BaseFields()
    ensures "reason" !in Base() && "warning" !in Base() && Base()["dataType"] == JStr("Distance")
  {
  }

  /** A response carries a reason iff the error ends up set, and a
      "warning" entry iff it does not and some warning was collected; an
      exception escapes only when no error is recorded.  A response with a
      reason is the base entries plus that reason and nothing else; a bound
      `D` that is all NaN, with no error set, sets the NaN error. */
  lemma FinishOutcomes(t: TryState)
    requires t.d.Some? ==> t.molDf2.Some?
    ensures var r := Finish(t);
      (r.result.Raised? ==> !Truthy(r.error)) &&
      (r.result.Returned? ==> ("reason" in r.result.value <==> Truthy(r.error))) &&
      (r.result.Returned? ==> ("warning" in r.result.value <==> !Truthy(r.error) && |r.warning| > 0)) &&
      (r.result.Returned? ==> r.result.value["dataType"] == JStr("Distance")) &&
      (r.result.Returned? && Truthy(r.error) ==> r.result.value == Base()["reason" := JStr(r.error.value)]) &&
      (!Truthy(t.error) && t.d.Some? && AllNaN(t.d.value) ==>
         r == RunState(Some(NaND), t.warning, Returned(Base()["reason" := JStr(NaND)]))) &&
      (Truthy(t.error) ==> r == RunState(t.error, t.warning, Returned(Base()["reason" := JStr(t.error.value)]))) &&
      r.warning == t.warning
  {
    BaseFields();
    if Truthy(t.error) || t.d.Some? {
      var e := if !Truthy(t.error) && AllNaN(t.d.value) then Some(NaND) else t.error;
      if !Truthy(e) {
        var out := DisplaySpec(ToList(t.d.value), t.molDf2.value, Ids(t.molDf.rows), true);
        if out.Success? {
          var obj := Base() + map["D" := JList(out.value)] + WarningField(t.warning);
          assert Finish(t).result == Returned(obj);
          WithWarningField(Base(), map["D" := JList(out.value)], t.warning, "dataType");
        }
      } else {
        var obj := Base()["reason" := JStr(e.value)];
        assert obj["dataType"] == Base()["dataType"];
      }
    }
  }

  /** The whole run: a set error, a missing second frame, genes the frames
      do not share, or an exception raised by the correlation is reported
      as the only addition to the base entries, and so is the NaN error a
      `D` that is all NaN sets; the response obeys `FinishOutcomes`. */
  lemma RunSpecOutcomes(molDf: Frame, molDf2: Option<Frame>, error: Option<string>, warning: seq<string>,
                        corrcoef: (Frame, Frame) -> Computation<Mat>)
    requires Shaped(molDf) && (molDf2.Some? ==> Shaped(molDf2.value))
    ensures var r := RunSpec(molDf, molDf2, error, warning, corrcoef);
      (Truthy(error) ==> r == RunState(error, warning, Returned(Base()["reason" := JStr(error.value)]))) &&
      (!Truthy(error) && molDf2.None? ==>
        r == RunState(Some(NoMolDf2), warning, Returned(Base()["reason" := JStr(NoMolDf2)]))) &&
      (r.result.Raised? ==> !Truthy(r.error)) &&
      (r.result.Returned? ==> ("reason" in r.result.value <==> Truthy(r.error))) &&
      (r.result.Returned? ==> ("warning" in r.result.value <==> !Truthy(r.error) && |r.warning| > 0)) &&
      (r.result.Returned? ==> r.result.value["dataType"] == JStr("Distance")) &&
      (r.result.Returned? && Truthy(r.error) ==> r.result.value == Base()["reason" := JStr(r.error.value)])
    ensures !Truthy(error) && molDf2.Some? && (forall x :: x in molDf.cols ==> x !in molDf2.value.cols) ==>
      RunSpec(molDf, molDf2, error, warning, corrcoef) ==
        RunState(Some(NoOverlap), warning, Returned(Base()["reason" := JStr(NoOverlap)]))
    ensures var t := TrySpec(molDf, molDf2, error, warning, corrcoef);
      !Truthy(error) && molDf2.Some? && (exists x :: x in molDf.cols && x in molDf2.value.cols) ==>
        var c := corrcoef(t.molDf, t.molDf2.value);
        (c.outcome.Raised? && c.outcome.msg != "" ==>
          RunSpec(molDf, molDf2, error, warning, corrcoef) ==
            RunState(Some(c.outcome.msg), warning + c.warnings, Returned(Base()["reason" := JStr(c.outcome.msg)]))) &&
        (t.d.Some? && AllNaN(t.d.value) ==>
          RunSpec(molDf, molDf2, error, warning, corrcoef) ==
            RunState(Some(NaND), warning + c.warnings, Returned(Base()["reason" := JStr(NaND)])))
  {
    var t := TrySpec(molDf, molDf2, error, warning, corrcoef);
    assert RunSpec(molDf, molDf2, error, warning, corrcoef) == Finish(t);
    TrySpecSkips(molDf, molDf2, error, warning, corrcoef);
    FinishOutcomes(t);
    if !Truthy(error) && molDf2.Some? {
      TrySpecGenes(molDf, molDf2.value, error, warning, corrcoef);
      if exists x :: x in molDf.cols && x in molDf2.value.cols {
        TryShared(molDf, molDf2.value, error, warning, corrcoef);
      }
    }
  }

  /** With a gene in common and no error set, the correlation runs on the
      frames cut down to the shared genes, its exception's text becomes the
      error, and its warnings are collected. */
  lemma TryShared(molDf: Frame, molDf2: Frame, error: Option<string>, warning: seq<string>,
                  corrcoef: (Frame, Frame) -> Computation<Mat>)
    requires Shaped(molDf) && Shaped(molDf2) && !Truthy(error)
    requires exists x :: x in molDf.cols && x in molDf2.cols
    ensures var t := TrySpec(molDf, Some(molDf2), error, warning, corrcoef);
      var c := corrcoef(t.molDf, t.molDf2.value);
      t.molDf2.Some? && t.warning == warning + c.warnings &&
      (c.outcome.Raised? ==> t.error == Some(c.outcome.msg) && t.d.None?) &&
      (c.outcome.Returned? ==> t.error == error && t.d.Some?)
  {
    var x :| x in molDf.cols && x in molDf2.cols;
    var genes := Intersect1d(molDf.cols, molDf2.cols);
    assert x in genes;
    var t := TrySpec(molDf, Some(molDf2), error, warning, corrcoef);
    assert t.molDf == SelectColumns(molDf, genes).value && t.molDf2 == Some(SelectColumns(molDf2, genes).value);
  }

  /** When the correlation returns the full square matrix of both frames'
      samples, `D` is its bottom-left block: one row per sample of the
      second frame, one column per sample of the first. */
  lemma BlockShape(full: Mat, n1: nat, n2: nat)
    requires full.height == n1 + n2 && full.width == n1 + n2 && n2 > 0
    ensures var b := Slice(full, BlockStart(full.height, n2), n1);
      b.height == n2 && b.width == n1 &&
      forall i, j :: 0 <= i < n2 && 0 <= j < n1 ==> b.cells[i][j] == full.cells[n1 + i][j]
  {
  }

  /** A bound `D` with one row per sample of the second frame, not all
      NaN and with no error set, is listed row by row under the second
      frame's samples, each entry carrying the first frame's samples. */
  lemma FinishSuccess(t: TryState)
    requires t.d.Some? && t.molDf2.Some? && !Truthy(t.error) && !AllNaN(t.d.value)
    requires t.d.value.height == |t.molDf2.value.rows|
    ensures var r := Finish(t);
      r.error == t.error && r.warning == t.warning && r.result.Returned? && "reason" !in r.result.value &&
      r.result.value["D"].JList? && |r.result.value["D"].items| == |t.molDf2.value.rows| &&
      forall i :: 0 <= i < |t.molDf2.value.rows| ==>
        r.result.value["D"].items[i] == Entry(t.molDf2.value.rows[i], ToList(t.d.value)[i], Strings(t.molDf.rows))
  {
    DisplaySpecProperties(ToList(t.d.value), t.molDf2.value, Ids(t.molDf.rows), true);
    var out := DisplaySpec(ToList(t.d.value), t.molDf2.value, Ids(t.molDf.rows), true).value;
    var obj := Base() + map["D" := JList(out)] + WarningField(t.warning);
    assert Finish(t) == RunState(t.error, t.warning, Returned(obj));
    assert obj["D"] == JList(out);
  }

  /** With no error set, a shared gene and a correlation returning the full
      square matrix over both frames' samples, `D` is that matrix's
      bottom-left block: row `i` holds the correlations of the second
      frame's `i`-th sample with each sample of the first. */
  lemma TrySpecBlock(molDf: Frame, molDf2: Frame, error: Option<string>, warning: seq<string>,
                     corrcoef: (Frame, Frame) -> Computation<Mat>)
    requires Shaped(molDf) && Shaped(molDf2) && !Truthy(error) && |molDf2.rows| > 0
    requires exists x :: x in molDf.cols && x in molDf2.cols
    ensures var t := TrySpec(molDf, Some(molDf2), error, warning, corrcoef);
      var c := corrcoef(t.molDf, t.molDf2.value);
      t.molDf2.Some? &&
      (c.outcome.Returned? && c.outcome.value.height == |molDf.rows| + |molDf2.rows| &&
       c.outcome.value.width == |molDf.rows| + |molDf2.rows| ==>
        t.error == error && t.warning == warning + c.warnings && t.d.Some? &&
        t.d.value.height == |molDf2.rows| && t.d.value.width == |molDf.rows| &&
        forall i, j :: 0 <= i < |molDf2.rows| && 0 <= j < |molDf.rows| ==>
          t.d.value.cells[i][j] == c.outcome.value.cells[|molDf.rows| + i][j])
  {
    var x :| x in molDf.cols && x in molDf2.cols;
    var genes := Intersect1d(molDf.cols, molDf2.cols);
    assert x in genes;
    var m1 := SelectColumns(molDf, genes).value;
    var m2 := SelectColumns(molDf2, genes).value;
    var c := corrcoef(m1, m2);
    var t := TrySpec(molDf, Some(molDf2), error, warning, corrcoef);
    assert t.molDf == m1 && t.molDf2 == Some(m2);
    if c.outcome.Returned? && c.outcome.value.height == |molDf.rows| + |molDf2.rows| &&
       c.outcome.value.width == |molDf.rows| + |molDf2.rows| {
      var full := c.outcome.value;
      assert t == TryState(m1, Some(m2), error, warning + c.warnings,
                           Some(Slice(full, BlockStart(full.height, |m2.rows|), |m1.rows|)));
      BlockShape(full, |molDf.rows|, |molDf2.rows|);
    }
  }

  /** The `try` block of `run_algorithm`, changing the frames in place. */
  method Try(w: Wrapper, filters: WarningFilters, corrcoef: (Frame, Frame) -> Computation<Mat>) returns (d: Option<Mat>)
    requires Shaped(w.molDf) && (w.molDf2.Some? ==> Shaped(w.molDf2.value))
    requires filters.showWarning == Collect(w)
    modifies w
    ensures var t := TrySpec(old(w.molDf), old(w.molDf2), old(w.error), old(w.warning), corrcoef);
      w.molDf == t.molDf && w.molDf2 == t.molDf2 && w.error == t.error && w.warning == t.warning && d == t.d
    ensures w.params == old(w.params) && w.clinDf == old(w.clinDf)
  {
    d := None;
    if Truthy(w.error) {
      return;
    }
    if w.molDf2.None? {
      w.error := Some(NoMolDf2);
      return;
    }
    var sameGenes := Intersect1d(w.molDf.cols, w.molDf2.value.cols);
    if |sameGenes| == 0 {
      w.error := Some(NoOverlap);
      return;
    }
    w.molDf := SelectColumns(w.molDf, sameGenes).value;
    w.molDf2 := Some(SelectColumns(w.molDf2.value, sameGenes).value);
    var c := corrcoef(w.molDf, w.molDf2.value);
    filters.EmitAll(c.warnings);
    match c.outcome
    case Raised(msg) =>
      w.error := Some(msg);
    case Returned(full) =>
      d := Some(Slice(full, BlockStart(full.height, |w.molDf2.value.rows|), |w.molDf.rows|));
  }

  /** Lines 68-87: the NaN check and the response, recording a NaN result
      as the wrapper's error. */
  method Respond(w: Wrapper, d: Option<Mat>) returns (r: Outcome<map<string, Json>>)
    requires d.Some? ==> w.molDf2.Some?
    modifies w
    ensures RunState(w.error, w.warning, r) == Finish(TryState(old(w.molDf), old(w.molDf2), old(w.error), old(w.warning), d))
    ensures w.molDf == old(w.molDf) && w.molDf2 == old(w.molDf2) && w.warning == old(w.warning)
    ensures w.params == old(w.params) && w.clinDf == old(w.clinDf)
  {
    if !Truthy(w.error) {
      if d.None? {
        return Raised(UnboundD);
      }
      if AllNaN(d.value) {
        w.error := Some(NaND);
      }
    }
    var retObj := Base();
    if Truthy(w.error) {
      retObj := retObj["reason" := JStr(w.error.value)];
    } else {
      var out := DisplayResult(ToList(d.value), w.molDf2.value, Ids(w.molDf.rows), true);
      if out.Failure? {
        return Raised(out.error);
      }
      retObj := retObj + map["D" := JList(out.value)];
      if |w.warning| > 0 {
        assert retObj["warning" := Strings(w.warning)] == retObj + WarningField(w.warning);
        retObj := retObj["warning" := Strings(w.warning)];
      } else {
        assert retObj == retObj + WarningField(w.warning);
      }
    }
    r := Returned(retObj);
  }

  /** `run_algorithm`. */
  method RunAlgorithm(w: Wrapper, filters: WarningFilters, corrcoef: (Frame, Frame) -> Computation<Mat>)
    returns (r: Outcome<map<string, Json>>)
    requires Shaped(w.molDf) && (w.molDf2.Some? ==> Shaped(w.molDf2.value))
    modifies w, filters
    ensures filters.showWarning == old(filters.showWarning)
    ensures var t := TrySpec(old(w.molDf), old(w.molDf2), old(w.error), old(w.warning), corrcoef);
      w.molDf == t.molDf && w.molDf2 == t.molDf2
    ensures RunState(w.error, w.warning, r) == RunSpec(old(w.molDf), old(w.molDf2), old(w.error), old(w.warning), corrcoef)
    ensures w.params == old(w.params) && w.clinDf == old(w.clinDf)
  {
    var oldShowWarning := filters.showWarning;
    filters.showWarning := Collect(w);
    var d := Try(w, filters, corrcoef);
    filters.showWarning := oldShowWarning;
    r := Respond(w, d);
  }
}

/** `PCAWrapper`: principal component analysis of the molecular frame. */
module Pca {
  import opened Wrappers
  import opened Order
  import opened Json
  import opened Frames
  import opened Numerics
  import opened Shaping
  import opened AlgorithmWrapper

  /** `get_input_parameters`: the keys a request must carry, in `sorted` order. */
  function InputParameters(): (r: seq<string>)
    ensures Sorted(r) && Distinct(r)
    ensures SetOf(r) == {"disease", "genes", "samples", "molecular_collection", "n_components"}
  {
    var r := ["disease", "genes", "molecular_collection", "n_components", "samples"];
    assert SetOf(r) == {"disease", "genes", "samples", "molecular_collection", "n_components"};
    assert Distinct(r);
    assert Le(r[0], r[1]) && Le(r[1], r[2]) && Le(r[2], r[3]) && Le(r[3], r[4]);
    SortedFromNeighbours(r);
    r
  }

  /** `sorted` has only one possible result on these keys. */
  lemma InputParametersUnique(xs: seq<string>)
    requires Sorted(xs) && Distinct(xs)
    requires SetOf(xs) == {"disease", "genes", "samples", "molecular_collection", "n_components"}
    ensures xs == InputParameters()
  {
    SortedUnique(xs, InputParameters());
  }

  /** What `fit_transform` leaves: the scores, `components_` and
      `explained_variance_ratio_`. */
  datatype PcaFit = PcaFit(scores: Mat, components: Mat, varianceRatio: seq<Scalar>)

  const UnboundScores := "UnboundLocalError: local variable 'scores' referenced before assignment"
  const NaNScores := "results are NaN; too few rows in input?"

  /** Lines 45-53, with `disease` taken from the request. */
  function Base(disease: Option<string>): map<string, Json>
  {
    map["disease" := DiseaseValue(disease), "dataType" := JStr("PCA"), "score" := JStr("sample"),
        "loading" := JStr("hugo"), "default" := JBool(false), "scores" := JNull,
        "loadings" := JNull, "metadata" := JNull]
  }

  /** Lines 42-63 after the fit: the NaN check, then the reason, or the
      scores labelled by sample and the loadings labelled by gene. */
  function Finish(disease: Option<string>, molDf: Frame, error: Option<string>, warning: seq<string>,
                  fitted: Option<PcaFit>): RunState
  {
    if !Truthy(error) && fitted.None? then RunState(error, warning, Raised(UnboundScores))
    else
      var e := if !Truthy(error) && AllNaN(fitted.value.scores) then Some(NaNScores) else error;
      if Truthy(e) then RunState(e, warning, Returned(Base(disease)["reason" := JStr(e.value)]))
      else
        var v := fitted.value;
        match DisplaySpec(ToList(v.scores), molDf, Default, true)
        case Failure(x) => RunState(e, warning, Raised(x))
        case Success(scores) =>
          match DisplaySpec(ToList(Transpose(v.components)), molDf, Default, false)
          case Failure(x) => RunState(e, warning, Raised(x))
          case Success(loadings) =>
            var ret2 := map["scores" := JList(scores), "loadings" := JList(loadings),
                            "metadata" := JObj(map["variance" := Vector(v.varianceRatio)])];
            RunState(e, warning, Returned(Base(disease) + ret2 + WarningField(warning)))
  }

  /** `run_algorithm` on the wrapper's state and the outcome of `fit_transform`. */
  function RunSpec(disease: Option<string>, molDf: Frame, error: Option<string>, warning: seq<string>,
                   c: Computation<PcaFit>): RunState
  {
    var f := FitPhase(error, warning, c);
    Finish(disease, molDf, f.error, f.warning, f.value)
  }

  /** A set error skips the fit and is reported as the reason; otherwise
      the warnings are those collected during the fit. */
  lemma RunSpecSkips(disease: Option<string>, molDf: Frame, error: Option<string>, warning: seq<string>,
                     c: Computation<PcaFit>)
    ensures var r := RunSpec(disease, molDf, error, warning, c);
      (Truthy(error) ==> r == RunState(error, warning, Returned(Base(disease)["reason" := JStr(error.value)]))) &&
      (r.warning == if Truthy(error) then warning else warning + c.warnings)
  {
    FitPhaseSpec(error, warning, c);
  }

  /** A response carries a reason iff the error ends up set, and a
      "warning" entry iff it does not and some warning was collected; an
      exception escapes only when no error is recorded.  A response with a
      reason is the base entries plus that reason and nothing else: so it is
      for an exception raised by the fit, whose text becomes the error, and
      for scores that are all NaN, which set the NaN error. */
  lemma RunSpecOutcomes(disease: Option<string>, molDf: Frame, error: Option<string>, warning: seq<string>,
                        c: Computation<PcaFit>)
    ensures var r := RunSpec(disease, molDf, error, warning, c);
      (r.result.Raised? ==> !Truthy(r.error)) &&
      (r.result.Returned? ==> ("reason" in r.result.value <==> Truthy(r.error))) &&
      (r.result.Returned? ==> ("warning" in r.result.value <==> !Truthy(r.error) && |r.warning| > 0)) &&
      (r.result.Returned? ==> r.result.value["dataType"] == JStr("PCA") && r.result.value["disease"] == DiseaseValue(disease)) &&
      (r.result.Returned? && Truthy(r.error) ==> r.result.value == Base(disease)["reason" := JStr(r.error.value)]) &&
      (!Truthy(error) && c.outcome.Raised? && c.outcome.msg != "" ==>
         r == RunState(Some(c.outcome.msg), warning + c.warnings, Returned(Base(disease)["reason" := JStr(c.outcome.msg)]))) &&
      (!Truthy(error) && c.outcome.Returned? && AllNaN(c.outcome.value.scores) ==>
         r == RunState(Some(NaNScores), warning + c.warnings, Returned(Base(disease)["reason" := JStr(NaNScores)])))
  {
    var f := FitPhase(error, warning, c);
    FitPhaseSpec(error, warning, c);
    assert RunSpec(disease, molDf, error, warning, c) == Finish(disease, molDf, f.error, f.warning, f.value);
    FinishOutcomes(disease, molDf, f.error, f.warning, f.value);
  }

  lemma BaseFields(disease: Option<string>)
    ensures "reason" !in Base(disease) && "warning" !in Base(disease)
    ensures Base(disease)["dataType"] == JStr("PCA") && Base(disease)["disease"] == DiseaseValue(disease)
  {
  }

  /** After the fit: the warnings are kept; the error is the one set, or,
      when none is and the scores are all NaN, the NaN error, reported as
      the only addition to the base entries. */
  lemma FinishOutcomes(disease: Option<string>, molDf: Frame, error: Option<string>, warning: seq<string>,
                       fitted: Option<PcaFit>)
    ensures var r := Finish(disease, molDf, error, warning, fitted);
      (r.result.Raised? ==> !Truthy(r.error)) &&
      (r.result.Returned? ==> ("reason" in r.result.value <==> Truthy(r.error))) &&
      (r.result.Returned? ==> ("warning" in r.result.value <==> !Truthy(r.error) && |r.warning| > 0)) &&
      (r.result.Returned? ==> r.result.value["dataType"] == JStr("PCA") && r.result.value["disease"] == DiseaseValue(disease)) &&
      (r.result.Returned? && Truthy(r.error) ==> r.result.value == Base(disease)["reason" := JStr(r.error.value)]) &&
      (!Truthy(error) && fitted.Some? && AllNaN(fitted.value.scores) ==>
         r == RunState(Some(NaNScores), warning, Returned(Base(disease)["reason" := JStr(NaNScores)]))) &&
      (Truthy(error) ==> r == RunState(error, warning, Returned(Base(disease)["reason" := JStr(error.value)]))) &&
      r.warning == warning
  {
    BaseFields(disease);
    var base := Base(disease);
    if Truthy(error) || fitted.Some? {
      var e := if !Truthy(error) && AllNaN(fitted.value.scores) then Some(NaNScores) else error;
      if !Truthy(e) {
        var v := fitted.value;
        var scores := DisplaySpec(ToList(v.scores), molDf, Default, true);
        var loadings := DisplaySpec(ToList(Transpose(v.components)), molDf, Default, false);
        if scores.Success? && loadings.Success? {
          var ret2 := map["scores" := JList(scores.value), "loadings" := JList(loadings.value),
                          "metadata" := JObj(map["variance" := Vector(v.varianceRatio)])];
          var obj := base + ret2 + WarningField(warning);
          assert Finish(disease, molDf, error, warning, fitted).result == Returned(obj);
          assert ret2.Keys == {"scores", "loadings", "metadata"};
          WithWarningField(base, ret2, warning, "dataType");
          WithWarningField(base, ret2, warning, "disease");
        }
      } else {
        var obj := base["reason" := JStr(e.value)];
        assert obj["dataType"] == base["dataType"] && obj["disease"] == base["disease"];
      }
    }
  }

  /** The fit raising with an empty message leaves `scores` unbound. */
  lemma RunSpecUnbound(disease: Option<string>, molDf: Frame, error: Option<string>, warning: seq<string>,
                       ws: seq<string>)
    requires !Truthy(error)
    ensures RunSpec(disease, molDf, error, warning, Computation(ws, Raised(""))).result == Raised(UnboundScores)
  {
  }

  /** With no error set and scores not all NaN, one row per sample and
      one loading row per gene, the response lists the scores under the
      sample labels and the loadings under the gene labels, in order. */
  lemma {:induction false} RunSpecSuccess(disease: Option<string>, molDf: Frame, error: Option<string>,
                                         warning: seq<string>, ws: seq<string>, v: PcaFit)
    requires !Truthy(error) && !AllNaN(v.scores)
    requires v.scores.height == |molDf.rows| && v.components.width == |molDf.cols|
    ensures var r := RunSpec(disease, molDf, error, warning, Computation(ws, Returned(v)));
      r.error == error && r.result.Returned? && "reason" !in r.result.value &&
      r.result.value["scores"].JList? && r.result.value["loadings"].JList? &&
      (forall i :: 0 <= i < |molDf.rows| ==>
        r.result.value["scores"].items[i] == Entry(molDf.rows[i], ToList(v.scores)[i], JList([]))) &&
      (forall j :: 0 <= j < |molDf.cols| ==>
        r.result.value["loadings"].items[j] == Entry(molDf.cols[j], ToList(Transpose(v.components))[j], JList([])))
  {
    DisplaySpecProperties(ToList(v.scores), molDf, Default, true);
    DisplaySpecProperties(ToList(Transpose(v.components)), molDf, Default, false);
    var scores := DisplaySpec(ToList(v.scores), molDf, Default, true).value;
    var loadings := DisplaySpec(ToList(Transpose(v.components)), molDf, Default, false).value;
    var obj := Base(disease) + map["scores" := JList(scores), "loadings" := JList(loadings),
                                   "metadata" := JObj(map["variance" := Vector(v.varianceRatio)])] + WarningField(warning + ws);
    assert obj["scores"] == JList(scores);
    assert obj["loadings"] == JList(loadings);
  }

  /** Lines 58-59 as written pass `False` as `m`, so the loadings call
      raises whatever the fit returned. */
  lemma LoadingsAsWrittenRaise(molDf: Frame, v: PcaFit)
    ensures DisplaySpec(ToList(Transpose(v.components)), molDf, Flag(false), true).Failure?
  {
    DisplayFlagRaises(ToList(Transpose(v.components)), molDf, false);
  }

  /** `run_algorithm`. */
  method RunAlgorithm(w: Wrapper, filters: WarningFilters, c: Computation<PcaFit>) returns (r: Outcome<map<string, Json>>)
    modifies w, filters
    ensures filters.showWarning == old(filters.showWarning)
    ensures RunState(w.error, w.warning, r) == RunSpec(old(w.params).disease, old(w.molDf), old(w.error), old(w.warning), c)
    ensures w.params == old(w.params) && w.molDf == old(w.molDf) && w.molDf2 == old(w.molDf2) && w.clinDf == old(w.clinDf)
  {
    var fitted := Fit(w, filters, c);
    if !Truthy(w.error) {
      if fitted.None? {
        return Raised(UnboundScores);
      }
      if AllNaN(fitted.value.scores) {
        w.error := Some(NaNScores);
      }
    }
    var retObj := Base(w.params.disease);
    if Truthy(w.error) {
      retObj := retObj["reason" := JStr(w.error.value)];
    } else {
      var scores := DisplayResult(ToList(fitted.value.scores), w.molDf, Default, true);
      if scores.Failure? {
        return Raised(scores.error);
      }
      var loadings := DisplayResult(ToList(Transpose(fitted.value.components)), w.molDf, Default, false);
      if loadings.Failure? {
        return Raised(loadings.error);
      }
      var ret2 := map["scores" := JList(scores.value), "loadings" := JList(loadings.value),
                      "metadata" := JObj(map["variance" := Vector(fitted.value.varianceRatio)])];
      retObj := retObj + ret2;
      if |w.warning| > 0 {
        assert retObj["warning" := Strings(w.warning)] == retObj + WarningField(w.warning);
        retObj := retObj["warning" := Strings(w.warning)];
      } else {
        assert retObj == retObj + WarningField(w.warning);
      }
    }
    r := Returned(retObj);
  }
}

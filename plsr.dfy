/** `PLSRWrapper`: partial least squares regression of the clinical frame
    on the molecular frame. */
module Plsr {
  import opened Wrappers
  import opened Order
  import opened Json
  import opened Frames
  import opened Numerics
  import opened Shaping
  import opened AlgorithmWrapper

  /** `get_input_parameters`: the keys a request must carry, in `sorted` order. */
  function InputParameters(): (r: seq<string>)
    ensures Sorted(r) && Distinct(r)
    ensures SetOf(r) == {"disease", "genes", "samples", "features", "molecular_collection",
                         "clinical_collection", "n_components"}
  {
    var r := ["clinical_collection", "disease", "features", "genes", "molecular_collection",
              "n_components", "samples"];
    assert SetOf(r) == {"disease", "genes", "samples", "features", "molecular_collection",
                        "clinical_collection", "n_components"};
    assert Distinct(r);
    assert Le(r[0], r[1]) && Le(r[1], r[2]) && Le(r[2], r[3]);
    assert Le(r[3], r[4]) && Le(r[4], r[5]) && Le(r[5], r[6]);
    SortedFromNeighbours(r);
    r
  }

  /** `sorted` has only one possible result on these keys. */
  lemma InputParametersUnique(xs: seq<string>)
    requires Sorted(xs) && Distinct(xs)
    requires SetOf(xs) == {"disease", "genes", "samples", "features", "molecular_collection",
                           "clinical_collection", "n_components"}
    ensures xs == InputParameters()
  {
    SortedUnique(xs, InputParameters());
  }

  /** What `fit` leaves in the model. */
  datatype PlsrFit = PlsrFit(xScores: Mat, yScores: Mat, xLoadings: Mat, yLoadings: Mat, coef: Mat)

  const NoClinDf := "'PLSRWrapper' object has no attribute 'clin_df'"
  const Unfitted := "AttributeError: 'PLSRegression' object has no attribute 'x_scores_'"
  const NaNScores := "results are NaN; too few rows in input?"

  /** `pls2.fit(self.mol_df, self.clin_df)`: looking up `clin_df` raises
      when no clinical collection was named. */
  function FitCall(clinDf: Option<Frame>, c: Computation<PlsrFit>): Computation<PlsrFit>
  {
    if clinDf.None? then Computation([], Raised(NoClinDf)) else c
  }

  /** Lines 44-55, with `disease` taken from the request. */
  function Base(disease: Option<string>): map<string, Json>
  {
    map["disease" := DiseaseValue(disease), "dataType" := JStr("PLSR"), "score" := JStr("sample"),
        "x_loading" := JStr("hugo"), "y_loading" := JStr("feature"), "default" := JBool(false),
        "x_scores" := JNull, "y_scores" := JNull, "x.loadings" := JNull, "y.loadings" := JNull,
        "metadata" := JNull]
  }

  /** One `display_result` call, on a frame attribute that may be missing. */
  function Labelled(inputdata: seq<Json>, f: Option<Frame>, rowWise: bool): (r: Result<Json>)
    ensures f.None? ==> r == Failure(NoClinDf)
    ensures f.Some? ==> (r.Success? <==> DisplaySpec(inputdata, f.value, Default, rowWise).Success?)
    ensures r.Success? ==> r.value == JList(DisplaySpec(inputdata, f.value, Default, rowWise).value)
  {
    if f.None? then Failure(NoClinDf)
    else
      match DisplaySpec(inputdata, f.value, Default, rowWise)
      case Failure(e) => Failure(e)
      case Success(out) => Success(JList(out))
  }

  /** Lines 59-65: scores labelled by sample, loadings and coefficients by
      gene (molecular columns) or feature (clinical columns). */
  function Payload(molDf: Frame, clinDf: Option<Frame>, v: PlsrFit): (r: Result<map<string, Json>>)
    ensures r.Success? ==> r.value.Keys == {"x_scores", "y_scores", "x.loadings", "y.loadings", "metadata"}
  {
    var xs := Labelled(ToList(v.xScores), Some(molDf), true);
    var ys := Labelled(ToList(v.yScores), clinDf, true);
    var xl := Labelled(ToList(v.xLoadings), Some(molDf), false);
    var yl := Labelled(ToList(v.yLoadings), clinDf, false);
    var md := Labelled(ToList(v.coef), Some(molDf), false);
    if xs.Failure? then Failure(xs.error)
    else if ys.Failure? then Failure(ys.error)
    else if xl.Failure? then Failure(xl.error)
    else if yl.Failure? then Failure(yl.error)
    else if md.Failure? then Failure(md.error)
    else Success(map["x_scores" := xs.value, "y_scores" := ys.value, "x.loadings" := xl.value,
                     "y.loadings" := yl.value, "metadata" := md.value])
  }

  /** Lines 41-68 after the fit. */
  function Finish(disease: Option<string>, molDf: Frame, clinDf: Option<Frame>, error: Option<string>,
                  warning: seq<string>, fitted: Option<PlsrFit>): RunState
  {
    if !Truthy(error) && fitted.None? then RunState(error, warning, Raised(Unfitted))
    else
      var e := if !Truthy(error) && AllNaN(fitted.value.xScores) then Some(NaNScores) else error;
      if Truthy(e) then RunState(e, warning, Returned(Base(disease)["reason" := JStr(e.value)]))
      else
        match Payload(molDf, clinDf, fitted.value)
        case Failure(x) => RunState(e, warning, Raised(x))
        case Success(ret2) => RunState(e, warning, Returned(Base(disease) + ret2 + WarningField(warning)))
  }

  /** `run_algorithm` on the wrapper's state and the outcome of `fit`. */
  function RunSpec(disease: Option<string>, molDf: Frame, clinDf: Option<Frame>, error: Option<string>,
                   warning: seq<string>, c: Computation<PlsrFit>): RunState
  {
    var f := FitPhase(error, warning, FitCall(clinDf, c));
    Finish(disease, molDf, clinDf, f.error, f.warning, f.value)
  }

  /** A set error skips the fit and is the reason; without a clinical frame
      the fit's attribute lookup fails and becomes the reason; otherwise
      the warnings are those collected during the fit. */
  lemma RunSpecSkips(disease: Option<string>, molDf: Frame, clinDf: Option<Frame>, error: Option<string>,
                     warning: seq<string>, c: Computation<PlsrFit>)
    ensures var r := RunSpec(disease, molDf, clinDf, error, warning, c);
      (Truthy(error) ==> r == RunState(error, warning, Returned(Base(disease)["reason" := JStr(error.value)]))) &&
      (!Truthy(error) && clinDf.None? ==>
        r == RunState(Some(NoClinDf), warning, Returned(Base(disease)["reason" := JStr(NoClinDf)]))) &&
      (r.warning == if Truthy(error) || clinDf.None? then warning else warning + c.warnings)
  {
    FitPhaseSpec(error, warning, FitCall(clinDf, c));
    if !Truthy(error) && clinDf.None? {
      assert warning + [] == warning;
    }
  }

  /** A response carries a reason iff the error ends up set, and a
      "warning" entry iff it does not and some warning was collected; an
      exception escapes only when no error is recorded.  A response with a
      reason is the base entries plus that reason and nothing else: so it is
      for an exception raised by the fit, whose text becomes the error, and
      for x scores that are all NaN, which set the NaN error. */
  lemma RunSpecOutcomes(disease: Option<string>, molDf: Frame, clinDf: Option<Frame>, error: Option<string>,
                        warning: seq<string>, c: Computation<PlsrFit>)
    ensures var r := RunSpec(disease, molDf, clinDf, error, warning, c);
      (r.result.Raised? ==> !Truthy(r.error)) &&
      (r.result.Returned? ==> ("reason" in r.result.value <==> Truthy(r.error))) &&
      (r.result.Returned? ==> ("warning" in r.result.value <==> !Truthy(r.error) && |r.warning| > 0)) &&
      (r.result.Returned? ==> r.result.value["dataType"] == JStr("PLSR") && r.result.value["disease"] == DiseaseValue(disease)) &&
      (r.result.Returned? && Truthy(r.error) ==> r.result.value == Base(disease)["reason" := JStr(r.error.value)]) &&
      (!Truthy(error) && clinDf.Some? && c.outcome.Raised? && c.outcome.msg != "" ==>
         r == RunState(Some(c.outcome.msg), warning + c.warnings, Returned(Base(disease)["reason" := JStr(c.outcome.msg)]))) &&
      (!Truthy(error) && clinDf.Some? && c.outcome.Returned? && AllNaN(c.outcome.value.xScores) ==>
         r == RunState(Some(NaNScores), warning + c.warnings, Returned(Base(disease)["reason" := JStr(NaNScores)])))
  {
    var f := FitPhase(error, warning, FitCall(clinDf, c));
    FitPhaseSpec(error, warning, FitCall(clinDf, c));
    assert RunSpec(disease, molDf, clinDf, error, warning, c) == Finish(disease, molDf, clinDf, f.error, f.warning, f.value);
    FinishOutcomes(disease, molDf, clinDf, f.error, f.warning, f.value);
  }

  lemma BaseFields(disease: Option<string>)
    ensures "reason" !in Base(disease) && "warning" !in Base(disease)
    ensures Base(disease)["dataType"] == JStr("PLSR") && Base(disease)["disease"] == DiseaseValue(disease)
  {
  }

  /** After the fit: the warnings are kept; the error is the one set, or,
      when none is and the x scores are all NaN, the NaN error, reported as
      the only addition to the base entries. */
  lemma FinishOutcomes(disease: Option<string>, molDf: Frame, clinDf: Option<Frame>, error: Option<string>,
                       warning: seq<string>, fitted: Option<PlsrFit>)
    ensures var r := Finish(disease, molDf, clinDf, error, warning, fitted);
      (r.result.Raised? ==> !Truthy(r.error)) &&
      (r.result.Returned? ==> ("reason" in r.result.value <==> Truthy(r.error))) &&
      (r.result.Returned? ==> ("warning" in r.result.value <==> !Truthy(r.error) && |r.warning| > 0)) &&
      (r.result.Returned? ==> r.result.value["dataType"] == JStr("PLSR") && r.result.value["disease"] == DiseaseValue(disease)) &&
      (r.result.Returned? && Truthy(r.error) ==> r.result.value == Base(disease)["reason" := JStr(r.error.value)]) &&
      (!Truthy(error) && fitted.Some? && AllNaN(fitted.value.xScores) ==>
         r == RunState(Some(NaNScores), warning, Returned(Base(disease)["reason" := JStr(NaNScores)]))) &&
      (Truthy(error) ==> r == RunState(error, warning, Returned(Base(disease)["reason" := JStr(error.value)]))) &&
      r.warning == warning
  {
    BaseFields(disease);
    var base := Base(disease);
    if Truthy(error) || fitted.Some? {
      var e := if !Truthy(error) && AllNaN(fitted.value.xScores) then Some(NaNScores) else error;
      if !Truthy(e) {
        var p := Payload(molDf, clinDf, fitted.value);
        if p.Success? {
          var obj := base + p.value + WarningField(warning);
          assert Finish(disease, molDf, clinDf, error, warning, fitted).result == Returned(obj);
          assert p.value.Keys == {"x_scores", "y_scores", "x.loadings", "y.loadings", "metadata"};
          WithWarningField(base, p.value, warning, "dataType");
          WithWarningField(base, p.value, warning, "disease");
        }
      } else {
        var obj := base["reason" := JStr(e.value)];
        assert obj["dataType"] == base["dataType"] && obj["disease"] == base["disease"];
      }
    }
  }

  /** With results of the expected shapes every `display_result` call
      succeeds and labels row `i` of its input with the `i`-th label. */
  lemma PayloadSuccess(molDf: Frame, clinDf: Frame, v: PlsrFit)
    requires v.xScores.height == |molDf.rows| && v.yScores.height == |clinDf.rows|
    requires v.xLoadings.height == |molDf.cols| && v.yLoadings.height == |clinDf.cols| && v.coef.height == |molDf.cols|
    ensures var p := Payload(molDf, Some(clinDf), v);
      p.Success? && p.value.Keys == {"x_scores", "y_scores", "x.loadings", "y.loadings", "metadata"} &&
      p.value["x_scores"].JList? && p.value["x.loadings"].JList? && p.value["y.loadings"].JList? &&
      (forall i :: 0 <= i < |molDf.rows| ==>
        p.value["x_scores"].items[i] == Entry(molDf.rows[i], ToList(v.xScores)[i], JList([]))) &&
      (forall j :: 0 <= j < |molDf.cols| ==>
        p.value["x.loadings"].items[j] == Entry(molDf.cols[j], ToList(v.xLoadings)[j], JList([]))) &&
      (forall j :: 0 <= j < |clinDf.cols| ==>
        p.value["y.loadings"].items[j] == Entry(clinDf.cols[j], ToList(v.yLoadings)[j], JList([])))
  {
    DisplaySpecProperties(ToList(v.xScores), molDf, Default, true);
    DisplaySpecProperties(ToList(v.yScores), clinDf, Default, true);
    DisplaySpecProperties(ToList(v.xLoadings), molDf, Default, false);
    DisplaySpecProperties(ToList(v.yLoadings), clinDf, Default, false);
    DisplaySpecProperties(ToList(v.coef), molDf, Default, false);
  }

  /** With no error set, a clinical frame and results of the expected
      shapes, the response carries every result and no reason. */
  lemma RunSpecSuccess(disease: Option<string>, molDf: Frame, clinDf: Frame, error: Option<string>,
                       warning: seq<string>, ws: seq<string>, v: PlsrFit)
    requires !Truthy(error) && !AllNaN(v.xScores)
    requires v.xScores.height == |molDf.rows| && v.yScores.height == |clinDf.rows|
    requires v.xLoadings.height == |molDf.cols| && v.yLoadings.height == |clinDf.cols| && v.coef.height == |molDf.cols|
    ensures var r := RunSpec(disease, molDf, Some(clinDf), error, warning, Computation(ws, Returned(v)));
      r.error == error && r.warning == warning + ws && r.result.Returned? &&
      r.result.value == Base(disease) + Payload(molDf, Some(clinDf), v).value + WarningField(warning + ws) &&
      "reason" !in r.result.value
  {
    PayloadSuccess(molDf, clinDf, v);
    assert FitPhase(error, warning, FitCall(Some(clinDf), Computation(ws, Returned(v)))) == Fitted(error, warning + ws, Some(v));
    var obj := Base(disease) + Payload(molDf, Some(clinDf), v).value + WarningField(warning + ws);
    assert Finish(disease, molDf, Some(clinDf), error, warning + ws, Some(v)) == RunState(error, warning + ws, Returned(obj));
    assert "reason" !in Base(disease) && "reason" !in WarningField(warning + ws);
  }

  /** Lines 61-65 as written pass `False` as `m`, so the first loadings
      call raises whatever the fit returned. */
  lemma LoadingsAsWrittenRaise(molDf: Frame, v: PlsrFit)
    ensures DisplaySpec(ToList(v.xLoadings), molDf, Flag(false), true).Failure?
  {
    DisplayFlagRaises(ToList(v.xLoadings), molDf, false);
  }

  /** One `display_result` call of the run, on a frame attribute that may be missing. */
  method Label(inputdata: seq<Json>, f: Option<Frame>, rowWise: bool) returns (r: Result<Json>)
    ensures r == Labelled(inputdata, f, rowWise)
  {
    if f.None? {
      return Failure(NoClinDf);
    }
    var out := DisplayResult(inputdata, f.value, Default, rowWise);
    if out.Failure? {
      return Failure(out.error);
    }
    r := Success(JList(out.value));
  }

  /** `run_algorithm`. */
  method RunAlgorithm(w: Wrapper, filters: WarningFilters, c: Computation<PlsrFit>) returns (r: Outcome<map<string, Json>>)
    modifies w, filters
    ensures filters.showWarning == old(filters.showWarning)
    ensures RunState(w.error, w.warning, r) ==
      RunSpec(old(w.params).disease, old(w.molDf), old(w.clinDf), old(w.error), old(w.warning), c)
    ensures w.params == old(w.params) && w.molDf == old(w.molDf) && w.molDf2 == old(w.molDf2) && w.clinDf == old(w.clinDf)
  {
    var fitted := Fit(w, filters, FitCall(w.clinDf, c));
    if !Truthy(w.error) {
      if fitted.None? {
        return Raised(Unfitted);
      }
      if AllNaN(fitted.value.xScores) {
        w.error := Some(NaNScores);
      }
    }
    var retObj := Base(w.params.disease);
    if Truthy(w.error) {
      retObj := retObj["reason" := JStr(w.error.value)];
    } else {
      var v := fitted.value;
      var xs := Label(ToList(v.xScores), Some(w.molDf), true);
      if xs.Failure? {
        return Raised(xs.error);
      }
      var ys := Label(ToList(v.yScores), w.clinDf, true);
      if ys.Failure? {
        return Raised(ys.error);
      }
      var xl := Label(ToList(v.xLoadings), Some(w.molDf), false);
      if xl.Failure? {
        return Raised(xl.error);
      }
      var yl := Label(ToList(v.yLoadings), w.clinDf, false);
      if yl.Failure? {
        return Raised(yl.error);
      }
      var md := Label(ToList(v.coef), Some(w.molDf), false);
      if md.Failure? {
        return Raised(md.error);
      }
      var ret2 := map["x_scores" := xs.value, "y_scores" := ys.value, "x.loadings" := xl.value,
                      "y.loadings" := yl.value, "metadata" := md.value];
      retObj := retObj + ret2;
      if |w.warning| > 0 {
        assert retObj["warning" := Strings(w.warning)] == retObj + WarningField(w.warning);
        retObj := retObj["warning" := Strings(w.warning)];
      } else {
        assert retObj == retObj + WarningField(w.warning);
      }
    }
    r := Returned(retObj);
  }
}

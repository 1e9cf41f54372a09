/** The web front end: one POST endpoint per wrapper, each checking the
    request's keys against the wrapper's input parameters before running it. */
module FlaskApp {
  import opened Wrappers
  import opened Order
  import opened Json
  import opened Numerics
  import Pca
  import Plsr
  import Distance

  datatype Algorithm = PlsrAlgorithm | PcaAlgorithm | DistanceAlgorithm

  /** The endpoint each resource is registered under. */
  function Path(a: Algorithm): string
  {
    match a
    case PlsrAlgorithm => "/plsr"
    case PcaAlgorithm => "/pca"
    case DistanceAlgorithm => "/distance"
  }

  /** The resource serving a path, if any. */
  function Route(path: string): Option<Algorithm>
  {
    if path == "/plsr" then Some(PlsrAlgorithm)
    else if path == "/pca" then Some(PcaAlgorithm)
    else if path == "/distance" then Some(DistanceAlgorithm)
    else None
  }

  /** The route table and the endpoint names are inverse to each other. */
  lemma RouteInvertsPath(a: Algorithm, path: string)
    ensures Route(path) == Some(a) <==> path == Path(a)
    ensures Route(Path(a)) == Some(a)
  {
  }

  /** `algorithm_class.get_input_parameters()`. */
  function Expected(a: Algorithm): (r: seq<string>)
    ensures Sorted(r) && Distinct(r)
  {
    match a
    case PlsrAlgorithm => Plsr.InputParameters()
    case PcaAlgorithm => Pca.InputParameters()
    case DistanceAlgorithm => Distance.InputParameters()
  }

  /** `sorted(json_data.keys()) == expected_keys`: a dict's keys are
      distinct, so sorting them gives the sorted set. */
  predicate Admit(a: Algorithm, keys: set<string>)
  {
    SortedSet(keys) == Expected(a)
  }

  /** A request is admitted iff it carries exactly the expected keys: a
      missing key and an extra key both reject it. */
  lemma AdmitIff(a: Algorithm, keys: set<string>)
    ensures Admit(a, keys) <==> keys == SetOf(Expected(a))
  {
    SortedSetSpec(keys);
    if keys == SetOf(Expected(a)) {
      SortedUnique(SortedSet(keys), Expected(a));
    }
  }

  /** The reason a rejected request is given. */
  function RejectReason(a: Algorithm): string
  {
    "missing key(s): input must contain all of: " + Str(Strings(Expected(a)))
  }

  datatype HttpResponse = Http(status: int, body: Json) | Uncaught(msg: string)

  /** The answer to a rejected request. */
  function Rejection(reason: string): (r: HttpResponse)
    ensures r.Http? && r.status == 400 && r.body.JObj?
    ensures r.body.fields.Keys == {"reason"} && r.body.fields["reason"] == JStr(reason)
  {
    Http(400, JObj(map["reason" := JStr(reason)]))
  }

  /** The `post` closure: `run` is what the wrapper built from the request
      returns or raises when run. */
  function Post(a: Algorithm, keys: set<string>, run: Outcome<map<string, Json>>): HttpResponse
  {
    if !Admit(a, keys) then Rejection(RejectReason(a))
    else
      match run
      case Raised(msg) => Uncaught(msg)
      case Returned(obj) => Http(200, JObj(obj))
  }

  /** A request with other than the expected keys is answered 400 with only
      a reason, whatever running the wrapper would have done. */
  lemma PostRejects(a: Algorithm, keys: set<string>, run: Outcome<map<string, Json>>, other: Outcome<map<string, Json>>)
    requires keys != SetOf(Expected(a))
    ensures Post(a, keys, run) == Post(a, keys, other)
    ensures Post(a, keys, run).Http? && Post(a, keys, run).status == 400
    ensures Post(a, keys, run).body.JObj? && Post(a, keys, run).body.fields.Keys == {"reason"}
    ensures Post(a, keys, run).body.fields["reason"] == JStr(RejectReason(a))
  {
    AdmitIff(a, keys);
    assert Post(a, keys, run) == Rejection(RejectReason(a)) && Post(a, keys, other) == Rejection(RejectReason(a));
  }

  /** A request with exactly the expected keys is answered with the run's
      own response: 200 with its object, or the exception it raised. */
  lemma PostAccepts(a: Algorithm, keys: set<string>, run: Outcome<map<string, Json>>)
    requires keys == SetOf(Expected(a))
    ensures run.Returned? ==> Post(a, keys, run) == Http(200, JObj(run.value))
    ensures run.Raised? ==> Post(a, keys, run) == Uncaught(run.msg)
    ensures !(Post(a, keys, run).Http? && Post(a, keys, run).status == 400)
  {
    AdmitIff(a, keys);
  }

  // ---------------------------------------------------------------------
  // Binding the request to the constructor's keywords

  /** The keywords `AbstractAlgorithmWrapper.__init__` takes. */
  const ConstructorKeywords: set<string> :=
    {"dataset", "genes", "samples", "molecular_collection", "molecular_collection2",
     "n_components", "clinical_collection", "features"}

  /** `algorithm_class(**json_data)` as written: a key the constructor does
      not take is a TypeError. */
  function BindAsWritten(keys: set<string>): Result<()>
  {
    if keys <= ConstructorKeywords then Success(())
    else Failure("TypeError: __init__() got an unexpected keyword argument")
  }

  /** The PCA and PLSR endpoints expect `disease`. */
  lemma ExpectsDisease(a: Algorithm)
    requires a != DistanceAlgorithm
    ensures "disease" in SetOf(Expected(a))
  {
    if a == PcaAlgorithm {
      assert SetOf(Expected(a)) == SetOf(Pca.InputParameters());
    } else {
      assert SetOf(Expected(a)) == SetOf(Plsr.InputParameters());
    }
  }

  /** As written, every request the PCA and PLSR endpoints admit carries
      `disease`, which the constructor does not take. */
  lemma AdmittedDiseaseRaises(a: Algorithm, keys: set<string>)
    requires a != DistanceAlgorithm && keys == SetOf(Expected(a))
    ensures "disease" in keys && BindAsWritten(keys).Failure?
  {
    ExpectsDisease(a);
    assert "disease" !in ConstructorKeywords;
  }

  /** The keywords once the constructor also takes the `disease` its
      subclasses report. */
  const Keywords: set<string> := ConstructorKeywords + {"disease"}

  function Bind(keys: set<string>): Result<()>
  {
    if keys <= Keywords then Success(())
    else Failure("TypeError: __init__() got an unexpected keyword argument")
  }

  /** With `disease` accepted, every admitted request binds. */
  lemma AdmittedBinds(a: Algorithm, keys: set<string>)
    requires Admit(a, keys)
    ensures Bind(keys).Success?
  {
    AdmitIff(a, keys);
  }
}

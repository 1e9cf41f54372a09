/** The smoke-test driver's deterministic steps: the one-line summary of a
    request, the verdict line of a response, the choice of diseases, the
    patient-to-sample remapping and the filtering of a request to an
    algorithm's parameters. */
module Smoker {
  import opened Wrappers
  import opened Order
  import opened Json
  import opened SampleMaps
  import Frames
  import Numerics
  import Pca
  import Plsr
  import Distance
  import FlaskApp

  // ---------------------------------------------------------------------
  // summary

  /** The keys `summary` visits, in order. */
  const SummaryKeys: seq<string> := ["disease", "features", "genes", "samples", "n_components"]

  function NoLenError(typeName: string): Result<nat>
  {
    Failure("TypeError: object of type '" + typeName + "' has no len()")
  }

  /** `len(j)`. */
  function Len(j: Json): Result<nat>
  {
    match j
    case JList(items) => Success(|items|)
    case JStr(s) => Success(|s|)
    case JObj(fields) => Success(|fields|)
    case JInt(_) => NoLenError("int")
    case JNull => NoLenError("NoneType")
    case JBool(_) => NoLenError("bool")
    case JNum(_) => NoLenError("float")
  }

  /** The values `summary` writes with `str` are ones whose `str` the model
      defines. */
  predicate Printable(obj: map<string, Json>)
  {
    ("disease" in obj ==> Textual(obj["disease"])) &&
    ("features" in obj ==> Textual(obj["features"])) &&
    ("n_components" in obj ==> Textual(obj["n_components"]))
  }

  /** What one iteration of the loop writes for key number `idx`. */
  function Part(obj: map<string, Json>, idx: nat): Result<string>
    requires idx < |SummaryKeys| && Printable(obj)
  {
    var key := SummaryKeys[idx];
    if key !in obj then Success("")
    else
      var sep := if idx == |SummaryKeys| - 1 then "" else ", ";
      if key == "genes" || key == "samples" then
        match Len(obj[key])
        case Failure(e) => Failure(e)
        case Success(n) => Success(key + ": " + "(" + IntText(n) + ")" + sep)
      else Success(key + ": " + Str(obj[key]) + sep)
  }

  /** What the first `n` iterations write; the first exception ends it. */
  function SummaryFrom(obj: map<string, Json>, n: nat): Result<string>
    requires n <= |SummaryKeys| && Printable(obj)
  {
    if n == 0 then Success("")
    else
      match SummaryFrom(obj, n - 1)
      case Failure(e) => Failure(e)
      case Success(s) =>
        match Part(obj, n - 1)
        case Failure(e) => Failure(e)
        case Success(p) => Success(s + p)
  }

  /** `summary(obj)`. */
  function SummarySpec(obj: map<string, Json>): Result<string>
    requires Printable(obj)
  {
    SummaryFrom(obj, |SummaryKeys|)
  }

  lemma {:induction false} SummaryFailSticks(obj: map<string, Json>, i: nat, j: nat)
    requires i <= j <= |SummaryKeys| && Printable(obj)
    requires SummaryFrom(obj, i).Failure?
    ensures SummaryFrom(obj, j) == SummaryFrom(obj, i)
    decreases j
  {
    if i < j {
      SummaryFailSticks(obj, i, j - 1);
    }
  }

  /** `summary`, writing into a buffer key by key. */
  method Summary(obj: map<string, Json>) returns (r: Result<string>)
    requires Printable(obj)
    ensures r == SummarySpec(obj)
  {
    var sio := "";
    for idx := 0 to |SummaryKeys|
      invariant SummaryFrom(obj, idx) == Success(sio)
    {
      var key := SummaryKeys[idx];
      if key in obj {
        var piece := key + ": ";
        if key == "genes" || key == "samples" {
          var n := Len(obj[key]);
          if n.Failure? {
            assert SummaryFrom(obj, idx + 1) == Failure(n.error);
            SummaryFailSticks(obj, idx + 1, |SummaryKeys|);
            return Failure(n.error);
          }
          piece := piece + "(" + IntText(n.value) + ")";
          assert Part(obj, idx) == Success(piece + (if idx == |SummaryKeys| - 1 then "" else ", "));
        } else {
          piece := piece + Str(obj[key]);
          assert Part(obj, idx) == Success(piece + (if idx == |SummaryKeys| - 1 then "" else ", "));
        }
        if idx != |SummaryKeys| - 1 {
          piece := piece + ", ";
        } else {
          assert piece + "" == piece;
        }
        assert Part(obj, idx) == Success(piece);
        sio := sio + piece;
      } else {
        assert Part(obj, idx) == Success("");
        assert sio + "" == sio;
      }
    }
    r := Success(sio);
  }

  predicate NoLen(obj: map<string, Json>, key: string)
  {
    key in obj && Len(obj[key]).Failure?
  }

  /** Only `genes` and `samples` can raise, and only for want of a length. */
  lemma PartFails(obj: map<string, Json>, idx: nat)
    requires idx < |SummaryKeys| && Printable(obj)
    ensures Part(obj, idx).Failure? <==> (idx == 2 || idx == 3) && NoLen(obj, SummaryKeys[idx])
    ensures Part(obj, idx).Failure? ==> Part(obj, idx).error == Len(obj[SummaryKeys[idx]]).error
  {
  }

  /** The summary raises iff a `genes` or `samples` value has no length,
      and then with the error of the first of them. */
  lemma SummaryRaises(obj: map<string, Json>)
    requires Printable(obj)
    ensures SummarySpec(obj).Failure? <==> NoLen(obj, "genes") || NoLen(obj, "samples")
    ensures NoLen(obj, "genes") ==> SummarySpec(obj) == Failure(Len(obj["genes"]).error)
    ensures !NoLen(obj, "genes") && NoLen(obj, "samples") ==> SummarySpec(obj) == Failure(Len(obj["samples"]).error)
  {
    PartFails(obj, 0);
    PartFails(obj, 1);
    PartFails(obj, 2);
    PartFails(obj, 3);
    PartFails(obj, 4);
    assert SummaryFrom(obj, 1).Success?;
    assert SummaryFrom(obj, 2).Success?;
    if NoLen(obj, "genes") {
      assert SummaryFrom(obj, 3) == Failure(Len(obj["genes"]).error);
      SummaryFailSticks(obj, 3, 5);
    } else {
      assert SummaryFrom(obj, 3).Success?;
      if NoLen(obj, "samples") {
        assert SummaryFrom(obj, 4) == Failure(Len(obj["samples"]).error);
        SummaryFailSticks(obj, 4, 5);
      } else {
        assert SummaryFrom(obj, 4).Success?;
        assert SummaryFrom(obj, 5).Success?;
      }
    }
  }

  /** Only the five keys matter: objects agreeing on them summarise alike. */
  lemma {:induction false} SummaryOnlyReadsKeys(obj: map<string, Json>, other: map<string, Json>, n: nat)
    requires n <= |SummaryKeys| && Printable(obj) && Printable(other)
    requires forall i :: 0 <= i < |SummaryKeys| ==>
      (SummaryKeys[i] in obj <==> SummaryKeys[i] in other) &&
      (SummaryKeys[i] in obj ==> obj[SummaryKeys[i]] == other[SummaryKeys[i]])
    ensures SummaryFrom(obj, n) == SummaryFrom(other, n)
  {
    if n > 0 {
      SummaryOnlyReadsKeys(obj, other, n - 1);
      assert Part(obj, n - 1) == Part(other, n - 1);
    }
  }

  predicate EndsWith(x: string, suffix: string)
  {
    |suffix| <= |x| && x[|x| - |suffix|..] == suffix
  }

  lemma EndsWithConcat(s: string, p: string, suffix: string)
    requires EndsWith(p, suffix)
    ensures EndsWith(s + p, suffix)
  {
    assert (s + p)[|s + p| - |suffix|..] == p[|p| - |suffix|..];
  }

  predicate AnyPresent(obj: map<string, Json>, n: nat)
    requires n <= |SummaryKeys|
  {
    exists i :: 0 <= i < n && SummaryKeys[i] in obj
  }

  lemma AnyPresentStep(obj: map<string, Json>, n: nat)
    requires 0 < n <= |SummaryKeys|
    ensures AnyPresent(obj, n) <==> AnyPresent(obj, n - 1) || SummaryKeys[n - 1] in obj
  {
    if AnyPresent(obj, n) {
      var i :| 0 <= i < n && SummaryKeys[i] in obj;
      if i < n - 1 {
        assert AnyPresent(obj, n - 1);
      }
    }
  }

  /** What a key before the last writes: nothing when absent, else a
      non-empty piece ending in ", ". */
  lemma PartShape(obj: map<string, Json>, idx: nat)
    requires idx < |SummaryKeys| - 1 && Printable(obj) && Part(obj, idx).Success?
    ensures SummaryKeys[idx] !in obj ==> Part(obj, idx).value == ""
    ensures SummaryKeys[idx] in obj ==> Part(obj, idx).value != "" && EndsWith(Part(obj, idx).value, ", ")
  {
    var key := SummaryKeys[idx];
    if key in obj {
      var p := Part(obj, idx).value;
      if key == "genes" || key == "samples" {
        var n := Len(obj[key]).value;
        EndsWithConcat(key + ": " + "(" + IntText(n) + ")", ", ", ", ");
      } else {
        EndsWithConcat(key + ": " + Str(obj[key]), ", ", ", ");
      }
    }
  }

  /** Before the last key every written key is followed by ", ". */
  lemma {:induction false} SummaryFromTrailing(obj: map<string, Json>, n: nat)
    requires n < |SummaryKeys| && Printable(obj)
    requires SummaryFrom(obj, n).Success?
    ensures AnyPresent(obj, n) <==> SummaryFrom(obj, n).value != ""
    ensures AnyPresent(obj, n) ==> EndsWith(SummaryFrom(obj, n).value, ", ")
  {
    if n > 0 {
      assert SummaryFrom(obj, n - 1).Success?;
      SummaryFromTrailing(obj, n - 1);
      AnyPresentStep(obj, n);
      var s := SummaryFrom(obj, n - 1).value;
      assert Part(obj, n - 1).Success?;
      var p := Part(obj, n - 1).value;
      assert SummaryFrom(obj, n).value == s + p;
      PartShape(obj, n - 1);
      if SummaryKeys[n - 1] in obj {
        EndsWithConcat(s, p, ", ");
      } else {
        assert s + p == s;
      }
    }
  }

  /** Without `n_components` the summary of an object with any of the other
      keys ends in ", "; with it, the summary ends in its value. */
  lemma SummaryEnding(obj: map<string, Json>)
    requires Printable(obj) && SummarySpec(obj).Success?
    ensures "n_components" !in obj && AnyPresent(obj, 4) ==> EndsWith(SummarySpec(obj).value, ", ")
    ensures "n_components" in obj ==> EndsWith(SummarySpec(obj).value, "n_components: " + Str(obj["n_components"]))
    ensures SummarySpec(obj).value == "" <==> !AnyPresent(obj, |SummaryKeys|)
  {
    assert SummaryFrom(obj, 4).Success?;
    SummaryFromTrailing(obj, 4);
    AnyPresentStep(obj, 5);
    var s := SummaryFrom(obj, 4).value;
    var p := Part(obj, 4).value;
    assert SummarySpec(obj).value == s + p;
    if "n_components" in obj {
      assert p == "n_components: " + Str(obj["n_components"]);
      EndsWithConcat(s, p, p);
    } else {
      assert p == "";
      assert s + p == s;
    }
  }

  // ---------------------------------------------------------------------
  // success

  /** `success(obj)`: the response's `reason` and `warning`, or "none". */
  function SuccessLine(obj: map<string, Json>): string
    requires "reason" in obj ==> Textual(obj["reason"])
    requires "warning" in obj ==> Textual(obj["warning"])
  {
    var error := if "reason" in obj then Str(obj["reason"]) else "none";
    var warning := if "warning" in obj then Str(obj["warning"]) else "none";
    "errors: " + error + ", warnings? " + warning
  }

  /** A PCA run that starts with an error set reports exactly that error,
      and no warnings. */
  lemma SuccessOfFailedPca(disease: Option<string>, molDf: Frames.Frame, error: Option<string>,
                           warning: seq<string>, c: Numerics.Computation<Pca.PcaFit>)
    requires Truthy(error)
    ensures var r := Pca.RunSpec(disease, molDf, error, warning, c).result;
      r.Returned? && SuccessLine(r.value) == "errors: " + error.value + ", warnings? none"
  {
    Pca.RunSpecSkips(disease, molDf, error, warning, c);
    Pca.BaseFields(disease);
  }

  /** A response with neither entry reads as a clean run. */
  lemma SuccessOfClean(obj: map<string, Json>)
    requires "reason" !in obj && "warning" !in obj
    ensures SuccessLine(obj) == "errors: none, warnings? none"
  {
  }

  // ---------------------------------------------------------------------
  // Disease pruning

  /** `x.split("_")[0]`: the part of `x` before its first underscore. */
  function FirstField(x: string): (r: string)
    ensures r <= x && '_' !in r
    ensures r == x || x[|r|] == '_'
  {
    if x == [] || x[0] == '_' then [] else [x[0]] + FirstField(x[1..])
  }

  /** The first fields of the collections with a given suffix. */
  function Diseases(collections: seq<string>, suffix: string): set<string>
  {
    set i | 0 <= i < |collections| && EndsWith(collections[i], suffix) :: FirstField(collections[i])
  }

  /** `pruned_diseases`, as a set: order is lost in `list(set(...))`. */
  function PrunedDiseases(collections: seq<string>): set<string>
  {
    Diseases(collections, "_dashboard") * Diseases(collections, "_samplemap")
  }

  lemma {:induction false} FirstFieldOfName(d: string, suffix: string)
    requires '_' !in d && |suffix| > 0 && suffix[0] == '_'
    ensures FirstField(d + suffix) == d
  {
    if d != [] {
      assert (d + suffix)[1..] == d[1..] + suffix;
      FirstFieldOfName(d[1..], suffix);
    } else {
      assert d + suffix == suffix;
    }
  }

  /** A collection with the suffix names a disease followed by "_". */
  lemma Named(collections: seq<string>, suffix: string, d: string)
    requires |suffix| > 0 && suffix[0] == '_' && d in Diseases(collections, suffix)
    ensures '_' !in d && exists i :: 0 <= i < |collections| && EndsWith(collections[i], suffix) && d + "_" <= collections[i]
  {
    var i :| 0 <= i < |collections| && EndsWith(collections[i], suffix) && FirstField(collections[i]) == d;
    var x := collections[i];
    var k := |x| - |suffix|;
    assert x[k] == x[k..][0] == '_';
    assert d != x by {
      assert x[k] in x;
    }
    assert d == x[..|d|] && x[|d|] == '_';
    assert x[..|d| + 1] == x[..|d|] + [x[|d|]];
  }

  /** Every pruned disease has both a samplemap and a dashboard collection
      starting with it and an underscore, and a name without underscores
      with both collections is pruned. */
  lemma PrunedDiseasesSpec(collections: seq<string>, d: string)
    ensures d in PrunedDiseases(collections) ==>
      '_' !in d &&
      (exists i :: 0 <= i < |collections| && EndsWith(collections[i], "_samplemap") && d + "_" <= collections[i]) &&
      (exists i :: 0 <= i < |collections| && EndsWith(collections[i], "_dashboard") && d + "_" <= collections[i])
    ensures '_' !in d && d + "_samplemap" in collections && d + "_dashboard" in collections ==>
      d in PrunedDiseases(collections)
  {
    if d in PrunedDiseases(collections) {
      Named(collections, "_samplemap", d);
      Named(collections, "_dashboard", d);
    }
    if '_' !in d && d + "_samplemap" in collections && d + "_dashboard" in collections {
      var i :| 0 <= i < |collections| && collections[i] == d + "_samplemap";
      var j :| 0 <= j < |collections| && collections[j] == d + "_dashboard";
      FirstFieldOfName(d, "_samplemap");
      FirstFieldOfName(d, "_dashboard");
      assert EndsWith(collections[i], "_samplemap");
      assert EndsWith(collections[j], "_dashboard");
    }
  }

  // ---------------------------------------------------------------------
  // Mapping sampled patients to samples

  const NoMapper := "AttributeError: 'NoneType' object has no attribute 'items'"

  function DropWarning(x: string): string
  {
    "warning: " + x + " does not occur in mapping table, dropping sample"
  }

  /** The samples kept and the warnings printed. */
  datatype Remapped = Remapped(kept: seq<string>, log: seq<string>)

  /** The loop over the sampled patients: each is replaced by its sample
      or dropped with a warning. */
  function RemapSpec(patients: seq<string>, reverse: map<string, string>): Remapped
  {
    if patients == [] then Remapped([], [])
    else
      var prev := RemapSpec(patients[..|patients| - 1], reverse);
      var x := patients[|patients| - 1];
      if x in reverse then Remapped(prev.kept + [reverse[x]], prev.log)
      else Remapped(prev.kept, prev.log + [DropWarning(x)])
  }

  /** Lines 118-126: invert the samplemap document, then remap; a missing
      document fails on `.items()`. */
  method Remap(patients: seq<string>, mapper: Option<SampleMap>) returns (r: Result<Remapped>)
    ensures mapper.None? ==> r == Failure(NoMapper)
    ensures mapper.Some? ==> r == Success(RemapSpec(patients, Invert(mapper.value)))
  {
    if mapper.None? {
      return Failure(NoMapper);
    }
    var reverse := Invert(mapper.value);
    var tmp := [];
    var log := [];
    for i := 0 to |patients|
      invariant RemapSpec(patients[..i], reverse) == Remapped(tmp, log)
    {
      var x := patients[i];
      assert patients[..i + 1][..i] == patients[..i];
      if x !in reverse {
        log := log + [DropWarning(x)];
        continue;
      }
      tmp := tmp + [reverse[x]];
    }
    assert patients[..|patients|] == patients;
    r := Success(Remapped(tmp, log));
  }

  /** Remapping a concatenation remaps the parts in order. */
  lemma {:induction false} RemapConcat(a: seq<string>, b: seq<string>, reverse: map<string, string>)
    ensures RemapSpec(a + b, reverse).kept == RemapSpec(a, reverse).kept + RemapSpec(b, reverse).kept
    ensures RemapSpec(a + b, reverse).log == RemapSpec(a, reverse).log + RemapSpec(b, reverse).log
    decreases |b|
  {
    if b == [] {
      assert a + b == a;
    } else {
      var b' := b[..|b| - 1];
      assert (a + b)[..|a + b| - 1] == a + b';
      assert (a + b)[|a + b| - 1] == b[|b| - 1];
      RemapConcat(a, b', reverse);
    }
  }

  /** A single patient is replaced by its sample or dropped with a warning. */
  lemma RemapOne(x: string, reverse: map<string, string>)
    ensures x in reverse ==> RemapSpec([x], reverse) == Remapped([reverse[x]], [])
    ensures x !in reverse ==> RemapSpec([x], reverse) == Remapped([], [DropWarning(x)])
  {
    assert [x][..0] == [];
  }

  /** Every patient is accounted for once: kept or logged. */
  lemma {:induction false} RemapCount(patients: seq<string>, reverse: map<string, string>)
    ensures |RemapSpec(patients, reverse).kept| + |RemapSpec(patients, reverse).log| == |patients|
    decreases |patients|
  {
    if patients != [] {
      RemapCount(patients[..|patients| - 1], reverse);
    }
  }

  /** Each kept sample is the image of a sampled patient, each mapped
      patient's sample is kept and each unmapped patient is logged. */
  lemma {:induction false} RemapMembers(patients: seq<string>, reverse: map<string, string>)
    ensures forall s :: s in RemapSpec(patients, reverse).kept ==>
      exists i :: 0 <= i < |patients| && patients[i] in reverse && reverse[patients[i]] == s
    ensures forall i :: 0 <= i < |patients| && patients[i] in reverse ==>
      reverse[patients[i]] in RemapSpec(patients, reverse).kept
    ensures forall i :: 0 <= i < |patients| && patients[i] !in reverse ==>
      DropWarning(patients[i]) in RemapSpec(patients, reverse).log
    decreases |patients|
  {
    if patients != [] {
      var init := patients[..|patients| - 1];
      RemapMembers(init, reverse);
      assert forall i :: 0 <= i < |init| ==> init[i] == patients[i];
    }
  }

  /** Looking a kept sample up in the samplemap gives back one of the
      sampled patients. */
  lemma RemapRoundTrip(patients: seq<string>, m: SampleMap, s: string)
    requires IsDict(m) && s in RemapSpec(patients, Invert(m)).kept
    ensures Lookup(m, s).Some? && Lookup(m, s).value in patients
  {
    RemapMembers(patients, Invert(m));
    var i :| 0 <= i < |patients| && patients[i] in Invert(m) && Invert(m)[patients[i]] == s;
    InvertLookup(m, patients[i]);
  }

  // ---------------------------------------------------------------------
  // Filtering the request to the algorithm's parameters

  /** Lines 156-158: delete every key that is not an input parameter. */
  method FilterParams(ret: map<string, Json>, inputParameters: seq<string>) returns (r: map<string, Json>)
    ensures r.Keys == ret.Keys * SetOf(inputParameters)
    ensures forall k :: k in r ==> r[k] == ret[k]
  {
    r := ret;
    var keys := ret.Keys;
    while keys != {}
      invariant keys <= ret.Keys && r.Keys <= ret.Keys
      invariant forall k :: k in ret ==> (k in r <==> k in keys || k in SetOf(inputParameters))
      invariant forall k :: k in r ==> r[k] == ret[k]
      decreases keys
    {
      var key :| key in keys;
      if key !in inputParameters {
        r := r - {key};
      }
      keys := keys - {key};
    }
  }

  /** The keys of the object the smoker builds. */
  const SmokeKeys: set<string> :=
    {"disease", "molecular_collection", "clinical_collection", "features", "genes", "samples", "n_components"}

  /** Filtered to an algorithm's parameters, the smoker's object is
      admitted by the PCA and PLSR endpoints but never by the distance one,
      which needs `molecular_collection2`; as written, the admitted ones
      carry `disease`, which the constructor does not take. */
  lemma SmokeKeysCover(a: FlaskApp.Algorithm)
    requires a != FlaskApp.DistanceAlgorithm
    ensures SmokeKeys * SetOf(FlaskApp.Expected(a)) == SetOf(FlaskApp.Expected(a))
  {
    var expected := SetOf(FlaskApp.Expected(a));
    if a == FlaskApp.PcaAlgorithm {
      assert expected == SetOf(Pca.InputParameters());
      assert SetOf(Pca.InputParameters()) <= SmokeKeys;
    } else {
      assert expected == SetOf(Plsr.InputParameters());
      assert SetOf(Plsr.InputParameters()) <= SmokeKeys;
    }
  }

  lemma SmokeRejected(a: FlaskApp.Algorithm, keys: set<string>)
    requires a == FlaskApp.DistanceAlgorithm && keys <= SmokeKeys
    ensures keys != SetOf(FlaskApp.Expected(a))
  {
    assert "molecular_collection2" !in SmokeKeys;
    assert "molecular_collection2" in SetOf(FlaskApp.Expected(a));
  }

  lemma SmokeAdmission(a: FlaskApp.Algorithm, smoke: map<string, Json>, filtered: map<string, Json>)
    requires smoke.Keys == SmokeKeys && filtered.Keys == smoke.Keys * SetOf(FlaskApp.Expected(a))
    ensures FlaskApp.Admit(a, filtered.Keys) <==> a != FlaskApp.DistanceAlgorithm
    ensures a != FlaskApp.DistanceAlgorithm ==> FlaskApp.BindAsWritten(filtered.Keys).Failure?
  {
    if a == FlaskApp.DistanceAlgorithm {
      SmokeRejected(a, filtered.Keys);
      FlaskApp.AdmitIff(a, filtered.Keys);
    } else {
      SmokeKeysCover(a);
      FlaskApp.AdmitIff(a, filtered.Keys);
      FlaskApp.AdmittedDiseaseRaises(a, filtered.Keys);
    }
  }
}

/** The shared part of every algorithm wrapper: the constructor, which
    fetches the molecular (and optionally a second molecular and a clinical)
    frame and aligns them in place, the error and warning fields, and the
    collector the runs install as the warning handler. */
module AlgorithmWrapper {
  import opened Wrappers
  import opened Order
  import opened Json
  import opened Frames
  import opened SampleMaps
  import opened RecordStore
  import opened Clinical
  import opened Numerics

  /** The constructor's arguments, plus the `disease` the PCA and PLSR runs
      report; None stands for a JSON null in the request. */
  datatype Params = Params(
    dataset: Option<string>,
    genes: Option<seq<string>>,
    samples: seq<string>,
    molecularCollection: Option<string>,
    molecularCollection2: Option<string>,
    nComponents: Option<int>,
    clinicalCollection: Option<string>,
    features: Option<seq<string>>,
    disease: Option<string>)

  // ---------------------------------------------------------------------
  // The constructor as functions of its inputs

  /** `len(None)` at line 66. */
  const GenesHaveNoLen := "TypeError: object of type 'NoneType' has no len()"
  /** `db[None]`: a collection name must be a string. */
  const CollectionNotNamed := "TypeError: name must be an instance of str"

  /** Lines 66-75: the molecular frame, and the second one only when its
      collection is named; both with the same gene filter.  A null gene list
      has no length, and a null collection names no collection. */
  function Fetch(st: Store, p: Params): (r: Result<(Frame, Option<Frame>)>)
    ensures r.Success? ==> Shaped(r.value.0) && (r.value.1.Some? ==> Shaped(r.value.1.value))
  {
    if p.genes.None? then Failure(GenesHaveNoLen)
    else if p.molecularCollection.None? then Failure(CollectionNotNamed)
    else
      var m := GetDataFrame(st, p.molecularCollection.value, GeneQuery(p.genes.value));
      if m.Failure? then Failure(m.error)
      else if !Truthy(p.molecularCollection2) then Success((m.value, None))
      else
        var m2 := GetDataFrame(st, p.molecularCollection2.value, GeneQuery(p.genes.value));
        if m2.Failure? then Failure(m2.error) else Success((m.value, Some(m2.value)))
  }

  /** A null gene list or molecular collection raises before anything is
      fetched.  Otherwise, with no genes every record is fetched, and with
      some exactly those whose id is listed; the second frame exists iff its
      collection is named; both come back with ascending labels. */
  lemma FetchSpec(st: Store, p: Params)
    ensures p.genes.None? ==> Fetch(st, p) == Failure(GenesHaveNoLen)
    ensures p.genes.Some? && p.molecularCollection.None? ==> Fetch(st, p) == Failure(CollectionNotNamed)
    ensures p.genes.Some? && p.molecularCollection.Some? ==>
      forall x :: x in FindMolecular(st, p.molecularCollection.value, GeneQuery(p.genes.value)) <==>
        x in Collection(st.molecular, p.molecularCollection.value) && (|p.genes.value| == 0 || x.id in p.genes.value)
    ensures Fetch(st, p).Success? ==> (Fetch(st, p).value.1.Some? <==> Truthy(p.molecularCollection2))
    ensures Fetch(st, p).Success? ==> Sorted(Fetch(st, p).value.0.rows)
    ensures Fetch(st, p).Success? && Fetch(st, p).value.1.Some? ==> Sorted(Fetch(st, p).value.1.value.rows)
  {
    if p.genes.Some? && p.molecularCollection.Some? {
      GetDataFrameSpec(st, p.molecularCollection.value, GeneQuery(p.genes.value));
      if Truthy(p.molecularCollection2) {
        GetDataFrameSpec(st, p.molecularCollection2.value, GeneQuery(p.genes.value));
      }
    }
  }

  /** Lines 97-99 (and 102-104 for the second frame): sort the rows, then
      drop the columns holding "NaN"/"NaT", then those holding a null. */
  function SortAndPrune(f: Frame): (r: Frame)
    requires Shaped(f)
    ensures Shaped(r)
  {
    SortRowsSpec(f);
    PruneColumns(SortRows(f))
  }

  /** Lines 93-99: restricted to the requested samples when there are any. */
  function AlignMolecular(f: Frame, samples: seq<string>): (r: Frame)
    requires Shaped(f)
    ensures Shaped(r)
  {
    SortAndPrune(if |samples| > 0 then RestrictToSamples(f, samples) else f)
  }

  /** After sorting and pruning the labels ascend and are the input's, no
      cell is null, "NaN" or "NaT", and a label survives iff none of its
      columns held "NaN" or "NaT" and one of them held no null; with unique
      column labels, a column survives iff none of its cells was unusable. */
  lemma SortAndPruneSpec(f: Frame)
    requires Shaped(f)
    ensures var r := SortAndPrune(f);
      Sorted(r.rows) && multiset(r.rows) == multiset(f.rows) &&
      (forall i, k :: 0 <= i < |r.rows| && 0 <= k < |r.cols| ==> !Unusable(r.data[i][k])) &&
      (forall c :: c in r.cols <==>
         (LabelClean(f, c, IsNaText) && exists j :: 0 <= j < |f.cols| && f.cols[j] == c && ColumnClean(f, j, IsNull))) &&
      (Distinct(f.cols) ==>
         forall c :: c in r.cols <==> exists j :: 0 <= j < |f.cols| && f.cols[j] == c && ColumnUsable(f, j))
  {
    SortRowsSpec(f);
    SortRowsLabels(f);
    PruneColumnsClean(SortRows(f));
    SortAndPruneColumns(f);
  }

  lemma SortAndPruneColumns(f: Frame)
    requires Shaped(f)
    ensures var r := SortAndPrune(f);
      (forall c :: c in r.cols <==>
         (LabelClean(f, c, IsNaText) && exists j :: 0 <= j < |f.cols| && f.cols[j] == c && ColumnClean(f, j, IsNull))) &&
      (Distinct(f.cols) ==>
         forall c :: c in r.cols <==> exists j :: 0 <= j < |f.cols| && f.cols[j] == c && ColumnUsable(f, j))
  {
    SortRowsSpec(f);
    var s := SortRows(f);
    PruneColumnsSurvivors(s);
    forall c ensures LabelClean(s, c, IsNaText) <==> LabelClean(f, c, IsNaText) {
      SortRowsLabelClean(f, c, IsNaText);
    }
    forall j | 0 <= j < |f.cols| ensures ColumnClean(s, j, IsNull) <==> ColumnClean(f, j, IsNull) {
      SortRowsClean(f, j, IsNull);
    }
    if Distinct(f.cols) {
      PruneColumnsDistinct(s);
      forall j | 0 <= j < |f.cols| ensures ColumnUsable(s, j) <==> ColumnUsable(f, j) {
        UsableIsClean(f, j);
        UsableIsClean(s, j);
        SortRowsClean(f, j, IsNaText);
      }
    }
  }

  /** With unique labels and some samples requested, the aligned molecular
      frame has exactly the frame's labels that are among the samples. */
  lemma AlignMolecularRows(f: Frame, samples: seq<string>)
    requires Shaped(f) && Distinct(f.rows)
    ensures |samples| > 0 ==> forall x :: x in AlignMolecular(f, samples).rows <==> x in f.rows && x in samples
    ensures |samples| == 0 ==> forall x :: x in AlignMolecular(f, samples).rows <==> x in f.rows
  {
    var g := if |samples| > 0 then RestrictToSamples(f, samples) else f;
    if |samples| > 0 {
      RestrictToSamplesSpec(f, samples);
    }
    SortAndPruneSpec(g);
    forall x ensures x in AlignMolecular(f, samples).rows <==> x in g.rows {
      assert x in multiset(AlignMolecular(f, samples).rows) <==> x in multiset(g.rows);
    }
  }

  /** The clinical and molecular frames after lines 113-136. */
  datatype ClinicalAligned = ClinicalAligned(clinDf: Frame, molDf: Frame)

  /** Lines 113-136: restrict the clinical frame to the molecular labels,
      drop its rows holding a null, then drop the molecular rows under the
      labels dropped.  Line 130 is taken as intended: the molecular rows to
      drop from the clinical frame are none, since column pruning never
      drops a row. */
  function ClinicalStep(clin: Frame, molDf: Frame): (r: Result<ClinicalAligned>)
    requires Shaped(clin) && Shaped(molDf)
    ensures r.Success? ==> Shaped(r.value.clinDf) && Shaped(r.value.molDf)
    ensures r.Failure? <==> |molDf.rows| > 0 && forall l :: l in molDf.rows ==> l !in clin.rows
  {
    match Loc(clin, molDf.rows)
    case Failure(e) => Failure(e)
    case Success(c2) =>
      var dropped := NullRowLabels(c2);
      var c3 := DropLabels(DropNullRows(c2), {});
      Success(ClinicalAligned(c3, DropLabels(molDf, SetOf(dropped))))
  }

  /** `.loc` of the molecular labels finds a clinical row, or is asked for
      none: the clinical step does not raise. */
  predicate LocFinds(clin: Frame, molDf: Frame)
  {
    |molDf.rows| == 0 || exists l :: l in molDf.rows && l in clin.rows
  }

  /** Line 130 as intended changes nothing: after `.loc` and `dropna` every
      clinical label is a molecular label, so dropping from the clinical
      frame any labels the molecular frame no longer has leaves it as it is. */
  lemma ClinicalDropIsNoOp(clin: Frame, molDf: Frame, molRowsToDrop: set<string>)
    requires Shaped(clin) && Shaped(molDf)
    requires forall x :: x in molRowsToDrop ==> x !in molDf.rows
    ensures var c3 := DropNullRows(LocRows(clin, molDf.rows));
      DropLabels(c3, molRowsToDrop) == c3
  {
    var c2 := LocRows(clin, molDf.rows);
    LocRowsLabels(clin, molDf.rows);
    DropNullRowsSpec(c2);
    var c3 := DropNullRows(c2);
    forall x | x in c3.rows ensures x !in molRowsToDrop {
      var i :| 0 <= i < |c2.rows| && c2.rows[i] == x && RowComplete(c2, i);
    }
    DropAbsentLabels(c3, molRowsToDrop);
  }

  /** The clinical step restricts with `.loc`, then drops the rows holding
      a null from the clinical frame and their labels from the molecular one. */
  lemma ClinicalStepValue(clin: Frame, molDf: Frame)
    requires Shaped(clin) && Shaped(molDf) && LocFinds(clin, molDf)
    ensures var c2 := LocRows(clin, molDf.rows);
      ClinicalStep(clin, molDf).value ==
        ClinicalAligned(DropNullRows(c2), DropLabels(molDf, SetOf(NullRowLabels(c2))))
  {
    var c2 := LocRows(clin, molDf.rows);
    assert Loc(clin, molDf.rows) == Success(c2);
    DropAbsentLabels(DropNullRows(c2), {});
  }

  /** After the clinical step the clinical labels are molecular labels and
      no clinical cell is null. */
  lemma ClinicalStepClinical(clin: Frame, molDf: Frame)
    requires Shaped(clin) && Shaped(molDf) && LocFinds(clin, molDf)
    ensures var r := ClinicalStep(clin, molDf).value;
      (forall x :: x in r.clinDf.rows ==> x in molDf.rows) &&
      (forall i, j :: 0 <= i < |r.clinDf.rows| && 0 <= j < |r.clinDf.cols| ==> !IsNull(r.clinDf.data[i][j]))
  {
    var c2 := LocRows(clin, molDf.rows);
    var c3 := DropNullRows(c2);
    ClinicalStepValue(clin, molDf);
    DropNullRowsSpec(c2);
    LocRowsLabels(clin, molDf.rows);
    forall x | x in c3.rows ensures x in molDf.rows {
      var i :| 0 <= i < |c2.rows| && c2.rows[i] == x && RowComplete(c2, i);
    }
  }

  /** After the clinical step no label dropped from the clinical frame is
      left in the molecular one, and the molecular frame lost nothing else. */
  lemma ClinicalStepMolecular(clin: Frame, molDf: Frame)
    requires Shaped(clin) && Shaped(molDf) && LocFinds(clin, molDf)
    ensures var c2 := LocRows(clin, molDf.rows);
      var r := ClinicalStep(clin, molDf).value;
      (forall x :: x in NullRowLabels(c2) ==> x !in r.molDf.rows) &&
      (forall x :: x in r.molDf.rows <==> x in molDf.rows && x !in NullRowLabels(c2))
  {
    var c2 := LocRows(clin, molDf.rows);
    ClinicalStepValue(clin, molDf);
    DropLabelsRows(molDf, SetOf(NullRowLabels(c2)));
  }

  /** After the clinical step the clinical labels are molecular labels, no
      clinical cell is null, no label dropped from the clinical frame is left
      in the molecular one, and the molecular frame lost nothing else. */
  lemma ClinicalStepSpec(clin: Frame, molDf: Frame)
    requires Shaped(clin) && Shaped(molDf) && LocFinds(clin, molDf)
    ensures var c2 := LocRows(clin, molDf.rows);
      var r := ClinicalStep(clin, molDf).value;
      (forall x :: x in r.clinDf.rows ==> x in molDf.rows) &&
      (forall i, j :: 0 <= i < |r.clinDf.rows| && 0 <= j < |r.clinDf.cols| ==> !IsNull(r.clinDf.data[i][j])) &&
      (forall x :: x in NullRowLabels(c2) ==> x !in r.molDf.rows) &&
      (forall x :: x in r.molDf.rows <==> x in molDf.rows && x !in NullRowLabels(c2))
  {
    ClinicalStepClinical(clin, molDf);
    ClinicalStepMolecular(clin, molDf);
  }

  /** When each patient has one clinical record, every clinical label left
      is also a molecular label left: the two frames keep the same samples. */
  lemma ClinicalStepSameSamples(clin: Frame, molDf: Frame)
    requires Shaped(clin) && Shaped(molDf) && Distinct(clin.rows) && LocFinds(clin, molDf)
    ensures var r := ClinicalStep(clin, molDf).value;
      forall x :: x in r.clinDf.rows <==> x in r.molDf.rows
  {
    var c2 := LocRows(clin, molDf.rows);
    ClinicalStepValue(clin, molDf);
    DropLabelsRows(molDf, SetOf(NullRowLabels(c2)));
    LocRowsDistinct(clin, molDf.rows);
    assert forall i, j :: 0 <= i < |c2.rows| && 0 <= j < |c2.rows| && c2.rows[i] == c2.rows[j] ==>
      c2.data[i] == c2.data[j] by {
      forall i, j | 0 <= i < |c2.rows| && 0 <= j < |c2.rows| && c2.rows[i] == c2.rows[j]
        ensures c2.data[i] == c2.data[j]
      {
        assert c2.data[i] == RowFor(clin, molDf.rows[i]);
        assert c2.data[j] == RowFor(clin, molDf.rows[j]);
      }
    }
    forall x ensures x in DropNullRows(c2).rows <==> x in molDf.rows && x !in NullRowLabels(c2) {
      DropNullRowsByLabel(c2, x);
    }
  }

  /** The three frames right after construction. */
  datatype Aligned = Aligned(molDf: Frame, molDf2: Option<Frame>, clinDf: Option<Frame>)

  predicate AlignedShaped(a: Aligned)
  {
    Shaped(a.molDf) && (a.molDf2.Some? ==> Shaped(a.molDf2.value)) && (a.clinDf.Some? ==> Shaped(a.clinDf.value))
  }

  /** Lines 106-136 after fetching and pruning, on the clinical collection's name. */
  function AlignClinical(st: Store, p: Params, molDf: Frame, molDf2: Option<Frame>): (r: Result<Aligned>)
    requires Shaped(molDf) && (molDf2.Some? ==> Shaped(molDf2.value))
    ensures r.Success? ==> AlignedShaped(r.value)
  {
    if !Truthy(p.clinicalCollection) then Success(Aligned(molDf, molDf2, None))
    else
      match ClinCollToDfSpec(st, p.clinicalCollection.value, p.dataset, p.features, p.samples)
      case Failure(e) => Failure(e)
      case Success(clin) =>
        match ClinicalStep(clin, molDf)
        case Failure(e) => Failure(e)
        case Success(c) => Success(Aligned(c.molDf, molDf2, Some(c.clinDf)))
  }

  /** What the constructor leaves in the three frames, or the exception it raises. */
  function Construct(st: Store, p: Params): (r: Result<Aligned>)
    ensures r.Success? ==> AlignedShaped(r.value)
  {
    match Fetch(st, p)
    case Failure(e) => Failure(e)
    case Success(fetched) =>
      var m := AlignMolecular(fetched.0, p.samples);
      var m2 := if fetched.1.Some? then Some(SortAndPrune(fetched.1.value)) else None;
      AlignClinical(st, p, m, m2)
  }

  const NoMolecularRows := "No non-NA rows in molecular input"
  const NoMolecularRows2 := "No non-NA rows in molecular input2"
  const NoClinicalRows := "No non-NA rows in clinical input"

  /** Lines 138-147: each failing check overwrites the error. */
  function InitialError(a: Aligned, p: Params): Option<string>
  {
    var e1 := if |a.molDf.rows| == 0 then Some(NoMolecularRows) else None;
    var e2 := if Truthy(p.molecularCollection2) && a.molDf2.Some? && |a.molDf2.value.rows| == 0
              then Some(NoMolecularRows2) else e1;
    if Truthy(p.clinicalCollection) && a.clinDf.Some? && |a.clinDf.value.rows| == 0 then Some(NoClinicalRows) else e2
  }

  /** The error is None iff no frame is empty, and otherwise names the last
      empty frame in the order molecular, second molecular, clinical. */
  lemma InitialErrorSpec(st: Store, p: Params)
    requires Construct(st, p).Success?
    ensures var a := Construct(st, p).value;
      var e := InitialError(a, p);
      var mol2Empty := Truthy(p.molecularCollection2) && |a.molDf2.value.rows| == 0;
      var clinEmpty := Truthy(p.clinicalCollection) && |a.clinDf.value.rows| == 0;
      (a.molDf2.Some? <==> Truthy(p.molecularCollection2)) &&
      (a.clinDf.Some? <==> Truthy(p.clinicalCollection)) &&
      (e.None? <==> |a.molDf.rows| > 0 && !mol2Empty && !clinEmpty) &&
      (clinEmpty ==> e == Some(NoClinicalRows)) &&
      (!clinEmpty && mol2Empty ==> e == Some(NoMolecularRows2)) &&
      (!clinEmpty && !mol2Empty && |a.molDf.rows| == 0 ==> e == Some(NoMolecularRows))
  {
    FetchSpec(st, p);
  }

  // ---------------------------------------------------------------------
  // The defect at line 130

  /** The names line 130 can see: the constructor's parameters and the
      locals bound before it. */
  const NamesAtLine130: set<string> :=
    {"self", "dataset", "genes", "samples", "molecular_collection", "molecular_collection2",
     "n_components", "clinical_collection", "features", "then", "diff", "subset",
     "clin_rows_to_drop"}

  const NameErrorAt130 := "NameError: name 'mol_rows_to_drop' is not defined"

  /** Line 130 as written: the name `mol_rows_to_drop` is looked up before
      any row is dropped. */
  function DropMolRowsAsWritten(clin: Frame): Result<Frame>
  {
    if "mol_rows_to_drop" in NamesAtLine130 then Success(clin)
    else Failure(NameErrorAt130)
  }

  /** No name bound before line 130 is `mol_rows_to_drop`, so its lookup
      fails whatever the clinical frame. */
  lemma DropMolRowsAsWrittenRaises(clin: Frame)
    ensures DropMolRowsAsWritten(clin) == Failure(NameErrorAt130)
  {
  }

  /** Lines 113-136 as written: `.loc`, `dropna`, then line 130. */
  function ClinicalStepAsWritten(clin: Frame, molDf: Frame): Result<ClinicalAligned>
    requires Shaped(clin) && Shaped(molDf)
  {
    match Loc(clin, molDf.rows)
    case Failure(e) => Failure(e)
    case Success(c2) =>
      var dropped := NullRowLabels(c2);
      match DropMolRowsAsWritten(DropNullRows(c2))
      case Failure(e) => Failure(e)
      case Success(c3) => Success(ClinicalAligned(c3, DropLabels(molDf, SetOf(dropped))))
  }

  /** The constructor as written: the steps of `Construct`, with the
      clinical step of `ClinicalStepAsWritten`. */
  function ConstructAsWritten(st: Store, p: Params): Result<Aligned>
  {
    match Fetch(st, p)
    case Failure(e) => Failure(e)
    case Success(fetched) =>
      var m := AlignMolecular(fetched.0, p.samples);
      var m2 := if fetched.1.Some? then Some(SortAndPrune(fetched.1.value)) else None;
      if !Truthy(p.clinicalCollection) then Success(Aligned(m, m2, None))
      else
        match ClinCollToDfSpec(st, p.clinicalCollection.value, p.dataset, p.features, p.samples)
        case Failure(e) => Failure(e)
        case Success(clin) =>
          match ClinicalStepAsWritten(clin, m)
          case Failure(e) => Failure(e)
          case Success(c) => Success(Aligned(c.molDf, m2, Some(c.clinDf)))
  }

  /** As written, every construction naming a clinical collection raises:
      `NameError` at line 130 once the fetch, the clinical build and `.loc`
      succeed, and what those raise otherwise.  Without a clinical
      collection it is the corrected construction. */
  lemma ConstructAsWrittenRaises(st: Store, p: Params)
    ensures Truthy(p.clinicalCollection) ==> ConstructAsWritten(st, p).Failure?
    ensures Truthy(p.clinicalCollection) && Construct(st, p).Success? ==>
      ConstructAsWritten(st, p) == Failure(NameErrorAt130)
    ensures Construct(st, p).Failure? ==> ConstructAsWritten(st, p) == Construct(st, p)
    ensures !Truthy(p.clinicalCollection) ==> ConstructAsWritten(st, p) == Construct(st, p)
  {
    match Fetch(st, p)
    case Failure(e) =>
    case Success(fetched) =>
      var m := AlignMolecular(fetched.0, p.samples);
      if Truthy(p.clinicalCollection) {
        match ClinCollToDfSpec(st, p.clinicalCollection.value, p.dataset, p.features, p.samples)
        case Failure(e) =>
        case Success(clin) =>
          DropMolRowsAsWrittenRaises(DropNullRows(LocRows(clin, m.rows)));
      }
  }

  // ---------------------------------------------------------------------
  // The defect behind `self.disease`

  /** The attributes the constructor sets (lines 57-75, 107, 138-139). */
  function InitAttributes(p: Params): set<string>
  {
    {"dataset", "genes", "samples", "molecular_collection", "molecular_collection2",
     "n_components", "clinical_collection", "features", "mol_df", "error", "warning"} +
    (if Truthy(p.molecularCollection2) then {"mol_df2"} else {}) +
    (if Truthy(p.clinicalCollection) then {"clin_df"} else {})
  }

  /** The value a response puts under "disease" had the constructor kept
      the request's `disease` key (JSON null when absent). */
  function DiseaseValue(disease: Option<string>): Json
  {
    if disease.Some? then JStr(disease.value) else JNull
  }

  /** `self.disease` as written: an attribute lookup on the constructed
      wrapper of class `cls`. */
  function DiseaseAsWritten(p: Params, cls: string): Result<Json>
  {
    if "disease" in InitAttributes(p) then Success(DiseaseValue(p.disease))
    else Failure("AttributeError: '" + cls + "' object has no attribute 'disease'")
  }

  /** No construction sets `disease`, so as written every response that
      reads it raises; `mol_df2` and `clin_df` exist iff their collections
      are named. */
  lemma DiseaseNeverSet(p: Params, cls: string)
    ensures "disease" !in InitAttributes(p)
    ensures DiseaseAsWritten(p, cls) == Failure("AttributeError: '" + cls + "' object has no attribute 'disease'")
    ensures "mol_df2" in InitAttributes(p) <==> Truthy(p.molecularCollection2)
    ensures "clin_df" in InitAttributes(p) <==> Truthy(p.clinicalCollection)
  {
  }

  /** The attributes agree with the construction: a successful one holds a
      second molecular frame, or a clinical frame, iff the constructor sets
      that attribute, and it still sets no `disease`. */
  lemma InitAttributesOfConstruct(st: Store, p: Params)
    requires Construct(st, p).Success?
    ensures var a := Construct(st, p).value;
      ("mol_df2" in InitAttributes(p) <==> a.molDf2.Some?) &&
      ("clin_df" in InitAttributes(p) <==> a.clinDf.Some?) &&
      "disease" !in InitAttributes(p)
  {
    InitialErrorSpec(st, p);
    DiseaseNeverSet(p, "");
  }

  // ---------------------------------------------------------------------
  // The wrapper object

  /** Lines 97-99: sort by label, drop the columns under the labels of the
      "NaN"/"NaT" columns, then the null ones. */
  method SortAndPruneSteps(f: Frame) returns (g: Frame)
    requires Shaped(f)
    ensures g == SortAndPrune(f)
  {
    SortRowsSpec(f);
    g := SortRows(f);
    g := DropColumnLabels(g, BadLabels(g, IsNaText));
    g := DropColumnsWhere(g, IsNull);
  }

  class Wrapper {
    var params: Params
    var molDf: Frame
    var molDf2: Option<Frame>
    var clinDf: Option<Frame>
    var error: Option<string>
    var warning: seq<string>

    predicate Holds(a: Aligned)
      reads this
    {
      molDf == a.molDf && molDf2 == a.molDf2 && clinDf == a.clinDf
    }

    /** Lines 57-75: the arguments and the fetched frames. */
    constructor (p: Params, fetched: Frame, fetched2: Option<Frame>)
      ensures params == p && molDf == fetched && molDf2 == fetched2 && clinDf == None
      ensures error == None && warning == []
    {
      params, molDf, molDf2, clinDf := p, fetched, fetched2, None;
      error, warning := None, [];
    }

    /** Lines 93-104: restrict, sort and prune the molecular frames in place. */
    method PruneMolecular()
      requires Shaped(molDf) && (molDf2.Some? ==> Shaped(molDf2.value))
      modifies this
      ensures params == old(params) && clinDf == old(clinDf) && error == old(error) && warning == old(warning)
      ensures molDf == AlignMolecular(old(molDf), params.samples)
      ensures Truthy(params.molecularCollection2) && old(molDf2).Some? ==> molDf2 == Some(SortAndPrune(old(molDf2).value))
      ensures !Truthy(params.molecularCollection2) ==> molDf2 == old(molDf2)
    {
      if |params.samples| > 0 {
        molDf := RestrictToSamples(molDf, params.samples);
      }
      molDf := SortAndPruneSteps(molDf);
      if Truthy(params.molecularCollection2) && molDf2.Some? {
        var m2 := SortAndPruneSteps(molDf2.value);
        molDf2 := Some(m2);
      }
    }

    /** Lines 106-136: fetch the clinical frame, align it with the molecular
        one and drop from both the samples with missing clinical values. */
    method AttachClinical(st: Store) returns (r: Result<()>)
      requires Shaped(molDf) && (molDf2.Some? ==> Shaped(molDf2.value)) && clinDf == None
      modifies this
      ensures params == old(params) && molDf2 == old(molDf2) && error == old(error) && warning == old(warning)
      ensures var a := AlignClinical(st, params, old(molDf), old(molDf2));
        (r.Failure? <==> a.Failure?) &&
        (r.Failure? ==> r.error == a.error) &&
        (r.Success? ==> Holds(a.value))
    {
      if Truthy(params.clinicalCollection) {
        var clin := ClinCollToDf(st, params.clinicalCollection.value, params.dataset, params.features, params.samples);
        if clin.Failure? {
          return Failure(clin.error);
        }
        var located := Loc(clin.value, molDf.rows);
        if located.Failure? {
          return Failure(located.error);
        }
        var c := located.value;
        var clinRowsToDrop := NullRowLabels(c);
        c := DropNullRows(c);
        c := DropLabels(c, {});
        clinDf := Some(c);
        molDf := DropLabels(molDf, SetOf(clinRowsToDrop));
      }
      r := Success(());
    }

    /** Lines 93-136. */
    method Align(st: Store) returns (r: Result<()>)
      requires Shaped(molDf) && (molDf2.Some? ==> Shaped(molDf2.value)) && clinDf == None
      requires molDf2.Some? <==> Truthy(params.molecularCollection2)
      modifies this
      ensures params == old(params) && error == old(error) && warning == old(warning)
      ensures var a := AlignClinical(st, params, AlignMolecular(old(molDf), params.samples),
                                     if old(molDf2).Some? then Some(SortAndPrune(old(molDf2).value)) else None);
        (r.Failure? <==> a.Failure?) &&
        (r.Failure? ==> r.error == a.error) &&
        (r.Success? ==> Holds(a.value))
    {
      PruneMolecular();
      r := AttachClinical(st);
    }

    /** Lines 138-147. */
    method CheckRows()
      modifies this
      ensures params == old(params) && molDf == old(molDf) && molDf2 == old(molDf2) && clinDf == old(clinDf)
      ensures error == InitialError(Aligned(molDf, molDf2, clinDf), params) && warning == []
    {
      error := None;
      warning := [];
      if |molDf.rows| == 0 {
        error := Some(NoMolecularRows);
      }
      if Truthy(params.molecularCollection2) && molDf2.Some? && |molDf2.value.rows| == 0 {
        error := Some(NoMolecularRows2);
      }
      if Truthy(params.clinicalCollection) && clinDf.Some? && |clinDf.value.rows| == 0 {
        error := Some(NoClinicalRows);
      }
    }

    /** `custom_warn_function`: records the warning's text. */
    method CustomWarnFunction(message: string)
      modifies this
      ensures warning == old(warning) + [message]
      ensures params == old(params) && molDf == old(molDf) && molDf2 == old(molDf2)
      ensures clinDf == old(clinDf) && error == old(error)
    {
      warning := warning + [message];
    }
  }

  /** `AbstractAlgorithmWrapper(...)`: the constructed wrapper, or the
      exception construction raises. */
  method Create(st: Store, p: Params) returns (r: Result<Wrapper>)
    ensures r.Failure? <==> Construct(st, p).Failure?
    ensures r.Failure? ==> r.error == Construct(st, p).error
    ensures r.Success? ==> fresh(r.value) && r.value.params == p && r.value.Holds(Construct(st, p).value)
    ensures r.Success? ==> r.value.error == InitialError(Construct(st, p).value, p) && r.value.warning == []
  {
    var fetched := Fetch(st, p);
    FetchSpec(st, p);
    if fetched.Failure? {
      return Failure(fetched.error);
    }
    var w := new Wrapper(p, fetched.value.0, fetched.value.1);
    var aligned := w.Align(st);
    if aligned.Failure? {
      return Failure(aligned.error);
    }
    w.CheckRows();
    r := Success(w);
  }

  // ---------------------------------------------------------------------
  // warnings.showwarning

  /** The process-wide warning handler: the stock one, or a wrapper's
      `custom_warn_function`. */
  datatype Handler = Stock | Collect(target: Wrapper)

  class WarningFilters {
    var showWarning: Handler

    constructor ()
      ensures showWarning == Stock
    {
      showWarning := Stock;
    }

    /** A warning raised while `showWarning` is installed. */
    method Emit(message: string)
      modifies if showWarning.Collect? then {showWarning.target} else {}
      ensures showWarning == old(showWarning)
      ensures showWarning.Collect? ==>
        var w := showWarning.target;
        w.warning == old(w.warning) + [message] && w.error == old(w.error) &&
        w.params == old(w.params) && w.molDf == old(w.molDf) && w.molDf2 == old(w.molDf2) && w.clinDf == old(w.clinDf)
    {
      if showWarning.Collect? {
        showWarning.target.CustomWarnFunction(message);
      }
    }

    /** The warnings a numeric routine emits, in order. */
    method EmitAll(messages: seq<string>)
      modifies if showWarning.Collect? then {showWarning.target} else {}
      ensures showWarning == old(showWarning)
      ensures showWarning.Collect? ==>
        var w := showWarning.target;
        w.warning == old(w.warning) + messages && w.error == old(w.error) &&
        w.params == old(w.params) && w.molDf == old(w.molDf) && w.molDf2 == old(w.molDf2) && w.clinDf == old(w.clinDf)
    {
      for i := 0 to |messages|
        invariant showWarning == old(showWarning)
        invariant showWarning.Collect? ==>
          var w := showWarning.target;
          w.warning == old(w.warning) + messages[..i] && w.error == old(w.error) &&
          w.params == old(w.params) && w.molDf == old(w.molDf) && w.molDf2 == old(w.molDf2) && w.clinDf == old(w.clinDf)
      {
        Emit(messages[i]);
        assert messages[..i + 1] == messages[..i] + [messages[i]];
      }
      assert messages[..|messages|] == messages;
    }
  }

  // ---------------------------------------------------------------------
  // The part every run_algorithm shares

  /** What a run leaves in `error` and `warning`, and what it returns or raises. */
  datatype RunState = RunState(error: Option<string>, warning: seq<string>, result: Outcome<map<string, Json>>)

  /** The error, the warnings and the routine's result after it ran. */
  datatype Fitted<T> = Fitted(error: Option<string>, warning: seq<string>, value: Option<T>)

  /** Install the collector, run the routine unless an error is already set
      (its exception's text becoming the error), restore the handler. */
  function FitPhase<T>(error: Option<string>, warning: seq<string>, c: Computation<T>): Fitted<T>
  {
    if Truthy(error) then Fitted(error, warning, None)
    else
      match c.outcome
      case Raised(msg) => Fitted(Some(msg), warning + c.warnings, None)
      case Returned(v) => Fitted(error, warning + c.warnings, Some(v))
  }

  /** A set error skips the routine and survives it; otherwise the routine's
      warnings follow the earlier ones, and its result is there iff it
      returned, in which case the error is untouched. */
  lemma FitPhaseSpec<T>(error: Option<string>, warning: seq<string>, c: Computation<T>)
    ensures var f := FitPhase(error, warning, c);
      (Truthy(error) ==> f.error == error && f.warning == warning && f.value.None?) &&
      (!Truthy(error) ==> f.warning == warning + c.warnings) &&
      (f.value.Some? <==> !Truthy(error) && c.outcome.Returned?) &&
      (f.value.Some? ==> f.value.value == c.outcome.value && f.error == error) &&
      (!Truthy(error) && c.outcome.Raised? ==> f.error == Some(c.outcome.msg)) &&
      (Truthy(f.error) || f.value.Some? || (c.outcome.Raised? && c.outcome.msg == ""))
  {
  }

  /** The "warning" entry: present only when some warning was collected. */
  function WarningField(warning: seq<string>): map<string, Json>
  {
    if |warning| > 0 then map["warning" := Strings(warning)] else map[]
  }

  /** Adding the results and the "warning" entry to the base object keeps
      the base's entries, adds no reason, and has a "warning" entry iff
      some warning was collected. */
  lemma WithWarningField(base: map<string, Json>, ret2: map<string, Json>, warning: seq<string>, k: string)
    requires "reason" !in base && "warning" !in base && "reason" !in ret2 && "warning" !in ret2
    requires k in base && k !in ret2 && k != "warning"
    ensures var obj := base + ret2 + WarningField(warning);
      "reason" !in obj && ("warning" in obj <==> |warning| > 0) && k in obj && obj[k] == base[k]
  {
  }

  /** The fit step of `run_algorithm`, with `warnings.showwarning` swapped
      for the wrapper's collector and then restored. */
  method Fit<T>(w: Wrapper, filters: WarningFilters, c: Computation<T>) returns (value: Option<T>)
    modifies w, filters
    ensures filters.showWarning == old(filters.showWarning)
    ensures var f := FitPhase(old(w.error), old(w.warning), c);
      w.error == f.error && w.warning == f.warning && value == f.value
    ensures w.params == old(w.params) && w.molDf == old(w.molDf) && w.molDf2 == old(w.molDf2) && w.clinDf == old(w.clinDf)
  {
    var oldShowWarning := filters.showWarning;
    filters.showWarning := Collect(w);
    value := None;
    if !Truthy(w.error) {
      filters.EmitAll(c.warnings);
      match c.outcome
      case Raised(msg) =>
        w.error := Some(msg);
      case Returned(v) =>
        value := Some(v);
    }
    filters.showWarning := oldShowWarning;
  }
}

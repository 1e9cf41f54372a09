/** The document store the wrappers read from, as a value: molecular
    collections (one record per gene), clinical collections (one record per
    patient) and the sample maps, each collection in its stored order.
    A collection the store does not hold reads as empty, as it does in the
    database. */
module RecordStore {
  import opened Wrappers
  import opened Order
  import opened Frames
  import opened SampleMaps

  /** A clinical record: its `patient_ID` and its other fields. */
  datatype ClinRecord = ClinRecord(patient: string, fields: map<string, Cell>)

  datatype Store = Store(
    molecular: map<string, seq<MolRecord>>,
    clinical: map<string, seq<ClinRecord>>,
    samplemaps: map<string, SampleMap>)

  /** The elements of `xs` satisfying `p`, in order. */
  function Filter<T(!new)>(xs: seq<T>, p: T -> bool): (r: seq<T>)
    ensures |r| <= |xs|
    ensures forall x :: x in r <==> x in xs && p(x)
  {
    if xs == [] then [] else (if p(xs[0]) then [xs[0]] else []) + Filter(xs[1..], p)
  }

  lemma {:induction false} FilterAll<T(!new)>(xs: seq<T>, p: T -> bool)
    requires forall x :: x in xs ==> p(x)
    ensures Filter(xs, p) == xs
  {
    if xs != [] {
      FilterAll(xs[1..], p);
      assert xs == [xs[0]] + xs[1..];
    }
  }

  function Collection<T>(m: map<string, seq<T>>, name: string): seq<T>
  {
    if name in m then m[name] else []
  }

  /** The query `{"id": {"$in": genes}}` when a gene list is given, `{}` otherwise. */
  function GeneQuery(genes: seq<string>): Option<seq<string>>
  {
    if |genes| == 0 then None else Some(genes)
  }

  function HasId(genes: seq<string>): MolRecord -> bool
  {
    (r: MolRecord) => r.id in genes
  }

  /** `db[collection].find(query)` on a molecular collection. */
  function FindMolecular(st: Store, collection: string, genes: Option<seq<string>>): (r: seq<MolRecord>)
    ensures genes.None? ==> r == Collection(st.molecular, collection)
    ensures genes.Some? ==> forall x :: x in r <==> x in Collection(st.molecular, collection) && x.id in genes.value
  {
    if genes.None? then Collection(st.molecular, collection)
    else Filter(Collection(st.molecular, collection), HasId(genes.value))
  }

  /** Filtering on a list naming every gene of the collection finds every record. */
  lemma FindAllGenes(st: Store, collection: string, genes: seq<string>)
    requires forall x :: x in Collection(st.molecular, collection) ==> x.id in genes
    ensures FindMolecular(st, collection, Some(genes)) == FindMolecular(st, collection, None)
  {
    FilterAll(Collection(st.molecular, collection), HasId(genes));
  }

  /** `get_data_frame`: the cursor's frame with its rows sorted by label. */
  function GetDataFrame(st: Store, collection: string, genes: Option<seq<string>>): (r: Result<Frame>)
    ensures r.Success? ==> Shaped(r.value)
  {
    match CursorToDataFrame2(FindMolecular(st, collection, genes))
    case Failure(e) => Failure(e)
    case Success(f) =>
      CursorToDataFrame2Spec(FindMolecular(st, collection, genes));
      SortRowsSpec(f);
      Success(SortRows(f))
  }

  /** A fetched frame has ascending row labels, the records' ids as columns,
      and fails exactly when building the cursor's frame does. */
  lemma GetDataFrameSpec(st: Store, collection: string, genes: Option<seq<string>>)
    ensures var c := FindMolecular(st, collection, genes);
      GetDataFrame(st, collection, genes).Failure? <==> CursorToDataFrame2(c).Failure?
    ensures var r := GetDataFrame(st, collection, genes);
      var c := FindMolecular(st, collection, genes);
      r.Success? ==>
        Sorted(r.value.rows) &&
        (forall x :: x in r.value.cols <==> exists i :: 0 <= i < |c| && c[i].id == x) &&
        (c != [] ==> multiset(r.value.rows) == multiset(c[0].m))
  {
    var c := FindMolecular(st, collection, genes);
    CursorToDataFrame2Spec(c);
    if CursorToDataFrame2(c).Success? {
      var f := CursorToDataFrame2(c).value;
      SortRowsSpec(f);
      var r := SortRows(f);
      forall x ensures x in r.cols <==> exists i :: 0 <= i < |c| && c[i].id == x {
        if x in r.cols {
          var i :| 0 <= i < |f.cols| && f.cols[i] == x;
        }
        if exists i :: 0 <= i < |c| && c[i].id == x {
          var i :| 0 <= i < |c| && c[i].id == x;
          assert f.cols[i] == x;
        }
      }
      SortRowsLabels(f);
    }
  }

  function HasPatient(pts: seq<string>): ClinRecord -> bool
  {
    (r: ClinRecord) => r.patient in pts
  }

  /** `db[collection].find(query)` on a clinical collection; the query is
      `{"patient_ID": {"$in": pts}}` when a patient list is given. */
  function FindClinical(st: Store, collection: string, pts: Option<seq<string>>): (r: seq<ClinRecord>)
    ensures pts.None? ==> r == Collection(st.clinical, collection)
    ensures pts.Some? ==> forall x :: x in r <==> x in Collection(st.clinical, collection) && x.patient in pts.value
  {
    if pts.None? then Collection(st.clinical, collection)
    else Filter(Collection(st.clinical, collection), HasPatient(pts.value))
  }

  /** `db[name].find_one()`: None when the collection holds no document. */
  function FindSampleMap(st: Store, name: string): Option<SampleMap>
  {
    if name in st.samplemaps then Some(st.samplemaps[name]) else None
  }
}

/** `clin_coll_to_df`: the clinical frame, one row per clinical record,
    labelled with the record's sample id (through the inverted sample map)
    and holding the requested features, sorted by label. */
module Clinical {
  import opened Wrappers
  import opened Order
  import opened Frames
  import opened SampleMaps
  import opened RecordStore

  // ---------------------------------------------------------------------
  // One record's row

  /** The position of the first feature the record lacks (the loop's
      `break`), or the number of features when it has them all. */
  function Present(features: seq<string>, fields: map<string, Cell>): (n: nat)
    ensures n <= |features|
    ensures forall k :: 0 <= k < n ==> features[k] in fields
    ensures n < |features| ==> features[n] !in fields
  {
    if features == [] then 0
    else if features[0] !in fields then 0
    else
      var n := Present(features[1..], fields);
      assert forall k :: 0 < k <= n ==> features[k] == features[1..][k - 1];
      1 + n
  }

  /** The first feature that is missing is at the first position whose
      feature is missing. */
  lemma PresentIsFirst(features: seq<string>, fields: map<string, Cell>, j: nat)
    requires j <= |features| && forall k :: 0 <= k < j ==> features[k] in fields
    requires j < |features| ==> features[j] !in fields
    ensures Present(features, fields) == j
  {
  }

  /** The keys of a dict filled from `xs` in order: each at its first
      occurrence. */
  function Dedup(xs: seq<string>): (r: seq<string>)
    ensures Distinct(r) && forall x :: x in r <==> x in xs
  {
    if xs == [] then []
    else
      var d := Dedup(xs[..|xs| - 1]);
      assert forall x :: x in xs <==> x in xs[..|xs| - 1] || x == xs[|xs| - 1] by {
        assert xs == xs[..|xs| - 1] + [xs[|xs| - 1]];
      }
      if xs[|xs| - 1] in d then d else d + [xs[|xs| - 1]]
  }

  /** One more element of `xs`: added unless already a key. */
  lemma DedupPrefix(xs: seq<string>, j: nat)
    requires j < |xs|
    ensures Dedup(xs[..j + 1]) == if xs[j] in Dedup(xs[..j]) then Dedup(xs[..j]) else Dedup(xs[..j]) + [xs[j]]
  {
    assert xs[..j + 1][..j] == xs[..j];
  }

  lemma DedupDistinct(xs: seq<string>)
    requires Distinct(xs)
    ensures Dedup(xs) == xs
    decreases |xs|
  {
    if xs != [] {
      DedupDistinct(xs[..|xs| - 1]);
      assert xs == xs[..|xs| - 1] + [xs[|xs| - 1]];
    }
  }

  /** The keys of `rowhash`: the features before the first missing one. */
  function RowKeys(features: seq<string>, fields: map<string, Cell>): (ks: seq<string>)
    ensures Distinct(ks) && forall c :: c in ks ==> c in fields
  {
    var n := Present(features, fields);
    assert forall c :: c in features[..n] ==> c in fields;
    Dedup(features[..n])
  }

  /** A feature is a column of the record's row iff it comes before the
      first feature the record lacks. */
  lemma RowKeysSpec(features: seq<string>, fields: map<string, Cell>, c: string)
    ensures c in RowKeys(features, fields) <==>
      exists k :: 0 <= k < Present(features, fields) && features[k] == c
  {
    var n := Present(features, fields);
    if c in features[..n] {
      var k :| 0 <= k < n && features[..n][k] == c;
    }
    if exists k :: 0 <= k < n && features[k] == c {
      var k :| 0 <= k < n && features[k] == c;
      assert features[..n][k] == c;
    }
  }

  /** A record holding every feature contributes every feature, in order. */
  lemma RowKeysAll(features: seq<string>, fields: map<string, Cell>)
    requires Distinct(features) && forall c :: c in features ==> c in fields
    ensures RowKeys(features, fields) == features
  {
    PresentIsFirst(features, fields, |features|);
    assert features[..|features|] == features;
    DedupDistinct(features);
  }

  /** `pd.DataFrame(rowhash, index=[key])`. */
  function RowFrame(key: string, features: seq<string>, fields: map<string, Cell>): (r: Frame)
    ensures Shaped(r) && r.rows == [key] && r.cols == RowKeys(features, fields)
  {
    var ks := RowKeys(features, fields);
    Frame([key], ks, [seq(|ks|, k requires 0 <= k < |ks| => fields[ks[k]])])
  }

  /** What the record's row holds under column `c`: its value when `c` is one
      of the row's keys, null otherwise. */
  function RowCell(features: seq<string>, fields: map<string, Cell>, c: string): Cell
  {
    if c in RowKeys(features, fields) then fields[c] else Null
  }

  // ---------------------------------------------------------------------
  // DataFrame.append

  /** The cell of row `i` under column label `c`, null when there is no such
      column. */
  function CellAt(f: Frame, i: nat, c: string): Cell
    requires Shaped(f) && i < |f.rows|
  {
    if c in f.cols then f.data[i][IndexOf(f.cols, c)] else Null
  }

  lemma RowFrameCell(key: string, features: seq<string>, fields: map<string, Cell>, c: string)
    ensures CellAt(RowFrame(key, features, fields), 0, c) == RowCell(features, fields, c)
  {
  }

  /** The rows of `f` laid out under `cols`. */
  function Reindex(f: Frame, cols: seq<string>): (d: seq<seq<Cell>>)
    requires Shaped(f)
    ensures |d| == |f.rows|
    ensures forall i :: 0 <= i < |d| ==> |d[i]| == |cols|
    ensures forall i, k :: 0 <= i < |d| && 0 <= k < |cols| ==> d[i][k] == CellAt(f, i, cols[k])
  {
    seq(|f.rows|, i requires 0 <= i < |f.rows| =>
      seq(|cols|, k requires 0 <= k < |cols| => CellAt(f, i, cols[k])))
  }

  /** The columns of `a.append(b)`: kept when both lists are equal,
      otherwise their sorted union. */
  function UnionColumns(a: seq<string>, b: seq<string>): seq<string>
  {
    if a == b then a else SortedSet(SetOf(a) + SetOf(b))
  }

  /** `a.append(b)` as pandas 0.2x does it: a frame with neither rows nor
      columns is dropped; otherwise rows are stacked and a cell under a
      column its frame lacked is null. */
  function Append(a: Frame, b: Frame): (r: Frame)
    requires Shaped(a) && Shaped(b)
    ensures Shaped(r) && r.rows == a.rows + b.rows
  {
    if |a.rows| + |a.cols| == 0 then b
    else
      var cols := UnionColumns(a.cols, b.cols);
      Frame(a.rows + b.rows, cols, Reindex(a, cols) + Reindex(b, cols))
  }

  lemma UnionColumnsSpec(a: seq<string>, b: seq<string>)
    requires Distinct(a) && Distinct(b)
    ensures Distinct(UnionColumns(a, b))
    ensures SetOf(UnionColumns(a, b)) == SetOf(a) + SetOf(b)
  {
    if a != b {
      SortedSetSpec(SetOf(a) + SetOf(b));
    }
  }

  /** The columns of an append are the union of both frames' columns, with
      no label twice. */
  lemma AppendColumns(a: Frame, b: Frame)
    requires Shaped(a) && Shaped(b) && Distinct(a.cols) && Distinct(b.cols)
    ensures Distinct(Append(a, b).cols)
    ensures SetOf(Append(a, b).cols) == SetOf(a.cols) + SetOf(b.cols)
  {
    UnionColumnsSpec(a.cols, b.cols);
  }

  /** Each row of an append holds, under every column label, what it held
      in the frame it came from. */
  lemma AppendCells(a: Frame, b: Frame, i: nat, c: string)
    requires Shaped(a) && Shaped(b) && Distinct(a.cols) && Distinct(b.cols)
    requires i < |a.rows| + |b.rows|
    ensures CellAt(Append(a, b), i, c) ==
      if i < |a.rows| then CellAt(a, i, c) else CellAt(b, i - |a.rows|, c)
  {
    if |a.rows| + |a.cols| != 0 {
      var r := Append(a, b);
      AppendColumns(a, b);
      if c in r.cols {
        var k := IndexOf(r.cols, c);
        assert r.data[i] == (Reindex(a, r.cols) + Reindex(b, r.cols))[i];
      } else {
        assert c !in SetOf(a.cols) && c !in SetOf(b.cols);
      }
    }
  }

  // ---------------------------------------------------------------------
  // The loop over the cursor

  /** The frame the loop has built from the records `recs`; a patient the
      inverse map lacks is the KeyError of `pt_sample_map[...]`. */
  function Build(recs: seq<ClinRecord>, inverse: map<string, string>, features: seq<string>): (r: Result<Frame>)
    ensures r.Success? ==> Shaped(r.value) && Distinct(r.value.cols) && |r.value.rows| == |recs|
  {
    if recs == [] then Success(Empty)
    else
      var b := Build(recs[..|recs| - 1], inverse, features);
      if b.Failure? then b else Step(b.value, recs[|recs| - 1], inverse, features)
  }

  /** One turn of the loop: look the patient up, then append its row. */
  function Step(d: Frame, rec: ClinRecord, inverse: map<string, string>, features: seq<string>): (r: Result<Frame>)
    requires Shaped(d) && Distinct(d.cols)
    ensures r.Failure? <==> rec.patient !in inverse
    ensures r.Success? ==> Shaped(r.value) && Distinct(r.value.cols) && |r.value.rows| == |d.rows| + 1
  {
    if rec.patient !in inverse then Failure("KeyError: " + rec.patient)
    else
      var row := RowFrame(inverse[rec.patient], features, rec.fields);
      AppendColumns(d, row);
      Success(Append(d, row))
  }

  /** Building fails iff some record's patient is missing from the inverse map. */
  lemma {:induction false} BuildFails(recs: seq<ClinRecord>, inverse: map<string, string>, features: seq<string>)
    ensures Build(recs, inverse, features).Failure? <==>
      exists i :: 0 <= i < |recs| && recs[i].patient !in inverse
  {
    if recs != [] {
      var init := recs[..|recs| - 1];
      var last := recs[|recs| - 1];
      BuildFails(init, inverse, features);
      if exists i :: 0 <= i < |recs| && recs[i].patient !in inverse {
        var i :| 0 <= i < |recs| && recs[i].patient !in inverse;
        if i < |init| {
          assert init[i] == recs[i];
        } else {
          assert last.patient !in inverse;
        }
      } else {
        assert forall i :: 0 <= i < |init| ==> init[i].patient in inverse by {
          forall i | 0 <= i < |init| ensures init[i].patient in inverse {
            assert init[i] == recs[i];
          }
        }
        assert last.patient in inverse;
      }
    }
  }

  /** Once a prefix fails, the whole build fails with the same error. */
  lemma {:induction false} BuildFailureSticks(recs: seq<ClinRecord>, j: nat, inverse: map<string, string>, features: seq<string>)
    requires j <= |recs| && Build(recs[..j], inverse, features).Failure?
    ensures Build(recs, inverse, features) == Build(recs[..j], inverse, features)
    decreases |recs| - j
  {
    if j < |recs| {
      assert recs[..j + 1][..j] == recs[..j];
      BuildFailureSticks(recs, j + 1, inverse, features);
    } else {
      assert recs[..j] == recs;
    }
  }

  /** A build that gets past the first `|recs| - 1` records, and the frame it
      had built by then. */
  lemma BuildStep(recs: seq<ClinRecord>, inverse: map<string, string>, features: seq<string>)
    requires recs != [] && Build(recs, inverse, features).Success?
    ensures Build(recs[..|recs| - 1], inverse, features).Success?
    ensures recs[|recs| - 1].patient in inverse
    ensures Build(recs, inverse, features).value ==
      Append(Build(recs[..|recs| - 1], inverse, features).value,
             RowFrame(inverse[recs[|recs| - 1].patient], features, recs[|recs| - 1].fields))
  {
  }

  /** A successful build has one row per record, in cursor order, labelled
      with the record's sample id. */
  lemma {:induction false} BuildRows(recs: seq<ClinRecord>, inverse: map<string, string>, features: seq<string>)
    requires Build(recs, inverse, features).Success?
    ensures var f := Build(recs, inverse, features).value;
      |f.rows| == |recs| &&
      forall i :: 0 <= i < |recs| ==> recs[i].patient in inverse && f.rows[i] == inverse[recs[i].patient]
  {
    if recs != [] {
      var init := recs[..|recs| - 1];
      BuildStep(recs, inverse, features);
      BuildRows(init, inverse, features);
      assert forall i :: 0 <= i < |init| ==> init[i] == recs[i];
    }
  }

  /** Some record of `recs` contributes the key `c` to its row. */
  predicate Contributes(recs: seq<ClinRecord>, features: seq<string>, c: string)
  {
    exists i :: 0 <= i < |recs| && c in RowKeys(features, recs[i].fields)
  }

  lemma ContributesSnoc(recs: seq<ClinRecord>, features: seq<string>, c: string)
    requires recs != []
    ensures Contributes(recs, features, c) <==>
      Contributes(recs[..|recs| - 1], features, c) || c in RowKeys(features, recs[|recs| - 1].fields)
  {
    var init := recs[..|recs| - 1];
    if Contributes(recs, features, c) {
      var i :| 0 <= i < |recs| && c in RowKeys(features, recs[i].fields);
      if i < |init| {
        assert init[i] == recs[i];
      }
    }
    if Contributes(init, features, c) {
      var i :| 0 <= i < |init| && c in RowKeys(features, init[i].fields);
      assert init[i] == recs[i];
    }
  }

  /** The columns of a successful build are the keys some record contributes. */
  lemma {:induction false} BuildColumns(recs: seq<ClinRecord>, inverse: map<string, string>, features: seq<string>)
    requires Build(recs, inverse, features).Success?
    ensures forall c :: c in SetOf(Build(recs, inverse, features).value.cols) <==> Contributes(recs, features, c)
  {
    if recs != [] {
      var init := recs[..|recs| - 1];
      var last := recs[|recs| - 1];
      BuildStep(recs, inverse, features);
      BuildColumns(init, inverse, features);
      var d := Build(init, inverse, features).value;
      var row := RowFrame(inverse[last.patient], features, last.fields);
      AppendColumns(d, row);
      forall c {
        ContributesSnoc(recs, features, c);
      }
    }
  }

  /** Appending a record's row keeps the cells of the rows before it and
      puts the record's cells in the new last row. */
  lemma SnocCell(d: Frame, key: string, features: seq<string>, fields: map<string, Cell>, i: nat, c: string)
    requires Shaped(d) && Distinct(d.cols) && i <= |d.rows|
    ensures CellAt(Append(d, RowFrame(key, features, fields)), i, c) ==
      if i < |d.rows| then CellAt(d, i, c) else RowCell(features, fields, c)
  {
    var row := RowFrame(key, features, fields);
    AppendCells(d, row, i, c);
    if i == |d.rows| {
      RowFrameCell(key, features, fields, c);
    }
  }

  /** Under every column label, each row of a successful build holds its
      record's value, or null when the record did not contribute that key. */
  lemma {:induction false} BuildCells(recs: seq<ClinRecord>, inverse: map<string, string>, features: seq<string>,
                                      i: nat, c: string)
    requires Build(recs, inverse, features).Success? && i < |recs|
    ensures CellAt(Build(recs, inverse, features).value, i, c) == RowCell(features, recs[i].fields, c)
  {
    var init := recs[..|recs| - 1];
    var last := recs[|recs| - 1];
    BuildStep(recs, inverse, features);
    var d := Build(init, inverse, features).value;
    SnocCell(d, inverse[last.patient], features, last.fields, i, c);
    if i < |init| {
      BuildCells(init, inverse, features, i, c);
      assert init[i] == recs[i];
    }
  }

  // ---------------------------------------------------------------------
  // The whole function

  function MapName(dataset: Option<string>): string
  {
    (if dataset.None? then "None" else dataset.value) + "_samplemap"
  }

  /** `[sample_pt_map[x] for x in samples]`: the KeyError of the first
      sample the map lacks. */
  function WantedPatients(m: SampleMap, samples: seq<string>): (r: Result<seq<string>>)
    ensures r.Failure? <==> exists x :: x in samples && Lookup(m, x).None?
    ensures r.Success? ==> |r.value| == |samples|
    ensures r.Success? ==> forall i :: 0 <= i < |samples| ==> Lookup(m, samples[i]) == Some(r.value[i])
  {
    if samples == [] then Success([])
    else
      var init := samples[..|samples| - 1];
      var x := samples[|samples| - 1];
      assert forall y :: y in samples <==> y in init || y == x by {
        assert samples == init + [x];
      }
      match WantedPatients(m, init)
      case Failure(e) => Failure(e)
      case Success(ps) =>
        if Lookup(m, x).None? then Failure("KeyError: " + x)
        else Success(ps + [Lookup(m, x).value])
  }

  /** What `clin_coll_to_df` returns or raises, in the order the source
      meets the errors: subscripting a missing sample map or a missing
      sample, `features + [...]` with no features, `.items()` on a missing
      sample map, and a patient the inverted map lacks. */
  function ClinCollToDfSpec(st: Store, clinicalCollection: string, dataset: Option<string>,
                            features: Option<seq<string>>, samples: seq<string>): (r: Result<Frame>)
    ensures r.Success? ==> Shaped(r.value)
  {
    var smap := FindSampleMap(st, MapName(dataset));
    if |samples| > 0 && smap.None? then Failure("TypeError: 'NoneType' object is not subscriptable")
    else if |samples| > 0 && WantedPatients(smap.value, samples).Failure? then
      Failure(WantedPatients(smap.value, samples).error)
    else if features.None? then
      Failure("TypeError: unsupported operand type(s) for +: 'NoneType' and 'list'")
    else if smap.None? then Failure("AttributeError: 'NoneType' object has no attribute 'items'")
    else
      var pts := if |samples| > 0 then Some(WantedPatients(smap.value, samples).value) else None;
      var cursor := FindClinical(st, clinicalCollection, pts);
      match Build(cursor, Invert(smap.value), features.value)
      case Failure(e) => Failure(e)
      case Success(f) => SortRowsSpec(f); Success(SortRows(f))
  }

  /** The records the query finds, once the function gets past its error
      checks. */
  function Cursor(st: Store, clinicalCollection: string, smap: SampleMap, samples: seq<string>): seq<ClinRecord>
    requires |samples| > 0 ==> WantedPatients(smap, samples).Success?
  {
    FindClinical(st, clinicalCollection, if |samples| > 0 then Some(WantedPatients(smap, samples).value) else None)
  }

  function SampleIds(cursor: seq<ClinRecord>, inverse: map<string, string>): seq<string>
    requires forall i :: 0 <= i < |cursor| ==> cursor[i].patient in inverse
  {
    seq(|cursor|, i requires 0 <= i < |cursor| => inverse[cursor[i].patient])
  }

  /** The success case unfolded: the sample map exists, every requested
      sample is in it and features are given. */
  lemma ClinCollToDfPasses(st: Store, clinicalCollection: string, dataset: Option<string>,
                           features: Option<seq<string>>, samples: seq<string>)
    requires ClinCollToDfSpec(st, clinicalCollection, dataset, features, samples).Success?
    ensures FindSampleMap(st, MapName(dataset)).Some? && features.Some?
    ensures |samples| > 0 ==> WantedPatients(FindSampleMap(st, MapName(dataset)).value, samples).Success?
  {
  }

  /** ... and the build over the records the query finds succeeds. */
  lemma ClinCollToDfSuccess(st: Store, clinicalCollection: string, dataset: Option<string>,
                            features: Option<seq<string>>, samples: seq<string>)
    requires ClinCollToDfSpec(st, clinicalCollection, dataset, features, samples).Success?
    ensures FindSampleMap(st, MapName(dataset)).Some? && features.Some?
    ensures |samples| > 0 ==> WantedPatients(FindSampleMap(st, MapName(dataset)).value, samples).Success?
    ensures var smap := FindSampleMap(st, MapName(dataset)).value;
      var b := Build(Cursor(st, clinicalCollection, smap, samples), Invert(smap), features.value);
      b.Success? && ClinCollToDfSpec(st, clinicalCollection, dataset, features, samples).value == SortRows(b.value)
  {
    ClinCollToDfPasses(st, clinicalCollection, dataset, features, samples);
  }

  /** The clinical frame's labels ascend and are, with multiplicity, the
      sample ids of the records the query finds; its columns are the
      features some record contributes, with no feature twice. */
  lemma ClinCollToDfRows(st: Store, clinicalCollection: string, dataset: Option<string>,
                         features: Option<seq<string>>, samples: seq<string>)
    requires ClinCollToDfSpec(st, clinicalCollection, dataset, features, samples).Success?
    ensures FindSampleMap(st, MapName(dataset)).Some? && features.Some?
    ensures |samples| > 0 ==> WantedPatients(FindSampleMap(st, MapName(dataset)).value, samples).Success?
    ensures var smap := FindSampleMap(st, MapName(dataset)).value;
      var cursor := Cursor(st, clinicalCollection, smap, samples);
      var f := ClinCollToDfSpec(st, clinicalCollection, dataset, features, samples).value;
      Sorted(f.rows) && Distinct(f.cols) &&
      (forall i :: 0 <= i < |cursor| ==> cursor[i].patient in Invert(smap)) &&
      multiset(f.rows) == multiset(SampleIds(cursor, Invert(smap))) &&
      (forall c :: c in f.cols <==> Contributes(cursor, features.value, c))
  {
    ClinCollToDfSuccess(st, clinicalCollection, dataset, features, samples);
    var smap := FindSampleMap(st, MapName(dataset)).value;
    var cursor := Cursor(st, clinicalCollection, smap, samples);
    var b := Build(cursor, Invert(smap), features.value).value;
    BuildRows(cursor, Invert(smap), features.value);
    BuildColumns(cursor, Invert(smap), features.value);
    SortRowsSpec(b);
    SortRowsLabels(b);
    assert b.rows == SampleIds(cursor, Invert(smap));
    forall c ensures c in SortRows(b).cols <==> c in SetOf(b.cols) {
    }
  }

  /** A requested sample the map lacks is a KeyError, whatever else holds. */
  lemma MissingSampleFails(st: Store, clinicalCollection: string, dataset: Option<string>,
                           features: Option<seq<string>>, samples: seq<string>, x: string)
    requires x in samples
    requires FindSampleMap(st, MapName(dataset)).Some? ==> Lookup(FindSampleMap(st, MapName(dataset)).value, x).None?
    ensures ClinCollToDfSpec(st, clinicalCollection, dataset, features, samples).Failure?
  {
  }

  // ---------------------------------------------------------------------
  // The loops

  /** One turn of the inner loop keeps the dict's keys those of `Dedup` and
      its values the record's. */
  lemma RowHashStep(features: seq<string>, fields: map<string, Cell>, j: nat, keys: seq<string>, vals: map<string, Cell>)
    requires j < |features| && features[j] in fields && keys == Dedup(features[..j])
    requires forall c :: c in vals <==> c in keys
    requires forall c :: c in vals ==> c in fields && vals[c] == fields[c]
    ensures var keys' := if features[j] in keys then keys else keys + [features[j]];
      var vals' := vals[features[j] := fields[features[j]]];
      keys' == Dedup(features[..j + 1]) &&
      (forall c :: c in vals' <==> c in keys') &&
      (forall c :: c in vals' ==> c in fields && vals'[c] == fields[c])
  {
    DedupPrefix(features, j);
  }

  /** The inner loop: copies features until the first one the record lacks. */
  method RowHash(features: seq<string>, fields: map<string, Cell>) returns (keys: seq<string>, vals: map<string, Cell>)
    ensures keys == RowKeys(features, fields)
    ensures forall c :: c in vals <==> c in keys
    ensures forall c :: c in vals ==> c in fields && vals[c] == fields[c]
  {
    keys, vals := [], map[];
    var j := 0;
    while j < |features|
      invariant j <= |features|
      invariant forall k :: 0 <= k < j ==> features[k] in fields
      invariant keys == Dedup(features[..j])
      invariant forall c :: c in vals <==> c in keys
      invariant forall c :: c in vals ==> c in fields && vals[c] == fields[c]
    {
      if features[j] !in fields {
        break;
      }
      RowHashStep(features, fields, j, keys, vals);
      var f := features[j];
      keys := if f in keys then keys else keys + [f];
      vals := vals[f := fields[f]];
      j := j + 1;
    }
    assert j == |features| || features[j] !in fields;
    PresentIsFirst(features, fields, j);
  }

  /** `clin_coll_to_df`, looping over the cursor and appending one row per record. */
  method ClinCollToDf(st: Store, clinicalCollection: string, dataset: Option<string>,
                      features: Option<seq<string>>, samples: seq<string>) returns (r: Result<Frame>)
    ensures r == ClinCollToDfSpec(st, clinicalCollection, dataset, features, samples)
  {
    var smap := FindSampleMap(st, MapName(dataset));
    ghost var spec := ClinCollToDfSpec(st, clinicalCollection, dataset, features, samples);
    var pts: Option<seq<string>> := None;
    if |samples| > 0 {
      if smap.None? {
        return Failure("TypeError: 'NoneType' object is not subscriptable");
      }
      var wanted := WantedPatients(smap.value, samples);
      if wanted.Failure? {
        return Failure(wanted.error);
      }
      pts := Some(wanted.value);
    }
    if features.None? {
      return Failure("TypeError: unsupported operand type(s) for +: 'NoneType' and 'list'");
    }
    // The projection on features + ["patient_ID"] only limits the fields
    // the store returns to those the loop reads.
    var cursor := FindClinical(st, clinicalCollection, pts);
    if smap.None? {
      return Failure("AttributeError: 'NoneType' object has no attribute 'items'");
    }
    assert spec == match Build(cursor, Invert(smap.value), features.value)
      case Failure(e) => Failure(e)
      case Success(f) => Success(SortRows(f));
    var built := BuildLoop(cursor, Invert(smap.value), features.value);
    if built.Failure? {
      return built;
    }
    SortRowsSpec(built.value);
    r := Success(SortRows(built.value));
  }

  /** `pd.DataFrame(rowhash, index=[key])`, with `rowhash` filled by the inner loop. */
  method RowOf(key: string, features: seq<string>, fields: map<string, Cell>) returns (row: Frame)
    ensures row == RowFrame(key, features, fields)
  {
    var keys, vals := RowHash(features, fields);
    var cells := seq(|keys|, k requires 0 <= k < |keys| => vals[keys[k]]);
    assert cells == seq(|keys|, k requires 0 <= k < |keys| => fields[keys[k]]);
    row := Frame([key], keys, [cells]);
  }

  lemma BuildSnoc(cursor: seq<ClinRecord>, i: nat, inverse: map<string, string>, features: seq<string>, d: Frame)
    requires i < |cursor| && Build(cursor[..i], inverse, features) == Success(d)
    ensures Build(cursor[..i + 1], inverse, features) == Step(d, cursor[i], inverse, features)
  {
    assert cursor[..i + 1][..i] == cursor[..i];
  }

  /** The loop over the cursor: one row appended per record. */
  method BuildLoop(cursor: seq<ClinRecord>, inverse: map<string, string>, features: seq<string>) returns (r: Result<Frame>)
    ensures r == Build(cursor, inverse, features)
  {
    var dfr := Empty;
    var i := 0;
    while i < |cursor|
      invariant i <= |cursor|
      invariant Build(cursor[..i], inverse, features) == Success(dfr)
    {
      var item := cursor[i];
      BuildSnoc(cursor, i, inverse, features, dfr);
      if item.patient !in inverse {
        BuildFailureSticks(cursor, i + 1, inverse, features);
        return Failure("KeyError: " + item.patient);
      }
      var row := RowOf(inverse[item.patient], features, item.fields);
      dfr := Append(dfr, row);
      i := i + 1;
    }
    assert cursor[..i] == cursor;
    r := Success(dfr);
  }
}

/** A `<dataset>_samplemap` document: a dict from sample id to patient id,
    kept as its entries in the dict's iteration order so that inverting it
    can say which entry wins. */
module SampleMaps {
  import opened Wrappers
  import opened Order

  datatype SampleMap = SampleMap(entries: seq<(string, string)>)

  function Keys(m: SampleMap): (ks: seq<string>)
    ensures |ks| == |m.entries| && forall i :: 0 <= i < |ks| ==> ks[i] == m.entries[i].0
  {
    seq(|m.entries|, i requires 0 <= i < |m.entries| => m.entries[i].0)
  }

  /** A dict has each key once. */
  predicate IsDict(m: SampleMap)
  {
    Distinct(Keys(m))
  }

  /** No patient is the image of two samples. */
  predicate Injective(m: SampleMap)
  {
    forall i, j :: 0 <= i < j < |m.entries| ==> m.entries[i].1 != m.entries[j].1
  }

  /** `m[k]`; None stands for the KeyError of a missing key. */
  function Lookup(m: SampleMap, k: string): (r: Option<string>)
    ensures r.None? <==> forall i :: 0 <= i < |m.entries| ==> m.entries[i].0 != k
    ensures r.Some? ==> exists i :: 0 <= i < |m.entries| && m.entries[i] == (k, r.value)
    decreases |m.entries|
  {
    if m.entries == [] then None
    else if m.entries[0].0 == k then Some(m.entries[0].1)
    else
      var r := Lookup(SampleMap(m.entries[1..]), k);
      assert forall i :: 0 < i < |m.entries| ==> m.entries[i] == m.entries[1..][i - 1];
      r
  }

  /** In a dict the entry with key `k` is the one `Lookup` finds. */
  lemma LookupEntry(m: SampleMap, i: nat)
    requires IsDict(m) && i < |m.entries|
    ensures Lookup(m, m.entries[i].0) == Some(m.entries[i].1)
  {
    var k := m.entries[i].0;
    var r := Lookup(m, k);
    assert r.Some? by { assert m.entries[i].0 == k; }
    var j :| 0 <= j < |m.entries| && m.entries[j] == (k, r.value);
    assert Keys(m)[i] == k && Keys(m)[j] == k;
  }

  /** `{v: k for k, v in m.items()}`: a later entry with the same patient
      overwrites an earlier one. */
  function Invert(m: SampleMap): map<string, string>
    decreases |m.entries|
  {
    if m.entries == [] then map[]
    else
      var last := m.entries[|m.entries| - 1];
      Invert(SampleMap(m.entries[..|m.entries| - 1]))[last.1 := last.0]
  }

  /** A patient is a key of the inverse iff some entry maps a sample to it. */
  lemma {:induction false} InvertDomain(m: SampleMap, v: string)
    ensures v in Invert(m) <==> exists i :: 0 <= i < |m.entries| && m.entries[i].1 == v
    decreases |m.entries|
  {
    if m.entries != [] {
      var init := SampleMap(m.entries[..|m.entries| - 1]);
      InvertDomain(init, v);
      assert forall i :: 0 <= i < |init.entries| ==> init.entries[i] == m.entries[i];
    }
  }

  /** The inverse maps a patient to the sample of the last entry naming it. */
  lemma {:induction false} InvertLast(m: SampleMap, i: nat)
    requires i < |m.entries|
    requires forall j :: i < j < |m.entries| ==> m.entries[j].1 != m.entries[i].1
    ensures m.entries[i].1 in Invert(m) && Invert(m)[m.entries[i].1] == m.entries[i].0
    decreases |m.entries|
  {
    if i < |m.entries| - 1 {
      var init := SampleMap(m.entries[..|m.entries| - 1]);
      InvertLast(init, i);
    }
  }

  /** For a dict that maps no two samples to one patient, the inverse undoes
      the lookup in both directions. */
  lemma InvertRoundTrip(m: SampleMap, i: nat)
    requires IsDict(m) && Injective(m) && i < |m.entries|
    ensures m.entries[i].1 in Invert(m) && Invert(m)[m.entries[i].1] == m.entries[i].0
    ensures Lookup(m, Invert(m)[m.entries[i].1]) == Some(m.entries[i].1)
  {
    InvertLast(m, i);
    LookupEntry(m, i);
  }

  /** Two samples of the same patient: the inverse keeps only the later one. */
  lemma InvertDropsEarlier(m: SampleMap, i: nat, j: nat)
    requires i < j < |m.entries| && m.entries[i].1 == m.entries[j].1
    requires IsDict(m)
    requires forall k :: j < k < |m.entries| ==> m.entries[k].1 != m.entries[j].1
    ensures m.entries[i].1 in Invert(m) && Invert(m)[m.entries[i].1] != m.entries[i].0
  {
    InvertLast(m, j);
    assert Keys(m)[i] != Keys(m)[j];
  }

  /** Every pair of the inverse comes from an entry of the map. */
  lemma {:induction false} InvertSound(m: SampleMap, v: string)
    requires v in Invert(m)
    ensures exists i :: 0 <= i < |m.entries| && m.entries[i] == (Invert(m)[v], v)
    decreases |m.entries|
  {
    var init := SampleMap(m.entries[..|m.entries| - 1]);
    var last := m.entries[|m.entries| - 1];
    if last.1 != v {
      InvertSound(init, v);
      var i :| 0 <= i < |init.entries| && init.entries[i] == (Invert(init)[v], v);
      assert m.entries[i] == init.entries[i];
    }
  }

  /** In a dict, looking up the sample the inverse gives for a patient
      yields that patient back. */
  lemma InvertLookup(m: SampleMap, v: string)
    requires IsDict(m) && v in Invert(m)
    ensures Lookup(m, Invert(m)[v]) == Some(v)
  {
    InvertSound(m, v);
    var i :| 0 <= i < |m.entries| && m.entries[i] == (Invert(m)[v], v);
    LookupEntry(m, i);
  }
}

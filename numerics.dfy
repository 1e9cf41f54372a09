/** The numeric routines (PCA, PLS regression, correlation) are not modelled:
    each is a parameter returning the warnings it emits and either the arrays
    it computes or the message of the exception it raises.  Only the shape of
    an array and whether its entries are NaN matter here. */
module Numerics {
  import opened Json

  /** A 2-d numpy array. */
  datatype Matrix = Matrix(height: nat, width: nat, cells: seq<seq<Scalar>>)

  predicate Rect(m: Matrix)
  {
    |m.cells| == m.height && forall i :: 0 <= i < |m.cells| ==> |m.cells[i]| == m.width
  }

  type Mat = m: Matrix | Rect(m) witness Matrix(0, 0, [])

  /** `np.all(np.isnan(m))`; true of an array with no entries. */
  predicate AllNaN(m: Mat)
  {
    forall i, j :: 0 <= i < m.height && 0 <= j < m.width ==> m.cells[i][j].NaN?
  }

  /** `m.tolist()`. */
  function ToList(m: Mat): (r: seq<Json>)
    ensures |r| == m.height
    ensures forall i :: 0 <= i < m.height ==> r[i].JList? && |r[i].items| == m.width
    ensures forall i, j :: 0 <= i < m.height && 0 <= j < m.width ==> r[i].items[j] == JNum(m.cells[i][j])
  {
    seq(m.height, i requires 0 <= i < m.height =>
      JList(seq(m.width, j requires 0 <= j < m.width => JNum(m.cells[i][j]))))
  }

  /** `v.tolist()` of a 1-d array. */
  function Vector(v: seq<Scalar>): (r: Json)
    ensures r.JList? && |r.items| == |v|
    ensures forall i :: 0 <= i < |v| ==> r.items[i] == JNum(v[i])
  {
    JList(seq(|v|, i requires 0 <= i < |v| => JNum(v[i])))
  }

  /** `m.transpose()`. */
  function Transpose(m: Mat): (t: Mat)
    ensures t.height == m.width && t.width == m.height
    ensures forall i, j :: 0 <= i < m.height && 0 <= j < m.width ==> t.cells[j][i] == m.cells[i][j]
  {
    Matrix(m.width, m.height,
           seq(m.width, j requires 0 <= j < m.width =>
             seq(m.height, i requires 0 <= i < m.height => m.cells[i][j])))
  }

  lemma {:induction false} TransposeTwice(m: Mat)
    ensures Transpose(Transpose(m)) == m
  {
    var t := Transpose(Transpose(m));
    forall i | 0 <= i < m.height ensures t.cells[i] == m.cells[i] {
    }
  }

  lemma TransposeAllNaN(m: Mat)
    ensures AllNaN(Transpose(m)) <==> AllNaN(m)
  {
    var t := Transpose(m);
    if AllNaN(m) {
      forall j, i | 0 <= j < t.height && 0 <= i < t.width ensures t.cells[j][i].NaN? {
        assert t.cells[j][i] == m.cells[i][j];
      }
    }
    if AllNaN(t) {
      forall i, j | 0 <= i < m.height && 0 <= j < m.width ensures m.cells[i][j].NaN? {
        assert t.cells[j][i] == m.cells[i][j];
      }
    }
  }

  /** `m[start:, :n]` with numpy's clamping of out-of-range bounds. */
  function Slice(m: Mat, start: nat, n: nat): (r: Mat)
    ensures r.height == (if start <= m.height then m.height - start else 0)
    ensures r.width == (if n <= m.width then n else m.width)
    ensures forall i, j :: 0 <= i < r.height && 0 <= j < r.width ==> r.cells[i][j] == m.cells[start + i][j]
  {
    var h := if start <= m.height then m.height - start else 0;
    var w := if n <= m.width then n else m.width;
    Matrix(h, w, seq(h, i requires 0 <= i < h => seq(w, j requires 0 <= j < w => m.cells[start + i][j])))
  }

  datatype Outcome<T> = Raised(msg: string) | Returned(value: T)

  /** A call into a numeric routine: the warnings it emits, in order, then
      its result or its exception. */
  datatype Computation<T> = Computation(warnings: seq<string>, outcome: Outcome<T>)
}

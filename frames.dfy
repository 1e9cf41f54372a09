/** The pandas DataFrame operations the alignment pipeline uses, on a
    positional model of a frame: row labels, column labels and a
    rows-by-columns matrix of cells.  Every operation returns a new frame;
    the wrapper's constructor reassigns its fields with them. */
module Frames {
  import opened Wrappers
  import opened Order

  /** A cell as read from the record store; `Null` is None or a float NaN. */
  datatype Cell = Null | Text(s: string) | Number(x: real)

  datatype Frame = Frame(rows: seq<string>, cols: seq<string>, data: seq<seq<Cell>>)

  /** One data row per row label and one cell per column label in each row. */
  predicate Shaped(f: Frame)
  {
    |f.data| == |f.rows| && forall i :: 0 <= i < |f.data| ==> |f.data[i]| == |f.cols|
  }

  /** `pd.DataFrame()`. */
  const Empty: Frame := Frame([], [], [])

  predicate IsNull(c: Cell) { c.Null? }

  /** What `isin(["NaN", "NaT"])` matches. */
  predicate IsNaText(c: Cell) { c == Text("NaN") || c == Text("NaT") }

  predicate Unusable(c: Cell) { IsNull(c) || IsNaText(c) }

  // ---------------------------------------------------------------------
  // Positions

  /** The positions `0 <= i < n` satisfying `p`, ascending. */
  function Where(n: nat, p: nat -> bool): seq<nat>
  {
    if n == 0 then [] else Where(n - 1, p) + (if p(n - 1) then [n - 1] else [])
  }

  predicate Below(idx: seq<nat>, n: nat)
  {
    forall k :: 0 <= k < |idx| ==> idx[k] < n
  }

  predicate Increasing(idx: seq<nat>)
  {
    forall k1, k2 :: 0 <= k1 < k2 < |idx| ==> idx[k1] < idx[k2]
  }

  lemma {:induction false} WhereSpec(n: nat, p: nat -> bool)
    ensures Below(Where(n, p), n) && Increasing(Where(n, p))
    ensures forall k :: 0 <= k < |Where(n, p)| ==> p(Where(n, p)[k])
    ensures forall i :: 0 <= i < n && p(i) ==> i in Where(n, p)
  {
    if n > 0 {
      WhereSpec(n - 1, p);
    }
  }

  lemma {:induction false} WhereSingle(n: nat, p: nat -> bool, i: nat)
    requires i < n && p(i)
    requires forall k :: 0 <= k < n && p(k) ==> k == i
    ensures Where(n, p) == [i]
  {
    if n - 1 == i {
      WhereNone(n - 1, p);
    } else {
      WhereSingle(n - 1, p, i);
    }
  }

  lemma {:induction false} WhereNone(n: nat, p: nat -> bool)
    requires forall k :: 0 <= k < n ==> !p(k)
    ensures Where(n, p) == []
  {
    if n > 0 {
      WhereNone(n - 1, p);
    }
  }

  lemma {:induction false} WhereAll(n: nat, p: nat -> bool)
    requires forall k :: 0 <= k < n ==> p(k)
    ensures Where(n, p) == seq(n, k => k)
  {
    if n > 0 {
      WhereAll(n - 1, p);
    }
  }

  /** The rows at positions `idx`, in that order (iloc on rows). */
  function TakeRows(f: Frame, idx: seq<nat>): (r: Frame)
    requires Shaped(f) && Below(idx, |f.rows|)
    ensures Shaped(r) && r.cols == f.cols && |r.rows| == |idx|
    ensures forall k :: 0 <= k < |idx| ==> r.rows[k] == f.rows[idx[k]] && r.data[k] == f.data[idx[k]]
  {
    Frame(seq(|idx|, k requires 0 <= k < |idx| => f.rows[idx[k]]), f.cols,
          seq(|idx|, k requires 0 <= k < |idx| => f.data[idx[k]]))
  }

  /** The columns at positions `idx`, in that order (iloc on columns). */
  function TakeCols(f: Frame, idx: seq<nat>): (r: Frame)
    requires Shaped(f) && Below(idx, |f.cols|)
    ensures Shaped(r) && r.rows == f.rows && |r.cols| == |idx|
    ensures forall k :: 0 <= k < |idx| ==> r.cols[k] == f.cols[idx[k]]
    ensures forall i, k :: 0 <= i < |f.rows| && 0 <= k < |idx| ==> r.data[i][k] == f.data[i][idx[k]]
  {
    Frame(f.rows, seq(|idx|, k requires 0 <= k < |idx| => f.cols[idx[k]]),
          seq(|f.rows|, i requires 0 <= i < |f.rows| =>
            seq(|idx|, k requires 0 <= k < |idx| => f.data[i][idx[k]])))
  }

  /** Taking ascending positions of sorted row labels keeps them sorted. */
  lemma TakeRowsSorted(f: Frame, idx: seq<nat>)
    requires Shaped(f) && Below(idx, |f.rows|) && Increasing(idx) && Sorted(f.rows)
    ensures Sorted(TakeRows(f, idx).rows)
  {
  }

  lemma TakeRowsDistinct(f: Frame, idx: seq<nat>)
    requires Shaped(f) && Below(idx, |f.rows|) && Increasing(idx) && Distinct(f.rows)
    ensures Distinct(TakeRows(f, idx).rows)
  {
  }

  // ---------------------------------------------------------------------
  // Building a frame from molecular records (cursor_to_data_frame2)

  /** A molecular record: `id` (a gene), `m` (the sample ids) and `d` (the
      values, one per sample). */
  datatype MolRecord = MolRecord(id: string, m: seq<string>, d: seq<Cell>)

  /** The longest `d` list: the width pandas gives a list of lists. */
  function MaxWidth(c: seq<MolRecord>): nat
  {
    if c == [] then 0
    else var w := MaxWidth(c[..|c| - 1]); if |c[|c| - 1].d| > w then |c[|c| - 1].d| else w
  }

  lemma {:induction false} MaxWidthBounds(c: seq<MolRecord>)
    ensures forall i :: 0 <= i < |c| ==> |c[i].d| <= MaxWidth(c)
    ensures c != [] ==> exists i :: 0 <= i < |c| && |c[i].d| == MaxWidth(c)
  {
    if c != [] {
      var init := c[..|c| - 1];
      MaxWidthBounds(init);
      forall i | 0 <= i < |c| ensures |c[i].d| <= MaxWidth(c) {
        if i < |init| {
          assert c[i] == init[i];
        }
      }
      if |c[|c| - 1].d| <= MaxWidth(init) && init != [] {
        var i :| 0 <= i < |init| && |init[i].d| == MaxWidth(init);
        assert c[i] == init[i];
      }
    }
  }

  /** `pd.DataFrame([item['d'] ...], columns=c[0]['m'], index=[ids]).transpose()`:
      pandas pads shorter `d` lists with nulls, and raises ValueError when
      the widest one is not as wide as the list of column names. */
  function CursorToDataFrame2(c: seq<MolRecord>): Result<Frame>
  {
    if |c| == 0 then Success(Empty)
    else if MaxWidth(c) != |c[0].m| then
      Failure("ValueError: " + "Shape of passed values does not match the columns")
    else
      var m := c[0].m;
      Success(Frame(m, seq(|c|, i requires 0 <= i < |c| => c[i].id),
                   seq(|m|, j requires 0 <= j < |m| =>
                     seq(|c|, i requires 0 <= i < |c| => if j < |c[i].d| then c[i].d[j] else Null))))
  }

  /** An empty cursor gives the empty frame.  Otherwise the rows are the first
      record's `m` list, the columns the record ids in cursor order, and the
      cell (m[j], id_i) is record i's j-th value (null past its end); the
      build fails exactly when some record is longer than `m` or all are
      shorter. */
  lemma CursorToDataFrame2Spec(c: seq<MolRecord>)
    ensures c == [] ==> CursorToDataFrame2(c) == Success(Empty)
    ensures CursorToDataFrame2(c).Failure? <==>
              (c != [] && ((exists i :: 0 <= i < |c| && |c[i].d| > |c[0].m|) ||
                           (forall i :: 0 <= i < |c| ==> |c[i].d| < |c[0].m|)))
    ensures CursorToDataFrame2(c).Success? ==>
              var f := CursorToDataFrame2(c).value;
              Shaped(f) &&
              (c != [] ==> f.rows == c[0].m) && |f.cols| == |c| &&
              (forall i :: 0 <= i < |c| ==> f.cols[i] == c[i].id) &&
              (forall i, j :: 0 <= i < |c| && 0 <= j < |f.rows| ==>
                 f.data[j][i] == if j < |c[i].d| then c[i].d[j] else Null)
  {
    MaxWidthBounds(c);
  }

  // ---------------------------------------------------------------------
  // Labels and their rows

  /** The first position of `x` in `xs`. */
  function IndexOf(xs: seq<string>, x: string): (i: nat)
    requires x in xs
    ensures i < |xs| && xs[i] == x
    ensures forall k :: 0 <= k < i ==> xs[k] != x
  {
    if xs[0] == x then 0 else 1 + IndexOf(xs[1..], x)
  }

  lemma DistinctIndexOf(xs: seq<string>, i: nat)
    requires Distinct(xs) && i < |xs|
    ensures IndexOf(xs, xs[i]) == i
  {
  }

  function NullRow(n: nat): (r: seq<Cell>)
    ensures |r| == n && forall j :: 0 <= j < n ==> r[j] == Null
  {
    seq(n, (j: nat) => Null)
  }

  /** The data `.loc` gives a label of a frame with unique labels: the row
      under that label, or nulls when the label is missing. */
  function RowFor(f: Frame, l: string): seq<Cell>
    requires Shaped(f)
  {
    if l in f.rows then f.data[IndexOf(f.rows, l)] else NullRow(|f.cols|)
  }

  // ---------------------------------------------------------------------
  // sort_index

  function Pairs(f: Frame): (ps: seq<(string, seq<Cell>)>)
    requires Shaped(f)
    ensures |ps| == |f.rows|
  {
    seq(|f.rows|, i requires 0 <= i < |f.rows| => (f.rows[i], f.data[i]))
  }

  function RowLabel(p: (string, seq<Cell>)): string { p.0 }

  /** `sort_index()`: rows ascending by label, each carrying its data. */
  function SortRows(f: Frame): (r: Frame)
    requires Shaped(f)
  {
    var ps := SortBy(Pairs(f), RowLabel);
    Frame(seq(|ps|, k requires 0 <= k < |ps| => ps[k].0), f.cols,
          seq(|ps|, k requires 0 <= k < |ps| => ps[k].1))
  }

  /** Sorting permutes the (label, data) pairs and leaves the labels in
      ascending order. */
  lemma SortRowsSpec(f: Frame)
    requires Shaped(f)
    ensures var r := SortRows(f);
      Shaped(r) && r.cols == f.cols && Sorted(r.rows) && |r.rows| == |f.rows| &&
      multiset(Pairs(r)) == multiset(Pairs(f))
  {
    var ps := SortBy(Pairs(f), RowLabel);
    SortByPermutes(Pairs(f), RowLabel);
    SortBySorted(Pairs(f), RowLabel);
    var r := SortRows(f);
    assert |ps| == |Pairs(f)| by {
      assert |multiset(ps)| == |multiset(Pairs(f))|;
    }
    forall k | 0 <= k < |ps| ensures |ps[k].1| == |f.cols| {
      assert ps[k] in multiset(Pairs(f));
    }
    assert Pairs(r) == ps;
  }

  function Labels(ps: seq<(string, seq<Cell>)>): (ls: seq<string>)
    ensures |ls| == |ps| && forall k :: 0 <= k < |ps| ==> ls[k] == ps[k].0
  {
    seq(|ps|, k requires 0 <= k < |ps| => ps[k].0)
  }

  lemma {:induction false} InsertLabels(x: (string, seq<Cell>), ys: seq<(string, seq<Cell>)>)
    ensures multiset(Labels(Insert(x, ys, RowLabel))) == multiset(Labels(ys)) + multiset{x.0}
  {
    if ys != [] && !Le(RowLabel(x), RowLabel(ys[0])) {
      InsertLabels(x, ys[1..]);
      assert Labels([ys[0]] + Insert(x, ys[1..], RowLabel)) == [ys[0].0] + Labels(Insert(x, ys[1..], RowLabel));
      assert Labels(ys) == [ys[0].0] + Labels(ys[1..]);
    } else {
      assert Labels(Insert(x, ys, RowLabel)) == [x.0] + Labels(ys);
    }
  }

  lemma {:induction false} SortByLabels(xs: seq<(string, seq<Cell>)>)
    ensures multiset(Labels(SortBy(xs, RowLabel))) == multiset(Labels(xs))
  {
    if xs != [] {
      SortByLabels(xs[1..]);
      InsertLabels(xs[0], SortBy(xs[1..], RowLabel));
      assert Labels(xs) == [xs[0].0] + Labels(xs[1..]);
    }
  }

  /** Sorting permutes the labels. */
  lemma SortRowsLabels(f: Frame)
    requires Shaped(f)
    ensures multiset(SortRows(f).rows) == multiset(f.rows)
  {
    SortRowsSpec(f);
    var r := SortRows(f);
    SortByLabels(Pairs(f));
    assert Labels(SortBy(Pairs(f), RowLabel)) == r.rows;
    assert Labels(Pairs(f)) == f.rows;
  }

  /** Sorting keeps the set of labels, and each row keeps the data it had
      under its label. */
  lemma SortRowsKeepsRows(f: Frame)
    requires Shaped(f)
    ensures var r := SortRows(f);
      (forall x :: x in r.rows <==> x in f.rows) &&
      forall k :: 0 <= k < |r.rows| ==>
        exists i :: 0 <= i < |f.rows| && f.rows[i] == r.rows[k] && f.data[i] == r.data[k]
  {
    SortRowsSpec(f);
    var r := SortRows(f);
    forall k | 0 <= k < |r.rows|
      ensures exists i :: 0 <= i < |f.rows| && f.rows[i] == r.rows[k] && f.data[i] == r.data[k]
    {
      assert Pairs(r)[k] in multiset(Pairs(f));
      var i :| 0 <= i < |f.rows| && Pairs(f)[i] == Pairs(r)[k];
    }
    forall x | x in f.rows ensures x in r.rows {
      var i :| 0 <= i < |f.rows| && f.rows[i] == x;
      assert Pairs(f)[i] in multiset(Pairs(r));
      var k :| 0 <= k < |r.rows| && Pairs(r)[k] == Pairs(f)[i];
    }
  }

  /** Every row of the input appears, label and data, in the sorted frame. */
  lemma SortRowsKeepsEveryRow(f: Frame)
    requires Shaped(f)
    ensures var r := SortRows(f);
      forall i :: 0 <= i < |f.rows| ==>
        exists k :: 0 <= k < |r.rows| && r.rows[k] == f.rows[i] && r.data[k] == f.data[i]
  {
    SortRowsSpec(f);
    var r := SortRows(f);
    forall i | 0 <= i < |f.rows|
      ensures exists k :: 0 <= k < |r.rows| && r.rows[k] == f.rows[i] && r.data[k] == f.data[i]
    {
      assert Pairs(f)[i] in multiset(Pairs(r));
      var k :| 0 <= k < |r.rows| && Pairs(r)[k] == Pairs(f)[i];
    }
  }

  lemma MultiplicityTwo<T>(s: seq<T>, k1: nat, k2: nat)
    requires k1 < k2 < |s| && s[k1] == s[k2]
    ensures multiset(s)[s[k1]] >= 2
  {
    assert s == s[..k2] + [s[k2]] + s[k2 + 1..];
    assert s[..k2][k1] == s[k1];
    assert s[k1] in multiset(s[..k2]);
  }

  lemma {:induction false} DistinctMultiplicity<T>(s: seq<T>, x: T)
    requires Distinct(s)
    ensures multiset(s)[x] <= 1
  {
    if s != [] {
      var init := s[..|s| - 1];
      DistinctMultiplicity(init, x);
      assert s == init + [s[|s| - 1]];
      if x == s[|s| - 1] {
        assert x !in init;
      }
    }
  }

  /** Sorting unique labels leaves them unique, and then each row is the
      row the label had before. */
  lemma SortRowsDistinct(f: Frame)
    requires Shaped(f) && Distinct(f.rows)
    ensures var r := SortRows(f);
      Distinct(r.rows) && forall k :: 0 <= k < |r.rows| ==> r.data[k] == RowFor(f, r.rows[k])
  {
    SortRowsSpec(f);
    SortRowsKeepsRows(f);
    var r := SortRows(f);
    forall k1, k2 | 0 <= k1 < k2 < |r.rows| ensures r.rows[k1] != r.rows[k2] {
      if r.rows[k1] == r.rows[k2] {
        assert Pairs(r)[k1] in multiset(Pairs(f));
        assert Pairs(r)[k2] in multiset(Pairs(f));
        var i1 :| 0 <= i1 < |f.rows| && Pairs(f)[i1] == Pairs(r)[k1];
        var i2 :| 0 <= i2 < |f.rows| && Pairs(f)[i2] == Pairs(r)[k2];
        assert i1 == i2;
        MultiplicityTwo(Pairs(r), k1, k2);
        DistinctMultiplicity(Pairs(f), Pairs(r)[k1]);
        assert false;
      }
    }
    forall k | 0 <= k < |r.rows| ensures r.data[k] == RowFor(f, r.rows[k]) {
      var i :| 0 <= i < |f.rows| && f.rows[i] == r.rows[k] && f.data[i] == r.data[k];
      DistinctIndexOf(f.rows, i);
    }
  }

  // ---------------------------------------------------------------------
  // Dropping columns by position (dropna(axis=1))

  predicate ColumnClean(f: Frame, j: nat, bad: Cell -> bool)
  {
    forall i :: 0 <= i < |f.data| && j < |f.data[i]| ==> !bad(f.data[i][j])
  }

  function CleanColumns(f: Frame, bad: Cell -> bool): (idx: seq<nat>)
    ensures Below(idx, |f.cols|) && Increasing(idx)
    ensures forall k :: 0 <= k < |idx| ==> ColumnClean(f, idx[k], bad)
    ensures forall j :: 0 <= j < |f.cols| && ColumnClean(f, j, bad) ==> j in idx
  {
    WhereSpec(|f.cols|, (j: nat) => ColumnClean(f, j, bad));
    Where(|f.cols|, (j: nat) => ColumnClean(f, j, bad))
  }

  /** Drops, position by position, every column holding a cell that
      satisfies `bad` in some row; `dropna(axis=1)` when `bad` is the null
      test. */
  function DropColumnsWhere(f: Frame, bad: Cell -> bool): (r: Frame)
    requires Shaped(f)
    ensures Shaped(r) && r.rows == f.rows
  {
    TakeCols(f, CleanColumns(f, bad))
  }

  /** A column survives iff none of its cells is `bad`, and no cell left is. */
  lemma DropColumnsWhereSpec(f: Frame, bad: Cell -> bool)
    requires Shaped(f)
    ensures var r := DropColumnsWhere(f, bad);
      (forall i, k :: 0 <= i < |r.rows| && 0 <= k < |r.cols| ==> !bad(r.data[i][k])) &&
      (forall c :: c in r.cols <==>
         exists j :: 0 <= j < |f.cols| && f.cols[j] == c && ColumnClean(f, j, bad))
  {
    var w := CleanColumns(f, bad);
    var r := DropColumnsWhere(f, bad);
    forall c ensures c in r.cols <==> exists j :: 0 <= j < |f.cols| && f.cols[j] == c && ColumnClean(f, j, bad) {
      if c in r.cols {
        var k :| 0 <= k < |r.cols| && r.cols[k] == c;
        assert f.cols[w[k]] == c && ColumnClean(f, w[k], bad);
      }
      if exists j :: 0 <= j < |f.cols| && f.cols[j] == c && ColumnClean(f, j, bad) {
        var j :| 0 <= j < |f.cols| && f.cols[j] == c && ColumnClean(f, j, bad);
        var k :| 0 <= k < |w| && w[k] == j;
        assert r.cols[k] == c;
      }
    }
    forall i, k | 0 <= i < |r.rows| && 0 <= k < |r.cols| ensures !bad(r.data[i][k]) {
      assert ColumnClean(f, w[k], bad);
    }
  }

  /** A column of a column selection is clean iff the column it came from is. */
  lemma TakeColsClean(f: Frame, idx: seq<nat>, k: nat, bad: Cell -> bool)
    requires Shaped(f) && Below(idx, |f.cols|) && k < |idx|
    ensures ColumnClean(TakeCols(f, idx), k, bad) <==> ColumnClean(f, idx[k], bad)
  {
    var r := TakeCols(f, idx);
    assert forall i :: 0 <= i < |f.data| ==> r.data[i][k] == f.data[i][idx[k]];
  }

  // ---------------------------------------------------------------------
  // Dropping columns by label (drop(labels, 1))

  /** `columns[isin(...).any()]`: the labels of the columns holding a cell
      that satisfies `bad`. */
  function BadLabels(f: Frame, bad: Cell -> bool): set<string>
  {
    set j | 0 <= j < |f.cols| && !ColumnClean(f, j, bad) :: f.cols[j]
  }

  /** No column carrying the label `c` holds a `bad` cell. */
  predicate LabelClean(f: Frame, c: string, bad: Cell -> bool)
  {
    forall j :: 0 <= j < |f.cols| && f.cols[j] == c ==> ColumnClean(f, j, bad)
  }

  lemma BadLabelsSpec(f: Frame, bad: Cell -> bool, c: string)
    ensures c in BadLabels(f, bad) <==> !LabelClean(f, c, bad)
  {
    if !LabelClean(f, c, bad) {
      var j :| 0 <= j < |f.cols| && f.cols[j] == c && !ColumnClean(f, j, bad);
      assert f.cols[j] in BadLabels(f, bad);
    }
  }

  function UnlistedColumn(f: Frame, labels: set<string>): nat -> bool
  {
    (j: nat) => j < |f.cols| && f.cols[j] !in labels
  }

  function KeptColumns(f: Frame, labels: set<string>): (idx: seq<nat>)
    ensures Below(idx, |f.cols|) && Increasing(idx)
    ensures forall k :: 0 <= k < |idx| ==> f.cols[idx[k]] !in labels
    ensures forall j :: 0 <= j < |f.cols| && f.cols[j] !in labels ==> j in idx
  {
    WhereSpec(|f.cols|, UnlistedColumn(f, labels));
    Where(|f.cols|, UnlistedColumn(f, labels))
  }

  /** `drop(labels, 1)`: drops every column carrying one of the labels, so a
      label the axis repeats goes with all of its columns. */
  function DropColumnLabels(f: Frame, labels: set<string>): (r: Frame)
    requires Shaped(f)
    ensures Shaped(r) && r.rows == f.rows
  {
    TakeCols(f, KeptColumns(f, labels))
  }

  /** A label is left iff it was a column label and is not listed, and the
      columns left keep their order. */
  lemma DropColumnLabelsSpec(f: Frame, labels: set<string>)
    requires Shaped(f)
    ensures var r := DropColumnLabels(f, labels);
      (forall c :: c in r.cols <==> c in f.cols && c !in labels) &&
      (labels == {} ==> r.cols == f.cols)
  {
    var w := KeptColumns(f, labels);
    var r := DropColumnLabels(f, labels);
    forall c ensures c in r.cols <==> c in f.cols && c !in labels {
      if c in r.cols {
        var k :| 0 <= k < |r.cols| && r.cols[k] == c;
        assert f.cols[w[k]] == c;
      }
      if c in f.cols && c !in labels {
        var j :| 0 <= j < |f.cols| && f.cols[j] == c;
        var k :| 0 <= k < |w| && w[k] == j;
        assert r.cols[k] == c;
      }
    }
    if labels == {} {
      WhereAll(|f.cols|, UnlistedColumn(f, labels));
      assert w == seq(|f.cols|, k => k);
    }
  }

  /** Lines 98-99 of the constructor: first, by label, every column whose
      label heads a column holding "NaN" or "NaT"; then, position by
      position, every column holding a null. */
  function PruneColumns(f: Frame): (r: Frame)
    requires Shaped(f)
    ensures Shaped(r) && r.rows == f.rows
  {
    DropColumnsWhere(DropColumnLabels(f, BadLabels(f, IsNaText)), IsNull)
  }

  /** No cell left after pruning is null, "NaN" or "NaT". */
  lemma PruneColumnsClean(f: Frame)
    requires Shaped(f)
    ensures var r := PruneColumns(f);
      forall i, k :: 0 <= i < |r.rows| && 0 <= k < |r.cols| ==> !Unusable(r.data[i][k])
  {
    var bl := BadLabels(f, IsNaText);
    var w1 := KeptColumns(f, bl);
    var f1 := DropColumnLabels(f, bl);
    var w2 := CleanColumns(f1, IsNull);
    var r := PruneColumns(f);
    forall i, k | 0 <= i < |r.rows| && 0 <= k < |r.cols| ensures !Unusable(r.data[i][k]) {
      var j1 := w2[k];
      assert r.data[i][k] == f1.data[i][j1];
      assert f1.data[i][j1] == f.data[i][w1[j1]];
      BadLabelsSpec(f, IsNaText, f.cols[w1[j1]]);
      assert ColumnClean(f, w1[j1], IsNaText);
    }
  }

  predicate ColumnUsable(f: Frame, j: nat)
  {
    forall i :: 0 <= i < |f.data| && j < |f.data[i]| ==> !Unusable(f.data[i][j])
  }

  lemma UsableIsClean(f: Frame, j: nat)
    ensures ColumnUsable(f, j) <==> ColumnClean(f, j, IsNaText) && ColumnClean(f, j, IsNull)
  {
  }

  /** A label left after pruning heads no "NaN"/"NaT" column and heads an
      input column without a null. */
  lemma PruneKeeps(f: Frame, c: string)
    requires Shaped(f) && c in PruneColumns(f).cols
    ensures LabelClean(f, c, IsNaText)
    ensures exists j :: 0 <= j < |f.cols| && f.cols[j] == c && ColumnClean(f, j, IsNull)
  {
    var bl := BadLabels(f, IsNaText);
    var f1 := DropColumnLabels(f, bl);
    var w1 := KeptColumns(f, bl);
    DropColumnsWhereSpec(f1, IsNull);
    var j1 :| 0 <= j1 < |f1.cols| && f1.cols[j1] == c && ColumnClean(f1, j1, IsNull);
    TakeColsClean(f, w1, j1, IsNull);
    var j := w1[j1];
    assert f.cols[j] == c && ColumnClean(f, j, IsNull);
    BadLabelsSpec(f, IsNaText, c);
  }

  /** A column without a null whose label heads no "NaN"/"NaT" column is left
      after pruning. */
  lemma PruneFinds(f: Frame, j: nat)
    requires Shaped(f) && j < |f.cols|
    requires LabelClean(f, f.cols[j], IsNaText) && ColumnClean(f, j, IsNull)
    ensures f.cols[j] in PruneColumns(f).cols
  {
    var bl := BadLabels(f, IsNaText);
    var f1 := DropColumnLabels(f, bl);
    var w1 := KeptColumns(f, bl);
    BadLabelsSpec(f, IsNaText, f.cols[j]);
    var j1 :| 0 <= j1 < |w1| && w1[j1] == j;
    TakeColsClean(f, w1, j1, IsNull);
    assert f1.cols[j1] == f.cols[j] && ColumnClean(f1, j1, IsNull);
    DropColumnsWhereSpec(f1, IsNull);
  }

  /** A label survives pruning iff none of its columns holds "NaN" or "NaT"
      and one of them holds no null. */
  lemma PruneColumnsSurvivors(f: Frame)
    requires Shaped(f)
    ensures var r := PruneColumns(f);
      forall c :: c in r.cols <==>
        (LabelClean(f, c, IsNaText) && exists j :: 0 <= j < |f.cols| && f.cols[j] == c && ColumnClean(f, j, IsNull))
  {
    var r := PruneColumns(f);
    forall c ensures c in r.cols <==>
      (LabelClean(f, c, IsNaText) && exists j :: 0 <= j < |f.cols| && f.cols[j] == c && ColumnClean(f, j, IsNull))
    {
      if c in r.cols {
        PruneKeeps(f, c);
      }
      if LabelClean(f, c, IsNaText) && exists j :: 0 <= j < |f.cols| && f.cols[j] == c && ColumnClean(f, j, IsNull) {
        var j :| 0 <= j < |f.cols| && f.cols[j] == c && ColumnClean(f, j, IsNull);
        PruneFinds(f, j);
      }
    }
  }

  /** A column sharing its label with a "NaN"/"NaT" column is dropped with
      it, however clean its own cells are. */
  lemma PruneDropsSharedLabel(f: Frame, j: nat, j': nat)
    requires Shaped(f) && j < |f.cols| && j' < |f.cols| && f.cols[j] == f.cols[j']
    requires !ColumnClean(f, j', IsNaText)
    ensures f.cols[j] !in PruneColumns(f).cols
  {
    if f.cols[j] in PruneColumns(f).cols {
      PruneKeeps(f, f.cols[j]);
      assert false;
    }
  }

  /** With unique column labels, a column survives pruning iff none of its
      cells, in any row, is null, "NaN" or "NaT". */
  lemma PruneColumnsDistinct(f: Frame)
    requires Shaped(f) && Distinct(f.cols)
    ensures var r := PruneColumns(f);
      forall c :: c in r.cols <==> exists j :: 0 <= j < |f.cols| && f.cols[j] == c && ColumnUsable(f, j)
  {
    PruneColumnsSurvivors(f);
    var r := PruneColumns(f);
    forall c ensures c in r.cols <==> exists j :: 0 <= j < |f.cols| && f.cols[j] == c && ColumnUsable(f, j) {
      if exists j :: 0 <= j < |f.cols| && f.cols[j] == c && ColumnUsable(f, j) {
        var j :| 0 <= j < |f.cols| && f.cols[j] == c && ColumnUsable(f, j);
        UsableIsClean(f, j);
        forall j' | 0 <= j' < |f.cols| && f.cols[j'] == c ensures ColumnClean(f, j', IsNaText) {
          assert j' == j;
        }
      }
      if c in r.cols {
        var j :| 0 <= j < |f.cols| && f.cols[j] == c && ColumnClean(f, j, IsNull);
        UsableIsClean(f, j);
      }
    }
  }

  /** Sorting the rows does not change which columns hold a `bad` cell. */
  lemma SortRowsClean(f: Frame, j: nat, bad: Cell -> bool)
    requires Shaped(f)
    ensures ColumnClean(SortRows(f), j, bad) <==> ColumnClean(f, j, bad)
  {
    if ColumnClean(f, j, bad) {
      SortRowsCleanFrom(f, j, bad);
    }
    if ColumnClean(SortRows(f), j, bad) {
      SortRowsCleanBack(f, j, bad);
    }
  }

  /** Sorting the rows does not change which labels head a `bad` column. */
  lemma SortRowsLabelClean(f: Frame, c: string, bad: Cell -> bool)
    requires Shaped(f)
    ensures LabelClean(SortRows(f), c, bad) <==> LabelClean(f, c, bad)
  {
    SortRowsSpec(f);
    forall j | 0 <= j < |f.cols| ensures ColumnClean(SortRows(f), j, bad) <==> ColumnClean(f, j, bad) {
      SortRowsClean(f, j, bad);
    }
  }

  lemma SortRowsCleanFrom(f: Frame, j: nat, bad: Cell -> bool)
    requires Shaped(f) && ColumnClean(f, j, bad)
    ensures ColumnClean(SortRows(f), j, bad)
  {
    SortRowsKeepsRows(f);
    var r := SortRows(f);
    forall k | 0 <= k < |r.data| && j < |r.data[k]| ensures !bad(r.data[k][j]) {
      SortRowsSpec(f);
      var i :| 0 <= i < |f.rows| && f.rows[i] == r.rows[k] && f.data[i] == r.data[k];
    }
  }

  lemma SortRowsCleanBack(f: Frame, j: nat, bad: Cell -> bool)
    requires Shaped(f) && ColumnClean(SortRows(f), j, bad)
    ensures ColumnClean(f, j, bad)
  {
    SortRowsKeepsEveryRow(f);
    var r := SortRows(f);
    forall i | 0 <= i < |f.data| && j < |f.data[i]| ensures !bad(f.data[i][j]) {
      var k :| 0 <= k < |r.rows| && r.rows[k] == f.rows[i] && r.data[k] == f.data[i];
    }
  }

  // ---------------------------------------------------------------------
  // Label-based row selection (.loc[labels]) and row dropping

  /** `[x for x in xs if x in s]`. */
  function FilterLabels(xs: seq<string>, s: seq<string>): (r: seq<string>)
    ensures forall x :: x in r <==> x in xs && x in s
  {
    if xs == [] then []
    else FilterLabels(xs[..|xs| - 1], s) + (if xs[|xs| - 1] in s then [xs[|xs| - 1]] else [])
  }

  lemma {:induction false} FilterLabelsKeeps(xs: seq<string>, s: seq<string>)
    requires forall x :: x in xs ==> x in s
    ensures FilterLabels(xs, s) == xs
  {
    if xs != [] {
      FilterLabelsKeeps(xs[..|xs| - 1], s);
      assert xs == xs[..|xs| - 1] + [xs[|xs| - 1]];
    }
  }

  function LabelMatch(f: Frame, l: string): nat -> bool
  {
    (i: nat) => i < |f.rows| && f.rows[i] == l
  }

  /** The rows `.loc` yields for one label: every row with that label, or,
      when there is none, a row of nulls under that label. */
  function Block(f: Frame, l: string): (r: Frame)
    requires Shaped(f)
    ensures Shaped(r) && r.cols == f.cols
  {
    if l in f.rows then
      WhereSpec(|f.rows|, LabelMatch(f, l));
      TakeRows(f, Where(|f.rows|, LabelMatch(f, l)))
    else Frame([l], f.cols, [NullRow(|f.cols|)])
  }

  lemma BlockDistinct(f: Frame, l: string)
    requires Shaped(f) && Distinct(f.rows)
    ensures Block(f, l) == Frame([l], f.cols, [RowFor(f, l)])
  {
    if l in f.rows {
      var i := IndexOf(f.rows, l);
      WhereSingle(|f.rows|, LabelMatch(f, l), i);
    }
  }

  function Stack(a: Frame, b: Frame): (r: Frame)
    requires Shaped(a) && Shaped(b) && a.cols == b.cols
    ensures Shaped(r) && r.cols == a.cols
  {
    Frame(a.rows + b.rows, a.cols, a.data + b.data)
  }

  function LocRows(f: Frame, labels: seq<string>): (r: Frame)
    requires Shaped(f)
    ensures Shaped(r) && r.cols == f.cols
  {
    if labels == [] then Frame([], f.cols, [])
    else Stack(LocRows(f, labels[..|labels| - 1]), Block(f, labels[|labels| - 1]))
  }

  /** `.loc[labels]` on rows, as pandas 0.2x does it: a KeyError when none of
      a non-empty list of labels is present, otherwise the rows of each
      label in turn, with a null row for a missing label. */
  function Loc(f: Frame, labels: seq<string>): (r: Result<Frame>)
    requires Shaped(f)
    ensures r.Success? ==> Shaped(r.value) && r.value.cols == f.cols
    ensures r.Failure? <==> labels != [] && forall l :: l in labels ==> l !in f.rows
  {
    if labels != [] && forall l :: l in labels ==> l !in f.rows then
      Failure("KeyError: none of the labels are in the index")
    else Success(LocRows(f, labels))
  }

  lemma BlockLabels(f: Frame, l: string)
    requires Shaped(f)
    ensures forall k :: 0 <= k < |Block(f, l).rows| ==> Block(f, l).rows[k] == l
  {
    if l in f.rows {
      WhereSpec(|f.rows|, LabelMatch(f, l));
    }
  }

  /** Every label `.loc` yields is one of the labels asked for. */
  lemma {:induction false} LocRowsLabels(f: Frame, labels: seq<string>)
    requires Shaped(f)
    ensures forall k :: 0 <= k < |LocRows(f, labels).rows| ==> LocRows(f, labels).rows[k] in labels
  {
    if labels != [] {
      var init := labels[..|labels| - 1];
      var l := labels[|labels| - 1];
      LocRowsLabels(f, init);
      BlockLabels(f, l);
      var a := LocRows(f, init);
      var b := Block(f, l);
      assert LocRows(f, labels).rows == a.rows + b.rows;
      forall k | 0 <= k < |a.rows| + |b.rows| ensures (a.rows + b.rows)[k] in labels {
        if k < |a.rows| {
          assert a.rows[k] in init;
        } else {
          assert b.rows[k - |a.rows|] == l;
        }
      }
    }
  }

  /** With unique row labels, `.loc` yields one row per requested label, in
      the requested order: the row with that label, or nulls. */
  lemma {:induction false} LocRowsDistinct(f: Frame, labels: seq<string>)
    requires Shaped(f) && Distinct(f.rows)
    ensures LocRows(f, labels).rows == labels
    ensures forall k :: 0 <= k < |labels| ==> LocRows(f, labels).data[k] == RowFor(f, labels[k])
  {
    if labels != [] {
      var init := labels[..|labels| - 1];
      var l := labels[|labels| - 1];
      assert labels == init + [l];
      LocRowsDistinct(f, init);
      LocRowsSnoc(f, init, l);
      RowwiseSnoc(f, init, l, LocRows(f, init).data);
    }
  }

  lemma LocRowsSnoc(f: Frame, init: seq<string>, l: string)
    requires Shaped(f) && Distinct(f.rows)
    ensures LocRows(f, init + [l]).rows == LocRows(f, init).rows + [l]
    ensures LocRows(f, init + [l]).data == LocRows(f, init).data + [RowFor(f, l)]
  {
    assert (init + [l])[..|init|] == init;
    BlockDistinct(f, l);
  }

  /** One more label and its row keep rows matched to labels. */
  lemma RowwiseSnoc(f: Frame, init: seq<string>, l: string, data: seq<seq<Cell>>)
    requires Shaped(f) && |data| == |init|
    requires forall k :: 0 <= k < |init| ==> data[k] == RowFor(f, init[k])
    ensures forall k :: 0 <= k < |init| + 1 ==> (data + [RowFor(f, l)])[k] == RowFor(f, (init + [l])[k])
  {
  }

  /** Lines 93-95 of the constructor: `loc` of the frame's own labels that
      are among `samples`. */
  function RestrictToSamples(f: Frame, samples: seq<string>): (r: Frame)
    requires Shaped(f)
    ensures Shaped(r) && r.cols == f.cols
  {
    var subset := FilterLabels(f.rows, samples);
    assert Loc(f, subset).Success? by {
      if subset != [] {
        assert subset[0] in subset;
      }
    }
    Loc(f, subset).value
  }

  /** With unique row labels, the restriction keeps exactly the rows whose
      label is among the samples, in their existing order, each with its
      own data; requested samples absent from the frame are ignored. */
  lemma RestrictToSamplesSpec(f: Frame, samples: seq<string>)
    requires Shaped(f) && Distinct(f.rows)
    ensures var r := RestrictToSamples(f, samples);
      r.rows == FilterLabels(f.rows, samples) &&
      (forall x :: x in r.rows <==> x in f.rows && x in samples) &&
      forall k :: 0 <= k < |r.rows| ==> r.data[k] == f.data[IndexOf(f.rows, r.rows[k])]
  {
    var subset := FilterLabels(f.rows, samples);
    RestrictIsLocRows(f, samples);
    LocRowsDistinct(f, subset);
    var r := LocRows(f, subset);
    forall k | 0 <= k < |r.rows| ensures r.data[k] == f.data[IndexOf(f.rows, r.rows[k])] {
      assert r.rows[k] in subset;
    }
  }

  lemma RestrictIsLocRows(f: Frame, samples: seq<string>)
    requires Shaped(f)
    ensures RestrictToSamples(f, samples) == LocRows(f, FilterLabels(f.rows, samples))
  {
    var subset := FilterLabels(f.rows, samples);
    if subset != [] {
      assert subset[0] in subset;
    }
  }

  /** Requesting every label of the frame (or more) changes nothing. */
  lemma RestrictToAllSamples(f: Frame, samples: seq<string>)
    requires Shaped(f) && Distinct(f.rows)
    requires forall x :: x in f.rows ==> x in samples
    ensures RestrictToSamples(f, samples) == f
  {
    FilterLabelsKeeps(f.rows, samples);
    RestrictToSamplesSpec(f, samples);
    var r := RestrictToSamples(f, samples);
    forall k | 0 <= k < |r.rows| ensures r.data[k] == f.data[k] {
      DistinctIndexOf(f.rows, k);
    }
  }

  predicate RowComplete(f: Frame, i: nat)
  {
    i < |f.data| && forall j :: 0 <= j < |f.data[i]| ==> !IsNull(f.data[i][j])
  }

  function CompleteRows(f: Frame): (idx: seq<nat>)
    ensures Below(idx, |f.data|) && Increasing(idx)
    ensures forall k :: 0 <= k < |idx| ==> RowComplete(f, idx[k])
    ensures forall i :: 0 <= i < |f.data| && RowComplete(f, i) ==> i in idx
  {
    WhereSpec(|f.data|, (i: nat) => RowComplete(f, i));
    Where(|f.data|, (i: nat) => RowComplete(f, i))
  }

  function IncompleteRows(f: Frame): (idx: seq<nat>)
    ensures Below(idx, |f.data|)
    ensures forall k :: 0 <= k < |idx| ==> !RowComplete(f, idx[k])
    ensures forall i :: 0 <= i < |f.data| && !RowComplete(f, i) ==> i in idx
  {
    WhereSpec(|f.data|, (i: nat) => !RowComplete(f, i));
    Where(|f.data|, (i: nat) => !RowComplete(f, i))
  }

  /** `dropna()`: keeps the rows without a null cell. */
  function DropNullRows(f: Frame): (r: Frame)
    requires Shaped(f)
    ensures Shaped(r) && r.cols == f.cols
  {
    TakeRows(f, CompleteRows(f))
  }

  /** `f[f.isnull().any(axis=1)].index.tolist()`. */
  function NullRowLabels(f: Frame): seq<string>
    requires Shaped(f)
  {
    var idx := IncompleteRows(f);
    seq(|idx|, k requires 0 <= k < |idx| => f.rows[idx[k]])
  }

  /** When rows with equal labels hold equal cells, `dropna()` keeps
      exactly the labels it does not list as heading a row with a null. */
  lemma DropNullRowsByLabel(f: Frame, x: string)
    requires Shaped(f)
    requires forall i, j :: 0 <= i < |f.rows| && 0 <= j < |f.rows| && f.rows[i] == f.rows[j] ==> f.data[i] == f.data[j]
    ensures x in DropNullRows(f).rows <==> x in f.rows && x !in NullRowLabels(f)
  {
    DropNullRowsSpec(f);
    if x in DropNullRows(f).rows {
      var i :| 0 <= i < |f.rows| && f.rows[i] == x && RowComplete(f, i);
      forall j | 0 <= j < |f.rows| && f.rows[j] == x ensures RowComplete(f, j) {
        assert f.data[j] == f.data[i];
      }
    }
    if x in f.rows && x !in NullRowLabels(f) {
      var i :| 0 <= i < |f.rows| && f.rows[i] == x;
      assert RowComplete(f, i);
    }
  }

  /** `dropna()` leaves no null cell, keeps the order, and a label survives
      iff it heads a row without nulls; the labels `NullRowLabels` lists are
      those heading a row with a null. */
  lemma DropNullRowsSpec(f: Frame)
    requires Shaped(f)
    ensures var r := DropNullRows(f);
      (forall i, j :: 0 <= i < |r.rows| && 0 <= j < |r.cols| ==> !IsNull(r.data[i][j])) &&
      (forall x :: x in r.rows <==> exists i :: 0 <= i < |f.rows| && f.rows[i] == x && RowComplete(f, i)) &&
      (forall x :: x in NullRowLabels(f) <==> exists i :: 0 <= i < |f.rows| && f.rows[i] == x && !RowComplete(f, i)) &&
      (Sorted(f.rows) ==> Sorted(r.rows))
  {
    var w := CompleteRows(f);
    var r := DropNullRows(f);
    forall i, j | 0 <= i < |r.rows| && 0 <= j < |r.cols| ensures !IsNull(r.data[i][j]) {
      assert RowComplete(f, w[i]);
    }
    forall x ensures x in r.rows <==> exists i :: 0 <= i < |f.rows| && f.rows[i] == x && RowComplete(f, i) {
      DropNullRowsKeeps(f, x);
    }
    forall x ensures x in NullRowLabels(f) <==> exists i :: 0 <= i < |f.rows| && f.rows[i] == x && !RowComplete(f, i) {
      NullRowLabelsHas(f, x);
    }
    if Sorted(f.rows) {
      TakeRowsSorted(f, w);
    }
  }

  lemma DropNullRowsKeeps(f: Frame, x: string)
    requires Shaped(f)
    ensures x in DropNullRows(f).rows <==> exists i :: 0 <= i < |f.rows| && f.rows[i] == x && RowComplete(f, i)
  {
    var w := CompleteRows(f);
    var r := DropNullRows(f);
    if x in r.rows {
      var k :| 0 <= k < |r.rows| && r.rows[k] == x;
      assert f.rows[w[k]] == x;
    }
    if exists i :: 0 <= i < |f.rows| && f.rows[i] == x && RowComplete(f, i) {
      var i :| 0 <= i < |f.rows| && f.rows[i] == x && RowComplete(f, i);
      var k :| 0 <= k < |w| && w[k] == i;
      assert r.rows[k] == x;
    }
  }

  lemma NullRowLabelsHas(f: Frame, x: string)
    requires Shaped(f)
    ensures x in NullRowLabels(f) <==> exists i :: 0 <= i < |f.rows| && f.rows[i] == x && !RowComplete(f, i)
  {
    var d := NullRowLabels(f);
    var v := IncompleteRows(f);
    if x in d {
      var k :| 0 <= k < |d| && d[k] == x;
      assert f.rows[v[k]] == x;
    }
    if exists i :: 0 <= i < |f.rows| && f.rows[i] == x && !RowComplete(f, i) {
      var i :| 0 <= i < |f.rows| && f.rows[i] == x && !RowComplete(f, i);
      var k :| 0 <= k < |v| && v[k] == i;
      assert d[k] == x;
    }
  }


  function Unlisted(f: Frame, labels: set<string>): nat -> bool
  {
    (i: nat) => i < |f.rows| && f.rows[i] !in labels
  }

  function KeptRows(f: Frame, labels: set<string>): (idx: seq<nat>)
    ensures Below(idx, |f.rows|) && Increasing(idx)
    ensures forall k :: 0 <= k < |idx| ==> f.rows[idx[k]] !in labels
    ensures forall i :: 0 <= i < |f.rows| && f.rows[i] !in labels ==> i in idx
  {
    WhereSpec(|f.rows|, Unlisted(f, labels));
    Where(|f.rows|, Unlisted(f, labels))
  }

  /** `drop(list(set(index) & set(labels)))`: drops every row whose label is
      in `labels`. */
  function DropLabels(f: Frame, labels: set<string>): (r: Frame)
    requires Shaped(f)
    ensures Shaped(r) && r.cols == f.cols
  {
    TakeRows(f, KeptRows(f, labels))
  }

  /** Dropping labels removes exactly the rows under them, keeps the order
      of the rest, and is the identity for no labels. */
  lemma DropLabelsSpec(f: Frame, labels: set<string>)
    requires Shaped(f)
    ensures var r := DropLabels(f, labels);
      (forall x :: x in r.rows <==> x in f.rows && x !in labels) &&
      (Sorted(f.rows) ==> Sorted(r.rows)) &&
      (Distinct(f.rows) ==> Distinct(r.rows)) &&
      (labels == {} ==> r == f)
  {
    DropLabelsRows(f, labels);
    var w := KeptRows(f, labels);
    if Sorted(f.rows) {
      TakeRowsSorted(f, w);
    }
    if Distinct(f.rows) {
      TakeRowsDistinct(f, w);
    }
    if labels == {} {
      DropAbsentLabels(f, {});
    }
  }

  lemma DropLabelsRows(f: Frame, labels: set<string>)
    requires Shaped(f)
    ensures forall x :: x in DropLabels(f, labels).rows <==> x in f.rows && x !in labels
  {
    var w := KeptRows(f, labels);
    var r := DropLabels(f, labels);
    forall x ensures x in r.rows <==> x in f.rows && x !in labels {
      if x in r.rows {
        var k :| 0 <= k < |r.rows| && r.rows[k] == x;
        assert f.rows[w[k]] == x;
      }
      if x in f.rows && x !in labels {
        var i :| 0 <= i < |f.rows| && f.rows[i] == x;
        var k :| 0 <= k < |w| && w[k] == i;
        assert r.rows[k] == x;
      }
    }
  }

  /** Dropping labels none of the rows carries changes nothing. */
  lemma DropAbsentLabels(f: Frame, labels: set<string>)
    requires Shaped(f) && forall x :: x in f.rows ==> x !in labels
    ensures DropLabels(f, labels) == f
  {
    var w := KeptRows(f, labels);
    WhereAll(|f.rows|, Unlisted(f, labels));
    assert w == seq(|f.rows|, k => k);
    var r := DropLabels(f, labels);
    assert r.rows == f.rows;
    assert r.data == f.data;
  }

  // ---------------------------------------------------------------------
  // Column selection by label (df[labels])

  function ColumnMatch(cols: seq<string>, l: string): nat -> bool
  {
    (j: nat) => j < |cols| && cols[j] == l
  }

  function ColumnsNamed(cols: seq<string>, labels: seq<string>): (idx: seq<nat>)
    ensures Below(idx, |cols|)
  {
    if labels == [] then []
    else
      var l := labels[|labels| - 1];
      WhereSpec(|cols|, ColumnMatch(cols, l));
      ColumnsNamed(cols, labels[..|labels| - 1]) + Where(|cols|, ColumnMatch(cols, l))
  }

  /** `df[labels]`: every column of each label, in the order of `labels`; a
      label that is not a column is pandas' KeyError. */
  function SelectColumns(f: Frame, labels: seq<string>): (r: Result<Frame>)
    requires Shaped(f)
    ensures r.Failure? <==> exists l :: l in labels && l !in f.cols
    ensures r.Success? ==> Shaped(r.value) && r.value.rows == f.rows
  {
    if exists l :: l in labels && l !in f.cols then Failure("KeyError: not in index")
    else Success(TakeCols(f, ColumnsNamed(f.cols, labels)))
  }

  lemma {:induction false} ColumnsNamedDistinct(cols: seq<string>, labels: seq<string>)
    requires Distinct(cols) && forall l :: l in labels ==> l in cols
    ensures |ColumnsNamed(cols, labels)| == |labels|
    ensures forall k :: 0 <= k < |labels| ==> cols[ColumnsNamed(cols, labels)[k]] == labels[k]
  {
    if labels != [] {
      var init := labels[..|labels| - 1];
      var l := labels[|labels| - 1];
      assert l in labels;
      ColumnsNamedDistinct(cols, init);
      var j := IndexOf(cols, l);
      WhereSingle(|cols|, ColumnMatch(cols, l), j);
      var idx := ColumnsNamed(cols, labels);
      assert idx == ColumnsNamed(cols, init) + [j];
      forall k | 0 <= k < |labels| ensures cols[idx[k]] == labels[k] {
        if k < |init| {
          assert labels[k] == init[k];
        }
      }
    }
  }

  /** Selecting labels that are all (unique) columns yields exactly those
      columns, in the requested order, and the rows unchanged. */
  lemma SelectColumnsSpec(f: Frame, labels: seq<string>)
    requires Shaped(f) && Distinct(f.cols) && forall l :: l in labels ==> l in f.cols
    ensures SelectColumns(f, labels).Success?
    ensures SelectColumns(f, labels).value.cols == labels
  {
    ColumnsNamedDistinct(f.cols, labels);
  }
}

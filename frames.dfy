/**
 * The data frame that impute_knn (Functions.py) works on, and the column
 * bookkeeping it does before its loop: the split by dtype (select_dtypes),
 * the columns with a missing entry (cols_nan) and the fully observed ones
 * (cols_no_nan, which pandas returns sorted by label).
 */
module Frames {
  import opened Wrappers

  /** One column: its label, whether pandas stores it with a numeric dtype,
      and its cells from top to bottom (None is a missing entry, NaN in pandas). */
  datatype Column<V> = Column(name: string, isNumeric: bool, values: seq<Option<V>>)

  /** A data frame: the length of its row index and its columns from left to right. */
  datatype Frame<V> = Frame(rows: nat, columns: seq<Column<V>>)
  {
    /** Every column has exactly one cell per row. */
    ghost predicate WellFormed() {
      Shaped(columns, rows)
    }
  }

  ghost predicate Shaped<V>(cols: seq<Column<V>>, n: nat) {
    forall j :: 0 <= j < |cols| ==> |cols[j].values| == n
  }

  /** No cell of the column is missing. */
  predicate Complete<V>(c: Column<V>) {
    forall i :: 0 <= i < |c.values| ==> c.values[i].Some?
  }

  /** No two columns share a label. */
  ghost predicate UniqueNames<V>(cols: seq<Column<V>>) {
    forall a, b :: 0 <= a < b < |cols| ==> cols[a].name != cols[b].name
  }

  ghost predicate Increasing(s: seq<nat>) {
    forall a, b :: 0 <= a < b < |s| ==> s[a] < s[b]
  }

  /** df.select_dtypes(include=[np.number]) when `numeric` holds, and
      df.select_dtypes(exclude=[np.number]) otherwise: the columns of that
      kind, in their original left-to-right order. */
  function SelectDtypes<V>(cols: seq<Column<V>>, numeric: bool): (r: seq<Column<V>>)
    ensures forall k :: 0 <= k < |r| ==> r[k].isNumeric == numeric
    ensures |r| <= |cols|
  {
    if cols == [] then []
    else (if cols[0].isNumeric == numeric then [cols[0]] else []) + SelectDtypes(cols[1..], numeric)
  }

  /** The two dtype groups together hold every column of the frame exactly
      as often as the frame does: nothing is dropped or duplicated. */
  lemma {:induction false} SelectDtypesPartitions<V>(cols: seq<Column<V>>)
    ensures multiset(SelectDtypes(cols, true)) + multiset(SelectDtypes(cols, false)) == multiset(cols)
    ensures |SelectDtypes(cols, true)| + |SelectDtypes(cols, false)| == |cols|
  {
    if cols != [] {
      var tail := cols[1..];
      SelectDtypesPartitions(tail);
      assert cols == [cols[0]] + tail;
    }
  }

  /** Selection distributes over concatenation: the columns of one kind in
      the left part come first, in their order, then those of the right part
      in theirs. With the one-column case (a column is kept exactly when it
      has the kind) this fixes the order of each dtype group completely. */
  lemma {:induction false} SelectDtypesAppend<V>(a: seq<Column<V>>, b: seq<Column<V>>, numeric: bool)
    ensures SelectDtypes(a + b, numeric) == SelectDtypes(a, numeric) + SelectDtypes(b, numeric)
  {
    if a == [] {
      assert a + b == b;
    } else {
      assert (a + b)[0] == a[0];
      assert (a + b)[1..] == a[1..] + b;
      SelectDtypesAppend(a[1..], b, numeric);
    }
  }

  /** A dtype group holds exactly the frame's columns of that kind. */
  lemma {:induction false} SelectDtypesMembers<V>(cols: seq<Column<V>>, numeric: bool)
    ensures forall c :: c in SelectDtypes(cols, numeric) <==> c in cols && c.isNumeric == numeric
  {
    if cols != [] {
      SelectDtypesMembers(cols[1..], numeric);
      assert cols == [cols[0]] + cols[1..];
    }
  }

  /** Both dtype groups keep the frame's shape. */
  lemma {:induction false} SelectDtypesShaped<V>(cols: seq<Column<V>>, numeric: bool, n: nat)
    requires Shaped(cols, n)
    ensures Shaped(SelectDtypes(cols, numeric), n)
  {
    if cols != [] {
      SelectDtypesShaped(cols[1..], numeric, n);
    }
  }

  /** The positions below `m`, in ascending order, of the columns that are
      complete (when `complete` holds) or that have a missing entry (otherwise). */
  function IndicesWhere<V>(cols: seq<Column<V>>, complete: bool, m: nat): (r: seq<nat>)
    requires m <= |cols|
    ensures forall j: nat :: j in r <==> j < m && Complete(cols[j]) == complete
    ensures Below(r, m) && Increasing(r)
  {
    if m == 0 then []
    else
      var p := IndicesWhere(cols, complete, m - 1);
      if Complete(cols[m - 1]) == complete then p + [m - 1] else p
  }

  /** cols_nan: the numeric columns with at least one missing entry, in
      column order (ldf.columns[ldf.isna().any()]). */
  function ColsNan<V>(num: seq<Column<V>>): (r: seq<nat>)
    ensures forall j: nat :: j in r <==> j < |num| && !Complete(num[j])
    ensures Increasing(r)
  {
    IndicesWhere(num, false, |num|)
  }

  /** Python's ordering of str values: lexicographic by code point, a
      proper prefix sorting first. */
  predicate NameLeq(a: string, b: string) {
    |a| == 0 || (|b| > 0 && (a[0] < b[0] || (a[0] == b[0] && NameLeq(a[1..], b[1..]))))
  }

  lemma {:induction false} NameLeqTotal(a: string, b: string)
    ensures NameLeq(a, b) || NameLeq(b, a)
  {
    if |a| > 0 && |b| > 0 && a[0] == b[0] {
      NameLeqTotal(a[1..], b[1..]);
    }
  }

  /** Every entry of `idx` is a position below `n`. */
  ghost predicate Below(idx: seq<nat>, n: nat) {
    forall k :: 0 <= k < |idx| ==> idx[k] < n
  }

  /** The positions in `idx` name columns whose labels appear in ascending order. */
  ghost predicate SortedByName<V>(cols: seq<Column<V>>, idx: seq<nat>)
    requires Below(idx, |cols|)
  {
    forall k :: 0 < k < |idx| ==> NameLeq(cols[idx[k - 1]].name, cols[idx[k]].name)
  }

  /** Inserts position `j` into the label-sorted positions `idx`, before
      the first position whose label is not below `j`'s. */
  function InsertByName<V>(cols: seq<Column<V>>, j: nat, idx: seq<nat>): (r: seq<nat>)
    requires j < |cols| && Below(idx, |cols|)
    ensures multiset(r) == multiset(idx) + multiset{j}
    ensures Below(r, |cols|) && |r| == |idx| + 1
    ensures r[0] == j || (|idx| > 0 && r[0] == idx[0])
  {
    if idx == [] || NameLeq(cols[j].name, cols[idx[0]].name) then [j] + idx
    else
      assert idx == [idx[0]] + idx[1..];
      [idx[0]] + InsertByName(cols, j, idx[1..])
  }

  /** Inserting into a label-sorted sequence keeps it sorted. */
  lemma {:induction false} InsertByNameSorted<V>(cols: seq<Column<V>>, j: nat, idx: seq<nat>)
    requires j < |cols| && Below(idx, |cols|) && SortedByName(cols, idx)
    ensures SortedByName(cols, InsertByName(cols, j, idx))
  {
    if idx != [] && !NameLeq(cols[j].name, cols[idx[0]].name) {
      var tail := idx[1..];
      assert SortedByName(cols, tail);
      InsertByNameSorted(cols, j, tail);
      NameLeqTotal(cols[j].name, cols[idx[0]].name);
      var r := InsertByName(cols, j, idx);
      var rest := InsertByName(cols, j, tail);
      assert r == [idx[0]] + rest;
      assert NameLeq(cols[r[0]].name, cols[r[1]].name);
      forall k | 1 < k < |r| ensures NameLeq(cols[r[k - 1]].name, cols[r[k]].name) {
        assert r[k - 1] == rest[k - 2] && r[k] == rest[k - 1];
      }
    }
  }

  /** The positions `idx` reordered so that their columns' labels ascend. */
  function SortByName<V>(cols: seq<Column<V>>, idx: seq<nat>): (r: seq<nat>)
    requires Below(idx, |cols|)
    ensures multiset(r) == multiset(idx)
    ensures Below(r, |cols|)
    ensures SortedByName(cols, r)
  {
    if idx == [] then []
    else
      assert idx == [idx[0]] + idx[1..];
      var rest := SortByName(cols, idx[1..]);
      InsertByNameSorted(cols, idx[0], rest);
      InsertByName(cols, idx[0], rest)
  }

  /** cols_no_nan: the numeric columns with no missing entry
      (ldf.columns.difference(cols_nan)), each once, sorted by label. */
  function ColsNoNan<V>(num: seq<Column<V>>): (r: seq<nat>)
    ensures forall j: nat :: j in r <==> j < |num| && Complete(num[j])
    ensures forall j :: j in r ==> multiset(r)[j] == 1
    ensures Below(r, |num|) && SortedByName(num, r)
  {
    var observed := IndicesWhere(num, true, |num|);
    var r := SortByName(num, observed);
    assert forall j :: j in r <==> j in multiset(observed);
    IncreasingOnce(observed);
    r
  }

  lemma {:induction false} IncreasingOnce(s: seq<nat>)
    requires Increasing(s)
    ensures forall j :: j in s ==> multiset(s)[j] == 1
  {
    if s != [] {
      IncreasingOnce(s[1..]);
      assert s == [s[0]] + s[1..];
      assert s[0] !in s[1..];
    }
  }

  /** cols_nan and cols_no_nan never share a column, and together they
      cover every numeric column. */
  lemma ColsNanNoNanPartition<V>(num: seq<Column<V>>)
    ensures forall j :: j in ColsNan(num) ==> j !in ColsNoNan(num)
    ensures forall j :: 0 <= j < |num| ==> j in ColsNan(num) || j in ColsNoNan(num)
  {
  }
}

/**
 * impute_knn (Functions.py:9-30): every missing entry of every numeric
 * column is replaced by a K-nearest-neighbours prediction. The regressor
 * itself is a parameter; what is modelled is the bookkeeping around it:
 * which rows train it, which rows it is asked about, which cells receive
 * its answers, and how the frame is put back together.
 */
module Imputer {
  import opened Wrappers
  import opened Frames

  /** n_neighbors of the KNeighborsRegressor built for every column. */
  const Neighbours: nat := 5

  /** The ways one call of impute_knn fails. The first two are raised by the
      regressor's fit / predict, the third by the pandas .loc assignment. */
  datatype ImputeError =
    | NoFeatureColumns                                 // cols_no_nan is empty: zero predictor features
    | TooFewTrainingRows(found: nat)                   // fewer complete rows than neighbours
    | PredictionCountMismatch(expected: nat, got: nat) // one prediction per missing cell is required

  /** fit(features, targets) followed by predict(query features). */
  type Regressor<!V> = (seq<seq<V>>, seq<V>, seq<seq<V>>) -> seq<V>

  /** A regressor that answers with exactly one value per query row. */
  ghost predicate OnePerQuery<V(!new)>(predict: Regressor<V>) {
    forall x, y, q :: |predict(x, y, q)| == |q|
  }

  /** col.isna(): which cells of the column are missing. */
  function MissingMask<V>(vals: seq<Option<V>>): (m: seq<bool>)
    ensures |m| == |vals|
    ensures forall i :: 0 <= i < |vals| ==> m[i] == vals[i].None?
  {
    seq(|vals|, i requires 0 <= i < |vals| => vals[i].None?)
  }

  function CountTrue(m: seq<bool>): nat
  {
    if m == [] then 0 else CountTrue(m[..|m| - 1]) + (if m[|m| - 1] then 1 else 0)
  }

  /** The row positions selected by a boolean mask, top to bottom: the
      index of ldf[mask]. */
  function RowsWhere(m: seq<bool>): (r: seq<nat>)
    ensures |r| == CountTrue(m)
    ensures forall i: nat :: i in r <==> i < |m| && m[i]
    ensures Below(r, |m|) && Increasing(r)
  {
    if m == [] then []
    else
      var p := RowsWhere(m[..|m| - 1]);
      assert forall i :: 0 <= i < |m| - 1 ==> m[..|m| - 1][i] == m[i];
      if m[|m| - 1] then p + [|m| - 1] else p
  }

  /** Row `i` has a value in every column. */
  predicate RowComplete<V>(cols: seq<Column<V>>, i: nat) {
    forall j :: 0 <= j < |cols| ==> i < |cols[j].values| && cols[j].values[i].Some?
  }

  /** ldf.dropna(): the rows with no missing value in any column. */
  function CompleteRows<V>(cols: seq<Column<V>>, n: nat): (r: seq<nat>)
    ensures forall i: nat :: i in r <==> i < n && RowComplete(cols, i)
    ensures Below(r, n) && Increasing(r)
  {
    RowsWhere(seq(n, i requires 0 <= i < n => RowComplete(cols, i)))
  }

  /** The given feature columns all exist and have no missing entry. */
  ghost predicate FullyObserved<V>(cols: seq<Column<V>>, features: seq<nat>) {
    Below(features, |cols|) && forall k :: 0 <= k < |features| ==> Complete(cols[features[k]])
  }

  /** frame.loc[rows, features] as a matrix of plain values. */
  function Gather<V>(cols: seq<Column<V>>, features: seq<nat>, rows: seq<nat>, n: nat): (x: seq<seq<V>>)
    requires Shaped(cols, n) && FullyObserved(cols, features) && Below(rows, n)
    ensures |x| == |rows|
    ensures forall k :: 0 <= k < |rows| ==> |x[k]| == |features|
    ensures forall k, f :: 0 <= k < |rows| && 0 <= f < |features| ==>
              Some(x[k][f]) == cols[features[f]].values[rows[k]]
  {
    seq(|rows|, k requires 0 <= k < |rows| =>
      seq(|features|, f requires 0 <= f < |features| => cols[features[f]].values[rows[k]].value))
  }

  /** column.loc[rows] as plain values; every selected cell must be present. */
  function Target<V>(c: Column<V>, rows: seq<nat>): (y: seq<V>)
    requires forall k :: 0 <= k < |rows| ==> rows[k] < |c.values| && c.values[rows[k]].Some?
    ensures |y| == |rows|
    ensures forall k :: 0 <= k < |rows| ==> Some(y[k]) == c.values[rows[k]]
  {
    seq(|rows|, k requires 0 <= k < |rows| => c.values[rows[k]].value)
  }

  /** col.loc[mask] = preds, built from the top row down: a masked row
      takes the next prediction, any other row keeps its cell. What it
      writes where is stated by FillAtKeeps and FillAtWrites. */
  function FillAt<V>(vals: seq<Option<V>>, mask: seq<bool>, preds: seq<V>): (r: seq<Option<V>>)
    requires |mask| == |vals| && |preds| == CountTrue(mask)
    ensures |r| == |vals|
    decreases |vals|
  {
    if vals == [] then []
    else
      var last := |vals| - 1;
      if mask[last] then FillAt(vals[..last], mask[..last], preds[..|preds| - 1]) + [Some(preds[|preds| - 1])]
      else FillAt(vals[..last], mask[..last], preds) + [vals[last]]
  }

  /** Every cell outside the mask keeps its value. */
  lemma {:induction false} FillAtKeeps<V>(vals: seq<Option<V>>, mask: seq<bool>, preds: seq<V>)
    requires |mask| == |vals| && |preds| == CountTrue(mask)
    ensures forall i :: 0 <= i < |vals| && !mask[i] ==> FillAt(vals, mask, preds)[i] == vals[i]
    decreases |vals|
  {
    if vals != [] {
      var last := |vals| - 1;
      var p := if mask[last] then preds[..|preds| - 1] else preds;
      FillAtKeeps(vals[..last], mask[..last], p);
      var r := FillAt(vals, mask, preds);
      assert r[..last] == FillAt(vals[..last], mask[..last], p);
      forall i | 0 <= i < |vals| && !mask[i] ensures r[i] == vals[i] {
        if i < last {
          assert mask[..last][i] == mask[i] && vals[..last][i] == vals[i] && r[..last][i] == r[i];
        }
      }
    }
  }

  /** The k-th masked row, top to bottom, receives preds[k]. */
  lemma {:induction false} FillAtWrites<V>(vals: seq<Option<V>>, mask: seq<bool>, preds: seq<V>)
    requires |mask| == |vals| && |preds| == CountTrue(mask)
    ensures forall k :: 0 <= k < |preds| ==> FillAt(vals, mask, preds)[RowsWhere(mask)[k]] == Some(preds[k])
    decreases |vals|
  {
    if vals != [] {
      var last := |vals| - 1;
      var front := RowsWhere(mask[..last]);
      var rows := RowsWhere(mask);
      RowsWhereLast(mask);
      var r := FillAt(vals, mask, preds);
      if mask[last] {
        var p := preds[..|preds| - 1];
        var rest := FillAt(vals[..last], mask[..last], p);
        FillAtWrites(vals[..last], mask[..last], p);
        assert r == rest + [Some(preds[|preds| - 1])];
        assert rows == front + [last];
        forall k | 0 <= k < |preds| ensures r[rows[k]] == Some(preds[k]) {
          if k < |front| {
            assert rows[k] == front[k] && front[k] < last && p[k] == preds[k];
          }
        }
      } else {
        var rest := FillAt(vals[..last], mask[..last], preds);
        FillAtWrites(vals[..last], mask[..last], preds);
        assert r == rest + [vals[last]];
        assert rows == front;
        forall k | 0 <= k < |preds| ensures r[rows[k]] == Some(preds[k]) {
          assert front[k] < last;
        }
      }
    }
  }

  /** The masked rows of a mask are those of its front, then the last row if it is masked. */
  lemma RowsWhereLast(mask: seq<bool>)
    requires mask != []
    ensures var front := RowsWhere(mask[..|mask| - 1]);
      && RowsWhere(mask) == (if mask[|mask| - 1] then front + [|mask| - 1] else front)
      && Below(front, |mask| - 1)
  {
  }

  /** After the mask is written, no masked cell is missing. */
  lemma FillAtCoversMask<V>(vals: seq<Option<V>>, mask: seq<bool>, preds: seq<V>)
    requires |mask| == |vals| && |preds| == CountTrue(mask)
    ensures forall i :: 0 <= i < |vals| && mask[i] ==> FillAt(vals, mask, preds)[i].Some?
  {
    var rows := RowsWhere(mask);
    FillAtWrites(vals, mask, preds);
    forall i | 0 <= i < |vals| && mask[i] ensures FillAt(vals, mask, preds)[i].Some? {
      var k :| 0 <= k < |rows| && rows[k] == i;
    }
  }

  /** `after` has the shape and labels of `before`. */
  ghost predicate SameShape<V>(before: seq<Column<V>>, after: seq<Column<V>>) {
    && |after| == |before|
    && (forall j :: 0 <= j < |before| ==>
          after[j].name == before[j].name && after[j].isNumeric == before[j].isNumeric
          && |after[j].values| == |before[j].values|)
  }

  /** `after` has the shape and labels of `before`, and every cell that is
      present in `before` holds the same value in `after`: only missing
      cells may have been written. */
  ghost predicate Refines<V>(before: seq<Column<V>>, after: seq<Column<V>>) {
    && SameShape(before, after)
    && (forall j, i :: 0 <= j < |before| && 0 <= i < |before[j].values| && before[j].values[i].Some? ==>
          after[j].values[i] == before[j].values[i])
  }

  /** The state of the loop of impute_knn: the working frame `ldf` and the
      original numeric frame `df` have the same shape, and the predictor
      columns are fully observed in `ldf`. */
  ghost predicate Working<V>(ldf: seq<Column<V>>, df: seq<Column<V>>, features: seq<nat>, n: nat) {
    |ldf| == |df| && Shaped(ldf, n) && Shaped(df, n) && FullyObserved(ldf, features)
  }

  /** The columns still to impute exist and are not predictors. */
  ghost predicate Pending<V>(ldf: seq<Column<V>>, todo: seq<nat>, features: seq<nat>) {
    Below(todo, |ldf|) && forall k :: 0 <= k < |todo| ==> todo[k] !in features
  }

  /** The regressor's answers in one iteration: fit on the complete rows of
      the working frame, with the predictor columns as features and `col`
      as target, then predict for the rows where `col` is missing. */
  function Answers<V>(ldf: seq<Column<V>>, col: nat, features: seq<nat>, n: nat, predict: Regressor<V>): seq<V>
    requires Shaped(ldf, n) && FullyObserved(ldf, features) && col < |ldf|
  {
    var impTest := RowsWhere(MissingMask(ldf[col].values));
    var impTrain := CompleteRows(ldf, n);
    CompleteRowsPresent(ldf, n, col);
    predict(Gather(ldf, features, impTrain, n), Target(ldf[col], impTrain), Gather(ldf, features, impTest, n))
  }

  /** One iteration of the loop, for column `col`: train on the complete rows
      of the working frame, predict for the rows where `col` is missing, and
      write the predictions where the ORIGINAL frame has `col` missing. */
  function Step<V>(ldf: seq<Column<V>>, df: seq<Column<V>>, col: nat, features: seq<nat>, n: nat,
                   predict: Regressor<V>): (r: Result<seq<Column<V>>, ImputeError>)
    requires Working(ldf, df, features, n) && col < |ldf|
    ensures r.Ok? ==> SameShape(ldf, r.value)
    ensures r.Ok? ==> forall j :: 0 <= j < |ldf| && j != col ==> r.value[j] == ldf[j]
    ensures r.Ok? && ldf[col] == df[col] ==> Refines(ldf, r.value) && Complete(r.value[col])
    ensures |features| == 0 ==> r == Err(NoFeatureColumns)
    ensures |features| > 0 && |CompleteRows(ldf, n)| < Neighbours ==> r == Err(TooFewTrainingRows(|CompleteRows(ldf, n)|))
    ensures r.Err? && r.error.PredictionCountMismatch? ==>
      r.error.expected == CountTrue(MissingMask(df[col].values)) != r.error.got
  {
    var impTrain := CompleteRows(ldf, n);
    if |features| == 0 then Err(NoFeatureColumns)
    else if |impTrain| < Neighbours then Err(TooFewTrainingRows(|impTrain|))
    else
      var preds := Answers(ldf, col, features, n, predict);
      var mask := MissingMask(df[col].values);
      if |preds| != CountTrue(mask) then Err(PredictionCountMismatch(CountTrue(mask), |preds|))
      else Ok(WriteColumn(ldf, col, mask, preds))
  }

  /** Every complete row has a value in column `col`. */
  lemma CompleteRowsPresent<V>(cols: seq<Column<V>>, n: nat, col: nat)
    requires col < |cols|
    ensures var rows := CompleteRows(cols, n);
      forall k :: 0 <= k < |rows| ==> rows[k] < |cols[col].values| && cols[col].values[rows[k]].Some?
  {
    var rows := CompleteRows(cols, n);
    forall k | 0 <= k < |rows| ensures rows[k] < |cols[col].values| && cols[col].values[rows[k]].Some? {
      assert rows[k] in rows;
      assert RowComplete(cols, rows[k]);
    }
  }

  /** What a successful step asks the regressor and where its answers go:
      the k-th row from the top where `col` is missing receives the k-th
      answer of `Answers`, the regressor trained on the complete rows over
      the predictor columns and queried on those missing rows. */
  lemma StepWrites<V>(ldf: seq<Column<V>>, df: seq<Column<V>>, col: nat, features: seq<nat>, n: nat,
                      predict: Regressor<V>)
    requires Working(ldf, df, features, n) && col < |ldf| && ldf[col] == df[col]
    requires Step(ldf, df, col, features, n, predict).Ok?
    ensures var test := RowsWhere(MissingMask(ldf[col].values));
      var p := Answers(ldf, col, features, n, predict);
      && |p| == |test|
      && forall k :: 0 <= k < |test| ==> Step(ldf, df, col, features, n, predict).value[col].values[test[k]] == Some(p[k])
  {
    FillAtWrites(ldf[col].values, MissingMask(df[col].values), Answers(ldf, col, features, n, predict));
  }

  /** ldf.loc[mask, col] = preds on the whole working frame: only column
      `col` changes, only at masked cells, and when the mask is exactly
      the column's missing set the column comes out complete. */
  function WriteColumn<V>(ldf: seq<Column<V>>, col: nat, mask: seq<bool>, preds: seq<V>): (r: seq<Column<V>>)
    requires col < |ldf| && |mask| == |ldf[col].values| && |preds| == CountTrue(mask)
    ensures SameShape(ldf, r)
    ensures forall j :: 0 <= j < |ldf| && j != col ==> r[j] == ldf[j]
    ensures (forall i :: 0 <= i < |mask| && mask[i] ==> ldf[col].values[i].None?) ==> Refines(ldf, r)
    ensures (forall i :: 0 <= i < |mask| ==> mask[i] == ldf[col].values[i].None?) ==> Complete(r[col])
  {
    FillAtKeeps(ldf[col].values, mask, preds);
    FillAtCoversMask(ldf[col].values, mask, preds);
    ldf[col := ldf[col].(values := FillAt(ldf[col].values, mask, preds))]
  }

  /** The loop `for col in todo`, stopping at the first failure. */
  function Run<V>(ldf: seq<Column<V>>, df: seq<Column<V>>, todo: seq<nat>, features: seq<nat>, n: nat,
                  predict: Regressor<V>): Result<seq<Column<V>>, ImputeError>
    requires Working(ldf, df, features, n) && Pending(ldf, todo, features)
    decreases |todo|
  {
    if todo == [] then Ok(ldf)
    else
      match Step(ldf, df, todo[0], features, n, predict)
      case Err(e) => Err(e)
      case Ok(next) => Run(next, df, todo[1..], features, n, predict)
  }

  /** One turn of the loop: a failing step ends it with that failure, a
      successful one leaves a working frame from which the rest continues. */
  lemma RunUnfolds<V>(ldf: seq<Column<V>>, df: seq<Column<V>>, todo: seq<nat>, features: seq<nat>, n: nat,
                      predict: Regressor<V>)
    requires Working(ldf, df, features, n) && Pending(ldf, todo, features) && todo != []
    ensures var s := Step(ldf, df, todo[0], features, n, predict);
      && (s.Err? ==> Run(ldf, df, todo, features, n, predict) == Err(s.error))
      && (s.Ok? ==> Working(s.value, df, features, n) && Pending(s.value, todo[1..], features)
                    && Run(ldf, df, todo, features, n, predict) == Run(s.value, df, todo[1..], features, n, predict))
  {
  }

  /** impute_knn(df): split by dtype, impute the numeric group column by
      column, then put the numeric group first and the rest after it. */
  function Impute<V>(df: Frame<V>, predict: Regressor<V>): Result<Frame<V>, ImputeError>
    requires df.WellFormed() && UniqueNames(df.columns)
  {
    var num := SelectDtypes(df.columns, true);
    var putAside := SelectDtypes(df.columns, false);
    LoopStarts(df);
    match Run(num, num, ColsNan(num), ColsNoNan(num), df.rows, predict)
    case Err(e) => Err(e)
    case Ok(filled) => Ok(Frame(df.rows, filled + putAside))
  }

  /** The loop's precondition holds when it starts: the numeric group is
      shaped like the frame, cols_no_nan is fully observed and no column of
      cols_nan is a predictor. */
  lemma LoopStarts<V>(df: Frame<V>)
    requires df.WellFormed()
    ensures var num := SelectDtypes(df.columns, true);
      Working(num, num, ColsNoNan(num), df.rows) && Pending(num, ColsNan(num), ColsNoNan(num))
  {
    var num := SelectDtypes(df.columns, true);
    SelectDtypesShaped(df.columns, true, df.rows);
    var nan, noNan := ColsNan(num), ColsNoNan(num);
    forall k | 0 <= k < |noNan| ensures Complete(num[noNan[k]]) {
      assert noNan[k] in noNan;
    }
    forall k | 0 <= k < |nan| ensures nan[k] < |num| && nan[k] !in noNan {
      assert nan[k] in nan;
    }
  }

  /** Refines is transitive: writes into missing cells compose. */
  lemma RefinesTransitive<V>(a: seq<Column<V>>, b: seq<Column<V>>, c: seq<Column<V>>)
    requires Refines(a, b) && Refines(b, c)
    ensures Refines(a, c)
  {
  }

  /** The loop over `todo`, when every column of `todo` is still as in the
      original frame (so the write mask is the column's current missing
      set), only fills missing cells, leaves every other column alone and
      leaves each column of `todo` complete. */
  lemma {:induction false} RunFills<V>(ldf: seq<Column<V>>, df: seq<Column<V>>, todo: seq<nat>,
                                       features: seq<nat>, n: nat, predict: Regressor<V>)
    requires Working(ldf, df, features, n) && Pending(ldf, todo, features) && Increasing(todo)
    requires forall k :: 0 <= k < |todo| ==> ldf[todo[k]] == df[todo[k]]
    ensures Run(ldf, df, todo, features, n, predict).Ok? ==>
      var out := Run(ldf, df, todo, features, n, predict).value;
      && Refines(ldf, out)
      && (forall j :: 0 <= j < |ldf| && j !in todo ==> out[j] == ldf[j])
      && (forall k :: 0 <= k < |todo| ==> Complete(out[todo[k]]))
    decreases |todo|
  {
    if todo != [] {
      var col := todo[0];
      RunUnfolds(ldf, df, todo, features, n, predict);
      var s := Step(ldf, df, col, features, n, predict);
      if s.Ok? {
        var next := s.value;
        var rest := todo[1..];
        assert forall k :: 0 <= k < |rest| ==> rest[k] == todo[k + 1] && rest[k] != col;
        RunFills(next, df, rest, features, n, predict);
        var r := Run(next, df, rest, features, n, predict);
        if r.Ok? {
          var out := r.value;
          RefinesTransitive(ldf, next, out);
          assert col !in rest;
          assert out[col] == next[col];
          forall j | 0 <= j < |ldf| && j !in todo ensures out[j] == ldf[j] {
            assert j != col && j !in rest;
          }
          forall k | 0 <= k < |todo| ensures Complete(out[todo[k]]) {
            if k > 0 {
              assert todo[k] == rest[k - 1];
            }
          }
        }
      }
    }
  }

  /** CountTrue is monotone: a mask that holds wherever another holds
      selects at least as many rows. */
  lemma {:induction false} CountTrueMonotone(a: seq<bool>, b: seq<bool>)
    requires |a| == |b| && forall i :: 0 <= i < |a| && a[i] ==> b[i]
    ensures CountTrue(a) <= CountTrue(b)
    decreases |a|
  {
    if a != [] {
      CountTrueMonotone(a[..|a| - 1], b[..|b| - 1]);
    }
  }

  /** A step on a column still as in the original frame keeps every
      complete row complete, so the training set of
      the next column is a superset of this column's and never smaller. */
  lemma StepGrowsTrainingRows<V>(ldf: seq<Column<V>>, df: seq<Column<V>>, col: nat, features: seq<nat>,
                                 n: nat, predict: Regressor<V>)
    requires Working(ldf, df, features, n) && col < |ldf| && ldf[col] == df[col]
    requires Step(ldf, df, col, features, n, predict).Ok?
    ensures var next := Step(ldf, df, col, features, n, predict).value;
      && (forall i :: i in CompleteRows(ldf, n) ==> i in CompleteRows(next, n))
      && |CompleteRows(next, n)| >= |CompleteRows(ldf, n)|
  {
    var next := Step(ldf, df, col, features, n, predict).value;
    RefinesKeepsCompleteRows(ldf, next, n);
  }

  lemma RefinesKeepsCompleteRows<V>(before: seq<Column<V>>, after: seq<Column<V>>, n: nat)
    requires Refines(before, after)
    ensures forall i :: i in CompleteRows(before, n) ==> i in CompleteRows(after, n)
    ensures |CompleteRows(after, n)| >= |CompleteRows(before, n)|
  {
    var a := seq(n, i requires 0 <= i < n => RowComplete(before, i));
    var b := seq(n, i requires 0 <= i < n => RowComplete(after, i));
    forall i | 0 <= i < n && a[i] ensures b[i] {
      assert RowComplete(before, i);
    }
    CountTrueMonotone(a, b);
  }

  /** With a regressor that answers once per query row, a predictor set that
      is not empty and enough complete rows in the original frame, every
      step succeeds: complete rows only grow, and each write mask counts
      exactly the rows the regressor was asked about. */
  lemma {:induction false} RunSucceeds<V(!new)>(ldf: seq<Column<V>>, df: seq<Column<V>>, todo: seq<nat>,
                                          features: seq<nat>, n: nat, predict: Regressor<V>)
    requires Working(ldf, df, features, n) && Pending(ldf, todo, features) && Increasing(todo)
    requires forall k :: 0 <= k < |todo| ==> ldf[todo[k]] == df[todo[k]]
    requires todo == [] || (features != [] && |CompleteRows(ldf, n)| >= Neighbours)
    requires OnePerQuery(predict)
    ensures Run(ldf, df, todo, features, n, predict).Ok?
    decreases |todo|
  {
    if todo != [] {
      var col := todo[0];
      assert ldf[col] == df[col];
      assert MissingMask(ldf[col].values) == MissingMask(df[col].values);
      RunUnfolds(ldf, df, todo, features, n, predict);
      var s := Step(ldf, df, col, features, n, predict);
      assert s.Ok?;
      var next := s.value;
      var rest := todo[1..];
      assert forall k :: 0 <= k < |rest| ==> rest[k] == todo[k + 1] && rest[k] != col;
      RefinesKeepsCompleteRows(ldf, next, n);
      RunSucceeds(next, df, rest, features, n, predict);
    }
  }

  /** What a successful impute_knn promises about its output. */
  ghost predicate Imputed<V>(df: Frame<V>, out: Frame<V>)
    requires df.WellFormed()
  {
    var num := SelectDtypes(df.columns, true);
    var putAside := SelectDtypes(df.columns, false);
    && out.rows == df.rows
    && out.WellFormed()
    && |out.columns| == |df.columns|
    // the numeric group first, label for label, and only missing cells written
    && |num| <= |out.columns|
    && Refines(num, out.columns[..|num|])
    // every numeric column is complete
    && (forall j :: 0 <= j < |num| ==> Complete(out.columns[j]))
    // a numeric column without missing entries comes out unchanged
    && (forall j :: 0 <= j < |num| && Complete(num[j]) ==> out.columns[j] == num[j])
    // the non-numeric group after it, untouched and in its original order
    && out.columns[|num|..] == putAside
  }

  /** The properties of impute_knn: same rows, every column once (numeric
      first, then the rest), non-numeric columns untouched, observed cells
      unchanged, and every numeric column complete. */
  lemma ImputeKnnContract<V>(df: Frame<V>, predict: Regressor<V>)
    requires df.WellFormed() && UniqueNames(df.columns)
    ensures Impute(df, predict).Ok? ==> Imputed(df, Impute(df, predict).value)
  {
    var num := SelectDtypes(df.columns, true);
    var putAside := SelectDtypes(df.columns, false);
    LoopStarts(df);
    var nan, noNan := ColsNan(num), ColsNoNan(num);
    var run := Run(num, num, nan, noNan, df.rows, predict);
    RunFills(num, num, nan, noNan, df.rows, predict);
    if run.Ok? {
      var filled := run.value;
      forall j | 0 <= j < |num| ensures Complete(filled[j]) {
        if j in nan {
          var k :| 0 <= k < |nan| && nan[k] == j;
        }
      }
      AssembleImputed(df, filled);
    }
  }

  /** Putting a filled numeric group in front of the untouched non-numeric
      group gives a frame with the promised properties. */
  lemma AssembleImputed<V>(df: Frame<V>, filled: seq<Column<V>>)
    requires df.WellFormed()
    requires var num := SelectDtypes(df.columns, true);
      && Refines(num, filled)
      && (forall j :: 0 <= j < |num| ==> Complete(filled[j]))
      && (forall j :: 0 <= j < |num| && Complete(num[j]) ==> filled[j] == num[j])
    ensures Imputed(df, Frame(df.rows, filled + SelectDtypes(df.columns, false)))
  {
    var num := SelectDtypes(df.columns, true);
    var putAside := SelectDtypes(df.columns, false);
    var out := Frame(df.rows, filled + putAside);
    SelectDtypesPartitions(df.columns);
    SelectDtypesShaped(df.columns, true, df.rows);
    SelectDtypesShaped(df.columns, false, df.rows);
    assert out.columns[..|num|] == filled;
    assert out.columns[|num|..] == putAside;
  }

  /** impute_knn succeeds when there is nothing to impute, or when some
      numeric column is fully observed, the original frame has at least
      five complete rows and the regressor answers once per query row. */
  lemma ImputeSucceeds<V(!new)>(df: Frame<V>, predict: Regressor<V>)
    requires df.WellFormed() && UniqueNames(df.columns)
    requires var num := SelectDtypes(df.columns, true);
      ColsNan(num) == [] || (ColsNoNan(num) != [] && |CompleteRows(num, df.rows)| >= Neighbours)
    requires OnePerQuery(predict)
    ensures Impute(df, predict).Ok?
  {
    var num := SelectDtypes(df.columns, true);
    LoopStarts(df);
    RunSucceeds(num, num, ColsNan(num), ColsNoNan(num), df.rows, predict);
  }

  /** When every numeric column has a missing entry there is no predictor
      left and impute_knn fails at its first column. */
  lemma AllColumnsMissingFails<V>(df: Frame<V>, predict: Regressor<V>)
    requires df.WellFormed() && UniqueNames(df.columns)
    requires var num := SelectDtypes(df.columns, true);
      |num| > 0 && forall j :: 0 <= j < |num| ==> !Complete(num[j])
    ensures Impute(df, predict) == Err(NoFeatureColumns)
  {
    var num := SelectDtypes(df.columns, true);
    LoopStarts(df);
    var nan, noNan := ColsNan(num), ColsNoNan(num);
    assert 0 in nan;
    assert forall j: nat :: j !in noNan;
    RunUnfolds(num, num, nan, noNan, df.rows, predict);
  }

  /** With fewer than five complete rows, impute_knn fails at its first
      column with a missing entry, reporting how many rows it had. */
  lemma TooFewCompleteRowsFails<V>(df: Frame<V>, predict: Regressor<V>)
    requires df.WellFormed() && UniqueNames(df.columns)
    requires var num := SelectDtypes(df.columns, true);
      ColsNan(num) != [] && ColsNoNan(num) != [] && |CompleteRows(num, df.rows)| < Neighbours
    ensures var num := SelectDtypes(df.columns, true);
      Impute(df, predict) == Err(TooFewTrainingRows(|CompleteRows(num, df.rows)|))
  {
    LoopStarts(df);
  }

  /** impute_knn as it runs: the working frame `ldf` is reassigned once per
      column of cols_nan, and the loop stops at the first failure. */
  method ImputeKnn<V>(df: Frame<V>, predict: Regressor<V>) returns (r: Result<Frame<V>, ImputeError>)
    requires df.WellFormed() && UniqueNames(df.columns)
    ensures r == Impute(df, predict)
    ensures r.Ok? ==> Imputed(df, r.value)
  {
    var num := SelectDtypes(df.columns, true);
    var putAside := SelectDtypes(df.columns, false);
    var colsNan := ColsNan(num);
    var colsNoNan := ColsNoNan(num);
    LoopStarts(df);
    ImputeKnnContract(df, predict);
    var ldf := num;
    var i := 0;
    while i < |colsNan|
      invariant 0 <= i <= |colsNan|
      invariant Working(ldf, num, colsNoNan, df.rows) && Pending(ldf, colsNan[i..], colsNoNan)
      invariant Run(ldf, num, colsNan[i..], colsNoNan, df.rows, predict)
             == Run(num, num, colsNan, colsNoNan, df.rows, predict)
    {
      var col := colsNan[i];
      RunUnfolds(ldf, num, colsNan[i..], colsNoNan, df.rows, predict);
      assert colsNan[i..][1..] == colsNan[i + 1..];
      var impTest := RowsWhere(MissingMask(ldf[col].values));
      var impTrain := CompleteRows(ldf, df.rows);
      if |colsNoNan| == 0 {
        return Err(NoFeatureColumns);
      }
      if |impTrain| < Neighbours {
        return Err(TooFewTrainingRows(|impTrain|));
      }
      CompleteRowsPresent(ldf, df.rows, col);
      var preds := predict(Gather(ldf, colsNoNan, impTrain, df.rows), Target(ldf[col], impTrain),
                           Gather(ldf, colsNoNan, impTest, df.rows));
      assert preds == Answers(ldf, col, colsNoNan, df.rows, predict);
      var mask := MissingMask(num[col].values);
      if |preds| != CountTrue(mask) {
        return Err(PredictionCountMismatch(CountTrue(mask), |preds|));
      }
      ldf := WriteColumn(ldf, col, mask, preds);
      i := i + 1;
    }
    r := Ok(Frame(df.rows, ldf + putAside));
  }
}

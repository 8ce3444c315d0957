/** The training data of `train_model.py`: the next-day direction target
    and the feature matrix the classifier is fitted on. */
module Training {
  import opened Common
  import opened SeqUtil

  /** One cell of the feature table. */
  datatype Cell = Missing | Number(value: real) | Text(text: string)

  /** The feature table as read: named columns and rows of cells. */
  datatype Table = Table(columns: seq<string>, rows: seq<seq<Cell>>)

  /** Every row has one cell per column, as in any data frame. */
  ghost predicate Rectangular(t: Table) {
    forall i :: 0 <= i < |t.rows| ==> |t.rows[i]| == |t.columns|
  }

  /** `return_1d` of a row as a number; a missing cell is NaN. */
  function ReturnOf(c: Cell): Option<real> {
    if c.Number? then Some(c.value) else None
  }

  /** `(return_1d.shift(-1) > 0).astype(int)`: 1 exactly when the next
      row's return is present and strictly positive; the last row, whose
      shifted value is missing, gets 0. */
  function Targets(rets: seq<Option<real>>): (y: seq<int>)
    ensures |y| == |rets|
    ensures forall i :: 0 <= i < |y| ==> y[i] == 0 || y[i] == 1
    ensures |y| > 0 ==> y[|y| - 1] == 0
    ensures forall i :: 0 <= i < |y| - 1 ==>
      (y[i] == 1 <==> rets[i + 1].Some? && rets[i + 1].value > 0.0)
  {
    seq(|rets|, i requires 0 <= i < |rets| =>
      if i + 1 < |rets| && rets[i + 1].Some? && rets[i + 1].value > 0.0 then 1 else 0)
  }

  /** A zero return is not an up day. */
  lemma FlatDayIsNotUp(rets: seq<Option<real>>, i: nat)
    requires i + 1 < |rets| && rets[i + 1] == Some(0.0)
    ensures Targets(rets)[i] == 0
  {
  }

  /** A row with its target attached; the target cell is never missing. */
  datatype Labelled = Labelled(cells: seq<Cell>, target: Option<int>)

  predicate HasTarget(r: Labelled) {
    r.target.Some?
  }

  /** `dropna(subset=["target"])` removes nothing: every target is an
      integer, so no row, in particular not the last, is dropped. */
  lemma DropnaKeepsEveryRow(rows: seq<seq<Cell>>, y: seq<int>)
    requires |rows| == |y|
    ensures var labelled := seq(|rows|, i requires 0 <= i < |rows| => Labelled(rows[i], Some(y[i])));
      Filter(labelled, HasTarget) == labelled
  {
    var labelled := seq(|rows|, i requires 0 <= i < |rows| => Labelled(rows[i], Some(y[i])));
    FilterAll(labelled, HasTarget);
  }

  /** The columns `df.drop(["date", "Close", "target"], axis=1)` keeps. */
  predicate IsFeatureName(c: string) {
    c != "date" && c != "Close" && c != "target"
  }

  /** `fillna(0)`. */
  function FillZero(c: Cell): (r: Cell)
    ensures r != Missing
    ensures c != Missing ==> r == c
  {
    if c.Missing? then Number(0.0) else c
  }

  predicate IsReturnColumn(c: string) {
    c == "return_1d"
  }

  /** The `return_1d` column, column `ret` of the table. */
  function ReturnColumn(t: Table, ret: nat): (rets: seq<Option<real>>)
    requires Rectangular(t) && ret < |t.columns|
    ensures |rets| == |t.rows|
  {
    seq(|t.rows|, i requires 0 <= i < |t.rows| => ReturnOf(t.rows[i][ret]))
  }

  /** `read_csv` reads a column holding any text cell as text throughout
      (missing cells stay NaN), and `shift(-1) > 0` compares the cells of
      rows 1 onwards with 0; a text cell compared with 0 is a `TypeError`. */
  predicate TextReturnCompared(t: Table, ret: nat)
    requires Rectangular(t) && ret < |t.columns|
  {
    && (exists i :: 0 <= i < |t.rows| && t.rows[i][ret].Text?)
    && (exists i :: 1 <= i < |t.rows| && t.rows[i][ret] != Missing)
  }

  /** The matrix, the labels and the saved feature names. */
  datatype TrainingSet = TrainingSet(featureNames: seq<string>, x: seq<seq<Cell>>, y: seq<int>)

  /** Lines 35-45: the target from `return_1d` (a missing column raises),
      the drop of date, Close and target (a missing date or Close column
      raises), the zero fill, and the feature names read off the matrix. */
  function BuildTrainingSet(t: Table): (r: Result<TrainingSet>)
    requires Rectangular(t)
    ensures r.Err? <==>
      || "return_1d" !in t.columns
      || TextReturnCompared(t, FirstIndex(t.columns, IsReturnColumn).value)
      || "date" !in t.columns || "Close" !in t.columns
    ensures "return_1d" in t.columns && TextReturnCompared(t, FirstIndex(t.columns, IsReturnColumn).value) ==>
      r == Err(TextCompared("return_1d"))
    ensures r.Ok? ==>
      && |r.value.x| == |t.rows| && |r.value.y| == |t.rows|
      && r.value.featureNames == Filter(t.columns, IsFeatureName)
      && (forall i :: 0 <= i < |t.rows| ==> |r.value.x[i]| == |r.value.featureNames|)
      && (forall i, k :: 0 <= i < |t.rows| && 0 <= k < |r.value.featureNames| ==> r.value.x[i][k] != Missing)
      && r.value.y == Targets(ReturnColumn(t, FirstIndex(t.columns, IsReturnColumn).value))
  {
    match FirstIndex(t.columns, IsReturnColumn)
    case None => Err(MissingColumn("return_1d"))
    case Some(ret) =>
      var y := Targets(ReturnColumn(t, ret));
      if TextReturnCompared(t, ret) then Err(TextCompared("return_1d"))
      else if "date" !in t.columns then Err(MissingColumn("date"))
      else if "Close" !in t.columns then Err(MissingColumn("Close"))
      else
        var kept := FilterIndices(t.columns, IsFeatureName);
        var x := seq(|t.rows|, i requires 0 <= i < |t.rows| =>
          seq(|kept|, k requires 0 <= k < |kept| => FillZero(t.rows[i][kept[k]])));
        Ok(TrainingSet(Filter(t.columns, IsFeatureName), x, y))
  }

  /** A text return after the first row stops training with a `TypeError`
      before any other column is looked at. */
  lemma TextReturnRaises()
    ensures BuildTrainingSet(Table(["date", "Close", "return_1d"],
      [[Number(1.0), Number(1.0), Number(0.1)], [Number(2.0), Number(1.0), Text("x")]]))
      == Err(TextCompared("return_1d"))
  {
    var t := Table(["date", "Close", "return_1d"],
      [[Number(1.0), Number(1.0), Number(0.1)], [Number(2.0), Number(1.0), Text("x")]]);
    assert FirstIndex(t.columns, IsReturnColumn) == Some(2);
    assert t.rows[1][2].Text?;
  }

  /** The matrix columns are the kept columns in table order: column `k` of
      the matrix is the table column named `featureNames[k]`, zero-filled. */
  lemma MatrixColumnsMatchNames(t: Table)
    requires Rectangular(t) && BuildTrainingSet(t).Ok?
    ensures var s := BuildTrainingSet(t).value;
      var kept := FilterIndices(t.columns, IsFeatureName);
      && |kept| == |s.featureNames|
      && (forall a, b :: 0 <= a < b < |kept| ==> kept[a] < kept[b])
      && (forall k :: 0 <= k < |kept| ==> t.columns[kept[k]] == s.featureNames[k] && IsFeatureName(s.featureNames[k]))
      && (forall i, k :: 0 <= i < |t.rows| && 0 <= k < |kept| ==> s.x[i][k] == FillZero(t.rows[i][kept[k]]))
  {
    FilterPicks(t.columns, IsFeatureName);
  }

  /** Every table column other than date, Close and target becomes a
      feature. */
  lemma EveryOtherColumnIsAFeature(t: Table, j: int)
    requires Rectangular(t) && BuildTrainingSet(t).Ok?
    requires 0 <= j < |t.columns| && IsFeatureName(t.columns[j])
    ensures t.columns[j] in BuildTrainingSet(t).value.featureNames
  {
  }
}

/** The rows of a signals file: the feature table's date and Close columns
    with the classifier's `prediction` and `probability` attached.  The
    backtest, the command-line viewer and the chart all read this table. */
module Signals {
  import opened Common
  import opened SeqUtil

  /** One signals row whose date parsed. */
  datatype Signal = Signal(date: int, close: real, prediction: Option<int>, probability: Option<real>)

  /** One signals row as read; its date is missing (NaT) when
      `pd.to_datetime(..., errors="coerce")` could not parse it. */
  datatype RawSignal = RawSignal(date: Option<int>, close: real, prediction: Option<int>, probability: Option<real>)

  predicate HasDate(r: RawSignal) {
    r.date.Some?
  }

  function Parsed(r: RawSignal): Signal
    requires r.date.Some?
  {
    Signal(r.date.value, r.close, r.prediction, r.probability)
  }

  /** A parsed row with its date turned back into a cell. */
  function Unparse(r: Signal): RawSignal {
    RawSignal(Some(r.date), r.close, r.prediction, r.probability)
  }

  function UnparseAll(rows: seq<Signal>): seq<RawSignal> {
    seq(|rows|, k requires 0 <= k < |rows| => Unparse(rows[k]))
  }

  /** `df.dropna(subset=["date"])` after the coercing date parse: giving the
      dates back yields exactly the rows of `raw` whose date parsed, in file
      order, and every such row is kept. */
  function DropUnparsedDates(raw: seq<RawSignal>): (rows: seq<Signal>)
    ensures UnparseAll(rows) == Filter(raw, HasDate)
    ensures forall j :: 0 <= j < |raw| && raw[j].date.Some? ==> Parsed(raw[j]) in rows
  {
    var kept := Filter(raw, HasDate);
    var rows := seq(|kept|, k requires 0 <= k < |kept| => Parsed(kept[k]));
    assert forall j :: 0 <= j < |raw| && raw[j].date.Some? ==> Parsed(raw[j]) in rows by {
      forall j | 0 <= j < |raw| && raw[j].date.Some?
        ensures Parsed(raw[j]) in rows
      {
        var k :| 0 <= k < |kept| && kept[k] == raw[j];
        assert rows[k] == Parsed(raw[j]);
      }
    }
    rows
  }

  /** Dates strictly increase down the table (sorted, one row per date). */
  ghost predicate DatesIncreasing(rows: seq<Signal>) {
    forall i, j :: 0 <= i < j < |rows| ==> rows[i].date < rows[j].date
  }

  /** Removing rows keeps the rest in date order. */
  lemma SubsequenceKeepsDateOrder(r: seq<Signal>, s: seq<Signal>)
    requires IsSubsequence(r, s) && DatesIncreasing(s)
    ensures DatesIncreasing(r)
  {
    var idx :| Picks(r, s, idx);
  }
}

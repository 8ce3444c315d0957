/** The chart of `visualize_signals.py`: the signals inside an optional
    date window, split into the bullish and the bearish markers drawn over
    the price line. */
module Visualize {
  import opened Common
  import opened SeqUtil
  import opened Signals

  predicate InWindow(r: Signal, start: Option<int>, end: Option<int>) {
    (start.None? || r.date >= start.value) && (end.None? || r.date <= end.value)
  }

  function StartMask(start: int): Signal -> bool {
    (r: Signal) => r.date >= start
  }

  function EndMask(end: int): Signal -> bool {
    (r: Signal) => r.date <= end
  }

  function WindowMask(start: Option<int>, end: Option<int>): Signal -> bool {
    r => InWindow(r, start, end)
  }

  /** The `--start` filter then the `--end` filter, each skipped when its
      bound is not given. */
  function DateWindow(rows: seq<Signal>, start: Option<int>, end: Option<int>): seq<Signal> {
    var fromStart := if start.Some? then Filter(rows, StartMask(start.value)) else rows;
    if end.Some? then Filter(fromStart, EndMask(end.value)) else fromStart
  }

  /** The two successive bounds act as one inclusive window: a row is kept
      exactly when it lies on or between the given bounds, in its order. */
  lemma DateWindowIsOneFilter(rows: seq<Signal>, start: Option<int>, end: Option<int>)
    ensures DateWindow(rows, start, end) == Filter(rows, WindowMask(start, end))
  {
    match (start, end)
    case (None, None) =>
      FilterAll(rows, WindowMask(start, end));
    case (Some(s), None) =>
      FilterExtensional(rows, StartMask(s), WindowMask(start, end));
    case (None, Some(e)) =>
      FilterExtensional(rows, EndMask(e), WindowMask(start, end));
    case (Some(s), Some(e)) =>
      FilterConjunction(rows, StartMask(s), EndMask(e), WindowMask(start, end));
  }

  /** The rows the chart is drawn from: inside the window, in file order,
      with every row of the window present. */
  lemma WindowedRows(rows: seq<Signal>, start: Option<int>, end: Option<int>)
    ensures var w := DateWindow(rows, start, end);
      && IsSubsequence(w, rows)
      && (forall k :: 0 <= k < |w| ==> InWindow(w[k], start, end))
      && (forall j :: 0 <= j < |rows| && InWindow(rows[j], start, end) ==> rows[j] in w)
  {
    DateWindowIsOneFilter(rows, start, end);
    FilterIsSubsequence(rows, WindowMask(start, end));
  }

  /** A narrower window shows a subsequence of a wider one. */
  lemma NarrowerWindow(rows: seq<Signal>, start: int, laterStart: int, end: Option<int>)
    requires start <= laterStart
    ensures IsSubsequence(DateWindow(rows, Some(laterStart), end), DateWindow(rows, Some(start), end))
  {
    var wide := WindowMask(Some(start), end);
    var narrow := WindowMask(Some(laterStart), end);
    DateWindowIsOneFilter(rows, Some(start), end);
    DateWindowIsOneFilter(rows, Some(laterStart), end);
    FilterNarrow(rows, wide, narrow);
    FilterIsSubsequence(Filter(rows, wide), narrow);
  }

  predicate IsBullish(r: Signal) {
    r.prediction == Some(1)
  }

  predicate IsBearish(r: Signal) {
    r.prediction == Some(0)
  }

  /** What the script draws: nothing when the window is empty, otherwise the
      price line over every windowed row and the two marker sets. */
  datatype Chart = NothingToPlot | Chart(line: seq<Signal>, bullish: seq<Signal>, bearish: seq<Signal>)

  function Plot(raw: seq<RawSignal>, start: Option<int>, end: Option<int>): (c: Chart)
    ensures c.NothingToPlot? <==> DateWindow(DropUnparsedDates(raw), start, end) == []
    ensures c.Chart? ==> c.line == DateWindow(DropUnparsedDates(raw), start, end)
    ensures c.Chart? ==>
      && (forall k :: 0 <= k < |c.bullish| ==> c.bullish[k].prediction == Some(1))
      && (forall k :: 0 <= k < |c.bearish| ==> c.bearish[k].prediction == Some(0))
      && (forall j :: 0 <= j < |c.line| && c.line[j].prediction == Some(1) ==> c.line[j] in c.bullish)
      && (forall j :: 0 <= j < |c.line| && c.line[j].prediction == Some(0) ==> c.line[j] in c.bearish)
    ensures c.Chart? ==> |c.bullish| == Count(c.line, IsBullish) && |c.bearish| == Count(c.line, IsBearish)
  {
    var rows := DateWindow(DropUnparsedDates(raw), start, end);
    CountFilter(rows, IsBullish);
    CountFilter(rows, IsBearish);
    if rows == [] then NothingToPlot
    else Chart(rows, Filter(rows, IsBullish), Filter(rows, IsBearish))
  }

  /** The marker sets are disjoint, keep the order of the line, and a row
      whose prediction is neither 1 nor 0 (or is missing) gets no marker. */
  lemma MarkersPartition(raw: seq<RawSignal>, start: Option<int>, end: Option<int>)
    requires Plot(raw, start, end).Chart?
    ensures var c := Plot(raw, start, end);
      && IsSubsequence(c.bullish, c.line) && IsSubsequence(c.bearish, c.line)
      && (forall i, j :: 0 <= i < |c.bullish| && 0 <= j < |c.bearish| ==> c.bullish[i] != c.bearish[j])
      && (forall j :: 0 <= j < |c.line| && c.line[j].prediction !in {Some(0), Some(1)} ==>
            c.line[j] !in c.bullish && c.line[j] !in c.bearish)
  {
    var c := Plot(raw, start, end);
    FilterIsSubsequence(c.line, IsBullish);
    FilterIsSubsequence(c.line, IsBearish);
  }
}

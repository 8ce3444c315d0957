/** The feature table: the daily price table with its derived columns,
    joined on date with the weekly COT positions and the AAII sentiment
    survey, as `generate_features.py` builds it. */
module Features {
  import opened Common
  import opened SeqUtil
  import opened Strings

  // ----- load_price_data: the two-row header -----

  /** One column of the price file's first two lines; a missing cell is
      `None` and prints as "nan". */
  datatype HeaderCell = HeaderCell(top: Option<string>, bottom: Option<string>)

  /** `str(cell).strip()`. */
  function CellText(c: Option<string>): string {
    match c
    case None => "nan"
    case Some(s) => Strip(s)
  }

  /** The flattened name of one header column. */
  function ColumnName(h: HeaderCell): string {
    var top := CellText(h.top);
    var bottom := CellText(h.bottom);
    if top == "nan" then bottom
    else if bottom == "nan" then top
    else top + "_" + bottom
  }

  /** The loop that turns the two header lines into one name per column. */
  method FlattenHeader(header: seq<HeaderCell>) returns (cols: seq<string>)
    ensures |cols| == |header|
    ensures forall i :: 0 <= i < |header| ==> cols[i] == ColumnName(header[i])
  {
    cols := [];
    for i := 0 to |header|
      invariant |cols| == i
      invariant forall k :: 0 <= k < i ==> cols[k] == ColumnName(header[k])
    {
      var top := CellText(header[i].top);
      var bottom := CellText(header[i].bottom);
      var name;
      if top == "nan" {
        name := bottom;
      } else if bottom == "nan" {
        name := top;
      } else {
        name := top + "_" + bottom;
      }
      assert name == ColumnName(header[i]);
      ExtendMapped(cols, header, ColumnName);
      cols := cols + [name];
    }
  }

  /** A word of the top line survives flattening: whatever the bottom
      line holds, a column whose top cell mentions "Close" gets a name
      that mentions "Close". */
  lemma TopWordKept(h: HeaderCell, word: string)
    requires CellText(h.top) != "nan" && Contains(CellText(h.top), word)
    ensures Contains(ColumnName(h), word)
  {
    var top := CellText(h.top);
    var bottom := CellText(h.bottom);
    if bottom != "nan" {
      ContainsPrefix(top, "_", word);
      ContainsPrefix(top + "_", bottom, word);
    }
  }

  /** A missing or "nan" top cell leaves the bottom cell's text. */
  lemma MissingTopGivesBottom(h: HeaderCell)
    requires h.top == None || CellText(h.top) == "nan"
    ensures ColumnName(h) == CellText(h.bottom)
  {
  }

  /** Two plain cells join with an underscore. */
  lemma JoinedName(top: string, bottom: string)
    requires top != [] && !IsSpace(top[0]) && !IsSpace(top[|top| - 1]) && top != "nan"
    requires bottom != [] && !IsSpace(bottom[0]) && !IsSpace(bottom[|bottom| - 1]) && bottom != "nan"
    ensures ColumnName(HeaderCell(Some(top), Some(bottom))) == top + "_" + bottom
  {
    StripUnpadded(top);
    StripUnpadded(bottom);
  }

  /** A plain top cell over a missing bottom cell keeps the top text. */
  lemma TopOnlyName(top: string)
    requires top != [] && !IsSpace(top[0]) && !IsSpace(top[|top| - 1]) && top != "nan"
    ensures ColumnName(HeaderCell(Some(top), None)) == top
  {
    StripUnpadded(top);
  }

  /** The layout the price download writes: ("Close", "SPY") becomes
      "Close_SPY" and a column with an empty bottom cell keeps its top. */
  lemma PriceHeaderExample()
    ensures ColumnName(HeaderCell(Some("Close"), Some("SPY"))) == "Close_SPY"
    ensures ColumnName(HeaderCell(Some("Price"), None)) == "Price"
  {
    assert "Close"[0] == 'C' && "Close"[4] == 'e' && "Close" != "nan";
    assert "SPY"[0] == 'S' && "SPY"[2] == 'Y' && "SPY" != "nan";
    assert "Price"[0] == 'P' && "Price"[4] == 'e' && "Price" != "nan";
    JoinedName("Close", "SPY");
    TopOnlyName("Price");
    assert "Close" + "_" + "SPY" == "Close_SPY";
  }

  // ----- load_price_data: the rows -----

  /** One line of the price file below the header: its first cell as text,
      that cell's date if it parses, and the cell under the Close column. */
  datatype PriceLine = PriceLine(first: Option<string>, date: Option<int>, close: Option<real>)

  /** A price row that survived loading. */
  datatype PriceRow = PriceRow(date: int, close: Option<real>)

  predicate HasFirstCell(l: PriceLine) {
    l.first.Some?
  }

  predicate IsDataLine(l: PriceLine) {
    l.first.Some? && l.first.value != "Date"
  }

  predicate Loadable(l: PriceLine) {
    IsDataLine(l) && l.date.Some?
  }

  function ToPriceRow(l: PriceLine): PriceRow
    requires l.date.Some?
  {
    PriceRow(l.date.value, l.close)
  }

  /** The three successive row filters of `load_price_data`: a present
      first cell, a first cell other than the literal "Date", a date that
      parses. */
  function LoadedLines(lines: seq<PriceLine>): seq<PriceLine> {
    var present := Filter(lines, HasFirstCell);
    var data := Filter(present, IsDataLine);
    Filter(data, Loadable)
  }

  /** The three filters act as one: a line is kept exactly when its first
      cell is present, is not "Date", and parses as a date. */
  lemma LoadedLinesSingleMask(lines: seq<PriceLine>)
    ensures LoadedLines(lines) == Filter(lines, Loadable)
  {
    FilterNarrow(lines, HasFirstCell, IsDataLine);
    FilterNarrow(lines, IsDataLine, Loadable);
  }

  /** The price rows `load_price_data` returns, in file order. */
  function LoadPriceRows(lines: seq<PriceLine>): (rows: seq<PriceRow>)
    ensures |rows| == |Filter(lines, Loadable)| == Count(lines, Loadable)
    ensures forall k :: 0 <= k < |rows| ==> rows[k] == ToPriceRow(Filter(lines, Loadable)[k])
  {
    var kept := LoadedLines(lines);
    LoadedLinesSingleMask(lines);
    CountFilter(lines, Loadable);
    seq(|kept|, k requires 0 <= k < |kept| => ToPriceRow(kept[k]))
  }

  /** The literal header line "Date" never becomes a row, and neither does
      a line with an empty first cell. */
  lemma HeaderLinesDropped(lines: seq<PriceLine>, j: int)
    requires 0 <= j < |lines| && (lines[j].first == None || lines[j].first == Some("Date"))
    ensures lines[j] !in LoadedLines(lines)
  {
    LoadedLinesSingleMask(lines);
  }

  // ----- load_price_data: the columns -----

  /** `df.rename(columns={from: to})`: every column called `from` is renamed. */
  function Rename(cols: seq<string>, from: string, to: string): seq<string> {
    seq(|cols|, i requires 0 <= i < |cols| => if cols[i] == from then to else cols[i])
  }

  predicate MentionsClose(c: string) {
    Contains(c, "Close")
  }

  /** The column names of the loaded price table and the position of its
      Close column. */
  datatype PriceHeader = PriceHeader(names: seq<string>, close: nat)

  /** The first column is renamed "date"; then the first column whose name
      contains "Close" is renamed "Close", and there being none raises. */
  function PriceColumns(cols: seq<string>): (r: Result<PriceHeader>)
    ensures r.Ok? ==> |cols| > 0 && |r.value.names| == |cols| && r.value.names[0] == "date"
    ensures r.Ok? ==> r.value.close < |cols| && r.value.names[r.value.close] == "Close"
    ensures r.Ok? ==> cols[r.value.close] != cols[0] && MentionsClose(cols[r.value.close])
    ensures r.Ok? ==> forall j :: 0 <= j < r.value.close && cols[j] != cols[0] ==> !MentionsClose(cols[j])
    ensures r.Ok? ==> forall j :: 0 <= j < |cols| ==>
      r.value.names[j] == (if cols[j] == cols[0] then "date" else if cols[j] == cols[r.value.close] then "Close" else cols[j])
    ensures r.Err? <==> (cols == [] || forall j :: 0 <= j < |cols| && cols[j] != cols[0] ==> !MentionsClose(cols[j]))
  {
    if cols == [] then Err(MissingColumn("date"))
    else
      var named := Rename(cols, cols[0], "date");
      NoCloseInShortName("date");
      assert forall j :: 0 <= j < |cols| ==>
        (MentionsClose(named[j]) <==> cols[j] != cols[0] && MentionsClose(cols[j]));
      match FirstIndex(named, MentionsClose)
      case None => Err(MissingColumn("Close"))
      case Some(i) => Ok(PriceHeader(Rename(named, named[i], "Close"), i))
  }

  /** "Close" does not occur in a name shorter than itself. */
  lemma NoCloseInShortName(c: string)
    requires |c| < 5
    ensures !MentionsClose(c)
  {
    if Contains(c, "Close") {
      var i := ContainsWitness(c, "Close");
    }
  }

  // ----- load_cot_data -----

  /** One COT report row: the market name (missing cell `None`), the report
      date and the producer/merchant long and short positions. */
  datatype CotLine = CotLine(market: Option<string>, reportDate: int, long: real, short: real)

  predicate IsSpMarket(l: CotLine) {
    l.market.Some? && Contains(l.market.value, "S&P")
  }

  /** The S&P selection of `load_cot_data`: when the market-name column
      exists, the rows whose name contains "S&P" (case-sensitive, a missing
      name never matches) if there are any; every row otherwise. */
  function SelectCotLines(hasMarketColumn: bool, lines: seq<CotLine>): (r: seq<CotLine>)
    ensures IsSubsequence(r, lines)
    ensures !hasMarketColumn ==> r == lines
    ensures hasMarketColumn && (exists i :: 0 <= i < |lines| && IsSpMarket(lines[i])) ==>
      (forall k :: 0 <= k < |r| ==> IsSpMarket(r[k])) &&
      (forall j :: 0 <= j < |lines| && IsSpMarket(lines[j]) ==> lines[j] in r)
    ensures hasMarketColumn && (exists i :: 0 <= i < |lines| && IsSpMarket(lines[i])) ==>
      |r| == Count(lines, IsSpMarket)
    ensures (forall i :: 0 <= i < |lines| ==> !IsSpMarket(lines[i])) ==> r == lines
  {
    CountFilter(lines, IsSpMarket);
    if hasMarketColumn then PreferMatching(lines, IsSpMarket)
    else
      assert Picks(lines, lines, seq(|lines|, k requires 0 <= k < |lines| => k));
      lines
  }

  // ----- load_aaii_data -----

  predicate IsDateColumn(c: string) {
    Contains(Lower(c), "date") || Contains(c, "Date")
  }

  /** The second test of the date-column rule adds nothing: a name
      containing "Date" also contains "date" once lower-cased. */
  lemma DateColumnIsCaseInsensitive(c: string)
    ensures IsDateColumn(c) <==> Contains(Lower(c), "date")
  {
    if Contains(c, "Date") {
      ContainsLower(c, "Date");
      assert Lower("Date") == "date";
    }
  }

  /** The AAII date column: the first column whose lower-cased name
      contains "date"; there being none raises. */
  function AaiiDateColumn(cols: seq<string>): (r: Result<nat>)
    ensures r.Ok? ==> r.value < |cols| && Contains(Lower(cols[r.value]), "date")
    ensures r.Ok? ==> forall j :: 0 <= j < r.value ==> !Contains(Lower(cols[j]), "date")
    ensures r.Err? <==> forall j :: 0 <= j < |cols| ==> !Contains(Lower(cols[j]), "date")
  {
    forall c | c in cols
      ensures IsDateColumn(c) <==> Contains(Lower(c), "date")
    {
      DateColumnIsCaseInsensitive(c);
    }
    match FirstIndex(cols, IsDateColumn)
    case None => Err(MissingColumn("date"))
    case Some(i) => Ok(i)
  }

  /** The standard names the AAII rename gives the survey columns. */
  function StandardAaiiName(c: string): string {
    if c == "Bullish" then "bullish"
    else if c == "Bearish" then "bearish"
    else if c == "Neutral" then "neutral"
    else c
  }

  /** After the rename, the names `compute_aaii_features` reads are present
      whenever their capitalised forms were, and no other column changes. */
  function AaiiColumns(cols: seq<string>): (r: seq<string>)
    ensures |r| == |cols|
    ensures forall i :: 0 <= i < |cols| && cols[i] == "Bullish" ==> r[i] == "bullish"
    ensures forall i :: 0 <= i < |cols| && cols[i] == "Bearish" ==> r[i] == "bearish"
    ensures forall i :: 0 <= i < |cols| && cols[i] == "Neutral" ==> r[i] == "neutral"
    ensures forall i :: 0 <= i < |cols| && cols[i] !in ["Bullish", "Bearish", "Neutral"] ==> r[i] == cols[i]
  {
    seq(|cols|, i requires 0 <= i < |cols| => StandardAaiiName(cols[i]))
  }

  /** Renaming a second time changes nothing. */
  lemma AaiiColumnsIdempotent(cols: seq<string>)
    ensures AaiiColumns(AaiiColumns(cols)) == AaiiColumns(cols)
  {
    var once := AaiiColumns(cols);
    assert forall i :: 0 <= i < |once| ==> once[i] !in ["Bullish", "Bearish", "Neutral"];
  }

  /** A column present before the rename is present after it under its
      standard name. */
  lemma RenamedColumnPresent(cols: seq<string>, name: string)
    requires name in cols
    ensures StandardAaiiName(name) in AaiiColumns(cols)
  {
    var i :| 0 <= i < |cols| && cols[i] == name;
    assert AaiiColumns(cols)[i] == StandardAaiiName(name);
  }

  /** `compute_aaii_features` finds each of its three columns after the
      rename whenever the survey table had it in either spelling. */
  lemma AaiiColumnsProvideFeatures(cols: seq<string>)
    ensures "Bullish" in cols || "bullish" in cols ==> "bullish" in AaiiColumns(cols)
    ensures "Bearish" in cols || "bearish" in cols ==> "bearish" in AaiiColumns(cols)
    ensures "Neutral" in cols || "neutral" in cols ==> "neutral" in AaiiColumns(cols)
  {
    var names := ["Bullish", "bullish", "Bearish", "bearish", "Neutral", "neutral"];
    forall k | 0 <= k < |names| && names[k] in cols
      ensures StandardAaiiName(names[k]) in AaiiColumns(cols)
    {
      RenamedColumnPresent(cols, names[k]);
    }
    assert StandardAaiiName(names[0]) == "bullish" && StandardAaiiName(names[1]) == "bullish";
    assert StandardAaiiName(names[2]) == "bearish" && StandardAaiiName(names[3]) == "bearish";
    assert StandardAaiiName(names[4]) == "neutral" && StandardAaiiName(names[5]) == "neutral";
  }

  /** One AAII survey row; its date is missing when it did not parse. */
  datatype AaiiLine = AaiiLine(date: Option<int>, bullish: real, bearish: real, neutral: real)

  /** One AAII row whose date parsed. */
  datatype AaiiRow = AaiiRow(date: int, bullish: real, bearish: real, neutral: real)

  predicate AaiiDated(l: AaiiLine) {
    l.date.Some?
  }

  /** `df.dropna(subset=["date"])` on the survey table, order kept. */
  function LoadAaiiRows(lines: seq<AaiiLine>): (rows: seq<AaiiRow>)
    ensures |rows| == |Filter(lines, AaiiDated)| == Count(lines, AaiiDated)
    ensures forall k :: 0 <= k < |rows| ==>
      AaiiLine(Some(rows[k].date), rows[k].bullish, rows[k].bearish, rows[k].neutral) == Filter(lines, AaiiDated)[k]
  {
    var kept := Filter(lines, AaiiDated);
    CountFilter(lines, AaiiDated);
    seq(|kept|, k requires 0 <= k < |kept| =>
      AaiiRow(kept[k].date.value, kept[k].bullish, kept[k].bearish, kept[k].neutral))
  }

  // ----- compute_price_features -----

  /** A column of closes, possibly with missing cells. */
  type Column = seq<Option<real>>

  /** The latest present close at or before row `i` (the forward fill that
      `pct_change` applies before dividing). */
  function LastValid(c: Column, i: nat): (r: Option<real>)
    requires i < |c|
    ensures r.Some? ==> exists j :: 0 <= j <= i && c[j] == r && forall k :: j < k <= i ==> c[k].None?
    ensures r.None? <==> forall j :: 0 <= j <= i ==> c[j].None?
    decreases i
  {
    if c[i].Some? then c[i]
    else if i == 0 then None
    else LastValid(c, i - 1)
  }

  /** Row `i` is filled from the present close at row `j` when every row
      after `j` up to `i` is missing. */
  lemma {:induction false} LastValidAt(c: Column, i: nat, j: nat)
    requires j <= i < |c| && c[j].Some?
    requires forall k :: j < k <= i ==> c[k].None?
    ensures LastValid(c, i) == c[j]
    decreases i
  {
    if i > j {
      LastValidAt(c, i - 1, j);
    }
  }

  /** `return_1d`: the change of the forward-filled close against the
      previous row's, missing on the first row, before any close, and where
      the previous close is 0 (a division by zero). */
  function PctChange(c: Column, i: nat): Option<real>
    requires i < |c|
  {
    if i == 0 then None
    else match (LastValid(c, i), LastValid(c, i - 1))
      case (Some(now), Some(before)) =>
        if before == 0.0 then None else Some((now - before) / before)
      case _ => None
  }

  /** On a column without gaps the change is the plain one-step formula. */
  lemma PctChangeFormula(c: Column, i: nat)
    requires 0 < i < |c| && c[i].Some? && c[i - 1].Some? && c[i - 1].value != 0.0
    ensures PctChange(c, i) == Some((c[i].value - c[i - 1].value) / c[i - 1].value)
  {
  }

  lemma PctChangeFirstRow(c: Column)
    requires |c| > 0
    ensures PctChange(c, 0) == None
  {
  }

  /** A missing close is filled from the row before it, so its change is 0. */
  lemma PctChangeAcrossGap(c: Column, i: nat)
    requires 0 < i < |c| && c[i].None? && c[i - 1].Some? && c[i - 1].value != 0.0
    ensures PctChange(c, i) == Some(0.0)
  {
  }

  /** The first present close after a gap is compared with the last close
      before the gap, not with a missing value. */
  lemma PctChangeAfterGap(c: Column, i: nat, j: nat)
    requires j < i < |c| && c[i].Some? && c[j].Some? && c[j].value != 0.0
    requires forall k :: j < k < i ==> c[k].None?
    ensures PctChange(c, i) == Some((c[i].value - c[j].value) / c[j].value)
  {
    LastValidAt(c, i - 1, j);
  }

  predicate Complete(xs: Column) {
    forall k :: 0 <= k < |xs| ==> xs[k].Some?
  }

  function Total(xs: Column): real
    requires Complete(xs)
    decreases |xs|
  {
    if xs == [] then 0.0 else Total(xs[..|xs| - 1]) + xs[|xs| - 1].value
  }

  /** The `w` rows ending at row `i`. */
  function Window(c: Column, i: nat, w: nat): (win: Column)
    requires w <= i + 1 <= |c|
    ensures |win| == w
  {
    c[i + 1 - w..i + 1]
  }

  /** `rolling(window=w).mean()` at row `i`: missing before `w` rows exist
      and when a close in the window is missing. */
  function RollingMean(c: Column, i: nat, w: nat): Option<real>
    requires i < |c| && w > 0
  {
    if i + 1 < w then None
    else
      var win := Window(c, i, w);
      if Complete(win) then Some(Total(win) / w as real) else None
  }

  /** Sum of squared deviations from `m`. */
  function Deviation(xs: Column, m: real): real
    requires Complete(xs)
    decreases |xs|
  {
    if xs == [] then 0.0
    else
      var d := xs[|xs| - 1].value - m;
      Deviation(xs[..|xs| - 1], m) + d * d
  }

  /** The square of `rolling(window=w).std()` at row `i` (the sample
      variance, divisor `w - 1`), defined on the same rows as the mean. */
  function RollingVariance(c: Column, i: nat, w: nat): Option<real>
    requires i < |c| && w > 1
  {
    match RollingMean(c, i, w)
    case None => None
    case Some(m) => Some(Deviation(Window(c, i, w), m) / (w - 1) as real)
  }

  /** The undefined prefix: fewer than `w` rows give no mean. */
  lemma RollingUndefinedPrefix(c: Column, i: nat, w: nat)
    requires i < |c| && 0 < w && i < w - 1
    ensures RollingMean(c, i, w) == None
  {
  }

  /** On a column without gaps the mean is defined from row `w - 1` on. */
  lemma RollingDefinedOnCompleteColumn(c: Column, i: nat, w: nat)
    requires Complete(c) && i < |c| && 0 < w
    ensures RollingMean(c, i, w).Some? <==> i >= w - 1
  {
  }

  /** A missing close leaves the `w` windows that cover it undefined, even
      though its own row is dropped later. */
  lemma MissingCloseSpoilsWindows(c: Column, j: nat, i: nat, w: nat)
    requires j <= i < |c| && i < j + w && c[j].None?
    ensures RollingMean(c, i, w) == None
  {
    if i + 1 >= w {
      assert Window(c, i, w)[j - (i + 1 - w)] == c[j];
    }
  }

  lemma {:induction false} TotalBounds(xs: Column, lo: real, hi: real)
    requires Complete(xs)
    requires forall k :: 0 <= k < |xs| ==> lo <= xs[k].value <= hi
    ensures |xs| as real * lo <= Total(xs) <= |xs| as real * hi
    decreases |xs|
  {
    if xs != [] {
      TotalBounds(xs[..|xs| - 1], lo, hi);
    }
  }

  /** The mean lies between the smallest and the largest close of its window. */
  lemma MeanWithinWindow(c: Column, i: nat, w: nat, lo: real, hi: real)
    requires i < |c| && 0 < w <= i + 1
    requires forall k :: i + 1 - w <= k <= i ==> c[k].Some? && lo <= c[k].value <= hi
    ensures RollingMean(c, i, w).Some?
    ensures lo <= RollingMean(c, i, w).value <= hi
  {
    var win := Window(c, i, w);
    assert forall k :: 0 <= k < w ==> win[k] == c[i + 1 - w + k];
    TotalBounds(win, lo, hi);
    QuotientBounds(Total(win), w as real, lo, hi);
  }

  /** A total between `n` times two bounds, divided by `n`, lies between them. */
  lemma QuotientBounds(t: real, n: real, lo: real, hi: real)
    requires 0.0 < n && n * lo <= t <= n * hi
    ensures lo <= t / n <= hi
  {
    var q := t / n;
    assert (q - lo) * n == t - n * lo;
    assert (hi - q) * n == n * hi - t;
  }

  lemma {:induction false} DeviationNonNegative(xs: Column, m: real)
    requires Complete(xs)
    ensures Deviation(xs, m) >= 0.0
    decreases |xs|
  {
    if xs != [] {
      DeviationNonNegative(xs[..|xs| - 1], m);
      var d := xs[|xs| - 1].value - m;
      assert d * d >= 0.0 by {
        if d < 0.0 {
          assert (-d) * (-d) == d * d;
        }
      }
    }
  }

  /** Where it is defined, the volatility is a square of a real number:
      never negative. */
  lemma VarianceNonNegative(c: Column, i: nat, w: nat)
    requires i < |c| && w > 1 && RollingVariance(c, i, w).Some?
    ensures RollingVariance(c, i, w).value >= 0.0
  {
    var m := RollingMean(c, i, w).value;
    DeviationNonNegative(Window(c, i, w), m);
  }

  lemma {:induction false} ConstantTotal(xs: Column, v: real)
    requires forall k :: 0 <= k < |xs| ==> xs[k] == Some(v)
    ensures Complete(xs) && Total(xs) == |xs| as real * v && Deviation(xs, v) == 0.0
    decreases |xs|
  {
    if xs != [] {
      ConstantTotal(xs[..|xs| - 1], v);
    }
  }

  /** A flat price: the moving average is that price and the volatility 0. */
  lemma FlatWindow(c: Column, i: nat, w: nat, v: real)
    requires i < |c| && 1 < w <= i + 1
    requires forall k :: i + 1 - w <= k <= i ==> c[k] == Some(v)
    ensures RollingMean(c, i, w) == Some(v)
    ensures RollingVariance(c, i, w) == Some(0.0)
  {
    var win := Window(c, i, w);
    assert forall k :: 0 <= k < w ==> win[k] == c[i + 1 - w + k];
    ConstantTotal(win, v);
    assert Total(win) / w as real == v by {
      assert Total(win) == w as real * v;
    }
    assert RollingMean(c, i, w) == Some(Total(win) / w as real);
  }

  /** A price row with its derived columns; `variance10d` holds the square
      of `volatility_10d`. */
  datatype PriceFeatures = PriceFeatures(
    date: int, close: Option<real>,
    return1d: Option<real>, ma10: Option<real>, ma20: Option<real>, variance10d: Option<real>)

  function DateKey(r: PriceRow): real {
    r.date as real
  }

  function Closes(rows: seq<PriceRow>): (c: Column)
    ensures |c| == |rows|
  {
    seq(|rows|, i requires 0 <= i < |rows| => rows[i].close)
  }

  function Base(f: PriceFeatures): PriceRow {
    PriceRow(f.date, f.close)
  }

  function Bases(fs: seq<PriceFeatures>): (rows: seq<PriceRow>)
    ensures |rows| == |fs|
  {
    seq(|fs|, i requires 0 <= i < |fs| => Base(fs[i]))
  }

  /** `compute_price_features`: the rows sorted by date, each carrying the
      features computed over the sorted close column. */
  function ComputePriceFeatures(rows: seq<PriceRow>): (fs: seq<PriceFeatures>)
    ensures |fs| == |rows|
    ensures multiset(Bases(fs)) == multiset(rows)
    ensures forall i, j :: 0 <= i < j < |fs| ==> fs[i].date <= fs[j].date
  {
    var sorted := SortByKey(rows, DateKey);
    var c := Closes(sorted);
    var fs := seq(|sorted|, i requires 0 <= i < |sorted| =>
      PriceFeatures(sorted[i].date, sorted[i].close,
        PctChange(c, i), RollingMean(c, i, 10), RollingMean(c, i, 20), RollingVariance(c, i, 10)));
    assert Bases(fs) == sorted;
    assert |sorted| == |multiset(sorted)| == |multiset(rows)| == |rows|;
    fs
  }

  /** Each row's features are those of the sorted close column at its
      position: the first row has no return, and fewer than 10 (20) rows
      give no 10-row (20-row) average or volatility. */
  lemma PriceFeaturesPrefix(rows: seq<PriceRow>, i: nat)
    requires i < |rows|
    ensures ComputePriceFeatures(rows)[i].return1d == PctChange(Closes(Bases(ComputePriceFeatures(rows))), i)
    ensures ComputePriceFeatures(rows)[i].ma10 == RollingMean(Closes(Bases(ComputePriceFeatures(rows))), i, 10)
    ensures ComputePriceFeatures(rows)[i].ma20 == RollingMean(Closes(Bases(ComputePriceFeatures(rows))), i, 20)
    ensures ComputePriceFeatures(rows)[i].variance10d == RollingVariance(Closes(Bases(ComputePriceFeatures(rows))), i, 10)
    ensures i == 0 ==> ComputePriceFeatures(rows)[i].return1d == None
    ensures i < 9 ==> ComputePriceFeatures(rows)[i].ma10 == None && ComputePriceFeatures(rows)[i].variance10d == None
    ensures i < 19 ==> ComputePriceFeatures(rows)[i].ma20 == None
  {
    var sorted := SortByKey(rows, DateKey);
    var fs := ComputePriceFeatures(rows);
    assert Bases(fs) == sorted;
    assert Closes(Bases(fs)) == Closes(sorted);
  }

  // ----- compute_cot_features / compute_aaii_features -----

  datatype CotFeature = CotFeature(date: int, netCommercial: real)

  datatype AaiiFeature = AaiiFeature(date: int, bullish: real, bearish: real, neutral: real, bullBearSpread: real)

  /** The COT frame handed to `compute_cot_features`, which adds the
      `net_commercial` column to it in place. */
  class CotFrame {
    var lines: seq<CotLine>
    var netCommercial: Option<seq<real>>

    constructor (lines: seq<CotLine>)
      ensures this.lines == lines && netCommercial == None
    {
      this.lines := lines;
      netCommercial := None;
    }

    /** Adds `net_commercial = long - short` row by row, then returns the
        (date, net_commercial) projection. */
    method ComputeFeatures() returns (features: seq<CotFeature>)
      modifies this
      ensures lines == old(lines)
      ensures netCommercial.Some? && |netCommercial.value| == |lines|
      ensures forall i :: 0 <= i < |lines| ==> netCommercial.value[i] == lines[i].long - lines[i].short
      ensures |features| == |lines|
      ensures forall i :: 0 <= i < |lines| ==>
        features[i] == CotFeature(lines[i].reportDate, netCommercial.value[i])
    {
      var ls := lines;
      var net := seq(|ls|, i requires 0 <= i < |ls| => ls[i].long - ls[i].short);
      netCommercial := Some(net);
      features := seq(|ls|, i requires 0 <= i < |ls| => CotFeature(ls[i].reportDate, net[i]));
    }
  }

  /** The AAII frame handed to `compute_aaii_features`, which adds the
      `bull_bear_spread` column to it in place. */
  class AaiiFrame {
    var rows: seq<AaiiRow>
    var bullBearSpread: Option<seq<real>>

    constructor (rows: seq<AaiiRow>)
      ensures this.rows == rows && bullBearSpread == None
    {
      this.rows := rows;
      bullBearSpread := None;
    }

    /** Adds `bull_bear_spread = bullish - bearish` row by row, then returns
        the (date, bullish, bearish, neutral, spread) projection. */
    method ComputeFeatures() returns (features: seq<AaiiFeature>)
      modifies this
      ensures rows == old(rows)
      ensures bullBearSpread.Some? && |bullBearSpread.value| == |rows|
      ensures forall i :: 0 <= i < |rows| ==> bullBearSpread.value[i] == rows[i].bullish - rows[i].bearish
      ensures |features| == |rows|
      ensures forall i :: 0 <= i < |rows| ==>
        features[i] == AaiiFeature(rows[i].date, rows[i].bullish, rows[i].bearish, rows[i].neutral, bullBearSpread.value[i])
    {
      var rs := rows;
      var spread := seq(|rs|, i requires 0 <= i < |rs| => rs[i].bullish - rs[i].bearish);
      bullBearSpread := Some(spread);
      features := seq(|rs|, i requires 0 <= i < |rs| =>
        AaiiFeature(rs[i].date, rs[i].bullish, rs[i].bearish, rs[i].neutral, spread[i]));
    }
  }

  // ----- main: the merges and the final drop -----

  /** A row of the feature table: a price row and the COT and AAII rows
      dated the same day, when there are such rows (otherwise their
      columns are missing). */
  datatype FeatureRow = FeatureRow(price: PriceFeatures, cot: Option<CotFeature>, aaii: Option<AaiiFeature>)

  ghost predicate UniqueCotDates(cot: seq<CotFeature>) {
    forall i, j :: 0 <= i < j < |cot| ==> cot[i].date != cot[j].date
  }

  ghost predicate UniqueAaiiDates(aaii: seq<AaiiFeature>) {
    forall i, j :: 0 <= i < j < |aaii| ==> aaii[i].date != aaii[j].date
  }

  function MatchCot(cot: seq<CotFeature>, d: int): (r: Option<CotFeature>)
    ensures r.Some? ==> r.value in cot && r.value.date == d
    ensures r.None? ==> forall j :: 0 <= j < |cot| ==> cot[j].date != d
  {
    match FirstIndex(cot, (c: CotFeature) => c.date == d)
    case None => None
    case Some(i) => Some(cot[i])
  }

  function MatchAaii(aaii: seq<AaiiFeature>, d: int): (r: Option<AaiiFeature>)
    ensures r.Some? ==> r.value in aaii && r.value.date == d
    ensures r.None? ==> forall j :: 0 <= j < |aaii| ==> aaii[j].date != d
  {
    match FirstIndex(aaii, (a: AaiiFeature) => a.date == d)
    case None => None
    case Some(i) => Some(aaii[i])
  }

  /** The two left merges on date: every price row is kept, in order, and
      gets the auxiliary row of its date, or missing values when there is
      none. */
  function MergeFeatures(prices: seq<PriceFeatures>, cot: seq<CotFeature>, aaii: seq<AaiiFeature>): (rows: seq<FeatureRow>)
    requires UniqueCotDates(cot) && UniqueAaiiDates(aaii)
    ensures |rows| == |prices|
    ensures forall i :: 0 <= i < |rows| ==> rows[i].price == prices[i]
    ensures forall i, j :: 0 <= i < |rows| && 0 <= j < |cot| && cot[j].date == prices[i].date ==>
      rows[i].cot == Some(cot[j])
    ensures forall i :: 0 <= i < |rows| && rows[i].cot.Some? ==>
      rows[i].cot.value in cot && rows[i].cot.value.date == prices[i].date
    ensures forall i, j :: 0 <= i < |rows| && 0 <= j < |aaii| && aaii[j].date == prices[i].date ==>
      rows[i].aaii == Some(aaii[j])
    ensures forall i :: 0 <= i < |rows| && rows[i].aaii.Some? ==>
      rows[i].aaii.value in aaii && rows[i].aaii.value.date == prices[i].date
  {
    seq(|prices|, i requires 0 <= i < |prices| =>
      FeatureRow(prices[i], MatchCot(cot, prices[i].date), MatchAaii(aaii, prices[i].date)))
  }

  predicate HasClose(r: FeatureRow) {
    r.price.close.Some?
  }

  /** The feature table: features computed on every price row, the merges,
      and only then the rows without a Close removed. */
  function GenerateFeatures(prices: seq<PriceRow>, cot: seq<CotFeature>, aaii: seq<AaiiFeature>): (rows: seq<FeatureRow>)
    requires UniqueCotDates(cot) && UniqueAaiiDates(aaii)
    ensures forall k :: 0 <= k < |rows| ==> rows[k].price.close.Some?
    ensures forall k :: 0 <= k < |rows| ==> rows[k] in MergeFeatures(ComputePriceFeatures(prices), cot, aaii)
    ensures |rows| <= |prices|
  {
    Filter(MergeFeatures(ComputePriceFeatures(prices), cot, aaii), HasClose)
  }

  /** Dropping rows keeps the others in date order. */
  lemma DropKeepsDateOrder(merged: seq<FeatureRow>)
    requires forall i, j :: 0 <= i < j < |merged| ==> merged[i].price.date <= merged[j].price.date
    ensures var rows := Filter(merged, HasClose);
      forall i, j :: 0 <= i < j < |rows| ==> rows[i].price.date <= rows[j].price.date
  {
    var rows := Filter(merged, HasClose);
    FilterPicks(merged, HasClose);
    var idx := FilterIndices(merged, HasClose);
    forall i, j | 0 <= i < j < |rows|
      ensures rows[i].price.date <= rows[j].price.date
    {
      assert rows[i] == merged[idx[i]] && rows[j] == merged[idx[j]];
    }
  }

  /** The feature table is in date order, and it keeps every computed row
      that has a Close: dropping rows after the features are computed does
      not recompute them. */
  lemma GeneratedFeatureOrder(prices: seq<PriceRow>, cot: seq<CotFeature>, aaii: seq<AaiiFeature>)
    requires UniqueCotDates(cot) && UniqueAaiiDates(aaii)
    ensures var rows := GenerateFeatures(prices, cot, aaii);
      forall i, j :: 0 <= i < j < |rows| ==> rows[i].price.date <= rows[j].price.date
    ensures var fs := ComputePriceFeatures(prices);
      forall j :: 0 <= j < |fs| && fs[j].close.Some? ==>
        exists k :: 0 <= k < |GenerateFeatures(prices, cot, aaii)| && GenerateFeatures(prices, cot, aaii)[k].price == fs[j]
  {
    var fs := ComputePriceFeatures(prices);
    var merged := MergeFeatures(fs, cot, aaii);
    var rows := GenerateFeatures(prices, cot, aaii);
    assert rows == Filter(merged, HasClose);
    DropKeepsDateOrder(merged);
    forall j | 0 <= j < |fs| && fs[j].close.Some?
      ensures exists k :: 0 <= k < |rows| && rows[k].price == fs[j]
    {
      assert HasClose(merged[j]);
      assert merged[j] in rows;
      var k :| 0 <= k < |rows| && rows[k] == merged[j];
    }
  }
}

/** The two sentiment downloads of `fetch_sentiment_data.py` after their
    network part: the header cleanup and S&P selection of the COT report,
    and the row-by-row reading of the AAII survey table. */
module Sentiment {
  import opened Common
  import opened SeqUtil
  import opened Strings
  import opened Numbers
  import opened Features

  // ----- fetch_cot_data -----

  predicate IsNotQuote(x: char) {
    x != '"'
  }

  /** Removing the double quotes keeps every other character, in order. */
  lemma {:induction false} RemoveQuotesIsFilter(s: string)
    ensures RemoveChar(s, '"') == Filter(s, IsNotQuote)
    decreases |s|
  {
    if s != [] {
      RemoveQuotesIsFilter(s[1..]);
      FilterCons(s[0], s[1..], IsNotQuote);
      assert [s[0]] + s[1..] == s;
    }
  }

  /** `c.strip().replace('"', '')`: surrounding whitespace first, then every
      double quote; every other character of the stripped name stays, in
      order. */
  function CleanColumnName(c: string): (r: string)
    ensures '"' !in r
    ensures |r| <= |c|
    ensures r == Filter(Strip(c), IsNotQuote)
  {
    RemoveQuotesIsFilter(Strip(c));
    RemoveChar(Strip(c), '"')
  }

  /** The quoted headers of the COT file come out bare. */
  lemma QuotedNameUnquoted(name: string)
    requires '"' !in name
    ensures CleanColumnName("\"" + name + "\"") == name
  {
    var quoted := "\"" + name + "\"";
    assert Strip(quoted) == quoted by {
      StripUnpadded(quoted);
    }
    RemoveCharAppend("\"" + name, "\"", '"');
    RemoveCharAppend("\"", name, '"');
  }

  /** Cleaning is idempotent: a cleaned name is clean. */
  lemma CleanIsIdempotent(c: string)
    requires c == [] || (!IsSpace(c[0]) && !IsSpace(c[|c| - 1]))
    requires '"' !in c
    ensures CleanColumnName(c) == c
  {
    StripUnpadded(c);
  }

  const MARKET_COLUMN: string := "Market_and_Exchange_Names"

  /** `str.contains("S&P", case=False)`; a missing name never matches. */
  predicate IsSpMarketAnyCase(l: CotLine) {
    l.market.Some? && Contains(Lower(l.market.value), "s&p")
  }

  /** The report after cleanup: a missing market-name column raises;
      otherwise the rows whose name contains "S&P" in any case are kept if
      there are any, and every row if there are none. */
  function FetchCot(columns: seq<string>, lines: seq<CotLine>): (r: Result<seq<CotLine>>)
    ensures r.Err? <==> MARKET_COLUMN !in seq(|columns|, i requires 0 <= i < |columns| => CleanColumnName(columns[i]))
    ensures r.Ok? ==> IsSubsequence(r.value, lines)
    ensures r.Ok? && (exists i :: 0 <= i < |lines| && IsSpMarketAnyCase(lines[i])) ==>
      (forall k :: 0 <= k < |r.value| ==> IsSpMarketAnyCase(r.value[k])) &&
      (forall j :: 0 <= j < |lines| && IsSpMarketAnyCase(lines[j]) ==> lines[j] in r.value)
    ensures r.Ok? && (exists i :: 0 <= i < |lines| && IsSpMarketAnyCase(lines[i])) ==>
      |r.value| == Count(lines, IsSpMarketAnyCase)
    ensures r.Ok? && (forall i :: 0 <= i < |lines| ==> !IsSpMarketAnyCase(lines[i])) ==> r.value == lines
  {
    var cleaned := seq(|columns|, i requires 0 <= i < |columns| => CleanColumnName(columns[i]));
    if MARKET_COLUMN !in cleaned then Err(MissingColumn(MARKET_COLUMN))
    else
      CountFilter(lines, IsSpMarketAnyCase);
      Ok(PreferMatching(lines, IsSpMarketAnyCase))
  }

  /** The download keeps at least the rows the feature step later selects:
      a name containing "S&P" exactly also contains it in any case. */
  lemma CaseSensitiveMatchIsKept(l: CotLine)
    requires IsSpMarket(l)
    ensures IsSpMarketAnyCase(l)
  {
    ContainsLower(l.market.value, "S&P");
    assert Lower("S&P") == "s&p";
  }

  // ----- fetch_aaii_sentiment -----

  /** One survey week as the script records it. */
  datatype AaiiRecord = AaiiRecord(date: string, bullish: real, neutral: real, bearish: real)

  /** `float(text.replace("%", ""))` on a cell's stripped text. */
  function Percent(cell: string): (r: Result<real>)
    ensures r.Err? <==> ParseDecimal(RemoveChar(Strip(cell), '%')).None?
  {
    var text := RemoveChar(Strip(cell), '%');
    match ParseDecimal(text)
    case None => Err(NotANumber(text))
    case Some(v) => Ok(v)
  }

  /** A four-cell row: date, Bullish, Neutral, Bearish, in that order; the
      first cell that `float` refuses raises. */
  function RowRecord(date: string, bullish: string, neutral: string, bearish: string): (r: Result<AaiiRecord>)
    ensures r.Ok? <==> Percent(bullish).Ok? && Percent(neutral).Ok? && Percent(bearish).Ok?
    ensures r.Ok? ==> r.value == AaiiRecord(Strip(date),
      Percent(bullish).value, Percent(neutral).value, Percent(bearish).value)
  {
    match Percent(bullish)
    case Err(e) => Err(e)
    case Ok(b) =>
      match Percent(neutral)
      case Err(e) => Err(e)
      case Ok(n) =>
        match Percent(bearish)
        case Err(e) => Err(e)
        case Ok(br) => Ok(AaiiRecord(Strip(date), b, n, br))
  }

  predicate HasFourCells(cells: seq<string>) {
    |cells| == 4
  }

  /** A row read cell by cell with `read`. */
  function ReadCells<R>(cells: seq<string>, read: (string, string, string, string) -> Result<R>): Result<R>
    requires |cells| == 4
  {
    read(cells[0], cells[1], cells[2], cells[3])
  }

  /** The rows with exactly four cells read in order by `read`; the others
      are skipped, and the first refusal ends the reading. */
  function ReadRows<R>(rows: seq<seq<string>>, read: (string, string, string, string) -> Result<R>): Result<seq<R>>
    decreases |rows|
  {
    if rows == [] then Ok([])
    else if |rows[0]| != 4 then ReadRows(rows[1..], read)
    else match ReadCells(rows[0], read)
      case Err(e) => Err(e)
      case Ok(r) => Prepend([r], ReadRows(rows[1..], read))
  }

  function Prepend<R>(first: seq<R>, rest: Result<seq<R>>): Result<seq<R>> {
    match rest
    case Err(e) => Err(e)
    case Ok(t) => Ok(first + t)
  }

  /** `rows[1:]`: every row but the table's header row. */
  function Body(rows: seq<seq<string>>): seq<seq<string>> {
    if rows == [] then [] else rows[1..]
  }

  /** The survey records of a table. */
  function Records(rows: seq<seq<string>>): Result<seq<AaiiRecord>> {
    ReadRows(Body(rows), RowRecord)
  }

  lemma PrependNothing<R>(rest: Result<seq<R>>)
    ensures Prepend([], rest) == rest
  {
    if rest.Ok? {
      assert [] + rest.value == rest.value;
    }
  }

  lemma PrependTwice<R>(first: seq<R>, r: R, rest: Result<seq<R>>)
    ensures Prepend(first, Prepend([r], rest)) == Prepend(first + [r], rest)
  {
    if rest.Ok? {
      assert first + ([r] + rest.value) == (first + [r]) + rest.value;
    }
  }

  /** The loop over the table rows below the first: rows without exactly
      four cells are skipped, the others are read by `read` and appended in
      order, and a refusal ends the loop with the exception. */
  method ReadTable<R>(rows: seq<seq<string>>, read: (string, string, string, string) -> Result<R>)
    returns (result: Result<seq<R>>)
    ensures result == ReadRows(Body(rows), read)
  {
    var body := Body(rows);
    var records: seq<R> := [];
    var i := 0;
    PrependNothing(ReadRows(body, read));
    while i < |body|
      invariant 0 <= i <= |body|
      invariant ReadRows(body, read) == Prepend(records, ReadRows(body[i..], read))
      decreases |body| - i
    {
      var cells := body[i];
      assert body[i..][0] == cells && body[i..][1..] == body[i + 1..];
      if |cells| != 4 {
        i := i + 1;
        continue;
      }
      var record := read(cells[0], cells[1], cells[2], cells[3]);
      if record.Err? {
        return Err(record.error);
      }
      PrependTwice(records, record.value, ReadRows(body[i + 1..], read));
      records := records + [record.value];
      i := i + 1;
    }
    assert body[i..] == [];
    assert records + [] == records;
    result := Ok(records);
  }

  /** `fetch_aaii_sentiment`'s loop: the table read with the survey row
      reader. */
  method ParseSentimentTable(rows: seq<seq<string>>) returns (result: Result<seq<AaiiRecord>>)
    ensures result == Records(rows)
  {
    result := ReadTable(rows, RowRecord);
  }

  /** Whatever the first row holds, it is never read. */
  lemma FirstRowIgnored(header: seq<string>, other: seq<string>, rest: seq<seq<string>>)
    ensures Records([header] + rest) == Records([other] + rest)
  {
    assert ([header] + rest)[1..] == rest == ([other] + rest)[1..];
  }

  /** The four-cell filter applied to a row followed by more rows. */
  lemma FilterFront(rows: seq<seq<string>>)
    requires rows != []
    ensures Filter(rows, HasFourCells) ==
      (if |rows[0]| == 4 then [rows[0]] else []) + Filter(rows[1..], HasFourCells)
  {
    FilterCons(rows[0], rows[1..], HasFourCells);
    assert [rows[0]] + rows[1..] == rows;
  }

  /** Records read row by row from four-cell rows stay matched when one
      more row and its record are put in front. */
  lemma MatchedFront<R>(rows: seq<seq<string>>, out: seq<R>, row: seq<string>, r: R,
                        read: (string, string, string, string) -> Result<R>)
    requires |rows| == |out|
    requires forall k :: 0 <= k < |rows| ==> |rows[k]| == 4 && Ok(out[k]) == ReadCells(rows[k], read)
    requires |row| == 4 && Ok(r) == ReadCells(row, read)
    ensures forall k :: 0 <= k < |[row] + rows| ==>
      |([row] + rows)[k]| == 4 && Ok(([r] + out)[k]) == ReadCells(([row] + rows)[k], read)
  {
    forall k | 0 < k < |[row] + rows|
      ensures ([row] + rows)[k] == rows[k - 1] && ([r] + out)[k] == out[k - 1]
    {
    }
  }

  /** A successful read has one record per four-cell row, in table order,
      each read from its row's cells. */
  lemma {:induction false} ReadRowsMatchRows<R>(rows: seq<seq<string>>, read: (string, string, string, string) -> Result<R>)
    requires ReadRows(rows, read).Ok?
    ensures |ReadRows(rows, read).value| == |Filter(rows, HasFourCells)|
    ensures forall k :: 0 <= k < |Filter(rows, HasFourCells)| ==>
      |Filter(rows, HasFourCells)[k]| == 4 &&
      Ok(ReadRows(rows, read).value[k]) == ReadCells(Filter(rows, HasFourCells)[k], read)
    decreases |rows|
  {
    if rows != [] {
      var rest := rows[1..];
      var accepted := Filter(rows, HasFourCells);
      var acceptedRest := Filter(rest, HasFourCells);
      FilterFront(rows);
      if |rows[0]| == 4 {
        var r := ReadCells(rows[0], read).value;
        assert ReadRows(rows, read) == Prepend([r], ReadRows(rest, read));
        ReadRowsMatchRows(rest, read);
        assert ReadRows(rows, read).value == [r] + ReadRows(rest, read).value;
        assert accepted == [rows[0]] + acceptedRest;
        MatchedFront(acceptedRest, ReadRows(rest, read).value, rows[0], r, read);
      } else {
        assert ReadRows(rows, read) == ReadRows(rest, read);
        ReadRowsMatchRows(rest, read);
        assert accepted == acceptedRest;
      }
    }
  }

  /** The reading fails exactly when some four-cell row is refused. */
  lemma {:induction false} ReadRowsFailIff<R>(rows: seq<seq<string>>, read: (string, string, string, string) -> Result<R>)
    ensures ReadRows(rows, read).Err? <==>
      exists j :: 0 <= j < |rows| && |rows[j]| == 4 && ReadCells(rows[j], read).Err?
    decreases |rows|
  {
    if rows != [] {
      var rest := rows[1..];
      ReadRowsFailIff(rest, read);
      var failsLater := exists j :: 0 <= j < |rest| && |rest[j]| == 4 && ReadCells(rest[j], read).Err?;
      var failsBelow := exists j :: 1 <= j < |rows| && |rows[j]| == 4 && ReadCells(rows[j], read).Err?;
      assert failsLater <==> failsBelow by {
        if failsLater {
          var j :| 0 <= j < |rest| && |rest[j]| == 4 && ReadCells(rest[j], read).Err?;
          assert rows[j + 1] == rest[j];
        }
        if failsBelow {
          var j :| 1 <= j < |rows| && |rows[j]| == 4 && ReadCells(rows[j], read).Err?;
          assert rest[j - 1] == rows[j];
        }
      }
    }
  }

  /** A printed number followed by "%" has no surrounding whitespace. */
  lemma PrintedPercentUnpadded(n: nat)
    ensures Strip(ShowNat(n) + "%") == ShowNat(n) + "%"
  {
    var cell := ShowNat(n) + "%";
    assert IsDigit(cell[0]) && cell[|cell| - 1] == '%';
    StripUnpadded(cell);
  }

  /** Dropping the "%" after a run of digits leaves the digits. */
  lemma DropPercentSign(digits: string)
    requires AllDigits(digits)
    ensures RemoveChar(digits + "%", '%') == digits
  {
    assert '%' !in digits by {
      assert forall k :: 0 <= k < |digits| ==> IsDigit(digits[k]);
    }
    RemoveCharAppend(digits, "%", '%');
    assert RemoveChar("%", '%') == [];
    assert digits + [] == digits;
  }

  /** Stripping and dropping the "%" of a printed percentage leaves its
      digits. */
  lemma PercentCellDigits(n: nat)
    ensures RemoveChar(Strip(ShowNat(n) + "%"), '%') == ShowNat(n)
  {
    PrintedPercentUnpadded(n);
    DropPercentSign(ShowNat(n));
  }

  /** A percentage printed as a whole number with its sign reads back as
      that number. */
  lemma PercentOfPrintedNumber(n: nat)
    ensures Percent(ShowNat(n) + "%") == Ok(n as real)
  {
    PercentCellDigits(n);
    assert ShowInt(n) == ShowNat(n);
    ParseShowInt(n);
    DecimalAgreesWithInt(ShowNat(n));
  }

  /** A survey row as published: the percentages land in the Bullish,
      Neutral and Bearish fields in that order, their "%" signs dropped. */
  lemma PublishedSurveyRow(date: string, bullish: nat, neutral: nat, bearish: nat)
    ensures RowRecord(date, ShowNat(bullish) + "%", ShowNat(neutral) + "%", ShowNat(bearish) + "%")
      == Ok(AaiiRecord(Strip(date), bullish as real, neutral as real, bearish as real))
  {
    PercentOfPrintedNumber(bullish);
    PercentOfPrintedNumber(neutral);
    PercentOfPrintedNumber(bearish);
  }
}

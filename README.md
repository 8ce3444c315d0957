# A verified model of the trading-bot pipeline

The repository is a small daily trading pipeline for the S&P 500 ETF:

- `fetch_sentiment_data.py` downloads the CFTC Commitments of Traders (COT)
  report and the AAII investor sentiment survey.
- `generate_features.py` joins them on date with the SPY price history into
  a feature table.
- `train_model.py` labels every day with the next day's direction and fits a
  classifier.
- `backtest.py`, `cli_trading_bot.py` and `visualize_signals.py` read the
  resulting signals file (date, Close, prediction, probability). They
  backtest it, browse it in a terminal, and chart it.

This project models the deterministic part of each script in Dafny and
proves properties of it. Files, downloads, the classifier, the terminal and
the plot are left out.

| file | module | models |
|---|---|---|
| `common.dfy` | `Common` | missing cells (`Option`) and the exceptions a step raises (`Result`) |
| `seq_util.dfy` | `SeqUtil` | boolean-mask filtering, `head`, first match, and sorting by a key |
| `strings.dfy` | `Strings` | `strip()`, `in`, `lower()` and `replace(c, "")` |
| `numbers.dfy` | `Numbers` | `int(text)` and `float(text)` on decimal text |
| `signals.dfy` | `Signals` | the signals table and its coercing date parse |
| `backtest.dfy` | `Backtest` | the trade loop and its summary |
| `features.dfy` | `Features` | header flattening, row and column selection, price features, COT/AAII columns, the merges |
| `training.dfy` | `Training` | the target and the feature matrix |
| `trading_cli.dfy` | `TradingCli` | the filters, the ranking, the labels and the selection loop |
| `visualize.dfy` | `Visualize` | the date window and the bullish/bearish markers |
| `sentiment.dfy` | `Sentiment` | COT header cleanup and S&P selection, and the AAII table loop |

Modelling conventions:

- Dates are integers, already parsed; `None` stands for NaT.
- Prices and percentages are exact `real` numbers; `None` stands for NaN.
- A pandas boolean mask is `SeqUtil.Filter`, which keeps the selected rows
  in order. `SeqUtil.FilterIndices` gives the positions of the kept rows.
- A script that raises returns `Err` with the reason.
- Loops that accumulate state are methods with invariants. Each is proved
  equal to a pure Dafny function, and the properties are lemmas about
  that function:
  - `Backtest.Run`
  - `Features.FlattenHeader`
  - `TradingCli.SelectionLoop`
  - `Sentiment.ReadTable`
- The two functions that add a column to the data frame they are given
  are classes whose method updates a field in place:
  - `Features.CotFrame`
  - `Features.AaiiFrame`

Three behaviours of the code are easy to miss:

- **Last entry row.** The loop `range(len(df) - HOLD_DAYS)` at
  backtest.py:39 opens trades only at rows `i < len - HOLD_DAYS`, so row
  `len - HOLD_DAYS` never opens one (`Backtest.EntryBoundary`).
- **Missing probability.** At backtest.py:43 a missing probability is NaN,
  and NaN fails the `<` test, so the backtest does not skip that row. The
  CLI's `>=` filter at cli_trading_bot.py:46 does drop such a row.
- **`return_1d`.** `pct_change` at generate_features.py:111 forward-fills
  missing closes before dividing (`Features.PctChangeAcrossGap`,
  `Features.PctChangeAfterGap`).

## Model

| member | source | states |
|---|---|---|
| Backtest.Report | backtest.py:78-81 | The trade count is the ledger length. The win count is the number of trades with a strictly positive return. The win rate lies in 0..100. The average times the count is the sum of returns. The cumulative figure is the compounded product minus 1, in percent. An empty ledger gives all zeros. |
| Backtest.ReportWinRate | backtest.py:81 | On a non-empty ledger, the win rate is wins / trades × 100. |
| Backtest.ReportCountsWins | backtest.py:62-64 | The win count is the length of the sub-ledger of trades with a strictly positive return. |
| Backtest.AppendTrade | backtest.py:59-64 | Recording one more trade multiplies the compounded value by 1 + its return, and adds one to the win count exactly when that return is positive. |
| Backtest.Enter | backtest.py:46-76 | For a qualifying row, the loop body records the trade opened at that row, with the return entry→exit (negated for a bearish call) minus the cost. |
| Backtest.SortByDate | backtest.py:28 | The loaded signals come back as a permutation of the rows, with dates in non-decreasing order. |
| Backtest.SortKeepsPositiveCloses | backtest.py:28 | Sorting keeps every row, so positive closes stay positive and the sorted table can be backtested. |
| Backtest.Run | backtest.py:34-81 | The loop builds exactly `Ledger`, the recursive definition of the trade list. Its count, win and compounding accumulators end as `Report` of that ledger. |
| Backtest.LedgerIsEntries | backtest.py:39-47 | There is one trade per entry row, in increasing row order. A row is an entry exactly when its prediction is present, its probability is not below 0.70, and its exit row `i + 5` exists. |
| Backtest.Positions | backtest.py:39-44 | The entry positions below `n` are increasing, each below `n`, and each row there qualifies. |
| Backtest.PositionsExact | backtest.py:39-44 | A position below `n` is an entry exactly when its row qualifies. |
| Backtest.TradesAtEntries | backtest.py:39-76 | The loop over the first `n` positions records one trade per entry position, in order, each opened at that row. |
| Backtest.LedgerPositions | backtest.py:39-76 | The ledger has one trade per entry position, in increasing order. Each exit row `i + 5` lies inside the table, and each trade is opened at its entry row. |
| Backtest.TradeDates | backtest.py:47-70 | Trades opened at increasing rows of a table with increasing dates have increasing entry dates. With a holding period of at least one row, each exits after it enters. |
| Backtest.LedgerDateOrder | backtest.py:39-76 | On a table with strictly increasing dates, entry dates strictly increase down the ledger, and every exit date (5 rows later) is after its entry date. |
| Backtest.ShortTableIsEmptyRun | backtest.py:39-81 | A table of at most 5 rows trades nothing, and every figure is 0. |
| Backtest.NoQualifyingRowIsEmptyRun | backtest.py:43-81 | When no row qualifies, the result is the empty run, not an error. |
| Backtest.EntryBoundary | backtest.py:39-47 | A qualifying row at `len - 6` is the last trade; the row at `len - 5` never trades. |
| Backtest.WinCondition | backtest.py:50-63 | A bullish trade wins exactly when exit > entry × (1 + cost). A bearish trade wins exactly when exit < entry × (1 − cost). |
| Backtest.DirectionInversion | backtest.py:52-57 | Bearish and bullish calls on the same prices differ only in the sign of the raw return, and both pay the cost. |
| Backtest.SixRowLedger | backtest.py:39-47 | A six-row table whose first row qualifies trades exactly once: at row 0, exiting at row 5. |
| Backtest.BullishTradeExample | backtest.py:47-80 | Entry 100 and exit 110 at probability 0.80, called bullish, give one trade of +9.9 %, and a cumulative +9.9 %. |
| Backtest.BearishTradeExample | backtest.py:47-76 | The same prices called bearish give one trade of −10.1 %. |
| Backtest.CompoundAppend | backtest.py:60 | Compounding over two stretches of trades is the product of the two. |
| Backtest.CompoundingExample | backtest.py:60-81 | +10 % then −5 % give +4.5 % cumulative, a 2.5 % average and a 50 % win rate. |
| Backtest.CompoundPositive | backtest.py:60 | If no trade loses 100 % or more, the compounded value stays positive. |
| Backtest.PercentBounds | backtest.py:81 | A win rate computed from at most `total` wins lies in 0..100. |
| Features.FlattenHeader | generate_features.py:38-47 | One name per header column. The name is the bottom text when the top text is "nan", the top text when the bottom text is "nan", and `top_bottom` otherwise. |
| Features.TopWordKept | generate_features.py:40-64 | A word of the top cell (such as "Close") survives flattening, whatever the bottom cell holds. |
| Features.MissingTopGivesBottom | generate_features.py:40-43 | A missing top cell leaves the bottom cell's text. |
| Features.JoinedName | generate_features.py:40-47 | Two present, unpadded cells, neither "nan", join as `top_bottom`. |
| Features.TopOnlyName | generate_features.py:40-47 | A present, unpadded top cell over a missing bottom cell keeps the top text. |
| Features.PriceHeaderExample | generate_features.py:38-47 | ("Close", "SPY") becomes "Close_SPY"; ("Price", missing) becomes "Price". |
| Features.LoadedLinesSingleMask | generate_features.py:53-61 | The three successive row filters act as one mask: first cell present, not "Date", and a date that parses. |
| Features.LoadPriceRows | generate_features.py:53-61 | The loaded rows are exactly the loadable lines, in file order, one row each. |
| Features.HeaderLinesDropped | generate_features.py:53-54 | A line whose first cell is empty or is the literal "Date" never becomes a row. |
| Features.PriceColumns | generate_features.py:57-67 | Every column equal to the first is renamed "date". Every column equal to the first other column whose name contains "Close" is renamed "Close". All other columns keep their names. It raises exactly when there is no Close column. |
| Features.NoCloseInShortName | generate_features.py:57-64 | The renamed "date" column can never be taken for the Close column. |
| Features.SelectCotLines | generate_features.py:75-78 | With a market-name column and some name containing "S&P" (case-sensitive, missing names excluded), the result is exactly those rows, in order, as many as match. Otherwise it is every row. |
| Features.DateColumnIsCaseInsensitive | generate_features.py:88 | The `or "Date" in c` test adds nothing to the lower-case test. |
| Features.AaiiDateColumn | generate_features.py:88-93 | The date column is the first whose lower-cased name contains "date". It raises exactly when none does. |
| Features.AaiiColumns | generate_features.py:98-104 | Each "Bullish", "Bearish" and "Neutral" column is renamed, at its own position, to "bullish", "bearish" and "neutral". Every other column is unchanged. |
| Features.AaiiColumnsIdempotent | generate_features.py:98-104 | Renaming a second time changes nothing. |
| Features.RenamedColumnPresent | generate_features.py:98-104 | A column present before the rename is present after it under its standard name. |
| Features.AaiiColumnsProvideFeatures | generate_features.py:98-104 | After the rename, "bullish", "bearish" and "neutral" are present whenever the table had the column in either spelling. |
| Features.LoadAaiiRows | generate_features.py:94-95 | The rows whose date parsed, in order and unchanged. |
| Features.LastValid | generate_features.py:111 | The forward-fill value is the latest present close at or before the row: every row after it, up to the row, is missing. It is missing exactly when every close so far is missing. |
| Features.LastValidAt | generate_features.py:111 | A row after a run of missing closes is filled from the present close just before the run. |
| Features.PctChangeFormula | generate_features.py:111 | Without gaps, `return_1d` is (close − previous) / previous. |
| Features.PctChangeFirstRow | generate_features.py:111 | The first row has no return. |
| Features.PctChangeAcrossGap | generate_features.py:111 | A missing close is forward-filled, so its return is 0. |
| Features.PctChangeAfterGap | generate_features.py:111 | The first present close after a gap is compared with the last present close before the gap. |
| Features.RollingUndefinedPrefix | generate_features.py:112-114 | Fewer than `w` rows give no rolling mean. |
| Features.RollingDefinedOnCompleteColumn | generate_features.py:112-113 | On a column without gaps, the mean is defined exactly from row `w − 1` on. |
| Features.MissingCloseSpoilsWindows | generate_features.py:112-149 | A missing close leaves undefined every window that covers it, although that row is only dropped later. |
| Features.MeanWithinWindow | generate_features.py:112-113 | The moving average lies between the smallest and largest close of its window. |
| Features.VarianceNonNegative | generate_features.py:114 | The squared volatility is never negative. |
| Features.FlatWindow | generate_features.py:112-114 | On a flat price, the average is that price and the volatility is 0. |
| Features.ComputePriceFeatures | generate_features.py:108-115 | The same rows, sorted by date (a permutation). `Features.PriceFeaturesPrefix` states each row's derived columns. |
| Features.PriceFeaturesPrefix | generate_features.py:110-114 | Each row's return, 10- and 20-row means and 10-row variance are `pct_change`, the rolling means and the rolling variance of the sorted close column at its position. The first row has no return. Rows before the 10th (20th) have no 10-row (20-row) average or volatility. |
| Features.CotFrame.ComputeFeatures | generate_features.py:118-126 | Adds `net_commercial = long − short` to every row in place, leaves the rows unchanged, and returns the (date, net_commercial) projection. |
| Features.AaiiFrame.ComputeFeatures | generate_features.py:129-132 | Adds `bull_bear_spread = bullish − bearish` to every row in place and returns the five-column projection. |
| Features.MatchCot | generate_features.py:145 | The COT row joined to a date carries that date. There is none exactly when no COT row has that date. |
| Features.MatchAaii | generate_features.py:146 | The AAII row joined to a date carries that date. There is none exactly when no AAII row has that date. |
| Features.MergeFeatures | generate_features.py:144-146 | Both left merges keep every price row, in order, and attach the auxiliary row of the same date, or missing values if there is none. |
| Features.GenerateFeatures | generate_features.py:140-149 | Every row of the feature table is a merged row: a price row with the COT and AAII values matched to its date. Every row has a Close, and there are no more rows than price rows. |
| Features.DropKeepsDateOrder | generate_features.py:149 | Dropping rows without a Close keeps the remaining rows in date order. |
| Features.GeneratedFeatureOrder | generate_features.py:140-149 | The feature table is in date order. It keeps every computed row that has a Close, with its features as computed before the drop. |
| Training.Targets | train_model.py:35 | The target is 1 exactly when the next row's return is present and strictly positive, and 0 otherwise. The last row gets 0. |
| Training.FlatDayIsNotUp | train_model.py:35 | A zero next-day return is labelled 0. |
| Training.DropnaKeepsEveryRow | train_model.py:37-38 | The dropna on the target removes no row, the last row included. |
| Training.FillZero | train_model.py:41 | No cell stays missing, and present cells are unchanged. |
| Training.BuildTrainingSet | train_model.py:35-45 | Raises exactly when return_1d, date or Close is missing, or when `shift(-1) > 0` compares a text cell with 0. That happens when return_1d holds a text cell, so the whole column is read as text, and a row after the first has a present cell. Otherwise the feature names are the columns other than date, Close and target, in order. The matrix has one zero-filled row per table row, and y is the target column. |
| Training.TextReturnRaises | train_model.py:35 | A table whose second return_1d cell is the text "x" stops with the `TypeError` instead of yielding targets. |
| Training.MatrixColumnsMatchNames | train_model.py:41-45 | Matrix column `k` is the table column named `feature_names[k]`, zero-filled, in table order. |
| Training.EveryOtherColumnIsAFeature | train_model.py:41-45 | Every column other than date, Close and target becomes a feature. |
| Signals.DropUnparsedDates | cli_trading_bot.py:34-35 | The kept rows are exactly the rows whose date parsed, in file order. |
| Signals.SubsequenceKeepsDateOrder | visualize_signals.py:29-36 | Removing rows keeps the remaining dates increasing. |
| Numbers.ParseShowInt | cli_trading_bot.py:91 | `int(str(n)) == n`. |
| Numbers.DecimalAgreesWithInt | cli_trading_bot.py:39 | `float` accepts every text `int` accepts, with the same value. |
| Numbers.ParseDecimalExample | cli_trading_bot.py:38-39 | The threshold text "0.70" reads as 0.7. |
| Numbers.ParseIntRefusesPoint | cli_trading_bot.py:91-99 | Any answer with a decimal point inside its surrounding whitespace, such as "1.5", is not a trade number. |
| Strings.StripPadded | cli_trading_bot.py:87 | Stripping a nonempty unpadded text with whitespace around it gives the text back. |
| TradingCli.Answer | cli_trading_bot.py:87 | An empty answer stands for the default. Any other answer is returned stripped of surrounding whitespace. |
| TradingCli.DateFilter | cli_trading_bot.py:41-44 | A blank date keeps every row. Otherwise the result is exactly the rows on or after the date, in order, as many as match. |
| TradingCli.ProbabilityFilter | cli_trading_bot.py:46 | Exactly the rows with a present probability of at least the threshold, in order, as many as match. |
| TradingCli.RaisingThresholdShrinks | cli_trading_bot.py:46 | A higher threshold selects a subsequence of a lower one's selection: the lower selection filtered again. |
| TradingCli.Rank | cli_trading_bot.py:33-72 | Raises exactly when `float` refuses the threshold answer. Otherwise an empty selection ends early. A nonempty selection is ranked by non-increasing probability, and the rows shown are its first ten. |
| TradingCli.RankRows | cli_trading_bot.py:53-72 | A nonempty selection is ranked as a permutation of itself, with present probabilities in non-increasing order, and the rows shown are the first ten. |
| TradingCli.RankedProbabilitiesPresent | cli_trading_bot.py:46-53 | Sorting keeps the rows, so every ranked row meets the threshold. |
| TradingCli.RankedRowsAreTheFilteredRows | cli_trading_bot.py:46-53 | The ranking is a permutation of the filtered rows. |
| TradingCli.TopRowsBound | cli_trading_bot.py:72 | At most ten rows are shown: the first ten of the ranking. |
| TradingCli.Label | cli_trading_bot.py:75 | Bullish exactly when the prediction is 1; Bearish for any other present prediction; raises when it is missing. |
| TradingCli.Labels | cli_trading_bot.py:72-75 | One label per shown row, in order. Raises exactly when some shown prediction is missing. |
| TradingCli.Interpret | cli_trading_bot.py:87-99 | A shown row is always one of the `count` rows listed. `QuitIff`, `NotNumericIff` and `SelectsWithinRange` state which answer gives which choice. |
| TradingCli.SelectsWithinRange | cli_trading_bot.py:91-95 | A number `k`, with or without surrounding whitespace, opens row `k − 1` exactly when 1 ≤ k ≤ count. Otherwise it is invalid. |
| TradingCli.QuitAnswers | cli_trading_bot.py:87-89 | The empty answer quits, and so do "q" and "Q" with any whitespace around them. |
| TradingCli.QuitIff | cli_trading_bot.py:87-89 | An answer quits exactly when, defaulted and stripped, its lower-case form is "q". |
| TradingCli.NotNumericIff | cli_trading_bot.py:87-99 | An answer is reported as not a number exactly when it does not quit and `int` refuses it. |
| TradingCli.PromptLoop | cli_trading_bot.py:86-99 | The prompt loop returns one choice per answer, each read in turn, up to and including the first quit. |
| TradingCli.UntilQuitShape | cli_trading_bot.py:86-89 | The choices kept are a prefix of the answers' choices, and a quit can only be the last kept choice. |
| TradingCli.UntilQuitKeepsAll | cli_trading_bot.py:86-99 | Without a quit, every choice is kept. |
| TradingCli.SelectionLoop | cli_trading_bot.py:86-99 | The loop's choices are the session of the answers: one per answer, up to and including the first quit. |
| TradingCli.SessionShape | cli_trading_bot.py:86-99 | Step `k` interprets answer `k`. Every opened row is among those shown, and a quit can only be the last step. |
| TradingCli.SessionWithoutQuit | cli_trading_bot.py:86-99 | Answers that never quit are each acted upon. |
| Visualize.DateWindowIsOneFilter | visualize_signals.py:28-36 | The start and end filters act as one inclusive window, each bound optional. |
| Visualize.WindowedRows | visualize_signals.py:25-36 | The window keeps exactly the rows between the bounds, in file order. |
| Visualize.NarrowerWindow | visualize_signals.py:29-32 | A later start shows a subsequence of an earlier start's rows. |
| Visualize.Plot | visualize_signals.py:24-44 | Nothing is plotted exactly when the window is empty. Otherwise the line is the windowed rows, bullish markers are exactly the rows predicting 1, and bearish markers are exactly the rows predicting 0, each row once. |
| Visualize.MarkersPartition | visualize_signals.py:43-44 | The marker sets are disjoint, keep the line's order, and omit rows whose prediction is neither 0 nor 1. |
| Sentiment.CleanColumnName | fetch_sentiment_data.py:35 | A cleaned name is the stripped name with every double quote removed and every other character kept, in order. |
| Sentiment.RemoveQuotesIsFilter | fetch_sentiment_data.py:35 | Removing the double quotes keeps every other character, in order. |
| Sentiment.QuotedNameUnquoted | fetch_sentiment_data.py:35 | A quoted header comes out bare. |
| Sentiment.CleanIsIdempotent | fetch_sentiment_data.py:35 | A clean name is left unchanged. |
| Sentiment.FetchCot | fetch_sentiment_data.py:35-45 | Raises exactly when no cleaned column is `Market_and_Exchange_Names`. Otherwise it keeps exactly the rows whose name contains "S&P" in any case, in order, as many as match, if there are any. It keeps every row if there are none. |
| Sentiment.CaseSensitiveMatchIsKept | fetch_sentiment_data.py:42 | Every row the feature step's case-sensitive S&P test selects is kept by the download's case-insensitive one. |
| Sentiment.Percent | fetch_sentiment_data.py:97-104 | A cell raises exactly when `float` refuses its stripped text with "%" removed. |
| Sentiment.RowRecord | fetch_sentiment_data.py:96-105 | A four-cell row gives a record exactly when all three percentages read, with the fields in the order Bullish, Neutral, Bearish. |
| Sentiment.ReadTable | fetch_sentiment_data.py:90-105 | The loop skips the first row and every row without exactly four cells. It reads the rest in order and stops at the first refusal. It equals the recursive definition `ReadRows`. |
| Sentiment.ParseSentimentTable | fetch_sentiment_data.py:90-105 | The survey loop with the survey row reader yields `Records` of the table. |
| Sentiment.FirstRowIgnored | fetch_sentiment_data.py:92 | Whatever the first row holds, it is never read. |
| Sentiment.ReadRowsMatchRows | fetch_sentiment_data.py:92-105 | A successful read has one record per four-cell row, in table order, each read from its own row. |
| Sentiment.ReadRowsFailIff | fetch_sentiment_data.py:93-105 | Reading fails exactly when some four-cell row is refused. |
| Sentiment.PrintedPercentUnpadded | fetch_sentiment_data.py:97-102 | A printed whole number followed by "%" has no surrounding whitespace to strip. |
| Sentiment.DropPercentSign | fetch_sentiment_data.py:97-102 | Removing "%" from digits followed by "%" leaves the digits. |
| Sentiment.PercentOfPrintedNumber | fetch_sentiment_data.py:97-102 | A whole percentage printed with its "%" reads back as that number. |
| Sentiment.PublishedSurveyRow | fetch_sentiment_data.py:96-105 | A published row's percentages land in the Bullish, Neutral and Bearish fields, in that order. |

## Left out

- Reading and writing files, the downloads (HTTP, zip, HTML parsing), the clock-based file names, and every printed message are left out. Each script's table arrives as a parameter.
- The classifier (`RandomForestClassifier`), its evaluation, `predict_signals.py` and `run_all.py` are not part of this model. `fetch_market_data.py` is not part of it either: it is a download only.
- Plotting and the rich console table are left out. The chart is modelled as the three series it draws.
- Date text parsing (`pd.to_datetime`) is left out: dates arrive parsed as integers, or `None` when a coercing parse failed. The COT report date, parsed without `errors="coerce"`, is assumed valid.
- Floating point is left out: prices are exact reals. Rounding, overflow, `inf`/`nan` text and the `:.2f` formatting are not modelled.
- Features.RollingVariance: models the square of `rolling(10).std()`, the sample variance with divisor `w − 1`. The square root is not modelled.
- Features.PctChange: models the forward-fill behaviour of `pct_change` on missing closes. A zero previous close gives a missing value instead of `inf`.
- Features.MergeFeatures: requires unique dates in the COT and AAII features. A pandas left merge would repeat a price row once per duplicate match.
- Features.LoadAaiiRows: starts from rows whose date column is already located and parsed. `AaiiDateColumn` picks that column.
- Backtest.SortByDate: proves a sorted permutation only. The order among equal dates is not fixed, because the default pandas sort is not stable. The same holds for `Features.ComputePriceFeatures` (`sort_values("date")`) among equal dates, and for `TradingCli.Rank` among equal probabilities.
- Backtest.Run: requires every Close to be positive, because dividing by a zero entry price is a float `inf`/`nan` in the script.
- Numbers.ParseInt: accepts an optional sign and decimal digits around whitespace. Underscores, non-ASCII digits and other forms Python's `int` accepts are refused.
- Numbers.ParseDecimal: accepts an optional sign and digits with at most one decimal point. Exponents, `inf`/`nan` and underscores are refused.
- Strings.Strip and Strings.Lower: cover ASCII whitespace and ASCII letters only. BeautifulSoup's `get_text(strip=True)` is modelled as a strip of the cell's text.
- TradingCli.SelectionLoop: runs over a finite sequence of answers; the script would keep prompting forever. What a selected row displays is left out.
- The KeyError raised when the COT report lacks `Report_Date_as_YYYY-MM-DD` (generate_features.py:79) is left out: COT rows always carry a report date.
- Features.CotFrame.ComputeFeatures: the KeyError raised when `Prod_Merc_Positions_Long_All` or `Prod_Merc_Positions_Short_All` is absent (generate_features.py:120-121) is left out, because COT rows always carry both positions.
- Features.AaiiFrame.ComputeFeatures: the KeyError raised when `bullish`, `bearish` or `neutral` is absent (generate_features.py:131-132) is left out, because AAII rows always carry the three values. `Features.AaiiColumnsProvideFeatures` states when the rename provides them.
- Features.MergeFeatures: price rows carry only the date and Close. The other price columns (Open, High, Low, Volume) pass through both merges into the feature file and the training matrix unchanged, and are not modelled.
- The `str(cell)` of a non-string header cell other than a missing one is modelled as its text.

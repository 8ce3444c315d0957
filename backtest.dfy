/** The backtest: walk the date-sorted signals table, open a trade on every
    confident row, close it a fixed number of rows later, charge a flat cost,
    and compound the returns into a summary. */
module Backtest {
  import opened Common
  import opened SeqUtil
  import opened Signals

  const PROBABILITY_THRESHOLD: real := 0.70
  const HOLD_DAYS: nat := 5
  const TRANSACTION_COST: real := 0.001

  /** The three module-level settings of the script, as one value. */
  datatype Config = Config(threshold: real, holdDays: nat, cost: real)

  const DEFAULT_CONFIG := Config(PROBABILITY_THRESHOLD, HOLD_DAYS, TRANSACTION_COST)

  /** One record of the trade ledger. */
  datatype Trade = Trade(
    entryDate: int,
    exitDate: int,
    prediction: int,
    probability: Option<real>,
    entryClose: real,
    exitClose: real,
    returnPct: real)

  /** The five figures the script reports. */
  datatype Summary = Summary(
    totalTrades: nat,
    profitableTrades: nat,
    winRate: real,
    avgReturn: real,
    cumulativePct: real)

  /** Every Close is a positive price, so every entry price can divide. */
  ghost predicate PositiveCloses(rows: seq<Signal>) {
    forall i :: 0 <= i < |rows| ==> rows[i].close > 0.0
  }

  /** Number of entry positions: `range(len(df) - HOLD_DAYS)`, empty when the
      difference is not positive. */
  function Span(n: nat, holdDays: nat): nat {
    if n > holdDays then n - holdDays else 0
  }

  /** A row opens a trade unless its prediction is missing or its probability
      is below the threshold; a missing probability compares false, so it
      does not by itself skip the row. */
  predicate Qualifies(row: Signal, threshold: real) {
    row.prediction.Some? && !(row.probability.Some? && row.probability.value < threshold)
  }

  /** The fractional return of a trade entered at `entry` and closed at
      `exit`, inverted for a bearish call, net of the flat cost. */
  function TradeReturn(entry: Signal, exit: Signal, cost: real): real
    requires entry.close > 0.0 && entry.prediction.Some?
  {
    var raw := (exit.close - entry.close) / entry.close;
    (if entry.prediction.value == 0 then -raw else raw) - cost
  }

  /** The ledger record for a trade opened at row `i`. */
  function OpenTrade(rows: seq<Signal>, i: nat, cfg: Config): Trade
    requires i + cfg.holdDays < |rows| && rows[i].close > 0.0 && rows[i].prediction.Some?
  {
    var entry := rows[i];
    var exit := rows[i + cfg.holdDays];
    Trade(entry.date, exit.date, entry.prediction.value, entry.probability,
          entry.close, exit.close, TradeReturn(entry, exit, cfg.cost) * 100.0)
  }

  /** The fractional return a ledger record stands for. */
  function Ret(t: Trade): real {
    t.returnPct / 100.0
  }

  /** The trades opened at the entry positions below `n`, in entry order. */
  function Trades(rows: seq<Signal>, cfg: Config, n: nat): seq<Trade>
    requires n <= Span(|rows|, cfg.holdDays) && PositiveCloses(rows)
  {
    if n == 0 then []
    else
      Trades(rows, cfg, n - 1)
      + (if Qualifies(rows[n - 1], cfg.threshold) then [OpenTrade(rows, n - 1, cfg)] else [])
  }

  /** The whole trade ledger of a run. */
  function Ledger(rows: seq<Signal>, cfg: Config): seq<Trade>
    requires PositiveCloses(rows)
  {
    Trades(rows, cfg, Span(|rows|, cfg.holdDays))
  }

  /** The qualifying row positions below `n`, in increasing order. */
  function Positions(rows: seq<Signal>, cfg: Config, n: nat): (idx: seq<nat>)
    requires n <= |rows|
    ensures forall k :: 0 <= k < |idx| ==> idx[k] < n && Qualifies(rows[idx[k]], cfg.threshold)
    ensures forall k, l :: 0 <= k < l < |idx| ==> idx[k] < idx[l]
  {
    if n == 0 then []
    else Positions(rows, cfg, n - 1) + (if Qualifies(rows[n - 1], cfg.threshold) then [n - 1] else [])
  }

  /** The row positions at which the run opens a trade. */
  function Entries(rows: seq<Signal>, cfg: Config): seq<nat> {
    Positions(rows, cfg, Span(|rows|, cfg.holdDays))
  }

  /** The running product of `1 + ret` over the trades, starting from 1. */
  function Compound(ts: seq<Trade>): real {
    if ts == [] then 1.0 else Compound(ts[..|ts| - 1]) * (1.0 + Ret(ts[|ts| - 1]))
  }

  /** A win is a strictly positive net return; a zero return is not one. */
  predicate IsWin(t: Trade) {
    Ret(t) > 0.0
  }

  function SumPct(ts: seq<Trade>): real {
    if ts == [] then 0.0 else SumPct(ts[..|ts| - 1]) + ts[|ts| - 1].returnPct
  }

  /** The summary of a ledger, with the zero fallbacks for an empty one. */
  function Report(ts: seq<Trade>): (s: Summary)
    ensures s.totalTrades == |ts| && s.profitableTrades <= s.totalTrades
    ensures s.profitableTrades == Count(ts, IsWin)
    ensures 0.0 <= s.winRate <= 100.0
    ensures s.avgReturn * (|ts| as real) == SumPct(ts)
    ensures ts == [] ==> s == Summary(0, 0, 0.0, 0.0, 0.0)
    ensures ts != [] ==> s.cumulativePct + 100.0 == Compound(ts) * 100.0
  {
    var total := |ts|;
    var wins := Count(ts, IsWin);
    var winRate := if total > 0 then wins as real / total as real * 100.0 else 0.0;
    PercentBounds(wins, total);
    MeanTimesCount(SumPct(ts), total);
    Summary(
      total,
      wins,
      winRate,
      if ts != [] then SumPct(ts) / total as real else 0.0,
      if ts != [] then (Compound(ts) - 1.0) * 100.0 else 0.0)
  }

  /** The win count is the number of trades the winning mask keeps. */
  lemma ReportCountsWins(ts: seq<Trade>)
    ensures Report(ts).profitableTrades == |Filter(ts, IsWin)|
  {
    CountFilter(ts, IsWin);
  }

  /** The win rate is the share of winning trades, in percent. */
  lemma ReportWinRate(ts: seq<Trade>)
    requires ts != []
    ensures Report(ts).winRate == Report(ts).profitableTrades as real / |ts| as real * 100.0
  {
  }

  lemma PercentBounds(part: nat, whole: nat)
    requires part <= whole
    ensures whole > 0 ==> 0.0 <= part as real / whole as real * 100.0 <= 100.0
  {
    if whole > 0 {
      var q := part as real / whole as real;
      assert q * whole as real == part as real;
      assert q <= 1.0;
    }
  }

  lemma MeanTimesCount(sum: real, n: nat)
    ensures (if n > 0 then sum / n as real else 0.0) * n as real == (if n > 0 then sum else 0.0)
  {
  }

  function DateKey(r: Signal): real {
    r.date as real
  }

  /** `sort_values("date")` on the loaded signals: the same rows, reordered
      so that dates never decrease (the order among equal dates is not
      fixed). */
  function SortByDate(rows: seq<Signal>): (sorted: seq<Signal>)
    ensures multiset(sorted) == multiset(rows)
    ensures forall i, j :: 0 <= i < j < |sorted| ==> sorted[i].date <= sorted[j].date
  {
    var sorted := SortByKey(rows, DateKey);
    assert forall i, j :: 0 <= i < j < |sorted| ==> DateKey(sorted[i]) <= DateKey(sorted[j]);
    sorted
  }

  /** Sorting keeps every Close, so a table of positive prices can be run
      once sorted. */
  lemma SortKeepsPositiveCloses(rows: seq<Signal>)
    requires PositiveCloses(rows)
    ensures PositiveCloses(SortByDate(rows))
  {
    var sorted := SortByDate(rows);
    forall k | 0 <= k < |sorted|
      ensures sorted[k].close > 0.0
    {
      assert sorted[k] in multiset(rows);
    }
  }

  /** One pass of the loop body for a qualifying row: the trade it records
      and its fractional return. */
  method Enter(rows: seq<Signal>, i: nat, cfg: Config) returns (trade: Trade, ret: real)
    requires i + cfg.holdDays < |rows| && rows[i].close > 0.0 && rows[i].prediction.Some?
    ensures trade == OpenTrade(rows, i, cfg) && ret == Ret(trade)
    ensures ret == TradeReturn(rows[i], rows[i + cfg.holdDays], cfg.cost)
  {
    var row := rows[i];
    var exitRow := rows[i + cfg.holdDays];
    ret := (exitRow.close - row.close) / row.close;
    if row.prediction.value == 0 {
      ret := -ret;
    }
    ret := ret - cfg.cost;
    trade := Trade(row.date, exitRow.date, row.prediction.value, row.probability,
                   row.close, exitRow.close, ret * 100.0);
  }

  /** The backtest loop and its summary.  The result is `Ledger`, and the
      accumulators end as the count, win count and compounded product that
      `Report` summarises. */
  method Run(rows: seq<Signal>, cfg: Config) returns (results: seq<Trade>, summary: Summary)
    requires PositiveCloses(rows)
    ensures results == Ledger(rows, cfg)
    ensures summary == Report(results)
  {
    results := [];
    var cumulativeReturn := 1.0;
    var profitableTrades := 0;
    var totalTrades := 0;
    var span := if |rows| > cfg.holdDays then |rows| - cfg.holdDays else 0;
    for i := 0 to span
      invariant results == Trades(rows, cfg, i)
      invariant cumulativeReturn == Compound(results)
      invariant profitableTrades == Count(results, IsWin)
      invariant totalTrades == |results|
    {
      var row := rows[i];
      if row.prediction.None? || (row.probability.Some? && row.probability.value < cfg.threshold) {
        continue;
      }
      var trade, ret := Enter(rows, i, cfg);
      cumulativeReturn := cumulativeReturn * (1.0 + ret);
      if ret > 0.0 {
        profitableTrades := profitableTrades + 1;
      }
      totalTrades := totalTrades + 1;
      AppendTrade(results, trade);
      results := results + [trade];
    }
    ReportOf(results);
    var avgReturn := if results != [] then SumPct(results) / |results| as real else 0.0;
    var cumulativePct := if results != [] then (cumulativeReturn - 1.0) * 100.0 else 0.0;
    var winRate := if totalTrades > 0 then profitableTrades as real / totalTrades as real * 100.0 else 0.0;
    summary := Summary(totalTrades, profitableTrades, winRate, avgReturn, cumulativePct);
  }

  /** The running figures after one more trade. */
  lemma AppendTrade(ts: seq<Trade>, t: Trade)
    ensures Compound(ts + [t]) == Compound(ts) * (1.0 + Ret(t))
    ensures Count(ts + [t], IsWin) == Count(ts, IsWin) + (if Ret(t) > 0.0 then 1 else 0)
  {
    assert (ts + [t])[..|ts|] == ts;
  }

  /** The summary of a ledger, figure by figure. */
  lemma ReportOf(ts: seq<Trade>)
    ensures Report(ts) == Summary(|ts|, Count(ts, IsWin),
      if |ts| > 0 then Count(ts, IsWin) as real / |ts| as real * 100.0 else 0.0,
      if ts != [] then SumPct(ts) / |ts| as real else 0.0,
      if ts != [] then (Compound(ts) - 1.0) * 100.0 else 0.0)
  {
  }

  // ----- which rows open trades -----

  lemma {:induction false} TradesAtEntries(rows: seq<Signal>, cfg: Config, n: nat)
    requires n <= Span(|rows|, cfg.holdDays) && PositiveCloses(rows)
    ensures var idx := Positions(rows, cfg, n);
      && |Trades(rows, cfg, n)| == |idx|
      && forall k :: 0 <= k < |idx| ==> Trades(rows, cfg, n)[k] == OpenTrade(rows, idx[k], cfg)
  {
    if n > 0 {
      TradesAtEntries(rows, cfg, n - 1);
      var prev := Trades(rows, cfg, n - 1);
      var before := Positions(rows, cfg, n - 1);
      var ts := Trades(rows, cfg, n);
      var idx := Positions(rows, cfg, n);
      forall k | 0 <= k < |idx|
        ensures ts[k] == OpenTrade(rows, idx[k], cfg)
      {
        if k < |before| {
          assert ts[k] == prev[k] && idx[k] == before[k];
        }
      }
    }
  }

  /** A position below `n` is listed exactly when its row qualifies. */
  lemma {:induction false} PositionsExact(rows: seq<Signal>, cfg: Config, n: nat, i: int)
    requires n <= |rows|
    ensures i in Positions(rows, cfg, n) <==> 0 <= i < n && Qualifies(rows[i], cfg.threshold)
  {
    if n > 0 {
      PositionsExact(rows, cfg, n - 1, i);
    }
  }

  /** The ledger holds one trade per entry position, in increasing position
      order, each with its exit row inside the table. */
  lemma LedgerPositions(rows: seq<Signal>, cfg: Config)
    requires PositiveCloses(rows)
    ensures var idx := Entries(rows, cfg);
      && |Ledger(rows, cfg)| == |idx|
      && (forall k, l :: 0 <= k < l < |idx| ==> idx[k] < idx[l])
      && (forall k :: 0 <= k < |idx| ==>
            idx[k] + cfg.holdDays < |rows| && Qualifies(rows[idx[k]], cfg.threshold)
            && Ledger(rows, cfg)[k] == OpenTrade(rows, idx[k], cfg))
  {
    TradesAtEntries(rows, cfg, Span(|rows|, cfg.holdDays));
  }

  /** The ledger holds one trade per entry position, in increasing position
      order; a position is an entry exactly when its row qualifies and its
      exit row `i + holdDays` exists. */
  lemma LedgerIsEntries(rows: seq<Signal>, cfg: Config)
    requires PositiveCloses(rows)
    ensures var idx := Entries(rows, cfg);
      && |Ledger(rows, cfg)| == |idx|
      && (forall k, l :: 0 <= k < l < |idx| ==> idx[k] < idx[l])
      && (forall k :: 0 <= k < |idx| ==>
            idx[k] + cfg.holdDays < |rows| && Qualifies(rows[idx[k]], cfg.threshold)
            && Ledger(rows, cfg)[k] == OpenTrade(rows, idx[k], cfg))
      && (forall i :: i in idx <==> 0 <= i && i + cfg.holdDays < |rows| && Qualifies(rows[i], cfg.threshold))
  {
    LedgerPositions(rows, cfg);
    forall i ensures i in Entries(rows, cfg) <==> 0 <= i && i + cfg.holdDays < |rows| && Qualifies(rows[i], cfg.threshold) {
      PositionsExact(rows, cfg, Span(|rows|, cfg.holdDays), i);
    }
  }

  /** On a table sorted by unique dates, entry dates strictly increase down
      the ledger, and every trade exits after it enters when
      `holdDays >= 1`. */
  lemma LedgerDateOrder(rows: seq<Signal>, cfg: Config)
    requires PositiveCloses(rows) && DatesIncreasing(rows)
    ensures var ts := Ledger(rows, cfg);
      forall k, l :: 0 <= k < l < |ts| ==> ts[k].entryDate < ts[l].entryDate
    ensures var ts := Ledger(rows, cfg);
      cfg.holdDays >= 1 ==> forall k :: 0 <= k < |ts| ==> ts[k].entryDate < ts[k].exitDate
  {
    var ts := Ledger(rows, cfg);
    var idx := Entries(rows, cfg);
    LedgerPositions(rows, cfg);
    forall k | 0 <= k < |ts|
      ensures ts[k].entryDate == rows[idx[k]].date && ts[k].exitDate == rows[idx[k] + cfg.holdDays].date
    {
      assert ts[k] == OpenTrade(rows, idx[k], cfg);
    }
    TradeDates(ts, idx, rows, cfg.holdDays);
  }

  /** Trades opened at increasing rows of a table with increasing dates,
      each closed `holdDays` rows later, have increasing entry dates, and
      exit after they enter when `holdDays >= 1`. */
  lemma TradeDates(ts: seq<Trade>, idx: seq<nat>, rows: seq<Signal>, holdDays: nat)
    requires DatesIncreasing(rows) && |ts| == |idx|
    requires forall k, l :: 0 <= k < l < |idx| ==> idx[k] < idx[l]
    requires forall k :: 0 <= k < |idx| ==> idx[k] + holdDays < |rows|
    requires forall k :: 0 <= k < |ts| ==>
      ts[k].entryDate == rows[idx[k]].date && ts[k].exitDate == rows[idx[k] + holdDays].date
    ensures forall k, l :: 0 <= k < l < |ts| ==> ts[k].entryDate < ts[l].entryDate
    ensures holdDays >= 1 ==> forall k :: 0 <= k < |ts| ==> ts[k].entryDate < ts[k].exitDate
  {
  }

  /** With no row left to exit into, nothing trades and every figure is 0. */
  lemma ShortTableIsEmptyRun(rows: seq<Signal>, cfg: Config)
    requires PositiveCloses(rows) && |rows| <= cfg.holdDays
    ensures Ledger(rows, cfg) == []
    ensures Report(Ledger(rows, cfg)) == Summary(0, 0, 0.0, 0.0, 0.0)
  {
    assert Span(|rows|, cfg.holdDays) == 0;
  }

  /** A table in which no row qualifies is the empty run, not an error. */
  lemma NoQualifyingRowIsEmptyRun(rows: seq<Signal>, cfg: Config)
    requires PositiveCloses(rows)
    requires forall i :: 0 <= i < |rows| ==> !Qualifies(rows[i], cfg.threshold)
    ensures Ledger(rows, cfg) == []
    ensures Report(Ledger(rows, cfg)) == Summary(0, 0, 0.0, 0.0, 0.0)
  {
    NoQualifyingRowNoTrade(rows, cfg, Span(|rows|, cfg.holdDays));
  }

  lemma {:induction false} NoQualifyingRowNoTrade(rows: seq<Signal>, cfg: Config, n: nat)
    requires n <= Span(|rows|, cfg.holdDays) && PositiveCloses(rows)
    requires forall i :: 0 <= i < n ==> !Qualifies(rows[i], cfg.threshold)
    ensures Trades(rows, cfg, n) == []
  {
    if n > 0 {
      NoQualifyingRowNoTrade(rows, cfg, n - 1);
    }
  }

  /** The last entry position is `len - holdDays - 1`: a qualifying row there
      trades, while the row at `len - holdDays` never does, having no exit row. */
  lemma EntryBoundary(rows: seq<Signal>, cfg: Config)
    requires PositiveCloses(rows) && |rows| > cfg.holdDays
    ensures Qualifies(rows[|rows| - cfg.holdDays - 1], cfg.threshold) ==>
      Ledger(rows, cfg) != [] && Ledger(rows, cfg)[|Ledger(rows, cfg)| - 1] == OpenTrade(rows, |rows| - cfg.holdDays - 1, cfg)
    ensures |rows| - cfg.holdDays !in Entries(rows, cfg)
  {
    LedgerIsEntries(rows, cfg);
  }

  // ----- one trade -----

  /** A bullish trade wins exactly when the exit price beats the entry price
      by more than the cost; a bearish one when it falls short of it by more
      than the cost. */
  lemma WinCondition(entry: Signal, exit: Signal, cost: real)
    requires entry.close > 0.0 && entry.prediction.Some?
    ensures entry.prediction.value != 0 ==>
      (TradeReturn(entry, exit, cost) > 0.0 <==> exit.close > entry.close * (1.0 + cost))
    ensures entry.prediction.value == 0 ==>
      (TradeReturn(entry, exit, cost) > 0.0 <==> exit.close < entry.close * (1.0 - cost))
  {
    var e := entry.close;
    var raw := (exit.close - e) / e;
    assert raw * e == exit.close - e;
    if raw > cost {
      assert raw * e > cost * e;
    }
    if raw < -cost {
      assert raw * e < -cost * e;
    }
    if exit.close > e * (1.0 + cost) {
      assert raw * e > cost * e;
    }
    if exit.close < e * (1.0 - cost) {
      assert raw * e < -cost * e;
    }
  }

  /** The bullish and bearish calls on the same prices differ only in the
      sign of the raw return; both pay the cost. */
  lemma DirectionInversion(entry: Signal, exit: Signal, cost: real)
    requires entry.close > 0.0 && entry.prediction.Some? && entry.prediction.value == 0
    ensures TradeReturn(entry, exit, cost) + cost
         == -(TradeReturn(entry.(prediction := Some(1)), exit, cost) + cost)
  {
  }

  /** A six-row table with a qualifying first row trades exactly once, at
      row 0, closing at row 5. */
  lemma SixRowLedger(rows: seq<Signal>)
    requires |rows| == 6 && PositiveCloses(rows)
    requires Qualifies(rows[0], PROBABILITY_THRESHOLD)
    ensures Ledger(rows, DEFAULT_CONFIG) == [OpenTrade(rows, 0, DEFAULT_CONFIG)]
  {
    assert Span(6, HOLD_DAYS) == 1;
    assert Trades(rows, DEFAULT_CONFIG, 0) == [];
  }

  /** Entry 100, exit 110, bullish at 0.80: the one trade returns 9.9 %, and
      so does the whole run. */
  lemma BullishTradeExample(rows: seq<Signal>)
    requires |rows| == 6 && PositiveCloses(rows)
    requires rows[0].close == 100.0 && rows[5].close == 110.0
    requires rows[0].prediction == Some(1) && rows[0].probability == Some(0.80)
    ensures |Ledger(rows, DEFAULT_CONFIG)| == 1 && Ledger(rows, DEFAULT_CONFIG)[0].returnPct == 9.9
    ensures Report(Ledger(rows, DEFAULT_CONFIG)).cumulativePct == 9.9
  {
    SixRowLedger(rows);
    var t := OpenTrade(rows, 0, DEFAULT_CONFIG);
    assert t.returnPct == 9.9;
    assert [t][..0] == [];
    assert Compound([t]) == 1.0 + Ret(t);
  }

  /** The same prices called bearish: the one trade returns -10.1 %. */
  lemma BearishTradeExample(rows: seq<Signal>)
    requires |rows| == 6 && PositiveCloses(rows)
    requires rows[0].close == 100.0 && rows[5].close == 110.0
    requires rows[0].prediction == Some(0) && rows[0].probability == Some(0.80)
    ensures |Ledger(rows, DEFAULT_CONFIG)| == 1 && Ledger(rows, DEFAULT_CONFIG)[0].returnPct == -10.1
  {
    SixRowLedger(rows);
  }

  // ----- compounding -----

  lemma {:induction false} CompoundAppend(a: seq<Trade>, b: seq<Trade>)
    ensures Compound(a + b) == Compound(a) * Compound(b)
    decreases |b|
  {
    if b == [] {
      assert a + b == a;
    } else {
      var initB := b[..|b| - 1];
      var f := 1.0 + Ret(b[|b| - 1]);
      assert (a + b)[..|a + b| - 1] == a + initB;
      assert (a + b)[|a + b| - 1] == b[|b| - 1];
      CompoundAppend(a, initB);
      calc {
        Compound(a + b);
        Compound(a + initB) * f;
        (Compound(a) * Compound(initB)) * f;
        Compound(a) * (Compound(initB) * f);
        Compound(a) * Compound(b);
      }
    }
  }

  /** Two trades of +10 % and -5 % compound to +4.5 %, average 2.5 % and win
      half the time. */
  lemma CompoundingExample(t1: Trade, t2: Trade)
    requires t1.returnPct == 10.0 && t2.returnPct == -5.0
    ensures Report([t1, t2]).cumulativePct == 4.5
    ensures Report([t1, t2]).avgReturn == 2.5
    ensures Report([t1, t2]).winRate == 50.0
  {
    CompoundAppend([t1], [t2]);
    assert [t1, t2][..1] == [t1];
    assert [t1][..0] == [] && [t2][..0] == [];
    assert SumPct([t1]) == 10.0;
    assert SumPct([t1, t2]) == SumPct([t1]) + t2.returnPct;
    assert Count([t1, t2], IsWin) == 1 by {
      assert [t1, t2][..1] == [t1];
      assert [t1][..0] == [];
    }
  }

  lemma PositiveProduct(a: real, b: real)
    requires a > 0.0 && b > 0.0
    ensures a * b > 0.0
  {
  }

  /** As long as no trade loses everything, the compounded value stays
      positive. */
  lemma {:induction false} CompoundPositive(ts: seq<Trade>)
    requires forall k :: 0 <= k < |ts| ==> ts[k].returnPct > -100.0
    ensures Compound(ts) > 0.0
    decreases |ts|
  {
    if ts != [] {
      var init := ts[..|ts| - 1];
      CompoundPositive(init);
      var a := Compound(init);
      var b := 1.0 + Ret(ts[|ts| - 1]);
      assert b > 0.0;
      PositiveProduct(a, b);
      assert Compound(ts) == a * b;
    }
  }
}

/** The command-line signal viewer of `cli_trading_bot.py`: it filters the
    signals by a minimum date and a minimum probability, ranks the rest by
    probability, labels the ten best and lets the user open one of them by
    number until they quit. */
module TradingCli {
  import opened Common
  import opened SeqUtil
  import opened Strings
  import opened Numbers
  import opened Signals

  /** The number of rows shown and selectable. */
  const TOP_COUNT: nat := 10

  /** The probability threshold offered when the user just presses enter. */
  const DEFAULT_MIN_PROBABILITY: string := "0.50"

  /** `Prompt.ask(..., default=d)`: an empty answer stands for `d`; any
      other answer is returned with its surrounding whitespace stripped. */
  function Answer(input: string, default: string): (a: string)
    ensures input != "" ==> a == Strip(input) && |a| <= |input|
    ensures input != "" ==> a == [] || (!IsSpace(a[0]) && !IsSpace(a[|a| - 1]))
    ensures input == "" ==> a == default
  {
    if input == "" then default else Strip(input)
  }

  // ----- the filters -----

  predicate OnOrAfter(r: Signal, minDate: int) {
    r.date >= minDate
  }

  function DateMask(minDate: int): Signal -> bool {
    r => OnOrAfter(r, minDate)
  }

  /** The minimum-date filter; `None` is the blank answer, which applies
      no filter. */
  function DateFilter(rows: seq<Signal>, minDate: Option<int>): (r: seq<Signal>)
    ensures IsSubsequence(r, rows)
    ensures minDate.None? ==> r == rows
    ensures minDate.Some? ==> forall k :: 0 <= k < |r| ==> r[k].date >= minDate.value
    ensures minDate.Some? ==> forall j :: 0 <= j < |rows| && rows[j].date >= minDate.value ==> rows[j] in r
    ensures minDate.Some? ==> |r| == Count(rows, DateMask(minDate.value))
  {
    match minDate
    case None =>
      assert Picks(rows, rows, seq(|rows|, k requires 0 <= k < |rows| => k));
      rows
    case Some(d) =>
      FilterIsSubsequence(rows, DateMask(d));
      CountFilter(rows, DateMask(d));
      Filter(rows, DateMask(d))
  }

  /** `probability >= min_prob`; a missing probability compares false. */
  predicate AtLeast(r: Signal, minProb: real) {
    r.probability.Some? && r.probability.value >= minProb
  }

  function ProbabilityMask(minProb: real): Signal -> bool {
    r => AtLeast(r, minProb)
  }

  /** The probability filter: exactly the rows whose probability is present
      and at least `minProb`, in their order. */
  function ProbabilityFilter(rows: seq<Signal>, minProb: real): (r: seq<Signal>)
    ensures IsSubsequence(r, rows)
    ensures forall k :: 0 <= k < |r| ==> r[k].probability.Some? && r[k].probability.value >= minProb
    ensures forall j :: 0 <= j < |rows| && AtLeast(rows[j], minProb) ==> rows[j] in r
    ensures |r| == Count(rows, ProbabilityMask(minProb))
  {
    FilterIsSubsequence(rows, ProbabilityMask(minProb));
    CountFilter(rows, ProbabilityMask(minProb));
    Filter(rows, ProbabilityMask(minProb))
  }

  /** Raising the threshold can only remove rows: the stricter result is
      the looser one filtered again, hence a subsequence of it. */
  lemma RaisingThresholdShrinks(rows: seq<Signal>, lower: real, higher: real)
    requires lower <= higher
    ensures ProbabilityFilter(ProbabilityFilter(rows, lower), higher) == ProbabilityFilter(rows, higher)
    ensures IsSubsequence(ProbabilityFilter(rows, higher), ProbabilityFilter(rows, lower))
    ensures |ProbabilityFilter(rows, higher)| <= |ProbabilityFilter(rows, lower)|
  {
    FilterNarrow(rows, ProbabilityMask(lower), ProbabilityMask(higher));
    FilterIsSubsequence(ProbabilityFilter(rows, lower), ProbabilityMask(higher));
  }

  // ----- ranking -----

  /** The sort key that puts the highest probability first. */
  function Descending(r: Signal): real {
    if r.probability.Some? then -r.probability.value else 0.0
  }

  /** The filtered signals ranked by probability, and the rows shown. */
  datatype Listing = NoSignals | Listing(ranked: seq<Signal>, top: seq<Signal>)

  /** A nonempty selection sorted by descending probability, and its first
      ten rows. */
  function RankRows(rows: seq<Signal>, minProb: real): (l: Listing)
    requires rows != [] && forall k :: 0 <= k < |rows| ==> AtLeast(rows[k], minProb)
    ensures l.Listing? && multiset(l.ranked) == multiset(rows)
    ensures |l.ranked| > 0
    ensures forall k :: 0 <= k < |l.ranked| ==> l.ranked[k].probability.Some?
    ensures forall i, j :: 0 <= i < j < |l.ranked| ==> l.ranked[i].probability.value >= l.ranked[j].probability.value
    ensures l.top == Take(l.ranked, TOP_COUNT)
  {
    var ranked := SortByKey(rows, Descending);
    RankedProbabilitiesPresent(rows, ranked, minProb);
    assert forall i, j :: 0 <= i < j < |ranked| ==> Descending(ranked[i]) <= Descending(ranked[j]);
    Listing(ranked, Take(ranked, TOP_COUNT))
  }

  /** From the signals file to the listing: dates that do not parse are
      dropped, the threshold answer is read with `float` (a refusal raises),
      the date and probability filters are applied, an empty result ends the
      program early, and otherwise the rows are sorted by descending
      probability and the first ten are the ones shown. */
  function Rank(raw: seq<RawSignal>, minProbInput: string, minDate: Option<int>): (r: Result<Listing>)
    ensures ParseDecimal(Answer(minProbInput, DEFAULT_MIN_PROBABILITY)).None? <==> r.Err?
    ensures r.Ok? && r.value.Listing? ==>
      var ranked := r.value.ranked;
      && |ranked| > 0
      && (forall k :: 0 <= k < |ranked| ==> ranked[k].probability.Some?)
      && (forall i, j :: 0 <= i < j < |ranked| ==> ranked[i].probability.value >= ranked[j].probability.value)
      && r.value.top == Take(ranked, TOP_COUNT)
  {
    var text := Answer(minProbInput, DEFAULT_MIN_PROBABILITY);
    match ParseDecimal(text)
    case None => Err(NotANumber(text))
    case Some(minProb) =>
      var rows := ProbabilityFilter(DateFilter(DropUnparsedDates(raw), minDate), minProb);
      if rows == [] then Ok(NoSignals)
      else Ok(RankRows(rows, minProb))
  }

  /** Sorting moves rows but keeps them: every ranked row passed the
      probability filter. */
  lemma RankedProbabilitiesPresent(rows: seq<Signal>, ranked: seq<Signal>, minProb: real)
    requires forall k :: 0 <= k < |rows| ==> AtLeast(rows[k], minProb)
    requires multiset(ranked) == multiset(rows)
    ensures forall k :: 0 <= k < |ranked| ==> AtLeast(ranked[k], minProb)
  {
    forall k | 0 <= k < |ranked|
      ensures AtLeast(ranked[k], minProb)
    {
      assert ranked[k] in multiset(rows);
      var j :| 0 <= j < |rows| && rows[j] == ranked[k];
    }
  }

  /** The ranking is exactly the filtered signals, reordered: each ranked
      row parsed, is on or after the minimum date and meets the threshold,
      and every such row is ranked. */
  lemma RankedRowsAreTheFilteredRows(raw: seq<RawSignal>, minProbInput: string, minDate: Option<int>)
    requires Rank(raw, minProbInput, minDate).Ok?
    ensures var minProb := ParseDecimal(Answer(minProbInput, DEFAULT_MIN_PROBABILITY)).value;
      var rows := ProbabilityFilter(DateFilter(DropUnparsedDates(raw), minDate), minProb);
      match Rank(raw, minProbInput, minDate).value
      case NoSignals => rows == []
      case Listing(ranked, _) => multiset(ranked) == multiset(rows)
  {
  }

  /** At most ten rows are shown, the best ones first. */
  lemma TopRowsBound(ranked: seq<Signal>)
    ensures |Take(ranked, TOP_COUNT)| == Min(|ranked|, TOP_COUNT)
    ensures forall k :: 0 <= k < |Take(ranked, TOP_COUNT)| ==> Take(ranked, TOP_COUNT)[k] == ranked[k]
  {
  }

  // ----- labels -----

  datatype Direction = Bullish | Bearish

  /** The label of a shown row: Bullish exactly when `int(prediction)` is 1;
      a missing prediction makes `int` raise. */
  function Label(r: Signal): (d: Result<Direction>)
    ensures d == Ok(Bullish) <==> r.prediction == Some(1)
    ensures d == Ok(Bearish) <==> r.prediction.Some? && r.prediction.value != 1
    ensures d.Err? <==> r.prediction.None?
  {
    match r.prediction
    case None => Err(MissingPrediction)
    case Some(p) => if p == 1 then Ok(Bullish) else Ok(Bearish)
  }

  /** The labels of the shown rows, in order; the first missing prediction
      aborts the listing. */
  function Labels(top: seq<Signal>): (r: Result<seq<Direction>>)
    ensures r.Ok? <==> forall k :: 0 <= k < |top| ==> top[k].prediction.Some?
    ensures r.Ok? ==> |r.value| == |top| && forall k :: 0 <= k < |top| ==> Ok(r.value[k]) == Label(top[k])
    decreases |top|
  {
    if top == [] then Ok([])
    else
      match Label(top[0])
      case Err(e) => Err(e)
      case Ok(d) =>
        match Labels(top[1..])
        case Err(e) => Err(e)
        case Ok(rest) =>
          assert forall k :: 1 <= k < |top| ==> top[k] == top[1..][k - 1];
          Ok([d] + rest)
  }

  // ----- the selection loop -----

  /** What one answer to the trade-number prompt does. */
  datatype Choice =
    | Quit                 // "q" in any case, or an empty answer
    | Invalid              // a number outside 1..count
    | NotNumeric           // `int` refused the answer
    | Show(index: nat)     // the details of row `index` of the shown rows

  /** One answer, read against `count` shown rows. */
  function Interpret(input: string, count: nat): (c: Choice)
    ensures c.Show? ==> c.index < count
  {
    var choice := Answer(input, "q");
    if Lower(choice) == "q" then Quit
    else match ParseInt(choice)
      case None => NotNumeric
      case Some(k) => if k - 1 < 0 || k - 1 >= count then Invalid else Show(k - 1)
  }

  /** A number selects row `k - 1` exactly when `1 <= k <= count`;
      whitespace around it does not matter. */
  lemma SelectsWithinRange(input: string, count: nat, k: int)
    requires input != "" && Lower(Strip(input)) != "q" && ParseInt(input) == Some(k)
    ensures Interpret(input, count) == (if 1 <= k <= count then Show(k - 1) else Invalid)
  {
    StripUnpadded(Strip(input));
  }

  /** An answer quits exactly when, once defaulted and stripped, it is "q"
      in either case. */
  lemma QuitIff(input: string, count: nat)
    ensures Interpret(input, count) == Quit <==> Lower(Answer(input, "q")) == "q"
  {
  }

  /** An answer that does not quit and that `int` refuses is reported as not
      a number, and only such an answer is. */
  lemma NotNumericIff(input: string, count: nat)
    ensures Interpret(input, count) == NotNumeric <==>
      Lower(Answer(input, "q")) != "q" && ParseInt(Answer(input, "q")).None?
  {
  }

  /** The empty answer quits, and so does "q" or "Q" with any whitespace
      around it. */
  lemma QuitAnswers(pre: string, post: string, count: nat)
    requires forall k :: 0 <= k < |pre| ==> IsSpace(pre[k])
    requires forall k :: 0 <= k < |post| ==> IsSpace(post[k])
    ensures Interpret("", count) == Quit
    ensures Interpret(pre + "q" + post, count) == Quit
    ensures Interpret(pre + "Q" + post, count) == Quit
  {
    assert Lower("q") == "q" && Lower("Q") == "q";
    StripPadded(pre, "q", post);
    StripPadded(pre, "Q", post);
    assert (pre + "q" + post)[|pre|] == 'q';
    assert (pre + "Q" + post)[|pre|] == 'Q';
  }

  /** The choices of a run of answers up to and including the first quit:
      nothing is read after it. */
  function UntilQuit(cs: seq<Choice>): (r: seq<Choice>)
    ensures |r| <= |cs|
    decreases |cs|
  {
    if cs == [] then []
    else if cs[0] == Quit then [Quit]
    else [cs[0]] + UntilQuit(cs[1..])
  }

  /** What each answer would do if it were read with `interpret`. */
  function Choices(inputs: seq<string>, interpret: string -> Choice): (cs: seq<Choice>)
    ensures |cs| == |inputs|
    ensures forall i :: 0 <= i < |inputs| ==> cs[i] == interpret(inputs[i])
  {
    seq(|inputs|, i requires 0 <= i < |inputs| => interpret(inputs[i]))
  }

  /** Answers read against `count` shown rows. */
  function Against(count: nat): string -> Choice {
    input => Interpret(input, count)
  }

  /** The steps of the prompt loop over the answers `inputs`. */
  function Session(inputs: seq<string>, count: nat): seq<Choice> {
    UntilQuit(Choices(inputs, Against(count)))
  }

  /** One step of the loop: the steps from answer `i` on. */
  lemma UntilQuitStep(cs: seq<Choice>, i: nat)
    requires i < |cs|
    ensures UntilQuit(cs[i..]) == if cs[i] == Quit then [Quit] else [cs[i]] + UntilQuit(cs[i + 1..])
  {
    assert cs[i..][0] == cs[i] && cs[i..][1..] == cs[i + 1..];
  }

  /** A prompt loop: each answer is read with `interpret` and acted upon,
      until one quits or the answers run out. */
  method PromptLoop(inputs: seq<string>, interpret: string -> Choice) returns (choices: seq<Choice>)
    ensures choices == UntilQuit(Choices(inputs, interpret))
  {
    ghost var cs := Choices(inputs, interpret);
    choices := [];
    var i := 0;
    while i < |inputs|
      invariant 0 <= i <= |inputs|
      invariant choices + UntilQuit(cs[i..]) == UntilQuit(cs)
      decreases |inputs| - i
    {
      var c := interpret(inputs[i]);
      assert c == cs[i];
      UntilQuitStep(cs, i);
      if c == Quit {
        choices := choices + [c];
        return;
      }
      assert (choices + [c]) + UntilQuit(cs[i + 1..]) == choices + ([c] + UntilQuit(cs[i + 1..]));
      choices := choices + [c];
      i := i + 1;
    }
    assert cs[i..] == [];
    assert choices + [] == choices;
  }

  /** The `while True` loop of the viewer: the prompt loop with answers
      read against the shown rows. */
  method SelectionLoop(inputs: seq<string>, count: nat) returns (choices: seq<Choice>)
    ensures choices == Session(inputs, count)
  {
    choices := PromptLoop(inputs, Against(count));
  }

  /** The steps taken are the first choices in order, and a quit can only
      be the last of them. */
  lemma {:induction false} UntilQuitShape(cs: seq<Choice>)
    ensures forall k :: 0 <= k < |UntilQuit(cs)| ==> UntilQuit(cs)[k] == cs[k]
    ensures forall k :: 0 <= k < |UntilQuit(cs)| - 1 ==> UntilQuit(cs)[k] != Quit
    decreases |cs|
  {
    if cs != [] && cs[0] != Quit {
      UntilQuitShape(cs[1..]);
      var r := UntilQuit(cs);
      assert r == [cs[0]] + UntilQuit(cs[1..]);
      forall k | 1 <= k < |r|
        ensures r[k] == UntilQuit(cs[1..])[k - 1]
      {
      }
    }
  }

  /** Every row the loop opens is one of the shown rows, step `k` acts on
      answer `k`, and nothing is read after a quit. */
  lemma SessionShape(inputs: seq<string>, count: nat)
    ensures forall k :: 0 <= k < |Session(inputs, count)| ==> Session(inputs, count)[k] == Interpret(inputs[k], count)
    ensures forall k :: 0 <= k < |Session(inputs, count)| && Session(inputs, count)[k].Show? ==>
      Session(inputs, count)[k].index < count
    ensures forall k :: 0 <= k < |Session(inputs, count)| - 1 ==> Session(inputs, count)[k] != Quit
  {
    UntilQuitShape(Choices(inputs, Against(count)));
  }

  /** Without a quit, every choice is a step. */
  lemma {:induction false} UntilQuitKeepsAll(cs: seq<Choice>)
    requires Quit !in cs
    ensures UntilQuit(cs) == cs
    decreases |cs|
  {
    if cs != [] {
      assert cs == [cs[0]] + cs[1..];
      UntilQuitKeepsAll(cs[1..]);
    }
  }

  /** Answers that never quit are all acted upon, one step each. */
  lemma SessionWithoutQuit(inputs: seq<string>, count: nat)
    requires forall k :: 0 <= k < |inputs| ==> Interpret(inputs[k], count) != Quit
    ensures |Session(inputs, count)| == |inputs|
  {
    UntilQuitKeepsAll(Choices(inputs, Against(count)));
  }
}

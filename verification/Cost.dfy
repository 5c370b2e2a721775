/** internal/controller/claudetask_controller.go: the running cost of a task. Money makes a round
    trip through a four-digit decimal string each time; float64 is modelled by exact rationals. */
module Cost {
  import opened Text
  import opened Options
  import opened ClaudeOutput

  /** The fields of a CostReport. */
  datatype Costs = Costs(
    inputTokens: int,
    outputTokens: int,
    cacheReadInputTokens: int,
    cacheCreationInputTokens: int,
    durationMs: int,
    estimatedCost: string)

  const ZERO_COSTS := Costs(0, 0, 0, 0, 0, "")

  /** int64 arithmetic wraps around. */
  function Wrap64(n: int): int {
    (n + 0x8000_0000_0000_0000) % 0x1_0000_0000_0000_0000 - 0x8000_0000_0000_0000
  }

  /** Wrapping gives the one int64 value that is congruent to the exact one. */
  lemma WrapIsInt64(n: int)
    ensures -0x8000_0000_0000_0000 <= Wrap64(n) < 0x8000_0000_0000_0000
    ensures exists k :: n == Wrap64(n) + k * 0x1_0000_0000_0000_0000
    ensures -0x8000_0000_0000_0000 <= n < 0x8000_0000_0000_0000 ==> Wrap64(n) == n
  {
    var m := 0x1_0000_0000_0000_0000;
    var x := n + 0x8000_0000_0000_0000;
    assert x == x / m * m + x % m;
    assert n == Wrap64(n) + x / m * 0x1_0000_0000_0000_0000;
  }

  lemma WrapAdds(a: int, b: int)
    ensures Wrap64(Wrap64(a) + b) == Wrap64(a + b)
  {
    var m := 0x1_0000_0000_0000_0000;
    var x := a + 0x8000_0000_0000_0000;
    assert x == x / m * m + x % m;
    assert a + b + 0x8000_0000_0000_0000 == x % m + b + x / m * m;
    ModShift(x % m + b, x / m);
  }

  lemma ModShift(n: int, k: int)
    ensures (n + k * 0x1_0000_0000_0000_0000) % 0x1_0000_0000_0000_0000 == n % 0x1_0000_0000_0000_0000
  {
  }

  function Abs(x: real): (r: real) {
    if x < 0.0 then -x else x
  }

  /** Round to the nearest integer, a tie to the even one, as strconv does. */
  function Round(x: real): (n: nat)
    requires x >= 0.0
    ensures Abs(n as real - x) <= 0.5
  {
    var f := x.Floor;
    var part := x - f as real;
    if part < 0.5 || (part == 0.5 && f % 2 == 0) then f else f + 1
  }

  /** Exactly four digits. */
  function FourDigits(k: nat): (s: string)
    requires k < 10000
    ensures |s| == 4 && AllDigits(s) && NumberOf(s) == k
  {
    var s := [Digit(k / 1000), Digit(k / 100 % 10), Digit(k / 10 % 10), Digit(k % 10)];
    assert s[..3][..2][..1][..0] == "";
    assert s[..3][..2][..1] == [Digit(k / 1000)];
    assert NumberOf(s[..3][..2][..1]) == k / 1000;
    assert s[..3][..2] == [Digit(k / 1000), Digit(k / 100 % 10)];
    assert NumberOf(s[..3][..2]) == k / 100;
    assert s[..3] == [Digit(k / 1000), Digit(k / 100 % 10), Digit(k / 10 % 10)];
    assert NumberOf(s[..3]) == k / 10;
    s
  }

  /** fmt.Sprintf("$%.4f", x). */
  function Print(x: real): string {
    var n := Round(Abs(x) * 10000.0);
    "$" + (if x < 0.0 then "-" else "") + Decimal(n / 10000) + "." + FourDigits(n % 10000)
  }

  /** The value that is printed. */
  function Rounded(x: real): real {
    var r := Round(Abs(x) * 10000.0) as real / 10000.0;
    if x < 0.0 then -r else r
  }

  function DigitRun(s: string): (n: nat)
    ensures n <= |s| && AllDigits(s[..n])
    ensures n < |s| ==> !IsDigit(s[n])
  {
    if s == "" || !IsDigit(s[0]) then 0
    else
      var n := 1 + DigitRun(s[1..]);
      assert s[..n] == [s[0]] + s[1..][..n - 1];
      n
  }

  function Pow10(n: nat): (p: nat)
    ensures p > 0
  {
    if n == 0 then 1 else 10 * Pow10(n - 1)
  }

  /** An unsigned decimal number at the start of `s`. */
  function ScanNumber(s: string): Option<real> {
    var n := DigitRun(s);
    var rest := s[n..];
    if rest != "" && rest[0] == '.' then
      var m := DigitRun(rest[1..]);
      if n + m == 0 then None
      else Some(NumberOf(s[..n]) as real + NumberOf(rest[1..][..m]) as real / Pow10(m) as real)
    else if n == 0 then None
    else Some(NumberOf(s[..n]) as real)
  }

  /** fmt.Sscanf(s, "$%f", &x): `None` is an error, which leaves x alone. */
  function Scanned(s: string): Option<real> {
    if s == "" || s[0] != '$' then None
    else if |s| > 1 && s[1] == '-' then
      match ScanNumber(s[2..]) { case None => None case Some(x) => Some(-x) }
    else if |s| > 1 && s[1] == '+' then ScanNumber(s[2..])
    else ScanNumber(s[1..])
  }

  lemma {:induction false} DigitRunIs(d: string, t: string)
    requires AllDigits(d)
    requires t != "" ==> !IsDigit(t[0])
    ensures DigitRun(d + t) == |d|
  {
    if d == "" {
      assert d + t == t;
    } else {
      assert (d + t)[1..] == d[1..] + t;
      DigitRunIs(d[1..], t);
    }
  }

  lemma ScanDecimal(whole: string, frac: string)
    requires whole != "" && AllDigits(whole) && AllDigits(frac) && |frac| == 4
    ensures ScanNumber(whole + "." + frac) == Some(NumberOf(whole) as real + NumberOf(frac) as real / 10000.0)
  {
    hide DigitRun, NumberOf, Pow10, Decimal;
    var s := whole + "." + frac;
    assert s == whole + ("." + frac);
    DigitRunIs(whole, "." + frac);
    assert s[..|whole|] == whole;
    var rest := s[|whole|..];
    assert rest == "." + frac;
    assert rest[1..] == frac == frac + "";
    DigitRunIs(frac, "");
    assert frac[..4] == frac;
    Pow10Four();
  }

  lemma Pow10Four()
    ensures Pow10(4) == 10000
  {
    assert Pow10(1) == 10;
    assert Pow10(2) == 100;
    assert Pow10(3) == 1000;
  }

  lemma Quotient(n: nat)
    ensures (n / 10000) as real + (n % 10000) as real / 10000.0 == n as real / 10000.0
  {
    var q, r := n / 10000, n % 10000;
    assert n == 10000 * q + r;
    assert n as real == 10000.0 * q as real + r as real;
  }

  /** Scanning what was printed returns the printed value exactly. */
  lemma ScanPrinted(x: real)
    ensures Scanned(Print(x)) == Some(Rounded(x))
  {
    hide Round, ScanNumber, Decimal, FourDigits, NumberOf;
    var n := Round(Abs(x) * 10000.0);
    var whole, frac := Decimal(n / 10000), FourDigits(n % 10000);
    ScanDecimal(whole, frac);
    Quotient(n);
    if x < 0.0 {
      assert Print(x)[2..] == whole + "." + frac;
    } else {
      assert IsDigit(Print(x)[1]) by { assert Print(x)[1] == whole[0]; }
      assert Print(x)[1..] == whole + "." + frac;
    }
  }

  /** One rounding is off by at most half of the last digit. */
  lemma RoundingError(x: real)
    ensures Abs(Rounded(x) - x) <= 1.0 / 20000.0
  {
    var a := Abs(x);
    var n := Round(a * 10000.0);
    assert Abs(n as real - a * 10000.0) <= 0.5;
    assert Abs(n as real / 10000.0 - a) <= 1.0 / 20000.0;
  }

  /** The estimate an earlier report holds. */
  function Estimate(estimatedCost: string): real {
    match Scanned(estimatedCost)
    case None => 0.0
    case Some(x) => x
  }

  lemma EmptyEstimate()
    ensures Estimate("") == 0.0
  {
  }

  /** accumulateCost on values. */
  function Accumulate(existing: Option<Costs>, cr: ClaudeResult): Costs {
    var c := if existing.Some? then existing.value else ZERO_COSTS;
    Costs(
      Wrap64(c.inputTokens + cr.inputTokens),
      Wrap64(c.outputTokens + cr.outputTokens),
      Wrap64(c.cacheReadInputTokens + cr.cacheReadInputTokens),
      Wrap64(c.cacheCreationInputTokens + cr.cacheCreationInputTokens),
      Wrap64(c.durationMs + cr.durationMs),
      Print(Estimate(c.estimatedCost) + cr.totalCostUSD))
  }

  /** The CostReport object that a task's status points to. */
  class CostReport {
    var inputTokens: int
    var outputTokens: int
    var cacheReadInputTokens: int
    var cacheCreationInputTokens: int
    var durationMs: int
    var estimatedCost: string

    constructor ()
      ensures View() == ZERO_COSTS
    {
      inputTokens, outputTokens, cacheReadInputTokens, cacheCreationInputTokens := 0, 0, 0, 0;
      durationMs, estimatedCost := 0, "";
    }

    function View(): Costs
      reads this
    {
      Costs(inputTokens, outputTokens, cacheReadInputTokens, cacheCreationInputTokens, durationMs, estimatedCost)
    }
  }

  function ViewOf(report: CostReport?): Option<Costs>
    reads report
  {
    if report == null then None else Some(report.View())
  }

  /** accumulateCost: the report that is passed in is updated in place. */
  method AccumulateCost(existing: CostReport?, cr: ClaudeResult) returns (report: CostReport)
    modifies existing
    ensures if existing == null then fresh(report) else report == existing
    ensures report.View() == Accumulate(old(ViewOf(existing)), cr)
  {
    hide Wrap64, Print, Scanned;
    EmptyEstimate();
    if existing == null {
      report := new CostReport();
    } else {
      report := existing;
    }
    report.inputTokens := Wrap64(report.inputTokens + cr.inputTokens);
    report.outputTokens := Wrap64(report.outputTokens + cr.outputTokens);
    report.cacheReadInputTokens := Wrap64(report.cacheReadInputTokens + cr.cacheReadInputTokens);
    report.cacheCreationInputTokens := Wrap64(report.cacheCreationInputTokens + cr.cacheCreationInputTokens);
    report.durationMs := Wrap64(report.durationMs + cr.durationMs);
    var totalCost := 0.0;
    if report.estimatedCost != "" {
      var scanned := Scanned(report.estimatedCost);
      if scanned.Some? {
        totalCost := scanned.value;
      }
    }
    totalCost := totalCost + cr.totalCostUSD;
    report.estimatedCost := Print(totalCost);
  }

  /** The report after billing `runs` in order, starting from none. */
  function Billed(runs: seq<ClaudeResult>): Option<Costs> {
    if runs == [] then None
    else Some(Accumulate(Billed(runs[..|runs| - 1]), runs[|runs| - 1]))
  }

  function Sum(runs: seq<ClaudeResult>, f: ClaudeResult -> int): int {
    if runs == [] then 0 else Sum(runs[..|runs| - 1], f) + f(runs[|runs| - 1])
  }

  function TrueCost(runs: seq<ClaudeResult>): real {
    if runs == [] then 0.0 else TrueCost(runs[..|runs| - 1]) + runs[|runs| - 1].totalCostUSD
  }

  /** Every integer field is the int64 sum of the billed runs. */
  lemma {:induction false} BilledTokens(runs: seq<ClaudeResult>)
    requires runs != []
    ensures var c := Billed(runs).value;
            && c.inputTokens == Wrap64(Sum(runs, (r: ClaudeResult) => r.inputTokens))
            && c.outputTokens == Wrap64(Sum(runs, (r: ClaudeResult) => r.outputTokens))
            && c.cacheReadInputTokens == Wrap64(Sum(runs, (r: ClaudeResult) => r.cacheReadInputTokens))
            && c.cacheCreationInputTokens == Wrap64(Sum(runs, (r: ClaudeResult) => r.cacheCreationInputTokens))
            && c.durationMs == Wrap64(Sum(runs, (r: ClaudeResult) => r.durationMs))
  {
    hide Wrap64, Print, Estimate;
    var init, last := runs[..|runs| - 1], runs[|runs| - 1];
    if init != [] {
      BilledTokens(init);
    }
    WrapAdds(Sum(init, (r: ClaudeResult) => r.inputTokens), last.inputTokens);
    WrapAdds(Sum(init, (r: ClaudeResult) => r.outputTokens), last.outputTokens);
    WrapAdds(Sum(init, (r: ClaudeResult) => r.cacheReadInputTokens), last.cacheReadInputTokens);
    WrapAdds(Sum(init, (r: ClaudeResult) => r.cacheCreationInputTokens), last.cacheCreationInputTokens);
    WrapAdds(Sum(init, (r: ClaudeResult) => r.durationMs), last.durationMs);
  }

  /** `x` is within n/20000 of `y`. */
  predicate Within(x: real, y: real, n: nat) {
    Abs(x - y) <= n as real / 20000.0
  }

  /** One more round: print `before + cost` and scan it again. */
  lemma DriftStep(before: real, sum: real, cost: real, n: nat)
    requires Within(before, sum, n)
    ensures Scanned(Print(before + cost)).Some?
    ensures Within(Estimate(Print(before + cost)), sum + cost, n + 1)
  {
    hide Print, Scanned, Rounded;
    ScanPrinted(before + cost);
    RoundingError(before + cost);
  }

  /** After n rounds through the string the estimate is within n/20000 of the true sum. */
  lemma {:induction false} DriftBound(runs: seq<ClaudeResult>)
    requires runs != []
    ensures Scanned(Billed(runs).value.estimatedCost).Some?
    ensures Within(Estimate(Billed(runs).value.estimatedCost), TrueCost(runs), |runs|)
  {
    hide Within, Estimate, Print, Scanned, Wrap64;
    var init, last := runs[..|runs| - 1], runs[|runs| - 1];
    EmptyEstimate();
    var before := if init == [] then "" else Billed(init).value.estimatedCost;
    if init == [] {
      assert Within(0.0, 0.0, 0) by { ExactIsWithin(); }
    } else {
      DriftBound(init);
    }
    DriftStep(Estimate(before), TrueCost(init), last.totalCostUSD, |init|);
  }

  lemma ExactIsWithin()
    ensures Within(0.0, 0.0, 0)
  {
  }

  /** The bound is reached: runs of 1/20000 dollar each are rounded away for ever. */
  lemma {:induction false} DriftReached(n: nat)
    requires n > 0
    ensures var runs := seq(n, _ => ZERO_RESULT.(totalCostUSD := 1.0 / 20000.0));
            Billed(runs).value.estimatedCost == "$0.0000" && TrueCost(runs) == n as real / 20000.0
  {
    var runs := seq(n, _ => ZERO_RESULT.(totalCostUSD := 1.0 / 20000.0));
    var init := runs[..n - 1];
    assert init == seq(n - 1, _ => ZERO_RESULT.(totalCostUSD := 1.0 / 20000.0));
    assert Print(1.0 / 20000.0) == "$0.0000" == Print(0.0) by {
      assert Abs(1.0 / 20000.0) * 10000.0 == 0.5;
      assert (0.5 as real).Floor == 0;
      assert Decimal(0) == "0";
      assert FourDigits(0) == "0000";
    }
    ScanPrinted(0.0);
    assert Rounded(0.0) == 0.0;
    if n > 1 {
      DriftReached(n - 1);
    }
  }
}

/**
 * The backtester: replays target-weight portfolios row by row over a window
 * of a daily return matrix, optionally resetting the per-asset sleeves to the
 * target weights when the calendar month changes, and turns the recorded
 * portfolio values into daily and cumulative return series.
 *
 * Arithmetic is over exact reals. Dates are proleptic Gregorian ordinals; the
 * calendar month of a date is supplied as `monthOf`.
 */
module Backtest {
  import opened Wrappers
  import Seqs

  type Date = int
  type Ticker = string

  /** One dated row of the return matrix: a simple daily return per column. */
  datatype Row = Row(date: Date, values: map<Ticker, real>)

  /** A return matrix: its column labels and its rows. */
  datatype Frame = Frame(columns: set<Ticker>, rows: seq<Row>)

  /** Every row carries a value for exactly the frame's columns. */
  predicate WellFormed(f: Frame)
  {
    forall t :: 0 <= t < |f.rows| ==> f.rows[t].values.Keys == f.columns
  }

  /** One entry of a weight dictionary; a weight vector keeps insertion order. */
  datatype Holding = Holding(ticker: Ticker, weight: real)
  type Weights = seq<Holding>

  datatype Policy = NoRebalance | Monthly

  datatype Config = Config(start: Date, end: Date, rebalance: Policy, rfAnnual: real)

  /** The configuration used when none is given: 2024-08-01 .. 2025-07-31, no rebalancing, 4.5%. */
  const DefaultConfig := Config(739099, 739463, NoRebalance, 0.045)

  /** The benchmark used when none is given: 60% SPY, 40% BND. */
  const DefaultBenchmark: Weights := [Holding("SPY", 0.60), Holding("BND", 0.40)]

  function Tickers(w: Weights): (ts: seq<Ticker>)
    ensures |ts| == |w| && forall i :: 0 <= i < |w| ==> ts[i] == w[i].ticker
  {
    seq(|w|, i requires 0 <= i < |w| => w[i].ticker)
  }

  function WeightValues(w: Weights): (v: seq<real>)
    ensures |v| == |w| && forall i :: 0 <= i < |w| ==> v[i] == w[i].weight
  {
    seq(|w|, i requires 0 <= i < |w| => w[i].weight)
  }

  /** Every weight multiplied by `c`. */
  function ScaleWeights(c: real, w: Weights): (r: Weights)
    ensures |r| == |w|
    ensures forall i :: 0 <= i < |w| ==> r[i] == Holding(w[i].ticker, c * w[i].weight)
  {
    seq(|w|, i requires 0 <= i < |w| => Holding(w[i].ticker, c * w[i].weight))
  }

  /** The weights whose normalization stays finite: none at all, or a nonzero sum. */
  predicate Normalizable(w: seq<real>)
  {
    |w| == 0 || Seqs.Sum(w) != 0.0
  }

  /** Target weights divided by their sum (no guard against a zero sum in the source). */
  function Normalize(w: seq<real>): (n: seq<real>)
    requires Normalizable(w)
    ensures |n| == |w|
    ensures forall i {:trigger n[i]} :: 0 <= i < |w| ==> n[i] == w[i] / Seqs.Sum(w)
  {
    seq(|w|, i requires 0 <= i < |w| => w[i] / Seqs.Sum(w))
  }

  lemma DivIsMulInverse(x: real, s: real)
    requires s != 0.0
    ensures x / s == (1.0 / s) * x
  {
  }

  lemma CancelFactor(x: real, cx: real, c: real, s: real, cs: real)
    requires c != 0.0 && s != 0.0 && cx == c * x && cs == c * s
    ensures cx / cs == x / s
  {
    assert cx / cs * cs == cx;
    assert (x / s) * cs == c * x;
  }

  lemma NormalizeIsScale(w: seq<real>)
    requires Seqs.Sum(w) != 0.0
    ensures Normalize(w) == Seqs.Scale(1.0 / Seqs.Sum(w), w)
  {
    var s := Seqs.Sum(w);
    var n := Normalize(w);
    var m := Seqs.Scale(1.0 / s, w);
    forall i | 0 <= i < |w| ensures n[i] == m[i] {
      DivIsMulInverse(w[i], s);
    }
  }

  /** Normalized weights sum to one. */
  lemma NormalizeSumsToOne(w: seq<real>)
    requires Seqs.Sum(w) != 0.0
    ensures Seqs.Sum(Normalize(w)) == 1.0
  {
    NormalizeIsScale(w);
    Seqs.SumScale(1.0 / Seqs.Sum(w), w);
  }

  /** Multiplying every weight by the same nonzero constant does not change the normalized weights. */
  lemma NormalizeScaleInvariant(c: real, w: seq<real>)
    requires c != 0.0 && Normalizable(w)
    ensures Normalizable(Seqs.Scale(c, w))
    ensures Normalize(Seqs.Scale(c, w)) == Normalize(w)
  {
    if |w| == 0 {
      return;
    }
    Seqs.SumScale(c, w);
    var s := Seqs.Sum(w);
    var cw := Seqs.Scale(c, w);
    var a, b := Normalize(cw), Normalize(w);
    forall i | 0 <= i < |w| ensures a[i] == b[i] {
      CancelFactor(w[i], cw[i], c, s, Seqs.Sum(cw));
    }
  }

  // ---------------------------------------------------------------------------
  // The path simulation

  /** One row as the simulation sees it: the row's month and the returns of the weighted tickers. */
  datatype Bar = Bar(month: int, rets: seq<real>)

  /** Every bar carries one return per sleeve. */
  predicate Aligned(bars: seq<Bar>, k: nat)
  {
    forall t :: 0 <= t < |bars| ==> |bars[t].rets| == k
  }

  /** The sub-frame `ret[tickers]`, each row tagged with its calendar month. */
  function Bars(f: Frame, tickers: seq<Ticker>, monthOf: Date -> int): (bars: seq<Bar>)
    requires WellFormed(f)
    requires forall i :: 0 <= i < |tickers| ==> tickers[i] in f.columns
    ensures |bars| == |f.rows| && Aligned(bars, |tickers|)
    ensures forall t :: 0 <= t < |bars| ==> bars[t].month == monthOf(f.rows[t].date)
  {
    seq(|f.rows|, t requires 0 <= t < |f.rows| =>
      Bar(monthOf(f.rows[t].date),
          seq(|tickers|, i requires 0 <= i < |tickers| => f.rows[t].values[tickers[i]])))
  }

  /** Each sleeve multiplied by one plus its asset's return. */
  function Grow(alloc: seq<real>, rets: seq<real>): (g: seq<real>)
    requires |alloc| == |rets|
    ensures |g| == |alloc|
    ensures forall i {:trigger g[i]} :: 0 <= i < |g| ==> g[i] == Seqs.Compound(alloc[i], rets[i])
  {
    seq(|alloc|, i requires 0 <= i < |alloc| => Seqs.Compound(alloc[i], rets[i]))
  }

  /** The simulation state between rows: sleeves, values recorded so far, month of the last row. */
  datatype Sleeves = Sleeves(alloc: seq<real>, path: seq<real>, lastMonth: int)

  /** Processing one row: grow, record the total, then reset to `pv * w` on a month change. */
  function Step(st: Sleeves, bar: Bar, w: seq<real>, policy: Policy): (next: Sleeves)
    requires |st.alloc| == |bar.rets| == |w|
    ensures |next.alloc| == |w| && next.lastMonth == bar.month
    ensures |next.path| == |st.path| + 1 && next.path[..|st.path|] == st.path
  {
    var grown := Grow(st.alloc, bar.rets);
    var pv := Seqs.Sum(grown);
    Sleeves(if policy == Monthly && bar.month != st.lastMonth then Seqs.Scale(pv, w) else grown,
            st.path + [pv],
            bar.month)
  }

  /** The state after the first `n` rows, starting from one unit split as `w`. */
  function Walk(bars: seq<Bar>, w: seq<real>, policy: Policy, n: nat): (st: Sleeves)
    requires 0 < |bars| && n <= |bars| && Aligned(bars, |w|)
    ensures |st.alloc| == |w| && |st.path| == n
  {
    if n == 0 then Sleeves(w, [], bars[0].month)
    else Step(Walk(bars, w, policy, n - 1), bars[n - 1], w, policy)
  }

  /** The return of one day from the previous and current values, as
      `pct_change().fillna(0.0)` yields it: 0/0 is NaN and is filled with 0;
      x/0 for x != 0 is infinite (None). */
  function PctChange(prev: real, cur: real): (c: Option<real>)
    ensures c.Some? <==> prev != 0.0 || cur == 0.0
    ensures c.Some? ==> Seqs.Compound(prev, c.value) == cur
  {
    if prev != 0.0 then Some(cur / prev - 1.0)
    else if cur == 0.0 then Some(0.0)
    else None
  }

  /** Day-over-day returns of a value path; the first one is always 0. */
  function DailyReturns(path: seq<real>): (d: seq<Option<real>>)
    requires 0 < |path|
    ensures |d| == |path| && d[0] == Some(0.0)
    ensures forall t {:trigger d[t]} :: 0 < t < |path| ==> d[t] == PctChange(path[t - 1], path[t])
  {
    [Some(0.0)] + Changes(path)
  }

  function Changes(path: seq<real>): (c: seq<Option<real>>)
    requires 0 < |path|
    ensures |c| == |path| - 1
    ensures forall t {:trigger c[t]} :: 0 <= t < |c| ==> c[t] == PctChange(path[t], path[t + 1])
  {
    seq(|path| - 1, t requires 0 <= t < |path| - 1 => PctChange(path[t], path[t + 1]))
  }

  /** The daily series `_simulate_path` returns, as a function of its inputs. */
  function SimulatedDaily(f: Frame, weights: Weights, policy: Policy, monthOf: Date -> int): (d: seq<Option<real>>)
    requires WellFormed(f) && 0 < |f.rows|
    requires forall i :: 0 <= i < |weights| ==> weights[i].ticker in f.columns
    requires Normalizable(WeightValues(weights))
    ensures |d| == |f.rows| && d[0] == Some(0.0)
  {
    var bars := Bars(f, Tickers(weights), monthOf);
    DailyReturns(Walk(bars, Normalize(WeightValues(weights)), policy, |bars|).path)
  }

  /** `_simulate_path`: the sleeves are reassigned every row, the value is appended to
      the path and the month is remembered, exactly in the source's order. */
  method SimulatePath(ret: Frame, weights: Weights, policy: Policy, monthOf: Date -> int)
    returns (daily: seq<Option<real>>)
    requires WellFormed(ret) && 0 < |ret.rows|
    requires forall i :: 0 <= i < |weights| ==> weights[i].ticker in ret.columns
    requires Normalizable(WeightValues(weights))
    ensures |daily| == |ret.rows| && daily[0] == Some(0.0)
    ensures daily == SimulatedDaily(ret, weights, policy, monthOf)
  {
    var tickers := Tickers(weights);
    var rows := Bars(ret, tickers, monthOf);
    var w := Normalize(WeightValues(weights));

    var alloc := w;
    var pvPath: seq<real> := [];
    var lastMonth := rows[0].month;
    var t := 0;
    while t < |rows|
      invariant 0 <= t <= |rows|
      invariant Sleeves(alloc, pvPath, lastMonth) == Walk(rows, w, policy, t)
    {
      ghost var before := Sleeves(alloc, pvPath, lastMonth);
      alloc := Grow(alloc, rows[t].rets);
      var pv := Seqs.Sum(alloc);
      pvPath := pvPath + [pv];
      if policy == Monthly && rows[t].month != lastMonth {
        alloc := Seqs.Scale(pv, w);
      }
      lastMonth := rows[t].month;
      assert Sleeves(alloc, pvPath, lastMonth) == Step(before, rows[t], w, policy);
      t := t + 1;
    }
    daily := DailyReturns(pvPath);
  }

  // ---------------------------------------------------------------------------
  // Properties of the simulation

  /** The month remembered after `n` rows is the month of row n-1 (of row 0 before any row). */
  lemma {:induction false} WalkLastMonth(bars: seq<Bar>, w: seq<real>, policy: Policy, n: nat)
    requires 0 < |bars| && n <= |bars| && Aligned(bars, |w|)
    ensures Walk(bars, w, policy, n).lastMonth == bars[if n == 0 then 0 else n - 1].month
  {
  }

  /** Row t records the sum of the sleeves after each was grown by that row's returns, and the
      sleeves are reset to `pv * w` exactly when the policy is monthly, t is not the first row
      and row t's month differs from row t-1's month; otherwise they stay as grown. */
  lemma {:induction false} RowSemantics(bars: seq<Bar>, w: seq<real>, policy: Policy, t: nat)
    requires t < |bars| && Aligned(bars, |w|)
    ensures var before := Walk(bars, w, policy, t).alloc;
            var after := Walk(bars, w, policy, t + 1);
            var grown := Grow(before, bars[t].rets);
            && after.path[t] == Seqs.Sum(grown)
            && after.path[..t] == Walk(bars, w, policy, t).path
            && after.alloc == if policy == Monthly && 0 < t && bars[t].month != bars[t - 1].month
                              then Seqs.Scale(after.path[t], w) else grown
  {
    WalkLastMonth(bars, w, policy, t);
  }

  /** With weights summing to one, the sleeves after every row add up to the value recorded for
      that row: a rebalance moves money between sleeves but neither creates nor destroys it. */
  lemma {:induction false} RebalancePreservesValue(bars: seq<Bar>, w: seq<real>, policy: Policy, n: nat)
    requires 0 < n <= |bars| && Aligned(bars, |w|) && Seqs.Sum(w) == 1.0
    ensures Seqs.Sum(Walk(bars, w, policy, n).alloc) == Walk(bars, w, policy, n).path[n - 1]
  {
    var prev := Walk(bars, w, policy, n - 1);
    var pv := Seqs.Sum(Grow(prev.alloc, bars[n - 1].rets));
    Seqs.SumScale(pv, w);
  }

  /** All rows fall in one calendar month. */
  predicate SingleMonth(bars: seq<Bar>)
  {
    forall t :: 0 <= t < |bars| ==> bars[t].month == bars[0].month
  }

  /** Without a rebalance a row only grows the sleeves. */
  lemma NoResetWithoutRebalance(bars: seq<Bar>, w: seq<real>, policy: Policy, n: nat, i: nat)
    requires 0 < n <= |bars| && Aligned(bars, |w|) && i < |w|
    requires policy == NoRebalance || SingleMonth(bars)
    ensures Walk(bars, w, policy, n).alloc[i] == Seqs.Compound(Walk(bars, w, policy, n - 1).alloc[i], bars[n - 1].rets[i])
  {
    WalkLastMonth(bars, w, policy, n - 1);
    var prev := Walk(bars, w, policy, n - 1);
    assert Walk(bars, w, policy, n).alloc == Grow(prev.alloc, bars[n - 1].rets);
  }

  /** Sleeve `i` compounded from `wi` by its asset's returns over the first `n` rows. */
  function Held(bars: seq<Bar>, wi: real, i: nat, n: nat): real
    requires n <= |bars| && forall t :: 0 <= t < |bars| ==> i < |bars[t].rets|
  {
    if n == 0 then wi else Seqs.Compound(Held(bars, wi, i, n - 1), bars[n - 1].rets[i])
  }

  lemma {:induction false} WalkHeld(bars: seq<Bar>, w: seq<real>, policy: Policy, n: nat, i: nat)
    requires 0 < |bars| && n <= |bars| && Aligned(bars, |w|) && i < |w|
    requires policy == NoRebalance || SingleMonth(bars)
    ensures Walk(bars, w, policy, n).alloc[i] == Held(bars, w[i], i, n)
  {
    if n > 0 {
      WalkHeld(bars, w, policy, n - 1, i);
      NoResetWithoutRebalance(bars, w, policy, n, i);
    }
  }

  /** Compounding is linear in the starting value: a sleeve started at `wi` is `wi` times the
      asset's growth factor, the sleeve started at 1. */
  lemma {:induction false} HeldIsScaledGrowth(bars: seq<Bar>, wi: real, i: nat, n: nat)
    requires n <= |bars| && forall t :: 0 <= t < |bars| ==> i < |bars[t].rets|
    ensures Held(bars, wi, i, n) == wi * Held(bars, 1.0, i, n)
  {
    if n > 0 {
      HeldIsScaledGrowth(bars, wi, i, n - 1);
      Seqs.CompoundScale(wi, Held(bars, 1.0, i, n - 1), bars[n - 1].rets[i]);
    }
  }

  /** Without a rebalance (policy none, or a window within one month) each sleeve is its target
      weight compounded by its own asset's returns alone; by `HeldIsScaledGrowth` that is the
      weight times the asset's growth factor. */
  lemma BuyAndHold(bars: seq<Bar>, w: seq<real>, policy: Policy, n: nat)
    requires 0 < |bars| && n <= |bars| && Aligned(bars, |w|)
    requires policy == NoRebalance || SingleMonth(bars)
    ensures forall i :: 0 <= i < |w| ==> Walk(bars, w, policy, n).alloc[i] == Held(bars, w[i], i, n)
  {
    forall i | 0 <= i < |w| ensures Walk(bars, w, policy, n).alloc[i] == Held(bars, w[i], i, n) {
      WalkHeld(bars, w, policy, n, i);
    }
  }

  /** Within a single month the monthly policy never fires, so both policies walk identically. */
  lemma {:induction false} PoliciesAgreeWithinMonth(bars: seq<Bar>, w: seq<real>, n: nat)
    requires 0 < |bars| && n <= |bars| && Aligned(bars, |w|) && SingleMonth(bars)
    ensures Walk(bars, w, Monthly, n) == Walk(bars, w, NoRebalance, n)
    ensures Walk(bars, w, Monthly, n).lastMonth == bars[0].month
  {
    if n > 0 {
      PoliciesAgreeWithinMonth(bars, w, n - 1);
    }
  }

  /** With no weights there are no sleeves: every recorded value is the empty sum, 0. */
  lemma {:induction false} WalkEmpty(bars: seq<Bar>, policy: Policy, n: nat)
    requires 0 < |bars| && n <= |bars| && Aligned(bars, 0)
    ensures forall t :: 0 <= t < n ==> Walk(bars, [], policy, n).path[t] == 0.0
  {
    if n > 0 {
      WalkEmpty(bars, policy, n - 1);
      var st := Walk(bars, [], policy, n - 1);
      assert Grow(st.alloc, bars[n - 1].rets) == [];
    }
  }

  /** An empty weight dictionary is a flat portfolio: every daily return is 0 (0/0 filled with 0). */
  lemma EmptyWeightsFlat(f: Frame, policy: Policy, monthOf: Date -> int)
    requires WellFormed(f) && 0 < |f.rows|
    ensures forall t :: 0 <= t < |f.rows| ==> SimulatedDaily(f, [], policy, monthOf)[t] == Some(0.0)
  {
    var bars := Bars(f, Tickers([]), monthOf);
    var w := Normalize(WeightValues([]));
    assert w == [];
    WalkEmpty(bars, policy, |bars|);
  }

  /** Scaling every weight by the same nonzero constant leaves the daily series unchanged. */
  lemma SimulationScaleInvariant(f: Frame, weights: Weights, c: real, policy: Policy, monthOf: Date -> int)
    requires WellFormed(f) && 0 < |f.rows| && c != 0.0
    requires forall i :: 0 <= i < |weights| ==> weights[i].ticker in f.columns
    requires Normalizable(WeightValues(weights))
    ensures Normalizable(WeightValues(ScaleWeights(c, weights)))
    ensures SimulatedDaily(f, ScaleWeights(c, weights), policy, monthOf) == SimulatedDaily(f, weights, policy, monthOf)
  {
    var scaled := ScaleWeights(c, weights);
    assert WeightValues(scaled) == Seqs.Scale(c, WeightValues(weights)) by {
      var a, b := WeightValues(scaled), Seqs.Scale(c, WeightValues(weights));
      forall i | 0 <= i < |weights| ensures a[i] == b[i] {
      }
    }
    assert Tickers(scaled) == Tickers(weights);
    NormalizeScaleInvariant(c, WeightValues(weights));
  }

  // ---------------------------------------------------------------------------
  // Cumulative returns, statistics and the run

  /** The next running product; a non-finite value stays non-finite. */
  function NextCumulative(acc: Option<real>, r: Option<real>): Option<real>
  {
    if acc.Some? && r.Some? then Some(Seqs.Compound(acc.value, r.value)) else None
  }

  /** Running product of (1 + daily) starting from `acc`. */
  function CumulativeFrom(acc: Option<real>, daily: seq<Option<real>>): (c: seq<Option<real>>)
    ensures |c| == |daily|
    decreases |daily|
  {
    if daily == [] then []
    else [NextCumulative(acc, daily[0])] + CumulativeFrom(NextCumulative(acc, daily[0]), daily[1..])
  }

  /** `(1 + daily).cumprod()`: finite on exactly the days before the first non-finite return. */
  function Cumulative(daily: seq<Option<real>>): (c: seq<Option<real>>)
    ensures |c| == |daily|
    ensures forall t :: 0 <= t < |c| ==> (c[t].Some? <==> forall s :: 0 <= s <= t ==> daily[s].Some?)
  {
    CumulativeDefined(daily);
    CumulativeFrom(Some(1.0), daily)
  }

  lemma {:induction false} CumulativeFromDefined(acc: Option<real>, daily: seq<Option<real>>, t: nat)
    requires t < |daily|
    ensures CumulativeFrom(acc, daily)[t].Some? <==> acc.Some? && forall s :: 0 <= s <= t ==> daily[s].Some?
    decreases t
  {
    if t > 0 {
      var rest := daily[1..];
      CumulativeFromDefined(NextCumulative(acc, daily[0]), rest, t - 1);
      assert (forall s :: 0 <= s <= t - 1 ==> rest[s].Some?) <==> (forall s :: 1 <= s <= t ==> daily[s].Some?) by {
        assert forall s :: 0 <= s <= t - 1 ==> rest[s] == daily[s + 1];
      }
    }
  }

  lemma CumulativeDefined(daily: seq<Option<real>>)
    ensures forall t :: 0 <= t < |daily| ==>
              (CumulativeFrom(Some(1.0), daily)[t].Some? <==> forall s :: 0 <= s <= t ==> daily[s].Some?)
  {
    forall t | 0 <= t < |daily|
      ensures CumulativeFrom(Some(1.0), daily)[t].Some? <==> forall s :: 0 <= s <= t ==> daily[s].Some?
    {
      CumulativeFromDefined(Some(1.0), daily, t);
    }
  }

  lemma {:induction false} CumulativeFromAt(acc: Option<real>, daily: seq<Option<real>>, t: nat)
    requires 0 < t < |daily|
    ensures CumulativeFrom(acc, daily)[t] == NextCumulative(CumulativeFrom(acc, daily)[t - 1], daily[t])
    decreases t
  {
    if t > 1 {
      CumulativeFromAt(NextCumulative(acc, daily[0]), daily[1..], t - 1);
    }
  }

  lemma RatioStep(a: real, b: real, x: real)
    requires a != 0.0 && b != 0.0
    ensures Seqs.Compound(b / a, x / b - 1.0) == x / a
    ensures NextCumulative(Some(b / a), Some(x / b - 1.0)) == Some(x / a)
  {
    assert 1.0 + (x / b - 1.0) == x / b;
    assert (b / a) * (x / b) == x / a;
  }

  /** One day of the curve: from `b/a` and the day's change from b to x, the curve reaches `x/a`. */
  lemma RatioNext(prev: Option<real>, dt: Option<real>, cur: Option<real>, a: real, b: real, x: real)
    requires a != 0.0 && b != 0.0
    requires prev == Some(b / a) && dt == PctChange(b, x) && cur == NextCumulative(prev, dt)
    ensures cur == Some(x / a)
  {
    RatioStep(a, b, x);
  }

  lemma {:induction false} CumulativeAt(path: seq<real>, t: nat)
    requires t < |path| && forall s :: 0 <= s < |path| ==> path[s] != 0.0
    ensures Cumulative(DailyReturns(path))[t] == Some(path[t] / path[0])
  {
    var d := DailyReturns(path);
    if t == 0 {
      CumulativeStartsAtOne(path);
      assert path[0] / path[0] == 1.0;
    } else {
      CumulativeAt(path, t - 1);
      CumulativeFromAt(Some(1.0), d, t);
      RatioNext(Cumulative(d)[t - 1], d[t], Cumulative(d)[t], path[0], path[t - 1], path[t]);
    }
  }

  /** Every curve of a value path starts at 1, whatever the values. */
  lemma CumulativeStartsAtOne(path: seq<real>)
    requires 0 < |path|
    ensures Cumulative(DailyReturns(path))[0] == Some(1.0)
  {
    var d := DailyReturns(path);
    assert Cumulative(d)[0] == NextCumulative(Some(1.0), d[0]);
  }

  /** With no zero value on the path, the cumulative curve is the value path relative to its FIRST
      recorded value, not to the starting unit: the first day's growth is dropped along with its return. */
  lemma CumulativeTracksValue(path: seq<real>)
    requires 0 < |path| && forall t :: 0 <= t < |path| ==> path[t] != 0.0
    ensures Cumulative(DailyReturns(path))[0] == Some(1.0)
    ensures forall t :: 0 <= t < |path| ==> Cumulative(DailyReturns(path))[t] == Some(path[t] / path[0])
  {
    CumulativeStartsAtOne(path);
    forall t | 0 <= t < |path| ensures Cumulative(DailyReturns(path))[t] == Some(path[t] / path[0]) {
      CumulativeAt(path, t);
    }
  }

  /** x raised to a natural power. */
  function Pow(x: real, k: nat): real
  {
    if k == 0 then 1.0 else x * Pow(x, k - 1)
  }

  lemma {:induction false} EvenPowNonNegative(x: real, k: nat)
    ensures Pow(x, 2 * k) >= 0.0
  {
    if k > 0 {
      EvenPowNonNegative(x, k - 1);
      var p := Pow(x, 2 * (k - 1));
      assert Pow(x, 2 * k) == x * (x * p);
      assert x * x >= 0.0;
      Seqs.MulAssoc(x, x, p);
      assert (x * x) * p >= 0.0;
    }
  }

  datatype Stats = Stats(annualRet: real, annualVol: real, sharpe: Option<real>)

  /** `_annualize` from the daily mean and the annualized volatility (computed outside the model). */
  function Annualize(meanDaily: real, annualVol: real, rfAnnual: real): (s: Stats)
    ensures s.annualVol == annualVol
    ensures s.sharpe.Some? <==> annualVol > 0.0
    ensures s.sharpe.Some? ==> s.sharpe.value * annualVol == s.annualRet - rfAnnual
  {
    var annualRet := Pow(1.0 + meanDaily, 252) - 1.0;
    Stats(annualRet, annualVol, if annualVol > 0.0 then Some((annualRet - rfAnnual) / annualVol) else None)
  }

  /** Compounding over 252 days (an even count) never reports an annual return below -100%. */
  lemma AnnualReturnAtLeastMinusOne(meanDaily: real, annualVol: real, rfAnnual: real)
    ensures Annualize(meanDaily, annualVol, rfAnnual).annualRet >= -1.0
  {
    EvenPowNonNegative(1.0 + meanDaily, 126);
  }

  /** One to any natural power is one. */
  lemma {:induction false} PowOne(k: nat)
    ensures Pow(1.0, k) == 1.0
  {
    if k > 0 { PowOne(k - 1); }
  }

  /** A mean daily return of zero annualizes to zero, and the Sharpe ratio is then -rf/vol. */
  lemma ZeroMeanAnnualizesToZero(annualVol: real, rfAnnual: real)
    ensures Annualize(0.0, annualVol, rfAnnual).annualRet == 0.0
    ensures annualVol > 0.0 ==> Annualize(0.0, annualVol, rfAnnual).sharpe == Some(-rfAnnual / annualVol)
  {
    PowOne(252);
  }

  /** `_to_period`: the rows dated within [start, end], both ends included. */
  function ToPeriod(f: Frame, start: Date, end: Date): (p: Frame)
    ensures p.columns == f.columns
    ensures forall t :: 0 <= t < |p.rows| ==> start <= p.rows[t].date <= end
  {
    Frame(f.columns, Seqs.Filter(f.rows, (r: Row) => start <= r.date <= end))
  }

  /** `ToPeriod` on a date-sorted frame is the label slice: it keeps every in-window row, in order. */
  lemma ToPeriodSlice(f: Frame, start: Date, end: Date, r: Row)
    requires Seqs.SortedBy(f.rows, (x: Row) => x.date as real)
    ensures Seqs.SortedBy(ToPeriod(f, start, end).rows, (x: Row) => x.date as real)
    ensures r in ToPeriod(f, start, end).rows <==> r in f.rows && start <= r.date <= end
  {
    Seqs.FilterSorted(f.rows, (x: Row) => start <= x.date <= end, (x: Row) => x.date as real);
    Seqs.FilterMember(f.rows, (x: Row) => start <= x.date <= end, r);
  }

  lemma ToPeriodWellFormed(f: Frame, start: Date, end: Date)
    requires WellFormed(f)
    ensures WellFormed(ToPeriod(f, start, end))
  {
    var p := ToPeriod(f, start, end);
    forall t | 0 <= t < |p.rows| ensures p.rows[t].values.Keys == p.columns {
      Seqs.FilterMember(f.rows, (x: Row) => start <= x.date <= end, p.rows[t]);
    }
  }

  /** The backtester as constructed: the return matrix sorted by date and the configuration. */
  datatype Backtester = Backtester(matrix: Frame, cfg: Config)

  /** `Backtester.__init__`: sorts the rows by date and falls back to the default configuration. */
  function NewBacktester(returnsDf: Frame, cfg: Option<Config>): (bt: Backtester)
    ensures Seqs.SortedBy(bt.matrix.rows, (x: Row) => x.date as real)
    ensures multiset(bt.matrix.rows) == multiset(returnsDf.rows) && bt.matrix.columns == returnsDf.columns
    ensures bt.cfg == if cfg.Some? then cfg.value else DefaultConfig
  {
    Backtester(Frame(returnsDf.columns, Seqs.SortBy(returnsDf.rows, (x: Row) => x.date as real)), cfg.GetOr(DefaultConfig))
  }

  lemma NewBacktesterWellFormed(returnsDf: Frame, cfg: Option<Config>)
    requires WellFormed(returnsDf)
    ensures WellFormed(NewBacktester(returnsDf, cfg).matrix)
  {
    var f := NewBacktester(returnsDf, cfg).matrix;
    forall t | 0 <= t < |f.rows| ensures f.rows[t].values.Keys == f.columns {
      assert f.rows[t] in multiset(returnsDf.rows);
    }
  }

  /** The benchmark keys absent from the columns, in key order. */
  function MissingTickers(w: Weights, columns: set<Ticker>): (m: seq<Ticker>)
    ensures forall i :: 0 <= i < |m| ==> m[i] !in columns
  {
    Seqs.Filter(Tickers(w), (t: Ticker) => t !in columns)
  }

  /** Exactly the keys not among the columns are reported, each as often as it is a key. */
  lemma MissingTickersComplete(w: Weights, columns: set<Ticker>, t: Ticker)
    ensures t in MissingTickers(w, columns) <==> t in Tickers(w) && t !in columns
    ensures MissingTickers(w, columns) == [] <==> forall i :: 0 <= i < |w| ==> w[i].ticker in columns
  {
    Seqs.FilterMember(Tickers(w), (x: Ticker) => x !in columns, t);
    if MissingTickers(w, columns) == [] {
      forall i | 0 <= i < |w| ensures w[i].ticker in columns {
        Seqs.FilterMember(Tickers(w), (x: Ticker) => x !in columns, w[i].ticker);
      }
    } else {
      var x := MissingTickers(w, columns)[0];
      Seqs.FilterMember(Tickers(w), (y: Ticker) => y !in columns, x);
    }
  }

  datatype BacktestError = MissingAssets(tickers: seq<Ticker>)

  datatype BacktestResult = BacktestResult(
    strategyDaily: seq<Option<real>>, benchmarkDaily: seq<Option<real>>,
    strategyCum: seq<Option<real>>, benchmarkCum: seq<Option<real>>)

  /** What `run` may assume of the benchmark: it is normalizable unless it is rejected as missing assets. */
  predicate BenchmarkUsable(bw: Weights, columns: set<Ticker>)
  {
    MissingTickers(bw, columns) != [] || Normalizable(WeightValues(bw))
  }

  /** `run`: slice the window, simulate the strategy, default and check the benchmark,
      simulate it and compound both daily series. The statistics table is left to `Annualize`. */
  method Run(bt: Backtester, strategy: Weights, benchmark: Option<Weights>, monthOf: Date -> int)
    returns (res: Result<BacktestResult, BacktestError>)
    requires WellFormed(bt.matrix)
    requires 0 < |ToPeriod(bt.matrix, bt.cfg.start, bt.cfg.end).rows|
    requires forall i :: 0 <= i < |strategy| ==> strategy[i].ticker in bt.matrix.columns
    requires Normalizable(WeightValues(strategy))
    requires BenchmarkUsable(benchmark.GetOr(DefaultBenchmark), bt.matrix.columns)
    ensures var bw := benchmark.GetOr(DefaultBenchmark);
            res.Err? <==> MissingTickers(bw, bt.matrix.columns) != []
    ensures res.Err? ==> res.error == MissingAssets(MissingTickers(benchmark.GetOr(DefaultBenchmark), bt.matrix.columns))
    ensures res.Ok? ==>
              var window := ToPeriod(bt.matrix, bt.cfg.start, bt.cfg.end);
              var bw := benchmark.GetOr(DefaultBenchmark);
              && (forall i :: 0 <= i < |bw| ==> bw[i].ticker in window.columns)
              && WellFormed(window)
              && res.value.strategyDaily == SimulatedDaily(window, strategy, bt.cfg.rebalance, monthOf)
              && res.value.benchmarkDaily == SimulatedDaily(window, bw, bt.cfg.rebalance, monthOf)
              && res.value.strategyCum == Cumulative(res.value.strategyDaily)
              && res.value.benchmarkCum == Cumulative(res.value.benchmarkDaily)
              && |res.value.strategyDaily| == |res.value.benchmarkDaily| == |window.rows|
  {
    var window := ToPeriod(bt.matrix, bt.cfg.start, bt.cfg.end);
    ToPeriodWellFormed(bt.matrix, bt.cfg.start, bt.cfg.end);
    var strategyDaily := SimulatePath(window, strategy, bt.cfg.rebalance, monthOf);

    var bw := if benchmark.None? then DefaultBenchmark else benchmark.value;
    var missing := MissingTickers(bw, window.columns);
    if missing != [] {
      return Err(MissingAssets(missing));
    }
    MissingTickersComplete(bw, window.columns, "");
    var benchmarkDaily := SimulatePath(window, bw, bt.cfg.rebalance, monthOf);
    res := Ok(BacktestResult(strategyDaily, benchmarkDaily, Cumulative(strategyDaily), Cumulative(benchmarkDaily)));
  }
}

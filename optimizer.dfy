/**
 * The portfolio optimizer's own logic: annualized mean returns, where the
 * expected return of each ticker comes from, which rows feed the covariance
 * estimate, and the sweep of target returns that traces the efficient
 * frontier. The quadratic-program solver is an oracle.
 *
 * Values read from the return table may be missing (None, a NaN cell).
 */
module Optimizer {
  import opened Wrappers
  import Seqs

  type Date = int
  type Ticker = string

  /** Trading days per year used to annualize a daily mean. */
  const TradingDays: real := 252.0

  /** One dated row of the return table; a cell may be missing. */
  datatype Row = Row(date: Date, values: map<string, Option<real>>)

  datatype Frame = Frame(columns: set<string>, rows: seq<Row>)

  predicate WellFormed(f: Frame)
  {
    forall t :: 0 <= t < |f.rows| ==> f.rows[t].values.Keys == f.columns
  }

  /** The column holding a ticker's daily returns. */
  function ReturnColumn(t: Ticker): string
  {
    t + "_ret"
  }

  /** Every requested ticker has a return column. */
  predicate HasColumns(f: Frame, use: seq<Ticker>)
  {
    forall i :: 0 <= i < |use| ==> ReturnColumn(use[i]) in f.columns
  }

  /** Selecting columns a frame lacks raises a `KeyError` that names them. */
  datatype OptimizerError = MissingColumns(columns: seq<string>)

  /** The return columns of the requested tickers that the frame lacks, in request order. */
  function AbsentColumns(f: Frame, use: seq<Ticker>): (m: seq<string>)
    ensures forall c :: c in m ==> c !in f.columns
    ensures forall i :: 0 <= i < |use| && ReturnColumn(use[i]) !in f.columns ==> ReturnColumn(use[i]) in m
    ensures m == [] <==> HasColumns(f, use)
  {
    if use == [] then []
    else
      var init, c := use[..|use| - 1], ReturnColumn(use[|use| - 1]);
      var m := AbsentColumns(f, init);
      assert forall i :: 0 <= i < |init| ==> init[i] == use[i];
      m + (if c in f.columns then [] else [c])
  }

  /** One column of the table, top to bottom. */
  function Column(f: Frame, c: string): (col: seq<Option<real>>)
    requires WellFormed(f) && c in f.columns
    ensures |col| == |f.rows|
  {
    seq(|f.rows|, t requires 0 <= t < |f.rows| => f.rows[t].values[c])
  }

  // ---------------------------------------------------------------------------
  // Annualized mean

  /** Arithmetic mean; NaN (None) for no values. */
  function Mean(xs: seq<real>): Option<real>
  {
    if xs == [] then None else Some(Seqs.Sum(xs) / (|xs| as real))
  }

  /** `_annualize_mean_daily`: 252 times the mean of the values that are present. */
  function AnnualizeMeanDaily(ret: seq<Option<real>>): (r: Option<real>)
    ensures r.None? <==> Seqs.DropMissing(ret) == []
    ensures r.Some? ==> r.value * (|Seqs.DropMissing(ret)| as real) == TradingDays * Seqs.Sum(Seqs.DropMissing(ret))
  {
    var m := Mean(Seqs.DropMissing(ret));
    if m.None? then None else Some(m.value * TradingDays)
  }

  /** Missing values do not move the estimate: removing one changes nothing. */
  lemma AnnualizeIgnoresMissing(a: seq<Option<real>>, b: seq<Option<real>>)
    ensures AnnualizeMeanDaily(a + [None] + b) == AnnualizeMeanDaily(a + b)
  {
    Seqs.DropMissingConcat(a + [None], b);
    Seqs.DropMissingConcat(a, [None]);
    Seqs.DropMissingConcat(a, b);
    var gap: seq<Option<real>> := [None];
    assert Seqs.DropMissing(gap) == [] by {
      assert gap[1..] == [];
    }
    assert a + [None] + b == (a + [None]) + b;
    assert Seqs.DropMissing(a + [None] + b) == Seqs.DropMissing(a + b);
  }

  lemma {:induction false} SumConstant(xs: seq<real>, c: real)
    requires forall i :: 0 <= i < |xs| ==> xs[i] == c
    ensures Seqs.Sum(xs) == (|xs| as real) * c
  {
    if xs != [] {
      SumConstant(xs[1..], c);
    }
  }

  lemma MeanConstant(xs: seq<real>, c: real)
    requires 0 < |xs| && forall i :: 0 <= i < |xs| ==> xs[i] == c
    ensures Mean(xs) == Some(c)
  {
    SumConstant(xs, c);
    DivCancel(Seqs.Sum(xs), |xs| as real, c);
  }

  lemma DivCancel(s: real, n: real, c: real)
    requires n > 0.0 && s == n * c
    ensures s / n == c
  {
  }

  /** A series whose present values all equal c annualizes to 252 c. */
  lemma AnnualizeConstant(ret: seq<Option<real>>, c: real)
    requires exists i :: 0 <= i < |ret| && ret[i].Some?
    requires forall i :: 0 <= i < |ret| && ret[i].Some? ==> ret[i].value == c
    ensures AnnualizeMeanDaily(ret) == Some(TradingDays * c)
  {
    var xs := Seqs.DropMissing(ret);
    var i :| 0 <= i < |ret| && ret[i].Some?;
    Seqs.DropMissingMember(ret, ret[i].value);
    forall k | 0 <= k < |xs| ensures xs[k] == c {
      Seqs.DropMissingMember(ret, xs[k]);
      var j :| 0 <= j < |ret| && ret[j] == Some(xs[k]);
    }
    MeanConstant(xs, c);
  }

  // ---------------------------------------------------------------------------
  // Expected returns

  /** The mode in which TSLA is taken from the forecast. */
  const ForecastMode := "forecast_12m"

  /** Where a forecast of TSLA may come from: a path (None or empty when not given) and a reader
      that returns the file's `ret_mean` column, or None when reading it raises. */
  datatype ForecastSource = ForecastSource(path: Option<string>, read: string -> Option<seq<Option<real>>>)

  function HistoricalMean(f: Frame, t: Ticker): Option<real>
    requires WellFormed(f) && ReturnColumn(t) in f.columns
  {
    AnnualizeMeanDaily(Column(f, ReturnColumn(t)))
  }

  /** The forecast block runs only when TSLA is requested, a path is given and the mode asks for it. */
  predicate UsesForecast(use: seq<Ticker>, src: ForecastSource, mode: string)
  {
    "TSLA" in use && src.path.Some? && src.path.value != "" && mode == ForecastMode
  }

  /** TSLA's entry as the forecast block leaves it: the forecast's annualized mean, or the
      historical one when reading the forecast raised. */
  function TslaFromForecast(f: Frame, src: ForecastSource): Option<real>
    requires WellFormed(f) && ReturnColumn("TSLA") in f.columns
    requires src.path.Some?
  {
    var col := src.read(src.path.value);
    if col.Some? then AnnualizeMeanDaily(col.value) else HistoricalMean(f, "TSLA")
  }

  /** The value reported for ticker `t`. */
  function ExpectedFor(f: Frame, use: seq<Ticker>, src: ForecastSource, mode: string, t: Ticker): (r: Option<real>)
    requires WellFormed(f) && HasColumns(f, use) && t in use
    ensures t != "TSLA" || !UsesForecast(use, src, mode) ==> r == HistoricalMean(f, t)
  {
    if t == "TSLA" && UsesForecast(use, src, mode) then TslaFromForecast(f, src) else HistoricalMean(f, t)
  }

  /** TSLA takes the forecast's mean exactly when it is requested, a path is given, the mode is
      the forecast mode and the file can be read; in every other case it takes its own history,
      as every other ticker always does. */
  lemma TslaSourcing(f: Frame, use: seq<Ticker>, src: ForecastSource, mode: string, t: Ticker)
    requires WellFormed(f) && HasColumns(f, use) && t in use
    ensures t != "TSLA" ==> ExpectedFor(f, use, src, mode, t) == HistoricalMean(f, t)
    ensures t == "TSLA" && UsesForecast(use, src, mode) && src.read(src.path.value).Some? ==>
              ExpectedFor(f, use, src, mode, t) == AnnualizeMeanDaily(src.read(src.path.value).value)
    ensures t == "TSLA" && !(UsesForecast(use, src, mode) && src.read(src.path.value).Some?) ==>
              ExpectedFor(f, use, src, mode, t) == HistoricalMean(f, t)
  {
  }

  /** `build_expected_returns`: the forecast block, then the loop over the requested tickers that
      fills the dictionary (skipping a TSLA already filled), then the entries in request order. */
  method BuildExpectedReturns(f: Frame, useTickers: seq<Ticker>, src: ForecastSource, mode: string)
    returns (r: Result<seq<(Ticker, Option<real>)>, OptimizerError>)
    requires WellFormed(f)
    ensures r.Err? <==> !HasColumns(f, useTickers)
    ensures r.Err? ==> r.error == MissingColumns(AbsentColumns(f, useTickers))
    ensures r.Ok? ==>
              && HasColumns(f, useTickers)
              && |r.value| == |useTickers|
              && forall i :: 0 <= i < |useTickers| ==>
                   r.value[i].0 == useTickers[i] && r.value[i].1 == ExpectedFor(f, useTickers, src, mode, useTickers[i])
  {
    var absent := AbsentColumns(f, useTickers);
    if absent != [] {
      return Err(MissingColumns(absent));
    }
    var table: map<Ticker, Option<real>> := map[];
    if "TSLA" in useTickers && src.path.Some? && src.path.value != "" && mode == ForecastMode {
      var col := src.read(src.path.value);
      if col.Some? {
        table := table["TSLA" := AnnualizeMeanDaily(col.value)];
      } else {
        table := table["TSLA" := HistoricalMean(f, "TSLA")];
      }
    }
    for i := 0 to |useTickers|
      invariant forall t :: t in table ==> t in useTickers
      invariant forall t :: t in table ==> table[t] == ExpectedFor(f, useTickers, src, mode, t)
      invariant UsesForecast(useTickers, src, mode) ==> "TSLA" in table
      invariant forall j :: 0 <= j < i ==> useTickers[j] in table
    {
      var t := useTickers[i];
      if !(t == "TSLA" && t in table) {
        table := table[t := HistoricalMean(f, t)];
      }
    }
    r := Ok(seq(|useTickers|, i requires 0 <= i < |useTickers| => (useTickers[i], table[useTickers[i]])));
  }

  // ---------------------------------------------------------------------------
  // Covariance sample

  /** A row lies in the optional window, both bounds included. */
  predicate InWindow(r: Row, start: Option<Date>, end: Option<Date>)
  {
    (start.None? || start.value <= r.date) && (end.None? || r.date <= end.value)
  }

  /** A row has a value for every requested ticker. */
  predicate Complete(r: Row, use: seq<Ticker>)
  {
    forall j :: 0 <= j < |use| ==> ReturnColumn(use[j]) in r.values && r.values[ReturnColumn(use[j])].Some?
  }

  /** The rows `build_covariance` hands to the estimator: the window, then rows with any missing value dropped. */
  function CovarianceRows(f: Frame, use: seq<Ticker>, start: Option<Date>, end: Option<Date>): (rows: seq<Row>)
    requires WellFormed(f) && HasColumns(f, use)
    ensures forall k :: 0 <= k < |rows| ==> InWindow(rows[k], start, end) && Complete(rows[k], use)
  {
    Seqs.Filter(f.rows, (r: Row) => InWindow(r, start, end) && Complete(r, use))
  }

  /** Nothing usable is lost: a row is kept exactly when it lies in the window and is complete,
      and the kept rows stay in date order. */
  lemma CovarianceRowsExact(f: Frame, use: seq<Ticker>, start: Option<Date>, end: Option<Date>, r: Row)
    requires WellFormed(f) && HasColumns(f, use)
    requires Seqs.SortedBy(f.rows, (x: Row) => x.date as real)
    ensures r in CovarianceRows(f, use, start, end) <==> r in f.rows && InWindow(r, start, end) && Complete(r, use)
    ensures Seqs.SortedBy(CovarianceRows(f, use, start, end), (x: Row) => x.date as real)
  {
    Seqs.FilterMember(f.rows, (x: Row) => InWindow(x, start, end) && Complete(x, use), r);
    Seqs.FilterSorted(f.rows, (x: Row) => InWindow(x, start, end) && Complete(x, use), (x: Row) => x.date as real);
  }

  /** The sample matrix: a `KeyError` naming the absent return columns, or one vector per kept
      row with its entries in `use_tickers` order. */
  function CovarianceSample(f: Frame, use: seq<Ticker>, start: Option<Date>, end: Option<Date>): (r: Result<seq<seq<real>>, OptimizerError>)
    requires WellFormed(f)
    ensures r.Err? <==> !HasColumns(f, use)
    ensures r.Err? ==> r.error == MissingColumns(AbsentColumns(f, use))
    ensures r.Ok? ==>
              && HasColumns(f, use)
              && var rows := CovarianceRows(f, use, start, end);
              && |r.value| == |rows|
              && forall k, j :: 0 <= k < |rows| && 0 <= j < |use| ==>
                   |r.value[k]| == |use| && Some(r.value[k][j]) == rows[k].values[ReturnColumn(use[j])]
  {
    var absent := AbsentColumns(f, use);
    if absent != [] then Err(MissingColumns(absent))
    else
      var rows := CovarianceRows(f, use, start, end);
      Ok(seq(|rows|, k requires 0 <= k < |rows| =>
        seq(|use|, j requires 0 <= j < |use| => rows[k].values[ReturnColumn(use[j])].value)))
  }

  // ---------------------------------------------------------------------------
  // Efficient frontier

  /** Smallest and largest expected return. */
  function Min(mu: seq<real>): (m: real)
    requires 0 < |mu|
    ensures m in mu && forall i :: 0 <= i < |mu| ==> m <= mu[i]
  {
    if |mu| == 1 then mu[0] else var r := Min(mu[1..]); if mu[0] <= r then mu[0] else r
  }

  function Max(mu: seq<real>): (m: real)
    requires 0 < |mu|
    ensures m in mu && forall i :: 0 <= i < |mu| ==> mu[i] <= m
  {
    if |mu| == 1 then mu[0] else var r := Max(mu[1..]); if mu[0] >= r then mu[0] else r
  }

  /** `np.linspace(lo, hi, n)`: start plus i steps of (hi - lo)/(n - 1), the last point being `hi` itself. */
  function Linspace(lo: real, hi: real, n: nat): (g: seq<real>)
    ensures |g| == n
    ensures n >= 1 ==> g[0] == lo
    ensures n >= 2 ==> g[n - 1] == hi
  {
    if n == 1 then [lo]
    else seq(n, i requires 0 <= i < n => if i == n - 1 then hi else lo + (i as real) * ((hi - lo) / ((n - 1) as real)))
  }

  lemma LinspaceAt(lo: real, hi: real, n: nat, i: nat)
    requires 2 <= n && i < n
    ensures Linspace(lo, hi, n)[i] == if i == n - 1 then hi else lo + (i as real) * ((hi - lo) / ((n - 1) as real))
  {
  }

  lemma StepWithin(lo: real, hi: real, k: real, m: real)
    requires lo <= hi && 0.0 <= k <= m && 0.0 < m
    ensures lo <= lo + k * ((hi - lo) / m) <= hi
  {
    var step := (hi - lo) / m;
    assert step >= 0.0;
    assert m * step == hi - lo;
    assert 0.0 <= k * step <= m * step;
  }

  lemma StepSpacing(lo: real, hi: real, k: real, m: real)
    requires 0.0 < m
    ensures (lo + (k + 1.0) * ((hi - lo) / m)) - (lo + k * ((hi - lo) / m)) == (hi - lo) / m
    ensures k + 1.0 == m ==> lo + (k + 1.0) * ((hi - lo) / m) == hi
  {
    var step := (hi - lo) / m;
    assert (k + 1.0) * step == k * step + step;
    assert m * step == hi - lo;
  }

  lemma LinspaceGap(lo: real, hi: real, n: nat, i: nat)
    requires 2 <= n && i < n - 1
    ensures Linspace(lo, hi, n)[i + 1] - Linspace(lo, hi, n)[i] == (hi - lo) / ((n - 1) as real)
  {
    LinspaceAt(lo, hi, n, i);
    LinspaceAt(lo, hi, n, i + 1);
    var k := i as real;
    assert ((i + 1) as real) == k + 1.0;
    StepSpacing(lo, hi, k, (n - 1) as real);
  }

  lemma LinspaceWithin(lo: real, hi: real, n: nat, i: nat)
    requires 2 <= n && i < n && lo <= hi
    ensures lo <= Linspace(lo, hi, n)[i] <= hi
  {
    LinspaceAt(lo, hi, n, i);
    if i < n - 1 {
      StepWithin(lo, hi, i as real, (n - 1) as real);
    }
  }

  /** The grid starts at `lo`, ends at `hi`, is evenly spaced and, when lo <= hi, stays within [lo, hi]. */
  lemma LinspaceShape(lo: real, hi: real, n: nat)
    ensures var g := Linspace(lo, hi, n);
            && (n >= 1 ==> g[0] == lo && g[n - 1] == (if n == 1 then lo else hi))
            && (n >= 2 ==> forall i :: 0 <= i < n - 1 ==> g[i + 1] - g[i] == (hi - lo) / ((n - 1) as real))
            && (lo <= hi ==> forall i :: 0 <= i < n ==> lo <= g[i] <= hi)
  {
    var g := Linspace(lo, hi, n);
    if n >= 2 {
      LinspaceAt(lo, hi, n, 0);
      LinspaceAt(lo, hi, n, n - 1);
      forall i | 0 <= i < n - 1 ensures g[i + 1] - g[i] == (hi - lo) / ((n - 1) as real) {
        LinspaceGap(lo, hi, n, i);
      }
      if lo <= hi {
        forall i | 0 <= i < n ensures lo <= g[i] <= hi {
          LinspaceWithin(lo, hi, n, i);
        }
      }
    }
  }

  /** One point of the frontier as the solver reports it. */
  datatype Point = Point(ret: real, vol: real)

  /** The solver: the efficient portfolio for a target return, or None when the target is infeasible. */
  type Solver = real -> Option<Point>

  /** The points of the solvable targets, in target order. */
  function Feasible(targets: seq<real>, solve: Solver): (pts: seq<Point>)
    ensures |pts| <= |targets|
    ensures (forall i :: 0 <= i < |targets| ==> solve(targets[i]).Some?) ==> |pts| == |targets|
  {
    if targets == [] then []
    else
      var last := targets[|targets| - 1];
      Feasible(targets[..|targets| - 1], solve) + (if solve(last).Some? then [solve(last).value] else [])
  }

  /** Every feasible point comes from some target, and every solvable target contributes its point. */
  lemma {:induction false} FeasibleMember(targets: seq<real>, solve: Solver, p: Point)
    ensures p in Feasible(targets, solve) <==> exists i :: 0 <= i < |targets| && solve(targets[i]) == Some(p)
  {
    if targets != [] {
      var init := targets[..|targets| - 1];
      FeasibleMember(init, solve, p);
      if exists i :: 0 <= i < |targets| && solve(targets[i]) == Some(p) {
        var i :| 0 <= i < |targets| && solve(targets[i]) == Some(p);
        if i < |init| {
          assert solve(init[i]) == Some(p);
        }
      }
      if exists i :: 0 <= i < |init| && solve(init[i]) == Some(p) {
        var i :| 0 <= i < |init| && solve(init[i]) == Some(p);
        assert solve(targets[i]) == Some(p);
      }
    }
  }

  function Vol(p: Point): real
  {
    p.vol
  }

  /** `efficient_frontier`: solve each grid target independently, skip the infeasible ones,
      then sort the collected points by volatility. */
  method EfficientFrontier(mu: seq<real>, solve: Solver, nPoints: nat) returns (frontier: seq<Point>)
    requires 0 < |mu|
    ensures |frontier| <= nPoints
    ensures Seqs.SortedBy(frontier, Vol)
    ensures multiset(frontier) == multiset(Feasible(Linspace(Min(mu), Max(mu), nPoints), solve))
  {
    var grid := Linspace(Min(mu), Max(mu), nPoints);
    var vols: seq<real> := [];
    var rets: seq<real> := [];
    for i := 0 to |grid|
      invariant |vols| == |rets| == |Feasible(grid[..i], solve)|
      invariant forall k :: 0 <= k < |vols| ==> Feasible(grid[..i], solve)[k] == Point(rets[k], vols[k])
    {
      var perf := solve(grid[i]);
      assert grid[..i + 1][..i] == grid[..i];
      if perf.Some? {
        vols := vols + [perf.value.vol];
        rets := rets + [perf.value.ret];
      }
    }
    assert grid[..|grid|] == grid;
    var points := seq(|vols|, k requires 0 <= k < |vols| => Point(rets[k], vols[k]));
    assert points == Feasible(grid, solve);
    frontier := Seqs.SortBy(points, Vol);
  }
}

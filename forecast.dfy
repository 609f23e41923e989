/**
 * The ARIMA forecaster: fits the ARIMA wrapper on a cleaned return series,
 * forecasts returns with a confidence interval, dates the forecast on the
 * business days after the last training date and compounds each return path
 * into a price path from the last training price.
 *
 * Dates are proleptic Gregorian ordinals (day 1 is Monday 0001-01-01).
 */
module Forecast {
  import opened Wrappers
  import Seqs
  import Arima

  type Date = int

  /** Monday is 0 and Sunday is 6, as for an ordinal's `weekday()`. */
  function Weekday(d: Date): (w: int)
    ensures 0 <= w < 7
  {
    (d + 6) % 7
  }

  predicate IsBusinessDay(d: Date)
  {
    Weekday(d) < 5
  }

  lemma WeekdayShift(d: Date, k: nat)
    requires k < 7
    ensures Weekday(d + k) == (Weekday(d) + k) % 7
  {
  }

  /** One business day forward: Friday goes to Monday, Saturday and Sunday to Monday. */
  function NextBusinessDay(d: Date): (n: Date)
    ensures d < n <= d + 3 && IsBusinessDay(n)
    ensures forall x :: d < x < n ==> !IsBusinessDay(x)
  {
    var wd := Weekday(d);
    WeekdayShift(d, 1);
    WeekdayShift(d, 2);
    WeekdayShift(d, 3);
    if wd == 4 then d + 3 else if wd == 5 then d + 2 else d + 1
  }

  /** `steps` consecutive business days, starting with the first one after `last`. */
  function FutureBdays(last: Date, steps: nat): (idx: seq<Date>)
    ensures |idx| == steps
    decreases steps
  {
    if steps == 0 then [] else [NextBusinessDay(last)] + FutureBdays(NextBusinessDay(last), steps - 1)
  }

  /** The index starts on the next business day, holds only business days, and each date is the
      business day right after its predecessor, so it is strictly increasing and after `last`. */
  lemma {:induction false} FutureBdaysShape(last: Date, steps: nat)
    decreases steps
    ensures var idx := FutureBdays(last, steps);
            && (steps > 0 ==> idx[0] == NextBusinessDay(last))
            && (forall k :: 0 <= k < steps ==> IsBusinessDay(idx[k]) && last < idx[k])
            && (forall k :: 0 <= k < steps - 1 ==> idx[k + 1] == NextBusinessDay(idx[k]))
  {
    if steps > 0 {
      var n := NextBusinessDay(last);
      FutureBdaysShape(n, steps - 1);
      var idx := FutureBdays(last, steps);
      assert idx[1..] == FutureBdays(n, steps - 1);
    }
  }

  /** No business day is skipped: every business day after `last`, up to the final date, is in the index. */
  lemma {:induction false} FutureBdaysComplete(last: Date, steps: nat, x: Date)
    requires steps > 0 && IsBusinessDay(x) && last < x <= FutureBdays(last, steps)[steps - 1]
    ensures x in FutureBdays(last, steps)
    decreases steps
  {
    var n := NextBusinessDay(last);
    var idx := FutureBdays(last, steps);
    if x != n {
      assert n < x;
      assert steps > 1 by {
        assert idx[0] == n;
      }
      assert idx[1..] == FutureBdays(n, steps - 1);
      FutureBdaysComplete(n, steps - 1, x);
    }
  }

  /** `_range_index`: the series without its missing values, renumbered 0..n-1. */
  function RangeIndex(series: seq<Option<real>>): (s: seq<real>)
    ensures |s| <= |series|
  {
    Seqs.DropMissing(series)
  }

  /** Renumbering keeps the order: the cleaned concatenation is the concatenation of the cleaned
      parts, a value survives exactly when it was present, and a clean series is left as it is. */
  lemma RangeIndexProperties(a: seq<Option<real>>, b: seq<Option<real>>, v: real, clean: seq<real>)
    ensures RangeIndex(a + b) == RangeIndex(a) + RangeIndex(b)
    ensures v in RangeIndex(a) <==> Some(v) in a
    ensures RangeIndex(Seqs.Present(clean)) == clean
  {
    Seqs.DropMissingConcat(a, b);
    Seqs.DropMissingMember(a, v);
    Seqs.DropMissingPresent(clean);
  }

  /** `np.cumprod(1 + r)`: the running product of the growth factors. */
  function Cumprod(rets: seq<real>): (cp: seq<real>)
    ensures |cp| == |rets|
  {
    if rets == [] then []
    else
      var c := Cumprod(rets[..|rets| - 1]);
      c + [Seqs.Compound(if c == [] then 1.0 else c[|c| - 1], rets[|rets| - 1])]
  }

  /** Entry t of the running product is entry t-1 (1 for the first) times (1 + r_t). */
  lemma {:induction false} CumprodAt(rets: seq<real>, t: nat)
    requires t < |rets|
    ensures Cumprod(rets)[t] == Seqs.Compound(if t == 0 then 1.0 else Cumprod(rets)[t - 1], rets[t])
    decreases |rets|
  {
    var init := rets[..|rets| - 1];
    if t < |rets| - 1 {
      CumprodAt(init, t);
      assert init[t] == rets[t];
    }
  }

  /** `_reconstruct_prices`: the last price times the running product. */
  function ReconstructPrices(last: real, rets: seq<real>): (px: seq<real>)
    ensures |px| == |rets|
  {
    Seqs.Scale(last, Cumprod(rets))
  }

  /** Each price is the previous one (the last price for the first) grown by that day's return. */
  lemma ReconstructRecurrence(last: real, rets: seq<real>)
    ensures var px := ReconstructPrices(last, rets);
            && (0 < |rets| ==> px[0] == Seqs.Compound(last, rets[0]))
            && forall t :: 0 < t < |rets| ==> px[t] == Seqs.Compound(px[t - 1], rets[t])
  {
    var cp := Cumprod(rets);
    var px := ReconstructPrices(last, rets);
    if 0 < |rets| {
      CumprodAt(rets, 0);
      Seqs.CompoundScale(last, 1.0, rets[0]);
    }
    forall t | 0 < t < |rets| ensures px[t] == Seqs.Compound(px[t - 1], rets[t]) {
      CumprodAt(rets, t);
      Seqs.CompoundScale(last, cp[t - 1], rets[t]);
    }
  }

  lemma MulMono(a: real, b: real, u: real, v: real)
    requires 0.0 <= a <= b && 0.0 <= u <= v
    ensures 0.0 <= a * u <= b * v
  {
    assert a * u <= b * u;
    assert b * u <= b * v;
  }

  /** Ordered growth factors give ordered running products. */
  lemma {:induction false} CumprodMono(lo: seq<real>, hi: seq<real>, t: nat)
    requires |lo| == |hi| && t < |lo|
    requires forall i :: 0 <= i < |lo| ==> -1.0 <= lo[i] <= hi[i]
    ensures 0.0 <= Cumprod(lo)[t] <= Cumprod(hi)[t]
  {
    var a, b := Cumprod(lo), Cumprod(hi);
    CumprodAt(lo, t);
    CumprodAt(hi, t);
    if t == 0 {
      MulMono(1.0, 1.0, 1.0 + lo[0], 1.0 + hi[0]);
    } else {
      CumprodMono(lo, hi, t - 1);
      MulMono(a[t - 1], b[t - 1], 1.0 + lo[t], 1.0 + hi[t]);
    }
  }

  /** A return band that never falls below -100% gives a price band in the same order: from a
      non-negative last price, the lower path stays non-negative and below the upper path. */
  lemma ReconstructBand(last: real, lo: seq<real>, hi: seq<real>)
    requires 0.0 <= last && |lo| == |hi|
    requires forall i :: 0 <= i < |lo| ==> -1.0 <= lo[i] <= hi[i]
    ensures forall t :: 0 <= t < |lo| ==> 0.0 <= ReconstructPrices(last, lo)[t] <= ReconstructPrices(last, hi)[t]
  {
    var a, b := Cumprod(lo), Cumprod(hi);
    forall t | 0 <= t < |lo| ensures 0.0 <= ReconstructPrices(last, lo)[t] <= ReconstructPrices(last, hi)[t] {
      CumprodMono(lo, hi, t);
      MulMono(last, last, a[t], b[t]);
    }
  }

  /** The forecast settings; the defaults forecast 126 business days with a 95% interval. */
  datatype ForecastRequest = ForecastRequest(
    steps: nat, alpha: real, trend: Option<string>,
    gridP: seq<int>, gridD: seq<int>, gridQ: seq<int>)

  const DefaultRequest := ForecastRequest(126, 0.05, Some("n"), [0, 1, 2, 3], [0, 1], [0, 1, 2, 3])

  /** The forecast on its business-day index, in returns and in prices, with the order used. */
  datatype ForecastResult = ForecastResult(
    index: seq<Date>,
    retMean: seq<real>, retLower: seq<real>, retUpper: seq<real>,
    pxMean: seq<real>, pxLower: seq<real>, pxUpper: seq<real>,
    order: Arima.Order)

  /** Python's `x or default` on an optional step count: None and 0 both take the default. */
  function OrSteps(x: Option<nat>, default: nat): (n: nat)
    ensures x.Some? && x.value != 0 ==> n == x.value
    ensures x.None? || x.value == 0 ==> n == default
  {
    if x.None? || x.value == 0 then default else x.value
  }

  /** Python's `x or default` on an optional level: None and 0.0 both take the default. */
  function OrAlpha(x: Option<real>, default: real): (a: real)
    ensures x.Some? && x.value != 0.0 ==> a == x.value
    ensures x.None? || x.value == 0.0 ==> a == default
  {
    if x.None? || x.value == 0.0 then default else x.value
  }

  class ArimaForecaster {
    const req: ForecastRequest
    const model: Arima.ArimaModel
    var fitted: bool

    /** Once fitted, the model holds an order and a fit result. */
    ghost predicate Valid()
      reads this, model
    {
      fitted ==> model.order.Some? && model.fitRes.Some?
    }

    /** A forecaster owns a fresh, unfitted model with no pinned order and the request's grids. */
    constructor(req: ForecastRequest)
      ensures Valid() && !fitted && this.req == req && fresh(model)
      ensures model.order.None? && model.fitRes.None? && model.trend == req.trend
      ensures model.gridP == req.gridP && model.gridD == req.gridD && model.gridQ == req.gridQ
    {
      this.req := req;
      model := new Arima.ArimaModel(None, req.gridP, req.gridD, req.gridQ, req.trend);
      fitted := false;
    }

    /** `fit`: fit the model on the cleaned, renumbered series; only a successful fit marks the
        forecaster as fitted (a library error propagates). */
    method Fit(retTrain: seq<Option<real>>, est: Arima.Estimator) returns (r: Result<(), Arima.ArimaError>)
      requires Valid()
      modifies this, model
      ensures Valid()
      ensures var y := RangeIndex(retTrain);
              var o := Arima.ChosenOrder(old(model.order), est.fit, y, model.trend, model.gridP, model.gridD, model.gridQ);
              && model.order == Some(o)
              && (r.Ok? <==> est.fit(y, o, model.trend).Some?)
              && (r.Ok? ==> fitted && model.fitRes == Some(Arima.Fitted(y, o, model.trend)))
              && (r.Err? ==> r.error == Arima.FitRaised && fitted == old(fitted) && model.fitRes == old(model.fitRes))
    {
      var y := RangeIndex(retTrain);
      Seqs.DropMissingPresent(y);
      r := model.Fit(Seqs.Present(y), est);
      if r.Err? {
        return;
      }
      fitted := true;
    }

    /** `forecast`: fit first when not fitted, default the step count and level, forecast the
        returns with their interval, date them and compound each path into prices. */
    method Forecast(retTrain: seq<Option<real>>, priceLast: real, lastTrainDate: Date,
                    steps: Option<nat>, alpha: Option<real>, est: Arima.Estimator)
      returns (r: Result<ForecastResult, Arima.ArimaError>)
      requires Valid()
      modifies this, model
      ensures Valid()
      ensures old(fitted) ==> r.Ok? && model.order == old(model.order) && model.fitRes == old(model.fitRes)
      ensures !old(fitted) ==>
                var y := RangeIndex(retTrain);
                var o := Arima.ChosenOrder(old(model.order), est.fit, y, model.trend, model.gridP, model.gridD, model.gridQ);
                && model.order == Some(o)
                && (r.Err? <==> est.fit(y, o, model.trend).None?)
                && (r.Ok? ==> model.fitRes == Some(Arima.Fitted(y, o, model.trend)))
                && (r.Err? ==> !fitted && model.fitRes == old(model.fitRes))
      ensures r.Err? ==> r.error == Arima.FitRaised
      ensures r.Ok? ==>
                var n := OrSteps(steps, req.steps);
                var a := OrAlpha(alpha, req.alpha);
                var f := model.fitRes.value;
                var res := r.value;
                && fitted
                && res.index == FutureBdays(lastTrainDate, n)
                && |res.retMean| == n && |res.retLower| == n && |res.retUpper| == n
                && (forall h :: 0 <= h < n ==>
                      res.retMean[h] == est.mean(f, h)
                      && res.retLower[h] == est.lower(f, a, h)
                      && res.retUpper[h] == est.upper(f, a, h))
                && res.pxMean == ReconstructPrices(priceLast, res.retMean)
                && res.pxLower == ReconstructPrices(priceLast, res.retLower)
                && res.pxUpper == ReconstructPrices(priceLast, res.retUpper)
                && res.order == model.order.value
    {
      if !fitted {
        var fr := Fit(retTrain, est);
        if fr.Err? {
          return Err(fr.error);
        }
      }
      var n := OrSteps(steps, req.steps);
      var a := OrAlpha(alpha, req.alpha);
      var ci := model.ForecastWithCi(n, a, est);
      assert ci.Ok?;
      var (mean, conf) := ci.value;
      var lower := seq(n, h requires 0 <= h < n => conf[h].0);
      var upper := seq(n, h requires 0 <= h < n => conf[h].1);
      var idx := FutureBdays(lastTrainDate, n);
      r := Ok(ForecastResult(idx, mean, lower, upper,
                             ReconstructPrices(priceLast, mean),
                             ReconstructPrices(priceLast, lower),
                             ReconstructPrices(priceLast, upper),
                             model.order.value));
    }
  }
}

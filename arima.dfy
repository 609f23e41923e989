/**
 * The ARIMA wrapper: an order (p, d, q) either pinned by the caller or chosen
 * by an exhaustive grid search on AIC, a fit of the chosen order, and
 * forecasts from that fit.
 *
 * The statistics library is an oracle (`Estimator`): fitting an order to a
 * series yields an AIC or fails (None), and a fitted model yields a mean and
 * an interval per forecast step.
 */
module Arima {
  import opened Wrappers
  import Seqs

  datatype Order = Order(p: int, d: int, q: int)

  /** The order used when no candidate of the grid wins. */
  const Fallback := Order(1, 0, 0)

  /** An information criterion as an IEEE double can hold it. */
  datatype Aic = Num(v: real) | PosInf | NegInf | NaN

  /** IEEE `<`: every comparison with NaN is false, -inf is below every number, +inf above. */
  predicate Less(a: Aic, b: Aic)
    ensures Less(a, b) ==> a != NaN && b != NaN && a != PosInf && b != NegInf
    ensures a.Num? && b.Num? ==> (Less(a, b) <==> a.v < b.v)
  {
    match a
    case NaN => false
    case PosInf => false
    case NegInf => b.Num? || b.PosInf?
    case Num(x) => (b.Num? && x < b.v) || b.PosInf?
  }

  lemma LessIrreflexive(a: Aic)
    ensures !Less(a, a)
  {
  }

  lemma LessTransitive(a: Aic, b: Aic, c: Aic)
    requires Less(a, b) && Less(b, c)
    ensures Less(a, c)
  {
  }

  /** NaN is comparable to nothing, and +inf is below nothing. */
  lemma LessExcludes(a: Aic)
    ensures !Less(NaN, a) && !Less(a, NaN) && !Less(PosInf, a) && !Less(a, NegInf)
  {
  }

  /** A finished fit: the identity of what was fitted. */
  datatype Fitted = Fitted(y: seq<real>, order: Order, trend: Option<string>)

  /** Fitting an order to a series: the AIC of the fit, or None when the fit raised. */
  type FitFn = (seq<real>, Order, Option<string>) -> Option<Aic>

  /** The library as the model sees it. `mean(f, h)` is the forecast mean h+1 steps ahead;
      `lower`/`upper(f, alpha, h)` bound the (1 - alpha) interval at that step. */
  datatype Estimator = Estimator(
    fit: FitFn,
    mean: (Fitted, nat) -> real,
    lower: (Fitted, real, nat) -> real,
    upper: (Fitted, real, nat) -> real)

  datatype ArimaError = NotFitted | FitRaised

  // ---------------------------------------------------------------------------
  // The search order

  /** `(p, d, q)` for q in `gq`, in list order. */
  function Line(p: int, d: int, gq: seq<int>): (l: seq<Order>)
    ensures |l| == |gq|
  {
    if gq == [] then [] else Line(p, d, gq[..|gq| - 1]) + [Order(p, d, gq[|gq| - 1])]
  }

  lemma {:induction false} LineAt(p: int, d: int, gq: seq<int>)
    ensures forall k :: 0 <= k < |gq| ==> Line(p, d, gq)[k] == Order(p, d, gq[k])
  {
    if gq != [] {
      LineAt(p, d, gq[..|gq| - 1]);
    }
  }

  /** The orders visited for one p: d over `gd`, and for each d, q over `gq`. */
  function Plane(p: int, gd: seq<int>, gq: seq<int>): seq<Order>
  {
    if gd == [] then [] else Plane(p, gd[..|gd| - 1], gq) + Line(p, gd[|gd| - 1], gq)
  }

  /** Every order in the nested loop order of `select_order`: p outermost, q innermost. */
  function Candidates(gp: seq<int>, gd: seq<int>, gq: seq<int>): seq<Order>
  {
    if gp == [] then [] else Candidates(gp[..|gp| - 1], gd, gq) + Plane(gp[|gp| - 1], gd, gq)
  }

  lemma {:induction false} PlaneMember(p: int, gd: seq<int>, gq: seq<int>, o: Order)
    ensures o in Plane(p, gd, gq) <==> o.p == p && o.d in gd && o.q in gq
  {
    if gd != [] {
      var last := gd[|gd| - 1];
      PlaneMember(p, gd[..|gd| - 1], gq, o);
      assert gd == gd[..|gd| - 1] + [last];
      LineAt(p, last, gq);
      if o in Line(p, last, gq) {
        var k :| 0 <= k < |gq| && Line(p, last, gq)[k] == o;
      }
      if o.p == p && o.d == last && o.q in gq {
        var k :| 0 <= k < |gq| && gq[k] == o.q;
        assert Line(p, last, gq)[k] == o;
      }
    }
  }

  /** The search visits exactly the grid product grid_p x grid_d x grid_q. */
  lemma {:induction false} CandidatesMember(gp: seq<int>, gd: seq<int>, gq: seq<int>, o: Order)
    ensures o in Candidates(gp, gd, gq) <==> o.p in gp && o.d in gd && o.q in gq
  {
    if gp != [] {
      var last := gp[|gp| - 1];
      CandidatesMember(gp[..|gp| - 1], gd, gq, o);
      PlaneMember(last, gd, gq, o);
      assert gp == gp[..|gp| - 1] + [last];
    }
  }

  lemma LineStep(p: int, d: int, gq: seq<int>, k: nat)
    requires k < |gq|
    ensures Line(p, d, gq[..k + 1]) == Line(p, d, gq[..k]) + [Order(p, d, gq[k])]
  {
    assert gq[..k + 1][..k] == gq[..k];
  }

  lemma PlaneStep(p: int, gd: seq<int>, gq: seq<int>, j: nat)
    requires j < |gd|
    ensures Plane(p, gd[..j + 1], gq) == Plane(p, gd[..j], gq) + Line(p, gd[j], gq)
  {
    assert gd[..j + 1][..j] == gd[..j];
  }

  lemma PlaneStepAfter(seen: seq<Order>, p: int, gd: seq<int>, gq: seq<int>, j: nat)
    requires j < |gd|
    ensures seen + Plane(p, gd[..j + 1], gq) == (seen + Plane(p, gd[..j], gq)) + Line(p, gd[j], gq)
  {
    PlaneStep(p, gd, gq, j);
  }

  lemma CandidatesStep(gp: seq<int>, gd: seq<int>, gq: seq<int>, i: nat)
    requires i < |gp|
    ensures Candidates(gp[..i + 1], gd, gq) == Candidates(gp[..i], gd, gq) + Plane(gp[i], gd, gq)
  {
    assert gp[..i + 1][..i] == gp[..i];
  }

  // ---------------------------------------------------------------------------
  // The search as a function

  /** The loop state of `select_order`: the best score so far and the order that achieved it. */
  datatype Search = Search(bestAic: Aic, best: Option<Order>)

  const Start := Search(PosInf, None)

  /** One candidate: a fit that raised leaves the state alone; otherwise it replaces the
      best only when its score is strictly below the best score. */
  function Visit(s: Search, o: Order, outcome: Option<Aic>): (r: Search)
    ensures r.best == s.best || r.best == Some(o)
    ensures r != s <==> outcome.Some? && Less(outcome.value, s.bestAic)
    ensures !Less(s.bestAic, r.bestAic)
    ensures outcome.Some? ==> !Less(outcome.value, r.bestAic)
  {
    if outcome.Some? && Less(outcome.value, s.bestAic) then Search(outcome.value, Some(o)) else s
  }

  /** The state after visiting `cs` in order. */
  function Scan(fit: FitFn, y: seq<real>, trend: Option<string>, cs: seq<Order>): (r: Search)
    ensures r.best.Some? ==> r.best.value in cs
    ensures r.best.None? <==> r.bestAic == PosInf
  {
    if cs == [] then Start
    else Visit(Scan(fit, y, trend, cs[..|cs| - 1]), cs[|cs| - 1], fit(y, cs[|cs| - 1], trend))
  }

  /** The order `select_order` returns. */
  function GridSearch(fit: FitFn, y: seq<real>, trend: Option<string>, gp: seq<int>, gd: seq<int>, gq: seq<int>): (r: Order)
    ensures r == Fallback || (r.p in gp && r.d in gd && r.q in gq)
  {
    var s := Scan(fit, y, trend, Candidates(gp, gd, gq));
    ScanWinner(fit, y, trend, Candidates(gp, gd, gq));
    if s.best.Some? then CandidatesMember(gp, gd, gq, s.best.value); s.best.value else Fallback
  }

  /** The order `fit` uses: the pinned one, or the search result when none is pinned. */
  function ChosenOrder(order: Option<Order>, fit: FitFn, y: seq<real>, trend: Option<string>,
                       gp: seq<int>, gd: seq<int>, gq: seq<int>): (r: Order)
    ensures order.Some? ==> r == order.value
    ensures order.None? ==> r == Fallback || (r.p in gp && r.d in gd && r.q in gq)
  {
    if order.Some? then order.value else GridSearch(fit, y, trend, gp, gd, gq)
  }

  /** A candidate beats +inf exactly when its fit succeeded with a score that is a number or -inf. */
  predicate Scores(fit: FitFn, y: seq<real>, trend: Option<string>, o: Order)
  {
    fit(y, o, trend).Some? && Less(fit(y, o, trend).value, PosInf)
  }

  /** What the scan leaves behind. No order is kept exactly when no candidate scores; otherwise
      the kept order is a candidate `cs[k]` whose fit gave the kept score, no candidate's score is
      strictly below it, and no earlier candidate had the same score (the first of equal minima). */
  lemma {:induction false} ScanWinner(fit: FitFn, y: seq<real>, trend: Option<string>, cs: seq<Order>)
    ensures var s := Scan(fit, y, trend, cs);
            && (s.best.None? <==> forall j :: 0 <= j < |cs| ==> !Scores(fit, y, trend, cs[j]))
            && (s.best.None? ==> s.bestAic == PosInf)
            && (forall j :: 0 <= j < |cs| && fit(y, cs[j], trend).Some? ==> !Less(fit(y, cs[j], trend).value, s.bestAic))
            && (s.best.Some? ==>
                  exists k :: 0 <= k < |cs| && cs[k] == s.best.value && fit(y, cs[k], trend) == Some(s.bestAic)
                              && Less(s.bestAic, PosInf)
                              && forall j :: 0 <= j < k ==> fit(y, cs[j], trend) != Some(s.bestAic))
  {
    if cs != [] {
      var init := cs[..|cs| - 1];
      var o := cs[|cs| - 1];
      ScanWinner(fit, y, trend, init);
      var prev := Scan(fit, y, trend, init);
      var out := fit(y, o, trend);
      var s := Scan(fit, y, trend, cs);
      assert forall j :: 0 <= j < |init| ==> cs[j] == init[j];
      if out.Some? && Less(out.value, prev.bestAic) {
        assert s == Search(out.value, Some(o));
        forall j | 0 <= j < |cs| && fit(y, cs[j], trend).Some?
          ensures !Less(fit(y, cs[j], trend).value, s.bestAic)
        {
          if j < |init| && Less(fit(y, cs[j], trend).value, s.bestAic) {
            LessTransitive(fit(y, cs[j], trend).value, s.bestAic, prev.bestAic);
          }
        }
        assert Less(s.bestAic, PosInf) by {
          if prev.best.Some? { LessTransitive(s.bestAic, prev.bestAic, PosInf); }
        }
        forall j | 0 <= j < |cs| - 1 ensures fit(y, cs[j], trend) != Some(s.bestAic) {
        }
        assert Scores(fit, y, trend, cs[|cs| - 1]);
      } else {
        assert s == prev;
        if prev.best.Some? {
          var k :| 0 <= k < |init| && init[k] == prev.best.value && fit(y, init[k], trend) == Some(prev.bestAic)
                   && Less(prev.bestAic, PosInf)
                   && forall j :: 0 <= j < k ==> fit(y, init[j], trend) != Some(prev.bestAic);
          assert cs[k] == init[k];
        } else {
          assert !Scores(fit, y, trend, o);
        }
      }
    }
  }

  /** Scanning depends only on the outcomes of the scanned candidates: two libraries that agree
      on them choose the same order. */
  lemma {:induction false} ScanCongruent(f1: FitFn, f2: FitFn, y: seq<real>, trend: Option<string>, cs: seq<Order>)
    requires forall j :: 0 <= j < |cs| ==> f1(y, cs[j], trend) == f2(y, cs[j], trend)
    ensures Scan(f1, y, trend, cs) == Scan(f2, y, trend, cs)
  {
    if cs != [] {
      ScanCongruent(f1, f2, y, trend, cs[..|cs| - 1]);
    }
  }

  lemma GridSearchDeterministic(f1: FitFn, f2: FitFn, y: seq<real>, trend: Option<string>, gp: seq<int>, gd: seq<int>, gq: seq<int>)
    requires forall o: Order :: o.p in gp && o.d in gd && o.q in gq ==> f1(y, o, trend) == f2(y, o, trend)
    ensures GridSearch(f1, y, trend, gp, gd, gq) == GridSearch(f2, y, trend, gp, gd, gq)
  {
    var cs := Candidates(gp, gd, gq);
    forall j | 0 <= j < |cs| ensures f1(y, cs[j], trend) == f2(y, cs[j], trend) {
      CandidatesMember(gp, gd, gq, cs[j]);
    }
    ScanCongruent(f1, f2, y, trend, cs);
  }

  /** If every fit raises, the fallback (1, 0, 0) is chosen. */
  lemma AllFailedFallback(fit: FitFn, y: seq<real>, trend: Option<string>, gp: seq<int>, gd: seq<int>, gq: seq<int>)
    requires forall o: Order :: fit(y, o, trend).None?
    ensures GridSearch(fit, y, trend, gp, gd, gq) == Fallback
  {
    ScanWinner(fit, y, trend, Candidates(gp, gd, gq));
  }

  lemma ScanAppend(fit: FitFn, y: seq<real>, trend: Option<string>, cs: seq<Order>, o: Order)
    ensures Scan(fit, y, trend, cs + [o]) == Visit(Scan(fit, y, trend, cs), o, fit(y, o, trend))
  {
    assert (cs + [o])[..|cs|] == cs;
  }

  // ---------------------------------------------------------------------------
  // The model object

  class ArimaModel {
    var order: Option<Order>
    const gridP: seq<int>
    const gridD: seq<int>
    const gridQ: seq<int>
    const trend: Option<string>
    var fitRes: Option<Fitted>

    constructor(order: Option<Order>, gridP: seq<int>, gridD: seq<int>, gridQ: seq<int>, trend: Option<string>)
      ensures this.order == order && this.trend == trend && fitRes == None
      ensures this.gridP == gridP && this.gridD == gridD && this.gridQ == gridQ
    {
      this.order := order;
      this.gridP := gridP;
      this.gridD := gridD;
      this.gridQ := gridQ;
      this.trend := trend;
      fitRes := None;
    }

    /** `select_order`: the loop over grid_p (the loops over grid_d and grid_q being
        `VisitDs` and `VisitQs`), then the fallback; the result is recorded as the order. */
    method SelectOrder(y: seq<Option<real>>, est: Estimator) returns (chosen: Order)
      modifies this
      ensures chosen == GridSearch(est.fit, Seqs.DropMissing(y), trend, gridP, gridD, gridQ)
      ensures order == Some(chosen) && fitRes == old(fitRes)
    {
      var ys := Seqs.DropMissing(y);
      var bestAic := PosInf;
      var best: Option<Order> := None;
      for i := 0 to |gridP|
        invariant fitRes == old(fitRes)
        invariant Search(bestAic, best) == Scan(est.fit, ys, trend, Candidates(gridP[..i], gridD, gridQ))
      {
        bestAic, best := VisitDs(ys, est, gridP[i], bestAic, best, Candidates(gridP[..i], gridD, gridQ));
        CandidatesStep(gridP, gridD, gridQ, i);
      }
      assert gridP[..|gridP|] == gridP;
      if best.None? {
        best := Some(Fallback);
      }
      chosen := best.value;
      order := Some(chosen);
    }

    /** The loop over grid_d for one p. */
    method VisitDs(ys: seq<real>, est: Estimator, p: int, bestAic0: Aic, best0: Option<Order>, ghost seen: seq<Order>)
      returns (bestAic: Aic, best: Option<Order>)
      requires Search(bestAic0, best0) == Scan(est.fit, ys, trend, seen)
      ensures Search(bestAic, best) == Scan(est.fit, ys, trend, seen + Plane(p, gridD, gridQ))
    {
      bestAic, best := bestAic0, best0;
      assert seen + Plane(p, gridD[..0], gridQ) == seen;
      for j := 0 to |gridD|
        invariant Search(bestAic, best) == Scan(est.fit, ys, trend, seen + Plane(p, gridD[..j], gridQ))
      {
        bestAic, best := VisitQs(ys, est, p, gridD[j], bestAic, best, seen + Plane(p, gridD[..j], gridQ));
        PlaneStepAfter(seen, p, gridD, gridQ, j);
      }
      assert gridD[..|gridD|] == gridD;
    }

    /** The innermost loop of `select_order`: fit (p, d, q) for every q of grid_q, skip a fit
        that raised, and keep a candidate only when its score is strictly below the best. */
    method VisitQs(ys: seq<real>, est: Estimator, p: int, d: int, bestAic0: Aic, best0: Option<Order>, ghost seen: seq<Order>)
      returns (bestAic: Aic, best: Option<Order>)
      requires Search(bestAic0, best0) == Scan(est.fit, ys, trend, seen)
      ensures Search(bestAic, best) == Scan(est.fit, ys, trend, seen + Line(p, d, gridQ))
    {
      bestAic, best := bestAic0, best0;
      assert seen + Line(p, d, gridQ[..0]) == seen;
      for k := 0 to |gridQ|
        invariant Search(bestAic, best) == Scan(est.fit, ys, trend, seen + Line(p, d, gridQ[..k]))
      {
        var q := gridQ[k];
        var outcome := est.fit(ys, Order(p, d, q), trend);
        ScanAppend(est.fit, ys, trend, seen + Line(p, d, gridQ[..k]), Order(p, d, q));
        if outcome.Some? && Less(outcome.value, bestAic) {
          bestAic := outcome.value;
          best := Some(Order(p, d, q));
        }
        LineStep(p, d, gridQ, k);
        assert seen + Line(p, d, gridQ[..k + 1]) == (seen + Line(p, d, gridQ[..k])) + [Order(p, d, q)];
      }
      assert gridQ[..|gridQ|] == gridQ;
    }

    /** `fit`: search only when no order is set, then fit the order; a failing final fit
        propagates (the order chosen by the search stays recorded). */
    method Fit(yTrain: seq<Option<real>>, est: Estimator) returns (r: Result<(), ArimaError>)
      modifies this
      ensures var y := Seqs.DropMissing(yTrain);
              var o := ChosenOrder(old(order), est.fit, y, trend, gridP, gridD, gridQ);
              && order == Some(o)
              && (r.Ok? <==> est.fit(y, o, trend).Some?)
              && (r.Ok? ==> fitRes == Some(Fitted(y, o, trend)))
              && (r.Err? ==> r.error == FitRaised && fitRes == old(fitRes))
    {
      var y := Seqs.DropMissing(yTrain);
      if order.None? {
        var _ := SelectOrder(Seqs.Present(y), est);
        Seqs.DropMissingPresent(y);
      }
      var o := order.value;
      if est.fit(y, o, trend).None? {
        return Err(FitRaised);
      }
      fitRes := Some(Fitted(y, o, trend));
      r := Ok(());
    }

    /** `forecast`: the mean path of the fit, or an error when there is no fit. */
    method Forecast(steps: nat, est: Estimator) returns (r: Result<seq<real>, ArimaError>)
      ensures r.Err? <==> fitRes.None?
      ensures r.Err? ==> r.error == NotFitted
      ensures r.Ok? ==> |r.value| == steps && forall h :: 0 <= h < steps ==> r.value[h] == est.mean(fitRes.value, h)
    {
      if fitRes.None? {
        return Err(NotFitted);
      }
      var f := fitRes.value;
      r := Ok(seq(steps, h requires 0 <= h < steps => est.mean(f, h)));
    }

    /** `forecast_with_ci`: the mean path and one (lower, upper) row per step, or an error when
        there is no fit. */
    method ForecastWithCi(steps: nat, alpha: real, est: Estimator)
      returns (r: Result<(seq<real>, seq<(real, real)>), ArimaError>)
      ensures r.Err? <==> fitRes.None?
      ensures r.Err? ==> r.error == NotFitted
      ensures r.Ok? ==>
                var (mean, conf) := r.value;
                && |mean| == steps && |conf| == steps
                && forall h :: 0 <= h < steps ==>
                     mean[h] == est.mean(fitRes.value, h)
                     && conf[h] == (est.lower(fitRes.value, alpha, h), est.upper(fitRes.value, alpha, h))
    {
      if fitRes.None? {
        return Err(NotFitted);
      }
      var f := fitRes.value;
      var mean := seq(steps, h requires 0 <= h < steps => est.mean(f, h));
      var conf := seq(steps, h requires 0 <= h < steps => (est.lower(f, alpha, h), est.upper(f, alpha, h)));
      r := Ok((mean, conf));
    }
  }
}

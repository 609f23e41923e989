/**
 * The LSTM forecaster's index arithmetic: cutting a series into
 * (input window, target block) training pairs, and the recursive forecast
 * that feeds each prediction back into a sliding window of fixed length.
 *
 * The network is an oracle: building it, training it and asking it for the
 * next value are left to `Keras` and `Net`.
 */
module Lstm {
  import opened Wrappers
  import Seqs

  /** A trained network as the forecast uses it: the first output for one input window. */
  datatype Net = Net(predict: seq<real> -> real)

  /** The deep-learning library: the freshly built network, and training it on (inputs, targets),
      which yields the trained network or None when training raises. */
  /** What `model.fit` leaves behind: Keras trains the network in place, so a run that raises
      still leaves the weights it reached before the error. */
  datatype Training = Trained(net: Net) | Raised(net: Net)

  datatype Keras = Keras(build: Net, train: (Net, seq<seq<real>>, seq<seq<real>>) -> Training)

  datatype LstmError = TfUnavailable | NotFitted | ShortHistory | TrainingRaised

  /** Window and horizon lengths are positive. */
  type Pos = n: nat | 0 < n witness 1

  /** `len(arr) - lookback - horizon + 1` windows, or none when that is not positive. */
  function WindowCount(n: nat, lookback: nat, horizon: nat): nat
  {
    if n + 1 > lookback + horizon then n + 1 - lookback - horizon else 0
  }

  /** The input windows `arr[i : i + lookback]`. */
  function Inputs(arr: seq<real>, lookback: nat, horizon: nat): (xs: seq<seq<real>>)
    ensures |xs| == WindowCount(|arr|, lookback, horizon)
    ensures forall i :: 0 <= i < |xs| ==> |xs[i]| == lookback && i + lookback + horizon <= |arr|
  {
    var count := WindowCount(|arr|, lookback, horizon);
    seq(count, i requires 0 <= i < count => arr[i..i + lookback])
  }

  /** The target blocks `arr[i + lookback : i + lookback + horizon]`. */
  function Targets(arr: seq<real>, lookback: nat, horizon: nat): (ys: seq<seq<real>>)
    ensures |ys| == WindowCount(|arr|, lookback, horizon)
    ensures forall i :: 0 <= i < |ys| ==> |ys[i]| == horizon && i + lookback + horizon <= |arr|
  {
    var count := WindowCount(|arr|, lookback, horizon);
    seq(count, i requires 0 <= i < count => arr[i + lookback..i + lookback + horizon])
  }

  lemma SliceSplit(arr: seq<real>, a: nat, b: nat, c: nat)
    requires a <= b <= c <= |arr|
    ensures arr[a..c] == arr[a..b] + arr[b..c]
  {
  }

  /** Every pair has the declared shape; the target block follows its input window without a gap
      or overlap; consecutive windows move by exactly one value; and the last pair ends at the
      end of the series, so no usable pair is missing. */
  lemma WindowsShape(arr: seq<real>, lookback: nat, horizon: nat)
    ensures var xs, ys := Inputs(arr, lookback, horizon), Targets(arr, lookback, horizon);
            && (forall i :: 0 <= i < |xs| ==>
                  |xs[i]| == lookback && |ys[i]| == horizon && xs[i] + ys[i] == arr[i..i + lookback + horizon])
            && (forall i :: 0 <= i < |xs| - 1 && 0 < lookback ==> xs[i + 1][..lookback - 1] == xs[i][1..])
            && (0 < |xs| ==> |xs| - 1 + lookback + horizon == |arr|)
  {
    var xs, ys := Inputs(arr, lookback, horizon), Targets(arr, lookback, horizon);
    forall i | 0 <= i < |xs| ensures xs[i] + ys[i] == arr[i..i + lookback + horizon] {
      SliceSplit(arr, i, i + lookback, i + lookback + horizon);
    }
    forall i | 0 <= i < |xs| - 1 && 0 < lookback ensures xs[i + 1][..lookback - 1] == xs[i][1..] {
      assert xs[i + 1][..lookback - 1] == arr[i + 1..i + lookback];
      assert xs[i][1..] == arr[i + 1..i + lookback];
    }
  }

  class LstmModel {
    const lookback: Pos
    const horizon: Pos
    var model: Option<Net>

    constructor(lookback: Pos, horizon: Pos)
      ensures this.lookback == lookback && this.horizon == horizon && model.None?
    {
      this.lookback := lookback;
      this.horizon := horizon;
      model := None;
    }

    /** `_make_windows`: one pass appending an input window and its target block per start index. */
    method MakeWindows(arr: seq<real>) returns (xs: seq<seq<real>>, ys: seq<seq<real>>)
      ensures |xs| == |ys| == WindowCount(|arr|, lookback, horizon)
      ensures forall i :: 0 <= i < |xs| ==> xs[i] == arr[i..i + lookback] && ys[i] == arr[i + lookback..i + lookback + horizon]
      ensures xs == Inputs(arr, lookback, horizon) && ys == Targets(arr, lookback, horizon)
    {
      xs, ys := [], [];
      var count := WindowCount(|arr|, lookback, horizon);
      for i := 0 to count
        invariant |xs| == |ys| == i
        invariant forall k :: 0 <= k < i ==> xs[k] == arr[k..k + lookback] && ys[k] == arr[k + lookback..k + lookback + horizon]
      {
        xs := xs + [arr[i..i + lookback]];
        ys := ys + [arr[i + lookback..i + lookback + horizon]];
      }
    }

    /** `fit`: refuse without TensorFlow; otherwise window the cleaned series, store the freshly
        built network, then train it in place. A training error therefore leaves the network as
        far as training got. */
    method Fit(train: seq<Option<real>>, tfAvailable: bool, keras: Keras) returns (r: Result<(), LstmError>)
      modifies this
      ensures !tfAvailable ==> r == Err(TfUnavailable) && model == old(model)
      ensures tfAvailable ==>
                var tr := Seqs.DropMissing(train);
                var trained := keras.train(keras.build, Inputs(tr, lookback, horizon), Targets(tr, lookback, horizon));
                && (r.Ok? <==> trained.Trained?)
                && (r.Err? ==> r.error == TrainingRaised)
                && model == Some(trained.net)
    {
      if !tfAvailable {
        return Err(TfUnavailable);
      }
      var tr := Seqs.DropMissing(train);
      var xtr, ytr := MakeWindows(tr);
      model := Some(keras.build);
      var trained := keras.train(keras.build, xtr, ytr);
      model := Some(trained.net);
      if trained.Raised? {
        return Err(TrainingRaised);
      }
      r := Ok(());
    }

    /** `forecast`: the guards, then `steps` rounds of predicting from the window and rolling the
        prediction into it. A history shorter than the window cannot be reshaped and is an error. */
    method Forecast(train: seq<Option<real>>, steps: int, tfAvailable: bool) returns (r: Result<seq<real>, LstmError>)
      ensures !tfAvailable ==> r == Err(TfUnavailable)
      ensures tfAvailable && model.None? ==> r == Err(NotFitted)
      ensures tfAvailable && model.Some? && |Seqs.DropMissing(train)| < lookback ==> r == Err(ShortHistory)
      ensures r.Ok? <==> tfAvailable && model.Some? && lookback <= |Seqs.DropMissing(train)|
      ensures r.Ok? ==>
                var history := Seqs.DropMissing(train);
                var start := history[|history| - lookback..];
                var preds := r.value;
                && |preds| == (if steps > 0 then steps else 0)
                && Rolls(model.value.predict, start, preds)
    {
      if !tfAvailable {
        return Err(TfUnavailable);
      }
      if model.None? {
        return Err(NotFitted);
      }
      var net := model.value;
      var history := Seqs.DropMissing(train);
      if |history| < lookback {
        return Err(ShortHistory);
      }
      var start := history[|history| - lookback..];
      var window := start;
      var preds: seq<real> := [];
      var n := if steps > 0 then steps else 0;
      for i := 0 to n
        invariant |preds| == i
        invariant window == (start + preds)[i..i + lookback]
        invariant Rolls(net.predict, start, preds)
      {
        var yhat := net.predict(window);
        RollsExtend(net.predict, start, preds, yhat);
        preds := preds + [yhat];
        window := window[1..] + [yhat];
      }
      r := Ok(preds);
    }
  }

  /** The recursive forecast's defining property: each prediction is the network's output on the
      `|start|` values before it, reading the starting window first and earlier predictions after. */
  ghost predicate Rolls(predict: seq<real> -> real, start: seq<real>, preds: seq<real>)
    ensures Rolls(predict, start, preds) && 0 < |preds| ==> preds[0] == predict(start)
  {
    assert 0 < |preds| ==> (start + preds)[0..|start|] == start;
    forall j :: 0 <= j < |preds| ==> preds[j] == predict((start + preds)[j..j + |start|])
  }

  /** A prediction reads only the values before it. */
  lemma WindowBeforePrediction(start: seq<real>, preds: seq<real>, j: nat)
    requires j < |preds|
    ensures (start + preds)[j..j + |start|] == (start + preds[..j])[j..j + |start|]
  {
    assert start + preds[..j] == (start + preds)[..j + |start|];
  }

  /** One more round: predicting from the current window and appending keeps the property. */
  lemma RollsExtend(predict: seq<real> -> real, start: seq<real>, preds: seq<real>, y: real)
    requires Rolls(predict, start, preds)
    requires y == predict((start + preds)[|preds|..|preds| + |start|])
    ensures Rolls(predict, start, preds + [y])
  {
    var ext := preds + [y];
    forall j | 0 <= j < |ext| ensures ext[j] == predict((start + ext)[j..j + |start|]) {
      ExtendAt(predict, start, preds, y, j);
    }
  }

  lemma ExtendAt(predict: seq<real> -> real, start: seq<real>, preds: seq<real>, y: real, j: nat)
    requires j < |preds| ==> preds[j] == predict((start + preds)[j..j + |start|])
    requires y == predict((start + preds)[|preds|..|preds| + |start|])
    requires j <= |preds|
    ensures (preds + [y])[j] == predict((start + (preds + [y]))[j..j + |start|])
  {
    var ext := preds + [y];
    WindowBeforePrediction(start, ext, j);
    assert ext[..j] == preds[..j];
    if j < |preds| {
      WindowBeforePrediction(start, preds, j);
    } else {
      assert ext[..j] == preds;
    }
  }

  /** Two forecasts from the same window agree on their common prefix. */
  lemma {:induction false} RollsPrefixAgree(predict: seq<real> -> real, start: seq<real>, p: seq<real>, q: seq<real>, k: nat)
    requires Rolls(predict, start, p) && Rolls(predict, start, q)
    requires k <= |p| && k <= |q|
    ensures p[..k] == q[..k]
    decreases k
  {
    if k > 0 {
      RollsPrefixAgree(predict, start, p, q, k - 1);
      WindowBeforePrediction(start, p, k - 1);
      WindowBeforePrediction(start, q, k - 1);
      assert p[..k] == p[..k - 1] + [p[k - 1]];
      assert q[..k] == q[..k - 1] + [q[k - 1]];
    }
  }

  /** The forecast is determined by the network, the starting window and the number of steps, and
      a shorter forecast is a prefix of a longer one. */
  lemma RollsDeterministic(predict: seq<real> -> real, start: seq<real>, p: seq<real>, q: seq<real>)
    requires Rolls(predict, start, p) && Rolls(predict, start, q) && |p| <= |q|
    ensures p == q[..|p|]
  {
    RollsPrefixAgree(predict, start, p, q, |p|);
    assert p == p[..|p|];
  }

  /** Once `|start|` rounds have passed, the window holds predictions only. */
  lemma WindowOfPredictions(start: seq<real>, preds: seq<real>, j: nat)
    requires |start| <= j <= |preds|
    ensures (start + preds)[j..j + |start|] == preds[j - |start|..j]
  {
  }
}

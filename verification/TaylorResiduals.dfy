/** The residual analyser's two Taylor predictors, over real scalars in place of tensors. */
module TaylorResiduals {
  import opened Common

  function Linear(dR: real, elapsed: nat): real {
    dR * elapsed as real
  }

  function Curved(d2R: real, elapsed: nat): real {
    d2R * (elapsed * elapsed) as real / 2.0
  }

  /** Predict sample `step` from the start of the sequence. */
  function ComputeTaylorApproximation(residuals: seq<real>, step: nat, order: nat, window: nat): Option<real> {
    if step < window + 1 || |residuals| <= step then None
    else if order == 0 then Some(residuals[0])
    else if 1 >= |residuals| then Some(residuals[0])
    else
      var dR := residuals[1] - residuals[0];
      if order == 1 then Some(residuals[0] + Linear(dR, step))
      else if 2 >= |residuals| then Some(residuals[0] + Linear(dR, step))
      else
        var d2R := (residuals[2] - residuals[1]) - (residuals[1] - residuals[0]);
        if order == 2 then Some(residuals[0] + Linear(dR, step) + Curved(d2R, step))
        else None
  }

  /** Predict `elapsed` steps after the first of the reference samples. */
  function PredictFromReference(reference: seq<real>, order: nat, elapsed: nat): Option<real> {
    if reference == [] then None
    else if order == 0 then Some(reference[0])
    else if |reference| < 2 then Some(reference[0])
    else
      var dR := reference[1] - reference[0];
      if order == 1 then Some(reference[0] + Linear(dR, elapsed))
      else if |reference| < 3 then Some(reference[0] + Linear(dR, elapsed))
      else
        var d2R := (reference[2] - reference[1]) - (reference[1] - reference[0]);
        if order == 2 then Some(reference[0] + Linear(dR, elapsed) + Curved(d2R, elapsed))
        else None
  }

  // ----- agreement and leakage

  /** What the analyser asks of the first predictor. */
  function FromStart(residuals: seq<real>, order: nat, window: nat): Option<real> {
    ComputeTaylorApproximation(residuals, window + 1, order, window)
  }

  /** The second predictor on the same reference samples. */
  function FromReference(residuals: seq<real>, order: nat, window: nat): Option<real>
    requires |residuals| > window
  {
    PredictFromReference(residuals[..window + 1], order, window + 1)
  }

  /** Residual sequences that the predicted sample alone tells apart. */
  ghost predicate SameBefore(a: seq<real>, b: seq<real>, window: nat) {
    |a| == |b| > window + 1 && a[..window + 1] == b[..window + 1]
  }

  /** The two predictors agree on every sequence exactly when the order does not exceed the window. */
  lemma PredictorsAgree(order: nat, window: nat)
    requires order <= 2
    ensures (forall residuals :: |residuals| > window + 1 ==>
                                   FromStart(residuals, order, window) == FromReference(residuals, order, window))
            <==> order <= window
  {
    if order <= window {
      forall residuals: seq<real> | |residuals| > window + 1
        ensures FromStart(residuals, order, window) == FromReference(residuals, order, window)
      {
        var reference := residuals[..window + 1];
        assert reference[0] == residuals[0];
        assert order >= 1 ==> reference[1] == residuals[1];
        assert order >= 2 ==> reference[2] == residuals[2];
      }
    } else {
      var spike := Spike(window);
      assert |spike| > window + 1;
      assert FromStart(spike, order, window) != FromReference(spike, order, window);
    }
  }

  /** All zero but for the sample to be predicted. */
  function Spike(window: nat): (r: seq<real>)
    ensures |r| == window + 2 && r[window + 1] == 1.0 && forall k :: 0 <= k <= window ==> r[k] == 0.0
  {
    seq(window + 2, k => if k == window + 1 then 1.0 else 0.0)
  }

  /** The first predictor is a prediction, that is, independent of the predicted sample and all later
      ones, exactly when the order does not exceed the window. */
  lemma NoLeakage(order: nat, window: nat)
    requires order <= 2
    ensures (forall a, b :: SameBefore(a, b, window) ==> FromStart(a, order, window) == FromStart(b, order, window))
            <==> order <= window
  {
    if order <= window {
      forall a, b | SameBefore(a, b, window)
        ensures FromStart(a, order, window) == FromStart(b, order, window)
      {
        assert forall k :: 0 <= k <= window ==> a[k] == a[..window + 1][k] && b[k] == b[..window + 1][k];
        assert a[0] == b[0] && (order >= 1 ==> a[1] == b[1]) && (order >= 2 ==> a[2] == b[2]);
      }
    } else {
      var a := Spike(window);
      var b := seq(window + 2, _ => 0.0);
      assert a[..window + 1] == b[..window + 1];
      assert SameBefore(a, b, window);
      assert FromStart(a, order, window) != FromStart(b, order, window);
    }
  }

  /** With fewer samples than the order needs, the second predictor falls back to the highest order
      they allow: the one sample, or the line through two. */
  lemma ShortReference(reference: seq<real>, order: nat, elapsed: nat)
    requires order <= 2
    ensures reference == [] ==> PredictFromReference(reference, order, elapsed) == None
    ensures |reference| == 1 ==> PredictFromReference(reference, order, elapsed) == Some(reference[0])
    ensures |reference| == 2 && order == 2 ==>
              PredictFromReference(reference, order, elapsed)
              == Some(reference[0] + (reference[1] - reference[0]) * elapsed as real)
  {
  }

  /** What the first predictor makes of the samples it should not read: order 1 with window 0 returns
      the very sample to be predicted, order 2 with window 1 counts that sample twice, and order 2 with
      window 0 reads one sample beyond it if there is one. */
  lemma WhatLeaks(residuals: seq<real>)
    ensures |residuals| >= 2 ==> FromStart(residuals, 1, 0) == Some(residuals[1])
    ensures |residuals| >= 3 ==>
              FromStart(residuals, 2, 1) == Some(residuals[0] - 2.0 * residuals[1] + 2.0 * residuals[2])
    ensures |residuals| == 2 ==> FromStart(residuals, 2, 0) == Some(residuals[1])
    ensures |residuals| >= 3 ==>
              FromStart(residuals, 2, 0)
              == Some(residuals[1] + (residuals[2] - 2.0 * residuals[1] + residuals[0]) / 2.0)
  {
    if |residuals| >= 3 {
      var d := residuals[1] - residuals[0];
      var d2 := (residuals[2] - residuals[1]) - (residuals[1] - residuals[0]);
      OneStep(d, d2);
      TwoSteps(d, d2);
    }
  }

  lemma OneStep(d: real, d2: real)
    ensures Linear(d, 1) == d && Curved(d2, 1) == d2 / 2.0
  {
  }

  lemma TwoSteps(d: real, d2: real)
    ensures Linear(d, 2) == 2.0 * d && Curved(d2, 2) == 2.0 * d2
  {
  }

  // ----- exactness

  ghost predicate Quadratic(residuals: seq<real>, a: real, b: real, c: real) {
    forall k :: 0 <= k < |residuals| ==> residuals[k] == a + b * k as real + c * (k * k) as real
  }

  /** How far orders 0, 1 and 2 fall short after `t` steps from position `start`. */
  function ConstantShortfall(b: real, c: real, start: nat, t: nat): real {
    b * t as real + c * (t as real * (2.0 * start as real + t as real))
  }

  function LinearShortfall(c: real, t: nat): real {
    c * (t as real * (t as real - 1.0))
  }

  function QuadraticShortfall(c: real, t: nat): real {
    -(c * t as real)
  }

  /** On `a + b k + c k^2`, from any reference start: order 0 misses the whole change, order 1
      misses `c t (t - 1)` and order 2 overshoots by `c t`, with `t` the steps ahead. */
  lemma QuadraticErrors(residuals: seq<real>, a: real, b: real, c: real, start: nat, window: nat)
    requires Quadratic(residuals, a, b, c) && window >= 2 && start + window + 1 < |residuals|
    ensures
      var reference := residuals[start..start + window + 1];
      var t := window + 1;
      var actual := residuals[start + window + 1];
      && PredictFromReference(reference, 0, t) == Some(actual - ConstantShortfall(b, c, start, t))
      && PredictFromReference(reference, 1, t) == Some(actual - LinearShortfall(c, t))
      && PredictFromReference(reference, 2, t) == Some(actual - QuadraticShortfall(c, t))
  {
    var reference := residuals[start..start + window + 1];
    assert reference[0] == residuals[start] && reference[1] == residuals[start + 1];
    assert reference[2] == residuals[start + 2];
    QuadraticValues(residuals, a, b, c, start, window + 1);
    var t, actual := window + 1, residuals[start + window + 1];
    PredictionsAre(reference, t, actual - ConstantShortfall(b, c, start, t), actual - LinearShortfall(c, t),
                   actual - QuadraticShortfall(c, t));
  }

  /** So order 0 is exact exactly on sequences that do not change, order 1 on straight ones, and
      order 2 on no curved one. */
  lemma WhenExact(b: real, c: real, start: nat, t: nat)
    requires t >= 2
    ensures LinearShortfall(c, t) == 0.0 <==> c == 0.0
    ensures QuadraticShortfall(c, t) == 0.0 <==> c == 0.0
    ensures c == 0.0 ==> (ConstantShortfall(b, c, start, t) == 0.0 <==> b == 0.0)
  {
    var x := t as real;
    NonZero(c, x * (x - 1.0));
    NonZero(c, x);
    NonZero(b, x);
  }

  lemma NonZero(c: real, x: real)
    requires x != 0.0
    ensures c * x == 0.0 <==> c == 0.0
  {
    if c * x == 0.0 {
      assert c == c * x / x;
    }
  }

  lemma PredictionsAre(reference: seq<real>, elapsed: nat, p0: real, p1: real, p2: real)
    requires |reference| >= 3
    requires reference[0] == p0
    requires reference[0] + Linear(reference[1] - reference[0], elapsed) == p1
    requires reference[0] + Linear(reference[1] - reference[0], elapsed)
             + Curved((reference[2] - reference[1]) - (reference[1] - reference[0]), elapsed) == p2
    ensures PredictFromReference(reference, 0, elapsed) == Some(p0)
    ensures PredictFromReference(reference, 1, elapsed) == Some(p1)
    ensures PredictFromReference(reference, 2, elapsed) == Some(p2)
  {
  }

  lemma Terms(d: real, t: nat)
    ensures Linear(d, t) == d * t as real
    ensures Curved(d, t) == d * (t as real * t as real) / 2.0
  {
    Square(t);
  }

  lemma QuadraticValues(residuals: seq<real>, a: real, b: real, c: real, start: nat, steps: nat)
    requires Quadratic(residuals, a, b, c) && steps >= 2 && start + steps < |residuals|
    ensures
      var r0, r1, r2, rt := residuals[start], residuals[start + 1], residuals[start + 2], residuals[start + steps];
      && r0 == rt - ConstantShortfall(b, c, start, steps)
      && r0 + Linear(r1 - r0, steps) == rt - LinearShortfall(c, steps)
      && r0 + Linear(r1 - r0, steps) + Curved((r2 - r1) - (r1 - r0), steps) == rt - QuadraticShortfall(c, steps)
  {
    QuadraticAt(residuals, a, b, c, start, 0);
    QuadraticAt(residuals, a, b, c, start, 1);
    QuadraticAt(residuals, a, b, c, start, 2);
    QuadraticAt(residuals, a, b, c, start, steps);
    FourValues(residuals[start], residuals[start + 1], residuals[start + 2], residuals[start + steps],
               a, b, c, start, steps);
  }

  /** The value of the quadratic `k` steps after position `start`. */
  function ValueAt(a: real, b: real, c: real, start: nat, k: nat): real {
    a + b * (start as real + k as real) + c * ((start as real + k as real) * (start as real + k as real))
  }

  lemma FourValues(r0: real, r1: real, r2: real, rt: real, a: real, b: real, c: real, start: nat, steps: nat)
    requires r0 == ValueAt(a, b, c, start, 0) && r1 == ValueAt(a, b, c, start, 1)
    requires r2 == ValueAt(a, b, c, start, 2) && rt == ValueAt(a, b, c, start, steps)
    ensures r0 == rt - ConstantShortfall(b, c, start, steps)
    ensures r0 + Linear(r1 - r0, steps) == rt - LinearShortfall(c, steps)
    ensures r0 + Linear(r1 - r0, steps) + Curved((r2 - r1) - (r1 - r0), steps) == rt - QuadraticShortfall(c, steps)
  {
    FirstOrder(r0, r1, rt, a, b, c, start as real, steps as real);
    SecondOrder(r0, r1, r2, rt, a, b, c, start as real, steps as real);
    Terms(r1 - r0, steps);
    Terms((r2 - r1) - (r1 - r0), steps);
  }

  lemma QuadraticAt(residuals: seq<real>, a: real, b: real, c: real, start: nat, k: nat)
    requires Quadratic(residuals, a, b, c) && start + k < |residuals|
    ensures residuals[start + k] == ValueAt(a, b, c, start, k)
  {
    var n := start + k;
    Square(n);
    assert n as real == start as real + k as real;
  }

  lemma Square(n: nat)
    ensures (n * n) as real == n as real * n as real
  {
  }

  lemma FirstOrder(r0: real, r1: real, rt: real, a: real, b: real, c: real, s: real, t: real)
    requires r0 == a + b * (s + 0.0) + c * ((s + 0.0) * (s + 0.0))
    requires r1 == a + b * (s + 1.0) + c * ((s + 1.0) * (s + 1.0))
    requires rt == a + b * (s + t) + c * ((s + t) * (s + t))
    ensures r0 == rt - (b * t + c * (t * (2.0 * s + t)))
    ensures r0 + (r1 - r0) * t == rt - c * (t * (t - 1.0))
  {
    assert (s + t) * (s + t) == s * s + t * (2.0 * s + t);
    assert (s + 1.0) * (s + 1.0) == s * s + 2.0 * s + 1.0;
    assert r1 - r0 == b + c * (2.0 * s + 1.0);
  }

  lemma SecondOrder(r0: real, r1: real, r2: real, rt: real, a: real, b: real, c: real, s: real, t: real)
    requires r0 == a + b * (s + 0.0) + c * ((s + 0.0) * (s + 0.0))
    requires r1 == a + b * (s + 1.0) + c * ((s + 1.0) * (s + 1.0))
    requires r2 == a + b * (s + 2.0) + c * ((s + 2.0) * (s + 2.0))
    requires rt == a + b * (s + t) + c * ((s + t) * (s + t))
    ensures r0 + (r1 - r0) * t + ((r2 - r1) - (r1 - r0)) * (t * t) / 2.0 == rt + c * t
  {
    FirstOrder(r0, r1, rt, a, b, c, s, t);
    assert (s + 1.0) * (s + 1.0) == s * s + 2.0 * s + 1.0;
    assert (s + 2.0) * (s + 2.0) == s * s + 4.0 * s + 4.0;
    assert (r2 - r1) - (r1 - r0) == 2.0 * c;
    assert t * (t - 1.0) == t * t - t;
  }

  /** With window 1 the order-1 reference is complete too. */
  lemma AffineExact(residuals: seq<real>, a: real, b: real, start: nat, window: nat)
    requires Quadratic(residuals, a, b, 0.0) && window >= 1 && start + window + 1 < |residuals|
    ensures PredictFromReference(residuals[start..start + window + 1], 1, window + 1)
            == Some(residuals[start + window + 1])
  {
    var reference := residuals[start..start + window + 1];
    var t := window + 1;
    assert reference[0] == residuals[start] && reference[1] == residuals[start + 1];
    QuadraticAt(residuals, a, b, 0.0, start, 0);
    QuadraticAt(residuals, a, b, 0.0, start, 1);
    QuadraticAt(residuals, a, b, 0.0, start, t);
    Terms(reference[1] - reference[0], t);
    FirstOrder(reference[0], reference[1], residuals[start + t], a, b, 0.0, start as real, t as real);
    assert reference[0] + Linear(reference[1] - reference[0], t) == residuals[start + t];
  }

  // ----- collecting the errors

  function Magnitude(x: real): real {
    if x < 0.0 then -x else x
  }

  function RelativeError(predicted: real, actual: real): real {
    Magnitude(predicted - actual) / (Magnitude(actual) + 0.00000001)
  }

  /** The sliding windows' start positions: every `window + 1` positions from `from`. */
  function Starts(from: nat, n: nat, window: nat): (starts: seq<nat>)
    ensures forall i :: 0 <= i < |starts| ==> from <= starts[i] < n - 1
    decreases n - from
  {
    if from >= n - 1 then [] else [from] + Starts(from + window + 1, n, window)
  }

  /** The error is the distance, relative to the actual magnitude with a margin of 1e-8. */
  lemma RelativeErrorIs(predicted: real, actual: real)
    ensures
      var distance := if predicted >= actual then predicted - actual else actual - predicted;
      var size := if actual >= 0.0 then actual else -actual;
      RelativeError(predicted, actual) * (size + 0.00000001) == distance
  {
    var size := Magnitude(actual) + 0.00000001;
    DivideBack(Magnitude(predicted - actual), size);
  }

  lemma DivideBack(x: real, y: real)
    requires y > 0.0
    ensures x / y * y == x
  {
  }

  /** The windows start at `from` and every `window + 1` positions after it, as far as there is a
      sample to predict. */
  lemma {:induction false} StartsAt(from: nat, n: nat, window: nat, i: nat)
    ensures i < |Starts(from, n, window)| <==> from + i * (window + 1) < n - 1
    ensures i < |Starts(from, n, window)| ==> Starts(from, n, window)[i] == from + i * (window + 1)
    decreases i
  {
    var step := window + 1;
    if i > 0 {
      OneMore(i - 1, step);
      assert (i - 1) * step >= 0;
      if from < n - 1 {
        StartsAt(from + step, n, window, i - 1);
      }
    }
  }

  /** The error of the sliding prediction that starts at `s`. */
  function SlidingError(residuals: seq<real>, order: nat, window: nat, s: nat): real
    requires order <= 2 && window <= s && s + 1 < |residuals|
  {
    var reference := residuals[s - window..s + 1];
    RelativeError(PredictFromReference(reference, order, window + 1).value, residuals[s + 1])
  }

  predicate InRange(residuals: seq<real>, window: nat, starts: seq<nat>) {
    forall i :: 0 <= i < |starts| ==> window <= starts[i] && starts[i] + 1 < |residuals|
  }

  function SlidingErrors(residuals: seq<real>, order: nat, window: nat, starts: seq<nat>): (errors: seq<real>)
    requires order <= 2 && InRange(residuals, window, starts)
    ensures |errors| == |starts|
    ensures forall i :: 0 <= i < |errors| ==> errors[i] == SlidingError(residuals, order, window, starts[i])
  {
    if starts == [] then []
    else
      SlidingErrors(residuals, order, window, starts[..|starts| - 1])
      + [SlidingError(residuals, order, window, starts[|starts| - 1])]
  }

  class ResidualAnalyzer {
    var cond: seq<real>
    var uncond: seq<real>

    constructor ()
      ensures cond == [] && uncond == []
    {
      cond, uncond := [], [];
    }

    method Store(output: real, input: real, isCond: bool)
      modifies this
      ensures cond == if isCond then old(cond) + [output - input] else old(cond)
      ensures uncond == if isCond then old(uncond) else old(uncond) + [output - input]
    {
      if isCond {
        cond := cond + [output - input];
      } else {
        uncond := uncond + [output - input];
      }
    }

    method ComputeApproximationErrors(window: nat)
      returns (ofCond: Option<seq<seq<real>>>, ofUncond: Option<seq<seq<real>>>)
      ensures ofCond.Some? <==> |cond| >= window + 2
      ensures ofCond.Some? ==> CollectedErrors(cond, window, ofCond.value)
      ensures ofUncond.Some? <==> |uncond| >= window + 2
      ensures ofUncond.Some? ==> CollectedErrors(uncond, window, ofUncond.value)
    {
      ofCond := PathErrors(cond, window);
      ofUncond := PathErrors(uncond, window);
    }
  }

  function FirstErrors(residuals: seq<real>, order: nat, window: nat): seq<real>
    requires order <= 2 && |residuals| >= window + 2
  {
    [RelativeError(FromStart(residuals, order, window).value, residuals[window + 1])]
  }

  /** The errors of one order: first the prediction from the start, then one per sliding window. */
  function ErrorsOf(residuals: seq<real>, order: nat, window: nat, starts: seq<nat>): seq<real>
    requires order <= 2 && |residuals| >= window + 2 && InRange(residuals, window, starts)
  {
    FirstErrors(residuals, order, window) + SlidingErrors(residuals, order, window, starts)
  }

  /** The error lists of all three orders after the sliding windows at `starts`. */
  ghost predicate ErrorsAt(residuals: seq<real>, window: nat, errors: seq<seq<real>>, starts: seq<nat>) {
    && |errors| == 3 && |residuals| >= window + 2 && InRange(residuals, window, starts)
    && (forall order :: 0 <= order <= 2 ==> errors[order] == ErrorsOf(residuals, order, window, starts))
  }

  ghost predicate CollectedErrors(residuals: seq<real>, window: nat, errors: seq<seq<real>>) {
    ErrorsAt(residuals, window, errors, Starts(window + 2, |residuals|, window))
  }

  /** The first prediction, for every order. */
  method ErrorsFromStart(residuals: seq<real>, window: nat) returns (errors: seq<seq<real>>)
    requires |residuals| >= window + 2
    ensures ErrorsAt(residuals, window, errors, [])
  {
    errors := [[], [], []];
    for order := 0 to 3
      invariant |errors| == 3
      invariant forall o :: 0 <= o < order ==> errors[o] == FirstErrors(residuals, o, window)
      invariant forall o :: order <= o < 3 ==> errors[o] == []
    {
      var predicted := ComputeTaylorApproximation(residuals, window + 1, order, window).value;
      errors := errors[order := errors[order] + [RelativeError(predicted, residuals[window + 1])]];
    }
  }

  /** One path of the analysis; `None` when there are too few samples. */
  method PathErrors(residuals: seq<real>, window: nat) returns (r: Option<seq<seq<real>>>)
    ensures r.Some? <==> |residuals| >= window + 2
    ensures r.Some? ==> CollectedErrors(residuals, window, r.value)
  {
    var n := |residuals|;
    if n < window + 2 {
      return None;
    }
    var errors := ErrorsFromStart(residuals, window);
    var start := window + 2;
    ghost var seen: seq<nat> := [];
    while start < n - 1
      invariant window + 2 <= start
      invariant seen + Starts(start, n, window) == Starts(window + 2, n, window)
      invariant ErrorsAt(residuals, window, errors, seen)
      decreases n - start
    {
      errors := SlideOne(residuals, window, start, errors, seen);
      OneMoreStart(seen, start, n, window);
      seen := seen + [start];
      start := start + window + 1;
    }
    assert seen == Starts(window + 2, n, window);
    return Some(errors);
  }

  lemma OneMoreStart(seen: seq<nat>, start: nat, n: nat, window: nat)
    requires start < n - 1
    ensures seen + [start] + Starts(start + window + 1, n, window) == seen + Starts(start, n, window)
  {
  }

  /** One pass of the sliding loop: one more error for every order. */
  method SlideOne(residuals: seq<real>, window: nat, start: nat, before: seq<seq<real>>, ghost seen: seq<nat>)
    returns (errors: seq<seq<real>>)
    requires window <= start && start + 1 < |residuals| && ErrorsAt(residuals, window, before, seen)
    ensures ErrorsAt(residuals, window, errors, seen + [start])
  {
    var actual := residuals[start + 1];
    var reference := residuals[start - window..start + 1];
    errors := before;
    for order := 0 to 3
      invariant |errors| == 3
      invariant forall o :: 0 <= o < order ==> errors[o] == before[o] + [SlidingError(residuals, o, window, start)]
      invariant forall o :: order <= o < 3 ==> errors[o] == before[o]
    {
      var predicted := PredictFromReference(reference, order, window + 1).value;
      errors := errors[order := errors[order] + [RelativeError(predicted, actual)]];
    }
    SlidingGrows(residuals, window, seen, start);
  }

  lemma SlidingGrows(residuals: seq<real>, window: nat, seen: seq<nat>, s: nat)
    requires InRange(residuals, window, seen) && window <= s && s + 1 < |residuals|
    ensures InRange(residuals, window, seen + [s])
    ensures forall order: nat :: order <= 2 ==>
              SlidingErrors(residuals, order, window, seen + [s])
              == SlidingErrors(residuals, order, window, seen) + [SlidingError(residuals, order, window, s)]
  {
    assert (seen + [s])[..|seen|] == seen;
  }

  /** All orders collect equally many errors, and on affine sequences every first-order one is zero. */
  lemma ErrorsOnAffine(residuals: seq<real>, window: nat, errors: seq<seq<real>>, a: real, b: real)
    requires CollectedErrors(residuals, window, errors)
    ensures |errors[0]| == |errors[1]| == |errors[2]| == 1 + |Starts(window + 2, |residuals|, window)|
    ensures window >= 1 && Quadratic(residuals, a, b, 0.0) ==>
              forall i :: 0 <= i < |errors[1]| ==> errors[1][i] == 0.0
  {
    var starts := Starts(window + 2, |residuals|, window);
    if window >= 1 && Quadratic(residuals, a, b, 0.0) {
      FirstErrorVanishes(residuals, window, a, b);
      SlidingErrorsVanish(residuals, window, starts, a, b);
      assert errors[1] == FirstErrors(residuals, 1, window) + SlidingErrors(residuals, 1, window, starts);
    }
  }

  lemma SlidingErrorsVanish(residuals: seq<real>, window: nat, starts: seq<nat>, a: real, b: real)
    requires window >= 1 && Quadratic(residuals, a, b, 0.0) && InRange(residuals, window, starts)
    ensures forall i :: 0 <= i < |starts| ==> SlidingErrors(residuals, 1, window, starts)[i] == 0.0
  {
    forall i | 0 <= i < |starts| ensures SlidingError(residuals, 1, window, starts[i]) == 0.0 {
      AffineExact(residuals, a, b, starts[i] - window, window);
      NoError(residuals[starts[i] + 1]);
    }
  }

  lemma FirstErrorVanishes(residuals: seq<real>, window: nat, a: real, b: real)
    requires window >= 1 && |residuals| >= window + 2 && Quadratic(residuals, a, b, 0.0)
    ensures FirstErrors(residuals, 1, window) == [0.0]
  {
    PredictorsAgree(1, window);
    AffineExact(residuals, a, b, 0, window);
    assert residuals[0..window + 1] == residuals[..window + 1];
    NoError(residuals[window + 1]);
  }

  lemma NoError(actual: real)
    ensures RelativeError(actual, actual) == 0.0
  {
  }
}

// The sparse gradient update that puts off applying the full gradient to coordinates
// a sample does not touch, against the update that applies it everywhere at once.
module LazySvrg {

  datatype Field = Field(fea: nat, val: real)

  datatype Sample = Sample(x: seq<Field>, y: real)

  /** A sample names each of its features once. */
  predicate WellFormed(s: Sample, n: nat) {
    && (forall j :: 0 <= j < |s.x| ==> s.x[j].fea < n)
    && forall j, k :: 0 <= j < k < |s.x| ==> s.x[j].fea != s.x[k].fea
  }

  /** Negative labels count as zero. */
  function Label(y: real): real { if y < 0.0 then 0.0 else y }

  // -------------------------------------------------------------- dense update

  function Dot(w: seq<real>, x: seq<Field>): real
    requires forall j :: 0 <= j < |x| ==> x[j].fea < |w|
  {
    if x == [] then 0.0
    else
      var n := |x| - 1;
      Dot(w, x[..n]) + w[x[n].fea] * x[n].val
  }

  /** The value of feature i. */
  function Value(x: seq<Field>, i: nat): real {
    if x == [] then 0.0
    else
      var n := |x| - 1;
      Value(x[..n], i) + (if x[n].fea == i then x[n].val else 0.0)
  }

  /** How much the gradient at a sample differs between the current and the old
      weights, in coordinate i. */
  function Difference(v: real, p: real, oldP: real, y: real): real {
    v * (p - y) - v * (oldP - y)
  }

  /** The dense update of one coordinate. */
  function Target(alpha: real, w: real, v: real, p: real, oldP: real, y: real, u: real): real {
    w - alpha * (Difference(v, p, oldP, y) + u)
  }

  /** One step in every coordinate, with the full gradient u. */
  function DenseStep(sigmoid: real -> real, alpha: real, w: seq<real>, wOld: seq<real>, u: seq<real>, s: Sample): (r: seq<real>)
    requires |w| == |wOld| == |u| && WellFormed(s, |w|)
    ensures |r| == |w|
  {
    var p, oldP := sigmoid(Dot(w, s.x)), sigmoid(Dot(wOld, s.x));
    seq(|w|, i requires 0 <= i < |w| => Target(alpha, w[i], Value(s.x, i), p, oldP, Label(s.y), u[i]))
  }

  function DenseRun(sigmoid: real -> real, alpha: real, w: seq<real>, wOld: seq<real>, u: seq<real>, samples: seq<Sample>): (r: seq<real>)
    requires |w| == |wOld| == |u| && forall k :: 0 <= k < |samples| ==> WellFormed(samples[k], |w|)
    ensures |r| == |w|
  {
    if samples == [] then w
    else
      var n := |samples| - 1;
      DenseStep(sigmoid, alpha, DenseRun(sigmoid, alpha, w, wOld, u, samples[..n]), wOld, u, samples[n])
  }

  // ------------------------------------------------------------------ algebra

  /** What k steps of the full gradient alone add up to. */
  function Lag(alpha: real, k: int, u: real): real {
    alpha * k as real * u
  }

  lemma LagZero(alpha: real, u: real)
    ensures Lag(alpha, 0, u) == 0.0
  {
  }

  lemma LagStep(alpha: real, k: int, u: real)
    ensures Lag(alpha, k + 1, u) == Lag(alpha, k, u) + alpha * u
  {
    var a, b := alpha * k as real, alpha;
    assert alpha * (k + 1) as real == a + b;
    assert (a + b) * u == a * u + b * u;
  }

  /** The change the sparse loop makes to a coordinate: the difference of the two
      gradients, and the full gradient for each step since the last change. */
  function Change(alpha: real, d: real, oldD: real, k: int, u: real): real {
    (-1.0) * alpha * (d - oldD + k as real * u)
  }

  lemma ChangeIs(alpha: real, d: real, oldD: real, k: int, u: real)
    ensures Change(alpha, d, oldD, k, u) == -(alpha * (d - oldD)) - Lag(alpha, k, u)
  {
    var e := d - oldD;
    assert alpha * (e + k as real * u) == alpha * e + alpha * (k as real * u);
    assert alpha * (k as real * u) == alpha * k as real * u;
  }

  lemma Spread(alpha: real, e: real, u: real)
    ensures alpha * (e + u) == alpha * e + alpha * u
  {
  }

  lemma {:induction false} ValueOf(x: seq<Field>, j: nat, i: nat)
    requires j < |x| && forall a, b :: 0 <= a < b < |x| ==> x[a].fea != x[b].fea
    requires x[j].fea == i
    ensures Value(x, i) == x[j].val
  {
    var n := |x| - 1;
    if j < n { ValueOf(x[..n], j, i); } else { NoValue(x[..n], i); }
  }

  lemma {:induction false} NoValue(x: seq<Field>, i: nat)
    requires forall j :: 0 <= j < |x| ==> x[j].fea != i
    ensures Value(x, i) == 0.0
  {
    if x != [] { NoValue(x[..|x| - 1], i); }
  }

  lemma NoDifference(p: real, oldP: real, y: real)
    ensures Difference(0.0, p, oldP, y) == 0.0
  {
  }

  // --------------------------------------------------------------- lazy update

  /** The weights the lazy ones stand for at step t. */
  function Caught(alpha: real, w: real, t: int, c: int, u: real): real {
    w - Lag(alpha, t - c, u)
  }

  ghost predicate Sizes(n: nat, wOld: seq<real>, u: seq<real>, w: seq<real>, delta: seq<real>, c: seq<int>, cw: seq<int>) {
    |wOld| == |u| == |w| == |delta| == |c| == |cw| == n
  }

  /** Between two samples: caught up to step t, every coordinate is the dense one, and
      the recorded change is that of the lazy weights. */
  ghost predicate InStep(alpha: real, w0: seq<real>, dense: seq<real>, u: seq<real>, w: seq<real>, delta: seq<real>, c: seq<int>, cw: seq<int>, t: int)
    requires |w0| == |dense| == |u| == |w| == |delta| == |c| == |cw|
  {
    forall i :: 0 <= i < |w| ==>
      cw[i] == c[i] <= t && delta[i] == w[i] - w0[i] && dense[i] == Caught(alpha, w[i], t, c[i], u[i])
  }

  /** A coordinate brought up to the dense update of step t + 1. */
  lemma CatchUp(alpha: real, w: real, dense: real, t: int, c: int, u: real, v: real, p: real, oldP: real, y: real)
    requires dense == Caught(alpha, w, t, c, u)
    ensures Caught(alpha, w + Change(alpha, v * (p - y), v * (oldP - y), t + 1 - c, u), t + 1, t + 1, u)
         == Target(alpha, dense, v, p, oldP, y, u)
  {
    CatchUpBy(alpha, w, t, c, u, v * (p - y), v * (oldP - y));
  }

  lemma CatchUpBy(alpha: real, w: real, t: int, c: int, u: real, d: real, oldD: real)
    ensures Caught(alpha, w + Change(alpha, d, oldD, t + 1 - c, u), t + 1, t + 1, u)
         == Caught(alpha, w, t, c, u) - alpha * (d - oldD + u)
  {
    hide Lag, Change;
    var e := d - oldD;
    ChangeIs(alpha, d, oldD, t + 1 - c, u);
    LagStep(alpha, t - c, u);
    assert t - c + 1 == t + 1 - c;
    LagZero(alpha, u);
    Spread(alpha, e, u);
  }

  /** A coordinate the sample does not touch. */
  lemma StayLazy(alpha: real, w: real, dense: real, t: int, c: int, u: real, p: real, oldP: real, y: real)
    requires dense == Caught(alpha, w, t, c, u)
    ensures Caught(alpha, w, t + 1, c, u) == Target(alpha, dense, 0.0, p, oldP, y, u)
  {
    hide Lag;
    NoDifference(p, oldP, y);
    LagStep(alpha, t - c, u);
  }

  /** The prediction with the coordinates of the sample caught up on the way. */
  method Predict(alpha: real, w: seq<real>, u: seq<real>, x: seq<Field>, c: seq<int>, t: int, ghost dense: seq<real>)
    returns (dot: real, cw: seq<int>)
    requires |w| == |u| == |c| == |dense| && WellFormed(Sample(x, 0.0), |w|)
    requires forall i :: 0 <= i < |w| ==> dense[i] == Caught(alpha, w[i], t, c[i], u[i])
    ensures dot == Dot(dense, x) && |cw| == |c|
    ensures forall i :: 0 <= i < |c| && (forall j :: 0 <= j < |x| ==> x[j].fea != i) ==> cw[i] == c[i]
  {
    hide Lag;
    dot, cw := 0.0, c;
    for j := 0 to |x|
      invariant |cw| == |c| && dot == Dot(dense, x[..j])
      invariant forall k :: j <= k < |x| ==> cw[x[k].fea] == c[x[k].fea]
      invariant forall i :: 0 <= i < |c| && (forall k :: 0 <= k < j ==> x[k].fea != i) ==> cw[i] == c[i]
    {
      var fea := x[j].fea;
      SameProduct(w[fea] - Lag(alpha, t - cw[fea], u[fea]), dense[fea], x[j].val);
      dot := dot + (w[fea] - Lag(alpha, t - cw[fea], u[fea])) * x[j].val;
      cw := cw[fea := t];
      DotNext(dense, x, j);
    }
    assert x[..|x|] == x;
  }

  lemma SameProduct(a: real, b: real, c: real)
    requires a == b
    ensures a * c == b * c
  {
  }

  lemma DotNext(w: seq<real>, x: seq<Field>, j: nat)
    requires j < |x| && forall k :: 0 <= k < |x| ==> x[k].fea < |w|
    ensures Dot(w, x[..j + 1]) == Dot(w, x[..j]) + w[x[j].fea] * x[j].val
  {
    assert x[..j + 1][..j] == x[..j];
  }

  method DotOf(w: seq<real>, x: seq<Field>) returns (dot: real)
    requires forall j :: 0 <= j < |x| ==> x[j].fea < |w|
    ensures dot == Dot(w, x)
  {
    dot := 0.0;
    for j := 0 to |x|
      invariant dot == Dot(w, x[..j])
    {
      dot := dot + w[x[j].fea] * x[j].val;
      assert x[..j + 1][..j] == x[..j];
    }
    assert x[..|x|] == x;
  }

  /** Where one coordinate stands while the fields of a sample are processed. */
  ghost predicate Halfway(alpha: real, done: bool, w0: real, dense: real, dense': real, u: real, w: real, delta: real, c: int, cw: int, t: int) {
    && delta == w - w0
    && if done then c == cw == t + 1 && dense' == Caught(alpha, w, t + 1, t + 1, u)
       else c <= t && dense == Caught(alpha, w, t, c, u)
  }

  /** The change at the sample's own coordinates. */
  method Process(alpha: real, u: seq<real>, s: Sample, p: real, oldP: real, t: int, w: seq<real>, delta: seq<real>, c: seq<int>, cw: seq<int>,
                 ghost w0: seq<real>, ghost dense: seq<real>)
    returns (w': seq<real>, delta': seq<real>, c': seq<int>, cw': seq<int>)
    requires |u| == |w| == |delta| == |c| == |cw| == |w0| == |dense| && WellFormed(s, |w|)
    requires forall i :: 0 <= i < |w| ==> c[i] <= t && delta[i] == w[i] - w0[i] && dense[i] == Caught(alpha, w[i], t, c[i], u[i])
    ensures |w'| == |delta'| == |c'| == |cw'| == |w|
    ensures forall i :: 0 <= i < |w| && (forall j :: 0 <= j < |s.x| ==> s.x[j].fea != i) ==>
              w'[i] == w[i] && delta'[i] == delta[i] && c'[i] == c[i] && cw'[i] == cw[i]
    ensures forall j :: 0 <= j < |s.x| ==>
              var i := s.x[j].fea;
              Halfway(alpha, true, w0[i], dense[i], Target(alpha, dense[i], s.x[j].val, p, oldP, Label(s.y), u[i]), u[i], w'[i], delta'[i], c'[i], cw'[i], t)
  {
    hide Lag, Change, Caught, Target;
    w', delta', c', cw' := w, delta, c, cw;
    var y := Label(s.y);
    for j := 0 to |s.x|
      invariant |w'| == |delta'| == |c'| == |cw'| == |w|
      invariant forall i :: 0 <= i < |w| && (forall k :: 0 <= k < j ==> s.x[k].fea != i) ==>
                  w'[i] == w[i] && delta'[i] == delta[i] && c'[i] == c[i] && cw'[i] == cw[i]
      invariant forall k :: 0 <= k < j ==>
                  var i := s.x[k].fea;
                  Halfway(alpha, true, w0[i], dense[i], Target(alpha, dense[i], s.x[k].val, p, oldP, y, u[i]), u[i], w'[i], delta'[i], c'[i], cw'[i], t)
    {
      var i, v := s.x[j].fea, s.x[j].val;
      assert w'[i] == w[i];
      CatchUp(alpha, w[i], dense[i], t, c[i], u[i], v, p, oldP, y);
      var change := Change(alpha, v * (p - y), v * (oldP - y), t + 1 - c'[i], u[i]);
      delta' := delta'[i := delta'[i] + change];
      w' := w'[i := w'[i] + change];
      c', cw' := c'[i := t + 1], cw'[i := t + 1];
    }
  }

  /** One sample. */
  method SampleStep(sigmoid: real -> real, alpha: real, wOld: seq<real>, u: seq<real>, s: Sample, t: int,
                    w: seq<real>, delta: seq<real>, c: seq<int>, cw: seq<int>, ghost w0: seq<real>, ghost dense: seq<real>)
    returns (w': seq<real>, delta': seq<real>, c': seq<int>, cw': seq<int>)
    requires |wOld| == |w0| == |dense| == |u| == |w| == |delta| == |c| == |cw| && WellFormed(s, |w|)
    requires InStep(alpha, w0, dense, u, w, delta, c, cw, t)
    ensures |w'| == |delta'| == |c'| == |cw'| == |w|
    ensures InStep(alpha, w0, DenseStep(sigmoid, alpha, dense, wOld, u, s), u, w', delta', c', cw', t + 1)
  {
    hide Caught, DenseStep, Target;
    assert cw == c;
    var dot, cwx := Predict(alpha, w, u, s.x, cw, t, dense);
    var oldDot := DotOf(wOld, s.x);
    var p, oldP := sigmoid(dot), sigmoid(oldDot);
    w', delta', c', cw' := Process(alpha, u, s, p, oldP, t, w, delta, c, cwx, w0, dense);
    forall i | 0 <= i < |w|
      ensures cw'[i] == c'[i] <= t + 1 && delta'[i] == w'[i] - w0[i]
      ensures DenseStep(sigmoid, alpha, dense, wOld, u, s)[i] == Caught(alpha, w'[i], t + 1, c'[i], u[i])
    {
      DenseAt(sigmoid, alpha, dense, wOld, u, s, i);
      if j :| 0 <= j < |s.x| && s.x[j].fea == i {
        ValueOf(s.x, j, i);
        assert Halfway(alpha, true, w0[i], dense[i], Target(alpha, dense[i], s.x[j].val, p, oldP, Label(s.y), u[i]), u[i], w'[i], delta'[i], c'[i], cw'[i], t);
      } else {
        NoValue(s.x, i);
        StayLazy(alpha, w[i], dense[i], t, c[i], u[i], p, oldP, Label(s.y));
      }
    }
  }

  lemma DenseAt(sigmoid: real -> real, alpha: real, w: seq<real>, wOld: seq<real>, u: seq<real>, s: Sample, i: nat)
    requires |w| == |wOld| == |u| && WellFormed(s, |w|) && i < |w|
    ensures DenseStep(sigmoid, alpha, w, wOld, u, s)[i] ==
            Target(alpha, w[i], Value(s.x, i), sigmoid(Dot(w, s.x)), sigmoid(Dot(wOld, s.x)), Label(s.y), u[i])
  {
  }

  /** The final sweep over all coordinates. */
  method Sweep(alpha: real, u: seq<real>, delta: seq<real>, c: seq<int>, t: int, ghost w0: seq<real>, ghost dense: seq<real>, ghost w: seq<real>, ghost cw: seq<int>)
    returns (r: seq<real>)
    requires |u| == |delta| == |c| == |w0| == |dense| == |w| == |cw|
    requires InStep(alpha, w0, dense, u, w, delta, c, cw, t)
    ensures |r| == |delta| && forall i :: 0 <= i < |r| ==> r[i] == dense[i] - w0[i]
  {
    hide Lag, Change;
    r := delta;
    for i := 0 to |c|
      invariant |r| == |delta|
      invariant forall k :: 0 <= k < i ==> r[k] == dense[k] - w0[k]
      invariant forall k :: i <= k < |r| ==> r[k] == delta[k]
    {
      LagZero(alpha, u[i]);
      if c[i] < t {
        ChangeIs(alpha, 0.0, 0.0, t - c[i], u[i]);
        Nothing(alpha);
        r := r[i := r[i] + Change(alpha, 0.0, 0.0, t - c[i], u[i])];
      }
    }
  }

  lemma Nothing(alpha: real)
    ensures alpha * (0.0 - 0.0) == 0.0
  {
  }

  method Accumulate(sigmoid: real -> real, alpha: real, numIters: nat, w: seq<real>, wOld: seq<real>, u: seq<real>, samples: seq<Sample>)
    returns (delta: seq<real>)
    requires |wOld| == |u| == |w| && forall k :: 0 <= k < |samples| ==> WellFormed(samples[k], |w|)
    ensures |delta| == |w|
    ensures var n := if numIters <= |samples| then numIters else |samples|;
            forall i :: 0 <= i < |w| ==> delta[i] == DenseRun(sigmoid, alpha, w, wOld, u, samples[..n])[i] - w[i]
  {
    hide InStep, DenseStep, WellFormed;
    var lazy := w;
    delta := seq(|w|, _ => 0.0);
    var updateCounter, updateCounterW := seq(|w|, _ => 0), seq(|w|, _ => 0);
    StartInStep(alpha, w, u, delta, updateCounter);
    var iter := 0;
    while iter < numIters && iter < |samples|
      invariant 0 <= iter <= |samples| && iter <= numIters
      invariant |lazy| == |delta| == |updateCounter| == |updateCounterW| == |w|
      invariant InStep(alpha, w, DenseRun(sigmoid, alpha, w, wOld, u, samples[..iter]), u, lazy, delta, updateCounter, updateCounterW, iter)
    {
      assert samples[..iter + 1][..iter] == samples[..iter];
      ghost var dense := DenseRun(sigmoid, alpha, w, wOld, u, samples[..iter]);
      lazy, delta, updateCounter, updateCounterW :=
        SampleStep(sigmoid, alpha, wOld, u, samples[iter], iter, lazy, delta, updateCounter, updateCounterW, w, dense);
      iter := iter + 1;
    }
    delta := Sweep(alpha, u, delta, updateCounter, iter, w, DenseRun(sigmoid, alpha, w, wOld, u, samples[..iter]), lazy, updateCounterW);
  }

  /** The worker's update: the shares that the active processes push add up to the
      change the dense update makes over the first samples, as many as there are
      iterations or samples. */
  method SgdUpdate(sigmoid: real -> real, alpha: real, numIters: nat, numActiveProcess: nat, w: seq<real>, wOld: seq<real>, u: seq<real>, samples: seq<Sample>)
    returns (delta: seq<real>)
    requires |wOld| == |u| == |w| && forall k :: 0 <= k < |samples| ==> WellFormed(samples[k], |w|)
    ensures |delta| == |w|
    ensures var n := if numIters <= |samples| then numIters else |samples|;
            var change := DenseRun(sigmoid, alpha, w, wOld, u, samples[..n]);
            forall i :: 0 <= i < |w| ==>
              && (numActiveProcess <= 1 ==> delta[i] == change[i] - w[i])
              && (numActiveProcess > 1 ==> numActiveProcess as real * delta[i] == change[i] - w[i])
  {
    hide DenseStep, WellFormed;
    delta := Accumulate(sigmoid, alpha, numIters, w, wOld, u, samples);
    if numActiveProcess > 1 {
      delta := Share(delta, numActiveProcess);
    }
  }

  lemma StartInStep(alpha: real, w: seq<real>, u: seq<real>, delta: seq<real>, c: seq<int>)
    requires |w| == |u| == |delta| == |c| && forall i :: 0 <= i < |w| ==> delta[i] == 0.0 && c[i] == 0
    ensures InStep(alpha, w, w, u, w, delta, c, c, 0)
  {
    hide Lag;
    forall i | 0 <= i < |w| ensures Lag(alpha, 0, u[i]) == 0.0 { LagZero(alpha, u[i]); }
  }

  method Share(delta: seq<real>, n: nat) returns (r: seq<real>)
    requires n > 1
    ensures |r| == |delta| && forall i :: 0 <= i < |r| ==> n as real * r[i] == delta[i]
  {
    r := delta;
    for i := 0 to |delta|
      invariant |r| == |delta|
      invariant forall k :: 0 <= k < i ==> n as real * r[k] == delta[k]
      invariant forall k :: i <= k < |r| ==> r[k] == delta[k]
    {
      r := r[i := r[i] / n as real];
    }
  }

  // -------------------------------------------------- what the dense update is

  /** No samples change nothing. One more sample moves every coordinate against the
      difference of its gradients at the new and the old weights, plus the full
      gradient; a negative label counts as zero. */
  lemma DenseLaw(sigmoid: real -> real, alpha: real, w: seq<real>, wOld: seq<real>, u: seq<real>, samples: seq<Sample>, s: Sample, i: nat,
                 now: seq<real>, p: real, oldP: real, y: real, v: real)
    requires |w| == |wOld| == |u| && i < |w| && WellFormed(s, |w|)
    requires forall k :: 0 <= k < |samples| ==> WellFormed(samples[k], |w|)
    requires now == DenseRun(sigmoid, alpha, w, wOld, u, samples)
    requires p == sigmoid(Dot(now, s.x)) && oldP == sigmoid(Dot(wOld, s.x)) && y == if s.y < 0.0 then 0.0 else s.y
    requires v == Value(s.x, i)
    ensures DenseRun(sigmoid, alpha, w, wOld, u, []) == w
    ensures DenseRun(sigmoid, alpha, w, wOld, u, samples + [s])[i] == now[i] - alpha * (v * (p - y) - v * (oldP - y) + u[i])
  {
    hide DenseRun, DenseStep, Target, Dot, Value;
    RunLaw(sigmoid, alpha, w, wOld, u, samples, s);
    DenseAt(sigmoid, alpha, now, wOld, u, s, i);
    TargetIs(alpha, now[i], v, p, oldP, y, u[i]);
  }

  lemma TargetIs(alpha: real, w: real, v: real, p: real, oldP: real, y: real, u: real)
    ensures Target(alpha, w, v, p, oldP, y, u) == w - alpha * (v * (p - y) - v * (oldP - y) + u)
  {
  }

  lemma RunLaw(sigmoid: real -> real, alpha: real, w: seq<real>, wOld: seq<real>, u: seq<real>, samples: seq<Sample>, s: Sample)
    requires |w| == |wOld| == |u| && WellFormed(s, |w|)
    requires forall k :: 0 <= k < |samples| ==> WellFormed(samples[k], |w|)
    ensures DenseRun(sigmoid, alpha, w, wOld, u, []) == w
    ensures DenseRun(sigmoid, alpha, w, wOld, u, samples + [s])
         == DenseStep(sigmoid, alpha, DenseRun(sigmoid, alpha, w, wOld, u, samples), wOld, u, s)
  {
    var all := samples + [s];
    assert all[..|all| - 1] == samples;
  }

  /** The inner product field by field, and the value of a feature: that of its only
      field, or zero without one. */
  lemma FieldLaw(w: seq<real>, x: seq<Field>, f: Field)
    requires f.fea < |w| && forall j :: 0 <= j < |x| ==> x[j].fea < |w|
    ensures Dot(w, []) == 0.0 && Dot(w, x + [f]) == Dot(w, x) + w[f.fea] * f.val
    ensures (forall j :: 0 <= j < |x| ==> x[j].fea != f.fea) ==> Value(x, f.fea) == 0.0 && Value(x + [f], f.fea) == f.val
    ensures forall i: nat :: i != f.fea ==> Value(x + [f], i) == Value(x, i)
  {
    DotNext(w, x + [f], |x|);
    assert (x + [f])[..|x|] == x && (x + [f])[..|x| + 1] == x + [f];
    assert Dot(w, []) == 0.0;
    hide Dot;
    ValueLaw(x, f);
  }

  lemma ValueLaw(x: seq<Field>, f: Field)
    ensures (forall j :: 0 <= j < |x| ==> x[j].fea != f.fea) ==> Value(x, f.fea) == 0.0 && Value(x + [f], f.fea) == f.val
    ensures forall i: nat :: i != f.fea ==> Value(x + [f], i) == Value(x, i)
  {
    var all := x + [f];
    assert all[..|all| - 1] == x;
    if forall j :: 0 <= j < |x| ==> x[j].fea != f.fea { NoValue(x, f.fea); }
  }
}

// The weights a topic is drawn with: their sums, the list of the topics that occur,
// and the topic on whose interval a draw lands.
module TopicWeights {
  import opened KvSlicing
  import opened TopicTables

  // ---------------------------------------------------------------- real sums

  function Sum(xs: seq<real>): real {
    if xs == [] then 0.0 else Sum(xs[..|xs| - 1]) + xs[|xs| - 1]
  }

  lemma {:induction false} SumUpdate(xs: seq<real>, i: nat, v: real)
    requires i < |xs|
    ensures Sum(xs[i := v]) == Sum(xs) - xs[i] + v
  {
    var n := |xs| - 1;
    if i == n {
      assert xs[i := v][..n] == xs[..n];
    } else {
      SumUpdate(xs[..n], i, v);
      assert xs[i := v][..n] == xs[..n][i := v];
    }
  }

  lemma {:induction false} SumNonNegative(xs: seq<real>)
    requires forall i :: 0 <= i < |xs| ==> xs[i] >= 0.0
    ensures Sum(xs) >= 0.0
    ensures |xs| > 0 && xs[0] > 0.0 ==> Sum(xs) > 0.0
  {
    if xs != [] { SumNonNegative(xs[..|xs| - 1]); }
  }

  lemma SumAppend(xs: seq<real>, v: real)
    ensures Sum(xs + [v]) == Sum(xs) + v
  {
  }

  lemma SumEmpty()
    ensures Sum([]) == 0.0
  {
  }

  lemma SumExtend(xs: seq<real>, n: nat)
    requires n < |xs|
    ensures Sum(xs[..n + 1]) == Sum(xs[..n]) + xs[n]
  {
    assert xs[..n + 1][..n] == xs[..n];
  }

  // -------------------------------------------------------------- definitions

  datatype Prior = Prior(alpha: real, beta: real, betaSum: real)

  predicate Positive(p: Prior) {
    p.alpha > 0.0 && p.beta > 0.0 && p.betaSum > 0.0
  }

  /** A document never has more tokens of a topic than the whole corpus. */
  predicate Counts(theta: seq<int>, summary: seq<int>) {
    |theta| == |summary| && forall k :: 0 <= k < |theta| ==> 0 <= theta[k] <= summary[k]
  }

  function SMass(p: Prior, denom: real): real
    requires denom > 0.0
  {
    (p.alpha * p.beta) / denom
  }

  function RMass(p: Prior, c: int, denom: real): real
    requires denom > 0.0
  {
    (c as real * p.beta) / denom
  }

  function QMass(p: Prior, c: int, denom: real): real
    requires denom > 0.0
  {
    (p.alpha + c as real) / denom
  }

  function Denom(p: Prior, n: nat): (r: real)
    requires Positive(p)
    ensures r > 0.0
  {
    n as real + p.betaSum
  }

  function STerm(p: Prior, n: nat): real
    requires Positive(p)
  {
    SMass(p, Denom(p, n))
  }

  function RTerm(p: Prior, c: nat, n: nat): real
    requires Positive(p)
  {
    RMass(p, c, Denom(p, n))
  }

  function QTerm(p: Prior, c: nat, n: nat): real
    requires Positive(p)
  {
    QMass(p, c, Denom(p, n))
  }

  function STerms(p: Prior, theta: seq<int>, summary: seq<int>): (r: seq<real>)
    requires Positive(p) && Counts(theta, summary)
    ensures |r| == |theta|
  {
    seq(|theta|, k requires 0 <= k < |theta| => STerm(p, summary[k]))
  }

  function RTerms(p: Prior, theta: seq<int>, summary: seq<int>): (r: seq<real>)
    requires Positive(p) && Counts(theta, summary)
    ensures |r| == |theta|
  {
    seq(|theta|, k requires 0 <= k < |theta| => RTerm(p, theta[k], summary[k]))
  }

  function QCoeffs(p: Prior, theta: seq<int>, summary: seq<int>): (r: seq<real>)
    requires Positive(p) && Counts(theta, summary)
    ensures |r| == |theta|
  {
    seq(|theta|, k requires 0 <= k < |theta| => QTerm(p, theta[k], summary[k]))
  }

  lemma TermsAt(p: Prior, theta: seq<int>, summary: seq<int>, k: nat)
    requires Positive(p) && Counts(theta, summary) && k < |theta|
    ensures 0 <= theta[k] <= summary[k]
    ensures STerms(p, theta, summary)[k] == STerm(p, summary[k])
    ensures RTerms(p, theta, summary)[k] == RTerm(p, theta[k], summary[k])
    ensures QCoeffs(p, theta, summary)[k] == QTerm(p, theta[k], summary[k])
  {
  }

  lemma NoRMass(p: Prior, denom: real)
    requires denom > 0.0
    ensures RMass(p, 0, denom) == 0.0
  {
  }

  /** What d more tokens of topic k do to the sums and coefficients. */
  lemma MoveTopic(p: Prior, theta: seq<int>, summary: seq<int>, k: nat, d: int)
    requires Positive(p) && Counts(theta, summary) && k < |theta| && theta[k] + d >= 0
    ensures |summary| == |theta| && 0 <= theta[k] <= summary[k]
    ensures var theta', summary' := theta[k := theta[k] + d], summary[k := summary[k] + d];
            && Counts(theta', summary')
            && Sum(STerms(p, theta', summary')) == Sum(STerms(p, theta, summary)) - STerm(p, summary[k]) + STerm(p, summary[k] + d)
            && Sum(RTerms(p, theta', summary')) == Sum(RTerms(p, theta, summary)) - RTerm(p, theta[k], summary[k]) + RTerm(p, theta[k] + d, summary[k] + d)
            && QCoeffs(p, theta', summary') == QCoeffs(p, theta, summary)[k := QTerm(p, theta[k] + d, summary[k] + d)]
  {
    hide STerms, RTerms, QCoeffs, Sum, Counts, STerm, RTerm, QTerm, Positive;
    CountsAt(theta, summary, k);
    var theta', summary' := theta[k := theta[k] + d], summary[k := summary[k] + d];
    MoveTerms(p, theta, summary, k, d);
    TermsAt(p, theta, summary, k);
    TermsAt(p, theta', summary', k);
    SumUpdate(STerms(p, theta, summary), k, STerms(p, theta', summary')[k]);
    SumUpdate(RTerms(p, theta, summary), k, RTerms(p, theta', summary')[k]);
  }

  lemma CountsAt(theta: seq<int>, summary: seq<int>, k: nat)
    requires Counts(theta, summary) && k < |theta|
    ensures |summary| == |theta|
    ensures 0 <= theta[k] <= summary[k]
  {
  }

  lemma MoveTerms(p: Prior, theta: seq<int>, summary: seq<int>, k: nat, d: int)
    requires Positive(p) && Counts(theta, summary) && k < |theta| && theta[k] + d >= 0
    ensures var theta', summary' := theta[k := theta[k] + d], summary[k := summary[k] + d];
            && Counts(theta', summary')
            && STerms(p, theta', summary') == STerms(p, theta, summary)[k := STerms(p, theta', summary')[k]]
            && RTerms(p, theta', summary') == RTerms(p, theta, summary)[k := RTerms(p, theta', summary')[k]]
            && QCoeffs(p, theta', summary') == QCoeffs(p, theta, summary)[k := QCoeffs(p, theta', summary')[k]]
  {
  }

  /** The topics from lo to hi that occur, in order. */
  function NonZero(theta: seq<int>, lo: nat, hi: nat): (r: seq<nat>)
    requires lo <= hi <= |theta|
    ensures |r| <= hi - lo && forall i :: 0 <= i < |r| ==> lo <= r[i] < hi
  {
    if hi == lo then [] else NonZero(theta, lo, hi - 1) + (if theta[hi - 1] != 0 then [hi - 1] else [])
  }

  lemma {:induction false} NonZeroIncreases(theta: seq<int>, lo: nat, hi: nat)
    requires lo <= hi <= |theta|
    ensures Increasing(NonZero(theta, lo, hi))
  {
    if hi > lo { NonZeroIncreases(theta, lo, hi - 1); }
  }

  lemma {:induction false} NonZeroHas(theta: seq<int>, lo: nat, hi: nat, k: nat)
    requires lo <= hi <= |theta|
    ensures k in NonZero(theta, lo, hi) <==> lo <= k < hi && theta[k] != 0
  {
    if hi > lo { NonZeroHas(theta, lo, hi - 1, k); }
  }

  lemma {:induction false} NonZeroSplit(theta: seq<int>, lo: nat, mid: nat, hi: nat)
    requires lo <= mid <= hi <= |theta|
    ensures NonZero(theta, lo, hi) == NonZero(theta, lo, mid) + NonZero(theta, mid, hi)
  {
    if hi > mid { NonZeroSplit(theta, lo, mid, hi - 1); }
  }

  lemma {:induction false} NonZeroFrame(theta: seq<int>, theta': seq<int>, lo: nat, hi: nat)
    requires lo <= hi <= |theta| == |theta'| && theta[lo..hi] == theta'[lo..hi]
    ensures NonZero(theta, lo, hi) == NonZero(theta', lo, hi)
  {
    if hi > lo {
      assert theta[hi - 1] == theta[lo..hi][hi - 1 - lo] == theta'[hi - 1];
      assert theta[lo..hi - 1] == theta[lo..hi][..hi - 1 - lo] == theta'[lo..hi - 1];
      NonZeroFrame(theta, theta', lo, hi - 1);
    }
  }

  lemma NonZeroOne(theta: seq<int>, k: nat)
    requires k < |theta|
    ensures NonZero(theta, k, k + 1) == if theta[k] != 0 then [k] else []
  {
  }

  /** The list before, at and after topic k. */
  lemma NonZeroAround(theta: seq<int>, k: nat, v: int)
    requires k < |theta|
    ensures var before, after := NonZero(theta, 0, k), NonZero(theta, k + 1, |theta|);
            && NonZero(theta, 0, |theta|) == before + (if theta[k] != 0 then [k] else []) + after
            && NonZero(theta[k := v], 0, |theta|) == before + (if v != 0 then [k] else []) + after
            && (forall i :: 0 <= i < |before| ==> before[i] < k)
            && (forall i :: 0 <= i < |after| ==> after[i] > k)
            && |before| <= k && |after| <= |theta| - k - 1
  {
    hide NonZero, Increasing;
    var n, theta' := |theta|, theta[k := v];
    NonZeroOne(theta, k);
    NonZeroOne(theta', k);
    NonZeroSplit(theta, 0, k, n);
    NonZeroSplit(theta, k, k + 1, n);
    NonZeroSplit(theta', 0, k, n);
    NonZeroSplit(theta', k, k + 1, n);
    NonZeroFrame(theta, theta', 0, k);
    NonZeroFrame(theta, theta', k + 1, n);
  }

  /** Position p is where a lower bound search for k ends. */
  predicate Bounds(idx: seq<nat>, k: nat, p: nat) {
    p <= |idx| && (forall i :: 0 <= i < p ==> idx[i] < k) && (p < |idx| ==> idx[p] >= k)
  }

  lemma BoundAt(before: seq<nat>, after: seq<nat>, k: nat, p: nat)
    requires (forall i :: 0 <= i < |before| ==> before[i] < k) && (forall i :: 0 <= i < |after| ==> after[i] > k)
    requires Bounds(before + after, k, p)
    ensures p == |before|
  {
    var idx := before + after;
    assert forall i :: 0 <= i < |before| ==> idx[i] == before[i];
    assert forall i :: 0 <= i < |after| ==> idx[|before| + i] == after[i];
    var x := if p < |idx| then idx[p] else k;
    var y := if after != [] then idx[|before|] else k + 1;
    assert p < |before| ==> x < k;
    assert p > |before| ==> y < k;
  }

  /** A topic that stops occurring is taken out where the search finds it. */
  lemma NonZeroRemove(theta: seq<int>, k: nat, p: nat)
    requires k < |theta| && theta[k] != 0 && Bounds(NonZero(theta, 0, |theta|), k, p)
    ensures var idx := NonZero(theta, 0, |theta|);
            p < |idx| && NonZero(theta[k := 0], 0, |theta|) == idx[..p] + idx[p + 1..]
  {
    hide NonZero;
    NonZeroAround(theta, k, 0);
    var before, after := NonZero(theta, 0, k), NonZero(theta, k + 1, |theta|);
    assert (before + [k] + after)[|before|] == k;
    assert p == |before|;
  }

  /** A topic that starts to occur goes in where the search puts it. */
  lemma NonZeroInsert(theta: seq<int>, k: nat, v: int, p: nat)
    requires k < |theta| && theta[k] == 0 && v != 0 && Bounds(NonZero(theta, 0, |theta|), k, p)
    ensures var idx := NonZero(theta, 0, |theta|);
            |idx| < |theta| && NonZero(theta[k := v], 0, |theta|) == idx[..p] + [k] + idx[p..]
  {
    hide NonZero;
    NonZeroAround(theta, k, v);
    var before, after := NonZero(theta, 0, k), NonZero(theta, k + 1, |theta|);
    assert NonZero(theta, 0, |theta|) == before + after;
    BoundAt(before, after, k, p);
  }

  /** A topic that occurs before and after stays where it is. */
  lemma NonZeroSame(theta: seq<int>, k: nat, v: int)
    requires k < |theta| && theta[k] != 0 && v != 0
    ensures NonZero(theta[k := v], 0, |theta|) == NonZero(theta, 0, |theta|)
  {
    NonZeroAround(theta, k, v);
  }

  /** The r bucket's mass lies in the topics that occur. */
  function Picked(xs: seq<real>, idx: seq<nat>): (r: seq<real>)
    requires forall i :: 0 <= i < |idx| ==> idx[i] < |xs|
    ensures |r| == |idx|
  {
    seq(|idx|, i requires 0 <= i < |idx| => xs[idx[i]])
  }

  lemma PickedLast(xs: seq<real>, idx: seq<nat>, k: nat)
    requires k < |xs| && forall i :: 0 <= i < |idx| ==> idx[i] < |xs|
    ensures Sum(Picked(xs, idx + [k])) == Sum(Picked(xs, idx)) + xs[k]
  {
    var all := Picked(xs, idx + [k]);
    assert all[..|all| - 1] == Picked(xs, idx);
  }

  lemma {:induction false} SparseSum(xs: seq<real>, theta: seq<int>, n: nat)
    requires n <= |xs| == |theta|
    requires forall k :: 0 <= k < n && theta[k] == 0 ==> xs[k] == 0.0
    ensures forall i :: 0 <= i < |NonZero(theta, 0, n)| ==> NonZero(theta, 0, n)[i] < n
    ensures Sum(Picked(xs, NonZero(theta, 0, n))) == Sum(xs[..n])
  {
    if n > 0 {
      SparseSum(xs, theta, n - 1);
      SumExtend(xs, n - 1);
      var before := NonZero(theta, 0, n - 1);
      if theta[n - 1] != 0 {
        PickedLast(xs, before, n - 1);
        assert NonZero(theta, 0, n) == before + [n - 1];
      } else {
        assert NonZero(theta, 0, n) == before;
      }
    }
  }

  /** Where a dart thrown on a row of intervals lands. */
  predicate Lands(terms: seq<real>, x: real, i: nat) {
    && i < |terms|
    && (i > 0 ==> Sum(terms[..i]) < x)
    && x <= Sum(terms[..i + 1])
  }

  lemma LandsInside(terms: seq<real>, x: real, i: nat)
    requires Lands(terms, x, i)
    ensures i < |terms|
  {
  }

  /** Shooting a dart at x: walking along the intervals until it is reached. In exact
      arithmetic the dart never flies past the last interval. */
  method Shoot(terms: seq<real>, x: real) returns (i: nat)
    requires 0.0 <= x < Sum(terms)
    ensures Lands(terms, x, i)
  {
    var sample := x;
    i := 0;
    assert terms[..|terms|] == terms;
    while true
      invariant i < |terms|
      invariant sample == x - Sum(terms[..i])
      invariant i > 0 ==> sample > 0.0
      decreases |terms| - i
    {
      SumExtend(terms, i);
      sample := sample - terms[i];
      if sample <= 0.0 { return; }
      i := i + 1;
    }
  }

  function Scaled(xs: seq<real>, c: real): (r: seq<real>)
    ensures |r| == |xs| && forall i :: 0 <= i < |xs| ==> r[i] == xs[i] * c
  {
    seq(|xs|, i requires 0 <= i < |xs| => xs[i] * c)
  }

  lemma {:induction false} SumScale(xs: seq<real>, c: real)
    ensures Sum(Scaled(xs, c)) == Sum(xs) * c
  {
    if xs != [] {
      var n := |xs| - 1;
      SumScale(xs[..n], c);
      ScaledPrefix(xs, c, n);
    }
  }

  lemma ScaledPrefix(xs: seq<real>, c: real, n: nat)
    requires n <= |xs|
    ensures Scaled(xs, c)[..n] == Scaled(xs[..n], c)
  {
    forall i | 0 <= i < n ensures Scaled(xs, c)[..n][i] == Scaled(xs[..n], c)[i] {
      assert xs[..n][i] == xs[i];
    }
  }

  /** The terms of the r bucket without their common factor beta. */
  function RShares(p: Prior, theta: seq<int>, summary: seq<int>): (r: seq<real>)
    requires Positive(p) && Counts(theta, summary)
    ensures |r| == |theta|
  {
    seq(|theta|, k requires 0 <= k < |theta| => theta[k] as real / Denom(p, summary[k]))
  }

  /** The terms of the s bucket without their common factor alpha * beta. */
  function SShares(p: Prior, theta: seq<int>, summary: seq<int>): (r: seq<real>)
    requires Positive(p) && Counts(theta, summary)
    ensures |r| == |theta|
  {
    seq(|theta|, k requires 0 <= k < |theta| => 1.0 / Denom(p, summary[k]))
  }

  lemma Factor(x: real, y: real, d: real)
    requires d > 0.0
    ensures (x * y) / d == (x / d) * y
    ensures (x * y) / d == (1.0 / d) * (x * y)
  {
  }

  lemma RScaled(p: Prior, theta: seq<int>, summary: seq<int>)
    requires Positive(p) && Counts(theta, summary)
    ensures RTerms(p, theta, summary) == Scaled(RShares(p, theta, summary), p.beta)
  {
    var shares := Scaled(RShares(p, theta, summary), p.beta);
    forall k | 0 <= k < |theta| ensures RTerms(p, theta, summary)[k] == shares[k] {
      hide Scaled, Denom;
      Factor(theta[k] as real, p.beta, Denom(p, summary[k]));
    }
  }

  lemma SScaled(p: Prior, theta: seq<int>, summary: seq<int>)
    requires Positive(p) && Counts(theta, summary)
    ensures STerms(p, theta, summary) == Scaled(SShares(p, theta, summary), p.alpha * p.beta)
  {
    var shares := Scaled(SShares(p, theta, summary), p.alpha * p.beta);
    forall k | 0 <= k < |theta| ensures STerms(p, theta, summary)[k] == shares[k] {
      hide Scaled, Denom;
      Factor(p.alpha, p.beta, Denom(p, summary[k]));
    }
  }

  lemma RFactored(p: Prior, theta: seq<int>, summary: seq<int>)
    requires Positive(p) && Counts(theta, summary)
    ensures Sum(RTerms(p, theta, summary)) == Sum(Picked(RShares(p, theta, summary), NonZero(theta, 0, |theta|))) * p.beta
  {
    hide Sum, NonZero, Picked, Scaled, RTerms;
    var shares := RShares(p, theta, summary);
    RScaled(p, theta, summary);
    SumScale(shares, p.beta);
    forall k | 0 <= k < |theta| && theta[k] == 0 ensures shares[k] == 0.0 {}
    SparseSum(shares, theta, |theta|);
    assert shares[..|theta|] == shares;
  }

  lemma SFactored(p: Prior, theta: seq<int>, summary: seq<int>)
    requires Positive(p) && Counts(theta, summary)
    ensures p.alpha * p.beta > 0.0
    ensures Sum(STerms(p, theta, summary)) == Sum(SShares(p, theta, summary)) * (p.alpha * p.beta)
  {
    SScaled(p, theta, summary);
    SumScale(SShares(p, theta, summary), p.alpha * p.beta);
  }

  /** How far a draw u throws the dart. */
  function Dart(u: real, mass: real): real { u * mass }

  lemma DrawBelow(u: real, mass: real)
    requires 0.0 <= u < 1.0 && mass > 0.0
    ensures 0.0 <= Dart(u, mass) < mass
  {
  }

  lemma DivLess(x: real, s: real, b: real)
    requires b > 0.0 && 0.0 <= x < s * b
    ensures 0.0 <= x / b < s
  {
  }

  lemma BucketsNonNegative(p: Prior, theta: seq<int>, summary: seq<int>)
    requires Positive(p) && Counts(theta, summary) && theta != []
    ensures Sum(STerms(p, theta, summary)) > 0.0 && Sum(RTerms(p, theta, summary)) >= 0.0
    ensures forall k :: 0 <= k < |theta| ==> QCoeffs(p, theta, summary)[k] > 0.0
  {
    var n := |theta|;
    forall k | 0 <= k < n
      ensures STerms(p, theta, summary)[k] > 0.0 && RTerms(p, theta, summary)[k] >= 0.0 && QCoeffs(p, theta, summary)[k] > 0.0
    {
      MassSign(p, theta[k], Denom(p, summary[k]));
    }
    SumNonNegative(STerms(p, theta, summary));
    SumNonNegative(RTerms(p, theta, summary));
  }

  lemma MassSign(p: Prior, c: nat, d: real)
    requires Positive(p) && d > 0.0
    ensures SMass(p, d) > 0.0 && RMass(p, c, d) >= 0.0 && QMass(p, c, d) > 0.0
  {
  }

  lemma Products(x: real, c: nat)
    requires x > 0.0
    ensures x * c as real >= 0.0
  {
  }

  // ------------------------------------------------------------------- q bucket

  /** The weight of a topic of which the word's row still has `count` tokens. The code
      takes one off for the token's own topic, though its token is out already. */
  function QWeight(p: Prior, c: nat, n: nat, count: int, own: bool): real
    requires Positive(p)
  {
    if count <= 0 then 0.0
    else QTerm(p, c, n) * (if own then count - 1 else count) as real
  }

  function QWeights(p: Prior, theta: seq<int>, summary: seq<int>, row: seq<int>, oldTopic: nat): (r: seq<real>)
    requires Positive(p) && Counts(theta, summary) && |row| == |theta|
    ensures |r| == |theta|
  {
    seq(|theta|, k requires 0 <= k < |theta| => QWeight(p, theta[k], summary[k], row[k], k == oldTopic))
  }

  /** The three weights of a topic, written out. */
  lemma WeightsAt(p: Prior, theta: seq<int>, summary: seq<int>, row: seq<int>, oldTopic: nat, k: nat)
    requires Positive(p) && Counts(theta, summary) && |row| == |theta| && k < |theta|
    ensures 0 <= theta[k] <= summary[k] && summary[k] as real + p.betaSum > 0.0
    ensures STerms(p, theta, summary)[k] == (p.alpha * p.beta) / (summary[k] as real + p.betaSum)
    ensures RTerms(p, theta, summary)[k] == (theta[k] as real * p.beta) / (summary[k] as real + p.betaSum)
    ensures QWeights(p, theta, summary, row, oldTopic)[k] ==
            if row[k] <= 0 then 0.0
            else ((p.alpha + theta[k] as real) / (summary[k] as real + p.betaSum)) * (if k == oldTopic then row[k] - 1 else row[k]) as real
  {
  }

  lemma Share(a: real, b: real, d: real)
    requires d > 0.0
    ensures a / d + b / d == (a + b) / d
  {
  }

  lemma Times(a: real, m: real, d: real)
    requires d > 0.0
    ensures (a / d) * m == (a * m) / d
  {
  }

  /** The three weights of a topic make up its mass in collapsed Gibbs sampling, the
      word's row being counted as the code counts it. */
  lemma TopicMass(p: Prior, c: nat, n: nat, count: nat, own: bool)
    requires Positive(p)
    ensures n as real + p.betaSum > 0.0
    ensures var tokens := if own && count > 0 then count - 1 else count;
            STerm(p, n) + RTerm(p, c, n) + QWeight(p, c, n, count, own) ==
            ((p.alpha + c as real) * (p.beta + tokens as real)) / (n as real + p.betaSum)
  {
    var tokens: nat := if own && count > 0 then count - 1 else count;
    Times(p.alpha + c as real, tokens as real, n as real + p.betaSum);
    Masses(p.alpha, c as real, p.beta, tokens as real, n as real + p.betaSum);
  }

  lemma Masses(alpha: real, c: real, beta: real, m: real, d: real)
    requires d > 0.0
    ensures (alpha * beta) / d + (c * beta) / d + ((alpha + c) * m) / d == ((alpha + c) * (beta + m)) / d
  {
    var a, b, q := alpha * beta, c * beta, (alpha + c) * m;
    Share(a, b, d);
    Share(a + b, q, d);
    Expand(alpha, c, beta, m);
  }

  lemma Expand(alpha: real, c: real, beta: real, m: real)
    ensures alpha * beta + c * beta + (alpha + c) * m == (alpha + c) * (beta + m)
  {
    assert alpha * beta + c * beta == (alpha + c) * beta;
  }

  /** A topic is weighed by the tokens its word's row has of it, except the token's own
      topic while the row has more of it. */
  lemma GibbsIff(p: Prior, c: nat, n: nat, count: nat, own: bool)
    requires Positive(p)
    ensures n as real + p.betaSum > 0.0
    ensures STerm(p, n) + RTerm(p, c, n) + QWeight(p, c, n, count, own) ==
            ((p.alpha + c as real) * (p.beta + count as real)) / (n as real + p.betaSum)
       <==> !(own && count > 0)
  {
    TopicMass(p, c, n, count, own);
    if own && count > 0 {
      var a, d := p.alpha + c as real, n as real + p.betaSum;
      Bigger(a, p.beta + (count - 1) as real, d);
    }
  }

  lemma Bigger(a: real, b: real, d: real)
    requires a > 0.0 && d > 0.0
    ensures (a * b) / d < (a * (b + 1.0)) / d
  {
    assert a * (b + 1.0) == a * b + a;
    Share(a * b, a, d);
    assert a / d > 0.0;
  }

  /** The weight from the topic's coefficient. */
  lemma QWeightIs(p: Prior, theta: seq<int>, summary: seq<int>, row: seq<int>, oldTopic: nat, k: nat)
    requires Positive(p) && Counts(theta, summary) && |row| == |theta| && k < |theta| && row[k] > 0
    ensures QWeights(p, theta, summary, row, oldTopic)[k] == QCoeffs(p, theta, summary)[k] * (if k == oldTopic then row[k] - 1 else row[k]) as real
  {
    TermsAt(p, theta, summary, k);
  }

  // -------------------------------------------------------------- where it lands

  /** The topic on whose interval a dart at x lands: the topics that take part lie side
      by side in order, each as long as its weight. */
  ghost predicate Hits(w: seq<real>, part: seq<bool>, x: real, t: nat) {
    && t < |w| == |part| && part[t]
    && ((exists k: nat :: k < t && part[k]) ==> Sum(w[..t]) < x)
    && x <= Sum(w[..t + 1])
  }

  /** In the q bucket, the topics the word's row has tokens of. */
  function InRow(row: seq<int>): (r: seq<bool>)
    ensures |r| == |row| && forall k :: 0 <= k < |row| ==> r[k] == (row[k] > 0)
  {
    seq(|row|, k requires 0 <= k < |row| => row[k] > 0)
  }

  /** In the r bucket, the topics that occur in the document. */
  function InDoc(theta: seq<int>): (r: seq<bool>)
    ensures |r| == |theta| && forall k :: 0 <= k < |theta| ==> r[k] == (theta[k] != 0)
  {
    seq(|theta|, k requires 0 <= k < |theta| => theta[k] != 0)
  }

  /** In the s bucket, all topics. */
  function All(n: nat): (r: seq<bool>)
    ensures |r| == n && forall k :: 0 <= k < n ==> r[k]
  {
    seq(n, _ => true)
  }

  lemma {:induction false} SumGrows(w: seq<real>, a: nat, b: nat)
    requires a <= b <= |w| && forall i :: 0 <= i < |w| ==> w[i] >= 0.0
    ensures Sum(w[..a]) <= Sum(w[..b])
  {
    if a < b {
      SumGrows(w, a, b - 1);
      SumExtend(w, b - 1);
    }
  }

  lemma HitsOnce(w: seq<real>, part: seq<bool>, x: real, t: nat, t': nat)
    requires forall i :: 0 <= i < |w| ==> w[i] >= 0.0
    requires Hits(w, part, x, t) && Hits(w, part, x, t')
    ensures t == t'
  {
    if t < t' {
      SumGrows(w, t + 1, t');
    } else if t' < t {
      SumGrows(w, t' + 1, t);
    }
  }

  lemma {:induction false} SumOfNone(w: seq<real>, part: seq<bool>, n: nat)
    requires n <= |w| == |part| && forall k :: 0 <= k < n ==> !part[k] && w[k] == 0.0
    ensures Sum(w[..n]) == 0.0
  {
    if n > 0 {
      SumOfNone(w, part, n - 1);
      SumExtend(w, n - 1);
    }
  }

  /** The darts that land on a topic are those past the weights before it, by no more
      than its own. */
  lemma HitsIff(w: seq<real>, part: seq<bool>, x: real, t: nat)
    requires |w| == |part| && forall k :: 0 <= k < |w| ==> w[k] >= 0.0 && (!part[k] ==> w[k] == 0.0)
    requires x > 0.0
    ensures Hits(w, part, x, t) <==> t < |w| && Sum(w[..t]) < x <= Sum(w[..t]) + w[t]
  {
    if t < |w| {
      SumExtend(w, t);
      if forall k: nat :: k < t ==> !part[k] {
        SumOfNone(w, part, t);
      }
    }
  }

  /** The i-th topic that occurs has i topics that occur before it. */
  lemma {:induction false} NonZeroPrefix(theta: seq<int>, n: nat, i: nat)
    requires n <= |theta| && i < |NonZero(theta, 0, n)|
    ensures var idx := NonZero(theta, 0, n);
            && idx[i] < n && theta[idx[i]] != 0
            && NonZero(theta, 0, idx[i]) == idx[..i] && NonZero(theta, 0, idx[i] + 1) == idx[..i + 1]
  {
    var idx, before := NonZero(theta, 0, n), NonZero(theta, 0, n - 1);
    if i < |before| {
      NonZeroPrefix(theta, n - 1, i);
      assert idx[..i] == before[..i] && idx[..i + 1] == before[..i + 1];
    } else {
      assert idx == before + [n - 1];
      assert idx[..i] == before;
    }
  }

  /** Landing in the list of the topics that occur is landing among all topics. */
  lemma SparseHits(xs: seq<real>, theta: seq<int>, x: real, i: nat)
    requires |xs| == |theta| && forall k :: 0 <= k < |theta| && theta[k] == 0 ==> xs[k] == 0.0
    requires forall j :: 0 <= j < |NonZero(theta, 0, |theta|)| ==> NonZero(theta, 0, |theta|)[j] < |xs|
    requires Lands(Picked(xs, NonZero(theta, 0, |theta|)), x, i)
    ensures Hits(xs, InDoc(theta), x, NonZero(theta, 0, |theta|)[i])
  {
    var idx := NonZero(theta, 0, |theta|);
    var t := idx[i];
    SparsePrefix(xs, theta, i);
    NonZeroPrefix(theta, |theta|, i);
    hide Picked, Sum, NonZero;
    if k: nat :| k < t && InDoc(theta)[k] {
      NonZeroHas(theta, 0, t, k);
      assert i > 0;
    }
  }

  lemma SparsePrefix(xs: seq<real>, theta: seq<int>, i: nat)
    requires |xs| == |theta| && forall k :: 0 <= k < |theta| && theta[k] == 0 ==> xs[k] == 0.0
    requires forall j :: 0 <= j < |NonZero(theta, 0, |theta|)| ==> NonZero(theta, 0, |theta|)[j] < |xs|
    requires i < |NonZero(theta, 0, |theta|)|
    ensures var idx := NonZero(theta, 0, |theta|);
            && Sum(Picked(xs, idx)[..i]) == Sum(xs[..idx[i]])
            && Sum(Picked(xs, idx)[..i + 1]) == Sum(xs[..idx[i] + 1])
  {
    hide Sum, NonZero;
    var idx := NonZero(theta, 0, |theta|);
    NonZeroPrefix(theta, |theta|, i);
    SparseSum(xs, theta, idx[i]);
    SparseSum(xs, theta, idx[i] + 1);
    assert Picked(xs, idx)[..i] == Picked(xs, idx[..i]);
    assert Picked(xs, idx)[..i + 1] == Picked(xs, idx[..i + 1]);
  }

  /** 1 for the topics a row has tokens of. */
  function Marks(row: seq<int>): (r: seq<int>)
    ensures |r| == |row| && forall k :: 0 <= k < |row| ==> r[k] == if row[k] > 0 then 1 else 0
  {
    seq(|row|, k requires 0 <= k < |row| => if row[k] > 0 then 1 else 0)
  }

  lemma PickedAt(xs: seq<real>, idx: seq<nat>, i: nat)
    requires (forall j :: 0 <= j < |idx| ==> idx[j] < |xs|) && i < |idx|
    ensures Picked(xs, idx)[i] == xs[idx[i]]
  {
  }

  lemma QStart(xs: seq<real>, marks: seq<int>)
    ensures NonZero(marks, 0, 0) == [] && Picked(xs, []) == []
  {
  }

  lemma QStep(xs: seq<real>, marks: seq<int>, n: nat)
    requires n < |marks| == |xs|
    ensures forall i :: 0 <= i < |NonZero(marks, 0, n)| ==> NonZero(marks, 0, n)[i] < |xs|
    ensures marks[n] == 0 ==> NonZero(marks, 0, n + 1) == NonZero(marks, 0, n)
    ensures marks[n] != 0 ==> NonZero(marks, 0, n + 1) == NonZero(marks, 0, n) + [n]
    ensures Picked(xs, NonZero(marks, 0, n) + [n]) == Picked(xs, NonZero(marks, 0, n)) + [xs[n]]
  {
  }

  lemma RowHits(p: Prior, theta: seq<int>, summary: seq<int>, row: seq<int>, oldTopic: nat, x: real, i: nat)
    requires Positive(p) && Counts(theta, summary) && |row| == |theta|
    requires Lands(Picked(QWeights(p, theta, summary, row, oldTopic), NonZero(Marks(row), 0, |row|)), x, i)
    ensures i < |NonZero(Marks(row), 0, |row|)|
    ensures Hits(QWeights(p, theta, summary, row, oldTopic), InRow(row), x, NonZero(Marks(row), 0, |row|)[i])
  {
    SparseHits(QWeights(p, theta, summary, row, oldTopic), Marks(row), x, i);
    assert InDoc(Marks(row)) == InRow(row);
  }

  lemma RowSum(p: Prior, theta: seq<int>, summary: seq<int>, row: seq<int>, oldTopic: nat)
    requires Positive(p) && Counts(theta, summary) && |row| == |theta|
    ensures Sum(Picked(QWeights(p, theta, summary, row, oldTopic), NonZero(Marks(row), 0, |row|))) == Sum(QWeights(p, theta, summary, row, oldTopic))
    ensures Sum(QWeights(p, theta, summary, row, oldTopic)) >= 0.0
  {
    var qs := QWeights(p, theta, summary, row, oldTopic);
    SparseSum(qs, Marks(row), |row|);
    assert qs[..|row|] == qs;
    forall k: nat | k < |row| ensures qs[k] >= 0.0 { WeightsSign(p, theta, summary, row, oldTopic, k); }
    SumNonNegative(qs);
  }

  lemma NoShares(p: Prior, theta: seq<int>, summary: seq<int>)
    requires Positive(p) && Counts(theta, summary)
    ensures forall k :: 0 <= k < |theta| && theta[k] == 0 ==> RShares(p, theta, summary)[k] == 0.0
  {
  }

  lemma RHits(p: Prior, theta: seq<int>, summary: seq<int>, x: real, i: nat)
    requires Positive(p) && Counts(theta, summary)
    requires Lands(Picked(RShares(p, theta, summary), NonZero(theta, 0, |theta|)), x / p.beta, i)
    ensures Hits(RTerms(p, theta, summary), InDoc(theta), x, NonZero(theta, 0, |theta|)[i])
  {
    var shares := RShares(p, theta, summary);
    hide Sum, Lands, Hits, NonZero, RTerms, RShares, Picked, Scaled, Denom;
    NoShares(p, theta, summary);
    SparseHits(shares, theta, x / p.beta, i);
    RScaled(p, theta, summary);
    ScaleHits(shares, p.beta, InDoc(theta), x, NonZero(theta, 0, |theta|)[i]);
  }

  lemma SHits(p: Prior, theta: seq<int>, summary: seq<int>, x: real, k: nat)
    requires Positive(p) && Counts(theta, summary) && p.alpha * p.beta > 0.0
    requires Lands(SShares(p, theta, summary), x / (p.alpha * p.beta), k)
    ensures Hits(STerms(p, theta, summary), All(|theta|), x, k)
  {
    var shares, c := SShares(p, theta, summary), p.alpha * p.beta;
    assert Hits(shares, All(|theta|), x / c, k) by { hide SShares; }
    SScaled(p, theta, summary);
    hide Sum, Hits, STerms, SShares, Scaled;
    ScaleHits(shares, c, All(|theta|), x, k);
  }

  lemma ScaleHits(xs: seq<real>, c: real, part: seq<bool>, x: real, t: nat)
    requires c > 0.0 && Hits(xs, part, x / c, t)
    ensures Hits(Scaled(xs, c), part, x, t)
  {
    SumScale(xs[..t], c);
    SumScale(xs[..t + 1], c);
    ScaledPrefix(xs, c, t);
    ScaledPrefix(xs, c, t + 1);
    Across(Sum(xs[..t]), x, c);
    Across(Sum(xs[..t + 1]), x, c);
  }

  lemma Across(s: real, x: real, c: real)
    requires c > 0.0
    ensures s < x / c <==> s * c < x
    ensures x / c <= s <==> x <= s * c
  {
    var y := x / c;
    assert y * c == x;
    if s < y { assert s * c < y * c; } else { assert y * c <= s * c; }
  }

  /** Where a dart at x lands on three rows of intervals laid side by side. */
  ghost predicate FallsAt(qs: seq<real>, inQ: seq<bool>, rs: seq<real>, inR: seq<bool>, ss: seq<real>, inS: seq<bool>, x: real, t: nat) {
    if x < Sum(qs) then Hits(qs, inQ, x, t)
    else if x - Sum(qs) < Sum(rs) then Hits(rs, inR, x - Sum(qs), t)
    else Hits(ss, inS, x - Sum(qs) - Sum(rs), t)
  }

  /** Where a draw u throws the dart: as far along all three rows as u of their length. */
  ghost predicate Falls(qs: seq<real>, inQ: seq<bool>, rs: seq<real>, inR: seq<bool>, ss: seq<real>, inS: seq<bool>, u: real, t: nat) {
    exists x :: x == u * (Sum(qs) + Sum(rs) + Sum(ss)) && FallsAt(qs, inQ, rs, inR, ss, inS, x, t)
  }

  lemma DartIs(u: real, mass: real, a: real, b: real, c: real)
    requires mass == a + b + c
    ensures Dart(u, mass) == u * (a + b + c)
  {
  }

  lemma FallsFrom(qs: seq<real>, inQ: seq<bool>, rs: seq<real>, inR: seq<bool>, ss: seq<real>, inS: seq<bool>, u: real, mass: real, x: real, t: nat)
    requires mass == Sum(qs) + Sum(rs) + Sum(ss) && x == Dart(u, mass) && FallsAt(qs, inQ, rs, inR, ss, inS, x, t)
    ensures Falls(qs, inQ, rs, inR, ss, inS, u, t)
  {
    hide FallsAt, Dart, Sum;
    DartIs(u, mass, Sum(qs), Sum(rs), Sum(ss));
  }

  lemma FallsOnce(qs: seq<real>, inQ: seq<bool>, rs: seq<real>, inR: seq<bool>, ss: seq<real>, inS: seq<bool>, u: real, t: nat, t': nat)
    requires |qs| == |rs| == |ss| && forall i :: 0 <= i < |qs| ==> qs[i] >= 0.0 && rs[i] >= 0.0 && ss[i] >= 0.0
    requires Falls(qs, inQ, rs, inR, ss, inS, u, t) && Falls(qs, inQ, rs, inR, ss, inS, u, t')
    ensures t == t'
  {
    var x :| x == u * (Sum(qs) + Sum(rs) + Sum(ss)) && FallsAt(qs, inQ, rs, inR, ss, inS, x, t);
    var x' :| x' == u * (Sum(qs) + Sum(rs) + Sum(ss)) && FallsAt(qs, inQ, rs, inR, ss, inS, x', t');
    assert x == x';
    FallsAtOnce(qs, inQ, rs, inR, ss, inS, x, t, t');
  }

  lemma FallsAtOnce(qs: seq<real>, inQ: seq<bool>, rs: seq<real>, inR: seq<bool>, ss: seq<real>, inS: seq<bool>, x: real, t: nat, t': nat)
    requires |qs| == |rs| == |ss| && forall i :: 0 <= i < |qs| ==> qs[i] >= 0.0 && rs[i] >= 0.0 && ss[i] >= 0.0
    requires FallsAt(qs, inQ, rs, inR, ss, inS, x, t) && FallsAt(qs, inQ, rs, inR, ss, inS, x, t')
    ensures t == t'
  {
    hide Sum, Hits;
    if x < Sum(qs) {
      HitsOnce(qs, inQ, x, t, t');
    } else if x - Sum(qs) < Sum(rs) {
      HitsOnce(rs, inR, x - Sum(qs), t, t');
    } else {
      HitsOnce(ss, inS, x - Sum(qs) - Sum(rs), t, t');
    }
  }

  /** The topic chosen for a token by a draw u: theta and summary count the other
      tokens, row those of the same word, and the dart flies over the three buckets,
      q first, then r, then s. */
  ghost predicate Chooses(p: Prior, theta: seq<int>, summary: seq<int>, row: seq<int>, oldTopic: nat, u: real, topic: nat)
    requires Positive(p) && Counts(theta, summary) && |row| == |theta|
  {
    var qs, rs, ss := QWeights(p, theta, summary, row, oldTopic), RTerms(p, theta, summary), STerms(p, theta, summary);
    Falls(qs, InRow(row), rs, InDoc(theta), ss, All(|theta|), u, topic)
  }

  lemma WeightsSign(p: Prior, theta: seq<int>, summary: seq<int>, row: seq<int>, oldTopic: nat, k: nat)
    requires Positive(p) && Counts(theta, summary) && |row| == |theta| && k < |theta|
    ensures STerms(p, theta, summary)[k] > 0.0 && RTerms(p, theta, summary)[k] >= 0.0 && QWeights(p, theta, summary, row, oldTopic)[k] >= 0.0
  {
    MassSign(p, theta[k], Denom(p, summary[k]));
    if row[k] > 0 {
      Products(QTerm(p, theta[k], summary[k]), if k == oldTopic then row[k] - 1 else row[k]);
    }
  }

  lemma ChoosesFrom(p: Prior, theta: seq<int>, summary: seq<int>, row: seq<int>, oldTopic: nat, u: real, mass: real, x: real, topic: nat)
    requires Positive(p) && Counts(theta, summary) && |row| == |theta|
    requires mass == Sum(QWeights(p, theta, summary, row, oldTopic)) + Sum(RTerms(p, theta, summary)) + Sum(STerms(p, theta, summary))
    requires FallsAt(QWeights(p, theta, summary, row, oldTopic), InRow(row), RTerms(p, theta, summary), InDoc(theta),
                     STerms(p, theta, summary), All(|theta|), x, topic)
    requires x == Dart(u, mass)
    ensures Chooses(p, theta, summary, row, oldTopic, u, topic)
  {
    hide Dart, FallsAt, Falls, QWeights, RTerms, STerms, Counts, Positive;
    FallsFrom(QWeights(p, theta, summary, row, oldTopic), InRow(row), RTerms(p, theta, summary), InDoc(theta),
              STerms(p, theta, summary), All(|theta|), u, mass, x, topic);
  }

  /** The draw determines the topic. */
  lemma ChoosesOnce(p: Prior, theta: seq<int>, summary: seq<int>, row: seq<int>, oldTopic: nat, u: real, topic: nat, topic': nat)
    requires Positive(p) && Counts(theta, summary) && |row| == |theta|
    requires Chooses(p, theta, summary, row, oldTopic, u, topic) && Chooses(p, theta, summary, row, oldTopic, u, topic')
    ensures topic == topic'
  {
    hide Falls;
    var qs, rs, ss := QWeights(p, theta, summary, row, oldTopic), RTerms(p, theta, summary), STerms(p, theta, summary);
    forall k: nat | k < |theta| ensures qs[k] >= 0.0 && rs[k] >= 0.0 && ss[k] >= 0.0 {
      WeightsSign(p, theta, summary, row, oldTopic, k);
    }
    FallsOnce(qs, InRow(row), rs, InDoc(theta), ss, All(|theta|), u, topic, topic');
  }
}

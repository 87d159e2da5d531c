// The topic sampler for one document: the sums, coefficients and the index list that
// it keeps up to date token by token, against their definitions from scratch.
module DocSampler {
  import opened KvSlicing
  import opened TopicTables
  import opened TopicWeights
  import opened TopicDraws

  // --------------------------------------------------------------- the sampler

  /** Moving part of an array, as memmove does. */
  method MoveLeft(a: array<nat>, to: nat, from: nat, n: nat)
    requires to <= from && from + n <= a.Length
    modifies a
    ensures forall i :: 0 <= i < a.Length ==> a[i] == old(if to <= i < to + n then a[from + (i - to)] else a[i])
  {
    for j := 0 to n
      invariant forall i :: 0 <= i < a.Length ==> a[i] == old(if to <= i < to + j then a[from + (i - to)] else a[i])
    {
      a[to + j] := a[from + j];
    }
  }

  method MoveRight(a: array<nat>, to: nat, from: nat, n: nat)
    requires from <= to && to + n <= a.Length
    modifies a
    ensures forall i :: 0 <= i < a.Length ==> a[i] == old(if to <= i < to + n then a[from + (i - to)] else a[i])
  {
    for j := n downto 0
      invariant forall i :: 0 <= i < a.Length ==> a[i] == old(if to + j <= i < to + n then a[from + (i - to)] else a[i])
    {
      a[to + j] := a[from + j];
    }
  }

  lemma SpliceOut(was: seq<nat>, now: seq<nat>, n: nat, at: nat)
    requires at <= n < |was| == |now|
    requires now[..at] == was[..at] && now[at..n] == was[at + 1..n + 1]
    ensures now[..n] == was[..n + 1][..at] + was[..n + 1][at + 1..]
  {
    assert was[..n + 1][..at] == was[..at] && was[..n + 1][at + 1..] == was[at + 1..n + 1];
    assert now[..n] == now[..at] + now[at..n];
  }

  lemma SpliceIn(was: seq<nat>, now: seq<nat>, n: nat, at: nat, v: nat)
    requires at <= n < |was| == |now|
    requires now[..at] == was[..at] && now[at] == v && now[at + 1..n + 1] == was[at..n]
    ensures now[..n + 1] == was[..n][..at] + [v] + was[..n][at..]
  {
  }

  class DocSampler {
    const topicNum: nat
    const vocNum: nat
    const prior: Prior
    var topicSummary: seq<int>
    var theta: seq<int>
    var sSum: real
    var rSum: real
    var qSum: real
    var qCoeff: seq<real>
    var qTerms: seq<real>
    var qTopics: seq<nat>
    const nonZeroIdx: array<nat>
    var numNonZero: nat

    constructor (topicNum: nat, vocNum: nat, alpha: real, beta: real)
      requires topicNum > 0 && vocNum > 0 && alpha > 0.0 && beta > 0.0
      ensures this.topicNum == topicNum && this.vocNum == vocNum
      ensures prior == Prior(alpha, beta, vocNum as real * beta) && Positive(prior)
      ensures nonZeroIdx.Length == topicNum && fresh(nonZeroIdx)
    {
      this.topicNum, this.vocNum := topicNum, vocNum;
      prior := Prior(alpha, beta, vocNum as real * beta);
      topicSummary, theta := seq(topicNum, _ => 0), seq(topicNum, _ => 0);
      qCoeff, qTerms, qTopics := seq(topicNum, _ => 0.0), [], [];
      sSum, rSum, qSum, numNonZero := 0.0, 0.0, 0.0, 0;
      nonZeroIdx := new nat[topicNum];
    }

    /** Sizes, and enough tokens in the corpus for those of the document. */
    ghost predicate Ready()
      reads this
    {
      && topicNum > 0 && Positive(prior) && nonZeroIdx.Length == topicNum
      && |theta| == |topicSummary| == topicNum
      && Counts(theta, topicSummary)
    }

    /** Every cache equals its definition. */
    ghost predicate Cached()
      reads this, nonZeroIdx
    {
      && Ready()
      && sSum == Sum(STerms(prior, theta, topicSummary))
      && rSum == Sum(RTerms(prior, theta, topicSummary))
      && qCoeff == QCoeffs(prior, theta, topicSummary)
      && numNonZero <= topicNum
      && nonZeroIdx[..numNonZero] == NonZero(theta, 0, topicNum)
    }

    method ComputeDocTopicVector(doc: LDADoc)
      requires |theta| == topicNum && forall i :: 0 <= i < |doc.tokenTopics| ==> doc.tokenTopics[i] < topicNum
      modifies this`theta
      ensures theta == Histogram(doc.tokenTopics, topicNum)
    {
      theta := seq(topicNum, _ => 0);
      var n := |doc.tokenTopics|;
      for i := 0 to n
        invariant theta == Histogram(doc.tokenTopics[..i], topicNum)
      {
        var topic := doc.tokenTopics[i];
        assert doc.tokenTopics[..i + 1][..i] == doc.tokenTopics[..i];
        theta := theta[topic := theta[topic] + 1];
      }
      assert doc.tokenTopics[..n] == doc.tokenTopics;
    }

    method ComputeAuxVariables()
      requires Ready()
      requires |qCoeff| == topicNum
      modifies this`sSum, this`rSum, this`qCoeff, this`numNonZero, nonZeroIdx
      ensures Cached()
    {
      hide Counts, STerms, RTerms, QCoeffs, Sum, SMass, RMass, QMass;
      assert Sum([]) == 0.0 by { SumEmpty(); }
      sSum, rSum, numNonZero := 0.0, 0.0, 0;
      ghost var ss, rs, qs := STerms(prior, theta, topicSummary), RTerms(prior, theta, topicSummary), QCoeffs(prior, theta, topicSummary);
      assert ss[..0] == [] && rs[..0] == [];
      for k := 0 to topicNum
        invariant |qCoeff| == topicNum && forall j :: 0 <= j < k ==> qCoeff[j] == qs[j]
        invariant sSum == Sum(ss[..k]) && rSum == Sum(rs[..k])
        invariant numNonZero <= k && nonZeroIdx[..numNonZero] == NonZero(theta, 0, k)
      {
        var denom := topicSummary[k] as real + prior.betaSum;
        TermsAt(prior, theta, topicSummary, k);
        assert denom == Denom(prior, topicSummary[k]);
        NoRMass(prior, denom);
        qCoeff := qCoeff[k := QMass(prior, theta[k], denom)];
        sSum := sSum + SMass(prior, denom);
        SumExtend(ss, k);
        SumExtend(rs, k);
        assert sSum == Sum(ss[..k + 1]);
        if theta[k] != 0 {
          rSum := rSum + RMass(prior, theta[k], denom);
          nonZeroIdx[numNonZero] := k;
          assert nonZeroIdx[..numNonZero + 1] == nonZeroIdx[..numNonZero] + [k];
          numNonZero := numNonZero + 1;
        }
      }
      assert ss[..topicNum] == ss && rs[..topicNum] == rs;
    }

    /** Taking a topic out of the index list. */
    method Drop(topic: nat, ghost was: seq<int>)
      requires topic < |was| && was[topic] != 0 && numNonZero <= nonZeroIdx.Length
      requires nonZeroIdx[..numNonZero] == NonZero(was, 0, |was|)
      modifies this`numNonZero, nonZeroIdx
      ensures numNonZero <= nonZeroIdx.Length
      ensures nonZeroIdx[..numNonZero] == NonZero(was[topic := 0], 0, |was|)
    {
      hide NonZero;
      var at := LowerBound(nonZeroIdx[..numNonZero], 0, topic);
      NonZeroRemove(was, topic, at);
      MoveLeft(nonZeroIdx, at, at + 1, numNonZero - at - 1);
      numNonZero := numNonZero - 1;
      assert nonZeroIdx[..at] == old(nonZeroIdx[..at]);
      assert nonZeroIdx[at..numNonZero] == old(nonZeroIdx[at + 1..numNonZero]);
      SpliceOut(old(nonZeroIdx[..]), nonZeroIdx[..], numNonZero, at);
    }

    /** Putting a topic into the index list. */
    method Enlist(topic: nat, ghost was: seq<int>)
      requires topic < |was| == nonZeroIdx.Length && was[topic] == 0 && numNonZero <= nonZeroIdx.Length
      requires nonZeroIdx[..numNonZero] == NonZero(was, 0, |was|)
      modifies this`numNonZero, nonZeroIdx
      ensures numNonZero <= nonZeroIdx.Length
      ensures nonZeroIdx[..numNonZero] == NonZero(was[topic := 1], 0, |was|)
    {
      hide NonZero;
      var at := LowerBound(nonZeroIdx[..numNonZero], 0, topic);
      NonZeroInsert(was, topic, 1, at);
      MoveRight(nonZeroIdx, at + 1, at, numNonZero - at);
      nonZeroIdx[at] := topic;
      numNonZero := numNonZero + 1;
      assert nonZeroIdx[..at] == old(nonZeroIdx[..at]);
      assert nonZeroIdx[at + 1..numNonZero] == old(nonZeroIdx[at..numNonZero]);
      SpliceIn(old(nonZeroIdx[..]), nonZeroIdx[..], old(numNonZero), at, topic);
    }

    /** Correcting the sums and the coefficient for d more tokens of this topic. */
    method Correct(topic: nat, d: int)
      requires Cached() && topic < topicNum && theta[topic] + d >= 0
      modifies this`sSum, this`rSum, this`qCoeff
      ensures Counts(theta[topic := theta[topic] + d], topicSummary[topic := topicSummary[topic] + d])
      ensures var theta', summary' := theta[topic := theta[topic] + d], topicSummary[topic := topicSummary[topic] + d];
              && sSum == Sum(STerms(prior, theta', summary'))
              && rSum == Sum(RTerms(prior, theta', summary'))
              && qCoeff == QCoeffs(prior, theta', summary')
    {
      hide Counts, STerms, RTerms, QCoeffs, Sum, NonZero, SMass, RMass, QMass, Positive;
      MoveTopic(prior, theta, topicSummary, topic, d);
      var denom := topicSummary[topic] as real + prior.betaSum;
      var moved := denom + d as real;
      assert denom == Denom(prior, topicSummary[topic]) && moved == Denom(prior, topicSummary[topic] + d);
      sSum := sSum - SMass(prior, denom);
      sSum := sSum + SMass(prior, moved);
      rSum := rSum - RMass(prior, theta[topic], denom);
      rSum := rSum + RMass(prior, theta[topic] + d, moved);
      qCoeff := qCoeff[topic := QMass(prior, theta[topic] + d, moved)];
    }

    /** Taking a token of this topic out. */
    method RemoveToken(topic: nat)
      requires Cached() && topic < topicNum && theta[topic] > 0
      modifies this`sSum, this`rSum, this`qCoeff, this`theta, this`topicSummary, this`numNonZero, nonZeroIdx
      ensures Cached()
      ensures theta == old(theta)[topic := old(theta)[topic] - 1]
      ensures topicSummary == old(topicSummary)[topic := old(topicSummary)[topic] - 1]
    {
      hide Counts, STerms, RTerms, QCoeffs, Sum, NonZero, Positive;
      Correct(topic, -1);
      theta := theta[topic := theta[topic] - 1];
      if theta[topic] == 0 {
        Drop(topic, old(theta));
      } else {
        NonZeroSame(old(theta), topic, theta[topic]);
      }
      topicSummary := topicSummary[topic := topicSummary[topic] - 1];
    }

    /** Putting a token of this topic in. */
    method AddToken(topic: nat)
      requires Cached() && topic < topicNum
      modifies this`sSum, this`rSum, this`qCoeff, this`theta, this`topicSummary, this`numNonZero, nonZeroIdx
      ensures Cached()
      ensures theta == old(theta)[topic := old(theta)[topic] + 1]
      ensures topicSummary == old(topicSummary)[topic := old(topicSummary)[topic] + 1]
    {
      hide Counts, STerms, RTerms, QCoeffs, Sum, NonZero, Positive;
      CountsAt(theta, topicSummary, topic);
      Correct(topic, 1);
      theta := theta[topic := theta[topic] + 1];
      if theta[topic] == 1 {
        Enlist(topic, old(theta));
      } else {
        NonZeroSame(old(theta), topic, theta[topic]);
      }
      topicSummary := topicSummary[topic := topicSummary[topic] + 1];
    }

    /** The q bucket holds the topics the row has tokens of, in order, with their
        weights and the sum of them. */
    ghost predicate QReady(row: seq<int>, oldTopic: nat)
      reads this, nonZeroIdx
    {
      && Cached() && |row| == topicNum
      && qTopics == NonZero(Marks(row), 0, topicNum)
      && qTerms == Picked(QWeights(prior, theta, topicSummary, row, oldTopic), qTopics)
      && qSum == Sum(qTerms)
    }

    /** The q bucket of a word with the given counts per topic. */
    method ComputeQ(row: seq<int>, oldTopic: nat)
      requires Cached() && |row| == topicNum
      modifies this`qSum, this`qTerms, this`qTopics
      ensures QReady(row, oldTopic)
      ensures Increasing(qTopics) && forall k: nat :: k in qTopics <==> k < topicNum && row[k] > 0
      ensures |qTerms| == |qTopics|
      ensures forall i :: 0 <= i < |qTopics| ==>
                qTopics[i] < topicNum && qTerms[i] == qCoeff[qTopics[i]] * (if qTopics[i] == oldTopic then row[qTopics[i]] - 1 else row[qTopics[i]]) as real
    {
      hide Counts, STerms, RTerms, QCoeffs, QWeights, Positive, Sum, Increasing, NonZero, Picked;
      FillQ(row, oldTopic);
      ghost var qs, marks := QWeights(prior, theta, topicSummary, row, oldTopic), Marks(row);
      NonZeroIncreases(marks, 0, topicNum);
      forall k: nat ensures k in qTopics <==> k < topicNum && row[k] > 0 {
        NonZeroHas(marks, 0, topicNum, k);
      }
      forall i | 0 <= i < |qTopics|
        ensures qTopics[i] < topicNum && qTerms[i] == qCoeff[qTopics[i]] * (if qTopics[i] == oldTopic then row[qTopics[i]] - 1 else row[qTopics[i]]) as real
      {
        var k := qTopics[i];
        assert k in qTopics;
        QWeightIs(prior, theta, topicSummary, row, oldTopic, k);
        assert qTerms[i] == qs[k] by { PickedAt(qs, qTopics, i); }
      }
    }

    method FillQ(row: seq<int>, oldTopic: nat)
      requires Cached() && |row| == topicNum
      modifies this`qSum, this`qTerms, this`qTopics
      ensures QReady(row, oldTopic)
    {
      hide Counts, STerms, RTerms, QCoeffs, QWeights, Positive, Sum, NonZero, Picked;
      ghost var qs, marks := QWeights(prior, theta, topicSummary, row, oldTopic), Marks(row);
      SumEmpty();
      qSum, qTerms, qTopics := 0.0, [], [];
      QStart(qs, marks);
      for topic := 0 to topicNum
        invariant qTopics == NonZero(marks, 0, topic)
        invariant forall i :: 0 <= i < |qTopics| ==> qTopics[i] < topicNum
        invariant qTerms == Picked(qs, qTopics)
        invariant qSum == Sum(qTerms)
      {
        var count := row[topic];
        ghost var before := qTopics;
        QStep(qs, marks, topic);
        if count > 0 {
          QWeightIs(prior, theta, topicSummary, row, oldTopic, topic);
          var term := if topic == oldTopic then qCoeff[topic] * (count - 1) as real else qCoeff[topic] * count as real;
          SumAppend(qTerms, term);
          qTerms, qTopics := qTerms + [term], qTopics + [topic];
          assert qTopics == before + [topic] && term == qs[topic];
          qSum := qSum + term;
        }
      }
    }

    method SampleQ(x: real, ghost row: seq<int>, ghost oldTopic: nat) returns (topic: nat)
      requires QReady(row, oldTopic) && 0.0 <= x < qSum
      ensures topic < topicNum && Hits(QWeights(prior, theta, topicSummary, row, oldTopic), InRow(row), x, topic)
    {
      hide Sum, Counts, Positive, STerms, RTerms, QCoeffs, QWeights, NonZero, Picked, Lands, Hits;
      var i := Shoot(qTerms, x);
      RowHits(prior, theta, topicSummary, row, oldTopic, x, i);
      topic := qTopics[i];
    }

    method SampleR(x: real) returns (topic: nat)
      requires Cached() && 0.0 <= x < rSum
      ensures topic < topicNum && theta[topic] > 0 && Hits(RTerms(prior, theta, topicSummary), InDoc(theta), x, topic)
    {
      RFactored(prior, theta, topicSummary);
      ghost var shares := Picked(RShares(prior, theta, topicSummary), NonZero(theta, 0, topicNum));
      DivLess(x, Sum(shares), prior.beta);
      var sample := x / prior.beta;
      hide RShares, STerms, RTerms, QCoeffs, Sum, Picked, NonZero, Lands, Hits;
      var i := Shoot(Picked(RShares(prior, theta, topicSummary), nonZeroIdx[..numNonZero]), sample);
      assert i < |shares| by { LandsInside(shares, sample, i); }
      RHits(prior, theta, topicSummary, x, i);
      topic := nonZeroIdx[i];
      assert topic == nonZeroIdx[..numNonZero][i];
      NonZeroHas(theta, 0, topicNum, topic);
    }

    method SampleS(x: real) returns (topic: nat)
      requires Cached() && 0.0 <= x < sSum
      ensures topic < topicNum && Hits(STerms(prior, theta, topicSummary), All(topicNum), x, topic)
    {
      hide Counts, STerms, RTerms, QCoeffs, Sum;
      SFactored(prior, theta, topicSummary);
      DivLess(x, Sum(SShares(prior, theta, topicSummary)), prior.alpha * prior.beta);
      var sample := x / (prior.alpha * prior.beta);
      topic := Shoot(SShares(prior, theta, topicSummary), sample);
      SHits(prior, theta, topicSummary, x, topic);
    }

    /** Sampling with a draw u from [0, 1). */
    method Sample(u: real, ghost row: seq<int>, ghost oldTopic: nat) returns (topic: nat)
      requires QReady(row, oldTopic) && 0.0 <= u < 1.0
      ensures topic < topicNum && Chooses(prior, theta, topicSummary, row, oldTopic, u, topic)
    {
      BucketsNonNegative(prior, theta, topicSummary);
      RowSum(prior, theta, topicSummary, row, oldTopic);
      hide Counts, Positive, STerms, RTerms, QCoeffs, QWeights, NonZero, Sum, FallsAt, Picked, Chooses, InRow, InDoc, All, Marks, Dart;
      var totalMass := qSum + rSum + sSum;
      DrawBelow(u, totalMass);
      var sample := Dart(u, totalMass);
      topic := SampleAt(sample, row, oldTopic);
      ChoosesFrom(prior, theta, topicSummary, row, oldTopic, u, totalMass, sample, topic);
    }

    /** Shooting a dart at x on the buckets laid side by side. */
    method SampleAt(x: real, ghost row: seq<int>, ghost oldTopic: nat) returns (topic: nat)
      requires QReady(row, oldTopic) && 0.0 <= x < qSum + rSum + sSum
      ensures topic < topicNum
      ensures FallsAt(QWeights(prior, theta, topicSummary, row, oldTopic), InRow(row), RTerms(prior, theta, topicSummary), InDoc(theta),
                      STerms(prior, theta, topicSummary), All(topicNum), x, topic)
    {
      hide Counts, STerms, RTerms, QCoeffs, QWeights, NonZero, Sum, Hits, Picked;
      RowSum(prior, theta, topicSummary, row, oldTopic);
      var sample := x;
      if sample < qSum {
        topic := SampleQ(sample, row, oldTopic);
      } else {
        sample := sample - qSum;
        if sample < rSum {
          topic := SampleR(sample);
        } else {
          sample := sample - rSum;
          topic := SampleS(sample);
        }
      }
    }

    /** Giving one token a new topic, the word's row having been decremented. */
    method Resample(oldTopic: nat, row: seq<int>, u: real) returns (newTopic: nat)
      requires Cached() && oldTopic < topicNum && theta[oldTopic] > 0 && |row| == topicNum && 0.0 <= u < 1.0
      modifies this, nonZeroIdx
      ensures Cached() && newTopic < topicNum
      ensures Moved(old(theta), oldTopic, newTopic, theta) && Moved(old(topicSummary), oldTopic, newTopic, topicSummary)
      ensures var others := old(theta)[oldTopic := old(theta)[oldTopic] - 1];
              var summary := old(topicSummary)[oldTopic := old(topicSummary)[oldTopic] - 1];
              && Counts(others, summary)
              && Chooses(prior, others, summary, row, oldTopic, u, newTopic)
    {
      hide STerms, RTerms, QCoeffs, QWeights, NonZero, Sum, Chooses, Picked;
      RemoveToken(oldTopic);
      ComputeQ(row, oldTopic);
      newTopic := Sample(u, row, oldTopic);
      AddToken(newTopic);
    }

    /** The caches of a document with these topics, on the summary row as it was when
        the topics were topics0. */
    ghost predicate InStep(summary0: seq<int>, topics0: seq<nat>, topics: seq<nat>)
      reads this, nonZeroIdx
    {
      && Cached() && |summary0| == topicNum
      && theta == Histogram(topics, topicNum)
      && (forall i :: 0 <= i < |topics| ==> topics[i] < topicNum)
      && forall k :: 0 <= k < topicNum ==> topicSummary[k] == summary0[k] + TopicCount(topics, k) - TopicCount(topics0, k)
    }

    /** Computing everything from scratch for a document. */
    method Prepare(doc: LDADoc)
      requires topicNum > 0 && Positive(prior) && nonZeroIdx.Length == topicNum && |qCoeff| == |theta| == |topicSummary| == topicNum
      requires forall i :: 0 <= i < |doc.tokenTopics| ==> doc.tokenTopics[i] < topicNum
      requires forall k :: 0 <= k < topicNum ==> TopicCount(doc.tokenTopics, k) <= topicSummary[k]
      modifies this, nonZeroIdx
      ensures topicSummary == old(topicSummary)
      ensures InStep(topicSummary, doc.tokenTopics, doc.tokenTopics)
    {
      hide STerms, RTerms, QCoeffs, Sum, NonZero;
      ComputeDocTopicVector(doc);
      ComputeAuxVariables();
    }

    /** The document began like this, and its first i tokens have their new topics. */
    ghost predicate Begun(b: Begin, topics: seq<nat>, i: nat)
      reads this, nonZeroIdx
    {
      && Sized(b) && b.prior == prior && b.topicNum == topicNum
      && InStep(b.summary, b.topics, topics)
      && AllChosen(b, topics, i) && topics[i..] == b.topics[i..]
    }

    /** The next token gets a new topic, the one its draw chooses. */
    method SampleToken(doc: LDADoc, i: nat, row: seq<int>, u: real, ghost b: Begin) returns (newTopic: nat)
      requires Begun(b, doc.tokenTopics, i) && i < |doc.tokenTopics| && u == b.draws[i] && 0.0 <= u < 1.0
      requires |row| == topicNum && RowLess(b, doc.tokenTopics, i, row)
      modifies this, nonZeroIdx, doc`tokenTopics
      ensures newTopic < topicNum && doc.tokenTopics == old(doc.tokenTopics)[i := newTopic]
      ensures Begun(b, doc.tokenTopics, i + 1)
    {
      hide Counts, STerms, RTerms, QCoeffs, QWeights, Sum, NonZero, AllChosen, Sized, Chooses, RowLess, TakenOut, Positive;
      ghost var topics := doc.tokenTopics;
      var oldTopic := doc.tokenTopics[i];
      TopicsBounded(b, topics, i);
      TopicCountUpdate(topics, i, oldTopic, oldTopic);
      ghost var others, summary := theta[oldTopic := theta[oldTopic] - 1], topicSummary[oldTopic := topicSummary[oldTopic] - 1];
      TakeOut(b, topics, i, theta, topicSummary, others, summary, row);
      newTopic := Resample(oldTopic, row, u);
      if oldTopic != newTopic {
        doc.SetTopic(i, newTopic);
      }
      ChosenNext(b, topics, i, others, summary, row, newTopic);
      CountsMove(topics, i, newTopic, topicNum);
    }

    /** What a document must meet before it is sampled. */
    ghost predicate Samples(doc: LDADoc, findStart: map<nat, nat>, draws: seq<real>)
      reads this, doc
    {
      && topicNum > 0 && Positive(prior) && nonZeroIdx.Length == topicNum && |qCoeff| == |theta| == topicNum
      && |doc.tokens| == |doc.tokenTopics| == |draws|
      && (forall i :: 0 <= i < |doc.tokenTopics| ==> doc.tokenTopics[i] < topicNum)
      && (forall i :: 0 <= i < |draws| ==> 0.0 <= draws[i] < 1.0)
      && vocNum in findStart && forall i :: 0 <= i < |doc.tokens| ==> doc.tokens[i] in findStart
    }

    /** Sampling a document on tables with one vector per word. The summary row is
        not row 0 and belongs to no word. */
    method SampleOneDoc(doc: LDADoc, tables: WordTopics, findStart: map<nat, nat>, draws: seq<real>, ghost rows: seq<nat>)
      requires Samples(doc, findStart, draws)
      requires var s := findStart[vocNum];
               && 0 < s < |tables.count| == |tables.updates|
               && Rectangular(tables.count, topicNum) && Rectangular(tables.updates, topicNum)
               && forall k :: 0 <= k < topicNum ==> TopicCount(doc.tokenTopics, k) <= tables.count[s][k]
      requires |rows| == |doc.tokens|
      requires forall i :: 0 <= i < |rows| ==> rows[i] == findStart[doc.tokens[i]] && rows[i] < |tables.count| && rows[i] != findStart[vocNum]
      modifies this, nonZeroIdx, doc`tokenTopics, tables
      ensures |doc.tokenTopics| == old(|doc.tokenTopics|)
      ensures var b := Begin(prior, topicNum, rows, old(doc.tokenTopics), old(tables.count[findStart[vocNum]]), old(tables.count), draws);
              Sized(b) && forall i: nat :: i < |doc.tokens| ==> TokenChosen(b, doc.tokenTopics, i)
      ensures InStep(old(tables.count[findStart[vocNum]]), old(doc.tokenTopics), doc.tokenTopics)
      ensures Tracks(findStart[vocNum], topicNum, rows, old(doc.tokenTopics), old(tables.count), old(tables.updates),
                     doc.tokenTopics, tables.count, tables.updates)
    {
      var s := findStart[vocNum];
      topicSummary := tables.count[s];
      Prepare(doc);
      ghost var count0, updates0 := tables.count, tables.updates;
      ghost var b := Begin(prior, topicNum, rows, doc.tokenTopics, count0[s], count0, draws);
      hide Cached, InStep, Begun, AllChosen, TokenChosen, Sized, Tracks;
      BeginTable(b, s, updates0);
      StartDoc(b);
      for i := 0 to |doc.tokens|
        invariant |doc.tokenTopics| == |b.topics| && Begun(b, doc.tokenTopics, i)
        invariant Tracks(s, topicNum, rows, b.topics, count0, updates0, doc.tokenTopics, tables.count, tables.updates)
      {
        NextToken(doc, i, tables, findStart[doc.tokens[i]], s, draws[i], b, updates0);
      }
      DocDone(b, doc.tokenTopics);
    }

    method NextToken(doc: LDADoc, i: nat, tables: WordTopics, w: nat, s: nat, u: real, ghost b: Begin, ghost updates0: Table)
      requires i < |doc.tokenTopics| == |b.rows| == |b.draws| && b.rows[i] == w && w < |tables.count| && w != s && u == b.draws[i] && 0.0 <= u < 1.0
      requires Begun(b, doc.tokenTopics, i)
      requires Tracks(s, topicNum, b.rows, b.topics, b.count, updates0, doc.tokenTopics, tables.count, tables.updates)
      modifies this, nonZeroIdx, doc`tokenTopics, tables
      ensures |doc.tokenTopics| == old(|doc.tokenTopics|)
      ensures Begun(b, doc.tokenTopics, i + 1)
      ensures |tables.count| == old(|tables.count|)
      ensures Tracks(s, topicNum, b.rows, b.topics, b.count, updates0, doc.tokenTopics, tables.count, tables.updates)
    {
      hide Cached, InStep, Begun, RowLess, Tracks;
      ghost var topics, count, updates := doc.tokenTopics, tables.count, tables.updates;
      var oldTopic := doc.tokenTopics[i];
      TopicsBounded(b, doc.tokenTopics, i);
      TracksShape(s, topicNum, b.rows, b.topics, b.count, updates0, topics, count, updates);
      tables.Remove(w, s, oldTopic);
      RowIsLess(b, s, updates0, topics, count, updates, i);
      var newTopic := SampleToken(doc, i, tables.count[w], u, b);
      tables.Add(w, s, newTopic);
      TracksStep(s, topicNum, b.rows, b.topics, b.count, updates0, topics, count, updates, i, newTopic);
    }

    lemma StartDoc(b: Begin)
      requires Sized(b) && b.prior == prior && b.topicNum == topicNum && InStep(b.summary, b.topics, b.topics)
      ensures Begun(b, b.topics, 0)
    {
    }

    lemma DocDone(b: Begin, topics: seq<nat>)
      requires |topics| == |b.topics| && Begun(b, topics, |topics|)
      ensures Sized(b) && InStep(b.summary, b.topics, topics)
      ensures forall i: nat :: i < |topics| ==> TokenChosen(b, topics, i)
    {
    }

    method LoadSummary(tables: FlatWordTopics, start: nat)
      requires |topicSummary| == topicNum && start + topicNum <= |tables.count|
      modifies this`topicSummary
      ensures topicSummary == tables.count[start..start + topicNum]
    {
      for k := 0 to topicNum
        invariant |topicSummary| == topicNum
        invariant forall j :: 0 <= j < k ==> topicSummary[j] == tables.count[start + j]
      {
        topicSummary := topicSummary[k := tables.count[start + k]];
      }
    }

    /** Sampling a document on tables in one vector each, the words' rows being those
        at the given offsets and row s the summary row. */
    method SampleOneDocFlat(doc: LDADoc, tables: FlatWordTopics, findStart: map<nat, nat>, draws: seq<real>,
                            ghost starts: seq<nat>, ghost rows: seq<nat>, ghost s: nat)
      requires Samples(doc, findStart, draws) && |topicSummary| == topicNum
      requires tables.Rows(starts, topicNum) && s < |starts| && starts[s] == findStart[vocNum]
      requires forall k :: 0 <= k < topicNum ==> TopicCount(doc.tokenTopics, k) <= tables.count[starts[s] + k]
      requires |rows| == |doc.tokens|
      requires forall i :: 0 <= i < |rows| ==> rows[i] < |starts| && rows[i] != s && starts[rows[i]] == findStart[doc.tokens[i]]
      modifies this, nonZeroIdx, doc`tokenTopics, tables
      ensures |doc.tokenTopics| == old(|doc.tokenTopics|) && tables.Rows(starts, topicNum)
      ensures var table := old(View(tables.count, starts, topicNum));
              var b := Begin(prior, topicNum, rows, old(doc.tokenTopics), table[s], table, draws);
              Sized(b) && forall i: nat :: i < |doc.tokens| ==> TokenChosen(b, doc.tokenTopics, i)
      ensures InStep(old(View(tables.count, starts, topicNum)[s]), old(doc.tokenTopics), doc.tokenTopics)
      ensures Tracks(s, topicNum, rows, old(doc.tokenTopics), old(View(tables.count, starts, topicNum)), old(View(tables.updates, starts, topicNum)),
                     doc.tokenTopics, View(tables.count, starts, topicNum), View(tables.updates, starts, topicNum))
    {
      var start := findStart[vocNum];
      LoadSummary(tables, start);
      ghost var count0, updates0 := View(tables.count, starts, topicNum), View(tables.updates, starts, topicNum);
      assert topicSummary == count0[s];
      Prepare(doc);
      ghost var b := Begin(prior, topicNum, rows, doc.tokenTopics, count0[s], count0, draws);
      hide Cached, InStep, Begun, AllChosen, TokenChosen, Tracks, Laid, View, Counts;
      BeginTable(b, s, updates0);
      StartDoc(b);
      for i := 0 to |doc.tokens|
        invariant |doc.tokenTopics| == |b.topics| && tables.Rows(starts, topicNum)
        invariant Begun(b, doc.tokenTopics, i)
        invariant Tracks(s, topicNum, rows, b.topics, count0, updates0, doc.tokenTopics,
                         View(tables.count, starts, topicNum), View(tables.updates, starts, topicNum))
      {
        NextTokenFlat(doc, i, tables, findStart[doc.tokens[i]], start, draws[i], starts, s, b, updates0);
      }
      DocDone(b, doc.tokenTopics);
    }

    method NextTokenFlat(doc: LDADoc, i: nat, tables: FlatWordTopics, w: nat, start: nat, u: real,
                         ghost starts: seq<nat>, ghost s: nat, ghost b: Begin, ghost updates0: Table)
      requires tables.Rows(starts, topicNum) && s < |starts| && starts[s] == start && 0.0 <= u < 1.0
      requires i < |doc.tokenTopics| == |b.rows| == |b.draws| && u == b.draws[i]
      requires b.rows[i] < |starts| && b.rows[i] != s && starts[b.rows[i]] == w
      requires Begun(b, doc.tokenTopics, i)
      requires Tracks(s, topicNum, b.rows, b.topics, b.count, updates0, doc.tokenTopics,
                      View(tables.count, starts, topicNum), View(tables.updates, starts, topicNum))
      modifies this, nonZeroIdx, doc`tokenTopics, tables
      ensures |doc.tokenTopics| == old(|doc.tokenTopics|) && tables.Rows(starts, topicNum)
      ensures Begun(b, doc.tokenTopics, i + 1)
      ensures Tracks(s, topicNum, b.rows, b.topics, b.count, updates0, doc.tokenTopics,
                     View(tables.count, starts, topicNum), View(tables.updates, starts, topicNum))
    {
      hide Cached, InStep, Begun, View, Laid, Rectangular, Tracks, RowLess, Sized, Bump;
      ghost var topics, count, updates := doc.tokenTopics, View(tables.count, starts, topicNum), View(tables.updates, starts, topicNum);
      var oldTopic := doc.tokenTopics[i];
      TopicsBounded(b, doc.tokenTopics, i);
      tables.Remove(w, start, oldTopic, starts, topicNum, b.rows[i], s);
      LaidRow(tables.count, starts, topicNum, b.rows[i]);
      RowIsLess(b, s, updates0, topics, count, updates, i);
      var newTopic := SampleToken(doc, i, tables.count[w..w + topicNum], u, b);
      tables.Add(w, start, newTopic, starts, topicNum, b.rows[i], s);
      TracksStep(s, topicNum, b.rows, b.topics, b.count, updates0, topics, count, updates, i, newTopic);
    }

    lemma TopicsBounded(b: Begin, topics: seq<nat>, i: nat)
      requires Begun(b, topics, i) && i < |topics|
      ensures topics[i] < topicNum && b.topicNum == topicNum && Sized(b) && |topics| == |b.topics|
    {
    }
  }

  /** The row of the word of token i, when that token is taken out. */
  ghost predicate RowLess(b: Begin, topics: seq<nat>, i: nat, row: seq<int>)
    requires Sized(b) && i < |topics| == |b.topics|
  {
    && |row| == b.topicNum
    && forall k: nat :: k < b.topicNum ==>
         row[k] == b.count[b.rows[i]][k] + CellCount(b.rows, topics, b.rows[i], k) - CellCount(b.rows, b.topics, b.rows[i], k)
                   - (if topics[i] == k then 1 else 0)
  }

  lemma RowIsLess(b: Begin, s: nat, updates0: Table, topics: seq<nat>, count: Table, updates: Table, i: nat)
    requires Sized(b) && i < |topics| == |b.topics| && topics[i] < b.topicNum
    requires Tracks(s, b.topicNum, b.rows, b.topics, b.count, updates0, topics, count, updates)
    requires b.rows[i] < |count| && b.rows[i] != s
    ensures |count[b.rows[i]]| == b.topicNum
    ensures RowLess(b, topics, i, Bump(count, b.rows[i], topics[i], -1)[b.rows[i]])
  {
    hide CellCount, TopicCount;
  }

  /** The counts of a document and its corpus, and those without token i. */
  lemma TakeOut(b: Begin, topics: seq<nat>, i: nat, theta: seq<int>, summary: seq<int>, theta': seq<int>, summary': seq<int>, row: seq<int>)
    requires Sized(b) && i < |topics| == |b.topics| && topics[i] < b.topicNum && RowLess(b, topics, i, row)
    requires theta == Histogram(topics, b.topicNum) && |summary| == b.topicNum
    requires forall k :: 0 <= k < b.topicNum ==> summary[k] == b.summary[k] + TopicCount(topics, k) - TopicCount(b.topics, k)
    requires theta' == theta[topics[i] := theta[topics[i]] - 1] && summary' == summary[topics[i] := summary[topics[i]] - 1]
    ensures TakenOut(b, topics, i, theta', summary', row)
  {
    hide TopicCount, CellCount;
  }

  lemma CountsMove(topics: seq<nat>, i: nat, t: nat, n: nat)
    requires i < |topics|
    ensures forall k :: 0 <= k < n ==>
              TopicCount(topics[i := t], k) == TopicCount(topics, k) - (if topics[i] == k then 1 else 0) + (if t == k then 1 else 0)
  {
    forall k | 0 <= k < n
      ensures TopicCount(topics[i := t], k) == TopicCount(topics, k) - (if topics[i] == k then 1 else 0) + (if t == k then 1 else 0)
    {
      TopicCountUpdate(topics, i, t, k);
    }
  }

  lemma BeginTable(b: Begin, s: nat, updates0: Table)
    requires s < |b.count| == |updates0| && Rectangular(b.count, b.topicNum) && Rectangular(updates0, b.topicNum) && |b.rows| == |b.topics|
    ensures Tracks(s, b.topicNum, b.rows, b.topics, b.count, updates0, b.topics, b.count, updates0)
  {
  }

  /** One token less of a topic and one more of another. */
  predicate Moved(was: seq<int>, oldTopic: nat, newTopic: nat, now: seq<int>) {
    && |now| == |was|
    && forall k :: 0 <= k < |was| ==> now[k] == was[k] - (if oldTopic == k then 1 else 0) + (if newTopic == k then 1 else 0)
  }
}

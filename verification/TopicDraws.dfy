// A document's topics after sampling: each is the one its draw chooses, given the new
// topics of the tokens before it and the old topics of those after it.
module TopicDraws {
  import opened TopicTables
  import opened TopicWeights

  /** A document and the counts before it is sampled, and its draws. Row rows[i] of the
      table counts the word of token i. */
  datatype Begin = Begin(prior: Prior, topicNum: nat, rows: seq<nat>, topics: seq<nat>, summary: seq<int>, count: Table, draws: seq<real>)

  predicate Sized(b: Begin) {
    && Positive(b.prior) && |b.rows| == |b.topics| == |b.draws| && |b.summary| == b.topicNum
    && (forall r :: 0 <= r < |b.count| ==> |b.count[r]| == b.topicNum)
    && forall i :: 0 <= i < |b.rows| ==> b.rows[i] < |b.count|
  }

  /** All but the i-th. */
  function Others<T>(s: seq<T>, i: nat): (r: seq<T>)
    requires i < |s|
    ensures |r| == |s| - 1
  {
    s[..i] + s[i + 1..]
  }

  /** The topics of the other tokens when token i is resampled. */
  function Beside(b: Begin, topics: seq<nat>, i: nat): (r: seq<nat>)
    requires i < |topics| == |b.topics|
    ensures |r| == |topics| - 1
  {
    topics[..i] + b.topics[i + 1..]
  }

  /** The document's counts per topic, without token i. */
  function DocCounts(b: Begin, others: seq<nat>): (r: seq<int>)
    ensures |r| == b.topicNum && forall k :: 0 <= k < b.topicNum ==> r[k] == TopicCount(others, k)
  {
    seq(b.topicNum, k requires 0 <= k < b.topicNum => TopicCount(others, k))
  }

  /** The corpus's counts per topic. */
  function SummaryCounts(b: Begin, others: seq<nat>): (r: seq<int>)
    requires |b.summary| == b.topicNum
    ensures |r| == b.topicNum
    ensures forall k :: 0 <= k < b.topicNum ==> r[k] == b.summary[k] - TopicCount(b.topics, k) + TopicCount(others, k)
  {
    seq(b.topicNum, k requires 0 <= k < b.topicNum => b.summary[k] - TopicCount(b.topics, k) + TopicCount(others, k))
  }

  /** The counts per topic of the word of token i. */
  function WordCounts(b: Begin, i: nat, others: seq<nat>): (r: seq<int>)
    requires Sized(b) && i < |b.rows| == |others| + 1
    ensures |r| == b.topicNum
    ensures var w := b.rows[i];
            forall k :: 0 <= k < b.topicNum ==>
              r[k] == b.count[w][k] - CellCount(b.rows, b.topics, w, k) + CellCount(Others(b.rows, i), others, w, k)
  {
    var w := b.rows[i];
    seq(b.topicNum, k requires 0 <= k < b.topicNum =>
      b.count[w][k] - CellCount(b.rows, b.topics, w, k) + CellCount(Others(b.rows, i), others, w, k))
  }

  /** The topic of token i is the one its draw chooses. */
  ghost predicate TokenChosen(b: Begin, topics: seq<nat>, i: nat)
    requires Sized(b) && i < |topics| == |b.topics|
  {
    var others := Beside(b, topics, i);
    && Counts(DocCounts(b, others), SummaryCounts(b, others))
    && Chooses(b.prior, DocCounts(b, others), SummaryCounts(b, others), WordCounts(b, i, others), b.topics[i], b.draws[i], topics[i])
  }

  ghost predicate AllChosen(b: Begin, topics: seq<nat>, n: nat)
    requires Sized(b)
  {
    && n <= |topics| == |b.topics|
    && forall i: nat :: i < n ==> TokenChosen(b, topics, i)
  }

  lemma {:induction false} TopicCountOthers(topics: seq<nat>, i: nat, k: nat)
    requires i < |topics|
    ensures TopicCount(Others(topics, i), k) == TopicCount(topics, k) - (if topics[i] == k then 1 else 0)
  {
    var n := |topics| - 1;
    var rest := Others(topics, i);
    if i == n {
      assert rest == topics[..n];
    } else {
      TopicCountOthers(topics[..n], i, k);
      assert rest[..n - 1] == Others(topics[..n], i);
    }
  }

  lemma {:induction false} CellCountOthers(rows: seq<nat>, topics: seq<nat>, i: nat, r: nat, k: nat)
    requires i < |topics| == |rows|
    ensures CellCount(Others(rows, i), Others(topics, i), r, k) == CellCount(rows, topics, r, k) - (if rows[i] == r && topics[i] == k then 1 else 0)
  {
    var n := |topics| - 1;
    var rest, at := Others(topics, i), Others(rows, i);
    if i == n {
      assert rest == topics[..n] && at == rows[..n];
    } else {
      CellCountOthers(rows[..n], topics[..n], i, r, k);
      assert rest[..n - 1] == Others(topics[..n], i) && at[..n - 1] == Others(rows[..n], i);
    }
  }

  /** The counts of the current topics, less token i. */
  ghost predicate TakenOut(b: Begin, topics: seq<nat>, i: nat, theta: seq<int>, summary: seq<int>, row: seq<int>)
    requires Sized(b) && i < |topics| == |b.topics|
  {
    && |theta| == |summary| == |row| == b.topicNum
    && forall k: nat :: k < b.topicNum ==>
         && theta[k] == TopicCount(topics, k) - (if topics[i] == k then 1 else 0)
         && summary[k] == b.summary[k] + TopicCount(topics, k) - TopicCount(b.topics, k) - (if topics[i] == k then 1 else 0)
         && row[k] == b.count[b.rows[i]][k] + CellCount(b.rows, topics, b.rows[i], k) - CellCount(b.rows, b.topics, b.rows[i], k)
                      - (if topics[i] == k then 1 else 0)
  }

  lemma TakenOutIs(b: Begin, topics: seq<nat>, i: nat, theta: seq<int>, summary: seq<int>, row: seq<int>)
    requires Sized(b) && i < |topics| == |b.topics| && TakenOut(b, topics, i, theta, summary, row)
    ensures theta == DocCounts(b, Others(topics, i)) && summary == SummaryCounts(b, Others(topics, i)) && row == WordCounts(b, i, Others(topics, i))
  {
    hide TopicCount, CellCount, Positive, Others;
    var others := Others(topics, i);
    forall k: nat | k < b.topicNum
      ensures theta[k] == DocCounts(b, others)[k] && summary[k] == SummaryCounts(b, others)[k] && row[k] == WordCounts(b, i, others)[k]
    {
      TopicCountOthers(topics, i, k);
      CellCountOthers(b.rows, topics, i, b.rows[i], k);
    }
  }

  lemma BesideIs(b: Begin, topics: seq<nat>, i: nat, t: nat)
    requires i < |topics| == |b.topics| && topics[i..] == b.topics[i..]
    ensures topics[i] == b.topics[i] && Beside(b, topics[i := t], i) == Others(topics, i)
    ensures topics[i := t][i + 1..] == b.topics[i + 1..]
  {
    assert topics[i] == topics[i..][0] == b.topics[i..][0];
    assert topics[i..][1..] == topics[i + 1..] && b.topics[i..][1..] == b.topics[i + 1..];
    assert topics[i := t][..i] == topics[..i] && topics[i := t][i + 1..] == topics[i + 1..];
  }

  /** The next token gets its topic. */
  lemma ChosenNext(b: Begin, topics: seq<nat>, i: nat, theta: seq<int>, summary: seq<int>, row: seq<int>, t: nat)
    requires Sized(b) && AllChosen(b, topics, i) && i < |topics| && topics[i..] == b.topics[i..]
    requires TakenOut(b, topics, i, theta, summary, row) && Counts(theta, summary)
    requires Chooses(b.prior, theta, summary, row, topics[i], b.draws[i], t)
    ensures AllChosen(b, topics[i := t], i + 1) && topics[i := t][i + 1..] == b.topics[i + 1..]
  {
    hide Chooses, Positive, Others, Beside, TakenOut, Counts;
    var now := topics[i := t];
    BesideIs(b, topics, i, t);
    TakenOutIs(b, topics, i, theta, summary, row);
    assert TokenChosen(b, now, i);
    hide TokenChosen;
    forall j: nat | j < i ensures TokenChosen(b, now, j) {
      Same(b, topics, now, j);
    }
  }

  lemma Same(b: Begin, topics: seq<nat>, now: seq<nat>, j: nat)
    requires Sized(b) && |topics| == |now| == |b.topics| && j < |topics|
    requires forall k: nat :: k <= j ==> topics[k] == now[k]
    ensures TokenChosen(b, topics, j) == TokenChosen(b, now, j)
  {
    assert topics[..j] == now[..j];
    assert Beside(b, topics, j) == Beside(b, now, j);
  }

  /** The draws determine the topics of the whole document. */
  lemma DrawsDetermine(b: Begin, one: seq<nat>, two: seq<nat>)
    requires Sized(b) && AllChosen(b, one, |b.topics|) && AllChosen(b, two, |b.topics|)
    ensures one == two
  {
    Determined(b, one, two, |b.topics|);
  }

  lemma {:induction false} Determined(b: Begin, one: seq<nat>, two: seq<nat>, n: nat)
    requires Sized(b) && AllChosen(b, one, |b.topics|) && AllChosen(b, two, |b.topics|) && n <= |one|
    ensures one[..n] == two[..n]
  {
    hide Chooses, DocCounts, SummaryCounts, WordCounts, Counts;
    if n > 0 {
      var i := n - 1;
      Determined(b, one, two, i);
      assert TokenChosen(b, one, i) && TokenChosen(b, two, i);
      var others := Beside(b, one, i);
      assert others == Beside(b, two, i);
      ChoosesOnce(b.prior, DocCounts(b, others), SummaryCounts(b, others), WordCounts(b, i, others), b.topics[i], b.draws[i], one[i], two[i]);
      assert one[..n] == one[..i] + [one[i]] && two[..n] == two[..i] + [two[i]];
    }
  }
}

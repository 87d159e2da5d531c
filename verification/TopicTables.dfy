// A document's topics and the word-topic tables, in the two layouts the sampler
// takes: one vector per word, and all words in one vector.
module TopicTables {

  // ------------------------------------------------------- topics of a document

  /** The tokens whose topic is k. */
  function TopicCount(topics: seq<nat>, k: nat): (r: nat)
    ensures r <= |topics|
  {
    if topics == [] then 0
    else
      var n := |topics| - 1;
      TopicCount(topics[..n], k) + (if topics[n] == k then 1 else 0)
  }

  function Histogram(topics: seq<nat>, topicNum: nat): (r: seq<int>)
    ensures |r| == topicNum
  {
    seq(topicNum, k requires 0 <= k < topicNum => TopicCount(topics, k))
  }

  /** The tokens of a table row (the row of their word) whose topic is k. */
  function CellCount(rows: seq<nat>, topics: seq<nat>, r: nat, k: nat): nat
    requires |rows| == |topics|
  {
    if topics == [] then 0
    else
      var n := |topics| - 1;
      CellCount(rows[..n], topics[..n], r, k) + (if rows[n] == r && topics[n] == k then 1 else 0)
  }

  lemma {:induction false} TopicCountUpdate(topics: seq<nat>, i: nat, t: nat, k: nat)
    requires i < |topics|
    ensures TopicCount(topics[i := t], k) == TopicCount(topics, k) - (if topics[i] == k then 1 else 0) + (if t == k then 1 else 0)
    ensures topics[i] == k ==> TopicCount(topics, k) > 0
  {
    var n := |topics| - 1;
    if i == n {
      assert topics[i := t][..n] == topics[..n];
    } else {
      TopicCountUpdate(topics[..n], i, t, k);
      assert topics[i := t][..n] == topics[..n][i := t];
    }
  }

  lemma {:induction false} CellCountUpdate(rows: seq<nat>, topics: seq<nat>, i: nat, t: nat, r: nat, k: nat)
    requires |rows| == |topics| && i < |topics|
    ensures CellCount(rows, topics[i := t], r, k) == CellCount(rows, topics, r, k)
            - (if rows[i] == r && topics[i] == k then 1 else 0) + (if rows[i] == r && t == k then 1 else 0)
  {
    var n := |topics| - 1;
    if i == n {
      assert topics[i := t][..n] == topics[..n];
    } else {
      CellCountUpdate(rows[..n], topics[..n], i, t, r, k);
      assert topics[i := t][..n] == topics[..n][i := t];
    }
  }

  /** The tokens of topic k, and those of them whose word has row r. */
  lemma {:induction false} TopicCountIs(topics: seq<nat>, k: nat)
    ensures TopicCount(topics, k) == |set i | 0 <= i < |topics| && topics[i] == k|
  {
    if topics != [] {
      var n := |topics| - 1;
      TopicCountIs(topics[..n], k);
      var before, now := set i | 0 <= i < n && topics[..n][i] == k, set i | 0 <= i < |topics| && topics[i] == k;
      assert now == before + (if topics[n] == k then {n} else {});
    }
  }

  lemma {:induction false} CellCountIs(rows: seq<nat>, topics: seq<nat>, r: nat, k: nat)
    requires |rows| == |topics|
    ensures CellCount(rows, topics, r, k) == |set i | 0 <= i < |topics| && rows[i] == r && topics[i] == k|
  {
    if topics != [] {
      var n := |topics| - 1;
      CellCountIs(rows[..n], topics[..n], r, k);
      var before := set i | 0 <= i < n && rows[..n][i] == r && topics[..n][i] == k;
      var now := set i | 0 <= i < |topics| && rows[i] == r && topics[i] == k;
      assert now == before + (if rows[n] == r && topics[n] == k then {n} else {});
    }
  }

  class LDADoc {
    var tokens: seq<nat>
    var tokenTopics: seq<nat>

    method SetTopic(i: nat, topic: nat)
      requires i < |tokenTopics|
      modifies this`tokenTopics
      ensures tokenTopics == old(tokenTopics)[i := topic]
    {
      tokenTopics := tokenTopics[i := topic];
    }
  }

  // ------------------------------------------------------------------ tables

  type Table = seq<seq<int>>

  predicate Rectangular(t: Table, topicNum: nat) {
    forall r :: 0 <= r < |t| ==> |t[r]| == topicNum
  }

  function Bump(t: Table, r: nat, k: nat, d: int): Table
    requires r < |t| && k < |t[r]|
  {
    t[r := t[r][k := t[r][k] + d]]
  }

  /** Both tables moved along with the topics of the document's tokens: a word's row
      of counts and of updates by what its tokens did, the summary row of updates by
      what all tokens did, and the summary row of counts not at all. */
  ghost predicate Tracks(summary: nat, topicNum: nat, rows: seq<nat>,
                         topics0: seq<nat>, count0: Table, updates0: Table, topics: seq<nat>, count: Table, updates: Table)
  {
    && |rows| == |topics0| == |topics|
    && |count| == |count0| && |updates| == |updates0| == |count| && summary < |count|
    && Rectangular(count0, topicNum) && Rectangular(updates0, topicNum)
    && Rectangular(count, topicNum) && Rectangular(updates, topicNum)
    && (forall r, k :: 0 <= r < |count| && r != summary && 0 <= k < topicNum ==>
          count[r][k] - count0[r][k] == CellCount(rows, topics, r, k) - CellCount(rows, topics0, r, k))
    && (forall r, k :: 0 <= r < |count| && r != summary && 0 <= k < topicNum ==>
          updates[r][k] - updates0[r][k] == CellCount(rows, topics, r, k) - CellCount(rows, topics0, r, k))
    && count[summary] == count0[summary]
    && (forall k :: 0 <= k < topicNum ==> updates[summary][k] - updates0[summary][k] == TopicCount(topics, k) - TopicCount(topics0, k))
  }

  lemma TracksShape(summary: nat, topicNum: nat, rows: seq<nat>, topics0: seq<nat>, count0: Table, updates0: Table,
                    topics: seq<nat>, count: Table, updates: Table)
    requires Tracks(summary, topicNum, rows, topics0, count0, updates0, topics, count, updates)
    ensures |count| == |updates| == |count0| && summary < |count|
    ensures Rectangular(count, topicNum) && Rectangular(updates, topicNum)
  {
  }

  /** One token changes topic. */
  lemma TracksStep(summary: nat, topicNum: nat, rows: seq<nat>, topics0: seq<nat>, count0: Table, updates0: Table,
                   topics: seq<nat>, count: Table, updates: Table, i: nat, t: nat)
    requires Tracks(summary, topicNum, rows, topics0, count0, updates0, topics, count, updates)
    requires i < |topics| && rows[i] < |count| && rows[i] != summary && topics[i] < topicNum && t < topicNum
    ensures var w, o := rows[i], topics[i];
            Tracks(summary, topicNum, rows, topics0, count0, updates0, topics[i := t],
                   Bump(Bump(count, w, o, -1), w, t, 1),
                   Bump(Bump(Bump(Bump(updates, summary, o, -1), w, o, -1), summary, t, 1), w, t, 1))
  {
    forall r, k | 0 <= r < |count| && 0 <= k < topicNum
      ensures CellCount(rows, topics[i := t], r, k) == CellCount(rows, topics, r, k)
              - (if rows[i] == r && topics[i] == k then 1 else 0) + (if rows[i] == r && t == k then 1 else 0)
    {
      CellCountUpdate(rows, topics, i, t, r, k);
    }
    forall k | 0 <= k < topicNum
      ensures TopicCount(topics[i := t], k) == TopicCount(topics, k) - (if topics[i] == k then 1 else 0) + (if t == k then 1 else 0)
    {
      TopicCountUpdate(topics, i, t, k);
    }
    hide CellCount, TopicCount;
  }

  /** The cells of one topic over the first n word rows. */
  function ColumnChange(summary: nat, t0: Table, t: Table, k: nat, n: nat): int
    requires n <= |t0| == |t| && forall r :: 0 <= r < n ==> k < |t0[r]| && k < |t[r]|
  {
    if n == 0 then 0
    else ColumnChange(summary, t0, t, k, n - 1) + (if n - 1 == summary then 0 else t[n - 1][k] - t0[n - 1][k])
  }

  function CellSum(summary: nat, rows: seq<nat>, topics: seq<nat>, k: nat, n: nat): nat
    requires |rows| == |topics|
  {
    if n == 0 then 0
    else CellSum(summary, rows, topics, k, n - 1) + (if n - 1 == summary then 0 else CellCount(rows, topics, n - 1, k))
  }

  lemma {:induction false} CellSumLast(summary: nat, rows: seq<nat>, topics: seq<nat>, k: nat, n: nat)
    requires |rows| == |topics| > 0 && rows[|rows| - 1] != summary
    ensures var m := |rows| - 1;
            CellSum(summary, rows, topics, k, n) ==
            CellSum(summary, rows[..m], topics[..m], k, n) + (if rows[m] < n && topics[m] == k then 1 else 0)
  {
    if n > 0 { CellSumLast(summary, rows, topics, k, n - 1); }
  }

  /** Every token is counted in the row of its word. */
  lemma {:induction false} CellsAddUp(summary: nat, rows: seq<nat>, topics: seq<nat>, k: nat, n: nat)
    requires |rows| == |topics| && forall i :: 0 <= i < |rows| ==> rows[i] < n && rows[i] != summary
    ensures CellSum(summary, rows, topics, k, n) == TopicCount(topics, k)
  {
    if rows == [] {
      NoCells(summary, rows, topics, k, n);
    } else {
      var m := |rows| - 1;
      CellsAddUp(summary, rows[..m], topics[..m], k, n);
      CellSumLast(summary, rows, topics, k, n);
    }
  }

  lemma {:induction false} NoCells(summary: nat, rows: seq<nat>, topics: seq<nat>, k: nat, n: nat)
    requires rows == topics == []
    ensures CellSum(summary, rows, topics, k, n) == 0
  {
    if n > 0 { NoCells(summary, rows, topics, k, n - 1); }
  }

  lemma {:induction false} ColumnIsCells(summary: nat, topicNum: nat, rows: seq<nat>, topics0: seq<nat>, count0: Table, updates0: Table,
                                         topics: seq<nat>, count: Table, updates: Table, k: nat, n: nat)
    requires Tracks(summary, topicNum, rows, topics0, count0, updates0, topics, count, updates)
    requires k < topicNum && n <= |count|
    ensures ColumnChange(summary, updates0, updates, k, n) == CellSum(summary, rows, topics, k, n) - CellSum(summary, rows, topics0, k, n)
  {
    if n > 0 {
      ColumnIsCells(summary, topicNum, rows, topics0, count0, updates0, topics, count, updates, k, n - 1);
    }
  }

  /** Topic by topic, the updates of the summary row change as much as those of all
      word rows together. */
  lemma SummaryIsColumnSum(summary: nat, topicNum: nat, rows: seq<nat>, topics0: seq<nat>, count0: Table, updates0: Table,
                           topics: seq<nat>, count: Table, updates: Table, k: nat)
    requires Tracks(summary, topicNum, rows, topics0, count0, updates0, topics, count, updates)
    requires forall i :: 0 <= i < |rows| ==> rows[i] < |count| && rows[i] != summary
    requires k < topicNum
    ensures updates[summary][k] - updates0[summary][k] == ColumnChange(summary, updates0, updates, k, |count|)
  {
    ColumnIsCells(summary, topicNum, rows, topics0, count0, updates0, topics, count, updates, k, |count|);
    CellsAddUp(summary, rows, topics, k, |count|);
    CellsAddUp(summary, rows, topics0, k, |count|);
  }

  /** In every word row, counts and recorded updates stay the same distance apart. */
  lemma CountMinusUpdate(summary: nat, topicNum: nat, rows: seq<nat>, topics0: seq<nat>, count0: Table, updates0: Table,
                         topics: seq<nat>, count: Table, updates: Table, r: nat, k: nat)
    requires Tracks(summary, topicNum, rows, topics0, count0, updates0, topics, count, updates)
    requires r < |count| && r != summary && k < topicNum
    ensures count[r][k] - updates[r][k] == count0[r][k] - updates0[r][k]
  {
  }

  class WordTopics {
    var count: Table
    var updates: Table

    /** A token of this word and topic leaves. */
    method Remove(word: nat, summary: nat, topic: nat)
      requires word < |count| == |updates| && summary < |count| && word != summary
      requires topic < |count[word]| && topic < |updates[word]| && topic < |updates[summary]|
      modifies this
      ensures count == Bump(old(count), word, topic, -1)
      ensures updates == Bump(Bump(old(updates), summary, topic, -1), word, topic, -1)
    {
      count := count[word := count[word][topic := count[word][topic] - 1]];
      updates := updates[summary := updates[summary][topic := updates[summary][topic] - 1]];
      updates := updates[word := updates[word][topic := updates[word][topic] - 1]];
    }

    /** A token of this word and topic arrives. */
    method Add(word: nat, summary: nat, topic: nat)
      requires word < |count| == |updates| && summary < |count| && word != summary
      requires topic < |count[word]| && topic < |updates[word]| && topic < |updates[summary]|
      modifies this
      ensures count == Bump(old(count), word, topic, 1)
      ensures updates == Bump(Bump(old(updates), summary, topic, 1), word, topic, 1)
    {
      count := count[word := count[word][topic := count[word][topic] + 1]];
      updates := updates[summary := updates[summary][topic := updates[summary][topic] + 1]];
      updates := updates[word := updates[word][topic := updates[word][topic] + 1]];
    }
  }

  // --------------------------------------------------- the layout in one vector

  /** The rows of K entries starting at the given offsets. */
  ghost predicate Laid(flat: seq<int>, starts: seq<nat>, topicNum: nat) {
    && (forall j :: 0 <= j < |starts| ==> starts[j] + topicNum <= |flat|)
    && forall i, j :: 0 <= i < j < |starts| ==> starts[i] + topicNum <= starts[j] || starts[j] + topicNum <= starts[i]
  }

  ghost function View(flat: seq<int>, starts: seq<nat>, topicNum: nat): (t: Table)
    requires Laid(flat, starts, topicNum)
    ensures |t| == |starts| && Rectangular(t, topicNum)
    ensures forall j, k :: 0 <= j < |t| && 0 <= k < topicNum ==> t[j][k] == flat[starts[j] + k]
  {
    seq(|starts|, j requires 0 <= j < |starts| => flat[starts[j]..starts[j] + topicNum])
  }

  function AddAt(flat: seq<int>, at: nat, d: int): (r: seq<int>)
    requires at < |flat|
    ensures |r| == |flat|
  {
    flat[at := flat[at] + d]
  }

  lemma ViewBump(flat: seq<int>, starts: seq<nat>, topicNum: nat, j: nat, k: nat, d: int)
    requires Laid(flat, starts, topicNum) && j < |starts| && k < topicNum
    ensures var at := starts[j] + k;
            && at < |flat| && Laid(AddAt(flat, at, d), starts, topicNum)
            && View(AddAt(flat, at, d), starts, topicNum) == Bump(View(flat, starts, topicNum), j, k, d)
  {
  }

  lemma ViewBumps(flat: seq<int>, starts: seq<nat>, topicNum: nat, s: nat, w: nat, k: nat, d: int)
    requires Laid(flat, starts, topicNum) && s < |starts| && w < |starts| && k < topicNum
    ensures starts[s] + k < |flat| && starts[w] + k < |flat|
    ensures var flat' := AddAt(AddAt(flat, starts[s] + k, d), starts[w] + k, d);
            && Laid(flat', starts, topicNum)
            && View(flat', starts, topicNum) == Bump(Bump(View(flat, starts, topicNum), s, k, d), w, k, d)
  {
    LaidInside(flat, starts, topicNum, s, k);
    LaidInside(flat, starts, topicNum, w, k);
    ViewBump(flat, starts, topicNum, s, k, d);
    ViewBump(AddAt(flat, starts[s] + k, d), starts, topicNum, w, k, d);
  }

  class FlatWordTopics {
    var count: seq<int>
    var updates: seq<int>

    /** The rows of K entries at these offsets are apart from each other. */
    ghost predicate Rows(starts: seq<nat>, topicNum: nat)
      reads this
    {
      Laid(count, starts, topicNum) && Laid(updates, starts, topicNum)
    }

    method Remove(word: nat, summary: nat, topic: nat, ghost starts: seq<nat>, ghost topicNum: nat, ghost w: nat, ghost s: nat)
      requires Rows(starts, topicNum) && w < |starts| && s < |starts| && topic < topicNum
      requires word == starts[w] && summary == starts[s]
      modifies this
      ensures Rows(starts, topicNum)
      ensures View(count, starts, topicNum) == Bump(old(View(count, starts, topicNum)), w, topic, -1)
      ensures View(updates, starts, topicNum) == Bump(Bump(old(View(updates, starts, topicNum)), s, topic, -1), w, topic, -1)
    {
      ViewBump(count, starts, topicNum, w, topic, -1);
      ViewBumps(updates, starts, topicNum, s, w, topic, -1);
      hide View, Rectangular, Laid, Bump, AddAt;
      LaidInside(count, starts, topicNum, w, topic);
      count := AddAt(count, word + topic, -1);
      updates := AddAt(updates, summary + topic, -1);
      updates := AddAt(updates, word + topic, -1);
    }

    method Add(word: nat, summary: nat, topic: nat, ghost starts: seq<nat>, ghost topicNum: nat, ghost w: nat, ghost s: nat)
      requires Rows(starts, topicNum) && w < |starts| && s < |starts| && topic < topicNum
      requires word == starts[w] && summary == starts[s]
      modifies this
      ensures Rows(starts, topicNum)
      ensures View(count, starts, topicNum) == Bump(old(View(count, starts, topicNum)), w, topic, 1)
      ensures View(updates, starts, topicNum) == Bump(Bump(old(View(updates, starts, topicNum)), s, topic, 1), w, topic, 1)
    {
      ViewBump(count, starts, topicNum, w, topic, 1);
      ViewBumps(updates, starts, topicNum, s, w, topic, 1);
      hide View, Rectangular, Laid, Bump, AddAt;
      LaidInside(count, starts, topicNum, w, topic);
      count := AddAt(count, word + topic, 1);
      updates := AddAt(updates, summary + topic, 1);
      updates := AddAt(updates, word + topic, 1);
    }
  }

  lemma LaidRow(flat: seq<int>, starts: seq<nat>, topicNum: nat, j: nat)
    requires Laid(flat, starts, topicNum) && j < |starts|
    ensures starts[j] + topicNum <= |flat| && flat[starts[j]..starts[j] + topicNum] == View(flat, starts, topicNum)[j]
  {
  }

  lemma LaidInside(flat: seq<int>, starts: seq<nat>, topicNum: nat, j: nat, k: nat)
    requires Laid(flat, starts, topicNum) && j < |starts| && k < topicNum
    ensures starts[j] + k < |flat|
  {
  }
}

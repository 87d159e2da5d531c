// The bookkeeping both servers share for one lane of requests, pushes or pulls:
// a progress entry per worker, a count per clock of the workers past it, and the
// clock of the slowest worker.
module ClockCounts {
  import opened ServerLog

  ghost function Sent<P, Q>(log: seq<Request<P, Q>>, push: bool, w: nat): nat {
    if push then Pushes(log, w) else Pulls(log, w)
  }

  ghost predicate AllSent<P, Q>(log: seq<Request<P, Q>>, push: bool, workers: set<nat>, n: int) {
    if push then AllPushed(log, workers, n) else AllPulled(log, workers, n)
  }

  lemma AllSentIff<P, Q>(log: seq<Request<P, Q>>, push: bool, workers: set<nat>, n: int)
    ensures AllSent(log, push, workers, n) <==> forall w :: w in workers ==> Sent(log, push, w) >= n
  {
  }

  /** The workers that have sent more than c requests of the lane. */
  ghost function Past<P, Q>(log: seq<Request<P, Q>>, push: bool, workers: set<nat>, c: int): set<nat> {
    set w | w in workers && Sent(log, push, w) > c
  }

  /** `minClock` is the slowest worker's clock, `count[c]` the number of workers
      past c, and `progress[w]` the clock of worker w. */
  ghost predicate Clocks<P, Q>(
    log: seq<Request<P, Q>>, push: bool, workers: set<nat>, minClock: nat, count: seq<nat>, progress: seq<nat>)
  {
    && (forall w :: w in workers ==> Sent(log, push, w) == if w < |progress| then progress[w] else 0)
    && (forall c :: 0 <= c < |count| ==> count[c] == |Past(log, push, workers, c)|)
    && (forall c :: c >= |count| ==> Past(log, push, workers, c) == {})
    && AllSent(log, push, workers, minClock)
    && !AllSent(log, push, workers, minClock + 1)
  }

  lemma ClocksStart<P, Q>(push: bool, workers: set<nat>, progress: seq<nat>)
    requires workers != {}
    requires forall k :: 0 <= k < |progress| ==> progress[k] == 0
    ensures Clocks<P, Q>([], push, workers, 0, [], progress)
  {
  }

  lemma SentExtend<P, Q>(log: seq<Request<P, Q>>, m: Request<P, Q>, push: bool, w: nat)
    ensures Sent(log + [m], push, w) ==
            Sent(log, push, w) + if m.controlled && m.src == w && m.op.PushOp? == push then 1 else 0
  {
  }

  lemma PastGrows<P, Q>(log: seq<Request<P, Q>>, m: Request<P, Q>, push: bool, workers: set<nat>, c: nat)
    requires m.controlled && m.src in workers && m.op.PushOp? == push
    ensures var p := Sent(log, push, m.src);
            var past := Past(log, push, workers, c);
            && Past(log + [m], push, workers, c) == (if c == p then past + {m.src} else past)
            && (c == p ==> m.src !in past)
  {
  }

  /** Counting one request: when it completes the slowest clock, that clock moves
      on by one, and a request ahead of the slowest clock never moves it. */
  lemma ClocksCount<P, Q>(
    log: seq<Request<P, Q>>, m: Request<P, Q>, push: bool, workers: set<nat>, minClock: nat, count: seq<nat>, progress: seq<nat>)
    requires Clocks(log, push, workers, minClock, count, progress)
    requires m.controlled && m.src in workers && m.op.PushOp? == push
    ensures var grownProgress := Grow<nat>(progress, m.src + 1, 0);
            var p := grownProgress[m.src];
            var grown := Grow<nat>(count, p + 1, 0);
            var count' := grown[p := grown[p] + 1];
            var next := if count'[minClock] == |workers| then minClock + 1 else minClock;
            && p == Sent(log, push, m.src) >= minClock
            && Clocks(log + [m], push, workers, next, count', grownProgress[m.src := p + 1])
            && (p > minClock ==> next == minClock)
  {
    hide Pushes, Pulls, AllSent, Sent, Past;
    var p := Sent(log, push, m.src);
    var grown := Grow<nat>(count, p + 1, 0);
    var count' := grown[p := grown[p] + 1];
    forall w ensures Sent(log + [m], push, w) == Sent(log, push, w) + if w == m.src then 1 else 0 {
      SentExtend(log, m, push, w);
    }
    forall c: nat ensures |Past(log + [m], push, workers, c)| == if c < |count'| then count'[c] else 0 {
      PastGrows(log, m, push, workers, c);
    }
    NextMin(log, m, push, workers, minClock);
  }

  lemma NextMin<P, Q>(log: seq<Request<P, Q>>, m: Request<P, Q>, push: bool, workers: set<nat>, minClock: nat)
    requires AllSent(log, push, workers, minClock) && !AllSent(log, push, workers, minClock + 1)
    requires m.controlled && m.src in workers && m.op.PushOp? == push
    ensures var next := if |Past(log + [m], push, workers, minClock)| == |workers| then minClock + 1 else minClock;
            && Sent(log, push, m.src) >= minClock
            && AllSent(log + [m], push, workers, next)
            && !AllSent(log + [m], push, workers, next + 1)
            && (Sent(log, push, m.src) > minClock ==> next == minClock)
  {
    hide Pushes, Pulls;
    forall w ensures Sent(log + [m], push, w) == Sent(log, push, w) + if w == m.src then 1 else 0 {
      SentExtend(log, m, push, w);
    }
    forall n: int
      ensures AllSent(log, push, workers, n) <==> forall w :: w in workers ==> Sent(log, push, w) >= n
      ensures AllSent(log + [m], push, workers, n) <==> forall w :: w in workers ==> Sent(log + [m], push, w) >= n
    {
      AllSentIff(log, push, workers, n);
      AllSentIff(log + [m], push, workers, n);
    }
    NextClock(log + [m], push, workers, minClock);
    var w :| w in workers && Sent(log, push, w) < minClock + 1;
    assert Sent(log + [m], push, w) <= minClock + 1;
    if Sent(log, push, m.src) > minClock {
      assert w !in Past(log + [m], push, workers, minClock);
    }
  }

  /** A request of the other lane, or an uncontrolled one, counts for nothing. */
  lemma ClocksSkip<P, Q>(
    log: seq<Request<P, Q>>, m: Request<P, Q>, push: bool, workers: set<nat>, minClock: nat, count: seq<nat>, progress: seq<nat>)
    requires Clocks(log, push, workers, minClock, count, progress)
    requires !m.controlled || m.op.PushOp? != push
    ensures Clocks(log + [m], push, workers, minClock, count, progress)
  {
    forall w ensures Sent(log + [m], push, w) == Sent(log, push, w) {
      SentExtend(log, m, push, w);
    }
    forall c: int ensures Past(log + [m], push, workers, c) == Past(log, push, workers, c) {
    }
  }

  lemma ClocksGrow<P, Q>(
    log: seq<Request<P, Q>>, push: bool, w: nat, workers: set<nat>, minClock: nat, count: seq<nat>, progress: seq<nat>)
    requires Clocks(log, push, workers, minClock, count, progress)
    ensures Clocks(log, push, workers, minClock, count, Grow<nat>(progress, w + 1, 0))
    ensures w in workers ==> Grow<nat>(progress, w + 1, 0)[w] == Sent(log, push, w)
  {
  }

  /** All workers are past the slowest clock exactly when it moves on. */
  lemma NextClock<P, Q>(log: seq<Request<P, Q>>, push: bool, workers: set<nat>, minClock: nat)
    requires AllSent(log, push, workers, minClock)
    ensures |Past(log, push, workers, minClock)| == |workers| <==> AllSent(log, push, workers, minClock + 1)
  {
    var past := Past(log, push, workers, minClock);
    assert past <= workers;
    if |past| == |workers| {
      SubsetEqual(past, workers);
      forall w | w in workers ensures Sent(log, push, w) >= minClock + 1 { assert w in past; }
    } else {
      assert past != workers;
    }
  }

  lemma SubsetEqual(a: set<nat>, b: set<nat>)
    requires a <= b && |a| == |b|
    ensures a == b
  {
    if x :| x in b && x !in a {
      SubsetSize(a, b - {x});
    }
  }

  lemma {:induction false} SubsetSize(a: set<nat>, b: set<nat>)
    requires a <= b
    ensures |a| <= |b|
  {
    if x :| x in a { SubsetSize(a - {x}, b - {x}); }
  }
}

// The consistency controllers between the threads of one process: monitors whose
// waiting loops let a thread through, and what that keeps apart.
module LocalControllers {

  /** The workers of a process are numbered from 0. */
  function All(n: nat): (r: set<nat>)
    ensures forall w: nat :: w in r <==> w < n
  {
    if n == 0 then {} else All(n - 1) + {n - 1}
  }

  lemma {:induction false} AllSize(n: nat)
    ensures |All(n)| == n
  {
    if n > 0 {
      AllSize(n - 1);
      assert All(n) == All(n - 1) + {n - 1};
    }
  }

  lemma WholeSet(s: set<nat>, n: nat)
    requires s <= All(n)
    ensures |s| <= n && (|s| == n <==> s == All(n))
  {
    AllSize(n);
    assert All(n) == s + (All(n) - s);
    assert |All(n)| == |s| + |All(n) - s|;
  }

  // ------------------------------------------------------------------ BSP rounds

  /** What one worker has begun and ended. */
  datatype Worker = Worker(pullsBegun: nat, pulls: nat, pushesBegun: nat, pushes: nat)

  /** The workers that have ended their pull, or their push, of round r. */
  function Pulled(ws: seq<Worker>, r: nat): set<nat> {
    set w: nat | w < |ws| && ws[w].pulls > r
  }

  function Pushed(ws: seq<Worker>, r: nat): set<nat> {
    set w: nat | w < |ws| && ws[w].pushes > r
  }

  /** In round r: in the reply phase all pushes of the rounds before have ended and
      none of this round has begun; after it all pulls of this round have ended and
      none of the next has begun. */
  ghost predicate InRound(ws: seq<Worker>, reply: bool, pullCount: nat, pushCount: nat, r: nat) {
    if reply then
      && (forall w :: 0 <= w < |ws| ==> ws[w].pushes == ws[w].pushesBegun == r && r <= ws[w].pulls <= ws[w].pullsBegun <= r + 1)
      && pushCount == 0 && pullCount == |Pulled(ws, r)| < |ws|
    else
      && (forall w :: 0 <= w < |ws| ==> ws[w].pulls == ws[w].pullsBegun == r + 1 && r <= ws[w].pushes <= ws[w].pushesBegun <= r + 1)
      && pullCount == 0 && pushCount == |Pushed(ws, r)| < |ws|
  }

  lemma AllPulled(ws: seq<Worker>, w: nat, r: nat)
    requires w < |ws| && ws[w].pulls == r && forall v :: 0 <= v < |ws| ==> ws[v].pulls <= r + 1
    ensures var ws' := ws[w := ws[w].(pulls := r + 1)];
            && |Pulled(ws', r)| == |Pulled(ws, r)| + 1 <= |ws|
            && (|Pulled(ws', r)| == |ws| <==> forall v :: 0 <= v < |ws| ==> ws'[v].pulls == r + 1)
  {
    var ws' := ws[w := ws[w].(pulls := r + 1)];
    assert Pulled(ws', r) == Pulled(ws, r) + {w};
    WholeSet(Pulled(ws', r), |ws|);
    if Pulled(ws', r) == All(|ws|) {
      forall v | 0 <= v < |ws| ensures ws'[v].pulls == r + 1 { assert v in All(|ws|); }
    }
    if forall v :: 0 <= v < |ws| ==> ws'[v].pulls == r + 1 { assert Pulled(ws', r) == All(|ws|); }
  }

  lemma AllPushed(ws: seq<Worker>, w: nat, r: nat)
    requires w < |ws| && ws[w].pushes == r && forall v :: 0 <= v < |ws| ==> ws[v].pushes <= r + 1
    ensures var ws' := ws[w := ws[w].(pushes := r + 1)];
            && |Pushed(ws', r)| == |Pushed(ws, r)| + 1 <= |ws|
            && (|Pushed(ws', r)| == |ws| <==> forall v :: 0 <= v < |ws| ==> ws'[v].pushes == r + 1)
  {
    var ws' := ws[w := ws[w].(pushes := r + 1)];
    assert Pushed(ws', r) == Pushed(ws, r) + {w};
    WholeSet(Pushed(ws', r), |ws|);
    if Pushed(ws', r) == All(|ws|) {
      forall v | 0 <= v < |ws| ensures ws'[v].pushes == r + 1 { assert v in All(|ws|); }
    }
    if forall v :: 0 <= v < |ws| ==> ws'[v].pushes == r + 1 { assert Pushed(ws', r) == All(|ws|); }
  }

  lemma NonePulled(ws: seq<Worker>, r: nat)
    requires forall w :: 0 <= w < |ws| ==> ws[w].pulls <= r
    ensures Pulled(ws, r) == {}
  {
  }

  lemma NonePushed(ws: seq<Worker>, r: nat)
    requires forall w :: 0 <= w < |ws| ==> ws[w].pushes <= r
    ensures Pushed(ws, r) == {}
  {
  }

  class BspConsistencyController {
    const numLocalWorkers: nat
    var pushCount: nat
    var pullCount: nat
    var replyPhase: bool
    ghost var ws: seq<Worker>
    ghost var round: nat

    ghost predicate Valid()
      reads this
    {
      |ws| == numLocalWorkers && InRound(ws, replyPhase, pullCount, pushCount, round)
    }

    constructor (n: nat)
      requires n > 0
      ensures Valid() && numLocalWorkers == n && replyPhase && round == 0
      ensures ws == seq(n, _ => Worker(0, 0, 0, 0))
    {
      numLocalWorkers := n;
      pushCount, pullCount, replyPhase := 0, 0, true;
      ws, round := seq(n, _ => Worker(0, 0, 0, 0)), 0;
      new;
      NonePulled(ws, 0);
    }

    /** BeforePull lets the worker's next pull through: all pushes of the rounds before
        it have ended, and none of its own has begun. */
    method BeginPull(w: nat)
      requires Valid() && w < |ws| && ws[w].pullsBegun == ws[w].pulls == ws[w].pushesBegun == ws[w].pushes
      requires replyPhase
      modifies this`ws
      ensures Valid() && ws == old(ws)[w := old(ws)[w].(pullsBegun := old(ws)[w].pulls + 1)]
      ensures forall v :: 0 <= v < |ws| ==> ws[v].pushes == ws[v].pushesBegun == old(ws)[w].pulls
    {
      ghost var before := ws;
      ws := ws[w := ws[w].(pullsBegun := ws[w].pulls + 1)];
      assert Pulled(ws, round) == Pulled(before, round);
    }

    method AfterPull(w: nat)
      requires Valid() && w < |ws| && ws[w].pullsBegun == ws[w].pulls + 1
      modifies this
      ensures Valid() && ws == old(ws)[w := old(ws)[w].(pulls := old(ws)[w].pulls + 1)]
      ensures replyPhase <==> exists v :: 0 <= v < |ws| && ws[v].pulls == old(ws)[w].pulls
    {
      AllPulled(ws, w, round);
      ws := ws[w := ws[w].(pulls := ws[w].pulls + 1)];
      pullCount := pullCount + 1;
      if pullCount == numLocalWorkers {
        pullCount := 0;
        replyPhase := false;
        NonePushed(ws, round);
      }
    }

    /** BeforePush lets the worker's next push through: all pulls of its round have
        ended, and none of the next has begun. */
    method BeginPush(w: nat)
      requires Valid() && w < |ws| && ws[w].pullsBegun == ws[w].pulls == ws[w].pushes + 1 && ws[w].pushesBegun == ws[w].pushes
      requires !replyPhase
      modifies this`ws
      ensures Valid() && ws == old(ws)[w := old(ws)[w].(pushesBegun := old(ws)[w].pushes + 1)]
      ensures forall v :: 0 <= v < |ws| ==> ws[v].pulls == ws[v].pullsBegun == old(ws)[w].pushes + 1
    {
      ghost var before := ws;
      ws := ws[w := ws[w].(pushesBegun := ws[w].pushes + 1)];
      assert Pushed(ws, round) == Pushed(before, round);
    }

    method AfterPush(w: nat)
      requires Valid() && w < |ws| && ws[w].pushesBegun == ws[w].pushes + 1
      modifies this
      ensures Valid() && ws == old(ws)[w := old(ws)[w].(pushes := old(ws)[w].pushes + 1)]
      ensures !replyPhase <==> exists v :: 0 <= v < |ws| && ws[v].pushes == old(ws)[w].pushes
    {
      AllPushed(ws, w, round);
      ws := ws[w := ws[w].(pushes := ws[w].pushes + 1)];
      pushCount := pushCount + 1;
      if pushCount == numLocalWorkers {
        pushCount := 0;
        replyPhase := true;
        round := round + 1;
        NonePulled(ws, round);
      }
    }
  }

  /** Someone is always able to go on: a worker that is inside a pull or push, or whose
      next one the phase lets through. */
  lemma SomeoneMoves(ws: seq<Worker>, reply: bool, pullCount: nat, pushCount: nat, r: nat) returns (w: nat)
    requires InRound(ws, reply, pullCount, pushCount, r)
    ensures w < |ws|
    ensures ws[w].pullsBegun > ws[w].pulls || ws[w].pushesBegun > ws[w].pushes
            || (if reply then ws[w].pulls == ws[w].pushes else ws[w].pulls == ws[w].pushes + 1)
  {
    var done := if reply then Pulled(ws, r) else Pushed(ws, r);
    WholeSet(done, |ws|);
    var v :| v in All(|ws|) && v !in done;
    w := v;
  }

  // ---------------------------------------------------------------- SSP progress

  /** The workers that have pushed more than c times. */
  function Past(progress: seq<nat>, c: nat): set<nat> {
    set w: nat | w < |progress| && progress[w] > c
  }

  const STALENESS: nat := 1

  /** The slowest worker's progress. */
  ghost predicate Slowest(progress: seq<nat>, m: nat) {
    (forall w :: 0 <= w < |progress| ==> m <= progress[w]) && exists w :: 0 <= w < |progress| && progress[w] == m
  }

  /** The entry of a counter vector that grows when it is needed. */
  function At(counts: seq<nat>, c: nat): nat {
    if c < |counts| then counts[c] else 0
  }

  ghost predicate Counting(progress: seq<nat>, counts: seq<nat>, min: nat) {
    && (forall c: nat :: At(counts, c) == |Past(progress, c)|)
    && Slowest(progress, min)
  }

  /** The push that lets the slowest clock advance does so by one. */
  lemma Advance(progress: seq<nat>, counts: seq<nat>, min: nat, w: nat)
    requires Counting(progress, counts, min) && w < |progress|
    ensures var p := progress[w];
            var progress' := progress[w := p + 1];
            && |Past(progress', p)| == |Past(progress, p)| + 1
            && (forall c: nat :: c != p ==> |Past(progress', c)| == |Past(progress, c)|)
            && Slowest(progress', if p == min && |Past(progress', min)| == |progress| then min + 1 else min)
  {
    var p := progress[w];
    var progress' := progress[w := p + 1];
    assert Past(progress', p) == Past(progress, p) + {w};
    forall c: nat | c != p ensures |Past(progress', c)| == |Past(progress, c)| {
      assert Past(progress', c) == Past(progress, c);
    }
    WholeSet(Past(progress', min), |progress|);
    if p == min {
      if |Past(progress', min)| == |progress| {
        forall v | 0 <= v < |progress| ensures min + 1 <= progress'[v] { assert v in All(|progress|); }
        assert progress'[w] == min + 1;
      } else {
        var v :| v in All(|progress|) && v !in Past(progress', min);
        assert progress'[v] == min;
      }
    } else {
      var v :| 0 <= v < |progress| && progress[v] == min;
      assert progress'[v] == min;
    }
  }

  class SspConsistencyController {
    const numLocalWorkers: nat
    var workerProgress: seq<nat>
    var clockCount: seq<nat>
    var minClock: nat
    /** Who has been let through and has not ended the push. */
    ghost var pushing: set<nat>

    /** The minimum clock is the slowest worker's, and nobody is further ahead of it
        than the staleness lets through. */
    ghost predicate Valid()
      reads this
    {
      && |workerProgress| == numLocalWorkers > 0
      && Counting(workerProgress, clockCount, minClock)
      && forall w :: 0 <= w < numLocalWorkers ==>
           workerProgress[w] <= minClock + STALENESS + (if w in pushing then 0 else 1)
    }

    constructor (n: nat)
      requires n > 0
      ensures Valid() && numLocalWorkers == n && workerProgress == seq(n, _ => 0) && pushing == {}
    {
      numLocalWorkers := n;
      workerProgress, clockCount, minClock, pushing := seq(n, _ => 0), [], 0, {};
      new;
      forall c: nat ensures |Past(workerProgress, c)| == 0 { assert Past(workerProgress, c) == {}; }
      assert workerProgress[0] == 0;
    }

    /** What a waiting worker waits for. */
    predicate LetThrough(w: nat)
      requires w < |workerProgress|
      reads this
    {
      workerProgress[w] - STALENESS <= minClock
    }

    method BeginPush(w: nat)
      requires Valid() && w < numLocalWorkers && w !in pushing && LetThrough(w)
      modifies this`pushing
      ensures Valid() && pushing == old(pushing) + {w}
    {
      pushing := pushing + {w};
    }

    method AfterPush(w: nat)
      requires Valid() && w < numLocalWorkers && w in pushing
      modifies this
      ensures Valid() && pushing == old(pushing) - {w}
      ensures workerProgress == old(workerProgress)[w := old(workerProgress)[w] + 1]
    {
      Advance(workerProgress, clockCount, minClock, w);
      var progress := workerProgress[w];
      if progress >= |clockCount| {
        clockCount := clockCount + seq(progress + 1 - |clockCount|, _ => 0);
      }
      clockCount := clockCount[progress := clockCount[progress] + 1];
      if progress == minClock && clockCount[minClock] == numLocalWorkers {
        minClock := minClock + 1;
      }
      workerProgress := workerProgress[w := progress + 1];
      pushing := pushing - {w};
    }

    /** The fastest worker's pushes and the slowest's never differ by more than the
        staleness and one. */
    lemma Drift(v: nat, w: nat)
      requires Valid() && v < numLocalWorkers && w < numLocalWorkers
      ensures workerProgress[v] - workerProgress[w] <= STALENESS + 1
    {
    }

    /** A worker is let through exactly when it is at most one push ahead of every
        worker. */
    lemma LetThroughIff(w: nat)
      requires Valid() && w < numLocalWorkers
      ensures LetThrough(w) <==> forall v :: 0 <= v < numLocalWorkers ==> workerProgress[w] <= workerProgress[v] + 1
    {
      var slowest :| 0 <= slowest < numLocalWorkers && workerProgress[slowest] == minClock;
    }

    /** The slowest worker is always let through. */
    lemma SlowestMoves() returns (w: nat)
      requires Valid()
      ensures w < numLocalWorkers && workerProgress[w] == minClock && LetThrough(w)
    {
      w :| 0 <= w < |workerProgress| && workerProgress[w] == minClock;
    }
  }
}

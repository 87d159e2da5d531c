// Exact snapshots and freedom from deadlock of the BSP server, over every run of
// alternating workers.
module BspGuarantees {
  import opened Wrappers
  import opened ServerLog
  import opened Exactness
  import opened BspServer
  import opened SspGuarantees

  /** Every worker sends pushes and pulls in turn, at every point of the run.
      How far apart the workers are is left open: one whose requests carry no
      data may be rounds ahead of its answers. */
  ghost predicate Alternates<P, Q>(pullFirst: bool, workers: set<nat>, log: seq<Request<P, Q>>) {
    forall w, n: nat :: w in workers && n <= |log| ==> InTurn(pullFirst, log[..n], w)
  }

  /** How many push rounds come before the k-th pull of a worker. */
  function RoundsBefore(pullFirst: bool, k: nat): nat { if pullFirst then k else k + 1 }

  lemma TurnNow<P, Q>(pullFirst: bool, workers: set<nat>, log: seq<Request<P, Q>>, w: nat)
    requires Alternates(pullFirst, workers, log) && w in workers
    ensures InTurn(pullFirst, log, w)
    ensures log != [] ==> InTurn(pullFirst, log[..|log| - 1], w)
  {
    assert log[..|log|] == log;
  }

  /** When pull i of round k is answered, all pushes of the rounds before it are
      ready and no later one is. */
  lemma RoundsReady<P, Q>(pullFirst: bool, workers: set<nat>, log: seq<Request<P, Q>>, i: nat, j: nat)
    requires Alternates(pullFirst, workers, log) && FromWorkers(log, workers)
    requires PullAnswered(Bsp(pullFirst), workers, log, i)
    requires j < |log| && IsPushBy(log[j], log[j].src)
    ensures i == |log| - 1 ==> j < i
    ensures (if i == |log| - 1 then Ready(Bsp(pullFirst), workers, log[..|log| - 1], j) else Ready(Bsp(pullFirst), workers, log, j))
            <==> PushClock(log, j) < RoundsBefore(pullFirst, PullClock(log, i))
  {
    hide Pushes, Pulls, NewAnswered, Alternates;
    var n := |log| - 1;
    var k := PullClock(log, i);
    var rounds := RoundsBefore(pullFirst, k);
    AnsweredRound(pullFirst, workers, log, i);
    if i == n {
      GateStable(Bsp(pullFirst), log, n, j);
      forall w | w in workers
        ensures Pulls(log[..n], w) >= k
      {
        TurnNow(pullFirst, workers, log, w);
        assert log[..n] + [log[n]] == log;
        Extend(log[..n], log[n], w);
      }
    } else {
      forall w | w in workers
        ensures Pulls(log, w) >= k
      {
        TurnNow(pullFirst, workers, log, w);
      }
    }
  }

  /** The rounds at the moment pull i is answered: all pushes before it are in,
      and some worker has not pulled this round yet. */
  lemma AnsweredRound<P, Q>(pullFirst: bool, workers: set<nat>, log: seq<Request<P, Q>>, i: nat)
    requires Alternates(pullFirst, workers, log) && FromWorkers(log, workers)
    requires PullAnswered(Bsp(pullFirst), workers, log, i)
    ensures var k := PullClock(log, i);
            && AllPushed(log, workers, RoundsBefore(pullFirst, k))
            && !AllPulled(if i == |log| - 1 then log[..|log| - 1] else log, workers, k + 1)
  {
    NewAnsweredIff(Bsp(pullFirst), workers, log);
    hide NewAnswered, Alternates;
    var n := |log| - 1;
    var k := PullClock(log, i);
    if i == n {
      assert Pulls(log[..n], log[n].src) == k;
    } else {
      LastPusher(pullFirst, workers, log, i);
    }
  }

  /** A released pull was released by the last push of the round before it, whose
      sender has not pulled since. */
  lemma LastPusher<P, Q>(pullFirst: bool, workers: set<nat>, log: seq<Request<P, Q>>, i: nat)
    requires Alternates(pullFirst, workers, log) && FromWorkers(log, workers)
    requires log != [] && i < |log| - 1 && log[i].controlled && log[i].op.PullOp?
    requires Ready(Bsp(pullFirst), workers, log, i) && !Ready(Bsp(pullFirst), workers, log[..|log| - 1], i)
    ensures !AllPulled(log, workers, PullClock(log, i) + 1)
  {
    hide Alternates;
    var n := |log| - 1;
    var prev, m := log[..n], log[n];
    var k := PullClock(log, i);
    GateStable(Bsp(pullFirst), log, n, i);
    assert prev + [m] == log;
    var w :| w in workers && Pushes(prev, w) < RoundsBefore(pullFirst, k);
    Extend(prev, m, w);
    assert Pushes(log, w) >= RoundsBefore(pullFirst, k);
    assert IsPushBy(m, w);
    TurnNow(pullFirst, workers, log, w);
  }

  /** The answer to a worker's k-th pull sees exactly the pushes of the rounds
      before it, all of them and no other, whether it is answered at once or
      released from a bucket. */
  lemma Snapshot<P, Q>(pullFirst: bool, workers: set<nat>, log: seq<Request<P, Q>>, i: nat)
    requires Alternates(pullFirst, workers, log) && FromWorkers(log, workers)
    requires PullAnswered(Bsp(pullFirst), workers, log, i)
    ensures var seen := Seen(Bsp(pullFirst), workers, log, i);
            var rounds := RoundsBefore(pullFirst, PullClock(log, i));
            && Distinct(seen)
            && (forall j: nat :: j in seen <==>
                  j < |log| && log[j].op.PushOp? && (log[j].controlled ==> PushClock(log, j) < rounds))
            && (forall w, r: nat :: w in workers && r < rounds ==> SeesPush(log, seen, w, r))
            && (forall r: nat :: r < rounds ==> |RoundOf(log, workers, r)| == |workers|)
  {
    hide Ready, Applied, NewAnswered, Pushes, PushClock, PullClock, Alternates, FromWorkers;
    var n := |log| - 1;
    var rounds := RoundsBefore(pullFirst, PullClock(log, i));
    AppliedIff(Bsp(pullFirst), workers, log);
    AppliedIff(Bsp(pullFirst), workers, log[..n]);
    forall j: nat | j < |log| && log[j].op.PushOp?
      ensures if i == n then j < n && (Ready(Bsp(pullFirst), workers, log[..n], j) <==> (log[j].controlled ==> PushClock(log, j) < rounds))
              else Ready(Bsp(pullFirst), workers, log, j) <==> (log[j].controlled ==> PushClock(log, j) < rounds)
    {
      if log[j].controlled { RoundsReady(pullFirst, workers, log, i, j); } else { FreeReady(pullFirst, workers, log, j); }
    }
    var seen := Seen(Bsp(pullFirst), workers, log, i);
    AnsweredRound(pullFirst, workers, log, i);
    forall w, r: nat | w in workers && r < rounds
      ensures SeesPush(log, seen, w, r)
    {
      var j := PushWithClock(log, w, r);
    }
    forall r: nat | r < rounds ensures |RoundOf(log, workers, r)| == |workers| {
      RoundCount(log, workers, r);
    }
  }

  /** With additive updates the store behind that answer is the epoch's store with
      those pushes in any order, say round by round. */
  lemma SnapshotStore<S(!new), P(!new), Q, R>(cfg: Config<S, P, Q, R>, log: seq<Request<P, Q>>, i: nat, order: seq<nat>)
    requires cfg.proto.Bsp? && Commutes(cfg)
    requires Alternates(cfg.proto.pullFirst, cfg.workers, log) && FromWorkers(log, cfg.workers)
    requires PullAnswered(cfg.proto, cfg.workers, log, i)
    requires Distinct(order)
    requires var rounds := RoundsBefore(cfg.proto.pullFirst, PullClock(log, i));
             forall j: nat :: j in order <==>
               j < |log| && log[j].op.PushOp? && (log[j].controlled ==> PushClock(log, j) < rounds)
    ensures (forall k :: 0 <= k < |order| ==> order[k] < |log|)
            && SeenStore(cfg, log, i) == ApplyAll(cfg, cfg.init, At(log, order))
  {
    hide Commutes, Alternates, FromWorkers, PullAnswered, Seen, SeenStore, PushClock, PullClock, ApplyAll;
    Snapshot(cfg.proto.pullFirst, cfg.workers, log, i);
    PullNonempty(cfg.proto, cfg.workers, log, i);
    SeenStoreIs(cfg, log, i);
    forall k | 0 <= k < |order| ensures order[k] < |log| { assert order[k] in order; }
    AnyOrder(cfg, cfg.init, log, Seen(cfg.proto, cfg.workers, log, i), order);
  }

  lemma PullNonempty<P, Q>(proto: Protocol, workers: set<nat>, log: seq<Request<P, Q>>, i: nat)
    requires PullAnswered(proto, workers, log, i)
    ensures log != [] && i < |log|
  {
  }

  lemma FreeReady<P, Q>(pullFirst: bool, workers: set<nat>, log: seq<Request<P, Q>>, j: nat)
    requires j < |log| && !log[j].controlled
    ensures Ready(Bsp(pullFirst), workers, log, j)
    ensures j < |log| - 1 ==> Ready(Bsp(pullFirst), workers, log[..|log| - 1], j)
  {
  }

  /** The pushes of round r by the given workers. */
  ghost function RoundOf<P, Q>(log: seq<Request<P, Q>>, ws: set<nat>, r: nat): set<nat> {
    set j: nat | j < |log| && log[j].controlled && log[j].op.PushOp? && log[j].src in ws && PushClock(log, j) == r
  }

  /** A complete round holds one push of every worker. */
  lemma {:induction false} RoundCount<P, Q>(log: seq<Request<P, Q>>, ws: set<nat>, r: nat)
    requires AllPushed(log, ws, r + 1)
    ensures |RoundOf(log, ws, r)| == |ws|
    decreases |ws|
  {
    if w :| w in ws {
      RoundCount(log, ws - {w}, r);
      var j := PushWithClock(log, w, r);
      forall x: nat | x < |log| && IsPushBy(log[x], w) && PushClock(log, x) == r
        ensures x == j
      {
        if x < j { PushOrder(log, w, x, j); }
        if j < x { PushOrder(log, w, j, x); }
      }
      assert RoundOf(log, ws, r) == RoundOf(log, ws - {w}, r) + {j};
    } else {
      assert RoundOf(log, ws, r) == {};
    }
  }

  /** In every run some worker, the one that has sent least, has nothing blocked. */
  lemma NeverStuckBsp<P, Q>(pullFirst: bool, workers: set<nat>, log: seq<Request<P, Q>>) returns (w: nat)
    requires workers != {}
    requires Alternates(pullFirst, workers, log)
    ensures w in workers
    ensures forall i: nat :: i < |log| && log[i].src == w ==> Ready(Bsp(pullFirst), workers, log, i)
  {
    w := Least(log, workers);
    hide Alternates;
    forall v | v in workers ensures InTurn(pullFirst, log, v) { TurnNow(pullFirst, workers, log, v); }
    forall i: nat | i < |log| && log[i].src == w && log[i].controlled
      ensures Ready(Bsp(pullFirst), workers, log, i)
    {
      if log[i].op.PushOp? { PushOrder(log, w, i, |log|); } else { PullOrder(log, w, i, |log|); }
      assert log[..|log|] == log;
    }
  }

  lemma {:induction false} Least<P, Q>(log: seq<Request<P, Q>>, workers: set<nat>) returns (w: nat)
    requires workers != {}
    ensures w in workers
    ensures forall v :: v in workers ==> Pushes(log, w) + Pulls(log, w) <= Pushes(log, v) + Pulls(log, v)
    decreases |workers|
  {
    w :| w in workers;
    if workers != {w} {
      var v := Least(log, workers - {w});
      if Pushes(log, v) + Pulls(log, v) < Pushes(log, w) + Pulls(log, w) { w := v; }
    }
  }
}

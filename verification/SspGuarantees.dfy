// Bounded staleness, freedom from deadlock and the exact drift of the SSP
// server, over every run.
module SspGuarantees {
  import opened Wrappers
  import opened ServerLog
  import opened Exactness

  /** The slowest worker's clock. */
  ghost predicate SlowestAt<P, Q>(log: seq<Request<P, Q>>, workers: set<nat>, c: nat) {
    AllPushed(log, workers, c) && !AllPushed(log, workers, c + 1)
  }

  /** Request i is a controlled pull answered by the last step of the log. */
  ghost predicate PullAnswered<P, Q>(proto: Protocol, workers: set<nat>, log: seq<Request<P, Q>>, i: nat) {
    && log != []
    && i < |log|
    && log[i].controlled && log[i].op.PullOp?
    && i in NewAnswered(proto, workers, log)
  }

  /** The seen pushes include worker w's push of clock k. */
  ghost predicate SeesPush<P, Q>(log: seq<Request<P, Q>>, seen: seq<nat>, w: nat, k: nat) {
    exists j: nat :: j in seen && j < |log| && IsPushBy(log[j], w) && PushClock(log, j) == k
  }

  /** Readiness of a push in terms of the slowest clock. */
  lemma ReadyByClock<P, Q>(s: nat, workers: set<nat>, log: seq<Request<P, Q>>, c: nat, j: nat)
    requires SlowestAt(log, workers, c) && j < |log|
    ensures Ready(Ssp(s), workers, log, j) <==> !log[j].controlled || PushClock(log, j) <= c + s
  {
  }

  /** A pull answered on arrival finds the clocks as they were before it. */
  lemma PullKeepsReady<P, Q>(s: nat, workers: set<nat>, log: seq<Request<P, Q>>, j: nat)
    requires log != [] && log[|log| - 1].op.PullOp? && j < |log| - 1
    ensures Ready(Ssp(s), workers, log[..|log| - 1], j) <==> Ready(Ssp(s), workers, log, j)
  {
    var n := |log| - 1;
    GateStable(Ssp(s), log, n, j);
    forall w ensures Pushes(log[..n], w) == Pushes(log, w) { }
  }

  /** The answer to a pull sees exactly the pushes up to the staleness bound past
      the slowest clock: all the old ones of every worker, all earlier ones of
      the puller, and none too new. */
  lemma BoundedStaleness<P, Q>(s: nat, workers: set<nat>, log: seq<Request<P, Q>>, c: nat, i: nat)
    requires SlowestAt(log, workers, c)
    requires FromWorkers(log, workers)
    requires PullAnswered(Ssp(s), workers, log, i)
    ensures var seen := Seen(Ssp(s), workers, log, i);
            var p := PushClock(log, i);
            && Distinct(seen)
            && p - s <= c
            && (forall j: nat :: j in seen <==>
                  j < |log| && log[j].op.PushOp? && (log[j].controlled ==> PushClock(log, j) <= c + s))
            && (forall w, k: nat :: w in workers && k < p - s ==> SeesPush(log, seen, w, k))
            && (forall j: nat :: j < i && IsPushBy(log[j], log[i].src) ==> j in seen)
  {
    SeenExactly(s, workers, log, c, i);
    NewAnsweredIff(Ssp(s), workers, log);
    ReadyByClock(s, workers, log, c, i);
    hide Ready, NewAnswered, Seen;
    var seen := Seen(Ssp(s), workers, log, i);
    var p := PushClock(log, i);
    forall w, k: nat | w in workers && k < p - s
      ensures SeesPush(log, seen, w, k)
    {
      var j := PushWithClock(log, w, k);
    }
    forall j: nat | j < i && IsPushBy(log[j], log[i].src)
      ensures j in seen
    {
      PushOrder(log, log[i].src, j, i);
    }
  }

  lemma SeenExactly<P, Q>(s: nat, workers: set<nat>, log: seq<Request<P, Q>>, c: nat, i: nat)
    requires SlowestAt(log, workers, c)
    requires log != [] && i < |log| && log[i].op.PullOp?
    ensures var seen := Seen(Ssp(s), workers, log, i);
            && Distinct(seen)
            && (forall j: nat :: j in seen <==>
                  j < |log| && log[j].op.PushOp? && (log[j].controlled ==> PushClock(log, j) <= c + s))
  {
    hide Ready, Applied, Pushes, PushClock, AllPushed;
    var n := |log| - 1;
    AppliedIff(Ssp(s), workers, log);
    AppliedIff(Ssp(s), workers, log[..n]);
    forall j: nat | j < |log|
      ensures Ready(Ssp(s), workers, log, j) <==> !log[j].controlled || PushClock(log, j) <= c + s
      ensures i == n && j < n ==> (Ready(Ssp(s), workers, log[..n], j) <==> Ready(Ssp(s), workers, log, j))
    {
      ReadyByClock(s, workers, log, c, j);
      if i == n && j < n { PullKeepsReady(s, workers, log, j); }
    }
  }

  /** In every run some worker, the slowest, has nothing blocked. */
  lemma NeverStuck<P, Q>(s: nat, workers: set<nat>, log: seq<Request<P, Q>>) returns (w: nat)
    requires workers != {}
    ensures w in workers
    ensures forall i: nat :: i < |log| && log[i].src == w ==> Ready(Ssp(s), workers, log, i)
  {
    w := Slowest(log, workers);
    forall i: nat | i < |log| && log[i].src == w && log[i].controlled
      ensures Ready(Ssp(s), workers, log, i)
    {
      CountsGrow(log, i, w);
    }
  }

  lemma {:induction false} Slowest<P, Q>(log: seq<Request<P, Q>>, workers: set<nat>) returns (w: nat)
    requires workers != {}
    ensures w in workers && AllPushed(log, workers, Pushes(log, w))
    decreases |workers|
  {
    w :| w in workers;
    if workers != {w} {
      var v := Slowest(log, workers - {w});
      if Pushes(log, v) < Pushes(log, w) { w := v; }
    }
  }
}

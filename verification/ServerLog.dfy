// What a consistency-controlled key-value server owes its workers, stated on
// the log of requests it has received and on nothing else.  The SSP and BSP
// servers keep clocks, counters and buckets to get the same effect quickly;
// SspServer.dfy and BspServer.dfy prove that they do.
module ServerLog {
  import opened Wrappers

  /** A request after decoding.  A push without update or a pull without query
      is the empty message sent to a server that owns none of the keys. */
  datatype Op<+P, +Q> = PushOp(update: Option<P>) | PullOp(query: Option<Q>)

  /** `controlled` is false for commands at or above the consistency-off mark;
      `wantClock` is true for the pull variant that also asks for the clock. */
  datatype Request<+P, +Q> = Request(src: nat, ts: int, controlled: bool, wantClock: bool, op: Op<P, Q>)

  datatype Reply<+R> = Reply(src: nat, ts: int, vals: Option<R>, clock: Option<nat>)

  datatype Protocol = Ssp(staleness: nat) | Bsp(pullFirst: bool)

  /** The server's fixed environment: who the workers are, the store the epoch
      started from, and the two storage operations. */
  datatype Config<!S, !P, !Q, !R> =
    Config(proto: Protocol, workers: set<nat>, init: S, update: (S, P) -> S, retrieve: (S, Q) -> R)

  predicate HasData<P, Q>(m: Request<P, Q>) {
    match m.op
    case PushOp(u) => u.Some?
    case PullOp(q) => q.Some?
  }

  // ---------------------------------------------------------------- clocks

  predicate IsPushBy<P, Q>(m: Request<P, Q>, w: nat) {
    m.controlled && m.src == w && m.op.PushOp?
  }

  predicate IsPullBy<P, Q>(m: Request<P, Q>, w: nat) {
    m.controlled && m.src == w && m.op.PullOp?
  }

  /** How many controlled pushes (pulls) the log holds from worker w. */
  ghost function Pushes<P, Q>(log: seq<Request<P, Q>>, w: nat): nat {
    if log == [] then 0
    else Pushes(log[..|log| - 1], w) + if IsPushBy(log[|log| - 1], w) then 1 else 0
  }

  ghost function Pulls<P, Q>(log: seq<Request<P, Q>>, w: nat): nat {
    if log == [] then 0
    else Pulls(log[..|log| - 1], w) + if IsPullBy(log[|log| - 1], w) then 1 else 0
  }

  /** The counts as numbers of requests. */
  lemma {:induction false} PushesAre<P, Q>(log: seq<Request<P, Q>>, w: nat)
    ensures Pushes(log, w) == |set i | 0 <= i < |log| && log[i].controlled && log[i].src == w && log[i].op.PushOp?|
  {
    if log != [] {
      var n := |log| - 1;
      PushesAre(log[..n], w);
      var before := set i | 0 <= i < n && log[..n][i].controlled && log[..n][i].src == w && log[..n][i].op.PushOp?;
      var now := set i | 0 <= i < |log| && log[i].controlled && log[i].src == w && log[i].op.PushOp?;
      assert now == before + if IsPushBy(log[n], w) then {n} else {};
    }
  }

  lemma {:induction false} PullsAre<P, Q>(log: seq<Request<P, Q>>, w: nat)
    ensures Pulls(log, w) == |set i | 0 <= i < |log| && log[i].controlled && log[i].src == w && log[i].op.PullOp?|
  {
    if log != [] {
      var n := |log| - 1;
      PullsAre(log[..n], w);
      var before := set i | 0 <= i < n && log[..n][i].controlled && log[..n][i].src == w && log[..n][i].op.PullOp?;
      var now := set i | 0 <= i < |log| && log[i].controlled && log[i].src == w && log[i].op.PullOp?;
      assert now == before + if IsPullBy(log[n], w) then {n} else {};
    }
  }

  ghost predicate AllPushed<P, Q>(log: seq<Request<P, Q>>, workers: set<nat>, n: int) {
    forall w :: w in workers ==> Pushes(log, w) >= n
  }

  ghost predicate AllPulled<P, Q>(log: seq<Request<P, Q>>, workers: set<nat>, n: int) {
    forall w :: w in workers ==> Pulls(log, w) >= n
  }

  /** Every controlled request comes from one of the workers. */
  ghost predicate FromWorkers<P, Q>(log: seq<Request<P, Q>>, workers: set<nat>) {
    forall i :: 0 <= i < |log| && log[i].controlled ==> log[i].src in workers
  }

  /** The number of pushes (pulls) its sender had sent before request i. */
  ghost function PushClock<P, Q>(log: seq<Request<P, Q>>, i: nat): nat
    requires i < |log|
  {
    Pushes(log[..i], log[i].src)
  }

  ghost function PullClock<P, Q>(log: seq<Request<P, Q>>, i: nat): nat
    requires i < |log|
  {
    Pulls(log[..i], log[i].src)
  }

  // ------------------------------------------------------------- readiness

  /** The gate request i waits at.  SSP: its clock less the staleness.  BSP: its
      own round. */
  ghost function Gate<P, Q>(proto: Protocol, log: seq<Request<P, Q>>, i: nat): int
    requires i < |log|
  {
    match proto
    case Ssp(s) => PushClock(log, i) - s
    case Bsp(_) => if log[i].op.PushOp? then PushClock(log, i) else PullClock(log, i)
  }

  /** 1 when a BSP epoch starts with a push, 0 when it starts with a pull. */
  function Lead(proto: Protocol): nat {
    if proto.Bsp? && !proto.pullFirst then 1 else 0
  }

  /** Whether a gate of the push or pull lane is open once the log is received.
      SSP opens gate g when every worker has pushed g times.  BSP lets the
      pulls of round g go when all pushes of earlier rounds are in, and the
      pushes of round g when all pulls that precede them are in. */
  ghost predicate Open<P, Q>(proto: Protocol, workers: set<nat>, log: seq<Request<P, Q>>, push: bool, g: int) {
    match proto
    case Ssp(_) => AllPushed(log, workers, g)
    case Bsp(_) =>
      if push then AllPulled(log, workers, g + 1 - Lead(proto))
      else AllPushed(log, workers, g + Lead(proto))
  }

  /** Request i may take effect once the whole log has been received. */
  ghost predicate Ready<P, Q>(proto: Protocol, workers: set<nat>, log: seq<Request<P, Q>>, i: nat)
    requires i < |log|
  {
    !log[i].controlled || Open(proto, workers, log, log[i].op.PushOp?, Gate(proto, log, i))
  }

  /** Readiness spelled out. A request sent with consistency control off always is.
      SSP: no worker has pushed less than the sender had
      before the request, less the staleness. BSP: all pulls before a push, or all
      pushes before a pull, are in from every worker. */
  lemma ReadyIff<P, Q>(proto: Protocol, workers: set<nat>, log: seq<Request<P, Q>>, i: nat)
    requires i < |log|
    ensures !log[i].controlled ==> Ready(proto, workers, log, i)
    ensures log[i].controlled ==>
            var w := log[i].src;
            Ready(proto, workers, log, i) <==>
            match proto
            case Ssp(s) => forall v :: v in workers ==> Pushes(log, v) >= Pushes(log[..i], w) - s
            case Bsp(pullFirst) =>
              if log[i].op.PushOp? then forall v :: v in workers ==> Pulls(log, v) >= Pushes(log[..i], w) + (if pullFirst then 1 else 0)
              else forall v :: v in workers ==> Pushes(log, v) >= Pulls(log[..i], w) + (if pullFirst then 0 else 1)
  {
  }

  // ------------------------------------------------------ effect of a step

  /** Among the first n requests, in arrival order, those of one lane that were
      waiting before the last request of the log and are ready after it. */
  ghost function Released<P, Q>(proto: Protocol, workers: set<nat>, log: seq<Request<P, Q>>, push: bool, n: nat): seq<nat>
    requires n < |log|
  {
    if n == 0 then []
    else
      Released(proto, workers, log, push, n - 1) +
      if log[n - 1].op.PushOp? == push
         && !Ready(proto, workers, log[..|log| - 1], n - 1)
         && Ready(proto, workers, log, n - 1)
      then [n - 1] else []
  }

  /** The pushes whose updates are in the store after the log, oldest first. */
  ghost function Applied<P, Q>(proto: Protocol, workers: set<nat>, log: seq<Request<P, Q>>): seq<nat> {
    if log == [] then []
    else
      var n := |log| - 1;
      Applied(proto, workers, log[..n])
      + (if log[n].op.PushOp? && Ready(proto, workers, log, n) then [n] else [])
      + Released(proto, workers, log, true, n)
  }

  /** The store after applying the given pushes one after the other. */
  ghost function ApplyAll<S, P, Q, R>(cfg: Config<S, P, Q, R>, store: S, ms: seq<Request<P, Q>>): S {
    if ms == [] then store
    else
      var before := ApplyAll(cfg, store, ms[..|ms| - 1]);
      var m := ms[|ms| - 1];
      if m.op.PushOp? && m.op.update.Some? then cfg.update(before, m.op.update.value) else before
  }

  /** The requests at the given places of the log. */
  ghost function At<P, Q>(log: seq<Request<P, Q>>, idx: seq<nat>): (ms: seq<Request<P, Q>>)
    requires forall k :: 0 <= k < |idx| ==> idx[k] < |log|
    ensures |ms| == |idx|
  {
    seq(|idx|, k requires 0 <= k < |idx| => log[idx[k]])
  }

  lemma {:induction false} ReleasedBounds<P, Q>(proto: Protocol, workers: set<nat>, log: seq<Request<P, Q>>, push: bool, n: nat)
    requires n < |log|
    ensures forall k :: 0 <= k < |Released(proto, workers, log, push, n)| ==> Released(proto, workers, log, push, n)[k] < n
  {
    if n > 0 { ReleasedBounds(proto, workers, log, push, n - 1); }
  }

  lemma {:induction false} AppliedBounds<P, Q>(proto: Protocol, workers: set<nat>, log: seq<Request<P, Q>>)
    ensures forall k :: 0 <= k < |Applied(proto, workers, log)| ==> Applied(proto, workers, log)[k] < |log|
  {
    if log != [] {
      AppliedBounds(proto, workers, log[..|log| - 1]);
      ReleasedBounds(proto, workers, log, true, |log| - 1);
    }
  }

  /** The store after the log. */
  ghost function Store<S, P, Q, R>(cfg: Config<S, P, Q, R>, log: seq<Request<P, Q>>): S {
    AppliedBounds(cfg.proto, cfg.workers, log);
    ApplyAll(cfg, cfg.init, At(log, Applied(cfg.proto, cfg.workers, log)))
  }

  /** What answers request m when it takes effect on the given store. */
  function Answer<S, P, Q, R>(cfg: Config<S, P, Q, R>, store: S, clock: nat, m: Request<P, Q>): Reply<R>
    requires HasData(m)
  {
    match m.op
    case PushOp(_) => Reply(m.src, m.ts, None, None)
    case PullOp(q) =>
      Reply(m.src, m.ts, Some(cfg.retrieve(store, q.value)), if m.controlled && m.wantClock then Some(clock) else None)
  }

  /** Answers for the given requests, in order; empty requests get none. */
  ghost function Answers<S, P, Q, R>(cfg: Config<S, P, Q, R>, store: S, clock: nat, ms: seq<Request<P, Q>>): seq<Reply<R>> {
    if ms == [] then []
    else
      var m := ms[|ms| - 1];
      Answers(cfg, store, clock, ms[..|ms| - 1]) + if HasData(m) then [Answer(cfg, store, clock, m)] else []
  }

  /** The replies sent while the last request of the log is processed: its own,
      if it is ready at once, then those of released pushes, then of released
      pulls.  A pull that is ready at once reads the store before anything is
      released; released pulls read it after.  `clock` is the least number of
      pushes any worker has made. */
  ghost function NewReplies<S, P, Q, R>(cfg: Config<S, P, Q, R>, log: seq<Request<P, Q>>, clock: nat): seq<Reply<R>>
    requires log != []
  {
    var n := |log| - 1;
    ReleasedBounds(cfg.proto, cfg.workers, log, true, n);
    ReleasedBounds(cfg.proto, cfg.workers, log, false, n);
    (if Ready(cfg.proto, cfg.workers, log, n) then Answers(cfg, Store(cfg, log[..n]), clock, [log[n]]) else [])
    + Answers(cfg, Store(cfg, log), clock, At(log, Released(cfg.proto, cfg.workers, log, true, n)))
    + Answers(cfg, Store(cfg, log), clock, At(log, Released(cfg.proto, cfg.workers, log, false, n)))
  }

  // ------------------------------------------------- one request at a time

  lemma Extend<P, Q>(log: seq<Request<P, Q>>, m: Request<P, Q>, w: nat)
    ensures (log + [m])[..|log|] == log
    ensures Pushes(log + [m], w) == Pushes(log, w) + if IsPushBy(m, w) then 1 else 0
    ensures Pulls(log + [m], w) == Pulls(log, w) + if IsPullBy(m, w) then 1 else 0
  {
    assert (log + [m])[..|log|] == log;
  }

  lemma GateStable<P, Q>(proto: Protocol, log: seq<Request<P, Q>>, n: nat, i: nat)
    requires i < n <= |log|
    ensures Gate(proto, log[..n], i) == Gate(proto, log, i)
    ensures PushClock(log[..n], i) == PushClock(log, i) && PullClock(log[..n], i) == PullClock(log, i)
  {
    assert log[..n][..i] == log[..i];
  }

  lemma {:induction false} CountsGrow<P, Q>(log: seq<Request<P, Q>>, n: nat, w: nat)
    requires n <= |log|
    ensures Pushes(log[..n], w) <= Pushes(log, w) && Pulls(log[..n], w) <= Pulls(log, w)
    decreases |log|
  {
    if n < |log| {
      CountsGrow(log[..|log| - 1], n, w);
      assert log[..|log| - 1][..n] == log[..n];
    } else {
      assert log[..n] == log;
    }
  }

  /** Readiness is never taken back. */
  lemma ReadyStays<P, Q>(proto: Protocol, workers: set<nat>, log: seq<Request<P, Q>>, n: nat, i: nat)
    requires i < n <= |log|
    requires Ready(proto, workers, log[..n], i)
    ensures Ready(proto, workers, log, i)
  {
    GateStable(proto, log, n, i);
    forall w | w in workers
      ensures Pushes(log[..n], w) <= Pushes(log, w) && Pulls(log[..n], w) <= Pulls(log, w)
    {
      CountsGrow(log, n, w);
    }
  }

  // --------------------------------------------------------------- buckets

  /** Every controlled request of one lane whose gate is g, in arrival order. */
  ghost function Waiters<P, Q>(proto: Protocol, log: seq<Request<P, Q>>, push: bool, g: int): seq<Request<P, Q>> {
    if log == [] then []
    else
      var n := |log| - 1;
      Waiters(proto, log[..n], push, g)
      + if log[n].controlled && log[n].op.PushOp? == push && Gate(proto, log, n) == g then [log[n]] else []
  }

  /** The bucket g of a vector of buckets; absent buckets are empty. */
  function Bucket<T>(buckets: seq<seq<T>>, g: int): seq<T> {
    if 0 <= g < |buckets| then buckets[g] else []
  }

  /** `top` is the last open gate of the lane. */
  ghost predicate OpenUpTo<P, Q>(proto: Protocol, workers: set<nat>, log: seq<Request<P, Q>>, push: bool, top: int) {
    forall g :: Open(proto, workers, log, push, g) <==> g <= top
  }

  /** The buckets hold exactly the requests of the lane that still wait. */
  ghost predicate Blocked<P, Q>(proto: Protocol, log: seq<Request<P, Q>>, push: bool, top: int, buckets: seq<seq<Request<P, Q>>>) {
    forall g :: g >= 0 ==> Bucket(buckets, g) == if g <= top then [] else Waiters(proto, log, push, g)
  }

  lemma ReleasedGate<P, Q>(
    proto: Protocol, workers: set<nat>, log: seq<Request<P, Q>>, i: nat, top: int, top': int)
    requires i < |log| - 1
    requires OpenUpTo(proto, workers, log[..|log| - 1], log[i].op.PushOp?, top)
    requires OpenUpTo(proto, workers, log, log[i].op.PushOp?, top')
    requires top' == top || top' == top + 1
    ensures !Ready(proto, workers, log[..|log| - 1], i) && Ready(proto, workers, log, i)
            <==> top' == top + 1 && log[i].controlled && Gate(proto, log, i) == top'
  {
    GateStable(proto, log, |log| - 1, i);
  }

  lemma AtAppend<P, Q>(log: seq<Request<P, Q>>, idx: seq<nat>, i: nat)
    requires i < |log|
    requires forall k :: 0 <= k < |idx| ==> idx[k] < |log|
    ensures At(log, idx + [i]) == At(log, idx) + [log[i]]
  {
  }

  lemma WaitersStep<P, Q>(proto: Protocol, log: seq<Request<P, Q>>, push: bool, n: nat, g: int)
    requires 0 < n <= |log|
    ensures Waiters(proto, log[..n], push, g) ==
            Waiters(proto, log[..n - 1], push, g)
            + if log[n - 1].controlled && log[n - 1].op.PushOp? == push && Gate(proto, log, n - 1) == g
              then [log[n - 1]] else []
  {
    assert log[..n][..n - 1] == log[..n - 1];
    GateStable(proto, log, n, n - 1);
  }

  lemma ReleasedStep<P, Q>(
    proto: Protocol, workers: set<nat>, log: seq<Request<P, Q>>, push: bool, n: nat, top: int, top': int)
    requires 0 < n < |log|
    requires OpenUpTo(proto, workers, log[..|log| - 1], push, top)
    requires OpenUpTo(proto, workers, log, push, top')
    requires top' == top || top' == top + 1
    ensures Released(proto, workers, log, push, n) ==
            Released(proto, workers, log, push, n - 1)
            + if log[n - 1].op.PushOp? == push && top' == top + 1 && log[n - 1].controlled && Gate(proto, log, n - 1) == top'
              then [n - 1] else []
  {
    if log[n - 1].op.PushOp? == push {
      ReleasedGate(proto, workers, log, n - 1, top, top');
    }
  }

  lemma NoneReleased<P, Q>(proto: Protocol, workers: set<nat>, log: seq<Request<P, Q>>, push: bool, g: int)
    requires log != []
    ensures Released(proto, workers, log, push, 0) == [] && At(log, []) == [] && Waiters(proto, log[..0], push, g) == []
  {
  }

  lemma {:induction false} ReleasedIsBucket<P, Q>(
    proto: Protocol, workers: set<nat>, log: seq<Request<P, Q>>, push: bool, n: nat, top: int, top': int)
    requires n < |log|
    requires OpenUpTo(proto, workers, log[..|log| - 1], push, top)
    requires OpenUpTo(proto, workers, log, push, top')
    requires top' == top || top' == top + 1
    ensures var r := Released(proto, workers, log, push, n);
            && (forall k :: 0 <= k < |r| ==> r[k] < n)
            && At(log, r) == if top' == top then [] else Waiters(proto, log[..n], push, top')
  {
    hide Released, Waiters, Gate, At, OpenUpTo;
    ReleasedBounds(proto, workers, log, push, n);
    if n == 0 {
      NoneReleased(proto, workers, log, push, top');
    } else {
      ReleasedIsBucket(proto, workers, log, push, n - 1, top, top');
      ReleasedStep(proto, workers, log, push, n, top, top');
      WaitersStep(proto, log, push, n, top');
      AtAppend(log, Released(proto, workers, log, push, n - 1), n - 1);
      assert Released(proto, workers, log, push, n - 1) + [] == Released(proto, workers, log, push, n - 1);
    }
  }

  lemma {:induction false} ApplyAllConcat<S, P, Q, R>(cfg: Config<S, P, Q, R>, store: S, a: seq<Request<P, Q>>, b: seq<Request<P, Q>>)
    ensures ApplyAll(cfg, store, a + b) == ApplyAll(cfg, ApplyAll(cfg, store, a), b)
  {
    if b == [] {
      assert a + b == a;
    } else {
      ApplyAllConcat(cfg, store, a, b[..|b| - 1]);
      assert (a + b)[..|a + b| - 1] == a + b[..|b| - 1];
    }
  }

  /** How one request changes the store: its own update, then the released ones. */
  lemma StoreStep<S, P, Q, R>(cfg: Config<S, P, Q, R>, log: seq<Request<P, Q>>, m: Request<P, Q>)
    ensures var full := log + [m];
            var own := if m.op.PushOp? && Ready(cfg.proto, cfg.workers, full, |log|) then [m] else [];
            var rel := Released(cfg.proto, cfg.workers, full, true, |log|);
            && (forall k :: 0 <= k < |rel| ==> rel[k] < |log|)
            && Store(cfg, full) == ApplyAll(cfg, ApplyAll(cfg, Store(cfg, log), own), At(full, rel))
  {
    var full := log + [m];
    assert full[..|log|] == log;
    AppliedBounds(cfg.proto, cfg.workers, log);
    AppliedBounds(cfg.proto, cfg.workers, full);
    ReleasedBounds(cfg.proto, cfg.workers, full, true, |log|);
    var old_ := Applied(cfg.proto, cfg.workers, log);
    var ready := m.op.PushOp? && Ready(cfg.proto, cfg.workers, full, |log|);
    var ownIdx: seq<nat> := if ready then [|log|] else [];
    var own := if ready then [m] else [];
    var rel := Released(cfg.proto, cfg.workers, full, true, |log|);
    assert Applied(cfg.proto, cfg.workers, full) == old_ + ownIdx + rel;
    assert At(full, old_ + ownIdx + rel) == At(log, old_) + own + At(full, rel);
    ApplyAllConcat(cfg, cfg.init, At(log, old_) + own, At(full, rel));
    ApplyAllConcat(cfg, cfg.init, At(log, old_), own);
  }

  lemma {:induction false} WaitersLane<P, Q>(proto: Protocol, log: seq<Request<P, Q>>, push: bool, g: int)
    ensures forall m :: m in Waiters(proto, log, push, g) ==> m.controlled && m.op.PushOp? == push
  {
    if log != [] { WaitersLane(proto, log[..|log| - 1], push, g); }
  }

  /** Push answers carry no data, so they do not depend on the store. */
  lemma {:induction false} PushAnswers<S, P, Q, R>(
    cfg: Config<S, P, Q, R>, s: S, c: nat, s': S, c': nat, ms: seq<Request<P, Q>>)
    requires forall m :: m in ms ==> m.op.PushOp?
    ensures Answers(cfg, s, c, ms) == Answers(cfg, s', c', ms)
  {
    if ms != [] { PushAnswers(cfg, s, c, s', c', ms[..|ms| - 1]); }
  }

  lemma OneRequest<S, P, Q, R>(cfg: Config<S, P, Q, R>, store: S, clock: nat, m: Request<P, Q>)
    ensures Answers(cfg, store, clock, [m]) == if HasData(m) then [Answer(cfg, store, clock, m)] else []
    ensures ApplyAll(cfg, store, [m]) ==
            if m.op.PushOp? && m.op.update.Some? then cfg.update(store, m.op.update.value) else store
  {
    assert [m][..0] == [];
  }

  /** Pulls leave the store alone. */
  lemma {:induction false} ApplyPulls<S, P, Q, R>(cfg: Config<S, P, Q, R>, store: S, ms: seq<Request<P, Q>>)
    requires forall m :: m in ms ==> m.op.PullOp?
    ensures ApplyAll(cfg, store, ms) == store
  {
    if ms != [] { ApplyPulls(cfg, store, ms[..|ms| - 1]); }
  }

  // ----------------------------------------------- what a server must do

  /** One step in terms of buckets.  `pushTop` and `pullTop` are the last open
      gates of the lanes before the step, the primed ones after it. */
  lemma StepSummary<S, P, Q, R>(
    cfg: Config<S, P, Q, R>, log: seq<Request<P, Q>>, m: Request<P, Q>, clock: nat,
    pushTop: int, pushTop': int, pullTop: int, pullTop': int)
    requires OpenUpTo(cfg.proto, cfg.workers, log, true, pushTop) && OpenUpTo(cfg.proto, cfg.workers, log + [m], true, pushTop')
    requires OpenUpTo(cfg.proto, cfg.workers, log, false, pullTop) && OpenUpTo(cfg.proto, cfg.workers, log + [m], false, pullTop')
    requires pushTop' == pushTop || pushTop' == pushTop + 1
    requires pullTop' == pullTop || pullTop' == pullTop + 1
    ensures var ready := Ready(cfg.proto, cfg.workers, log + [m], |log|);
            var pushes := if pushTop' == pushTop then [] else Waiters(cfg.proto, log, true, pushTop');
            var pulls := if pullTop' == pullTop then [] else Waiters(cfg.proto, log, false, pullTop');
            var store := Store(cfg, log + [m]);
            && store == ApplyAll(cfg, ApplyAll(cfg, Store(cfg, log), if ready then [m] else []), pushes)
            && NewReplies(cfg, log + [m], clock) ==
               (if ready then Answers(cfg, Store(cfg, log), clock, [m]) else [])
               + Answers(cfg, store, clock, pushes) + Answers(cfg, store, clock, pulls)
  {
    var full := log + [m];
    assert full[..|log|] == log && full[|log|] == m;
    StoreStep(cfg, log, m);
    ReleasedIsBucket(cfg.proto, cfg.workers, full, true, |log|, pushTop, pushTop');
    ReleasedIsBucket(cfg.proto, cfg.workers, full, false, |log|, pullTop, pullTop');
    if m.op.PullOp? { ApplyPulls(cfg, Store(cfg, log), [m]); }
  }

  lemma WaitersExtend<P, Q>(proto: Protocol, log: seq<Request<P, Q>>, m: Request<P, Q>, push: bool, g: int)
    ensures Waiters(proto, log + [m], push, g) ==
            Waiters(proto, log, push, g)
            + if m.controlled && m.op.PushOp? == push && Gate(proto, log + [m], |log|) == g then [m] else []
  {
    assert (log + [m])[..|log|] == log;
  }

  /** Keeping a lane of buckets right: file a blocked request, or empty the
      bucket whose gate opens, or leave the lane alone. */
  lemma BlockedStep<P, Q>(
    proto: Protocol, log: seq<Request<P, Q>>, m: Request<P, Q>, push: bool, top: int, top': int,
    buckets: seq<seq<Request<P, Q>>>, buckets': seq<seq<Request<P, Q>>>)
    requires Blocked(proto, log, push, top, buckets)
    requires top' == top || top' == top + 1
    requires var g := Gate(proto, log + [m], |log|);
             var filed := m.controlled && m.op.PushOp? == push && g > top';
             forall j :: j >= 0 ==>
               Bucket(buckets', j) == if filed && j == g then Bucket(buckets, j) + [m]
                                      else if top' != top && j == top' then []
                                      else Bucket(buckets, j)
    ensures Blocked(proto, log + [m], push, top', buckets')
  {
    forall j | j >= 0
      ensures Bucket(buckets', j) == if j <= top' then [] else Waiters(proto, log + [m], push, j)
    {
      WaitersExtend(proto, log, m, push, j);
    }
  }

  /** Growing a vector with default entries, as a resize to a larger size does. */
  function Grow<T>(v: seq<T>, size: nat, default: T): (r: seq<T>)
    ensures |r| == if size <= |v| then |v| else size
    ensures forall i :: 0 <= i < |r| ==> r[i] == if i < |v| then v[i] else default
  {
    if size <= |v| then v else v + seq(size - |v|, _ => default)
  }

  function File<T>(buckets: seq<seq<T>>, gate: nat, m: T): seq<seq<T>> {
    var grown := Grow(buckets, gate + 1, []);
    grown[gate := grown[gate] + [m]]
  }

  /** Emptying a bucket, if there is one. */
  function Empty<T>(buckets: seq<seq<T>>, gate: int): seq<seq<T>> {
    if 0 <= gate < |buckets| then buckets[gate := []] else buckets
  }

  /** Filing request m in its bucket when it is not ready, emptying the bucket
      whose gate opens. */
  ghost predicate Filed<P, Q>(
    m: Request<P, Q>, lane: bool, gate: int, top: int, top': int,
    before: seq<seq<Request<P, Q>>>, after: seq<seq<Request<P, Q>>>)
  {
    forall j :: j >= 0 ==>
      Bucket(after, j) == if lane && gate > top' && j == gate then Bucket(before, j) + [m]
                          else if top' != top && j == top' then []
                          else Bucket(before, j)
  }

  lemma FiledGrown<P, Q>(m: Request<P, Q>, lane: bool, gate: int, top: nat, before: seq<seq<Request<P, Q>>>)
    ensures lane && gate > top ==> Filed(m, lane, gate, top, top, before, File(before, gate, m))
    ensures !(lane && gate > top) ==> Filed(m, lane, gate, top, top, before, before)
    ensures !(lane && gate > top + 1) ==> Filed(m, lane, gate, top, top + 1, before, Grow(before, top + 2, [])[top + 1 := []])
  {
  }

  lemma FiledCases<P, Q>(m: Request<P, Q>, lane: bool, gate: nat, top: int, before: seq<seq<Request<P, Q>>>)
    requires top >= -1
    ensures lane && gate > top ==> Filed(m, lane, gate, top, top, before, File(before, gate, m))
    ensures !(lane && gate > top) ==> Filed(m, lane, gate, top, top, before, before)
    ensures !(lane && gate > top + 1) ==> Filed(m, lane, gate, top, top + 1, before, Empty(before, top + 1))
  {
  }
}

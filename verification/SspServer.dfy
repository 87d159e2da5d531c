// The stale-synchronous server: per-worker clocks, a count of workers past each
// clock, and buckets of requests blocked until the slowest worker catches up.
module SspServer {
  import opened Wrappers
  import opened ServerLog
  import opened ClockCounts

  lemma OpenAt<P, Q>(log: seq<Request<P, Q>>, workers: set<nat>, staleness: nat, minClock: nat, push: bool)
    requires AllPushed(log, workers, minClock) && !AllPushed(log, workers, minClock + 1)
    ensures OpenUpTo(Ssp(staleness), workers, log, push, minClock)
  {
    var w :| w in workers && Pushes(log, w) < minClock + 1;
  }

  /** The server's fields as one value. */
  datatype State<S, P, Q> = State(
    minClock: nat, clockCount: seq<nat>, workerProgress: seq<nat>,
    blockedPushes: seq<seq<Request<P, Q>>>, blockedPulls: seq<seq<Request<P, Q>>>, store: S)

  /** The counters, buckets and store are the ones the log calls for. */
  ghost predicate Fits<S, P, Q, R>(cfg: Config<S, P, Q, R>, log: seq<Request<P, Q>>, st: State<S, P, Q>) {
    && cfg.proto.Ssp?
    && Clocks(log, true, cfg.workers, st.minClock, st.clockCount, st.workerProgress)
    && Blocked(cfg.proto, log, true, st.minClock, st.blockedPushes)
    && Blocked(cfg.proto, log, false, st.minClock, st.blockedPulls)
    && st.store == Store(cfg, log)
  }

  /** What Clocks gives for both lanes, and what taking in one request does to
      readiness and gates. */
  lemma StepFacts<S, P, Q, R>(
    cfg: Config<S, P, Q, R>, log: seq<Request<P, Q>>, m: Request<P, Q>, st: State<S, P, Q>, st': State<S, P, Q>)
    requires Fits(cfg, log, st)
    requires Clocks(log + [m], true, cfg.workers, st'.minClock, st'.clockCount, st'.workerProgress)
    requires st'.minClock == st.minClock || st'.minClock == st.minClock + 1
    ensures var ready := Ready(cfg.proto, cfg.workers, log + [m], |log|);
            var pushes := if st'.minClock == st.minClock then [] else Bucket(st.blockedPushes, st'.minClock);
            var pulls := if st'.minClock == st.minClock then [] else Bucket(st.blockedPulls, st'.minClock);
            var store := Store(cfg, log + [m]);
            && (ready <==> !m.controlled || Pushes(log, m.src) - cfg.proto.staleness <= st'.minClock)
            && store == ApplyAll(cfg, ApplyAll(cfg, st.store, if ready then [m] else []), pushes)
            && NewReplies(cfg, log + [m], st'.minClock) ==
               (if ready then Answers(cfg, st.store, st'.minClock, [m]) else [])
               + Answers(cfg, store, st'.minClock, pushes) + Answers(cfg, store, st'.minClock, pulls)
  {
    OpenAt(log, cfg.workers, cfg.proto.staleness, st.minClock, true);
    OpenAt(log, cfg.workers, cfg.proto.staleness, st.minClock, false);
    OpenAt(log + [m], cfg.workers, cfg.proto.staleness, st'.minClock, true);
    OpenAt(log + [m], cfg.workers, cfg.proto.staleness, st'.minClock, false);
    StepSummary(cfg, log, m, st'.minClock, st.minClock, st'.minClock, st.minClock, st'.minClock);
    assert (log + [m])[..|log|] == log;
  }

  lemma BucketsFit<S, P, Q, R>(
    cfg: Config<S, P, Q, R>, log: seq<Request<P, Q>>, m: Request<P, Q>, st: State<S, P, Q>, st': State<S, P, Q>)
    requires Fits(cfg, log, st)
    requires Clocks(log + [m], true, cfg.workers, st'.minClock, st'.clockCount, st'.workerProgress)
    requires st'.minClock == st.minClock || st'.minClock == st.minClock + 1
    requires var gate := Pushes(log, m.src) - cfg.proto.staleness;
             && Filed(m, m.controlled && m.op.PushOp?, gate, st.minClock, st'.minClock, st.blockedPushes, st'.blockedPushes)
             && Filed(m, m.controlled && m.op.PullOp?, gate, st.minClock, st'.minClock, st.blockedPulls, st'.blockedPulls)
    requires st'.store == Store(cfg, log + [m])
    ensures Fits(cfg, log + [m], st')
  {
    assert (log + [m])[..|log|] == log;
    BlockedStep(cfg.proto, log, m, true, st.minClock, st'.minClock, st.blockedPushes, st'.blockedPushes);
    BlockedStep(cfg.proto, log, m, false, st.minClock, st'.minClock, st.blockedPulls, st'.blockedPulls);
  }

  lemma FitsStart<S, P, Q, R>(cfg: Config<S, P, Q, R>, st: State<S, P, Q>)
    requires cfg.proto.Ssp? && cfg.workers != {}
    requires st.minClock == 0 && st.clockCount == [] && st.blockedPushes == [] && st.blockedPulls == []
    requires forall k :: 0 <= k < |st.workerProgress| ==> st.workerProgress[k] == 0
    requires st.store == cfg.init
    ensures Fits(cfg, [], st)
  {
    ClocksStart<P, Q>(true, cfg.workers, st.workerProgress);
  }

  lemma NextBuckets<S, P, Q, R>(cfg: Config<S, P, Q, R>, log: seq<Request<P, Q>>, st: State<S, P, Q>)
    requires Fits(cfg, log, st)
    ensures forall m :: m in Bucket(st.blockedPushes, st.minClock + 1) ==> m.op.PushOp?
    ensures forall m :: m in Bucket(st.blockedPulls, st.minClock + 1) ==> m.controlled && m.op.PullOp?
  {
    WaitersLane(cfg.proto, log, true, st.minClock + 1);
    WaitersLane(cfg.proto, log, false, st.minClock + 1);
  }

  // ------------------------------------------------ the effect of a message

  /** A push that is not too far ahead: into the store, and when it completes
      the slowest clock, that clock moves on and its buckets are emptied. */
  ghost function TakePush<S, P, Q, R>(cfg: Config<S, P, Q, R>, st: State<S, P, Q>, m: Request<P, Q>): State<S, P, Q>
    requires st.minClock < |st.clockCount|
  {
    var store := ApplyAll(cfg, st.store, [m]);
    if st.clockCount[st.minClock] == |cfg.workers| then
      var next := st.minClock + 1;
      var pushes, pulls := Grow(st.blockedPushes, next + 1, []), Grow(st.blockedPulls, next + 1, []);
      st.(minClock := next, store := ApplyAll(cfg, store, pushes[next]),
          blockedPushes := pushes[next := []], blockedPulls := pulls[next := []])
    else st.(store := store)
  }

  ghost function TakePushReplies<S, P, Q, R>(cfg: Config<S, P, Q, R>, st: State<S, P, Q>, m: Request<P, Q>): seq<Reply<R>>
    requires st.minClock < |st.clockCount|
  {
    var st' := TakePush(cfg, st, m);
    Answers(cfg, st.store, st'.minClock, [m])
    + (if st'.minClock == st.minClock then []
       else Answers(cfg, st'.store, st'.minClock, Bucket(st.blockedPushes, st'.minClock))
            + Answers(cfg, st'.store, st'.minClock, Bucket(st.blockedPulls, st'.minClock)))
  }

  ghost function CountPush<S, P, Q>(st: State<S, P, Q>, m: Request<P, Q>): (st': State<S, P, Q>)
    ensures m.src < |st'.workerProgress| && 0 < st'.workerProgress[m.src] <= |st'.clockCount|
  {
    var progress := Grow<nat>(st.workerProgress, m.src + 1, 0);
    var p := progress[m.src];
    var counts := Grow<nat>(st.clockCount, p + 1, 0);
    st.(workerProgress := progress[m.src := p + 1], clockCount := counts[p := counts[p] + 1])
  }

  /** The state and the replies after one request. */
  ghost function Step<S, P, Q, R>(cfg: Config<S, P, Q, R>, st: State<S, P, Q>, m: Request<P, Q>): (State<S, P, Q>, seq<Reply<R>>)
    requires cfg.proto.Ssp?
    requires m.controlled && m.op.PushOp? ==> st.minClock < |CountPush(st, m).clockCount|
  {
    if !m.controlled then
      (st.(store := ApplyAll(cfg, st.store, [m])), Answers(cfg, st.store, st.minClock, [m]))
    else if m.op.PushOp? then
      var counted := CountPush(st, m);
      var gate := counted.workerProgress[m.src] - 1 - cfg.proto.staleness;
      if gate <= st.minClock then (TakePush(cfg, counted, m), TakePushReplies(cfg, counted, m))
      else (counted.(blockedPushes := File(st.blockedPushes, gate, m)), [])
    else
      var progress := Grow<nat>(st.workerProgress, m.src + 1, 0);
      var gate := progress[m.src] - cfg.proto.staleness;
      if gate <= st.minClock then (st.(workerProgress := progress), Answers(cfg, st.store, st.minClock, [m]))
      else (st.(workerProgress := progress, blockedPulls := File(st.blockedPulls, gate, m)), [])
  }

  /** Every request keeps the fields right and is answered as the log demands. */
  lemma StepFits<S, P, Q, R>(cfg: Config<S, P, Q, R>, log: seq<Request<P, Q>>, st: State<S, P, Q>, m: Request<P, Q>)
    requires Fits(cfg, log, st)
    requires m.controlled ==> m.src in cfg.workers
    ensures m.controlled && m.op.PushOp? ==> st.minClock < |CountPush(st, m).clockCount|
    ensures var (st', out) := Step(cfg, st, m);
            && Fits(cfg, log + [m], st')
            && out == NewReplies(cfg, log + [m], st'.minClock)
  {
    if !m.controlled || m.op.PullOp? {
      StepFitsQuiet(cfg, log, st, m);
    } else {
      StepFitsPush(cfg, log, st, m);
    }
  }

  lemma StepFitsQuiet<S, P, Q, R>(cfg: Config<S, P, Q, R>, log: seq<Request<P, Q>>, st: State<S, P, Q>, m: Request<P, Q>)
    requires Fits(cfg, log, st)
    requires !m.controlled || (m.op.PullOp? && m.src in cfg.workers)
    ensures var (st', out) := Step(cfg, st, m);
            && Fits(cfg, log + [m], st')
            && out == NewReplies(cfg, log + [m], st'.minClock)
  {
    hide Clocks, Blocked, Filed, Pushes, Store, NewReplies, Ready;
    var st' := Step(cfg, st, m).0;
    var gate := Pushes(log, m.src) - cfg.proto.staleness;
    QuietClocks(cfg, log, st, m);
    StepFacts(cfg, log, m, st, st');
    if m.op.PullOp? { ApplyPulls(cfg, st.store, [m]); }
    FiledGrown(m, m.controlled && m.op.PushOp?, gate, st.minClock, st.blockedPushes);
    FiledGrown(m, m.controlled && m.op.PullOp?, gate, st.minClock, st.blockedPulls);
    BucketsFit(cfg, log, m, st, st');
  }

  lemma QuietClocks<S, P, Q, R>(cfg: Config<S, P, Q, R>, log: seq<Request<P, Q>>, st: State<S, P, Q>, m: Request<P, Q>)
    requires Fits(cfg, log, st)
    requires !m.controlled || (m.op.PullOp? && m.src in cfg.workers)
    ensures var st' := Step(cfg, st, m).0;
            Clocks(log + [m], true, cfg.workers, st'.minClock, st'.clockCount, st'.workerProgress)
    ensures m.controlled ==> Grow<nat>(st.workerProgress, m.src + 1, 0)[m.src] == Pushes(log, m.src)
  {
    hide Clocks, Blocked, Pushes, Store;
    ClocksSkip(log, m, true, cfg.workers, st.minClock, st.clockCount, st.workerProgress);
    if m.controlled {
      ClocksGrow(log, true, m.src, cfg.workers, st.minClock, st.clockCount, st.workerProgress);
      ClocksGrow(log + [m], true, m.src, cfg.workers, st.minClock, st.clockCount, st.workerProgress);
    }
  }

  lemma StepFitsPush<S, P, Q, R>(cfg: Config<S, P, Q, R>, log: seq<Request<P, Q>>, st: State<S, P, Q>, m: Request<P, Q>)
    requires Fits(cfg, log, st)
    requires m.controlled && m.op.PushOp? && m.src in cfg.workers
    ensures st.minClock < |CountPush(st, m).clockCount|
    ensures var (st', out) := Step(cfg, st, m);
            && Fits(cfg, log + [m], st')
            && out == NewReplies(cfg, log + [m], st'.minClock)
  {
    hide Clocks, Blocked, Filed, Pushes, Store, NewReplies, Ready;
    var counted := CountPush(st, m);
    var gate := Pushes(log, m.src) - cfg.proto.staleness;
    ClocksGrow(log, true, m.src, cfg.workers, st.minClock, st.clockCount, st.workerProgress);
    ClocksCount(log, m, true, cfg.workers, st.minClock, st.clockCount, st.workerProgress);
    if gate <= st.minClock {
      TakeFits(cfg, log, st, counted, m);
    } else {
      LateFits(cfg, log, st, counted, m);
    }
  }

  /** A push within the staleness bound. */
  lemma TakeFits<S, P, Q, R>(
    cfg: Config<S, P, Q, R>, log: seq<Request<P, Q>>, st: State<S, P, Q>, counted: State<S, P, Q>, m: Request<P, Q>)
    requires Fits(cfg, log, st)
    requires m.controlled && m.op.PushOp? && m.src in cfg.workers
    requires counted == st.(clockCount := counted.clockCount, workerProgress := counted.workerProgress)
    requires st.minClock < |counted.clockCount|
    requires var next := if counted.clockCount[st.minClock] == |cfg.workers| then st.minClock + 1 else st.minClock;
             Clocks(log + [m], true, cfg.workers, next, counted.clockCount, counted.workerProgress)
    requires Pushes(log, m.src) - cfg.proto.staleness <= st.minClock
    ensures Fits(cfg, log + [m], TakePush(cfg, counted, m))
    ensures TakePushReplies(cfg, counted, m) == NewReplies(cfg, log + [m], TakePush(cfg, counted, m).minClock)
  {
    hide Clocks, Blocked, Filed, Pushes, Store, NewReplies, Ready;
    var st' := TakePush(cfg, counted, m);
    var gate := Pushes(log, m.src) - cfg.proto.staleness;
    StepFacts(cfg, log, m, st, st');
    FiledGrown(m, true, gate, st.minClock, st.blockedPushes);
    FiledGrown(m, false, gate, st.minClock, st.blockedPulls);
    assert Grow(st.blockedPushes, st.minClock + 2, [])[st.minClock + 1] == Bucket(st.blockedPushes, st.minClock + 1);
    BucketsFit(cfg, log, m, st, st');
  }

  /** A push too far ahead of the slowest worker. */
  lemma LateFits<S, P, Q, R>(
    cfg: Config<S, P, Q, R>, log: seq<Request<P, Q>>, st: State<S, P, Q>, counted: State<S, P, Q>, m: Request<P, Q>)
    requires Fits(cfg, log, st)
    requires m.controlled && m.op.PushOp? && m.src in cfg.workers
    requires counted == st.(clockCount := counted.clockCount, workerProgress := counted.workerProgress)
    requires Clocks(log + [m], true, cfg.workers, st.minClock, counted.clockCount, counted.workerProgress)
    requires Pushes(log, m.src) - cfg.proto.staleness > st.minClock
    ensures var gate := Pushes(log, m.src) - cfg.proto.staleness;
            Fits(cfg, log + [m], counted.(blockedPushes := File(st.blockedPushes, gate, m)))
    ensures NewReplies(cfg, log + [m], st.minClock) == []
  {
    hide File, Bucket, Clocks, Blocked, Filed, Pushes, Store, NewReplies, Ready;
    var gate := Pushes(log, m.src) - cfg.proto.staleness;
    var st' := counted.(blockedPushes := File(st.blockedPushes, gate, m));
    StepFacts(cfg, log, m, st, st');
    FiledGrown(m, true, gate, st.minClock, st.blockedPushes);
    FiledGrown(m, false, gate, st.minClock, st.blockedPulls);
    BucketsFit(cfg, log, m, st, st');
  }

  /** The minimum clock is the slowest worker's. */
  lemma SlowestClock<S, P, Q, R>(cfg: Config<S, P, Q, R>, log: seq<Request<P, Q>>, st: State<S, P, Q>)
    requires Fits(cfg, log, st)
    ensures forall w :: w in cfg.workers ==> Pushes(log, w) >= st.minClock
    ensures exists w :: w in cfg.workers && Pushes(log, w) == st.minClock
  {
    hide Blocked;
    var w :| w in cfg.workers && Pushes(log, w) < st.minClock + 1;
  }

  class SspServer<!S, !P, !Q, !R> {
    const update: (S, P) -> S
    const retrieve: (S, Q) -> R
    const staleness: nat

    var numWorkers: nat
    var minClock: nat
    var clockCount: seq<nat>
    var workerProgress: seq<nat>
    var blockedPushes: seq<seq<Request<P, Q>>>
    var blockedPulls: seq<seq<Request<P, Q>>>
    var store: S
    var initCount: nat

    ghost var workers: set<nat>
    ghost var epochStore: S
    ghost var log: seq<Request<P, Q>>

    ghost function Cfg(): Config<S, P, Q, R>
      reads this
    {
      Config(Ssp(staleness), workers, epochStore, update, retrieve)
    }

    ghost function St(): State<S, P, Q>
      reads this
    {
      State(minClock, clockCount, workerProgress, blockedPushes, blockedPulls, store)
    }

    ghost predicate Valid()
      reads this
    {
      && numWorkers == |workers| > 0
      && Fits(Cfg(), log, St())
    }

    constructor (num: nat, ghost ws: set<nat>, initial: S, staleness: nat, update: (S, P) -> S, retrieve: (S, Q) -> R)
      requires num == |ws| > 0
      requires staleness <= 10
      ensures Valid()
      ensures workers == ws && log == [] && epochStore == initial == store
      ensures this.staleness == staleness && this.update == update && this.retrieve == retrieve
    {
      this.staleness := staleness;
      this.update := update;
      this.retrieve := retrieve;
      numWorkers, minClock, clockCount := num, 0, [];
      workerProgress := seq(num, _ => 0);
      blockedPushes, blockedPulls := [], [];
      store, epochStore := initial, initial;
      initCount := 0;
      workers, log := ws, [];
      new;
      FitsStart(Cfg(), St());
    }

    /** The start of an epoch: the first of the workers' messages resets the
        server, the others are only counted. */
    method InitEpoch(next: int, ghost ws: set<nat>)
      requires Valid()
      requires initCount == 0 ==> |ws| > 0 && |ws| == if next == -1 then numWorkers else next
      modifies this
      ensures Valid()
      ensures old(initCount) == 0 ==> log == [] && workers == ws && epochStore == store == old(store)
      ensures old(initCount) != 0 ==> log == old(log) && workers == old(workers) && store == old(store) && epochStore == old(epochStore)
      ensures initCount == if old(initCount) + 1 == |workers| then 0 else old(initCount) + 1
    {
      hide Fits;
      if initCount == 0 {
        minClock, workerProgress, clockCount := 0, [], [];
        blockedPulls, blockedPushes := [], [];
        if next != -1 {
          numWorkers := next;
        }
        log, workers, epochStore := [], ws, store;
        FitsStart(Cfg(), St());
      }
      initCount := initCount + 1;
      if initCount == numWorkers {
        initCount := 0;
      }
    }

    /** Apply and answer the pushes of one bucket, oldest first. */
    method DrainPushes(ghost cfg: Config<S, P, Q, R>, bucket: seq<Request<P, Q>>) returns (out: seq<Reply<R>>)
      requires cfg.update == update && cfg.retrieve == retrieve
      requires forall m :: m in bucket ==> m.op.PushOp?
      modifies this`store
      ensures store == ApplyAll(cfg, old(store), bucket)
      ensures out == Answers(cfg, store, minClock, bucket)
    {
      out := [];
      for i := 0 to |bucket|
        invariant store == ApplyAll(cfg, old(store), bucket[..i])
        invariant out == Answers(cfg, old(store), minClock, bucket[..i])
      {
        var m := bucket[i];
        assert bucket[..i + 1][..i] == bucket[..i];
        if m.op.update.Some? {
          store := update(store, m.op.update.value);
          out := out + [Reply(m.src, m.ts, None, None)];
        }
      }
      assert bucket[..|bucket|] == bucket;
      PushAnswers(cfg, old(store), minClock, store, minClock, bucket);
    }

    /** Answer the pulls of one bucket, oldest first. */
    method DrainPulls(ghost cfg: Config<S, P, Q, R>, bucket: seq<Request<P, Q>>) returns (out: seq<Reply<R>>)
      requires cfg.update == update && cfg.retrieve == retrieve
      requires forall m :: m in bucket ==> m.controlled && m.op.PullOp?
      ensures out == Answers(cfg, store, minClock, bucket)
    {
      out := [];
      for i := 0 to |bucket|
        invariant out == Answers(cfg, store, minClock, bucket[..i])
      {
        var m := bucket[i];
        assert bucket[..i + 1][..i] == bucket[..i];
        if m.op.query.Some? {
          var res := retrieve(store, m.op.query.value);
          out := out + [Reply(m.src, m.ts, Some(res), if m.wantClock then Some(minClock) else None)];
        }
      }
      assert bucket[..|bucket|] == bucket;
    }

    /** Take a push into the store, and if that completes the slowest clock,
        move it on and release what was blocked at the new clock. */
    method ApplyPush(ghost cfg: Config<S, P, Q, R>, m: Request<P, Q>) returns (out: seq<Reply<R>>)
      requires cfg.update == update && cfg.retrieve == retrieve && |cfg.workers| == numWorkers
      requires m.op.PushOp?
      requires minClock < |clockCount|
      requires forall b :: b in Bucket(blockedPushes, minClock + 1) ==> b.op.PushOp?
      requires forall b :: b in Bucket(blockedPulls, minClock + 1) ==> b.controlled && b.op.PullOp?
      modifies this`store, this`minClock, this`blockedPushes, this`blockedPulls
      ensures St() == TakePush(cfg, old(St()), m)
      ensures out == TakePushReplies(cfg, old(St()), m)
    {
      hide ApplyAll, Answers;
      OneRequest(cfg, store, minClock, m);
      OneRequest(cfg, store, minClock + 1, m);
      out := [];
      if m.op.update.Some? {
        store := update(store, m.op.update.value);
        out := [Reply(m.src, m.ts, None, None)];
      }
      if clockCount[minClock] == numWorkers {
        minClock := minClock + 1;
        blockedPushes := Grow(blockedPushes, minClock + 1, []);
        var pushReplies := DrainPushes(cfg, blockedPushes[minClock]);
        blockedPushes := blockedPushes[minClock := []];
        blockedPulls := Grow(blockedPulls, minClock + 1, []);
        var pullReplies := DrainPulls(cfg, blockedPulls[minClock]);
        blockedPulls := blockedPulls[minClock := []];
        out := out + (pushReplies + pullReplies);
      }
    }

    method Process(m: Request<P, Q>) returns (out: seq<Reply<R>>)
      requires Valid()
      requires m.controlled ==> m.src in workers
      modifies this
      ensures Valid()
      ensures log == old(log) + [m]
      ensures workers == old(workers) && epochStore == old(epochStore) && initCount == old(initCount)
      ensures out == NewReplies(Cfg(), log, minClock)
      ensures forall w :: w in workers ==> Pushes(log, w) >= minClock
      ensures exists w :: w in workers && Pushes(log, w) == minClock
    {
      hide Fits, NewReplies;
      ghost var cfg := Cfg();
      StepFits(cfg, log, St(), m);
      SlowestClock(cfg, log + [m], Step(cfg, St(), m).0);
      if !m.controlled {
        out := ProcessUncontrolled(cfg, m);
      } else if m.op.PushOp? {
        NextBuckets(cfg, log, St());
        out := ProcessPush(cfg, m);
      } else {
        out := ProcessPull(cfg, m);
      }
      log := log + [m];
    }

    /** Requests sent with consistency control off bypass the clocks. */
    method ProcessUncontrolled(ghost cfg: Config<S, P, Q, R>, m: Request<P, Q>) returns (out: seq<Reply<R>>)
      requires cfg.update == update && cfg.retrieve == retrieve && cfg.proto == Ssp(staleness)
      requires !m.controlled
      modifies this`store
      ensures (St(), out) == Step(cfg, old(St()), m)
    {
      OneRequest(cfg, store, minClock, m);
      out := [];
      match m.op
      case PushOp(u) =>
        if u.Some? {
          store := update(store, u.value);
          out := [Reply(m.src, m.ts, None, None)];
        }
      case PullOp(q) =>
        if q.Some? {
          var res := retrieve(store, q.value);
          out := [Reply(m.src, m.ts, Some(res), None)];
        }
    }

    method ProcessPull(ghost cfg: Config<S, P, Q, R>, m: Request<P, Q>) returns (out: seq<Reply<R>>)
      requires cfg.update == update && cfg.retrieve == retrieve && cfg.proto == Ssp(staleness)
      requires m.controlled && m.op.PullOp?
      modifies this`workerProgress, this`blockedPulls
      ensures (St(), out) == Step(cfg, old(St()), m)
    {
      OneRequest(cfg, store, minClock, m);
      workerProgress := Grow<nat>(workerProgress, m.src + 1, 0);
      var expectedMinClock := workerProgress[m.src] - staleness;
      out := [];
      if expectedMinClock <= minClock {
        if m.op.query.Some? {
          var res := retrieve(store, m.op.query.value);
          out := [Reply(m.src, m.ts, Some(res), if m.wantClock then Some(minClock) else None)];
        }
      } else {
        blockedPulls := Grow(blockedPulls, expectedMinClock + 1, []);
        blockedPulls := blockedPulls[expectedMinClock := blockedPulls[expectedMinClock] + [m]];
      }
      assert St() == Step(cfg, old(St()), m).0;
    }

    method ProcessPush(ghost cfg: Config<S, P, Q, R>, m: Request<P, Q>) returns (out: seq<Reply<R>>)
      requires cfg.update == update && cfg.retrieve == retrieve && cfg.proto == Ssp(staleness) && |cfg.workers| == numWorkers
      requires m.controlled && m.op.PushOp?
      requires minClock < |CountPush(St(), m).clockCount|
      requires forall b :: b in Bucket(blockedPushes, minClock + 1) ==> b.op.PushOp?
      requires forall b :: b in Bucket(blockedPulls, minClock + 1) ==> b.controlled && b.op.PullOp?
      modifies this`workerProgress, this`clockCount, this`minClock, this`blockedPushes, this`blockedPulls, this`store
      ensures (St(), out) == Step(cfg, old(St()), m)
    {
      workerProgress := Grow<nat>(workerProgress, m.src + 1, 0);
      var progress := workerProgress[m.src];
      clockCount := Grow<nat>(clockCount, progress + 1, 0);
      clockCount := clockCount[progress := clockCount[progress] + 1];
      workerProgress := workerProgress[m.src := progress + 1];
      assert St() == CountPush(old(St()), m);
      var expectedMinClock := progress - staleness;
      if expectedMinClock <= minClock {
        out := ApplyPush(cfg, m);
      } else {
        blockedPushes := Grow(blockedPushes, expectedMinClock + 1, []);
        blockedPushes := blockedPushes[expectedMinClock := blockedPushes[expectedMinClock] + [m]];
        out := [];
      }
    }
  }
}

// The bulk-synchronous server: two phases, a push round and a pull round that
// alternate, and buckets of requests that arrive before their round.
module BspServer {
  import opened Wrappers
  import opened ServerLog
  import opened ClockCounts

  /** Worker w sends its pushes and pulls in turn. */
  ghost predicate InTurn<P, Q>(pullFirst: bool, log: seq<Request<P, Q>>, w: nat) {
    if pullFirst then Pushes(log, w) <= Pulls(log, w) <= Pushes(log, w) + 1
    else Pulls(log, w) <= Pushes(log, w) <= Pulls(log, w) + 1
  }

  /** Pulls that ask for the clock are not known to this server. */
  ghost predicate NoClock<P, Q>(log: seq<Request<P, Q>>) {
    forall i :: 0 <= i < |log| ==> !log[i].wantClock
  }

  datatype State<S, P, Q> = State(
    replyPhase: bool,
    pushIter: nat, pushCount: seq<nat>, pushProgress: seq<nat>, blockedPushes: seq<seq<Request<P, Q>>>,
    pullIter: nat, pullCount: seq<nat>, pullProgress: seq<nat>, blockedPulls: seq<seq<Request<P, Q>>>,
    store: S)

  function PushTop<S, P, Q>(proto: Protocol, st: State<S, P, Q>): int { st.pullIter - 1 + Lead(proto) }

  function PullTop<S, P, Q>(proto: Protocol, st: State<S, P, Q>): int { st.pushIter - Lead(proto) }

  /** The phase, the rounds, the counters, the buckets and the store are the ones
      the log calls for. */
  ghost predicate Fits<S, P, Q, R>(cfg: Config<S, P, Q, R>, log: seq<Request<P, Q>>, st: State<S, P, Q>) {
    && cfg.proto.Bsp?
    && NoClock(log)
    && (forall w :: w in cfg.workers ==> InTurn(cfg.proto.pullFirst, log, w))
    && Clocks(log, true, cfg.workers, st.pushIter, st.pushCount, st.pushProgress)
    && Clocks(log, false, cfg.workers, st.pullIter, st.pullCount, st.pullProgress)
    && st.pushIter == st.pullIter + Lead(cfg.proto) - (if st.replyPhase then 0 else 1)
    && Blocked(cfg.proto, log, true, PushTop(cfg.proto, st), st.blockedPushes)
    && Blocked(cfg.proto, log, false, PullTop(cfg.proto, st), st.blockedPulls)
    && st.store == Store(cfg, log)
  }

  lemma OpenAt<P, Q>(log: seq<Request<P, Q>>, workers: set<nat>, proto: Protocol, pushIter: nat, pullIter: nat)
    requires proto.Bsp?
    requires AllSent(log, true, workers, pushIter) && !AllSent(log, true, workers, pushIter + 1)
    requires AllSent(log, false, workers, pullIter) && !AllSent(log, false, workers, pullIter + 1)
    ensures OpenUpTo(proto, workers, log, true, pullIter - 1 + Lead(proto))
    ensures OpenUpTo(proto, workers, log, false, pushIter - Lead(proto))
  {
    var w :| w in workers && Pushes(log, w) < pushIter + 1;
    var v :| v in workers && Pulls(log, v) < pullIter + 1;
  }

  // ------------------------------------------------ the effect of a message

  ghost function Count<P, Q>(progress: seq<nat>, count: seq<nat>, m: Request<P, Q>): (r: (nat, seq<nat>, seq<nat>))
    ensures m.src < |r.1| && r.0 < |r.2|
  {
    var grown := Grow<nat>(progress, m.src + 1, 0);
    var p := grown[m.src];
    var counts := Grow<nat>(count, p + 1, 0);
    (p, grown[m.src := p + 1], counts[p := counts[p] + 1])
  }

  /** A push of the current round: into the store, and when the round is complete
      the replies of the waiting pulls go out. */
  ghost function TakePush<S, P, Q, R>(cfg: Config<S, P, Q, R>, st: State<S, P, Q>, m: Request<P, Q>): (State<S, P, Q>, seq<Reply<R>>)
    requires st.pushIter < |st.pushCount|
  {
    var store := ApplyAll(cfg, st.store, [m]);
    var own := Answers(cfg, st.store, 0, [m]);
    if st.pushCount[st.pushIter] == |cfg.workers| then
      (st.(store := store, replyPhase := true, pushIter := st.pushIter + 1, blockedPulls := Empty(st.blockedPulls, st.pullIter)),
       own + Answers(cfg, store, 0, Bucket(st.blockedPulls, st.pullIter)))
    else (st.(store := store), own)
  }

  /** A pull of the current round: answered, and when the round is complete the
      waiting pushes are taken in. */
  ghost function TakePull<S, P, Q, R>(cfg: Config<S, P, Q, R>, st: State<S, P, Q>, m: Request<P, Q>): (State<S, P, Q>, seq<Reply<R>>)
    requires st.pullIter < |st.pullCount|
  {
    var own := Answers(cfg, st.store, 0, [m]);
    if st.pullCount[st.pullIter] == |cfg.workers| then
      var store := ApplyAll(cfg, st.store, Bucket(st.blockedPushes, st.pushIter));
      (st.(store := store, replyPhase := false, pullIter := st.pullIter + 1, blockedPushes := Empty(st.blockedPushes, st.pushIter)),
       own + Answers(cfg, store, 0, Bucket(st.blockedPushes, st.pushIter)))
    else (st, own)
  }

  ghost function StepPush<S, P, Q, R>(cfg: Config<S, P, Q, R>, st: State<S, P, Q>, m: Request<P, Q>): (State<S, P, Q>, seq<Reply<R>>)
  {
    var (p, progress, count) := Count(st.pushProgress, st.pushCount, m);
    var counted := st.(pushProgress := progress, pushCount := count);
    if st.replyPhase || st.pushIter != p then (counted.(blockedPushes := File(st.blockedPushes, p, m)), [])
    else TakePush(cfg, counted, m)
  }

  ghost function StepPull<S, P, Q, R>(cfg: Config<S, P, Q, R>, st: State<S, P, Q>, m: Request<P, Q>): (State<S, P, Q>, seq<Reply<R>>)
  {
    var (p, progress, count) := Count(st.pullProgress, st.pullCount, m);
    var counted := st.(pullProgress := progress, pullCount := count);
    if !st.replyPhase || st.pullIter != p then (counted.(blockedPulls := File(st.blockedPulls, p, m)), [])
    else TakePull(cfg, counted, m)
  }

  ghost function Step<S, P, Q, R>(cfg: Config<S, P, Q, R>, st: State<S, P, Q>, m: Request<P, Q>): (State<S, P, Q>, seq<Reply<R>>)
  {
    if !m.controlled then (st.(store := ApplyAll(cfg, st.store, [m])), Answers(cfg, st.store, 0, [m]))
    else if m.op.PushOp? then StepPush(cfg, st, m)
    else StepPull(cfg, st, m)
  }

  // ------------------------------------------------------ why it is right

  /** Both lanes' gates before and after a request, and the step they amount to. */
  lemma StepFacts<S, P, Q, R>(
    cfg: Config<S, P, Q, R>, log: seq<Request<P, Q>>, m: Request<P, Q>, st: State<S, P, Q>, st': State<S, P, Q>)
    requires Fits(cfg, log, st)
    requires Clocks(log + [m], true, cfg.workers, st'.pushIter, st'.pushCount, st'.pushProgress)
    requires Clocks(log + [m], false, cfg.workers, st'.pullIter, st'.pullCount, st'.pullProgress)
    requires st'.pushIter == st.pushIter || st'.pushIter == st.pushIter + 1
    requires st'.pullIter == st.pullIter || st'.pullIter == st.pullIter + 1
    ensures var proto := cfg.proto;
            var gate := Sent(log, m.op.PushOp?, m.src);
            var top' := if m.op.PushOp? then PushTop(proto, st') else PullTop(proto, st');
            var ready := Ready(proto, cfg.workers, log + [m], |log|);
            var pushes := if st'.pullIter == st.pullIter then [] else Bucket(st.blockedPushes, PushTop(proto, st) + 1);
            var pulls := if st'.pushIter == st.pushIter then [] else Bucket(st.blockedPulls, PullTop(proto, st) + 1);
            var store := Store(cfg, log + [m]);
            && (m.controlled ==> Gate(proto, log + [m], |log|) == gate)
            && (ready <==> !m.controlled || gate <= top')
            && store == ApplyAll(cfg, ApplyAll(cfg, st.store, if ready then [m] else []), pushes)
            && NewReplies(cfg, log + [m], 0) ==
               (if ready then Answers(cfg, st.store, 0, [m]) else [])
               + Answers(cfg, store, 0, pushes) + Answers(cfg, store, 0, pulls)
  {
    hide AllSent, NoClock, Pushes, Pulls, Waiters, InTurn;
    assert PushTop(cfg.proto, st) >= -1 && PullTop(cfg.proto, st) >= -1;
    OpenAt(log, cfg.workers, cfg.proto, st.pushIter, st.pullIter);
    OpenAt(log + [m], cfg.workers, cfg.proto, st'.pushIter, st'.pullIter);
    StepSummary(cfg, log, m, 0, PushTop(cfg.proto, st), st'.pullIter - 1 + Lead(cfg.proto),
                PullTop(cfg.proto, st), st'.pushIter - Lead(cfg.proto));
    assert (log + [m])[..|log|] == log;
  }

  lemma BucketsFit<S, P, Q, R>(
    cfg: Config<S, P, Q, R>, log: seq<Request<P, Q>>, m: Request<P, Q>, st: State<S, P, Q>, st': State<S, P, Q>)
    requires Fits(cfg, log, st)
    requires !m.wantClock
    requires forall w :: w in cfg.workers ==> InTurn(cfg.proto.pullFirst, log + [m], w)
    requires Clocks(log + [m], true, cfg.workers, st'.pushIter, st'.pushCount, st'.pushProgress)
    requires Clocks(log + [m], false, cfg.workers, st'.pullIter, st'.pullCount, st'.pullProgress)
    requires st'.pushIter == st.pushIter || st'.pushIter == st.pushIter + 1
    requires st'.pullIter == st.pullIter || st'.pullIter == st.pullIter + 1
    requires st'.pushIter == st'.pullIter + Lead(cfg.proto) - (if st'.replyPhase then 0 else 1)
    requires var gate := Sent(log, m.op.PushOp?, m.src);
             && Filed(m, m.controlled && m.op.PushOp?, gate, PushTop(cfg.proto, st), PushTop(cfg.proto, st'), st.blockedPushes, st'.blockedPushes)
             && Filed(m, m.controlled && m.op.PullOp?, gate, PullTop(cfg.proto, st), PullTop(cfg.proto, st'), st.blockedPulls, st'.blockedPulls)
    requires st'.store == Store(cfg, log + [m])
    ensures Fits(cfg, log + [m], st')
  {
    hide Clocks, InTurn, Store, Waiters, Pushes, Pulls;
    assert (log + [m])[..|log|] == log;
    BlockedStep(cfg.proto, log, m, true, PushTop(cfg.proto, st), PushTop(cfg.proto, st'), st.blockedPushes, st'.blockedPushes);
    BlockedStep(cfg.proto, log, m, false, PullTop(cfg.proto, st), PullTop(cfg.proto, st'), st.blockedPulls, st'.blockedPulls);
  }

  /** While replies go out, no push can complete the next push round: a worker
      whose pull is missing has not reached it. */
  lemma PushRoundHeld<P, Q>(log: seq<Request<P, Q>>, m: Request<P, Q>, workers: set<nat>, pullFirst: bool, pushIter: nat, pullIter: nat)
    requires m.controlled && m.op.PushOp?
    requires !AllSent(log, false, workers, pullIter + 1)
    requires forall w :: w in workers ==> InTurn(pullFirst, log + [m], w)
    requires pushIter == pullIter + if pullFirst then 0 else 1
    ensures !AllSent(log + [m], true, workers, pushIter + 1)
  {
    var w :| w in workers && Pulls(log, w) < pullIter + 1;
    Extend(log, m, w);
    assert InTurn(pullFirst, log + [m], w);
  }

  lemma PullRoundHeld<P, Q>(log: seq<Request<P, Q>>, m: Request<P, Q>, workers: set<nat>, pullFirst: bool, pushIter: nat, pullIter: nat)
    requires m.controlled && m.op.PullOp?
    requires !AllSent(log, true, workers, pushIter + 1)
    requires forall w :: w in workers ==> InTurn(pullFirst, log + [m], w)
    requires pullIter == pushIter + if pullFirst then 1 else 0
    ensures !AllSent(log + [m], false, workers, pullIter + 1)
  {
    var w :| w in workers && Pushes(log, w) < pushIter + 1;
    Extend(log, m, w);
    assert InTurn(pullFirst, log + [m], w);
  }

  ghost predicate Admissible<S, P, Q, R>(cfg: Config<S, P, Q, R>, log: seq<Request<P, Q>>, m: Request<P, Q>) {
    && cfg.proto.Bsp?
    && !m.wantClock
    && (m.controlled ==> m.src in cfg.workers)
    && (forall w :: w in cfg.workers ==> InTurn(cfg.proto.pullFirst, log + [m], w))
  }

  /** The buckets after a request: filed if it has to wait, emptied if its gate
      opened, else unchanged. */
  function Kept<T>(lane: bool, gate: nat, top: int, top': int, buckets: seq<seq<T>>, m: T): seq<seq<T>> {
    if lane && gate > top' then File(buckets, gate, m)
    else if top' != top then Empty(buckets, top')
    else buckets
  }

  lemma KeptFiled<P, Q>(m: Request<P, Q>, lane: bool, gate: nat, top: int, top': int, before: seq<seq<Request<P, Q>>>)
    requires top >= -1 && (top' == top || top' == top + 1)
    requires lane && gate > top' ==> top' == top
    ensures Filed(m, lane, gate, top, top', before, Kept(lane, gate, top, top', before, m))
  {
    FiledCases(m, lane, gate, top, before);
  }

  /** A state and replies that treat store, buckets and phase as the log demands. */
  ghost predicate Settled<S, P, Q, R>(
    cfg: Config<S, P, Q, R>, m: Request<P, Q>, gate: nat, st: State<S, P, Q>, st': State<S, P, Q>, out: seq<Reply<R>>)
  {
    var proto := cfg.proto;
    var top' := if m.op.PushOp? then PushTop(proto, st') else PullTop(proto, st');
    var ready := !m.controlled || gate <= top';
    var pushes := if st'.pullIter == st.pullIter then [] else Bucket(st.blockedPushes, PushTop(proto, st) + 1);
    var pulls := if st'.pushIter == st.pushIter then [] else Bucket(st.blockedPulls, PullTop(proto, st) + 1);
    && PushTop(proto, st') >= -1 && PullTop(proto, st') >= -1
    && (st'.pushIter == st.pushIter || st'.pushIter == st.pushIter + 1)
    && (st'.pullIter == st.pullIter || st'.pullIter == st.pullIter + 1)
    && (!ready && m.op.PushOp? ==> st'.pullIter == st.pullIter)
    && (!ready && m.op.PullOp? ==> st'.pushIter == st.pushIter)
    && st'.pushIter == st'.pullIter + Lead(proto) - (if st'.replyPhase then 0 else 1)
    && st'.blockedPushes == Kept(m.controlled && m.op.PushOp?, gate, PushTop(proto, st), PushTop(proto, st'), st.blockedPushes, m)
    && st'.blockedPulls == Kept(m.controlled && m.op.PullOp?, gate, PullTop(proto, st), PullTop(proto, st'), st.blockedPulls, m)
    && st'.store == ApplyAll(cfg, ApplyAll(cfg, st.store, if ready then [m] else []), pushes)
    && out == (if ready then Answers(cfg, st.store, 0, [m]) else [])
              + Answers(cfg, st'.store, 0, pushes) + Answers(cfg, st'.store, 0, pulls)
  }

  lemma SettledFits<S, P, Q, R>(
    cfg: Config<S, P, Q, R>, log: seq<Request<P, Q>>, m: Request<P, Q>, st: State<S, P, Q>, st': State<S, P, Q>, out: seq<Reply<R>>)
    requires Fits(cfg, log, st) && Admissible(cfg, log, m)
    requires Clocks(log + [m], true, cfg.workers, st'.pushIter, st'.pushCount, st'.pushProgress)
    requires Clocks(log + [m], false, cfg.workers, st'.pullIter, st'.pullCount, st'.pullProgress)
    requires Settled(cfg, m, Sent(log, m.op.PushOp?, m.src), st, st', out)
    ensures Fits(cfg, log + [m], st') && out == NewReplies(cfg, log + [m], 0)
  {
    hide Clocks, NoClock, InTurn, Store, Waiters, Pushes, Pulls, Blocked, Filed, NewReplies, Ready, Answers, ApplyAll, Kept;
    StepFacts(cfg, log, m, st, st');
    var gate := Sent(log, m.op.PushOp?, m.src);
    KeptFiled(m, m.controlled && m.op.PushOp?, gate, PushTop(cfg.proto, st), PushTop(cfg.proto, st'), st.blockedPushes);
    KeptFiled(m, m.controlled && m.op.PullOp?, gate, PullTop(cfg.proto, st), PullTop(cfg.proto, st'), st.blockedPulls);
    BucketsFit(cfg, log, m, st, st');
  }

  lemma StepFitsFree<S, P, Q, R>(cfg: Config<S, P, Q, R>, log: seq<Request<P, Q>>, st: State<S, P, Q>, m: Request<P, Q>)
    requires Fits(cfg, log, st) && Admissible(cfg, log, m) && !m.controlled
    ensures var (st', out) := Step(cfg, st, m);
            Fits(cfg, log + [m], st') && out == NewReplies(cfg, log + [m], 0)
  {
    hide Clocks, NoClock, InTurn, Store, Waiters, Pushes, Pulls, Blocked, Filed, NewReplies, Ready;
    var (st', out) := Step(cfg, st, m);
    ClocksSkip(log, m, true, cfg.workers, st.pushIter, st.pushCount, st.pushProgress);
    ClocksSkip(log, m, false, cfg.workers, st.pullIter, st.pullCount, st.pullProgress);
    SettledFits(cfg, log, m, st, st', out);
  }

  lemma StepFitsPush<S, P, Q, R>(cfg: Config<S, P, Q, R>, log: seq<Request<P, Q>>, st: State<S, P, Q>, m: Request<P, Q>)
    requires Fits(cfg, log, st) && Admissible(cfg, log, m) && m.controlled && m.op.PushOp?
    ensures var (st', out) := Step(cfg, st, m);
            Fits(cfg, log + [m], st') && out == NewReplies(cfg, log + [m], 0)
  {
    hide Clocks, NoClock, InTurn, Store, Waiters, Pushes, Pulls, Blocked, Filed, NewReplies, Ready, Settled;
    var (st', out) := Step(cfg, st, m);
    ClocksCount(log, m, true, cfg.workers, st.pushIter, st.pushCount, st.pushProgress);
    ClocksSkip(log, m, false, cfg.workers, st.pullIter, st.pullCount, st.pullProgress);
    PushCounted(cfg, log, st, m);
    PushSettled(cfg, st, m);
    SettledFits(cfg, log, m, st, st', out);
  }

  /** A push that completes its round is one of the round being taken in. */
  lemma PushCounted<S, P, Q, R>(cfg: Config<S, P, Q, R>, log: seq<Request<P, Q>>, st: State<S, P, Q>, m: Request<P, Q>)
    requires Fits(cfg, log, st) && Admissible(cfg, log, m) && m.controlled && m.op.PushOp?
    ensures var (p, progress, count) := Count(st.pushProgress, st.pushCount, m);
            && p == Sent(log, true, m.src) >= st.pushIter
            && st.pushIter < |count|
            && (count[st.pushIter] == |cfg.workers| ==> !st.replyPhase && p == st.pushIter)
  {
    hide NoClock, Store, Waiters, Pushes, Pulls, Blocked;
    ClocksCount(log, m, true, cfg.workers, st.pushIter, st.pushCount, st.pushProgress);
    if st.replyPhase {
      PushRoundHeld(log, m, cfg.workers, cfg.proto.pullFirst, st.pushIter, st.pullIter);
    }
  }

  lemma PushSettled<S, P, Q, R>(cfg: Config<S, P, Q, R>, st: State<S, P, Q>, m: Request<P, Q>)
    requires m.controlled && m.op.PushOp? && cfg.proto.Bsp?
    requires st.pushIter == st.pullIter + Lead(cfg.proto) - (if st.replyPhase then 0 else 1)
    requires var (p, progress, count) := Count(st.pushProgress, st.pushCount, m);
             && p >= st.pushIter
             && st.pushIter < |count|
             && (count[st.pushIter] == |cfg.workers| ==> !st.replyPhase && p == st.pushIter)
    ensures var (p, progress, count) := Count(st.pushProgress, st.pushCount, m);
            var (st', out) := Step(cfg, st, m);
            && Settled(cfg, m, p, st, st', out)
            && st'.pushIter == (if count[st.pushIter] == |cfg.workers| then st.pushIter + 1 else st.pushIter)
            && st'.pushCount == count && st'.pushProgress == progress
            && st'.pullIter == st.pullIter && st'.pullCount == st.pullCount && st'.pullProgress == st.pullProgress
  {
  }

  lemma StepFitsPull<S, P, Q, R>(cfg: Config<S, P, Q, R>, log: seq<Request<P, Q>>, st: State<S, P, Q>, m: Request<P, Q>)
    requires Fits(cfg, log, st) && Admissible(cfg, log, m) && m.controlled && m.op.PullOp?
    ensures var (st', out) := Step(cfg, st, m);
            Fits(cfg, log + [m], st') && out == NewReplies(cfg, log + [m], 0)
  {
    hide Clocks, NoClock, InTurn, Store, Waiters, Pushes, Pulls, Blocked, Filed, NewReplies, Ready, Settled;
    var (st', out) := Step(cfg, st, m);
    ClocksSkip(log, m, true, cfg.workers, st.pushIter, st.pushCount, st.pushProgress);
    ClocksCount(log, m, false, cfg.workers, st.pullIter, st.pullCount, st.pullProgress);
    PullCounted(cfg, log, st, m);
    PullSettled(cfg, st, m);
    SettledFits(cfg, log, m, st, st', out);
  }

  /** A pull that completes its round is one of the round being answered. */
  lemma PullCounted<S, P, Q, R>(cfg: Config<S, P, Q, R>, log: seq<Request<P, Q>>, st: State<S, P, Q>, m: Request<P, Q>)
    requires Fits(cfg, log, st) && Admissible(cfg, log, m) && m.controlled && m.op.PullOp?
    ensures var (p, progress, count) := Count(st.pullProgress, st.pullCount, m);
            && p == Sent(log, false, m.src) >= st.pullIter
            && st.pullIter < |count|
            && (count[st.pullIter] == |cfg.workers| ==> st.replyPhase && p == st.pullIter)
  {
    hide NoClock, Store, Waiters, Pushes, Pulls, Blocked;
    ClocksCount(log, m, false, cfg.workers, st.pullIter, st.pullCount, st.pullProgress);
    if !st.replyPhase {
      PullRoundHeld(log, m, cfg.workers, cfg.proto.pullFirst, st.pushIter, st.pullIter);
    }
  }

  lemma PullSettled<S, P, Q, R>(cfg: Config<S, P, Q, R>, st: State<S, P, Q>, m: Request<P, Q>)
    requires m.controlled && m.op.PullOp? && cfg.proto.Bsp?
    requires st.pushIter == st.pullIter + Lead(cfg.proto) - (if st.replyPhase then 0 else 1)
    requires var (p, progress, count) := Count(st.pullProgress, st.pullCount, m);
             && p >= st.pullIter
             && st.pullIter < |count|
             && (count[st.pullIter] == |cfg.workers| ==> st.replyPhase && p == st.pullIter)
    ensures var (p, progress, count) := Count(st.pullProgress, st.pullCount, m);
            var (st', out) := Step(cfg, st, m);
            && Settled(cfg, m, p, st, st', out)
            && st'.pullIter == (if count[st.pullIter] == |cfg.workers| then st.pullIter + 1 else st.pullIter)
            && st'.pullCount == count && st'.pullProgress == progress
            && st'.pushIter == st.pushIter && st'.pushCount == st.pushCount && st'.pushProgress == st.pushProgress
  {
    ApplyPulls(cfg, st.store, [m]);
  }

  /** Every request keeps the fields right and is answered as the log demands. */
  lemma StepFits<S, P, Q, R>(cfg: Config<S, P, Q, R>, log: seq<Request<P, Q>>, st: State<S, P, Q>, m: Request<P, Q>)
    requires Fits(cfg, log, st) && Admissible(cfg, log, m)
    ensures var (st', out) := Step(cfg, st, m);
            Fits(cfg, log + [m], st') && out == NewReplies(cfg, log + [m], 0)
  {
    hide Fits, Step, NewReplies;
    if !m.controlled { StepFitsFree(cfg, log, st, m); }
    else if m.op.PushOp? { StepFitsPush(cfg, log, st, m); }
    else { StepFitsPull(cfg, log, st, m); }
  }

  lemma FitsStart<S, P, Q, R>(cfg: Config<S, P, Q, R>, st: State<S, P, Q>)
    requires cfg.proto.Bsp? && cfg.workers != {}
    requires st == State(cfg.proto.pullFirst, 0, [], [], [], 0, [], [], [], cfg.init)
    ensures Fits(cfg, [], st)
  {
    ClocksStart<P, Q>(true, cfg.workers, []);
    ClocksStart<P, Q>(false, cfg.workers, []);
  }

  /** What the buckets about to be released hold. */
  lemma NextBuckets<S, P, Q, R>(cfg: Config<S, P, Q, R>, log: seq<Request<P, Q>>, st: State<S, P, Q>)
    requires Fits(cfg, log, st)
    ensures !st.replyPhase ==> forall m :: m in Bucket(st.blockedPulls, st.pullIter) ==> m.op.PullOp? && !m.wantClock
    ensures st.replyPhase ==> forall m :: m in Bucket(st.blockedPushes, st.pushIter) ==> m.op.PushOp?
  {
    hide Clocks, InTurn, Store, Pushes, Pulls;
    WaitersLane(cfg.proto, log, true, st.pushIter);
    WaitersLane(cfg.proto, log, false, st.pullIter);
    WaitersNoClock(cfg.proto, log, false, st.pullIter);
  }

  lemma {:induction false} WaitersNoClock<P, Q>(proto: Protocol, log: seq<Request<P, Q>>, push: bool, g: int)
    requires NoClock(log)
    ensures forall m :: m in Waiters(proto, log, push, g) ==> !m.wantClock
  {
    hide Gate;
    if log != [] { WaitersNoClock(proto, log[..|log| - 1], push, g); }
  }

  class BspServer<!S, !P, !Q, !R> {
    const update: (S, P) -> S
    const retrieve: (S, Q) -> R
    const initReplyPhase: bool

    var numWorkers: nat
    var pushIter: nat
    var pushCount: seq<nat>
    var pushProgress: seq<nat>
    var blockedPushes: seq<seq<Request<P, Q>>>
    var pullIter: nat
    var pullCount: seq<nat>
    var pullProgress: seq<nat>
    var blockedPulls: seq<seq<Request<P, Q>>>
    var replyPhase: bool
    var store: S
    var initCount: nat

    ghost var workers: set<nat>
    ghost var epochStore: S
    ghost var log: seq<Request<P, Q>>

    ghost function Cfg(): Config<S, P, Q, R>
      reads this
    {
      Config(Bsp(initReplyPhase), workers, epochStore, update, retrieve)
    }

    ghost function St(): State<S, P, Q>
      reads this
    {
      State(replyPhase, pushIter, pushCount, pushProgress, blockedPushes, pullIter, pullCount, pullProgress, blockedPulls, store)
    }

    ghost predicate Valid()
      reads this
    {
      numWorkers == |workers| > 0 && Fits(Cfg(), log, St())
    }

    /** A server whose first epoch has begun: the flag for the first phase takes
        effect when an epoch is initialised. */
    constructor (num: nat, ghost ws: set<nat>, initial: S, update: (S, P) -> S, retrieve: (S, Q) -> R, initReplyPhase: bool)
      requires num == |ws| > 0
      ensures workers == ws && log == [] && epochStore == store == initial
      ensures numWorkers == num && initCount == 0
      ensures this.initReplyPhase == initReplyPhase && this.update == update && this.retrieve == retrieve
      ensures initReplyPhase ==> Valid()
    {
      this.initReplyPhase, this.update, this.retrieve := initReplyPhase, update, retrieve;
      numWorkers := num;
      pushIter, pushCount, pushProgress, blockedPushes := 0, [], [], [];
      pullIter, pullCount, pullProgress, blockedPulls := 0, [], [], [];
      replyPhase := true;
      store, epochStore := initial, initial;
      initCount := 0;
      workers, log := ws, [];
      new;
      if initReplyPhase { FitsStart(Cfg(), St()); }
    }

    /** The start of an epoch: the first of the workers' messages resets the
        server, the others are only counted. */
    method InitEpoch(next: int, ghost ws: set<nat>)
      requires initCount == 0 || Valid()
      requires initCount == 0 ==> |ws| > 0 && |ws| == if next == -1 then numWorkers else next
      modifies this
      ensures Valid()
      ensures old(initCount) == 0 ==> log == [] && workers == ws && epochStore == store == old(store)
      ensures old(initCount) != 0 ==> log == old(log) && workers == old(workers) && store == old(store) && epochStore == old(epochStore)
      ensures initCount == if old(initCount) + 1 == |workers| then 0 else old(initCount) + 1
    {
      hide Fits;
      if initCount == 0 {
        Reset(next, ws);
        FitsStart(Cfg(), St());
      }
      initCount := initCount + 1;
      if initCount == numWorkers {
        initCount := 0;
      }
    }

    method Reset(next: int, ghost ws: set<nat>)
      requires |ws| > 0 && |ws| == if next == -1 then numWorkers else next
      modifies this
      ensures numWorkers == |ws| && log == [] && workers == ws && epochStore == store == old(store) && initCount == old(initCount)
      ensures St() == State(initReplyPhase, 0, [], [], [], 0, [], [], [], store)
    {
      if next != -1 {
        numWorkers := next;
      }
      ClearRounds();
      log, workers, epochStore := [], ws, store;
    }

    /** Back to the first phase of the first round. */
    method ClearRounds()
      modifies this`replyPhase, this`pushIter, this`pullIter, this`pushCount, this`pullCount, this`pushProgress, this`pullProgress,
        this`blockedPulls, this`blockedPushes
      ensures St() == State(initReplyPhase, 0, [], [], [], 0, [], [], [], store)
    {
      replyPhase, pushIter, pullIter := initReplyPhase, 0, 0;
      pushCount, pullCount, pushProgress, pullProgress, blockedPulls, blockedPushes := [], [], [], [], [], [];
    }

    /** Apply and answer the pushes of one bucket, oldest first. */
    method DrainPushes(ghost cfg: Config<S, P, Q, R>, bucket: seq<Request<P, Q>>) returns (out: seq<Reply<R>>)
      requires cfg.update == update && cfg.retrieve == retrieve
      requires forall m :: m in bucket ==> m.op.PushOp?
      modifies this`store
      ensures store == ApplyAll(cfg, old(store), bucket)
      ensures out == Answers(cfg, store, 0, bucket)
    {
      out := [];
      for i := 0 to |bucket|
        invariant store == ApplyAll(cfg, old(store), bucket[..i])
        invariant out == Answers(cfg, old(store), 0, bucket[..i])
      {
        var m := bucket[i];
        assert bucket[..i + 1][..i] == bucket[..i];
        if m.op.update.Some? {
          store := update(store, m.op.update.value);
          out := out + [Reply(m.src, m.ts, None, None)];
        }
      }
      assert bucket[..|bucket|] == bucket;
      PushAnswers(cfg, old(store), 0, store, 0, bucket);
    }

    /** Answer the pulls of one bucket, oldest first. */
    method DrainPulls(ghost cfg: Config<S, P, Q, R>, bucket: seq<Request<P, Q>>) returns (out: seq<Reply<R>>)
      requires cfg.update == update && cfg.retrieve == retrieve
      requires forall m :: m in bucket ==> m.op.PullOp? && !m.wantClock
      ensures out == Answers(cfg, store, 0, bucket)
    {
      out := [];
      for i := 0 to |bucket|
        invariant out == Answers(cfg, store, 0, bucket[..i])
      {
        var m := bucket[i];
        assert bucket[..i + 1][..i] == bucket[..i];
        if m.op.query.Some? {
          var res := retrieve(store, m.op.query.value);
          out := out + [Reply(m.src, m.ts, Some(res), None)];
        }
      }
      assert bucket[..|bucket|] == bucket;
    }

    /** Workers alternate, and do not ask this server for clocks; anything else a
        worker may send in any order relative to the others. */
    method Process(m: Request<P, Q>) returns (out: seq<Reply<R>>)
      requires Valid()
      requires Admissible(Cfg(), log, m)
      modifies this
      ensures Valid()
      ensures log == old(log) + [m]
      ensures workers == old(workers) && epochStore == old(epochStore) && initCount == old(initCount)
      ensures out == NewReplies(Cfg(), log, 0)
    {
      hide Fits, NewReplies;
      ghost var cfg := Cfg();
      StepFits(cfg, log, St(), m);
      NextBuckets(cfg, log, St());
      if !m.controlled {
        out := ProcessUncontrolled(cfg, m);
      } else if m.op.PushOp? {
        out := ProcessPush(cfg, m);
      } else {
        out := ProcessPull(cfg, m);
      }
      log := log + [m];
    }

    method ProcessUncontrolled(ghost cfg: Config<S, P, Q, R>, m: Request<P, Q>) returns (out: seq<Reply<R>>)
      requires cfg.update == update && cfg.retrieve == retrieve
      requires !m.controlled
      modifies this`store
      ensures (St(), out) == Step(cfg, old(St()), m)
    {
      OneRequest(cfg, store, 0, m);
      out := [];
      match m.op
      case PushOp(u) =>
        if u.Some? {
          store := update(store, u.value);
          out := [Reply(m.src, m.ts, None, None)];
        }
      case PullOp(q) =>
        if q.Some? {
          var res := retrieve(store, q.value);
          out := [Reply(m.src, m.ts, Some(res), None)];
        }
    }

    method ProcessPush(ghost cfg: Config<S, P, Q, R>, m: Request<P, Q>) returns (out: seq<Reply<R>>)
      requires cfg.update == update && cfg.retrieve == retrieve && |cfg.workers| == numWorkers
      requires m.controlled && m.op.PushOp?
      requires !replyPhase ==> forall b :: b in Bucket(blockedPulls, pullIter) ==> b.op.PullOp? && !b.wantClock
      modifies this`pushProgress, this`pushCount, this`pushIter, this`replyPhase, this`blockedPushes, this`blockedPulls, this`store
      ensures (St(), out) == Step(cfg, old(St()), m)
    {
      pushProgress := Grow<nat>(pushProgress, m.src + 1, 0);
      var progress := pushProgress[m.src];
      pushCount := Grow<nat>(pushCount, progress + 1, 0);
      pushCount := pushCount[progress := pushCount[progress] + 1];
      pushProgress := pushProgress[m.src := progress + 1];
      if replyPhase || pushIter != progress {
        blockedPushes := File(blockedPushes, progress, m);
        out := [];
      } else {
        out := AcceptPush(cfg, m);
      }
    }

    method AcceptPush(ghost cfg: Config<S, P, Q, R>, m: Request<P, Q>) returns (out: seq<Reply<R>>)
      requires cfg.update == update && cfg.retrieve == retrieve && |cfg.workers| == numWorkers
      requires m.op.PushOp?
      requires pushIter < |pushCount|
      requires forall b :: b in Bucket(blockedPulls, pullIter) ==> b.op.PullOp? && !b.wantClock
      modifies this`pushIter, this`replyPhase, this`blockedPulls, this`store
      ensures (St(), out) == TakePush(cfg, old(St()), m)
    {
      OneRequest(cfg, store, 0, m);
      out := [];
      if m.op.update.Some? {
        store := update(store, m.op.update.value);
        out := [Reply(m.src, m.ts, None, None)];
      }
      if pushCount[pushIter] == numWorkers {
        if |blockedPulls| > pullIter {
          var replies := DrainPulls(cfg, blockedPulls[pullIter]);
          out := out + replies;
          blockedPulls := blockedPulls[pullIter := []];
        }
        replyPhase := true;
        pushIter := pushIter + 1;
      }
      assert St() == TakePush(cfg, old(St()), m).0;
      assert out == TakePush(cfg, old(St()), m).1;
    }

    method ProcessPull(ghost cfg: Config<S, P, Q, R>, m: Request<P, Q>) returns (out: seq<Reply<R>>)
      requires cfg.update == update && cfg.retrieve == retrieve && |cfg.workers| == numWorkers
      requires m.controlled && m.op.PullOp? && !m.wantClock
      requires replyPhase ==> forall b :: b in Bucket(blockedPushes, pushIter) ==> b.op.PushOp?
      modifies this`pullProgress, this`pullCount, this`pullIter, this`replyPhase, this`blockedPushes, this`blockedPulls, this`store
      ensures (St(), out) == Step(cfg, old(St()), m)
    {
      pullProgress := Grow<nat>(pullProgress, m.src + 1, 0);
      var progress := pullProgress[m.src];
      pullCount := Grow<nat>(pullCount, progress + 1, 0);
      pullCount := pullCount[progress := pullCount[progress] + 1];
      pullProgress := pullProgress[m.src := progress + 1];
      if !replyPhase || pullIter != progress {
        blockedPulls := File(blockedPulls, progress, m);
        out := [];
      } else {
        out := AcceptPull(cfg, m);
      }
    }

    method AcceptPull(ghost cfg: Config<S, P, Q, R>, m: Request<P, Q>) returns (out: seq<Reply<R>>)
      requires cfg.update == update && cfg.retrieve == retrieve && |cfg.workers| == numWorkers
      requires m.op.PullOp? && !m.wantClock
      requires pullIter < |pullCount|
      requires forall b :: b in Bucket(blockedPushes, pushIter) ==> b.op.PushOp?
      modifies this`pullIter, this`replyPhase, this`blockedPushes, this`store
      ensures (St(), out) == TakePull(cfg, old(St()), m)
    {
      OneRequest(cfg, store, 0, m);
      out := [];
      if m.op.query.Some? {
        var res := retrieve(store, m.op.query.value);
        out := [Reply(m.src, m.ts, Some(res), None)];
      }
      if pullCount[pullIter] == numWorkers {
        if |blockedPushes| > pushIter {
          var replies := DrainPushes(cfg, blockedPushes[pushIter]);
          out := out + replies;
          blockedPushes := blockedPushes[pushIter := []];
        }
        replyPhase := false;
        pullIter := pullIter + 1;
      }
      assert St() == TakePull(cfg, old(St()), m).0;
      assert out == TakePull(cfg, old(St()), m).1;
    }
  }
}

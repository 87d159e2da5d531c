// How far apart two answers given at the same clock can be when every push adds
// one: the bound the guards give, that it is reached, and when the bound written
// in the server's header comment holds.
module SspDrift {
  import opened Wrappers
  import opened ServerLog
  import opened Exactness
  import opened SspGuarantees

  type Log = seq<Request<(), ()>>

  /** A server whose pushes add one and whose pulls return the sum. */
  ghost function Counting(s: nat, workers: set<nat>): Config<int, (), (), int> {
    Config(Ssp(s), workers, 0, (x: int, _: ()) => x + 1, (x: int, _: ()) => x)
  }

  /** Only controlled requests, every push carrying its unit. */
  ghost predicate UnitPushes(log: Log) {
    forall i :: 0 <= i < |log| ==> log[i].controlled && (log[i].op.PushOp? ==> log[i].op.update.Some?)
  }

  /** After a pull with keys a worker sends nothing until it is answered. */
  ghost predicate WaitsForPulls(s: nat, workers: set<nat>, log: Log) {
    forall i: nat, j: nat :: i < j < |log| && log[i].op.PullOp? && HasData(log[i]) && log[j].src == log[i].src ==>
      Ready(Ssp(s), workers, log[..j], i)
  }

  ghost predicate Client(s: nat, workers: set<nat>, log: Log) {
    FromWorkers(log, workers) && UnitPushes(log) && WaitsForPulls(s, workers, log)
  }

  /** The value with which pull i is answered at the end of the log. */
  ghost function Value(s: nat, workers: set<nat>, log: Log, i: nat): int
    requires log != []
  {
    SeenStore(Counting(s, workers), log, i)
  }

  // --------------------------------------------------------------- counting

  /** The pushes of the given workers with clock at most top. */
  ghost function UpTo(log: Log, ws: set<nat>, top: int): set<nat> {
    set j: nat | j < |log| && log[j].controlled && log[j].op.PushOp? && log[j].src in ws && PushClock(log, j) <= top
  }

  function Min(a: int, b: int): int { if a < b then a else b }

  lemma {:induction false} UpToOne(log: Log, w: nat, top: nat)
    ensures |UpTo(log, {w}, top)| == Min(Pushes(log, w), top + 1)
  {
    if log != [] {
      var n := |log| - 1;
      var prev := log[..n];
      UpToOne(prev, w, top);
      UpToNext(log, w, top);
    } else {
      assert UpTo(log, {w}, top) == {};
    }
  }

  lemma UpToNext(log: Log, w: nat, top: nat)
    requires log != []
    ensures var n := |log| - 1;
            |UpTo(log, {w}, top)| == |UpTo(log[..n], {w}, top)| + if IsPushBy(log[n], w) && PushClock(log, n) <= top then 1 else 0
  {
    var n := |log| - 1;
    var prev := log[..n];
    forall j: nat | j < n ensures PushClock(prev, j) == PushClock(log, j) { GateStable(Ssp(0), log, n, j); }
    if IsPushBy(log[n], w) && PushClock(log, n) <= top {
      assert UpTo(log, {w}, top) == UpTo(prev, {w}, top) + {n};
    } else {
      assert UpTo(log, {w}, top) == UpTo(prev, {w}, top);
    }
  }

  lemma {:induction false} UpToMany(log: Log, ws: set<nat>, top: nat, lo: nat, hi: nat)
    requires forall w :: w in ws ==> lo <= Min(Pushes(log, w), top + 1) <= hi
    ensures lo * |ws| <= |UpTo(log, ws, top)| <= hi * |ws|
    decreases |ws|
  {
    hide Pushes, UpTo;
    if w :| w in ws {
      UpToMany(log, ws - {w}, top, lo, hi);
      UpToOne(log, w, top);
      UpToSplit(log, ws, w, top);
      assert |ws - {w}| == |ws| - 1;
      OneMore(lo, |ws|);
      OneMore(hi, |ws|);
    } else {
      UpToNone(log, ws, top);
    }
  }

  lemma OneMore(k: nat, n: int)
    ensures k * (n - 1) + k == k * n
  {
  }

  lemma UpToNone(log: Log, ws: set<nat>, top: nat)
    requires forall w: nat :: w !in ws
    ensures |ws| == 0 && UpTo(log, ws, top) == {}
  {
    assert ws == {};
  }

  lemma UpToSplit(log: Log, ws: set<nat>, w: nat, top: int)
    requires w in ws
    ensures |UpTo(log, ws, top)| == |UpTo(log, ws - {w}, top)| + |UpTo(log, {w}, top)|
  {
    assert UpTo(log, ws, top) == UpTo(log, ws - {w}, top) + UpTo(log, {w}, top);
    assert UpTo(log, ws - {w}, top) !! UpTo(log, {w}, top);
  }

  lemma {:induction false} DistinctCount(s: seq<nat>, elems: set<nat>)
    requires Distinct(s)
    requires forall x: nat :: x in s <==> x in elems
    ensures |s| == |elems|
  {
    if s == [] {
      assert elems == {};
    } else {
      var last := s[|s| - 1];
      var init := s[..|s| - 1];
      assert s == init + [last];
      forall x: nat ensures x in init <==> x in elems - {last} { }
      DistinctCount(init, elems - {last});
    }
  }

  lemma {:induction false} SumOfUnits(cfg: Config<int, (), (), int>, ms: seq<Request<(), ()>>)
    requires forall x, u :: cfg.update(x, u) == x + 1
    requires forall m :: m in ms ==> m.op.PushOp? && m.op.update.Some?
    ensures ApplyAll(cfg, cfg.init, ms) == cfg.init + |ms|
  {
    if ms != [] { SumOfUnits(cfg, ms[..|ms| - 1]); }
  }

  /** An answer is the number of pushes up to s past the slowest clock. */
  lemma ValueCounts(s: nat, workers: set<nat>, log: Log, c: nat, i: nat)
    requires SlowestAt(log, workers, c) && FromWorkers(log, workers) && UnitPushes(log)
    requires log != [] && i < |log| && log[i].op.PullOp?
    ensures Value(s, workers, log, i) == |UpTo(log, workers, c + s)|
  {
    var cfg := Counting(s, workers);
    var seen := Seen(Ssp(s), workers, log, i);
    SeenExactly(s, workers, log, c, i);
    SeenStoreIs(cfg, log, i);
    hide Seen, SeenStore;
    forall m | m in At(log, seen) ensures m.op.PushOp? && m.op.update.Some? {
      var k :| 0 <= k < |seen| && m == At(log, seen)[k];
      assert seen[k] in seen;
    }
    SumOfUnits(cfg, At(log, seen));
    DistinctCount(seen, UpTo(log, workers, c + s));
  }

  // ------------------------------------------------------------ upper bound

  lemma AnsweredBefore(s: nat, workers: set<nat>, log: Log, i: nat, j: nat)
    requires WaitsForPulls(s, workers, log)
    requires i < j < |log| && log[i].op.PullOp? && HasData(log[i]) && log[j].src == log[i].src
    ensures Ready(Ssp(s), workers, log[..j], i)
  {
  }

  /** While a pull waits, its sender is silent. */
  lemma PullerSilent(s: nat, workers: set<nat>, log: Log, i: nat, j: nat)
    requires Client(s, workers, log)
    requires PullAnswered(Ssp(s), workers, log, i)
    requires i < j < |log|
    ensures log[j].src != log[i].src
  {
    hide Ready, NewAnswered, FromWorkers, UnitPushes, WaitsForPulls, Pushes;
    NewAnsweredIff(Ssp(s), workers, log);
    var n := |log| - 1;
    if log[j].src == log[i].src {
      AnsweredBefore(s, workers, log, i, j);
      assert log[..n][..j] == log[..j];
      ReadyStays(Ssp(s), workers, log[..n], j, i);
    }
  }

  lemma PullerStands(s: nat, workers: set<nat>, log: Log, i: nat)
    requires Client(s, workers, log)
    requires PullAnswered(Ssp(s), workers, log, i)
    ensures Pushes(log, log[i].src) == PushClock(log, i)
  {
    hide Client, Ready, NewAnswered, Pushes;
    forall j: nat | i < j < |log| ensures log[j].src != log[i].src {
      PullerSilent(s, workers, log, i, j);
    }
    QuietSince(log, i + 1, log[i].src);
    PullCountsNothing(log, i);
  }

  lemma PullCountsNothing(log: Log, i: nat)
    requires i < |log| && log[i].op.PullOp?
    ensures Pushes(log[..i + 1], log[i].src) == PushClock(log, i)
  {
    assert log[..i + 1][..i] == log[..i];
  }

  lemma {:induction false} QuietSince(log: Log, n: nat, w: nat)
    requires n <= |log|
    requires forall j: nat :: n <= j < |log| ==> log[j].src != w
    ensures Pushes(log, w) == Pushes(log[..n], w)
  {
    if n < |log| {
      QuietSince(log[..|log| - 1], n, w);
      assert log[..|log| - 1][..n] == log[..n];
    } else {
      assert log[..n] == log;
    }
  }

  lemma PullerClocks(s: nat, workers: set<nat>, log: Log, c: nat, i: nat)
    requires SlowestAt(log, workers, c)
    requires Client(s, workers, log)
    requires PullAnswered(Ssp(s), workers, log, i)
    ensures log[i].src in workers
    ensures Pushes(log, log[i].src) == PushClock(log, i)
    ensures c <= PushClock(log, i) <= c + s
  {
    PullerStands(s, workers, log, i);
    ReadyByClock(s, workers, log, c, i);
    NewAnsweredIff(Ssp(s), workers, log);
    hide Ready, NewAnswered, UnitPushes, WaitsForPulls;
  }

  /** The range of answers at clock p. */
  lemma ValueRange(s: nat, workers: set<nat>, log: Log, c: nat, i: nat)
    requires SlowestAt(log, workers, c)
    requires Client(s, workers, log)
    requires PullAnswered(Ssp(s), workers, log, i)
    ensures var p := PushClock(log, i);
            var others := |workers| - 1;
            p + others * (if p < s then 0 else p - s) <= Value(s, workers, log, i) <= p + others * (p + s + 1)
  {
    hide Ready, NewAnswered, Value, PushClock, UpTo, WaitsForPulls, UnitPushes, FromWorkers, Pushes;
    var w, p := log[i].src, PushClock(log, i);
    PullerClocks(s, workers, log, c, i);
    ValueCounts(s, workers, log, c, i);
    UpToSplit(log, workers, w, c + s);
    UpToOne(log, w, c + s);
    assert |workers - {w}| == |workers| - 1;
    UpToMany(log, workers - {w}, c + s, if p < s then 0 else p - s, p + s + 1);
  }

  /** In a run of waiting clients, pull i is answered by request a - 1 and pull j
      by request b - 1, both sent at the same clock. */
  ghost predicate SameClock(s: nat, workers: set<nat>, log: Log, a: nat, b: nat, i: nat, j: nat) {
    && 0 < a <= |log| && 0 < b <= |log|
    && Client(s, workers, log)
    && PullAnswered(Ssp(s), workers, log[..a], i) && PullAnswered(Ssp(s), workers, log[..b], j)
    && PushClock(log, i) == PushClock(log, j)
  }

  /** How much more the first answer is than the second. */
  ghost function Drift(s: nat, workers: set<nat>, log: Log, a: nat, b: nat, i: nat, j: nat): int
    requires SameClock(s, workers, log, a, b, i, j)
  {
    Value(s, workers, log[..a], i) - Value(s, workers, log[..b], j)
  }

  /** In every run of N waiting clients, two answers given at the same clock
      differ by at most (N-1)*(2s+1). */
  lemma DriftBound(s: nat, workers: set<nat>, log: Log, a: nat, b: nat, i: nat, j: nat)
    requires SameClock(s, workers, log, a, b, i, j)
    ensures Drift(s, workers, log, a, b, i, j) <= (|workers| - 1) * (2 * s + 1)
  {
    hide Client, PullAnswered, Value, PushClock;
    AnswerRange(s, workers, log, a, i);
    AnswerRange(s, workers, log, b, j);
    Spread(PushClock(log, i), s, |workers| - 1);
  }

  lemma Spread(p: nat, s: nat, others: nat)
    ensures others * (p + s + 1) - others * (if p < s then 0 else p - s) <= others * (2 * s + 1)
  {
  }

  lemma AnswerRange(s: nat, workers: set<nat>, log: Log, a: nat, i: nat)
    requires 0 < a <= |log|
    requires Client(s, workers, log)
    requires PullAnswered(Ssp(s), workers, log[..a], i)
    ensures i < |log| && log[i].src in workers
    ensures var p := PushClock(log, i);
            var others := |workers| - 1;
            p + others * (if p < s then 0 else p - s) <= Value(s, workers, log[..a], i) <= p + others * (p + s + 1)
  {
    var cut := log[..a];
    GateStable(Ssp(s), log, a, i);
    assert Client(s, workers, cut) by {
      forall x: nat, y: nat | x < y < a && log[x].op.PullOp? && HasData(log[x]) && log[y].src == log[x].src
        ensures Ready(Ssp(s), workers, cut[..y], x)
      {
        assert cut[..y] == log[..y];
      }
    }
    var w := Slowest(cut, workers);
    assert SlowestAt(cut, workers, Pushes(cut, w));
    ValueRange(s, workers, cut, Pushes(cut, w), i);
  }

  // ------------------------------------------------------- it is reached

  function PushRun(w: nat, n: nat): Log {
    seq(n, _ => Request(w, 0, true, false, PushOp(Some(()))))
  }

  function PullBy(w: nat): Request<(), ()> {
    Request(w, 0, true, false, PullOp(Some(())))
  }

  /** Every worker of ws pushes n times, one worker after the other. */
  ghost function EachPushes(ws: set<nat>, n: nat): Log {
    if ws == {} then [] else var w :| w in ws; PushRun(w, n) + EachPushes(ws - {w}, n)
  }

  lemma {:induction false} PushesConcat(a: Log, b: Log, w: nat)
    ensures Pushes(a + b, w) == Pushes(a, w) + Pushes(b, w)
  {
    if b == [] {
      assert a + b == a;
    } else {
      assert (a + b)[..|a + b| - 1] == a + b[..|b| - 1];
      PushesConcat(a, b[..|b| - 1], w);
    }
  }

  lemma {:induction false} PushRunCount(w: nat, n: nat, v: nat)
    ensures Pushes(PushRun(w, n), v) == if v == w then n else 0
  {
    if n > 0 {
      PushRunCount(w, n - 1, v);
      assert PushRun(w, n)[..n - 1] == PushRun(w, n - 1);
    }
  }

  lemma {:induction false} EachPushesCount(ws: set<nat>, n: nat, v: nat)
    ensures Pushes(EachPushes(ws, n), v) == if v in ws then n else 0
    ensures forall m :: m in EachPushes(ws, n) ==> m.controlled && m.src in ws && m.op == PushOp(Some(()))
  {
    if ws != {} {
      var w :| w in ws && EachPushes(ws, n) == PushRun(w, n) + EachPushes(ws - {w}, n);
      EachPushesCount(ws - {w}, n, v);
      PushRunCount(w, n, v);
      PushesConcat(PushRun(w, n), EachPushes(ws - {w}, n), v);
    }
  }

  /** One worker pushes s times and pulls; the others push 2s+1 times each; it
      pulls again. */
  ghost function Widest(s: nat, workers: set<nat>, w: nat): Log {
    PushRun(w, s) + [PullBy(w)] + EachPushes(workers - {w}, 2 * s + 1) + [PullBy(w)]
  }

  lemma WidestCounts(s: nat, workers: set<nat>, w: nat, v: nat)
    requires w in workers && v in workers
    ensures var log := Widest(s, workers, w);
            && Pushes(log[..s + 1], v) == (if v == w then s else 0)
            && Pushes(log[..|log| - 1], v) == Pushes(log, v) == (if v == w then s else 2 * s + 1)
            && Pushes(log[..s], v) == (if v == w then s else 0)
  {
    hide Pushes, EachPushes;
    var log := Widest(s, workers, w);
    var own, rest := PushRun(w, s), EachPushes(workers - {w}, 2 * s + 1);
    assert log[..s] == own && log[..s + 1] == own + [PullBy(w)];
    assert log[..|log| - 1] == own + [PullBy(w)] + rest;
    PushRunCount(w, s, v);
    EachPushesCount(workers - {w}, 2 * s + 1, v);
    PushesConcat(own + [PullBy(w)], rest, v);
    Extend(own, PullBy(w), v);
    Extend(own + [PullBy(w)] + rest, PullBy(w), v);
  }

  lemma WidestClient(s: nat, workers: set<nat>, w: nat)
    requires w in workers
    ensures Client(s, workers, Widest(s, workers, w))
  {
    var log := Widest(s, workers, w);
    EachPushesCount(workers - {w}, 2 * s + 1, w);
    var rest := EachPushes(workers - {w}, 2 * s + 1);
    forall k: nat | k < |log|
      ensures log[k].controlled && log[k].src in workers
      ensures log[k].op.PushOp? ==> log[k].op.update.Some?
      ensures log[k].op.PullOp? ==> k == s || k == |log| - 1
    {
      if s < k < |log| - 1 { assert log[k] == rest[k - s - 1] && log[k] in rest; }
    }
    forall i: nat, j: nat | i < j < |log| && log[i].op.PullOp? && HasData(log[i]) && log[j].src == log[i].src
      ensures Ready(Ssp(s), workers, log[..j], i)
    {
      WidestCounts(s, workers, w, w);
      assert log[..j][..i] == log[..i];
    }
  }

  lemma WidestAnswered(s: nat, workers: set<nat>, w: nat, n: nat)
    requires w in workers
    requires n == s || n == |Widest(s, workers, w)| - 1
    ensures var log := Widest(s, workers, w);
            n < |log| && PushClock(log, n) == s && PullAnswered(Ssp(s), workers, log[..n + 1], n)
  {
    var log := Widest(s, workers, w);
    WidestCounts(s, workers, w, w);
    var cut := log[..n + 1];
    assert cut[..n] == log[..n] && cut[n] == PullBy(w);
    NewAnsweredIff(Ssp(s), workers, cut);
    assert Ready(Ssp(s), workers, cut, n);
    hide NewAnswered, Ready;
  }

  /** The value of a pull when worker w has pushed s times and the others `each`
      times. */
  lemma ValueWhen(s: nat, workers: set<nat>, log: Log, w: nat, n: nat, each: nat)
    requires w in workers && FromWorkers(log, workers) && UnitPushes(log)
    requires n < |log| && log[n].op.PullOp?
    requires forall v :: v in workers ==> Pushes(log, v) == if v == w then s else each
    requires each == 0 || each == 2 * s + 1
    ensures Value(s, workers, log, n) == s + (|workers| - 1) * each
  {
    hide Value, UpTo, Pushes, Ready, FromWorkers, UnitPushes;
    var slow := Slowest(log, workers);
    var c := Pushes(log, slow);
    assert each > 0 ==> c == s;
    ValueCounts(s, workers, log, c, n);
    UpToSplit(log, workers, w, c + s);
    UpToOne(log, w, c + s);
    assert |workers - {w}| == |workers| - 1;
    UpToMany(log, workers - {w}, c + s, each, each);
  }

  lemma WidestValue(s: nat, workers: set<nat>, w: nat, n: nat)
    requires w in workers
    requires n == s || n == |Widest(s, workers, w)| - 1
    ensures var log := Widest(s, workers, w);
            Value(s, workers, log[..n + 1], n) == s + (|workers| - 1) * if n == s then 0 else 2 * s + 1
  {
    hide Value, Pushes, Ready, NewAnswered, Widest, PushClock;
    var log := Widest(s, workers, w);
    WidestLength(s, workers, w);
    var cut := log[..n + 1];
    assert n == |log| - 1 ==> cut == log;
    WidestClient(s, workers, w);
    WidestAnswered(s, workers, w, n);
    var each := if n == s then 0 else 2 * s + 1;
    forall v | v in workers ensures Pushes(cut, v) == if v == w then s else each { WidestCounts(s, workers, w, v); }
    ValueWhen(s, workers, cut, w, n, each);
  }

  lemma WidestLength(s: nat, workers: set<nat>, w: nat)
    ensures |Widest(s, workers, w)| >= s + 2
  {
  }

  /** For every number of workers and every staleness the bound is attained. */
  lemma DriftAttained(s: nat, workers: set<nat>) returns (log: Log, a: nat, b: nat, i: nat, j: nat)
    requires workers != {}
    ensures SameClock(s, workers, log, a, b, i, j)
    ensures Drift(s, workers, log, a, b, i, j) == (|workers| - 1) * (2 * s + 1)
  {
    hide Client, PullAnswered, Value, Widest, Pushes;
    var w :| w in workers;
    WidestLength(s, workers, w);
    log := Widest(s, workers, w);
    a, b, i, j := |log|, s + 1, |log| - 1, s;
    WidestClient(s, workers, w);
    WidestAnswered(s, workers, w, i);
    WidestAnswered(s, workers, w, j);
    WidestValue(s, workers, w, i);
    WidestValue(s, workers, w, j);
  }

  /** The bound in the header comment: 2*s*N - 2. */
  ghost predicate CommentBound(s: nat, workers: set<nat>) {
    forall log, a, b, i, j :: SameClock(s, workers, log, a, b, i, j) ==>
      Drift(s, workers, log, a, b, i, j) <= 2 * s * |workers| - 2
  }

  /** The comment's bound holds exactly when there are fewer than 2s workers; with
      two workers and staleness 1, for one, it does not. */
  lemma CommentBoundIff(s: nat, workers: set<nat>)
    requires workers != {}
    ensures CommentBound(s, workers) <==> |workers| + 1 <= 2 * s
  {
    hide SameClock, Drift;
    var n := |workers|;
    assert 2 * s * n - 2 - (n - 1) * (2 * s + 1) == 2 * s - n - 1;
    forall log, a, b, i, j | SameClock(s, workers, log, a, b, i, j)
      ensures Drift(s, workers, log, a, b, i, j) <= (n - 1) * (2 * s + 1)
    {
      DriftBound(s, workers, log, a, b, i, j);
    }
    var log, a, b, i, j := DriftAttained(s, workers);
  }

  /** Two workers, staleness 1: a drift of 3 where the comment allows 2. */
  lemma CommentBoundFails()
    ensures !CommentBound(1, {0, 1})
  {
    CommentBoundIff(1, {0, 1});
    assert |{0, 1}| == 2;
  }
}

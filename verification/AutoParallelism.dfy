// The search for the best number of threads per process, stage by stage: probes of
// ten iterations with one more thread each time, and what is remembered of earlier
// stages by batch size.
module AutoParallelism {
  import opened Wrappers

  const PROBE: int := 10
  const MOST: int := 10

  /** A batch size with the parallelism found best for it. */
  type Entry = (int, int)

  datatype Policy = Policy(
    current: int, max: int, min: int, times: seq<int>, tried: seq<int>, tryIters: int, currentIters: int,
    total: int, subEpoch: nat, fixed: bool, history: seq<Entry>, batch: int)

  // -------------------------------------------------------- ordered dictionary

  predicate Ordered(h: seq<Entry>) {
    forall i, j :: 0 <= i < j < |h| ==> h[i].0 < h[j].0
  }

  function Lookup(h: seq<Entry>, key: int): Option<int> {
    if h == [] then None
    else if h[0].0 == key then Some(h[0].1)
    else Lookup(h[1..], key)
  }

  /** Inserting does not replace an entry. */
  function Insert(h: seq<Entry>, key: int, v: int): seq<Entry> {
    if h == [] || key < h[0].0 then [(key, v)] + h
    else if key == h[0].0 then h
    else [h[0]] + Insert(h[1..], key, v)
  }

  /** Larger batches do not do better with fewer threads, and all values are possible
      numbers of threads. */
  ghost predicate Monotone(h: seq<Entry>) {
    && Ordered(h)
    && (forall i, j :: 0 <= i < j < |h| ==> h[i].1 <= h[j].1)
    && forall i :: 0 <= i < |h| ==> 0 < h[i].0 && 1 <= h[i].1 <= MOST
  }

  /** A value for this key would fit between the others. */
  ghost predicate Between(h: seq<Entry>, key: int, lo: int, hi: int) {
    forall i :: 0 <= i < |h| ==> (h[i].0 < key ==> h[i].1 <= lo) && (h[i].0 > key ==> hi <= h[i].1)
  }

  predicate Has(h: seq<Entry>, key: int) {
    exists i :: 0 <= i < |h| && h[i].0 == key
  }

  lemma HasTail(h: seq<Entry>, key: int)
    requires h != []
    ensures Has(h, key) <==> h[0].0 == key || Has(h[1..], key)
  {
  }

  lemma {:induction false} LookupIs(h: seq<Entry>, key: int)
    ensures Lookup(h, key).Some? <==> Has(h, key)
    ensures Lookup(h, key).Some? ==> (key, Lookup(h, key).value) in h
  {
    if h != [] {
      HasTail(h, key);
      LookupIs(h[1..], key);
    }
  }

  lemma {:induction false} InsertFound(h: seq<Entry>, key: int, v: int)
    requires Ordered(h) && Has(h, key)
    ensures Insert(h, key, v) == h
  {
    assert h != [];
    HasTail(h, key);
    FirstIsLeast(h, key);
    if h[0].0 < key {
      TailOrdered(h);
      hide Ordered, Has;
      InsertFound(h[1..], key, v);
      assert h == [h[0]] + h[1..];
    }
  }

  lemma TailOrdered(h: seq<Entry>)
    requires Ordered(h) && h != []
    ensures Ordered(h[1..])
  {
  }

  lemma FirstIsLeast(h: seq<Entry>, key: int)
    requires Ordered(h) && Has(h, key)
    ensures h != [] && h[0].0 <= key
  {
  }

  lemma InsertFirst(h: seq<Entry>, key: int, v: int)
    ensures Insert(h, key, v) != [] && (Insert(h, key, v)[0] == (key, v) || (h != [] && Insert(h, key, v)[0] == h[0]))
  {
  }

  lemma MonotoneCons(e: Entry, h: seq<Entry>)
    requires Monotone(h) && e.0 > 0 && 1 <= e.1 <= MOST
    requires h != [] ==> e.0 < h[0].0 && e.1 <= h[0].1
    ensures Monotone([e] + h)
  {
  }

  lemma MonotoneTail(h: seq<Entry>)
    requires Monotone(h) && h != []
    ensures Monotone(h[1..]) && h[0].0 > 0 && 1 <= h[0].1 <= MOST
    ensures h[1..] != [] ==> h[0].0 < h[1..][0].0 && h[0].1 <= h[1..][0].1
  {
  }

  lemma BetweenTail(h: seq<Entry>, key: int, lo: int, hi: int)
    requires Between(h, key, lo, hi) && h != []
    ensures Between(h[1..], key, lo, hi) && (h[0].0 < key ==> h[0].1 <= lo) && (h[0].0 > key ==> hi <= h[0].1)
  {
  }

  /** A value that fits keeps the dictionary monotone. */
  lemma {:induction false} InsertKeeps(h: seq<Entry>, key: int, v: int)
    requires Monotone(h) && key > 0 && 1 <= v <= MOST && Between(h, key, v, v)
    ensures Monotone(Insert(h, key, v))
  {
    if h == [] {
      MonotoneCons((key, v), h);
    } else {
      MonotoneTail(h);
      BetweenTail(h, key, v, v);
      hide Monotone, Between;
      if key < h[0].0 {
        MonotoneCons((key, v), h);
      } else if key > h[0].0 {
        InsertKeeps(h[1..], key, v);
        InsertFirst(h[1..], key, v);
        MonotoneCons(h[0], Insert(h[1..], key, v));
      }
    }
  }

  // ------------------------------------------------------------- the decisions

  /** The entries next to a key: the last below it and the first above. */
  function Prune(h: seq<Entry>, key: int, lo: int, hi: int): (int, int) {
    if h == [] then (lo, hi)
    else if h[0].0 < key then Prune(h[1..], key, h[0].1, hi)
    else (lo, h[0].1)
  }

  /** The search space a monotone dictionary leaves is never empty. */
  lemma {:induction false} PruneBetween(h: seq<Entry>, key: int, lo: int, hi: int)
    requires Monotone(h) && !Has(h, key) && 1 <= lo <= hi <= MOST && forall i :: 0 <= i < |h| ==> lo <= h[i].1 <= hi
    ensures var (l, u) := Prune(h, key, lo, hi); lo <= l <= u <= hi && Between(h, key, l, u)
  {
    if h != [] {
      HasTail(h, key);
      if h[0].0 < key {
        PruneBetween(h[1..], key, h[0].1, hi);
        var (l, u) := Prune(h[1..], key, h[0].1, hi);
        forall i | 0 <= i < |h| ensures (h[i].0 < key ==> h[i].1 <= l) && (h[i].0 > key ==> u <= h[i].1) {
          if i > 0 { assert h[i] == h[1..][i - 1]; }
        }
      }
    }
  }

  function Fix(p: Policy, best: int): Policy {
    p.(history := if p.batch > 0 then Insert(p.history, p.batch, best) else p.history,
       current := best, tryIters := p.total - p.currentIters, fixed := true)
  }

  function Reset(p: Policy): Policy {
    p.(currentIters := 0, subEpoch := 0, times := [], tried := [], fixed := false, current := 0, max := MOST, min := 1, tryIters := PROBE)
  }

  function Start(p: Policy, total: int, batch: int): Policy {
    var q := p.(total := total, batch := batch);
    if batch > 0 && Lookup(p.history, batch).Some? then Fix(q, Lookup(p.history, batch).value) else q
  }

  function Finish(p: Policy, time: int): Policy {
    p.(times := p.times + [time], tried := p.tried + [p.current], subEpoch := p.subEpoch + 1, currentIters := p.currentIters + p.tryIters)
  }

  function Narrow(p: Policy): Policy {
    var (l, u) := Prune(p.history, p.batch, p.min, p.max);
    p.(min := l, max := u)
  }

  /** One thread more, or back to the best before the times went up. */
  function Climb(p: Policy): Policy
    requires p.subEpoch == |p.times| == |p.tried|
  {
    if p.subEpoch > 1 && p.times[p.subEpoch - 1] > p.times[p.subEpoch - 2] then Fix(p, p.tried[p.subEpoch - 2])
    else p.(current := if p.current + 1 > p.max then p.max else p.current + 1)
  }

  function SubPlan(p: Policy): Policy
    requires p.subEpoch == |p.times| == |p.tried|
  {
    if p.current == 0 then
      if Lookup(p.history, p.batch).Some? then Fix(p, Lookup(p.history, p.batch).value)
      else if p.history != [] then
        var q := Narrow(p);
        if q.min == q.max then Fix(q, q.min) else Climb(q.(current := q.min - 1))
      else Climb(p)
    else Climb(p)
  }

  function Plan(p: Policy): Policy
    requires p.subEpoch == |p.times| == |p.tried|
  {
    if p.fixed then p else SubPlan(p)
  }

  // ------------------------------------------------------------ the invariant

  /** Between two calls: before the first plan of a search, in the middle of one, or
      with the parallelism fixed. */
  ghost predicate Fits(p: Policy) {
    && Monotone(p.history) && p.subEpoch == |p.times| == |p.tried|
    && if p.fixed then 1 <= p.current <= MOST
       else
         && p.tryIters == PROBE && p.currentIters == PROBE * p.subEpoch
         && 1 <= p.min <= p.max <= MOST
         && (forall k :: 0 <= k < |p.tried| ==> p.min <= p.tried[k] <= p.max)
         && (p.batch > 0 ==> !Has(p.history, p.batch))
         && if p.current == 0 then p.subEpoch == 0 && p.min == 1 && p.max == MOST
            else p.min <= p.current <= p.max && Between(p.history, p.batch, p.min, p.max)
  }

  lemma FixFits(p: Policy, best: int)
    requires Monotone(p.history) && p.subEpoch == |p.times| == |p.tried| && 1 <= best <= MOST
    requires p.batch > 0 ==> Has(p.history, p.batch) || Between(p.history, p.batch, best, best)
    ensures Fits(Fix(p, best))
  {
    if p.batch > 0 {
      if Has(p.history, p.batch) { InsertFound(p.history, p.batch, best); } else { InsertKeeps(p.history, p.batch, best); }
    }
  }

  lemma StartFits(p: Policy, total: int, batch: int)
    requires Monotone(p.history)
    ensures Fits(Start(Reset(p), total, batch))
  {
    LookupIs(p.history, batch);
    if batch > 0 && Lookup(p.history, batch).Some? {
      FixFits(Reset(p).(total := total, batch := batch), Lookup(p.history, batch).value);
    }
  }

  lemma ClimbFits(p: Policy)
    requires Monotone(p.history) && p.subEpoch == |p.times| == |p.tried| && !p.fixed
    requires p.tryIters == PROBE && p.currentIters == PROBE * p.subEpoch
    requires 1 <= p.min <= p.max <= MOST && p.min - 1 <= p.current <= p.max
    requires forall k :: 0 <= k < |p.tried| ==> p.min <= p.tried[k] <= p.max
    requires p.batch > 0 ==> !Has(p.history, p.batch)
    requires Between(p.history, p.batch, p.min, p.max)
    ensures Fits(Climb(p)) && Climb(p).current >= 1
  {
    if p.subEpoch > 1 && p.times[p.subEpoch - 1] > p.times[p.subEpoch - 2] {
      FixFits(p, p.tried[p.subEpoch - 2]);
    }
  }

  /** The narrowed search space is not empty. */
  lemma NarrowFits(p: Policy)
    requires Fits(p) && !p.fixed && p.current == 0 && !Has(p.history, p.batch)
    ensures 1 <= Narrow(p).min <= Narrow(p).max <= MOST
    ensures Between(p.history, p.batch, Narrow(p).min, Narrow(p).max)
  {
    PruneBetween(p.history, p.batch, p.min, p.max);
  }

  lemma RoomToSearch(p: Policy)
    requires Fits(p) && !p.fixed
    ensures p.current == 0 ==> Narrow(p).min <= Narrow(p).max
  {
    if p.current == 0 {
      assert !Has(p.history, p.batch);
      NarrowFits(p);
    }
  }

  lemma PlanFits(p: Policy)
    requires Fits(p)
    ensures Fits(Plan(p)) && 1 <= Plan(p).current <= MOST
    ensures Plan(p).fixed && !p.fixed ==> Plan(p).tryIters == p.total - p.currentIters
  {
    if !p.fixed {
      LookupIs(p.history, p.batch);
      assert !Has(p.history, p.batch);
      if p.current == 0 {
        if p.history != [] {
          NarrowFits(p);
          var q := Narrow(p);
          if q.min == q.max { FixFits(q, q.min); } else { ClimbFits(q.(current := q.min - 1)); }
        } else {
          ClimbFits(p);
        }
      } else {
        ClimbFits(p);
      }
    }
  }

  lemma FinishFits(p: Policy, time: int)
    requires Fits(p) && (p.fixed || p.current >= 1)
    ensures Fits(Finish(p, time))
  {
  }

  // ------------------------------------------------------------------- a stage

  predicate Counted(p: Policy) {
    p.subEpoch == |p.times| == |p.tried|
  }

  /** The policy after sub-epochs that took these times. */
  function Run(p: Policy, times: seq<int>): (r: Policy)
    requires Counted(p)
    ensures Counted(r)
  {
    if times == [] then p
    else
      var n := |times| - 1;
      Finish(Plan(Run(p, times[..n])), times[n])
  }

  lemma RunNext(p: Policy, times: seq<int>, k: nat)
    requires Counted(p) && k < |times|
    ensures Run(p, times[..k + 1]) == Finish(Plan(Run(p, times[..k])), times[k])
  {
    assert times[..k + 1][..k] == times[..k];
  }

  lemma {:induction false} RunFits(p: Policy, times: seq<int>)
    requires Fits(p)
    ensures Fits(Run(p, times)) && Run(p, times).total == p.total
  {
    if times != [] {
      var n := |times| - 1;
      RunFits(p, times[..n]);
      PlanFits(Run(p, times[..n]));
      hide Fits, Plan;
      PlanTotal(Run(p, times[..n]));
      FinishFits(Plan(Run(p, times[..n])), times[n]);
    }
  }

  lemma PlanTotal(p: Policy)
    requires Counted(p)
    ensures Plan(p).total == p.total && Plan(p).currentIters == p.currentIters
    ensures !Plan(p).fixed ==> !p.fixed && Plan(p).tryIters == p.tryIters
  {
  }

  /** The stage ends, with the n-th sub-epoch, when exactly all iterations have been
      run, and no sooner. */
  ghost predicate EndsAt(p: Policy, times: seq<int>, n: nat)
    requires Counted(p)
  {
    && 1 <= n <= |times| && Run(p, times[..n]).currentIters == p.total
    && forall k :: 1 <= k < n ==> Run(p, times[..k]).currentIters != p.total
  }

  ghost predicate Ends(p: Policy, times: seq<int>)
    requires Counted(p)
  {
    exists n: nat :: EndsAt(p, times, n)
  }

  /** A whole number of probes. */
  predicate Probes(total: int) {
    total > 0 && total % PROBE == 0
  }

  /** While a search goes on, ten iterations have been run in each sub-epoch. */
  lemma SearchStep(p: Policy, times: seq<int>, k: nat)
    requires Fits(p) && k < |times|
    requires !Run(p, times[..k]).fixed && Run(p, times[..k]).currentIters == PROBE * k
    ensures Run(p, times[..k + 1]).currentIters == (if Run(p, times[..k + 1]).fixed then p.total else PROBE * (k + 1))
    ensures 1 <= Plan(Run(p, times[..k])).current <= MOST
  {
    hide Plan;
    RunNext(p, times, k);
    RunFits(p, times[..k]);
    PlanFits(Run(p, times[..k]));
    PlanTotal(Run(p, times[..k]));
  }

  /** Sub-epoch k uses a possible number of threads and makes progress. */
  ghost predicate Useful(s: Policy, times: seq<int>, k: nat)
    requires Counted(s) && k < |times|
  {
    && 1 <= Plan(Run(s, times[..k])).current <= MOST
    && Run(s, times[..k]).currentIters < Run(s, times[..k + 1]).currentIters <= s.total
  }

  lemma {:induction false} StageFrom(s: Policy, times: seq<int>, k: nat) returns (n: nat)
    requires Fits(s) && Counted(s) && Probes(s.total) && PROBE * |times| >= s.total && k < |times|
    requires !Run(s, times[..k]).fixed && Run(s, times[..k]).currentIters == PROBE * k < s.total
    ensures k < n <= |times| && PROBE * n <= s.total && Run(s, times[..n]).currentIters == s.total
    ensures forall j :: k < j < n ==> Run(s, times[..j]).currentIters != s.total
    ensures forall j :: k <= j < n ==> Useful(s, times, j)
    decreases |times| - k
  {
    hide Run, Fits, Plan;
    SearchStep(s, times, k);
    assert Useful(s, times, k);
    if Run(s, times[..k + 1]).currentIters == s.total {
      n := k + 1;
    } else {
      n := StageFrom(s, times, k + 1);
    }
  }

  /** A stage of a whole number of probes runs exactly its iterations, in no more
      sub-epochs than probes, none of them empty, and leaves the history monotone. */
  lemma StageExact(p: Policy, total: int, batch: int, times: seq<int>) returns (n: nat)
    requires Monotone(p.history) && Probes(total) && PROBE * |times| >= total
    ensures Counted(Start(Reset(p), total, batch)) && PROBE * n <= total
    ensures EndsAt(Start(Reset(p), total, batch), times, n)
    ensures forall k :: 0 <= k < n ==> Useful(Start(Reset(p), total, batch), times, k)
    ensures Monotone(Run(Start(Reset(p), total, batch), times[..n]).history)
  {
    var s := Start(Reset(p), total, batch);
    StartFits(p, total, batch);
    StartFacts(p, total, batch);
    RunEmpty(s, times);
    hide Start, Fits, Plan, Monotone, Finish, Run;
    if s.fixed {
      KnownEnds(s, times);
      n := 1;
    } else {
      n := StageFrom(s, times, 0);
    }
    RunFits(s, times[..n]);
    FitsMonotone(Run(s, times[..n]));
  }

  lemma RunEmpty(s: Policy, times: seq<int>)
    requires Counted(s)
    ensures Run(s, times[..0]) == s
  {
  }

  lemma FitsMonotone(p: Policy)
    requires Fits(p)
    ensures Monotone(p.history)
  {
  }

  lemma StartFacts(p: Policy, total: int, batch: int)
    ensures var s := Start(Reset(p), total, batch);
            && Counted(s) && s.total == total && s.currentIters == 0 && s.batch == batch
            && (s.fixed ==> s.tryIters == total)
            && (!s.fixed ==> s.current == 0 && s.tryIters == PROBE && s.history == p.history && s.min == 1 && s.max == MOST)
            && s.subEpoch == 0
  {
  }

  lemma KnownEnds(s: Policy, times: seq<int>)
    requires Fits(s) && s.fixed && s.currentIters == 0 && s.tryIters == s.total && |times| >= 1
    ensures EndsAt(s, times, 1) && (s.total > 0 ==> Useful(s, times, 0))
  {
  }

  /** Earlier stages settle the parallelism before the first probe. */
  predicate Known(s: Policy) {
    s.fixed || (s.history != [] && Narrow(s).min == Narrow(s).max)
  }

  lemma KnownEndsAtOnce(s: Policy, times: seq<int>)
    requires Fits(s) && Known(s) && s.currentIters == 0 && s.current == (if s.fixed then s.current else 0)
    requires (s.fixed ==> s.tryIters == s.total) && |times| >= 1
    ensures EndsAt(s, times, 1)
  {
  }

  function Zeros(n: nat): (r: seq<int>)
    ensures |r| == n
  {
    seq(n, _ => 0)
  }

  /** With times that never change, a search goes on probing. */
  lemma {:induction false} KeepsProbing(s: Policy, n: nat)
    requires Fits(s) && !Known(s) && s.current == 0 && s.currentIters == 0
    ensures var r := Run(s, Zeros(n));
            && !r.fixed && r.currentIters == PROBE * n && (n > 0 ==> r.current >= 1)
            && r.times == Zeros(n)
  {
    var zeros := Zeros(n);
    if n > 0 {
      KeepsProbing(s, n - 1);
      assert zeros[..n - 1] == Zeros(n - 1);
      RunFits(s, zeros[..n - 1]);
      LookupIs(s.history, s.batch);
      assert !Has(s.history, s.batch);
      hide Known;
      ProbesAgain(s, Run(s, zeros[..n - 1]));
    }
  }

  lemma ProbesAgain(s: Policy, r: Policy)
    requires Fits(s) && !Known(s) && s.current == 0 && Fits(r) && !r.fixed
    requires r == s || (r.current >= 1 && forall k :: 0 <= k < |r.times| ==> r.times[k] == 0)
    ensures !Plan(r).fixed && Plan(r).current >= 1 && Plan(r).times == r.times && Plan(r).tryIters == PROBE && Plan(r).currentIters == r.currentIters
  {
    if r == s {
      LookupIs(s.history, s.batch);
      assert !Has(s.history, s.batch);
      if s.history != [] { NarrowFits(s); }
    }
  }

  /** Exactly when a stage always ends: it asks for a whole number of probes, or the
      parallelism is settled beforehand. Otherwise a run of equal times never ends. */
  lemma AlwaysEndsIff(p: Policy, total: int, batch: int)
    requires Monotone(p.history)
    ensures var s := Start(Reset(p), total, batch);
            && Counted(s)
            && ((forall times :: |times| >= 1 && PROBE * |times| >= total ==> Ends(s, times)) <==> Probes(total) || Known(s))
    ensures var s := Start(Reset(p), total, batch);
            !(Probes(total) || Known(s)) ==> forall n: nat :: !Ends(s, Zeros(n))
  {
    var s := Start(Reset(p), total, batch);
    StartFits(p, total, batch);
    StartFacts(p, total, batch);
    if Known(s) {
      forall times | |times| >= 1 ensures Ends(s, times) {
        KnownEndsAtOnce(s, times);
      }
    } else if Probes(total) {
      forall times | |times| >= 1 && PROBE * |times| >= total ensures Ends(s, times) {
        var n := StageExact(p, total, batch, times);
      }
    } else {
      forall n: nat ensures !Ends(s, Zeros(n)) {
        NeverEnds(s, n);
      }
      var n := if total > 0 then total else 1;
      assert !Ends(s, Zeros(n));
    }
  }

  lemma WholeProbes(k: nat)
    requires k > 0
    ensures Probes(PROBE * k)
  {
  }

  lemma NeverEnds(s: Policy, n: nat)
    requires Fits(s) && Counted(s) && !Known(s) && s.current == 0 && s.currentIters == 0 && !Probes(s.total)
    ensures !Ends(s, Zeros(n))
  {
    hide Fits, Known, Run, Probes;
    var zeros := Zeros(n);
    forall k | 1 <= k <= n ensures Run(s, zeros[..k]).currentIters != s.total {
      KeepsProbing(s, k);
      WholeProbes(k);
      assert zeros[..k] == Zeros(k);
    }
  }

  // ------------------------------------------------------- what a search settles on

  /** Where a search that earlier stages do not settle begins, and between which numbers
      of threads it goes. */
  ghost predicate Searches(s: Policy, lo: int, hi: int) {
    && Fits(s) && !Known(s) && s.current == 0
    && (if s.history == [] then lo == s.min && hi == s.max else (lo, hi) == Prune(s.history, s.batch, s.min, s.max))
  }

  /** In the middle of a search: sub-epoch j used j threads more than the first. */
  ghost predicate Climbing(s: Policy, r: Policy, times: seq<int>, lo: int, hi: int) {
    && Counted(r) && !r.fixed && r.times == times && r.history == s.history && r.batch == s.batch
    && (times == [] ==> r == s)
    && (times != [] ==> r.max == hi && r.current == Smaller(lo + |times| - 1, hi) && r.current >= 1)
    && forall j :: 0 <= j < |times| ==> r.tried[j] == Smaller(lo + j, hi)
  }

  function Smaller(a: int, b: int): (r: int)
    ensures r == if a <= b then a else b
  {
    if a <= b then a else b
  }

  lemma ClimbingPlan(s: Policy, r: Policy, times: seq<int>, lo: int, hi: int, time: int)
    requires Counted(s) && Searches(s, lo, hi) && Climbing(s, r, times, lo, hi)
    ensures var n := |times|;
            if n > 1 && times[n - 1] > times[n - 2] then Plan(r).fixed && Plan(r).current == Smaller(lo + n - 2, hi) && Remembered(s, Plan(r).history, Plan(r).current)
            else !Plan(r).fixed && Plan(r).current == Smaller(lo + n, hi) && Plan(r).history == s.history && Climbing(s, Finish(Plan(r), time), times + [time], lo, hi)
  {
    if times == [] {
      LookupIs(s.history, s.batch);
      assert !Has(s.history, s.batch);
      if s.history != [] { NarrowFits(s); }
    } else {
      LookupIs(s.history, s.batch);
      RememberedFix(s, Plan(r).current);
    }
  }

  /** What a search settled on is what the history has for its batch size from then
      on; nothing else changes there. */
  ghost predicate Remembered(s: Policy, history: seq<Entry>, best: int) {
    && (s.batch > 0 ==> Lookup(history, s.batch) == Some(best))
    && forall other: int :: other != s.batch || s.batch <= 0 ==> Lookup(history, other) == Lookup(s.history, other)
  }

  lemma RememberedFix(s: Policy, best: int)
    requires Ordered(s.history) && (s.batch > 0 ==> Lookup(s.history, s.batch).None?)
    ensures Remembered(s, if s.batch > 0 then Insert(s.history, s.batch, best) else s.history, best)
  {
    forall other: int ensures s.batch > 0 ==> Lookup(Insert(s.history, s.batch, best), other) == if other != s.batch then Lookup(s.history, other) else Some(best) {
      LookupInsert(s.history, s.batch, best, other);
    }
  }

  /** A stage whose batch size the history knows uses what it has for it at once; one
      whose neighbours agree uses theirs. */
  lemma KnownSettles(p: Policy, total: int, batch: int)
    requires Monotone(p.history) && batch > 0
    ensures Counted(Start(Reset(p), total, batch))
    ensures var r := Plan(Start(Reset(p), total, batch));
            && (Lookup(p.history, batch).Some? ==> r.fixed && r.current == Lookup(p.history, batch).value && r.history == p.history)
            && (Lookup(p.history, batch).None? && p.history != [] && Prune(p.history, batch, 1, MOST).0 == Prune(p.history, batch, 1, MOST).1 ==>
                 r.fixed && r.current == Prune(p.history, batch, 1, MOST).0)
  {
    LookupIs(p.history, batch);
    if Has(p.history, batch) {
      InsertFound(p.history, batch, Lookup(p.history, batch).value);
    }
  }

  /** Sub-epoch j took longer than the one before. */
  predicate Slower(times: seq<int>, j: int)
    requires 1 <= j < |times|
  {
    times[j - 1] < times[j]
  }

  /** None of the first k sub-epochs did. */
  predicate Falling(times: seq<int>, k: int)
    requires k <= |times|
  {
    forall j :: 1 <= j < k ==> !Slower(times, j)
  }

  lemma FallingPrefix(times: seq<int>, n: nat, k: int)
    requires k <= n <= |times|
    ensures Falling(times[..n], k) == Falling(times, k)
  {
    forall j | 1 <= j < k ensures Slower(times[..n], j) == Slower(times, j) { }
  }

  /** While the times do not go up, each sub-epoch uses one thread more; the first time
      they do, the number used just before is fixed, and stays. */
  lemma SearchSettles(s: Policy, lo: int, hi: int, times: seq<int>)
    requires Counted(s) && Searches(s, lo, hi)
    ensures var n, r := |times|, Run(s, times);
            && Counted(r)
            && (Falling(times, n) ==>
                 !Plan(r).fixed && Plan(r).current == (if lo + n <= hi then lo + n else hi) && Plan(r).history == s.history)
            && forall j :: 1 <= j < n && Slower(times, j) && Falling(times, j) ==>
                 && Plan(r).fixed && Plan(r).current == (if lo + j - 1 <= hi then lo + j - 1 else hi)
                 && Remembered(s, Plan(r).history, Plan(r).current)
  {
    hide Plan, Run, Searches, Falling, Slower;
    if Falling(times, |times|) {
      FallingLess(times);
      StillClimbing(s, lo, hi, times);
      FallingLast(times);
      ClimbingPlan(s, Run(s, times), times, lo, hi, 0);
    }
    forall j | 1 <= j < |times| && Slower(times, j) && Falling(times, j)
      ensures Plan(Run(s, times)).fixed && Plan(Run(s, times)).current == Smaller(lo + j - 1, hi) && Remembered(s, Plan(Run(s, times)).history, Plan(Run(s, times)).current)
    {
      FixedFrom(s, lo, hi, times, j);
    }
  }

  lemma FallingLess(times: seq<int>)
    requires Falling(times, |times|)
    ensures Falling(times, |times| - 1)
  {
  }

  lemma FallingLast(times: seq<int>)
    requires Falling(times, |times|)
    ensures |times| > 1 ==> times[|times| - 1] <= times[|times| - 2]
  {
    if |times| > 1 { assert !Slower(times, |times| - 1); }
  }

  lemma {:induction false} StillClimbing(s: Policy, lo: int, hi: int, times: seq<int>)
    requires Counted(s) && Searches(s, lo, hi) && Falling(times, |times| - 1)
    ensures Climbing(s, Run(s, times), times, lo, hi)
  {
    hide Plan, Finish, Searches, Falling, Slower;
    if times == [] {
      AtStart(s, lo, hi);
    } else {
      var n := |times| - 1;
      FallingPrefix(times, n, n);
      FallingLess(times[..n]);
      StillClimbing(s, lo, hi, times[..n]);
      FallingLast(times[..n]);
      ClimbingPlan(s, Run(s, times[..n]), times[..n], lo, hi, times[n]);
      assert times == times[..n] + [times[n]];
    }
  }

  lemma AtStart(s: Policy, lo: int, hi: int)
    requires Counted(s) && Searches(s, lo, hi)
    ensures Climbing(s, s, [], lo, hi)
  {
    assert |s.tried| == 0;
  }

  lemma {:induction false} FixedFrom(s: Policy, lo: int, hi: int, times: seq<int>, j: nat)
    requires Counted(s) && Searches(s, lo, hi) && 1 <= j < |times| && Slower(times, j) && Falling(times, j)
    ensures var r := Run(s, times);
            Plan(r).fixed && Plan(r).current == Smaller(lo + j - 1, hi) && Remembered(s, Plan(r).history, Plan(r).current)
  {
    hide Searches, Falling, Remembered, Insert;
    var n := |times| - 1;
    if j == n {
      StillClimbing(s, lo, hi, times);
      ClimbingPlan(s, Run(s, times), times, lo, hi, 0);
    } else {
      FallingPrefix(times, n, j);
      FixedFrom(s, lo, hi, times[..n], j);
    }
  }

  /** What a search settles on is remembered for its batch size and no other. */
  lemma {:induction false} LookupInsert(h: seq<Entry>, key: int, v: int, other: int)
    requires Ordered(h)
    ensures Lookup(Insert(h, key, v), other) ==
            if other != key then Lookup(h, other) else if Lookup(h, key).Some? then Lookup(h, key) else Some(v)
  {
    if h != [] {
      TailOrdered(h);
      if key > h[0].0 {
        LookupInsert(h[1..], key, v, other);
      } else if key < h[0].0 {
        LookupIs(h, key);
        assert Insert(h, key, v)[1..] == h;
      }
    }
  }

  /** The bounds are the values of the neighbouring batch sizes. */
  lemma {:induction false} PruneIs(h: seq<Entry>, key: int, lo: int, hi: int) returns (m: nat)
    requires Ordered(h) && !Has(h, key)
    ensures m <= |h| && (forall i :: 0 <= i < m ==> h[i].0 < key) && (forall i :: m <= i < |h| ==> h[i].0 > key)
    ensures Prune(h, key, lo, hi) == (if m > 0 then h[m - 1].1 else lo, if m < |h| then h[m].1 else hi)
  {
    if h == [] || h[0].0 > key {
      m := 0;
    } else {
      HasTail(h, key);
      TailOrdered(h);
      var k := PruneIs(h[1..], key, h[0].1, hi);
      m := k + 1;
    }
  }

  datatype Stage = Stage(total: int, batch: int, times: seq<int>)

  /** Stage after stage, with any batch sizes and any measured times. */
  function RunStages(p: Policy, stages: seq<Stage>): Policy {
    if stages == [] then p
    else
      var n := |stages| - 1;
      var s := Start(Reset(RunStages(p, stages[..n])), stages[n].total, stages[n].batch);
      if Counted(s) then Run(s, stages[n].times) else s
  }

  /** The history is monotone after any stages, so no search space is ever empty. */
  lemma {:induction false} HistoryStaysMonotone(p: Policy, stages: seq<Stage>)
    requires Monotone(p.history)
    ensures Monotone(RunStages(p, stages).history)
    ensures stages != [] ==> Fits(RunStages(p, stages))
  {
    hide Run, Monotone;
    if stages != [] {
      var n := |stages| - 1;
      HistoryStaysMonotone(p, stages[..n]);
      var q := RunStages(p, stages[..n]);
      StartFits(q, stages[n].total, stages[n].batch);
      StartFacts(q, stages[n].total, stages[n].batch);
      hide Fits;
      RunFits(Start(Reset(q), stages[n].total, stages[n].batch), stages[n].times);
      FitsMonotone(RunStages(p, stages));
    }
  }

  // ------------------------------------------------------------------ the class

  class AutoParallelismPolicy {
    var currentWorkerPerProcess: int
    var maxWorkerPerProcess: int
    var minWorkerPerProcess: int
    var times: seq<int>
    var workerPerProcessHistory: seq<int>
    var tryIters: int
    var currentIters: int
    var numTotalIters: int
    var subEpoch: nat
    var fixed: bool
    var history: seq<Entry>
    var currentBatchsize: int

    ghost function St(): Policy
      reads this
    {
      Policy(currentWorkerPerProcess, maxWorkerPerProcess, minWorkerPerProcess, times, workerPerProcessHistory, tryIters, currentIters,
             numTotalIters, subEpoch, fixed, history, currentBatchsize)
    }

    constructor ()
      ensures St().history == [] && St() == Reset(St())
    {
      numTotalIters, currentBatchsize, history := 0, 0, [];
      currentIters, subEpoch, times, workerPerProcessHistory, fixed := 0, 0, [], [], false;
      currentWorkerPerProcess, maxWorkerPerProcess, minWorkerPerProcess, tryIters := 0, MOST, 1, PROBE;
    }

    method ResetStage()
      modifies this
      ensures St() == Reset(old(St()))
    {
      currentIters, subEpoch, times, workerPerProcessHistory, fixed := 0, 0, [], [], false;
      currentWorkerPerProcess, maxWorkerPerProcess, minWorkerPerProcess, tryIters := 0, MOST, 1, PROBE;
    }

    method FixParallelism(best: int)
      modifies this
      ensures St() == Fix(old(St()), best)
    {
      if currentBatchsize > 0 {
        history := Insert(history, currentBatchsize, best);
      }
      currentWorkerPerProcess := best;
      tryIters := numTotalIters - currentIters;
      fixed := true;
    }

    method StartStage(total: int, batch: int)
      modifies this
      ensures St() == Start(old(St()), total, batch)
    {
      numTotalIters := total;
      currentBatchsize := batch;
      if batch > 0 {
        var found := Lookup(history, currentBatchsize);
        if found.Some? {
          FixParallelism(found.value);
        }
      }
    }

    /** The end of a sub-epoch; whether it was the last of the stage. */
    method FinishSubepoch(time: int) returns (last: bool)
      modifies this
      ensures St() == Finish(old(St()), time) && last == (St().currentIters == St().total)
    {
      times := times + [time];
      workerPerProcessHistory := workerPerProcessHistory + [currentWorkerPerProcess];
      subEpoch := subEpoch + 1;
      currentIters := currentIters + tryIters;
      last := currentIters == numTotalIters;
    }

    method GeneratePlan()
      requires Fits(St())
      modifies this
      ensures St() == Plan(old(St())) && Fits(St()) && 1 <= St().current <= MOST
    {
      PlanFits(St());
      if !fixed {
        RoomToSearch(St());
        SubGeneratePlan();
      }
    }

    method SubGeneratePlan()
      requires Counted(St())
      requires currentWorkerPerProcess == 0 && Lookup(history, currentBatchsize).None? ==> Narrow(St()).min <= Narrow(St()).max
      modifies this
      ensures St() == SubPlan(old(St()))
    {
      if currentWorkerPerProcess == 0 {
        var found := Lookup(history, currentBatchsize);
        if found.Some? {
          FixParallelism(found.value);
          return;
        } else if |history| != 0 {
          PruneSearch();
          if minWorkerPerProcess == maxWorkerPerProcess {
            FixParallelism(minWorkerPerProcess);
            return;
          }
          currentWorkerPerProcess := minWorkerPerProcess - 1;
        }
      }
      Increase();
    }

    method Increase()
      requires subEpoch == |times| == |workerPerProcessHistory|
      modifies this
      ensures St() == Climb(old(St()))
    {
      if subEpoch > 1 && times[subEpoch - 1] > times[subEpoch - 2] {
        FixParallelism(workerPerProcessHistory[subEpoch - 2]);
      } else {
        currentWorkerPerProcess := currentWorkerPerProcess + 1;
        if currentWorkerPerProcess > maxWorkerPerProcess {
          currentWorkerPerProcess := maxWorkerPerProcess;
        }
      }
    }

    /** Narrowing the search space by the history. The original's assertion that it is
        not empty holds. */
    method PruneSearch()
      requires Narrow(St()).min <= Narrow(St()).max
      modifies this`minWorkerPerProcess, this`maxWorkerPerProcess
      ensures St() == Narrow(old(St()))
    {
      ghost var all := Prune(history, currentBatchsize, minWorkerPerProcess, maxWorkerPerProcess);
      for i := 0 to |history|
        invariant Prune(history[i..], currentBatchsize, minWorkerPerProcess, maxWorkerPerProcess) == all
      {
        assert history[i..][1..] == history[i + 1..];
        if history[i].0 < currentBatchsize {
          minWorkerPerProcess := history[i].1;
        } else {
          maxWorkerPerProcess := history[i].1;
          break;
        }
      }
      assert minWorkerPerProcess <= maxWorkerPerProcess;
    }
  }
}

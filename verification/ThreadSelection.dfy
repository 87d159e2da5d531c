// Choosing the threads of an instance: which processes are considered, and how many
// threads each of them gives.
module ThreadSelection {
  import opened AvailableWorkers

  // ------------------------------------------------------------------ history

  /** How often each task visited each process. */
  class HistoryManager {
    var numProcesses: nat
    var history: map<nat, seq<nat>>

    constructor (numProcesses: nat)
      ensures Valid() && this.numProcesses == numProcesses && forall t: nat :: Visits(t) == seq(numProcesses, _ => 0)
    {
      this.numProcesses := numProcesses;
      history := map[];
    }

    ghost predicate Valid()
      reads this
    {
      forall t :: t in history ==> |history[t]| == numProcesses
    }

    function Visits(task: nat): (r: seq<nat>)
      requires Valid()
      reads this
      ensures |r| == numProcesses
    {
      if task in history then history[task] else seq(numProcesses, _ => 0)
    }

    /** Looking up a task enters it. */
    method GetTaskHistory(task: nat) returns (r: seq<nat>)
      requires Valid()
      modifies this
      ensures Valid() && numProcesses == old(numProcesses)
      ensures r == Visits(task) && forall t: nat :: Visits(t) == old(Visits(t))
    {
      if task !in history {
        history := history[task := seq(numProcesses, _ => 0)];
      }
      r := history[task];
    }

    /** A process counts once per instance, however many threads it gave. */
    method UpdateHistory(task: nat, threads: seq<Worker>)
      requires Valid() && forall i :: 0 <= i < |threads| ==> threads[i].pid < numProcesses
      modifies this
      ensures Valid() && numProcesses == old(numProcesses)
      ensures forall t: nat :: t != task ==> Visits(t) == old(Visits(t))
      ensures forall p :: 0 <= p < numProcesses ==>
                Visits(task)[p] == old(Visits(task))[p] + (if Local(Elements(threads), p) != {} then 1 else 0)
    {
      if task !in history {
        history := history[task := seq(numProcesses, _ => 0)];
      }
      var pids := set w | w in threads :: w.pid;
      forall p ensures p in pids <==> Local(Elements(threads), p) != {} {
        PidsAre(threads, p);
      }
      var visits := Increment(history[task], pids);
      history := history[task := visits];
    }

    static method Increment(was: seq<nat>, pids: set<nat>) returns (now: seq<nat>)
      requires forall p :: p in pids ==> p < |was|
      ensures |now| == |was|
      ensures forall p :: 0 <= p < |was| ==> now[p] == was[p] + (if p in pids then 1 else 0)
    {
      now := was;
      var left := pids;
      while left != {}
        invariant left <= pids && |now| == |was|
        invariant forall p :: 0 <= p < |was| ==> now[p] == was[p] + (if p in pids - left then 1 else 0)
        decreases |left|
      {
        var pid :| pid in left;
        left := left - {pid};
        now := now[pid := now[pid] + 1];
      }
    }
  }

  lemma PidsAre(threads: seq<Worker>, p: nat)
    ensures (exists w :: w in threads && w.pid == p) <==> Local(Elements(threads), p) != {}
  {
    if Local(Elements(threads), p) != {} { var w :| w in Local(Elements(threads), p); assert w in threads; }
    if w :| w in threads && w.pid == p { assert w in Local(Elements(threads), p); }
  }

  /** The least visited processes. */
  method GetPreferredProc(visits: seq<nat>) returns (plan: seq<nat>)
    ensures Distinct(plan)
    ensures forall p :: p in plan <==> 0 <= p < |visits| && forall q :: 0 <= q < |visits| ==> visits[p] <= visits[q]
    ensures visits != [] ==> plan != []
  {
    plan := [];
    if visits == [] { return; }
    var smallest := visits[0];
    for i := 0 to |visits|
      invariant forall q :: 0 <= q < i ==> smallest <= visits[q]
      invariant exists q :: 0 <= q < |visits| && visits[q] == smallest
    {
      if visits[i] < smallest {
        smallest := visits[i];
      }
    }
    for i := 0 to |visits|
      invariant Distinct(plan) && forall p :: p in plan <==> 0 <= p < i && visits[p] == smallest
    {
      if visits[i] == smallest {
        plan := plan + [i];
      }
    }
    var q :| 0 <= q < |visits| && visits[q] == smallest;
    assert q in plan;
  }

  method AllProcesses(n: nat) returns (r: seq<nat>)
    ensures Distinct(r) && forall p :: p in r <==> 0 <= p < n
  {
    r := [];
    for p := 0 to n
      invariant |r| == p && forall k :: 0 <= k < p ==> r[k] == k
    {
      r := r + [p];
    }
    forall p | 0 <= p < n ensures p in r { assert r[p] == p; }
  }

  // ---------------------------------------------------------------- selection

  /** The workers of the candidate processes. */
  function Of(pool: set<Worker>, candidates: seq<nat>): set<Worker> {
    set w | w in pool && w.pid in candidates
  }

  function Given(r: seq<Worker>, pid: nat): nat {
    |Local(Elements(r), pid)|
  }

  lemma {:induction false} OfSplits(pool: set<Worker>, candidates: seq<nat>)
    requires Distinct(candidates) && candidates != []
    ensures var n := |candidates| - 1;
            |Of(pool, candidates)| == |Of(pool, candidates[..n])| + |Local(pool, candidates[n])|
  {
    var n := |candidates| - 1;
    var a, b := Of(pool, candidates[..n]), Local(pool, candidates[n]);
    assert candidates == candidates[..n] + [candidates[n]];
    assert Of(pool, candidates) == a + b;
    assert candidates[n] !in candidates[..n];
    assert a !! b;
  }

  /** A process that still has a free thread has given no less than any other, but
      for one. */
  ghost predicate Fair(pool: set<Worker>, r: seq<Worker>, candidates: seq<nat>) {
    forall a, b :: a in candidates && b in candidates && Local(pool, a) != {} ==> Given(r, b) <= Given(r, a) + 1
  }

  /** Every candidate has given c threads, or fewer and has none left. */
  ghost predicate Level(pool: set<Worker>, r: seq<Worker>, candidates: seq<nat>, c: nat) {
    forall a :: a in candidates ==> Given(r, a) <= c && (Local(pool, a) != {} ==> Given(r, a) == c)
  }

  /** The first j candidates are a thread ahead. */
  ghost predicate Stepped(pool: set<Worker>, r: seq<Worker>, candidates: seq<nat>, j: nat, c: nat)
    requires j <= |candidates|
  {
    && Level(pool, r, candidates[..j], c + 1)
    && Level(pool, r, candidates[j..], c)
  }

  /** Threads of the candidates, taken out of the pool. */
  ghost predicate Selected(before: set<Worker>, r: seq<Worker>, after: set<Worker>, candidates: seq<nat>) {
    Taken(before, r, after) && forall w :: w in r ==> w.pid in candidates
  }

  lemma TakeMore(before: set<Worker>, r: seq<Worker>, mid: set<Worker>, more: seq<Worker>, after: set<Worker>)
    requires Taken(before, r, mid) && Taken(mid, more, after)
    ensures Taken(before, r + more, after) && Elements(r + more) == Elements(r) + Elements(more)
  {
    assert Elements(r + more) == Elements(r) + Elements(more);
    forall i, j | 0 <= i < j < |r + more| ensures (r + more)[i] != (r + more)[j] {
      if i < |r| <= j { assert r[i] in Elements(r) && more[j - |r|] in Elements(more); }
    }
  }

  lemma GivenMore(r: set<Worker>, more: set<Worker>, pid: nat, p: nat)
    requires r !! more && forall w :: w in more ==> w.pid == pid
    ensures |Local(r + more, p)| == |Local(r, p)| + if p == pid then |more| else 0
  {
    if p == pid {
      assert Local(r + more, p) == Local(r, p) + more;
    } else {
      assert Local(r + more, p) == Local(r, p);
    }
  }

  /** Taking more threads of one candidate. */
  lemma SelectMore(before: set<Worker>, r: seq<Worker>, mid: set<Worker>, candidates: seq<nat>, pid: nat, more: seq<Worker>, after: set<Worker>)
    requires Selected(before, r, mid, candidates) && pid in candidates
    requires Taken(mid, more, after) && forall w :: w in more ==> w.pid == pid
    ensures Selected(before, r + more, after, candidates)
    ensures Given(r + more, pid) == Given(r, pid) + |more|
    ensures forall p: nat :: p != pid ==> Given(r + more, p) == Given(r, p) && Local(after, p) == Local(mid, p)
  {
    TakeMore(before, r, mid, more, after);
    DistinctSize(more);
    var a, b := Elements(r), Elements(more);
    assert forall w :: w in b ==> w in more;
    hide Taken, Distinct, Elements;
    forall p: nat ensures Given(r + more, p) == Given(r, p) + if p == pid then |more| else 0 {
      GivenMore(a, b, pid, p);
    }
    forall p: nat | p != pid ensures Local(after, p) == Local(mid, p) {
      assert forall w :: w in b ==> w.pid != p;
    }
  }

  /** What is left with the candidates and what was taken make up what there was. */
  lemma LeftAndTaken(before: set<Worker>, r: seq<Worker>, after: set<Worker>, candidates: seq<nat>)
    requires Selected(before, r, after, candidates)
    ensures |Of(before, candidates)| == |Of(after, candidates)| + |r|
  {
    DistinctSize(r);
    assert forall w :: w in Elements(r) ==> w in r;
    assert Of(before, candidates) == Of(after, candidates) + Elements(r);
  }

  /** How many threads the candidates have together and how many each can give at
      once. */
  method CountCandidates(pool: AvailableWorkers, candidates: seq<nat>, average: nat) returns (sum: nat, each: nat)
    requires pool.Valid() && Distinct(candidates)
    ensures sum == |Of(pool.workers, candidates)| && each <= average
    ensures forall p :: p in candidates ==> each <= |Local(pool.workers, p)|
  {
    sum, each := 0, average;
    assert Of(pool.workers, candidates[..0]) == {};
    for i := 0 to |candidates|
      invariant sum == |Of(pool.workers, candidates[..i])| && each <= average
      invariant forall k :: 0 <= k < i ==> each <= |Local(pool.workers, candidates[k])|
    {
      var n := pool.GetNumAvailableLocalWorkers(candidates[i]);
      sum := sum + n;
      if n < each { each := n; }
      assert candidates[..i + 1][..i] == candidates[..i];
      OfSplits(pool.workers, candidates[..i + 1]);
    }
    assert candidates[..|candidates|] == candidates;
  }

  /** The same number of threads from every candidate. */
  method TakeEach(pool: AvailableWorkers, candidates: seq<nat>, each: nat) returns (r: seq<Worker>)
    requires pool.Valid() && Distinct(candidates)
    requires forall p :: p in candidates ==> each <= |Local(pool.workers, p)|
    modifies pool
    ensures pool.Valid() && Selected(old(pool.workers), r, pool.workers, candidates)
    ensures |r| == each * |candidates| && Level(pool.workers, r, candidates, each)
  {
    r := [];
    for i := 0 to |candidates|
      invariant pool.Valid() && Selected(old(pool.workers), r, pool.workers, candidates)
      invariant |r| == each * i
      invariant forall k :: 0 <= k < i ==> Given(r, candidates[k]) == each
      invariant forall k :: i <= k < |candidates| ==> each <= |Local(pool.workers, candidates[k])|
      invariant forall k :: i <= k < |candidates| ==> Given(r, candidates[k]) == 0
    {
      ghost var mid := pool.workers;
      var more := pool.GetWorkersExactProcess(each, candidates[i]);
      SelectMore(old(pool.workers), r, mid, candidates, candidates[i], more, pool.workers);
      assert each * (i + 1) == each * i + each;
      r := r + more;
    }
  }

  /** One thread of the next candidate, if it has any left. */
  method TakeOne(pool: AvailableWorkers, candidates: seq<nat>, j: nat, soFar: seq<Worker>, ghost before: set<Worker>, ghost c: nat)
    returns (r: seq<Worker>)
    requires pool.Valid() && Distinct(candidates) && j < |candidates|
    requires Selected(before, soFar, pool.workers, candidates) && Stepped(pool.workers, soFar, candidates, j, c)
    modifies pool
    ensures pool.Valid() && Selected(before, r, pool.workers, candidates) && Stepped(pool.workers, r, candidates, j + 1, c)
    ensures |r| == |soFar| + if Local(old(pool.workers), candidates[j]) != {} then 1 else 0
    ensures forall p: nat :: p != candidates[j] ==> Local(pool.workers, p) == Local(old(pool.workers), p)
  {
    hide Selected, Stepped;
    var n := pool.GetNumAvailableLocalWorkers(candidates[j]);
    if n > 0 {
      var more := pool.GetWorkersExactProcess(1, candidates[j]);
      SelectMore(before, soFar, old(pool.workers), candidates, candidates[j], more, pool.workers);
      StepOn(old(pool.workers), soFar, pool.workers, soFar + more, candidates, j, c);
      assert more == [more[0]];
      r := soFar + [more[0]];
    } else {
      StepPast(pool.workers, soFar, candidates, j, c);
      r := soFar;
    }
  }

  /** A round over the candidates brings at least one thread. */
  method OneRound(pool: AvailableWorkers, candidates: seq<nat>, required: nat, soFar: seq<Worker>, ghost before: set<Worker>, ghost c: nat)
    returns (r: seq<Worker>)
    requires pool.Valid() && Distinct(candidates)
    requires Selected(before, soFar, pool.workers, candidates) && Level(pool.workers, soFar, candidates, c)
    requires |soFar| < required <= |Of(before, candidates)|
    modifies pool
    ensures pool.Valid() && Selected(before, r, pool.workers, candidates)
    ensures |soFar| < |r| <= required
    ensures if |r| == required then Fair(pool.workers, r, candidates) else Level(pool.workers, r, candidates, c + 1)
  {
    hide Selected, Stepped, Level, Fair;
    r := soFar;
    LeftAndTaken(before, r, pool.workers, candidates);
    ghost var at := SomeoneLeft(pool.workers, candidates);
    StepStart(pool.workers, r, candidates, c);
    for j := 0 to |candidates|
      invariant pool.Valid() && Selected(before, r, pool.workers, candidates)
      invariant Stepped(pool.workers, r, candidates, j, c)
      invariant |soFar| <= |r| < required
      invariant at < j ==> |soFar| < |r|
      invariant at >= j ==> Local(pool.workers, candidates[at]) != {}
    {
      r := TakeOne(pool, candidates, j, r, before, c);
      if |r| == required {
        SteppedFair(pool.workers, r, candidates, j + 1, c);
        return;
      }
    }
    StepEnd(pool.workers, r, candidates, c);
  }

  lemma SomeoneLeft(pool: set<Worker>, candidates: seq<nat>) returns (at: nat)
    requires |Of(pool, candidates)| > 0
    ensures at < |candidates| && Local(pool, candidates[at]) != {}
  {
    var w: Worker :| w in Of(pool, candidates);
    at :| at < |candidates| && candidates[at] == w.pid;
    assert w in Local(pool, candidates[at]);
  }

  lemma StepStart(pool: set<Worker>, r: seq<Worker>, candidates: seq<nat>, c: nat)
    requires Level(pool, r, candidates, c)
    ensures Stepped(pool, r, candidates, 0, c)
  {
  }

  lemma StepEnd(pool: set<Worker>, r: seq<Worker>, candidates: seq<nat>, c: nat)
    requires Stepped(pool, r, candidates, |candidates|, c)
    ensures Level(pool, r, candidates, c + 1)
  {
  }

  lemma StepPast(pool: set<Worker>, r: seq<Worker>, candidates: seq<nat>, j: nat, c: nat)
    requires j < |candidates| && Stepped(pool, r, candidates, j, c) && Local(pool, candidates[j]) == {}
    ensures Stepped(pool, r, candidates, j + 1, c)
  {
  }

  /** A thread at a time from the candidates in turn, until there are enough. */
  method RoundRobin(pool: AvailableWorkers, candidates: seq<nat>, required: nat, soFar: seq<Worker>, ghost before: set<Worker>, ghost level: nat)
    returns (r: seq<Worker>)
    requires pool.Valid() && Distinct(candidates)
    requires Selected(before, soFar, pool.workers, candidates) && Level(pool.workers, soFar, candidates, level)
    requires |soFar| < required <= |Of(before, candidates)|
    modifies pool
    ensures pool.Valid() && Selected(before, r, pool.workers, candidates)
    ensures |r| == required && Fair(pool.workers, r, candidates)
  {
    hide Selected, Level, Fair;
    r := soFar;
    ghost var c := level;
    while |r| != required
      invariant pool.Valid() && Selected(before, r, pool.workers, candidates) && |r| <= required
      invariant if |r| == required then Fair(pool.workers, r, candidates) else Level(pool.workers, r, candidates, c)
      decreases required - |r|
    {
      r := OneRound(pool, candidates, required, r, before, c);
      c := c + 1;
    }
  }

  lemma StepOn(pool: set<Worker>, r: seq<Worker>, pool': set<Worker>, r': seq<Worker>, candidates: seq<nat>, j: nat, c: nat)
    requires Distinct(candidates) && j < |candidates| && Stepped(pool, r, candidates, j, c)
    requires Local(pool, candidates[j]) != {} && Given(r', candidates[j]) == Given(r, candidates[j]) + 1
    requires forall p: nat :: p != candidates[j] ==> Given(r', p) == Given(r, p) && Local(pool', p) == Local(pool, p)
    ensures Stepped(pool', r', candidates, j + 1, c)
  {
  }

  lemma SteppedFair(pool: set<Worker>, r: seq<Worker>, candidates: seq<nat>, j: nat, c: nat)
    requires j <= |candidates| && Stepped(pool, r, candidates, j, c)
    ensures Fair(pool, r, candidates)
  {
  }

  /** Threads for an instance that may be spread over the candidates: exactly as many
      as required, spread evenly, or none when the candidates have too few. */
  method SelectSpread(pool: AvailableWorkers, numProcesses: nat, required: nat, candidates: seq<nat>) returns (r: seq<Worker>)
    requires pool.Valid() && numProcesses > 0
    requires Distinct(candidates) && forall p :: p in candidates ==> p < numProcesses
    modifies pool
    ensures pool.Valid() && Selected(old(pool.workers), r, pool.workers, candidates)
    ensures |r| == if |Of(old(pool.workers), candidates)| >= required then required else 0
    ensures r != [] ==> forall a, b :: a in candidates && b in candidates && Local(pool.workers, a) != {} ==> Given(r, b) <= Given(r, a) + 1
  {
    ghost var before := pool.workers;
    var sum, each := CountCandidates(pool, candidates, required / numProcesses);
    r := [];
    if sum >= required {
      EvenShare(candidates, numProcesses, required, each);
      if each > 0 {
        r := TakeEach(pool, candidates, each);
      }
      if |r| != required {
        r := RoundRobin(pool, candidates, required, r, before, each);
      } else {
        assert candidates[..|candidates|] == candidates;
        SteppedFair(pool.workers, r, candidates, 0, each);
      }
    }
  }

  lemma EvenShare(candidates: seq<nat>, numProcesses: nat, required: nat, each: nat)
    requires numProcesses > 0 && Distinct(candidates) && forall p :: p in candidates ==> p < numProcesses
    requires each <= required / numProcesses
    ensures each * |candidates| <= required
  {
    Below(candidates, numProcesses);
    assert each * |candidates| <= each * numProcesses;
    assert each * numProcesses <= (required / numProcesses) * numProcesses <= required;
  }

  lemma {:induction false} BelowSize(s: set<nat>, n: nat)
    requires forall x :: x in s ==> x < n
    ensures |s| <= n
  {
    if n > 0 {
      BelowSize(s - {n - 1}, n - 1);
    } else {
      assert s == {};
    }
  }

  lemma Below(candidates: seq<nat>, n: nat)
    requires Distinct(candidates) && forall p :: p in candidates ==> p < n
    ensures |candidates| <= n
  {
    DistinctSize(candidates);
    BelowSize(Elements(candidates), n);
  }

  /** Threads for an instance that must stay on one process: the first candidate that
      has enough gives them all. */
  method SelectLocal(pool: AvailableWorkers, required: nat, candidates: seq<nat>) returns (r: seq<Worker>)
    requires pool.Valid() && required > 0
    modifies pool
    ensures pool.Valid() && Selected(old(pool.workers), r, pool.workers, candidates)
    ensures forall v, w :: v in r && w in r ==> v.pid == w.pid
    ensures |r| == if exists p :: p in candidates && |Local(old(pool.workers), p)| >= required then required else 0
  {
    r := [];
    for i := 0 to |candidates|
      invariant pool.Valid() && pool.workers == old(pool.workers) && r == []
      invariant forall k :: 0 <= k < i ==> |Local(pool.workers, candidates[k])| < required
    {
      r := pool.GetWorkersExactProcess(required, candidates[i]);
      if |r| == required {
        assert candidates[i] in candidates;
        break;
      }
      assert Elements(r) == {};
    }
  }

  // -------------------------------------------------------------------- tasks

  datatype Task = Task(id: nat, totalEpoch: nat, numWorkers: nat, basic: bool, local: bool)

  datatype Instance = Instance(task: Task, epoch: nat, threads: seq<Worker>)

  /** A basic task for which no number of workers is set gets one. */
  function Required(task: Task): nat {
    if task.basic && task.numWorkers == 0 then 1 else task.numWorkers
  }

  /** The threads of an instance of the task: as many as required, and for a local
      task all on one process. */
  ghost predicate Serves(task: Task, threads: seq<Worker>) {
    && threads != [] && Distinct(threads)
    && |threads| == (if task.basic && task.numWorkers == 0 then 1 else task.numWorkers)
    && (task.basic && task.local ==> forall v, w :: v in threads && w in threads ==> v.pid == w.pid)
  }

  /** Whether the free threads suffice for a task that may use any of them. */
  predicate Anywhere(task: Task) {
    task.basic && !task.local
  }

  /** The threads for an instance of a task, out of those of the candidates. */
  method SelectThreads(pool: AvailableWorkers, numProcesses: nat, task: Task, candidates: seq<nat>) returns (r: seq<Worker>)
    requires pool.Valid() && numProcesses > 0 && Distinct(candidates) && forall p :: p in candidates ==> p < numProcesses
    modifies pool
    ensures pool.Valid() && Selected(old(pool.workers), r, pool.workers, candidates)
    ensures r != [] ==> Serves(task, r)
    ensures !(task.basic && task.local) ==>
              (r == [] <==> Required(task) == 0 || |Of(old(pool.workers), candidates)| < Required(task))
    ensures task.basic && task.local ==>
              (r == [] <==> forall p :: p in candidates ==> |Local(old(pool.workers), p)| < Required(task))
  {
    if task.basic && task.local {
      r := SelectLocal(pool, Required(task), candidates);
    } else {
      r := SelectSpread(pool, numProcesses, Required(task), candidates);
    }
  }

  method Fill(pool: AvailableWorkers, cluster: set<Worker>)
    requires pool.Valid() && pool.workers == {}
    modifies pool
    ensures pool.Valid() && pool.workers == cluster
  {
    var left := cluster;
    while left != {}
      invariant left <= cluster && pool.Valid() && pool.workers == cluster - left
      decreases |left|
    {
      var w :| w in left;
      left := left - {w};
      pool.AddWorker(w.pid, w.tid);
    }
  }
}

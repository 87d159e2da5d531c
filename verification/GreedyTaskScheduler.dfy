// The scheduler that goes through its tasks and launches all that find threads.
module GreedyTaskScheduler {
  import opened AvailableWorkers
  import opened ThreadSelection
  import opened Tracking

  const READY: nat := 0
  const RUNNING: nat := 1
  const DONE: nat := 2

  predicate DistinctIds(tasks: seq<Task>) {
    forall i, j :: 0 <= i < j < |tasks| ==> tasks[i].id != tasks[j].id
  }

  /** What status, epochs and tracked threads say about the same tasks. */
  ghost predicate Consistent(tasks: seq<Task>, epochs: seq<nat>, status: seq<nat>, t: Table) {
    && |epochs| == |status| == |tasks| && DistinctIds(tasks)
    && (forall i :: 0 <= i < |tasks| ==>
          && epochs[i] <= tasks[i].totalEpoch && status[i] <= DONE
          && (status[i] == DONE <==> epochs[i] == tasks[i].totalEpoch)
          && (status[i] == RUNNING <==> Threads(t, tasks[i].id) != {}))
    && forall id: nat :: Threads(t, id) != {} ==> exists i :: 0 <= i < |tasks| && tasks[i].id == id
  }

  /** Instances launched so far: one for each epoch done and each task running. */
  ghost function Launched(epochs: seq<nat>, status: seq<nat>): nat
    requires |epochs| == |status|
  {
    if epochs == [] then 0
    else
      var n := |epochs| - 1;
      Launched(epochs[..n], status[..n]) + epochs[n] + (if status[n] == RUNNING then 1 else 0)
  }

  /** All instances the tasks ask for. */
  ghost function Work(tasks: seq<Task>): nat {
    if tasks == [] then 0 else Work(tasks[..|tasks| - 1]) + tasks[|tasks| - 1].totalEpoch
  }

  lemma {:induction false} LaunchedUpdate(epochs: seq<nat>, status: seq<nat>, i: nat, e: nat, s: nat)
    requires |epochs| == |status| && i < |epochs|
    ensures Launched(epochs[i := e], status[i := s]) ==
            Launched(epochs, status) - epochs[i] - (if status[i] == RUNNING then 1 else 0) + e + (if s == RUNNING then 1 else 0)
  {
    var n := |epochs| - 1;
    if i == n {
      assert epochs[i := e][..n] == epochs[..n] && status[i := s][..n] == status[..n];
    } else {
      LaunchedUpdate(epochs[..n], status[..n], i, e, s);
      assert epochs[i := e][..n] == epochs[..n][i := e] && status[i := s][..n] == status[..n][i := s];
    }
  }

  /** Never more instances than epochs, and as many as epochs only at the end. */
  lemma {:induction false} LaunchedWithin(tasks: seq<Task>, epochs: seq<nat>, status: seq<nat>)
    requires |epochs| == |status| == |tasks|
    requires forall i :: 0 <= i < |tasks| ==> epochs[i] + (if status[i] == RUNNING then 1 else 0) <= tasks[i].totalEpoch
    ensures Launched(epochs, status) <= Work(tasks)
    ensures (forall i :: 0 <= i < |tasks| ==> epochs[i] == tasks[i].totalEpoch) ==> Launched(epochs, status) == Work(tasks)
  {
    if tasks != [] {
      var n := |tasks| - 1;
      LaunchedWithin(tasks[..n], epochs[..n], status[..n]);
    }
  }

  lemma ConsistentLaunch(tasks: seq<Task>, epochs: seq<nat>, status: seq<nat>, t: Table, i: nat, t': Table)
    requires Consistent(tasks, epochs, status, t) && i < |tasks| && status[i] == READY
    requires Threads(t', tasks[i].id) != {}
    requires forall j: nat :: j != tasks[i].id ==> Threads(t', j) == Threads(t, j)
    ensures Consistent(tasks, epochs, status[i := RUNNING], t')
    ensures Launched(epochs, status[i := RUNNING]) == Launched(epochs, status) + 1
  {
    hide Threads, Launched;
    LaunchedUpdate(epochs, status, i, epochs[i], RUNNING);
    assert epochs[i := epochs[i]] == epochs;
  }

  /** The effect of a finished thread on the epoch and status of its task. */
  function EpochAfter(epochs: seq<nat>, i: nat, last: bool): seq<nat>
    requires i < |epochs|
  {
    if last then epochs[i := epochs[i] + 1] else epochs
  }

  function StatusAfter(tasks: seq<Task>, epochs: seq<nat>, status: seq<nat>, i: nat, last: bool): seq<nat>
    requires i < |epochs| == |status| == |tasks|
  {
    if last then status[i := if epochs[i] + 1 == tasks[i].totalEpoch then DONE else READY] else status
  }

  lemma ConsistentFinish(tasks: seq<Task>, epochs: seq<nat>, status: seq<nat>, t: Table, i: nat, w: Worker, t': Table)
    requires Consistent(tasks, epochs, status, t) && i < |tasks| && w in Threads(t, tasks[i].id)
    requires forall j: nat :: Threads(t', j) == Threads(t, j) - (if j == tasks[i].id then {w} else {})
    ensures var last := Threads(t, tasks[i].id) == {w};
            && status[i] == RUNNING
            && Consistent(tasks, EpochAfter(epochs, i, last), StatusAfter(tasks, epochs, status, i, last), t')
            && Launched(EpochAfter(epochs, i, last), StatusAfter(tasks, epochs, status, i, last)) == Launched(epochs, status)
  {
    hide Threads, Launched;
    var last := Threads(t, tasks[i].id) == {w};
    if last {
      LaunchedUpdate(epochs, status, i, epochs[i] + 1, if epochs[i] + 1 == tasks[i].totalEpoch then DONE else READY);
    }
    assert Threads(t', tasks[i].id) == {} <==> last;
  }

  /** A process the task visited least. */
  predicate Least(visits: seq<nat>, p: nat) {
    p < |visits| && forall q :: 0 <= q < |visits| ==> visits[p] <= visits[q]
  }

  /** The free threads are too few for the task: on each of its processes for a local
      task, on all of them together for another. */
  ghost predicate TooFew(task: Task, visits: seq<nat>, free: set<Worker>) {
    var n := if task.basic && task.numWorkers == 0 then 1 else task.numWorkers;
    if task.basic && task.local then
      forall p: nat :: Least(visits, p) ==> |set w | w in free && w.pid == p| < n
    else
      n == 0 || |set w | w in free && (task.basic || Least(visits, w.pid))| < n
  }

  lemma TooFewIs(task: Task, visits: seq<nat>, free: set<Worker>, candidates: seq<nat>, r: seq<Worker>)
    requires forall w :: w in free ==> w.pid < |visits|
    requires forall p: nat :: p in candidates <==> p < |visits| && (Anywhere(task) || Least(visits, p))
    requires !(task.basic && task.local) ==> (r == [] <==> Required(task) == 0 || |Of(free, candidates)| < Required(task))
    requires task.basic && task.local ==> (r == [] <==> forall p :: p in candidates ==> |Local(free, p)| < Required(task))
    ensures r == [] <==> TooFew(task, visits, free)
  {
    if task.basic && task.local {
      assert forall p: nat :: Local(free, p) == set w | w in free && w.pid == p;
    } else {
      assert Of(free, candidates) == set w | w in free && (task.basic || Least(visits, w.pid));
    }
  }

  lemma StillTooFew(task: Task, visits: seq<nat>, free: set<Worker>, less: set<Worker>)
    requires TooFew(task, visits, free) && less <= free
    ensures TooFew(task, visits, less)
  {
    if task.basic && task.local {
      forall p: nat | Least(visits, p) ensures |set w | w in less && w.pid == p| <= |set w | w in free && w.pid == p| {
        Fewer((set w | w in less && w.pid == p), set w | w in free && w.pid == p);
      }
    } else {
      Fewer((set w | w in less && (task.basic || Least(visits, w.pid))), set w | w in free && (task.basic || Least(visits, w.pid)));
    }
  }

  /** Of the first n tasks, those that are ready find too few threads. */
  ghost predicate NoneFits(tasks: seq<Task>, status: seq<nat>, visits: seq<seq<nat>>, free: set<Worker>, n: nat) {
    && n <= |tasks| == |status| == |visits|
    && forall j :: 0 <= j < n && status[j] == READY ==> TooFew(tasks[j], visits[j], free)
  }

  lemma NoTasksYet(tasks: seq<Task>, status: seq<nat>, visits: seq<seq<nat>>, free: set<Worker>)
    requires |tasks| == |status| == |visits|
    ensures NoneFits(tasks, status, visits, free, 0)
  {
  }

  lemma NoneFitsNext(tasks: seq<Task>, status: seq<nat>, status': seq<nat>, visits: seq<seq<nat>>, free: set<Worker>, free': set<Worker>, i: nat)
    requires i < |tasks| == |status'| && NoneFits(tasks, status, visits, free, i) && free' <= free
    requires forall j :: 0 <= j < i ==> status'[j] == status[j]
    requires status'[i] == READY ==> TooFew(tasks[i], visits[i], free)
    ensures NoneFits(tasks, status', visits, free', i + 1)
  {
    hide TooFew;
    forall j | 0 <= j < i + 1 && status'[j] == READY ensures TooFew(tasks[j], visits[j], free') {
      StillTooFew(tasks[j], visits[j], free, free');
    }
  }

  lemma Fewer(a: set<Worker>, b: set<Worker>)
    requires a <= b
    ensures |a| <= |b|
  {
    assert b == a + (b - a);
  }

  class GreedyTaskScheduler {
    const numProcesses: nat
    const all: set<Worker>
    const pool: AvailableWorkers
    const history: HistoryManager
    var tasks: seq<Task>
    var epochs: seq<nat>
    var status: seq<nat>
    var tracked: Table

    ghost predicate Valid()
      reads this, pool, history
    {
      && pool.Valid() && history.Valid() && history.numProcesses == numProcesses > 0
      && (forall w :: w in all ==> w.pid < numProcesses)
      && Partition(all, pool.workers, tracked) && Clean(tracked)
      && |epochs| == |status| == |tasks| && Consistent(tasks, epochs, status, tracked)
    }

    predicate AllDone()
      reads this
    {
      forall i :: 0 <= i < |status| ==> status[i] == DONE
    }

    constructor (numProcesses: nat, cluster: set<Worker>, history: HistoryManager)
      requires numProcesses > 0 && forall w :: w in cluster ==> w.pid < numProcesses
      requires history.Valid() && history.numProcesses == numProcesses
      ensures Valid() && fresh(pool) && this.history == history && tasks == []
      ensures all == cluster && pool.workers == cluster && this.numProcesses == numProcesses
    {
      this.numProcesses := numProcesses;
      all := cluster;
      pool := new AvailableWorkers();
      this.history := history;
      tasks, epochs, status, tracked := [], [], [], map[];
      new;
      Fill(pool, cluster);
    }

    /** Tasks that ask for more threads than the cluster has are refused. */
    method InitTasks(newTasks: seq<Task>) returns (ok: bool)
      requires Valid() && pool.workers == all
      requires DistinctIds(newTasks) && forall i :: 0 <= i < |newTasks| ==> newTasks[i].totalEpoch >= 1
      modifies this
      ensures Valid() && pool.workers == all
      ensures ok <==> forall i :: 0 <= i < |newTasks| ==> newTasks[i].numWorkers <= |all|
      ensures ok ==> tasks == newTasks && Launched(epochs, status) == 0
      ensures !ok ==> tasks == old(tasks) && epochs == old(epochs) && status == old(status)
    {
      IdleIsFree(all, pool.workers, tracked);
      ok := true;
      var total := pool.GetNumAvailableWorkers();
      for i := 0 to |newTasks|
        invariant ok
        invariant forall j :: 0 <= j < i ==> newTasks[j].numWorkers <= |all|
      {
        if total < newTasks[i].numWorkers { return false; }
      }
      tasks := newTasks;
      epochs, status := seq(|tasks|, _ => 0), seq(|tasks|, _ => READY);
      NothingLaunched(epochs, status);
    }

    method FinishThread(id: nat, w: Worker)
      requires Valid() && w in Threads(tracked, id)
      modifies this`epochs, this`status, this`tracked, pool
      ensures Valid() && pool.workers == old(pool.workers) + {w}
      ensures forall i: nat :: Threads(tracked, i) == old(Threads(tracked, i)) - (if i == id then {w} else {})
      ensures exists i :: 0 <= i < |tasks| && tasks[i].id == id
                && var last := old(Threads(tracked, id)) == {w};
                   epochs == EpochAfter(old(epochs), i, last) && status == StatusAfter(tasks, old(epochs), old(status), i, last)
      ensures Launched(epochs, status) == old(Launched(epochs, status))
    {
      hide Partition, Consistent, Clean, Threads, Launched, Untrack, DistinctIds;
      UntrackThreads(tracked, id, w);
      ghost var idx := TaskOf(tasks, epochs, status, tracked, id);
      pool.AddWorker(w.pid, w.tid);
      tracked := Untrack(tracked, id, w);
      if tracked[id] == map[] {
        RemoveRow(tracked, id);
        tracked := tracked - {id};
        var p := FindTask(id, idx);
        SameTask(tasks, p, idx);
        epochs := epochs[p := epochs[p] + 1];
        status := status[p := if epochs[p] == tasks[p].totalEpoch then DONE else READY];
      }
      FinishConserves(all, old(pool.workers), old(tracked), id, w, tracked);
      ConsistentFinish(tasks, old(epochs), old(status), old(tracked), idx, w, tracked);
    }

    method FindTask(id: nat, ghost idx: nat) returns (p: nat)
      requires idx < |tasks| && tasks[idx].id == id
      ensures p < |tasks| && tasks[p].id == id
    {
      p := 0;
      while tasks[p].id != id
        invariant p < |tasks| && forall j :: 0 <= j < p ==> tasks[j].id != id
        decreases |tasks| - p
      {
        p := p + 1;
      }
    }

    /** The processes considered for a task. */
    method Candidates(task: Task) returns (r: seq<nat>)
      requires Valid()
      modifies history
      ensures Valid() && forall t: nat :: history.Visits(t) == old(history.Visits(t))
      ensures Distinct(r)
      ensures forall p: nat :: p in r <==>
                p < numProcesses && ((task.basic && !task.local) || Least(old(history.Visits(task.id)), p))
    {
      if task.basic && !task.local {
        r := AllProcesses(numProcesses);
      } else {
        var visits := history.GetTaskHistory(task.id);
        r := GetPreferredProc(visits);
      }
    }

    method TrackThreads(id: nat, threads: seq<Worker>)
      modifies this`tracked
      ensures tracked == TrackAll(old(tracked), id, threads)
    {
      hide Track;
      for k := 0 to |threads|
        invariant tracked == TrackAll(old(tracked), id, threads[..k])
      {
        tracked := Track(tracked, id, threads[k]);
        assert threads[..k + 1][..k] == threads[..k];
      }
      assert threads[..|threads|] == threads;
    }

    /** Launching the next instance of a ready task, if it finds threads. */
    method TryLaunch(i: nat) returns (threads: seq<Worker>)
      requires Valid() && i < |tasks| && status[i] == READY
      modifies this`status, this`tracked, pool, history
      ensures Valid() && Taken(old(pool.workers), threads, pool.workers)
      ensures threads == [] ==> status == old(status) && Threads(tracked, tasks[i].id) == old(Threads(tracked, tasks[i].id)) && pool.workers == old(pool.workers)
      ensures threads != [] ==> status == old(status)[i := RUNNING] && Serves(tasks[i], threads) && Threads(tracked, tasks[i].id) == Elements(threads)
      ensures forall j: nat :: j != tasks[i].id ==> Threads(tracked, j) == old(Threads(tracked, j))
      ensures pool.workers <= old(pool.workers)
      ensures Launched(epochs, status) == old(Launched(epochs, status)) + if threads != [] then 1 else 0
      ensures threads == [] <==> TooFew(tasks[i], old(history.Visits(tasks[i].id)), old(pool.workers))
      ensures forall t: nat :: t != tasks[i].id ==> history.Visits(t) == old(history.Visits(t))
    {
      hide Partition, Consistent, Clean, Threads, Launched, Selected, Serves, TrackAll, Taken, Distinct, TooFew, Least;
      var task := tasks[i];
      ghost var visits := history.Visits(task.id);
      ReadyIsIdle(tasks, epochs, status, tracked, i);
      var candidates := Candidates(task);
      threads := SelectThreads(pool, numProcesses, task, candidates);
      SelectedFacts(all, old(pool.workers), tracked, threads, pool.workers, candidates, numProcesses);
      FreeInside(all, old(pool.workers), tracked);
      TooFewIs(task, visits, old(pool.workers), candidates, threads);
      if threads != [] {
        LaunchConserves(all, old(pool.workers), tracked, task.id, threads, pool.workers);
        ConsistentLaunch(tasks, epochs, status, tracked, i, TrackAll(tracked, task.id, threads));
        TrackThreads(task.id, threads);
        history.UpdateHistory(task.id, threads);
        status := status[i := RUNNING];
      }
    }

    /** An instance just launched. */
    ghost predicate Fresh(instance: Instance)
      reads this
    {
      && Serves(instance.task, instance.threads)
      && Elements(instance.threads) <= Threads(tracked, instance.task.id)
      && exists i :: 0 <= i < |tasks| == |epochs| && instance.task == tasks[i] && instance.epoch == epochs[i]
    }

    /** Going through the tasks once and launching what finds threads: a task that is
        still ready afterwards finds too few among those left. */
    method ExtractInstances() returns (instances: seq<Instance>)
      requires Valid()
      modifies this`status, this`tracked, pool, history
      ensures Valid() && pool.workers <= old(pool.workers)
      ensures forall i :: 0 <= i < |tasks| ==> status[i] == old(status)[i] || (old(status)[i] == READY && status[i] == RUNNING)
      ensures Launched(epochs, status) == old(Launched(epochs, status)) + |instances|
      ensures forall k :: 0 <= k < |instances| ==> Fresh(instances[k])
      ensures forall i: nat :: old(Threads(tracked, i)) <= Threads(tracked, i)
      ensures instances == [] ==> pool.workers == old(pool.workers)
      ensures forall i :: 0 <= i < |tasks| && status[i] == READY ==> TooFew(tasks[i], old(history.Visits(tasks[i].id)), pool.workers)
      ensures old(pool.workers) == all && (exists i :: 0 <= i < |tasks| && old(status)[i] == READY && Placeable(tasks[i])) ==> instances != []
    {
      hide Partition, Clean, Threads, Launched, Serves, Taken, TooFew, Fresh, Consistent;
      instances := LaunchAll(TaskVisits());
      forall i | 0 <= i < |tasks| && Placeable(tasks[i]) ensures !TooFew(tasks[i], old(history.Visits(tasks[i].id)), all) {
        PlaceableFits(tasks[i], old(history.Visits(tasks[i].id)), all);
      }
    }

    /** How often the task at each position visited each process. */
    ghost function TaskVisits(): (r: seq<seq<nat>>)
      requires history.Valid()
      reads this, history
      ensures |r| == |tasks| && forall i :: 0 <= i < |tasks| ==> r[i] == history.Visits(tasks[i].id)
    {
      seq(|tasks|, i requires 0 <= i < |tasks| && history.Valid() reads this, history => history.Visits(tasks[i].id))
    }

    method LaunchAll(ghost visits: seq<seq<nat>>) returns (instances: seq<Instance>)
      requires Valid() && visits == TaskVisits()
      modifies this`status, this`tracked, pool, history
      ensures Valid() && pool.workers <= old(pool.workers)
      ensures forall i :: 0 <= i < |tasks| ==> status[i] == old(status)[i] || (old(status)[i] == READY && status[i] == RUNNING)
      ensures Launched(epochs, status) == old(Launched(epochs, status)) + |instances|
      ensures forall k :: 0 <= k < |instances| ==> Fresh(instances[k])
      ensures forall i: nat :: old(Threads(tracked, i)) <= Threads(tracked, i)
      ensures instances == [] ==> pool.workers == old(pool.workers) && status == old(status)
      ensures NoneFits(tasks, status, visits, pool.workers, |tasks|)
    {
      hide Partition, Consistent, Clean, Threads, Launched, Serves, Taken, TooFew, DistinctIds, NoneFits;
      instances := [];
      NoTasksYet(tasks, status, visits, pool.workers);
      for i := 0 to |tasks|
        invariant Valid() && pool.workers <= old(pool.workers)
        invariant forall j :: 0 <= j < |tasks| ==> status[j] == old(status)[j] || (old(status)[j] == READY && status[j] == RUNNING)
        invariant Launched(epochs, status) == old(Launched(epochs, status)) + |instances|
        invariant forall k :: 0 <= k < |instances| ==> Fresh(instances[k])
        invariant forall j: nat :: old(Threads(tracked, j)) <= Threads(tracked, j)
        invariant instances == [] ==> pool.workers == old(pool.workers) && status == old(status)
        invariant forall j :: i <= j < |tasks| ==> visits[j] == history.Visits(tasks[j].id)
        invariant NoneFits(tasks, status, visits, pool.workers, i)
      {
        ghost var free, was := pool.workers, status;
        if status[i] == READY {
          ReadyIsIdle(tasks, epochs, status, tracked, i);
          var threads := TryLaunch(i);
          OtherIds(tasks, epochs, status, tracked, i);
          if threads != [] {
            instances := instances + [Instance(tasks[i], epochs[i], threads)];
          }
        }
        NoneFitsNext(tasks, was, status, visits, free, pool.workers, i);
      }
    }

    /** Whether the whole cluster would do for the task. */
    ghost predicate AllPlaceable()
      reads this`tasks
    {
      forall i :: 0 <= i < |tasks| ==> Placeable(tasks[i])
    }

    predicate Placeable(task: Task) {
      Anywhere(task) && Required(task) <= |all|
    }

    method IsFinished() returns (b: bool)
      requires Valid()
      ensures b == AllDone()
    {
      for i := 0 to |status|
        invariant forall j :: 0 <= j < i ==> status[j] == DONE
      {
        if status[i] != DONE { return false; }
      }
      b := true;
    }

    /** Any running thread. */
    method PickRunning() returns (id: nat, w: Worker)
      requires Valid() && pool.workers != all
      ensures w in Threads(tracked, id) && w in all && w !in pool.workers
    {
      IdleIsFree(all, pool.workers, tracked);
      ghost var some: nat :| Threads(tracked, some) != {};
      assert some in tracked;
      id :| id in tracked && Threads(tracked, id) != {};
      w :| w in Threads(tracked, id);
    }

    /** A valid state in which the cluster would do for every task. */
    ghost predicate Steady()
      reads this, pool, history
    {
      Valid() && AllPlaceable()
    }

    ghost function LaunchedSoFar(): nat
      reads this
    {
      if |epochs| == |status| then Launched(epochs, status) else 0
    }

    /** A run: instances are extracted now and then, at the latest when nothing runs,
        and running threads end in any order. If the cluster has threads enough for
        every task, all tasks finish, after exactly one instance for each epoch. */
    method Run() returns (launched: seq<Instance>)
      requires Steady()
      modifies this`epochs, this`status, this`tracked, pool, history
      ensures Steady() && AllDone()
      ensures |launched| + old(LaunchedSoFar()) == Work(tasks)
    {
      hide Steady, LaunchedSoFar, AllDone;
      launched := [];
      var finished := Finished();
      while !finished
        invariant Steady() && finished == AllDone()
        invariant LaunchedSoFar() == old(LaunchedSoFar()) + |launched|
        decreases Work(tasks) - LaunchedSoFar(), |all - pool.workers|, !finished
      {
        var extract: bool := *;
        if extract || pool.workers == all {
          var instances := ExtractSome();
          launched := launched + instances;
        }
        FinishSome();
        finished := Finished();
      }
      CountLaunched();
    }

    method Finished() returns (b: bool)
      requires Steady()
      ensures b == AllDone()
    {
      b := IsFinished();
    }

    /** Extracting while tasks are left: something runs afterwards. */
    method ExtractSome() returns (instances: seq<Instance>)
      requires Steady() && !AllDone()
      modifies this`status, this`tracked, pool, history
      ensures Steady() && pool.workers != all
      ensures LaunchedSoFar() == old(LaunchedSoFar()) + |instances| <= Work(tasks)
      ensures instances == [] ==> pool.workers == old(pool.workers)
    {
      hide Partition, Clean, Threads, Launched, Fresh;
      if pool.workers == all { SomeoneReady(tasks, epochs, status, tracked, all); }
      instances := ExtractInstances();
      LaunchedBound(tasks, epochs, status, tracked);
      if instances != [] {
        LaunchedIsNotIdle(instances[0]);
      }
    }

    method FinishSome()
      requires Steady() && pool.workers != all
      modifies this`epochs, this`status, this`tracked, pool
      ensures Steady() && |all - pool.workers| < |all - old(pool.workers)|
      ensures LaunchedSoFar() == old(LaunchedSoFar()) <= Work(tasks)
    {
      hide Partition, Clean, Threads, Launched, EpochAfter, StatusAfter, AllPlaceable;
      var id, w := PickRunning();
      FinishThread(id, w);
      MoreFree(all, old(pool.workers), w);
      LaunchedBound(tasks, epochs, status, tracked);
    }

    lemma CountLaunched()
      requires Steady() && AllDone()
      ensures LaunchedSoFar() == Work(tasks)
    {
      LaunchedBound(tasks, epochs, status, tracked);
    }

    lemma LaunchedIsNotIdle(instance: Instance)
      requires Valid() && Fresh(instance)
      ensures pool.workers != all
    {
      IdleIsFree(all, pool.workers, tracked);
      assert instance.threads[0] in Elements(instance.threads);
    }
  }

  lemma PlaceableFits(task: Task, visits: seq<nat>, all: set<Worker>)
    requires Anywhere(task) && 0 < Required(task) <= |all|
    ensures !TooFew(task, visits, all)
  {
    assert all == set w | w in all && (task.basic || Least(visits, w.pid));
  }

  lemma FreeInside(all: set<Worker>, free: set<Worker>, t: Table)
    requires Partition(all, free, t)
    ensures free <= all
  {
  }

  lemma OtherIds(tasks: seq<Task>, epochs: seq<nat>, status: seq<nat>, t: Table, i: nat)
    requires Consistent(tasks, epochs, status, t) && i < |tasks|
    ensures forall j :: 0 <= j < |tasks| && j != i ==> tasks[j].id != tasks[i].id
  {
  }

  lemma {:induction false} NothingLaunched(epochs: seq<nat>, status: seq<nat>)
    requires |epochs| == |status| && forall i :: 0 <= i < |epochs| ==> epochs[i] == 0 && status[i] == READY
    ensures Launched(epochs, status) == 0
  {
    if epochs != [] { NothingLaunched(epochs[..|epochs| - 1], status[..|epochs| - 1]); }
  }

  lemma TaskOf(tasks: seq<Task>, epochs: seq<nat>, status: seq<nat>, t: Table, id: nat) returns (i: nat)
    requires Consistent(tasks, epochs, status, t) && Threads(t, id) != {}
    ensures i < |tasks| == |epochs| == |status| && tasks[i].id == id && DistinctIds(tasks)
  {
    hide Threads;
    i :| 0 <= i < |tasks| && tasks[i].id == id;
  }

  lemma ReadyIsIdle(tasks: seq<Task>, epochs: seq<nat>, status: seq<nat>, t: Table, i: nat)
    requires Consistent(tasks, epochs, status, t) && i < |tasks|
    ensures |tasks| == |epochs| == |status| && (status[i] == READY ==> Threads(t, tasks[i].id) == {})
  {
  }

  lemma LaunchedBound(tasks: seq<Task>, epochs: seq<nat>, status: seq<nat>, t: Table)
    requires Consistent(tasks, epochs, status, t)
    ensures Launched(epochs, status) <= Work(tasks)
    ensures (forall i :: 0 <= i < |tasks| ==> status[i] == DONE) ==> Launched(epochs, status) == Work(tasks)
  {
    hide Threads;
    LaunchedWithin(tasks, epochs, status);
  }

  /** When nothing runs and not all is done, some task is ready. */
  lemma SomeoneReady(tasks: seq<Task>, epochs: seq<nat>, status: seq<nat>, t: Table, all: set<Worker>)
    requires Consistent(tasks, epochs, status, t) && Partition(all, all, t)
    requires exists i :: 0 <= i < |tasks| && status[i] != DONE
    ensures exists i :: 0 <= i < |tasks| && status[i] == READY
  {
  }

  lemma MoreFree(all: set<Worker>, free: set<Worker>, w: Worker)
    requires w in all && w !in free
    ensures |all - (free + {w})| < |all - free|
  {
    assert all - (free + {w}) == (all - free) - {w};
  }

  lemma SameTask(tasks: seq<Task>, i: nat, j: nat)
    requires DistinctIds(tasks) && i < |tasks| && j < |tasks| && tasks[i].id == tasks[j].id
    ensures i == j
  {
  }

  lemma RemoveRow(t: Table, id: nat)
    requires Clean(t) && id in t && t[id] == map[]
    ensures Clean(t - {id}) && forall i: nat :: Threads(t - {id}, i) == Threads(t, i)
  {
  }

}

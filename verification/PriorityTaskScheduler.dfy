// The scheduler that serves tasks by how often they were turned away, and first those
// that have waited too long.
module PriorityTaskScheduler {
  import opened AvailableWorkers
  import opened ThreadSelection
  import opened Tracking
  import opened TaskManager

  /** One task considered in a round: the processes it prefers and the threads it
      got, if any. */
  datatype Step = Step(id: nat, angry: bool, preferred: seq<nat>, threads: seq<Worker>)

  /** The processes locked by the angry tasks that found no threads. */
  function Locked(trace: seq<Step>): set<nat> {
    if trace == [] then {}
    else
      var s := trace[|trace| - 1];
      Locked(trace[..|trace| - 1]) + (if s.angry && s.threads == [] then Elements(s.preferred) else {})
  }

  /** Every task got its threads on processes it prefers that no angry task before it
      had locked. */
  ghost predicate Respects(trace: seq<Step>) {
    forall k :: 0 <= k < |trace| ==> Allowed(trace[k], Locked(trace[..k]))
  }

  predicate Allowed(s: Step, lock: set<nat>) {
    forall i :: 0 <= i < |s.threads| ==> s.threads[i].pid in s.preferred && s.threads[i].pid !in lock
  }

  /** The instances launched, in order. */
  function InstancesOf(trace: seq<Step>, tasks: seq<Task>, epochs: seq<nat>): seq<Instance>
    requires |tasks| == |epochs| && forall k :: 0 <= k < |trace| ==> trace[k].id < |tasks|
  {
    if trace == [] then []
    else
      var n := |trace| - 1;
      var s := trace[n];
      InstancesOf(trace[..n], tasks, epochs) + (if s.threads != [] then [Instance(tasks[s.id], epochs[s.id], s.threads)] else [])
  }

  /** What a step does to its task. */
  ghost predicate Outcome(s: Step, status0: seq<nat>, rejected0: seq<nat>, status: seq<nat>, rejected: seq<nat>) {
    && s.id < |status0| == |rejected0| == |status| == |rejected|
    && status0[s.id] == (if s.angry then ANGRY else READY)
    && if s.threads != [] then status[s.id] == RUNNING && rejected[s.id] == 0
       else if s.angry then status[s.id] == ANGRY && rejected[s.id] == rejected0[s.id]
       else && rejected[s.id] == rejected0[s.id] + 1
            && status[s.id] == (if rejected[s.id] == ANGRY_THRESHOLD then ANGRY else READY)
  }

  /** What a round does to all tasks. */
  ghost predicate Outcomes(trace: seq<Step>, status0: seq<nat>, rejected0: seq<nat>, status: seq<nat>, rejected: seq<nat>) {
    && |status0| == |rejected0| == |status| == |rejected|
    && (forall k :: 0 <= k < |trace| ==> Outcome(trace[k], status0, rejected0, status, rejected))
    && forall id :: 0 <= id < |status| && !Considered(trace, id) ==> status[id] == status0[id] && rejected[id] == rejected0[id]
  }

  predicate Considered(trace: seq<Step>, id: nat) {
    exists k :: 0 <= k < |trace| && trace[k].id == id
  }

  /** The tasks with threads are those that run. */
  ghost predicate Linked(t: Table, status: seq<nat>) {
    forall id: nat :: Threads(t, id) != {} <==> id < |status| && status[id] == RUNNING
  }

  lemma LinkedUpdate(t: Table, t': Table, status: seq<nat>, id: nat, s: nat)
    requires Linked(t, status) && id < |status|
    requires forall i: nat :: i != id ==> Threads(t', i) == Threads(t, i)
    requires Threads(t', id) != {} <==> s == RUNNING
    ensures Linked(t', status[id := s])
  {
  }

  /** Appending a step to a trace. */
  lemma TraceStep(trace: seq<Step>, s: Step, tasks: seq<Task>, epochs: seq<nat>)
    requires Respects(trace) && Allowed(s, Locked(trace))
    requires |tasks| == |epochs| && s.id < |tasks| && forall k :: 0 <= k < |trace| ==> trace[k].id < |tasks|
    ensures Respects(trace + [s])
    ensures Locked(trace + [s]) == Locked(trace) + (if s.angry && s.threads == [] then Elements(s.preferred) else {})
    ensures InstancesOf(trace + [s], tasks, epochs) ==
            InstancesOf(trace, tasks, epochs) + (if s.threads != [] then [Instance(tasks[s.id], epochs[s.id], s.threads)] else [])
  {
    hide Allowed;
    var all := trace + [s];
    assert all[..|all| - 1] == trace;
    RespectsStep(trace, s);
  }

  lemma RespectsStep(trace: seq<Step>, s: Step)
    requires Respects(trace) && Allowed(s, Locked(trace))
    ensures Respects(trace + [s])
  {
    hide Allowed, Locked;
    var all := trace + [s];
    forall k | 0 <= k < |all| ensures Allowed(all[k], Locked(all[..k])) {
      assert all[..k] == trace[..k];
      if k == |trace| { assert trace[..k] == trace; }
    }
  }

  /** The angry tasks before position i have been considered: those with threads in
      the trace have them, and nothing else changed. */
  ghost predicate Tried(t: Table, status: seq<nat>, angry: seq<nat>, trace: seq<Step>) {
    && |trace| <= |angry|
    && (forall k :: 0 <= k < |trace| ==> trace[k].id == angry[k] && trace[k].angry)
    && (forall k :: 0 <= k < |trace| ==> Threads(t, trace[k].id) == Elements(trace[k].threads) && (trace[k].threads == [] <==> Elements(trace[k].threads) == {}))
    && forall id: nat :: !Considered(trace, id) ==> (Threads(t, id) != {} <==> id < |status| && status[id] == RUNNING)
  }

  lemma TriedStep(t: Table, status: seq<nat>, angry: seq<nat>, trace: seq<Step>, t': Table, s: Step)
    requires Tried(t, status, angry, trace) && Distinct(angry) && |trace| < |angry|
    requires s.id == angry[|trace|] && s.angry && Threads(t', s.id) == Elements(s.threads)
    requires s.threads != [] <==> Elements(s.threads) != {}
    requires forall i: nat :: i != s.id ==> Threads(t', i) == Threads(t, i)
    ensures Tried(t', status, angry, trace + [s])
  {
    hide Threads, Elements;
    var all := trace + [s];
    forall id: nat ensures Considered(all, id) <==> Considered(trace, id) || id == s.id {
      ConsideredStep(trace, s, id);
    }
    hide Considered;
  }

  lemma ConsideredStep(trace: seq<Step>, s: Step, id: nat)
    ensures Considered(trace + [s], id) <==> Considered(trace, id) || id == s.id
  {
    var all := trace + [s];
    if Considered(trace, id) {
      var k :| 0 <= k < |trace| && trace[k].id == id;
      assert all[k].id == id;
    }
    if id == s.id { assert all[|trace|].id == id; }
  }

  // ------------------------------------------------------------ what a step gets

  /** The processes a task prefers: all of them for an angry task that may use any,
      and else those it visited least. */
  ghost predicate Prefers(s: Step, task: Task, processes: nat, visits: seq<nat>) {
    && |visits| == processes
    && forall p: nat :: p in s.preferred <==>
         p < processes && ((s.angry && task.basic && !task.local) || forall q: nat :: q < processes ==> visits[p] <= visits[q])
  }

  /** The threads a task gets out of the free ones, and when it gets none. */
  ghost predicate Gets(task: Task, preferred: seq<nat>, lock: set<nat>, free: set<Worker>, threads: seq<Worker>) {
    var n := if task.basic && task.numWorkers == 0 then 1 else task.numWorkers;
    && (threads != [] ==> Serves(task, threads))
    && Elements(threads) <= free
    && (forall i :: 0 <= i < |threads| ==> threads[i].pid in preferred && threads[i].pid !in lock)
    && (threads == [] <==>
        if task.basic && task.local then forall p :: p in preferred && p !in lock ==> |set w | w in free && w.pid == p| < n
        else n == 0 || |set w | w in free && w.pid in preferred && w.pid !in lock| < n)
  }

  lemma GetsFree(task: Task, preferred: seq<nat>, lock: set<nat>, free: set<Worker>, threads: seq<Worker>)
    requires Gets(task, preferred, lock, free, threads)
    ensures forall i :: 0 <= i < |threads| ==> threads[i] in free
  {
    forall i | 0 <= i < |threads| ensures threads[i] in free {
      assert threads[i] in Elements(threads);
    }
  }

  lemma GetsIs(task: Task, preferred: seq<nat>, lock: set<nat>, free: set<Worker>, candidates: seq<nat>, threads: seq<Worker>, after: set<Worker>)
    requires forall p :: p in candidates <==> p in preferred && p !in lock
    requires Selected(free, threads, after, candidates) && (threads != [] ==> Serves(task, threads))
    requires !(task.basic && task.local) ==> (threads == [] <==> Required(task) == 0 || |Of(free, candidates)| < Required(task))
    requires task.basic && task.local ==> (threads == [] <==> forall p :: p in candidates ==> |Local(free, p)| < Required(task))
    ensures Gets(task, preferred, lock, free, threads) && after == free - Elements(threads)
  {
    hide Serves, Distinct;
    assert Of(free, candidates) == set w | w in free && w.pid in preferred && w.pid !in lock;
    forall p: nat ensures Local(free, p) == set w | w in free && w.pid == p { }
    hide Of, Local;
  }

  /** The threads no step has taken. */
  function FreeAfter(free: set<Worker>, trace: seq<Step>): (r: set<Worker>)
    ensures forall w :: w in r <==> w in free && forall j :: 0 <= j < |trace| ==> w !in trace[j].threads
  {
    set w | w in free && forall j :: 0 <= j < |trace| ==> w !in trace[j].threads
  }

  /** Whether a step gave the task threads of the process. */
  ghost predicate Gave(trace: seq<Step>, id: nat, p: nat) {
    exists k, i :: 0 <= k < |trace| && trace[k].id == id && 0 <= i < |trace[k].threads| && trace[k].threads[i].pid == p
  }

  /** The locked processes are those preferred by an angry step that found nothing. */
  lemma {:induction false} LockedIs(trace: seq<Step>, p: nat)
    ensures p in Locked(trace) <==> exists j :: 0 <= j < |trace| && trace[j].angry && trace[j].threads == [] && p in trace[j].preferred
  {
    if trace != [] {
      var n := |trace| - 1;
      LockedIs(trace[..n], p);
      assert p in Elements(trace[n].preferred) <==> p in trace[n].preferred;
      if j :| 0 <= j < n && trace[j].angry && trace[j].threads == [] && p in trace[j].preferred {
        assert trace[..n][j] == trace[j];
      }
    }
  }

  lemma StepSpelled(trace: seq<Step>, k: nat, tasks: seq<Task>, processes: nat, visits0: seq<seq<nat>>, free0: set<Worker>, visits: seq<seq<nat>>, free: set<Worker>)
    requires Account(trace, tasks, processes, visits0, free0, visits, free) && k < |trace|
    ensures trace[k].id < |tasks| && trace[k].id < |visits0|
    ensures Prefers(trace[k], tasks[trace[k].id], processes, visits0[trace[k].id])
    ensures Gets(tasks[trace[k].id], trace[k].preferred, Locked(trace[..k]), FreeAfter(free0, trace[..k]), trace[k].threads)
  {
    hide Gets, Prefers, FreeAfter, Locked;
    assert Choice(trace[k], tasks, processes, visits0, FreeAfter(free0, trace[..k]), Locked(trace[..k]));
  }

  lemma AccountLeft(trace: seq<Step>, tasks: seq<Task>, processes: nat, visits0: seq<seq<nat>>, free0: set<Worker>, visits: seq<seq<nat>>, free: set<Worker>)
    requires Account(trace, tasks, processes, visits0, free0, visits, free)
    requires forall id: nat :: id < |visits0| ==> |visits0[id]| == processes
    ensures free == set w | w in free0 && forall j :: 0 <= j < |trace| ==> w !in trace[j].threads
    ensures |visits| == |visits0| && forall id: nat :: id < |visits| ==> |visits[id]| == processes
    ensures forall id: nat, p: nat :: id < |visits| && p < processes ==> visits[id][p] == visits0[id][p] + (if Gave(trace, id, p) then 1 else 0)
  {
    hide Chosen;
    forall id: nat, p: nat | id < |visits| && p < processes
      ensures |visits[id]| == processes && visits[id][p] == visits0[id][p] + (if Gave(trace, id, p) then 1 else 0)
    {
      if Considered(trace, id) {
        var k :| 0 <= k < |trace| && trace[k].id == id;
        assert Visited(trace[k].threads, visits0[id], visits[id]);
      }
    }
  }

  lemma FreeStep(free: set<Worker>, trace: seq<Step>, s: Step)
    ensures FreeAfter(free, trace + [s]) == FreeAfter(free, trace) - Elements(s.threads)
  {
    var all := trace + [s];
    forall w ensures w in FreeAfter(free, all) <==> w in FreeAfter(free, trace) && w !in s.threads {
      assert all[|trace|] == s;
      assert forall j :: 0 <= j < |trace| ==> all[j] == trace[j];
    }
  }

  ghost predicate Choice(s: Step, tasks: seq<Task>, processes: nat, visits: seq<seq<nat>>, free: set<Worker>, lock: set<nat>) {
    && s.id < |tasks| && s.id < |visits|
    && Prefers(s, tasks[s.id], processes, visits[s.id])
    && Gets(tasks[s.id], s.preferred, lock, free, s.threads)
  }

  /** Every step gets what the steps before it have left. */
  ghost predicate Chosen(trace: seq<Step>, tasks: seq<Task>, processes: nat, visits: seq<seq<nat>>, free: set<Worker>) {
    forall k :: 0 <= k < |trace| ==> Choice(trace[k], tasks, processes, visits, FreeAfter(free, trace[..k]), Locked(trace[..k]))
  }

  /** An instance counts once for each process that gave it threads. */
  ghost predicate Visited(threads: seq<Worker>, was: seq<nat>, now: seq<nat>) {
    && |now| == |was|
    && forall p: nat :: p < |was| ==> now[p] == was[p] + if exists i :: 0 <= i < |threads| && threads[i].pid == p then 1 else 0
  }

  ghost predicate Counted(trace: seq<Step>, was: seq<seq<nat>>, now: seq<seq<nat>>) {
    && |was| == |now|
    && (forall k :: 0 <= k < |trace| ==> trace[k].id < |was| && Visited(trace[k].threads, was[trace[k].id], now[trace[k].id]))
    && forall id: nat :: id < |was| && !Considered(trace, id) ==> now[id] == was[id]
  }

  /** The account of a round so far: what its steps got, and what they left. */
  ghost predicate Account(trace: seq<Step>, tasks: seq<Task>, processes: nat, visits0: seq<seq<nat>>, free0: set<Worker>, visits: seq<seq<nat>>, free: set<Worker>) {
    && Chosen(trace, tasks, processes, visits0, free0)
    && Counted(trace, visits0, visits)
    && free == FreeAfter(free0, trace)
  }

  lemma AccountStart(tasks: seq<Task>, processes: nat, visits0: seq<seq<nat>>, free0: set<Worker>)
    ensures Account([], tasks, processes, visits0, free0, visits0, free0)
  {
  }

  lemma AccountStep(trace: seq<Step>, s: Step, tasks: seq<Task>, processes: nat, visits0: seq<seq<nat>>, free0: set<Worker>,
                    visits: seq<seq<nat>>, free: set<Worker>, visits': seq<seq<nat>>, free': set<Worker>)
    requires Account(trace, tasks, processes, visits0, free0, visits, free) && !Considered(trace, s.id)
    requires Choice(s, tasks, processes, visits, free, Locked(trace))
    requires free' == free - Elements(s.threads)
    requires |visits'| == |visits| && Visited(s.threads, visits[s.id], visits'[s.id])
    requires forall id: nat :: id < |visits| && id != s.id ==> visits'[id] == visits[id]
    ensures Account(trace + [s], tasks, processes, visits0, free0, visits', free')
  {
    FreeStep(free0, trace, s);
    CountedStep(trace, s, visits0, visits, visits');
    ChosenStep(trace, s, tasks, processes, visits0, free0, visits);
  }

  lemma ChosenStep(trace: seq<Step>, s: Step, tasks: seq<Task>, processes: nat, visits0: seq<seq<nat>>, free0: set<Worker>, visits: seq<seq<nat>>)
    requires Chosen(trace, tasks, processes, visits0, free0) && Counted(trace, visits0, visits) && !Considered(trace, s.id)
    requires Choice(s, tasks, processes, visits, FreeAfter(free0, trace), Locked(trace))
    ensures Chosen(trace + [s], tasks, processes, visits0, free0)
  {
    hide FreeAfter, Locked, Gets, Prefers, Considered;
    var all := trace + [s];
    assert visits0[s.id] == visits[s.id];
    forall k | 0 <= k < |all| ensures Choice(all[k], tasks, processes, visits0, FreeAfter(free0, all[..k]), Locked(all[..k])) {
      assert all[..k] == trace[..k];
      if k == |trace| { assert trace[..k] == trace; }
    }
  }

  lemma CountedStep(trace: seq<Step>, s: Step, visits0: seq<seq<nat>>, visits: seq<seq<nat>>, visits': seq<seq<nat>>)
    requires Counted(trace, visits0, visits) && !Considered(trace, s.id)
    requires s.id < |visits| == |visits'| && Visited(s.threads, visits[s.id], visits'[s.id])
    requires forall id: nat :: id < |visits| && id != s.id ==> visits'[id] == visits[id]
    ensures Counted(trace + [s], visits0, visits')
  {
    hide Visited;
    var all := trace + [s];
    forall id: nat ensures Considered(all, id) <==> Considered(trace, id) || id == s.id { ConsideredStep(trace, s, id); }
    forall k | 0 <= k < |all| ensures all[k].id < |visits0| && Visited(all[k].threads, visits0[all[k].id], visits'[all[k].id]) {
      if k < |trace| { assert Considered(trace, trace[k].id); }
    }
    hide Considered;
  }

  class PriorityTaskScheduler {
    const numProcesses: nat
    const all: set<Worker>
    const pool: AvailableWorkers
    const history: HistoryManager
    const manager: TaskManager

    /** All but the link between status and threads. */
    ghost predicate Sound()
      reads this, pool, history, manager
    {
      && pool.Valid() && history.Valid() && history.numProcesses == numProcesses > 0
      && manager.Valid() && Partition(all, pool.workers, manager.tracked)
      && forall w :: w in all ==> w.pid < numProcesses
    }

    ghost predicate Valid()
      reads this, pool, history, manager
    {
      Sound() && Linked(manager.tracked, manager.taskStatus)
    }

    /** How often each task visited each process. */
    ghost function Seen(): (r: seq<seq<nat>>)
      requires history.Valid()
      reads this, manager, history
      ensures |r| == |manager.tasks| && forall id: nat :: id < |r| ==> r[id] == history.Visits(id)
    {
      seq(|manager.tasks|, id requires id >= 0 && history.Valid() reads history => history.Visits(id))
    }

    constructor (numProcesses: nat, cluster: set<Worker>, history: HistoryManager)
      requires numProcesses > 0 && forall w :: w in cluster ==> w.pid < numProcesses
      requires history.Valid() && history.numProcesses == numProcesses
      ensures Valid() && fresh(pool) && fresh(manager) && this.history == history && manager.tasks == []
      ensures all == cluster && pool.workers == cluster && this.numProcesses == numProcesses
    {
      this.numProcesses := numProcesses;
      all := cluster;
      pool := new AvailableWorkers();
      manager := new TaskManager();
      this.history := history;
      new;
      Fill(pool, cluster);
    }

    method InitTasks(tasks: seq<Task>)
      requires Valid()
      requires forall i :: 0 <= i < |tasks| ==> tasks[i].id == |manager.tasks| + i && tasks[i].totalEpoch >= 1
      modifies manager
      ensures Valid() && manager.tasks == old(manager.tasks) + tasks && manager.tracked == old(manager.tracked)
    {
      hide Partition, Threads;
      manager.AddTasks(tasks);
    }

    method IsFinished() returns (b: bool)
      requires Valid()
      ensures b <==> forall id :: 0 <= id < |manager.tasks| ==> manager.taskStatus[id] == FINISHED
    {
      b := manager.IsFinished();
    }

    method FinishThread(id: nat, w: Worker)
      requires Valid() && w in Threads(manager.tracked, id)
      modifies pool, manager
      ensures Valid() && pool.workers == old(pool.workers) + {w}
      ensures forall i: nat :: Threads(manager.tracked, i) == old(Threads(manager.tracked, i)) - (if i == id then {w} else {})
      ensures manager.tasks == old(manager.tasks) && manager.rejectedTimes == old(manager.rejectedTimes) && manager.angryList == old(manager.angryList)
    {
      hide Partition, Threads, Clean, Kept;
      ghost var status := manager.taskStatus;
      pool.AddWorker(w.pid, w.tid);
      manager.FinishThread(id, w);
      FinishConserves(all, old(pool.workers), old(manager.tracked), id, w, manager.tracked);
      LinkedUpdate(old(manager.tracked), manager.tracked, status, id, manager.taskStatus[id]);
      assert manager.taskStatus == status[id := manager.taskStatus[id]];
    }

    static method Unlocked(preferred: seq<nat>, lock: set<nat>) returns (r: seq<nat>)
      requires Distinct(preferred)
      ensures Distinct(r) && forall p :: p in r <==> p in preferred && p !in lock
    {
      r := [];
      for i := 0 to |preferred|
        invariant Distinct(r) && forall p :: p in r <==> p in preferred[..i] && p !in lock
      {
        assert preferred[..i + 1] == preferred[..i] + [preferred[i]];
        assert preferred[i] !in preferred[..i];
        if preferred[i] !in lock {
          r := r + [preferred[i]];
        }
      }
      assert preferred[..|preferred|] == preferred;
    }

    /** Giving a task without threads some on unlocked processes it prefers. It gets
        none exactly when those have too few: for a local task each of them, and else
        all of them together. */
    method Consider(id: nat, preferred: seq<nat>, lock: set<nat>) returns (threads: seq<Worker>)
      requires Sound() && id < |manager.tasks| && Threads(manager.tracked, id) == {}
      requires Distinct(preferred) && forall p :: p in preferred ==> p < numProcesses
      modifies pool, manager`tracked, history
      ensures Sound()
      ensures Threads(manager.tracked, id) == Elements(threads) && (threads != [] <==> Elements(threads) != {})
      ensures forall i: nat :: i != id ==> Threads(manager.tracked, i) == old(Threads(manager.tracked, i))
      ensures Gets(manager.tasks[id], preferred, lock, old(pool.workers), threads)
      ensures pool.workers == old(pool.workers) - Elements(threads)
      ensures threads != [] ==> Serves(manager.tasks[id], threads)
      ensures forall i :: 0 <= i < |threads| ==> threads[i] in old(pool.workers) && threads[i].pid in preferred && threads[i].pid !in lock
      ensures var task := manager.tasks[id];
              var n := if task.basic && task.numWorkers == 0 then 1 else task.numWorkers;
              threads == [] <==>
                if task.basic && task.local then
                  forall p :: p in preferred && p !in lock ==> |set w | w in old(pool.workers) && w.pid == p| < n
                else n == 0 || |set w | w in old(pool.workers) && w.pid in preferred && w.pid !in lock| < n
      ensures forall i: nat :: i != id ==> history.Visits(i) == old(history.Visits(i))
      ensures Visited(threads, old(history.Visits(id)), history.Visits(id))
    {
      hide Partition, Threads, Clean, Kept, Serves, TrackAll, Distinct, Visited;
      threads := Assign(id, preferred, lock);
      forall i | 0 <= i < |threads| ensures threads[i] in old(pool.workers) {
        assert threads[i] in Elements(threads);
      }
    }

    method Assign(id: nat, preferred: seq<nat>, lock: set<nat>) returns (threads: seq<Worker>)
      requires Sound() && id < |manager.tasks| && Threads(manager.tracked, id) == {}
      requires Distinct(preferred) && forall p :: p in preferred ==> p < numProcesses
      modifies pool, manager`tracked, history
      ensures Sound()
      ensures Threads(manager.tracked, id) == Elements(threads) && (threads != [] <==> Elements(threads) != {})
      ensures forall i: nat :: i != id ==> Threads(manager.tracked, i) == old(Threads(manager.tracked, i))
      ensures Gets(manager.tasks[id], preferred, lock, old(pool.workers), threads)
      ensures pool.workers == old(pool.workers) - Elements(threads)
      ensures forall i: nat :: i != id ==> history.Visits(i) == old(history.Visits(i))
      ensures Visited(threads, old(history.Visits(id)), history.Visits(id))
    {
      hide Partition, Threads, Clean, Kept, Serves, TrackAll, Distinct, Selected, Taken, Gets, Visited;
      threads := Pick(manager.tasks[id], preferred, lock);
      ghost var visits := history.Visits(id);
      if threads != [] {
        LaunchConserves(all, old(pool.workers), manager.tracked, id, threads, pool.workers);
        manager.Record(id, threads);
        history.UpdateHistory(id, threads);
      }
      VisitedIs(threads, visits, history.Visits(id));
    }

    /** Threads out of the pool, on unlocked processes the task prefers. */
    method Pick(task: Task, preferred: seq<nat>, lock: set<nat>) returns (threads: seq<Worker>)
      requires Sound() && Distinct(preferred) && forall p :: p in preferred ==> p < numProcesses
      modifies pool
      ensures pool.Valid() && Taken(old(pool.workers), threads, pool.workers)
      ensures Gets(task, preferred, lock, old(pool.workers), threads)
      ensures pool.workers == old(pool.workers) - Elements(threads)
      ensures forall k :: 0 <= k < |threads| ==> threads[k].pid < numProcesses
      ensures threads == [] <==> Elements(threads) == {}
      ensures threads == [] ==> pool.workers == old(pool.workers)
    {
      hide Partition, Threads, Clean, Kept, Serves, Distinct, Selected, Taken, Gets;
      var candidates := Unlocked(preferred, lock);
      threads := SelectThreads(pool, numProcesses, task, candidates);
      SelectedFacts(all, old(pool.workers), manager.tracked, threads, pool.workers, candidates, numProcesses);
      SelectedWhere(old(pool.workers), threads, pool.workers, candidates);
      GetsIs(task, preferred, lock, old(pool.workers), candidates, threads, pool.workers);
    }

    /** The processes considered for an angry task: all of them when it may use any,
        and else those it visited least. */
    method AngryProcesses(id: nat) returns (preferred: seq<nat>)
      requires Sound() && id < |manager.tasks|
      modifies history
      ensures Sound() && Distinct(preferred) && forall i: nat :: history.Visits(i) == old(history.Visits(i))
      ensures var task, visits := manager.tasks[id], old(history.Visits(id));
              forall p: nat :: p in preferred <==>
                p < numProcesses && ((task.basic && !task.local) || forall q: nat :: q < numProcesses ==> visits[p] <= visits[q])
    {
      hide Partition, Threads, Clean, Kept;
      var task := manager.tasks[id];
      if task.basic && !task.local {
        preferred := AllProcesses(numProcesses);
      } else {
        preferred := Preferred(id);
      }
    }

    /** The processes the task visited least. */
    method Preferred(id: nat) returns (preferred: seq<nat>)
      requires Sound() && id < |manager.tasks|
      modifies history
      ensures Sound() && Distinct(preferred) && forall i: nat :: history.Visits(i) == old(history.Visits(i))
      ensures var visits := old(history.Visits(id));
              forall p: nat :: p in preferred <==> p < numProcesses && forall q: nat :: q < numProcesses ==> visits[p] <= visits[q]
    {
      hide Partition, Threads, Clean, Kept;
      var visits := history.GetTaskHistory(id);
      preferred := GetPreferredProc(visits);
    }

    /** Serving one task: the processes it prefers, the threads it gets and the
        account of the round with it. */
    method Serve(id: nat, angry: bool, lock: set<nat>, soFar: seq<Instance>, ghost trace: seq<Step>, ghost visits0: seq<seq<nat>>, ghost free0: set<Worker>)
      returns (preferred: seq<nat>, threads: seq<Worker>, instances: seq<Instance>, ghost s: Step)
      requires Sound() && id < |manager.tasks| && Threads(manager.tracked, id) == {}
      requires Respects(trace) && lock == Locked(trace) && !Considered(trace, id)
      requires forall k :: 0 <= k < |trace| ==> trace[k].id < |manager.tasks|
      requires soFar == InstancesOf(trace, manager.tasks, manager.epochs)
      requires Account(trace, manager.tasks, numProcesses, visits0, free0, Seen(), pool.workers)
      modifies pool, manager`tracked, history
      ensures Sound() && s == Step(id, angry, preferred, threads)
      ensures Threads(manager.tracked, id) == Elements(threads) && (threads != [] <==> Elements(threads) != {})
      ensures forall i: nat :: i != id ==> Threads(manager.tracked, i) == old(Threads(manager.tracked, i))
      ensures Respects(trace + [s])
      ensures Locked(trace + [s]) == lock + (if angry && threads == [] then Elements(preferred) else {})
      ensures forall k :: 0 <= k < |trace + [s]| ==> (trace + [s])[k].id < |manager.tasks|
      ensures instances == InstancesOf(trace + [s], manager.tasks, manager.epochs)
      ensures Account(trace + [s], manager.tasks, numProcesses, visits0, free0, Seen(), pool.workers)
    {
      hide Partition, Threads, Clean, Kept, Serves, Locked, Allowed, Respects, Elements, Distinct, InstancesOf, Considered, Account, Visited, Gets, Linked;
      ghost var visits := Seen();
      if angry {
        preferred := AngryProcesses(id);
      } else {
        preferred := Preferred(id);
      }
      threads := Consider(id, preferred, lock);
      instances := if threads != [] then soFar + [Instance(manager.tasks[id], manager.epochs[id], threads)] else soFar;
      s := Step(id, angry, preferred, threads);
      StepAllowed(s, lock);
      TraceStep(trace, s, manager.tasks, manager.epochs);
      IdsStep(trace, s, |manager.tasks|);
      AccountStep(trace, s, manager.tasks, numProcesses, visits0, free0, visits, old(pool.workers), Seen(), pool.workers);
    }

    /** Angry tasks first, longest waiting first. One that finds no threads locks the
        processes it prefers. */
    method TryAngry() returns (instances: seq<Instance>, lock: set<nat>, success: seq<nat>, ghost trace: seq<Step>)
      requires Valid()
      modifies pool, manager`tracked, history
      ensures Sound() && Tried(manager.tracked, manager.taskStatus, manager.angryList, trace) && |trace| == |manager.angryList|
      ensures Respects(trace) && lock == Locked(trace) && success == Successes(trace)
      ensures forall k :: 0 <= k < |trace| ==> trace[k].id < |manager.tasks|
      ensures instances == InstancesOf(trace, manager.tasks, manager.epochs)
      ensures Account(trace, manager.tasks, numProcesses, old(Seen()), old(pool.workers), Seen(), pool.workers)
    {
      hide Partition, Threads, Clean, Kept, Tried, Linked, Locked, Allowed, Respects, Elements, Distinct, Successes, InstancesOf, Account, Considered;
      instances, lock, success, trace := [], {}, [], [];
      TriedStart(manager.tracked, manager.taskStatus, manager.angryList);
      EmptyTrace(manager.tasks, manager.epochs);
      AccountStart(manager.tasks, numProcesses, Seen(), pool.workers);
      for i := 0 to |manager.angryList|
        modifies pool, manager`tracked, history
        invariant Sound() && |trace| == i && Tried(manager.tracked, manager.taskStatus, manager.angryList, trace)
        invariant Respects(trace) && lock == Locked(trace) && success == Successes(trace)
        invariant forall k :: 0 <= k < |trace| ==> trace[k].id < |manager.tasks|
        invariant instances == InstancesOf(trace, manager.tasks, manager.epochs)
        invariant Account(trace, manager.tasks, numProcesses, old(Seen()), old(pool.workers), Seen(), pool.workers)
      {
        var id := manager.angryList[i];
        NextIsIdle(manager.tracked, manager.taskPriority, manager.taskStatus, manager.rejectedTimes, manager.angryList, trace);
        ghost var before := manager.tracked;
        var preferred, threads;
        ghost var s;
        preferred, threads, instances, s := Serve(id, true, lock, instances, trace, old(Seen()), old(pool.workers));
        if threads != [] {
          success := success + [id];
        } else {
          lock := lock + Elements(preferred);
        }
        SuccessStep(trace, s);
        TriedStep(before, manager.taskStatus, manager.angryList, trace, manager.tracked, s);
        trace := trace + [s];
      }
    }

    /** The angry tasks that got threads run from now on. */
    method CommitAngry(success: seq<nat>, ghost trace: seq<Step>)
      requires Sound() && Tried(manager.tracked, manager.taskStatus, manager.angryList, trace) && |trace| == |manager.angryList|
      requires success == Successes(trace)
      modifies manager`taskStatus, manager`rejectedTimes, manager`taskPriority, manager`angryList
      ensures Valid() && InOrder(manager.angryList, old(manager.angryList))
      ensures Outcomes(trace, old(manager.taskStatus), old(manager.rejectedTimes), manager.taskStatus, manager.rejectedTimes)
    {
      hide Partition, Threads, Clean, Kept, Tried, Linked, Outcomes, InOrder;
      InOrderSelf(manager.angryList);
      ghost var status0, rejected0 := manager.taskStatus, manager.rejectedTimes;
      AngryFacts(manager.tracked, manager.taskPriority, status0, rejected0, manager.angryList, trace);
      for j := 0 to |success|
        modifies manager`taskStatus, manager`rejectedTimes, manager`taskPriority, manager`angryList
        invariant Sound() && Committed(success[..j], status0, rejected0, manager.taskStatus, manager.rejectedTimes)
        invariant InOrder(manager.angryList, old(manager.angryList))
      {
        assert success[j] in success;
        assert success[..j + 1] == success[..j] + [success[j]];
        LessInOrder(manager.angryList, old(manager.angryList), success[j]);
        manager.SucSched(success[j]);
      }
      assert success[..|success|] == success;
      CommitLinks(manager.tracked, status0, rejected0, old(manager.taskPriority), old(manager.angryList), trace, manager.taskStatus, manager.rejectedTimes);
    }

    /** Ready tasks, those turned away most often first. One that finds no threads is
        turned away once more. */
    method TryReady(lock: set<nat>, soFar: seq<Instance>, ghost before: seq<Step>, ghost status0: seq<nat>, ghost rejected0: seq<nat>,
                    ghost visits0: seq<seq<nat>>, ghost free0: set<Worker>, ghost angry0: seq<nat>)
      returns (instances: seq<Instance>, ghost trace: seq<Step>, ghost ready: seq<nat>)
      requires Valid() && Respects(before) && lock == Locked(before)
      requires forall k :: 0 <= k < |before| ==> before[k].id < |manager.tasks|
      requires soFar == InstancesOf(before, manager.tasks, manager.epochs)
      requires Outcomes(before, status0, rejected0, manager.taskStatus, manager.rejectedTimes)
      requires forall k :: 0 <= k < |before| ==> before[k].angry
      requires Account(before, manager.tasks, numProcesses, visits0, free0, Seen(), pool.workers)
      requires InOrder(manager.angryList, angry0)
      modifies pool, manager`tracked, manager`taskStatus, manager`rejectedTimes, manager`taskPriority, manager`angryList, history
      ensures Valid() && Respects(trace)
      ensures forall k :: 0 <= k < |trace| ==> trace[k].id < |manager.tasks|
      ensures instances == InstancesOf(trace, manager.tasks, manager.epochs)
      ensures Outcomes(trace, status0, rejected0, manager.taskStatus, manager.rejectedTimes)
      ensures Account(trace, manager.tasks, numProcesses, visits0, free0, Seen(), pool.workers)
      ensures Extends(before, ready, trace) && Distinct(ready) && InOrder(manager.angryList, angry0 + ready)
      ensures forall id :: id in ready <==> 0 <= id < |manager.tasks| && old(manager.taskStatus)[id] == READY
      ensures MostRejectedFirst(ready, old(manager.rejectedTimes))
    {
      hide Partition, Threads, Clean, Kept, Linked, Allowed, Locked, Respects, Outcomes, InstancesOf, Elements, Extends, Waiting, Distinct, MostRejectedFirst, Account, InOrder;
      ghost var seen := Seen();
      var order := manager.OrderByPriority();
      assert Seen() == seen;
      instances, trace, ready := soFar, before, order;
      ReadyUntried(before, order, status0, rejected0, manager.taskStatus, manager.rejectedTimes);
      assert angry0 + order[..0] == angry0;
      for i := 0 to |order|
        modifies pool, manager`tracked, manager`taskStatus, manager`rejectedTimes, manager`taskPriority, manager`angryList, history
        invariant Valid() && Respects(trace) && Locked(trace) == lock
        invariant forall k :: 0 <= k < |trace| ==> trace[k].id < |manager.tasks|
        invariant instances == InstancesOf(trace, manager.tasks, manager.epochs)
        invariant Outcomes(trace, status0, rejected0, manager.taskStatus, manager.rejectedTimes)
        invariant Account(trace, manager.tasks, numProcesses, visits0, free0, Seen(), pool.workers)
        invariant Extends(before, order[..i], trace)
        invariant Waiting(order[i..], trace, manager.taskStatus)
        invariant InOrder(manager.angryList, angry0 + order[..i])
      {
        assert angry0 + order[..i] + [order[i]] == angry0 + order[..i + 1];
        instances, trace := TryNext(order, i, lock, instances, before, trace, status0, rejected0, visits0, free0, angry0);
      }
      assert order[..|order|] == order;
    }

    /** The next ready task. */
    method TryNext(order: seq<nat>, i: nat, lock: set<nat>, soFar: seq<Instance>, ghost before: seq<Step>, ghost trace: seq<Step>,
                   ghost status0: seq<nat>, ghost rejected0: seq<nat>, ghost visits0: seq<seq<nat>>, ghost free0: set<Worker>, ghost angry0: seq<nat>)
      returns (instances: seq<Instance>, ghost trace': seq<Step>)
      requires Valid() && i < |order| && Respects(trace) && Locked(trace) == lock
      requires forall k :: 0 <= k < |trace| ==> trace[k].id < |manager.tasks|
      requires soFar == InstancesOf(trace, manager.tasks, manager.epochs)
      requires Outcomes(trace, status0, rejected0, manager.taskStatus, manager.rejectedTimes)
      requires Extends(before, order[..i], trace) && Waiting(order[i..], trace, manager.taskStatus)
      requires Account(trace, manager.tasks, numProcesses, visits0, free0, Seen(), pool.workers)
      requires InOrder(manager.angryList, angry0 + order[..i])
      modifies pool, manager`tracked, manager`taskStatus, manager`rejectedTimes, manager`taskPriority, manager`angryList, history
      ensures Valid() && Respects(trace') && Locked(trace') == lock
      ensures forall k :: 0 <= k < |trace'| ==> trace'[k].id < |manager.tasks|
      ensures instances == InstancesOf(trace', manager.tasks, manager.epochs)
      ensures Outcomes(trace', status0, rejected0, manager.taskStatus, manager.rejectedTimes)
      ensures Extends(before, order[..i + 1], trace') && Waiting(order[i + 1..], trace', manager.taskStatus)
      ensures Account(trace', manager.tasks, numProcesses, visits0, free0, Seen(), pool.workers)
      ensures InOrder(manager.angryList, angry0 + order[..i] + [order[i]])
    {
      hide Partition, Threads, Clean, Kept, Linked, Allowed, Locked, Respects, Outcomes, InstancesOf, Elements, Extends, Waiting, Distinct, Account, Considered, InOrder;
      var id := order[i];
      NextReady(order, i, trace, manager.tracked, manager.taskStatus);
      ghost var tracked, status, rejected := manager.tracked, manager.taskStatus, manager.rejectedTimes;
      var preferred, threads;
      ghost var s;
      ghost var angry := manager.angryList;
      preferred, threads, instances, s := Serve(id, false, lock, soFar, trace, visits0, free0);
      InOrderNext(angry, angry0 + order[..i], id);
      ghost var seen := Seen();
      if threads != [] {
        manager.SucSched(id);
        WithoutNext(angry, manager.angryList, angry0 + order[..i], id);
      } else {
        manager.FailSched(id);
      }
      assert Seen() == seen;
      ReadyStep(tracked, manager.tracked, status0, rejected0, status, rejected, trace, s, manager.taskStatus, manager.rejectedTimes);
      ExtendsStep(before, order, i, trace, s, manager.taskStatus, status);
      trace' := trace + [s];
    }

    /** One round. The trace says what was considered, in order: the angry tasks,
        longest waiting first, then the ready ones, those turned away most often
        first. Each step gets threads exactly when what the steps before it have left,
        on the processes it prefers that no angry step before it locked, suffices. */
    method ExtractInstances() returns (instances: seq<Instance>, ghost trace: seq<Step>, ghost ready: seq<nat>)
      requires Valid()
      modifies pool, manager`tracked, manager`taskStatus, manager`rejectedTimes, manager`taskPriority, manager`angryList, history
      ensures Valid() && Respects(trace) && InOrder(manager.angryList, old(manager.angryList) + ready)
      ensures Outcomes(trace, old(manager.taskStatus), old(manager.rejectedTimes), manager.taskStatus, manager.rejectedTimes)
      ensures forall k :: 0 <= k < |trace| ==> trace[k].id < |manager.tasks|
      ensures instances == InstancesOf(trace, manager.tasks, manager.epochs)
      ensures Round(old(manager.angryList), ready, trace) && Distinct(ready)
      ensures forall id :: id in ready <==> 0 <= id < |manager.tasks| && old(manager.taskStatus)[id] == READY
      ensures MostRejectedFirst(ready, old(manager.rejectedTimes))
      ensures forall k :: 0 <= k < |trace| ==>
                var s, task, visits := trace[k], manager.tasks[trace[k].id], old(history.Visits(trace[k].id));
                var n := if task.basic && task.numWorkers == 0 then 1 else task.numWorkers;
                var free, lock := FreeAfter(old(pool.workers), trace[..k]), Locked(trace[..k]);
                && (forall p: nat :: p in s.preferred <==>
                      p < numProcesses && ((s.angry && task.basic && !task.local) || forall q: nat :: q < numProcesses ==> visits[p] <= visits[q]))
                && (s.threads == [] <==>
                    if task.basic && task.local then forall p :: p in s.preferred && p !in lock ==> |set w | w in free && w.pid == p| < n
                    else n == 0 || |set w | w in free && w.pid in s.preferred && w.pid !in lock| < n)
                && (s.threads != [] ==> |s.threads| == n && Distinct(s.threads))
                && (forall i :: 0 <= i < |s.threads| ==> s.threads[i] in free && s.threads[i].pid in s.preferred && s.threads[i].pid !in lock)
                && (task.basic && task.local ==> forall v, w :: v in s.threads && w in s.threads ==> v.pid == w.pid)
      ensures pool.workers == set w | w in old(pool.workers) && forall j :: 0 <= j < |trace| ==> w !in trace[j].threads
      ensures forall id: nat, p: nat :: id < |manager.tasks| && p < numProcesses ==>
                history.Visits(id)[p] == old(history.Visits(id))[p] + (if Gave(trace, id, p) then 1 else 0)
    {
      hide Partition, Threads, Clean, Kept, Linked, Respects, Outcomes, InstancesOf, Distinct, MostRejectedFirst, Account, Locked, FreeAfter, Gave, Round, InOrder;
      instances, trace, ready := TryAll();
      ghost var visits := old(Seen());
      forall k | 0 <= k < |trace|
        ensures Prefers(trace[k], manager.tasks[trace[k].id], numProcesses, visits[trace[k].id])
        ensures Gets(manager.tasks[trace[k].id], trace[k].preferred, Locked(trace[..k]), FreeAfter(old(pool.workers), trace[..k]), trace[k].threads)
        ensures forall i :: 0 <= i < |trace[k].threads| ==> trace[k].threads[i] in FreeAfter(old(pool.workers), trace[..k])
      {
        StepSpelled(trace, k, manager.tasks, numProcesses, visits, old(pool.workers), Seen(), pool.workers);
        GetsFree(manager.tasks[trace[k].id], trace[k].preferred, Locked(trace[..k]), FreeAfter(old(pool.workers), trace[..k]), trace[k].threads);
      }
      AccountLeft(trace, manager.tasks, numProcesses, visits, old(pool.workers), Seen(), pool.workers);
    }

    /** The angry tasks, then the ready ones. */
    method TryAll() returns (instances: seq<Instance>, ghost trace: seq<Step>, ghost ready: seq<nat>)
      requires Valid()
      modifies pool, manager`tracked, manager`taskStatus, manager`rejectedTimes, manager`taskPriority, manager`angryList, history
      ensures Valid() && Respects(trace) && InOrder(manager.angryList, old(manager.angryList) + ready)
      ensures Outcomes(trace, old(manager.taskStatus), old(manager.rejectedTimes), manager.taskStatus, manager.rejectedTimes)
      ensures forall k :: 0 <= k < |trace| ==> trace[k].id < |manager.tasks|
      ensures instances == InstancesOf(trace, manager.tasks, manager.epochs)
      ensures Round(old(manager.angryList), ready, trace) && Distinct(ready)
      ensures forall id :: id in ready <==> 0 <= id < |manager.tasks| && old(manager.taskStatus)[id] == READY
      ensures MostRejectedFirst(ready, old(manager.rejectedTimes))
      ensures Account(trace, manager.tasks, numProcesses, old(Seen()), old(pool.workers), Seen(), pool.workers)
    {
      hide Partition, Threads, Clean, Kept, Linked, Tried, Allowed, Locked, Respects, Outcomes, InstancesOf, Elements, Extends, Distinct, MostRejectedFirst, Account, InOrder;
      ghost var status0, rejected0, angry0 := manager.taskStatus, manager.rejectedTimes, manager.angryList;
      var first, lock, success;
      ghost var before;
      first, lock, success, before := TryAngry();
      TriedIds(manager.tracked, status0, angry0, before);
      ghost var seen := Seen();
      CommitAngry(success, before);
      assert Seen() == seen;
      ghost var status1, rejected1 := manager.taskStatus, manager.rejectedTimes;
      instances, trace, ready := TryReady(lock, first, before, status0, rejected0, old(Seen()), old(pool.workers), angry0);
      SameReady(before, status0, rejected0, status1, rejected1, ready);
      RoundIs(angry0, before, ready, trace);
    }
  }

  /** A round considers the angry tasks and then the ready ones. */
  ghost predicate Round(angry: seq<nat>, ready: seq<nat>, trace: seq<Step>) {
    && |trace| == |angry| + |ready|
    && forall k :: 0 <= k < |trace| ==> trace[k].id == (angry + ready)[k] && trace[k].angry == (k < |angry|)
  }

  lemma RoundIs(angry: seq<nat>, before: seq<Step>, ready: seq<nat>, trace: seq<Step>)
    requires Extends(before, ready, trace) && |before| == |angry|
    requires forall k :: 0 <= k < |before| ==> before[k].id == angry[k] && before[k].angry
    ensures Round(angry, ready, trace)
  {
  }

  lemma TriedIds(t: Table, status: seq<nat>, angry: seq<nat>, trace: seq<Step>)
    requires Tried(t, status, angry, trace)
    ensures |trace| <= |angry| && forall k :: 0 <= k < |trace| ==> trace[k].id == angry[k] && trace[k].angry
  {
  }

  /** The angry tasks of a round leave the ready ones as they were. */
  lemma SameReady(before: seq<Step>, status0: seq<nat>, rejected0: seq<nat>, status1: seq<nat>, rejected1: seq<nat>, ready: seq<nat>)
    requires Outcomes(before, status0, rejected0, status1, rejected1) && forall k :: 0 <= k < |before| ==> before[k].angry
    requires MostRejectedFirst(ready, rejected1)
    requires forall id :: id in ready <==> 0 <= id < |status1| && status1[id] == READY
    ensures forall id :: id in ready <==> 0 <= id < |status0| && status0[id] == READY
    ensures MostRejectedFirst(ready, rejected0)
  {
  }

  /** What the locks mean: a task considered after an angry one that found no threads
      got none on a process that one prefers. */
  lemma LockHolds(trace: seq<Step>, j: nat, k: nat, i: nat)
    requires Respects(trace) && j < k < |trace| && i < |trace[k].threads|
    requires trace[j].angry && trace[j].threads == []
    ensures trace[k].threads[i].pid !in trace[j].preferred
  {
    LockedBy(trace[..k], j);
    assert Allowed(trace[k], Locked(trace[..k]));
    var pid, preferred := trace[k].threads[i].pid, trace[j].preferred;
    assert pid in preferred <==> pid in Elements(preferred);
  }

  lemma {:induction false} LockedBy(trace: seq<Step>, j: nat)
    requires j < |trace| && trace[j].angry && trace[j].threads == []
    ensures Elements(trace[j].preferred) <= Locked(trace)
  {
    var n := |trace| - 1;
    if j < n { LockedBy(trace[..n], j); }
  }

  /** The tasks of a list run; the others are as they were. */
  ghost predicate Committed(done: seq<nat>, status0: seq<nat>, rejected0: seq<nat>, status: seq<nat>, rejected: seq<nat>) {
    && |status| == |status0| == |rejected| == |rejected0|
    && forall id :: 0 <= id < |status| ==>
         if id in done then status[id] == RUNNING && rejected[id] == 0
         else status[id] == status0[id] && rejected[id] == rejected0[id]
  }

  predicate Successful(trace: seq<Step>, id: nat) {
    exists k :: 0 <= k < |trace| && trace[k].id == id && trace[k].threads != []
  }

  lemma SuccessfulNext(trace: seq<Step>, id: nat)
    requires trace != []
    ensures var n := |trace| - 1;
            Successful(trace, id) <==> Successful(trace[..n], id) || (trace[n].id == id && trace[n].threads != [])
  {
  }

  lemma {:induction false} SuccessesAre(trace: seq<Step>, id: nat)
    ensures id in Successes(trace) <==> Successful(trace, id)
  {
    if trace != [] {
      SuccessesAre(trace[..|trace| - 1], id);
      SuccessfulNext(trace, id);
    }
  }

  lemma AngryFacts(t: Table, priority: seq<Entry>, status: seq<nat>, rejected: seq<nat>, angry: seq<nat>, trace: seq<Step>)
    requires Kept(priority, status, rejected, angry) && Tried(t, status, angry, trace)
    ensures |status| == |rejected|
    ensures forall id :: id in Successes(trace) ==> 0 <= id < |status| && status[id] == ANGRY
  {
    hide Threads, Prioritised, Elements;
    forall id | id in Successes(trace) ensures 0 <= id < |status| && status[id] == ANGRY {
      SuccessesAre(trace, id);
      var k :| 0 <= k < |trace| && trace[k].id == id && trace[k].threads != [];
      assert angry[k] in angry;
    }
  }

  lemma CommitLinks(t: Table, status0: seq<nat>, rejected0: seq<nat>, priority0: seq<Entry>, angry: seq<nat>, trace: seq<Step>, status: seq<nat>, rejected: seq<nat>)
    requires Kept(priority0, status0, rejected0, angry) && Tried(t, status0, angry, trace) && |trace| == |angry|
    requires Committed(Successes(trace), status0, rejected0, status, rejected)
    ensures Linked(t, status) && Outcomes(trace, status0, rejected0, status, rejected)
  {
    hide Threads, Prioritised, Successes, Elements;
    forall k | 0 <= k < |trace| ensures Outcome(trace[k], status0, rejected0, status, rejected) {
      var s := trace[k];
      assert angry[k] in angry;
      SuccessesAre(trace, s.id);
      SuccessOnce(trace, angry, k);
    }
    forall id: nat ensures Threads(t, id) != {} <==> id < |status| && status[id] == RUNNING {
      SuccessesAre(trace, id);
      if Considered(trace, id) {
        var k :| 0 <= k < |trace| && trace[k].id == id;
        assert Outcome(trace[k], status0, rejected0, status, rejected);
      }
    }
    forall id | 0 <= id < |status| && !Considered(trace, id) ensures status[id] == status0[id] && rejected[id] == rejected0[id] {
      SuccessesAre(trace, id);
    }
  }

  lemma SuccessOnce(trace: seq<Step>, angry: seq<nat>, k: nat)
    requires Distinct(angry) && |trace| == |angry| && forall i :: 0 <= i < |trace| ==> trace[i].id == angry[i]
    requires k < |trace|
    ensures trace[k].id in Successes(trace) <==> trace[k].threads != []
  {
    SuccessesAre(trace, trace[k].id);
    if i :| 0 <= i < |trace| && trace[i].id == trace[k].id && trace[i].threads != [] {
      assert angry[i] == angry[k];
      assert i == k;
    }
  }

  /** The trace goes on after `before` with the ready tasks in their order. */
  ghost predicate Extends(before: seq<Step>, ready: seq<nat>, trace: seq<Step>) {
    && |trace| == |before| + |ready| && trace[..|before|] == before
    && forall i :: 0 <= i < |ready| ==> trace[|before| + i].id == ready[i] && !trace[|before| + i].angry
  }

  /** Tasks that are ready and have not been considered. */
  ghost predicate Waiting(ready: seq<nat>, trace: seq<Step>, status: seq<nat>) {
    Distinct(ready) && forall i :: 0 <= i < |ready| ==> ready[i] < |status| && status[ready[i]] == READY && !Considered(trace, ready[i])
  }

  lemma ReadyUntried(before: seq<Step>, ready: seq<nat>, status0: seq<nat>, rejected0: seq<nat>, status: seq<nat>, rejected: seq<nat>)
    requires Outcomes(before, status0, rejected0, status, rejected) && forall k :: 0 <= k < |before| ==> before[k].angry
    requires Distinct(ready) && forall id :: id in ready ==> 0 <= id < |status| && status[id] == READY
    ensures Waiting(ready, before, status) && ready[0..] == ready && Extends(before, ready[..0], before)
  {
    forall i | 0 <= i < |ready| ensures !Considered(before, ready[i]) {
      assert ready[i] in ready;
      forall k | 0 <= k < |before| ensures before[k].id != ready[i] {
        assert Outcome(before[k], status0, rejected0, status, rejected);
      }
    }
    assert forall i :: 0 <= i < |ready| ==> ready[i] in ready;
  }

  lemma NextReady(order: seq<nat>, i: nat, trace: seq<Step>, t: Table, status: seq<nat>)
    requires i < |order| && Waiting(order[i..], trace, status) && Linked(t, status)
    ensures order[i] < |status| && status[order[i]] == READY && !Considered(trace, order[i]) && Threads(t, order[i]) == {}
  {
  }

  lemma ReadyStep(t: Table, t': Table, status0: seq<nat>, rejected0: seq<nat>, status: seq<nat>, rejected: seq<nat>, trace: seq<Step>, s: Step,
                  status': seq<nat>, rejected': seq<nat>)
    requires Linked(t, status) && Outcomes(trace, status0, rejected0, status, rejected)
    requires s.id < |status| == |rejected| && status[s.id] == READY && !Considered(trace, s.id) && !s.angry
    requires forall i: nat :: i != s.id ==> Threads(t', i) == Threads(t, i)
    requires Threads(t', s.id) != {} <==> s.threads != []
    requires if s.threads != [] then status' == status[s.id := RUNNING] && rejected' == rejected[s.id := 0]
             else && rejected' == rejected[s.id := rejected[s.id] + 1]
                  && status' == (if rejected'[s.id] == ANGRY_THRESHOLD then status[s.id := ANGRY] else status)
    ensures Linked(t', status') && Outcomes(trace + [s], status0, rejected0, status', rejected')
  {
    hide Threads;
    var all := trace + [s];
    forall id: nat ensures Considered(all, id) <==> Considered(trace, id) || id == s.id { ConsideredStep(trace, s, id); }
    forall k | 0 <= k < |all| ensures Outcome(all[k], status0, rejected0, status', rejected') {
      if k < |trace| {
        assert Outcome(trace[k], status0, rejected0, status, rejected);
        assert trace[k].id != s.id;
      }
    }
  }

  lemma ExtendsStep(before: seq<Step>, order: seq<nat>, i: nat, trace: seq<Step>, s: Step, status': seq<nat>, status: seq<nat>)
    requires i < |order| && s.id == order[i] && !s.angry
    requires Extends(before, order[..i], trace) && Waiting(order[i..], trace, status)
    requires |status'| == |status| && forall id :: 0 <= id < |status| && id != s.id ==> status'[id] == status[id]
    ensures Extends(before, order[..i + 1], trace + [s]) && Waiting(order[i + 1..], trace + [s], status')
  {
    ExtendsMore(before, order, i, trace, s);
    WaitingLess(order, i, trace, s, status', status);
  }

  lemma ExtendsMore(before: seq<Step>, order: seq<nat>, i: nat, trace: seq<Step>, s: Step)
    requires i < |order| && s.id == order[i] && !s.angry && Extends(before, order[..i], trace)
    ensures Extends(before, order[..i + 1], trace + [s])
  {
    var all := trace + [s];
    assert all[..|before|] == trace[..|before|] == before;
    var done := order[..i + 1];
    forall j | 0 <= j < |done| ensures all[|before| + j].id == done[j] && !all[|before| + j].angry {
      if j < i { assert trace[|before| + j].id == order[..i][j]; }
    }
  }

  lemma WaitingLess(order: seq<nat>, i: nat, trace: seq<Step>, s: Step, status': seq<nat>, status: seq<nat>)
    requires i < |order| && s.id == order[i] && Waiting(order[i..], trace, status)
    requires |status'| == |status| && forall id :: 0 <= id < |status| && id != s.id ==> status'[id] == status[id]
    ensures Waiting(order[i + 1..], trace + [s], status')
  {
    var all, rest := trace + [s], order[i + 1..];
    assert order[i..] == [order[i]] + rest;
    forall k | 0 <= k < |rest| ensures rest[k] != s.id && !Considered(all, rest[k]) && rest[k] < |status| && status'[rest[k]] == READY {
      assert rest[k] == order[i..][k + 1];
      assert order[i..][0] == s.id;
      ConsideredStep(trace, s, rest[k]);
    }
    hide Considered;
  }

  /** The tasks of a trace that got threads. */
  function Successes(trace: seq<Step>): seq<nat> {
    if trace == [] then []
    else
      var n := |trace| - 1;
      Successes(trace[..n]) + (if trace[n].threads != [] then [trace[n].id] else [])
  }

  lemma SuccessStep(trace: seq<Step>, s: Step)
    ensures Successes(trace + [s]) == Successes(trace) + (if s.threads != [] then [s.id] else [])
  {
  }

  lemma StepAllowed(s: Step, lock: set<nat>)
    requires forall i :: 0 <= i < |s.threads| ==> s.threads[i].pid in s.preferred && s.threads[i].pid !in lock
    ensures Allowed(s, lock)
  {
  }

  lemma EmptyTrace(tasks: seq<Task>, epochs: seq<nat>)
    requires |tasks| == |epochs|
    ensures Respects([]) && Locked([]) == {} && Successes([]) == [] && InstancesOf([], tasks, epochs) == []
  {
  }

  /** The angry task that is next has no threads. */
  lemma NextIsIdle(t: Table, priority: seq<Entry>, status: seq<nat>, rejected: seq<nat>, angry: seq<nat>, trace: seq<Step>)
    requires Kept(priority, status, rejected, angry) && Tried(t, status, angry, trace) && |trace| < |angry|
    ensures angry[|trace|] < |status| && Threads(t, angry[|trace|]) == {} && Distinct(angry) && !Considered(trace, angry[|trace|])
  {
  }

  lemma TriedStart(t: Table, status: seq<nat>, angry: seq<nat>)
    requires Linked(t, status)
    ensures Tried(t, status, angry, [])
  {
  }

  lemma VisitedIs(threads: seq<Worker>, was: seq<nat>, now: seq<nat>)
    requires |now| == |was| && (threads == [] ==> now == was)
    requires threads != [] ==> forall p :: 0 <= p < |was| ==> now[p] == was[p] + (if Local(Elements(threads), p) != {} then 1 else 0)
    ensures Visited(threads, was, now)
  {
    forall p: nat ensures (exists i :: 0 <= i < |threads| && threads[i].pid == p) <==> Local(Elements(threads), p) != {} {
      GaveAny(threads, p);
    }
  }

  /** Leaving a list keeps its order. */
  lemma LessInOrder(list: seq<nat>, order: seq<nat>, id: nat)
    requires InOrder(list, order)
    ensures forall i :: 0 <= i < |list| && list[i] == id ==> InOrder(list[..i] + list[i + 1..], order)
  {
    forall i | 0 <= i < |list| && list[i] == id ensures InOrder(list[..i] + list[i + 1..], order) {
      InOrderWithout(list, order, i);
    }
  }

  lemma WithoutNext(list: seq<nat>, less: seq<nat>, order: seq<nat>, id: nat)
    requires InOrder(list, order)
    requires forall i :: 0 <= i < |list| && list[i] == id ==> less == list[..i] + list[i + 1..]
    requires id !in list ==> less == list
    ensures InOrder(less, order + [id])
  {
    hide InOrder;
    if i :| 0 <= i < |list| && list[i] == id {
      InOrderWithout(list, order, i);
    }
    InOrderNext(less, order, id);
  }

  lemma IdsStep(trace: seq<Step>, s: Step, n: nat)
    requires s.id < n && forall k :: 0 <= k < |trace| ==> trace[k].id < n
    ensures forall k :: 0 <= k < |trace + [s]| ==> (trace + [s])[k].id < n
  {
  }

  lemma GaveAny(threads: seq<Worker>, p: nat)
    ensures (exists i :: 0 <= i < |threads| && threads[i].pid == p) <==> Local(Elements(threads), p) != {}
  {
    PidsAre(threads, p);
    if w :| w in threads && w.pid == p {
      var i :| 0 <= i < |threads| && threads[i] == w;
      assert threads[i].pid == p;
    }
  }

  lemma SelectedWhere(free: set<Worker>, r: seq<Worker>, free': set<Worker>, candidates: seq<nat>)
    requires Selected(free, r, free', candidates)
    ensures forall i :: 0 <= i < |r| ==> r[i].pid in candidates
    ensures r == [] ==> Elements(r) == {}
  {
  }
}
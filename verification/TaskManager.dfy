// The book-keeping of the priority scheduler: status, priority, rejections, the list
// of tasks that wait too long, epochs and running threads.
module TaskManager {
  import opened AvailableWorkers
  import opened ThreadSelection
  import opened Tracking

  const READY: nat := 0
  const RUNNING: nat := 1
  const FINISHED: nat := 2
  const ANGRY: nat := 3
  const ANGRY_THRESHOLD: nat := 5

  // --------------------------------------------------------------- the status

  /** A task number with its priority. */
  type Entry = (nat, nat)

  predicate Named(priority: seq<Entry>, id: nat) {
    exists i :: 0 <= i < |priority| && priority[i].0 == id
  }

  /** Every task has one entry, with its number of rejections as priority. */
  ghost predicate Prioritised(priority: seq<Entry>, rejected: seq<nat>) {
    && (forall i, j :: 0 <= i < j < |priority| ==> priority[i].0 != priority[j].0)
    && (forall i :: 0 <= i < |priority| ==> priority[i].0 < |rejected| && priority[i].1 == rejected[priority[i].0])
    && forall id :: 0 <= id < |rejected| ==> Named(priority, id)
  }

  /** The list of angry tasks names each task of that status once; these are the
      tasks at the threshold; running and finished tasks have no rejections. */
  ghost predicate Kept(priority: seq<Entry>, status: seq<nat>, rejected: seq<nat>, angry: seq<nat>) {
    && |status| == |rejected| && Prioritised(priority, rejected)
    && Distinct(angry) && (forall i :: 0 <= i < |angry| ==> angry[i] < |status|)
    && forall id :: 0 <= id < |status| ==>
         && status[id] <= ANGRY && rejected[id] <= ANGRY_THRESHOLD
         && (id in angry <==> status[id] == ANGRY)
         && (status[id] == ANGRY <==> rejected[id] == ANGRY_THRESHOLD)
         && (status[id] == RUNNING || status[id] == FINISHED ==> rejected[id] == 0)
  }

  function Without(s: seq<nat>, x: nat): (r: seq<nat>)
    ensures forall y :: y in r <==> y in s && y != x
    ensures x !in s ==> r == s
  {
    if s == [] then [] else
      var n := |s| - 1;
      if s[n] == x then Without(s[..n], x) else Without(s[..n], x) + [s[n]]
  }

  lemma {:induction false} WithoutDistinct(s: seq<nat>, x: nat)
    requires Distinct(s)
    ensures Distinct(Without(s, x))
  {
    if s != [] {
      var n := |s| - 1;
      WithoutDistinct(s[..n], x);
      assert s[n] !in s[..n];
      assert forall i :: 0 <= i < |Without(s[..n], x)| ==> Without(s[..n], x)[i] in s[..n];
    }
  }

  /** The others keep their order. */
  lemma {:induction false} WithoutIs(s: seq<nat>, i: nat)
    requires Distinct(s) && i < |s|
    ensures Without(s, s[i]) == s[..i] + s[i + 1..]
  {
    var n := |s| - 1;
    if i == n {
      assert s[n] !in s[..n];
    } else {
      WithoutIs(s[..n], i);
      assert s[..n][..i] + s[..n][i + 1..] + [s[n]] == s[..i] + s[i + 1..];
    }
  }

  lemma AngryWithout(priority: seq<Entry>, status: seq<nat>, rejected: seq<nat>, angry: seq<nat>, id: nat)
    requires Kept(priority, status, rejected, angry)
    ensures forall i :: 0 <= i < |angry| && angry[i] == id ==> Without(angry, id) == angry[..i] + angry[i + 1..]
  {
    forall i | 0 <= i < |angry| && angry[i] == id ensures Without(angry, id) == angry[..i] + angry[i + 1..] {
      WithoutIs(angry, i);
    }
  }

  /** A list that keeps the order of another. */
  ghost predicate InOrder(list: seq<nat>, order: seq<nat>) {
    && (forall i :: 0 <= i < |list| ==> list[i] in order)
    && forall i, j :: 0 <= i < j < |list| ==> Before(order, list[i], list[j])
  }

  ghost predicate Before(order: seq<nat>, x: nat, y: nat) {
    exists a, b :: 0 <= a < b < |order| && order[a] == x && order[b] == y
  }

  lemma InOrderSelf(s: seq<nat>)
    ensures InOrder(s, s)
  {
  }

  lemma InOrderWithout(list: seq<nat>, order: seq<nat>, i: nat)
    requires InOrder(list, order) && i < |list|
    ensures InOrder(list[..i] + list[i + 1..], order)
  {
    hide Before;
    var less := list[..i] + list[i + 1..];
    assert forall j :: 0 <= j < |less| ==> less[j] == if j < i then list[j] else list[j + 1];
  }

  lemma BeforeMore(order: seq<nat>, z: nat, x: nat, y: nat)
    requires Before(order, x, y)
    ensures Before(order + [z], x, y)
  {
    var a, b :| 0 <= a < b < |order| && order[a] == x && order[b] == y;
    assert (order + [z])[a] == x && (order + [z])[b] == y;
  }

  lemma BeforeLast(order: seq<nat>, z: nat, x: nat)
    requires x in order
    ensures Before(order + [z], x, z)
  {
    var a :| 0 <= a < |order| && order[a] == x;
    assert (order + [z])[a] == x && (order + [z])[|order|] == z;
  }

  /** The next in order may join the end of the list. */
  lemma InOrderNext(list: seq<nat>, order: seq<nat>, z: nat)
    requires InOrder(list, order)
    ensures InOrder(list, order + [z]) && InOrder(list + [z], order + [z])
  {
    hide Before;
    forall i, j | 0 <= i < j < |list| ensures Before(order + [z], list[i], list[j]) {
      BeforeMore(order, z, list[i], list[j]);
    }
    forall i | 0 <= i < |list| ensures Before(order + [z], list[i], z) {
      BeforeLast(order, z, list[i]);
    }
  }

  lemma PrioritisedUpdate(priority: seq<Entry>, rejected: seq<nat>, i: nat, v: nat)
    requires Prioritised(priority, rejected) && i < |priority|
    ensures priority[i].0 < |rejected|
    ensures Prioritised(priority[i := (priority[i].0, v)], rejected[priority[i].0 := v])
  {
    var p' := priority[i := (priority[i].0, v)];
    assert forall k :: 0 <= k < |p'| ==> p'[k].0 == priority[k].0;
    forall id | 0 <= id < |rejected| ensures Named(p', id) {
      assert Named(priority, id);
      var k :| 0 <= k < |priority| && priority[k].0 == id;
      assert p'[k].0 == id;
    }
  }

  /** A task that got its threads. */
  lemma SuccessKeeps(priority: seq<Entry>, status: seq<nat>, rejected: seq<nat>, angry: seq<nat>, i: nat)
    requires Kept(priority, status, rejected, angry) && i < |priority|
    ensures var id := priority[i].0;
            id < |status| && Kept(priority[i := (id, 0)], status[id := RUNNING], rejected[id := 0], Without(angry, id))
  {
    PrioritisedUpdate(priority, rejected, i, 0);
    WithoutDistinct(angry, priority[i].0);
    hide Prioritised, Without;
    var id := priority[i].0;
    forall k | 0 <= k < |Without(angry, id)| ensures Without(angry, id)[k] < |status| {
      assert Without(angry, id)[k] in angry;
    }
  }

  /** A ready task that found none. */
  lemma FailureKeeps(priority: seq<Entry>, status: seq<nat>, rejected: seq<nat>, angry: seq<nat>, i: nat)
    requires Kept(priority, status, rejected, angry) && i < |priority|
    requires priority[i].0 < |status| && status[priority[i].0] == READY
    ensures var id := priority[i].0;
            && id !in angry && priority[i].1 == rejected[id] < ANGRY_THRESHOLD
            && var v, full := rejected[id] + 1, rejected[id] + 1 >= ANGRY_THRESHOLD;
            Kept(priority[i := (id, v)], if full then status[id := ANGRY] else status, rejected[id := v], if full then angry + [id] else angry)
  {
    PrioritisedUpdate(priority, rejected, i, rejected[priority[i].0] + 1);
    var id := priority[i].0;
    assert rejected[id] < ANGRY_THRESHOLD;
    var v := rejected[id] + 1;
    assert Prioritised(priority[i := (id, v)], rejected[id := v]);
    hide Prioritised;
  }

  /** A running task whose instance ended. */
  lemma EndKeeps(priority: seq<Entry>, status: seq<nat>, rejected: seq<nat>, angry: seq<nat>, id: nat, s: nat)
    requires Kept(priority, status, rejected, angry) && id < |status| && status[id] == RUNNING && (s == READY || s == FINISHED)
    ensures Kept(priority, status[id := s], rejected, angry)
  {
  }

  // ----------------------------------------------------------------- ordering

  predicate Descending(priority: seq<Entry>) {
    forall i, j :: 0 <= i < j < |priority| ==> priority[i].1 >= priority[j].1
  }

  function InsertByPriority(e: Entry, priority: seq<Entry>): seq<Entry> {
    if priority == [] || e.1 >= priority[0].1 then [e] + priority
    else [priority[0]] + InsertByPriority(e, priority[1..])
  }

  function SortByPriority(priority: seq<Entry>): seq<Entry> {
    if priority == [] then [] else InsertByPriority(priority[0], SortByPriority(priority[1..]))
  }

  lemma DescendingFrom(e: Entry, rest: seq<Entry>)
    requires Descending(rest) && (rest != [] ==> e.1 >= rest[0].1)
    ensures Descending([e] + rest)
  {
  }

  lemma {:induction false} InsertByPrioritySorts(e: Entry, priority: seq<Entry>)
    requires Descending(priority)
    ensures Descending(InsertByPriority(e, priority))
    ensures multiset(InsertByPriority(e, priority)) == multiset{e} + multiset(priority)
    ensures InsertByPriority(e, priority) != []
    ensures InsertByPriority(e, priority)[0] == e || (priority != [] && InsertByPriority(e, priority)[0] == priority[0])
  {
    if priority == [] || e.1 >= priority[0].1 {
      DescendingFrom(e, priority);
    } else {
      assert Descending(priority[1..]) && (priority[1..] != [] ==> priority[0].1 >= priority[1..][0].1);
      hide Descending;
      InsertByPrioritySorts(e, priority[1..]);
      DescendingFrom(priority[0], InsertByPriority(e, priority[1..]));
      assert priority == [priority[0]] + priority[1..];
    }
  }

  lemma {:induction false} SortByPrioritySorts(priority: seq<Entry>)
    ensures Descending(SortByPriority(priority)) && multiset(SortByPriority(priority)) == multiset(priority)
  {
    if priority != [] {
      SortByPrioritySorts(priority[1..]);
      InsertByPrioritySorts(priority[0], SortByPriority(priority[1..]));
      assert priority == [priority[0]] + priority[1..];
    }
  }

  /** Distinct elements, as a fact about the multiset. */
  lemma {:induction false} DistinctMultiset<T>(s: seq<T>)
    ensures Distinct(s) <==> forall x :: multiset(s)[x] <= 1
  {
    if s != [] {
      var n := |s| - 1;
      DistinctMultiset(s[..n]);
      assert s == s[..n] + [s[n]];
      if Distinct(s) {
        assert s[n] !in s[..n];
      } else if Distinct(s[..n]) {
        assert s[n] in s[..n];
        assert multiset(s)[s[n]] >= 2;
      } else {
        var x :| multiset(s[..n])[x] > 1;
        assert multiset(s)[x] > 1;
      }
    }
  }

  lemma PrioritisedPermutes(p: seq<Entry>, p': seq<Entry>, rejected: seq<nat>)
    requires Prioritised(p, rejected) && multiset(p) == multiset(p')
    ensures Prioritised(p', rejected)
  {
    DistinctMultiset(p);
    DistinctMultiset(p');
    forall i | 0 <= i < |p'| ensures p'[i].0 < |rejected| && p'[i].1 == rejected[p'[i].0] {
      assert p'[i] in multiset(p);
    }
    assert forall i, j :: 0 <= i < j < |p'| ==> p'[i] != p'[j];
    forall id | 0 <= id < |rejected| ensures Named(p', id) {
      assert Named(p, id);
      var k :| 0 <= k < |p| && p[k].0 == id;
      assert p[k] in multiset(p');
    }
  }

  // --------------------------------------------------------------- the manager

  /** The ready tasks of a list, in its order. */
  function ReadyOf(priority: seq<Entry>, status: seq<nat>): (r: seq<nat>)
    requires forall i :: 0 <= i < |priority| ==> priority[i].0 < |status|
  {
    if priority == [] then []
    else
      var n := |priority| - 1;
      ReadyOf(priority[..n], status) + (if status[priority[n].0] == READY then [priority[n].0] else [])
  }

  class TaskManager {
    var tasks: seq<Task>
    var epochs: seq<nat>
    var taskPriority: seq<Entry>
    var taskStatus: seq<nat>
    var rejectedTimes: seq<nat>
    var tracked: Table
    var angryList: seq<nat>

    ghost predicate Valid()
      reads this
    {
      && |tasks| == |epochs| == |taskStatus| == |rejectedTimes|
      && Kept(taskPriority, taskStatus, rejectedTimes, angryList)
      && Clean(tracked)
      && (forall id :: 0 <= id < |tasks| ==> epochs[id] <= tasks[id].totalEpoch && (taskStatus[id] == FINISHED <==> epochs[id] == tasks[id].totalEpoch))
    }

    constructor ()
      ensures Valid() && tasks == [] && tracked == map[]
    {
      tasks, epochs, taskPriority, taskStatus, rejectedTimes, tracked, angryList := [], [], [], [], [], map[], [];
    }

    /** Tasks are numbered as they are added. */
    method AddTasks(more: seq<Task>)
      requires Valid()
      requires forall i :: 0 <= i < |more| ==> more[i].id == |tasks| + i && more[i].totalEpoch >= 1
      modifies this
      ensures Valid() && tasks == old(tasks) + more && tracked == old(tracked) && angryList == old(angryList)
      ensures forall id :: 0 <= id < |tasks| ==> taskStatus[id] == if id < old(|tasks|) then old(taskStatus)[id] else READY
      ensures forall id :: 0 <= id < |tasks| ==> rejectedTimes[id] == if id < old(|tasks|) then old(rejectedTimes)[id] else 0
    {
      hide Kept, Clean, Threads;
      for i := 0 to |more|
        invariant Valid() && tasks == old(tasks) + more[..i] && tracked == old(tracked) && angryList == old(angryList)
        invariant forall id :: 0 <= id < |tasks| ==> taskStatus[id] == if id < old(|tasks|) then old(taskStatus)[id] else READY
        invariant forall id :: 0 <= id < |tasks| ==> rejectedTimes[id] == if id < old(|tasks|) then old(rejectedTimes)[id] else 0
      {
        AddKeeps(taskPriority, taskStatus, rejectedTimes, angryList);
        taskPriority := taskPriority + [(more[i].id, 0)];
        tasks := tasks + [more[i]];
        epochs := epochs + [0];
        taskStatus := taskStatus + [READY];
        rejectedTimes := rejectedTimes + [0];
      }
    }

    method IsFinished() returns (b: bool)
      ensures b <==> forall i :: 0 <= i < |taskStatus| ==> taskStatus[i] == FINISHED
    {
      for i := 0 to |taskStatus|
        invariant forall j :: 0 <= j < i ==> taskStatus[j] == FINISHED
      {
        if taskStatus[i] != FINISHED { return false; }
      }
      b := true;
    }

    method FinishThread(id: nat, w: Worker)
      requires Valid() && id < |tasks| && taskStatus[id] == RUNNING && w in Threads(tracked, id)
      modifies this`epochs, this`taskStatus, this`tracked
      ensures Valid()
      ensures forall i: nat :: Threads(tracked, i) == old(Threads(tracked, i)) - (if i == id then {w} else {})
      ensures var last := old(Threads(tracked, id)) == {w};
              && epochs == (if last then old(epochs)[id := old(epochs)[id] + 1] else old(epochs))
              && taskStatus == (if last then old(taskStatus)[id := if epochs[id] == tasks[id].totalEpoch then FINISHED else READY] else old(taskStatus))
    {
      hide Kept, Threads, Clean, Untrack;
      KeptSizes(taskPriority, taskStatus, rejectedTimes, angryList);
      UntrackThreads(tracked, id, w);
      tracked := Untrack(tracked, id, w);
      if tracked[id] == map[] {
        epochs := epochs[id := epochs[id] + 1];
        var s := if epochs[id] == tasks[id].totalEpoch then FINISHED else READY;
        EndKeeps(taskPriority, taskStatus, rejectedTimes, angryList, id, s);
        taskStatus := taskStatus[id := s];
      }
    }

    /** The ready tasks, those with the highest priority first. */
    method OrderByPriority() returns (ready: seq<nat>)
      requires Valid()
      modifies this`taskPriority
      ensures Valid() && multiset(taskPriority) == multiset(old(taskPriority))
      ensures Distinct(ready) && forall id :: id in ready <==> 0 <= id < |tasks| && taskStatus[id] == READY
      ensures MostRejectedFirst(ready, rejectedTimes)
    {
      hide Kept, Clean, SortByPriority;
      KeptSorted(taskPriority, taskStatus, rejectedTimes, angryList);
      taskPriority := SortByPriority(taskPriority);
      ready := [];
      for i := 0 to |taskPriority|
        invariant ready == ReadyOf(taskPriority[..i], taskStatus)
      {
        assert taskPriority[..i + 1][..i] == taskPriority[..i];
        if taskStatus[taskPriority[i].0] == READY {
          ready := ready + [taskPriority[i].0];
        }
      }
      assert taskPriority[..|taskPriority|] == taskPriority;
      ReadyOfIs(taskPriority, taskStatus, rejectedTimes);
    }

    /** The task got its threads: it runs, has no rejections left and is not angry. */
    method SucSched(id: nat)
      requires Valid() && id < |tasks| && taskStatus[id] != FINISHED
      modifies this`taskStatus, this`rejectedTimes, this`taskPriority, this`angryList
      ensures Valid()
      ensures taskStatus == old(taskStatus)[id := RUNNING] && rejectedTimes == old(rejectedTimes)[id := 0]
      ensures angryList == Without(old(angryList), id)
      ensures forall i :: 0 <= i < old(|angryList|) && old(angryList)[i] == id ==> angryList == old(angryList)[..i] + old(angryList)[i + 1..]
      ensures id !in old(angryList) ==> angryList == old(angryList)
    {
      hide Kept, Clean, Threads, Without;
      var at := FindPriority(id);
      AngryWithout(taskPriority, taskStatus, rejectedTimes, angryList, id);
      SuccessKeeps(taskPriority, taskStatus, rejectedTimes, angryList, at);
      taskStatus := taskStatus[id := RUNNING];
      rejectedTimes := rejectedTimes[id := 0];
      taskPriority := taskPriority[at := (taskPriority[at].0, 0)];
      if id in angryList {
        angryList := Without(angryList, id);
      } else {
        NotIn(angryList, id);
      }
    }

    /** A ready task found no threads: one more rejection, and angry at the
        threshold. */
    method FailSched(id: nat)
      requires Valid() && id < |tasks| && taskStatus[id] == READY
      modifies this`taskStatus, this`rejectedTimes, this`taskPriority, this`angryList
      ensures Valid()
      ensures rejectedTimes == old(rejectedTimes)[id := old(rejectedTimes)[id] + 1]
      ensures var full := rejectedTimes[id] == ANGRY_THRESHOLD;
              && taskStatus == (if full then old(taskStatus)[id := ANGRY] else old(taskStatus))
              && angryList == (if full then old(angryList) + [id] else old(angryList))
    {
      hide Kept, Clean, Threads;
      var at := FindPriority(id);
      FailureKeeps(taskPriority, taskStatus, rejectedTimes, angryList, at);
      rejectedTimes := rejectedTimes[id := rejectedTimes[id] + 1];
      taskPriority := taskPriority[at := (taskPriority[at].0, taskPriority[at].1 + 1)];
      if taskPriority[at].1 >= ANGRY_THRESHOLD {
        if id !in angryList {
          angryList := angryList + [id];
          taskStatus := taskStatus[id := ANGRY];
        }
      }
    }

    method FindPriority(id: nat) returns (at: nat)
      requires Valid() && id < |tasks|
      ensures at < |taskPriority| && taskPriority[at].0 == id
    {
      assert Named(taskPriority, id);
      at := 0;
      while taskPriority[at].0 != id
        invariant at < |taskPriority| && forall k :: 0 <= k < at ==> taskPriority[k].0 != id
        decreases |taskPriority| - at
      {
        at := at + 1;
      }
    }

    /** The threads of a task are entered into the table. */
    method Record(id: nat, threads: seq<Worker>)
      requires Valid()
      modifies this`tracked
      ensures Valid() && tracked == TrackAll(old(tracked), id, threads)
    {
      hide Kept, Threads, Clean, Track;
      for k := 0 to |threads|
        invariant tracked == TrackAll(old(tracked), id, threads[..k])
      {
        tracked := Track(tracked, id, threads[k]);
        assert threads[..k + 1][..k] == threads[..k];
      }
      assert threads[..|threads|] == threads;
      TrackAllThreads(old(tracked), id, threads);
    }
  }

  predicate MostRejectedFirst(ready: seq<nat>, rejected: seq<nat>) {
    && (forall i :: 0 <= i < |ready| ==> ready[i] < |rejected|)
    && forall i, j :: 0 <= i < j < |ready| ==> rejected[ready[i]] >= rejected[ready[j]]
  }

  lemma KeptSorted(priority: seq<Entry>, status: seq<nat>, rejected: seq<nat>, angry: seq<nat>)
    requires Kept(priority, status, rejected, angry)
    ensures var sorted := SortByPriority(priority);
            && Kept(sorted, status, rejected, angry) && Prioritised(sorted, rejected) && |status| == |rejected|
            && Descending(sorted) && multiset(sorted) == multiset(priority)
  {
    SortByPrioritySorts(priority);
    PrioritisedPermutes(priority, SortByPriority(priority), rejected);
    hide Prioritised;
  }

  lemma {:induction false} ReadyOfHas(priority: seq<Entry>, status: seq<nat>, id: nat)
    requires forall i :: 0 <= i < |priority| ==> priority[i].0 < |status|
    ensures id in ReadyOf(priority, status) <==> id < |status| && status[id] == READY && Named(priority, id)
  {
    if priority != [] {
      var n := |priority| - 1;
      ReadyOfHas(priority[..n], status, id);
      NamedNext(priority, n);
      assert priority[..n + 1] == priority;
    }
  }

  lemma {:induction false} ReadyOfOrdered(priority: seq<Entry>, status: seq<nat>, rejected: seq<nat>)
    requires forall i :: 0 <= i < |priority| ==> priority[i].0 < |status| == |rejected| && priority[i].1 == rejected[priority[i].0]
    requires forall i, j :: 0 <= i < j < |priority| ==> priority[i].0 != priority[j].0
    requires Descending(priority)
    ensures Distinct(ReadyOf(priority, status)) && MostRejectedFirst(ReadyOf(priority, status), rejected)
  {
    if priority != [] {
      var n := |priority| - 1;
      var before := ReadyOf(priority[..n], status);
      ReadyOfOrdered(priority[..n], status, rejected);
      forall k | 0 <= k < |before| ensures before[k] != priority[n].0 && before[k] < |rejected| && rejected[before[k]] >= priority[n].1 {
        ReadyOfHas(priority[..n], status, before[k]);
        var i :| 0 <= i < n && priority[..n][i].0 == before[k];
      }
    }
  }

  lemma ReadyOfIs(priority: seq<Entry>, status: seq<nat>, rejected: seq<nat>)
    requires Prioritised(priority, rejected) && Descending(priority) && |status| == |rejected|
    ensures forall i :: 0 <= i < |priority| ==> priority[i].0 < |status|
    ensures var ready := ReadyOf(priority, status);
            && Distinct(ready) && MostRejectedFirst(ready, rejected)
            && forall id :: id in ready <==> 0 <= id < |status| && status[id] == READY
  {
    ReadyOfOrdered(priority, status, rejected);
    forall id: nat ensures id in ReadyOf(priority, status) <==> id < |status| && status[id] == READY {
      ReadyOfHas(priority, status, id);
    }
  }

  lemma NotIn(s: seq<nat>, x: nat)
    requires x !in s
    ensures Without(s, x) == s
  {
  }

  lemma KeptSizes(priority: seq<Entry>, status: seq<nat>, rejected: seq<nat>, angry: seq<nat>)
    requires Kept(priority, status, rejected, angry)
    ensures |status| == |rejected|
  {
  }

  lemma NamedNext(priority: seq<Entry>, i: nat)
    requires i < |priority|
    ensures forall id: nat :: Named(priority[..i + 1], id) <==> Named(priority[..i], id) || priority[i].0 == id
  {
  }

  lemma AddKeeps(priority: seq<Entry>, status: seq<nat>, rejected: seq<nat>, angry: seq<nat>)
    requires Kept(priority, status, rejected, angry)
    ensures Kept(priority + [(|status|, 0)], status + [READY], rejected + [0], angry)
  {
    var p', r' := priority + [(|status|, 0)], rejected + [0];
    assert p'[|priority|].0 == |status|;
    forall id | 0 <= id < |r'| ensures Named(p', id) {
      if id < |rejected| {
        assert Named(priority, id);
        var k :| 0 <= k < |priority| && priority[k].0 == id;
        assert p'[k].0 == id;
      }
    }
  }
}

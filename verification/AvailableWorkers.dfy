// The pool of free worker threads, kept twice: as one set and by process.
module AvailableWorkers {

  datatype Worker = Worker(pid: nat, tid: nat)

  /** The workers of one process. */
  function Local(pool: set<Worker>, pid: nat): set<Worker> {
    set w | w in pool && w.pid == pid
  }

  predicate Distinct<T(==)>(s: seq<T>) {
    forall i, j :: 0 <= i < j < |s| ==> s[i] != s[j]
  }

  function Elements<T(==)>(s: seq<T>): set<T> {
    set x | x in s
  }

  /** The allocation r was taken out of the pool. */
  ghost predicate Taken(before: set<Worker>, r: seq<Worker>, after: set<Worker>) {
    Distinct(r) && Elements(r) <= before && after == before - Elements(r)
  }

  lemma {:induction false} DistinctSize<T>(s: seq<T>)
    requires Distinct(s)
    ensures |Elements(s)| == |s|
  {
    if s != [] {
      var n := |s| - 1;
      DistinctSize(s[..n]);
      assert Elements(s) == Elements(s[..n]) + {s[n]};
    }
  }

  lemma {:induction false} LocalSize(ws: set<Worker>, pid: nat, tids: set<nat>)
    requires forall w :: w in ws <==> w.pid == pid && w.tid in tids
    ensures |ws| == |tids|
  {
    if tids == {} {
      assert forall w :: w in ws ==> w.tid in tids;
      assert ws == {};
    } else {
      var t :| t in tids;
      assert Worker(pid, t) in ws;
      LocalSize(ws - {Worker(pid, t)}, pid, tids - {t});
    }
  }

  /** Adding workers of a process that has none yet. */
  lemma AppendLocal(r: seq<Worker>, more: seq<Worker>, pid: nat)
    requires Distinct(r) && Distinct(more)
    requires (forall w :: w in r ==> w.pid < pid) && forall w :: w in Elements(more) ==> w.pid == pid
    ensures Distinct(r + more) && Elements(r + more) == Elements(r) + Elements(more)
    ensures forall w :: w in r + more ==> w.pid <= pid
    ensures |Local(Elements(r + more), pid)| == |more|
    ensures forall p :: 0 <= p < pid ==> Local(Elements(r + more), p) == Local(Elements(r), p)
  {
    assert forall w :: w in more ==> w in Elements(more);
    assert Local(Elements(r + more), pid) == Elements(more);
    DistinctSize(more);
    forall i, j | 0 <= i < j < |r + more| ensures (r + more)[i] != (r + more)[j] {
      if i < |r| <= j { assert r[i] in r && more[j - |r|] in more; }
    }
  }

  class AvailableWorkers {
    var workers: set<Worker>
    var pidTids: map<nat, set<nat>>

    function Tids(pid: nat): set<nat>
      reads this
    {
      if pid in pidTids then pidTids[pid] else {}
    }

    /** Both indexes describe the same threads. */
    ghost predicate Valid()
      reads this
    {
      forall w: Worker :: w in workers <==> w.tid in Tids(w.pid)
    }

    constructor ()
      ensures Valid() && workers == {}
    {
      workers, pidTids := {}, map[];
    }

    method AddWorker(pid: nat, tid: nat)
      requires Valid()
      modifies this
      ensures Valid() && workers == old(workers) + {Worker(pid, tid)}
    {
      workers := workers + {Worker(pid, tid)};
      pidTids := pidTids[pid := Tids(pid) + {tid}];
    }

    method RemoveWorker(pid: nat, tid: nat)
      requires Valid()
      modifies this
      ensures Valid() && workers == old(workers) - {Worker(pid, tid)}
    {
      workers := workers - {Worker(pid, tid)};
      pidTids := pidTids[pid := Tids(pid) - {tid}];
    }

    method GetNumAvailableWorkers() returns (n: nat)
      ensures n == |workers|
    {
      n := |workers|;
    }

    method GetNumAvailableLocalWorkers(pid: nat) returns (n: nat)
      requires Valid()
      ensures n == |Local(workers, pid)|
    {
      LocalSize(Local(workers, pid), pid, Tids(pid));
      n := |Tids(pid)|;
    }

    method GetMaxLocalWorkers() returns (n: nat)
      requires Valid()
      ensures forall pid :: |Local(workers, pid)| <= n
      ensures n == 0 || exists pid :: |Local(workers, pid)| == n
    {
      n := 0;
      var left := pidTids.Keys;
      while left != {}
        invariant left <= pidTids.Keys
        invariant forall pid :: pid in pidTids.Keys - left ==> |Tids(pid)| <= n
        invariant n == 0 || exists pid :: |Tids(pid)| == n
        decreases |left|
      {
        var pid :| pid in left;
        left := left - {pid};
        if |pidTids[pid]| > n {
          n := |pidTids[pid]|;
          assert |Tids(pid)| == n;
        }
      }
      forall pid ensures |Local(workers, pid)| == |Tids(pid)| {
        LocalSize(Local(workers, pid), pid, Tids(pid));
      }
      if n != 0 {
        var pid :| |Tids(pid)| == n;
        assert |Local(workers, pid)| == n;
      }
    }

    /** Any n threads of a set, in any order. */
    static method Pick(pool: set<Worker>, n: nat) returns (r: seq<Worker>)
      requires n <= |pool|
      ensures |r| == n && Distinct(r) && Elements(r) <= pool
    {
      r := [];
      var left := pool;
      while |r| < n
        invariant |r| <= n && |left| == |pool| - |r|
        invariant Distinct(r) && left <= pool && forall i :: 0 <= i < |r| ==> r[i] in pool && r[i] !in left
        decreases n - |r|
      {
        assert left != {};
        var w :| w in left;
        left := left - {w};
        r := r + [w];
      }
    }

    static method PickEach(pool: set<Worker>, each: nat, numProcesses: nat) returns (r: seq<Worker>)
      requires forall p :: 0 <= p < numProcesses ==> |Local(pool, p)| >= each
      ensures |r| == each * numProcesses && Distinct(r) && Elements(r) <= pool
      ensures forall p :: 0 <= p < numProcesses ==> |Local(Elements(r), p)| == each
    {
      r := [];
      for pid := 0 to numProcesses
        invariant |r| == each * pid && Distinct(r) && Elements(r) <= pool
        invariant forall w :: w in r ==> w.pid < pid
        invariant forall p :: 0 <= p < pid ==> |Local(Elements(r), p)| == each
      {
        var more := Pick(Local(pool, pid), each);
        assert each * (pid + 1) == each * pid + each;
        AppendLocal(r, more, pid);
        r := r + more;
      }
    }

    /** Erasing allocated threads from both indexes. */
    method Erase(r: seq<Worker>)
      requires Valid()
      modifies this
      ensures Valid() && workers == old(workers) - Elements(r)
    {
      for i := 0 to |r|
        invariant Valid() && workers == old(workers) - Elements(r[..i])
      {
        RemoveWorker(r[i].pid, r[i].tid);
        assert Elements(r[..i + 1]) == Elements(r[..i]) + {r[i]};
      }
      assert r[..|r|] == r;
    }

    /** All or nothing from one process. */
    method GetWorkersExactProcess(required: nat, pid: nat) returns (r: seq<Worker>)
      requires Valid()
      modifies this
      ensures Valid() && Taken(old(workers), r, workers)
      ensures forall w :: w in r ==> w.pid == pid
      ensures |r| == if |Local(old(workers), pid)| < required then 0 else required
    {
      var mine := Local(workers, pid);
      if |mine| < required {
        r := [];
      } else {
        r := Pick(mine, required);
        Erase(r);
      }
    }

    /** All or nothing from anywhere. */
    method GetWorkers(required: nat) returns (r: seq<Worker>)
      requires Valid()
      modifies this
      ensures Valid() && Taken(old(workers), r, workers)
      ensures |r| == if |old(workers)| < required then 0 else required
    {
      if |workers| < required {
        r := [];
      } else {
        r := Pick(workers, required);
        Erase(r);
      }
    }

    /** All or nothing from some single process. */
    method GetLocalWorkers(required: nat) returns (r: seq<Worker>)
      requires Valid()
      modifies this
      ensures Valid() && Taken(old(workers), r, workers)
      ensures forall v, w :: v in r && w in r ==> v.pid == w.pid
      ensures |r| == 0 || |r| == required
      ensures required > 0 ==> (|r| == required <==> exists pid :: |Local(old(workers), pid)| >= required)
    {
      forall pid ensures |Local(workers, pid)| == |Tids(pid)| {
        LocalSize(Local(workers, pid), pid, Tids(pid));
      }
      var left := pidTids.Keys;
      while left != {}
        invariant left <= pidTids.Keys && Valid() && workers == old(workers) && pidTids == old(pidTids)
        invariant forall pid :: pid in pidTids.Keys - left ==> |Tids(pid)| < required
        decreases |left|
      {
        var pid :| pid in left;
        left := left - {pid};
        if |pidTids[pid]| >= required {
          assert |Local(workers, pid)| >= required;
          r := Pick(Local(workers, pid), required);
          Erase(r);
          return;
        }
      }
      r := [];
    }

    /** The same number from every process, or nothing. */
    method GetWorkersPerProcess(each: nat, numProcesses: nat) returns (r: seq<Worker>)
      requires Valid() && forall w :: w in workers ==> w.pid < numProcesses
      modifies this
      ensures Valid() && Taken(old(workers), r, workers)
      ensures (exists pid :: 0 <= pid < numProcesses && |Local(old(workers), pid)| < each) ==> r == []
      ensures (forall pid :: 0 <= pid < numProcesses ==> |Local(old(workers), pid)| >= each) ==>
                |r| == each * numProcesses && forall pid :: 0 <= pid < numProcesses ==> |Local(Elements(r), pid)| == each
    {
      r := [];
      for pid := 0 to numProcesses
        invariant forall p :: 0 <= p < pid ==> |Local(workers, p)| >= each
      {
        if |Local(workers, pid)| < each { return; }
      }
      r := PickEach(workers, each, numProcesses);
      Erase(r);
    }
  }
}

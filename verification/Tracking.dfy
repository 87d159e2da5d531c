// Which threads run for which task: the nested table of a scheduler and what it means.
module Tracking {
  import opened AvailableWorkers
  import opened ThreadSelection

  /** Task, then process, then the threads there. */
  type Table = map<nat, map<nat, set<nat>>>

  function Threads(t: Table, id: nat): set<Worker> {
    if id in t then set p, k | p in t[id] && k in t[id][p] :: Worker(p, k) else {}
  }

  /** No process without threads is kept. */
  ghost predicate Clean(t: Table) {
    forall id, p :: id in t && p in t[id] ==> t[id][p] != {}
  }

  function Track(t: Table, id: nat, w: Worker): Table {
    var procs: map<nat, set<nat>> := if id in t then t[id] else map[];
    var tids := if w.pid in procs then procs[w.pid] else {};
    var more: map<nat, set<nat>> := procs[w.pid := tids + {w.tid}];
    t[id := more]
  }

  /** Removing a thread; its process goes with its last thread. */
  function Untrack(t: Table, id: nat, w: Worker): Table
    requires w in Threads(t, id)
  {
    var tids := t[id][w.pid] - {w.tid};
    var less: map<nat, set<nat>> := if tids == {} then t[id] - {w.pid} else t[id][w.pid := tids];
    t[id := less]
  }

  lemma TrackThreads(t: Table, id: nat, w: Worker)
    requires Clean(t)
    ensures Clean(Track(t, id, w))
    ensures forall i: nat :: Threads(Track(t, id, w), i) == Threads(t, i) + (if i == id then {w} else {})
  {
    forall i: nat, v: Worker
      ensures v in Threads(Track(t, id, w), i) <==> v in Threads(t, i) || (i == id && v == w)
    {
    }
  }

  lemma UntrackThreads(t: Table, id: nat, w: Worker)
    requires Clean(t) && w in Threads(t, id)
    ensures Clean(Untrack(t, id, w)) && id in Untrack(t, id, w)
    ensures forall i: nat :: Threads(Untrack(t, id, w), i) == Threads(t, i) - (if i == id then {w} else {})
    ensures Untrack(t, id, w)[id] == map[] <==> Threads(t, id) == {w}
  {
    forall i: nat, v: Worker
      ensures v in Threads(Untrack(t, id, w), i) <==> v in Threads(t, i) && !(i == id && v == w)
    {
    }
    EmptyRow(Untrack(t, id, w), id);
  }

  lemma EmptyRow(t: Table, id: nat)
    requires Clean(t) && id in t
    ensures t[id] == map[] <==> Threads(t, id) == {}
  {
    if t[id] != map[] {
      var p :| p in t[id];
      var k :| k in t[id][p];
      assert Worker(p, k) in Threads(t, id);
    }
  }

  // ------------------------------------------------------------ conservation

  /** Every thread of the cluster is free or runs for exactly one task. */
  ghost predicate Partition(all: set<Worker>, free: set<Worker>, t: Table) {
    && free <= all
    && (forall id: nat :: Threads(t, id) <= all && Threads(t, id) !! free)
    && (forall i: nat, j: nat :: i != j ==> Threads(t, i) !! Threads(t, j))
    && forall w :: w in all ==> w in free || exists id: nat :: w in Threads(t, id)
  }

  ghost function TrackAll(t: Table, id: nat, r: seq<Worker>): Table {
    if r == [] then t else Track(TrackAll(t, id, r[..|r| - 1]), id, r[|r| - 1])
  }

  lemma {:induction false} TrackAllThreads(t: Table, id: nat, r: seq<Worker>)
    requires Clean(t)
    ensures Clean(TrackAll(t, id, r))
    ensures forall i: nat :: Threads(TrackAll(t, id, r), i) == Threads(t, i) + (if i == id then Elements(r) else {})
  {
    hide Threads, Clean, Track;
    if r != [] {
      var n := |r| - 1;
      TrackAllThreads(t, id, r[..n]);
      TrackThreads(TrackAll(t, id, r[..n]), id, r[n]);
      assert Elements(r) == Elements(r[..n]) + {r[n]};
    }
  }

  /** Launching an instance of an idle task on free threads conserves the threads. */
  lemma LaunchConserves(all: set<Worker>, free: set<Worker>, t: Table, id: nat, r: seq<Worker>, free': set<Worker>)
    requires Partition(all, free, t) && Clean(t) && Threads(t, id) == {}
    requires Taken(free, r, free')
    ensures Partition(all, free', TrackAll(t, id, r)) && Clean(TrackAll(t, id, r))
    ensures Threads(TrackAll(t, id, r), id) == Elements(r)
    ensures forall i: nat :: i != id ==> Threads(TrackAll(t, id, r), i) == Threads(t, i)
  {
    TrackAllThreads(t, id, r);
    hide Threads, Clean, TrackAll;
    var t' := TrackAll(t, id, r);
    forall w | w in all ensures w in free' || exists i: nat :: w in Threads(t', i) {
      if w in Elements(r) {
        assert w in Threads(t', id);
      } else if w !in free {
        var i: nat :| w in Threads(t, i);
        assert w in Threads(t', i);
      }
    }
  }

  /** So does the end of a thread. */
  lemma FinishConserves(all: set<Worker>, free: set<Worker>, t: Table, id: nat, w: Worker, t': Table)
    requires Partition(all, free, t) && w in Threads(t, id)
    requires forall i: nat :: Threads(t', i) == Threads(t, i) - (if i == id then {w} else {})
    ensures Partition(all, free + {w}, t')
  {
  }

  /** Threads just selected are threads of the cluster. */
  lemma SelectedFacts(all: set<Worker>, free: set<Worker>, t: Table, r: seq<Worker>, free': set<Worker>, candidates: seq<nat>, n: nat)
    requires Partition(all, free, t) && Selected(free, r, free', candidates)
    requires forall w :: w in all ==> w.pid < n
    ensures Taken(free, r, free')
    ensures forall k :: 0 <= k < |r| ==> r[k].pid < n
    ensures free' <= free && (r == [] ==> free' == free)
    ensures r != [] ==> Elements(r) != {}
    ensures (forall p :: 0 <= p < n ==> p in candidates) ==> Of(free, candidates) == free
  {
    hide Threads;
    forall k | 0 <= k < |r| ensures r[k].pid < n {
      assert r[k] in Elements(r);
    }
    if r != [] { assert r[0] in Elements(r); }
  }

  /** No threads run exactly when all are free. */
  lemma IdleIsFree(all: set<Worker>, free: set<Worker>, t: Table)
    requires Partition(all, free, t)
    ensures free == all <==> forall id: nat :: Threads(t, id) == {}
  {
  }
}

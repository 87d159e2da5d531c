// The client's bookkeeping of replies: how many a request waits for, which came in,
// and when the callback that puts a pull's replies together runs.
module ReplyTracker {
  import opened KvSlicing

  /** A request: the key-value store and the request's number in it. */
  type Id = (nat, nat)

  datatype Entry = Entry(expected: nat, received: nat)

  /** Where the receiving thread stands: waiting for a message, handling one
      (having noted whether it is the last), or about to count it. */
  datatype Phase = Idle | Handling(id: Id, last: bool) | Counting(id: Id)

  /** What callbacks ran, with the replies they found. */
  datatype Ran = Ran(id: Id, replies: seq<KVPairs>)

  datatype State = State(
    tracker: seq<seq<Entry>>, replies: map<Id, seq<KVPairs>>, callbacks: set<Id>, phase: Phase, ran: seq<Ran>)

  datatype Event =
    | NewRequest(kv: nat, expected: nat)
    | AddCallback(id: Id)
    | Take(id: Id, pull: bool, kvs: KVPairs)
    | RunCallback
    | Count

  const START := State([], map[], {}, Idle, [])

  predicate Exists(tracker: seq<seq<Entry>>, id: Id) {
    id.0 < |tracker| && id.1 < |tracker[id.0]|
  }

  function EntryOf(tracker: seq<seq<Entry>>, id: Id): Entry
    requires Exists(tracker, id)
  {
    tracker[id.0][id.1]
  }

  /** A wait for the request returns. */
  predicate Done(tracker: seq<seq<Entry>>, id: Id)
    requires Exists(tracker, id)
  {
    EntryOf(tracker, id).expected == EntryOf(tracker, id).received
  }

  function Opened(tracker: seq<seq<Entry>>, kv: nat): (r: seq<seq<Entry>>)
    ensures kv < |r|
  {
    if kv < |tracker| then tracker else tracker + seq(kv + 1 - |tracker|, _ => [])
  }

  function Counted(tracker: seq<seq<Entry>>, id: Id): seq<seq<Entry>>
    requires Exists(tracker, id)
  {
    var e := EntryOf(tracker, id);
    tracker[id.0 := tracker[id.0][id.1 := e.(received := e.received + 1)]]
  }

  function Stored(replies: map<Id, seq<KVPairs>>, id: Id, kvs: KVPairs): map<Id, seq<KVPairs>> {
    var have := if id in replies then replies[id] else [];
    replies[id := if kvs.keys != [] then have + [kvs] else have]
  }

  predicate Enabled(st: State, e: Event) {
    match e
    case NewRequest(_, _) => true
    case AddCallback(id) => Exists(st.tracker, id)
    case Take(id, _, _) => st.phase.Idle? && Exists(st.tracker, id)
    case RunCallback => st.phase.Handling? && (st.phase.last && st.phase.id in st.callbacks ==> st.phase.id in st.replies)
    case Count => st.phase.Counting? && Exists(st.tracker, st.phase.id)
  }

  function Step(st: State, e: Event): State
    requires Enabled(st, e)
  {
    match e
    case NewRequest(kv, n) =>
      var t := Opened(st.tracker, kv);
      st.(tracker := t[kv := t[kv] + [Entry(n, 0)]])
    case AddCallback(id) => st.(callbacks := st.callbacks + {id})
    case Take(id, pull, kvs) =>
      var entry := EntryOf(st.tracker, id);
      st.(replies := if pull then Stored(st.replies, id, kvs) else st.replies,
          phase := Handling(id, entry.received == entry.expected - 1))
    case RunCallback =>
      var id := st.phase.id;
      if st.phase.last && id in st.callbacks then
        st.(callbacks := st.callbacks - {id}, replies := st.replies - {id},
            phase := Counting(id), ran := st.ran + [Ran(id, st.replies[id])])
      else st.(phase := Counting(id))
    case Count =>
      st.(tracker := Counted(st.tracker, st.phase.id), phase := Idle)
  }

  // ---------------------------------------------------- the client's fields

  class Client {
    var tracker: seq<seq<Entry>>
    var replies: map<Id, seq<KVPairs>>
    var callbacks: set<Id>
    ghost var phase: Phase
    ghost var ran: seq<Ran>

    ghost function St(): State
      reads this
    {
      State(tracker, replies, callbacks, phase, ran)
    }

    constructor ()
      ensures St() == START
    {
      tracker, replies, callbacks, phase, ran := [], map[], {}, Idle, [];
    }

    method NewRequest(kv: nat, expected: nat) returns (ts: nat)
      modifies this
      ensures St() == Step(old(St()), Event.NewRequest(kv, expected))
      ensures Exists(tracker, (kv, ts)) && EntryOf(tracker, (kv, ts)) == Entry(expected, 0)
      ensures !Exists(old(tracker), (kv, ts))
    {
      if kv >= |tracker| {
        tracker := tracker + seq(kv + 1 - |tracker|, _ => []);
      }
      tracker := tracker[kv := tracker[kv] + [Entry(expected, 0)]];
      ts := |tracker[kv]| - 1;
    }

    method AddCallback(id: Id)
      requires Exists(tracker, id)
      modifies this
      ensures St() == Step(old(St()), Event.AddCallback(id))
    {
      callbacks := callbacks + {id};
    }

    /** One look of a wait at the counts: whether it returns. */
    method WaitRequest(id: Id) returns (over: bool)
      requires Exists(tracker, id)
      ensures over <==> Done(tracker, id)
    {
      var entry := tracker[id.0][id.1];
      over := entry.expected == entry.received;
    }

    /** What the receiving thread does with one message, step by step. */
    method Receive(id: Id, pull: bool, kvs: KVPairs)
      requires Enabled(St(), Take(id, pull, kvs))
      requires EntryOf(tracker, id).received == EntryOf(tracker, id).expected - 1 && id in callbacks ==> pull || id in replies
      modifies this
      ensures Enabled(old(St()), Take(id, pull, kvs))
      ensures var st := Step(old(St()), Take(id, pull, kvs));
              && Enabled(st, Event.RunCallback)
              && Enabled(Step(st, Event.RunCallback), Event.Count)
              && St() == Step(Step(st, Event.RunCallback), Event.Count)
    {
      var runCallback := StoreReply(id, pull, kvs);
      if runCallback {
        RunCallback(id);
      } else {
        phase := Counting(id);
      }
      var entry := tracker[id.0][id.1];
      tracker := tracker[id.0 := tracker[id.0][id.1 := entry.(received := entry.received + 1)]];
      phase := Idle;
    }

    method StoreReply(id: Id, pull: bool, kvs: KVPairs) returns (runCallback: bool)
      requires Enabled(St(), Take(id, pull, kvs))
      modifies this
      ensures St() == Step(old(St()), Take(id, pull, kvs))
      ensures phase == Handling(id, runCallback)
    {
      var entry := tracker[id.0][id.1];
      runCallback := entry.received == entry.expected - 1;
      if pull {
        if id !in replies {
          replies := replies[id := []];
        }
        if |kvs.keys| != 0 {
          replies := replies[id := replies[id] + [kvs]];
        }
      }
      phase := Handling(id, runCallback);
    }

    method RunCallback(id: Id)
      requires phase == Handling(id, true) && Enabled(St(), Event.RunCallback)
      modifies this
      ensures St() == Step(old(St()), Event.RunCallback)
    {
      if id in callbacks {
        var kvs := replies[id];
        ran := ran + [Ran(id, kvs)];
        replies := replies - {id};
        callbacks := callbacks - {id};
      }
      phase := Counting(id);
    }
  }

  // ---------------------------------------------------------------- histories

  /** The replies taken for a request so far. */
  ghost function Arrived(log: seq<Event>, id: Id): seq<KVPairs> {
    if log == [] then []
    else
      var e, before := log[|log| - 1], Arrived(log[..|log| - 1], id);
      if e.Take? && e.id == id then before + [e.kvs] else before
  }

  ghost predicate Added(log: seq<Event>, id: Id) {
    AddCallback(id) in log
  }

  /** What clients and servers do: a pull adds its callback before it sends anything,
      and no request gets more replies than it waits for. */
  ghost predicate Allowed(log: seq<Event>, st: State, e: Event) {
    match e
    case NewRequest(_, _) => true
    case AddCallback(id) => Exists(st.tracker, id) && Arrived(log, id) == []
    case Take(id, pull, _) =>
      && st.phase.Idle? && Exists(st.tracker, id)
      && |Arrived(log, id)| < EntryOf(st.tracker, id).expected
      && pull == Added(log, id)
    case RunCallback => st.phase.Handling?
    case Count => st.phase.Counting?
  }

  /** The states a history of such events passes through. */
  ghost predicate Reaches(log: seq<Event>, st: State) {
    if log == [] then st == START
    else
      var before, e := log[..|log| - 1], log[|log| - 1];
      exists st0 :: Reaches(before, st0) && Allowed(before, st0, e) && Enabled(st0, e) && st == Step(st0, e)
  }

  function Carrying(kvs: seq<KVPairs>): seq<KVPairs> {
    if kvs == [] then []
    else
      var n := |kvs| - 1;
      if kvs[n].keys != [] then Carrying(kvs[..n]) + [kvs[n]] else Carrying(kvs[..n])
  }

  /** What the callbacks of one request found, run by run. */
  function RanFor(ran: seq<Ran>, id: Id): seq<seq<KVPairs>> {
    if ran == [] then []
    else
      var n := |ran| - 1;
      if ran[n].id == id then RanFor(ran[..n], id) + [ran[n].replies] else RanFor(ran[..n], id)
  }

  predicate About(phase: Phase, id: Id) {
    !phase.Idle? && phase.id == id
  }

  /** All replies are in and the last has been handled. */
  ghost predicate Complete(log: seq<Event>, st: State, id: Id)
    requires Exists(st.tracker, id)
  {
    && EntryOf(st.tracker, id).expected > 0
    && |Arrived(log, id)| == EntryOf(st.tracker, id).expected
    && !(st.phase.Handling? && st.phase.id == id)
  }

  /** What holds of a request at every point of a history. */
  ghost predicate Tracked(log: seq<Event>, st: State, id: Id) {
    if !Exists(st.tracker, id) then
      Arrived(log, id) == [] && !Added(log, id) && !About(st.phase, id) && RanFor(st.ran, id) == []
      && id !in st.callbacks && id !in st.replies
    else
      var entry, arrived := EntryOf(st.tracker, id), Arrived(log, id);
      && entry.received + (if About(st.phase, id) then 1 else 0) == |arrived| <= entry.expected
      && (st.phase.Handling? && st.phase.id == id ==> st.phase.last == (|arrived| == entry.expected))
      && (id in st.callbacks <==> Added(log, id) && !Complete(log, st, id))
      && RanFor(st.ran, id) == (if Added(log, id) && Complete(log, st, id) then [Carrying(arrived)] else [])
      && (Added(log, id) && arrived != [] && !Complete(log, st, id) ==> id in st.replies && st.replies[id] == Carrying(arrived))
      && (arrived == [] ==> id !in st.replies)
  }

  lemma {:induction false} TrackedAlways(log: seq<Event>, st: State, id: Id)
    requires Reaches(log, st)
    ensures Tracked(log, st, id)
  {
    if log != [] {
      var before, e := log[..|log| - 1], log[|log| - 1];
      var st0 :| Reaches(before, st0) && Allowed(before, st0, e) && Enabled(st0, e) && st == Step(st0, e);
      TrackedAlways(before, st0, id);
      assert log == before + [e];
      TrackedStep(before, st0, e, id);
    }
  }

  lemma TrackedStep(log: seq<Event>, st: State, e: Event, id: Id)
    requires Tracked(log, st, id) && Allowed(log, st, e) && Enabled(st, e)
    ensures Tracked(log + [e], Step(st, e), id)
  {
    assert (log + [e])[..|log + [e]| - 1] == log;
    match e
    case NewRequest(kv, n) =>
    case AddCallback(i) =>
    case Take(i, pull, kvs) =>
    case RunCallback =>
    case Count =>
  }

  /** Nothing a client or server does can find the receiving thread without the
      replies its callback needs. */
  lemma NeverMissing(log: seq<Event>, st: State, e: Event)
    requires Reaches(log, st) && Allowed(log, st, e)
    ensures Enabled(st, e)
  {
    if !st.phase.Idle? { TrackedAlways(log, st, st.phase.id); }
  }

  /** The callback of a pull runs exactly once, after its last reply was stored, on
      all replies that carry anything; with fewer replies in, not at all. */
  lemma CallbackOnce(log: seq<Event>, st: State, id: Id)
    requires Reaches(log, st) && Exists(st.tracker, id) && Added(log, id)
    ensures |RanFor(st.ran, id)| <= 1
    ensures |RanFor(st.ran, id)| == 1 <==> Complete(log, st, id)
    ensures |RanFor(st.ran, id)| == 1 ==> RanFor(st.ran, id)[0] == Carrying(Arrived(log, id))
  {
    TrackedAlways(log, st, id);
  }

  /** A wait returns exactly when as many replies as expected have come in and the
      receiving thread is through with them. */
  lemma WaitIff(log: seq<Event>, st: State, id: Id)
    requires Reaches(log, st) && Exists(st.tracker, id)
    ensures Done(st.tracker, id) <==> |Arrived(log, id)| == EntryOf(st.tracker, id).expected && !About(st.phase, id)
  {
    TrackedAlways(log, st, id);
  }

  /** A wait that returns for a request that expects replies returns after the
      callback ran. */
  lemma WaitAfterCallback(log: seq<Event>, st: State, id: Id)
    requires Reaches(log, st) && Exists(st.tracker, id)
    requires Done(st.tracker, id) && EntryOf(st.tracker, id).expected > 0
    ensures |Arrived(log, id)| == EntryOf(st.tracker, id).expected
    ensures Added(log, id) ==> RanFor(st.ran, id) == [Carrying(Arrived(log, id))] && id !in st.callbacks
  {
    TrackedAlways(log, st, id);
  }

  /** A request that expects no reply never runs its callback, though a wait for it
      returns at once. */
  lemma NoRepliesNoCallback(log: seq<Event>, st: State, id: Id)
    requires Reaches(log, st) && Exists(st.tracker, id) && EntryOf(st.tracker, id).expected == 0
    ensures RanFor(st.ran, id) == [] && EntryOf(st.tracker, id).received == 0
    ensures Added(log, id) ==> id in st.callbacks
  {
    TrackedAlways(log, st, id);
  }
}

// A keyed pull from request to returned wait: what the callback has put together by
// then is what one flat array holds.
module PullRun {
  import opened RangeManager
  import opened KvHandles
  import opened KvSlicing
  import opened Sharding
  import opened ReplyTracker

  lemma {:induction false} AllCarry(kvs: seq<KVPairs>)
    requires NonEmpty(kvs)
    ensures Carrying(kvs) == kvs
  {
    if kvs != [] {
      var n := |kvs| - 1;
      AllCarry(kvs[..n]);
      assert kvs == kvs[..n] + [kvs[n]];
    }
  }

  /** The request expected one reply from each server that had a key of it, those
      servers answered, each from its own store, in any order. When the wait returns,
      the callback has run once, and the values it gathered are the flat array's. */
  lemma WaitReturnsFlat(
    log: seq<Event>, st: State, id: Id, ranges: seq<Range>, stores: seq<Store>, flat: Store, keys: seq<nat>, replies: seq<KVPairs>)
    requires Reaches(log, st) && Exists(st.tracker, id) && Added(log, id)
    requires EntryOf(st.tracker, id).expected == |Kept(replies)| > 0 && Done(st.tracker, id)
    requires Shards(ranges, stores, flat) && Sorted(keys) && |replies| == |ranges|
    requires PullReplies(ranges, stores, keys, replies)
    requires multiset(Arrived(log, id)) <= multiset(Kept(replies))
    ensures |RanFor(st.ran, id)| == 1 && NonEmpty(RanFor(st.ran, id)[0])
    ensures var vals := AllVals(SortByFront(RanFor(st.ran, id)[0]));
            && |vals| <= |keys|
            && (forall i :: 0 <= i < |vals| ==> keys[i] < |flat| && vals[i] == flat[keys[i]])
            && forall i :: |vals| <= i < |keys| ==> keys[i] >= |flat|
  {
    hide Reaches, Shards, PullReplies, Sorted, Kept, Arrived, AllVals, SortByFront;
    var arrived := Arrived(log, id);
    WaitAfterCallback(log, st, id);
    SameSize(arrived, Kept(replies));
    PullRefines(ranges, stores, flat, keys, replies, arrived);
    AllCarry(arrived);
  }

  lemma SameSize<T>(a: seq<T>, b: seq<T>)
    requires |a| == |b| && multiset(a) <= multiset(b)
    ensures multiset(a) == multiset(b)
  {
    var rest := multiset(b) - multiset(a);
    assert multiset(b) == multiset(a) + rest;
    assert |multiset(b)| == |multiset(a)| + |rest|;
  }
}

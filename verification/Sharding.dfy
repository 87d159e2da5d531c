// A request cut up among the servers, applied by each to its own stretch of the key
// space and put back together, does what it would do to one flat array.
module Sharding {
  import opened RangeManager
  import opened KvHandles
  import opened KvSlicing

  // ------------------------------------------------------------ the refinement

  /** The ranges cover the keys below n without gaps or overlaps. */
  ghost predicate Tiles(ranges: seq<Range>, n: nat) {
    ranges != [] && Contiguous(ranges) && ranges[0].begin == 0 && ranges[|ranges| - 1].end == n
  }

  /** Every server holds its stretch of the flat array. */
  ghost predicate Shards(ranges: seq<Range>, stores: seq<Store>, flat: Store) {
    && Tiles(ranges, |flat|)
    && |stores| == |ranges|
    && (forall i :: 0 <= i < |ranges| ==> ranges[i].end <= |flat|)
    && forall i :: 0 <= i < |ranges| ==> stores[i] == flat[ranges[i].begin..ranges[i].end]
  }

  lemma PartitionTiles(maxKey: nat, chunkSize: nat, servers: nat, keys: seq<Range>, chunks: seq<Range>)
    requires IsPartition(maxKey, chunkSize, servers, keys, chunks)
    ensures Tiles(keys, maxKey)
  {
    forall i | 0 <= i < servers ensures keys[i].begin <= keys[i].end {
      FirstKeyMono(maxKey, chunkSize, servers, i, i + 1);
    }
    FirstKeyMono(maxKey, chunkSize, servers, 0, servers);
  }

  // ----------------------------------------------------- writing through a slice

  predicate Outside(keys: seq<nat>, r: Range) {
    forall i :: 0 <= i < |keys| ==> keys[i] < r.begin || r.end <= keys[i]
  }

  predicate Inside(keys: seq<nat>, r: Range) {
    forall i :: 0 <= i < |keys| ==> r.begin <= keys[i] < r.end
  }

  lemma {:induction false} WriteOutside(flat: Store, r: Range, keys: seq<nat>, vals: seq<real>, assign: bool)
    requires |vals| == |keys| && Within(keys, 0, |flat|)
    requires r.begin <= r.end <= |flat| && Outside(keys, r)
    ensures Write(flat, 0, keys, vals, assign)[r.begin..r.end] == flat[r.begin..r.end]
  {
    if keys != [] {
      WriteOutside(flat, r, keys[..|keys| - 1], vals[..|keys| - 1], assign);
    }
  }

  lemma {:induction false} WriteInside(flat: Store, r: Range, keys: seq<nat>, vals: seq<real>, assign: bool)
    requires |vals| == |keys| && Within(keys, 0, |flat|)
    requires r.begin <= r.end <= |flat| && Inside(keys, r)
    ensures Within(keys, r.begin, r.end - r.begin)
    ensures Write(flat, 0, keys, vals, assign)[r.begin..r.end] == Write(flat[r.begin..r.end], r.begin, keys, vals, assign)
  {
    if keys != [] {
      WriteInside(flat, r, keys[..|keys| - 1], vals[..|keys| - 1], assign);
    }
  }

  /** Of a batch of writes, a server needs those to its own keys only. */
  lemma WriteThrough(flat: Store, r: Range, k1: seq<nat>, v1: seq<real>, k2: seq<nat>, v2: seq<real>, k3: seq<nat>, v3: seq<real>, assign: bool)
    requires |v1| == |k1| && |v2| == |k2| && |v3| == |k3|
    requires Within(k1, 0, |flat|) && Within(k2, 0, |flat|) && Within(k3, 0, |flat|)
    requires r.begin <= r.end <= |flat| && Outside(k1, r) && Inside(k2, r) && Outside(k3, r)
    ensures Within(k1 + k2 + k3, 0, |flat|) && Within(k2, r.begin, r.end - r.begin)
    ensures Write(flat, 0, k1 + k2 + k3, v1 + v2 + v3, assign)[r.begin..r.end]
         == Write(flat[r.begin..r.end], r.begin, k2, v2, assign)
  {
    hide Write;
    WriteConcat(flat, 0, k1, v1, k2, v2, assign);
    WriteConcat(flat, 0, k1 + k2, v1 + v2, k3, v3, assign);
    var f1 := Write(flat, 0, k1, v1, assign);
    var f2 := Write(f1, 0, k2, v2, assign);
    WriteOutside(flat, r, k1, v1, assign);
    WriteInside(f1, r, k2, v2, assign);
    WriteOutside(f2, r, k3, v3, assign);
  }

  // --------------------------------------------------------------- keyed push

  /** What a server does with its slice of a push. */
  ghost function PushSlice(store: Store, r: Range, s: Slice, assign: bool): Store
    requires s.present ==> |s.vals| == |s.keys| && Within(s.keys, r.begin, |store|)
  {
    if s.present then Write(store, r.begin, s.keys, s.vals, assign) else store
  }

  lemma SliceIs(keys: seq<nat>, vals: seq<real>, r: Range)
    requires Sorted(keys) && |vals| == |keys| && r.begin <= r.end
    ensures var p, q := Below(keys, r.begin), Below(keys, r.end);
            && p <= q
            && SliceOf(keys, vals, r) == (if p < q then Slice(true, keys[p..q], vals[p..q]) else Slice(false, [], []))
  {
    hide Below, Sorted;
    BelowMono(keys, r.begin, r.end);
    if keys != [] { assert Stride(keys, vals) == 1; }
  }

  lemma BelowSplits(keys: seq<nat>, v: nat)
    requires Sorted(keys)
    ensures var p := Below(keys, v);
            && (forall i :: 0 <= i < p ==> keys[i] < v)
            && (forall i :: p <= i < |keys| ==> keys[i] >= v)
  {
  }

  /** The keys of a slice, between the keys before and those after. */
  lemma SliceSplits(keys: seq<nat>, vals: seq<real>, r: Range, n: nat)
    requires Sorted(keys) && |vals| == |keys| && r.begin <= r.end <= n
    ensures var p, q, kept := Below(keys, r.begin), Below(keys, r.end), Below(keys, n);
            && p <= q <= kept
            && SliceOf(keys, vals, r) == (if p < q then Slice(true, keys[p..q], vals[p..q]) else Slice(false, [], []))
            && Outside(keys[..p], r) && Inside(keys[p..q], r) && Outside(keys[q..kept], r)
            && keys[..kept] == keys[..p] + keys[p..q] + keys[q..kept]
            && vals[..kept] == vals[..p] + vals[p..q] + vals[q..kept]
            && Within(keys[..kept], 0, n)
  {
    hide SliceOf, Below, Sorted;
    SliceIs(keys, vals, r);
    BelowMono(keys, r.end, n);
    BelowSplits(keys, r.begin);
    BelowSplits(keys, r.end);
    BelowSplits(keys, n);
  }

  /** A keyed push refines a push to the flat array. Keys at or past the end of the
      key space are dropped. */
  lemma PushRefines(ranges: seq<Range>, stores: seq<Store>, flat: Store, keys: seq<nat>, vals: seq<real>, assign: bool, after: seq<Store>)
    requires Shards(ranges, stores, flat)
    requires Sorted(keys) && |vals| == |keys|
    requires |after| == |stores|
    requires forall i :: 0 <= i < |ranges| ==>
      var s := SliceOf(keys, vals, ranges[i]);
      && (s.present ==> |s.vals| == |s.keys| && Within(s.keys, ranges[i].begin, |stores[i]|))
      && after[i] == PushSlice(stores[i], ranges[i], s, assign)
    ensures var kept := Below(keys, |flat|);
      && Within(keys[..kept], 0, |flat|)
      && Shards(ranges, after, Write(flat, 0, keys[..kept], vals[..kept], assign))
  {
    hide Write, SliceOf, Below, Sorted;
    var kept := Below(keys, |flat|);
    var last := ranges[|ranges| - 1];
    SliceSplits(keys, vals, last, |flat|);
    var flat' := Write(flat, 0, keys[..kept], vals[..kept], assign);
    forall i | 0 <= i < |ranges| ensures after[i] == flat'[ranges[i].begin..ranges[i].end] {
      var r := ranges[i];
      SliceSplits(keys, vals, r, |flat|);
      var p, q := Below(keys, r.begin), Below(keys, r.end);
      WriteThrough(flat, r, keys[..p], vals[..p], keys[p..q], vals[p..q], keys[q..kept], vals[q..kept], assign);
      if p == q { WriteOutside(flat, r, keys[..p], vals[..p], assign); EmptyWrite(stores[i], r.begin, keys[p..q], vals[p..q], assign); }
    }
  }

  /** The same, cell by cell, when no key is named twice: the servers together hold an
      array with every value in its place and everything else as it was. */
  lemma PushCells(ranges: seq<Range>, stores: seq<Store>, flat: Store, keys: seq<nat>, vals: seq<real>, assign: bool, after: seq<Store>)
    returns (flat': Store)
    requires Shards(ranges, stores, flat)
    requires Increasing(keys) && Sorted(keys) && |vals| == |keys|
    requires |after| == |stores|
    requires forall i :: 0 <= i < |ranges| ==>
      var s := SliceOf(keys, vals, ranges[i]);
      && (s.present ==> |s.vals| == |s.keys| && Within(s.keys, ranges[i].begin, |stores[i]|))
      && after[i] == PushSlice(stores[i], ranges[i], s, assign)
    ensures Shards(ranges, after, flat') && |flat'| == |flat|
    ensures forall i :: 0 <= i < |keys| && keys[i] < |flat| ==>
              flat'[keys[i]] == if assign then vals[i] else flat[keys[i]] + vals[i]
    ensures forall k :: 0 <= k < |flat| && k !in keys ==> flat'[k] == flat[k]
  {
    hide Write, SliceOf, Below, Sorted, Shards, Increasing, PushSlice;
    PushRefines(ranges, stores, flat, keys, vals, assign, after);
    var kept := Below(keys, |flat|);
    flat' := Write(flat, 0, keys[..kept], vals[..kept], assign);
    WriteCells(flat, keys, vals, assign);
  }

  lemma WriteCells(flat: Store, keys: seq<nat>, vals: seq<real>, assign: bool)
    requires Increasing(keys) && Sorted(keys) && |vals| == |keys|
    requires Within(keys[..Below(keys, |flat|)], 0, |flat|)
    ensures var kept := Below(keys, |flat|);
            var flat' := Write(flat, 0, keys[..kept], vals[..kept], assign);
            && (forall i :: 0 <= i < |keys| && keys[i] < |flat| ==>
                  flat'[keys[i]] == if assign then vals[i] else flat[keys[i]] + vals[i])
            && forall k :: 0 <= k < |flat| && k !in keys ==> flat'[k] == flat[k]
  {
    hide Write, Below;
    BelowSplits(keys, |flat|);
    var kept := Below(keys, |flat|);
    var flat' := Write(flat, 0, keys[..kept], vals[..kept], assign);
    forall k | 0 <= k < |flat| && k !in keys ensures flat'[k] == flat[k] {
      WriteAt(flat, 0, keys[..kept], vals[..kept], assign, k);
    }
    forall i | 0 <= i < |keys| && keys[i] < |flat| ensures flat'[keys[i]] == if assign then vals[i] else flat[keys[i]] + vals[i] {
      WriteAt(flat, 0, keys[..kept], vals[..kept], assign, keys[i]);
      assert i < kept && keys[..kept][i] == keys[i];
    }
  }

  lemma EmptyWrite(store: Store, first: nat, keys: seq<nat>, vals: seq<real>, assign: bool)
    requires keys == [] && vals == []
    ensures Write(store, first, keys, vals, assign) == store
  {
  }

  /** A server is never handed a key outside its stretch. */
  lemma SliceFits(ranges: seq<Range>, stores: seq<Store>, flat: Store, keys: seq<nat>, vals: seq<real>, i: nat)
    requires Shards(ranges, stores, flat) && Sorted(keys) && |vals| == |keys| && i < |ranges|
    ensures var s := SliceOf(keys, vals, ranges[i]);
            && s.present == (s.keys != [])
            && |s.vals| == |s.keys| && Within(s.keys, ranges[i].begin, |stores[i]|)
  {
    SliceSplits(keys, vals, ranges[i], |flat|);
  }

  // --------------------------------------------------------------- keyed pull

  /** The messages that carry anything, which are those the client keeps. */
  ghost function Kept(replies: seq<KVPairs>): (r: seq<KVPairs>)
    ensures NonEmpty(r)
  {
    if replies == [] then []
    else
      var n := |replies| - 1;
      if replies[n].keys == [] then Kept(replies[..n]) else Kept(replies[..n]) + [replies[n]]
  }

  /** The first keys of the replies rise from server to server. */
  ghost predicate Rising(replies: seq<KVPairs>) {
    forall i, j :: 0 <= i < j < |replies| && replies[i].keys != [] && replies[j].keys != [] ==>
      replies[i].keys[0] < replies[j].keys[0]
  }

  lemma {:induction false} KeptFrom(replies: seq<KVPairs>)
    ensures forall x :: x in Kept(replies) ==> x in replies && x.keys != []
  {
    if replies != [] {
      KeptFrom(replies[..|replies| - 1]);
      assert replies == replies[..|replies| - 1] + [replies[|replies| - 1]];
    }
  }

  lemma {:induction false} KeptRises(replies: seq<KVPairs>)
    requires Rising(replies)
    ensures FrontIncreasing(Kept(replies))
  {
    if replies != [] {
      var n := |replies| - 1;
      KeptRises(replies[..n]);
      KeptFrom(replies[..n]);
      var kept := Kept(replies[..n]);
      forall i | 0 <= i < |kept| && replies[n].keys != [] ensures kept[i].keys[0] < replies[n].keys[0] {
        assert kept[i] in replies[..n];
      }
    }
  }

  lemma {:induction false} KeptVals(replies: seq<KVPairs>)
    requires forall i :: 0 <= i < |replies| && replies[i].keys == [] ==> replies[i].vals == []
    ensures AllVals(Kept(replies)) == AllVals(replies)
  {
    if replies != [] {
      var n := |replies| - 1;
      KeptVals(replies[..n]);
      if replies[n].keys != [] {
        assert (Kept(replies[..n]) + [replies[n]])[..|Kept(replies)| - 1] == Kept(replies[..n]);
      }
    }
  }

  /** The servers' replies to a keyed pull, each reading its own store. */
  ghost predicate PullReplies(ranges: seq<Range>, stores: seq<Store>, keys: seq<nat>, replies: seq<KVPairs>)
    requires Sorted(keys) && |stores| == |ranges| == |replies| && Contiguous(ranges)
  {
    forall i :: 0 <= i < |ranges| ==>
      var s := SliceOf(keys, [], ranges[i]);
      && Within(s.keys, ranges[i].begin, |stores[i]|)
      && replies[i] == KVPairs(s.keys, Read(stores[i], ranges[i].begin, s.keys))
  }

  /** A pull request is cut as a push is, without values. */
  lemma PullSlice(keys: seq<nat>, r: Range)
    requires Sorted(keys) && r.begin <= r.end
    ensures var p, q := Below(keys, r.begin), Below(keys, r.end);
            p <= q && SliceOf(keys, [], r).keys == keys[p..q]
  {
  }

  lemma ReadThrough(flat: Store, r: Range, keys: seq<nat>)
    requires r.begin <= r.end <= |flat| && Inside(keys, r)
    ensures Within(keys, r.begin, r.end - r.begin) && Within(keys, 0, |flat|)
    ensures Read(flat[r.begin..r.end], r.begin, keys) == Read(flat, 0, keys)
  {
  }

  lemma NoneBelowZero(keys: seq<nat>)
    ensures Below(keys, 0) == 0
  {
  }

  /** One after the other, the replies of the first servers hold the values of the
      keys below the last one's end. */
  lemma {:induction false} RepliesRead(ranges: seq<Range>, stores: seq<Store>, flat: Store, keys: seq<nat>, replies: seq<KVPairs>, n: nat)
    requires Shards(ranges, stores, flat) && Sorted(keys) && |replies| == |ranges|
    requires PullReplies(ranges, stores, keys, replies)
    requires 0 < n <= |ranges|
    ensures var q := Below(keys, ranges[n - 1].end);
            && Within(keys[..q], 0, |flat|)
            && AllVals(replies[..n]) == Read(flat, 0, keys[..q])
  {
    hide SliceOf, Below, Sorted;
    var r := ranges[n - 1];
    var p, q := Below(keys, r.begin), Below(keys, r.end);
    PullSlice(keys, r);
    BelowSplits(keys, r.begin);
    BelowSplits(keys, r.end);
    ReadThrough(flat, r, keys[p..q]);
    assert replies[n - 1].vals == Read(flat, 0, keys[p..q]);
    assert replies[..n][..n - 1] == replies[..n - 1];
    assert keys[..q] == keys[..p] + keys[p..q];
    if n > 1 {
      RepliesRead(ranges, stores, flat, keys, replies, n - 1);
      ReadConcat(flat, 0, keys[..p], keys[p..q]);
    } else {
      NoneBelowZero(keys);
      assert keys[..p] == [];
    }
  }

  lemma ReadIs(flat: Store, keys: seq<nat>)
    requires Within(keys, 0, |flat|)
    ensures |Read(flat, 0, keys)| == |keys| && forall i :: 0 <= i < |keys| ==> Read(flat, 0, keys)[i] == flat[keys[i]]
  {
  }

  lemma RepliesRise(ranges: seq<Range>, stores: seq<Store>, keys: seq<nat>, replies: seq<KVPairs>)
    requires Sorted(keys) && |stores| == |ranges| == |replies| && Contiguous(ranges)
    requires PullReplies(ranges, stores, keys, replies)
    ensures Rising(replies)
  {
    hide SliceOf, Below, Sorted;
    EndsSorted(ranges);
    forall i, j | 0 <= i < j < |replies| && replies[i].keys != [] && replies[j].keys != []
      ensures replies[i].keys[0] < replies[j].keys[0]
    {
      PullSlice(keys, ranges[i]);
      PullSlice(keys, ranges[j]);
      BelowSplits(keys, ranges[i].end);
      BelowSplits(keys, ranges[j].begin);
      assert ranges[i].end <= ranges[j - 1].end == ranges[j].begin;
    }
  }

  lemma PullReads(ranges: seq<Range>, stores: seq<Store>, flat: Store, keys: seq<nat>, replies: seq<KVPairs>, arrived: seq<KVPairs>)
    requires Shards(ranges, stores, flat) && Sorted(keys) && |replies| == |ranges|
    requires PullReplies(ranges, stores, keys, replies)
    requires multiset(arrived) == multiset(Kept(replies))
    ensures NonEmpty(arrived)
    ensures var kept := Below(keys, |flat|);
            && Within(keys[..kept], 0, |flat|)
            && AllVals(SortByFront(arrived)) == Read(flat, 0, keys[..kept])
  {
    hide SliceOf, Below, Sorted, PullReplies, AllVals, Read, SortByFront;
    forall i | 0 <= i < |arrived| ensures arrived[i].keys != [] {
      assert arrived[i] in multiset(Kept(replies));
    }
    RepliesRise(ranges, stores, keys, replies);
    KeptRises(replies);
    SortByFrontSorts(arrived);
    SortRestores(SortByFront(arrived), Kept(replies));
    EmptyReplies(ranges, stores, keys, replies);
    KeptVals(replies);
    RepliesRead(ranges, stores, flat, keys, replies, |ranges|);
    assert replies[..|ranges|] == replies;
  }

  /** In whatever order the replies arrive, a keyed pull returns the flat array's
      values in request order. Keys at or past the end of the key space return
      nothing. */
  lemma PullRefines(ranges: seq<Range>, stores: seq<Store>, flat: Store, keys: seq<nat>, replies: seq<KVPairs>, arrived: seq<KVPairs>)
    requires Shards(ranges, stores, flat) && Sorted(keys) && |replies| == |ranges|
    requires PullReplies(ranges, stores, keys, replies)
    requires multiset(arrived) == multiset(Kept(replies))
    ensures NonEmpty(arrived)
    ensures var vals := AllVals(SortByFront(arrived));
            && |vals| <= |keys|
            && (forall i :: 0 <= i < |vals| ==> keys[i] < |flat| && vals[i] == flat[keys[i]])
            && forall i :: |vals| <= i < |keys| ==> keys[i] >= |flat|
  {
    hide Shards, Sorted, PullReplies, Kept, AllVals, SortByFront, Below, Read;
    PullReads(ranges, stores, flat, keys, replies, arrived);
    BelowSplits(keys, |flat|);
    ReadIs(flat, keys[..Below(keys, |flat|)]);
  }

  lemma EmptyReplies(ranges: seq<Range>, stores: seq<Store>, keys: seq<nat>, replies: seq<KVPairs>)
    requires Sorted(keys) && |stores| == |ranges| == |replies| && Contiguous(ranges)
    requires PullReplies(ranges, stores, keys, replies)
    ensures forall i :: 0 <= i < |replies| && replies[i].keys == [] ==> replies[i].vals == []
  {
  }

  // --------------------------------------------------------------- chunked push

  /** The boundaries between the servers' shares of the chunks. */
  ghost predicate Cut(ids: seq<nat>, chunkSize: nat, ranges: seq<Range>, pos: seq<nat>) {
    && |pos| == |ranges| + 1 && pos[0] == 0
    && forall i :: 0 <= i < |ranges| ==> pos[i + 1] == Below(Starts(ids, chunkSize), ranges[i].end)
  }

  /** A request for whole chunks of the key space. */
  ghost predicate Chunked(maxKey: nat, chunkSize: nat, servers: nat, ranges: seq<Range>, chunkRanges: seq<Range>, ids: seq<nat>) {
    && IsPartition(maxKey, chunkSize, servers, ranges, chunkRanges)
    && Sorted(ids) && forall i :: 0 <= i < |ids| ==> ids[i] * chunkSize < maxKey
  }

  /** No chunk straddles a boundary between servers. */
  lemma ChunkWhole(maxKey: nat, chunkSize: nat, servers: nat, i: nat, chunk: nat)
    requires maxKey > 0 && chunkSize > 0 && servers > 0 && i <= servers && chunk * chunkSize < maxKey
    requires chunk * chunkSize < FirstKey(maxKey, chunkSize, servers, i)
    ensures chunk * chunkSize + ChunkLen(maxKey, chunkSize, chunk) <= FirstKey(maxKey, chunkSize, servers, i)
  {
    var first := FirstChunk(ChunkNum(maxKey, chunkSize), servers, i);
    BelowFirst(maxKey, chunkSize, servers, i, chunk);
    MulMono(chunk + 1, first, chunkSize);
    assert (chunk + 1) * chunkSize == chunk * chunkSize + chunkSize;
  }

  /** Server i's share of the chunks are those that lie in its range, whole. */
  lemma CutShares(maxKey: nat, chunkSize: nat, servers: nat, ranges: seq<Range>, chunkRanges: seq<Range>, ids: seq<nat>, pos: seq<nat>, i: nat)
    requires Chunked(maxKey, chunkSize, servers, ranges, chunkRanges, ids)
    requires Cut(ids, chunkSize, ranges, pos) && i < servers
    ensures pos[i] <= pos[i + 1] <= |ids|
    ensures forall k :: 0 <= k < pos[i] ==> ids[k] * chunkSize + ChunkLen(maxKey, chunkSize, ids[k]) <= ranges[i].begin
    ensures forall k :: pos[i] <= k < pos[i + 1] ==>
              ranges[i].begin <= ids[k] * chunkSize && ids[k] * chunkSize + ChunkLen(maxKey, chunkSize, ids[k]) <= ranges[i].end
    ensures forall k :: pos[i + 1] <= k < |ids| ==> ranges[i].end <= ids[k] * chunkSize
  {
    hide Below, Sorted, ChunkLen, FirstKey;
    var starts := Starts(ids, chunkSize);
    StartsSorted(ids, chunkSize);
    PartitionTiles(maxKey, chunkSize, servers, ranges, chunkRanges);
    CutBegins(maxKey, chunkSize, servers, ranges, chunkRanges, ids, pos, i);
    BelowMono(starts, ranges[i].begin, ranges[i].end);
    BelowSplits(starts, ranges[i].begin);
    BelowSplits(starts, ranges[i].end);
    forall k | 0 <= k < pos[i] ensures ids[k] * chunkSize + ChunkLen(maxKey, chunkSize, ids[k]) <= ranges[i].begin {
      assert starts[k] < ranges[i].begin;
      ChunkWhole(maxKey, chunkSize, servers, i, ids[k]);
    }
    forall k | pos[i] <= k < pos[i + 1]
      ensures ranges[i].begin <= ids[k] * chunkSize && ids[k] * chunkSize + ChunkLen(maxKey, chunkSize, ids[k]) <= ranges[i].end
    {
      assert ranges[i].begin <= starts[k] < ranges[i].end;
      ChunkWhole(maxKey, chunkSize, servers, i + 1, ids[k]);
    }
    forall k | pos[i + 1] <= k < |ids| ensures ranges[i].end <= ids[k] * chunkSize {
      assert starts[k] >= ranges[i].end;
    }
  }

  lemma CutBegins(maxKey: nat, chunkSize: nat, servers: nat, ranges: seq<Range>, chunkRanges: seq<Range>, ids: seq<nat>, pos: seq<nat>, i: nat)
    requires Chunked(maxKey, chunkSize, servers, ranges, chunkRanges, ids)
    requires Cut(ids, chunkSize, ranges, pos) && i < servers
    ensures pos[i] == Below(Starts(ids, chunkSize), ranges[i].begin)
  {
    PartitionTiles(maxKey, chunkSize, servers, ranges, chunkRanges);
    if i == 0 {
      StartsSorted(ids, chunkSize);
      BelowIs(Starts(ids, chunkSize), ranges[0].begin, 0);
    } else {
      assert ranges[i - 1].end == ranges[i].begin;
    }
  }

  /** Every chunk has a server. */
  lemma CutEnds(maxKey: nat, chunkSize: nat, servers: nat, ranges: seq<Range>, chunkRanges: seq<Range>, ids: seq<nat>, pos: seq<nat>)
    requires Chunked(maxKey, chunkSize, servers, ranges, chunkRanges, ids)
    requires Cut(ids, chunkSize, ranges, pos)
    ensures pos[servers] == |ids|
  {
    PartitionTiles(maxKey, chunkSize, servers, ranges, chunkRanges);
    StartsSorted(ids, chunkSize);
    BelowIs(Starts(ids, chunkSize), ranges[servers - 1].end, |ids|);
  }

  lemma {:induction false} ConcatSplits<T>(a: seq<seq<T>>, b: seq<seq<T>>)
    ensures Concat(a + b) == Concat(a) + Concat(b)
  {
    if b == [] {
      assert a + b == a;
    } else {
      var n := |b| - 1;
      ConcatSplits(a, b[..n]);
      assert (a + b)[..|a + b| - 1] == a + b[..n];
    }
  }

  lemma NoChunkKeys(chunkSize: nat)
    ensures ChunkKeys(chunkSize, [], []) == []
  {
  }

  lemma LastChunkKeys(chunkSize: nat, ids: seq<nat>, chunks: seq<seq<real>>, id: nat, chunk: seq<real>)
    requires |chunks| == |ids|
    ensures ChunkKeys(chunkSize, ids + [id], chunks + [chunk]) == ChunkKeys(chunkSize, ids, chunks) + Run(id * chunkSize, |chunk|)
  {
    hide Run;
    assert (ids + [id])[..|ids|] == ids && (chunks + [chunk])[..|ids|] == chunks;
  }

  lemma {:induction false} ChunkKeysSplit(chunkSize: nat, a: seq<nat>, x: seq<seq<real>>, b: seq<nat>, y: seq<seq<real>>)
    requires |x| == |a| && |y| == |b|
    ensures ChunkKeys(chunkSize, a + b, x + y) == ChunkKeys(chunkSize, a, x) + ChunkKeys(chunkSize, b, y)
  {
    hide ChunkKeys, Run;
    if b == [] {
      assert a + b == a && x + y == x;
      NoChunkKeys(chunkSize);
    } else {
      var n := |b| - 1;
      ChunkKeysSplit(chunkSize, a, x, b[..n], y[..n]);
      assert a + b == a + b[..n] + [b[n]] && x + y == x + y[..n] + [y[n]];
      LastChunkKeys(chunkSize, a + b[..n], x + y[..n], b[n], y[n]);
      LastChunkKeys(chunkSize, b[..n], y[..n], b[n], y[n]);
      assert b == b[..n] + [b[n]] && y == y[..n] + [y[n]];
      assert ChunkKeys(chunkSize, a, x) + (ChunkKeys(chunkSize, b[..n], y[..n]) + Run(b[n] * chunkSize, |y[n]|))
          == ChunkKeys(chunkSize, a, x) + ChunkKeys(chunkSize, b[..n], y[..n]) + Run(b[n] * chunkSize, |y[n]|);
    }
  }

  lemma {:induction false} ChunkKeysOutside(chunkSize: nat, ids: seq<nat>, chunks: seq<seq<real>>, r: Range)
    requires |chunks| == |ids|
    requires forall k :: 0 <= k < |ids| ==> ids[k] * chunkSize + |chunks[k]| <= r.begin || r.end <= ids[k] * chunkSize
    ensures Outside(ChunkKeys(chunkSize, ids, chunks), r)
  {
    if ids != [] { ChunkKeysOutside(chunkSize, ids[..|ids| - 1], chunks[..|ids| - 1], r); }
  }

  /** The chunks pushed are no longer than the chunks of the key space. */
  ghost predicate FullChunks(maxKey: nat, chunkSize: nat, ids: seq<nat>, chunks: seq<seq<real>>) {
    && |chunks| == |ids|
    && forall i :: 0 <= i < |ids| ==> ids[i] * chunkSize < maxKey && |chunks[i]| <= ChunkLen(maxKey, chunkSize, ids[i])
  }

  lemma ChunksWithin(maxKey: nat, chunkSize: nat, r: Range, ids: seq<nat>, chunks: seq<seq<real>>)
    requires FullChunks(maxKey, chunkSize, ids, chunks) && maxKey < KEY_LIMIT && r.begin <= r.end <= maxKey
    requires forall k :: 0 <= k < |ids| ==>
               r.begin <= ids[k] * chunkSize && ids[k] * chunkSize + ChunkLen(maxKey, chunkSize, ids[k]) <= r.end
    ensures ChunksFit(chunkSize, r.begin, r.end - r.begin, ids, chunks)
    ensures var ks := ChunkKeys(chunkSize, ids, chunks);
            |ks| == |Concat(chunks)| && Within(ks, r.begin, r.end - r.begin)
  {
  }

  /** One server's part of a chunked push. */
  lemma ChunkPushThrough(maxKey: nat, chunkSize: nat, r: Range, flat: Store, ids: seq<nat>, chunks: seq<seq<real>>, p: nat, q: nat, assign: bool)
    requires FullChunks(maxKey, chunkSize, ids, chunks) && |flat| == maxKey < KEY_LIMIT
    requires r.begin <= r.end <= maxKey && p <= q <= |ids|
    requires forall k :: 0 <= k < p ==> ids[k] * chunkSize + ChunkLen(maxKey, chunkSize, ids[k]) <= r.begin
    requires forall k :: p <= k < q ==>
               r.begin <= ids[k] * chunkSize && ids[k] * chunkSize + ChunkLen(maxKey, chunkSize, ids[k]) <= r.end
    requires forall k :: q <= k < |ids| ==> r.end <= ids[k] * chunkSize
    ensures ChunksFit(chunkSize, r.begin, r.end - r.begin, ids[p..q], chunks[p..q])
    ensures var ks := ChunkKeys(chunkSize, ids[p..q], chunks[p..q]);
            |ks| == |Concat(chunks[p..q])| && Within(ks, r.begin, r.end - r.begin)
    ensures var ks := ChunkKeys(chunkSize, ids, chunks);
            |ks| == |Concat(chunks)| && Within(ks, 0, maxKey)
    ensures Write(flat, 0, ChunkKeys(chunkSize, ids, chunks), Concat(chunks), assign)[r.begin..r.end]
         == Write(flat[r.begin..r.end], r.begin, ChunkKeys(chunkSize, ids[p..q], chunks[p..q]), Concat(chunks[p..q]), assign)
  {
    hide Write, ChunkKeys, Concat, ChunkLen;
    var all := Range(0, maxKey);
    assert forall k :: 0 <= k < |ids| ==> ids[k] * chunkSize + ChunkLen(maxKey, chunkSize, ids[k]) <= maxKey by { ChunkLenFits(maxKey, chunkSize, ids, chunks); }
    ChunksWithin(maxKey, chunkSize, all, ids, chunks);
    ChunksWithin(maxKey, chunkSize, all, ids[..p], chunks[..p]);
    ChunksWithin(maxKey, chunkSize, r, ids[p..q], chunks[p..q]);
    ChunksWithin(maxKey, chunkSize, all, ids[q..], chunks[q..]);
    ChunkKeysOutside(chunkSize, ids[..p], chunks[..p], r);
    ChunkKeysOutside(chunkSize, ids[q..], chunks[q..], r);
    assert ids == ids[..p] + ids[p..q] + ids[q..] && chunks == chunks[..p] + chunks[p..q] + chunks[q..];
    ChunkKeysSplit(chunkSize, ids[..p], chunks[..p], ids[p..q], chunks[p..q]);
    ChunkKeysSplit(chunkSize, ids[..p] + ids[p..q], chunks[..p] + chunks[p..q], ids[q..], chunks[q..]);
    ConcatSplits(chunks[..p], chunks[p..q]);
    ConcatSplits(chunks[..p] + chunks[p..q], chunks[q..]);
    WriteThrough(flat, r, ChunkKeys(chunkSize, ids[..p], chunks[..p]), Concat(chunks[..p]),
                 ChunkKeys(chunkSize, ids[p..q], chunks[p..q]), Concat(chunks[p..q]),
                 ChunkKeys(chunkSize, ids[q..], chunks[q..]), Concat(chunks[q..]), assign);
  }

  lemma ChunkLenFits(maxKey: nat, chunkSize: nat, ids: seq<nat>, chunks: seq<seq<real>>)
    requires FullChunks(maxKey, chunkSize, ids, chunks)
    ensures forall k :: 0 <= k < |ids| ==> ids[k] * chunkSize + ChunkLen(maxKey, chunkSize, ids[k]) <= maxKey
  {
  }

  /** A server has written its share of the chunks. */
  ghost predicate SharePushed(store: Store, r: Range, chunkSize: nat, ids: seq<nat>, chunks: seq<seq<real>>, p: nat, q: nat, assign: bool, after: Store)
    requires |chunks| == |ids|
  {
    && p <= q <= |ids|
    && var keys, vals := ChunkKeys(chunkSize, ids[p..q], chunks[p..q]), Concat(chunks[p..q]);
    && |vals| == |keys| && Within(keys, r.begin, |store|)
    && after == Write(store, r.begin, keys, vals, assign)
  }

  /** A chunked push refines writing the chunks into the flat array. */
  lemma PushChunksRefines(maxKey: nat, chunkSize: nat, servers: nat, ranges: seq<Range>, chunkRanges: seq<Range>,
                          stores: seq<Store>, flat: Store, ids: seq<nat>, chunks: seq<seq<real>>, pos: seq<nat>, assign: bool, after: seq<Store>)
    requires Chunked(maxKey, chunkSize, servers, ranges, chunkRanges, ids)
    requires Shards(ranges, stores, flat) && |flat| == maxKey < KEY_LIMIT
    requires FullChunks(maxKey, chunkSize, ids, chunks) && Cut(ids, chunkSize, ranges, pos)
    requires |after| == |stores|
    requires forall i :: 0 <= i < |ranges| ==>
      SharePushed(stores[i], ranges[i], chunkSize, ids, chunks, pos[i], pos[i + 1], assign, after[i])
    ensures var ks := ChunkKeys(chunkSize, ids, chunks);
      && |ks| == |Concat(chunks)| && Within(ks, 0, |flat|)
      && Shards(ranges, after, Write(flat, 0, ks, Concat(chunks), assign))
  {
    hide Write, ChunkKeys, Concat, ChunkLen, Below, Starts, KeyRange, ChunkRange;
    CutShares(maxKey, chunkSize, servers, ranges, chunkRanges, ids, pos, 0);
    ChunkPushThrough(maxKey, chunkSize, ranges[0], flat, ids, chunks, pos[0], pos[1], assign);
    forall i | 0 <= i < |ranges|
      ensures after[i] == Write(flat, 0, ChunkKeys(chunkSize, ids, chunks), Concat(chunks), assign)[ranges[i].begin..ranges[i].end]
    {
      CutShares(maxKey, chunkSize, servers, ranges, chunkRanges, ids, pos, i);
      ChunkPushThrough(maxKey, chunkSize, ranges[i], flat, ids, chunks, pos[i], pos[i + 1], assign);
    }
  }

  /** The same, cell by cell, when no chunk is named twice: the servers together hold
      an array with every cell of every chunk in its place and the rest as it was. */
  lemma PushChunksCells(maxKey: nat, chunkSize: nat, servers: nat, ranges: seq<Range>, chunkRanges: seq<Range>,
                        stores: seq<Store>, flat: Store, ids: seq<nat>, chunks: seq<seq<real>>, pos: seq<nat>, assign: bool, after: seq<Store>)
    returns (flat': Store)
    requires Chunked(maxKey, chunkSize, servers, ranges, chunkRanges, ids) && Increasing(ids)
    requires Shards(ranges, stores, flat) && |flat| == maxKey < KEY_LIMIT
    requires FullChunks(maxKey, chunkSize, ids, chunks) && Cut(ids, chunkSize, ranges, pos)
    requires |after| == |stores|
    requires forall i :: 0 <= i < |ranges| ==>
      SharePushed(stores[i], ranges[i], chunkSize, ids, chunks, pos[i], pos[i + 1], assign, after[i])
    ensures Shards(ranges, after, flat') && |flat'| == maxKey
    ensures forall i, j :: 0 <= i < |ids| && 0 <= j < |chunks[i]| ==>
              var k := ids[i] * chunkSize + j;
              k < maxKey && flat'[k] == if assign then chunks[i][j] else flat[k] + chunks[i][j]
    ensures forall k :: 0 <= k < maxKey ==>
              (forall i :: 0 <= i < |ids| ==> k < ids[i] * chunkSize || ids[i] * chunkSize + |chunks[i]| <= k) ==>
              flat'[k] == flat[k]
  {
    hide Write, ChunkKeys, Concat, Shards, Sorted, Cut, IsPartition, SharePushed;
    PushChunksRefines(maxKey, chunkSize, servers, ranges, chunkRanges, stores, flat, ids, chunks, pos, assign, after);
    flat' := Write(flat, 0, ChunkKeys(chunkSize, ids, chunks), Concat(chunks), assign);
    ChunksWritten(flat, 0, chunkSize, ids, chunks, assign);
  }

  /** Pulling what was pushed: full chunks assigned are the chunks then read. */
  lemma PushThenPull(maxKey: nat, chunkSize: nat, flat: Store, ids: seq<nat>, chunks: seq<seq<real>>)
    requires |flat| == maxKey < KEY_LIMIT && Increasing(ids) && |chunks| == |ids|
    requires forall i :: 0 <= i < |ids| ==> ids[i] * chunkSize < maxKey && |chunks[i]| == ChunkLen(maxKey, chunkSize, ids[i])
    ensures var keys, vals := ChunkKeys(chunkSize, ids, chunks), Concat(chunks);
            |vals| == |keys| && Within(keys, 0, |flat|) && FlatChunks(Write(flat, 0, keys, vals, true), chunkSize, ids) == chunks
  {
    hide Write, ChunkKeys, Concat;
    ChunksWritten(flat, 0, chunkSize, ids, chunks, true);
    var flat' := Write(flat, 0, ChunkKeys(chunkSize, ids, chunks), Concat(chunks), true);
    forall i | 0 <= i < |ids| ensures FlatChunks(flat', chunkSize, ids)[i] == chunks[i] {
      FlatChunkAt(flat', chunkSize, ids, i);
      assert (ids[i] + 1) * chunkSize == ids[i] * chunkSize + chunkSize;
    }
  }

  // --------------------------------------------------------------- chunked pull

  lemma {:induction false} PulledSplit(maxKey: nat, chunkSize: nat, a: seq<nat>, b: seq<nat>)
    requires forall i :: 0 <= i < |a| ==> a[i] * chunkSize < maxKey
    requires forall i :: 0 <= i < |b| ==> b[i] * chunkSize < maxKey
    ensures forall i :: 0 <= i < |a + b| ==> (a + b)[i] * chunkSize < maxKey
    ensures PulledKeys(maxKey, chunkSize, a + b) == PulledKeys(maxKey, chunkSize, a) + PulledKeys(maxKey, chunkSize, b)
  {
    hide ChunkLen, Run;
    if b == [] {
      assert a + b == a;
    } else {
      var n := |b| - 1;
      PulledSplit(maxKey, chunkSize, a, b[..n]);
      assert (a + b)[..|a + b| - 1] == a + b[..n];
    }
  }

  /** Chunks before the last are whole. */
  lemma {:induction false} PulledLength(maxKey: nat, chunkSize: nat, ids: seq<nat>)
    requires maxKey > 0 && chunkSize > 0
    requires forall i :: 0 <= i < |ids| ==> ids[i] * chunkSize < maxKey && ids[i] + 1 < ChunkNum(maxKey, chunkSize)
    ensures |PulledKeys(maxKey, chunkSize, ids)| == |ids| * chunkSize
  {
    hide ChunkNum, ChunkLen;
    if ids != [] {
      var n := |ids| - 1;
      PulledLength(maxKey, chunkSize, ids[..n]);
      RealChunkSize(maxKey, chunkSize, ids[n]);
      assert (n + 1) * chunkSize == n * chunkSize + chunkSize;
    }
  }

  lemma ReadRun(flat: Store, r: Range, first: nat, n: nat)
    requires r.begin <= first && first + n <= r.end <= |flat|
    ensures Within(Run(first, n), r.begin, r.end - r.begin)
    ensures Read(flat[r.begin..r.end], r.begin, Run(first, n)) == flat[first..first + n]
  {
  }

  /** The values of chunk i stand in the reply where the client cuts them out. */
  lemma PulledChunk(maxKey: nat, chunkSize: nat, flat: Store, r: Range, ids: seq<nat>, i: nat)
    requires r.begin <= r.end <= |flat| && PullFits(maxKey, chunkSize, r.begin, r.end - r.begin, ids)
    requires Increasing(ids) && i < |ids|
    ensures Within(PulledKeys(maxKey, chunkSize, ids), r.begin, r.end - r.begin)
    ensures var vals, len := Read(flat[r.begin..r.end], r.begin, PulledKeys(maxKey, chunkSize, ids)), ChunkLen(maxKey, chunkSize, ids[i]);
            var at := i * chunkSize;
            && at + len <= |vals|
            && (ids[i] + 1 == ChunkNum(maxKey, chunkSize) ==> at + len == |vals|)
            && (ids[i] + 1 != ChunkNum(maxKey, chunkSize) ==> len == chunkSize)
            && ids[i] * chunkSize + len <= |flat|
            && vals[at..at + len] == flat[ids[i] * chunkSize..ids[i] * chunkSize + len]
  {
    hide Read, ChunkLen, PulledKeys, ChunkNum, Run, Within;
    var store, len := flat[r.begin..r.end], ChunkLen(maxKey, chunkSize, ids[i]);
    var before, run, after := PulledKeys(maxKey, chunkSize, ids[..i]), Run(ids[i] * chunkSize, len), PulledKeys(maxKey, chunkSize, ids[i + 1..]);
    forall k | 0 <= k < |ids| ensures ids[k] < ChunkNum(maxKey, chunkSize) { RealChunkSize(maxKey, chunkSize, ids[k]); }
    RealChunkSize(maxKey, chunkSize, ids[i]);
    PulledLength(maxKey, chunkSize, ids[..i]);
    PulledAround(maxKey, chunkSize, ids, i);
    PulledWithin(maxKey, chunkSize, r.begin, r.end - r.begin, ids);
    PulledWithin(maxKey, chunkSize, r.begin, r.end - r.begin, ids[..i]);
    PulledWithin(maxKey, chunkSize, r.begin, r.end - r.begin, ids[i + 1..]);
    ReadRun(flat, r, ids[i] * chunkSize, len);
    ReadConcat(store, r.begin, before, run);
    ReadConcat(store, r.begin, before + run, after);
    assert |run| == len by { RunLength(ids[i] * chunkSize, len); }
    BeforeLast(ids, i, ChunkNum(maxKey, chunkSize));
    if ids[i] + 1 == ChunkNum(maxKey, chunkSize) {
      assert ids[i + 1..] == [];
      assert after == [] by { NothingPulled(maxKey, chunkSize, ids[i + 1..]); }
    }
  }

  lemma BeforeLast(ids: seq<nat>, i: nat, num: nat)
    requires Increasing(ids) && i < |ids| && forall k :: 0 <= k < |ids| ==> ids[k] < num
    ensures i + 1 < |ids| ==> ids[i] + 1 < num
  {
    if i + 1 < |ids| { assert ids[i] < ids[i + 1]; }
  }

  lemma RunLength(first: nat, n: nat)
    ensures |Run(first, n)| == n
  {
  }

  lemma NothingPulled(maxKey: nat, chunkSize: nat, ids: seq<nat>)
    requires ids == []
    ensures PulledKeys(maxKey, chunkSize, ids) == []
  {
  }

  lemma PulledAround(maxKey: nat, chunkSize: nat, ids: seq<nat>, i: nat)
    requires forall k :: 0 <= k < |ids| ==> ids[k] * chunkSize < maxKey
    requires i < |ids|
    ensures PulledKeys(maxKey, chunkSize, ids)
         == PulledKeys(maxKey, chunkSize, ids[..i]) + Run(ids[i] * chunkSize, ChunkLen(maxKey, chunkSize, ids[i])) + PulledKeys(maxKey, chunkSize, ids[i + 1..])
  {
    PulledSplit(maxKey, chunkSize, ids[..i + 1], ids[i + 1..]);
    assert ids == ids[..i + 1] + ids[i + 1..];
    assert ids[..i + 1][..i] == ids[..i];
  }

  /** The chunks of the flat array. */
  function FlatChunks(flat: Store, chunkSize: nat, ids: seq<nat>): (r: seq<Store>)
    requires forall i :: 0 <= i < |ids| ==> ids[i] * chunkSize < |flat|
    ensures |r| == |ids|
  {
    seq(|ids|, i requires 0 <= i < |ids| =>
      ChunkFits(|flat|, chunkSize, ids[i]);
      flat[ids[i] * chunkSize..ids[i] * chunkSize + ChunkLen(|flat|, chunkSize, ids[i])])
  }

  lemma ChunkFits(maxKey: nat, chunkSize: nat, id: nat)
    requires id * chunkSize < maxKey
    ensures id * chunkSize + ChunkLen(maxKey, chunkSize, id) <= maxKey
  {
  }

  /** A server's reply to a chunked pull. */
  ghost predicate ChunksPulled(store: Store, r: Range, maxKey: nat, chunkSize: nat, ids: seq<nat>, reply: KVPairs) {
    && PullFits(maxKey, chunkSize, r.begin, |store|, ids)
    && Within(PulledKeys(maxKey, chunkSize, ids), r.begin, |store|)
    && reply == KVPairs(ids, Read(store, r.begin, PulledKeys(maxKey, chunkSize, ids)))
  }

  lemma ReplyPiece(maxKey: nat, chunkSize: nat, flat: Store, r: Range, ids: seq<nat>, reply: KVPairs, i: nat)
    requires r.begin <= r.end <= |flat| == maxKey && Increasing(ids)
    requires ChunksPulled(flat[r.begin..r.end], r, maxKey, chunkSize, ids, reply) && i < |ids|
    ensures ids[i] * chunkSize + ChunkLen(maxKey, chunkSize, ids[i]) <= maxKey
    ensures var part := flat[ids[i] * chunkSize..ids[i] * chunkSize + ChunkLen(maxKey, chunkSize, ids[i])];
            if ids[i] + 1 == ChunkNum(maxKey, chunkSize) then i * chunkSize <= |reply.vals| && reply.vals[i * chunkSize..] == part
            else i * chunkSize <= (i + 1) * chunkSize <= |reply.vals| && reply.vals[i * chunkSize..(i + 1) * chunkSize] == part
  {
    hide Read, ChunkLen, PulledKeys, ChunkNum, Within, Increasing;
    PulledChunk(maxKey, chunkSize, flat, r, ids, i);
    assert (i + 1) * chunkSize == i * chunkSize + chunkSize;
  }

  lemma ReplyDivides(maxKey: nat, chunkSize: nat, flat: Store, r: Range, ids: seq<nat>, reply: KVPairs)
    requires r.begin <= r.end <= |flat| == maxKey && Increasing(ids)
    requires ChunksPulled(flat[r.begin..r.end], r, maxKey, chunkSize, ids, reply)
    ensures Divides(reply, ChunkNum(maxKey, chunkSize), chunkSize)
  {
    hide Read, ChunkLen, PulledKeys, ChunkNum, Within, Increasing;
    forall i | 0 <= i < |ids|
      ensures if ids[i] + 1 == ChunkNum(maxKey, chunkSize) then i * chunkSize <= |reply.vals| else (i + 1) * chunkSize <= |reply.vals|
    {
      ReplyPiece(maxKey, chunkSize, flat, r, ids, reply, i);
    }
  }

  /** Cut up, a reply is the chunks of the flat array. */
  lemma ReplyPieces(maxKey: nat, chunkSize: nat, flat: Store, r: Range, ids: seq<nat>, reply: KVPairs)
    requires r.begin <= r.end <= |flat| == maxKey && Increasing(ids)
    requires ChunksPulled(flat[r.begin..r.end], r, maxKey, chunkSize, ids, reply)
    ensures Divides(reply, ChunkNum(maxKey, chunkSize), chunkSize)
    ensures Pieces(reply, ChunkNum(maxKey, chunkSize), chunkSize) == FlatChunks(flat, chunkSize, ids)
  {
    hide Read, ChunkLen, PulledKeys, ChunkNum, Within, Increasing, Divides;
    ReplyDivides(maxKey, chunkSize, flat, r, ids, reply);
    forall i | 0 <= i < |ids|
      ensures Piece(reply, ChunkNum(maxKey, chunkSize), chunkSize, i) == FlatChunks(flat, chunkSize, ids)[i]
    {
      ReplyPiece(maxKey, chunkSize, flat, r, ids, reply, i);
    }
  }

  /** The servers' replies to a chunked pull. */
  ghost predicate PullChunkReplies(ranges: seq<Range>, stores: seq<Store>, maxKey: nat, chunkSize: nat, ids: seq<nat>, pos: seq<nat>, replies: seq<KVPairs>)
    requires |stores| == |ranges| == |replies| == |pos| - 1
  {
    forall i :: 0 <= i < |ranges| ==> SharePulled(stores[i], ranges[i], maxKey, chunkSize, ids, pos[i], pos[i + 1], replies[i])
  }

  ghost predicate SharePulled(store: Store, r: Range, maxKey: nat, chunkSize: nat, ids: seq<nat>, p: nat, q: nat, reply: KVPairs) {
    p <= q <= |ids| && ChunksPulled(store, r, maxKey, chunkSize, ids[p..q], reply)
  }

  lemma ChunkRepliesRise(ranges: seq<Range>, stores: seq<Store>, maxKey: nat, chunkSize: nat, ids: seq<nat>, pos: seq<nat>, replies: seq<KVPairs>)
    requires |stores| == |ranges| == |replies| == |pos| - 1 && Increasing(ids)
    requires PullChunkReplies(ranges, stores, maxKey, chunkSize, ids, pos, replies)
    ensures Rising(replies)
  {
    hide ChunksPulled, Increasing;
    forall i, j | 0 <= i < j < |replies| && replies[i].keys != [] && replies[j].keys != []
      ensures replies[i].keys[0] < replies[j].keys[0]
    {
      PosRises(ranges, stores, maxKey, chunkSize, ids, pos, replies, i + 1, j);
      ShareKeys(stores[i], ranges[i], maxKey, chunkSize, ids, pos[i], pos[i + 1], replies[i]);
      ShareKeys(stores[j], ranges[j], maxKey, chunkSize, ids, pos[j], pos[j + 1], replies[j]);
      IncreasingAt(ids, pos[i], pos[j]);
    }
  }

  lemma IncreasingAt(ids: seq<nat>, i: nat, j: nat)
    requires Increasing(ids) && i < j < |ids|
    ensures ids[i] < ids[j]
  {
  }

  lemma ShareKeys(store: Store, r: Range, maxKey: nat, chunkSize: nat, ids: seq<nat>, p: nat, q: nat, reply: KVPairs)
    requires SharePulled(store, r, maxKey, chunkSize, ids, p, q, reply)
    ensures p <= q <= |ids| && reply.keys == ids[p..q]
  {
  }

  lemma {:induction false} PosRises(ranges: seq<Range>, stores: seq<Store>, maxKey: nat, chunkSize: nat, ids: seq<nat>, pos: seq<nat>, replies: seq<KVPairs>, i: nat, j: nat)
    requires |stores| == |ranges| == |replies| == |pos| - 1
    requires PullChunkReplies(ranges, stores, maxKey, chunkSize, ids, pos, replies)
    requires i <= j < |pos|
    ensures pos[i] <= pos[j]
    decreases j
  {
    hide ChunksPulled;
    if i < j {
      PosRises(ranges, stores, maxKey, chunkSize, ids, pos, replies, i, j - 1);
      assert SharePulled(stores[j - 1], ranges[j - 1], maxKey, chunkSize, ids, pos[j - 1], pos[j], replies[j - 1]);
    }
  }

  lemma {:induction false} KeptPieces(replies: seq<KVPairs>, chunkNum: nat, chunkSize: nat)
    requires forall i :: 0 <= i < |replies| ==> Divides(replies[i], chunkNum, chunkSize)
    ensures forall i :: 0 <= i < |Kept(replies)| ==> Divides(Kept(replies)[i], chunkNum, chunkSize)
    ensures AllPieces(Kept(replies), chunkNum, chunkSize) == AllPieces(replies, chunkNum, chunkSize)
  {
    hide Divides, Piece;
    if replies != [] {
      var n := |replies| - 1;
      KeptPieces(replies[..n], chunkNum, chunkSize);
      if replies[n].keys != [] {
        assert (Kept(replies[..n]) + [replies[n]])[..|Kept(replies)| - 1] == Kept(replies[..n]);
      } else {
        assert Pieces(replies[n], chunkNum, chunkSize) == [];
      }
    }
  }

  lemma FlatChunksSplit(flat: Store, chunkSize: nat, ids: seq<nat>, p: nat, q: nat)
    requires p <= q <= |ids| && forall i :: 0 <= i < |ids| ==> ids[i] * chunkSize < |flat|
    ensures FlatChunks(flat, chunkSize, ids[..q]) == FlatChunks(flat, chunkSize, ids[..p]) + FlatChunks(flat, chunkSize, ids[p..q])
  {
  }

  /** Every reply can be cut into its chunks. */
  lemma ChunkRepliesDivide(ranges: seq<Range>, stores: seq<Store>, flat: Store, chunkSize: nat, ids: seq<nat>, pos: seq<nat>, replies: seq<KVPairs>, i: nat)
    requires |stores| == |ranges| == |replies| == |pos| - 1 && Increasing(ids)
    requires Shards(ranges, stores, flat) && PullChunkReplies(ranges, stores, |flat|, chunkSize, ids, pos, replies) && i < |ranges|
    requires 0 < |flat| && 0 < chunkSize && forall k :: 0 <= k < |ids| ==> ids[k] * chunkSize < |flat|
    ensures Divides(replies[i], ChunkNum(|flat|, chunkSize), chunkSize)
    ensures pos[i] <= pos[i + 1] <= |ids|
    ensures Pieces(replies[i], ChunkNum(|flat|, chunkSize), chunkSize) == FlatChunks(flat, chunkSize, ids[pos[i]..pos[i + 1]])
  {
    hide ChunksPulled, ChunkNum, Pieces, FlatChunks, Divides;
    assert SharePulled(stores[i], ranges[i], |flat|, chunkSize, ids, pos[i], pos[i + 1], replies[i]);
    ReplyPieces(|flat|, chunkSize, flat, ranges[i], ids[pos[i]..pos[i + 1]], replies[i]);
  }

  lemma {:induction false} ChunkRepliesRead(ranges: seq<Range>, stores: seq<Store>, flat: Store, chunkSize: nat, ids: seq<nat>, pos: seq<nat>, replies: seq<KVPairs>, n: nat)
    requires |stores| == |ranges| == |replies| == |pos| - 1 && Increasing(ids)
    requires Shards(ranges, stores, flat) && PullChunkReplies(ranges, stores, |flat|, chunkSize, ids, pos, replies)
    requires 0 < |flat| && 0 < chunkSize && forall k :: 0 <= k < |ids| ==> ids[k] * chunkSize < |flat|
    requires pos[0] == 0 && n <= |ranges|
    requires forall i :: 0 <= i < |replies| ==> Divides(replies[i], ChunkNum(|flat|, chunkSize), chunkSize)
    ensures pos[n] <= |ids|
    ensures AllPieces(replies[..n], ChunkNum(|flat|, chunkSize), chunkSize) == FlatChunks(flat, chunkSize, ids[..pos[n]])
  {
    hide ChunkNum, Pieces, FlatChunks, Divides, Increasing, PullChunkReplies, Shards;
    if n == 0 {
      FlatChunksSplit(flat, chunkSize, ids, 0, 0);
    } else {
      ChunkRepliesRead(ranges, stores, flat, chunkSize, ids, pos, replies, n - 1);
      ChunkRepliesDivide(ranges, stores, flat, chunkSize, ids, pos, replies, n - 1);
      FlatChunksSplit(flat, chunkSize, ids, pos[n - 1], pos[n]);
      assert replies[..n][..n - 1] == replies[..n - 1];
    }
  }

  /** A server is never asked for a chunk outside its stretch. */
  lemma ShareFits(maxKey: nat, chunkSize: nat, servers: nat, ranges: seq<Range>, chunkRanges: seq<Range>,
                  stores: seq<Store>, flat: Store, ids: seq<nat>, pos: seq<nat>, i: nat)
    requires Chunked(maxKey, chunkSize, servers, ranges, chunkRanges, ids)
    requires Shards(ranges, stores, flat) && |flat| == maxKey < KEY_LIMIT
    requires Cut(ids, chunkSize, ranges, pos) && i < servers
    ensures pos[i] <= pos[i + 1] <= |ids|
    ensures PullFits(maxKey, chunkSize, ranges[i].begin, |stores[i]|, ids[pos[i]..pos[i + 1]])
  {
    hide Sorted, Below, ChunkLen, KeyRange, ChunkRange;
    CutShares(maxKey, chunkSize, servers, ranges, chunkRanges, ids, pos, i);
  }

  lemma PullChunksReads(maxKey: nat, chunkSize: nat, servers: nat, ranges: seq<Range>, chunkRanges: seq<Range>,
                          stores: seq<Store>, flat: Store, ids: seq<nat>, pos: seq<nat>, replies: seq<KVPairs>, arrived: seq<KVPairs>)
    requires Chunked(maxKey, chunkSize, servers, ranges, chunkRanges, ids) && Increasing(ids)
    requires Shards(ranges, stores, flat) && |flat| == maxKey
    requires Cut(ids, chunkSize, ranges, pos) && |replies| == |ranges|
    requires PullChunkReplies(ranges, stores, maxKey, chunkSize, ids, pos, replies)
    requires multiset(arrived) == multiset(Kept(replies))
    ensures NonEmpty(arrived)
    ensures var sorted := SortByFront(arrived);
            && (forall i :: 0 <= i < |sorted| ==> Divides(sorted[i], ChunkNum(maxKey, chunkSize), chunkSize))
            && AllPieces(sorted, ChunkNum(maxKey, chunkSize), chunkSize) == FlatChunks(flat, chunkSize, ids)
  {
    hide ChunkNum, FlatChunks, Divides, Increasing, PullChunkReplies, SortByFront, Sorted, KeyRange, ChunkRange, AllPieces;
    forall i | 0 <= i < |arrived| ensures arrived[i].keys != [] {
      assert arrived[i] in multiset(Kept(replies));
    }
    ChunkRepliesRise(ranges, stores, maxKey, chunkSize, ids, pos, replies);
    KeptRises(replies);
    SortByFrontSorts(arrived);
    SortRestores(SortByFront(arrived), Kept(replies));
    forall i | 0 <= i < |replies| ensures Divides(replies[i], ChunkNum(maxKey, chunkSize), chunkSize) {
      ChunkRepliesDivide(ranges, stores, flat, chunkSize, ids, pos, replies, i);
    }
    KeptPieces(replies, ChunkNum(maxKey, chunkSize), chunkSize);
    ChunkRepliesRead(ranges, stores, flat, chunkSize, ids, pos, replies, servers);
    CutEnds(maxKey, chunkSize, servers, ranges, chunkRanges, ids, pos);
    assert replies[..servers] == replies && ids[..pos[servers]] == ids;
  }

  /** In whatever order the replies arrive, a chunked pull returns the flat array's
      chunks in request order, the short last one included. */
  lemma PullChunksRefines(maxKey: nat, chunkSize: nat, servers: nat, ranges: seq<Range>, chunkRanges: seq<Range>,
                          stores: seq<Store>, flat: Store, ids: seq<nat>, pos: seq<nat>, replies: seq<KVPairs>, arrived: seq<KVPairs>)
    requires Chunked(maxKey, chunkSize, servers, ranges, chunkRanges, ids) && Increasing(ids)
    requires Shards(ranges, stores, flat) && |flat| == maxKey
    requires Cut(ids, chunkSize, ranges, pos) && |replies| == |ranges|
    requires PullChunkReplies(ranges, stores, maxKey, chunkSize, ids, pos, replies)
    requires multiset(arrived) == multiset(Kept(replies))
    ensures NonEmpty(arrived)
    ensures var sorted := SortByFront(arrived);
            && (forall i :: 0 <= i < |sorted| ==> Divides(sorted[i], ChunkNum(maxKey, chunkSize), chunkSize))
            && var chunks := AllPieces(sorted, ChunkNum(maxKey, chunkSize), chunkSize);
            && |chunks| == |ids|
            && forall i :: 0 <= i < |ids| ==>
                 && |chunks[i]| == (if (ids[i] + 1) * chunkSize <= maxKey then chunkSize else maxKey - ids[i] * chunkSize)
                 && forall j :: 0 <= j < |chunks[i]| ==> chunks[i][j] == flat[ids[i] * chunkSize + j]
  {
    PullChunksReads(maxKey, chunkSize, servers, ranges, chunkRanges, stores, flat, ids, pos, replies, arrived);
    hide Shards, Sorted, Cut, PullChunkReplies, Kept, SortByFront, AllPieces, Divides, ChunkNum, IsPartition, FlatChunks, ChunkLen;
    forall i | 0 <= i < |ids| { FlatChunkAt(flat, chunkSize, ids, i); }
  }

  lemma FlatChunkAt(flat: Store, chunkSize: nat, ids: seq<nat>, i: nat)
    requires i < |ids| && forall k :: 0 <= k < |ids| ==> ids[k] * chunkSize < |flat|
    ensures var chunk := FlatChunks(flat, chunkSize, ids)[i];
            && |chunk| == (if (ids[i] + 1) * chunkSize <= |flat| then chunkSize else |flat| - ids[i] * chunkSize)
            && forall j :: 0 <= j < |chunk| ==> chunk[j] == flat[ids[i] * chunkSize + j]
  {
    assert (ids[i] + 1) * chunkSize == ids[i] * chunkSize + chunkSize;
  }
}

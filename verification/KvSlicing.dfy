// The client side of a request: cutting keys, values and chunks into one message
// per server, and putting the servers' replies back together in request order.
module KvSlicing {
  import opened RangeManager
  import opened KvHandles

  // ----------------------------------------------------------- lower bound

  predicate Sorted(keys: seq<nat>) {
    forall i, j :: 0 <= i < j < |keys| ==> keys[i] <= keys[j]
  }

  predicate Increasing(keys: seq<nat>) {
    forall i, j :: 0 <= i < j < |keys| ==> keys[i] < keys[j]
  }

  /** The first place at or after `from` whose key is not below v. */
  function LowerBound(keys: seq<nat>, from: nat, v: nat): (r: nat)
    requires from <= |keys|
    ensures from <= r <= |keys|
    ensures forall i :: from <= i < r ==> keys[i] < v
    ensures r < |keys| ==> keys[r] >= v
    decreases |keys| - from
  {
    if from < |keys| && keys[from] < v then LowerBound(keys, from + 1, v) else from
  }

  /** How many of the sorted keys are below v. */
  function Below(keys: seq<nat>, v: nat): (r: nat)
    ensures r <= |keys|
  {
    LowerBound(keys, 0, v)
  }

  lemma BelowIs(keys: seq<nat>, v: nat, r: nat)
    requires Sorted(keys) && r <= |keys|
    requires forall i :: 0 <= i < r ==> keys[i] < v
    requires r < |keys| ==> keys[r] >= v
    ensures Below(keys, v) == r
  {
  }

  lemma BelowMono(keys: seq<nat>, v: nat, v': nat)
    requires Sorted(keys) && v <= v'
    ensures Below(keys, v) <= Below(keys, v')
  {
  }

  predicate Contiguous(ranges: seq<Range>) {
    && (forall i :: 0 <= i < |ranges| ==> ranges[i].begin <= ranges[i].end)
    && (forall i :: 0 < i < |ranges| ==> ranges[i - 1].end == ranges[i].begin)
  }

  // --------------------------------------------------------- keyed requests

  datatype Slice = Slice(present: bool, keys: seq<nat>, vals: seq<real>)

  /** Values per key. */
  function Stride(keys: seq<nat>, vals: seq<real>): nat {
    if keys == [] then 0 else |vals| / |keys|
  }

  lemma StrideFits(keys: seq<nat>, vals: seq<real>, p: nat, q: nat)
    requires p <= q <= |keys|
    ensures p * Stride(keys, vals) <= q * Stride(keys, vals) <= |vals|
  {
  }

  /** The part of a request for the server of the given range: its keys with their
      values, or nothing at all. */
  function SliceOf(keys: seq<nat>, vals: seq<real>, range: Range): Slice
    requires Sorted(keys) && range.begin <= range.end
  {
    var p, q := Below(keys, range.begin), Below(keys, range.end);
    if p < q then
      var k := Stride(keys, vals);
      StrideFits(keys, vals, p, q);
      Slice(true, keys[p..q], vals[p * k..q * k])
    else Slice(false, [], [])
  }

  /** A slice is the run of the request's keys that lie in the range, with as many
      values for each as the request has. */
  lemma SliceIs(keys: seq<nat>, vals: seq<real>, range: Range) returns (p: nat, q: nat)
    requires Sorted(keys) && range.begin <= range.end
    ensures p <= q <= |keys|
    ensures forall i :: 0 <= i < |keys| ==> (p <= i < q <==> range.begin <= keys[i] < range.end)
    ensures var s := SliceOf(keys, vals, range);
            && s.present == (p < q) && s.keys == keys[p..q]
            && (if p == q then s.vals == []
                else var k := |vals| / |keys|; p * k <= q * k <= |vals| && s.vals == vals[p * k..q * k])
  {
    p, q := Below(keys, range.begin), Below(keys, range.end);
    BelowMono(keys, range.begin, range.end);
    StrideFits(keys, vals, p, q);
  }

  /** Where each server's keys begin and end. */
  ghost predicate Positions(keys: seq<nat>, ranges: seq<Range>, pos: seq<nat>) {
    && |pos| == |ranges| + 1
    && forall i :: 0 <= i < |ranges| ==> pos[i] == Below(keys, ranges[i].begin) && pos[i + 1] == Below(keys, ranges[i].end)
  }

  method FindPositions(keys: seq<nat>, ranges: seq<Range>) returns (pos: seq<nat>, present: seq<bool>)
    requires Sorted(keys) && Contiguous(ranges)
    ensures Positions(keys, ranges, pos)
    ensures |present| == |ranges| && forall i :: 0 <= i < |ranges| ==> present[i] == (pos[i] != pos[i + 1])
  {
    var n := |ranges|;
    pos := seq(n + 1, _ => 0);
    present := seq(n, _ => false);
    var begin := 0;
    for i := 0 to n
      invariant |pos| == n + 1 && |present| == n
      invariant begin == (if i == 0 then 0 else Below(keys, ranges[i - 1].end))
      invariant i > 0 ==> pos[0] == Below(keys, ranges[0].begin)
      invariant forall k :: 0 < k <= i ==> pos[k] == Below(keys, ranges[k - 1].end)
      invariant forall k :: 0 <= k < i ==> present[k] == (pos[k] != pos[k + 1])
    {
      if i == 0 {
        pos := pos[0 := LowerBound(keys, 0, ranges[0].begin)];
        begin := begin + pos[0];
      }
      BelowMono(keys, ranges[i].begin, ranges[i].end);
      assert begin == pos[i];
      var end := NextBound(keys, begin, ranges[i].begin, ranges[i].end);
      var len := end - begin;
      begin := begin + len;
      pos := pos[i + 1 := pos[i] + len];
      present := present[i := len != 0];
    }
    forall i | 0 <= i < n
      ensures pos[i] == Below(keys, ranges[i].begin) && pos[i + 1] == Below(keys, ranges[i].end)
    {
      if i > 0 { assert ranges[i - 1].end == ranges[i].begin; }
    }
  }

  /** Searching on from where the range begins finds where it ends. */
  method NextBound(keys: seq<nat>, from: nat, lo: nat, hi: nat) returns (r: nat)
    requires Sorted(keys) && lo <= hi && from == Below(keys, lo)
    ensures from <= r == Below(keys, hi)
  {
    r := LowerBound(keys, from, hi);
    assert forall i :: 0 <= i < from ==> keys[i] < lo;
    BelowIs(keys, hi, r);
  }

  method SliceRequest(keys: seq<nat>, vals: seq<real>, ranges: seq<Range>) returns (sliced: seq<Slice>)
    requires Sorted(keys) && Contiguous(ranges)
    ensures |sliced| == |ranges|
    ensures forall i :: 0 <= i < |ranges| ==> sliced[i] == SliceOf(keys, vals, ranges[i])
  {
    var n := |ranges|;
    var pos, present := FindPositions(keys, ranges);
    sliced := seq(n, i requires 0 <= i < n && |present| == n => Slice(present[i], [], []));
    if keys == [] {
      forall i | 0 <= i < n ensures sliced[i] == SliceOf(keys, vals, ranges[i]) {
        assert pos[i] == 0 == pos[i + 1];
      }
      return;
    }
    var k := |vals| / |keys|;
    for i := 0 to n
      invariant |sliced| == n
      invariant forall j :: 0 <= j < i ==> sliced[j] == SliceOf(keys, vals, ranges[j])
      invariant forall j :: i <= j < n ==> sliced[j].keys == [] && sliced[j].vals == []
    {
      BelowMono(keys, ranges[i].begin, ranges[i].end);
      if pos[i + 1] == pos[i] {
        sliced := sliced[i := sliced[i].(present := false)];
      } else {
        StrideFits(keys, vals, pos[i], pos[i + 1]);
        sliced := sliced[i := Slice(true, keys[pos[i]..pos[i + 1]], vals[pos[i] * k..pos[i + 1] * k])];
      }
    }
  }

  /** How many replies a request waits for. */
  method CountPresent(sliced: seq<Slice>) returns (n: nat)
    ensures n == |set i | 0 <= i < |sliced| && sliced[i].present|
  {
    n := 0;
    for i := 0 to |sliced|
      invariant n == |set k | 0 <= k < i && sliced[k].present|
    {
      var before := set k | 0 <= k < i && sliced[k].present;
      var after := set k | 0 <= k < i + 1 && sliced[k].present;
      if sliced[i].present {
        assert after == before + {i};
        n := n + 1;
      } else {
        assert after == before;
      }
    }
  }

  // -------------------------------------------------------- chunked requests

  lemma StartsSorted(ids: seq<nat>, chunkSize: nat)
    requires Sorted(ids)
    ensures Sorted(Starts(ids, chunkSize))
  {
  }

  /** The boundaries between the servers' shares of the chunks. */
  method PartitionChunks(ids: seq<nat>, chunkSize: nat, ranges: seq<Range>) returns (pos: seq<nat>)
    requires Sorted(ids) && Contiguous(ranges) && ranges != []
    requires forall i :: 0 <= i < |ids| ==> ids[i] * chunkSize < ranges[|ranges| - 1].end
    ensures |pos| == |ranges| + 1 && pos[0] == 0
    ensures forall i :: 0 <= i < |ranges| ==> pos[i + 1] == Below(Starts(ids, chunkSize), ranges[i].end)
  {
    var n := |ranges|;
    ghost var starts := Starts(ids, chunkSize);
    StartsSorted(ids, chunkSize);
    EndsSorted(ranges);
    pos := seq(n + 1, _ => 0);
    var rangeId, posId := 0, 1;
    for i := 0 to |ids|
      invariant posId == rangeId + 1 <= n
      invariant |pos| == n + 1 && pos[0] == 0
      invariant forall k :: 0 <= k < rangeId ==> pos[k + 1] == Below(starts, ranges[k].end)
      invariant forall k :: 0 <= k < i ==> starts[k] < ranges[rangeId].end
    {
      while ids[i] * chunkSize >= ranges[rangeId].end
        invariant posId == rangeId + 1 <= n
        invariant |pos| == n + 1 && pos[0] == 0
        invariant forall k :: 0 <= k < rangeId ==> pos[k + 1] == Below(starts, ranges[k].end)
        invariant forall k :: 0 <= k < i ==> starts[k] < ranges[rangeId].end
        decreases n - rangeId
      {
        BelowIs(starts, ranges[rangeId].end, i);
        pos := pos[posId := i];
        posId := posId + 1;
        rangeId := rangeId + 1;
      }
    }
    for i := posId to n + 1
      invariant |pos| == n + 1 && pos[0] == 0
      invariant forall k :: 0 <= k < i - 1 ==> pos[k + 1] == Below(starts, ranges[k].end)
    {
      BelowIs(starts, ranges[i - 1].end, |ids|);
      pos := pos[i := |ids|];
    }
  }

  lemma {:induction false} EndsSortedAt(ranges: seq<Range>, i: nat, j: nat)
    requires Contiguous(ranges) && i <= j < |ranges|
    ensures ranges[i].end <= ranges[j].end
    decreases j
  {
    if i < j { EndsSortedAt(ranges, i, j - 1); }
  }

  lemma EndsSorted(ranges: seq<Range>)
    requires Contiguous(ranges)
    ensures forall i, j :: 0 <= i <= j < |ranges| ==> ranges[i].end <= ranges[j].end
  {
    forall i, j | 0 <= i <= j < |ranges| ensures ranges[i].end <= ranges[j].end { EndsSortedAt(ranges, i, j); }
  }

  // ------------------------------------------------------------- gathering

  /** A reply, or the keys and values of a message. */
  datatype KVPairs = KVPairs(keys: seq<nat>, vals: seq<real>)

  predicate NonEmpty(kvs: seq<KVPairs>) {
    forall i :: 0 <= i < |kvs| ==> kvs[i].keys != []
  }

  predicate FrontSorted(kvs: seq<KVPairs>)
    requires NonEmpty(kvs)
  {
    forall i, j :: 0 <= i < j < |kvs| ==> kvs[i].keys[0] <= kvs[j].keys[0]
  }

  predicate FrontIncreasing(kvs: seq<KVPairs>)
    requires NonEmpty(kvs)
  {
    forall i, j :: 0 <= i < j < |kvs| ==> kvs[i].keys[0] < kvs[j].keys[0]
  }

  /** Insertion by first key. */
  function Insert(kv: KVPairs, kvs: seq<KVPairs>): (r: seq<KVPairs>)
    requires kv.keys != [] && NonEmpty(kvs)
    ensures NonEmpty(r)
  {
    if kvs == [] || kv.keys[0] <= kvs[0].keys[0] then [kv] + kvs
    else [kvs[0]] + Insert(kv, kvs[1..])
  }

  /** A sort by first key. */
  function SortByFront(kvs: seq<KVPairs>): (r: seq<KVPairs>)
    requires NonEmpty(kvs)
    ensures NonEmpty(r)
  {
    if kvs == [] then [] else Insert(kvs[0], SortByFront(kvs[1..]))
  }

  lemma FrontSortedFrom(kv: KVPairs, rest: seq<KVPairs>)
    requires kv.keys != [] && NonEmpty(rest) && FrontSorted(rest) && (rest != [] ==> kv.keys[0] <= rest[0].keys[0])
    ensures NonEmpty([kv] + rest) && FrontSorted([kv] + rest)
  {
  }

  lemma FrontSortedTail(kvs: seq<KVPairs>)
    requires NonEmpty(kvs) && FrontSorted(kvs) && kvs != []
    ensures NonEmpty(kvs[1..]) && FrontSorted(kvs[1..]) && (kvs[1..] != [] ==> kvs[0].keys[0] <= kvs[1..][0].keys[0])
    ensures kvs == [kvs[0]] + kvs[1..]
  {
  }

  lemma {:induction false} InsertSorts(kv: KVPairs, kvs: seq<KVPairs>)
    requires kv.keys != [] && NonEmpty(kvs) && FrontSorted(kvs)
    ensures FrontSorted(Insert(kv, kvs))
    ensures multiset(Insert(kv, kvs)) == multiset{kv} + multiset(kvs)
    ensures Insert(kv, kvs) != [] && (Insert(kv, kvs)[0] == kv || (kvs != [] && Insert(kv, kvs)[0] == kvs[0]))
  {
    if kvs == [] || kv.keys[0] <= kvs[0].keys[0] {
      FrontSortedFrom(kv, kvs);
    } else {
      FrontSortedTail(kvs);
      hide FrontSorted;
      InsertSorts(kv, kvs[1..]);
      FrontSortedFrom(kvs[0], Insert(kv, kvs[1..]));
    }
  }

  lemma {:induction false} SortByFrontSorts(kvs: seq<KVPairs>)
    requires NonEmpty(kvs)
    ensures FrontSorted(SortByFront(kvs))
    ensures multiset(SortByFront(kvs)) == multiset(kvs)
  {
    if kvs != [] {
      SortByFrontSorts(kvs[1..]);
      InsertSorts(kvs[0], SortByFront(kvs[1..]));
      assert kvs == [kvs[0]] + kvs[1..];
    }
  }

  lemma SmallestFirst(sorted: seq<KVPairs>, order: seq<KVPairs>)
    requires NonEmpty(sorted) && NonEmpty(order)
    requires FrontSorted(sorted) && FrontIncreasing(order)
    requires multiset(sorted) == multiset(order) && order != []
    ensures sorted != [] && sorted[0] == order[0]
  {
    assert order[0] in multiset(sorted);
    assert sorted[0] in multiset(order);
    var i :| 0 <= i < |order| && order[i] == sorted[0];
    var j :| 0 <= j < |sorted| && sorted[j] == order[0];
  }

  lemma TailMultiset<T>(s: seq<T>)
    requires s != []
    ensures multiset(s[1..]) == multiset(s) - multiset{s[0]}
  {
    assert s == [s[0]] + s[1..];
  }

  /** Whatever order the replies arrived in, sorting restores the one order in
      which the first keys increase. */
  lemma {:induction false} SortRestores(sorted: seq<KVPairs>, order: seq<KVPairs>)
    requires NonEmpty(sorted) && NonEmpty(order)
    requires FrontSorted(sorted) && FrontIncreasing(order)
    requires multiset(sorted) == multiset(order)
    ensures sorted == order
  {
    assert |multiset(sorted)| == |sorted| && |multiset(order)| == |order|;
    if order != [] {
      SmallestFirst(sorted, order);
      TailMultiset(sorted);
      TailMultiset(order);
      SortRestores(sorted[1..], order[1..]);
      assert sorted == [sorted[0]] + sorted[1..] && order == [order[0]] + order[1..];
    }
  }

  /** The values of the messages one after the other. */
  ghost function AllVals(kvs: seq<KVPairs>): seq<real> {
    if kvs == [] then [] else AllVals(kvs[..|kvs| - 1]) + kvs[|kvs| - 1].vals
  }

  /** The callback of a keyed pull. */
  method Gather(kvs: seq<KVPairs>) returns (vals: seq<real>)
    requires NonEmpty(kvs)
    ensures vals == AllVals(SortByFront(kvs))
  {
    var sorted := SortByFront(kvs);
    vals := [];
    for i := 0 to |sorted|
      invariant vals == AllVals(sorted[..i])
    {
      vals := vals + sorted[i].vals;
      assert sorted[..i + 1][..i] == sorted[..i];
    }
    assert sorted[..|sorted|] == sorted;
  }

  /** A chunked reply has a full chunk of values for every id but the last chunk
      of the key space, which is last and takes what is left. */
  predicate Divides(kv: KVPairs, chunkNum: nat, chunkSize: nat) {
    forall i :: 0 <= i < |kv.keys| ==>
      if kv.keys[i] + 1 == chunkNum then i * chunkSize <= |kv.vals| else (i + 1) * chunkSize <= |kv.vals|
  }

  function Piece(kv: KVPairs, chunkNum: nat, chunkSize: nat, i: nat): seq<real>
    requires i < |kv.keys| && Divides(kv, chunkNum, chunkSize)
  {
    assert (i + 1) * chunkSize == i * chunkSize + chunkSize;
    if kv.keys[i] + 1 == chunkNum then kv.vals[i * chunkSize..] else kv.vals[i * chunkSize..(i + 1) * chunkSize]
  }

  function Pieces(kv: KVPairs, chunkNum: nat, chunkSize: nat): (r: seq<seq<real>>)
    requires Divides(kv, chunkNum, chunkSize)
    ensures |r| == |kv.keys|
  {
    seq(|kv.keys|, i requires 0 <= i < |kv.keys| => Piece(kv, chunkNum, chunkSize, i))
  }

  ghost function AllPieces(kvs: seq<KVPairs>, chunkNum: nat, chunkSize: nat): seq<seq<real>>
    requires forall i :: 0 <= i < |kvs| ==> Divides(kvs[i], chunkNum, chunkSize)
  {
    if kvs == [] then []
    else AllPieces(kvs[..|kvs| - 1], chunkNum, chunkSize) + Pieces(kvs[|kvs| - 1], chunkNum, chunkSize)
  }

  /** Cutting one reply into its chunks. */
  method SplitReply(s: KVPairs, chunkNum: nat, chunkSize: nat) returns (chunks: seq<seq<real>>)
    requires Divides(s, chunkNum, chunkSize)
    ensures chunks == Pieces(s, chunkNum, chunkSize)
  {
    var start := 0;
    chunks := [];
    for i := 0 to |s.keys|
      invariant start == i * chunkSize
      invariant |chunks| == i
      invariant forall k :: 0 <= k < i ==> chunks[k] == Piece(s, chunkNum, chunkSize, k)
    {
      assert (i + 1) * chunkSize == i * chunkSize + chunkSize;
      if s.keys[i] + 1 == chunkNum {
        chunks := chunks + [s.vals[start..]];
      } else {
        chunks := chunks + [s.vals[start..start + chunkSize]];
      }
      start := start + chunkSize;
    }
  }

  /** The callback of a chunked pull. */
  method GatherChunks(kvs: seq<KVPairs>, chunkNum: nat, chunkSize: nat) returns (chunks: seq<seq<real>>)
    requires NonEmpty(kvs)
    requires forall i :: 0 <= i < |kvs| ==> Divides(kvs[i], chunkNum, chunkSize)
    ensures forall i :: 0 <= i < |SortByFront(kvs)| ==> Divides(SortByFront(kvs)[i], chunkNum, chunkSize)
    ensures chunks == AllPieces(SortByFront(kvs), chunkNum, chunkSize)
  {
    hide Divides, Pieces, Piece, SortByFront;
    var sorted := SortByFront(kvs);
    SortByFrontSorts(kvs);
    forall i | 0 <= i < |sorted| ensures Divides(sorted[i], chunkNum, chunkSize) {
      assert sorted[i] in multiset(kvs);
    }
    chunks := [];
    for k := 0 to |sorted|
      invariant chunks == AllPieces(sorted[..k], chunkNum, chunkSize)
    {
      var pieces := SplitReply(sorted[k], chunkNum, chunkSize);
      chunks := chunks + pieces;
      assert sorted[..k + 1][..k] == sorted[..k];
    }
    assert sorted[..|sorted|] == sorted;
  }
}

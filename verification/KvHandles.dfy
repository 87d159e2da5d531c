// Reading and writing one server's vector store, which holds the keys of its
// range shifted down by the range's first key.
module KvHandles {
  import opened RangeManager

  type Store = seq<real>

  // ------------------------------------------------------------- the effect

  function Put(store: Store, at: nat, v: real, assign: bool): Store
    requires at < |store|
  {
    store[at := if assign then v else store[at] + v]
  }

  /** All keys fall into the stretch of `size` keys from `first`. */
  predicate Within(keys: seq<nat>, first: nat, size: nat) {
    forall i :: 0 <= i < |keys| ==> first <= keys[i] < first + size
  }

  /** Writing the values under the keys one after the other. */
  ghost function Write(store: Store, first: nat, keys: seq<nat>, vals: seq<real>, assign: bool): (r: Store)
    requires |vals| == |keys| && Within(keys, first, |store|)
    ensures |r| == |store|
  {
    if keys == [] then store
    else
      var n := |keys| - 1;
      Put(Write(store, first, keys[..n], vals[..n], assign), keys[n] - first, vals[n], assign)
  }

  /** The values under the keys. */
  function Read(store: Store, first: nat, keys: seq<nat>): (vals: seq<real>)
    requires Within(keys, first, |store|)
    ensures |vals| == |keys|
  {
    seq(|keys|, i requires 0 <= i < |keys| => store[keys[i] - first])
  }

  lemma {:induction false} WriteConcat(store: Store, first: nat, k1: seq<nat>, v1: seq<real>, k2: seq<nat>, v2: seq<real>, assign: bool)
    requires |v1| == |k1| && |v2| == |k2| && Within(k1, first, |store|) && Within(k2, first, |store|)
    ensures Within(k1 + k2, first, |store|)
    ensures Write(store, first, k1 + k2, v1 + v2, assign) == Write(Write(store, first, k1, v1, assign), first, k2, v2, assign)
  {
    if k2 == [] {
      assert k1 + k2 == k1 && v1 + v2 == v1;
    } else {
      var n := |k2| - 1;
      WriteConcat(store, first, k1, v1, k2[..n], v2[..n], assign);
      assert (k1 + k2)[..|k1 + k2| - 1] == k1 + k2[..n];
      assert (v1 + v2)[..|v1 + v2| - 1] == v1 + v2[..n];
    }
  }

  lemma WriteLast(store: Store, first: nat, keys: seq<nat>, vals: seq<real>, assign: bool, k: nat)
    requires |vals| == |keys| > 0 && Within(keys, first, |store|) && k < |store|
    ensures var n := |keys| - 1;
            var before := Write(store, first, keys[..n], vals[..n], assign);
            Write(store, first, keys, vals, assign)[k] ==
            if keys[n] != first + k then before[k] else if assign then vals[n] else before[k] + vals[n]
  {
  }

  /** What the writes leave in the store: under a key named once, its value or the sum
      with what was there; under a key named more often when assigning, the last of
      its values; and nothing changes under other keys. */
  lemma {:induction false} WriteAt(store: Store, first: nat, keys: seq<nat>, vals: seq<real>, assign: bool, k: nat)
    requires |vals| == |keys| && Within(keys, first, |store|) && k < |store|
    ensures var r := Write(store, first, keys, vals, assign);
            && (first + k !in keys ==> r[k] == store[k])
            && (forall i :: 0 <= i < |keys| && keys[i] == first + k && (forall j :: 0 <= j < |keys| && j != i ==> keys[j] != keys[i]) ==>
                  r[k] == if assign then vals[i] else store[k] + vals[i])
            && (assign ==> forall i :: 0 <= i < |keys| && keys[i] == first + k && (forall j :: i < j < |keys| ==> keys[j] != keys[i]) ==>
                  r[k] == vals[i])
  {
    if keys != [] {
      var n := |keys| - 1;
      WriteAt(store, first, keys[..n], vals[..n], assign, k);
      WriteLast(store, first, keys, vals, assign, k);
      assert keys == keys[..n] + [keys[n]];
      hide Write;
    }
  }

  lemma ReadConcat(store: Store, first: nat, k1: seq<nat>, k2: seq<nat>)
    requires Within(k1, first, |store|) && Within(k2, first, |store|)
    ensures Within(k1 + k2, first, |store|)
    ensures Read(store, first, k1 + k2) == Read(store, first, k1) + Read(store, first, k2)
  {
  }

  // ------------------------------------------------------------ chunks as keys

  /** The consecutive keys from `first`. */
  function Run(first: nat, n: nat): seq<nat> {
    seq(n, i requires 0 <= i < n => first + i)
  }

  /** The keys of the given chunks, with the given lengths. */
  ghost function ChunkKeys(chunkSize: nat, ids: seq<nat>, chunks: seq<seq<real>>): seq<nat>
    requires |chunks| == |ids|
  {
    if ids == [] then []
    else
      var n := |ids| - 1;
      ChunkKeys(chunkSize, ids[..n], chunks[..n]) + Run(ids[n] * chunkSize, |chunks[n]|)
  }

  function Concat<T>(parts: seq<seq<T>>): seq<T> {
    if parts == [] then [] else Concat(parts[..|parts| - 1]) + parts[|parts| - 1]
  }

  lemma {:induction false} ChunkKeysLength(chunkSize: nat, ids: seq<nat>, chunks: seq<seq<real>>)
    requires |chunks| == |ids|
    ensures |ChunkKeys(chunkSize, ids, chunks)| == |Concat(chunks)|
  {
    if ids != [] { ChunkKeysLength(chunkSize, ids[..|ids| - 1], chunks[..|ids| - 1]); }
  }

  // -------------------------------------------------- 64-bit index arithmetic

  /** A 64-bit begin stored in a 32-bit signed int. */
  function Interval(begin: nat): int {
    var low := begin % 0x1_0000_0000;
    if low < INT_LIMIT then low else low - 0x1_0000_0000
  }

  /** key - interval in unsigned 64-bit arithmetic. */
  function Index(key: nat, interval: int): int {
    (key - interval) % KEY_LIMIT
  }

  /** The index is the distance from the range's first key exactly when that key
      survives the conversion to a 32-bit int and back. */
  lemma IndexExact(begin: nat, key: nat)
    requires begin <= key < KEY_LIMIT
    ensures Index(key, Interval(begin)) == key - begin <==> begin < INT_LIMIT || begin >= KEY_LIMIT - INT_LIMIT
  {
    var wide := 0x1_0000_0000;
    var low, high := begin % wide, begin / wide;
    assert begin == high * wide + low && high < wide;
    if low < INT_LIMIT {
      assert key - low == (key - begin) + high * wide;
      Wrap(key - begin, high);
    } else {
      assert key - (low - wide) == (key - begin) + (high + 1) * wide;
      Wrap(key - begin, high + 1);
    }
  }

  lemma Wrap(d: nat, h: nat)
    requires d < KEY_LIMIT && h <= 0x1_0000_0000
    ensures (d + h * 0x1_0000_0000) % KEY_LIMIT == d <==> h == 0 || h == 0x1_0000_0000
  {
    var t := h * 0x1_0000_0000;
    if 0 < h < 0x1_0000_0000 {
      assert 0 < t < KEY_LIMIT;
      assert (d + t) % KEY_LIMIT == if d + t < KEY_LIMIT then d + t else d + t - KEY_LIMIT;
    }
  }

  // ------------------------------------------------------------ the handlers

  method WriteKeyed(store: array<real>, begin: nat, keys: seq<nat>, vals: seq<real>, isAssign: bool)
    requires begin < INT_LIMIT
    requires |vals| == |keys| && Within(keys, begin, store.Length) && forall k :: k in keys ==> k < KEY_LIMIT
    modifies store
    ensures store[..] == Write(old(store[..]), begin, keys, vals, isAssign)
  {
    var interval := Interval(begin);
    if isAssign {
      for i := 0 to |keys|
        invariant store[..] == Write(old(store[..]), begin, keys[..i], vals[..i], true)
      {
        assert keys[i] in keys;
        IndexExact(begin, keys[i]);
        store[Index(keys[i], interval)] := vals[i];
        assert keys[..i + 1][..i] == keys[..i] && vals[..i + 1][..i] == vals[..i];
      }
    } else {
      for i := 0 to |keys|
        invariant store[..] == Write(old(store[..]), begin, keys[..i], vals[..i], false)
      {
        assert keys[i] in keys;
        IndexExact(begin, keys[i]);
        var at := Index(keys[i], interval);
        store[at] := store[at] + vals[i];
        assert keys[..i + 1][..i] == keys[..i] && vals[..i + 1][..i] == vals[..i];
      }
    }
    assert keys[..|keys|] == keys && vals[..|keys|] == vals;
  }

  /** A keyed push on a server whose range starts at `begin`: a key named once gets
      its value, or it added, and other keys keep theirs. */
  method UpdateKeyed(store: array<real>, begin: nat, keys: seq<nat>, vals: seq<real>, isAssign: bool)
    requires begin < INT_LIMIT
    requires |vals| == |keys| && Within(keys, begin, store.Length) && forall k :: k in keys ==> k < KEY_LIMIT
    modifies store
    ensures store[..] == Write(old(store[..]), begin, keys, vals, isAssign)
    ensures forall k :: 0 <= k < store.Length && begin + k !in keys ==> store[k] == old(store[..])[k]
    ensures forall i :: 0 <= i < |keys| && (forall j :: 0 <= j < |keys| && j != i ==> keys[j] != keys[i]) ==>
              store[keys[i] - begin] == if isAssign then vals[i] else old(store[..])[keys[i] - begin] + vals[i]
  {
    hide Write;
    forall k: nat | k < store.Length { WriteAt(store[..], begin, keys, vals, isAssign, k); }
    WriteKeyed(store, begin, keys, vals, isAssign);
  }

  /** One chunk of a chunked push. */
  method UpdateChunk(store: array<real>, begin: nat, startId: nat, chunk: seq<real>, isAssign: bool)
    requires begin < INT_LIMIT && begin <= startId && startId + |chunk| <= begin + store.Length && startId + |chunk| <= KEY_LIMIT
    modifies store
    ensures store[..] == Write(old(store[..]), begin, Run(startId, |chunk|), chunk, isAssign)
  {
    var interval := Interval(begin);
    for i := 0 to |chunk|
      invariant store[..] == Write(old(store[..]), begin, Run(startId, i), chunk[..i], isAssign)
    {
      IndexExact(begin, startId + i);
      var at := Index(startId + i, interval);
      store[at] := if isAssign then chunk[i] else store[at] + chunk[i];
      assert Run(startId, i + 1)[..i] == Run(startId, i) && chunk[..i + 1][..i] == chunk[..i];
    }
    assert chunk[..|chunk|] == chunk;
  }

  /** The chunks with these ids and contents fit a server's stretch of keys. */
  ghost predicate ChunksFit(chunkSize: nat, begin: nat, size: nat, ids: seq<nat>, chunks: seq<seq<real>>) {
    && |chunks| == |ids|
    && forall i :: 0 <= i < |ids| ==>
         begin <= ids[i] * chunkSize && ids[i] * chunkSize + |chunks[i]| <= begin + size && ids[i] * chunkSize + |chunks[i]| <= KEY_LIMIT
  }

  lemma {:induction false} ChunkKeysWithin(chunkSize: nat, begin: nat, size: nat, ids: seq<nat>, chunks: seq<seq<real>>)
    requires ChunksFit(chunkSize, begin, size, ids, chunks)
    ensures Within(ChunkKeys(chunkSize, ids, chunks), begin, size)
    ensures |ChunkKeys(chunkSize, ids, chunks)| == |Concat(chunks)|
  {
    ChunkKeysLength(chunkSize, ids, chunks);
    if ids != [] { ChunkKeysWithin(chunkSize, begin, size, ids[..|ids| - 1], chunks[..|ids| - 1]); }
  }

  lemma RunWriteAt(store: Store, first: nat, start: nat, chunk: seq<real>, assign: bool, k: nat)
    requires first <= start && start + |chunk| <= first + |store| && k < |store|
    ensures Within(Run(start, |chunk|), first, |store|)
    ensures var r := Write(store, first, Run(start, |chunk|), chunk, assign);
            r[k] == if start <= first + k < start + |chunk| then
                      (if assign then chunk[first + k - start] else store[k] + chunk[first + k - start])
                    else store[k]
  {
    var keys := Run(start, |chunk|);
    WriteAt(store, first, keys, chunk, assign, k);
    if start <= first + k < start + |chunk| {
      assert keys[first + k - start] == first + k;
    }
    hide Write;
  }

  lemma {:induction false} ChunkWriteAt(store: Store, first: nat, chunkSize: nat, ids: seq<nat>, chunks: seq<seq<real>>, assign: bool, k: nat)
    requires |chunks| == |ids| && ChunksFit(chunkSize, first, |store|, ids, chunks) && k < |store|
    requires forall i, j :: 0 <= i < j < |ids| ==> ids[i] < ids[j]
    requires forall i :: 0 <= i < |ids| ==> |chunks[i]| <= chunkSize
    ensures Within(ChunkKeys(chunkSize, ids, chunks), first, |store|) && |ChunkKeys(chunkSize, ids, chunks)| == |Concat(chunks)|
    ensures CellIs(Starts(ids, chunkSize), chunks, assign, first + k, store[k],
                   Write(store, first, ChunkKeys(chunkSize, ids, chunks), Concat(chunks), assign)[k])
  {
    hide Write, Run, Within, CellIs, ChunksFit, Starts, Concat;
    ChunkKeysWithin(chunkSize, first, |store|, ids, chunks);
    if ids == [] {
      assert chunks == [];
      NothingWritten(store, first, assign);
      NothingCovers(assign, first + k, store[k]);
    } else {
      var n := |ids| - 1;
      LastFits(chunkSize, first, |store|, ids, chunks);
      ChunkKeysWithin(chunkSize, first, |store|, ids[..n], chunks[..n]);
      ChunkWriteAt(store, first, chunkSize, ids[..n], chunks[..n], assign, k);
      LastChunkAt(store, first, chunkSize, ids, chunks, assign, k);
      EarlierEnds(chunkSize, ids, chunks);
      StartsLast(chunkSize, ids);
      hide ChunkKeys;
      LastChunkWins(Starts(ids, chunkSize), chunks, assign, first + k, store[k],
        Write(store, first, ChunkKeys(chunkSize, ids[..n], chunks[..n]), Concat(chunks[..n]), assign)[k],
        Write(store, first, ChunkKeys(chunkSize, ids, chunks), Concat(chunks), assign)[k]);
    }
  }

  /** What the last chunk does to a cell. */
  lemma LastChunkAt(store: Store, first: nat, chunkSize: nat, ids: seq<nat>, chunks: seq<seq<real>>, assign: bool, k: nat)
    requires |chunks| == |ids| > 0 && ChunksFit(chunkSize, first, |store|, ids, chunks) && k < |store|
    ensures Within(ChunkKeys(chunkSize, ids, chunks), first, |store|) && |ChunkKeys(chunkSize, ids, chunks)| == |Concat(chunks)|
    ensures var n := |ids| - 1;
            && Within(ChunkKeys(chunkSize, ids[..n], chunks[..n]), first, |store|)
            && |ChunkKeys(chunkSize, ids[..n], chunks[..n])| == |Concat(chunks[..n])|
            && var start, key := Starts(ids, chunkSize)[n], first + k;
               var before := Write(store, first, ChunkKeys(chunkSize, ids[..n], chunks[..n]), Concat(chunks[..n]), assign)[k];
               Write(store, first, ChunkKeys(chunkSize, ids, chunks), Concat(chunks), assign)[k] ==
               if start <= key < start + |chunks[n]| then (if assign then chunks[n][key - start] else before + chunks[n][key - start])
               else before
  {
    hide Write, Run, Within, ChunksFit;
    var n := |ids| - 1;
    ChunkKeysWithin(chunkSize, first, |store|, ids, chunks);
    LastFits(chunkSize, first, |store|, ids, chunks);
    ChunkKeysWithin(chunkSize, first, |store|, ids[..n], chunks[..n]);
    StartsLast(chunkSize, ids);
    var start := Starts(ids, chunkSize)[n];
    var before := Write(store, first, ChunkKeys(chunkSize, ids[..n], chunks[..n]), Concat(chunks[..n]), assign);
    RunSize(start, |chunks[n]|);
    RunWriteAt(before, first, start, chunks[n], assign, k);
    WriteConcat(store, first, ChunkKeys(chunkSize, ids[..n], chunks[..n]), Concat(chunks[..n]), Run(start, |chunks[n]|), chunks[n], assign);
  }

  lemma NothingCovers(assign: bool, key: nat, was: real)
    ensures CellIs([], [], assign, key, was, was)
  {
  }

  lemma LastFits(chunkSize: nat, first: nat, size: nat, ids: seq<nat>, chunks: seq<seq<real>>)
    requires ChunksFit(chunkSize, first, size, ids, chunks) && ids != []
    ensures var n := |ids| - 1;
            && |chunks| == n + 1 && ChunksFit(chunkSize, first, size, ids[..n], chunks[..n])
            && first <= ids[n] * chunkSize && ids[n] * chunkSize + |chunks[n]| <= first + size
  {
  }

  lemma EarlierEnds(chunkSize: nat, ids: seq<nat>, chunks: seq<seq<real>>)
    requires |chunks| == |ids| > 0
    requires forall i, j :: 0 <= i < j < |ids| ==> ids[i] < ids[j]
    requires forall i :: 0 <= i < |ids| ==> |chunks[i]| <= chunkSize
    ensures var n, starts := |ids| - 1, Starts(ids, chunkSize); forall i :: 0 <= i < n ==> starts[i] + |chunks[i]| <= starts[n]
  {
    var n, starts := |ids| - 1, Starts(ids, chunkSize);
    forall i | 0 <= i < n ensures starts[i] + |chunks[i]| <= starts[n] {
      MulMono(ids[i] + 1, ids[n], chunkSize);
      assert (ids[i] + 1) * chunkSize == ids[i] * chunkSize + chunkSize;
    }
  }

  /** What one cell holds after all chunks, given what it holds after all but the last. */
  ghost predicate CellIs(starts: seq<nat>, chunks: seq<seq<real>>, assign: bool, key: nat, was: real, now: real)
    requires |chunks| == |starts|
  {
    && (forall i :: 0 <= i < |starts| && starts[i] <= key < starts[i] + |chunks[i]| ==>
          now == if assign then chunks[i][key - starts[i]] else was + chunks[i][key - starts[i]])
    && ((forall i :: 0 <= i < |starts| ==> key < starts[i] || starts[i] + |chunks[i]| <= key) ==> now == was)
  }

  /** The first keys of chunks. */
  function Starts(ids: seq<nat>, chunkSize: nat): (r: seq<nat>)
    ensures |r| == |ids| && forall i :: 0 <= i < |ids| ==> r[i] == ids[i] * chunkSize
  {
    seq(|ids|, i requires 0 <= i < |ids| => ids[i] * chunkSize)
  }

  lemma StartsLast(chunkSize: nat, ids: seq<nat>)
    requires ids != []
    ensures var n := |ids| - 1;
            && Starts(ids, chunkSize)[..n] == Starts(ids[..n], chunkSize)
            && Starts(ids, chunkSize)[n] == ids[n] * chunkSize
  {
  }

  lemma LastChunkWins(starts: seq<nat>, chunks: seq<seq<real>>, assign: bool, key: nat, was: real, mid: real, now: real)
    requires |chunks| == |starts| > 0
    requires var n := |starts| - 1;
             && CellIs(starts[..n], chunks[..n], assign, key, was, mid)
             && (forall i :: 0 <= i < n ==> starts[i] + |chunks[i]| <= starts[n])
             && now == (if starts[n] <= key < starts[n] + |chunks[n]| then
                          (if assign then chunks[n][key - starts[n]] else mid + chunks[n][key - starts[n]])
                        else mid)
    ensures CellIs(starts, chunks, assign, key, was, now)
  {
    var n := |starts| - 1;
    if starts[n] <= key < starts[n] + |chunks[n]| {
      assert mid == was;
    }
  }

  lemma RunSize(first: nat, n: nat)
    ensures |Run(first, n)| == n
  {
  }

  lemma NothingWritten(store: Store, first: nat, assign: bool)
    ensures Write(store, first, [], [], assign) == store
  {
  }

  /** The chunks do not overlap. */
  ghost predicate Apart(chunkSize: nat, ids: seq<nat>, chunks: seq<seq<real>>)
    requires |chunks| == |ids|
  {
    && (forall i, j :: 0 <= i < j < |ids| ==> ids[i] < ids[j])
    && forall i :: 0 <= i < |ids| ==> |chunks[i]| <= chunkSize
  }

  /** Cell j of chunk i ends up at its place in the key space, and all other cells stay
      as they were. */
  lemma ChunksWritten(store: Store, first: nat, chunkSize: nat, ids: seq<nat>, chunks: seq<seq<real>>, assign: bool)
    requires ChunksFit(chunkSize, first, |store|, ids, chunks) && Apart(chunkSize, ids, chunks)
    ensures Within(ChunkKeys(chunkSize, ids, chunks), first, |store|) && |ChunkKeys(chunkSize, ids, chunks)| == |Concat(chunks)|
    ensures var now := Write(store, first, ChunkKeys(chunkSize, ids, chunks), Concat(chunks), assign);
            && (forall i, j :: 0 <= i < |ids| && 0 <= j < |chunks[i]| ==>
                  var k := ids[i] * chunkSize + j - first;
                  now[k] == if assign then chunks[i][j] else store[k] + chunks[i][j])
            && (forall k :: 0 <= k < |store| ==>
                  (forall i :: 0 <= i < |ids| ==> first + k < ids[i] * chunkSize || ids[i] * chunkSize + |chunks[i]| <= first + k) ==>
                  now[k] == store[k])
  {
    hide Write, ChunkKeys, Concat;
    ChunkKeysWithin(chunkSize, first, |store|, ids, chunks);
    var now := Write(store, first, ChunkKeys(chunkSize, ids, chunks), Concat(chunks), assign);
    forall i, j | 0 <= i < |ids| && 0 <= j < |chunks[i]|
      ensures var k := ids[i] * chunkSize + j - first; now[k] == if assign then chunks[i][j] else store[k] + chunks[i][j]
    {
      var k := ids[i] * chunkSize + j - first;
      ChunkWriteAt(store, first, chunkSize, ids, chunks, assign, k);
      assert first + k - ids[i] * chunkSize == j;
    }
    forall k | 0 <= k < |store|
        && (forall i :: 0 <= i < |ids| ==> first + k < ids[i] * chunkSize || ids[i] * chunkSize + |chunks[i]| <= first + k)
      ensures now[k] == store[k]
    {
      ChunkWriteAt(store, first, chunkSize, ids, chunks, assign, k);
    }
  }

  method WriteChunks(store: array<real>, begin: nat, chunkSize: nat, ids: seq<nat>, chunks: seq<seq<real>>, isAssign: bool)
    requires begin < INT_LIMIT
    requires ChunksFit(chunkSize, begin, store.Length, ids, chunks)
    modifies store
    ensures Within(ChunkKeys(chunkSize, ids, chunks), begin, store.Length)
    ensures |ChunkKeys(chunkSize, ids, chunks)| == |Concat(chunks)|
    ensures store[..] == Write(old(store[..]), begin, ChunkKeys(chunkSize, ids, chunks), Concat(chunks), isAssign)
  {
    ChunkKeysWithin(chunkSize, begin, store.Length, ids, chunks);
    for i := 0 to |ids|
      invariant Within(ChunkKeys(chunkSize, ids[..i], chunks[..i]), begin, store.Length)
      invariant |ChunkKeys(chunkSize, ids[..i], chunks[..i])| == |Concat(chunks[..i])|
      invariant store[..] == Write(old(store[..]), begin, ChunkKeys(chunkSize, ids[..i], chunks[..i]), Concat(chunks[..i]), isAssign)
    {
      var startId := ids[i] * chunkSize;
      UpdateChunk(store, begin, startId, chunks[i], isAssign);
      assert ids[..i + 1][..i] == ids[..i] && chunks[..i + 1][..i] == chunks[..i];
      WriteConcat(old(store[..]), begin, ChunkKeys(chunkSize, ids[..i], chunks[..i]), Concat(chunks[..i]),
                  Run(startId, |chunks[i]|), chunks[i], isAssign);
    }
    assert ids[..|ids|] == ids && chunks[..|ids|] == chunks;
  }

  /** A chunked push writes every chunk under its keys: if the chunks do not overlap,
      each cell of each chunk in its place, and nothing else. */
  method UpdateChunks(store: array<real>, begin: nat, chunkSize: nat, ids: seq<nat>, chunks: seq<seq<real>>, isAssign: bool)
    requires begin < INT_LIMIT
    requires ChunksFit(chunkSize, begin, store.Length, ids, chunks)
    modifies store
    ensures Within(ChunkKeys(chunkSize, ids, chunks), begin, store.Length)
    ensures |ChunkKeys(chunkSize, ids, chunks)| == |Concat(chunks)|
    ensures store[..] == Write(old(store[..]), begin, ChunkKeys(chunkSize, ids, chunks), Concat(chunks), isAssign)
    ensures Apart(chunkSize, ids, chunks) ==>
      && (forall i, j :: 0 <= i < |ids| && 0 <= j < |chunks[i]| ==>
            var k := ids[i] * chunkSize + j - begin;
            store[k] == if isAssign then chunks[i][j] else old(store[..])[k] + chunks[i][j])
      && (forall k :: 0 <= k < store.Length ==>
            (forall i :: 0 <= i < |ids| ==> begin + k < ids[i] * chunkSize || ids[i] * chunkSize + |chunks[i]| <= begin + k) ==>
            store[k] == old(store[..])[k])
  {
    hide Write, ChunkKeys, Concat, Apart;
    if Apart(chunkSize, ids, chunks) { ChunksWritten(store[..], begin, chunkSize, ids, chunks, isAssign); }
    WriteChunks(store, begin, chunkSize, ids, chunks, isAssign);
  }

  /** A keyed pull. */
  method RetrieveKeyed(store: array<real>, begin: nat, keys: seq<nat>) returns (vals: seq<real>)
    requires begin < INT_LIMIT
    requires Within(keys, begin, store.Length) && forall k :: k in keys ==> k < KEY_LIMIT
    ensures vals == Read(store[..], begin, keys)
    ensures |vals| == |keys| && forall i :: 0 <= i < |keys| ==> vals[i] == store[keys[i] - begin]
  {
    var interval := Interval(begin);
    vals := [];
    for i := 0 to |keys|
      invariant |vals| == i
      invariant forall k :: 0 <= k < i ==> vals[k] == store[keys[k] - begin]
    {
      assert keys[i] in keys;
      IndexExact(begin, keys[i]);
      vals := vals + [store[Index(keys[i], interval)]];
    }
  }

  /** The keys a chunked pull reads from a server, chunk after chunk. */
  ghost function PulledKeys(maxKey: nat, chunkSize: nat, ids: seq<nat>): seq<nat>
    requires forall i :: 0 <= i < |ids| ==> ids[i] * chunkSize < maxKey
  {
    if ids == [] then []
    else
      var n := |ids| - 1;
      PulledKeys(maxKey, chunkSize, ids[..n]) + Run(ids[n] * chunkSize, ChunkLen(maxKey, chunkSize, ids[n]))
  }

  ghost predicate PullFits(maxKey: nat, chunkSize: nat, begin: nat, size: nat, ids: seq<nat>) {
    && 0 < maxKey < KEY_LIMIT && 0 < chunkSize
    && forall i :: 0 <= i < |ids| ==>
         && ids[i] * chunkSize < maxKey && begin <= ids[i] * chunkSize
         && ids[i] * chunkSize + ChunkLen(maxKey, chunkSize, ids[i]) <= begin + size
  }

  lemma {:induction false} PulledWithin(maxKey: nat, chunkSize: nat, begin: nat, size: nat, ids: seq<nat>)
    requires PullFits(maxKey, chunkSize, begin, size, ids)
    ensures Within(PulledKeys(maxKey, chunkSize, ids), begin, size)
  {
    if ids != [] { PulledWithin(maxKey, chunkSize, begin, size, ids[..|ids| - 1]); }
  }

  /** Only the last chunk can be short. */
  lemma RealChunkSize(maxKey: nat, chunkSize: nat, chunk: nat)
    requires maxKey > 0 && chunkSize > 0 && chunk * chunkSize < maxKey
    ensures chunk < ChunkNum(maxKey, chunkSize)
    ensures chunk != ChunkNum(maxKey, chunkSize) - 1 ==> ChunkLen(maxKey, chunkSize, chunk) == chunkSize
  {
    var num := ChunkNum(maxKey, chunkSize);
    ChunkNumBounds(maxKey, chunkSize);
    if chunk >= num { MulMono(num, chunk, chunkSize); }
    if chunk + 1 < num {
      MulMono(chunk + 1, num - 1, chunkSize);
      assert (chunk + 1) * chunkSize == chunk * chunkSize + chunkSize;
    }
  }

  method RetrieveRun(store: array<real>, begin: nat, startId: nat, size: nat) returns (vals: seq<real>)
    requires begin < INT_LIMIT && begin <= startId && startId + size <= begin + store.Length && startId + size <= KEY_LIMIT
    ensures vals == Read(store[..], begin, Run(startId, size))
  {
    var interval := Interval(begin);
    vals := [];
    for i := 0 to size
      invariant |vals| == i
      invariant forall k :: 0 <= k < i ==> vals[k] == store[startId + k - begin]
    {
      IndexExact(begin, startId + i);
      vals := vals + [store[Index(startId + i, interval)]];
    }
  }

  /** A chunked pull: whole chunks, except that the last chunk of the key space may
      be short. */
  method RetrieveChunks(store: array<real>, begin: nat, maxKey: nat, chunkSize: nat, chunkNum: nat, lastChunkSize: nat, ids: seq<nat>)
    returns (vals: seq<real>)
    requires begin < INT_LIMIT
    requires PullFits(maxKey, chunkSize, begin, store.Length, ids)
    requires chunkNum == ChunkNum(maxKey, chunkSize)
    requires (chunkNum - 1) * chunkSize < maxKey && lastChunkSize == ChunkLen(maxKey, chunkSize, chunkNum - 1)
    ensures Within(PulledKeys(maxKey, chunkSize, ids), begin, store.Length)
    ensures vals == Read(store[..], begin, PulledKeys(maxKey, chunkSize, ids))
  {
    PulledWithin(maxKey, chunkSize, begin, store.Length, ids);
    vals := [];
    for i := 0 to |ids|
      invariant Within(PulledKeys(maxKey, chunkSize, ids[..i]), begin, store.Length)
      invariant vals == Read(store[..], begin, PulledKeys(maxKey, chunkSize, ids[..i]))
    {
      var startId := ids[i] * chunkSize;
      var realChunkSize := if ids[i] == chunkNum - 1 then lastChunkSize else chunkSize;
      RealChunkSize(maxKey, chunkSize, ids[i]);
      var part := RetrieveRun(store, begin, startId, realChunkSize);
      vals := vals + part;
      assert ids[..i + 1][..i] == ids[..i];
      ReadConcat(store[..], begin, PulledKeys(maxKey, chunkSize, ids[..i]), Run(startId, realChunkSize));
    }
    assert ids[..|ids|] == ids;
  }
}

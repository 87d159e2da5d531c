// How keys are divided among the servers: whole chunks first, then key ranges
// clipped to the key space, in the 64-bit arithmetic of the original.
module RangeManager {
  const KEY_LIMIT: nat := 0x1_0000_0000_0000_0000
  const INT_LIMIT: nat := 0x8000_0000

  datatype Range = Range(begin: nat, end: nat)

  /** The product of two unsigned 64-bit numbers. */
  function Mul64(a: nat, b: nat): nat { (a * b) % KEY_LIMIT }

  function Min(a: nat, b: nat): nat { if a <= b then a else b }

  // ------------------------------------------------------------ definition

  /** What the assertions and types of the original allow. */
  predicate Sizes(maxKey: nat, chunkSize: nat, servers: nat) {
    0 < maxKey < KEY_LIMIT && 0 < chunkSize < INT_LIMIT && 0 < servers < INT_LIMIT
  }

  function ChunkNum(maxKey: nat, chunkSize: nat): nat
    requires maxKey > 0 && chunkSize > 0
  {
    (maxKey - 1) / chunkSize + 1
  }

  /** The first chunk of server i when `num` chunks are dealt out as evenly as
      possible, the larger shares first. */
  function FirstChunk(num: nat, servers: nat, i: nat): nat
    requires servers > 0
  {
    i * (num / servers) + Min(i, num % servers)
  }

  function ChunkRange(num: nat, servers: nat, i: nat): Range
    requires servers > 0
  {
    Range(FirstChunk(num, servers, i), FirstChunk(num, servers, i + 1))
  }

  /** The first key of server i: its first chunk's, but no more than maxKey. */
  function FirstKey(maxKey: nat, chunkSize: nat, servers: nat, i: nat): nat
    requires maxKey > 0 && chunkSize > 0 && servers > 0
  {
    Min(FirstChunk(ChunkNum(maxKey, chunkSize), servers, i) * chunkSize, maxKey)
  }

  function KeyRange(maxKey: nat, chunkSize: nat, servers: nat, i: nat): Range
    requires maxKey > 0 && chunkSize > 0 && servers > 0
  {
    Range(FirstKey(maxKey, chunkSize, servers, i), FirstKey(maxKey, chunkSize, servers, i + 1))
  }

  /** The ranges of a whole key space. */
  ghost predicate IsPartition(maxKey: nat, chunkSize: nat, servers: nat, keys: seq<Range>, chunks: seq<Range>) {
    && maxKey > 0 && chunkSize > 0 && servers > 0
    && |keys| == |chunks| == servers
    && (forall i :: 0 <= i < servers ==> chunks[i] == ChunkRange(ChunkNum(maxKey, chunkSize), servers, i))
    && (forall i :: 0 <= i < servers ==> keys[i] == KeyRange(maxKey, chunkSize, servers, i))
  }

  // ------------------------------------------------------------ arithmetic

  lemma MulMono(a: nat, b: nat, c: nat)
    requires a <= b
    ensures a * c <= b * c
  {
  }

  lemma ChunkNumBounds(maxKey: nat, chunkSize: nat)
    requires maxKey > 0 && chunkSize > 0
    ensures (ChunkNum(maxKey, chunkSize) - 1) * chunkSize < maxKey <= ChunkNum(maxKey, chunkSize) * chunkSize
  {
  }

  /** Shares are dealt without gaps and end with the last chunk; all have the same
      number of chunks, and the first servers one of the chunks that are over each. */
  lemma ChunkShares(num: nat, servers: nat, i: nat)
    requires servers > 0 && i < servers
    ensures FirstChunk(num, servers, 0) == 0
    ensures FirstChunk(num, servers, servers) == num
    ensures var share := FirstChunk(num, servers, i + 1) - FirstChunk(num, servers, i);
            share == num / servers + if i < num % servers then 1 else 0
  {
  }

  lemma FirstChunkMono(num: nat, servers: nat, i: nat, j: nat)
    requires servers > 0 && i <= j <= servers
    ensures FirstChunk(num, servers, i) <= FirstChunk(num, servers, j) <= num
  {
    MulMono(i, j, num / servers);
    MulMono(j, servers, num / servers);
    assert num == servers * (num / servers) + num % servers;
  }

  /** Key ranges start at 0, end at maxKey, and never step back. */
  lemma FirstKeyMono(maxKey: nat, chunkSize: nat, servers: nat, i: nat, j: nat)
    requires maxKey > 0 && chunkSize > 0 && servers > 0 && i <= j <= servers
    ensures FirstKey(maxKey, chunkSize, servers, 0) == 0
    ensures FirstKey(maxKey, chunkSize, servers, servers) == maxKey
    ensures FirstKey(maxKey, chunkSize, servers, i) <= FirstKey(maxKey, chunkSize, servers, j) <= maxKey
  {
    var num := ChunkNum(maxKey, chunkSize);
    ChunkShares(num, servers, 0);
    ChunkNumBounds(maxKey, chunkSize);
    FirstChunkMono(num, servers, i, j);
    MulMono(FirstChunk(num, servers, i), FirstChunk(num, servers, j), chunkSize);
  }

  /** A server that starts past the last chunk exists only when there are fewer
      chunks than servers. */
  lemma PastTheEnd(num: nat, servers: nat, i: nat)
    requires i < servers
    requires FirstChunk(num, servers, i) >= num
    ensures num < servers
  {
  }

  /** None of the products that are kept wraps: only the end of the last server's
      range may, and that one is replaced by maxKey. */
  lemma KeptProducts(maxKey: nat, chunkSize: nat, servers: nat, i: nat)
    requires Sizes(maxKey, chunkSize, servers) && i < servers
    ensures FirstChunk(ChunkNum(maxKey, chunkSize), servers, i) * chunkSize < KEY_LIMIT
  {
    var num := ChunkNum(maxKey, chunkSize);
    var first := FirstChunk(num, servers, i);
    ChunkNumBounds(maxKey, chunkSize);
    FirstChunkMono(num, servers, i, servers);
    if first < num {
      MulMono(first, num - 1, chunkSize);
    } else {
      PastTheEnd(num, servers, i);
      SmallProduct(first, chunkSize);
    }
  }

  lemma KeptExact(maxKey: nat, chunkSize: nat, servers: nat, i: nat)
    requires Sizes(maxKey, chunkSize, servers) && i < servers
    ensures var first := FirstChunk(ChunkNum(maxKey, chunkSize), servers, i);
            Mul64(first, chunkSize) == first * chunkSize
  {
    KeptProducts(maxKey, chunkSize, servers, i);
  }

  lemma SmallProduct(a: nat, b: nat)
    requires a < INT_LIMIT && b < INT_LIMIT
    ensures a * b < KEY_LIMIT
  {
    MulMono(a, INT_LIMIT, b);
    assert a * b <= INT_LIMIT * b;
  }

  lemma EarlyChunk(num: nat, servers: nat, i: nat)
    requires servers > 0 && i < num % servers
    ensures var base := num / servers;
            ChunkRange(num, servers, i) == Range(i * (base + 1), (i + 1) * (base + 1))
  {
  }

  lemma LateChunk(num: nat, servers: nat, i: nat)
    requires servers > 0
    ensures var base, remain := num / servers, num % servers;
            && FirstChunk(num, servers, remain + i) == remain * (base + 1) + i * base
            && remain * (base + 1) + (i + 1) * base == remain * (base + 1) + i * base + base
  {
  }

  /** The unclipped key range of a server, as first computed. */
  function RawRange(maxKey: nat, chunkSize: nat, servers: nat, i: nat): Range
    requires maxKey > 0 && chunkSize > 0 && servers > 0
  {
    var r := ChunkRange(ChunkNum(maxKey, chunkSize), servers, i);
    Range(r.begin * chunkSize, if i + 1 == servers then maxKey else r.end * chunkSize)
  }

  /** Ranges whose end does not pass maxKey need no clipping, nor do any before. */
  lemma RawIsClipped(maxKey: nat, chunkSize: nat, servers: nat, i: nat, j: nat)
    requires maxKey > 0 && chunkSize > 0 && servers > 0 && j <= i < servers
    requires FirstChunk(ChunkNum(maxKey, chunkSize), servers, i + 1) * chunkSize <= maxKey
    requires i + 1 < servers
    ensures RawRange(maxKey, chunkSize, servers, j) == KeyRange(maxKey, chunkSize, servers, j)
  {
    var num := ChunkNum(maxKey, chunkSize);
    FirstChunkMono(num, servers, j, j + 1);
    FirstChunkMono(num, servers, j + 1, i + 1);
    MulMono(FirstChunk(num, servers, j), FirstChunk(num, servers, j + 1), chunkSize);
    MulMono(FirstChunk(num, servers, j + 1), FirstChunk(num, servers, i + 1), chunkSize);
  }

  class RangeManager {
    var numServers: int
    var serverKeyRanges: seq<seq<Range>>
    var serverChunkRanges: seq<seq<Range>>
    var maxKeys: seq<nat>
    var chunkSizes: seq<nat>
    var chunkNums: seq<nat>

    constructor ()
      ensures Valid() && numServers == -1 && serverKeyRanges == []
    {
      numServers := -1;
      serverKeyRanges, serverChunkRanges := [], [];
      maxKeys, chunkSizes, chunkNums := [], [], [];
    }

    ghost predicate Valid()
      reads this
    {
      |serverKeyRanges| == |serverChunkRanges| == |maxKeys| == |chunkSizes| == |chunkNums|
    }

    /** The table of a key-value store is set up. */
    ghost predicate Set(kvId: nat)
      reads this
    {
      && Valid() && kvId < |maxKeys| && numServers > 0
      && Sizes(maxKeys[kvId], chunkSizes[kvId], numServers)
      && chunkNums[kvId] == ChunkNum(maxKeys[kvId], chunkSizes[kvId])
      && IsPartition(maxKeys[kvId], chunkSizes[kvId], numServers, serverKeyRanges[kvId], serverChunkRanges[kvId])
    }

    method SetNumServers(n: int)
      modifies this`numServers
      ensures numServers == n
    {
      numServers := n;
    }

    method SetMaxKeyAndChunkSize(kvId: nat, maxKey: nat, chunkSize: nat)
      requires Valid() && numServers > 0 && Sizes(maxKey, chunkSize, numServers)
      modifies this
      ensures Set(kvId) && maxKeys[kvId] == maxKey && chunkSizes[kvId] == chunkSize && numServers == old(numServers)
      ensures |maxKeys| == if kvId < old(|maxKeys|) then old(|maxKeys|) else kvId + 1
      ensures forall k :: 0 <= k < old(|maxKeys|) && k != kvId ==>
                && serverKeyRanges[k] == old(serverKeyRanges[k]) && serverChunkRanges[k] == old(serverChunkRanges[k])
                && maxKeys[k] == old(maxKeys[k]) && chunkSizes[k] == old(chunkSizes[k]) && chunkNums[k] == old(chunkNums[k])
    {
      if kvId >= |serverKeyRanges| {
        var more := kvId + 1 - |serverKeyRanges|;
        serverKeyRanges := serverKeyRanges + seq(more, _ => []);
        serverChunkRanges := serverChunkRanges + seq(more, _ => []);
        maxKeys := maxKeys + seq(more, _ => 0);
        chunkSizes := chunkSizes + seq(more, _ => 0);
        chunkNums := chunkNums + seq(more, _ => 0);
      }
      maxKeys := maxKeys[kvId := maxKey];
      chunkSizes := chunkSizes[kvId := chunkSize];
      chunkNums := chunkNums[kvId := (maxKey - 1) / chunkSize + 1];
      var chunks := DealChunks(chunkNums[kvId], numServers);
      serverChunkRanges := serverChunkRanges[kvId := chunks];
      var keys := ScaleAndClip(maxKey, chunkSize, numServers, chunks);
      serverKeyRanges := serverKeyRanges[kvId := keys];
    }

    static method DealChunks(chunkNum: nat, servers: nat) returns (chunks: seq<Range>)
      requires servers > 0
      ensures |chunks| == servers
      ensures forall i :: 0 <= i < servers ==> chunks[i] == ChunkRange(chunkNum, servers, i)
    {
      var base := chunkNum / servers;
      var remain := chunkNum % servers;
      chunks := [];
      for i := 0 to remain
        invariant |chunks| == i
        invariant forall k :: 0 <= k < i ==> chunks[k] == ChunkRange(chunkNum, servers, k)
      {
        EarlyChunk(chunkNum, servers, i);
        chunks := chunks + [Range(i * (base + 1), (i + 1) * (base + 1))];
      }
      var end := remain * (base + 1);
      for i := 0 to servers - remain - 1
        invariant |chunks| == remain + i
        invariant forall k :: 0 <= k < remain + i ==> chunks[k] == ChunkRange(chunkNum, servers, k)
      {
        LateChunk(chunkNum, servers, i);
        LateChunk(chunkNum, servers, i + 1);
        chunks := chunks + [Range(end + i * base, end + (i + 1) * base)];
      }
      LateChunk(chunkNum, servers, servers - remain - 1);
      ChunkShares(chunkNum, servers, 0);
      chunks := chunks + [Range(end + (servers - remain - 1) * base, chunkNum)];
    }

    static method ScaleAndClip(maxKey: nat, chunkSize: nat, servers: nat, chunks: seq<Range>) returns (keys: seq<Range>)
      requires Sizes(maxKey, chunkSize, servers)
      requires |chunks| == servers
      requires forall i :: 0 <= i < servers ==> chunks[i] == ChunkRange(ChunkNum(maxKey, chunkSize), servers, i)
      ensures |keys| == servers
      ensures forall i :: 0 <= i < servers ==> keys[i] == KeyRange(maxKey, chunkSize, servers, i)
    {
      keys := Scale(maxKey, chunkSize, servers, chunks);
      FirstKeyMono(maxKey, chunkSize, servers, servers - 1, servers);
      var last := keys[servers - 1];
      if last.begin > last.end {
        keys := keys[servers - 1 := Range(maxKey, maxKey)];
      }
      var i := servers - 2;
      while i >= 0
        invariant -1 <= i <= servers - 2
        invariant |keys| == servers
        invariant forall k :: i < k < servers ==> keys[k] == KeyRange(maxKey, chunkSize, servers, k)
        invariant forall k :: 0 <= k <= i ==> keys[k] == RawRange(maxKey, chunkSize, servers, k)
      {
        var thisOne, nextOne := keys[i], keys[i + 1];
        if thisOne.end > nextOne.begin {
          thisOne := Range(thisOne.begin, nextOne.begin);
          if thisOne.begin > thisOne.end {
            thisOne := Range(thisOne.end, thisOne.end);
          }
          keys := keys[i := thisOne];
        } else {
          forall k | 0 <= k <= i ensures keys[k] == KeyRange(maxKey, chunkSize, servers, k) {
            RawIsClipped(maxKey, chunkSize, servers, i, k);
          }
          break;
        }
        i := i - 1;
      }
    }

    static method Scale(maxKey: nat, chunkSize: nat, servers: nat, chunks: seq<Range>) returns (keys: seq<Range>)
      requires Sizes(maxKey, chunkSize, servers)
      requires |chunks| == servers
      requires forall i :: 0 <= i < servers ==> chunks[i] == ChunkRange(ChunkNum(maxKey, chunkSize), servers, i)
      ensures |keys| == servers
      ensures forall i :: 0 <= i < servers ==> keys[i] == RawRange(maxKey, chunkSize, servers, i)
    {
      keys := [];
      for i := 0 to servers
        invariant |keys| == i
        invariant forall k :: 0 <= k < i ==>
                    keys[k] == Range(Mul64(chunks[k].begin, chunkSize), Mul64(chunks[k].end, chunkSize))
      {
        keys := keys + [Range(Mul64(chunks[i].begin, chunkSize), Mul64(chunks[i].end, chunkSize))];
      }
      hide Mul64, KEY_LIMIT;
      forall k | 0 <= k < servers
        ensures keys[k].begin == RawRange(maxKey, chunkSize, servers, k).begin
        ensures k + 1 < servers ==> keys[k].end == RawRange(maxKey, chunkSize, servers, k).end
      {
        KeptExact(maxKey, chunkSize, servers, k);
        if k + 1 < servers { KeptExact(maxKey, chunkSize, servers, k + 1); }
      }
      keys := keys[servers - 1 := Range(keys[servers - 1].begin, maxKey)];
    }

    method GetServerFromKey(kvId: nat, key: nat) returns (server: int)
      requires Set(kvId)
      ensures 0 <= server < numServers
      ensures key < maxKeys[kvId] ==> serverKeyRanges[kvId][server].begin <= key < serverKeyRanges[kvId][server].end
      ensures key >= maxKeys[kvId] ==> server == numServers - 1
    {
      var ranges := serverKeyRanges[kvId];
      FirstKeyMono(maxKeys[kvId], chunkSizes[kvId], numServers, 0, 0);
      var i := 0;
      while key >= ranges[i].begin
        invariant 0 <= i < numServers
        invariant i > 0 ==> ranges[i - 1].begin <= key
        decreases numServers - i
      {
        i := i + 1;
        if i == numServers { break; }
      }
      server := i - 1;
      if key >= maxKeys[kvId] && i < numServers {
        FirstKeyMono(maxKeys[kvId], chunkSizes[kvId], numServers, i, numServers);
      }
    }

    method GetServerFromChunk(kvId: nat, chunkId: nat) returns (server: int)
      requires Set(kvId)
      requires chunkId < chunkNums[kvId]
      ensures 0 <= server < numServers
      ensures serverChunkRanges[kvId][server].begin <= chunkId < serverChunkRanges[kvId][server].end
    {
      ChunkNumBounds(maxKeys[kvId], chunkSizes[kvId]);
      MulMono(chunkId, chunkNums[kvId] - 1, chunkSizes[kvId]);
      server := GetServerFromKey(kvId, chunkId * chunkSizes[kvId]);
      KeyChunk(maxKeys[kvId], chunkSizes[kvId], numServers, server, chunkId);
    }

    method GetLastChunkSize(kvId: nat) returns (size: nat)
      requires Set(kvId)
      ensures size == ChunkLen(maxKeys[kvId], chunkSizes[kvId], chunkNums[kvId] - 1)
    {
      LastChunk(maxKeys[kvId], chunkSizes[kvId]);
      if maxKeys[kvId] % chunkSizes[kvId] != 0 {
        size := maxKeys[kvId] % chunkSizes[kvId];
      } else {
        size := chunkSizes[kvId];
      }
    }
  }

  // ---------------------------------------------------- what the ranges are

  /** The number of keys in a chunk. */
  function ChunkLen(maxKey: nat, chunkSize: nat, chunk: nat): nat
    requires chunk * chunkSize < maxKey
  {
    Min(chunkSize, maxKey - chunk * chunkSize)
  }

  lemma LastChunk(maxKey: nat, chunkSize: nat)
    requires maxKey > 0 && chunkSize > 0
    ensures var last := ChunkNum(maxKey, chunkSize) - 1;
            && last * chunkSize < maxKey
            && ChunkLen(maxKey, chunkSize, last) == if maxKey % chunkSize != 0 then maxKey % chunkSize else chunkSize
  {
    ChunkNumBounds(maxKey, chunkSize);
    var q, r := maxKey / chunkSize, maxKey % chunkSize;
    assert maxKey == q * chunkSize + r;
    var last := ChunkNum(maxKey, chunkSize) - 1;
    if r == 0 {
      Quotient(maxKey - 1, chunkSize, q - 1, chunkSize - 1);
    } else {
      Quotient(maxKey - 1, chunkSize, q, r - 1);
    }
  }

  lemma Quotient(x: nat, d: nat, q: int, r: nat)
    requires d > 0 && r < d && x == q * d + r
    ensures x / d == q
  {
    if x / d < q { MulMono2(x / d + 1, q, d); }
    if x / d > q { MulMono2(q + 1, x / d, d); }
  }

  lemma MulMono2(a: int, b: int, c: nat)
    requires a <= b
    ensures a * c <= b * c
  {
  }

  /** Every key below maxKey lies in exactly one server's range. */
  lemma UniqueOwner(maxKey: nat, chunkSize: nat, servers: nat, keys: seq<Range>, chunks: seq<Range>, key: nat) returns (owner: nat)
    requires IsPartition(maxKey, chunkSize, servers, keys, chunks)
    requires key < maxKey
    ensures owner < servers && keys[owner].begin <= key < keys[owner].end
    ensures forall i :: 0 <= i < servers && keys[i].begin <= key < keys[i].end ==> i == owner
  {
    FirstKeyMono(maxKey, chunkSize, servers, 0, servers);
    owner := 0;
    while keys[owner].end <= key
      invariant owner < servers && keys[owner].begin <= key
      decreases servers - owner
    {
      owner := owner + 1;
    }
    forall i | 0 <= i < servers && keys[i].begin <= key < keys[i].end ensures i == owner {
      if i < owner { FirstKeyMono(maxKey, chunkSize, servers, i + 1, owner); }
      if owner < i { FirstKeyMono(maxKey, chunkSize, servers, owner + 1, i); }
    }
  }

  /** A server holds the first key of a chunk exactly when it holds the chunk. */
  lemma KeyChunk(maxKey: nat, chunkSize: nat, servers: nat, i: nat, chunk: nat)
    requires maxKey > 0 && chunkSize > 0 && i < servers
    requires chunk < ChunkNum(maxKey, chunkSize)
    ensures chunk * chunkSize < maxKey
    ensures var k := KeyRange(maxKey, chunkSize, servers, i);
            var c := ChunkRange(ChunkNum(maxKey, chunkSize), servers, i);
            && (chunk * chunkSize < k.end <==> chunk < c.end)
            && (k.begin <= chunk * chunkSize <==> c.begin <= chunk)
  {
    ChunkNumBounds(maxKey, chunkSize);
    MulMono(chunk, ChunkNum(maxKey, chunkSize) - 1, chunkSize);
    BelowFirst(maxKey, chunkSize, servers, i, chunk);
    BelowFirst(maxKey, chunkSize, servers, i + 1, chunk);
  }

  lemma BelowFirst(maxKey: nat, chunkSize: nat, servers: nat, i: nat, chunk: nat)
    requires maxKey > 0 && chunkSize > 0 && servers > 0
    requires chunk * chunkSize < maxKey
    ensures chunk * chunkSize < FirstKey(maxKey, chunkSize, servers, i) <==>
            chunk < FirstChunk(ChunkNum(maxKey, chunkSize), servers, i)
  {
  }

  /** A whole chunk lies inside its server's key range. */
  lemma ChunkInside(maxKey: nat, chunkSize: nat, servers: nat, i: nat, chunk: nat)
    requires maxKey > 0 && chunkSize > 0 && i < servers
    requires var c := ChunkRange(ChunkNum(maxKey, chunkSize), servers, i); c.begin <= chunk < c.end
    ensures chunk * chunkSize < maxKey
    ensures var k := KeyRange(maxKey, chunkSize, servers, i);
            k.begin <= chunk * chunkSize && chunk * chunkSize + ChunkLen(maxKey, chunkSize, chunk) <= k.end
  {
    var num := ChunkNum(maxKey, chunkSize);
    FirstChunkMono(num, servers, i + 1, servers);
    KeyChunk(maxKey, chunkSize, servers, i, chunk);
    assert (chunk + 1) * chunkSize == chunk * chunkSize + chunkSize;
    MulMono(chunk + 1, FirstChunk(num, servers, i + 1), chunkSize);
  }
}

/** Where the chunks of a source file occur in a destination file: the complete scan and the chunk-wise one. */
module RsyncServices {
  import opened Bytes
  import opened WeakSums
  import opened Chunks
  import opened Scans
  import opened ScanNewFiles
  import opened Checksum3s

  /** The chunk descriptions after chunk `k` has been found at `at` in the destination. */
  function Relocate(chunks: seq<Chunk>, k: int, at: int32): seq<Chunk>
    requires 0 <= k < |chunks|
  {
    chunks[k := chunks[k].(from := false, offset := at)]
  }

  /** Both sums of the window at `at` are those of chunk `k`, and `k` is the last chunk with that weak sum. */
  predicate Occurs(p: Params, chunks: seq<Chunk>, file: seq<byte>, at: int, k: int) {
    0 <= at && 1 <= p.chunk && at + p.chunk <= |file|
    && k == Lookup(chunks, p.WeakOf(file[at..at + p.chunk])) && StrongMatch(p, chunks, file, at, k)
  }

  /** The last of the first `n` window positions where chunk `k` occurs, or -1. */
  function LastAt(p: Params, chunks: seq<Chunk>, file: seq<byte>, k: int, n: nat): (at: int)
    ensures -1 <= at < n
    ensures at >= 0 ==> Occurs(p, chunks, file, at, k)
    ensures forall i :: at < i < n ==> !Occurs(p, chunks, file, i, k)
  {
    if n == 0 then -1
    else if Occurs(p, chunks, file, n - 1, k) then n - 1
    else LastAt(p, chunks, file, k, n - 1)
  }

  /** A chunk after the first `n` window positions. */
  function ScannedChunk(p: Params, chunks: seq<Chunk>, file: seq<byte>, k: int, n: nat): Chunk
    requires 0 <= k < |chunks| && n < TWO31
  {
    var at := LastAt(p, chunks, file, k, n);
    if at >= 0 then chunks[k].(from := false, offset := at) else chunks[k]
  }

  /** All chunks after the first `n` window positions. */
  ghost function Scanned(p: Params, chunks: seq<Chunk>, file: seq<byte>, n: nat): (after: seq<Chunk>)
    requires n < TWO31
    ensures |after| == |chunks|
    ensures forall k :: 0 <= k < |chunks| ==> after[k] == ScannedChunk(p, chunks, file, k, n)
  {
    seq(|chunks|, k requires 0 <= k < |chunks| => ScannedChunk(p, chunks, file, k, n))
  }

  lemma ScannedNone(p: Params, chunks: seq<Chunk>, file: seq<byte>)
    ensures Scanned(p, chunks, file, 0) == chunks
  {
  }

  /** One more window position relocates the chunk that occurs there, if there is one. */
  lemma ScannedOne(p: Params, chunks: seq<Chunk>, file: seq<byte>, at: nat)
    requires 1 <= p.chunk && at + p.chunk <= |file| < TWO31
    ensures Scanned(p, chunks, file, at + 1)
         == (var k := Lookup(chunks, p.WeakOf(file[at..at + p.chunk]));
             if k >= 0 && StrongMatch(p, chunks, file, at, k) then Relocate(Scanned(p, chunks, file, at), k, at)
             else Scanned(p, chunks, file, at))
  {
    var found := Lookup(chunks, p.WeakOf(file[at..at + p.chunk]));
    var before, after := Scanned(p, chunks, file, at), Scanned(p, chunks, file, at + 1);
    forall k | 0 <= k < |chunks|
      ensures after[k] == if k == found && StrongMatch(p, chunks, file, at, k)
                          then chunks[k].(from := false, offset := at) else before[k]
    {
      assert Occurs(p, chunks, file, at, k) <==> k == found && StrongMatch(p, chunks, file, at, k);
    }
  }

  /** No other window of the file has the strong sum of `block`. */
  ghost predicate Unconfused(p: Params, file: seq<byte>, block: seq<byte>) {
    forall at {:trigger BlockAt(file, at, block)} ::
      0 <= at && at + |block| <= |file| && p.strong(file[at..at + |block|]) == p.strong(block) ==>
      BlockAt(file, at, block)
  }

  /**
   The complete scan, for a chunk that describes `block`, owns its weak sum
   and is not confused with other bytes: after it, the chunk comes from the
   destination exactly when the block occurs there, and then its offset is
   that of an occurrence.
  */
  lemma ScanFindsIff(p: Params, chunks: seq<Chunk>, file: seq<byte>, k: int, block: seq<byte>)
    requires 1 <= p.chunk <= |file| < TWO31 && 0 <= k < |chunks| && |block| == p.chunk
    requires chunks[k].weak == p.WeakOf(block) && chunks[k].strong == p.strong(block) && chunks[k].from
    requires Lookup(chunks, chunks[k].weak) == k && Unconfused(p, file, block)
    ensures var after := Scanned(p, chunks, file, |file| - p.chunk + 1)[k];
            && (!after.from <==> exists at :: BlockAt(file, at, block))
            && (!after.from ==> BlockAt(file, after.offset, block))
            && (after.from ==> after == chunks[k])
  {
    var n := |file| - p.chunk + 1;
    var last := LastAt(p, chunks, file, k, n);
    forall at | 0 <= at < n
      ensures Occurs(p, chunks, file, at, k) <==> BlockAt(file, at, block)
    {
      assert StrongMatch(p, chunks, file, at, k) <==> p.strong(file[at..at + p.chunk]) == p.strong(block);
    }
  }

  /** Distinct objects, holding these sums, in the state `state`. */
  ghost predicate Holding(meta: seq<ChunkInfo>, chunks: seq<Chunk>, state: seq<Chunk>)
    reads meta
    ensures Holding(meta, chunks, state) ==> |meta| == |chunks| == |state| && Describes(meta, chunks)
  {
    Distinct(meta) && Describes(meta, chunks) && Infos(meta) == state
  }

  /** `from_ = false` and the new offset, in the shared description. */
  method Move(meta: seq<ChunkInfo>, ghost chunks: seq<Chunk>, ghost state: seq<Chunk>, k: int, at: int32)
    requires Holding(meta, chunks, state) && 0 <= k < |meta|
    modifies meta
    ensures Holding(meta, chunks, Relocate(state, k, at))
  {
    meta[k].from := false;
    meta[k].offset := at;
    assert forall i :: 0 <= i < |meta| && i != k ==> meta[i] != meta[k];
  }

  /** The strong check of the window at `at`, whose weak sum is `sum`, and the relocation. */
  method Consider(p: Params, meta: seq<ChunkInfo>, ghost chunks: seq<Chunk>, k: int, window: seq<byte>,
                  ghost file: seq<byte>, at: int)
    requires 1 <= p.chunk && 0 <= at && at + p.chunk <= |file| < TWO31 && window == file[at..at + p.chunk]
    requires Holding(meta, chunks, Scanned(p, chunks, file, at)) && k == Lookup(chunks, p.WeakOf(window))
    modifies meta
    ensures Holding(meta, chunks, Scanned(p, chunks, file, at + 1))
  {
    assert at < 0x8000_0000;
    hide *;
    OneWindow(p, chunks, file, at);
    ghost var state := Scanned(p, chunks, file, at);
    if k >= 0 {
      StrongOf(meta, chunks, state, k);
      var strongSum := p.strong(window);
      if strongSum == meta[k].strong {
        Move(meta, chunks, state, k, at);
      }
    }
  }

  /** In terms of the strong sum that is compared. */
  lemma OneWindow(p: Params, chunks: seq<Chunk>, file: seq<byte>, at: int)
    requires 1 <= p.chunk && 0 <= at && at + p.chunk <= |file| < TWO31
    ensures var window, state := file[at..at + p.chunk], Scanned(p, chunks, file, at);
            var k := Lookup(chunks, p.WeakOf(window));
            Scanned(p, chunks, file, at + 1)
            == if k >= 0 && p.strong(window) == chunks[k].strong then Relocate(state, k, at) else state
  {
    hide Lookup, Weak, Scanned, Relocate;
    ScannedOne(p, chunks, file, at);
  }

  lemma StrongOf(meta: seq<ChunkInfo>, chunks: seq<Chunk>, state: seq<Chunk>, k: int)
    requires Holding(meta, chunks, state) && 0 <= k < |chunks|
    ensures |meta| == |chunks| && meta[k].strong == chunks[k].strong
  {
  }

  /** The scan of every window of the destination. */
  method ScanFile(p: Params, meta: seq<ChunkInfo>, file: seq<byte>)
    requires 1 <= p.chunk <= |file| < TWO31 && 1 <= p.window && Distinct(meta)
    modifies meta
    ensures Infos(meta) == Scanned(p, old(Infos(meta)), file, |file| - p.chunk + 1)
  {
    ghost var chunks := Infos(meta);
    assert Holding(meta, chunks, chunks);
    hide *;
    ScannedNone(p, chunks, file);
    var filter, table := BuildTable(meta);
    var summer := new Checksum3(p.charOffset, p.queue);
    IndexesTable(filter, table, chunks);
    ScanFirst(p, meta, chunks, table, summer, file);
    ScanRest(p, meta, chunks, filter, table, summer, file);
    HoldingInfos(meta, chunks, Scanned(p, chunks, file, |file| - p.chunk + 1));
  }

  /** A buffer at a time; `at`, the start of the current window, is `curr - CHUNK_SIZE` in the source. */
  method ScanRest(p: Params, meta: seq<ChunkInfo>, ghost chunks: seq<Chunk>,
                  filter: seq<uint32>, table: map<uint32, int>, summer: Checksum3, file: seq<byte>)
    requires 1 <= p.chunk <= |file| < TWO31 && 1 <= p.window
    requires Indexes(filter, table, chunks) && Holding(meta, chunks, Scanned(p, chunks, file, 1))
    requires summer.Rolling() && summer.Window() == file[0..p.chunk] && summer.charOffset == p.charOffset
    modifies meta, summer, summer.bufList, summer.bufList.data
    ensures Holding(meta, chunks, Scanned(p, chunks, file, |file| - p.chunk + 1))
  {
    hide *;
    var at, totalLeft := 0, |file| - p.chunk;
    while totalLeft > 0
      invariant at + p.chunk + totalLeft == |file| && 0 <= totalLeft && 0 <= at
      invariant Holding(meta, chunks, Scanned(p, chunks, file, at + 1))
      invariant summer.Rolling() && summer.Window() == file[at..at + p.chunk]
      invariant summer.bufList.data == old(summer.bufList.data) || fresh(summer.bufList.data)
    {
      var bufLen := if totalLeft > p.window then p.window else totalLeft;
      var buf := file[at..at + bufLen + p.chunk];
      at := ScanBuffer(p, meta, chunks, filter, table, summer, buf, file, at, bufLen);
      totalLeft := totalLeft - bufLen;
    }
  }

  lemma IndexesTable(filter: seq<uint32>, table: map<uint32, int>, chunks: seq<Chunk>)
    requires Indexes(filter, table, chunks)
    ensures forall w: uint32 :: if w in table then table[w] == Lookup(chunks, w) else Lookup(chunks, w) == -1
  {
  }

  lemma HoldingInfos(meta: seq<ChunkInfo>, chunks: seq<Chunk>, state: seq<Chunk>)
    requires Holding(meta, chunks, state)
    ensures Infos(meta) == state
  {
  }

  /** The window at the start of the file. */
  method ScanFirst(p: Params, meta: seq<ChunkInfo>, ghost chunks: seq<Chunk>, table: map<uint32, int>,
                   summer: Checksum3, file: seq<byte>)
    requires 1 <= p.chunk <= |file| < TWO31 && summer.Valid() && summer.charOffset == p.charOffset
    requires Holding(meta, chunks, Scanned(p, chunks, file, 0))
    requires forall w: uint32 :: if w in table then table[w] == Lookup(chunks, w) else Lookup(chunks, w) == -1
    modifies meta, summer, summer.bufList, summer.bufList.data
    ensures Holding(meta, chunks, Scanned(p, chunks, file, 1))
    ensures summer.Rolling() && summer.Window() == file[0..p.chunk]
    ensures summer.bufList.data == old(summer.bufList.data) || fresh(summer.bufList.data)
  {
    hide Holding, Scanned, Lookup, Weak, Checksum3.Rolling, Checksum3.Window;
    var window := file[0..p.chunk];
    summer.Init(window);
    var k := if summer.tmpSum in table then table[summer.tmpSum] else -1;
    Consider(p, meta, chunks, k, window, file, 0);
  }

  /** The byte behind the window at `at`, and the window it ends, in a buffer of the file's bytes from `start` on. */
  lemma BufferWindow(file: seq<byte>, start: int, length: int, at: int, chunk: int)
    requires 0 <= start <= at && 1 <= chunk && at + chunk < start + length <= |file|
    ensures var buf, i := file[start..start + length], at + chunk - start;
            && buf[i] == file[at + chunk] && buf[i - chunk + 1..i + 1] == file[at + 1..at + 1 + chunk]
            && file[at..at + chunk][1..] + [buf[i]] == file[at + 1..at + 1 + chunk]
  {
    var buf, x := file[start..start + length], at + 1 - start;
    var one, other := buf[x..x + chunk], file[at + 1..at + 1 + chunk];
    forall k | 0 <= k < chunk
      ensures one[k] == other[k]
    {
    }
    assert one == other;
  }

  /** The byte `next` enters the window, which is then looked up and considered. */
  method ScanWindow(p: Params, meta: seq<ChunkInfo>, ghost chunks: seq<Chunk>,
                    filter: seq<uint32>, table: map<uint32, int>, summer: Checksum3,
                    next: byte, window: seq<byte>, ghost file: seq<byte>, at: int)
    requires 1 <= p.chunk && 0 <= at && at + p.chunk <= |file| < TWO31 && window == file[at..at + p.chunk]
    requires summer.Rolling() && summer.Window()[1..] + [next] == window && summer.charOffset == p.charOffset
    requires Indexes(filter, table, chunks) && Holding(meta, chunks, Scanned(p, chunks, file, at))
    modifies meta, summer, summer.bufList, summer.bufList.data
    ensures Holding(meta, chunks, Scanned(p, chunks, file, at + 1))
    ensures summer.Rolling() && summer.Window() == window
    ensures summer.bufList.data == old(summer.bufList.data) || fresh(summer.bufList.data)
  {
    hide Holding, Scanned, Indexes, Lookup, Weak, Checksum3.Rolling, Checksum3.Window;
    var sum := summer.Update(next);
    var k := Find(filter, table, chunks, sum);
    Consider(p, meta, chunks, k, window, file, at);
  }

  /** One buffer, read from `at` on: every byte after the first chunk ends a window. */
  method ScanBuffer(p: Params, meta: seq<ChunkInfo>, ghost chunks: seq<Chunk>,
                    filter: seq<uint32>, table: map<uint32, int>, summer: Checksum3,
                    buf: seq<byte>, ghost file: seq<byte>, start: int, bufLen: int) returns (at: int)
    requires 1 <= p.chunk && 0 <= start && 0 <= bufLen && start + p.chunk + bufLen <= |file| < TWO31
    requires buf == file[start..start + bufLen + p.chunk]
    requires Indexes(filter, table, chunks) && Holding(meta, chunks, Scanned(p, chunks, file, start + 1))
    requires summer.Rolling() && summer.Window() == file[start..start + p.chunk] && summer.charOffset == p.charOffset
    modifies meta, summer, summer.bufList, summer.bufList.data
    ensures at == start + bufLen
    ensures Holding(meta, chunks, Scanned(p, chunks, file, at + 1))
    ensures summer.Rolling() && summer.Window() == file[at..at + p.chunk]
    ensures summer.bufList.data == old(summer.bufList.data) || fresh(summer.bufList.data)
  {
    at := start;
    hide Holding, Scanned, Indexes, Lookup, Weak, Checksum3.Rolling, Checksum3.Window;
    for i := p.chunk to bufLen + p.chunk
      invariant at == start + i - p.chunk
      invariant Holding(meta, chunks, Scanned(p, chunks, file, at + 1))
      invariant summer.Rolling() && summer.Window() == file[at..at + p.chunk]
      invariant summer.bufList.data == old(summer.bufList.data) || fresh(summer.bufList.data)
    {
      BufferWindow(file, start, bufLen + p.chunk, at, p.chunk);
      ScanWindow(p, meta, chunks, filter, table, summer, buf[i], buf[i - p.chunk + 1..i + 1], file, at + 1);
      at := at + 1;
    }
  }
}

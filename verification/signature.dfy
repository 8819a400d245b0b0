/** Block signatures of the old file, and the file they are kept in. */
module Signatures {
  import opened Bytes
  import opened Chunks
  import opened FileMaps
  import opened WriteFileMaps
  import opened Checksum3s

  const SIG_MAGIC: uint32 := 0x1234567
  const ENTRY_LENGTH := 45

  /** The description of block `k` of a file. */
  function BlockChunk(p: Params, file: seq<byte>, k: nat): Chunk
    requires p.chunk >= 1 && (k + 1) * p.chunk <= |file| < TWO31
  {
    Offsets(p.chunk, k);
    var block := file[k * p.chunk..(k + 1) * p.chunk];
    Chunk(p.WeakOf(block), true, k * p.chunk, p.chunk, p.strong(block))
  }

  lemma Offsets(chunk: int, k: nat)
    requires chunk >= 1
    ensures 0 <= k * chunk && (k + 1) * chunk == k * chunk + chunk
  {
  }

  /** Block `k` of `|file| / chunk` lies inside the file. */
  lemma BlockInside(chunk: int, size: nat, k: nat)
    requires chunk >= 1 && k < size / chunk
    ensures (k + 1) * chunk <= size
  {
    assert (k + 1) * chunk <= (size / chunk) * chunk;
  }

  lemma FewerBlocksThanBytes(chunk: int, size: nat)
    requires chunk >= 1
    ensures 0 <= size / chunk <= size
  {
  }

  /** One entry per whole block; a shorter last block has none. */
  ghost function Signature(p: Params, file: seq<byte>): (chunks: seq<Chunk>)
    requires p.chunk >= 1 && |file| < TWO31
    ensures |chunks| == |file| / p.chunk
  {
    seq(|file| / p.chunk, k requires 0 <= k < |file| / p.chunk =>
      (BlockInside(p.chunk, |file|, k); BlockChunk(p, file, k)))
  }

  lemma SignatureAt(p: Params, file: seq<byte>, k: nat)
    requires p.chunk >= 1 && |file| < TWO31 && k < |file| / p.chunk
    ensures (k + 1) * p.chunk <= |file| && Signature(p, file)[k] == BlockChunk(p, file, k)
  {
    BlockInside(p.chunk, |file|, k);
  }

  function Word(v: int32): uint32 {
    Wrap32(v)
  }

  function EncodeEntry(c: Chunk): (b: seq<byte>)
    ensures |b| == ENTRY_LENGTH
  {
    [if c.from then 0xff else 0x00] + Be32(c.weak) + Be32(Word(c.offset)) + Be32(Word(c.length)) + c.strong
  }

  function EncodeEntries(chunks: seq<Chunk>): (b: seq<byte>)
    ensures |b| == ENTRY_LENGTH * |chunks|
  {
    if chunks == [] then []
    else EncodeEntries(chunks[..|chunks| - 1]) + EncodeEntry(chunks[|chunks| - 1])
  }

  lemma EntriesSnoc(chunks: seq<Chunk>, i: nat)
    requires i < |chunks|
    ensures EncodeEntries(chunks[..i + 1]) == EncodeEntries(chunks[..i]) + EncodeEntry(chunks[i])
  {
    assert chunks[..i + 1][..i] == chunks[..i];
  }

  function EncodeHead(chunkSize: int32, count: int32): seq<byte> {
    Be32(SIG_MAGIC) + Be32(Word(chunkSize)) + Be32(Word(count))
  }

  /** A signature file. */
  function EncodeSig(chunkSize: int32, chunks: seq<Chunk>): seq<byte>
    requires |chunks| < TWO31
  {
    EncodeHead(chunkSize, |chunks|) + EncodeEntries(chunks)
  }

  function DecodeEntry(b: seq<byte>): Chunk
    requires |b| >= ENTRY_LENGTH
  {
    Chunk(FromBe32(b[1..]), b[0] != 0x00, ToInt32(FromBe32(b[5..])), ToInt32(FromBe32(b[9..])), b[13..45])
  }

  function DecodeEntries(b: seq<byte>, n: nat): (chunks: seq<Chunk>)
    requires |b| >= ENTRY_LENGTH * n
    ensures |chunks| == n
  {
    if n == 0 then []
    else DecodeEntries(b, n - 1) + [DecodeEntry(b[ENTRY_LENGTH * (n - 1)..])]
  }

  /** The number of entries a signature file announces. */
  function EntryCount(sig: seq<byte>): nat
    requires |sig| >= 12
  {
    var n := ToInt32(FromBe32(sig[8..]));
    if n < 0 then 0 else n
  }

  /** A file with the right magic number that holds all the entries it announces. */
  predicate WholeSig(sig: seq<byte>) {
    |sig| >= 12 && FromBe32(sig) == SIG_MAGIC && |sig| >= 12 + ENTRY_LENGTH * EntryCount(sig)
  }

  /** What `ParseMetaList` reads from it. */
  function DecodeSig(sig: seq<byte>): seq<Chunk>
    requires WholeSig(sig)
  {
    DecodeEntries(sig[12..], EntryCount(sig))
  }

  lemma WordRoundTrip(v: int32)
    ensures ToInt32(Word(v)) == v
  {
  }

  lemma DecodeOfEncodeEntry(c: Chunk, rest: seq<byte>)
    ensures DecodeEntry(EncodeEntry(c) + rest) == c
  {
    var b := EncodeEntry(c) + rest;
    assert b[1..] == Be32(c.weak) + b[5..];
    FromBe32OfBe32(c.weak, b[5..]);
    assert b[5..] == Be32(Word(c.offset)) + b[9..];
    FromBe32OfBe32(Word(c.offset), b[9..]);
    assert b[9..] == Be32(Word(c.length)) + b[13..];
    FromBe32OfBe32(Word(c.length), b[13..]);
    WordRoundTrip(c.offset);
    WordRoundTrip(c.length);
  }

  lemma DecodeLast(b: seq<byte>, n: nat)
    requires |b| >= ENTRY_LENGTH * (n + 1)
    ensures DecodeEntries(b, n + 1) == DecodeEntries(b, n) + [DecodeEntry(b[ENTRY_LENGTH * n..])]
  {
  }

  lemma {:induction false} DecodeOfEncodeEntries(chunks: seq<Chunk>, rest: seq<byte>)
    ensures DecodeEntries(EncodeEntries(chunks) + rest, |chunks|) == chunks
    decreases |chunks|
  {
    if chunks != [] {
      hide DecodeEntry, EncodeEntry, DecodeEntries, EncodeEntries;
      var n := |chunks| - 1;
      var init, entry := chunks[..n], EncodeEntry(chunks[n]);
      var front := EncodeEntries(init);
      SplitLast(chunks);
      EntriesSnoc(chunks, n);
      ConcatAssociative(front, entry, rest);
      DecodeLast(front + (entry + rest), n);
      DropFront(front, entry + rest, ENTRY_LENGTH * n);
      DecodeOfEncodeEntries(init, entry + rest);
      DecodeOfEncodeEntry(chunks[n], rest);
    }
  }

  lemma SigLayout(chunkSize: int32, chunks: seq<Chunk>)
    requires |chunks| < TWO31
    ensures var sig := EncodeSig(chunkSize, chunks);
            && |sig| >= 12 && FromBe32(sig) == 0x1234567 && FromBe32(sig[4..]) == Word(chunkSize)
            && FromBe32(sig[8..]) == |chunks| && sig[12..] == EncodeEntries(chunks)
  {
    hide EncodeEntries, Be32, FromBe32;
    var sig, entries := EncodeSig(chunkSize, chunks), EncodeEntries(chunks);
    var magic, size, count := Be32(SIG_MAGIC), Be32(Word(chunkSize)), Be32(Word(|chunks|));
    assert sig == magic + size + count + entries + [];
    Parts(magic, size, count, entries, []);
    WordAt(sig, [], SIG_MAGIC, size + count + entries + []);
    assert sig[0..] == sig && entries + [] == entries;
    WordAt(sig, magic, Word(chunkSize), count + entries + []);
    WordAt(sig, magic + size, Word(|chunks|), entries);
  }

  /** The fields of an entry where a signature file holds it. */
  lemma EntryLayout(c: Chunk)
    ensures var e := EncodeEntry(c);
            && |e| == 45 && e[0] == (if c.from then 255 else 0)
            && FromBe32(e[1..]) == c.weak && FromBe32(e[5..]) == Word(c.offset) && FromBe32(e[9..]) == Word(c.length)
            && e[13..] == c.strong
  {
    hide Be32, FromBe32, Word;
    var e, flag := EncodeEntry(c), [if c.from then 0xff else 0x00];
    var w, o, l := Be32(c.weak), Be32(Word(c.offset)), Be32(Word(c.length));
    Parts(flag, w, o, l, c.strong);
    WordAt(e, flag, c.weak, o + l + c.strong);
    assert o + l + c.strong == o + (l + c.strong);
    WordAt(e, flag + w, Word(c.offset), l + c.strong);
    WordAt(e, flag + w + o, Word(c.length), c.strong);
  }

  /** Entry `k` follows the head and the entries before it. */
  lemma {:induction false} EntryAt(chunks: seq<Chunk>, k: nat)
    requires k < |chunks|
    ensures EncodeEntries(chunks)[45 * k..45 * k + 45] == EncodeEntry(chunks[k])
    decreases |chunks|
  {
    hide EncodeEntry;
    var n := |chunks| - 1;
    var front, entry := EncodeEntries(chunks[..n]), EncodeEntry(chunks[n]);
    if k == n {
      assert (front + entry)[45 * n..45 * n + 45] == entry;
    } else {
      EntryAt(chunks[..n], k);
      assert (front + entry)[45 * k..45 * k + 45] == front[45 * k..45 * k + 45];
    }
  }

  /** Parsing inverts generating, for every list of chunk descriptions. */
  lemma DecodeOfEncodeSig(chunkSize: int32, chunks: seq<Chunk>)
    requires |chunks| < TWO31
    ensures var sig := EncodeSig(chunkSize, chunks); WholeSig(sig) && DecodeSig(sig) == chunks
  {
    hide EncodeSig, EncodeEntries, DecodeEntries, FromBe32;
    SigLayout(chunkSize, chunks);
    DecodeOfEncodeEntries(chunks, []);
    assert EncodeEntries(chunks) + [] == EncodeEntries(chunks);
  }

  /**
   The loop over the whole blocks; `buf` ends where the last one is mapped, or
   as -1 for the NULL it starts with.
  */
  method DescribeBlocks(p: Params, reader: FileMap, summer: Checksum3) returns (meta: seq<ChunkInfo>, buf: int)
    requires p.Valid() && reader.Valid() && reader.bufferLength == Min(p.window, |reader.file|)
    requires |reader.file| < TWO31 - p.window && summer.charOffset == p.charOffset
    modifies reader, reader.data
    ensures reader.Valid() && fresh(meta) && Distinct(meta) && Infos(meta) == Signature(p, reader.file)
    ensures var n := |reader.file| / p.chunk;
            if n == 0 then buf == -1 else reader.Holds(buf, (n - 1) * p.chunk, p.chunk)
  {
    hide Infos, Distinct, Signature, BlockChunk, FileMap.Valid, FileMap.Holds;
    meta, buf := [], -1;
    NoInfos();
    var count := |reader.file| / p.chunk;
    FewerBlocksThanBytes(p.chunk, |reader.file|);
    ghost var chunks := Signature(p, reader.file);
    for i := 0 to count
      invariant fresh(meta) && Distinct(meta) && Infos(meta) == chunks[..i]
      invariant reader.Valid() && reader.bufferLength == Min(p.window, |reader.file|)
      invariant if i == 0 then buf == -1 else reader.Holds(buf, (i - 1) * p.chunk, p.chunk)
    {
      BlockInside(p.chunk, |reader.file|, i);
      SignatureAt(p, reader.file, i);
      var chunk;
      chunk, buf := DescribeBlock(p, reader, summer, i);
      meta := PushBack(meta, chunk);
    }
    assert chunks[..count] == chunks;
  }

  method GenerateMetaList(p: Params, file: seq<byte>, unset: int32) returns (meta: seq<ChunkInfo>)
    requires p.Valid() && |file| + p.window < TWO31 && 0 <= unset <= p.window
    ensures fresh(meta) && Distinct(meta) && Infos(meta) == Signature(p, file)
  {
    hide Infos, Distinct, Signature;
    var summer := new Checksum3(p.charOffset, p.queue);
    var reader := new FileMap(file, p.window, unset);
    var described, _ := DescribeBlocks(p, reader, summer);
    meta := described;
  }

  lemma BlockChunkAt(p: Params, file: seq<byte>, k: nat)
    requires p.chunk >= 1 && (k + 1) * p.chunk <= |file| < TWO31
    ensures 0 <= k * p.chunk && k * p.chunk + p.chunk <= |file|
    ensures var at, block := k * p.chunk, file[k * p.chunk..k * p.chunk + p.chunk];
            BlockChunk(p, file, k) == Chunk(p.WeakOf(block), true, at, p.chunk, p.strong(block))
  {
    hide WeakSums.Weak;
    Offsets(p.chunk, k);
  }

  method DescribeBlock(p: Params, reader: FileMap, summer: Checksum3, k: nat) returns (chunk: Chunk, buf: int)
    requires p.Valid() && reader.Valid() && reader.bufferLength == Min(p.window, |reader.file|)
    requires (k + 1) * p.chunk <= |reader.file| < TWO31 - p.window && summer.charOffset == p.charOffset
    modifies reader, reader.data
    ensures chunk == BlockChunk(p, reader.file, k) && reader.Holds(buf, k * p.chunk, p.chunk)
    ensures reader.Valid() && reader.bufferLength == old(reader.bufferLength)
  {
    hide FileMap.Valid, FileMap.View, FileMap.Holds, Moved, WeakSums.Weak, WeakSums.S1, WeakSums.Weighted,
         WeakSums.Halves, BlockChunk;
    Offsets(p.chunk, k);
    BlockChunkAt(p, reader.file, k);
    var at := k * p.chunk;
    buf := reader.MapFileContent(at, p.chunk);
    var block := reader.Bytes(buf, at, p.chunk);
    var weak := summer.Sum1(block);
    chunk := Chunk(weak, true, at, p.chunk, p.strong(block));
  }

  method GenerateSigFile(p: Params, file: seq<byte>, unset: int32) returns (sig: seq<byte>)
    requires p.Valid() && |file| + p.window < TWO31 && 0 <= unset <= p.window
    ensures |Signature(p, file)| < TWO31 && sig == EncodeSig(p.chunk, Signature(p, file))
  {
    var meta := GenerateMetaList(p, file, unset);
    ghost var chunks := Infos(meta);
    FewerBlocksThanBytes(p.chunk, |file|);
    hide EncodeHead, EncodeEntries, Signature, Infos, WriteFileMap.Appended, WriteFileMap.Valid;
    var writer := new WriteFileMap(p.capacity);
    AppendHead(writer, p.chunk, |meta|);
    assert Infos(meta) == chunks;
    AppendEntries(writer, meta);
    assert [] + EncodeHead(p.chunk, |meta|) == EncodeHead(p.chunk, |meta|);
    sig := writer.Close();
  }

  method AppendHead(writer: WriteFileMap, chunkSize: int32, count: int32)
    requires writer.Valid() && writer.capacity >= 32
    modifies writer, writer.buffer
    ensures writer.Valid() && writer.Appended() == old(writer.Appended()) + EncodeHead(chunkSize, count)
  {
    hide Be32, Word, WriteFileMap.Appended, WriteFileMap.Valid;
    writer.AppendData(Be32(SIG_MAGIC));
    writer.AppendData(Be32(Word(chunkSize)));
    writer.AppendData(Be32(Word(count)));
  }

  method AppendEntries(writer: WriteFileMap, meta: seq<ChunkInfo>)
    requires writer.Valid() && writer.capacity >= 32
    modifies writer, writer.buffer
    ensures writer.Valid() && writer.Appended() == old(writer.Appended() + EncodeEntries(Infos(meta)))
  {
    hide Infos, EncodeEntries, EncodeEntry, WriteFileMap.Appended, WriteFileMap.Valid;
    ghost var chunks, head := Infos(meta), writer.Appended();
    assert chunks[..0] == [] && EncodeEntries([]) == [];
    for i := 0 to |meta|
      invariant writer.Valid() && writer.Appended() == head + EncodeEntries(chunks[..i])
      invariant forall k :: 0 <= k < |meta| ==> meta[k].Info() == chunks[k]
    {
      ghost var before := EncodeEntries(chunks[..i]);
      EntriesSnoc(chunks, i);
      ConcatAssociative(head, before, EncodeEntry(chunks[i]));
      AppendEntry(writer, meta[i]);
    }
    assert chunks[..|meta|] == chunks;
  }

  /** The five fields of one entry, each appended on its own. */
  method AppendEntry(writer: WriteFileMap, chunk: ChunkInfo)
    requires writer.Valid() && writer.capacity >= 32
    modifies writer, writer.buffer
    ensures writer.Valid() && writer.Appended() == old(writer.Appended()) + EncodeEntry(chunk.Info())
  {
    hide WriteFileMap.Appended, WriteFileMap.Valid, Be32;
    var from: byte := 0xff;
    if chunk.from == false {
      from := 0x00;
    }
    writer.AppendData([from]);
    writer.AppendData(Be32(chunk.weak));
    writer.AppendData(Be32(Word(chunk.offset)));
    writer.AppendData(Be32(Word(chunk.length)));
    writer.AppendData(chunk.strong);
  }

  lemma DecodeMore(buf: seq<byte>, n: nat)
    requires |buf| >= 12 + ENTRY_LENGTH * (n + 1)
    ensures DecodeEntries(buf[12..], n + 1) == DecodeEntries(buf[12..], n) + [DecodeEntry(buf[12 + ENTRY_LENGTH * n..])]
  {
    assert buf[12..][ENTRY_LENGTH * n..] == buf[12 + ENTRY_LENGTH * n..];
  }

  /** The loop over the announced entries. */
  method ParseEntries(buf: seq<byte>, listSize: int, ghost n: nat) returns (meta: seq<ChunkInfo>)
    requires n == (if listSize < 0 then 0 else listSize) && |buf| >= 12 + ENTRY_LENGTH * n
    ensures fresh(meta) && Distinct(meta) && Infos(meta) == DecodeEntries(buf[12..], n)
  {
    hide Infos, Distinct, DecodeEntries, DecodeEntry;
    meta := [];
    NoInfos();
    ghost var entries := buf[12..];
    var i, at := 0, 12;
    while i < listSize
      invariant 0 <= i <= n && at == 12 + ENTRY_LENGTH * i
      invariant fresh(meta) && Distinct(meta) && Infos(meta) == DecodeEntries(entries, i)
    {
      DecodeMore(buf, i);
      var chunk := ParseEntry(buf, at);
      meta := PushBack(meta, chunk);
      i, at := i + 1, at + ENTRY_LENGTH;
    }
  }

  /** `null` list, here `ok == false`, for a wrong magic number. */
  method ParseMetaList(buf: seq<byte>) returns (ok: bool, meta: seq<ChunkInfo>)
    requires |buf| >= 4 && (FromBe32(buf) == SIG_MAGIC ==> WholeSig(buf))
    ensures ok <==> FromBe32(buf) == SIG_MAGIC
    ensures ok ==> fresh(meta) && Distinct(meta) && Infos(meta) == DecodeSig(buf)
  {
    hide FromBe32, ToInt32, Infos, Distinct, DecodeEntries;
    meta := [];
    if FromBe32(buf) != SIG_MAGIC {
      return false, meta;
    }
    meta := ParseEntries(buf, ToInt32(FromBe32(buf[8..])), EntryCount(buf));
    ok := true;
  }

  method ParseEntry(buf: seq<byte>, at: nat) returns (chunk: Chunk)
    requires at + ENTRY_LENGTH <= |buf|
    ensures chunk == DecodeEntry(buf[at..])
  {
    var from := true;
    if buf[at] == 0x00 {
      from := false;
    }
    chunk := Chunk(
      FromBe32(buf[at + 1..]), from, ToInt32(FromBe32(buf[at + 5..])),
      ToInt32(FromBe32(buf[at + 9..])), buf[at + 13..at + 45]);
  }
}

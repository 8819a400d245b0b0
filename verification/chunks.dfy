/** Chunk descriptions shared by both rsync programs, and the lookup table of the scans. */
module Chunks {
  import opened Bytes
  import opened WeakSums

  /** The 32 hexadecimal characters of a strong sum. */
  type Digest = s: seq<byte> | |s| == 32 witness seq(32, _ => 0)

  /**
   The compile-time constants of the programs, and the strong sum, of which
   nothing is known but that it is a function.
  */
  datatype Params = Params(
    chunk: int,
    charOffset: int,
    strong: seq<byte> -> Digest,
    window: int,
    capacity: int,
    piece: int,
    queue: nat)
  {
    /** What the constants of the source satisfy. */
    ghost predicate Valid() {
      1 <= chunk <= window && 1 <= piece <= capacity && 32 <= capacity <= window < TWO31
    }

    function WeakOf(w: seq<byte>): uint32 {
      Weak(w, charOffset)
    }
  }

  datatype Chunk = Chunk(weak: uint32, from: bool, offset: int32, length: int32, strong: Digest)

  class ChunkInfo {
    var weak: uint32
    var from: bool
    var offset: int32
    var length: int32
    var strong: Digest

    constructor (c: Chunk)
      ensures Info() == c
    {
      weak, from, offset, length, strong := c.weak, c.from, c.offset, c.length, c.strong;
    }

    function Info(): Chunk
      reads this
    {
      Chunk(weak, from, offset, length, strong)
    }
  }

  /** The values in a list of chunk descriptions. */
  ghost function Infos(meta: seq<ChunkInfo>): (chunks: seq<Chunk>)
    reads meta
    ensures |chunks| == |meta|
    ensures forall i :: 0 <= i < |meta| ==> chunks[i] == meta[i].Info()
  {
    seq(|meta|, i requires 0 <= i < |meta| reads meta => meta[i].Info())
  }

  lemma InfosSnoc(meta: seq<ChunkInfo>, chunk: ChunkInfo)
    ensures Infos(meta + [chunk]) == Infos(meta) + [chunk.Info()]
  {
  }

  ghost predicate Distinct(meta: seq<ChunkInfo>) {
    forall i, j :: 0 <= i < j < |meta| ==> meta[i] != meta[j]
  }

  lemma NoInfos()
    ensures Distinct([]) && Infos([]) == []
  {
  }

  /** `push_back` of a newly allocated description. */
  method PushBack(meta: seq<ChunkInfo>, c: Chunk) returns (longer: seq<ChunkInfo>)
    requires Distinct(meta)
    ensures Distinct(longer) && |longer| == |meta| + 1 && fresh(longer[|meta|])
    ensures forall k :: 0 <= k < |meta| ==> longer[k] == meta[k]
    ensures Infos(longer) == old(Infos(meta)) + [c]
  {
    ghost var before := Infos(meta);
    var chunk := new ChunkInfo(c);
    assert Infos(meta) == before;
    longer := meta + [chunk];
    InfosSnoc(meta, chunk);
  }

  /** The last chunk with the given weak sum, or -1. */
  function Lookup(chunks: seq<Chunk>, weak: uint32): (k: int)
    ensures -1 <= k < |chunks|
    ensures k >= 0 ==> chunks[k].weak == weak
    ensures forall i :: k < i < |chunks| ==> chunks[i].weak != weak
  {
    if chunks == [] then -1
    else if chunks[|chunks| - 1].weak == weak then |chunks| - 1
    else Lookup(chunks[..|chunks| - 1], weak)
  }

  lemma LookupSnoc(chunks: seq<Chunk>, c: Chunk, weak: uint32)
    ensures Lookup(chunks + [c], weak) == if c.weak == weak then |chunks| else Lookup(chunks, weak)
  {
    assert (chunks + [c])[..|chunks|] == chunks;
  }

  const FILTER_SIZE := 4096

  /** The weak-sum filter passes every sum in the table, and the table finds the last chunk of each. */
  ghost predicate Indexes(filter: seq<uint32>, table: map<uint32, int>, chunks: seq<Chunk>) {
    && |filter| == FILTER_SIZE
    && (forall w: uint32 :: w in table <==> Lookup(chunks, w) >= 0)
    && (forall w: uint32 :: w in table ==> table[w] == Lookup(chunks, w) && filter[w % FILTER_SIZE] == 1)
  }

  /** One more chunk takes over its weak sum. */
  lemma IndexMore(filter: seq<uint32>, table: map<uint32, int>, chunks: seq<Chunk>, c: Chunk)
    requires Indexes(filter, table, chunks)
    ensures Indexes(filter[c.weak % FILTER_SIZE := 1], table[c.weak := |chunks|], chunks + [c])
  {
    hide Lookup;
    forall w: uint32
      ensures Lookup(chunks + [c], w) == if c.weak == w then |chunks| else Lookup(chunks, w)
    {
      LookupSnoc(chunks, c, w);
    }
  }

  method BuildTable(meta: seq<ChunkInfo>) returns (filter: seq<uint32>, table: map<uint32, int>)
    ensures Indexes(filter, table, Infos(meta))
  {
    var slots := new uint32[FILTER_SIZE](_ => 0);
    table := map[];
    ghost var chunks := Infos(meta);
    assert Indexes(slots[..], table, chunks[..0]);
    hide Indexes, Infos;
    for k := 0 to |meta|
      invariant Indexes(slots[..], table, chunks[..k]) && chunks == Infos(meta)
    {
      IndexMore(slots[..], table, chunks[..k], chunks[k]);
      assert chunks[..k] + [chunks[k]] == chunks[..k + 1] && chunks[k] == meta[k].Info();
      ghost var filtered := slots[..][meta[k].weak % FILTER_SIZE := 1];
      slots[meta[k].weak % FILTER_SIZE] := 1;
      assert slots[..] == filtered;
      table := table[meta[k].weak := k];
    }
    assert chunks[..|meta|] == chunks;
    filter := slots[..];
  }

  /** The filter first, then the table: together they miss no chunk. */
  method Find(filter: seq<uint32>, table: map<uint32, int>, ghost chunks: seq<Chunk>, sum: uint32) returns (k: int)
    requires Indexes(filter, table, chunks)
    ensures k == Lookup(chunks, sum)
  {
    k := -1;
    if filter[sum % FILTER_SIZE] == 1 {
      if sum in table {
        k := table[sum];
      }
    }
  }
}

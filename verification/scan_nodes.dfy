/** What the nodes of a scan are like, in terms of the scan's rounds. */
module ScanNodes {
  import opened Bytes
  import opened Chunks
  import opened Signatures
  import opened Scans

  lemma AtIndex(copied: seq<OffsetNode>, rest: seq<OffsetNode>)
    ensures forall i :: 0 <= i < |rest| ==> rest[i] == (copied + rest)[|copied| + i]
    ensures forall i :: 0 <= i < |copied| ==> copied[i] == (copied + rest)[i]
  {
  }

  predicate Positive(nodes: seq<OffsetNode>) {
    forall i :: 0 <= i < |nodes| ==> nodes[i].from ==> 0 < nodes[i].length
  }

  lemma PositiveLast(offset: int, file: seq<byte>)
    ensures Positive(if offset < |file| then [OffsetNode(true, offset, |file| - offset)] else []) && Positive([])
  {
  }

  lemma PositiveFound(offset: int, at: int, source: int, length: int, rest: seq<OffsetNode>)
    requires offset <= at
    ensures Positive(Copied(offset, at, source, length) + rest) <==> Positive(rest)
  {
    AtIndex(Copied(offset, at, source, length), rest);
  }

  /** A literal run has a positive length, unless the scan stepped back: then one has length -1. */
  lemma {:induction false} PositiveIff(p: Params, chunks: seq<Chunk>, file: seq<byte>, behind: seq<byte>,
                                       curr: int, offset: int)
    requires 1 <= p.chunk == |behind| && 0 <= curr
    requires offset <= curr || (offset == curr + 1 && !AcceptedAt(p, chunks, file, curr))
    ensures Positive(ScanFrom(p, chunks, file, behind, curr, offset)) <==> !StepsBack(p, chunks, file, behind, curr)
    decreases |file| - curr
  {
    hide *;
    AcceptedRound(p, chunks, file, behind, curr);
    ScanStep(p, chunks, file, behind, curr, offset);
    RoundOutlook(p, chunks, file, behind, curr);
    PositiveLast(offset, file);
    var r := RoundAt(p, chunks, file, behind, curr);
    if r.Skip? {
      PositiveIff(p, chunks, file, behind, r.next, offset);
    } else if r.Past? {
      PositiveFound(offset, r.at, chunks[r.k].offset, p.chunk, []);
    } else if r.Found? {
      var end := r.at + p.chunk;
      PositiveFound(offset, r.at, chunks[r.k].offset, p.chunk, ScanFrom(p, chunks, file, behind, r.next, end));
      if r.next < end && AcceptedAt(p, chunks, file, r.next) {
        SteppedBackNegative(p, chunks, file, behind, r.next, end);
      } else {
        PositiveIff(p, chunks, file, behind, r.next, end);
      }
    }
  }

  lemma SteppedBackNegative(p: Params, chunks: seq<Chunk>, file: seq<byte>, behind: seq<byte>, curr: int, offset: int)
    requires 1 <= p.chunk == |behind| && 0 <= curr && AcceptedAt(p, chunks, file, curr) && offset == curr + 1
    ensures !Positive(ScanFrom(p, chunks, file, behind, curr, offset))
  {
    hide AcceptedAt, ScanFrom;
    SteppedBackFails(p, chunks, [], file, behind, curr, offset);
  }

  predicate NonEmpty(nodes: seq<OffsetNode>) {
    forall i :: 0 <= i < |nodes| ==> nodes[i].length != 0
  }

  lemma NonEmptyLast(offset: int, file: seq<byte>)
    ensures NonEmpty(if offset < |file| then [OffsetNode(true, offset, |file| - offset)] else []) && NonEmpty([])
  {
  }

  lemma NonEmptyFound(offset: int, at: int, source: int, length: int, rest: seq<OffsetNode>)
    requires length != 0 && NonEmpty(rest)
    ensures NonEmpty(Copied(offset, at, source, length) + rest)
  {
  }

  /** No node of the scan has length zero. */
  lemma {:induction false} NoEmptyNode(p: Params, chunks: seq<Chunk>, file: seq<byte>, behind: seq<byte>,
                                       curr: int, offset: int)
    requires 1 <= p.chunk == |behind| && 0 <= curr
    ensures NonEmpty(ScanFrom(p, chunks, file, behind, curr, offset))
    decreases |file| - curr
  {
    hide *;
    ScanStep(p, chunks, file, behind, curr, offset);
    NonEmptyLast(offset, file);
    var r := RoundAt(p, chunks, file, behind, curr);
    if r.Skip? {
      NoEmptyNode(p, chunks, file, behind, r.next, offset);
    } else if r.Past? {
      NonEmptyFound(offset, r.at, chunks[r.k].offset, p.chunk, []);
    } else if r.Found? {
      var end := r.at + p.chunk;
      NoEmptyNode(p, chunks, file, behind, r.next, end);
      NonEmptyFound(offset, r.at, chunks[r.k].offset, p.chunk, ScanFrom(p, chunks, file, behind, r.next, end));
    }
  }

  /** No literal is longer than the write buffer. */
  predicate Bounded(nodes: seq<OffsetNode>, capacity: int) {
    forall i :: 0 <= i < |nodes| ==> nodes[i].from ==> nodes[i].length <= capacity
  }

  lemma BoundedLast(offset: int, file: seq<byte>, capacity: int)
    requires 0 <= capacity
    ensures Bounded([], capacity)
    ensures Bounded(if offset < |file| then [OffsetNode(true, offset, |file| - offset)] else [], capacity)
       <==> |file| - offset <= capacity
  {
    if offset < |file| {
      assert [OffsetNode(true, offset, |file| - offset)][0].length == |file| - offset;
    }
  }

  lemma BoundedFound(offset: int, at: int, source: int, length: int, rest: seq<OffsetNode>, capacity: int)
    requires 0 <= capacity
    ensures Bounded(Copied(offset, at, source, length) + rest, capacity)
       <==> at - offset <= capacity && Bounded(rest, capacity)
  {
    var copied := Copied(offset, at, source, length);
    AtIndex(copied, rest);
    assert offset != at ==> (copied + rest)[0] == OffsetNode(true, offset, at - offset);
  }

  /** No literal outgrows the buffer unless the scan meets a gap longer than that. */
  lemma {:induction false} BoundedIff(p: Params, chunks: seq<Chunk>, file: seq<byte>, behind: seq<byte>,
                                      curr: int, offset: int)
    requires 1 <= p.chunk == |behind| && 0 <= curr && 0 <= p.capacity
    ensures Bounded(ScanFrom(p, chunks, file, behind, curr, offset), p.capacity)
       <==> !LongGap(p, chunks, file, behind, curr, offset)
    decreases |file| - curr
  {
    hide *;
    ScanStep(p, chunks, file, behind, curr, offset);
    LongGapStep(p, chunks, file, behind, curr, offset);
    BoundedLast(offset, file, p.capacity);
    var r := RoundAt(p, chunks, file, behind, curr);
    if r.Skip? {
      BoundedIff(p, chunks, file, behind, r.next, offset);
    } else if r.Past? {
      BoundedFound(offset, r.at, chunks[r.k].offset, p.chunk, [], p.capacity);
    } else if r.Found? {
      var end := r.at + p.chunk;
      var rest := ScanFrom(p, chunks, file, behind, r.next, end);
      BoundedFound(offset, r.at, chunks[r.k].offset, p.chunk, rest, p.capacity);
      BoundedIff(p, chunks, file, behind, r.next, end);
    }
  }

  /** Every literal run fits the write buffer. */
  predicate LiteralsFit(nodes: seq<OffsetNode>, capacity: int) {
    forall i :: 0 <= i < |nodes| ==> nodes[i].from ==> 0 <= nodes[i].length <= capacity
  }

  /** When the delta can be written at all, for any signature and new file. */
  lemma DeltaIff(p: Params, chunks: seq<Chunk>, file: seq<byte>, behind: seq<byte>)
    requires 1 <= p.chunk == |behind| && 0 <= p.capacity
    ensures LiteralsFit(Scan(p, chunks, file, behind), p.capacity)
       <==> !StepsBack(p, chunks, file, behind, 0) && !LongGap(p, chunks, file, behind, 0, 0)
  {
    hide ScanFrom, StepsBack, LongGap;
    PositiveIff(p, chunks, file, behind, 0, 0);
    NoEmptyNode(p, chunks, file, behind, 0, 0);
    BoundedIff(p, chunks, file, behind, 0, 0);
  }

  /** What the scan guarantees of a node when literals fit: it can be read and written. */
  predicate NodeSound(n: OffsetNode, p: Params, file: seq<byte>) {
    if n.from then n.offset >= 0 && n.offset + n.length <= |file|
    else -TWO31 <= n.offset < TWO31 && n.length == p.chunk
  }

  predicate Sound(nodes: seq<OffsetNode>, p: Params, file: seq<byte>) {
    forall i :: 0 <= i < |nodes| ==> NodeSound(nodes[i], p, file)
  }

  lemma SoundLast(p: Params, offset: int, file: seq<byte>)
    requires 0 <= offset <= |file|
    ensures Sound(if offset < |file| then [OffsetNode(true, offset, |file| - offset)] else [], p, file)
    ensures Sound([], p, file)
  {
  }

  lemma SoundFound(p: Params, offset: int, at: int, source: int32, rest: seq<OffsetNode>, file: seq<byte>)
    requires 0 <= offset && at <= |file| && Sound(rest, p, file)
    ensures Sound(Copied(offset, at, source, p.chunk) + rest, p, file)
  {
  }

  lemma {:induction false} ScanSound(p: Params, chunks: seq<Chunk>, file: seq<byte>, behind: seq<byte>,
                                     curr: int, offset: int)
    requires 1 <= p.chunk == |behind| && 0 <= curr && 0 <= offset <= |file|
    ensures Sound(ScanFrom(p, chunks, file, behind, curr, offset), p, file)
    decreases |file| - curr
  {
    hide *;
    ScanStep(p, chunks, file, behind, curr, offset);
    SoundLast(p, offset, file);
    var r := RoundAt(p, chunks, file, behind, curr);
    if r.Skip? {
      ScanSound(p, chunks, file, behind, r.next, offset);
    } else if r.Past? {
      SoundFound(p, offset, r.at, chunks[r.k].offset, [], file);
    } else if r.Found? {
      var end := r.at + p.chunk;
      ScanSound(p, chunks, file, behind, r.next, end);
      SoundFound(p, offset, r.at, chunks[r.k].offset, ScanFrom(p, chunks, file, behind, r.next, end), file);
    }
  }

  /** Every copy lies in a file of `size` bytes. */
  predicate CopiesIn(nodes: seq<OffsetNode>, size: int) {
    forall i :: 0 <= i < |nodes| ==>
      !nodes[i].from ==> 0 <= nodes[i].offset && nodes[i].offset + nodes[i].length <= size
  }

  lemma CopiesInLast(offset: int, file: seq<byte>, size: int)
    ensures CopiesIn(if offset < |file| then [OffsetNode(true, offset, |file| - offset)] else [], size)
    ensures CopiesIn([], size)
  {
  }

  lemma CopiesInFound(offset: int, at: int, source: int, length: int, rest: seq<OffsetNode>, size: int)
    requires 0 <= source && source + length <= size && CopiesIn(rest, size)
    ensures CopiesIn(Copied(offset, at, source, length) + rest, size)
  {
  }

  lemma ChunkInside(p: Params, origin: seq<byte>, k: nat)
    requires 1 <= p.chunk && |origin| < TWO31 && k < |origin| / p.chunk
    ensures var c := Signature(p, origin)[k]; 0 <= c.offset && c.offset + p.chunk <= |origin|
  {
    SignatureAt(p, origin, k);
    Offsets(p.chunk, k);
  }

  /** A scan against the signature of a file copies only from inside it. */
  lemma {:induction false} ScanCopiesIn(p: Params, origin: seq<byte>, file: seq<byte>, behind: seq<byte>,
                                        curr: int, offset: int)
    requires 1 <= p.chunk == |behind| && |origin| < TWO31 && 0 <= curr
    ensures CopiesIn(ScanFrom(p, Signature(p, origin), file, behind, curr, offset), |origin|)
    decreases |file| - curr
  {
    hide *;
    var chunks := Signature(p, origin);
    ScanStep(p, chunks, file, behind, curr, offset);
    CopiesInLast(offset, file, |origin|);
    var r := RoundAt(p, chunks, file, behind, curr);
    if r.Skip? {
      ScanCopiesIn(p, origin, file, behind, r.next, offset);
    } else if r.Past? {
      ChunkInside(p, origin, r.k);
      CopiesInFound(offset, r.at, chunks[r.k].offset, p.chunk, [], |origin|);
    } else if r.Found? {
      var end := r.at + p.chunk;
      ChunkInside(p, origin, r.k);
      ScanCopiesIn(p, origin, file, behind, r.next, end);
      var rest := ScanFrom(p, chunks, file, behind, r.next, end);
      CopiesInFound(offset, r.at, chunks[r.k].offset, p.chunk, rest, |origin|);
    }
  }

  lemma InsideIff(nodes: seq<OffsetNode>, p: Params, origin: seq<byte>, file: seq<byte>)
    requires 0 <= p.chunk && Sound(nodes, p, file) && CopiesIn(nodes, |origin|) && LiteralsFit(nodes, p.capacity)
    ensures Inside(nodes, origin, file)
  {
  }

  /** How many bytes the nodes stand for. */
  function Total(nodes: seq<OffsetNode>): int {
    if nodes == [] then 0 else nodes[0].length + Total(nodes[1..])
  }

  lemma {:induction false} RebuildTotal(nodes: seq<OffsetNode>, origin: seq<byte>, file: seq<byte>)
    requires Inside(nodes, origin, file)
    ensures |Rebuild(nodes, origin, file)| == Total(nodes)
  {
    if nodes != [] {
      hide Rebuild;
      assert nodes[..1][0] == nodes[0];
      RebuildFirst(nodes, origin, file);
      RebuildTotal(nodes[1..], origin, file);
    } else {
      assert Rebuild(nodes, origin, file) == [];
    }
  }

  lemma TotalFound(offset: int, at: int, source: int, length: int, rest: seq<OffsetNode>)
    ensures Total(Copied(offset, at, source, length) + rest) == at - offset + length + Total(rest)
  {
    var n := OffsetNode(false, source, length);
    assert ([n] + rest)[1..] == rest;
    if offset != at {
      var gap := OffsetNode(true, offset, at - offset);
      assert Copied(offset, at, source, length) + rest == [gap] + ([n] + rest);
      assert ([gap] + ([n] + rest))[1..] == [n] + rest;
    } else {
      assert Copied(offset, at, source, length) + rest == [n] + rest;
    }
  }

  /** A scan that accepts a window beyond the end stands for more bytes than the file has. */
  lemma {:induction false} PastTooLong(p: Params, chunks: seq<Chunk>, file: seq<byte>, behind: seq<byte>,
                                       curr: int, offset: int)
    requires 1 <= p.chunk == |behind| && 0 <= curr && RunsPast(p, chunks, file, behind, curr)
    ensures Total(ScanFrom(p, chunks, file, behind, curr, offset)) > |file| - offset
    decreases |file| - curr
  {
    hide RoundAt, ScanFrom, RunsPast, Copied;
    ScanStep(p, chunks, file, behind, curr, offset);
    RoundOutlook(p, chunks, file, behind, curr);
    var r := RoundAt(p, chunks, file, behind, curr);
    if r.Skip? {
      PastTooLong(p, chunks, file, behind, r.next, offset);
    } else if r.Past? {
      TotalFound(offset, r.at, chunks[r.k].offset, p.chunk, []);
    } else if r.Found? {
      var end := r.at + p.chunk;
      PastTooLong(p, chunks, file, behind, r.next, end);
      TotalFound(offset, r.at, chunks[r.k].offset, p.chunk, ScanFrom(p, chunks, file, behind, r.next, end));
    }
  }

  /** How many bytes the nodes take in a delta: a tag, and two words or a word and the bytes. */
  function OpsLength(nodes: seq<OffsetNode>): int {
    if nodes == [] then 0 else (if nodes[0].from then 5 + nodes[0].length else 9) + OpsLength(nodes[1..])
  }

  /** The literal before a copy, if any, and the copy. */
  lemma LengthFound(offset: int, at: int, source: int, length: int, rest: seq<OffsetNode>)
    ensures var nodes := Copied(offset, at, source, length) + rest;
            && OpsLength(nodes) == (if offset != at then 5 + at - offset else 0) + 9 + OpsLength(rest)
            && |nodes| == (if offset != at then 2 else 1) + |rest|
  {
    var n := OffsetNode(false, source, length);
    assert ([n] + rest)[1..] == rest;
    if offset != at {
      var gap := OffsetNode(true, offset, at - offset);
      assert Copied(offset, at, source, length) + rest == [gap] + ([n] + rest);
      assert ([gap] + ([n] + rest))[1..] == [n] + rest;
    } else {
      assert Copied(offset, at, source, length) + rest == [n] + rest;
    }
  }

  lemma FitFound(offset: int, at: int, source: int, length: int, rest: seq<OffsetNode>, capacity: int)
    requires LiteralsFit(Copied(offset, at, source, length) + rest, capacity)
    ensures LiteralsFit(rest, capacity) && offset <= at
  {
    var copied := Copied(offset, at, source, length);
    AtIndex(copied, rest);
    assert offset != at ==> (copied + rest)[0] == OffsetNode(true, offset, at - offset);
  }

  /**
   Nodes that fit cover at least a byte each, but for one that runs past the
   end; and each of the `k` copies before covers a chunk and follows at most one
   literal.
  */
  lemma {:induction false} ScanCount(p: Params, chunks: seq<Chunk>, file: seq<byte>, behind: seq<byte>,
                                     curr: int, offset: int)
    returns (k: nat)
    requires 1 <= p.chunk == |behind| && 0 <= curr && 0 <= offset <= |file|
    requires LiteralsFit(ScanFrom(p, chunks, file, behind, curr, offset), p.capacity)
    ensures |ScanFrom(p, chunks, file, behind, curr, offset)| <= |file| - offset + 1
    ensures k * p.chunk <= |file| - offset
    ensures OpsLength(ScanFrom(p, chunks, file, behind, curr, offset)) <= |file| - offset + 18 * k + 18
    decreases |file| - curr
  {
    hide RoundAt, ScanFrom, Copied, LiteralsFit;
    ScanStep(p, chunks, file, behind, curr, offset);
    var r := RoundAt(p, chunks, file, behind, curr);
    if r.Skip? {
      k := ScanCount(p, chunks, file, behind, r.next, offset);
    } else if r.Past? {
      FitFound(offset, r.at, chunks[r.k].offset, p.chunk, [], p.capacity);
      LengthFound(offset, r.at, chunks[r.k].offset, p.chunk, []);
      k := 0;
    } else if r.Found? {
      var end := r.at + p.chunk;
      var rest := ScanFrom(p, chunks, file, behind, r.next, end);
      FitFound(offset, r.at, chunks[r.k].offset, p.chunk, rest, p.capacity);
      LengthFound(offset, r.at, chunks[r.k].offset, p.chunk, rest);
      k := ScanCount(p, chunks, file, behind, r.next, end);
      Offsets(p.chunk, k);
      k := k + 1;
    } else {
      LastLength(offset, file);
      k := 0;
    }
  }

  lemma LastLength(offset: int, file: seq<byte>)
    requires offset <= |file|
    ensures var nodes := if offset < |file| then [OffsetNode(true, offset, |file| - offset)] else [];
            OpsLength(nodes) == (if offset < |file| then 5 + |file| - offset else 0) && |nodes| <= |file| - offset
  {
  }

  /** With nothing to match, the whole file is one literal. */
  lemma {:induction false} OneLiteral(p: Params, file: seq<byte>, behind: seq<byte>, curr: int, offset: int)
    requires 1 <= p.chunk == |behind| && 0 <= curr
    ensures ScanFrom(p, [], file, behind, curr, offset)
         == if offset < |file| then [OffsetNode(true, offset, |file| - offset)] else []
    decreases |file| - curr
  {
    hide *;
    ScanStep(p, [], file, behind, curr, offset);
    var r := RoundAt(p, [], file, behind, curr);
    if r.Skip? {
      OneLiteral(p, file, behind, r.next, offset);
    }
  }
}

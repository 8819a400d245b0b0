/** The whole pipeline: signature, delta, patch. */
module Rdiff {
  import opened Bytes
  import opened Chunks
  import opened Signatures
  import opened Scans
  import opened ScanNodes
  import opened ScanEnds
  import opened ScanWindows
  import opened FileMaps
  import opened Deltas
  import opened Patches
  import opened DeltaGeneration

  /** Against an old file shorter than a chunk, a delta exists only for new files no longer than the write buffer. */
  lemma ShortOriginIff(p: Params, origin: seq<byte>, file: seq<byte>, behind: seq<byte>)
    requires p.Valid() && |origin| < p.chunk == |behind|
    ensures LiteralsFit(Scan(p, Signature(p, origin), file, behind), p.capacity) <==> |file| <= p.capacity
  {
    hide ScanFrom;
    assert Signature(p, origin) == [];
    OneLiteral(p, file, behind, 0, 0);
    if |file| > 0 {
      assert Scan(p, [], file, behind)[0] == OffsetNode(true, 0, |file|);
    }
  }

  /** The first node and its operation. */
  lemma FirstOp(nodes: seq<OffsetNode>, p: Params, file: seq<byte>)
    requires nodes != [] && Expressible(nodes, p, file)
    ensures Expressible(nodes[1..], p, file) && NodeSound(nodes[0], p, file)
    ensures nodes[0].from ==> nodes[0].length >= 0
    ensures OpsOf(nodes, p, file) == [OpOf(nodes[0], p, file)] + OpsOf(nodes[1..], p, file)
  {
    assert forall i :: 0 <= i < |nodes| - 1 ==> nodes[1..][i] == nodes[i + 1];
  }

  lemma MeaningStep(op: Op, ops: seq<Op>, origin: seq<byte>)
    requires CopiesInside([op], origin) && CopiesInside(ops, origin)
    ensures CopiesInside([op] + ops, origin)
    ensures Meaning([op] + ops, origin) == OpBytes(op, origin) + Meaning(ops, origin)
  {
    assert ([op] + ops)[1..] == ops && [op][0] == op;
  }

  lemma RebuildStep(nodes: seq<OffsetNode>, p: Params, origin: seq<byte>, file: seq<byte>)
    requires nodes != [] && Inside(nodes, origin, file) && p.Valid()
    requires NodeSound(nodes[0], p, file) && (nodes[0].from ==> nodes[0].length >= 0)
    ensures Inside(nodes[1..], origin, file) && CopiesInside([OpOf(nodes[0], p, file)], origin)
    ensures Rebuild(nodes, origin, file)
         == OpBytes(OpOf(nodes[0], p, file), origin) + Rebuild(nodes[1..], origin, file)
  {
    assert forall i :: 0 <= i < |nodes| - 1 ==> nodes[1..][i] == nodes[i + 1];
  }

  /** The operations of a list of nodes mean the bytes the nodes stand for. */
  lemma {:induction false} MeaningIsRebuild(nodes: seq<OffsetNode>, p: Params, origin: seq<byte>, file: seq<byte>)
    requires Expressible(nodes, p, file) && Inside(nodes, origin, file)
    ensures CopiesInside(OpsOf(nodes, p, file), origin)
    ensures Meaning(OpsOf(nodes, p, file), origin) == Rebuild(nodes, origin, file)
    decreases |nodes|
  {
    if nodes != [] {
      assert p.Valid() && 1 <= p.chunk < TWO31;
      hide *;
      FirstOp(nodes, p, file);
      RebuildStep(nodes, p, origin, file);
      MeaningIsRebuild(nodes[1..], p, origin, file);
      MeaningStep(OpOf(nodes[0], p, file), OpsOf(nodes[1..], p, file), origin);
    }
  }

  /** The size of a list of operations. */
  lemma {:induction false} OpsSize(nodes: seq<OffsetNode>, p: Params, file: seq<byte>)
    requires Expressible(nodes, p, file)
    ensures |EncodeOps(OpsOf(nodes, p, file))| == OpsLength(nodes)
    decreases |nodes|
  {
    if nodes == [] {
      assert OpsOf(nodes, p, file) == [];
    } else {
      hide Expressible, OpsOf, EncodeOps;
      FirstOp(nodes, p, file);
      OpsSize(nodes[1..], p, file);
      EncodeStep(OpsOf(nodes, p, file));
      assert OpsOf(nodes, p, file)[1..] == OpsOf(nodes[1..], p, file);
    }
  }

  /** More than any delta for a new file of `size` bytes takes. */
  function DeltaBound(chunk: int, size: nat): (bound: int)
    requires chunk >= 1
    ensures bound >= size + 26
  {
    size + 18 * (size / chunk) + 26
  }

  lemma BoundHolds(chunk: int, size: nat, length: int, k: nat)
    requires 1 <= chunk && length <= size + 18 * k + 18 && k * chunk <= size
    ensures 8 + length <= DeltaBound(chunk, size)
  {
    var q := size / chunk;
    DivRemainder(size, chunk);
    assert (k - q - 1) * chunk == k * chunk - q * chunk - chunk;
    NegativeFactor(k - q - 1, chunk);
  }

  lemma NegativeFactor(x: int, c: int)
    requires c > 0 && x * c < 0
    ensures x < 0
  {
  }

  /** What the nodes stand for is the new file exactly when the scan does not run past its end; then it is too long. */
  lemma RebuildIff(p: Params, origin: seq<byte>, file: seq<byte>, behind: seq<byte>)
    requires p.Valid() && |behind| == p.chunk && |origin| < TWO31 && NoCollision(p, origin, file)
    requires LiteralsFit(Scan(p, Signature(p, origin), file, behind), p.capacity)
    ensures var nodes := Scan(p, Signature(p, origin), file, behind);
            && Inside(nodes, origin, file)
            && (Rebuild(nodes, origin, file) == file <==> !RunsPast(p, Signature(p, origin), file, behind, 0))
            && (RunsPast(p, Signature(p, origin), file, behind, 0) ==> |Rebuild(nodes, origin, file)| > |file|)
  {
    hide Signature, StepsBack, LongGap, RunsPast, ScanFrom, NoCollision, Trusted, LiteralsFit, Sound, CopiesIn,
         Inside, Rebuild, Tiles, Total;
    var chunks := Signature(p, origin);
    var nodes := Scan(p, chunks, file, behind);
    DeltaIff(p, chunks, file, behind);
    ScanSound(p, chunks, file, behind, 0, 0);
    ScanCopiesIn(p, origin, file, behind, 0, 0);
    InsideIff(nodes, p, origin, file);
    RebuildTotal(nodes, origin, file);
    if RunsPast(p, chunks, file, behind, 0) {
      PastTooLong(p, chunks, file, behind, 0, 0);
    } else {
      SignatureTrusted(p, origin, file);
      ScanTilesIff(p, chunks, origin, file, behind, 0, 0);
      TilesRebuild(nodes, origin, file, 0);
      assert file[0..] == file;
    }
  }

  /**
   Whenever a delta can be written, the one generated against the signature of
   the old file is whole; and patching the old file with it gives the new file
   exactly when the scan did not run past the end, and otherwise a longer one.
  */
  lemma {:induction false} EndToEnd(p: Params, origin: seq<byte>, file: seq<byte>, behind: seq<byte>)
    requires p.Valid() && |behind| == p.chunk && |origin| < TWO31 && |file| < TWO31 - 1
    requires NoCollision(p, origin, file)
    requires !StepsBack(p, Signature(p, origin), file, behind, 0)
    requires !LongGap(p, Signature(p, origin), file, behind, 0, 0)
    ensures var nodes := Scan(p, Signature(p, origin), file, behind);
            && Expressible(nodes, p, file) && |nodes| <= |file| + 1
            && var delta := EncodeDelta(OpsOf(nodes, p, file));
               && |delta| <= DeltaBound(p.chunk, |file|) && FromBe32(delta) == DELTA_MAGIC
               && WholeDelta(delta, origin) && ParseDelta(delta).status.Complete?
               && var patched := Meaning(ParseDelta(delta).ops, origin);
                  && (patched == file <==> !RunsPast(p, Signature(p, origin), file, behind, 0))
                  && (RunsPast(p, Signature(p, origin), file, behind, 0) ==> |patched| > |file|)
  {
    hide Signature, StepsBack, LongGap, RunsPast, ScanFrom, NoCollision, LiteralsFit, Sound, Inside, Rebuild,
         Meaning, CopiesInside, ParseOps, EncodeOps, OpsOf, FromBe32, OpsLength;
    var chunks := Signature(p, origin);
    var nodes := Scan(p, chunks, file, behind);
    DeltaIff(p, chunks, file, behind);
    RebuildIff(p, origin, file, behind);
    ScanSound(p, chunks, file, behind, 0, 0);
    var k := ScanCount(p, chunks, file, behind, 0, 0);
    BoundHolds(p.chunk, |file|, OpsLength(nodes), k);
    MeaningIsRebuild(nodes, p, origin, file);
    OpsSize(nodes, p, file);
    ParseOfEncodeDelta(OpsOf(nodes, p, file));
  }

  /** The nodes of an unchanged file from block `m` on take nine bytes a block, and the rest behind the last block. */
  lemma {:induction false} UnchangedLength(p: Params, origin: seq<byte>, behind: seq<byte>, m: nat)
    requires 1 <= p.chunk == |behind| && |origin| < TWO31 && SlotsOwn(Signature(p, origin))
    requires m <= |origin| / p.chunk
    ensures 0 <= m * p.chunk
    ensures var rest := |origin| % p.chunk;
            OpsLength(ScanFrom(p, Signature(p, origin), origin, behind, m * p.chunk, m * p.chunk))
            == 9 * (|origin| / p.chunk - m) + if rest > 0 then 5 + rest else 0
    decreases |origin| / p.chunk - m
  {
    hide RoundAt, ScanFrom, Signature, SlotsOwn, Copied;
    Offsets(p.chunk, m);
    var chunks, at := Signature(p, origin), m * p.chunk;
    ScanStep(p, chunks, origin, behind, at, at);
    if m == |origin| / p.chunk {
      UnchangedEnd(p, origin, behind);
      LastLength(at, origin);
    } else {
      UnchangedRound(p, origin, behind, m);
      UnchangedLength(p, origin, behind, m + 1);
      var k := Lookup(chunks, chunks[m].weak);
      var next := (m + 1) * p.chunk;
      LengthFound(at, at, chunks[k].offset, p.chunk, ScanFrom(p, chunks, origin, behind, next, next));
    }
  }

  /** For an unchanged file, whatever its size, the scan does nothing wrong and the delta takes nine bytes a block. */
  lemma UnchangedDelta(p: Params, origin: seq<byte>, behind: seq<byte>)
    requires p.Valid() && |behind| == p.chunk && |origin| < TWO31 - 1 && NoCollision(p, origin, origin)
    requires SlotsOwn(Signature(p, origin)) && |origin| % p.chunk <= p.capacity
    ensures !StepsBack(p, Signature(p, origin), origin, behind, 0)
    ensures !LongGap(p, Signature(p, origin), origin, behind, 0, 0)
    ensures !RunsPast(p, Signature(p, origin), origin, behind, 0)
    ensures var nodes, rest := Scan(p, Signature(p, origin), origin, behind), |origin| % p.chunk;
            && Expressible(nodes, p, origin) && |nodes| < TWO31
            && |EncodeDelta(OpsOf(nodes, p, origin))|
               == 8 + 9 * (|origin| / p.chunk) + if rest > 0 then 5 + rest else 0
  {
    hide Signature, StepsBack, LongGap, RunsPast, ScanFrom, NoCollision, SlotsOwn, OpsOf, EncodeOps, OpsLength, RoundAt;
    UnchangedScan(p, origin, behind, 0);
    UnchangedLength(p, origin, behind, 0);
    EndToEnd(p, origin, origin, behind);
    OpsSize(Scan(p, Signature(p, origin), origin, behind), p, origin);
  }

  /** A new file that fits the write buffer and shares no stretch with the old one that misleads the scan. */
  ghost predicate PassesChecks(p: Params, origin: seq<byte>, file: seq<byte>, behind: seq<byte>)
    requires p.Valid() && |behind| == p.chunk
  {
    && |file| <= p.capacity && NoOverlap(p.chunk, origin, file)
    && TailFree(p.chunk, origin, file) && StaleApart(p, origin, file, behind)
  }

  /** The old file again, of any size, no two different blocks of which have the same weak sum. */
  ghost predicate Unchanged(p: Params, origin: seq<byte>, file: seq<byte>)
    requires p.Valid() && |origin| < TWO31
  {
    file == origin && SlotsOwn(Signature(p, origin)) && |file| % p.chunk <= p.capacity
  }

  /** What can be known before the scan, so that it neither steps back nor meets a long gap nor runs past the end. */
  lemma ChecksSuffice(p: Params, origin: seq<byte>, file: seq<byte>, behind: seq<byte>)
    requires p.Valid() && |behind| == p.chunk && |origin| < TWO31 - 1 && NoCollision(p, origin, file)
    requires PassesChecks(p, origin, file, behind) || Unchanged(p, origin, file)
    ensures !StepsBack(p, Signature(p, origin), file, behind, 0)
    ensures !LongGap(p, Signature(p, origin), file, behind, 0, 0)
    ensures !RunsPast(p, Signature(p, origin), file, behind, 0)
  {
    hide Signature, StepsBack, LongGap, RunsPast, ScanFrom, NoCollision, StaleApart, NoOverlap, TailFree, SlotsOwn,
         RoundAt;
    var chunks := Signature(p, origin);
    if Unchanged(p, origin, file) {
      UnchangedScan(p, origin, behind, 0);
    } else {
      NoOverlapNeverStepsBack(p, origin, file, behind, 0);
      TailFreeNeverRunsPast(p, origin, file, behind);
      PositiveIff(p, chunks, file, behind, 0, 0);
      ScanSound(p, chunks, file, behind, 0, 0);
      BoundedIff(p, chunks, file, behind, 0, 0);
    }
  }

  /** Outcome of the three programs run one after the other. */
  datatype Outcome = TooShort | Stopped | Patched(result: seq<byte>)

  /**
   Signature, delta, patch. There is a result exactly when the scan neither
   steps back nor meets a gap longer than the write buffer, and it is the new
   file exactly when the scan did not run past its end. For files that pass the
   checks, and for an unchanged file, it always is.
  */
  method Run(p: Params, origin: seq<byte>, file: seq<byte>, unset: int32)
    returns (r: Outcome, ghost behind: seq<byte>)
    requires p.Valid() && 0 <= unset <= p.window && NoCollision(p, origin, file)
    requires |origin| + p.window < TWO31 && DeltaBound(p.chunk, |file|) + p.window < TWO31
    ensures |behind| == p.chunk && LeftBehind(p, Signature(p, origin), file, behind)
    ensures |file| < p.window ==>
      Sits(file, Whole(file)) && behind == BehindFrom(p, Signature(p, origin), file, Whole(file), 0)
    ensures r.TooShort? <==> |file| < p.chunk
    ensures r.Patched? <==> (|file| >= p.chunk
                             && !StepsBack(p, Signature(p, origin), file, behind, 0)
                             && !LongGap(p, Signature(p, origin), file, behind, 0, 0))
    ensures r.Patched? ==> (r.result == file <==> !RunsPast(p, Signature(p, origin), file, behind, 0))
    ensures |file| >= p.chunk && (PassesChecks(p, origin, file, behind) || Unchanged(p, origin, file)) ==>
      r == Patched(file)
  {
    hide StepsBack, LongGap, RunsPast, ScanFrom, NoCollision, PassesChecks, Unchanged, Signature, LiteralsFit,
         LeftBehind, BehindFrom, Sits, CopiesInside, ParseDelta, EncodeDelta, Meaning, OpsOf, Expressible,
         DeltaBound, FromBe32;
    FewerBlocksThanBytes(p.chunk, |file|);
    var sig := GenerateSigFile(p, origin, unset);
    DecodeOfEncodeSig(p.chunk, Signature(p, origin));
    SigKnown(p.chunk, Signature(p, origin));
    var delta;
    delta, behind := GenerateDeltaFile(p, file, sig, unset);
    if |file| < p.window {
      LeftOfShort(p, Signature(p, origin), file, behind);
    }
    DeltaIff(p, Signature(p, origin), file, behind);
    if PassesChecks(p, origin, file, behind) || Unchanged(p, origin, file) {
      ChecksSuffice(p, origin, file, behind);
    }
    match delta {
      case NoDelta => r := TooShort;
      case Delta(bytes) =>
        EndToEnd(p, origin, file, behind);
        var _, result := PatchFile(p, origin, bytes, unset, unset);
        r := Patched(result);
      case _ => r := Stopped;
    }
  }

  lemma SigKnown(chunkSize: int32, chunks: seq<Chunk>)
    requires |chunks| < TWO31
    ensures var sig := EncodeSig(chunkSize, chunks); |sig| >= 4 && FromBe32(sig) == SIG_MAGIC
  {
    SigLayout(chunkSize, chunks);
  }
}

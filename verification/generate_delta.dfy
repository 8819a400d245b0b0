/** From a signature file and the new file to the delta file. */
module DeltaGeneration {
  import opened Bytes
  import opened Chunks
  import opened Signatures
  import opened Scans
  import opened ScanNodes
  import opened ScanNewFiles
  import opened ScanWindows
  import opened FileMaps
  import opened WriteFileMaps
  import opened ReadWindows
  import opened Deltas

  /**
   `NotASignature`: the signature has a wrong magic number, and the program ends
   when it follows the NULL list. `NoDelta`: the new file is shorter than a
   chunk. `Overrun`: a literal run is negative or longer than the write buffer,
   so the `memmove` that should copy it cannot be honoured.
  */
  datatype DeltaResult = NotASignature | NoDelta | Overrun | Delta(bytes: seq<byte>)

  /** The delta operation of a node. */
  function OpOf(n: OffsetNode, p: Params, file: seq<byte>): Op
    requires NodeSound(n, p, file) && (n.from ==> n.length >= 0) && 1 <= p.chunk < TWO31
  {
    if n.from then Literal(file[n.offset..n.offset + n.length]) else Copy(n.offset, n.length)
  }

  ghost predicate Expressible(nodes: seq<OffsetNode>, p: Params, file: seq<byte>) {
    p.Valid() && |file| < TWO31 && LiteralsFit(nodes, p.capacity)
    && Sound(nodes, p, file)
  }

  ghost function OpsOf(nodes: seq<OffsetNode>, p: Params, file: seq<byte>): (ops: seq<Op>)
    requires Expressible(nodes, p, file)
    ensures |ops| == |nodes| && Writable(ops)
    ensures forall i :: 0 <= i < |nodes| ==> ops[i] == OpOf(nodes[i], p, file)
  {
    seq(|nodes|, i requires 0 <= i < |nodes| => OpOf(nodes[i], p, file))
  }

  /** The fields of one node, each appended on its own. */
  method AppendNode(p: Params, reader: FileMap, writer: WriteFileMap, n: OffsetNode)
    requires Reads(p, reader) && writer.Valid() && writer.capacity == p.capacity && reader.data != writer.buffer
    requires NodeSound(n, p, reader.file) && (n.from ==> 0 <= n.length <= p.capacity)
    requires |reader.file| < TWO31 && p.Valid()
    modifies reader, reader.data, writer, writer.buffer
    ensures Reads(p, reader) && writer.Valid()
    ensures writer.Appended() == old(writer.Appended()) + EncodeOp(OpOf(n, p, reader.file))
  {
    hide Reads, WriteFileMap.Valid, WriteFileMap.Appended, Be32, Word, EncodeOp, OpOf;
    OpFields(n, p, reader.file);
    ghost var before := writer.Appended();
    if n.from {
      writer.AppendData([NEW_TAG]);
      writer.AppendData(Be32(n.length));
      var data := ReadRange(p, reader, n.offset, n.length);
      writer.AppendData(data);
      JoinFields(before, [NEW_TAG], Be32(n.length), data);
    } else {
      writer.AppendData([OLD_TAG]);
      writer.AppendData(Be32(Word(n.offset)));
      writer.AppendData(Be32(Word(n.length)));
      JoinFields(before, [OLD_TAG], Be32(Word(n.offset)), Be32(Word(n.length)));
    }
  }

  lemma OpFields(n: OffsetNode, p: Params, file: seq<byte>)
    requires NodeSound(n, p, file) && (n.from ==> 0 <= n.length) && |file| < TWO31 && p.Valid()
    ensures EncodeOp(OpOf(n, p, file))
         == if n.from then [NEW_TAG] + Be32(n.length) + file[n.offset..n.offset + n.length]
            else [OLD_TAG] + Be32(Word(n.offset)) + Be32(Word(n.length))
  {
  }

  lemma JoinFields(before: seq<byte>, a: seq<byte>, b: seq<byte>, c: seq<byte>)
    ensures before + a + b + c == before + (a + b + c)
  {
  }

  lemma EncodeSnoc(ops: seq<Op>, i: nat)
    requires Writable(ops) && i < |ops|
    ensures EncodeOps(ops[..i + 1]) == EncodeOps(ops[..i]) + EncodeOp(ops[i])
  {
    if i == 0 {
      assert ops[..1] == [ops[0]] && ops[..1][1..] == [];
    } else {
      var tail := ops[1..];
      EncodeSnoc(tail, i - 1);
      assert ops[..i + 1][1..] == tail[..i] && ops[..i][1..] == tail[..i - 1];
      ConcatAssociative(EncodeOp(ops[0]), EncodeOps(tail[..i - 1]), EncodeOp(ops[i]));
    }
  }

  lemma FitSnoc(nodes: seq<OffsetNode>, i: nat, capacity: int)
    requires i < |nodes|
    ensures LiteralsFit(nodes[..i + 1], capacity)
       <==> LiteralsFit(nodes[..i], capacity) && (nodes[i].from ==> 0 <= nodes[i].length <= capacity)
    ensures LiteralsFit(nodes, capacity) ==> LiteralsFit(nodes[..i + 1], capacity)
  {
    assert nodes[..i + 1] == nodes[..i] + [nodes[i]];
    if LiteralsFit(nodes[..i + 1], capacity) {
      assert nodes[..i + 1][i] == nodes[i];
      assert forall k :: 0 <= k < i ==> nodes[..i][k] == nodes[..i + 1][k];
    }
  }

  /** Appends the nodes one by one until one does not fit. */
  method AppendNodes(p: Params, reader: FileMap, writer: WriteFileMap, nodes: seq<OffsetNode>) returns (fits: bool)
    requires Reads(p, reader) && writer.Valid() && writer.capacity == p.capacity && reader.data != writer.buffer
    requires |reader.file| < TWO31 && forall i :: 0 <= i < |nodes| ==> NodeSound(nodes[i], p, reader.file)
    modifies reader, reader.data, writer, writer.buffer
    ensures writer.Valid()
    ensures fits <==> LiteralsFit(nodes, p.capacity)
    ensures fits ==> writer.Appended() == old(writer.Appended()) + EncodeOps(OpsOf(nodes, p, reader.file))
  {
    ghost var head, file := writer.Appended(), reader.file;
    ghost var ops := if LiteralsFit(nodes, p.capacity) then OpsOf(nodes, p, file) else [];
    assert ops[..0] == [] && head + EncodeOps([]) == head && LiteralsFit(nodes[..0], p.capacity);
    hide Reads, WriteFileMap.Valid, WriteFileMap.Appended, EncodeOps, EncodeOp, LiteralsFit, NodeSound, OpsOf;
    for i := 0 to |nodes|
      invariant Reads(p, reader) && writer.Valid()
      invariant LiteralsFit(nodes[..i], p.capacity)
      invariant LiteralsFit(nodes, p.capacity) ==> writer.Appended() == head + EncodeOps(ops[..i])
    {
      FitSnoc(nodes, i, p.capacity);
      if nodes[i].from && !(0 <= nodes[i].length <= p.capacity) {
        return false;
      }
      if LiteralsFit(nodes, p.capacity) {
        EncodeSnoc(ops, i);
        ConcatAssociative(head, EncodeOps(ops[..i]), EncodeOp(ops[i]));
      }
      AppendNode(p, reader, writer, nodes[i]);
    }
    assert nodes[..|nodes|] == nodes && ops[..|ops|] == ops;
    fits := true;
  }

  /** The delta file of a list of nodes. */
  method WriteDelta(p: Params, file: seq<byte>, nodes: seq<OffsetNode>, unset: int32)
    returns (fits: bool, bytes: seq<byte>)
    requires p.Valid() && |file| + p.window < TWO31 && 0 <= unset <= p.window
    requires Sound(nodes, p, file)
    ensures fits <==> LiteralsFit(nodes, p.capacity)
    ensures fits && |nodes| < TWO31 ==> bytes == EncodeDelta(OpsOf(nodes, p, file))
  {
    var reader := new FileMap(file, p.window, unset);
    var writer := new WriteFileMap(p.capacity);
    var count := Wrap32(|nodes|);
    assert Reads(p, reader) && writer.Valid() && writer.Appended() == [] && (|nodes| < TWO31 ==> count == |nodes|);
    assert writer.capacity == p.capacity >= 32 && |file| < TWO31;
    assert forall i :: 0 <= i < |nodes| ==> NodeSound(nodes[i], p, file);
    if LiteralsFit(nodes, p.capacity) && |nodes| < TWO31 {
      DeltaParts(OpsOf(nodes, p, file));
    }
    hide *;
    AppendHead(writer, count);
    fits := AppendNodes(p, reader, writer, nodes);
    bytes := writer.Close();
  }

  lemma DeltaParts(ops: seq<Op>)
    requires Writable(ops) && |ops| < TWO31
    ensures EncodeDelta(ops) == Deltas.EncodeHead(|ops|) + EncodeOps(ops)
  {
  }

  method AppendHead(writer: WriteFileMap, count: uint32)
    requires writer.Valid() && writer.capacity >= 32 && writer.Appended() == []
    modifies writer, writer.buffer
    ensures writer.Valid() && writer.Appended() == Deltas.EncodeHead(count)
  {
    hide Be32, WriteFileMap.Valid, WriteFileMap.Appended;
    writer.AppendData(Be32(DELTA_MAGIC));
    writer.AppendData(Be32(count));
  }

  /** `behind` is what the read buffer held where the scan met the end of the new file. */
  method GenerateDeltaFile(p: Params, file: seq<byte>, sig: seq<byte>, unset: int32)
    returns (r: DeltaResult, ghost behind: seq<byte>)
    requires p.Valid() && |file| + p.window < TWO31 && 0 <= unset <= p.window
    requires |sig| >= 4 && (FromBe32(sig) == SIG_MAGIC ==> WholeSig(sig))
    ensures |behind| == p.chunk && (r.NotASignature? <==> FromBe32(sig) != SIG_MAGIC)
    ensures !r.NotASignature? ==> LeftBehind(p, DecodeSig(sig), file, behind)
    ensures !r.NotASignature? ==> (r.NoDelta? <==> |file| < p.chunk)
    ensures !r.NotASignature? ==>
              (r.Delta? <==> |file| >= p.chunk && LiteralsFit(Scan(p, DecodeSig(sig), file, behind), p.capacity))
    ensures r.Delta? ==>
      var nodes := Scan(p, DecodeSig(sig), file, behind);
      && Expressible(nodes, p, file) && |nodes| <= |file| + 1
      && r.bytes == EncodeDelta(OpsOf(nodes, p, file))
  {
    hide ScanFrom, DecodeEntries, LiteralsFit, Sound, EncodeDelta, FromBe32, LeftBehind;
    behind := seq(p.chunk, _ => 0);
    var ok, meta := ParseMetaList(sig);
    if !ok {
      return NotASignature, behind;
    }
    ghost var chunks := DecodeSig(sig);
    var nodes;
    nodes, behind := ScanNewFile(p, meta, file, unset);
    if |file| < p.chunk {
      return NoDelta, behind;
    }
    ScanSound(p, chunks, file, behind, 0, 0);
    if LiteralsFit(Scan(p, chunks, file, behind), p.capacity) {
      var _ := ScanCount(p, chunks, file, behind, 0, 0);
    }
    var fits, bytes := WriteDelta(p, file, nodes, unset);
    r := if fits then Delta(bytes) else Overrun;
  }
}

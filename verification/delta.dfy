/** The delta file: its format, its meaning, and the program that applies it. */
module Deltas {
  import opened Bytes
  import opened Chunks
  import opened Signatures
  import opened FileMaps
  import opened WriteFileMaps
  import opened ReadWindows

  const DELTA_MAGIC: uint32 := 0x1234568
  const OLD_TAG: byte := 0xff
  const NEW_TAG: byte := 0x00

  /** A run of the old file, or the bytes themselves. */
  datatype Op = Copy(offset: int32, length: int32) | Literal(bytes: seq<byte>)

  ghost predicate CopiesInside(ops: seq<Op>, origin: seq<byte>) {
    forall i :: 0 <= i < |ops| ==>
      ops[i].Copy? ==> ops[i].length <= 0 || (0 <= ops[i].offset && ops[i].offset + ops[i].length <= |origin|)
  }

  function OpBytes(op: Op, origin: seq<byte>): seq<byte>
    requires CopiesInside([op], origin)
  {
    assert op == [op][0];
    match op
    case Copy(offset, length) => if length <= 0 then [] else origin[offset..offset + length]
    case Literal(bytes) => bytes
  }

  /** What a list of operations makes of the old file. */
  ghost function Meaning(ops: seq<Op>, origin: seq<byte>): seq<byte>
    requires CopiesInside(ops, origin)
  {
    if ops == [] then []
    else
      assert ops[0] == [ops[0]][0];
      OpBytes(ops[0], origin) + Meaning(ops[1..], origin)
  }

  function EncodeOp(op: Op): seq<byte>
    requires op.Literal? ==> |op.bytes| < TWO31
  {
    match op
    case Copy(offset, length) => [OLD_TAG] + Be32(Word(offset)) + Be32(Word(length))
    case Literal(bytes) => [NEW_TAG] + Be32(|bytes|) + bytes
  }

  predicate Writable(ops: seq<Op>) {
    forall i :: 0 <= i < |ops| ==> ops[i].Literal? ==> |ops[i].bytes| < TWO31
  }

  function EncodeOps(ops: seq<Op>): seq<byte>
    requires Writable(ops)
  {
    if ops == [] then [] else EncodeOp(ops[0]) + EncodeOps(ops[1..])
  }

  function EncodeHead(count: uint32): seq<byte> {
    Be32(DELTA_MAGIC) + Be32(count)
  }

  /** A delta file. */
  function EncodeDelta(ops: seq<Op>): seq<byte>
    requires Writable(ops) && |ops| < TWO31
  {
    EncodeHead(|ops|) + EncodeOps(ops)
  }

  /** How reading a list of operations ends. */
  datatype Status = Complete | BadTag | Truncated

  datatype Parsed = Parsed(ops: seq<Op>, status: Status, end: nat)

  function After(op: Op, rest: Parsed): Parsed {
    rest.(ops := [op] + rest.ops)
  }

  /** The operation at `pos`, `Truncated` when the file ends inside it. */
  function ParseOp(d: seq<byte>, pos: nat): (r: (Status, Op, nat))
    ensures r.0.Complete? ==> pos < r.2 <= |d|
    ensures r.0.Complete? && r.1.Literal? ==> |r.1.bytes| < TWO31
  {
    var none := Literal([]);
    if pos >= |d| then (Truncated, none, pos)
    else if d[pos] == OLD_TAG then
      if pos + 9 > |d| then (Truncated, none, pos)
      else (Complete, Copy(ToInt32(FromBe32(d[pos + 1..])), ToInt32(FromBe32(d[pos + 5..]))), pos + 9)
    else if d[pos] == NEW_TAG then
      if pos + 5 > |d| then (Truncated, none, pos)
      else
        var length := ToInt32(FromBe32(d[pos + 1..]));
        var end := pos + 5 + (if length < 0 then 0 else length);
        if end > |d| then (Truncated, none, pos) else (Complete, Literal(d[pos + 5..end]), end)
    else (BadTag, none, pos)
  }

  function ParseOps(d: seq<byte>, pos: nat, n: nat): Parsed
    decreases n
  {
    if n == 0 then Parsed([], Complete, pos)
    else
      var (status, op, end) := ParseOp(d, pos);
      if status.Complete? then After(op, ParseOps(d, end, n - 1)) else Parsed([], status, pos)
  }

  function OpCount(d: seq<byte>): nat
    requires |d| >= 8
  {
    var n := ToInt32(FromBe32(d[4..]));
    if n < 0 then 0 else n
  }

  /** What the patch program reads after the magic number. */
  function ParseDelta(d: seq<byte>): Parsed
    requires |d| >= 8
  {
    ParseOps(d, 8, OpCount(d))
  }

  lemma Regroup<T>(pre: seq<T>, a: seq<T>, b: seq<T>, c: seq<T>, post: seq<T>)
    ensures pre + ((a + b + c) + post) == (pre + a) + (b + (c + post))
    ensures (pre + a) + (b + (c + post)) == (pre + a + b) + (c + post)
  {
  }

  /** The fields of a copy, where the file holds it. */
  lemma CopyFields(d: seq<byte>, pre: seq<byte>, offset: int32, length: int32, post: seq<byte>)
    requires d == pre + (EncodeOp(Copy(offset, length)) + post)
    ensures |pre + EncodeOp(Copy(offset, length))| == |pre| + 9 <= |d| && d[|pre|] == OLD_TAG
    ensures FromBe32(d[|pre| + 1..]) == Word(offset) && FromBe32(d[|pre| + 5..]) == Word(length)
  {
    hide Be32, FromBe32, Word;
    var o, l := Be32(Word(offset)), Be32(Word(length));
    var tagged := pre + [OLD_TAG];
    Regroup(pre, [OLD_TAG], o, l, post);
    WordAt(d, tagged, Word(offset), l + post);
    WordAt(d, tagged + o, Word(length), post);
    assert d[|pre|] == OLD_TAG && |tagged| == |pre| + 1 && |tagged + o| == |pre| + 5;
  }

  lemma ParseOfCopy(d: seq<byte>, pre: seq<byte>, offset: int32, length: int32, post: seq<byte>)
    requires d == pre + (EncodeOp(Copy(offset, length)) + post)
    ensures ParseOp(d, |pre|) == (Complete, Copy(offset, length), |pre + EncodeOp(Copy(offset, length))|)
  {
    hide Be32, FromBe32, Word, EncodeOp;
    CopyFields(d, pre, offset, length, post);
    WordRoundTrip(offset);
    WordRoundTrip(length);
  }

  /** The fields of a literal, where the file holds it. */
  lemma LiteralFields(d: seq<byte>, pre: seq<byte>, bytes: seq<byte>, post: seq<byte>)
    requires |bytes| < TWO31
    requires d == pre + (EncodeOp(Literal(bytes)) + post)
    ensures |pre + EncodeOp(Literal(bytes))| == |pre| + 5 + |bytes| <= |d| && d[|pre|] == NEW_TAG
    ensures FromBe32(d[|pre| + 1..]) == |bytes| && d[|pre| + 5..|pre| + 5 + |bytes|] == bytes
  {
    hide Be32, FromBe32;
    var count := Be32(|bytes|);
    var tagged := pre + [NEW_TAG];
    Regroup(pre, [NEW_TAG], count, bytes, post);
    WordAt(d, tagged, |bytes|, bytes + post);
    assert d[|pre|] == NEW_TAG && |tagged| == |pre| + 1;
    SliceOfTail(d, |pre| + 5, bytes, post);
  }

  lemma ParseOfLiteral(d: seq<byte>, pre: seq<byte>, bytes: seq<byte>, post: seq<byte>)
    requires |bytes| < TWO31
    requires d == pre + (EncodeOp(Literal(bytes)) + post)
    ensures ParseOp(d, |pre|) == (Complete, Literal(bytes), |pre + EncodeOp(Literal(bytes))|)
  {
    hide Be32, FromBe32, EncodeOp;
    LiteralFields(d, pre, bytes, post);
  }

  lemma SliceOfTail(d: seq<byte>, start: nat, bytes: seq<byte>, post: seq<byte>)
    requires start <= |d| && d[start..] == bytes + post
    ensures start + |bytes| <= |d| && d[start..start + |bytes|] == bytes
  {
    assert d[start..start + |bytes|] == d[start..][..|bytes|];
  }

  lemma ParseStep(d: seq<byte>, pos: nat, op: Op, end: nat, n: nat)
    requires ParseOp(d, pos) == (Complete, op, end)
    ensures ParseOps(d, pos, n + 1) == After(op, ParseOps(d, end, n))
  {
  }

  lemma {:induction false} ParseOfEncodeOps(d: seq<byte>, pre: seq<byte>, ops: seq<Op>)
    requires Writable(ops) && d == pre + EncodeOps(ops)
    ensures ParseOps(d, |pre|, |ops|) == Parsed(ops, Complete, |d|)
    decreases |ops|
  {
    if ops == [] {
      assert d == pre;
    } else {
      hide ParseOp, ParseOps, EncodeOp, EncodeOps, Be32;
      var op, rest := ops[0], EncodeOps(ops[1..]);
      var mid := pre + EncodeOp(op);
      EncodeStep(ops);
      ConcatAssociative(pre, EncodeOp(op), rest);
      if op.Copy? {
        ParseOfCopy(d, pre, op.offset, op.length, rest);
      } else {
        ParseOfLiteral(d, pre, op.bytes, rest);
      }
      ParseOfEncodeOps(d, mid, ops[1..]);
      ParseStep(d, |pre|, op, |mid|, |ops[1..]|);
      assert [op] + ops[1..] == ops;
    }
  }

  lemma EncodeStep(ops: seq<Op>)
    requires Writable(ops) && ops != []
    ensures EncodeOps(ops) == EncodeOp(ops[0]) + EncodeOps(ops[1..])
  {
  }

  /** Where a delta file holds its magic number, its count and its operations, one after the other. */
  lemma DeltaLayout(ops: seq<Op>)
    requires Writable(ops) && |ops| < TWO31
    ensures var d := EncodeDelta(ops);
            && |d| >= 8 && FromBe32(d) == 0x1234568 && FromBe32(d[4..]) == |ops|
            && d[8..] == EncodeOps(ops) && (ops != [] ==> EncodeOps(ops) == EncodeOp(ops[0]) + EncodeOps(ops[1..]))
  {
    hide EncodeOps, Be32, FromBe32;
    var d, magic, count := EncodeDelta(ops), Be32(DELTA_MAGIC), Be32(|ops|);
    assert d == [] + (magic + (count + EncodeOps(ops))) && d == magic + (count + EncodeOps(ops));
    WordAt(d, [], DELTA_MAGIC, count + EncodeOps(ops));
    assert d[0..] == d;
    WordAt(d, magic, |ops|, EncodeOps(ops));
    if ops != [] {
      EncodeStep(ops);
    }
  }

  /** The fields of an operation: a tag, then two words or a length and the bytes. */
  lemma OpLayout(op: Op)
    requires op.Literal? ==> |op.bytes| < TWO31
    ensures var e := EncodeOp(op);
            match op
            case Copy(offset, length) =>
              |e| == 9 && e[0] == 255 && FromBe32(e[1..]) == Word(offset) && FromBe32(e[5..]) == Word(length)
            case Literal(bytes) => |e| == 5 + |bytes| && e[0] == 0 && FromBe32(e[1..]) == |bytes| && e[5..] == bytes
  {
    var e := EncodeOp(op);
    match op {
      case Copy(offset, length) =>
        assert e == [] + (e + []);
        CopyFields(e, [], offset, length, []);
        assert [] + EncodeOp(op) == e;
      case Literal(bytes) =>
        assert e == [] + (e + []);
        LiteralFields(e, [], bytes, []);
        assert [] + EncodeOp(op) == e && e[5..] == e[5..5 + |bytes|];
    }
  }

  /** Parsing inverts generating, and consumes the file exactly. */
  lemma ParseOfEncodeDelta(ops: seq<Op>)
    requires Writable(ops) && |ops| < TWO31
    ensures var d := EncodeDelta(ops);
            |d| >= 8 && FromBe32(d) == DELTA_MAGIC && ParseDelta(d) == Parsed(ops, Complete, |d|)
  {
    hide EncodeOps, ParseOps, Be32, FromBe32;
    var d, magic, count := EncodeDelta(ops), Be32(DELTA_MAGIC), Be32(|ops|);
    ParseOfEncodeOps(d, magic + count, ops);
    assert d == [] + (magic + (count + EncodeOps(ops)));
    WordAt(d, [], DELTA_MAGIC, count + EncodeOps(ops));
    assert d[0..] == d && d == magic + (count + EncodeOps(ops));
    WordAt(d, magic, |ops|, EncodeOps(ops));
  }

  /** One piece: mapped, then appended. */
  method CopyPiece(p: Params, reader: FileMap, writer: WriteFileMap, ghost start: int, at: int, want: int)
    requires Reads(p, reader) && writer.Valid() && writer.capacity == p.capacity && reader.data != writer.buffer
    requires 0 <= start <= at && 0 <= want <= p.capacity && at + want <= |reader.file|
    modifies reader, reader.data, writer, writer.buffer
    ensures Reads(p, reader) && writer.Valid()
    ensures forall before :: old(writer.Appended()) == before + reader.file[start..at] ==>
              writer.Appended() == before + reader.file[start..at + want]
  {
    var bytes := ReadRange(p, reader, at, want);
    writer.AppendData(bytes);
    assert reader.file[start..at] + bytes == reader.file[start..at + want];
    forall before: seq<byte> | old(writer.Appended()) == before + reader.file[start..at]
      ensures writer.Appended() == before + reader.file[start..at + want]
    {
      ConcatAssociative(before, reader.file[start..at], bytes);
    }
  }

  lemma PiecesOf(length: int, piece: int)
    requires piece >= 1
    ensures length <= 0 ==> CDiv(length, piece) <= 0 && CRem(length, piece) <= 0
    ensures length > 0 ==> CDiv(length, piece) == length / piece >= 0
    ensures length > 0 ==> 0 <= CRem(length, piece) == length - length / piece * piece < piece
  {
    DivRemainder(if length > 0 then length else -length, piece);
  }

  /** Copies a run of a file in pieces and a remainder; a run of negative length copies nothing. */
  method CopyRun(p: Params, reader: FileMap, writer: WriteFileMap, start: int, length: int)
    requires Reads(p, reader) && writer.Valid() && writer.capacity == p.capacity && reader.data != writer.buffer
    requires length > 0 ==> 0 <= start && start + length <= |reader.file|
    modifies reader, reader.data, writer, writer.buffer
    ensures Reads(p, reader) && writer.Valid()
    ensures writer.Appended() == old(writer.Appended())
                                 + if length > 0 then reader.file[start..start + length] else []
  {
    hide CDiv, CRem, Reads, WriteFileMap.Valid, WriteFileMap.Appended;
    PiecesOf(length, p.piece);
    ghost var before := writer.Appended();
    var at := start;
    var pieces := CDiv(length, p.piece);
    var last := CRem(length, p.piece);
    var j := 0;
    while j < pieces
      invariant 0 <= j && (length > 0 ==> j <= pieces && at == start + j * p.piece)
      invariant length <= 0 ==> j == 0
      invariant Reads(p, reader) && writer.Valid()
      invariant length > 0 ==> start <= at <= start + length && writer.Appended() == before + reader.file[start..at]
      invariant length <= 0 ==> writer.Appended() == before
    {
      BlockInside(p.piece, length, j);
      Offsets(p.piece, j);
      CopyPiece(p, reader, writer, start, at, p.piece);
      at := at + p.piece;
      j := j + 1;
    }
    if last > 0 {
      CopyPiece(p, reader, writer, start, at, last);
    }
  }
}

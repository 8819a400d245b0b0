/** The patch program: old file and delta file in, new file out. */
module Patches {
  import opened Bytes
  import opened Chunks
  import opened FileMaps
  import opened WriteFileMaps
  import opened ReadWindows
  import opened Deltas

  /** The operation at `offset` can be read whole, and copies from inside the old file. */
  ghost predicate Readable(d: seq<byte>, offset: nat, origin: seq<byte>) {
    var (status, op, _) := ParseOp(d, offset);
    !status.Truncated? && (status.Complete? ==> CopiesInside([op], origin))
  }

  /** A copy is read from behind its tag. */
  lemma CopyOp(d: seq<byte>, offset: nat, origin: seq<byte>)
    requires Readable(d, offset, origin) && offset < |d| && d[offset] == OLD_TAG
    ensures offset + 9 <= |d|
    ensures var at, length := ToInt32(FromBe32(d[offset + 1..])), ToInt32(FromBe32(d[offset + 5..]));
            && ParseOp(d, offset) == (Complete, Copy(at, length), offset + 9)
            && (length > 0 ==> 0 <= at && at + length <= |origin|)
            && CopiesInside([Copy(at, length)], origin)
            && OpBytes(Copy(at, length), origin) == if length > 0 then origin[at..at + length] else []
  {
    hide FromBe32, ToInt32;
    var op := ParseOp(d, offset).1;
    assert [op][0] == op;
  }

  /** A literal is read from behind its tag and its length. */
  lemma LiteralOp(d: seq<byte>, offset: nat, origin: seq<byte>)
    requires Readable(d, offset, origin) && offset < |d| && d[offset] == NEW_TAG
    ensures offset + 5 <= |d|
    ensures var length := ToInt32(FromBe32(d[offset + 1..]));
            var end := offset + 5 + if length < 0 then 0 else length;
            && end <= |d| && ParseOp(d, offset) == (Complete, Literal(d[offset + 5..end]), end)
            && CopiesInside([Literal(d[offset + 5..end])], origin)
            && OpBytes(Literal(d[offset + 5..end]), origin)
               == if length > 0 then d[offset + 5..offset + 5 + length] else []
  {
    hide FromBe32, ToInt32;
  }

  lemma OtherTag(d: seq<byte>, offset: nat, origin: seq<byte>)
    requires Readable(d, offset, origin)
    ensures offset < |d|
    ensures d[offset] != OLD_TAG && d[offset] != NEW_TAG <==> !ParseOp(d, offset).0.Complete?
    ensures d[offset] != OLD_TAG && d[offset] != NEW_TAG <==> ParseOp(d, offset).0.BadTag?
  {
    hide FromBe32, ToInt32;
  }

  /** The fields of a copy, and the run of the old file. */
  method PatchCopy(p: Params, oldReader: FileMap, deltaReader: FileMap, writer: WriteFileMap, offset: nat)
    returns (end: nat)
    requires Reads(p, oldReader) && Reads(p, deltaReader) && writer.Valid() && writer.capacity == p.capacity
    requires oldReader != deltaReader && oldReader.data != deltaReader.data
    requires writer.buffer != oldReader.data && writer.buffer != deltaReader.data
    requires Readable(deltaReader.file, offset, oldReader.file)
    requires offset < |deltaReader.file| && deltaReader.file[offset] == OLD_TAG
    modifies oldReader, oldReader.data, deltaReader, deltaReader.data, writer, writer.buffer
    ensures Reads(p, oldReader) && Reads(p, deltaReader) && writer.Valid()
    ensures end == ParseOp(deltaReader.file, offset).2
    ensures writer.Appended() == old(writer.Appended()) + OpBytes(ParseOp(deltaReader.file, offset).1, oldReader.file)
  {
    hide Reads, WriteFileMap.Valid, WriteFileMap.Appended, FromBe32, ToInt32, ParseOp, OpBytes, Readable;
    CopyOp(deltaReader.file, offset, oldReader.file);
    var dataOffset := ReadWord(p, deltaReader, offset + 1);
    var dataLength := ReadWord(p, deltaReader, offset + 5);
    CopyRun(p, oldReader, writer, ToInt32(dataOffset), ToInt32(dataLength));
    end := offset + 9;
  }

  /** The length of a literal, and the run of the delta itself. */
  method PatchLiteral(p: Params, oldReader: FileMap, deltaReader: FileMap, writer: WriteFileMap, offset: nat)
    returns (end: nat)
    requires Reads(p, oldReader) && Reads(p, deltaReader) && writer.Valid() && writer.capacity == p.capacity
    requires oldReader != deltaReader && oldReader.data != deltaReader.data
    requires writer.buffer != oldReader.data && writer.buffer != deltaReader.data
    requires Readable(deltaReader.file, offset, oldReader.file)
    requires offset < |deltaReader.file| && deltaReader.file[offset] == NEW_TAG
    modifies deltaReader, deltaReader.data, writer, writer.buffer
    ensures Reads(p, oldReader) && Reads(p, deltaReader) && writer.Valid()
    ensures end == ParseOp(deltaReader.file, offset).2
    ensures writer.Appended() == old(writer.Appended()) + OpBytes(ParseOp(deltaReader.file, offset).1, oldReader.file)
  {
    hide Reads, WriteFileMap.Valid, WriteFileMap.Appended, FromBe32, ToInt32, ParseOp, OpBytes, Readable;
    LiteralOp(deltaReader.file, offset, oldReader.file);
    var dataLength := ReadWord(p, deltaReader, offset + 1);
    CopyRun(p, deltaReader, writer, offset + 5, ToInt32(dataLength));
    end := offset + 5 + if ToInt32(dataLength) < 0 then 0 else ToInt32(dataLength);
  }

  /** Reads one operation and appends what it stands for; `ok` is false on an unknown tag. */
  method PatchOp(p: Params, oldReader: FileMap, deltaReader: FileMap, writer: WriteFileMap, offset: nat)
    returns (ok: bool, end: nat)
    requires Reads(p, oldReader) && Reads(p, deltaReader) && writer.Valid() && writer.capacity == p.capacity
    requires oldReader != deltaReader && oldReader.data != deltaReader.data
    requires writer.buffer != oldReader.data && writer.buffer != deltaReader.data
    requires Readable(deltaReader.file, offset, oldReader.file)
    modifies oldReader, oldReader.data, deltaReader, deltaReader.data, writer, writer.buffer
    ensures Reads(p, oldReader) && Reads(p, deltaReader) && writer.Valid()
    ensures ok <==> ParseOp(deltaReader.file, offset).0.Complete?
    ensures ok ==> end == ParseOp(deltaReader.file, offset).2
    ensures writer.Appended() == old(writer.Appended())
              + if ok then OpBytes(ParseOp(deltaReader.file, offset).1, oldReader.file) else []
  {
    OtherTag(deltaReader.file, offset, oldReader.file);
    hide Reads, WriteFileMap.Valid, WriteFileMap.Appended, ParseOp, OpBytes;
    ok, end := true, offset;
    var tag := ReadRange(p, deltaReader, offset, 1);
    assert tag[0] == deltaReader.file[offset];
    if tag[0] == OLD_TAG {
      end := PatchCopy(p, oldReader, deltaReader, writer, offset);
    } else if tag[0] == NEW_TAG {
      end := PatchLiteral(p, oldReader, deltaReader, writer, offset);
    } else {
      ok := false;
    }
  }

  /** A delta whose announced operations can all be read, up to the first unknown tag. */
  ghost predicate WholeDelta(d: seq<byte>, origin: seq<byte>) {
    |d| >= 8 && !ParseDelta(d).status.Truncated? && CopiesInside(ParseDelta(d).ops, origin)
  }

  /** The first of `n` operations still to be read. */
  lemma ReadOne(d: seq<byte>, offset: nat, n: nat, origin: seq<byte>)
    requires n > 0 && !ParseOps(d, offset, n).status.Truncated? && CopiesInside(ParseOps(d, offset, n).ops, origin)
    ensures Readable(d, offset, origin)
    ensures var (status, op, end) := ParseOp(d, offset);
            if status.Complete? then
              var rest := ParseOps(d, end, n - 1);
              && CopiesInside(rest.ops, origin) && rest.status == ParseOps(d, offset, n).status
              && Meaning(ParseOps(d, offset, n).ops, origin) == OpBytes(op, origin) + Meaning(rest.ops, origin)
            else ParseOps(d, offset, n).status.BadTag? && Meaning(ParseOps(d, offset, n).ops, origin) == []
  {
    var (status, op, end) := ParseOp(d, offset);
    var whole := ParseOps(d, offset, n);
    if status.Complete? {
      var rest := ParseOps(d, end, n - 1);
      assert whole.ops[0] == op && whole.ops[1..] == rest.ops;
      assert forall i :: 0 <= i < |rest.ops| ==> rest.ops[i] == whole.ops[i + 1];
      assert forall i :: 0 <= i < |[op]| ==> [op][i] == whole.ops[i];
    }
  }

  /** What is appended and what `left` more operations will append. */
  ghost function Outcome(writer: WriteFileMap, d: seq<byte>, offset: nat, left: nat, origin: seq<byte>): seq<byte>
    requires writer.Valid() && CopiesInside(ParseOps(d, offset, left).ops, origin)
    reads writer, writer.buffer
  {
    writer.Appended() + Meaning(ParseOps(d, offset, left).ops, origin)
  }

  /** One turn of the loop: the outcome stays the same, whether it goes on or stops. */
  method PatchTurn(p: Params, oldReader: FileMap, deltaReader: FileMap, writer: WriteFileMap,
                   offset: nat, ghost left: nat)
    returns (ok: bool, end: nat)
    requires Reads(p, oldReader) && Reads(p, deltaReader) && writer.Valid() && writer.capacity == p.capacity
    requires oldReader != deltaReader && oldReader.data != deltaReader.data
    requires writer.buffer != oldReader.data && writer.buffer != deltaReader.data
    requires left > 0 && !ParseOps(deltaReader.file, offset, left).status.Truncated?
    requires CopiesInside(ParseOps(deltaReader.file, offset, left).ops, oldReader.file)
    modifies oldReader, oldReader.data, deltaReader, deltaReader.data, writer, writer.buffer
    ensures Reads(p, oldReader) && Reads(p, deltaReader) && writer.Valid()
    ensures !ok ==> ParseOps(deltaReader.file, offset, left).status.BadTag?
    ensures !ok ==> writer.Appended() == old(Outcome(writer, deltaReader.file, offset, left, oldReader.file))
    ensures ok ==> ParseOps(deltaReader.file, end, left - 1).status == ParseOps(deltaReader.file, offset, left).status
    ensures ok ==> CopiesInside(ParseOps(deltaReader.file, end, left - 1).ops, oldReader.file)
    ensures ok ==>
      Outcome(writer, deltaReader.file, end, left - 1, oldReader.file)
      == old(Outcome(writer, deltaReader.file, offset, left, oldReader.file))
  {
    ghost var d, origin := deltaReader.file, oldReader.file;
    ReadOne(d, offset, left, origin);
    ghost var before, op := writer.Appended(), ParseOp(d, offset);
    hide Reads, WriteFileMap.Valid, WriteFileMap.Appended, ParseOps, ParseOp, Meaning, OpBytes, Readable, CopiesInside;
    ok, end := PatchOp(p, oldReader, deltaReader, writer, offset);
    if ok {
      ConcatAssociative(before, OpBytes(op.1, origin), Meaning(ParseOps(d, end, left - 1).ops, origin));
    }
  }

  /** The loop over the announced operations, up to the first unknown tag; `n` is the count, or 0 for a negative one. */
  method PatchOps(p: Params, oldReader: FileMap, deltaReader: FileMap, writer: WriteFileMap,
                  start: nat, count: int, ghost n: nat)
    returns (ok: bool)
    requires Reads(p, oldReader) && Reads(p, deltaReader) && writer.Valid() && writer.capacity == p.capacity
    requires oldReader != deltaReader && oldReader.data != deltaReader.data
    requires writer.buffer != oldReader.data && writer.buffer != deltaReader.data
    requires n == if count < 0 then 0 else count
    requires !ParseOps(deltaReader.file, start, n).status.Truncated?
    requires CopiesInside(ParseOps(deltaReader.file, start, n).ops, oldReader.file)
    modifies oldReader, oldReader.data, deltaReader, deltaReader.data, writer, writer.buffer
    ensures writer.Valid()
    ensures ok <==> ParseOps(deltaReader.file, start, n).status.Complete?
    ensures writer.Appended() == old(Outcome(writer, deltaReader.file, start, n, oldReader.file))
  {
    hide *;
    ghost var d, origin, left := deltaReader.file, oldReader.file, n;
    ghost var status, goal := ParseOps(d, start, n).status, Outcome(writer, d, start, n, origin);
    ok := true;
    var offset, i := start, 0;
    while i < count
      invariant 0 <= i && left == n - i && (i <= n || count < 0)
      invariant Reads(p, oldReader) && Reads(p, deltaReader) && writer.Valid()
      invariant ParseOps(d, offset, left).status == status
      invariant CopiesInside(ParseOps(d, offset, left).ops, origin)
      invariant Outcome(writer, d, offset, left, origin) == goal
    {
      ok, offset := PatchTurn(p, oldReader, deltaReader, writer, offset, left);
      if !ok {
        return;
      }
      i, left := i + 1, left - 1;
    }
    NothingLeft(writer, d, offset, origin);
  }

  lemma NothingLeft(writer: WriteFileMap, d: seq<byte>, offset: nat, origin: seq<byte>)
    requires writer.Valid()
    ensures ParseOps(d, offset, 0).status.Complete? && CopiesInside(ParseOps(d, offset, 0).ops, origin)
    ensures Outcome(writer, d, offset, 0, origin) == writer.Appended()
  {
  }

  /**
   Applies a delta. An unknown tag stops it with what was appended so far; a
   wrong magic number stops it before the result is opened.
  */
  method PatchFile(p: Params, origin: seq<byte>, delta: seq<byte>, unsetOld: int32, unsetDelta: int32)
    returns (ok: bool, result: seq<byte>)
    requires p.Valid() && |origin| + p.window < TWO31 && |delta| + p.window < TWO31
    requires 0 <= unsetOld <= p.window && 0 <= unsetDelta <= p.window
    requires |delta| >= 4 && (FromBe32(delta) == DELTA_MAGIC ==> WholeDelta(delta, origin))
    ensures ok <==> FromBe32(delta) == DELTA_MAGIC && ParseDelta(delta).status.Complete?
    ensures result == if FromBe32(delta) == DELTA_MAGIC then Meaning(ParseDelta(delta).ops, origin) else []
  {
    assert delta[0..] == delta;
    hide ParseOps, Meaning, CopiesInside, FromBe32, FileMap.Valid, FileMap.View, Sits, WriteFileMap.Valid,
         WriteFileMap.Appended, Reads;
    var deltaReader := new FileMap(delta, p.window, unsetDelta);
    var oldReader := new FileMap(origin, p.window, unsetOld);
    var writer := new WriteFileMap(p.capacity);
    OpenReads(p, deltaReader);
    OpenReads(p, oldReader);
    var magic := ReadWord(p, deltaReader, 0);
    if magic != DELTA_MAGIC {
      return false, [];
    }
    var announced := ReadWord(p, deltaReader, 4);
    ok := PatchOps(p, oldReader, deltaReader, writer, 8, ToInt32(announced), OpCount(delta));
    result := writer.Close();
    assert [] + Meaning(ParseDelta(delta).ops, origin) == Meaning(ParseDelta(delta).ops, origin);
  }
}

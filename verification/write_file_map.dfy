/** A buffered writer that appends to a file. */
module WriteFileMaps {
  import opened Bytes

  class WriteFileMap {
    var offset: int
    var length: int
    const buffer: array<byte>
    const capacity: int
    /** The bytes `fwrite` has put into the file. */
    var file: seq<byte>

    ghost predicate Valid()
      reads this, buffer
    {
      buffer.Length == capacity && 0 <= length <= capacity && offset == |file|
    }

    /** Everything appended so far. */
    ghost function Appended(): seq<byte>
      requires Valid()
      reads this, buffer
    {
      file + buffer[..length]
    }

    constructor (bufferLength: nat)
      ensures Valid() && fresh(buffer) && capacity == bufferLength && Appended() == []
    {
      offset, length, file := 0, 0, [];
      capacity := bufferLength;
      buffer := new byte[bufferLength];
    }

    method Flush()
      requires Valid()
      modifies this
      ensures Valid() && Appended() == old(Appended()) == file && length == 0
    {
      file := file + buffer[..length];
      offset := offset + length;
      length := 0;
    }

    /** Beyond the capacity `memmove` would write outside the buffer. */
    method AppendData(bytes: seq<byte>)
      requires Valid() && |bytes| <= capacity
      modifies this, buffer
      ensures Valid() && Appended() == old(Appended()) + bytes
    {
      if capacity - length <= |bytes| {
        Flush();
      }
      ghost var before := Appended();
      ghost var kept := buffer[..length];
      forall i | 0 <= i < |bytes| {
        buffer[length + i] := bytes[i];
      }
      length := length + |bytes|;
      assert buffer[..length] == kept + bytes;
      assert Appended() == before + bytes;
    }

    /** The destructor: what is left in the buffer reaches the file. */
    method Close() returns (contents: seq<byte>)
      requires Valid()
      modifies this
      ensures Valid() && contents == old(Appended())
    {
      Flush();
      contents := file;
    }
  }
}

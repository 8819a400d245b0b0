/** A cursor over a byte buffer, and the metadata reply that server and client pass through it. */
module Packages {
  import opened Bytes

  /** The bytes in memory of a word on the little-endian host, and back. */
  function Host(v: uint32): (b: seq<byte>)
    ensures |b| == 4
  {
    [v % 0x100, v / 0x100 % 0x100, v / 0x1_0000 % 0x100, v / 0x100_0000]
  }

  function FromHost(b: seq<byte>): uint32
    requires |b| >= 4
  {
    (((b[3] as int) * 0x100 + b[2]) * 0x100 + b[1]) * 0x100 + b[0]
  }

  /** `htonl`, and `ntohl`: the word whose bytes in memory are the other way round. */
  function Swap(v: uint32): uint32 {
    FromHost(Be32(v))
  }

  lemma HostRoundTrip(v: uint32)
    ensures FromHost(Host(v)) == v
    ensures var b := Host(v); b[0] + b[1] * 0x100 + b[2] * 0x1_0000 + (b[3] as int) * 0x100_0000 == v
  {
    assert v / 0x100 / 0x100 == v / 0x1_0000 && v / 0x1_0000 / 0x100 == v / 0x100_0000;
  }

  lemma HostOfFromHost(b: seq<byte>)
    requires |b| == 4
    ensures Host(FromHost(b)) == b
  {
    var reversed: seq<byte> := [b[3], b[2], b[1], b[0]];
    Be32OfFromBe32(reversed);
    assert FromHost(b) == FromBe32(reversed);
    var net := Be32(FromHost(b));
    assert Host(FromHost(b)) == [net[3], net[2], net[1], net[0]];
  }

  /** A swapped word lies in memory most significant byte first, and swapping twice changes nothing. */
  lemma SwapIsNetworkOrder(v: uint32)
    ensures Host(Swap(v)) == Be32(v) && Swap(Swap(v)) == v
  {
    HostOfFromHost(Be32(v));
    var b := Be32(v);
    var s := Swap(v);
    assert Be32(s) == [b[3], b[2], b[1], b[0]] by {
      assert Host(s) == b;
      assert Be32(s) == [Host(s)[3], Host(s)[2], Host(s)[1], Host(s)[0]];
    }
    FromBe32OfBe32(v, []);
    assert Be32(v) + [] == Be32(v);
  }

  /** A word passed as an `int32_t` and back. */
  lemma SignedRoundTrip(v: uint32)
    ensures Wrap32(ToInt32(v)) == v
  {
  }

  class Package {
    var data: array<byte>
    var pointer: int
    var dataLength: int
    var leftLength: int

    ghost predicate Valid()
      reads this, data
    {
      0 <= pointer && 0 <= leftLength && pointer + leftLength == dataLength <= data.Length
    }

    /** Everything written or read so far. */
    ghost function Passed(): seq<byte>
      requires Valid()
      reads this, data
    {
      data[..pointer]
    }

    /** What is still to be read or overwritten. */
    ghost function Remaining(): (b: seq<byte>)
      requires Valid()
      reads this, data
      ensures |b| == leftLength
    {
      data[pointer..dataLength]
    }

    /** Over a buffer, at its start. */
    constructor (buffer: array<byte>, length: int)
      requires 0 <= length <= buffer.Length
      ensures Valid() && data == buffer && pointer == 0 && leftLength == length
    {
      data, pointer, dataLength, leftLength := buffer, 0, length, length;
    }

    /** Past the end nothing is read and the result is 0. */
    method GetUint32() returns (word: uint32)
      requires Valid()
      modifies `pointer, `leftLength
      ensures Valid()
      ensures old(leftLength) >= 4 ==> word == FromHost(old(Remaining())) && Remaining() == old(Remaining())[4..]
      ensures old(leftLength) < 4 ==> word == 0 && pointer == old(pointer)
    {
      if leftLength >= 4 {
        word := FromHost(data[pointer..pointer + 4]);
        assert data[pointer..pointer + 4] == Remaining()[..4];
        pointer := pointer + 4;
        leftLength := leftLength - 4;
        return word;
      }
      return 0;
    }

    method GetInt32() returns (word: int32)
      requires Valid()
      modifies `pointer, `leftLength
      ensures Valid()
      ensures old(leftLength) >= 4 ==>
        word == ToInt32(FromHost(old(Remaining()))) && Remaining() == old(Remaining())[4..]
      ensures old(leftLength) < 4 ==> word == 0 && pointer == old(pointer)
    {
      if leftLength >= 4 {
        word := ToInt32(FromHost(data[pointer..pointer + 4]));
        assert data[pointer..pointer + 4] == Remaining()[..4];
        pointer := pointer + 4;
        leftLength := leftLength - 4;
        return word;
      }
      return 0;
    }

    /** Past the end nothing is written. */
    method SetUint32(word: uint32)
      requires Valid()
      modifies `pointer, `leftLength, data
      ensures Valid()
      ensures old(leftLength) >= 4 ==>
        Passed() == old(Passed()) + Host(word) && leftLength == old(leftLength) - 4
      ensures old(leftLength) < 4 ==> Passed() == old(Passed()) && leftLength == old(leftLength)
    {
      if leftLength >= 4 {
        Put(Host(word));
      }
    }

    method SetInt32(word: int32)
      requires Valid()
      modifies `pointer, `leftLength, data
      ensures Valid()
      ensures old(leftLength) >= 4 ==>
        Passed() == old(Passed()) + Host(Wrap32(word)) && leftLength == old(leftLength) - 4
      ensures old(leftLength) < 4 ==> Passed() == old(Passed()) && leftLength == old(leftLength)
    {
      if leftLength >= 4 {
        Put(Host(Wrap32(word)));
      }
    }

    /** `memmove` to the cursor. */
    method Put(bytes: seq<byte>)
      requires Valid() && |bytes| <= leftLength
      modifies `pointer, `leftLength, data
      ensures Valid() && Passed() == old(Passed()) + bytes && leftLength == old(leftLength) - |bytes|
    {
      ghost var before := Passed();
      forall i | 0 <= i < |bytes| {
        data[pointer + i] := bytes[i];
      }
      pointer := pointer + |bytes|;
      leftLength := leftLength - |bytes|;
      assert Passed() == before + bytes;
    }

    /** NULL, here `ok == false`, when fewer bytes are left. */
    method GetString(length: nat) returns (ok: bool, bytes: seq<byte>)
      requires Valid()
      modifies `pointer, `leftLength
      ensures Valid() && (ok <==> old(leftLength) >= length)
      ensures ok ==> bytes == old(Remaining())[..length] && Remaining() == old(Remaining())[length..]
      ensures !ok ==> Remaining() == old(Remaining())
    {
      bytes := [];
      if leftLength < length {
        return false, bytes;
      }
      ghost var all := Remaining();
      for i := 0 to length
        invariant Valid() && leftLength == old(leftLength) && pointer == old(pointer)
        invariant bytes == all[..i]
      {
        bytes := bytes + [data[pointer + i]];
      }
      pointer := pointer + length;
      leftLength := leftLength - length;
      ok := true;
    }

    method SetString(bytes: seq<byte>)
      requires Valid()
      modifies `pointer, `leftLength, data
      ensures Valid()
      ensures |bytes| <= old(leftLength) ==>
        Passed() == old(Passed()) + bytes && leftLength == old(leftLength) - |bytes|
      ensures |bytes| > old(leftLength) ==> Passed() == old(Passed()) && leftLength == old(leftLength)
    {
      if |bytes| > leftLength {
        return;
      }
      Put(bytes);
    }
  }
}

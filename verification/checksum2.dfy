/** The rolling polynomial hash modulo 2^32 and the power table it removes bytes with. */
module PolyHashes {
  import opened Bytes

  const PRIME := 49667

  function Pow(n: nat): int {
    if n == 0 then 1 else Pow(n - 1) * PRIME
  }

  /** The polynomial with the bytes as coefficients, highest power first. */
  function Poly(w: seq<byte>): int {
    if w == [] then 0 else Poly(w[..|w| - 1]) * PRIME + w[|w| - 1]
  }

  function Hash(w: seq<byte>): uint32 {
    Wrap32(Poly(w))
  }

  lemma SnocPoly(w: seq<byte>, b: byte)
    ensures Poly(w + [b]) == Poly(w) * PRIME + b
  {
    assert (w + [b])[..|w|] == w;
  }

  /** One more byte, in 32-bit words. */
  lemma HashSnoc(w: seq<byte>, b: byte)
    ensures Hash(w + [b]) == Wrap32(Wrap32(Hash(w) * PRIME) + b)
    ensures Hash([b]) == b
  {
    SnocPoly(w, b);
    WrapTimesPrime(Poly(w), b);
    SnocPoly([], b);
    assert [] + [b] == [b];
  }

  lemma {:induction false} HeadPoly(w: seq<byte>)
    requires w != []
    ensures Poly(w) == w[0] * Pow(|w| - 1) + Poly(w[1..])
  {
    if |w| == 1 {
      assert Poly(w[..0]) == 0;
    } else {
      var v, b := w[..|w| - 1], w[|w| - 1];
      HeadPoly(v);
      assert v[1..] + [b] == w[1..];
      SnocPoly(v[1..], b);
      RaiseHead(w[0], Pow(|v| - 1));
    }
  }

  /** Sliding the window by one byte, over the integers. */
  lemma RollPoly(w: seq<byte>, next: byte)
    requires w != []
    ensures Poly(w[1..] + [next]) == Poly(w) * PRIME + next - w[0] * Pow(|w|)
  {
    HeadPoly(w);
    SnocPoly(w[1..], next);
    assert Pow(|w|) == Pow(|w| - 1) * PRIME;
    hide Poly, Pow;
    var head, tail := w[0] * Pow(|w| - 1), Poly(w[1..]);
    RaiseHead(w[0], Pow(|w| - 1));
    assert Poly(w) * PRIME == head * PRIME + tail * PRIME;
  }

  lemma RaiseHead(b: int, p: int)
    ensures b * (p * PRIME) == (b * p) * PRIME
  {
  }

  lemma WrapTimesPrime(a: int, b: int)
    ensures Wrap32(Wrap32(Wrap32(a) * PRIME) + b) == Wrap32(a * PRIME + b)
  {
  }

  /** A table entry is the byte times the power, whether wrapped before or after. */
  lemma WrapTimesByte(b: byte, p: int)
    ensures Wrap32(b * Wrap32(p)) == Wrap32(b * p)
  {
    var q, r := p / TWO32, p % TWO32;
    assert b * p == b * r + TWO32 * (b * q);
    AddMultiple32(b * r, b * q);
  }

  lemma AddMultiple32(a: int, k: int)
    ensures (a + TWO32 * k) % TWO32 == a % TWO32
  {
  }

  /** What the power table holds for a byte when it was built for windows of `built` bytes. */
  function TableEntry(b: byte, built: nat): uint32 {
    Wrap32(b * Wrap32(Pow(built)))
  }

  /** The update's 32-bit arithmetic. */
  function SlidHash(hash: uint32, next: byte, removed: uint32): uint32 {
    Wrap32(Wrap32(Wrap32(hash * PRIME) + next) - removed)
  }

  /** The exact contribution of the first byte of a window of `length` bytes, one step later. */
  function Share(b: byte, length: nat): int {
    b * Pow(length)
  }

  /** The update is the hash of the slid window exactly when the table removes the first byte's share. */
  lemma RollHash(w: seq<byte>, next: byte, built: nat)
    requires w != []
    ensures SlidHash(Hash(w), next, TableEntry(w[0], built)) == Hash(w[1..] + [next])
       <==> (Share(w[0], |w|) - Share(w[0], built)) % TWO32 == 0
  {
    RollPoly(w, next);
    WrapTimesByte(w[0], Pow(built));
    hide Poly, Pow;
    SlideWords(Poly(w), next, Share(w[0], built), Share(w[0], |w|));
  }

  lemma SlideWords(a: int, next: byte, b: int, c: int)
    ensures SlidHash(Wrap32(a), next, Wrap32(b)) == Wrap32(a * PRIME + next - c) <==> (c - b) % TWO32 == 0
  {
    WrapTimesPrime(a, next);
    hide Wrap32;
    SameResidue(a * PRIME + next, b, c);
  }

  lemma SameResidue(a: int, b: int, c: int)
    ensures Wrap32(Wrap32(a) - Wrap32(b)) == Wrap32(a - c) <==> (c - b) % TWO32 == 0
  {
    assert Wrap32(Wrap32(a) - Wrap32(b)) == Wrap32(a - b);
  }
}

module Checksum2s {
  import opened Bytes
  import opened PolyHashes
  import opened CircleQueues
  import opened WindowDiscipline

  class Checksum2 {
    const bufList: CircleQueue<byte>
    var powerMap: array?<uint32>
    var length: int
    var tmpSum: uint32
    /** The window length the power table was built for. */
    ghost var builtFor: nat

    ghost predicate Valid()
      reads this, bufList, bufList.data, powerMap
    {
      bufList.Valid() && Table()
    }

    /** The power table, once there is one. */
    ghost predicate Table()
      reads `powerMap, `builtFor, powerMap
    {
      powerMap != null ==>
        powerMap.Length == 256 && forall b: byte :: powerMap[b] == TableEntry(b, builtFor)
    }

    lemma TableAt(b: byte)
      requires Table() && powerMap != null
      ensures powerMap.Length == 256 && powerMap[b] == TableEntry(b, builtFor)
    {
    }

    /** After `Init`: the queue holds a window and no resize can meet it wrapped. */
    ghost predicate Rolling()
      reads this, bufList, bufList.data, powerMap
    {
      && Valid() && powerMap != null && 1 <= length == bufList.size
      && Disciplined(bufList.capacity, length, bufList.front)
    }

    ghost function Window(): (w: seq<byte>)
      requires Valid()
      reads this, bufList, bufList.data, powerMap
    {
      bufList.Contents()
    }

    /** Every byte the table would remove at this length is removed exactly. */
    ghost predicate Removes(b: byte)
      reads this
    {
      length >= 0 && (Share(b, length) - Share(b, builtFor)) % TWO32 == 0
    }

    constructor (queueSize: int)
      requires 0 <= queueSize
      ensures Valid() && powerMap == null
      ensures fresh(bufList) && fresh(bufList.data)
    {
      bufList := new CircleQueue(queueSize);
      powerMap, length, tmpSum, builtFor := null, 0, 0, 0;
    }

    method Sum1(buf: seq<byte>) returns (sum: uint32)
      requires |buf| >= 1
      ensures sum == Hash(buf)
    {
      hide Hash, Wrap32;
      sum := buf[0];
      HashSnoc([], buf[0]);
      assert buf[..1] == [buf[0]];
      for i := 1 to |buf|
        invariant sum == Hash(buf[..i])
      {
        HashSnoc(buf[..i], buf[i]);
        assert buf[..i] + [buf[i]] == buf[..i + 1];
        sum := Wrap32(sum * PRIME);
        sum := Wrap32(sum + buf[i]);
      }
      assert buf[..|buf|] == buf;
    }

    /** Builds the table on the first call only, whatever the length then is. */
    method BuildPowers()
      requires bufList.Valid() && powerMap == null && length >= 0
      modifies `powerMap, `builtFor
      ensures Table() && powerMap != null && fresh(powerMap) && builtFor == length
    {
      var powers := new uint32[256];
      var lengthPower: uint32 := 1;
      for i := 0 to length
        invariant lengthPower == Wrap32(Pow(i))
      {
        WrapTimesPrime(Pow(i), 0);
        lengthPower := Wrap32(lengthPower * PRIME);
      }
      for i := 0 to 256
        invariant forall b :: 0 <= b < i ==> powers[b] == Wrap32(b * lengthPower)
      {
        powers[i] := Wrap32(i * lengthPower);
      }
      powerMap := powers;
      builtFor := length;
    }

    /** The bytes into the cleared queue, and their hash along the way. */
    method Fill(buf: seq<byte>) returns (sum: uint32)
      requires bufList.Valid() && |buf| >= 1
      modifies bufList, bufList.data
      ensures bufList.Valid() && bufList.front == 0 && bufList.Contents() == buf && sum == Hash(buf)
      ensures bufList.data == old(bufList.data) || fresh(bufList.data)
    {
      hide Hash, Wrap32, CircleQueue<byte>.Contents;
      bufList.Clear();
      sum := buf[0];
      bufList.Push(buf[0]);
      HashSnoc([], buf[0]);
      assert buf[..1] == [buf[0]];
      for i := 1 to |buf|
        invariant bufList.Valid() && bufList.front == 0
        invariant bufList.Contents() == buf[..i] && sum == Hash(buf[..i])
        invariant bufList.data == old(bufList.data) || fresh(bufList.data)
      {
        HashSnoc(buf[..i], buf[i]);
        assert buf[..i] + [buf[i]] == buf[..i + 1];
        sum := Wrap32(sum * PRIME);
        bufList.Push(buf[i]);
        sum := Wrap32(sum + buf[i]);
      }
      assert buf[..|buf|] == buf;
    }

    method Init(buf: seq<byte>)
      requires Valid() && |buf| >= 1
      modifies this, bufList, bufList.data
      ensures Rolling() && Window() == buf && tmpSum == Hash(buf) && length == |buf|
      ensures builtFor == if old(powerMap) == null then |buf| else old(builtFor)
      ensures old(powerMap) != null ==> powerMap == old(powerMap)
      ensures powerMap == old(powerMap) || fresh(powerMap)
      ensures bufList.data == old(bufList.data) || fresh(bufList.data)
    {
      hide Hash, Table, CircleQueue<byte>.Contents;
      length := |buf|;
      if powerMap == null {
        BuildPowers();
      }
      tmpSum := Fill(buf);
    }

    /** Slides the window; the hash follows it exactly when the table fits this length. */
    method Update(next: byte) returns (sum: uint32)
      requires Rolling() && tmpSum == Hash(Window())
      modifies this, bufList, bufList.data
      ensures Rolling() && Window() == old(Window())[1..] + [next]
      ensures length == old(length) && builtFor == old(builtFor) && powerMap == old(powerMap)
      ensures sum == tmpSum
      ensures sum == Hash(Window()) <==> Removes(old(Window())[0])
      ensures builtFor == length ==> sum == Hash(Window())
      ensures bufList.data == old(bufList.data) || fresh(bufList.data)
    {
      hide Hash, Wrap32, Table, TableEntry, Share, CircleQueue<byte>.Contents, Grown, Shrunk, ShrinkDue, Disciplined;
      ghost var w := Window();
      TableAt(w[0]);
      RollHash(w, next, builtFor);
      DisciplineKept(bufList.capacity, length, bufList.front);
      bufList.Push(next);
      tmpSum := Wrap32(tmpSum * PRIME);
      tmpSum := Wrap32(tmpSum + next);
      tmpSum := Wrap32(tmpSum - powerMap[bufList.Front()]);
      bufList.Pop();
      assert (w + [next])[1..] == w[1..] + [next];
      assert bufList.capacity == NextCapacity(old(bufList.capacity), length);
      sum := tmpSum;
    }
  }

  lemma SecondPower()
    ensures (Share(1, 1) - Share(1, 2)) % TWO32 != 0
  {
    assert Pow(1) == PRIME && Pow(2) == PRIME * PRIME;
  }

  /** One object, a window of two bytes and then a window of one: the table is stale and the update wrong. */
  method StaleTable(queueSize: nat) returns (c: Checksum2, sum: uint32)
    ensures fresh(c) && c.Rolling() && c.length == 1 && c.builtFor == 2
    ensures sum == c.tmpSum != Hash(c.Window())
  {
    c := new Checksum2(queueSize);
    c.Init([1, 1]);
    c.Init([1]);
    SecondPower();
    sum := c.Update(0);
  }
}

/** The rolling Adler-style checksum: its mathematical sums, and the class that maintains it. */
module WeakSums {
  import opened Bytes

  /** Sum of the bytes, each raised by the character offset. */
  function S1(w: seq<byte>, off: int): int {
    if w == [] then 0 else S1(w[..|w| - 1], off) + w[|w| - 1] + off
  }

  /** Sum of the running values of `S1`, one byte at a time. */
  function S2(w: seq<byte>, off: int): int {
    if w == [] then 0 else S2(w[..|w| - 1], off) + S1(w, off)
  }

  /** Each raised byte weighted by its distance from the end. */
  function Weighted(w: seq<byte>, off: int): int {
    if w == [] then 0 else |w| * (w[0] + off) + Weighted(w[1..], off)
  }

  /** The 32-bit checksum: the low 16 bits of each sum. */
  function Weak(w: seq<byte>, off: int): uint32 {
    S1(w, off) % TWO16 + S2(w, off) % TWO16 * TWO16
  }

  lemma SnocSums(w: seq<byte>, b: byte, off: int)
    ensures S1(w + [b], off) == S1(w, off) + b + off
    ensures S2(w + [b], off) == S2(w, off) + S1(w, off) + b + off
  {
    assert (w + [b])[..|w|] == w;
  }

  lemma {:induction false} HeadSums(w: seq<byte>, off: int)
    requires w != []
    ensures S1(w, off) == w[0] + off + S1(w[1..], off)
    ensures S2(w, off) == |w| * (w[0] + off) + S2(w[1..], off)
  {
    if |w| == 1 {
      assert w[..0] == [];
    } else {
      var v, b := w[..|w| - 1], w[|w| - 1];
      HeadSums(v, off);
      assert v[1..] + [b] == w[1..];
      SnocSums(v[1..], b, off);
      assert (|v| + 1) * (w[0] + off) == |v| * (w[0] + off) + (w[0] + off);
    }
  }

  /** The running sum of `Sum1` is the sum weighted by distance from the end. */
  lemma {:induction false} S2IsWeighted(w: seq<byte>, off: int)
    ensures S2(w, off) == Weighted(w, off)
  {
    if w != [] {
      HeadSums(w, off);
      S2IsWeighted(w[1..], off);
    }
  }

  /** A word with the low 16 bits of two sums in its halves. */
  predicate Halves(word: uint32, low: int, high: int) {
    word % 0x1_0000 == low % 0x1_0000 && word / 0x1_0000 == high % 0x1_0000
  }

  /** What the checksum is, without reference to how it is computed or packed. */
  lemma WeakHalves(w: seq<byte>, off: int)
    ensures Halves(Weak(w, off), S1(w, off), Weighted(w, off))
  {
    S2IsWeighted(w, off);
  }

  /** Four bytes at a time: the step of the unrolled loop. */
  lemma UnrolledStep(w: seq<byte>, a: byte, b: byte, c: byte, d: byte, off: int)
    ensures S1(w + [a, b, c, d], off) == S1(w, off) + a + b + c + d + 4 * off
    ensures S2(w + [a, b, c, d], off)
         == S2(w, off) + 4 * (S1(w, off) + a) + 3 * b + 2 * c + d + 10 * off
  {
    SnocSums(w, a, off);
    SnocSums(w + [a], b, off);
    SnocSums(w + [a] + [b], c, off);
    SnocSums(w + [a] + [b] + [c], d, off);
    assert w + [a] + [b] + [c] + [d] == w + [a, b, c, d];
  }

  /** Sliding the window by one byte, over the integers. */
  lemma RollSums(w: seq<byte>, next: byte, off: int)
    requires w != []
    ensures S1(w[1..] + [next], off) == S1(w, off) + (next + off) - (w[0] + off)
    ensures S2(w[1..] + [next], off)
         == S2(w, off) + S1(w[1..] + [next], off) - |w| * (w[0] + off)
  {
    HeadSums(w, off);
    SnocSums(w[1..], next, off);
  }

  /** `(s1 & 0xffff) + (s2 << 16)` on 32-bit words. */
  function Pack(s1: uint32, s2: uint32): uint32 {
    Wrap32(s1 % TWO16 + Wrap32(s2 * TWO16))
  }

  lemma PackWrapped(a: int, b: int)
    ensures Pack(Wrap32(a), Wrap32(b)) == a % TWO16 + b % TWO16 * TWO16
  {
    ShiftDropsHighHalf(b);
    assert Wrap32(a) % TWO16 == a % TWO16;
  }

  lemma WrapIdle(u: uint32)
    ensures Wrap32(u) == u
  {
  }

  lemma ShiftDropsHighHalf(b: int)
    ensures Wrap32(Wrap32(b) * TWO16) == b % TWO16 * TWO16
  {
  }

  lemma WrapAdd(a: int, x: int)
    ensures Wrap32(Wrap32(a) + x) == Wrap32(a + x)
  {
  }

  lemma WrapAddQuadruple(a: int, b: int, x: int)
    ensures Wrap32(Wrap32(a) + 4 * Wrap32(b) + x) == Wrap32(a + 4 * b + x)
  {
    SplitWord(a);
    SplitWord(b);
    AddWords(a + 4 * b + x, -(a / TWO32) - 4 * (b / TWO32));
  }

  lemma SplitWord(a: int)
    ensures Wrap32(a) == a - TWO32 * (a / TWO32)
  {
  }

  lemma AddWords(a: int, k: int)
    ensures Wrap32(a + TWO32 * k) == Wrap32(a)
  {
  }

  lemma NoSums(off: int)
    ensures Wrap32(S1([], off)) == 0 && Wrap32(S2([], off)) == 0
  {
  }

  /** One round of the unrolled loop, in 32-bit words. */
  lemma UnrolledWords(w: seq<byte>, s1: uint32, s2: uint32, a: byte, b: byte, c: byte, d: byte, off: int)
    requires s1 == Wrap32(S1(w, off)) && s2 == Wrap32(S2(w, off))
    ensures Wrap32(s2 + 4 * (s1 + a) + 3 * b + 2 * c + d + 10 * off) == Wrap32(S2(w + [a, b, c, d], off))
    ensures Wrap32(s1 + (a + b + c + d + 4 * off)) == Wrap32(S1(w + [a, b, c, d], off))
  {
    UnrolledStep(w, a, b, c, d, off);
    WrapAddQuadruple(S2(w, off), S1(w, off), 4 * a + 3 * b + 2 * c + d + 10 * off);
    WrapAdd(S1(w, off), a + b + c + d + 4 * off);
  }

  /** One round of the byte-wise loop, in 32-bit words. */
  lemma SingleWords(w: seq<byte>, s1: uint32, s2: uint32, b: byte, off: int)
    requires s1 == Wrap32(S1(w, off)) && s2 == Wrap32(S2(w, off))
    ensures Wrap32(s1 + (b + off)) == Wrap32(S1(w + [b], off))
    ensures Wrap32(s2 + Wrap32(s1 + (b + off))) == Wrap32(S2(w + [b], off))
  {
    SnocSums(w, b, off);
    WrapAdd(S1(w, off), b + off);
    WrapAddTwo(S2(w, off), S1(w + [b], off));
  }

  lemma WrapAddTwo(a: int, b: int)
    ensures Wrap32(Wrap32(a) + Wrap32(b)) == Wrap32(a + b)
  {
  }

  /** The 32-bit arithmetic of one update: the byte `last` leaves the window, `next` enters it. */
  function Rolled(sum: uint32, length: nat, last: byte, next: byte, off: int): uint32 {
    Adjusted(sum, next + off, last + off, length % TWO16 * (last + off))
  }

  /** Adds `gain` to the low sum, then the low sum to the high one, and takes off what left. */
  function Adjusted(sum: uint32, gain: int, loss: int, weightedLoss: int): uint32 {
    var s1 := Wrap32(Wrap32(sum % TWO16 + gain) - loss);
    var s2 := Wrap32(Wrap32(sum / TWO16 + s1) - weightedLoss);
    Pack(s1, s2)
  }

  /** It computes the checksum of the slid window. */
  lemma RolledIsWeak(w: seq<byte>, next: byte, off: int)
    requires w != []
    ensures Rolled(Weak(w, off), |w|, w[0], next, off) == Weak(w[1..] + [next], off)
  {
    hide Adjusted, S1, S2;
    RollSums(w, next, off);
    var x := w[0] + off;
    MaskedProduct(|w|, x);
    RollPair(S1(w, off), S2(w, off), next + off, x, |w| % TWO16 * x, |w| * x);
  }

  lemma RollPair(a1: int, a2: int, n: int, x: int, p: int, q: int)
    requires p % TWO16 == q % TWO16
    ensures Adjusted(a1 % TWO16 + a2 % TWO16 * TWO16, n, x, p)
         == (a1 + n - x) % TWO16 + (a2 + (a1 + n - x) - q) % TWO16 * TWO16
  {
    hide Wrap32, Pack;
    var sum := a1 % TWO16 + a2 % TWO16 * TWO16;
    assert sum % TWO16 == a1 % TWO16 && sum / TWO16 == a2 % TWO16;
    var s1 := Wrap32(Wrap32(sum % TWO16 + n) - x);
    LowHalf(a1, n, x);
    var s2 := Wrap32(Wrap32(sum / TWO16 + s1) - p);
    LowSums(sum / TWO16, a2, s1, a1 + n - x, p, q);
    WrapIdle(s1);
    WrapIdle(s2);
    PackWrapped(s1, s2);
  }

  /** Sums and differences of words agree with the exact ones in their low 16 bits. */
  lemma LowHalf(a: int, b: int, c: int)
    ensures Wrap32(Wrap32(a % TWO16 + b) - c) % TWO16 == (a + b - c) % TWO16
  {
  }

  lemma LowSums(a: int, a': int, b: int, b': int, c: int, c': int)
    requires a % TWO16 == a' % TWO16 && b % TWO16 == b' % TWO16 && c % TWO16 == c' % TWO16
    ensures Wrap32(Wrap32(a + b) - c) % TWO16 == (a' + b' - c') % TWO16
  {
    SplitWord(a + b);
    SplitWord(Wrap32(a + b) - c);
    var k := -TWO16 * ((a + b) / TWO32) - TWO16 * ((Wrap32(a + b) - c) / TWO32);
    assert Wrap32(Wrap32(a + b) - c) == a + b - c + TWO16 * k;
    AddMultiple(a + b - c, k);
    SplitHalf(a, a');
    SplitHalf(b, b');
    SplitHalf(c, c');
    AddMultiple(a' + b' - c', a / TWO16 - a' / TWO16 + b / TWO16 - b' / TWO16 - c / TWO16 + c' / TWO16);
  }

  lemma SplitHalf(a: int, a': int)
    requires a % TWO16 == a' % TWO16
    ensures a == a' + TWO16 * (a / TWO16 - a' / TWO16)
  {
  }

  /** Masking one factor to 16 bits does not change a product's low 16 bits. */
  lemma MaskedProduct(length: nat, x: int)
    ensures (length % TWO16 * x) % TWO16 == (length * x) % TWO16
  {
    var q, r := length / TWO16, length % TWO16;
    assert length * x == r * x + TWO16 * (q * x);
    AddMultiple(r * x, q * x);
  }

  lemma AddMultiple(a: int, k: int)
    ensures (a + TWO16 * k) % TWO16 == a % TWO16
  {
  }
}

module Checksum3s {
  import opened Bytes
  import opened WeakSums
  import opened CircleQueues
  import opened WindowDiscipline

  class Checksum3 {
    const charOffset: int
    const bufList: CircleQueue<byte>
    var length: int
    var tmpSum: uint32

    /** The queue can be cleared and filled. */
    ghost predicate Valid()
      reads this, bufList, bufList.data
    {
      bufList.Valid()
    }

    /** After `Init`: the queue is the window, `tmpSum` is its checksum, and no resize can meet a wrapped queue. */
    ghost predicate Rolling()
      reads this, bufList, bufList.data
      ensures Rolling() ==> Valid() && Window() != [] && tmpSum == Weak(Window(), charOffset)
    {
      && Valid() && 1 <= length == bufList.size
      && tmpSum == Weak(Window(), charOffset)
      && Disciplined(bufList.capacity, length, bufList.front)
    }

    ghost function Window(): (w: seq<byte>)
      requires Valid()
      reads this, bufList, bufList.data
    {
      bufList.Contents()
    }

    constructor (off: int, queueSize: int)
      requires 0 <= queueSize
      ensures Valid() && charOffset == off && Window() == []
      ensures fresh(bufList) && fresh(bufList.data)
    {
      charOffset := off;
      bufList := new CircleQueue(queueSize);
      length := 0;
      tmpSum := 0;
    }

    /** The checksum of `buf`, four bytes per round and the last one to four singly, in 32-bit arithmetic. */
    method Sum1(buf: seq<byte>) returns (sum: uint32)
      ensures sum == Weak(buf, charOffset)
      ensures Halves(sum, S1(buf, charOffset), Weighted(buf, charOffset))
    {
      WeakHalves(buf, charOffset);
      hide Wrap32, Pack, S1, S2, Weighted, Halves;
      var s1: uint32, s2: uint32 := 0, 0;
      var i := 0;
      NoSums(charOffset);
      assert buf[..0] == [];
      while i < |buf| - 4
        invariant 0 <= i <= |buf|
        invariant s1 == Wrap32(S1(buf[..i], charOffset))
        invariant s2 == Wrap32(S2(buf[..i], charOffset))
        decreases |buf| - i
      {
        UnrolledWords(buf[..i], s1, s2, buf[i], buf[i + 1], buf[i + 2], buf[i + 3], charOffset);
        assert buf[..i] + [buf[i], buf[i + 1], buf[i + 2], buf[i + 3]] == buf[..i + 4];
        s2 := Wrap32(s2 + 4 * (s1 + buf[i]) + 3 * (buf[i + 1] as int) + 2 * (buf[i + 2] as int) + buf[i + 3]
                     + 10 * charOffset);
        s1 := Wrap32(s1 + (buf[i] + buf[i + 1] + buf[i + 2] + buf[i + 3] + 4 * charOffset));
        i := i + 4;
      }
      while i < |buf|
        invariant 0 <= i <= |buf|
        invariant s1 == Wrap32(S1(buf[..i], charOffset))
        invariant s2 == Wrap32(S2(buf[..i], charOffset))
      {
        SingleWords(buf[..i], s1, s2, buf[i], charOffset);
        assert buf[..i] + [buf[i]] == buf[..i + 1];
        s1 := Wrap32(s1 + (buf[i] + charOffset));
        s2 := Wrap32(s2 + s1);
        i := i + 1;
      }
      assert buf[..|buf|] == buf;
      PackWrapped(S1(buf, charOffset), S2(buf, charOffset));
      sum := Pack(s1, s2);
    }

    method Init(buf: seq<byte>)
      requires Valid() && |buf| >= 1
      modifies this, bufList, bufList.data
      ensures Rolling() && Window() == buf
      ensures bufList.data == old(bufList.data) || fresh(bufList.data)
    {
      hide Weak, Halves, S1, Weighted, CircleQueue<byte>.Contents;
      length := |buf|;
      bufList.Clear();
      bufList.Push(buf[0]);
      for i := 1 to length
        invariant bufList.Valid() && bufList.front == 0
        invariant bufList.Contents() == buf[..i] && length == |buf|
        invariant bufList.data == old(bufList.data) || fresh(bufList.data)
      {
        bufList.Push(buf[i]);
      }
      assert buf[..|buf|] == buf;
      tmpSum := Sum1(buf);
    }

    /** Slides the window by one byte. */
    method Update(next: byte) returns (sum: uint32)
      requires Rolling()
      modifies this, bufList, bufList.data
      ensures Rolling() && Window() == old(Window())[1..] + [next] && length == old(length)
      ensures sum == tmpSum
      ensures bufList.capacity == NextCapacity(old(bufList.capacity), length)
      ensures bufList.data == old(bufList.data) || fresh(bufList.data)
    {
      hide Rolled, Weak, Disciplined, CircleQueue<byte>.Contents;
      DisciplineKept(bufList.capacity, length, bufList.front);
      ghost var w := Window();
      RolledIsWeak(w, next, charOffset);
      bufList.Push(next);
      tmpSum := Rolled(tmpSum, length, bufList.Front(), next, charOffset);
      bufList.Pop();
      assert (w + [next])[1..] == w[1..] + [next];
      assert bufList.capacity == NextCapacity(old(bufList.capacity), length);
      sum := tmpSum;
    }

    /** The bytes `StrongSum(NULL)` digests: the window, and none before the first `Init`. */
    method WindowBytes() returns (bytes: seq<byte>)
      requires Valid()
      modifies bufList
      ensures Valid() && Window() == old(Window()) == bytes && fresh(bufList.data)
      ensures old(Rolling()) ==> Rolling()
      ensures bufList.capacity == old(bufList.capacity)
    {
      var d := bufList.GetData();
      bytes := d[..bufList.size];
    }
  }
}

/** Bytes, 32-bit words and their big-endian form in files and frames. */
module Bytes {

  const TWO16 := 0x1_0000
  const TWO31 := 0x8000_0000
  const TWO32 := 0x1_0000_0000

  type byte = x: int | 0 <= x < 256
  type uint32 = x: int | 0 <= x < 0x1_0000_0000

  type int32 = x: int | -0x8000_0000 <= x < 0x8000_0000

  /** The value a `uint32_t` keeps of an exact result. */
  function Wrap32(x: int): uint32 {
    x % TWO32
  }

  /** The cast from `uint32_t` to `int32_t`. */
  function ToInt32(u: uint32): int32 {
    if u < TWO31 then u else u - TWO32
  }

  /** The division and remainder of C, which round toward zero. */
  function CDiv(a: int, b: int): int
    requires b > 0
  {
    if a >= 0 then a / b else -(-a / b)
  }

  function CRem(a: int, b: int): int
    requires b > 0
  {
    a - CDiv(a, b) * b
  }

  lemma DivRemainder(n: nat, d: int)
    requires d >= 1
    ensures 0 <= n / d && 0 <= n % d < d && n == n / d * d + n % d && 0 <= n / d * d <= n
  {
  }

  function Min(a: int, b: int): int {
    if a < b then a else b
  }

  /** The four bytes in memory of `htonl(v)`: most significant first. */
  function Be32(v: uint32): (b: seq<byte>)
    ensures |b| == 4
  {
    [v / 0x100_0000, v / 0x1_0000 % 0x100, v / 0x100 % 0x100, v % 0x100]
  }

  /** `ntohl` of the word whose bytes in memory start `b`. */
  function FromBe32(b: seq<byte>): uint32
    requires |b| >= 4
  {
    (((b[0] as int) * 0x100 + b[1]) * 0x100 + b[2]) * 0x100 + b[3]
  }

  /** What the four bytes are, without reference to reading them. */
  lemma BigEndian(v: uint32)
    ensures var b := Be32(v); (b[0] as int) * 0x100_0000 + (b[1] as int) * 0x1_0000 + (b[2] as int) * 0x100 + b[3] == v
  {
    Shifts(v);
  }

  lemma FromBe32OfBe32(v: uint32, rest: seq<byte>)
    ensures FromBe32(Be32(v) + rest) == v
  {
    Shifts(v);
  }

  lemma ConcatAssociative<T>(a: seq<T>, b: seq<T>, c: seq<T>)
    ensures (a + b) + c == a + (b + c)
  {
  }

  lemma DropFront<T>(a: seq<T>, b: seq<T>, n: nat)
    requires n == |a|
    ensures (a + b)[n..] == b
  {
  }

  lemma SplitLast<T>(s: seq<T>)
    requires s != []
    ensures s[..|s| - 1] + [s[|s| - 1]] == s && s[..|s|] == s
  {
  }

  lemma Parts<T>(a: seq<T>, b: seq<T>, c: seq<T>, d: seq<T>, e: seq<T>)
    ensures a + b + c + d + e == [] + (a + (b + c + d + e)) && a + b + c + d + e == a + (b + c + d + e)
    ensures a + b + c + d + e == a + (b + (c + d + e)) && a + b + c + d + e == (a + b) + (c + (d + e))
    ensures a + b + c + d + e == (a + b + c) + (d + e)
  {
  }

  /** The word written after `pre` is read back at its position. */
  lemma WordAt(file: seq<byte>, pre: seq<byte>, v: uint32, post: seq<byte>)
    requires file == pre + (Be32(v) + post)
    ensures |file| >= |pre| + 4 && FromBe32(file[|pre|..]) == v
    ensures file[|pre| + 4..] == post
  {
    assert file[|pre|..] == Be32(v) + post;
    FromBe32OfBe32(v, post);
  }

  lemma Digit(q: nat, r: byte)
    ensures (q * 0x100 + r) / 0x100 == q && (q * 0x100 + r) % 0x100 == r
  {
  }

  lemma Shifts(v: nat)
    ensures v / 0x100 / 0x100 == v / 0x1_0000 && v / 0x1_0000 / 0x100 == v / 0x100_0000
  {
  }

  lemma Be32OfFromBe32(b: seq<byte>)
    requires |b| == 4
    ensures Be32(FromBe32(b)) == b
  {
    var one: nat := b[0];
    var two := one * 0x100 + b[1];
    var three := two * 0x100 + b[2];
    Digit(one, b[1]);
    Digit(two, b[2]);
    Digit(three, b[3]);
    Shifts(three * 0x100 + b[3]);
  }
}

/** Length-prefixed frames: what the sender writes, and how the receiver cuts the stream again. */
module Frames {
  import opened Bytes

  datatype Packet = Packet(head: seq<byte>, data: seq<byte>)

  const HEAD: uint32 := 1

  /** The length field: both inner length words, the head and the data. */
  function TotalLength(pk: Packet): nat {
    8 + |pk.head| + |pk.data|
  }

  /** One packet on the wire. */
  function Frame(pk: Packet): (b: seq<byte>)
    requires TotalLength(pk) < TWO31
    ensures |b| == TotalLength(pk) + 8
  {
    Be32(HEAD) + Be32(TotalLength(pk)) + Be32(|pk.head|) + pk.head + Be32(|pk.data|) + pk.data
  }

  ghost predicate Sendable(packets: seq<Packet>) {
    forall i :: 0 <= i < |packets| ==> TotalLength(packets[i]) < TWO31
  }

  /** Packets whose frames fit the receive buffer. */
  ghost predicate Fit(packets: seq<Packet>, limit: int) {
    limit < TWO31 && forall i :: 0 <= i < |packets| ==> TotalLength(packets[i]) + 8 <= limit
  }

  ghost function Stream(packets: seq<Packet>): seq<byte>
    requires Sendable(packets)
  {
    if packets == [] then [] else Frame(packets[0]) + Stream(packets[1..])
  }

  /** The frame length fields read from a buffer, as `int32_t`. */
  function TotalOf(b: seq<byte>): int32
    requires |b| >= 8
  {
    ToInt32(FromBe32(b[4..]))
  }

  /** Whether the inner lengths of the complete frame that starts `b` stay inside it. */
  predicate InnerSound(b: seq<byte>) {
    |b| >= 16 && TotalOf(b) >= 8 && TotalOf(b) + 8 <= |b|
    && (var headLength := ToInt32(FromBe32(b[8..]));
        0 <= headLength <= TotalOf(b) - 8
        && (var dataLength := ToInt32(FromBe32(b[12 + headLength..]));
            0 <= dataLength <= TotalOf(b) - 8 - headLength))
  }

  function PacketOf(b: seq<byte>): Packet
    requires InnerSound(b)
  {
    var headLength := ToInt32(FromBe32(b[8..]));
    var dataLength := ToInt32(FromBe32(b[12 + headLength..]));
    Packet(b[12..12 + headLength], b[16 + headLength..16 + headLength + dataLength])
  }

  /** What follows the frame that starts `b`. */
  function AfterFrame(b: seq<byte>): (rest: seq<byte>)
    requires InnerSound(b)
    ensures |rest| < |b|
  {
    b[TotalOf(b) + 8..]
  }

  /** How the receiver goes on with a buffer. */
  datatype Verdict = Wait | Drop | Deliver

  function VerdictOn(b: seq<byte>, limit: int): Verdict {
    if |b| < 8 then Wait
    else if ToInt32(FromBe32(b)) != 1 || TotalOf(b) >= limit then Drop
    else if TotalOf(b) > |b| - 8 then Wait
    else Deliver
  }

  /** No complete frame in the buffer has inner lengths that leave it. */
  predicate WellCut(b: seq<byte>, limit: int)
    decreases |b|
  {
    VerdictOn(b, limit).Deliver? ==> InnerSound(b) && WellCut(AfterFrame(b), limit)
  }

  datatype Cutting = Cutting(packets: seq<Packet>, rest: seq<byte>)

  /** All whole frames at the start of a buffer, and what is left of it. */
  function Cut(b: seq<byte>, limit: int): Cutting
    requires WellCut(b, limit)
    decreases |b|
  {
    match VerdictOn(b, limit)
    case Wait => Cutting([], b)
    case Drop => Cutting([], [])
    case Deliver =>
      var more := Cut(AfterFrame(b), limit);
      Cutting([PacketOf(b)] + more.packets, more.rest)
  }

  /** One step of the cutting. */
  lemma CutStep(b: seq<byte>, limit: int)
    requires WellCut(b, limit)
    ensures match VerdictOn(b, limit)
      case Wait => Cut(b, limit) == Cutting([], b)
      case Drop => Cut(b, limit) == Cutting([], [])
      case Deliver =>
        && InnerSound(b) && WellCut(AfterFrame(b), limit)
        && Cut(b, limit) == Cutting([PacketOf(b)] + Cut(AfterFrame(b), limit).packets, Cut(AfterFrame(b), limit).rest)
  {
  }

  lemma CutWait(b: seq<byte>, limit: int)
    requires VerdictOn(b, limit).Wait?
    ensures WellCut(b, limit) && Cut(b, limit) == Cutting([], b)
  {
  }

  lemma CutDeliver(b: seq<byte>, limit: int, rest: seq<byte>)
    requires VerdictOn(b, limit).Deliver? && InnerSound(b) && rest == AfterFrame(b) && WellCut(rest, limit)
    ensures WellCut(b, limit)
    ensures Cut(b, limit) == Cutting([PacketOf(b)] + Cut(rest, limit).packets, Cut(rest, limit).rest)
  {
  }

  /** How many packets of a stream have all their bytes in its prefix `b`. */
  ghost function Whole(packets: seq<Packet>, b: seq<byte>): (n: nat)
    requires Sendable(packets)
    ensures n <= |packets|
    decreases |packets|
  {
    if packets == [] || |b| < |Frame(packets[0])| then 0
    else 1 + Whole(packets[1..], b[|Frame(packets[0])|..])
  }

  /** The bytes of `b` after those packets. */
  ghost function Left(packets: seq<Packet>, b: seq<byte>): (left: seq<byte>)
    requires Sendable(packets)
    ensures |left| <= |b|
    decreases |packets|
  {
    if packets == [] || |b| < |Frame(packets[0])| then b
    else Left(packets[1..], b[|Frame(packets[0])|..])
  }

  lemma HeadWords(pk: Packet, b: seq<byte>)
    requires TotalLength(pk) < TWO31 && 8 <= |b|
    requires b <= Frame(pk) || Frame(pk) <= b
    ensures ToInt32(FromBe32(b)) == 1 && TotalOf(b) == TotalLength(pk)
  {
    hide Be32, FromBe32;
    var tail := Be32(|pk.head|) + pk.head + Be32(|pk.data|) + pk.data;
    var magic, total := Be32(HEAD), Be32(TotalLength(pk));
    assert Frame(pk) == [] + (magic + (total + tail)) && Frame(pk) == magic + (total + tail);
    WordAt(Frame(pk), [], HEAD, total + tail);
    WordAt(Frame(pk), magic, TotalLength(pk), tail);
    assert Frame(pk)[0..] == Frame(pk);
    SameWord(b, Frame(pk), 0);
    SameWord(b, Frame(pk), 4);
    assert b[0..] == b;
  }

  lemma SameWord(a: seq<byte>, b: seq<byte>, at: nat)
    requires (a <= b || b <= a) && at + 4 <= |a| && at + 4 <= |b|
    ensures FromBe32(a[at..]) == FromBe32(b[at..])
  {
    assert forall i :: 0 <= i < 4 ==> a[at..][i] == b[at..][i];
  }

  /** The inner length words of a frame. */
  lemma InnerWords(pk: Packet)
    requires TotalLength(pk) < TWO31
    ensures FromBe32(Frame(pk)[8..]) == |pk.head| && FromBe32(Frame(pk)[12 + |pk.head|..]) == |pk.data|
  {
    hide Be32, FromBe32;
    var pre := Be32(HEAD) + Be32(TotalLength(pk));
    var headLength, dataLength := Be32(|pk.head|), Be32(|pk.data|);
    assert Frame(pk) == pre + (headLength + (pk.head + dataLength + pk.data));
    WordAt(Frame(pk), pre, |pk.head|, pk.head + dataLength + pk.data);
    var mid := pre + headLength + pk.head;
    assert Frame(pk) == mid + (dataLength + pk.data) && |mid| == 12 + |pk.head|;
    WordAt(Frame(pk), mid, |pk.data|, pk.data);
  }

  /** A whole frame is read back as its packet. */
  lemma PacketOfFrame(pk: Packet, b: seq<byte>)
    requires TotalLength(pk) < TWO31 && Frame(pk) <= b
    ensures InnerSound(b) && PacketOf(b) == pk && AfterFrame(b) == b[|Frame(pk)|..]
  {
    hide Be32, FromBe32, Frame, TotalOf;
    HeadWords(pk, b);
    InnerWords(pk);
    SameWord(b, Frame(pk), 8);
    SameWord(b, Frame(pk), 12 + |pk.head|);
    SlicesOfFrame(pk, b);
  }

  lemma SlicesOfFrame(pk: Packet, b: seq<byte>)
    requires TotalLength(pk) < TWO31 && Frame(pk) <= b
    ensures b[12..12 + |pk.head|] == pk.head
    ensures b[16 + |pk.head|..16 + |pk.head| + |pk.data|] == pk.data
  {
    var f, h := Frame(pk), |pk.head|;
    assert forall i :: 0 <= i < h ==> b[12 + i] == f[12 + i] == pk.head[i];
    assert forall i :: 0 <= i < |pk.data| ==> b[16 + h + i] == f[16 + h + i] == pk.data[i];
  }

  lemma PrefixTail(f: seq<byte>, tail: seq<byte>, b: seq<byte>)
    requires b <= f + tail
    ensures if |b| < |f| then b <= f else f <= b && b[|f|..] <= tail
  {
    if |b| >= |f| {
      assert (f + tail)[|f|..] == tail;
    }
  }

  /**
   The first packet of a stream that goes on with `more`, and a prefix of both:
   not whole yet, or whole and followed by a prefix of the rest.
  */
  lemma PrefixStepBefore(packets: seq<Packet>, more: seq<byte>, b: seq<byte>, limit: int)
    requires packets != [] && Fit(packets, limit) && Sendable(packets) && b <= Stream(packets) + more
    ensures Fit(packets[1..], limit) && Sendable(packets[1..])
    ensures |b| < |Frame(packets[0])| ==>
              VerdictOn(b, limit).Wait? && Whole(packets, b) == 0 && Left(packets, b) == b
    ensures |b| >= |Frame(packets[0])| ==>
              && VerdictOn(b, limit).Deliver? && InnerSound(b) && PacketOf(b) == packets[0]
              && AfterFrame(b) == b[|Frame(packets[0])|..] && AfterFrame(b) <= Stream(packets[1..]) + more
              && Whole(packets, b) == 1 + Whole(packets[1..], AfterFrame(b))
              && Left(packets, b) == Left(packets[1..], AfterFrame(b))
  {
    var f, tail := Frame(packets[0]), Stream(packets[1..]);
    hide FromBe32, Frame, InnerSound, PacketOf, AfterFrame, Stream;
    assert b <= f + (tail + more) by {
      StreamStep(packets);
      ConcatAssociative(f, tail, more);
    }
    PrefixTail(f, tail + more, b);
    if |b| >= 8 {
      HeadWords(packets[0], b);
    }
    if |b| >= |f| {
      PacketOfFrame(packets[0], b);
    }
  }

  lemma StreamStep(packets: seq<Packet>)
    requires Sendable(packets) && packets != []
    ensures Sendable(packets[1..]) && Stream(packets) == Frame(packets[0]) + Stream(packets[1..])
  {
  }

  /** The first packet of a stream, taken off its bytes. */
  lemma WholeStep(packets: seq<Packet>, b: seq<byte>)
    requires Sendable(packets) && packets != [] && |b| >= |Frame(packets[0])|
    ensures var rest := b[|Frame(packets[0])|..];
            Whole(packets, b) == 1 + Whole(packets[1..], rest) && Left(packets, b) == Left(packets[1..], rest)
  {
  }

  lemma TakeMore(packets: seq<Packet>, n: nat)
    requires packets != [] && n <= |packets| - 1
    ensures packets[..1 + n] == [packets[0]] + packets[1..][..n]
  {
  }

  lemma NothingToCut(b: seq<byte>, limit: int)
    requires Sendable([]) && b <= Stream([])
    ensures WellCut(b, limit) && Cut(b, limit) == Cutting([], []) && Whole([], b) == 0 && Left([], b) == b == []
  {
    CutWait(b, limit);
  }

  /** Cutting a prefix of a stream of packets that fit finds exactly its whole packets. */
  lemma {:induction false} CutOfPrefix(packets: seq<Packet>, b: seq<byte>, limit: int)
    requires Fit(packets, limit) && Sendable(packets) && b <= Stream(packets)
    ensures WellCut(b, limit)
    ensures Cut(b, limit) == Cutting(packets[..Whole(packets, b)], Left(packets, b))
    decreases |packets|
  {
    hide Cut, WellCut, Whole, Left, Stream, Frame, Fit, VerdictOn, InnerSound, PacketOf, AfterFrame;
    if packets == [] {
      NothingToCut(b, limit);
    } else {
      assert Stream(packets) + [] == Stream(packets) && Stream(packets[1..]) + [] == Stream(packets[1..]);
      PrefixStepBefore(packets, [], b, limit);
      if |b| < |Frame(packets[0])| {
        CutWait(b, limit);
      } else {
        var rest := AfterFrame(b);
        CutOfPrefix(packets[1..], rest, limit);
        CutDeliver(b, limit, rest);
        TakeMore(packets, Whole(packets[1..], rest));
      }
    }
  }

  /** What the receiver throws away: eight bytes with a first word other than 1, or a length it has no room for. */
  predicate Refused(b: seq<byte>, limit: int) {
    |b| >= 8 && (FromBe32(b) != 1 || ToInt32(FromBe32(b[4..])) >= limit)
  }

  /** A frame no shorter than the buffer, once its first eight bytes have come. */
  lemma OversizeRefused(pk: Packet, b: seq<byte>, limit: int)
    requires limit <= TotalLength(pk) < TWO31 && 8 <= |b| && (b <= Frame(pk) || Frame(pk) <= b)
    ensures Refused(b, limit)
  {
    HeadWords(pk, b);
  }

  /** Fewer than eight bytes wait; refused ones go, with all that came behind them. */
  lemma CutOfBad(b: seq<byte>, limit: int)
    requires |b| < 8 || Refused(b, limit)
    ensures WellCut(b, limit) && Cut(b, limit) == Cutting([], if |b| < 8 then b else [])
  {
  }

  /** Behind packets that fit they do not touch these. */
  lemma {:induction false} CutOfRefused(packets: seq<Packet>, bad: seq<byte>, limit: int)
    requires Fit(packets, limit) && Sendable(packets) && (|bad| < 8 || Refused(bad, limit))
    ensures var b := Stream(packets) + bad;
            WellCut(b, limit) && Cut(b, limit) == Cutting(packets, if |bad| < 8 then bad else [])
    decreases |packets|
  {
    hide Cut, WellCut, Frame, Fit, VerdictOn, InnerSound, PacketOf, AfterFrame, Refused;
    var b := Stream(packets) + bad;
    if packets == [] {
      assert b == bad;
      CutOfBad(bad, limit);
    } else {
      hide Stream;
      var f, rest := Frame(packets[0]), Stream(packets[1..]) + bad;
      PrefixStepBefore(packets, bad, b, limit);
      StreamStep(packets);
      ConcatAssociative(f, Stream(packets[1..]), bad);
      assert b[|f|..] == rest;
      CutOfRefused(packets[1..], bad, limit);
      CutDeliver(b, limit, rest);
      assert [packets[0]] + packets[1..] == packets;
    }
  }
}

/** The receiving side of the connection: frames cut out of whatever `recv` returns. */
module StreamSockets {
  import opened Bytes
  import opened Frames

  /** The receiving side as a value: buffered bytes, packets handed over, and whether the connection lives. */
  datatype Conn = Conn(buffer: seq<byte>, delivered: seq<Packet>, open: bool)

  const START := Conn([], [], true)

  /** One `recv` result. With a full buffer `recv` is asked for zero bytes, and its 0 closes the connection. */
  ghost function Feed(c: Conn, fragment: seq<byte>, limit: int): Conn
    requires c.open && |c.buffer| < limit ==> WellCut(c.buffer + fragment, limit)
  {
    if !c.open || |c.buffer| >= limit then c.(open := false)
    else
      var cut := Cut(c.buffer + fragment, limit);
      Conn(cut.rest, c.delivered + cut.packets, true)
  }

  function Concat(fragments: seq<seq<byte>>): seq<byte> {
    if fragments == [] then [] else Concat(fragments[..|fragments| - 1]) + fragments[|fragments| - 1]
  }

  /** Where a stream of packets stands after the bytes `sofar`. */
  ghost function Standing(packets: seq<Packet>, sofar: seq<byte>): Conn
    requires Sendable(packets)
  {
    Conn(Left(packets, sofar), packets[..Whole(packets, sofar)], true)
  }

  /** A `recv` result an open connection can get: bytes that have room, or none exactly when there is no room. */
  ghost predicate Receivable(c: Conn, fragment: seq<byte>, limit: int) {
    c.open
    && if |c.buffer| < limit then
         0 < |fragment| && |c.buffer| + |fragment| <= limit && WellCut(c.buffer + fragment, limit)
       else fragment == []
  }

  /** One `recv` and the connection after it. */
  ghost predicate Received(before: Conn, fragment: seq<byte>, limit: int, c: Conn) {
    Receivable(before, fragment, limit) && c == Feed(before, fragment, limit)
  }

  /** The connection after all the fragments, each in its own `recv`. */
  ghost predicate Reaches(fragments: seq<seq<byte>>, limit: int, c: Conn) {
    if fragments == [] then c == START
    else
      var earlier, fragment := fragments[..|fragments| - 1], fragments[|fragments| - 1];
      exists before: Conn :: Reaches(earlier, limit, before) && Received(before, fragment, limit, c)
  }

  /**
   In a stream that goes on with `more` after the packets, the buffered bytes and
   a fragment stand to the remaining packets as all bytes stand to all of them.
  */
  lemma {:induction false} LeftGoesOn(packets: seq<Packet>, more: seq<byte>, sofar: seq<byte>, fragment: seq<byte>)
    requires Sendable(packets) && sofar + fragment <= Stream(packets) + more
    ensures var n := Whole(packets, sofar);
            && Left(packets, sofar) + fragment <= Stream(packets[n..]) + more
            && Whole(packets, sofar + fragment) == n + Whole(packets[n..], Left(packets, sofar) + fragment)
            && Left(packets, sofar + fragment) == Left(packets[n..], Left(packets, sofar) + fragment)
            && Stream(packets[..n]) + Left(packets, sofar) == sofar
    decreases |packets|
  {
    hide Whole, Left, Stream, Frame;
    if packets == [] || |sofar| < |Frame(packets[0])| {
      NotWhole(packets, sofar);
    } else {
      var f, tail, n := Frame(packets[0]), Stream(packets[1..]), Whole(packets, sofar);
      var rest := sofar[|f|..];
      StreamStep(packets);
      ConcatAssociative(f, tail, more);
      PrefixTail(f, tail + more, sofar + fragment);
      PrefixTail(f, tail + more, sofar);
      WholeStep(packets, sofar);
      WholeStep(packets, sofar + fragment);
      DropThenMore(f, sofar, fragment);
      LeftGoesOn(packets[1..], more, rest, fragment);
      LaterPackets(packets, n);
      StreamStep(packets[..n]);
      ConcatAssociative(f, Stream(packets[1..][..n - 1]), Left(packets[1..], rest));
    }
  }

  /** No packet of a stream is whole in less than its first frame. */
  lemma NotWhole(packets: seq<Packet>, b: seq<byte>)
    requires Sendable(packets) && (packets == [] || |b| < |Frame(packets[0])|)
    ensures Whole(packets, b) == 0 && Left(packets, b) == b
    ensures packets[0..] == packets && packets[..0] == [] && Sendable([]) && Stream([]) + b == b
  {
  }

  lemma DropThenMore(f: seq<byte>, sofar: seq<byte>, fragment: seq<byte>)
    requires f <= sofar
    ensures f <= sofar + fragment && (sofar + fragment)[|f|..] == sofar[|f|..] + fragment
    ensures f + sofar[|f|..] == sofar
  {
  }

  lemma LaterPackets(packets: seq<Packet>, n: nat)
    requires Sendable(packets) && 1 <= n <= |packets|
    ensures packets[1..][n - 1..] == packets[n..] && packets[..n] != [] && packets[..n][0] == packets[0]
    ensures packets[..n][1..] == packets[1..][..n - 1] && Sendable(packets[..n]) && Sendable(packets[1..])
  {
  }

  lemma Later(packets: seq<Packet>, n: nat, limit: int)
    requires Fit(packets, limit) && Sendable(packets) && n <= |packets|
    ensures Fit(packets[n..], limit) && Sendable(packets[n..])
  {
  }

  /** What is left of a prefix of a stream of packets that fit. */
  lemma {:induction false} LeftShort(packets: seq<Packet>, b: seq<byte>, limit: int)
    requires Fit(packets, limit) && Sendable(packets) && b <= Stream(packets) && 0 < limit
    ensures |Left(packets, b)| < limit
    ensures var n := Whole(packets, b);
            if n == |packets| then Left(packets, b) == [] else |Left(packets, b)| < |Frame(packets[n])|
    ensures Stream(packets[..Whole(packets, b)]) + Left(packets, b) == b
    decreases |packets|
  {
    if packets != [] && |b| >= |Frame(packets[0])| {
      hide Whole, Left, Stream, Frame;
      var f, tail, n := Frame(packets[0]), Stream(packets[1..]), Whole(packets, b);
      var rest := b[|f|..];
      StreamStep(packets);
      PrefixTail(f, tail, b);
      WholeStep(packets, b);
      LeftShort(packets[1..], rest, limit);
      LaterPackets(packets, n);
      StreamStep(packets[..n]);
      ConcatAssociative(f, Stream(packets[1..][..n - 1]), Left(packets[1..], rest));
      DropThenMore(f, b, []);
    }
  }

  lemma SplitAt(packets: seq<Packet>, n: nat, m: nat)
    requires n + m <= |packets|
    ensures packets[..n] + packets[n..][..m] == packets[..n + m]
  {
  }

  lemma FeedRoom(c: Conn, fragment: seq<byte>, limit: int)
    requires c.open && |c.buffer| < limit && WellCut(c.buffer + fragment, limit)
    ensures var cut := Cut(c.buffer + fragment, limit);
            Feed(c, fragment, limit) == Conn(cut.rest, c.delivered + cut.packets, true)
  {
  }

  /** One more fragment of the stream. */
  lemma FeedStanding(packets: seq<Packet>, sofar: seq<byte>, fragment: seq<byte>, limit: int)
    requires Fit(packets, limit) && Sendable(packets) && 0 < limit && sofar + fragment <= Stream(packets)
    ensures var c := Standing(packets, sofar);
            && WellCut(c.buffer + fragment, limit)
            && Feed(c, fragment, limit) == Standing(packets, sofar + fragment)
  {
    hide Cut, WellCut, Feed, Whole, Left, Stream, Fit, Sendable;
    var n, buffer := Whole(packets, sofar), Left(packets, sofar);
    assert sofar <= sofar + fragment;
    LeftShort(packets, sofar, limit);
    Later(packets, n, limit);
    assert Stream(packets) + [] == Stream(packets) && Stream(packets[n..]) + [] == Stream(packets[n..]);
    LeftGoesOn(packets, [], sofar, fragment);
    CutOfPrefix(packets[n..], buffer + fragment, limit);
    SplitAt(packets, n, Whole(packets[n..], buffer + fragment));
    FeedRoom(Standing(packets, sofar), fragment, limit);
  }

  /**
   However the stream of packets that fit is cut into `recv` results, the
   connection stays open with exactly the packets whose bytes have all come,
   in order, and buffers the bytes after them: less than the next frame, so
   there is room for the next `recv`.
  */
  lemma {:induction false} Fragmentation(packets: seq<Packet>, fragments: seq<seq<byte>>, limit: int, c: Conn)
    requires Fit(packets, limit) && Sendable(packets) && 0 < limit && Concat(fragments) <= Stream(packets)
    requires Reaches(fragments, limit, c)
    ensures c.open && |c.buffer| < limit
    ensures c.delivered == packets[..Whole(packets, Concat(fragments))]
    ensures Stream(c.delivered) + c.buffer == Concat(fragments)
    ensures if |c.delivered| == |packets| then c.buffer == []
            else |c.buffer| < |Frame(packets[|c.delivered|])|
    ensures c == Standing(packets, Concat(fragments))
    decreases |fragments|
  {
    var sofar := Concat(fragments);
    if fragments == [] {
      assert packets[..0] == [];
    } else {
      var earlier, fragment := fragments[..|fragments| - 1], fragments[|fragments| - 1];
      var before: Conn :| Reaches(earlier, limit, before) && Received(before, fragment, limit, c);
      Fragmentation(packets, earlier, limit, before);
      FeedStanding(packets, Concat(earlier), fragment, limit);
    }
    LeftShort(packets, sofar, limit);
  }

  lemma NotYet(packets: seq<Packet>)
    requires Sendable(packets)
    ensures Standing(packets, []) == START && [] <= Stream(packets)
  {
  }

  /** Fragments of at least a byte that the free space has room for, each after the ones before it. */
  ghost predicate Roomy(packets: seq<Packet>, fragments: seq<seq<byte>>, limit: int)
    requires Sendable(packets)
  {
    fragments != [] ==>
      var earlier, fragment := fragments[..|fragments| - 1], fragments[|fragments| - 1];
      Roomy(packets, earlier, limit) && 0 < |fragment| <= limit - |Left(packets, Concat(earlier))|
  }

  /** Every such split of a stream of packets that fit can be received, and leads there. */
  lemma {:induction false} SplitReaches(packets: seq<Packet>, fragments: seq<seq<byte>>, limit: int)
    requires Fit(packets, limit) && Sendable(packets) && 0 < limit
    requires Concat(fragments) <= Stream(packets) && Roomy(packets, fragments, limit)
    ensures Reaches(fragments, limit, Standing(packets, Concat(fragments)))
    decreases |fragments|
  {
    if fragments == [] {
      NotYet(packets);
    } else {
      hide Stream, Whole, Left, Fit, Feed, WellCut;
      var earlier, fragment := fragments[..|fragments| - 1], fragments[|fragments| - 1];
      var sofar := Concat(earlier);
      var before, c := Standing(packets, sofar), Standing(packets, sofar + fragment);
      assert sofar <= sofar + fragment;
      SplitReaches(packets, earlier, limit);
      LeftShort(packets, sofar, limit);
      FeedStanding(packets, sofar, fragment, limit);
      assert Reaches(earlier, limit, before) && Received(before, fragment, limit, c);
    }
  }

  /** A started frame that passes the size check but not the buffer is never taken out. */
  lemma TightWaits(pk: Packet, b: seq<byte>, limit: int)
    requires TotalLength(pk) < limit < TotalLength(pk) + 8 && limit < TWO31
    requires b <= Frame(pk) && |b| <= limit
    ensures WellCut(b, limit) && Cut(b, limit) == Cutting([], b)
  {
    if |b| >= 8 {
      HeadWords(pk, b);
    }
  }

  lemma NoPackets(b: seq<byte>, more: seq<byte>)
    ensures Sendable([]) && Whole([], b) == 0 && Left([], b) == b && Stream([]) + more == more
  {
  }

  /** Cutting what has come of packets that fit and a tight frame behind them finds them and waits in the frame. */
  lemma {:induction false} CutOfTight(packets: seq<Packet>, pk: Packet, b: seq<byte>, limit: int)
    requires Fit(packets, limit) && Sendable(packets)
    requires TotalLength(pk) < limit < TotalLength(pk) + 8 && limit < TWO31
    requires b <= Stream(packets) + Frame(pk) && |b| <= limit
    ensures WellCut(b, limit)
    ensures Cut(b, limit) == Cutting(packets[..Whole(packets, b)], Left(packets, b))
    ensures Whole(packets, b) == |packets| ==> Left(packets, b) <= Frame(pk)
    ensures Whole(packets, b) < |packets| ==> |Left(packets, b)| < |Frame(packets[Whole(packets, b)])|
    decreases |packets|
  {
    hide Cut, WellCut, Whole, Left, Stream, Frame, Fit, VerdictOn, InnerSound, PacketOf, AfterFrame;
    if packets == [] {
      NoPackets(b, Frame(pk));
      TightWaits(pk, b, limit);
    } else {
      PrefixStepBefore(packets, Frame(pk), b, limit);
      if |b| < |Frame(packets[0])| {
        CutWait(b, limit);
      } else {
        var rest := AfterFrame(b);
        CutOfTight(packets[1..], pk, rest, limit);
        CutDeliver(b, limit, rest);
        TakeMore(packets, Whole(packets[1..], rest));
      }
    }
  }

  /** The packets that fit, and the bytes of the tight frame behind them, in every connection they reach. */
  lemma {:induction false} TightStalls(packets: seq<Packet>, pk: Packet, fragments: seq<seq<byte>>, limit: int, c: Conn)
    requires Fit(packets, limit) && Sendable(packets)
    requires TotalLength(pk) < limit < TotalLength(pk) + 8 && limit < TWO31
    requires Reaches(fragments, limit, c) && Concat(fragments) <= Stream(packets) + Frame(pk)
    ensures c.delivered == packets[..Whole(packets, Concat(fragments))]
    ensures c.buffer == Left(packets, Concat(fragments)) && |c.buffer| <= limit
    ensures Stream(c.delivered) + c.buffer == Concat(fragments)
    ensures |c.buffer| == limit ==>
              c.delivered == packets && forall next :: Feed(c, next, limit) == c.(open := false)
    ensures c.open || |c.buffer| == limit
    decreases |fragments|
  {
    if fragments == [] {
      NothingYet(packets);
    } else {
      var earlier, fragment := fragments[..|fragments| - 1], fragments[|fragments| - 1];
      var sofar := Concat(earlier);
      var before: Conn :| Reaches(earlier, limit, before) && Received(before, fragment, limit, c);
      assert Concat(fragments) == sofar + fragment && sofar <= Concat(fragments);
      TightStalls(packets, pk, earlier, limit, before);
      TightFeed(packets, pk, sofar, fragment, limit, before, c);
    }
  }

  lemma NothingYet(packets: seq<Packet>)
    requires Sendable(packets)
    ensures Whole(packets, []) == 0 && Left(packets, []) == [] && packets[..0] == [] && Stream([]) + [] == []
  {
  }

  /** One `recv` of such a stream. */
  lemma TightFeed(packets: seq<Packet>, pk: Packet, sofar: seq<byte>, fragment: seq<byte>, limit: int,
                  before: Conn, c: Conn)
    requires Fit(packets, limit) && Sendable(packets)
    requires TotalLength(pk) < limit < TotalLength(pk) + 8 && limit < TWO31
    requires sofar + fragment <= Stream(packets) + Frame(pk) && Receivable(before, fragment, limit)
    requires before.buffer == Left(packets, sofar) && before.delivered == packets[..Whole(packets, sofar)]
    requires |before.buffer| == limit ==> before.delivered == packets
    requires |before.buffer| <= limit && c == Feed(before, fragment, limit)
    ensures c.delivered == packets[..Whole(packets, sofar + fragment)]
    ensures c.buffer == Left(packets, sofar + fragment) && |c.buffer| <= limit
    ensures Stream(c.delivered) + c.buffer == sofar + fragment
    ensures |c.buffer| == limit ==>
              c.delivered == packets && forall next :: Feed(c, next, limit) == c.(open := false)
    ensures c.open || |c.buffer| == limit
  {
    hide Cut, WellCut, Feed, Whole, Left, Stream, Frame, Fit, Sendable;
    var n, later := Whole(packets, sofar), packets[Whole(packets, sofar)..];
    assert sofar + fragment + [] == sofar + fragment;
    Later(packets, n, limit);
    LeftGoesOn(packets, Frame(pk), sofar, fragment);
    LeftGoesOn(packets, Frame(pk), sofar + fragment, []);
    if |before.buffer| < limit {
      CutOfTight(later, pk, before.buffer + fragment, limit);
      SplitAt(packets, n, Whole(later, before.buffer + fragment));
      FeedRoom(before, fragment, limit);
      FitsOne(later, Whole(later, before.buffer + fragment), limit);
    } else {
      assert sofar + [] == sofar;
    }
    if |before.buffer| == limit {
      FeedFull(before, limit);
    }
    if |c.buffer| == limit {
      FeedFull(c, limit);
    }
  }

  lemma FitsOne(packets: seq<Packet>, n: nat, limit: int)
    requires Fit(packets, limit) && Sendable(packets)
    ensures n < |packets| ==> |Frame(packets[n])| <= limit
  {
  }

  lemma FeedFull(c: Conn, limit: int)
    requires |c.buffer| >= limit
    ensures forall next :: Feed(c, next, limit) == c.(open := false)
  {
  }

  /** Where a stream stands whose packets are followed by fewer than eight bytes, or by refused ones. */
  lemma {:induction false} WholeThen(packets: seq<Packet>, bad: seq<byte>)
    requires Sendable(packets)
    ensures Whole(packets, Stream(packets) + bad) == |packets| && Left(packets, Stream(packets) + bad) == bad
  {
    if packets == [] {
      NoPackets(bad, bad);
    } else {
      hide Whole, Left, Stream, Frame;
      var b, f, rest := Stream(packets) + bad, Frame(packets[0]), Stream(packets[1..]) + bad;
      StreamStep(packets);
      ConcatAssociative(f, Stream(packets[1..]), bad);
      assert b[|f|..] == rest;
      WholeThen(packets[1..], bad);
      WholeStep(packets, b);
    }
  }

  /** One `recv` of such a stream, not more of it than eight bytes behind the packets. */
  lemma FeedBefore(packets: seq<Packet>, bad: seq<byte>, sofar: seq<byte>, fragment: seq<byte>, limit: int)
    requires Fit(packets, limit) && Sendable(packets) && 8 <= limit && (|bad| < 8 || Refused(bad, limit))
    requires sofar + fragment <= Stream(packets) + bad && |sofar| < |Stream(packets)| + 8
    requires |sofar + fragment| < |Stream(packets)| + 8 || sofar + fragment == Stream(packets) + bad
    ensures var before, b := Standing(packets, sofar), sofar + fragment;
            |before.buffer| < limit && WellCut(before.buffer + fragment, limit)
            && Feed(before, fragment, limit)
               == if |b| < |Stream(packets)| + 8 then Standing(packets, b) else Conn([], packets, true)
  {
    hide Cut, WellCut, Feed, Whole, Left, Stream, Fit, Sendable, Refused;
    var n, before, b := Whole(packets, sofar), Standing(packets, sofar), sofar + fragment;
    var later := packets[n..];
    LeftGoesOn(packets, bad, sofar, fragment);
    Later(packets, n, limit);
    StandingShort(packets, bad, sofar, limit);
    if b <= Stream(packets) && |b| < |Stream(packets)| {
      FeedStanding(packets, sofar, fragment, limit);
    } else {
      var behind := b[|Stream(packets)|..];
      assert b == Stream(packets) + behind && behind <= bad;
      LaterStream(packets, n, sofar, fragment, behind);
      CutOfRefused(later, behind, limit);
      FeedRoom(before, fragment, limit);
      WholeThen(packets, behind);
      assert packets[..n] + later == packets && packets[..|packets|] == packets;
    }
  }

  lemma StandingShort(packets: seq<Packet>, bad: seq<byte>, sofar: seq<byte>, limit: int)
    requires Fit(packets, limit) && Sendable(packets) && 8 <= limit
    requires sofar <= Stream(packets) + bad && |sofar| < |Stream(packets)| + 8
    ensures |Left(packets, sofar)| < limit
  {
    hide Whole, Left, Stream, Fit, Sendable;
    if |sofar| <= |Stream(packets)| {
      assert sofar <= Stream(packets);
      LeftShort(packets, sofar, limit);
    } else {
      var behind := sofar[|Stream(packets)|..];
      assert sofar == Stream(packets) + behind;
      WholeThen(packets, behind);
    }
  }

  /** The buffered bytes and a fragment that ends behind the last packet: the packets left and what is behind them. */
  lemma LaterStream(packets: seq<Packet>, n: nat, sofar: seq<byte>, fragment: seq<byte>, behind: seq<byte>)
    requires Sendable(packets) && n == Whole(packets, sofar) && sofar + fragment == Stream(packets) + behind
    requires Stream(packets[..n]) + Left(packets, sofar) == sofar
    ensures Sendable(packets[n..]) && Left(packets, sofar) + fragment == Stream(packets[n..]) + behind
  {
    hide Whole, Left;
    var front, rest := Stream(packets[..n]), Stream(packets[n..]);
    StreamSplit(packets, n);
    ConcatAssociative(front, Left(packets, sofar), fragment);
    ConcatAssociative(front, rest, behind);
    SameTail(front, Left(packets, sofar) + fragment, rest + behind);
  }

  lemma SameTail(front: seq<byte>, one: seq<byte>, other: seq<byte>)
    requires front + one == front + other
    ensures one == other
  {
    assert (front + one)[|front|..] == one && (front + other)[|front|..] == other;
  }

  lemma {:induction false} StreamSplit(packets: seq<Packet>, n: nat)
    requires Sendable(packets) && n <= |packets|
    ensures Sendable(packets[..n]) && Sendable(packets[n..])
    ensures Stream(packets) == Stream(packets[..n]) + Stream(packets[n..])
    decreases n
  {
    if n == 0 {
      assert packets[..0] == [] && packets[0..] == packets;
    } else {
      LaterPackets(packets, n);
      StreamSplit(packets[1..], n - 1);
      ConcatAssociative(Frame(packets[0]), Stream(packets[1..][..n - 1]), Stream(packets[n..]));
    }
  }

  /** Up to eight bytes behind the packets nothing is lost. */
  lemma {:induction false} BeforeRefusal(packets: seq<Packet>, bad: seq<byte>, fragments: seq<seq<byte>>,
                                         limit: int, c: Conn)
    requires Fit(packets, limit) && Sendable(packets) && 8 <= limit && (|bad| < 8 || Refused(bad, limit))
    requires Reaches(fragments, limit, c) && Concat(fragments) <= Stream(packets) + bad
    requires |Concat(fragments)| < |Stream(packets)| + 8
    ensures c == Standing(packets, Concat(fragments))
    decreases |fragments|
  {
    if fragments == [] {
      NothingYet(packets);
    } else {
      hide Stream, Whole, Left, Fit, Feed, WellCut, Sendable, Refused;
      var earlier, fragment := fragments[..|fragments| - 1], fragments[|fragments| - 1];
      var before: Conn :| Reaches(earlier, limit, before) && Received(before, fragment, limit, c);
      assert Concat(earlier) <= Concat(earlier) + fragment;
      BeforeRefusal(packets, bad, earlier, limit, before);
      FeedBefore(packets, bad, Concat(earlier), fragment, limit);
    }
  }

  /**
   The `recv` that brings the eighth byte of a frame too long for the buffer, or
   of one with a wrong first word, empties the buffer; the packets before it have
   been delivered and the connection goes on.
  */
  lemma RefusedDropped(packets: seq<Packet>, bad: seq<byte>, fragments: seq<seq<byte>>, limit: int, c: Conn)
    requires Fit(packets, limit) && Sendable(packets) && 8 <= limit && Refused(bad, limit)
    requires Reaches(fragments, limit, c) && Concat(fragments) == Stream(packets) + bad && fragments != []
    requires |Concat(fragments[..|fragments| - 1])| < |Stream(packets)| + 8
    ensures c == Conn([], packets, true)
  {
    hide Stream, Whole, Left, Fit, Feed, WellCut, Sendable, Refused;
    var earlier, fragment := fragments[..|fragments| - 1], fragments[|fragments| - 1];
    var before: Conn :| Reaches(earlier, limit, before) && Received(before, fragment, limit, c);
    assert Concat(earlier) <= Concat(earlier) + fragment;
    assert |bad| >= 8 by { RefusedLong(bad, limit); }
    BeforeRefusal(packets, bad, earlier, limit, before);
    FeedBefore(packets, bad, Concat(earlier), fragment, limit);
  }

  /** A frame no shorter than the buffer: its first eight bytes empty it, whatever of the frame comes with them. */
  lemma OversizeDropped(packets: seq<Packet>, pk: Packet, fragments: seq<seq<byte>>, limit: int, c: Conn)
    requires Fit(packets, limit) && Sendable(packets) && 8 <= limit <= TotalLength(pk) < TWO31
    requires Reaches(fragments, limit, c) && Concat(fragments) <= Stream(packets) + Frame(pk) && fragments != []
    requires |Concat(fragments[..|fragments| - 1])| < |Stream(packets)| + 8 <= |Concat(fragments)|
    ensures c == Conn([], packets, true)
  {
    hide Stream, Frame, Fit, Sendable, Refused, Concat, Reaches;
    var b, n := Concat(fragments), |Stream(packets)|;
    assert b == Stream(packets) + b[n..] && b[n..] <= Frame(pk);
    OversizeRefused(pk, b[n..], limit);
    RefusedDropped(packets, b[n..], fragments, limit, c);
  }

  lemma RefusedLong(bad: seq<byte>, limit: int)
    requires Refused(bad, limit)
    ensures |bad| >= 8
  {
  }

  /** What was delivered before. */
  function Onward(done: seq<Packet>, c: Conn): Conn {
    Conn(c.buffer, done + c.delivered, c.open)
  }

  lemma FeedOnward(done: seq<Packet>, c: Conn, fragment: seq<byte>, limit: int)
    requires Receivable(c, fragment, limit) || Receivable(Onward(done, c), fragment, limit)
    ensures Receivable(c, fragment, limit) && Receivable(Onward(done, c), fragment, limit)
    ensures Feed(Onward(done, c), fragment, limit) == Onward(done, Feed(c, fragment, limit))
  {
    hide Cut, WellCut;
    if c.open && |c.buffer| < limit {
      ConcatPackets(done, c.delivered, Cut(c.buffer + fragment, limit).packets);
    }
  }

  lemma ConcatPackets(a: seq<Packet>, b: seq<Packet>, c: seq<Packet>)
    ensures (a + b) + c == a + (b + c)
  {
  }

  /** The bytes decide where a connection stands. */
  lemma {:induction false} ReachesOne(fragments: seq<seq<byte>>, limit: int, c: Conn, other: Conn)
    requires Reaches(fragments, limit, c) && Reaches(fragments, limit, other)
    ensures c == other
    decreases |fragments|
  {
    if fragments != [] {
      hide Feed;
      var earlier, fragment := fragments[..|fragments| - 1], fragments[|fragments| - 1];
      var one: Conn :| Reaches(earlier, limit, one) && Received(one, fragment, limit, c);
      var two: Conn :| Reaches(earlier, limit, two) && Received(two, fragment, limit, other);
      ReachesOne(earlier, limit, one, two);
    }
  }

  /** The last of some more fragments. */
  lemma LastOfMore(fragments: seq<seq<byte>>, more: seq<seq<byte>>, limit: int, c: Conn) returns (before: Conn)
    requires more != [] && Reaches(fragments + more, limit, c)
    ensures Reaches(fragments + more[..|more| - 1], limit, before) && Received(before, more[|more| - 1], limit, c)
  {
    hide Feed;
    var all := fragments + more;
    assert all[..|all| - 1] == fragments + more[..|more| - 1] && all[|all| - 1] == more[|more| - 1];
    before :| Reaches(all[..|all| - 1], limit, before) && Received(before, more[|more| - 1], limit, c);
  }

  lemma {:induction false} ReachesFront(fragments: seq<seq<byte>>, more: seq<seq<byte>>, limit: int, c: Conn)
    returns (here: Conn)
    requires Reaches(fragments + more, limit, c)
    ensures Reaches(fragments, limit, here)
    decreases |more|
  {
    if more == [] {
      assert fragments + more == fragments;
      here := c;
    } else {
      var before := LastOfMore(fragments, more, limit, c);
      here := ReachesFront(fragments, more[..|more| - 1], limit, before);
    }
  }

  /** With an empty buffer a connection goes on as a new one. */
  lemma {:induction false} GoesOn(done: seq<Packet>, fragments: seq<seq<byte>>, more: seq<seq<byte>>,
                                  limit: int, c: Conn)
    returns (anew: Conn)
    requires Reaches(fragments, limit, Conn([], done, true)) && Reaches(fragments + more, limit, c)
    ensures Reaches(more, limit, anew) && c == Onward(done, anew)
    decreases |more|
  {
    if more == [] {
      assert fragments + more == fragments && done + [] == done;
      ReachesOne(fragments, limit, c, Conn([], done, true));
      anew := START;
    } else {
      hide Feed;
      var n := |more| - 1;
      var before := LastOfMore(fragments, more, limit, c);
      var earlier := GoesOn(done, fragments, more[..n], limit, before);
      FeedOnward(done, earlier, more[n], limit);
      anew := Feed(earlier, more[n], limit);
      assert Received(earlier, more[n], limit, anew);
    }
  }

  /** So packets that fit and come behind it arrive as well. */
  lemma ResumesBehind(packets: seq<Packet>, bad: seq<byte>, later: seq<Packet>,
                      fragments: seq<seq<byte>>, more: seq<seq<byte>>, limit: int, c: Conn)
    requires Fit(packets, limit) && Sendable(packets) && 8 <= limit && Refused(bad, limit)
    requires Concat(fragments) == Stream(packets) + bad && fragments != []
    requires |Concat(fragments[..|fragments| - 1])| < |Stream(packets)| + 8
    requires Fit(later, limit) && Sendable(later) && Concat(more) <= Stream(later)
    requires Reaches(fragments + more, limit, c)
    ensures c.open && c.delivered == packets + later[..Whole(later, Concat(more))]
  {
    hide Stream, Whole, Fit, Sendable, Refused, Concat, Reaches;
    var here := ReachesFront(fragments, more, limit, c);
    RefusedDropped(packets, bad, fragments, limit, here);
    var anew := GoesOn(packets, fragments, more, limit, c);
    Fragmentation(later, more, limit, anew);
  }

  /** A packet that is cut out fits the buffer with its frame, whatever the bytes. */
  lemma {:induction false} CutFits(b: seq<byte>, limit: int)
    requires WellCut(b, limit) && |b| <= limit
    ensures forall pk <- Cut(b, limit).packets :: TotalLength(pk) + 8 <= limit
    decreases |b|
  {
    if VerdictOn(b, limit).Deliver? {
      CutFits(AfterFrame(b), limit);
    }
  }

  lemma {:induction false} DeliveredFits(fragments: seq<seq<byte>>, limit: int, c: Conn)
    requires Reaches(fragments, limit, c)
    ensures forall pk <- c.delivered :: TotalLength(pk) + 8 <= limit
    decreases |fragments|
  {
    if fragments != [] {
      var earlier, fragment := fragments[..|fragments| - 1], fragments[|fragments| - 1];
      var before: Conn :| Reaches(earlier, limit, before) && Received(before, fragment, limit, c);
      DeliveredFits(earlier, limit, before);
      if |before.buffer| < limit {
        CutFits(before.buffer + fragment, limit);
      }
    }
  }

  /** When all bytes of a stream have come, its packets have been delivered exactly when every frame fits the buffer. */
  lemma ArrivesIff(packets: seq<Packet>, fragments: seq<seq<byte>>, limit: int, c: Conn)
    requires Sendable(packets) && 0 < limit < TWO31
    requires Reaches(fragments, limit, c) && Concat(fragments) == Stream(packets)
    ensures c.delivered == packets <==> Fit(packets, limit)
  {
    if Fit(packets, limit) {
      Fragmentation(packets, fragments, limit, c);
      AllWhole(packets);
    }
    if c.delivered == packets {
      DeliveredFits(fragments, limit, c);
      assert forall i :: 0 <= i < |packets| ==> packets[i] in c.delivered;
    }
  }

  lemma {:induction false} AllWhole(packets: seq<Packet>)
    requires Sendable(packets)
    ensures Whole(packets, Stream(packets)) == |packets|
  {
    if packets != [] {
      assert (Frame(packets[0]) + Stream(packets[1..]))[|Frame(packets[0])|..] == Stream(packets[1..]);
      AllWhole(packets[1..]);
    }
  }

  /** What `recv` can answer: bytes, an orderly close, an error that is tried again, or nothing for now. */
  datatype Answer = Bytes(fragment: seq<byte>) | Closed | Retry | WouldBlock

  /** Answers the kernel can give: bytes are at least one and at most the free space. */
  ghost predicate Legal(c: Conn, answers: seq<Answer>, limit: int)
    decreases |answers|
  {
    answers != [] && c.open ==>
      match answers[0]
      case Bytes(fragment) =>
        && 0 < |fragment|
        && (|c.buffer| < limit ==> |c.buffer| + |fragment| <= limit && WellCut(c.buffer + fragment, limit))
        && Legal(Feed(c, fragment, limit), answers[1..], limit)
      case Retry => Legal(c, answers[1..], limit)
      case Closed => true
      case WouldBlock => true
  }

  /** The connection when the input handler returns, or when the answers end. */
  ghost function After(c: Conn, answers: seq<Answer>, limit: int): Conn
    requires Legal(c, answers, limit)
    decreases |answers|
  {
    if answers == [] || !c.open then c
    else match answers[0]
      case Bytes(fragment) => After(Feed(c, fragment, limit), answers[1..], limit)
      case Closed => c.(open := false)
      case Retry => After(c, answers[1..], limit)
      case WouldBlock => c
  }

  /** The handler's runs are fragmentations: nothing is lost between two calls. */
  lemma {:induction false} AfterReaches(c: Conn, fragments: seq<seq<byte>>, answers: seq<Answer>, limit: int)
    returns (more: seq<seq<byte>>)
    requires Reaches(fragments, limit, c) && Legal(c, answers, limit) && After(c, answers, limit).open
    ensures fragments <= more && Reaches(more, limit, After(c, answers, limit))
    decreases |answers|
  {
    more := fragments;
    if answers != [] && c.open {
      match answers[0]
      case Bytes(fragment) =>
        var next := Feed(c, fragment, limit);
        if next.open {
          var longer := fragments + [fragment];
          assert longer[..|longer| - 1] == fragments;
          assert Reaches(longer, limit, next);
          more := AfterReaches(next, longer, answers[1..], limit);
        }
      case Retry => more := AfterReaches(c, fragments, answers[1..], limit);
      case _ =>
    }
  }

  /** The bytes the handler takes before it returns, and whether the connection is still open then. */
  function Taken(answers: seq<Answer>): (seq<byte>, bool) {
    if answers == [] then ([], true)
    else match answers[0]
      case Bytes(fragment) =>
        var (rest, open) := Taken(answers[1..]);
        (fragment + rest, open)
      case Closed => ([], false)
      case Retry => Taken(answers[1..])
      case WouldBlock => ([], true)
  }

  /** The bytes of all answers. */
  function AllBytes(answers: seq<Answer>): seq<byte> {
    if answers == [] then []
    else (if answers[0].Bytes? then answers[0].fragment else []) + AllBytes(answers[1..])
  }

  /** Errors that are tried again cost nothing; what comes after a close or when nothing is left is not taken. */
  lemma {:induction false} TakesAll(answers: seq<Answer>, last: Answer, later: seq<Answer>)
    requires forall a <- answers :: a.Bytes? || a.Retry?
    ensures Taken(answers) == (AllBytes(answers), true)
    ensures last.Closed? ==> Taken(answers + ([last] + later)) == (AllBytes(answers), false)
    ensures last.WouldBlock? ==> Taken(answers + ([last] + later)) == (AllBytes(answers), true)
    decreases |answers|
  {
    if answers == [] {
      assert answers + ([last] + later) == [last] + later;
    } else {
      assert answers[0] in answers && forall a <- answers[1..] :: a in answers;
      TakesAll(answers[1..], last, later);
      assert [] + AllBytes(answers[1..]) == AllBytes(answers[1..]);
      assert (answers + ([last] + later))[1..] == answers[1..] + ([last] + later);
    }
  }

  /** Answers that bring the next bytes of a stream of packets, never more than the buffer has room for. */
  ghost predicate Offered(packets: seq<Packet>, sofar: seq<byte>, answers: seq<Answer>, limit: int)
    requires Sendable(packets)
    decreases |answers|
  {
    answers != [] ==>
      match answers[0]
      case Bytes(fragment) =>
        && 0 < |fragment| <= limit - |Left(packets, sofar)| && sofar + fragment <= Stream(packets)
        && Offered(packets, sofar + fragment, answers[1..], limit)
      case Retry => Offered(packets, sofar, answers[1..], limit)
      case Closed => true
      case WouldBlock => true
  }

  /**
   Whatever the answers, the handler can take them and leaves the connection
   where the bytes taken so far stand: only an orderly close ends it.
  */
  lemma {:induction false} HandlerDelivers(packets: seq<Packet>, sofar: seq<byte>, answers: seq<Answer>, limit: int)
    requires Fit(packets, limit) && Sendable(packets) && 0 < limit && sofar <= Stream(packets)
    requires Offered(packets, sofar, answers, limit)
    ensures Legal(Standing(packets, sofar), answers, limit)
    ensures var (bytes, open) := Taken(answers);
            After(Standing(packets, sofar), answers, limit) == Standing(packets, sofar + bytes).(open := open)
    decreases |answers|
  {
    if answers == [] {
      assert sofar + [] == sofar;
    } else {
      match answers[0] {
        case Bytes(fragment) =>
          FeedStanding(packets, sofar, fragment, limit);
          HandlerDelivers(packets, sofar + fragment, answers[1..], limit);
          ConcatAssociative(sofar, fragment, Taken(answers[1..]).0);
        case Retry =>
          HandlerDelivers(packets, sofar, answers[1..], limit);
        case _ =>
          assert sofar + [] == sofar;
      }
    }
  }

  /** The receiving side of the connection, in its buffer. */
  class Receiver {
    const limit: int
    const buffer: array<byte>
    var offset: int
    var delivered: seq<Packet>
    var open: bool

    ghost predicate Valid()
      reads this, buffer
    {
      buffer.Length == limit && 0 <= offset <= limit < TWO31
    }

    ghost function State(): Conn
      requires Valid()
      reads this, buffer
    {
      Conn(Held(), delivered, open)
    }

    constructor (size: int)
      requires 0 <= size < TWO31
      ensures Valid() && fresh(buffer) && limit == size && State() == START
    {
      limit := size;
      buffer := new byte[size];
      offset, delivered, open := 0, [], true;
    }

    /** The received bytes not yet handed over. */
    ghost function Held(): seq<byte>
      requires Valid()
      reads this, buffer
    {
      buffer[..offset]
    }

    /** Hands over every whole frame at the start of the buffer, shifting the rest down each time. */
    method Chunking()
      requires Valid() && WellCut(Held(), limit)
      modifies this, buffer
      ensures Valid() && open == old(open)
      ensures Held() == old(Cut(Held(), limit).rest)
      ensures delivered == old(delivered + Cut(Held(), limit).packets)
      decreases offset
    {
      ghost var b, before := Held(), delivered;
      CutStep(b, limit);
      var verdict, totalLength := Examine();
      hide Cut, WellCut, InnerSound, PacketOf, AfterFrame, FromBe32, TotalOf, VerdictOn, Held;
      match verdict {
        case Wait =>
        case Drop =>
          Reset();
        case Deliver =>
          HandOver(totalLength);
          ConcatAssociative(before, [PacketOf(b)], Cut(Held(), limit).packets);
          Chunking();
      }
    }

    method Reset()
      requires Valid()
      modifies `offset
      ensures Valid() && Held() == []
    {
      offset := 0;
    }

    /** Delivers the complete frame that starts the buffer and removes it. */
    method HandOver(totalLength: int32)
      requires Valid() && InnerSound(Held()) && totalLength == TotalOf(Held())
      modifies this, buffer
      ensures Valid() && open == old(open) && offset < old(offset)
      ensures Held() == old(AfterFrame(Held()))
      ensures delivered == old(delivered + [PacketOf(Held())])
    {
      var packet := TakePacket();
      Discard(totalLength + 8);
      delivered := delivered + [packet];
    }

    /** The head and length checks. */
    method Examine() returns (verdict: Verdict, totalLength: int32)
      requires Valid()
      ensures verdict == VerdictOn(Held(), limit)
      ensures verdict.Deliver? ==> offset >= 8 && totalLength == TotalOf(Held())
    {
      totalLength := 0;
      if offset < 8 {
        return Wait, totalLength;
      }
      ghost var b := buffer[..offset];
      assert buffer[4..offset] == b[4..];
      var head := ToInt32(FromBe32(buffer[..offset]));
      if head != 1 {
        return Drop, totalLength;
      }
      totalLength := ToInt32(FromBe32(buffer[4..offset]));
      if totalLength >= limit {
        return Drop, totalLength;
      }
      if totalLength > offset - 8 {
        return Wait, totalLength;
      }
      verdict := Deliver;
    }

    /** Shifts the buffer down over its first `n` bytes. */
    method Discard(n: nat)
      requires Valid() && n <= offset
      modifies `offset, buffer
      ensures Valid() && Held() == old(Held())[n..]
    {
      forall i | 0 <= i < offset - n {
        buffer[i] := buffer[n + i];
      }
      offset := offset - n;
    }

    /** Copies the head and the data out of the complete frame that starts the buffer. */
    method TakePacket() returns (packet: Packet)
      requires Valid() && InnerSound(Held())
      ensures packet == PacketOf(Held())
    {
      HeldSlice(8, offset);
      var headLength := ToInt32(FromBe32(buffer[8..offset]));
      HeldSlice(12 + headLength, offset);
      var dataLength := ToInt32(FromBe32(buffer[12 + headLength..offset]));
      HeldSlice(12, 12 + headLength);
      HeldSlice(16 + headLength, 16 + headLength + dataLength);
      packet := Packet(buffer[12..12 + headLength], buffer[16 + headLength..16 + headLength + dataLength]);
    }

    lemma HeldSlice(i: nat, j: nat)
      requires Valid() && i <= j <= offset
      ensures buffer[i..j] == Held()[i..j]
    {
    }

    /** One `recv`: at most the free space is filled, and a result of zero bytes closes the connection. */
    method Receive(fragment: seq<byte>)
      requires Valid() && open && 0 < |fragment|
      requires offset < limit ==> offset + |fragment| <= limit && WellCut(Held() + fragment, limit)
      modifies this, buffer
      ensures Valid() && State() == old(Feed(State(), fragment, limit))
    {
      var free := limit - offset;
      var ret := if |fragment| < free then |fragment| else free;
      if ret > 0 {
        ghost var b := buffer[..offset];
        forall i | 0 <= i < ret {
          buffer[offset + i] := fragment[i];
        }
        offset := offset + ret;
        assert buffer[..offset] == b + fragment;
        Chunking();
      } else {
        open := false;
      }
    }

    /** The input handler: receives until nothing is left for now, or the connection closes. */
    method HandleInput(answers: seq<Answer>)
      requires Valid() && open && Legal(State(), answers, limit)
      modifies this, buffer
      ensures Valid() && State() == old(After(State(), answers, limit))
    {
      var i := 0;
      assert answers[0..] == answers;
      while i < |answers| && open
        invariant 0 <= i <= |answers| && Valid() && Legal(State(), answers[i..], limit)
        invariant After(State(), answers[i..], limit) == old(After(State(), answers, limit))
        decreases |answers| - i
      {
        assert answers[i..][0] == answers[i] && answers[i..][1..] == answers[i + 1..];
        match answers[i] {
          case Bytes(fragment) => Receive(fragment);
          case Closed => open := false; return;
          case WouldBlock => return;
          case Retry =>
        }
        i := i + 1;
      }
    }
  }
}

/** The sending side of the connection, and both sides joined. */
module StreamSenders {
  import opened Bytes
  import opened Frames
  import opened StreamSockets

  /** What one `send` is good for: at most 4096 bytes, and none for an error. */
  function Capped(answer: int): nat {
    if answer < 0 then 0 else Min(answer, PIECE)
  }

  const PIECE := 4096

  /** What some answers are good for. */
  function Offer(answers: seq<int>): nat {
    if answers == [] then 0 else Capped(answers[0]) + Offer(answers[1..])
  }

  /** How many of the answers it takes to send `n` bytes, if they suffice. */
  function Needed(n: nat, answers: seq<int>): (used: nat)
    ensures used <= |answers|
  {
    if n == 0 || answers == [] then 0
    else 1 + Needed(if n <= Capped(answers[0]) then 0 else n - Capped(answers[0]), answers[1..])
  }

  /** One answer of many, with `left` bytes to send. */
  lemma NextAnswer(answers: seq<int>, i: nat, left: nat)
    requires i < |answers| && 0 < left
    ensures Offer(answers[i..]) == Capped(answers[i]) + Offer(answers[i + 1..])
    ensures Needed(left, answers[i..])
         == 1 + Needed(if left <= Capped(answers[i]) then 0 else left - Capped(answers[i]), answers[i + 1..])
  {
    assert answers[i..][0] == answers[i] && answers[i..][1..] == answers[i + 1..];
  }

  lemma NoAnswers(answers: seq<int>)
    ensures answers[0..] == answers && Offer(answers[|answers|..]) == 0
    ensures forall rest: seq<int> :: Needed(0, rest) == 0
  {
  }

  /** The answers that let at least a byte through. */
  function Positives(answers: seq<int>): nat {
    if answers == [] then 0 else (if answers[0] > 0 then 1 else 0) + Positives(answers[1..])
  }

  function Sum(answers: seq<int>): int {
    if answers == [] then 0 else answers[0] + Sum(answers[1..])
  }

  /** Small answers are good for what they say, large ones for a full piece each. */
  lemma {:induction false} OfferIsSum(answers: seq<int>)
    ensures (forall a <- answers :: 0 <= a <= 4096) ==> Offer(answers) == Sum(answers)
    ensures (forall a <- answers :: a >= 4096) ==> Offer(answers) == 4096 * |answers|
    ensures (forall a <- answers :: a <= 0) ==> Offer(answers) == 0
  {
    if answers != [] {
      OfferIsSum(answers[1..]);
      assert answers[0] in answers && forall a <- answers[1..] :: a in answers;
    }
  }

  /** Every answer that lets anything through is good for a byte; of those needed for `n` bytes, at most `n` do. */
  lemma {:induction false} OfferAtLeast(n: nat, answers: seq<int>)
    ensures Offer(answers) >= Positives(answers)
    ensures n <= Offer(answers) ==> Positives(answers) <= n + Positives(answers[Needed(n, answers)..])
    decreases |answers|
  {
    if answers != [] {
      var rest := if n <= Capped(answers[0]) then 0 else n - Capped(answers[0]);
      OfferAtLeast(rest, answers[1..]);
      if n > 0 {
        assert answers[Needed(n, answers)..] == answers[1..][Needed(rest, answers[1..])..];
      }
    }
  }

  /**
   What some fields, sent one after the other, put on the wire: each takes the
   answers it needs, and what the last of these offers beyond it is lost.
  */
  function Flow(fields: seq<seq<byte>>, answers: seq<int>): (r: (seq<byte>, bool))
    decreases |fields|
  {
    if fields == [] then ([], true)
    else if Offer(answers) < |fields[0]| then (fields[0][..Offer(answers)], false)
    else
      var (sent, done) := Flow(fields[1..], answers[Needed(|fields[0]|, answers)..]);
      (fields[0] + sent, done)
  }

  function Joined(fields: seq<seq<byte>>): seq<byte> {
    if fields == [] then [] else fields[0] + Joined(fields[1..])
  }

  /** They go out in order, up to where the answers end; every answer above 0 puts at least a byte on the wire. */
  lemma {:induction false} FlowSends(fields: seq<seq<byte>>, answers: seq<int>)
    ensures var (sent, done) := Flow(fields, answers);
            && sent <= Joined(fields) && (done <==> sent == Joined(fields))
            && Min(Positives(answers), |Joined(fields)|) <= |sent| <= Offer(answers)
    decreases |fields|
  {
    if fields != [] {
      var f, tail := fields[0], Joined(fields[1..]);
      OfferAtLeast(|f|, answers);
      if Offer(answers) >= |f| {
        var u := Needed(|f|, answers);
        var sent := Flow(fields[1..], answers[u..]).0;
        FlowSends(fields[1..], answers[u..]);
        OfferSplit(|f|, answers);
        assert (f + sent)[|f|..] == sent && (f + tail)[|f|..] == tail;
      }
    }
  }

  /** The answers behind the needed ones are good for no more than the rest. */
  lemma {:induction false} OfferSplit(n: nat, answers: seq<int>)
    requires n <= Offer(answers)
    ensures n + Offer(answers[Needed(n, answers)..]) <= Offer(answers)
    decreases |answers|
  {
    if n > 0 {
      var rest := if n <= Capped(answers[0]) then 0 else n - Capped(answers[0]);
      OfferSplit(rest, answers[1..]);
      assert answers[Needed(n, answers)..] == answers[1..][Needed(rest, answers[1..])..];
    }
  }

  /** The six pieces in which a frame is sent. */
  function FrameFields(pk: Packet): seq<seq<byte>>
    requires TotalLength(pk) < TWO31
  {
    [Be32(HEAD), Be32(TotalLength(pk)), Be32(|pk.head|), pk.head, Be32(|pk.data|), pk.data]
  }

  ghost function StreamFields(packets: seq<Packet>): seq<seq<byte>>
    requires Sendable(packets)
  {
    if packets == [] then [] else FrameFields(packets[0]) + StreamFields(packets[1..])
  }

  lemma FieldsInTurn(a: seq<byte>, b: seq<byte>, c: seq<byte>, d: seq<byte>, e: seq<byte>, f: seq<byte>,
                     more: seq<seq<byte>>)
    ensures [a, b, c, d, e, f] + more == [a] + ([b] + ([c] + ([d] + ([e] + ([f] + more)))))
  {
  }

  lemma FieldsAt(packets: seq<Packet>, i: nat)
    requires Sendable(packets) && i < |packets|
    ensures Sendable(packets[i..]) && Sendable(packets[i + 1..])
    ensures StreamFields(packets[i..]) == FrameFields(packets[i]) + StreamFields(packets[i + 1..])
  {
    assert packets[i..][1..] == packets[i + 1..];
  }

  lemma NoFields(answers: seq<int>)
    ensures Sendable([]) && StreamFields([]) == [] && Flow([], answers) == ([], true)
  {
  }

  lemma {:induction false} JoinedMore(fields: seq<seq<byte>>, more: seq<seq<byte>>)
    ensures Joined(fields + more) == Joined(fields) + Joined(more)
  {
    if fields == [] {
      assert [] + more == more;
    } else {
      JoinedMore(fields[1..], more);
      assert (fields + more)[1..] == fields[1..] + more;
      ConcatAssociative(fields[0], Joined(fields[1..]), Joined(more));
    }
  }

  lemma JoinedFrame(pk: Packet)
    requires TotalLength(pk) < TWO31
    ensures Joined(FrameFields(pk)) == Frame(pk)
  {
    hide Be32;
    JoinedSix(Be32(HEAD), Be32(TotalLength(pk)), Be32(|pk.head|), pk.head, Be32(|pk.data|), pk.data);
  }

  lemma JoinedFirst(x: seq<byte>, rest: seq<seq<byte>>)
    ensures Joined([x] + rest) == x + Joined(rest)
  {
    assert ([x] + rest)[1..] == rest;
  }

  lemma JoinedSix(a: seq<byte>, b: seq<byte>, c: seq<byte>, d: seq<byte>, e: seq<byte>, f: seq<byte>)
    ensures Joined([a, b, c, d, e, f]) == a + b + c + d + e + f
  {
    hide Joined;
    FieldsInTurn(a, b, c, d, e, f, []);
    var r5 := [f] + [];
    var r4 := [e] + r5;
    var r3 := [d] + r4;
    var r2 := [c] + r3;
    var r1 := [b] + r2;
    assert [a, b, c, d, e, f] == [a] + r1;
    JoinedFirst(a, r1);
    JoinedFirst(b, r2);
    JoinedFirst(c, r3);
    JoinedFirst(d, r4);
    JoinedFirst(e, r5);
    JoinedFirst(f, []);
    NoneJoined();
  }

  lemma NoneJoined()
    ensures Joined([]) == []
  {
  }

  /** These pieces, joined, are the stream. */
  lemma {:induction false} JoinedStream(packets: seq<Packet>)
    requires Sendable(packets)
    ensures Joined(StreamFields(packets)) == Stream(packets)
  {
    if packets != [] {
      hide Joined, FrameFields, Frame;
      JoinedMore(FrameFields(packets[0]), StreamFields(packets[1..]));
      JoinedFrame(packets[0]);
      JoinedStream(packets[1..]);
    }
  }

  /** What the queued packets put on the wire: all of their stream when enough answers let a byte through. */
  lemma OutSends(packets: seq<Packet>, answers: seq<int>)
    requires Sendable(packets)
    ensures var (sent, done) := Flow(StreamFields(packets), answers);
            && sent <= Stream(packets) && (done <==> sent == Stream(packets))
            && Min(Positives(answers), |Stream(packets)|) <= |sent| <= Offer(answers)
            && (Positives(answers) >= |Stream(packets)| ==> sent == Stream(packets))
  {
    hide Flow, StreamFields, Joined, Stream;
    FlowSends(StreamFields(packets), answers);
    JoinedStream(packets);
  }

  /** The sending side: the socket takes as many bytes of each `send` as it likes, or none. */
  class Sender {
    var wire: seq<byte>

    constructor ()
      ensures wire == []
    {
      wire := [];
    }

    /**
     Sends in pieces of at most 4096 bytes; `answers` are what the socket says
     to each attempt, negative for an error that is tried again. `done` is
     false when the answers end before the data.
    */
    method Send(data: seq<byte>, answers: seq<int>) returns (done: bool, used: nat)
      modifies this
      ensures used <= |answers|
      ensures wire == old(wire) + data[..Min(|data|, Offer(answers))]
      ensures done <==> |data| <= Offer(answers)
      ensures used == if done then Needed(|data|, answers) else |answers|
    {
      hide Offer, Needed;
      NoAnswers(answers);
      used := 0;
      if |data| == 0 {
        return true, 0;
      }
      var sent := 0;
      while used < |answers|
        invariant used <= |answers| && 0 <= sent < |data|
        invariant wire == old(wire) + data[..sent]
        invariant sent + Offer(answers[used..]) == Offer(answers)
        invariant used + Needed(|data| - sent, answers[used..]) == Needed(|data|, answers)
      {
        NextAnswer(answers, used, |data| - sent);
        var size := |data| - sent;
        if size > PIECE {
          size := PIECE;
        }
        var ret := if answers[used] < size then answers[used] else size;
        used := used + 1;
        if ret < 0 {
          continue;
        }
        wire := wire + data[sent..sent + ret];
        sent := sent + ret;
        if sent == |data| {
          assert data[..sent] == data;
          return true, used;
        }
      }
      done := false;
    }

    /** One field, in front of `more`: what all of them put on the wire stays the same. */
    method SendField(data: seq<byte>, answers: seq<int>, used: nat, ghost more: seq<seq<byte>>)
      returns (done: bool, used': nat)
      requires used <= |answers|
      modifies this
      ensures used <= used' <= |answers|
      ensures var all := old(wire) + Flow([data] + more, answers[used..]).0;
              wire + (if done then Flow(more, answers[used'..]).0 else []) == all
      ensures Flow([data] + more, answers[used..]).1 == (done && Flow(more, answers[used'..]).1)
    {
      var n;
      ghost var before := wire;
      assert ([data] + more)[0] == data && ([data] + more)[1..] == more;
      done, n := Send(data, answers[used..]);
      used' := used + n;
      assert answers[used..][n..] == answers[used'..];
      if done {
        assert data[..|data|] == data;
        ConcatAssociative(before, data, Flow(more, answers[used'..]).0);
      }
    }

    /** The six fields of a frame, each sent on its own, in front of `more`. */
    method SendPacket(pk: Packet, answers: seq<int>, used: nat, ghost more: seq<seq<byte>>)
      returns (done: bool, used': nat)
      requires TotalLength(pk) < TWO31 && used <= |answers|
      modifies this
      ensures used <= used' <= |answers|
      ensures var all := old(wire) + Flow(FrameFields(pk) + more, answers[used..]).0;
              wire + (if done then Flow(more, answers[used'..]).0 else []) == all
      ensures Flow(FrameFields(pk) + more, answers[used..]).1 == (done && Flow(more, answers[used'..]).1)
    {
      hide Be32, Flow;
      var a, b, c, d := Be32(HEAD), Be32(TotalLength(pk)), Be32(|pk.head|), Be32(|pk.data|);
      FieldsInTurn(a, b, c, pk.head, d, pk.data, more);
      done, used' := SendField(a, answers, used, [b] + ([c] + ([pk.head] + ([d] + ([pk.data] + more)))));
      if !done { return; }
      done, used' := SendField(b, answers, used', [c] + ([pk.head] + ([d] + ([pk.data] + more))));
      if !done { return; }
      done, used' := SendField(c, answers, used', [pk.head] + ([d] + ([pk.data] + more)));
      if !done { return; }
      done, used' := SendField(pk.head, answers, used', [d] + ([pk.data] + more));
      if !done { return; }
      done, used' := SendField(d, answers, used', [pk.data] + more);
      if !done { return; }
      done, used' := SendField(pk.data, answers, used', more);
    }

    /**
     The output handler: the queued packets, one after the other. All of them
     are out when enough of the answers let a byte through.
    */
    method HandleOutput(packets: seq<Packet>, answers: seq<int>) returns (done: bool)
      requires Sendable(packets)
      modifies this
      ensures wire == old(wire) + Flow(StreamFields(packets), answers).0
      ensures done == Flow(StreamFields(packets), answers).1
      ensures Positives(answers) >= |Stream(packets)| ==> done && wire == old(wire) + Stream(packets)
    {
      OutSends(packets, answers);
      hide Flow, FrameFields, StreamFields, Stream, Positives, Offer;
      var used, i := 0, 0;
      ghost var all, out := StreamFields(packets), Flow(StreamFields(packets), answers);
      ghost var goal := wire + out.0;
      assert packets[0..] == packets && answers[0..] == answers;
      while i < |packets|
        invariant 0 <= i <= |packets| && used <= |answers|
        invariant wire + Flow(StreamFields(packets[i..]), answers[used..]).0 == goal
        invariant Flow(StreamFields(packets[i..]), answers[used..]).1 == out.1
      {
        FieldsAt(packets, i);
        done, used := SendPacket(packets[i], answers, used, StreamFields(packets[i + 1..]));
        if !done {
          assert wire + [] == wire;
          return;
        }
        i := i + 1;
      }
      NoFields(answers[used..]);
      assert packets[i..] == [] && wire + [] == wire;
      done := true;
    }
  }

  /**
   A sender and a receiver joined: for whatever the socket answers to each
   `send`, and however `recv` splits what is on the wire, the packets delivered
   are the queued ones whose bytes have all come; `split` gives the `recv`
   answers for a wire.
  */
  method Carry(packets: seq<Packet>, answers: seq<int>, split: seq<byte> -> seq<Answer>, limit: int)
    returns (wire: seq<byte>, delivered: seq<Packet>, open: bool)
    requires Fit(packets, limit) && Sendable(packets) && 0 < limit
    requires forall bytes :: bytes <= Stream(packets) ==>
               Offered(packets, [], split(bytes), limit) && Taken(split(bytes)).0 <= bytes
    ensures wire == Flow(StreamFields(packets), answers).0
    ensures wire <= Stream(packets) && Min(Positives(answers), |Stream(packets)|) <= |wire| <= Offer(answers)
    ensures delivered == packets[..Whole(packets, Taken(split(wire)).0)] && open == Taken(split(wire)).1
    ensures Taken(split(wire)).0 == Stream(packets) ==> delivered == packets
    ensures Positives(answers) >= |Stream(packets)| && Taken(split(wire)).0 == wire ==> delivered == packets
  {
    hide Frame, Stream, StreamFields, Flow, Whole, Left, Offered, Taken, Legal, After;
    var sender := new Sender();
    OutSends(packets, answers);
    assert [] + Flow(StreamFields(packets), answers).0 == Flow(StreamFields(packets), answers).0;
    var _ := sender.HandleOutput(packets, answers);
    wire := sender.wire;
    var receiver := new Receiver(limit);
    var recvs := split(wire);
    NotYet(packets);
    HandlerDelivers(packets, [], recvs, limit);
    receiver.HandleInput(recvs);
    assert [] + Taken(recvs).0 == Taken(recvs).0;
    AllWhole(packets);
    delivered, open := receiver.delivered, receiver.open;
  }
}

/** The metadata reply as a packet on the network. */
module MetaFrames {
  import opened Bytes
  import opened Chunks
  import opened MetaReplies
  import opened Frames
  import opened StreamSockets

  const REPLY_HEAD_LENGTH := 13

  /** The packet that the server queues for a list of chunks: one byte of its head and ten of its data are unused. */
  ghost predicate Replies(packet: Packet, chunks: seq<Chunk>) {
    && |packet.head| == REPLY_HEAD_LENGTH && |chunks| < TWO31 && packet.head[..12] == ReplyHead(|chunks|)
    && |packet.data| == RECORD_LENGTH * |chunks| + 10 && packet.data[..RECORD_LENGTH * |chunks|] == Records(chunks)
  }

  /** The server's two buffers are such a packet. */
  method Reply(meta: seq<ChunkInfo>) returns (packet: Packet)
    requires |meta| < TWO31
    ensures Replies(packet, Infos(meta))
  {
    hide Records, Infos;
    var head := SerialiseHead(|meta|);
    var data := Serialise(meta);
    packet := Packet(head[..REPLY_HEAD_LENGTH], data[..]);
    assert packet.head[..12] == head[..12];
    assert packet.data[..RECORD_LENGTH * |meta|] == data[..RECORD_LENGTH * |meta|];
  }

  /**
   However the stream is split: when all of the reply has come, it has been
   delivered exactly when its frame fits the receive buffer, and then the client
   reads the server's list from it.
  */
  lemma ReplyArrivesIff(packet: Packet, chunks: seq<Chunk>, fragments: seq<seq<byte>>, limit: int, c: Conn)
    requires Replies(packet, chunks) && forall k :: 0 <= k < |chunks| ==> chunks[k].from
    requires TotalLength(packet) < TWO31 && 0 < limit < TWO31
    requires Reaches(fragments, limit, c) && Concat(fragments) == Frame(packet)
    ensures c.delivered == [packet] <==> RECORD_LENGTH * |chunks| + 39 <= limit
    ensures CodeOf(packet.head) == 1 && CountOf(packet.head) == |chunks| && ReadRecords(packet.data, |chunks|) == chunks
  {
    hide Frame, Reaches, Concat, Records, ReadRecords, CodeOf, CountOf, ReplyHead;
    var packets := [packet];
    assert Stream(packets) == Frame(packet) by {
      assert packets[1..] == [] && Frame(packet) + [] == Frame(packet);
    }
    ArrivesIff(packets, fragments, limit, c);
    assert Fit(packets, limit) <==> TotalLength(packets[0]) + 8 <= limit;
    HeadParts(packet.head, packet.head[..12], |chunks|);
    RecordsParts(packet.data, chunks);
  }
}

/** The reply to a metadata request: the server's serialiser and the client's parser. */
module MetaReplies {
  import opened Bytes
  import opened Chunks
  import opened Signatures
  import opened Packages

  const OK: uint32 := 1
  const FILE_DID_NOT_EXIST := -1
  const RECORD_LENGTH := 44

  /** One chunk in a reply. */
  function Record(c: Chunk): (b: seq<byte>)
    ensures |b| == RECORD_LENGTH
  {
    Be32(c.weak) + Be32(Word(c.offset)) + Be32(Word(c.length)) + c.strong
  }

  function Records(chunks: seq<Chunk>): (b: seq<byte>)
    ensures |b| == RECORD_LENGTH * |chunks|
  {
    if chunks == [] then [] else Record(chunks[0]) + Records(chunks[1..])
  }

  /** The head of a successful reply. */
  function ReplyHead(count: uint32): (b: seq<byte>)
    ensures |b| == 12
  {
    Be32(OK) + Be32(count) + Be32(1)
  }

  /** Record `k` follows the ones before it. */
  lemma {:induction false} RecordAt(chunks: seq<Chunk>, k: nat)
    requires k < |chunks|
    ensures Records(chunks)[44 * k..44 * k + 44] == Record(chunks[k])
    decreases k
  {
    hide Record;
    var first, more := Record(chunks[0]), Records(chunks[1..]);
    if k == 0 {
      assert (first + more)[0..44] == first;
    } else {
      RecordAt(chunks[1..], k - 1);
      assert (first + more)[44 * k..44 * k + 44] == more[44 * (k - 1)..44 * (k - 1) + 44];
    }
  }

  /** What the client reads from a record: every chunk comes from the source. */
  function ReadRecord(b: seq<byte>): Chunk
    requires |b| >= RECORD_LENGTH
  {
    Chunk(FromBe32(b), true, ToInt32(FromBe32(b[4..])), ToInt32(FromBe32(b[8..])), b[12..44])
  }

  function ReadRecords(b: seq<byte>, n: nat): (chunks: seq<Chunk>)
    requires |b| >= RECORD_LENGTH * n
    ensures |chunks| == n
    decreases n
  {
    if n == 0 then [] else [ReadRecord(b)] + ReadRecords(b[RECORD_LENGTH..], n - 1)
  }

  /** The fields of a record, where the reply holds it. */
  lemma RecordFields(c: Chunk, rest: seq<byte>)
    ensures var b := Record(c) + rest;
            && FromBe32(b) == c.weak && FromBe32(b[4..]) == Word(c.offset) && FromBe32(b[8..]) == Word(c.length)
            && b[12..44] == c.strong
  {
    hide Be32, FromBe32, Word;
    var b := Record(c) + rest;
    var w, o, l := Be32(c.weak), Be32(Word(c.offset)), Be32(Word(c.length));
    Parts(w, o, l, c.strong, rest);
    assert b[0..] == b;
    WordAt(b, [], c.weak, o + l + c.strong + rest);
    WordAt(b, w, Word(c.offset), l + c.strong + rest);
    WordAt(b, w + o, Word(c.length), c.strong + rest);
    assert b[12..] == c.strong + rest && b[12..44] == b[12..][..32];
  }

  lemma ReadOfRecord(c: Chunk, rest: seq<byte>)
    requires c.from
    ensures ReadRecord(Record(c) + rest) == c
  {
    hide Be32, FromBe32, Word, Record;
    RecordFields(c, rest);
    WordRoundTrip(c.offset);
    WordRoundTrip(c.length);
  }

  /** The parser inverts the serialiser, for every list of chunks of a source file. */
  lemma {:induction false} ReadOfRecords(chunks: seq<Chunk>, rest: seq<byte>)
    requires forall k :: 0 <= k < |chunks| ==> chunks[k].from
    ensures ReadRecords(Records(chunks) + rest, |chunks|) == chunks
    decreases |chunks|
  {
    if chunks != [] {
      hide ReadRecord, Record;
      var first, more := Record(chunks[0]), Records(chunks[1..]);
      ReadOfRecord(chunks[0], more + rest);
      ReadOfRecords(chunks[1..], rest);
      ConcatAssociative(first, more, rest);
      assert (first + (more + rest))[RECORD_LENGTH..] == more + rest;
    }
  }

  /** `package->SetInt32_t(htonl(...))` with room for a word. */
  method PutNetInt(package: Package, word: uint32)
    requires package.Valid() && package.leftLength >= 4
    modifies package`pointer, package`leftLength, package.data
    ensures package.Valid() && package.leftLength == old(package.leftLength) - 4
    ensures package.Passed() == old(package.Passed()) + Be32(word)
  {
    hide Be32, Swap, Host, Package.Passed, Package.Valid;
    SwapIsNetworkOrder(word);
    SignedRoundTrip(Swap(word));
    package.SetInt32(ToInt32(Swap(word)));
  }

  /** Three integers and a string through the cursor, each integer swapped first. */
  method PutRecord(package: Package, chunk: ChunkInfo)
    requires package.Valid() && package.leftLength >= RECORD_LENGTH
    modifies package`pointer, package`leftLength, package.data
    ensures package.Valid() && package.leftLength == old(package.leftLength) - RECORD_LENGTH
    ensures package.Passed() == old(package.Passed()) + Record(chunk.Info())
  {
    hide Be32, Swap, Host, Word, Package.Passed, Package.Valid;
    ghost var before := package.Passed();
    ghost var w, o, l := Be32(chunk.weak), Be32(Word(chunk.offset)), Be32(Word(chunk.length));
    SwapIsNetworkOrder(chunk.weak);
    package.SetUint32(Swap(chunk.weak));
    PutNetInt(package, Word(chunk.offset));
    PutNetInt(package, Word(chunk.length));
    package.SetString(chunk.strong);
    Parts(before, w, o, l, chunk.strong);
  }

  lemma RecordsAt(done: seq<byte>, chunks: seq<Chunk>, i: nat)
    requires i < |chunks|
    ensures done + Records(chunks[i..]) == (done + Record(chunks[i])) + Records(chunks[i + 1..])
  {
    assert chunks[i..][1..] == chunks[i + 1..];
    ConcatAssociative(done, Record(chunks[i]), Records(chunks[i + 1..]));
  }

  /** The data of the reply: the records, in a buffer ten bytes longer. */
  method Serialise(meta: seq<ChunkInfo>) returns (data: array<byte>)
    ensures fresh(data) && data.Length == RECORD_LENGTH * |meta| + 10
    ensures data[..RECORD_LENGTH * |meta|] == Records(Infos(meta))
  {
    hide Infos, Records, Record;
    ghost var chunks := Infos(meta);
    data := new byte[|meta| * RECORD_LENGTH + 10];
    var package := new Package(data, |meta| * RECORD_LENGTH + 10);
    assert chunks[0..] == chunks && package.Passed() == [] && [] + Records(chunks) == Records(chunks);
    for i := 0 to |meta|
      invariant package.Valid() && package.data == data && fresh(package)
      invariant package.leftLength == RECORD_LENGTH * (|meta| - i) + 10 && package.dataLength == data.Length
      invariant package.Passed() + Records(chunks[i..]) == Records(chunks)
      invariant Infos(meta) == chunks
    {
      RecordsAt(package.Passed(), chunks, i);
      PutRecord(package, meta[i]);
    }
    assert package.Passed() + [] == package.Passed();
  }

  /** The three words of a head: success, the number of records, and that the last block is to be ignored. */
  lemma HeadWordsOf(count: uint32)
    ensures var head := ReplyHead(count);
            FromBe32(head) == 1 && FromBe32(head[4..]) == count && FromBe32(head[8..]) == 1
  {
    hide Be32, FromBe32;
    var head, a, b, c := ReplyHead(count), Be32(OK), Be32(count), Be32(1);
    assert head == [] + (a + (b + c)) && head == a + (b + c) && head == (a + b) + (c + []);
    WordAt(head, [], OK, b + c);
    assert head[0..] == head;
    WordAt(head, a, count, c);
    WordAt(head, a + b, 1, []);
  }

  /** The head of the reply. */
  method SerialiseHead(count: uint32) returns (head: array<byte>)
    ensures fresh(head) && head.Length == 15 && head[..12] == ReplyHead(count)
    ensures FromBe32(head[..12]) == 1 && FromBe32(head[4..12]) == count && FromBe32(head[8..12]) == 1
  {
    HeadWordsOf(count);
    head := new byte[15];
    var package := new Package(head, 13);
    PutNetInt(package, OK);
    PutNetInt(package, count);
    PutNetInt(package, 1);
    assert head[..12] == package.Passed();
    assert head[4..12] == head[..12][4..] && head[8..12] == head[..12][8..];
  }

  /** The head that says there is no such file. */
  method SerialiseMissing() returns (head: array<byte>)
    ensures fresh(head) && head.Length == 5 && head[..4] == Be32(Word(FILE_DID_NOT_EXIST)) == [255, 255, 255, 255]
  {
    head := new byte[5];
    var package := new Package(head, 5);
    SwapIsNetworkOrder(Word(FILE_DID_NOT_EXIST));
    package.SetUint32(Swap(Word(FILE_DID_NOT_EXIST)));
    assert head[..4] == package.Passed();
  }

  /** One record through the cursor. */
  method GetRecord(package: Package) returns (c: Chunk)
    requires package.Valid() && package.leftLength >= RECORD_LENGTH
    modifies package`pointer, package`leftLength
    ensures package.Valid() && c == ReadRecord(old(package.Remaining()))
    ensures package.Remaining() == old(package.Remaining())[RECORD_LENGTH..]
  {
    ghost var all := package.Remaining();
    var weak := GetNetWord(package);
    var offset := GetNetInt(package);
    var length := GetNetInt(package);
    var _, strong := package.GetString(32);
    assert all[4..][4..] == all[8..] && all[8..][4..] == all[12..] && all[12..][..32] == all[12..44];
    assert all[12..][32..] == all[44..];
    c := Chunk(weak, true, ToInt32(offset), ToInt32(length), strong);
  }

  /** `ntohl(package->GetUint32_t())` with a word left to read. */
  method GetNetWord(package: Package) returns (word: uint32)
    requires package.Valid() && package.leftLength >= 4
    modifies package`pointer, package`leftLength
    ensures package.Valid() && word == FromBe32(old(package.Remaining()))
    ensures package.Remaining() == old(package.Remaining())[4..]
  {
    ghost var all := package.Remaining();
    var bits := package.GetUint32();
    NetWord(all);
    word := Swap(bits);
  }

  /** `ntohl(package->GetInt32_t())`; past the end it is 0. */
  method GetNetInt(package: Package) returns (word: uint32)
    requires package.Valid()
    modifies package`pointer, package`leftLength
    ensures package.Valid()
    ensures old(package.leftLength) >= 4 ==>
      word == FromBe32(old(package.Remaining())) && package.Remaining() == old(package.Remaining())[4..]
    ensures old(package.leftLength) < 4 ==> word == 0
  {
    if package.leftLength >= 4 {
      NetWord(package.Remaining());
      SignedRoundTrip(FromHost(package.Remaining()));
    }
    SwapIsNetworkOrder(0);
    var bits := package.GetInt32();
    word := Swap(Wrap32(bits));
  }

  lemma NetWord(b: seq<byte>)
    requires |b| >= 4
    ensures Swap(FromHost(b)) == FromBe32(b)
  {
    hide Swap, Host, Be32;
    var v := FromBe32(b[..4]);
    Be32OfFromBe32(b[..4]);
    SwapIsNetworkOrder(v);
    HostRoundTrip(Swap(v));
    assert FromHost(b) == FromHost(b[..4]);
  }

  /** The response code and the record count of a reply's head; a head of one word announces no records. */
  function CodeOf(head: seq<byte>): int32
    requires |head| >= 4
  {
    ToInt32(FromBe32(head))
  }

  function CountOf(head: seq<byte>): nat
    requires |head| >= 4
  {
    if |head| < 8 then 0
    else
      var n := ToInt32(FromBe32(head[4..]));
      if n < 0 then 0 else n
  }

  method ReadHead(head: array<byte>, headLength: int) returns (code: int32, count: int32)
    requires 4 <= headLength <= head.Length
    ensures code == CodeOf(head[..headLength])
    ensures CountOf(head[..headLength]) == if count < 0 then 0 else count
  {
    ghost var all := head[..headLength];
    var package := new Package(head, headLength);
    assert package.Remaining() == all;
    var word := GetNetInt(package);
    code := ToInt32(word);
    word := GetNetInt(package);
    count := ToInt32(word);
  }

  method ReadList(package: Package, count: int, ghost n: nat) returns (meta: seq<ChunkInfo>)
    requires package.Valid() && n == (if count < 0 then 0 else count) && RECORD_LENGTH * n <= package.leftLength
    modifies package`pointer, package`leftLength
    ensures fresh(meta) && Distinct(meta) && Infos(meta) == ReadRecords(old(package.Remaining()), n)
  {
    hide Distinct, Infos, ReadRecords, ReadRecord, Package.Remaining, Package.Valid;
    meta := [];
    NoInfos();
    ghost var goal, left := ReadRecords(package.Remaining(), n), n;
    assert [] + goal == goal;
    var i := 0;
    while i < count
      invariant 0 <= i && left == n - i && (i <= n || count < 0)
      invariant package.Valid() && RECORD_LENGTH * left <= package.leftLength
      invariant fresh(meta) && Distinct(meta) && Infos(meta) + ReadRecords(package.Remaining(), left) == goal
    {
      ReadRecordsStep(Infos(meta), package.Remaining(), left);
      var c := GetRecord(package);
      meta := PushBack(meta, c);
      i, left := i + 1, left - 1;
    }
    assert Infos(meta) + [] == Infos(meta);
  }

  lemma ReadRecordsStep(done: seq<Chunk>, b: seq<byte>, left: nat)
    requires left > 0 && |b| >= RECORD_LENGTH * left
    ensures done + ReadRecords(b, left) == (done + [ReadRecord(b)]) + ReadRecords(b[RECORD_LENGTH..], left - 1)
  {
    ConcatAssociative(done, [ReadRecord(b)], ReadRecords(b[RECORD_LENGTH..], left - 1));
  }

  /** The client: the code, the count, then the records; no list for a negative code. */
  method ParseReply(head: array<byte>, headLength: int, data: array<byte>, dataLength: int)
    returns (ok: bool, meta: seq<ChunkInfo>)
    requires 4 <= headLength <= head.Length && 0 <= dataLength <= data.Length
    requires RECORD_LENGTH * CountOf(head[..headLength]) <= dataLength
    ensures ok <==> CodeOf(head[..headLength]) >= 0
    ensures fresh(meta)
    ensures ok ==> Distinct(meta) && Infos(meta) == ReadRecords(data[..dataLength], CountOf(head[..headLength]))
  {
    meta := [];
    var code, count := ReadHead(head, headLength);
    if code < 0 {
      return false, meta;
    }
    ok := true;
    var package := new Package(data, dataLength);
    assert package.Remaining() == data[..dataLength];
    meta := ReadList(package, count, CountOf(head[..headLength]));
  }

  /** Server and client together: the client's list is the server's, or none when the file is missing. */
  method Exchange(exists_: bool, meta: seq<ChunkInfo>) returns (ok: bool, received: seq<ChunkInfo>)
    requires |meta| < TWO31 && forall c <- meta :: c.from
    ensures ok <==> exists_
    ensures fresh(received)
    ensures ok ==> Distinct(received) && Infos(received) == Infos(meta)
  {
    hide Records, ReadRecords, CodeOf, CountOf, Infos, Distinct, Word, Be32, ReplyHead;
    if !exists_ {
      var head := SerialiseMissing();
      var data := new byte[1];
      MissingParts(head[..4]);
      ok, received := ParseReply(head, 4, data, 1);
      return;
    }
    ghost var chunks := Infos(meta);
    var data := Serialise(meta);
    var head := SerialiseHead(|meta|);
    HeadParts(head[..13], head[..12], |meta|);
    RecordsParts(data[..data.Length], chunks);
    ok, received := ParseReply(head, 13, data, data.Length);
  }

  lemma RecordsParts(b: seq<byte>, chunks: seq<Chunk>)
    requires |b| >= RECORD_LENGTH * |chunks| && b[..RECORD_LENGTH * |chunks|] == Records(chunks)
    requires forall k :: 0 <= k < |chunks| ==> chunks[k].from
    ensures ReadRecords(b, |chunks|) == chunks
  {
    var m := RECORD_LENGTH * |chunks|;
    ReadOfRecords(chunks, b[m..]);
    hide *;
    assert b == b[..m] + b[m..];
  }

  lemma MissingParts(head: seq<byte>)
    requires head == Be32(Word(FILE_DID_NOT_EXIST))
    ensures CodeOf(head) == FILE_DID_NOT_EXIST && CountOf(head) == 0
  {
    hide Be32, FromBe32, Word;
    WordRoundTrip(FILE_DID_NOT_EXIST);
    assert head == [] + (Be32(Word(FILE_DID_NOT_EXIST)) + []) && head[0..] == head;
    WordAt(head, [], Word(FILE_DID_NOT_EXIST), []);
  }

  lemma HeadParts(head: seq<byte>, front: seq<byte>, count: int32)
    requires 0 <= count && |head| >= 12 && head[..12] == front == ReplyHead(count)
    ensures CodeOf(head) == 1 && CountOf(head) == count
  {
    hide Be32, FromBe32;
    var a, b, c := Be32(OK), Be32(count), Be32(1);
    var rest := head[12..];
    assert head == a + b + c + rest + [];
    Parts(a, b, c, rest, []);
    WordAt(head, [], OK, b + c + rest + []);
    assert head[0..] == head;
    WordAt(head, a, count, c + rest + []);
  }
}

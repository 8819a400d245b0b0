/** The client's rebuild: describe the source, relocate chunks into the destination, write the source again. */
module FileRebuilds {
  import opened Bytes
  import opened Chunks
  import opened Signatures
  import opened Scans
  import opened ScanEnds
  import opened ScanNewFiles
  import opened ScanWindows
  import opened RsyncServices
  import opened Relocations
  import opened FileMaps
  import opened ReadWindows
  import opened Checksum3s
  import opened MetaReplies

  /** What a round makes of the chunks and of the position. */
  predicate Shifts(p: Params, r: Round, state: seq<Chunk>, curr: int, state': seq<Chunk>, curr': int) {
    match r
    case End => state' == state && curr' == curr
    case Skip(next) => state' == state && curr' == next
    case Found(at, k, next) =>
      0 <= k < |state| && 0 <= at < TWO31 && state' == Relocate(state, k, at) && curr' == next
    case Past(at, k) =>
      0 <= k < |state| && 0 <= at < TWO31 && state' == Relocate(state, k, at) && curr' == at + p.chunk - 1
  }

  /** The chunks as all rounds leave them stay the same. */
  ghost predicate Keeps(p: Params, chunks: seq<Chunk>, file: seq<byte>, behind: seq<byte>,
                        state: seq<Chunk>, curr: int, state': seq<Chunk>, curr': int)
    requires 1 <= p.chunk == |behind| && 0 <= curr && 0 <= curr' && |file| < TWO31
    requires |state| == |state'| == |chunks|
  {
    Relocated(p, chunks, state', file, behind, curr') == Relocated(p, chunks, state, file, behind, curr)
  }

  lemma ShiftsKeep(p: Params, chunks: seq<Chunk>, file: seq<byte>, behind: seq<byte>,
                   state: seq<Chunk>, curr: int, state': seq<Chunk>, curr': int)
    requires 1 <= p.chunk == |behind| && 0 <= curr && |file| < TWO31 && |state| == |chunks|
    requires Shifts(p, RoundAt(p, chunks, file, behind, curr), state, curr, state', curr')
    ensures 0 <= curr' && |state'| == |state| && Keeps(p, chunks, file, behind, state, curr, state', curr')
    ensures MeetsEnd(p, file, curr) ==> curr' + p.chunk > |file|
    ensures if curr + p.chunk > |file| then curr' == curr else curr < curr'
  {
    hide RoundAt, Relocated;
    RelocatedStep(p, chunks, state, file, behind, curr);
    RelocatedStep(p, chunks, state', file, behind, curr');
  }

  /** How far the scan is: whatever the buffer will hold, until a round meets the end; then, for what it held there. */
  ghost predicate Halfway(p: Params, chunks: seq<Chunk>, file: seq<byte>, met: bool, behind: seq<byte>,
                          state: seq<Chunk>, curr: int)
    requires 1 <= p.chunk && 0 <= curr && |file| < TWO31
  {
    |behind| == p.chunk && |state| == |chunks|
    && if met then
         curr + p.chunk > |file| && Keeps(p, chunks, file, behind, chunks, 0, state, curr)
       else
         forall b {:trigger Relocated(p, chunks, chunks, file, b, 0)} ::
           |b| == p.chunk ==> Keeps(p, chunks, file, b, chunks, 0, state, curr)
  }

  lemma HalfwayStart(p: Params, chunks: seq<Chunk>, file: seq<byte>, behind: seq<byte>)
    requires 1 <= p.chunk == |behind| && |file| < TWO31
    ensures Halfway(p, chunks, file, false, behind, chunks, 0)
  {
    hide Relocated;
    forall b: seq<byte> | |b| == p.chunk
      ensures Keeps(p, chunks, file, b, chunks, 0, chunks, 0)
    {
    }
  }

  lemma HalfwayOn(p: Params, chunks: seq<Chunk>, file: seq<byte>, met: bool, before: seq<byte>, behind: seq<byte>,
                  state: seq<Chunk>, curr: int, state': seq<Chunk>, curr': int)
    requires 1 <= p.chunk == |behind| && 0 <= curr && |file| < TWO31
    requires Halfway(p, chunks, file, met, before, state, curr)
    requires Shifts(p, RoundAt(p, chunks, file, behind, curr), state, curr, state', curr')
    ensures 0 <= curr' && if curr + p.chunk > |file| then curr' == curr else curr < curr'
    ensures var meets := MeetsEnd(p, file, curr);
            Halfway(p, chunks, file, met || meets, if meets then behind else before, state', curr')
  {
    hide RoundAt, Relocated;
    ShiftsKeep(p, chunks, file, behind, state, curr, state', curr');
    if !met {
      forall b: seq<byte> | |b| == p.chunk && (b == behind || !MeetsEnd(p, file, curr))
        ensures Keeps(p, chunks, file, b, chunks, 0, state', curr')
      {
        if b != behind {
          BehindIdle(p, chunks, file, b, behind, curr);
        }
        ShiftsKeep(p, chunks, file, b, state, curr, state', curr');
        var _ := Relocated(p, chunks, chunks, file, b, 0);
      }
    }
  }

  lemma HalfwayDone(p: Params, chunks: seq<Chunk>, file: seq<byte>, met: bool, behind: seq<byte>,
                    state: seq<Chunk>, curr: int)
    requires 1 <= p.chunk && 0 <= curr && |file| < TWO31 && curr + p.chunk > |file|
    requires Halfway(p, chunks, file, met, behind, state, curr)
    ensures |behind| == p.chunk && state == Relocated(p, chunks, chunks, file, behind, 0)
  {
    hide RoundAt, Relocated;
    assert Keeps(p, chunks, file, behind, chunks, 0, state, curr) by {
      var _ := Relocated(p, chunks, chunks, file, behind, 0);
    }
    RelocatedStep(p, chunks, state, file, behind, curr);
  }

  /** A round, and the relocation of the chunk it finds. */
  method ScanTurn1(p: Params, meta: seq<ChunkInfo>, ghost chunks: seq<Chunk>, ghost state: seq<Chunk>,
                   filter: seq<uint32>, table: map<uint32, int>, reader: FileMap, summer: Checksum3, curr: int,
                   ghost w: Window)
    returns (done: bool, curr': int, ghost state': seq<Chunk>, ghost behind: seq<byte>)
    requires Reads(p, reader) && (curr + p.chunk <= |reader.file| ==> Stands(p, reader, w))
    requires Holding(meta, chunks, state) && Indexes(filter, table, chunks)
    requires summer.Valid() && summer.charOffset == p.charOffset && reader.data != summer.bufList.data
    requires 0 <= curr && |reader.file| < TWO31
    modifies reader, reader.data, summer, summer.bufList, summer.bufList.data, meta
    ensures Reads(p, reader) && Holding(meta, chunks, state')
    ensures summer.Valid() && (summer.bufList.data == old(summer.bufList.data) || fresh(summer.bufList.data))
    ensures done <==> curr + p.chunk > |reader.file|
    ensures |behind| == p.chunk
    ensures curr + p.chunk <= |reader.file| ==>
      var v := RoundView(p, chunks, reader.file, curr, w);
      behind == v.data[..p.chunk] && (!MeetsEnd(p, reader.file, curr) ==> Stands(p, reader, v))
    ensures Shifts(p, RoundAt(p, chunks, reader.file, behind, curr), state, curr, state', curr')
  {
    hide RoundAt, RoundView, Relocate, Holding, Indexes, Describes, Reads, Stands, MeetsEnd, Checksum3.Valid,
         FileMap.Valid;
    done, curr', state' := false, curr, state;
    var round;
    round, behind := ScanRound(p, meta, chunks, filter, table, reader, summer, curr, w);
    match round
    case End => done := true;
    case Skip(next) => curr' := next;
    case Found(at, k, next) =>
      Move(meta, chunks, state, k, at);
      state' := Relocate(state, k, at);
      curr' := next;
    case Past(at, k) =>
      Move(meta, chunks, state, k, at);
      state' := Relocate(state, k, at);
      curr' := at + p.chunk - 1;
  }

  /**
   Rounds that relocate what they find; the sums, and so the rounds, never
   change. `behind` is what the buffer held where the rolling loop met the end.
  */
  method ScanFile1(p: Params, meta: seq<ChunkInfo>, file: seq<byte>, unset: int32) returns (ghost behind: seq<byte>)
    requires p.Valid() && |file| + p.window < TWO31 && 0 <= unset <= p.window && Distinct(meta)
    modifies meta
    ensures Distinct(meta) && |behind| == p.chunk
    ensures Infos(meta) == Relocated(p, old(Infos(meta)), old(Infos(meta)), file, behind, 0)
    ensures LeftBehind(p, old(Infos(meta)), file, behind)
  {
    hide RoundAt, RoundView, BehindFrom, Relocated, Holding, Indexes, Describes, Shifts, Halfway, Tracks, MeetsEnd,
         LeftBehind, Opened, Reads, Stands, Sits, Infos, Checksum3.Valid, FileMap.Valid, FileMap.View;
    ghost var chunks := Infos(meta);
    ghost var state, met := chunks, false;
    HoldingStart(meta);
    var filter, table := BuildTable(meta);
    var reader := new FileMap(file, p.window, unset);
    ghost var w := reader.View();
    JustOpened(p, reader);
    ghost var goal := BehindFrom(p, chunks, file, w, 0);
    LeftBehindIt(p, chunks, file, w);
    var summer := new Checksum3(p.charOffset, p.queue);
    var curr, done := 0, false;
    behind := Blank(p.chunk);
    HalfwayStart(p, chunks, file, behind);
    TracksStart(p, chunks, file, w);
    while !done
      invariant Reads(p, reader) && (curr + p.chunk <= |file| ==> Stands(p, reader, w))
      invariant reader.file == file && fresh(reader) && fresh(reader.data)
      invariant summer.Valid() && summer.charOffset == p.charOffset && fresh(summer)
      invariant fresh(summer.bufList) && fresh(summer.bufList.data) && reader.data != summer.bufList.data
      invariant Holding(meta, chunks, state) && Indexes(filter, table, chunks)
      invariant 0 <= curr && Halfway(p, chunks, file, met, behind, state, curr)
      invariant |behind| == p.chunk && Tracks(p, chunks, file, met, behind, w, curr, goal)
      invariant done ==> curr + p.chunk > |file|
      decreases !done, |file| + p.chunk - curr
    {
      ghost var front, was, at := behind, state, curr;
      done, curr, state, front := ScanTurn1(p, meta, chunks, state, filter, table, reader, summer, curr, w);
      HalfwayOn(p, chunks, file, met, behind, front, was, at, state, curr);
      ShiftsNext(p, chunks, file, front, was, at, state, curr);
      TracksOn(p, chunks, file, met, behind, front, w, at, curr, goal);
      met, behind := met || MeetsEnd(p, file, at), if MeetsEnd(p, file, at) then front else behind;
      w := if at + p.chunk <= |file| then RoundView(p, chunks, file, at, w) else w;
    }
    HalfwayDone(p, chunks, file, met, behind, state, curr);
    TracksDone(p, chunks, file, met, behind, w, curr, goal);
    HoldingInfos(meta, chunks, state);
  }

  lemma HoldingStart(meta: seq<ChunkInfo>)
    requires Distinct(meta)
    ensures Holding(meta, Infos(meta), Infos(meta))
  {
  }

  /** Where the next round starts, and that the rounds come to an end. */
  lemma ShiftsNext(p: Params, chunks: seq<Chunk>, file: seq<byte>, behind: seq<byte>,
                   state: seq<Chunk>, curr: int, state': seq<Chunk>, curr': int)
    requires 1 <= p.chunk == |behind| && 0 <= curr
    requires Shifts(p, RoundAt(p, chunks, file, behind, curr), state, curr, state', curr')
    ensures curr + p.chunk > |file| ==> curr' == curr
    ensures var r := RoundAt(p, chunks, file, behind, curr); r.Skip? || r.Found? ==> curr' == r.next
    ensures MeetsEnd(p, file, curr) ==> curr' + p.chunk > |file|
  {
    hide RoundAt;
  }

  /** The strong sum of `last` bytes from the stale read pointer, or of the summer's window for a NULL one. */
  method DigestTail(p: Params, reader: FileMap, summer: Checksum3, buf: int, last: int) returns (strong: Digest)
    requires 1 <= p.chunk && last == |reader.file| % p.chunk && summer.Valid() && summer.Window() == []
    requires var n := |reader.file| / p.chunk;
             if n == 0 then buf == -1 else reader.Holds(buf, (n - 1) * p.chunk, p.chunk)
    modifies summer.bufList
    ensures strong == p.strong(TailDigested(p.chunk, reader.file))
    ensures |reader.file| < p.chunk ==> strong == p.strong([])
    ensures |reader.file| >= p.chunk ==>
      var end := |reader.file| - p.chunk; 0 <= end - last && strong == p.strong(reader.file[end - last..end])
  {
    TailPlace(p.chunk, reader.file);
    DivRemainder(|reader.file|, p.chunk);
    if buf == -1 {
      var window := summer.WindowBytes();
      strong := p.strong(window);
    } else {
      StaleBytes(p.chunk, reader, buf, last);
      strong := p.strong(reader.data[buf..buf + last]);
    }
  }

  lemma StaleBytes(chunk: int, reader: FileMap, buf: int, last: int)
    requires 1 <= chunk && last == |reader.file| % chunk && |reader.file| / chunk > 0
    requires reader.Holds(buf, (|reader.file| / chunk - 1) * chunk, chunk)
    ensures 0 <= last < chunk && reader.data[buf..buf + last] == TailDigested(chunk, reader.file)
  {
    DivRemainder(|reader.file|, chunk);
    var at := (|reader.file| / chunk - 1) * chunk;
    Offsets(chunk, |reader.file| / chunk - 1);
    assert reader.data[buf..buf + last] == reader.data[buf..buf + chunk][..last];
    assert reader.file[at..at + last] == reader.file[at..at + chunk][..last];
  }

  method GenerateMetaList(p: Params, file: seq<byte>, unset: int32) returns (meta: seq<ChunkInfo>)
    requires p.Valid() && |file| + p.window < TWO31 && 0 <= unset <= p.window
    ensures fresh(meta) && Distinct(meta) && Infos(meta) == FullSignature(p, file)
  {
    hide Infos, Distinct, Signature, TailDigested, FileMap.Valid, FileMap.Holds, Checksum3.Valid, Checksum3.Window;
    var summer := new Checksum3(p.charOffset, p.queue);
    var reader := new FileMap(file, p.window, unset);
    var described, buf := DescribeBlocks(p, reader, summer);
    meta := described;
    var last := |file| % p.chunk;
    if last > 0 {
      DivRemainder(|file|, p.chunk);
      var strong := DigestTail(p, reader, summer, buf, last);
      meta := PushBack(meta, Chunk(0, true, |file| / p.chunk * p.chunk, last, strong));
    } else {
      assert Signature(p, file) + [] == Signature(p, file);
    }
  }

  /** The bytes of an entry, from the server or from where the local file is mapped. */
  method ReadEntry(p: Params, reader: FileMap, entry: ChunkInfo, source: seq<byte>) returns (buf: seq<byte>)
    requires Reads(p, reader) && reader.Valid() && Readable(entry.Info(), source, reader.file, |reader.View().data|)
    modifies reader, reader.data
    ensures Reads(p, reader) && reader.Valid()
    ensures old(reader.Valid() && Sits(reader.file, reader.View()))
    ensures buf == old(Taken(entry.Info(), source, reader.file, reader.View()))
    ensures reader.View() == old(Turned(entry.Info(), source, reader.file, reader.View()))
  {
    if entry.from {
      buf := source[entry.offset..entry.offset + entry.length];
    } else {
      var at := reader.MapFileContent(entry.offset, entry.length);
      buf := reader.data[at..at + entry.length];
    }
  }

  /** What is written so far, followed by what the entries from `k` on will add, is `goal`. */
  ghost predicate Writing(p: Params, reader: FileMap, state: seq<Chunk>, k: nat, source: seq<byte>,
                          result: seq<byte>, goal: seq<byte>)
    reads reader, reader.data
  {
    Reads(p, reader) && k <= |state| && AllReadable(state[k..], source, reader.file, |reader.View().data|)
    && result + Written(state[k..], source, reader.file, reader.View()) == goal
  }

  /** Writes the bytes of an entry. */
  method WriteEntry(p: Params, reader: FileMap, entry: ChunkInfo, ghost state: seq<Chunk>, ghost k: nat,
                    source: seq<byte>, result: seq<byte>, ghost goal: seq<byte>)
    returns (longer: seq<byte>)
    requires Writing(p, reader, state, k, source, result, goal) && k < |state| && state[k] == entry.Info()
    modifies reader, reader.data
    ensures Writing(p, reader, state, k + 1, source, longer, goal)
  {
    hide FileMap.Valid, FileMap.View, Readable, AllReadable, Written, Taken, Turned, Sits;
    WrittenAt(state, k, source, reader.file, reader.View());
    ghost var taken := Taken(state[k], source, reader.file, reader.View());
    ghost var next := Turned(state[k], source, reader.file, reader.View());
    ConcatAssociative(result, taken, Written(state[k + 1..], source, reader.file, next));
    var buf := ReadEntry(p, reader, entry, source);
    longer := result + buf;
  }

  lemma WritingStarts(p: Params, reader: FileMap, state: seq<Chunk>, source: seq<byte>)
    requires Reads(p, reader) && reader.Valid() && AllReadable(state, source, reader.file, |reader.View().data|)
    ensures Writing(p, reader, state, 0, source, [], Written(state, source, reader.file, reader.View()))
  {
    hide FileMap.Valid, FileMap.View, AllReadable, Written;
    WrittenEnds(state, source, reader.file, reader.View());
  }

  lemma WritingEnds(p: Params, reader: FileMap, state: seq<Chunk>, source: seq<byte>,
                    result: seq<byte>, goal: seq<byte>)
    requires Writing(p, reader, state, |state|, source, result, goal)
    ensures result == goal
  {
    hide FileMap.Valid, FileMap.View, AllReadable, Written;
    WrittenEnds(state, source, reader.file, reader.View());
  }

  /** Writes the bytes of every entry, from a window already opened. */
  method WriteEntries(p: Params, reader: FileMap, meta: seq<ChunkInfo>, source: seq<byte>) returns (result: seq<byte>)
    requires Reads(p, reader) && reader.Valid() && AllReadable(Infos(meta), source, reader.file, |reader.View().data|)
    modifies reader, reader.data
    ensures result == old(Written(Infos(meta), source, reader.file, reader.View()))
  {
    hide *;
    result := [];
    ghost var state, goal := Infos(meta), Written(Infos(meta), source, reader.file, reader.View());
    WritingStarts(p, reader, state, source);
    for k := 0 to |meta|
      invariant Writing(p, reader, state, k, source, result, goal)
      invariant Infos(meta) == state
    {
      result := WriteEntry(p, reader, meta[k], state, k, source, result, goal);
    }
    WritingEnds(p, reader, state, source, result, goal);
  }

  /** The file that the entries give, read through a newly opened window over the local one. */
  method ConstructFile(p: Params, meta: seq<ChunkInfo>, source: seq<byte>, dest: seq<byte>, unset: int32)
    returns (result: seq<byte>, ghost w: Window)
    requires p.Valid() && |dest| + p.window < TWO31 && 0 <= unset <= p.window
    requires AllReadable(Infos(meta), source, dest, Min(p.window, |dest|))
    ensures Opened(p, dest, w) && result == Written(Infos(meta), source, dest, w)
    ensures |dest| < p.window ==>
      Sits(dest, Window(dest, 0, |dest|)) && result == Written(Infos(meta), source, dest, Window(dest, 0, |dest|))
  {
    assert 0 <= p.window < 0x8000_0000;
    hide *;
    var reader := new FileMap(dest, p.window, unset);
    w := reader.View();
    JustOpened(p, reader);
    result := WriteEntries(p, reader, meta, source);
  }

  datatype LocalFile = Missing | Present(bytes: seq<byte>)

  lemma AllFromSource(p: Params, source: seq<byte>)
    requires 1 <= p.chunk < TWO31 && |source| < TWO31
    ensures |FullSignature(p, source)| <= |source| + 1
    ensures forall k :: 0 <= k < |FullSignature(p, source)| ==> FullSignature(p, source)[k].from
  {
    FewerBlocksThanBytes(p.chunk, |source|);
    forall k | 0 <= k < |FullSignature(p, source)|
      ensures FullSignature(p, source)[k].from
    {
      if k < |source| / p.chunk {
        SignatureAt(p, source, k);
      }
    }
  }

  /** The server's list, as the client reads it out of the reply; none, here `ok == false`, for a missing source. */
  method GetMeta(p: Params, source: LocalFile, unset: int32) returns (ok: bool, meta: seq<ChunkInfo>)
    requires p.Valid() && 0 <= unset <= p.window && (source.Present? ==> |source.bytes| + p.window < TWO31)
    ensures fresh(meta) && (ok <==> source.Present?)
    ensures ok ==> Distinct(meta) && Infos(meta) == FullSignature(p, source.bytes)
  {
    hide FullSignature, Distinct;
    var listed := [];
    if source.Present? {
      listed := GenerateMetaList(p, source.bytes, unset);
      AllFromSource(p, source.bytes);
    }
    ok, meta := Exchange(source.Present?, listed);
  }

  /**
   The client's whole job. Without a local file the result is the source; with
   one it has the length of the source, and is the source exactly when the scan
   did not run past the end of the local file or the buffer makes up for it; so
   it is, for a local file whose tail is free. Without a source the program ends
   when it follows the NULL list.
  */
  method GetFile(p: Params, source: LocalFile, local: LocalFile, unset: int32)
    returns (ok: bool, result: seq<byte>, ghost behind: seq<byte>, ghost w: Window)
    requires p.Valid() && 0 <= unset <= p.window && (source.Present? ==> |source.bytes| + p.window < TWO31)
    requires local.Present? ==> |local.bytes| + p.window < TWO31
    requires source.Present? && local.Present? ==>
      NoCollision(p, source.bytes, local.bytes) && TailApart(p, source.bytes, local.bytes)
    ensures |behind| == p.chunk && (ok <==> source.Present?)
    ensures ok && local.Missing? ==> result == source.bytes
    ensures ok && local.Present? ==>
      var state := Located(p, source.bytes, local.bytes, behind);
      && Opened(p, local.bytes, w) && AllReadable(state, source.bytes, local.bytes, |w.data|)
      && LeftBehind(p, FullSignature(p, source.bytes), local.bytes, behind)
      && result == Written(state, source.bytes, local.bytes, w) && |result| == |source.bytes|
      && (result == source.bytes
          <==> (RunsPast(p, FullSignature(p, source.bytes), local.bytes, behind, 0) ==>
                  FindsBlock(p, source.bytes, local.bytes, behind, w)))
    ensures
      (ok && local.Present? && TailFree(p.chunk, source.bytes, local.bytes)
       && StaleApart(p, source.bytes, local.bytes, behind) && TailNotStale(p, source.bytes, local.bytes, behind)) ==>
      result == source.bytes
  {
    hide FullSignature, Relocated, Distinct, NoCollision, TailApart, TailFree, StaleApart, TailNotStale, RunsPast,
         Written, Denotes, FindsBlock, Readable, Sits, LeftBehind;
    behind, w := seq(p.chunk, _ => 0), Window([], 0, 0);
    var meta;
    ok, meta := GetMeta(p, source, unset);
    if !ok {
      return false, [], behind, w;
    }
    if local.Missing? {
      FreshWritten(p, source.bytes);
      result, w := ConstructFile(p, meta, source.bytes, [], unset);
    } else {
      behind := ScanFile1(p, meta, local.bytes, unset);
      LocatedReadable(p, source.bytes, local.bytes, behind);
      result, w := ConstructFile(p, meta, source.bytes, local.bytes, unset);
      LocatedIff(p, source.bytes, local.bytes, behind, w);
      if TailFree(p.chunk, source.bytes, local.bytes) && StaleApart(p, source.bytes, local.bytes, behind)
         && TailNotStale(p, source.bytes, local.bytes, behind) {
        LocatedInside(p, source.bytes, local.bytes, behind);
      }
    }
  }
}

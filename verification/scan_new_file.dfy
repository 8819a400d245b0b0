/** The scan of the new file as the program runs it: summer, filter, table and read window. */
module ScanNewFiles {
  import opened Bytes
  import opened Chunks
  import opened Scans
  import opened FileMaps
  import opened ReadWindows
  import opened ScanWindows
  import opened Checksum3s
  import opened WeakSums

  /** The descriptions still hold the sums of the signature. */
  ghost predicate Describes(meta: seq<ChunkInfo>, chunks: seq<Chunk>)
    reads meta
    ensures Describes(meta, chunks) ==> |meta| == |chunks|
  {
    |meta| == |chunks| && forall k :: 0 <= k < |meta| ==>
      meta[k].weak == chunks[k].weak && meta[k].strong == chunks[k].strong
  }

  /** They still say where the old file holds the chunks. */
  ghost predicate Locates(meta: seq<ChunkInfo>, chunks: seq<Chunk>)
    reads meta
  {
    |meta| == |chunks| && forall k :: 0 <= k < |meta| ==> meta[k].offset == chunks[k].offset
  }

  /** A whole window; the last one of the file is always at the start of the buffer. */
  method MapWindow(p: Params, reader: FileMap, at: int, ghost w: Window) returns (buf: int)
    requires Stands(p, reader, w) && 0 <= at && at + p.chunk <= |reader.file|
    modifies reader, reader.data
    ensures Stands(p, reader, Moved(reader.file, w, at, p.chunk)) && reader.Holds(buf, at, p.chunk)
    ensures at + p.chunk == |reader.file| ==> Fronts(p, reader, reader.file[at..at + p.chunk])
  {
    buf := MapRange(p, reader, at, p.chunk);
  }

  /** The strong check after a weak hit: the bytes at `at` against chunk `k`; `buf` is where they are mapped. */
  method Judge(p: Params, meta: seq<ChunkInfo>, ghost chunks: seq<Chunk>, reader: FileMap, at: int, k: int,
               ghost w: Window)
    returns (accepted: bool, buf: int)
    requires Stands(p, reader, w) && Describes(meta, chunks) && 0 <= k < |meta|
    requires 0 <= at && at + p.chunk <= |reader.file|
    modifies reader, reader.data
    ensures Stands(p, reader, Moved(reader.file, w, at, p.chunk)) && Describes(meta, chunks)
    ensures accepted <==> StrongMatch(p, chunks, reader.file, at, k)
    ensures reader.Holds(buf, at, p.chunk)
    ensures at + p.chunk == |reader.file| ==> Fronts(p, reader, reader.file[at..at + p.chunk])
  {
    buf := MapWindow(p, reader, at, w);
    accepted := p.strong(reader.data[buf..buf + p.chunk]) == meta[k].strong;
  }

  /** The buffer starts with these bytes, a chunk of them. */
  ghost predicate Fronts(p: Params, reader: FileMap, front: seq<byte>)
    reads reader.data
  {
    0 <= p.chunk == |front| <= reader.data.Length && reader.data[..p.chunk] == front
  }

  lemma FrontRemapped(p: Params, reader: FileMap, at: int, front: seq<byte>, before: seq<byte>)
    requires 0 <= at <= |reader.file| <= at + p.chunk && |before| == reader.data.Length && p.chunk == |front|
    requires p.chunk <= reader.data.Length && before[..p.chunk] == front
    requires reader.data[..|reader.file| - at] == reader.file[at..]
    requires reader.data[|reader.file| - at..] == before[|reader.file| - at..]
    ensures Fronts(p, reader, Remapped(reader.file, front, at))
  {
    var n, mapped := |reader.file| - at, Remapped(reader.file, front, at);
    forall j | 0 <= j < p.chunk
      ensures reader.data[j] == mapped[j]
    {
      if j < n {
        assert reader.data[j] == reader.data[..n][j];
      } else {
        assert reader.data[j] == reader.data[n..][j - n] == before[n..][j - n] == before[..p.chunk][j];
      }
    }
  }

  /** The strong check where the mapping of a chunk ends beyond the file: what is judged is the start of the buffer. */
  method JudgePast(p: Params, meta: seq<ChunkInfo>, ghost chunks: seq<Chunk>, reader: FileMap, at: int, k: int,
                   ghost front: seq<byte>)
    returns (accepted: bool, buf: int)
    requires Reads(p, reader) && Describes(meta, chunks) && 0 <= k < |meta|
    requires 0 <= at <= |reader.file| <= at + p.chunk && Fronts(p, reader, front)
    modifies reader, reader.data
    ensures Reads(p, reader) && Describes(meta, chunks) && buf == 0
    ensures Fronts(p, reader, Remapped(reader.file, front, at))
    ensures accepted <==> p.strong(Remapped(reader.file, front, at)) == chunks[k].strong
  {
    buf := MapEnd(p, reader, at, p.chunk);
    FrontRemapped(p, reader, at, front, old(reader.data[..]));
    accepted := p.strong(reader.data[buf..buf + p.chunk]) == meta[k].strong;
  }

  /** From turn `i` on, the read pointer `buf`, which stands for `base`, meets the bytes that should enter. */
  ghost predicate Points(p: Params, reader: FileMap, buf: int, base: int, i: int, front: seq<byte>)
    reads reader.data
  {
    && 0 <= buf && 0 <= base && 0 <= i && p.chunk == |front| && buf + p.chunk <= reader.data.Length
    && forall x :: i <= x < p.chunk ==> reader.data[buf + x] == EnteringByte(reader.file, base, front, x)
  }

  lemma PointsFront(p: Params, reader: FileMap, base: int, i: int, front: seq<byte>)
    requires Fronts(p, reader, front) && 0 <= i && 0 <= base <= |reader.file| <= base + p.chunk
    requires front[..|reader.file| - base] == reader.file[base..]
    ensures Points(p, reader, 0, base, i, front)
  {
    forall x | i <= x < p.chunk
      ensures reader.data[0 + x] == EnteringByte(reader.file, base, front, x)
    {
      assert reader.data[x] == reader.data[..p.chunk][x];
      if base + x < |reader.file| {
        assert front[..|reader.file| - base][x] == reader.file[base..][x];
      }
    }
  }

  lemma PointsHeld(p: Params, reader: FileMap, buf: int, base: int, i: int, front: seq<byte>)
    requires reader.Holds(buf, base, p.chunk) && 0 <= i && p.chunk == |front|
    ensures Points(p, reader, buf, base, i, front)
  {
    forall x | i <= x < p.chunk
      ensures reader.data[buf + x] == EnteringByte(reader.file, base, front, x)
    {
      assert reader.data[buf + x] == reader.data[buf..buf + p.chunk][x];
    }
  }

  lemma PointsAt(p: Params, reader: FileMap, buf: int, base: int, i: int, front: seq<byte>)
    requires Points(p, reader, buf, base, i, front) && i < p.chunk
    ensures 0 <= i && 0 <= base && |front| == p.chunk && 0 <= buf + i < reader.data.Length
    ensures reader.data[buf + i] == EnteringByte(reader.file, base, front, i)
    ensures Points(p, reader, buf, base, i + 1, front)
  {
  }

  lemma FrontIs(p: Params, reader: FileMap, front: seq<byte>)
    requires Fronts(p, reader, front)
    ensures 0 <= p.chunk == |front| <= reader.data.Length && reader.data[..][0..][..p.chunk] == front
    ensures reader.data[..][0..] == reader.data[..] == reader.data[0..]
  {
  }

  lemma FrontThere(p: Params, reader: FileMap, w: Window)
    requires Stands(p, reader, w) && p.chunk <= |reader.file|
    ensures 0 <= p.chunk <= reader.data.Length == |w.data| && w.data == reader.data[..]
    ensures Fronts(p, reader, w.data[..p.chunk])
  {
  }

  lemma StandsMoved(p: Params, reader: FileMap, w: Window)
    requires Stands(p, reader, w)
    ensures reader.Valid() && reader.View() == w && p.chunk <= p.window
  {
  }

  lemma StandsNow(p: Params, reader: FileMap, w: Window)
    requires Reads(p, reader) && reader.Valid() && reader.View() == w
    ensures Stands(p, reader, w)
  {
  }

  /** After a miss over the mapped bytes. */
  lemma PointsAfter(p: Params, reader: FileMap, curr: int, mapLength: int, buf: int, base: int, front: seq<byte>)
    requires 0 <= p.chunk && Fronts(p, reader, front) && 0 <= curr <= |reader.file|
    requires mapLength == Min(|reader.file| - curr, p.chunk)
    requires (base == curr && reader.Holds(buf, curr, mapLength) && (curr + mapLength == |reader.file| ==> buf == 0))
             || reader.Holds(buf, base, p.chunk)
    ensures Points(p, reader, buf, base, mapLength, front)
  {
    if reader.Holds(buf, base, p.chunk) {
      PointsHeld(p, reader, buf, base, mapLength, front);
    } else {
      assert front[..mapLength] == reader.data[0..mapLength];
      assert reader.file[curr..] == reader.file[curr..curr + mapLength];
      PointsFront(p, reader, base, mapLength, front);
    }
  }

  /** The rolling loop has come to turn `i`; what it finds and leaves in the buffer is still what it began with. */
  ghost predicate Midroll(p: Params, chunks: seq<Chunk>, file: seq<byte>, curr: int, limit: int,
                          first: seq<byte>, w: Window, base: int, i: int, window: seq<byte>, v: Window) {
    && 1 <= p.chunk <= curr && 0 <= base <= curr && 0 <= i <= limit <= p.chunk && curr + limit <= |file|
    && first != [] && window != [] && Sits(file, w) && Sits(file, v)
    && RollFrom(p, chunks, file, curr, curr, 0, limit, first) == RollFrom(p, chunks, file, curr, base, i, limit, window)
    && RollView(p, chunks, file, curr, curr, 0, limit, first, w)
       == RollView(p, chunks, file, curr, base, i, limit, window, v)
  }

  lemma MidrollOn(p: Params, chunks: seq<Chunk>, file: seq<byte>, curr: int, limit: int,
                  first: seq<byte>, w: Window, base: int, i: int, window: seq<byte>, v: Window)
    requires Midroll(p, chunks, file, curr, limit, first, w, base, i, window, v) && i < limit
    ensures 0 <= base + i < |file| && window != [] && Sits(file, v) && first != [] && Sits(file, w)
    ensures 1 <= p.chunk <= curr && 0 <= i < limit <= p.chunk && curr + limit <= |file|
    ensures var slid := window[1..] + [file[base + i]];
            var k, at := Lookup(chunks, p.WeakOf(slid)), curr + i - p.chunk + 1;
            var moved := Moved(file, v, at, p.chunk);
            if k < 0 then Midroll(p, chunks, file, curr, limit, first, w, base, i + 1, slid, v)
            else if StrongMatch(p, chunks, file, at, k) then
              RollFrom(p, chunks, file, curr, curr, 0, limit, first) == Hit(curr + i, k)
              && RollView(p, chunks, file, curr, curr, 0, limit, first, w) == moved
            else Midroll(p, chunks, file, curr, limit, first, w, at, i + 1, slid, moved)
  {
    hide RollFrom, RollView, Lookup, Weak, StrongMatch, Moved, Sits;
    RollStep(p, chunks, file, curr, base, i, limit, window);
    RollViewStep(p, chunks, file, curr, base, i, limit, window, v);
  }

  lemma MidrollEnds(p: Params, chunks: seq<Chunk>, file: seq<byte>, curr: int, limit: int,
                    first: seq<byte>, w: Window, base: int, window: seq<byte>, v: Window)
    requires Midroll(p, chunks, file, curr, limit, first, w, base, limit, window, v)
    ensures 1 <= p.chunk <= curr && 0 <= base <= curr && 0 <= limit <= p.chunk && curr + limit <= |file|
    ensures first != [] && Sits(file, w)
    ensures RollFrom(p, chunks, file, curr, curr, 0, limit, first) == Miss(base, window)
    ensures RollView(p, chunks, file, curr, curr, 0, limit, first, w) == v
  {
    hide RollFrom, RollView, Sits;
    RollDone(p, chunks, file, curr, base, limit, window);
    RollViewDone(p, chunks, file, curr, base, limit, window, v);
  }

  lemma MidrollStarts(p: Params, chunks: seq<Chunk>, file: seq<byte>, curr: int, limit: int,
                      first: seq<byte>, w: Window)
    requires 1 <= p.chunk <= curr && 0 <= limit <= p.chunk && curr + limit <= |file| && first != [] && Sits(file, w)
    ensures Midroll(p, chunks, file, curr, limit, first, w, curr, 0, first, w)
  {
    hide RollFrom, RollView, Sits;
  }

  /**
   The inner loop over the mapped bytes: one byte in, one byte out, until a
   window is accepted. After a miss the read pointer is where the loop began, in
   an unchanged buffer, or stands for a whole window of the file.
  */
  method Roll(p: Params, meta: seq<ChunkInfo>, ghost chunks: seq<Chunk>,
              filter: seq<uint32>, table: map<uint32, int>,
              reader: FileMap, summer: Checksum3, curr: int, mapLength: int, start: int, ghost w: Window)
    returns (hit: bool, end: int, k: int, buf: int, ghost base: int)
    requires Stands(p, reader, w) && Describes(meta, chunks) && Indexes(filter, table, chunks)
    requires summer.Rolling() && summer.charOffset == p.charOffset && reader.data != summer.bufList.data
    requires 1 <= p.chunk <= curr && 0 <= mapLength <= p.chunk && curr + mapLength <= |reader.file|
    requires reader.Holds(start, curr, mapLength)
    modifies reader, reader.data, summer, summer.bufList, summer.bufList.data
    ensures Reads(p, reader) && Describes(meta, chunks)
    ensures summer.Valid() && (summer.bufList.data == old(summer.bufList.data) || fresh(summer.bufList.data))
    ensures RollFrom(p, chunks, reader.file, curr, curr, 0, mapLength, old(summer.Window()))
         == if hit then Hit(end, k) else Miss(base, summer.Window())
    ensures Stands(p, reader, RollView(p, chunks, reader.file, curr, curr, 0, mapLength, old(summer.Window()), w))
    ensures !hit ==> summer.Rolling()
    ensures !hit ==> (base == curr && buf == start && reader.Holds(buf, curr, mapLength)
                      && reader.data[..] == old(reader.data[..]))
                     || (mapLength > 0 && 0 <= base <= curr && reader.Holds(buf, base, p.chunk))
  {
    hide RollFrom, RollView, Midroll, Moved, Sits, Stands, StrongMatch, Lookup, Indexes, Weak, FileMap.Holds,
         Describes, Reads, Checksum3.Rolling, Checksum3.Window;
    hit, end, k, buf, base := false, 0, -1, start, curr;
    ghost var mapped, v, first := mapLength, w, summer.Window();
    MidrollStarts(p, chunks, reader.file, curr, mapLength, first, w);
    for i := 0 to mapLength
      invariant Stands(p, reader, v) && Describes(meta, chunks)
      invariant summer.Rolling()
      invariant summer.bufList.data == old(summer.bufList.data) || fresh(summer.bufList.data)
      invariant Midroll(p, chunks, reader.file, curr, mapLength, first, w, base, i, summer.Window(), v)
      invariant 0 <= base <= curr && mapLength <= mapped <= p.chunk && reader.Holds(buf, base, mapped)
      invariant (base == curr && buf == start && mapped == mapLength && reader.data[..] == old(reader.data[..]))
                || (mapped == p.chunk && i > 0)
    {
      MidrollOn(p, chunks, reader.file, curr, mapLength, first, w, base, i, summer.Window(), v);
      var sum1 := summer.Update(reader.Byte(buf, base, mapped, i));
      k := Find(filter, table, chunks, sum1);
      if k >= 0 {
        ghost var at := curr + i - p.chunk + 1;
        hit, buf := Judge(p, meta, chunks, reader, curr + i - p.chunk + 1, k, v);
        v := Moved(reader.file, v, at, p.chunk);
        if hit {
          end := curr + i;
          return;
        }
        base, mapped := at, p.chunk;
      }
    }
    MidrollEnds(p, chunks, reader.file, curr, mapLength, first, w, base, summer.Window(), v);
  }

  /** The loop behind the end has come to turn `i`; what it finds is still what it began with. */
  ghost predicate Midpast(p: Params, chunks: seq<Chunk>, file: seq<byte>, curr: int, goal: Roll,
                          base: int, i: int, front: seq<byte>, window: seq<byte>) {
    && 1 <= p.chunk == |front| && p.chunk <= curr <= |file| && 0 <= base <= curr
    && 0 <= i <= p.chunk && (i < p.chunk ==> |file| <= curr + i) && window != []
    && PastFrom(p, chunks, file, curr, base, i, front, window) == goal
  }

  lemma MidpastOn(p: Params, chunks: seq<Chunk>, file: seq<byte>, curr: int, goal: Roll,
                  base: int, i: int, front: seq<byte>, window: seq<byte>)
    requires Midpast(p, chunks, file, curr, goal, base, i, front, window) && i < p.chunk
    ensures 0 <= base && 0 <= i < |front| == p.chunk && window != [] && 1 <= p.chunk <= curr <= |file| <= curr + i
    ensures var slid := window[1..] + [EnteringByte(file, base, front, i)];
            var k, at := Lookup(chunks, p.WeakOf(slid)), curr + i - p.chunk + 1;
            var mapped := Remapped(file, front, at);
            if k < 0 then Midpast(p, chunks, file, curr, goal, base, i + 1, front, slid)
            else if p.strong(mapped) == chunks[k].strong then goal == Hit(curr + i, k)
            else Midpast(p, chunks, file, curr, goal, at, i + 1, mapped, slid)
                 && mapped[..|file| - at] == file[at..]
  {
    hide PastFrom, Lookup, Weak, EnteringByte;
    PastStep(p, chunks, file, curr, base, i, front, window);
    RemappedFront(file, front, curr + i - p.chunk + 1);
  }

  lemma MidpastEnds(p: Params, chunks: seq<Chunk>, file: seq<byte>, curr: int, goal: Roll,
                    base: int, front: seq<byte>, window: seq<byte>)
    requires Midpast(p, chunks, file, curr, goal, base, p.chunk, front, window)
    ensures goal.Miss?
  {
    hide PastFrom;
    PastDone(p, chunks, file, curr, base, front, window);
  }

  /** The same loop behind the end of the file, where it runs on to the chunk size. */
  method RollPast(p: Params, meta: seq<ChunkInfo>, ghost chunks: seq<Chunk>,
                  filter: seq<uint32>, table: map<uint32, int>, reader: FileMap, summer: Checksum3,
                  curr: int, mapLength: int, start: int, ghost base: int, ghost front: seq<byte>)
    returns (hit: bool, end: int, k: int)
    requires Reads(p, reader) && Describes(meta, chunks) && Indexes(filter, table, chunks)
    requires summer.Rolling() && summer.charOffset == p.charOffset && reader.data != summer.bufList.data
    requires 1 <= p.chunk <= curr <= |reader.file| && 0 <= mapLength <= p.chunk && 0 <= base <= curr
    requires mapLength < p.chunk ==> curr + mapLength == |reader.file|
    requires |front| == p.chunk && Fronts(p, reader, front) && Points(p, reader, start, base, mapLength, front)
    modifies reader, reader.data, summer, summer.bufList, summer.bufList.data
    ensures Reads(p, reader) && Describes(meta, chunks)
    ensures summer.Valid() && (summer.bufList.data == old(summer.bufList.data) || fresh(summer.bufList.data))
    ensures var roll := PastFrom(p, chunks, reader.file, curr, base, mapLength, front, old(summer.Window()));
            if hit then roll == Hit(end, k) else roll.Miss?
  {
    hide PastFrom, Remapped, Points, Fronts, Lookup, Indexes, Weak, Describes, Reads,
         Checksum3.Rolling, Checksum3.Window;
    hit, end, k := false, 0, -1;
    var buf := start;
    ghost var from, held := base, front;
    ghost var goal := PastFrom(p, chunks, reader.file, curr, base, mapLength, front, summer.Window());
    assert Midpast(p, chunks, reader.file, curr, goal, base, mapLength, front, summer.Window());
    hide Midpast;
    for i := mapLength to p.chunk
      invariant Reads(p, reader) && Describes(meta, chunks)
      invariant summer.Rolling()
      invariant summer.bufList.data == old(summer.bufList.data) || fresh(summer.bufList.data)
      invariant Fronts(p, reader, held) && Points(p, reader, buf, from, i, held)
      invariant Midpast(p, chunks, reader.file, curr, goal, from, i, held, summer.Window())
    {
      MidpastOn(p, chunks, reader.file, curr, goal, from, i, held, summer.Window());
      PointsAt(p, reader, buf, from, i, held);
      var sum1 := summer.Update(reader.data[buf + i]);
      k := Find(filter, table, chunks, sum1);
      if k >= 0 {
        ghost var at := curr + i - p.chunk + 1;
        hit, buf := JudgePast(p, meta, chunks, reader, curr + i - p.chunk + 1, k, held);
        if hit {
          end := curr + i;
          return;
        }
        from, held := at, Remapped(reader.file, held, at);
        PointsFront(p, reader, from, i + 1, held);
      }
    }
    MidpastEnds(p, chunks, reader.file, curr, goal, from, held, summer.Window());
  }

  lemma RemappedFront(file: seq<byte>, front: seq<byte>, at: int)
    requires 0 <= at <= |file| <= at + |front|
    ensures Remapped(file, front, at)[..|file| - at] == file[at..]
  {
  }

  /** The first window of a round: summed, looked up, and judged if its weak sum is in the list. */
  method FirstWindow(p: Params, meta: seq<ChunkInfo>, ghost chunks: seq<Chunk>,
                     filter: seq<uint32>, table: map<uint32, int>,
                     reader: FileMap, summer: Checksum3, curr: int, ghost w: Window)
    returns (accepted: bool, k: int, ghost v: Window)
    requires Stands(p, reader, w) && Describes(meta, chunks) && Indexes(filter, table, chunks)
    requires summer.Valid() && summer.charOffset == p.charOffset && reader.data != summer.bufList.data
    requires 1 <= p.chunk && 0 <= curr && curr + p.chunk <= |reader.file|
    modifies reader, reader.data, summer, summer.bufList, summer.bufList.data
    ensures Stands(p, reader, v) && Describes(meta, chunks) && summer.Rolling()
    ensures summer.bufList.data == old(summer.bufList.data) || fresh(summer.bufList.data)
    ensures summer.Window() == reader.file[curr..curr + p.chunk]
    ensures curr + p.chunk == |reader.file| ==> Fronts(p, reader, summer.Window())
    ensures k == Lookup(chunks, p.WeakOf(reader.file[curr..curr + p.chunk]))
    ensures accepted <==> k >= 0 && StrongMatch(p, chunks, reader.file, curr, k)
    ensures var first := Moved(reader.file, w, curr, p.chunk);
            v == if k >= 0 then Moved(reader.file, first, curr, p.chunk) else first
  {
    hide StrongMatch, Lookup, Indexes, Weak, FileMap.Holds, Describes, Fronts, Reads, Moved, Sits, Stands,
         Checksum3.Rolling, Checksum3.Window;
    var buf := MapWindow(p, reader, curr, w);
    v := Moved(reader.file, w, curr, p.chunk);
    summer.Init(reader.Bytes(buf, curr, p.chunk));
    var sum1 := summer.tmpSum;
    k := Find(filter, table, chunks, sum1);
    accepted := false;
    if k >= 0 {
      accepted, buf := Judge(p, meta, chunks, reader, curr, k, v);
      v := Moved(reader.file, v, curr, p.chunk);
    }
  }

  /**
   One round of the outer loop; `behind` is what the buffer starts with when the
   rolling loop reaches the end of the file, if it does.
  */
  method ScanRound(p: Params, meta: seq<ChunkInfo>, ghost chunks: seq<Chunk>,
                   filter: seq<uint32>, table: map<uint32, int>,
                   reader: FileMap, summer: Checksum3, curr: int, ghost w: Window)
    returns (r: Round, ghost behind: seq<byte>)
    requires Reads(p, reader) && (curr + p.chunk <= |reader.file| ==> Stands(p, reader, w))
    requires Describes(meta, chunks) && Indexes(filter, table, chunks)
    requires summer.Valid() && summer.charOffset == p.charOffset && reader.data != summer.bufList.data
    requires 0 <= curr
    modifies reader, reader.data, summer, summer.bufList, summer.bufList.data
    ensures Reads(p, reader) && Describes(meta, chunks)
    ensures summer.Valid() && (summer.bufList.data == old(summer.bufList.data) || fresh(summer.bufList.data))
    ensures |behind| == p.chunk && r == RoundAt(p, chunks, reader.file, behind, curr)
    ensures curr + p.chunk <= |reader.file| ==>
      var v := RoundView(p, chunks, reader.file, curr, w);
      behind == v.data[..p.chunk] && (!MeetsEnd(p, reader.file, curr) ==> Stands(p, reader, v))
  {
    hide RoundAt, RollAll, RoundView, StrongMatch, Lookup, Indexes, Weak, Describes, Fronts, Reads,
         Moved, Sits, RestView, Stands, Checksum3.Rolling, Checksum3.Window, Checksum3.Valid;
    behind := Blank(p.chunk);
    if curr + p.chunk > |reader.file| {
      RoundEnds(p, chunks, reader.file, behind, curr);
      return End, behind;
    }
    RoundViewSteps(p, chunks, reader.file, curr, w);
    var accepted, k;
    ghost var v;
    accepted, k, v := FirstWindow(p, meta, chunks, filter, table, reader, summer, curr, w);
    if accepted {
      behind := v.data[..p.chunk];
      r := Found(curr, k, curr + p.chunk);
    } else {
      r, behind := RollOn(p, meta, chunks, filter, table, reader, summer, curr + p.chunk, v);
    }
    RoundSteps(p, chunks, reader.file, behind, curr);
  }

  /** The rolling loop up to the end of the mapped bytes, and what the buffer then begins with. */
  method RollMapped(p: Params, meta: seq<ChunkInfo>, ghost chunks: seq<Chunk>,
                    filter: seq<uint32>, table: map<uint32, int>,
                    reader: FileMap, summer: Checksum3, curr: int, mapLength: int, ghost w: Window)
    returns (hit: bool, end: int, k: int, buf: int, ghost base: int, ghost front: seq<byte>)
    requires Stands(p, reader, w) && Describes(meta, chunks) && Indexes(filter, table, chunks)
    requires summer.Rolling() && summer.charOffset == p.charOffset && reader.data != summer.bufList.data
    requires 1 <= p.chunk <= curr <= |reader.file| && mapLength == Min(|reader.file| - curr, p.chunk)
    requires curr == |reader.file| ==> Fronts(p, reader, summer.Window())
    modifies reader, reader.data, summer, summer.bufList, summer.bufList.data
    ensures Describes(meta, chunks)
    ensures summer.Valid() && (summer.bufList.data == old(summer.bufList.data) || fresh(summer.bufList.data))
    ensures |front| == p.chunk && (curr == |reader.file| ==> front == old(summer.Window()))
    ensures var v := RestView(p, chunks, reader.file, curr, old(summer.Window()), w);
            front == v.data[..p.chunk] && Stands(p, reader, v)
    ensures RollFrom(p, chunks, reader.file, curr, curr, 0, mapLength, old(summer.Window()))
         == if hit then Hit(end, k) else Miss(base, summer.Window())
    ensures !hit ==> summer.Rolling() && 0 <= base <= curr && Fronts(p, reader, front)
    ensures !hit ==> Points(p, reader, buf, base, mapLength, front)
  {
    hide RollFrom, RollView, Moved, Stands, Sits, Indexes, FileMap.Holds, FileMap.Valid,
         FileMap.View, Describes, Fronts, Points, Reads, Checksum3.Rolling, Checksum3.Window, Checksum3.Valid;
    ghost var window := summer.Window();
    if curr == |reader.file| {
      FrontIs(p, reader, window);
    }
    StandsMoved(p, reader, w);
    var start := MapRange(p, reader, curr, mapLength);
    ghost var mapped := Moved(reader.file, w, curr, mapLength);
    StandsNow(p, reader, mapped);
    hit, end, k, buf, base := Roll(p, meta, chunks, filter, table, reader, summer, curr, mapLength, start, mapped);
    ghost var v := RestView(p, chunks, reader.file, curr, window, w);
    FrontThere(p, reader, v);
    front := v.data[..p.chunk];
    if !hit {
      PointsAfter(p, reader, curr, mapLength, buf, base, front);
    }
  }

  /** The rest of a round, when the window it starts with is not accepted. */
  method RollOn(p: Params, meta: seq<ChunkInfo>, ghost chunks: seq<Chunk>,
                filter: seq<uint32>, table: map<uint32, int>,
                reader: FileMap, summer: Checksum3, curr: int, ghost w: Window)
    returns (r: Round, ghost front: seq<byte>)
    requires Stands(p, reader, w) && Describes(meta, chunks) && Indexes(filter, table, chunks)
    requires summer.Rolling() && summer.charOffset == p.charOffset && reader.data != summer.bufList.data
    requires 1 <= p.chunk <= curr <= |reader.file|
    requires curr == |reader.file| ==> Fronts(p, reader, summer.Window())
    modifies reader, reader.data, summer, summer.bufList, summer.bufList.data
    ensures Reads(p, reader) && Describes(meta, chunks)
    ensures summer.Valid() && (summer.bufList.data == old(summer.bufList.data) || fresh(summer.bufList.data))
    ensures |front| == p.chunk && (curr == |reader.file| ==> front == old(summer.Window()))
    ensures r == RollAll(p, chunks, reader.file, front, curr, old(summer.Window()))
    ensures var v := RestView(p, chunks, reader.file, curr, old(summer.Window()), w);
            front == v.data[..p.chunk] && (curr + p.chunk <= |reader.file| ==> Stands(p, reader, v))
  {
    hide RollFrom, RollView, RestView, RollAll, PastFrom, Moved, Stands, Sits, Indexes, FileMap.Holds, FileMap.Valid,
         FileMap.View, Describes, Fronts, Points, Reads, Checksum3.Rolling, Checksum3.Window, Checksum3.Valid;
    ghost var window := summer.Window();
    var mapLength := |reader.file| - curr;
    if mapLength > p.chunk {
      mapLength := p.chunk;
    }
    var hit, end, k, buf;
    ghost var base;
    hit, end, k, buf, base, front := RollMapped(p, meta, chunks, filter, table, reader, summer, curr, mapLength, w);
    RollAllSteps(p, chunks, reader.file, front, curr, window);
    if hit {
      return Found(end - p.chunk + 1, k, end), front;
    }
    if mapLength < p.chunk {
      hit, end, k := RollPast(p, meta, chunks, filter, table, reader, summer, curr, mapLength, buf, base, front);
    } else {
      PastDone(p, chunks, reader.file, curr, base, front, summer.Window());
    }
    r := if hit then Past(end - p.chunk + 1, k) else Skip(curr + p.chunk);
  }

  /** `from_ = false` on the chunk a copy node uses. */
  method Mark(meta: seq<ChunkInfo>, ghost chunks: seq<Chunk>, k: int)
    requires 0 <= k < |meta| && Describes(meta, chunks) && Locates(meta, chunks)
    modifies meta
    ensures Describes(meta, chunks) && Locates(meta, chunks) && meta[k].from == false
  {
    meta[k].from := false;
  }

  /** `iter->second->offset_`: where the old file holds the chunk. */
  function Source(meta: seq<ChunkInfo>, ghost chunks: seq<Chunk>, k: int): (offset: int)
    requires 0 <= k < |meta| && Locates(meta, chunks)
    reads meta
    ensures offset == chunks[k].offset
  {
    meta[k].offset
  }

  method Emit(nodes: seq<OffsetNode>, offset: int, at: int, source: int, length: int) returns (longer: seq<OffsetNode>)
    ensures longer == nodes + Copied(offset, at, source, length)
  {
    longer := nodes;
    if offset != at {
      longer := longer + [OffsetNode(true, offset, at - offset)];
    }
    longer := longer + [OffsetNode(false, source, length)];
  }

  /** What a round makes of the nodes, the position and the end of the last copy. */
  predicate Moves(p: Params, chunks: seq<Chunk>, r: Round, nodes: seq<OffsetNode>, curr: int, offset: int,
                  nodes': seq<OffsetNode>, curr': int, offset': int) {
    match r
    case End => nodes' == nodes && curr' == curr && offset' == offset
    case Skip(next) => nodes' == nodes && curr' == next && offset' == offset
    case Found(at, k, next) =>
      0 <= k < |chunks| && nodes' == nodes + Copied(offset, at, chunks[k].offset, p.chunk)
      && curr' == next && offset' == at + p.chunk
    case Past(at, k) =>
      0 <= k < |chunks| && nodes' == nodes + Copied(offset, at, chunks[k].offset, p.chunk)
      && curr' == at + p.chunk - 1 && offset' == at + p.chunk
  }

  /** The nodes found and those still to come stay the same. */
  ghost predicate Carries(p: Params, chunks: seq<Chunk>, file: seq<byte>, behind: seq<byte>,
                          nodes: seq<OffsetNode>, curr: int, offset: int,
                          nodes': seq<OffsetNode>, curr': int, offset': int)
    requires 1 <= p.chunk == |behind| && 0 <= curr && 0 <= curr'
  {
    nodes' + ScanFrom(p, chunks, file, behind, curr', offset')
    == nodes + ScanFrom(p, chunks, file, behind, curr, offset)
  }

  lemma MovesCarry(p: Params, chunks: seq<Chunk>, file: seq<byte>, behind: seq<byte>,
                   nodes: seq<OffsetNode>, curr: int, offset: int,
                   nodes': seq<OffsetNode>, curr': int, offset': int)
    requires 1 <= p.chunk == |behind| && 0 <= curr
    requires Moves(p, chunks, RoundAt(p, chunks, file, behind, curr), nodes, curr, offset, nodes', curr', offset')
    ensures 0 <= curr' && Carries(p, chunks, file, behind, nodes, curr, offset, nodes', curr', offset')
    ensures MeetsEnd(p, file, curr) ==> curr' + p.chunk > |file|
    ensures RoundAt(p, chunks, file, behind, curr).End? || curr < curr'
  {
    hide RoundAt, ScanFrom, Copied;
    var r := RoundAt(p, chunks, file, behind, curr);
    ScanStep(p, chunks, file, behind, curr, offset);
    if r.Found? || r.Past? {
      var copied := Copied(offset, r.at, chunks[r.k].offset, p.chunk);
      if r.Past? {
        ScanStep(p, chunks, file, behind, curr', offset');
        AppendNodes(nodes, copied, []);
      } else {
        AppendNodes(nodes, copied, ScanFrom(p, chunks, file, behind, curr', offset'));
      }
    }
  }

  /** A round and its nodes; `done` when the rest of the file is shorter than a chunk. */
  method ScanTurn(p: Params, meta: seq<ChunkInfo>, ghost chunks: seq<Chunk>,
                  filter: seq<uint32>, table: map<uint32, int>, reader: FileMap, summer: Checksum3,
                  nodes: seq<OffsetNode>, curr: int, offset: int, ghost w: Window)
    returns (done: bool, nodes': seq<OffsetNode>, curr': int, offset': int, ghost behind: seq<byte>)
    requires Reads(p, reader) && (curr + p.chunk <= |reader.file| ==> Stands(p, reader, w))
    requires Describes(meta, chunks) && Locates(meta, chunks) && Indexes(filter, table, chunks)
    requires summer.Valid() && summer.charOffset == p.charOffset && reader.data != summer.bufList.data
    requires 0 <= curr
    modifies reader, reader.data, summer, summer.bufList, summer.bufList.data, meta
    ensures Reads(p, reader) && Describes(meta, chunks) && Locates(meta, chunks)
    ensures curr + p.chunk <= |reader.file| ==>
      var v := RoundView(p, chunks, reader.file, curr, w);
      behind == v.data[..p.chunk] && (!MeetsEnd(p, reader.file, curr) ==> Stands(p, reader, v))
    ensures summer.Valid() && (summer.bufList.data == old(summer.bufList.data) || fresh(summer.bufList.data))
    ensures done <==> curr + p.chunk > |reader.file|
    ensures |behind| == p.chunk
    ensures Moves(p, chunks, RoundAt(p, chunks, reader.file, behind, curr), nodes, curr, offset, nodes', curr', offset')
  {
    hide RoundAt, RoundView, Copied, Lookup, Indexes, Describes, Locates, Reads, Stands, MeetsEnd,
         Checksum3.Valid, FileMap.Valid;
    done, nodes', curr', offset' := false, nodes, curr, offset;
    var round;
    round, behind := ScanRound(p, meta, chunks, filter, table, reader, summer, curr, w);
    match round
    case End => done := true;
    case Skip(next) => curr' := next;
    case Found(at, k, next) =>
      Mark(meta, chunks, k);
      nodes' := Emit(nodes, offset, at, Source(meta, chunks, k), p.chunk);
      offset' := at + p.chunk;
      curr' := next;
    case Past(at, k) =>
      Mark(meta, chunks, k);
      nodes' := Emit(nodes, offset, at, Source(meta, chunks, k), p.chunk);
      offset' := at + p.chunk;
      curr' := at + p.chunk - 1;
  }

  /** How far the scan is: whatever the buffer will hold, until a round meets the end; then, for what it held there. */
  ghost predicate Midway(p: Params, chunks: seq<Chunk>, file: seq<byte>, met: bool, behind: seq<byte>,
                         nodes: seq<OffsetNode>, curr: int, offset: int)
    requires 1 <= p.chunk && 0 <= curr
  {
    |behind| == p.chunk
    && if met then
         curr + p.chunk > |file| && Carries(p, chunks, file, behind, [], 0, 0, nodes, curr, offset)
       else
         forall b {:trigger ScanFrom(p, chunks, file, b, 0, 0)} ::
           |b| == p.chunk ==> Carries(p, chunks, file, b, [], 0, 0, nodes, curr, offset)
  }

  lemma MidwayOn(p: Params, chunks: seq<Chunk>, file: seq<byte>, met: bool, before: seq<byte>, behind: seq<byte>,
                 nodes: seq<OffsetNode>, curr: int, offset: int,
                 nodes': seq<OffsetNode>, curr': int, offset': int)
    requires 1 <= p.chunk == |behind| && 0 <= curr && Midway(p, chunks, file, met, before, nodes, curr, offset)
    requires Moves(p, chunks, RoundAt(p, chunks, file, behind, curr), nodes, curr, offset, nodes', curr', offset')
    ensures 0 <= curr' && (curr + p.chunk > |file| || curr < curr')
    ensures var meets := MeetsEnd(p, file, curr);
            Midway(p, chunks, file, met || meets, if meets then behind else before, nodes', curr', offset')
  {
    hide RoundAt, ScanFrom;
    MovesCarry(p, chunks, file, behind, nodes, curr, offset, nodes', curr', offset');
    if !met {
      forall b: seq<byte> | |b| == p.chunk && (b == behind || !MeetsEnd(p, file, curr))
        ensures Carries(p, chunks, file, b, [], 0, 0, nodes', curr', offset')
      {
        if b != behind {
          BehindIdle(p, chunks, file, b, behind, curr);
        }
        MovesCarry(p, chunks, file, b, nodes, curr, offset, nodes', curr', offset');
        CarriesOn(p, chunks, file, before, b, nodes, curr, offset, nodes', curr', offset');
      }
    }
  }

  lemma CarriesOn(p: Params, chunks: seq<Chunk>, file: seq<byte>, before: seq<byte>, behind: seq<byte>,
                  nodes: seq<OffsetNode>, curr: int, offset: int,
                  nodes': seq<OffsetNode>, curr': int, offset': int)
    requires 1 <= p.chunk == |behind| && 0 <= curr && 0 <= curr'
    requires Midway(p, chunks, file, false, before, nodes, curr, offset)
    requires Carries(p, chunks, file, behind, nodes, curr, offset, nodes', curr', offset')
    ensures Carries(p, chunks, file, behind, [], 0, 0, nodes', curr', offset')
  {
    hide ScanFrom;
    var _ := ScanFrom(p, chunks, file, behind, 0, 0);
  }

  /** The nodes are the scan for the signature, the file and what the buffer held where the rolling loop met its end. */
  method ScanNewFile(p: Params, meta: seq<ChunkInfo>, file: seq<byte>, unset: int32)
    returns (nodes: seq<OffsetNode>, ghost behind: seq<byte>)
    requires p.Valid() && |file| + p.window < TWO31 && 0 <= unset <= p.window
    modifies meta
    ensures |behind| == p.chunk && nodes == Scan(p, old(Infos(meta)), file, behind)
    ensures LeftBehind(p, old(Infos(meta)), file, behind)
  {
    ghost var chunks := Infos(meta);
    var filter, table := BuildTable(meta);
    var reader := new FileMap(file, p.window, unset);
    ghost var w := reader.View();
    JustOpened(p, reader);
    ghost var goal := BehindFrom(p, chunks, file, w, 0);
    LeftBehindIt(p, chunks, file, w);
    var summer := new Checksum3(p.charOffset, p.queue);
    var curr, offset := 0, 0;
    nodes, behind := [], Blank(p.chunk);
    assert Describes(meta, chunks) && Locates(meta, chunks) && Reads(p, reader) && summer.Valid();
    hide RoundAt, RoundView, BehindFrom, ScanFrom, Indexes, Describes, Locates, Moves, Midway, Tracks, MeetsEnd,
         LeftBehind, Opened, Reads, Stands, Sits, Infos, Checksum3.Valid, FileMap.Valid, FileMap.View;
    var done := false;
    ghost var met := false;
    MidwayStart(p, chunks, file, behind);
    TracksStart(p, chunks, file, w);
    while !done
      invariant Reads(p, reader) && (curr + p.chunk <= |file| ==> Stands(p, reader, w))
      invariant reader.file == file && fresh(reader) && fresh(reader.data)
      invariant summer.Valid() && summer.charOffset == p.charOffset && fresh(summer)
      invariant fresh(summer.bufList) && fresh(summer.bufList.data) && reader.data != summer.bufList.data
      invariant Describes(meta, chunks) && Locates(meta, chunks) && Indexes(filter, table, chunks)
      invariant 0 <= curr && |behind| == p.chunk && Midway(p, chunks, file, met, behind, nodes, curr, offset)
      invariant Tracks(p, chunks, file, met, behind, w, curr, goal)
      invariant done ==> curr + p.chunk > |file|
      decreases !done, |file| + p.chunk - curr
    {
      ghost var front, was, at, from := behind, nodes, curr, offset;
      done, nodes, curr, offset, front :=
        ScanTurn(p, meta, chunks, filter, table, reader, summer, nodes, curr, offset, w);
      MidwayOn(p, chunks, file, met, behind, front, was, at, from, nodes, curr, offset);
      MovesNext(p, chunks, file, front, was, at, from, nodes, curr, offset);
      TracksOn(p, chunks, file, met, behind, front, w, at, curr, goal);
      met, behind := met || MeetsEnd(p, file, at), if MeetsEnd(p, file, at) then front else behind;
      w := if at + p.chunk <= |file| then RoundView(p, chunks, file, at, w) else w;
    }
    ScanStep(p, chunks, file, behind, curr, offset);
    MidwayDone(p, chunks, file, met, behind, nodes, curr, offset);
    TracksDone(p, chunks, file, met, behind, w, curr, goal);
    if offset < |file| {
      nodes := nodes + [OffsetNode(true, offset, |file| - offset)];
    }
  }

  /** Where the next round starts, and that the rounds come to an end. */
  lemma MovesNext(p: Params, chunks: seq<Chunk>, file: seq<byte>, behind: seq<byte>,
                  nodes: seq<OffsetNode>, curr: int, offset: int,
                  nodes': seq<OffsetNode>, curr': int, offset': int)
    requires 1 <= p.chunk == |behind| && 0 <= curr
    requires Moves(p, chunks, RoundAt(p, chunks, file, behind, curr), nodes, curr, offset, nodes', curr', offset')
    ensures curr + p.chunk > |file| ==> curr' == curr
    ensures var r := RoundAt(p, chunks, file, behind, curr); r.Skip? || r.Found? ==> curr' == r.next
    ensures MeetsEnd(p, file, curr) ==> curr' + p.chunk > |file|
  {
    hide RoundAt;
  }

  lemma MidwayStart(p: Params, chunks: seq<Chunk>, file: seq<byte>, behind: seq<byte>)
    requires 1 <= p.chunk == |behind|
    ensures Midway(p, chunks, file, false, behind, [], 0, 0)
  {
    hide ScanFrom;
    forall b: seq<byte> | |b| == p.chunk
      ensures Carries(p, chunks, file, b, [], 0, 0, [], 0, 0)
    {
    }
  }

  lemma MidwayDone(p: Params, chunks: seq<Chunk>, file: seq<byte>, met: bool, behind: seq<byte>,
                   nodes: seq<OffsetNode>, curr: int, offset: int)
    requires 1 <= p.chunk && 0 <= curr && Midway(p, chunks, file, met, behind, nodes, curr, offset)
    ensures |behind| == p.chunk
    ensures nodes + ScanFrom(p, chunks, file, behind, curr, offset) == Scan(p, chunks, file, behind)
  {
    hide ScanFrom;
    assert Carries(p, chunks, file, behind, [], 0, 0, nodes, curr, offset) by {
      var _ := ScanFrom(p, chunks, file, behind, 0, 0);
    }
    assert [] + ScanFrom(p, chunks, file, behind, 0, 0) == ScanFrom(p, chunks, file, behind, 0, 0);
  }
}

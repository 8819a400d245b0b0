/**
 The scan of a new file for blocks of the old one, as a function of the
 signature and the new file, and what its list of nodes means.
*/
module Scans {
  import opened Bytes
  import opened Chunks
  import opened Signatures
  import WeakSums

  /** `from`: a literal run of the new file; otherwise a run of the old file. */
  datatype OffsetNode = OffsetNode(from: bool, offset: int, length: int)

  /**
   What the rolling loop finds: the position of the last byte of an accepted
   window, and its chunk; or nothing, with where the read pointer then stands
   and what the summer holds.
  */
  datatype Roll = Miss(base: int, window: seq<byte>) | Hit(end: int, k: int)

  /**
   One round of the scan: the accepted window and chunk if any, and where the
   next round starts. `Past`: the accepted window ends beyond the file.
  */
  datatype Round = End | Skip(next: int) | Found(at: int, k: int, next: int) | Past(at: int, k: int)

  /** The bytes of `block` stand at `at`. */
  predicate BlockAt(file: seq<byte>, at: int, block: seq<byte>) {
    0 <= at && at + |block| <= |file| && file[at..at + |block|] == block
  }

  /** The strong sum of the `chunk` bytes at `at` is that of chunk `k`. */
  predicate StrongMatch(p: Params, chunks: seq<Chunk>, file: seq<byte>, at: int, k: int) {
    0 <= k < |chunks| && 0 <= at && 0 <= p.chunk && at + p.chunk <= |file|
    && p.strong(file[at..at + p.chunk]) == chunks[k].strong
  }

  /**
   The rolling loop over the `limit` mapped bytes: `curr` is the position of the
   first byte to enter, `base` the file position the read pointer stands for,
   `window` what the summer holds. After a weak hit that the strong sum refutes,
   the pointer stands for the refuted window, so the bytes that enter later are
   not the following ones.
  */
  function RollFrom(p: Params, chunks: seq<Chunk>, file: seq<byte>,
                    curr: int, base: int, i: int, limit: int, window: seq<byte>): (r: Roll)
    requires 1 <= p.chunk <= curr && 0 <= base <= curr
    requires 0 <= i <= limit <= p.chunk && curr + limit <= |file|
    requires window != []
    ensures r.Hit? ==> curr <= r.end < curr + limit && StrongMatch(p, chunks, file, r.end - p.chunk + 1, r.k)
    ensures r.Miss? ==> 0 <= r.base <= curr && r.window != []
    decreases limit - i
  {
    hide Lookup, WeakSums.Weak;
    if i >= limit then Miss(base, window)
    else
      var slid := window[1..] + [file[base + i]];
      var k := Lookup(chunks, p.WeakOf(slid));
      var at := curr + i - p.chunk + 1;
      if k < 0 then RollFrom(p, chunks, file, curr, base, i + 1, limit, slid)
      else if StrongMatch(p, chunks, file, at, k) then Hit(curr + i, k)
      else RollFrom(p, chunks, file, curr, at, i + 1, limit, slid)
  }

  /** One turn of the rolling loop. */
  lemma RollStep(p: Params, chunks: seq<Chunk>, file: seq<byte>,
                 curr: int, base: int, i: int, limit: int, window: seq<byte>)
    requires 1 <= p.chunk <= curr && 0 <= base <= curr
    requires 0 <= i < limit <= p.chunk && curr + limit <= |file| && window != []
    ensures RollFrom(p, chunks, file, curr, base, i, limit, window)
         == (var slid := window[1..] + [file[base + i]];
             var k, at := Lookup(chunks, p.WeakOf(slid)), curr + i - p.chunk + 1;
             if k < 0 then RollFrom(p, chunks, file, curr, base, i + 1, limit, slid)
             else if StrongMatch(p, chunks, file, at, k) then Hit(curr + i, k)
             else RollFrom(p, chunks, file, curr, at, i + 1, limit, slid))
  {
  }

  lemma RollDone(p: Params, chunks: seq<Chunk>, file: seq<byte>, curr: int, base: int, limit: int, window: seq<byte>)
    requires 1 <= p.chunk <= curr && 0 <= base <= curr
    requires 0 <= limit <= p.chunk && curr + limit <= |file| && window != []
    ensures RollFrom(p, chunks, file, curr, base, limit, limit, window) == Miss(base, window)
  {
  }

  /** What a mapping of a chunk at `at`, behind whose end the file stops, leaves at the start of the buffer. */
  function Remapped(file: seq<byte>, front: seq<byte>, at: int): (mapped: seq<byte>)
    requires 0 <= at <= |file| <= at + |front|
    ensures |mapped| == |front|
  {
    file[at..] + front[|file| - at..]
  }

  /** The byte at turn `i` of the rolling loop when the read pointer stands for `base`, which may leave the file. */
  function EnteringByte(file: seq<byte>, base: int, front: seq<byte>, i: int): byte
    requires 0 <= base && 0 <= i < |front|
  {
    if base + i < |file| then file[base + i] else front[i]
  }

  /**
   The rolling loop when the mapping ended at the end of the file: it runs on to
   the chunk size. `front` is the start of the read buffer; behind the file's
   last byte the read pointer meets what an earlier mapping left there, and a
   window is judged by the bytes then mapped.
  */
  function PastFrom(p: Params, chunks: seq<Chunk>, file: seq<byte>,
                    curr: int, base: int, i: int, front: seq<byte>, window: seq<byte>): (r: Roll)
    requires 1 <= p.chunk == |front| && p.chunk <= curr <= |file| && 0 <= base <= curr
    requires 0 <= i <= p.chunk && (i < p.chunk ==> |file| <= curr + i)
    requires window != []
    ensures r.Hit? ==> |file| <= r.end < curr + p.chunk && 0 <= r.k < |chunks|
    decreases p.chunk - i
  {
    if i >= p.chunk then Miss(base, window)
    else
      var slid := window[1..] + [EnteringByte(file, base, front, i)];
      var k := Lookup(chunks, p.WeakOf(slid));
      var at := curr + i - p.chunk + 1;
      if k < 0 then PastFrom(p, chunks, file, curr, base, i + 1, front, slid)
      else
        var mapped := Remapped(file, front, at);
        if p.strong(mapped) == chunks[k].strong then Hit(curr + i, k)
        else PastFrom(p, chunks, file, curr, at, i + 1, mapped, slid)
  }

  /** One turn of it. */
  lemma PastStep(p: Params, chunks: seq<Chunk>, file: seq<byte>,
                 curr: int, base: int, i: int, front: seq<byte>, window: seq<byte>)
    requires 1 <= p.chunk == |front| && p.chunk <= curr <= |file| && 0 <= base <= curr
    requires 0 <= i < p.chunk && |file| <= curr + i && window != []
    ensures PastFrom(p, chunks, file, curr, base, i, front, window)
         == (var slid := window[1..] + [EnteringByte(file, base, front, i)];
             var k, at := Lookup(chunks, p.WeakOf(slid)), curr + i - p.chunk + 1;
             var mapped := Remapped(file, front, at);
             if k < 0 then PastFrom(p, chunks, file, curr, base, i + 1, front, slid)
             else if p.strong(mapped) == chunks[k].strong then Hit(curr + i, k)
             else PastFrom(p, chunks, file, curr, at, i + 1, mapped, slid))
  {
  }

  lemma PastDone(p: Params, chunks: seq<Chunk>, file: seq<byte>,
                 curr: int, base: int, front: seq<byte>, window: seq<byte>)
    requires 1 <= p.chunk == |front| && p.chunk <= curr <= |file| && 0 <= base <= curr && window != []
    ensures PastFrom(p, chunks, file, curr, base, p.chunk, front, window) == Miss(base, window)
  {
  }

  /** The whole rolling loop from `next` on: the mapped bytes, then those behind them. */
  function RollAll(p: Params, chunks: seq<Chunk>, file: seq<byte>, front: seq<byte>, next: int, window: seq<byte>)
    : (r: Round)
    requires 1 <= p.chunk == |front| && p.chunk <= next <= |file| && window != []
    ensures !r.End? && (r.Skip? ==> r.next == next + p.chunk)
    ensures r.Found? ==>
      next - p.chunk < r.at && r.next == r.at + p.chunk - 1 && StrongMatch(p, chunks, file, r.at, r.k)
    ensures r.Past? ==> next - p.chunk < r.at <= |file| < r.at + p.chunk && 0 <= r.k < |chunks|
  {
    var limit := Min(|file| - next, p.chunk);
    match RollFrom(p, chunks, file, next, next, 0, limit, window)
    case Hit(end, k) => Found(end - p.chunk + 1, k, end)
    case Miss(base, last) =>
      match PastFrom(p, chunks, file, next, base, limit, front, last)
      case Hit(end, k) => Past(end - p.chunk + 1, k)
      case Miss(_, _) => Skip(next + p.chunk)
  }

  /** The two parts of it, for the roll over the mapped bytes and the one behind them. */
  lemma RollAllSteps(p: Params, chunks: seq<Chunk>, file: seq<byte>, front: seq<byte>, next: int, window: seq<byte>)
    requires 1 <= p.chunk == |front| && p.chunk <= next <= |file| && window != []
    ensures var limit, r := Min(|file| - next, p.chunk), RollAll(p, chunks, file, front, next, window);
            match RollFrom(p, chunks, file, next, next, 0, limit, window)
            case Hit(end, k) => r == Found(end - p.chunk + 1, k, end)
            case Miss(base, last) =>
              match PastFrom(p, chunks, file, next, base, limit, front, last)
              case Hit(end, k) => r == Past(end - p.chunk + 1, k)
              case Miss(_, _) => r == Skip(next + p.chunk)
  {
    hide RollFrom, PastFrom;
  }

  /**
   A round from `curr`. `behind` is the start of the read buffer when the rolling
   loop reaches the end of the file; when nothing is left to map there, that is
   still the window the round began with.
  */
  function RoundAt(p: Params, chunks: seq<Chunk>, file: seq<byte>, behind: seq<byte>, curr: int): (r: Round)
    requires 1 <= p.chunk == |behind| && 0 <= curr
    ensures r.End? <==> curr + p.chunk > |file|
    ensures r.Skip? ==> r.next == curr + 2 * p.chunk
    ensures r.Found? ==> StrongMatch(p, chunks, file, r.at, r.k) && 0 <= r.k < |chunks| && r.at + p.chunk <= |file|
    ensures r.Found? ==> (r.at == curr && r.next == curr + p.chunk)
                         || (curr < r.at && r.next == r.at + p.chunk - 1)
    ensures r.Past? ==> curr < r.at <= |file| < r.at + p.chunk && 0 <= r.k < |chunks|
  {
    if curr + p.chunk > |file| then End
    else
      var window := file[curr..curr + p.chunk];
      var k := Lookup(chunks, p.WeakOf(window));
      if k >= 0 && StrongMatch(p, chunks, file, curr, k) then Found(curr, k, curr + p.chunk)
      else
        var front := if curr + p.chunk == |file| then window else behind;
        RollAll(p, chunks, file, front, curr + p.chunk, window)
  }

  lemma RoundEnds(p: Params, chunks: seq<Chunk>, file: seq<byte>, behind: seq<byte>, curr: int)
    requires 1 <= p.chunk == |behind| && 0 <= curr && curr + p.chunk > |file|
    ensures RoundAt(p, chunks, file, behind, curr) == End
  {
  }

  /** One round: the window it starts with, then the rolling loop. */
  lemma RoundSteps(p: Params, chunks: seq<Chunk>, file: seq<byte>, behind: seq<byte>, curr: int)
    requires 1 <= p.chunk == |behind| && 0 <= curr && curr + p.chunk <= |file|
    ensures var window, next := file[curr..curr + p.chunk], curr + p.chunk;
            var k, front := Lookup(chunks, p.WeakOf(window)), if next == |file| then window else behind;
            RoundAt(p, chunks, file, behind, curr)
            == if k >= 0 && StrongMatch(p, chunks, file, curr, k) then Found(curr, k, next)
               else RollAll(p, chunks, file, front, next, window)
  {
  }

  /** The literal run between the end of the last copy and the next one; its length can be negative. */
  function Gap(offset: int, at: int): seq<OffsetNode> {
    if offset != at then [OffsetNode(true, offset, at - offset)] else []
  }

  /** The literal run before a copy, if there is one, and the copy. */
  function Copied(offset: int, at: int, source: int, length: int): seq<OffsetNode> {
    Gap(offset, at) + [OffsetNode(false, source, length)]
  }

  /** The nodes for the file from `offset` on, when the next round starts at `curr`. */
  function ScanFrom(p: Params, chunks: seq<Chunk>, file: seq<byte>, behind: seq<byte>,
                    curr: int, offset: int): seq<OffsetNode>
    requires 1 <= p.chunk == |behind| && 0 <= curr
    decreases |file| - curr
  {
    match RoundAt(p, chunks, file, behind, curr)
    case End => if offset < |file| then [OffsetNode(true, offset, |file| - offset)] else []
    case Skip(next) => ScanFrom(p, chunks, file, behind, next, offset)
    case Found(at, k, next) =>
      Copied(offset, at, chunks[k].offset, p.chunk) + ScanFrom(p, chunks, file, behind, next, at + p.chunk)
    case Past(at, k) => Copied(offset, at, chunks[k].offset, p.chunk)
  }

  /** One round of the outer loop, in terms of the nodes still to come. */
  lemma ScanStep(p: Params, chunks: seq<Chunk>, file: seq<byte>, behind: seq<byte>, curr: int, offset: int)
    requires 1 <= p.chunk == |behind| && 0 <= curr
    ensures var r, nodes := RoundAt(p, chunks, file, behind, curr), ScanFrom(p, chunks, file, behind, curr, offset);
            && (r.End? ==> nodes == if offset < |file| then [OffsetNode(true, offset, |file| - offset)] else [])
            && (r.Skip? ==> nodes == ScanFrom(p, chunks, file, behind, r.next, offset))
            && (r.Found? ==>
                  nodes == Copied(offset, r.at, chunks[r.k].offset, p.chunk)
                           + ScanFrom(p, chunks, file, behind, r.next, r.at + p.chunk))
            && (r.Past? ==> nodes == Copied(offset, r.at, chunks[r.k].offset, p.chunk) + [])
  {
    hide RoundAt, Copied;
    var r := RoundAt(p, chunks, file, behind, curr);
    if r.Past? {
      AndNoMore(Copied(offset, r.at, chunks[r.k].offset, p.chunk));
    }
  }

  lemma AndNoMore(nodes: seq<OffsetNode>)
    ensures nodes + [] == nodes
  {
  }

  lemma AppendNodes(nodes: seq<OffsetNode>, more: seq<OffsetNode>, rest: seq<OffsetNode>)
    ensures nodes + (more + rest) == (nodes + more) + rest
  {
  }

  function Scan(p: Params, chunks: seq<Chunk>, file: seq<byte>, behind: seq<byte>): seq<OffsetNode>
    requires 1 <= p.chunk == |behind|
  {
    ScanFrom(p, chunks, file, behind, 0, 0)
  }

  /** The window at `at` is accepted at the start of a round. */
  predicate AcceptedAt(p: Params, chunks: seq<Chunk>, file: seq<byte>, at: int)
    requires 1 <= p.chunk && 0 <= at
  {
    at + p.chunk <= |file|
    && StrongMatch(p, chunks, file, at, Lookup(chunks, p.WeakOf(file[at..at + p.chunk])))
  }

  /**
   From `curr` on, the scan accepts a window in the rolling loop and then, at
   the start of the next round, the window that begins at its last byte.
  */
  predicate StepsBack(p: Params, chunks: seq<Chunk>, file: seq<byte>, behind: seq<byte>, curr: int)
    requires 1 <= p.chunk == |behind| && 0 <= curr
    decreases |file| - curr
  {
    match RoundAt(p, chunks, file, behind, curr)
    case End => false
    case Skip(next) => StepsBack(p, chunks, file, behind, next)
    case Found(at, k, next) =>
      (next < at + p.chunk && AcceptedAt(p, chunks, file, next)) || StepsBack(p, chunks, file, behind, next)
    case Past(_, _) => false
  }

  /** From `curr` on, more than `capacity` bytes pass between two accepted windows or after the last one. */
  predicate LongGap(p: Params, chunks: seq<Chunk>, file: seq<byte>, behind: seq<byte>, curr: int, offset: int)
    requires 1 <= p.chunk == |behind| && 0 <= curr
    decreases |file| - curr
  {
    match RoundAt(p, chunks, file, behind, curr)
    case End => |file| - offset > p.capacity
    case Skip(next) => LongGap(p, chunks, file, behind, next, offset)
    case Found(at, k, next) => at - offset > p.capacity || LongGap(p, chunks, file, behind, next, at + p.chunk)
    case Past(at, k) => at - offset > p.capacity
  }

  lemma LongGapStep(p: Params, chunks: seq<Chunk>, file: seq<byte>, behind: seq<byte>, curr: int, offset: int)
    requires 1 <= p.chunk == |behind| && 0 <= curr
    ensures var r, long := RoundAt(p, chunks, file, behind, curr), LongGap(p, chunks, file, behind, curr, offset);
            && (r.End? ==> (long <==> |file| - offset > p.capacity))
            && (r.Skip? ==> (long <==> LongGap(p, chunks, file, behind, r.next, offset)))
            && (r.Found? ==>
                  (long <==> r.at - offset > p.capacity || LongGap(p, chunks, file, behind, r.next, r.at + p.chunk)))
            && (r.Past? ==> (long <==> r.at - offset > p.capacity))
  {
  }

  /** From `curr` on, the scan accepts a window that ends beyond the file. */
  predicate RunsPast(p: Params, chunks: seq<Chunk>, file: seq<byte>, behind: seq<byte>, curr: int)
    requires 1 <= p.chunk == |behind| && 0 <= curr
    decreases |file| - curr
  {
    match RoundAt(p, chunks, file, behind, curr)
    case End => false
    case Skip(next) => RunsPast(p, chunks, file, behind, next)
    case Found(_, _, next) => RunsPast(p, chunks, file, behind, next)
    case Past(_, _) => true
  }

  /**
   The nodes, in order, cover the new file from `pos` to its end without gap or
   overlap; a literal stands for its own place, a copy for equal bytes.
  */
  ghost predicate Tiles(nodes: seq<OffsetNode>, origin: seq<byte>, file: seq<byte>, pos: int) {
    if nodes == [] then pos == |file|
    else
      var n := nodes[0];
      && 0 <= pos && 0 < n.length && pos + n.length <= |file|
      && (if n.from then n.offset == pos
          else 0 <= n.offset && n.offset + n.length <= |origin|
               && origin[n.offset..n.offset + n.length] == file[pos..pos + n.length])
      && Tiles(nodes[1..], origin, file, pos + n.length)
  }

  /** A window with the strong sum of a chunk is that block of the old file. */
  ghost predicate Trusted(p: Params, chunks: seq<Chunk>, origin: seq<byte>, file: seq<byte>) {
    forall at, k {:trigger StrongMatch(p, chunks, file, at, k)} :: StrongMatch(p, chunks, file, at, k) ==>
      && 0 <= chunks[k].offset && chunks[k].offset + p.chunk <= |origin|
      && file[at..at + p.chunk] == origin[chunks[k].offset..chunks[k].offset + p.chunk]
  }

  /** The strong sum tells the windows of the new file from the blocks of the old one. */
  ghost predicate NoCollision(p: Params, origin: seq<byte>, file: seq<byte>)
    requires 1 <= p.chunk
  {
    forall at, k: nat {:trigger p.strong(file[at..at + p.chunk]), p.strong(origin[k * p.chunk..(k + 1) * p.chunk])} ::
      0 <= at && at + p.chunk <= |file| && (Offsets(p.chunk, k); (k + 1) * p.chunk <= |origin|) ==>
      (Offsets(p.chunk, k);
       p.strong(file[at..at + p.chunk]) == p.strong(origin[k * p.chunk..(k + 1) * p.chunk])
       ==> file[at..at + p.chunk] == origin[k * p.chunk..(k + 1) * p.chunk])
  }

  lemma SignatureTrusted(p: Params, origin: seq<byte>, file: seq<byte>)
    requires 1 <= p.chunk && |origin| < TWO31 && NoCollision(p, origin, file)
    ensures Trusted(p, Signature(p, origin), origin, file)
  {
    var chunks := Signature(p, origin);
    forall at, k | StrongMatch(p, chunks, file, at, k)
      ensures 0 <= chunks[k].offset && chunks[k].offset + p.chunk <= |origin|
      ensures file[at..at + p.chunk] == origin[chunks[k].offset..chunks[k].offset + p.chunk]
    {
      BlockInside(p.chunk, |origin|, k);
      Offsets(p.chunk, k);
      assert chunks[k] == BlockChunk(p, origin, k);
    }
  }

  lemma AcceptedRound(p: Params, chunks: seq<Chunk>, file: seq<byte>, behind: seq<byte>, curr: int)
    requires 1 <= p.chunk == |behind| && 0 <= curr
    ensures AcceptedAt(p, chunks, file, curr)
       <==> RoundAt(p, chunks, file, behind, curr).Found? && RoundAt(p, chunks, file, behind, curr).at == curr
  {
  }

  lemma TilesGap(offset: int, at: int, rest: seq<OffsetNode>, origin: seq<byte>, file: seq<byte>)
    requires 0 <= offset <= at <= |file|
    ensures Tiles(Gap(offset, at) + rest, origin, file, offset) <==> Tiles(rest, origin, file, at)
  {
    if offset != at {
      assert (Gap(offset, at) + rest)[1..] == rest;
    } else {
      assert Gap(offset, at) + rest == rest;
    }
  }

  /** An accepted window: the literal before it and its copy tile what they stand for. */
  lemma TilesFound(p: Params, chunks: seq<Chunk>, origin: seq<byte>, file: seq<byte>,
                   offset: int, at: int, k: int, rest: seq<OffsetNode>)
    requires 1 <= p.chunk && Trusted(p, chunks, origin, file) && StrongMatch(p, chunks, file, at, k)
    requires 0 <= offset <= at
    ensures Tiles(Copied(offset, at, chunks[k].offset, p.chunk) + rest, origin, file, offset)
       <==> Tiles(rest, origin, file, at + p.chunk)
  {
    var n := OffsetNode(false, chunks[k].offset, p.chunk);
    assert Gap(offset, at) + [n] + rest == Gap(offset, at) + ([n] + rest);
    TilesGap(offset, at, [n] + rest, origin, file);
    assert ([n] + rest)[1..] == rest;
  }

  /** One round, in terms of the steps back and the run past the end still to come. */
  lemma RoundOutlook(p: Params, chunks: seq<Chunk>, file: seq<byte>, behind: seq<byte>, curr: int)
    requires 1 <= p.chunk == |behind| && 0 <= curr
    ensures var r := RoundAt(p, chunks, file, behind, curr);
            var back, past := StepsBack(p, chunks, file, behind, curr), RunsPast(p, chunks, file, behind, curr);
            && (r.End? ==> !back && !past)
            && (r.Skip? ==>
                  && (back <==> StepsBack(p, chunks, file, behind, r.next))
                  && (past <==> RunsPast(p, chunks, file, behind, r.next)))
            && (r.Found? ==>
                  && (back <==> (r.next < r.at + p.chunk && AcceptedAt(p, chunks, file, r.next))
                                || StepsBack(p, chunks, file, behind, r.next))
                  && (past <==> RunsPast(p, chunks, file, behind, r.next)))
            && (r.Past? ==> !back && past)
  {
  }

  lemma TilesLast(origin: seq<byte>, file: seq<byte>, offset: int)
    requires 0 <= offset <= |file|
    ensures Tiles(if offset < |file| then [OffsetNode(true, offset, |file| - offset)] else [], origin, file, offset)
  {
  }

  /** A copy that stands for bytes beyond the file tiles nothing. */
  lemma PastFails(offset: int, at: int, source: int, length: int, origin: seq<byte>, file: seq<byte>)
    requires |file| < at + length
    ensures !Tiles(Copied(offset, at, source, length) + [], origin, file, offset)
  {
    var n := OffsetNode(false, source, length);
    if offset != at {
      assert (Copied(offset, at, source, length) + [])[1..] == [n];
    } else {
      assert Copied(offset, at, source, length) + [] == [n];
    }
  }

  /**
   The nodes tile the new file exactly when the scan neither steps back into a
   copied block nor accepts a window that ends beyond the file.
  */
  lemma {:induction false} ScanTilesIff(p: Params, chunks: seq<Chunk>, origin: seq<byte>, file: seq<byte>,
                                        behind: seq<byte>, curr: int, offset: int)
    requires 1 <= p.chunk == |behind| && Trusted(p, chunks, origin, file)
    requires 0 <= offset <= |file| && 0 <= curr
    requires offset <= curr || (offset == curr + 1 && !AcceptedAt(p, chunks, file, curr))
    ensures Tiles(ScanFrom(p, chunks, file, behind, curr, offset), origin, file, offset)
       <==> !StepsBack(p, chunks, file, behind, curr) && !RunsPast(p, chunks, file, behind, curr)
    decreases |file| - curr
  {
    hide *;
    AcceptedRound(p, chunks, file, behind, curr);
    ScanStep(p, chunks, file, behind, curr, offset);
    RoundOutlook(p, chunks, file, behind, curr);
    TilesLast(origin, file, offset);
    var r := RoundAt(p, chunks, file, behind, curr);
    if r.Skip? {
      ScanTilesIff(p, chunks, origin, file, behind, r.next, offset);
    } else if r.Past? {
      PastFails(offset, r.at, chunks[r.k].offset, p.chunk, origin, file);
    } else if r.Found? {
      var end := r.at + p.chunk;
      TilesFound(p, chunks, origin, file, offset, r.at, r.k, ScanFrom(p, chunks, file, behind, r.next, end));
      if r.next < end && AcceptedAt(p, chunks, file, r.next) {
        SteppedBackFails(p, chunks, origin, file, behind, r.next, end);
      } else {
        ScanTilesIff(p, chunks, origin, file, behind, r.next, end);
      }
    }
  }

  /** A round that accepts the window starting one byte before `offset` emits a literal of length -1. */
  lemma SteppedBackFails(p: Params, chunks: seq<Chunk>, origin: seq<byte>, file: seq<byte>, behind: seq<byte>,
                         curr: int, offset: int)
    requires 1 <= p.chunk == |behind| && 0 <= curr && AcceptedAt(p, chunks, file, curr) && offset == curr + 1
    ensures ScanFrom(p, chunks, file, behind, curr, offset) != []
    ensures ScanFrom(p, chunks, file, behind, curr, offset)[0] == OffsetNode(true, offset, -1)
    ensures !Tiles(ScanFrom(p, chunks, file, behind, curr, offset), origin, file, offset)
  {
    AcceptedRound(p, chunks, file, behind, curr);
    ScanStep(p, chunks, file, behind, curr, offset);
    hide RoundAt, ScanFrom;
  }

  /** The bytes a list of nodes stands for. */
  function Rebuild(nodes: seq<OffsetNode>, origin: seq<byte>, file: seq<byte>): seq<byte>
    requires Inside(nodes, origin, file)
  {
    if nodes == [] then []
    else
      var n := nodes[0];
      (if n.from then file else origin)[n.offset..n.offset + n.length] + Rebuild(nodes[1..], origin, file)
  }

  predicate Inside(nodes: seq<OffsetNode>, origin: seq<byte>, file: seq<byte>) {
    forall i :: 0 <= i < |nodes| ==>
      && 0 <= nodes[i].offset && 0 <= nodes[i].length
      && nodes[i].offset + nodes[i].length <= |if nodes[i].from then file else origin|
  }

  /** The first of some nodes and the others. */
  lemma RebuildFirst(nodes: seq<OffsetNode>, origin: seq<byte>, file: seq<byte>)
    requires nodes != [] && Inside(nodes[..1], origin, file) && Inside(nodes[1..], origin, file)
    ensures Inside(nodes, origin, file)
    ensures var n := nodes[0];
            && 0 <= n.offset && 0 <= n.length && n.offset + n.length <= |if n.from then file else origin|
            && Rebuild(nodes, origin, file)
               == (if n.from then file else origin)[n.offset..n.offset + n.length] + Rebuild(nodes[1..], origin, file)
  {
    assert nodes[0] == nodes[..1][0];
    assert forall i :: 1 <= i < |nodes| ==> nodes[i] == nodes[1..][i - 1];
  }

  lemma TilesFirst(nodes: seq<OffsetNode>, origin: seq<byte>, file: seq<byte>, pos: int)
    requires nodes != [] && Tiles(nodes, origin, file, pos)
    ensures var n := nodes[0];
            && 0 <= pos && 0 < n.length && pos + n.length <= |file| && Inside(nodes[..1], origin, file)
            && Tiles(nodes[1..], origin, file, pos + n.length)
            && (if n.from then file else origin)[n.offset..n.offset + n.length] == file[pos..pos + n.length]
  {
    assert nodes[..1] == [nodes[0]] && [nodes[0]][0] == nodes[0];
  }

  lemma {:induction false} TilesRebuild(nodes: seq<OffsetNode>, origin: seq<byte>, file: seq<byte>, pos: int)
    requires Tiles(nodes, origin, file, pos) && 0 <= pos
    ensures pos <= |file| && Inside(nodes, origin, file) && Rebuild(nodes, origin, file) == file[pos..]
    ensures forall i :: 0 <= i < |nodes| ==> nodes[i].length > 0
  {
    if nodes != [] {
      hide Tiles, Rebuild;
      var next := pos + nodes[0].length;
      TilesFirst(nodes, origin, file, pos);
      TilesRebuild(nodes[1..], origin, file, next);
      RebuildFirst(nodes, origin, file);
      assert file[pos..next] + file[next..] == file[pos..];
      assert forall i :: 1 <= i < |nodes| ==> nodes[i] == nodes[1..][i - 1];
    }
  }
}

/** Inputs on which the scan goes wrong, and conditions under which it cannot. */
module ScanEnds {
  import opened Bytes
  import opened Chunks
  import opened Signatures
  import opened Scans
  import WeakSums

  /** Block `k` of a file. */
  function Block(chunk: int, origin: seq<byte>, k: nat): (block: seq<byte>)
    requires 1 <= chunk && k < |origin| / chunk
    ensures |block| == chunk
  {
    BlockInside(chunk, |origin|, k);
    Offsets(chunk, k);
    origin[k * chunk..k * chunk + chunk]
  }

  lemma BlockSums(p: Params, origin: seq<byte>, k: nat)
    requires 1 <= p.chunk && |origin| < TWO31 && k < |origin| / p.chunk
    ensures var c := Signature(p, origin)[k];
            c.strong == p.strong(Block(p.chunk, origin, k)) && c.weak == p.WeakOf(Block(p.chunk, origin, k))
            && c.offset == k * p.chunk
  {
    SignatureAt(p, origin, k);
    Offsets(p.chunk, k);
  }

  /** Without collisions an accepted window is the block it is accepted for. */
  lemma AcceptedBlock(p: Params, origin: seq<byte>, file: seq<byte>, at: int, k: int)
    requires 1 <= p.chunk && |origin| < TWO31 && NoCollision(p, origin, file)
    requires StrongMatch(p, Signature(p, origin), file, at, k)
    ensures 0 <= k < |origin| / p.chunk && BlockAt(file, at, Block(p.chunk, origin, k))
  {
    SignatureTrusted(p, origin, file);
    BlockSums(p, origin, k);
    Offsets(p.chunk, k);
  }

  /** The new file never holds one old block where another ends: the two would share a byte. */
  ghost predicate NoOverlap(chunk: int, origin: seq<byte>, file: seq<byte>)
    requires 1 <= chunk
  {
    forall at, k, k' {:trigger BlockAt(file, at, Block(chunk, origin, k)), Block(chunk, origin, k')} ::
      0 <= k < |origin| / chunk && 0 <= k' < |origin| / chunk && BlockAt(file, at, Block(chunk, origin, k)) ==>
      !BlockAt(file, at + chunk - 1, Block(chunk, origin, k'))
  }

  /** No block of the old file begins with the byte that a block ends with: a condition on the old file alone. */
  ghost predicate EndsDiffer(chunk: int, origin: seq<byte>)
    requires 1 <= chunk
  {
    forall k, k' :: 0 <= k < |origin| / chunk && 0 <= k' < |origin| / chunk ==>
      Block(chunk, origin, k)[chunk - 1] != Block(chunk, origin, k')[0]
  }

  lemma EndsDifferNoOverlap(chunk: int, origin: seq<byte>, file: seq<byte>)
    requires 1 <= chunk && EndsDiffer(chunk, origin)
    ensures NoOverlap(chunk, origin, file)
  {
    hide Block;
    forall at, k, k' | 0 <= k < |origin| / chunk && 0 <= k' < |origin| / chunk
                       && BlockAt(file, at, Block(chunk, origin, k))
      ensures !BlockAt(file, at + chunk - 1, Block(chunk, origin, k'))
    {
      var one, other := Block(chunk, origin, k), Block(chunk, origin, k');
      if BlockAt(file, at + chunk - 1, other) {
        SharedByte(chunk, file, at, one, other);
      }
    }
  }

  /** Blocks that stand one byte short of a block apart share that byte. */
  lemma SharedByte(chunk: int, file: seq<byte>, at: int, one: seq<byte>, other: seq<byte>)
    requires 1 <= chunk == |one| == |other| && BlockAt(file, at, one) && BlockAt(file, at + chunk - 1, other)
    ensures one[chunk - 1] == other[0]
  {
    assert one[chunk - 1] == file[at..at + chunk][chunk - 1] == file[at + chunk - 1];
    assert other[0] == file[at + chunk - 1..at + chunk - 1 + chunk][0];
  }

  /** Then no scan against the signature steps back. */
  lemma {:induction false} NoOverlapNeverStepsBack(p: Params, origin: seq<byte>, file: seq<byte>, behind: seq<byte>,
                                                   curr: int)
    requires 1 <= p.chunk == |behind| && |origin| < TWO31 && 0 <= curr
    requires NoCollision(p, origin, file) && NoOverlap(p.chunk, origin, file)
    ensures !StepsBack(p, Signature(p, origin), file, behind, curr)
    decreases |file| - curr
  {
    hide *;
    RoundOutlook(p, Signature(p, origin), file, behind, curr);
    var r := RoundAt(p, Signature(p, origin), file, behind, curr);
    if r.Skip? || r.Found? {
      NoOverlapNeverStepsBack(p, origin, file, behind, r.next);
      if r.Found? && r.next < r.at + p.chunk {
        NoOverlapAt(p, origin, file, r.at, r.k);
      }
    }
  }

  /** After an accepted window the one from its last byte is not accepted. */
  lemma NoOverlapAt(p: Params, origin: seq<byte>, file: seq<byte>, at: int, k: int)
    requires 1 <= p.chunk && |origin| < TWO31 && NoCollision(p, origin, file) && NoOverlap(p.chunk, origin, file)
    requires StrongMatch(p, Signature(p, origin), file, at, k)
    ensures !AcceptedAt(p, Signature(p, origin), file, at + p.chunk - 1)
  {
    hide NoCollision, Signature, Lookup, Block, WeakSums.Weak;
    var chunks, next := Signature(p, origin), at + p.chunk - 1;
    AcceptedBlock(p, origin, file, at, k);
    if AcceptedAt(p, chunks, file, next) {
      AcceptedBlock(p, origin, file, next, Lookup(chunks, p.WeakOf(file[next..next + p.chunk])));
    }
  }

  /** No block of the old file begins with the last bytes of the new one, for any number of them below a chunk. */
  ghost predicate TailFree(chunk: int, origin: seq<byte>, file: seq<byte>)
    requires 1 <= chunk
  {
    forall j, k :: 1 <= j < chunk && j <= |file| && 0 <= k < |origin| / chunk ==>
      Block(chunk, origin, k)[..j] != file[|file| - j..]
  }

  /** What the start of the read buffer can hold there: at each place what was there, or a later byte of the file. */
  ghost predicate Stale(mapped: seq<byte>, file: seq<byte>, behind: seq<byte>) {
    |mapped| == |behind|
    && forall j :: 0 <= j < |mapped| ==>
         mapped[j] == behind[j] || exists c :: 0 <= c < |file| && |file| - |behind| + j <= c && mapped[j] == file[c]
  }

  /** The strong sum tells such bytes from the blocks of the old file. */
  ghost predicate StaleApart(p: Params, origin: seq<byte>, file: seq<byte>, behind: seq<byte>)
    requires 1 <= p.chunk
  {
    forall mapped, k {:trigger Stale(mapped, file, behind), Block(p.chunk, origin, k)} ::
      Stale(mapped, file, behind) && 0 <= k < |origin| / p.chunk
      && p.strong(mapped) == p.strong(Block(p.chunk, origin, k)) ==>
      mapped == Block(p.chunk, origin, k)
  }

  lemma StaleRemapped(file: seq<byte>, front: seq<byte>, behind: seq<byte>, at: int)
    requires Stale(front, file, behind) && 0 <= at <= |file| <= at + |front|
    ensures Stale(Remapped(file, front, at), file, behind)
  {
    var mapped := Remapped(file, front, at);
    forall j | 0 <= j < |mapped|
      ensures mapped[j] == behind[j]
              || exists c :: 0 <= c < |file| && |file| - |behind| + j <= c && mapped[j] == file[c]
    {
      if j < |file| - at {
        assert mapped[j] == file[at + j];
      } else {
        assert mapped[j] == front[j];
      }
    }
  }

  lemma StaleWindow(file: seq<byte>, behind: seq<byte>)
    requires |behind| <= |file|
    ensures Stale(file[|file| - |behind|..], file, behind)
  {
    var mapped := file[|file| - |behind|..];
    forall j | 0 <= j < |mapped|
      ensures exists c :: 0 <= c < |file| && |file| - |behind| + j <= c && mapped[j] == file[c]
    {
      assert mapped[j] == file[|file| - |behind| + j];
    }
  }

  /** The buffer begins with the last bytes of the file. */
  ghost predicate Touched(front: seq<byte>, file: seq<byte>) {
    exists j :: 1 <= j < |front| && j <= |file| && front[..j] == file[|file| - j..]
  }

  lemma RemappedTouched(file: seq<byte>, front: seq<byte>, at: int)
    requires 0 <= at < |file| < at + |front|
    ensures Touched(Remapped(file, front, at), file)
  {
    var mapped, j := Remapped(file, front, at), |file| - at;
    assert mapped[..j] == file[|file| - j..];
  }

  /** Such bytes are no block of the old file. */
  lemma TouchedNoBlock(chunk: int, origin: seq<byte>, file: seq<byte>, front: seq<byte>, k: nat)
    requires 1 <= chunk == |front| && TailFree(chunk, origin, file) && Touched(front, file) && k < |origin| / chunk
    ensures front != Block(chunk, origin, k)
  {
    var j :| 1 <= j < |front| && j <= |file| && front[..j] == file[|file| - j..];
    assert Block(chunk, origin, k)[..j] != file[|file| - j..];
  }

  /** The state of the loop behind the end in which nothing has been mapped yet: the window turns on itself. */
  ghost predicate Turning(p: Params, chunks: seq<Chunk>, file: seq<byte>, curr: int, base: int, i: int,
                          front: seq<byte>, window: seq<byte>)
    requires 1 <= p.chunk == |front| && 0 <= i <= p.chunk
  {
    && curr == base == |file| && window == front[i..] + front[..i]
    && var k := Lookup(chunks, p.WeakOf(front)); k < 0 || p.strong(front) != chunks[k].strong
  }

  lemma TurningOn(p: Params, chunks: seq<Chunk>, file: seq<byte>, curr: int, base: int, i: int,
                  front: seq<byte>, window: seq<byte>)
    requires 1 <= p.chunk == |front| && 0 <= i < p.chunk && Turning(p, chunks, file, curr, base, i, front, window)
    ensures 0 <= base && window != []
    ensures var slid := window[1..] + [EnteringByte(file, base, front, i)];
            Turning(p, chunks, file, curr, base, i + 1, front, slid) && (i == p.chunk - 1 ==> slid == front)
  {
    assert window[1..] == front[i + 1..] + front[..i];
    assert front[i + 1..] + front[..i] + [front[i]] == front[i + 1..] + front[..i + 1];
  }

  /** No such bytes, once they begin with the last ones of the file, have the strong sum of a chunk. */
  ghost predicate Refuted(p: Params, chunks: seq<Chunk>, file: seq<byte>, behind: seq<byte>) {
    forall mapped, k {:trigger Stale(mapped, file, behind), chunks[k]} ::
      Stale(mapped, file, behind) && Touched(mapped, file) && 0 <= k < |chunks| ==> p.strong(mapped) != chunks[k].strong
  }

  /** That can be checked beforehand, but for collisions. */
  lemma TailFreeRefutes(p: Params, origin: seq<byte>, file: seq<byte>, behind: seq<byte>)
    requires 1 <= p.chunk == |behind| && |origin| < TWO31
    requires TailFree(p.chunk, origin, file) && StaleApart(p, origin, file, behind)
    ensures Refuted(p, Signature(p, origin), file, behind)
  {
    hide TailFree, StaleApart, Signature, Block, Touched;
    var chunks := Signature(p, origin);
    forall mapped: seq<byte>, k | Stale(mapped, file, behind) && Touched(mapped, file) && 0 <= k < |chunks|
      ensures p.strong(mapped) != chunks[k].strong
    {
      BlockSums(p, origin, k);
      TouchedNoBlock(p.chunk, origin, file, mapped, k);
      ApartFrom(p, origin, file, behind, mapped, k);
    }
  }

  /** A window judged behind the end is refuted, and leaves the buffer beginning with the last bytes of the file. */
  lemma PastRefuted(p: Params, chunks: seq<Chunk>, file: seq<byte>, behind: seq<byte>, front: seq<byte>,
                    at: int, k: int)
    requires 1 <= p.chunk == |front| == |behind| && 0 <= at <= |file| < at + p.chunk
    requires Refuted(p, chunks, file, behind) && Stale(front, file, behind)
    requires at < |file| || Touched(front, file)
    requires 0 <= k < |chunks|
    ensures p.strong(Remapped(file, front, at)) != chunks[k].strong
    ensures Stale(Remapped(file, front, at), file, behind) && Touched(Remapped(file, front, at), file)
  {
    hide Stale, Touched;
    StaleRemapped(file, front, behind, at);
    if at < |file| {
      RemappedTouched(file, front, at);
    } else {
      AllStale(file, front);
    }
  }

  lemma ApartFrom(p: Params, origin: seq<byte>, file: seq<byte>, behind: seq<byte>, mapped: seq<byte>, k: nat)
    requires 1 <= p.chunk && StaleApart(p, origin, file, behind) && Stale(mapped, file, behind)
    requires k < |origin| / p.chunk && mapped != Block(p.chunk, origin, k)
    ensures p.strong(mapped) != p.strong(Block(p.chunk, origin, k))
  {
  }

  /** The loop behind the end accepts nothing. */
  lemma {:induction false} PastMisses(p: Params, chunks: seq<Chunk>, file: seq<byte>, behind: seq<byte>,
                                      curr: int, base: int, i: int, front: seq<byte>, window: seq<byte>)
    requires 1 <= p.chunk == |front| == |behind| && Refuted(p, chunks, file, behind) && Stale(front, file, behind)
    requires p.chunk <= curr <= |file| && 0 <= base <= curr && 0 <= i <= p.chunk && window != []
    requires i < p.chunk ==> |file| <= curr + i
    requires curr < |file| || Touched(front, file) || Turning(p, chunks, file, curr, base, i, front, window)
    ensures PastFrom(p, chunks, file, curr, base, i, front, window).Miss?
    decreases p.chunk - i
  {
    hide *;
    if i == p.chunk {
      PastDone(p, chunks, file, curr, base, front, window);
    } else {
      PastStep(p, chunks, file, curr, base, i, front, window);
      var slid := window[1..] + [EnteringByte(file, base, front, i)];
      var k, at := Lookup(chunks, p.WeakOf(slid)), curr + i - p.chunk + 1;
      if Turning(p, chunks, file, curr, base, i, front, window) {
        TurningMeans(p, chunks, file, curr, base, i, front, window);
        TurningOn(p, chunks, file, curr, base, i, front, window);
      }
      if k < 0 {
        PastMisses(p, chunks, file, behind, curr, base, i + 1, front, slid);
      } else {
        if at < |file| || Touched(front, file) {
          PastRefuted(p, chunks, file, behind, front, at, k);
        } else {
          AllStale(file, front);
          StaleRemapped(file, front, behind, at);
        }
        PastMisses(p, chunks, file, behind, curr, at, i + 1, Remapped(file, front, at), slid);
      }
    }
  }

  lemma AllStale(file: seq<byte>, front: seq<byte>)
    ensures Remapped(file, front, |file|) == front
  {
  }

  lemma TurningMeans(p: Params, chunks: seq<Chunk>, file: seq<byte>, curr: int, base: int, i: int,
                     front: seq<byte>, window: seq<byte>)
    requires 1 <= p.chunk == |front| && 0 <= i <= p.chunk && Turning(p, chunks, file, curr, base, i, front, window)
    ensures curr == base == |file|
    ensures var k := Lookup(chunks, p.WeakOf(front)); k < 0 || p.strong(front) != chunks[k].strong
  {
  }

  /** No round accepts a window that ends beyond the file. */
  lemma RoundNotPast(p: Params, chunks: seq<Chunk>, file: seq<byte>, behind: seq<byte>, curr: int)
    requires 1 <= p.chunk == |behind| && 0 <= curr && Refuted(p, chunks, file, behind)
    ensures !RoundAt(p, chunks, file, behind, curr).Past?
  {
    hide Refuted, Stale, Lookup, RoundAt, RollFrom, PastFrom, Touched, WeakSums.Weak;
    var next := curr + p.chunk;
    if next <= |file| {
      RoundSteps(p, chunks, file, behind, curr);
      var window := file[curr..next];
      var front := if next == |file| then window else behind;
      var limit := Min(|file| - next, p.chunk);
      FrontStale(file, behind, next);
      if !AcceptedAt(p, chunks, file, curr) {
        var roll := RollFrom(p, chunks, file, next, next, 0, limit, window);
        if roll.Miss? {
          if next == |file| {
            RollDone(p, chunks, file, next, next, 0, window);
            assert window == front[0..] + front[..0];
          }
          PastMisses(p, chunks, file, behind, next, roll.base, limit, front, roll.window);
        }
      }
    }
  }

  lemma FrontStale(file: seq<byte>, behind: seq<byte>, next: int)
    requires |behind| <= next <= |file|
    ensures Stale(if next == |file| then file[next - |behind|..next] else behind, file, behind)
  {
    StaleWindow(file, behind);
    assert file[|file| - |behind|..] == file[|file| - |behind|..|file|];
  }

  /** So the scan never does. */
  lemma {:induction false} NeverRunsPast(p: Params, chunks: seq<Chunk>, file: seq<byte>, behind: seq<byte>, curr: int)
    requires 1 <= p.chunk == |behind| && 0 <= curr && Refuted(p, chunks, file, behind)
    ensures !RunsPast(p, chunks, file, behind, curr)
    decreases |file| - curr
  {
    hide *;
    RoundOutlook(p, chunks, file, behind, curr);
    RoundNotPast(p, chunks, file, behind, curr);
    var r := RoundAt(p, chunks, file, behind, curr);
    if r.Skip? || r.Found? {
      NeverRunsPast(p, chunks, file, behind, r.next);
    }
  }

  /** Against the signature of a file it does not, whatever the buffer holds there, when the tail is free. */
  lemma TailFreeNeverRunsPast(p: Params, origin: seq<byte>, file: seq<byte>, behind: seq<byte>)
    requires 1 <= p.chunk == |behind| && |origin| < TWO31
    requires TailFree(p.chunk, origin, file) && StaleApart(p, origin, file, behind)
    ensures !RunsPast(p, Signature(p, origin), file, behind, 0)
  {
    hide *;
    TailFreeRefutes(p, origin, file, behind);
    NeverRunsPast(p, Signature(p, origin), file, behind, 0);
  }

  /**
   For every chunk size from 3 on, a new file of one chunk that begins and ends
   with a byte, against an old file in which the first one has moved to the end:
   whatever the buffer held, the scan accepts the window that begins at the
   second byte and ends beyond the file. The delta then stands for one byte too
   many.
  */
  lemma RunsPastOnEnds(p: Params, b: byte, middle: seq<byte>, behind: seq<byte>)
    requires p.chunk == |middle| + 2 == |behind| && p.chunk < TWO31 && 1 <= p.capacity
    requires p.strong([b] + middle + [b]) != p.strong(middle + [b, b])
    ensures var origin, file := middle + [b, b], [b] + middle + [b];
            && RunsPast(p, Signature(p, origin), file, behind, 0)
            && !StepsBack(p, Signature(p, origin), file, behind, 0)
            && !LongGap(p, Signature(p, origin), file, behind, 0, 0)
            && var nodes := Scan(p, Signature(p, origin), file, behind);
               nodes == [OffsetNode(true, 0, 1), OffsetNode(false, 0, p.chunk)]
               && Inside(nodes, origin, file) && Rebuild(nodes, origin, file) == file + [b]
  {
    hide Signature, Lookup, RoundAt, ScanFrom, StepsBack, LongGap, RunsPast, Rebuild, Inside, WeakSums.Weak;
    var n, origin, file := p.chunk, middle + [b, b], [b] + middle + [b];
    var chunks := Signature(p, origin);
    FirstOfOne(p, origin);
    assert file[0..] == file;
    EndsWindows(b, middle);
    assert !AcceptedAt(p, chunks, file, 0);
    EndsRound(p, chunks, file, behind, 0, b, middle);
    RoundOutlook(p, chunks, file, behind, 0);
    LongGapStep(p, chunks, file, behind, 0, 0);
    ScanStep(p, chunks, file, behind, 0, 0);
    var one, other := OffsetNode(true, 0, 1), OffsetNode(false, 0, n);
    assert Copied(0, 1, 0, n) + [] == [one, other];
    TwoNodes(one, other, origin, file);
  }

  lemma EndsWindows(b: byte, middle: seq<byte>)
    ensures var n, origin, file := |middle| + 2, middle + [b, b], [b] + middle + [b];
            file[0..n] == file && file[0..1] + origin[0..n] == file + [b]
  {
    var n, origin, file := |middle| + 2, middle + [b, b], [b] + middle + [b];
    assert file[0..1] == [b] && origin[0..n] == origin;
    assert [b] + origin == file + [b];
  }

  /** Where the window of the last round begins and ends with `b`, one more turn takes its first byte in again. */
  lemma EndsTurn(file: seq<byte>, curr: int, b: byte, middle: seq<byte>)
    requires 0 <= curr && curr + |middle| + 2 == |file| && file[curr..] == [b] + middle + [b]
    ensures var window := file[curr..];
            window[1..] + [EnteringByte(file, |file|, window, 0)] == middle + [b, b]
            && Remapped(file, window, curr + 1) == middle + [b, b]
  {
    var window := file[curr..];
    assert file[curr + 1..] == window[1..] == middle + [b] && window[|file| - curr - 1..] == [b];
    assert middle + [b] + [b] == middle + [b, b];
  }

  /** That window is judged by stale bytes, which make it the block that begins one byte later and ends in `b` twice. */
  lemma EndsRound(p: Params, chunks: seq<Chunk>, file: seq<byte>, behind: seq<byte>, curr: int,
                  b: byte, middle: seq<byte>)
    requires p.chunk == |middle| + 2 == |behind| && 0 <= curr && curr + p.chunk == |file|
    requires file[curr..] == [b] + middle + [b] && !AcceptedAt(p, chunks, file, curr)
    requires var k := Lookup(chunks, p.WeakOf(middle + [b, b]));
             k >= 0 && chunks[k].strong == p.strong(middle + [b, b])
    ensures RoundAt(p, chunks, file, behind, curr) == Past(curr + 1, Lookup(chunks, p.WeakOf(middle + [b, b])))
  {
    hide Lookup, RoundAt, RollFrom, PastFrom, Remapped, EnteringByte, WeakSums.Weak;
    var next, window := |file|, file[curr..];
    assert file[curr..curr + p.chunk] == window;
    EndsTurn(file, curr, b, middle);
    RoundSteps(p, chunks, file, behind, curr);
    RollDone(p, chunks, file, next, next, 0, window);
    PastStep(p, chunks, file, next, next, 0, window, window);
  }

  lemma FirstOfOne(p: Params, origin: seq<byte>)
    requires 1 <= p.chunk == |origin| < TWO31
    ensures var chunks := Signature(p, origin);
            |chunks| == 1 && Lookup(chunks, p.WeakOf(origin)) == 0 && chunks[0].strong == p.strong(origin)
            && chunks[0].offset == 0
  {
    OneBlock(p, origin);
  }

  lemma TwoNodes(one: OffsetNode, other: OffsetNode, origin: seq<byte>, file: seq<byte>)
    requires one.from && 0 <= one.offset && 0 <= one.length && one.offset + one.length <= |file|
    requires !other.from && 0 <= other.offset && 0 <= other.length && other.offset + other.length <= |origin|
    ensures Inside([one, other], origin, file)
    ensures Rebuild([one, other], origin, file)
         == file[one.offset..one.offset + one.length] + origin[other.offset..other.offset + other.length]
  {
    hide Rebuild;
    assert [one, other][..1] == [one] && [one, other][1..] == [other] && [other][1..] == [] && [other][..1] == [other];
    assert [one][0] == one && [other][0] == other;
    RebuildFirst([other], origin, file);
    RebuildFirst([one, other], origin, file);
    RebuildNone(origin, file);
  }

  lemma RebuildNone(origin: seq<byte>, file: seq<byte>)
    ensures Inside([], origin, file) && Rebuild([], origin, file) == []
  {
  }

  /** The chunk a block's weak sum leads to has the block's strong sum. */
  predicate SlotsOwn(chunks: seq<Chunk>) {
    forall k :: 0 <= k < |chunks| ==>
      Lookup(chunks, chunks[k].weak) >= 0 && chunks[Lookup(chunks, chunks[k].weak)].strong == chunks[k].strong
  }

  /** The scan of an unchanged file accepts every block where a round begins. */
  lemma UnchangedRound(p: Params, origin: seq<byte>, behind: seq<byte>, m: nat)
    requires 1 <= p.chunk == |behind| && |origin| < TWO31 && SlotsOwn(Signature(p, origin)) && m < |origin| / p.chunk
    ensures 0 <= m * p.chunk && (m + 1) * p.chunk == m * p.chunk + p.chunk
    ensures var chunks := Signature(p, origin);
            RoundAt(p, chunks, origin, behind, m * p.chunk)
            == Found(m * p.chunk, Lookup(chunks, chunks[m].weak), (m + 1) * p.chunk)
  {
    hide RollAll, Lookup, WeakSums.Weak, SlotsOwn;
    var chunks := Signature(p, origin);
    BlockSums(p, origin, m);
    Offsets(p.chunk, m);
    BlockInside(p.chunk, |origin|, m);
    OwnSlot(chunks, m);
  }

  lemma OwnSlot(chunks: seq<Chunk>, k: nat)
    requires SlotsOwn(chunks) && k < |chunks|
    ensures Lookup(chunks, chunks[k].weak) >= 0 && chunks[Lookup(chunks, chunks[k].weak)].strong == chunks[k].strong
  {
  }

  lemma UnchangedEnd(p: Params, origin: seq<byte>, behind: seq<byte>)
    requires 1 <= p.chunk == |behind| && |origin| < TWO31
    ensures var at := |origin| / p.chunk * p.chunk;
            0 <= at && |origin| - at == |origin| % p.chunk && RoundAt(p, Signature(p, origin), origin, behind, at).End?
  {
    hide RollAll, Signature;
    var q, r := |origin| / p.chunk, |origin| % p.chunk;
    assert |origin| == q * p.chunk + r;
    Offsets(p.chunk, q);
  }

  /** It neither steps back nor runs past the end, and its only gap is the rest behind the last block. */
  lemma {:induction false} UnchangedScan(p: Params, origin: seq<byte>, behind: seq<byte>, m: nat)
    requires 1 <= p.chunk == |behind| && |origin| < TWO31 && 0 <= p.capacity && SlotsOwn(Signature(p, origin))
    requires m <= |origin| / p.chunk
    ensures 0 <= m * p.chunk
    ensures !StepsBack(p, Signature(p, origin), origin, behind, m * p.chunk)
    ensures !RunsPast(p, Signature(p, origin), origin, behind, m * p.chunk)
    ensures LongGap(p, Signature(p, origin), origin, behind, m * p.chunk, m * p.chunk)
       <==> |origin| % p.chunk > p.capacity
    decreases |origin| / p.chunk - m
  {
    hide RoundAt, Signature, StepsBack, RunsPast, LongGap, SlotsOwn;
    Offsets(p.chunk, m);
    var chunks, at := Signature(p, origin), m * p.chunk;
    RoundOutlook(p, chunks, origin, behind, at);
    LongGapStep(p, chunks, origin, behind, at, at);
    if m == |origin| / p.chunk {
      UnchangedEnd(p, origin, behind);
    } else {
      UnchangedRound(p, origin, behind, m);
      UnchangedScan(p, origin, behind, m + 1);
    }
  }

  function Run(b: byte, n: nat): (run: seq<byte>)
    ensures |run| == n && forall i :: 0 <= i < n ==> run[i] == b
  {
    seq(n, _ => b)
  }

  /**
   For every chunk size, a run of equal bytes makes the scan step back: the old
   file is one block of them, the new file one other byte and then one byte
   less than two blocks. The delta then holds a literal of length -1.
  */
  lemma StepsBackOnRuns(p: Params, b: byte, other: byte, behind: seq<byte>)
    requires 1 <= p.chunk == |behind| && p.chunk < TWO31 && b != other
    ensures var origin, file := Run(b, p.chunk), [other] + Run(b, 2 * p.chunk - 1);
            && StepsBack(p, Signature(p, origin), file, behind, 0)
            && OffsetNode(true, p.chunk + 1, -1) in Scan(p, Signature(p, origin), file, behind)
  {
    hide Run, Signature, Lookup, RoundAt, ScanFrom, StepsBack, AcceptedAt, WeakSums.Weak;
    var n := p.chunk;
    var origin, file := Run(b, n), [other] + Run(b, 2 * n - 1);
    var chunks := Signature(p, origin);
    RunRounds(p, b, other, behind);
    RoundOutlook(p, chunks, file, behind, 0);
    SteppedBackFails(p, chunks, origin, file, behind, n, n + 1);
    ScanStep(p, chunks, file, behind, 0, 0);
    var rest, copied := ScanFrom(p, chunks, file, behind, n, n + 1), Copied(0, 1, chunks[0].offset, n);
    assert (copied + rest)[|copied|] == rest[0];
  }

  /** The window at the second byte is accepted, and then the one that begins at its last byte. */
  lemma RunRounds(p: Params, b: byte, other: byte, behind: seq<byte>)
    requires 1 <= p.chunk == |behind| && p.chunk < TWO31 && b != other
    ensures var n, chunks, file := p.chunk, Signature(p, Run(b, p.chunk)), [other] + Run(b, 2 * p.chunk - 1);
            |chunks| == 1 && RoundAt(p, chunks, file, behind, 0) == Found(1, 0, n) && AcceptedAt(p, chunks, file, n)
  {
    hide Run, Signature, Lookup, RollFrom, PastFrom, RoundAt, WeakSums.Weak;
    var n := p.chunk;
    var origin, file := Run(b, n), [other] + Run(b, 2 * n - 1);
    var chunks := Signature(p, origin);
    RunWindows(b, other, n);
    RunLookups(p, b, other);
    assert StrongMatch(p, chunks, file, 1, 0) && StrongMatch(p, chunks, file, n, 0);
    RollStep(p, chunks, file, n, n, 0, n, file[0..n]);
    RoundSteps(p, chunks, file, behind, 0);
  }

  lemma RunWindows(b: byte, other: byte, n: int)
    requires 1 <= n
    ensures var file := [other] + Run(b, 2 * n - 1);
            && |file| == 2 * n && file[0..n] == [other] + Run(b, n - 1)
            && file[0..n][1..] + [file[n]] == Run(b, n) && file[1..1 + n] == Run(b, n) && file[n..n + n] == Run(b, n)
  {
  }

  lemma RunLookups(p: Params, b: byte, other: byte)
    requires 1 <= p.chunk < TWO31 && b != other
    ensures var origin := Run(b, p.chunk);
            var chunks := Signature(p, origin);
            && |chunks| == 1 && chunks[0].strong == p.strong(origin) && Lookup(chunks, p.WeakOf(origin)) == 0
            && Lookup(chunks, p.WeakOf([other] + Run(b, p.chunk - 1))) == -1
  {
    OneBlock(p, Run(b, p.chunk));
    OtherSum(p, b, other);
  }

  /** A file of one block has one description. */
  lemma OneBlock(p: Params, origin: seq<byte>)
    requires 1 <= p.chunk == |origin| < TWO31
    ensures Signature(p, origin) == [Chunk(p.WeakOf(origin), true, 0, p.chunk, p.strong(origin))]
  {
    assert |origin| / p.chunk == 1;
    SignatureAt(p, origin, 0);
    assert origin[0 * p.chunk..(0 + 1) * p.chunk] == origin;
  }

  /** Another first byte changes the low sum, and so the weak sum. */
  lemma OtherSum(p: Params, b: byte, other: byte)
    requires 1 <= p.chunk && b != other
    ensures p.WeakOf([other] + Run(b, p.chunk - 1)) != p.WeakOf(Run(b, p.chunk))
  {
    var w, v, off := [other] + Run(b, p.chunk - 1), Run(b, p.chunk), p.charOffset;
    assert w[1..] == v[1..];
    WeakSums.HeadSums(w, off);
    WeakSums.HeadSums(v, off);
    LowHalves(WeakSums.S1(w, off), WeakSums.S1(v, off));
    LowHalfOfWeak(w, off);
    LowHalfOfWeak(v, off);
  }

  lemma LowHalfOfWeak(w: seq<byte>, off: int)
    ensures WeakSums.Weak(w, off) % TWO16 == WeakSums.S1(w, off) % TWO16
  {
    hide WeakSums.S1, WeakSums.S2;
    WeakSums.AddMultiple(WeakSums.S1(w, off) % TWO16, WeakSums.S2(w, off) % TWO16);
  }

  lemma LowHalves(x: int, y: int)
    requires -256 < x - y < 256 && x != y
    ensures x % TWO16 != y % TWO16
  {
    if x % TWO16 == y % TWO16 {
      WeakSums.SplitHalf(x, y);
      assert false;
    }
  }
}

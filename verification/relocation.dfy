/** Chunks of a source file relocated into a local one, and the file written from them. */
module Relocations {
  import opened Bytes
  import opened Chunks
  import opened Signatures
  import opened Scans
  import opened ScanEnds
  import opened ScanFinds
  import opened RsyncServices
  import opened FileMaps
  import WeakSums

  /**
   What the program digests for the shorter last block: the read pointer still
   stands for the last whole block, or is null when there is none and the
   empty window is digested.
  */
  function TailDigested(chunk: int, file: seq<byte>): seq<byte>
    requires chunk >= 1
  {
    var n, last := |file| / chunk, |file| % chunk;
    if n == 0 then []
    else
      BlockInside(chunk, |file|, n - 1);
      Offsets(chunk, n - 1);
      file[(n - 1) * chunk..(n - 1) * chunk + last]
  }

  /** Where these bytes are: a chunk before their right place, or nowhere. */
  lemma TailPlace(chunk: int, file: seq<byte>)
    requires chunk >= 1
    ensures |file| < chunk ==> TailDigested(chunk, file) == []
    ensures |file| >= chunk ==>
      var end, last := |file| - chunk, |file| % chunk;
      0 <= end - last && TailDigested(chunk, file) == file[end - last..end]
  {
    DivRemainder(|file|, chunk);
    var n := |file| / chunk;
    if |file| < chunk {
      assert n == 0;
    } else {
      Offsets(chunk, n - 1);
      assert (n - 1) * chunk + chunk == n * chunk;
    }
  }

  /** The description of the shorter last block, if there is one. */
  function Tail(p: Params, file: seq<byte>): (tail: seq<Chunk>)
    requires 1 <= p.chunk < TWO31 && |file| < TWO31
    ensures |tail| <= 1
  {
    DivRemainder(|file|, p.chunk);
    var n, last := |file| / p.chunk, |file| % p.chunk;
    if last > 0 then [Chunk(0, true, n * p.chunk, last, p.strong(TailDigested(p.chunk, file)))] else []
  }

  ghost function FullSignature(p: Params, file: seq<byte>): seq<Chunk>
    requires 1 <= p.chunk < TWO31 && |file| < TWO31
  {
    Signature(p, file) + Tail(p, file)
  }

  /** What the list says of the shorter last block: no weak sum, its place and its length. */
  lemma TailEntry(p: Params, file: seq<byte>)
    requires 1 <= p.chunk < TWO31 && |file| < TWO31
    ensures var n, last, chunks := |file| / p.chunk, |file| % p.chunk, FullSignature(p, file);
            if last == 0 then |chunks| == n
            else
              |chunks| == n + 1 && chunks[n].weak == 0 && chunks[n].from
              && chunks[n].offset == |file| - last && chunks[n].length == last
  {
    hide Signature, TailDigested;
    DivRemainder(|file|, p.chunk);
  }

  /** Chunks after the rounds of the scan from `curr` on. */
  function Relocated(p: Params, chunks: seq<Chunk>, state: seq<Chunk>, file: seq<byte>, behind: seq<byte>, curr: int)
    : (after: seq<Chunk>)
    requires 1 <= p.chunk == |behind| && 0 <= curr && |chunks| == |state| && |file| < TWO31
    ensures |after| == |state|
    decreases |file| - curr
  {
    match RoundAt(p, chunks, file, behind, curr)
    case End => state
    case Skip(next) => Relocated(p, chunks, state, file, behind, next)
    case Found(at, k, next) => Relocated(p, chunks, Relocate(state, k, at), file, behind, next)
    case Past(at, k) => Relocate(state, k, at)
  }

  lemma RelocatedStep(p: Params, chunks: seq<Chunk>, state: seq<Chunk>, file: seq<byte>, behind: seq<byte>, curr: int)
    requires 1 <= p.chunk == |behind| && 0 <= curr && |chunks| == |state| && |file| < TWO31
    ensures var r, after := RoundAt(p, chunks, file, behind, curr), Relocated(p, chunks, state, file, behind, curr);
            && (r.End? ==> after == state)
            && (r.Skip? ==> after == Relocated(p, chunks, state, file, behind, r.next))
            && (r.Found? ==> after == Relocated(p, chunks, Relocate(state, r.k, r.at), file, behind, r.next))
            && (r.Past? ==> after == Relocate(state, r.k, r.at))
  {
  }

  /** How the scan ends: where no whole window is left, or with one it accepts beyond the end of the file. */
  function LastRound(p: Params, chunks: seq<Chunk>, file: seq<byte>, behind: seq<byte>, curr: int): (r: Round)
    requires 1 <= p.chunk == |behind| && 0 <= curr
    ensures r.End? || r.Past?
    ensures r.Past? <==> RunsPast(p, chunks, file, behind, curr)
    ensures r.Past? ==> 0 <= r.at <= |file| < r.at + p.chunk && p.chunk <= |file| && 0 <= r.k < |chunks|
    decreases |file| - curr
  {
    match RoundAt(p, chunks, file, behind, curr)
    case Skip(next) => LastRound(p, chunks, file, behind, next)
    case Found(_, _, next) => LastRound(p, chunks, file, behind, next)
    case last => last
  }

  /** The file an entry's bytes are taken from, and those bytes. */
  ghost predicate Denotes(c: Chunk, source: seq<byte>, dest: seq<byte>, block: seq<byte>) {
    var file := if c.from then source else dest;
    0 <= c.offset && 0 <= c.length && c.offset + c.length <= |file|
    && file[c.offset..c.offset + c.length] == block
  }

  /** Where block `k` of a file starts; the last one may be shorter. */
  function BlockStart(chunk: int, size: nat, k: nat): (start: nat)
    requires chunk >= 1
    ensures start <= size && (k == 0 ==> start == 0)
  {
    Offsets(chunk, k);
    if k * chunk <= size then k * chunk else size
  }

  function BlockOf(chunk: int, file: seq<byte>, k: nat): seq<byte>
    requires chunk >= 1
  {
    Offsets(chunk, k);
    file[BlockStart(chunk, |file|, k)..BlockStart(chunk, |file|, k + 1)]
  }

  /** Every entry but `x` denotes its own block of the source. */
  ghost predicate FaithfulBut(p: Params, state: seq<Chunk>, source: seq<byte>, dest: seq<byte>, x: int)
    requires 1 <= p.chunk
  {
    forall k :: 0 <= k < |state| && k != x ==> Denotes(state[k], source, dest, BlockOf(p.chunk, source, k))
  }

  /** Every entry does. */
  ghost predicate Faithful(p: Params, state: seq<Chunk>, source: seq<byte>, dest: seq<byte>)
    requires 1 <= p.chunk
  {
    FaithfulBut(p, state, source, dest, -1)
  }

  /** No window of the destination has the strong sum of the shorter last block. */
  ghost predicate TailApart(p: Params, source: seq<byte>, dest: seq<byte>)
    requires 1 <= p.chunk
  {
    |source| % p.chunk > 0 ==> forall at {:trigger dest[at..at + p.chunk]} :: 0 <= at && at + p.chunk <= |dest| ==>
      p.strong(dest[at..at + p.chunk]) != p.strong(TailDigested(p.chunk, source))
  }

  /** A strong match is with a whole block, equal to the window. */
  ghost predicate TrustedBlocks(p: Params, chunks: seq<Chunk>, source: seq<byte>, dest: seq<byte>)
    requires 1 <= p.chunk
  {
    forall at, k {:trigger StrongMatch(p, chunks, dest, at, k)} :: StrongMatch(p, chunks, dest, at, k) ==>
      chunks[k].length == p.chunk && dest[at..at + p.chunk] == BlockOf(p.chunk, source, k)
  }

  lemma WholeBlock(p: Params, source: seq<byte>, k: nat)
    requires 1 <= p.chunk && |source| < TWO31 && k < |source| / p.chunk
    ensures (k + 1) * p.chunk <= |source| && k * p.chunk + p.chunk == (k + 1) * p.chunk
    ensures Signature(p, source)[k] == BlockChunk(p, source, k)
    ensures BlockOf(p.chunk, source, k) == source[k * p.chunk..(k + 1) * p.chunk]
  {
    BlockInside(p.chunk, |source|, k);
    Offsets(p.chunk, k);
  }

  lemma NeverTheTail(p: Params, source: seq<byte>, dest: seq<byte>, at: int, k: int)
    requires 1 <= p.chunk < TWO31 && |source| < TWO31 && TailApart(p, source, dest)
    requires |source| / p.chunk <= k < |FullSignature(p, source)|
    ensures !StrongMatch(p, FullSignature(p, source), dest, at, k)
  {
    assert FullSignature(p, source)[k] == Tail(p, source)[0];
    if 0 <= at && at + p.chunk <= |dest| {
      assert p.strong(dest[at..at + p.chunk]) != p.strong(TailDigested(p.chunk, source));
    }
  }

  lemma FullSignatureTrusted(p: Params, source: seq<byte>, dest: seq<byte>)
    requires 1 <= p.chunk < TWO31 && |source| < TWO31 && NoCollision(p, source, dest) && TailApart(p, source, dest)
    ensures TrustedBlocks(p, FullSignature(p, source), source, dest)
  {
    var chunks := FullSignature(p, source);
    forall at, k | StrongMatch(p, chunks, dest, at, k)
      ensures chunks[k].length == p.chunk && dest[at..at + p.chunk] == BlockOf(p.chunk, source, k)
    {
      if k < |source| / p.chunk {
        WholeBlock(p, source, k);
        assert StrongMatch(p, Signature(p, source), dest, at, k);
        AcceptedBlock(p, source, dest, at, k);
      } else {
        NeverTheTail(p, source, dest, at, k);
      }
    }
  }

  lemma FullSignatureFaithful(p: Params, source: seq<byte>, dest: seq<byte>)
    requires 1 <= p.chunk < TWO31 && |source| < TWO31
    ensures Faithful(p, FullSignature(p, source), source, dest)
    ensures BlockStart(p.chunk, |source|, |FullSignature(p, source)|) == |source|
  {
    var chunks := FullSignature(p, source);
    var n := |source| / p.chunk;
    DivRemainder(|source|, p.chunk);
    Offsets(p.chunk, n);
    forall k | 0 <= k < |chunks|
      ensures Denotes(chunks[k], source, dest, BlockOf(p.chunk, source, k))
    {
      if k < n {
        WholeBlock(p, source, k);
      } else {
        assert k == n;
      }
    }
  }

  /**
   However often entries are relocated, each keeps denoting its block, but for
   the one whose window ends beyond the file.
  */
  lemma {:induction false} RelocatedFaithful(p: Params, chunks: seq<Chunk>, state: seq<Chunk>,
                                             source: seq<byte>, dest: seq<byte>, behind: seq<byte>, curr: int)
    requires 1 <= p.chunk == |behind| && 0 <= curr && |chunks| == |state| && |dest| < TWO31
    requires TrustedBlocks(p, chunks, source, dest) && Faithful(p, state, source, dest)
    requires forall k :: 0 <= k < |state| ==> state[k].length == chunks[k].length
    ensures var after := Relocated(p, chunks, state, dest, behind, curr);
            var last := LastRound(p, chunks, dest, behind, curr);
            && FaithfulBut(p, after, source, dest, if last.Past? then last.k else -1)
            && (last.Past? ==>
                  var c := after[last.k]; !c.from && c.offset == last.at && c.length == chunks[last.k].length)
    decreases |dest| - curr
  {
    hide RoundAt, BlockOf;
    match RoundAt(p, chunks, dest, behind, curr) {
      case End =>
      case Skip(next) => RelocatedFaithful(p, chunks, state, source, dest, behind, next);
      case Found(at, k, next) =>
        assert StrongMatch(p, chunks, dest, at, k);
        RelocatedFaithful(p, chunks, Relocate(state, k, at), source, dest, behind, next);
      case Past(at, k) =>
    }
  }

  /**
   The client's scan comes to every window up to a chunk behind the start of a
   round; the first one with a weak sum of the list, if it has both sums of a
   chunk, relocates that chunk.
  */
  lemma {:induction false} RelocatesFirst(p: Params, chunks: seq<Chunk>, state: seq<Chunk>, file: seq<byte>,
                                          behind: seq<byte>, curr: int, m: nat, at: int)
    requires 1 <= p.chunk == |behind| && 0 <= curr && |chunks| == |state| && |file| < TWO31
    requires Start(p.chunk, curr, m) <= at <= Start(p.chunk, curr, m) + p.chunk
    requires AcceptedAt(p, chunks, file, at) && Quiet(p, chunks, file, curr, at)
    ensures var k := Lookup(chunks, p.WeakOf(file[at..at + p.chunk]));
            var next := Resumed(p.chunk, Start(p.chunk, curr, m), at);
            && 0 <= k < |chunks| && 0 <= next && at < TWO31
            && Relocated(p, chunks, state, file, behind, curr)
               == Relocated(p, chunks, Relocate(state, k, at), file, behind, next)
    decreases m
  {
    hide RoundAt, Relocated, Relocate, Lookup, WeakSums.Weak, Quiet, Start, AcceptedAt;
    AcceptedMeans(p, chunks, file, at);
    if m == 0 {
      RelocatedStep(p, chunks, state, file, behind, curr);
      FindsHere(p, chunks, file, behind, curr, at);
    } else {
      SkipsHere(p, chunks, file, behind, curr, at);
      RelocatedStep(p, chunks, state, file, behind, curr);
      StartNext(p.chunk, curr, m);
      RelocatesFirst(p, chunks, state, file, behind, curr + 2 * p.chunk, m - 1, at);
    }
  }

  /** The bytes of an entry can be read: from inside the source, or from a place in the local file into a buffer. */
  predicate Readable(c: Chunk, source: seq<byte>, dest: seq<byte>, capacity: int) {
    0 <= c.offset && 0 <= c.length
    && if c.from then c.offset + c.length <= |source| else c.offset <= |dest| && c.length <= capacity
  }

  predicate AllReadable(state: seq<Chunk>, source: seq<byte>, dest: seq<byte>, capacity: int) {
    forall k :: 0 <= k < |state| ==> Readable(state[k], source, dest, capacity)
  }

  /** The read window after an entry. */
  function Turned(c: Chunk, source: seq<byte>, dest: seq<byte>, w: Window): (turned: Window)
    requires Sits(dest, w) && Readable(c, source, dest, |w.data|)
    ensures Sits(dest, turned) && |turned.data| == |w.data|
  {
    if c.from then w else Moved(dest, w, c.offset, c.length)
  }

  /** The bytes written for an entry: where the local file ends before it does, those that the buffer held. */
  function Taken(c: Chunk, source: seq<byte>, dest: seq<byte>, w: Window): (bytes: seq<byte>)
    requires Sits(dest, w) && Readable(c, source, dest, |w.data|)
    ensures |bytes| == c.length
  {
    if c.from then source[c.offset..c.offset + c.length]
    else
      var moved := Moved(dest, w, c.offset, c.length);
      moved.data[c.offset - moved.offset..c.offset - moved.offset + c.length]
  }

  /** The read window after some entries. */
  function Walked(state: seq<Chunk>, source: seq<byte>, dest: seq<byte>, w: Window): (walked: Window)
    requires Sits(dest, w) && AllReadable(state, source, dest, |w.data|)
    ensures Sits(dest, walked) && |walked.data| == |w.data|
  {
    if state == [] then w else Walked(state[1..], source, dest, Turned(state[0], source, dest, w))
  }

  /** The file written from some entries. */
  function Written(state: seq<Chunk>, source: seq<byte>, dest: seq<byte>, w: Window): seq<byte>
    requires Sits(dest, w) && AllReadable(state, source, dest, |w.data|)
  {
    if state == [] then []
    else Taken(state[0], source, dest, w) + Written(state[1..], source, dest, Turned(state[0], source, dest, w))
  }

  lemma {:induction false} WrittenSplit(state: seq<Chunk>, x: nat, source: seq<byte>, dest: seq<byte>, w: Window)
    requires Sits(dest, w) && AllReadable(state, source, dest, |w.data|) && x < |state|
    ensures AllReadable(state[..x], source, dest, |w.data|) && AllReadable(state[x + 1..], source, dest, |w.data|)
    ensures var here := Walked(state[..x], source, dest, w);
            Written(state, source, dest, w)
            == Written(state[..x], source, dest, w) + Taken(state[x], source, dest, here)
               + Written(state[x + 1..], source, dest, Turned(state[x], source, dest, here))
    decreases x
  {
    hide Taken, Turned, Sits;
    if x == 0 {
      assert state[..0] == [];
    } else {
      var next := Turned(state[0], source, dest, w);
      WrittenSplit(state[1..], x - 1, source, dest, next);
      assert state[..x][1..] == state[1..][..x - 1] && state[1..][x - 1 + 1..] == state[x + 1..];
      assert state[..x] == [state[0]] + state[1..][..x - 1];
    }
  }

  /** A faithful entry is written as its block, whatever the buffer holds. */
  lemma TakenFaithful(c: Chunk, source: seq<byte>, dest: seq<byte>, w: Window, block: seq<byte>)
    requires Sits(dest, w) && Denotes(c, source, dest, block) && (|block| <= |w.data| || |dest| <= |w.data|)
    ensures Readable(c, source, dest, |w.data|) && Taken(c, source, dest, w) == block
  {
    if !c.from {
      var moved, at, n := Moved(dest, w, c.offset, c.length), c.offset, c.length;
      var d := at - moved.offset;
      SliceOfWindow(moved.data, dest, moved.offset, moved.length, d, n);
    }
  }

  lemma NextBlock(chunk: int, file: seq<byte>, k: nat)
    requires chunk >= 1
    ensures file[..BlockStart(chunk, |file|, k)] + BlockOf(chunk, file, k) == file[..BlockStart(chunk, |file|, k + 1)]
    ensures |BlockOf(chunk, file, k)| <= chunk
  {
    Offsets(chunk, k);
  }


  lemma BlockStarts(chunk: int, size: nat, k: nat)
    requires chunk >= 1
    ensures BlockStart(chunk, size, k) <= BlockStart(chunk, size, k + 1)
  {
    Offsets(chunk, k);
  }

  /** Some entries denote the blocks from `first` on. */
  ghost predicate DenoteFrom(p: Params, state: seq<Chunk>, source: seq<byte>, dest: seq<byte>, first: nat)
    requires 1 <= p.chunk
  {
    forall i :: 0 <= i < |state| ==> Denotes(state[i], source, dest, BlockOf(p.chunk, source, first + i))
  }

  lemma DenoteRest(p: Params, state: seq<Chunk>, source: seq<byte>, dest: seq<byte>, first: nat)
    requires 1 <= p.chunk && state != [] && DenoteFrom(p, state, source, dest, first)
    ensures Denotes(state[0], source, dest, BlockOf(p.chunk, source, first))
    ensures DenoteFrom(p, state[1..], source, dest, first + 1)
  {
    hide Denotes, BlockOf;
    assert Denotes(state[0], source, dest, BlockOf(p.chunk, source, first + 0));
    forall i | 0 <= i < |state| - 1
      ensures Denotes(state[1..][i], source, dest, BlockOf(p.chunk, source, first + 1 + i))
    {
      assert Denotes(state[i + 1], source, dest, BlockOf(p.chunk, source, first + (i + 1)));
    }
  }

  /** They are written as what lies between the first of these blocks and the last. */
  lemma {:induction false} WrittenFaithful(p: Params, state: seq<Chunk>, source: seq<byte>, dest: seq<byte>, w: Window,
                                           first: nat)
    requires 1 <= p.chunk <= p.window && Sits(dest, w) && |w.data| == Min(p.window, |dest|)
    requires DenoteFrom(p, state, source, dest, first)
    ensures AllReadable(state, source, dest, |w.data|)
    ensures var start, end := BlockStart(p.chunk, |source|, first), BlockStart(p.chunk, |source|, first + |state|);
            start <= end && Written(state, source, dest, w) == source[start..end]
    decreases |state|
  {
    hide Taken, Turned, Denotes, DenoteFrom, BlockOf, BlockStart, Sits, Readable;
    if state != [] {
      hide Written, AllReadable;
      NextBlock(p.chunk, source, first);
      DenoteRest(p, state, source, dest, first);
      TakenFaithful(state[0], source, dest, w, BlockOf(p.chunk, source, first));
      WrittenFaithful(p, state[1..], source, dest, Turned(state[0], source, dest, w), first + 1);
      WrittenFirst(state, source, dest, w);
      BlockBetween(p.chunk, source, first, first + |state|);
    }
  }

  lemma WrittenFirst(state: seq<Chunk>, source: seq<byte>, dest: seq<byte>, w: Window)
    requires state != [] && Sits(dest, w) && Readable(state[0], source, dest, |w.data|)
    requires AllReadable(state[1..], source, dest, |w.data|)
    ensures AllReadable(state, source, dest, |w.data|)
    ensures Written(state, source, dest, w)
         == Taken(state[0], source, dest, w) + Written(state[1..], source, dest, Turned(state[0], source, dest, w))
  {
    assert forall k :: 1 <= k < |state| ==> state[k] == state[1..][k - 1];
  }

  /** The entry at `k`, and what is left to write behind it. */
  lemma WrittenAt(state: seq<Chunk>, k: nat, source: seq<byte>, dest: seq<byte>, w: Window)
    requires k < |state| && Sits(dest, w) && AllReadable(state[k..], source, dest, |w.data|)
    ensures Readable(state[k], source, dest, |w.data|) && AllReadable(state[k + 1..], source, dest, |w.data|)
    ensures Written(state[k..], source, dest, w)
         == Taken(state[k], source, dest, w) + Written(state[k + 1..], source, dest, Turned(state[k], source, dest, w))
  {
    hide Taken, Turned, Sits, Readable;
    assert state[k..][0] == state[k] && state[k..][1..] == state[k + 1..];
  }

  lemma WrittenEnds(state: seq<Chunk>, source: seq<byte>, dest: seq<byte>, w: Window)
    requires Sits(dest, w)
    ensures state[0..] == state
    ensures AllReadable(state, source, dest, |w.data|) ==>
      [] + Written(state[0..], source, dest, w) == Written(state, source, dest, w)
    ensures AllReadable(state[|state|..], source, dest, |w.data|)
    ensures Written(state[|state|..], source, dest, w) == []
  {
    assert state[|state|..] == [];
    assert state[0..] == state;
  }

  /** A block and what lies between it and a later one. */
  lemma BlockBetween(chunk: int, source: seq<byte>, k: nat, end: nat)
    requires chunk >= 1 && k < end
    requires BlockStart(chunk, |source|, k + 1) <= BlockStart(chunk, |source|, end)
    ensures BlockStart(chunk, |source|, k) <= BlockStart(chunk, |source|, end)
    ensures BlockOf(chunk, source, k) + source[BlockStart(chunk, |source|, k + 1)..BlockStart(chunk, |source|, end)]
         == source[BlockStart(chunk, |source|, k)..BlockStart(chunk, |source|, end)]
  {
    BlockStarts(chunk, |source|, k);
  }

  lemma BothSides(p: Params, state: seq<Chunk>, source: seq<byte>, dest: seq<byte>, x: nat)
    requires 1 <= p.chunk && x < |state| && FaithfulBut(p, state, source, dest, x)
    ensures DenoteFrom(p, state[..x], source, dest, 0) && DenoteFrom(p, state[x + 1..], source, dest, x + 1)
  {
    hide Denotes, BlockOf;
    forall i | 0 <= i < x
      ensures Denotes(state[..x][i], source, dest, BlockOf(p.chunk, source, 0 + i))
    {
      assert Denotes(state[i], source, dest, BlockOf(p.chunk, source, i));
    }
    var rest := state[x + 1..];
    forall i | 0 <= i < |rest|
      ensures Denotes(rest[i], source, dest, BlockOf(p.chunk, source, x + 1 + i))
    {
      assert Denotes(state[x + 1 + i], source, dest, BlockOf(p.chunk, source, x + 1 + i));
    }
  }

  lemma ReadableParts(state: seq<Chunk>, source: seq<byte>, dest: seq<byte>, capacity: int, x: nat)
    requires x < |state| && Readable(state[x], source, dest, capacity)
    requires AllReadable(state[..x], source, dest, capacity) && AllReadable(state[x + 1..], source, dest, capacity)
    ensures AllReadable(state, source, dest, capacity)
  {
    forall i | 0 <= i < |state|
      ensures Readable(state[i], source, dest, capacity)
    {
      if i < x {
        assert state[..x][i] == state[i];
      } else if i > x {
        assert state[x + 1..][i - x - 1] == state[i];
      }
    }
  }

  /** With one entry that need not be faithful, the file is the source exactly when that one is written as its block. */
  lemma WrittenIff(p: Params, state: seq<Chunk>, source: seq<byte>, dest: seq<byte>, w: Window, x: nat)
    requires 1 <= p.chunk <= p.window && Sits(dest, w) && |w.data| == Min(p.window, |dest|)
    requires x < |state| && FaithfulBut(p, state, source, dest, x) && Readable(state[x], source, dest, |w.data|)
    requires state[x].length == |BlockOf(p.chunk, source, x)| && BlockStart(p.chunk, |source|, |state|) == |source|
    ensures AllReadable(state, source, dest, |w.data|) && AllReadable(state[..x], source, dest, |w.data|)
    ensures |Written(state, source, dest, w)| == |source|
    ensures Written(state, source, dest, w) == source
       <==> Taken(state[x], source, dest, Walked(state[..x], source, dest, w)) == BlockOf(p.chunk, source, x)
  {
    hide Taken, Turned, Walked, Written, Denotes, DenoteFrom, FaithfulBut, Sits, BlockOf, BlockStart, Readable,
         AllReadable;
    var rest := state[x + 1..];
    BothSides(p, state, source, dest, x);
    WrittenFaithful(p, state[..x], source, dest, w, 0);
    var here := Walked(state[..x], source, dest, w);
    var next := Turned(state[x], source, dest, here);
    WrittenFaithful(p, rest, source, dest, next, x + 1);
    ReadableParts(state, source, dest, |w.data|, x);
    WrittenSplit(state, x, source, dest, w);
    PartsOfSource(p.chunk, source, x, Taken(state[x], source, dest, here));
  }

  /** The source with other bytes in the place of one block. */
  lemma PartsOfSource(chunk: int, source: seq<byte>, x: nat, bytes: seq<byte>)
    requires chunk >= 1 && |bytes| == |BlockOf(chunk, source, x)|
    ensures BlockStart(chunk, |source|, 0) == 0
    ensures var start, end := BlockStart(chunk, |source|, x), BlockStart(chunk, |source|, x + 1);
            var whole := source[0..start] + bytes + source[end..];
            |whole| == |source| && (whole == source <==> bytes == BlockOf(chunk, source, x))
  {
    BlockStarts(chunk, |source|, x);
    var start, end := BlockStart(chunk, |source|, x), BlockStart(chunk, |source|, x + 1);
    var whole := source[0..start] + bytes + source[end..];
    assert whole[start..end] == bytes;
    assert source == source[0..start] + source[start..end] + source[end..];
  }

  /** The client's list after the scan of its local file. */
  ghost function Located(p: Params, source: seq<byte>, dest: seq<byte>, behind: seq<byte>): (state: seq<Chunk>)
    requires 1 <= p.chunk == |behind| && p.chunk < TWO31 && |source| < TWO31 && |dest| < TWO31
    ensures |state| == |FullSignature(p, source)|
  {
    Relocated(p, FullSignature(p, source), FullSignature(p, source), dest, behind, 0)
  }

  /** The entry that runs past the end of the local file finds its block: behind that end the buffer holds the rest. */
  ghost predicate FindsBlock(p: Params, source: seq<byte>, dest: seq<byte>, behind: seq<byte>, w: Window)
    requires 1 <= p.chunk == |behind| && p.chunk < TWO31 && |source| < TWO31 && |dest| < TWO31 && Sits(dest, w)
    requires AllReadable(Located(p, source, dest, behind), source, dest, |w.data|)
    requires LastRound(p, FullSignature(p, source), dest, behind, 0).Past?
  {
    var state, x := Located(p, source, dest, behind), LastRound(p, FullSignature(p, source), dest, behind, 0).k;
    assert forall k :: 0 <= k < x ==> state[..x][k] == state[k];
    Taken(state[x], source, dest, Walked(state[..x], source, dest, w)) == BlockOf(p.chunk, source, x)
  }

  /**
   What the client writes has the length of the source, and is the source
   exactly when no window beyond the end of the local file is accepted or the
   buffer makes up for it.
  */
  lemma LocatedIff(p: Params, source: seq<byte>, dest: seq<byte>, behind: seq<byte>, w: Window)
    requires p.Valid() && |behind| == p.chunk && |source| < TWO31 && |dest| < TWO31
    requires NoCollision(p, source, dest) && TailApart(p, source, dest)
    requires Sits(dest, w) && |w.data| == Min(p.window, |dest|)
    ensures var state := Located(p, source, dest, behind);
            && AllReadable(state, source, dest, |w.data|) && |Written(state, source, dest, w)| == |source|
            && (Written(state, source, dest, w) == source
                <==> (RunsPast(p, FullSignature(p, source), dest, behind, 0) ==>
                        FindsBlock(p, source, dest, behind, w)))
  {
    hide FullSignature, Relocated, NoCollision, TailApart, TrustedBlocks, Faithful, Denotes, BlockOf, BlockStart,
         RunsPast, Sits, Written, AllReadable, Taken, Walked;
    var chunks := FullSignature(p, source);
    var state, last := Located(p, source, dest, behind), LastRound(p, chunks, dest, behind, 0);
    FullSignatureFaithful(p, source, dest);
    FullSignatureTrusted(p, source, dest);
    RelocatedFaithful(p, chunks, chunks, source, dest, behind, 0);
    if last.Past? {
      FullLength(p, source, last.k);
      WrittenIff(p, state, source, dest, w, last.k);
    } else {
      AllFaithful(p, state, source, dest);
      WrittenFaithful(p, state, source, dest, w, 0);
      assert source[0..|source|] == source;
    }
  }

  /** What makes it possible to write it. */
  lemma LocatedReadable(p: Params, source: seq<byte>, dest: seq<byte>, behind: seq<byte>)
    requires p.Valid() && |behind| == p.chunk && |source| < TWO31 && |dest| < TWO31
    requires NoCollision(p, source, dest) && TailApart(p, source, dest)
    ensures AllReadable(Located(p, source, dest, behind), source, dest, Min(p.window, |dest|))
  {
    hide Located, NoCollision, TailApart, AllReadable, Written, FindsBlock, RunsPast;
    var n := Min(p.window, |dest|);
    LocatedIff(p, source, dest, behind, Window(dest[..n], 0, n));
  }

  /** Without a local file the client writes the source. */
  lemma FreshWritten(p: Params, source: seq<byte>)
    requires p.Valid() && |source| < TWO31
    ensures var chunks, w := FullSignature(p, source), Window([], 0, 0);
            Sits([], w) && AllReadable(chunks, source, [], 0) && Written(chunks, source, [], w) == source
  {
    hide FullSignature, Denotes, BlockOf, BlockStart, Written, AllReadable;
    var chunks := FullSignature(p, source);
    FullSignatureFaithful(p, source, []);
    AllFaithful(p, chunks, source, []);
    WrittenFaithful(p, chunks, source, [], Window([], 0, 0), 0);
    assert source[0..|source|] == source;
  }

  lemma AllFaithful(p: Params, state: seq<Chunk>, source: seq<byte>, dest: seq<byte>)
    requires 1 <= p.chunk && FaithfulBut(p, state, source, dest, -1)
    ensures DenoteFrom(p, state, source, dest, 0) && BlockStart(p.chunk, |source|, 0) == 0
  {
    hide Denotes, BlockOf;
    forall i | 0 <= i < |state|
      ensures Denotes(state[i], source, dest, BlockOf(p.chunk, source, 0 + i))
    {
      assert Denotes(state[i], source, dest, BlockOf(p.chunk, source, i));
    }
  }

  /** An entry is as long as its block, and no longer than a chunk. */
  lemma FullLength(p: Params, source: seq<byte>, k: nat)
    requires 1 <= p.chunk < TWO31 && |source| < TWO31 && k < |FullSignature(p, source)|
    ensures FullSignature(p, source)[k].length == |BlockOf(p.chunk, source, k)| <= p.chunk
  {
    FullSignatureFaithful(p, source, []);
    NextBlock(p.chunk, source, k);
    assert Denotes(FullSignature(p, source)[k], source, [], BlockOf(p.chunk, source, k));
  }

  /** No bytes that the buffer can hold at the end have the strong sum of the shorter last block. */
  ghost predicate TailNotStale(p: Params, source: seq<byte>, dest: seq<byte>, behind: seq<byte>)
    requires 1 <= p.chunk
  {
    |source| % p.chunk > 0 ==> forall mapped {:trigger Stale(mapped, dest, behind)} ::
      Stale(mapped, dest, behind) ==> p.strong(mapped) != p.strong(TailDigested(p.chunk, source))
  }

  /** When the local file's tail is free, the client's scan does not run past the end. */
  lemma LocatedInside(p: Params, source: seq<byte>, dest: seq<byte>, behind: seq<byte>)
    requires 1 <= p.chunk == |behind| && p.chunk < TWO31 && |source| < TWO31 && |dest| < TWO31
    requires TailFree(p.chunk, source, dest) && StaleApart(p, source, dest, behind)
    requires TailNotStale(p, source, dest, behind)
    ensures !RunsPast(p, FullSignature(p, source), dest, behind, 0)
  {
    hide TailFree, StaleApart, RunsPast, Stale, Touched, Signature, TailDigested;
    var chunks, blocks := FullSignature(p, source), Signature(p, source);
    TailFreeRefutes(p, source, dest, behind);
    forall mapped: seq<byte>, k | Stale(mapped, dest, behind) && Touched(mapped, dest) && 0 <= k < |chunks|
      ensures p.strong(mapped) != chunks[k].strong
    {
      if k < |blocks| {
        assert chunks[k] == blocks[k];
      } else {
        assert chunks[k] == Tail(p, source)[0];
      }
    }
    NeverRunsPast(p, chunks, dest, behind, 0);
  }

  /** The description of a file of two blocks. */
  lemma TwoBlocks(p: Params, one: seq<byte>, other: seq<byte>)
    requires 1 <= p.chunk == |one| == |other| && 2 * p.chunk < TWO31 && p.WeakOf(one) != p.WeakOf(other)
    ensures var chunks := FullSignature(p, one + other);
            && |chunks| == 2 && chunks[0].strong == p.strong(one) && chunks[1].strong == p.strong(other)
            && Lookup(chunks, p.WeakOf(one)) == 0 && Lookup(chunks, p.WeakOf(other)) == 1
            && chunks[0].length == chunks[1].length == p.chunk
  {
    hide Signature, WeakSums.Weak;
    var file, n := one + other, p.chunk;
    TwiceOver(n);
    SignatureAt(p, file, 0);
    SignatureAt(p, file, 1);
    assert file[0..n] == one && file[n..n + n] == other;
    assert Signature(p, file) + [] == Signature(p, file);
  }

  lemma TwiceOver(n: nat)
    requires n >= 1
    ensures (n + n) / n == 2 && (n + n) % n == 0 && 0 * n == 0 && 1 * n == n
  {
    assert (n + n) / n == n / n + 1;
  }

  /** The scan of its local file finds the first block, and the second one in stale bytes. */
  lemma RoundsOnEnds(p: Params, chunks: seq<Chunk>, b: byte, middle: seq<byte>, first: seq<byte>, behind: seq<byte>)
    requires 1 <= p.chunk == |middle| + 2 == |first| == |behind| && |chunks| == 2
    requires p.strong([b] + middle + [b]) != p.strong(first)
    requires p.strong([b] + middle + [b]) != p.strong(middle + [b, b])
    requires chunks[0].strong == p.strong(first) && chunks[1].strong == p.strong(middle + [b, b])
    requires Lookup(chunks, p.WeakOf(first)) == 0 && Lookup(chunks, p.WeakOf(middle + [b, b])) == 1
    ensures var dest := first + ([b] + middle + [b]);
            && RoundAt(p, chunks, dest, behind, 0) == Found(0, 0, p.chunk)
            && RoundAt(p, chunks, dest, behind, p.chunk) == Past(p.chunk + 1, 1)
  {
    hide Lookup, RoundAt, WeakSums.Weak;
    var n, last := p.chunk, [b] + middle + [b];
    var dest := first + last;
    assert dest[0..n] == first && dest[n..] == dest[n..n + n] == last;
    AcceptedRound(p, chunks, dest, behind, 0);
    assert RoundAt(p, chunks, dest, behind, 0) == Found(0, 0, n) by {
      RoundSteps(p, chunks, dest, behind, 0);
    }
    assert !AcceptedAt(p, chunks, dest, n);
    EndsRound(p, chunks, dest, behind, n, b, middle);
  }

  lemma WrittenTwo(one: Chunk, other: Chunk, source: seq<byte>, dest: seq<byte>, w: Window)
    requires Sits(dest, w) && Readable(one, source, dest, |w.data|) && Readable(other, source, dest, |w.data|)
    ensures AllReadable([one, other], source, dest, |w.data|)
    ensures Written([one, other], source, dest, w)
         == Taken(one, source, dest, w) + Taken(other, source, dest, Turned(one, source, dest, w))
  {
    var next := Turned(one, source, dest, w);
    assert [one, other][1..] == [other] && [other][1..] == [];
    assert Written([other], source, dest, next) == Taken(other, source, dest, next) + [];
  }

  /**
   For every chunk size from 3 on: the client's copy lacks only one byte of the
   source in the right place, but the block found beyond its end is then read
   from the buffer again, which by now holds the first block there. The result
   ends with that block's last byte instead of `b`, and so is the source only
   if the two are equal.
  */
  lemma MisreadOnEnds(p: Params, b: byte, middle: seq<byte>, first: seq<byte>, behind: seq<byte>)
    requires p.Valid() && p.chunk == |middle| + 2 == |first| == |behind| && 2 * p.chunk < p.window
    requires p.WeakOf(first) != p.WeakOf(middle + [b, b])
    requires p.strong([b] + middle + [b]) != p.strong(first)
    requires p.strong([b] + middle + [b]) != p.strong(middle + [b, b])
    ensures var source, dest := first + (middle + [b, b]), first + ([b] + middle + [b]);
            var w, state := Window(dest, 0, |dest|), Located(p, source, dest, behind);
            && Sits(dest, w) && AllReadable(state, source, dest, |w.data|)
            && Written(state, source, dest, w) == first + (middle + [b, first[p.chunk - 1]])
  {
    hide FullSignature, RoundAt, Relocated, Lookup, Taken, Turned, Readable, AllReadable, Written, WeakSums.Weak;
    var n, source, dest := p.chunk, first + (middle + [b, b]), first + ([b] + middle + [b]);
    var chunks, w := FullSignature(p, source), Window(dest, 0, |dest|);
    TwoBlocks(p, first, middle + [b, b]);
    RoundsOnEnds(p, chunks, b, middle, first, behind);
    RelocatedStep(p, chunks, chunks, dest, behind, 0);
    RelocatedStep(p, chunks, Relocate(chunks, 0, 0), dest, behind, n);
    var one, other := chunks[0].(from := false, offset := 0), chunks[1].(from := false, offset := n + 1);
    assert Located(p, source, dest, behind) == [one, other];
    TakenOnEnds(n, b, middle, first, one, other, source);
    WrittenTwo(one, other, source, dest, w);
  }

  /** The first block is in the window; the second is read again, behind its first bytes what the file begins with. */
  lemma TakenOnEnds(n: nat, b: byte, middle: seq<byte>, first: seq<byte>, one: Chunk, other: Chunk, source: seq<byte>)
    requires n == |middle| + 2 == |first|
    requires !one.from && one.offset == 0 && one.length == n
    requires !other.from && other.offset == n + 1 && other.length == n
    ensures var dest := first + ([b] + middle + [b]);
            var w := Window(dest, 0, |dest|);
            && Sits(dest, w) && Readable(one, source, dest, |w.data|) && Readable(other, source, dest, |w.data|)
            && Taken(one, source, dest, w) == first && Turned(one, source, dest, w) == w
            && Taken(other, source, dest, w) == middle + [b, first[n - 1]]
  {
    var dest := first + ([b] + middle + [b]);
    var w := Window(dest, 0, |dest|);
    BytesOnEnds(n, b, middle, first);
    var moved := Moved(dest, w, n + 1, n);
    assert moved.data == dest[n + 1..] + dest[n - 1..] && moved.offset == n + 1;
  }

  lemma BytesOnEnds(n: nat, b: byte, middle: seq<byte>, first: seq<byte>)
    requires n == |middle| + 2 == |first|
    ensures var dest := first + ([b] + middle + [b]);
            && |dest| == n + n && dest[..|dest|] == dest[0..|dest|] == dest && dest[0..n] == first
            && dest[n + 1..n + 1 + (n - 1)] == dest[n + 1..]
            && (dest[n + 1..] + dest[n - 1..])[0..n] == middle + [b, first[n - 1]]
  {
    var dest := first + ([b] + middle + [b]);
    assert dest[n + 1..] == middle + [b] && dest[n - 1..] == [first[n - 1]] + ([b] + middle + [b]);
    Regrouped(middle, [b], [first[n - 1]], [b] + middle + [b]);
    assert [b] + [first[n - 1]] == [b, first[n - 1]];
  }

  lemma Regrouped(a: seq<byte>, b: seq<byte>, c: seq<byte>, d: seq<byte>)
    ensures ((a + b) + (c + d))[0..|a| + |b| + |c|] == a + (b + c)
  {
  }
}

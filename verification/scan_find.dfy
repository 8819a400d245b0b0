/** Which windows a round looks at, and what it finds first. */
module ScanFinds {
  import opened Bytes
  import opened Chunks
  import opened Signatures
  import opened Scans
  import WeakSums

  /** The window at `x` has the weak sum of no chunk. */
  predicate Strange(p: Params, chunks: seq<Chunk>, tape: seq<byte>, x: int) {
    0 <= x && 0 <= p.chunk && x + p.chunk <= |tape| ==> Lookup(chunks, p.WeakOf(tape[x..x + p.chunk])) < 0
  }

  /** So it is with all windows from the one at `from` to before the one at `end`. */
  ghost predicate Quiet(p: Params, chunks: seq<Chunk>, tape: seq<byte>, from: int, end: int) {
    forall x :: from <= x < end ==> Strange(p, chunks, tape, x)
  }

  lemma QuietAt(p: Params, chunks: seq<Chunk>, tape: seq<byte>, from: int, end: int, x: int)
    requires Quiet(p, chunks, tape, from, end) && 0 <= from <= x < end && 0 <= p.chunk && x + p.chunk <= |tape|
    ensures Lookup(chunks, p.WeakOf(tape[x..x + p.chunk])) < 0
  {
    assert Strange(p, chunks, tape, x);
  }

  lemma QuietRest(p: Params, chunks: seq<Chunk>, tape: seq<byte>, from: int, later: int, end: int)
    requires Quiet(p, chunks, tape, from, end) && from <= later
    ensures Quiet(p, chunks, tape, later, end)
  {
  }

  /** The `n` bytes of `tape` from `from` on are those of the file from `at` on. */
  predicate Feeds(tape: seq<byte>, from: int, file: seq<byte>, at: int, n: int) {
    && 0 <= from && 0 <= at && 0 <= n && from + n <= |tape| && at + n <= |file|
    && tape[from..from + n] == file[at..at + n]
  }

  /** The window slides by the byte that enters. */
  lemma Slides(tape: seq<byte>, j: nat, chunk: int, file: seq<byte>, at: int, n: int)
    requires 1 <= chunk && 1 <= n && Feeds(tape, j + chunk, file, at, n)
    ensures 0 <= at < |file| && j + 1 + chunk <= |tape|
    ensures tape[j..j + chunk] != [] && tape[j..j + chunk][1..] + [file[at]] == tape[j + 1..j + 1 + chunk]
    ensures Feeds(tape, j + 1 + chunk, file, at + 1, n - 1)
  {
    var one, other := tape[j + chunk..j + chunk + n], file[at..at + n];
    assert one[0] == other[0] && one[1..] == other[1..];
    assert tape[j + 1 + chunk..j + 1 + chunk + (n - 1)] == one[1..] && file[at + 1..at + 1 + (n - 1)] == other[1..];
  }

  lemma FedByItself(file: seq<byte>, from: int, n: int)
    requires 0 <= from && 0 <= n && from + n <= |file|
    ensures Feeds(file, from, file, from, n)
  {
  }

  /** Quiet turns of the rolling loop over the mapped bytes; the windows are those of `tape` from `j` on. */
  lemma {:induction false} RollQuiet(p: Params, chunks: seq<Chunk>, file: seq<byte>, curr: int, base: int, i: int,
                                     limit: int, tape: seq<byte>, j: nat, n: int)
    requires 1 <= p.chunk <= curr && 0 <= base <= curr && 0 <= i && 0 <= n && i + n <= limit <= p.chunk
    requires curr + limit <= |file| && j + p.chunk + n <= |tape|
    requires Feeds(tape, j + p.chunk, file, base + i, n) && Quiet(p, chunks, tape, j + 1, j + 1 + n)
    ensures RollFrom(p, chunks, file, curr, base, i, limit, tape[j..j + p.chunk])
         == RollFrom(p, chunks, file, curr, base, i + n, limit, tape[j + n..j + n + p.chunk])
    decreases n
  {
    hide *;
    if n > 0 {
      Slides(tape, j, p.chunk, file, base + i, n);
      RollStep(p, chunks, file, curr, base, i, limit, tape[j..j + p.chunk]);
      QuietAt(p, chunks, tape, j + 1, j + 1 + n, j + 1);
      QuietRest(p, chunks, tape, j + 1, j + 2, j + 1 + n);
      RollQuiet(p, chunks, file, curr, base, i + 1, limit, tape, j + 1, n - 1);
    }
  }

  /** The state of the round's loop when it comes to the window at `at`, after nothing but strange ones. */
  lemma QuietTo(p: Params, chunks: seq<Chunk>, file: seq<byte>, curr: int, limit: int, at: int)
    requires 1 <= p.chunk && 0 <= curr < at && 0 <= limit <= p.chunk && at - curr - 1 <= limit
    requires curr + p.chunk + limit <= |file| && Quiet(p, chunks, file, curr + 1, at)
    ensures var next := curr + p.chunk;
            RollFrom(p, chunks, file, next, next, 0, limit, file[curr..next])
            == RollFrom(p, chunks, file, next, next, at - curr - 1, limit, file[at - 1..at - 1 + p.chunk])
  {
    hide *;
    var next, n := curr + p.chunk, at - curr - 1;
    FedByItself(file, next, n);
    RollQuiet(p, chunks, file, next, next, 0, limit, file, curr, n);
  }

  /** And its turn there. */
  lemma TurnTo(p: Params, chunks: seq<Chunk>, file: seq<byte>, curr: int, limit: int, at: int)
    requires 1 <= p.chunk && 0 <= curr < at && 0 <= limit <= p.chunk && at - curr <= limit
    requires curr + p.chunk + limit <= |file| && Quiet(p, chunks, file, curr + 1, at)
    ensures var next, window := curr + p.chunk, file[at..at + p.chunk];
            var k := Lookup(chunks, p.WeakOf(window));
            RollFrom(p, chunks, file, next, next, 0, limit, file[curr..next])
            == if k < 0 then RollFrom(p, chunks, file, next, next, at - curr, limit, window)
               else if StrongMatch(p, chunks, file, at, k) then Hit(at + p.chunk - 1, k)
               else RollFrom(p, chunks, file, next, at, at - curr, limit, window)
  {
    hide *;
    var next := curr + p.chunk;
    QuietTo(p, chunks, file, curr, limit, at);
    FedByItself(file, at - 1 + p.chunk, 1);
    Slides(file, at - 1, p.chunk, file, at - 1 + p.chunk, 1);
    RollStep(p, chunks, file, next, next, at - curr - 1, limit, file[at - 1..at - 1 + p.chunk]);
  }

  /**
   A round accepts the first window it comes to that has both sums of a chunk,
   anywhere up to a chunk behind its start, if none before has a weak sum of the list.
  */
  lemma RoundFinds(p: Params, chunks: seq<Chunk>, file: seq<byte>, behind: seq<byte>, curr: int, at: int)
    requires 1 <= p.chunk == |behind| && 0 <= curr < at <= curr + p.chunk
    requires AcceptedAt(p, chunks, file, at) && Quiet(p, chunks, file, curr, at)
    ensures var k := Lookup(chunks, p.WeakOf(file[at..at + p.chunk]));
            RoundAt(p, chunks, file, behind, curr) == Found(at, k, at + p.chunk - 1)
  {
    assert Lookup(chunks, p.WeakOf(file[at..at + p.chunk])) >= 0;
    hide RoundAt, RollFrom, Lookup, WeakSums.Weak, Quiet, StrongMatch;
    QuietAt(p, chunks, file, curr, at, curr);
    RoundSteps(p, chunks, file, behind, curr);
    QuietRest(p, chunks, file, curr, curr + 1, at);
    TurnTo(p, chunks, file, curr, Min(|file| - curr - p.chunk, p.chunk), at);
  }

  /**
   Away from the end of the file, a round that meets no weak sum of the list up
   to a chunk behind its start goes on two chunks further: it never looks at the
   windows between.
  */
  lemma RoundSkips(p: Params, chunks: seq<Chunk>, file: seq<byte>, behind: seq<byte>, curr: int)
    requires 1 <= p.chunk == |behind| && 0 <= curr && curr + 2 * p.chunk <= |file|
    requires Quiet(p, chunks, file, curr, curr + p.chunk + 1)
    ensures RoundAt(p, chunks, file, behind, curr) == Skip(curr + 2 * p.chunk)
  {
    hide RoundAt, RollFrom, PastFrom, Lookup, WeakSums.Weak, Quiet;
    var next := curr + p.chunk;
    QuietAt(p, chunks, file, curr, next + 1, curr);
    RoundSteps(p, chunks, file, behind, curr);
    QuietRest(p, chunks, file, curr, curr + 1, next + 1);
    QuietTo(p, chunks, file, curr, p.chunk, next + 1);
    RollDone(p, chunks, file, next, next, p.chunk, file[next..next + p.chunk]);
    PastDone(p, chunks, file, next, next, behind, file[next..next + p.chunk]);
  }

  /**
   After a weak sum that the strong one refutes, at `at`, the bytes that enter
   are those from `at` on, as far into the loop as it has come: the windows that
   are looked at then are those of `tape`.
  */
  function Rebound(chunk: int, file: seq<byte>, curr: int, at: int): (tape: seq<byte>)
    requires 1 <= chunk && 0 <= curr < at <= curr + chunk && curr + 2 * chunk <= |file|
  {
    file[at..at + chunk] + file[at + at - curr..at + chunk]
  }

  /** The state of the loop after that. */
  lemma RoundRebinds(p: Params, chunks: seq<Chunk>, file: seq<byte>, behind: seq<byte>, curr: int, at: int)
    requires 1 <= p.chunk == |behind| && 0 <= curr < at <= curr + p.chunk && curr + 2 * p.chunk <= |file|
    requires Quiet(p, chunks, file, curr, at) && !AcceptedAt(p, chunks, file, at)
    requires Lookup(chunks, p.WeakOf(file[at..at + p.chunk])) >= 0
    ensures var next, window := curr + p.chunk, file[at..at + p.chunk];
            match RollFrom(p, chunks, file, next, at, at - curr, p.chunk, window)
            case Hit(end, k) => RoundAt(p, chunks, file, behind, curr) == Found(end - p.chunk + 1, k, end)
            case Miss(_, _) => RoundAt(p, chunks, file, behind, curr) == Skip(curr + 2 * p.chunk)
  {
    hide RoundAt, RollFrom, PastFrom, Lookup, WeakSums.Weak, Quiet, StrongMatch;
    var next := curr + p.chunk;
    QuietAt(p, chunks, file, curr, at, curr);
    RoundSteps(p, chunks, file, behind, curr);
    QuietRest(p, chunks, file, curr, curr + 1, at);
    TurnTo(p, chunks, file, curr, p.chunk, at);
    var roll := RollFrom(p, chunks, file, next, at, at - curr, p.chunk, file[at..at + p.chunk]);
    if roll.Miss? {
      PastDone(p, chunks, file, next, roll.base, behind, roll.window);
    }
  }

  /**
   So the next window found is the first of these with a weak sum of the list,
   if the window of the file at its place has the strong sum that goes with it;
   and if none of these has, nothing is found, whatever the file holds there.
  */
  lemma ReboundFinds(p: Params, chunks: seq<Chunk>, file: seq<byte>, behind: seq<byte>, curr: int, at: int, d: nat)
    requires 1 <= p.chunk == |behind| && 0 <= curr < at && curr + 2 * p.chunk <= |file|
    requires Quiet(p, chunks, file, curr, at) && at <= curr + p.chunk && !AcceptedAt(p, chunks, file, at)
    requires Lookup(chunks, p.WeakOf(file[at..at + p.chunk])) >= 0
    requires 1 <= d <= curr + p.chunk + 1 - at && Quiet(p, chunks, Rebound(p.chunk, file, curr, at), 1, d)
    ensures if d == curr + p.chunk + 1 - at then
              RoundAt(p, chunks, file, behind, curr) == Skip(curr + 2 * p.chunk)
            else
              var k := Lookup(chunks, p.WeakOf(Rebound(p.chunk, file, curr, at)[d..d + p.chunk]));
              k >= 0 && StrongMatch(p, chunks, file, at + d, k) ==>
                RoundAt(p, chunks, file, behind, curr) == Found(at + d, k, at + d + p.chunk - 1)
  {
    hide RoundAt, RollFrom, Lookup, WeakSums.Weak, Quiet, StrongMatch;
    var next, i, n := curr + p.chunk, at - curr, p.chunk;
    var tape := Rebound(n, file, curr, at);
    RoundRebinds(p, chunks, file, behind, curr, at);
    ReboundTape(n, file, curr, at, d);
    RollQuiet(p, chunks, file, next, at, i, n, tape, 0, d - 1);
    if d == next + 1 - at {
      RollDone(p, chunks, file, next, at, n, tape[d - 1..d - 1 + n]);
    } else {
      RollStep(p, chunks, file, next, at, i + d - 1, n, tape[d - 1..d - 1 + n]);
    }
  }

  lemma ReboundTape(chunk: int, file: seq<byte>, curr: int, at: int, d: nat)
    requires 1 <= chunk && 0 <= curr < at <= curr + chunk && curr + 2 * chunk <= |file|
    requires 1 <= d <= curr + chunk + 1 - at
    ensures var tape, i := Rebound(chunk, file, curr, at), at - curr;
            && |tape| == 2 * chunk - i && tape[0..chunk] == file[at..at + chunk] && d - 1 + chunk <= |tape|
            && Feeds(tape, 0 + chunk, file, at + i, d - 1)
            && (d <= chunk - i ==> tape[d - 1..d - 1 + chunk][1..] + [file[at + i + d - 1]] == tape[d..d + chunk])
  {
    var tape, i := Rebound(chunk, file, curr, at), at - curr;
    assert tape[chunk..] == file[at + i..at + chunk];
    assert tape[chunk..chunk + (d - 1)] == tape[chunk..][..d - 1];
    if d <= chunk - i {
      assert tape[d - 1 + chunk] == file[at + i + d - 1];
    }
  }

  /** The `n` bytes of `tape` from `from` on are those that enter behind the end from turn `i` on. */
  ghost predicate FeedsPast(tape: seq<byte>, from: int, file: seq<byte>, base: int, front: seq<byte>, i: int, n: int) {
    && 0 <= from && 0 <= base && 0 <= i && 0 <= n && from + n <= |tape| && i + n <= |front|
    && forall x {:trigger tape[x]} :: from <= x < from + n ==>
         tape[x] == EnteringByte(file, base, front, i + x - from)
  }

  lemma SlidesPast(tape: seq<byte>, j: nat, chunk: int, file: seq<byte>, base: int, front: seq<byte>, i: int, n: int)
    requires 1 <= chunk && 1 <= n && FeedsPast(tape, j + chunk, file, base, front, i, n)
    ensures 0 <= base && 0 <= i < |front| && j + 1 + chunk <= |tape|
    ensures tape[j..j + chunk] != []
    ensures tape[j..j + chunk][1..] + [EnteringByte(file, base, front, i)] == tape[j + 1..j + 1 + chunk]
    ensures FeedsPast(tape, j + 1 + chunk, file, base, front, i + 1, n - 1)
  {
    assert tape[j + chunk] == EnteringByte(file, base, front, i + (j + chunk) - (j + chunk));
  }

  /** Quiet turns of the loop behind the end. */
  lemma {:induction false} PastQuiet(p: Params, chunks: seq<Chunk>, file: seq<byte>, curr: int, base: int, i: int,
                                     front: seq<byte>, tape: seq<byte>, j: nat, n: int)
    requires 1 <= p.chunk == |front| && p.chunk <= curr <= |file| <= curr + i && 0 <= base <= curr
    requires 0 <= i && 0 <= n && i + n <= p.chunk && j + p.chunk + n <= |tape|
    requires FeedsPast(tape, j + p.chunk, file, base, front, i, n) && Quiet(p, chunks, tape, j + 1, j + 1 + n)
    ensures PastFrom(p, chunks, file, curr, base, i, front, tape[j..j + p.chunk])
         == PastFrom(p, chunks, file, curr, base, i + n, front, tape[j + n..j + n + p.chunk])
    decreases n
  {
    hide *;
    if n > 0 {
      SlidesPast(tape, j, p.chunk, file, base, front, i, n);
      PastStep(p, chunks, file, curr, base, i, front, tape[j..j + p.chunk]);
      QuietAt(p, chunks, tape, j + 1, j + 1 + n, j + 1);
      QuietRest(p, chunks, tape, j + 1, j + 2, j + 1 + n);
      PastQuiet(p, chunks, file, curr, base, i + 1, front, tape, j + 1, n - 1);
    }
  }

  /** What a round that meets the end reads, one byte after the other: the file, then the buffer. */
  function Overrun(chunk: int, file: seq<byte>, behind: seq<byte>, curr: int): (tape: seq<byte>)
    requires 1 <= chunk == |behind| && 0 <= curr && curr + chunk <= |file| < curr + 2 * chunk
    ensures |tape| == curr + 2 * chunk
  {
    file + AtEnd(chunk, file, behind, curr)[|file| - curr - chunk..]
  }

  /** What the buffer begins with there: with nothing left to map, the round's own window. */
  function AtEnd(chunk: int, file: seq<byte>, behind: seq<byte>, curr: int): (front: seq<byte>)
    requires 1 <= chunk == |behind| && 0 <= curr && curr + chunk <= |file|
    ensures |front| == chunk
  {
    if curr + chunk == |file| then file[curr..curr + chunk] else behind
  }

  lemma OverrunFeeds(chunk: int, file: seq<byte>, behind: seq<byte>, curr: int, n: int)
    requires 1 <= chunk == |behind| && 0 <= curr && curr + chunk <= |file| < curr + 2 * chunk
    requires 0 <= n <= curr + 2 * chunk - |file|
    ensures var tape, next := Overrun(chunk, file, behind, curr), curr + chunk;
            && tape[|file| - chunk..|file|] == file[|file| - chunk..|file|]
            && FeedsPast(tape, |file|, file, next, AtEnd(chunk, file, behind, curr), |file| - next, n)
  {
    var tape := Overrun(chunk, file, behind, curr);
    assert forall x :: 0 <= x < |file| ==> tape[x] == file[x];
  }

  /** Its windows inside the file are the file's. */
  lemma OverrunQuiet(p: Params, chunks: seq<Chunk>, file: seq<byte>, behind: seq<byte>, curr: int, end: int)
    requires 1 <= p.chunk == |behind| && 0 <= curr && curr + p.chunk <= |file| < curr + 2 * p.chunk
    requires Quiet(p, chunks, Overrun(p.chunk, file, behind, curr), curr, end) && end <= |file| - p.chunk + 1
    ensures Quiet(p, chunks, file, curr, end)
  {
    hide Lookup, WeakSums.Weak;
    var tape := Overrun(p.chunk, file, behind, curr);
    forall x | curr <= x < end
      ensures Strange(p, chunks, file, x)
    {
      assert Strange(p, chunks, tape, x);
      assert tape[x..x + p.chunk] == file[x..x + p.chunk];
    }
  }

  /** The rolling loop of such a round after nothing but strange windows: it goes on behind the end. */
  lemma QuietPast(p: Params, chunks: seq<Chunk>, file: seq<byte>, behind: seq<byte>, curr: int, at: int)
    requires 1 <= p.chunk == |behind| && 0 <= curr && curr + p.chunk <= |file| < curr + 2 * p.chunk
    requires |file| - p.chunk < at <= curr + p.chunk + 1
    requires Quiet(p, chunks, Overrun(p.chunk, file, behind, curr), curr, at)
    ensures var next, front := curr + p.chunk, AtEnd(p.chunk, file, behind, curr);
            var window := Overrun(p.chunk, file, behind, curr)[at - 1..at - 1 + p.chunk];
            match PastFrom(p, chunks, file, next, next, at - curr - 1, front, window)
            case Hit(end, k) => RoundAt(p, chunks, file, behind, curr) == Past(end - p.chunk + 1, k)
            case Miss(_, _) => RoundAt(p, chunks, file, behind, curr) == Skip(curr + 2 * p.chunk)
  {
    hide RoundAt, RollFrom, PastFrom, Lookup, WeakSums.Weak, Quiet, Overrun, AtEnd, StrongMatch, FeedsPast;
    var next, last := curr + p.chunk, |file| - p.chunk;
    var limit, tape, front := |file| - next, Overrun(p.chunk, file, behind, curr), AtEnd(p.chunk, file, behind, curr);
    QuietUpTo(p, chunks, tape, curr, last + 1, at);
    OverrunQuiet(p, chunks, file, behind, curr, last + 1);
    QuietAt(p, chunks, file, curr, last + 1, curr);
    RoundSteps(p, chunks, file, behind, curr);
    FrontAtEnd(p.chunk, file, behind, curr);
    QuietRest(p, chunks, file, curr, curr + 1, last + 1);
    QuietTo(p, chunks, file, curr, limit, last + 1);
    RollDone(p, chunks, file, next, next, limit, file[last..last + p.chunk]);
    OverrunFeeds(p.chunk, file, behind, curr, at - 1 - last);
    QuietRest(p, chunks, tape, curr, last + 1, at);
    PastQuiet(p, chunks, file, next, next, limit, front, tape, last, at - 1 - last);
  }

  lemma FrontAtEnd(chunk: int, file: seq<byte>, behind: seq<byte>, curr: int)
    requires 1 <= chunk == |behind| && 0 <= curr && curr + chunk <= |file|
    ensures AtEnd(chunk, file, behind, curr)
         == if curr + chunk == |file| then file[curr..curr + chunk] else behind
  {
  }

  lemma QuietUpTo(p: Params, chunks: seq<Chunk>, tape: seq<byte>, from: int, end: int, later: int)
    requires Quiet(p, chunks, tape, from, later) && end <= later
    ensures Quiet(p, chunks, tape, from, end)
  {
  }

  /**
   A round that meets the end accepts the first window of what it reads there
   that has a weak sum of the list, if the rest of the file and the stale bytes
   then mapped have the strong sum that goes with it.
  */
  lemma RoundFindsPast(p: Params, chunks: seq<Chunk>, file: seq<byte>, behind: seq<byte>, curr: int, at: int)
    requires 1 <= p.chunk == |behind| && 0 <= curr && curr + p.chunk <= |file|
    requires |file| - p.chunk < at <= curr + p.chunk
    requires Quiet(p, chunks, Overrun(p.chunk, file, behind, curr), curr, at)
    ensures var k := Lookup(chunks, p.WeakOf(Overrun(p.chunk, file, behind, curr)[at..at + p.chunk]));
            k >= 0 && p.strong(Remapped(file, AtEnd(p.chunk, file, behind, curr), at)) == chunks[k].strong ==>
              RoundAt(p, chunks, file, behind, curr) == Past(at, k)
  {
    hide RoundAt, RollFrom, PastFrom, Lookup, WeakSums.Weak, Quiet, Overrun, AtEnd, Remapped, FeedsPast;
    var tape, front, next := Overrun(p.chunk, file, behind, curr), AtEnd(p.chunk, file, behind, curr), curr + p.chunk;
    var i, window := at - curr - 1, tape[at - 1..at - 1 + p.chunk];
    QuietPast(p, chunks, file, behind, curr, at);
    OverrunFeeds(p.chunk, file, behind, curr, at + p.chunk - |file|);
    FeedsLater(tape, |file|, file, next, front, |file| - next, at + p.chunk - |file|);
    SlidesPast(tape, at - 1, p.chunk, file, next, front, i, 1);
    PastStep(p, chunks, file, next, next, i, front, window);
  }

  lemma FeedsLater(tape: seq<byte>, from: int, file: seq<byte>, base: int, front: seq<byte>, i: int, n: int)
    requires FeedsPast(tape, from, file, base, front, i, n) && n >= 1
    ensures FeedsPast(tape, from + n - 1, file, base, front, i + n - 1, 1)
  {
    assert tape[from + n - 1] == EnteringByte(file, base, front, i + (from + n - 1) - from);
  }

  /** If no window of what it reads has a weak sum of the list, it accepts nothing. */
  lemma RoundMissesPast(p: Params, chunks: seq<Chunk>, file: seq<byte>, behind: seq<byte>, curr: int)
    requires 1 <= p.chunk == |behind| && 0 <= curr && curr + p.chunk <= |file| < curr + 2 * p.chunk
    requires Quiet(p, chunks, Overrun(p.chunk, file, behind, curr), curr, curr + p.chunk + 1)
    ensures RoundAt(p, chunks, file, behind, curr) == Skip(curr + 2 * p.chunk)
  {
    hide RoundAt, PastFrom, Lookup, WeakSums.Weak, Quiet, Overrun, AtEnd;
    var tape, front, next := Overrun(p.chunk, file, behind, curr), AtEnd(p.chunk, file, behind, curr), curr + p.chunk;
    QuietPast(p, chunks, file, behind, curr, next + 1);
    PastDone(p, chunks, file, next, next, front, tape[next..next + p.chunk]);
  }

  /** Where the round starts after `m` rounds from `curr` on that found nothing. */
  function Start(chunk: int, curr: int, m: nat): (start: int)
    requires 1 <= chunk
    ensures start >= curr && (m == 0 ==> start == curr)
    ensures m > 0 ==> start >= curr + 2 * chunk
  {
    Offsets(2 * chunk, m);
    if m > 0 then
      Offsets(2 * chunk, m - 1);
      curr + m * (2 * chunk)
    else curr
  }

  lemma StartNext(chunk: int, curr: int, m: nat)
    requires 1 <= chunk && m > 0
    ensures Start(chunk, curr, m) == Start(chunk, curr + 2 * chunk, m - 1)
  {
    Offsets(2 * chunk, m - 1);
  }

  /** Where the round after one from `start` begins that accepts `at`: behind that window, or on its last byte. */
  function Resumed(chunk: int, start: int, at: int): int {
    if at == start then at + chunk else at + chunk - 1
  }

  /**
   The scan comes to every window up to a chunk behind the start of a round. If
   it is the first with a weak sum of the list and has both sums of a chunk, the
   scan goes on behind it, with the literal before it and its copy.
  */
  lemma {:induction false} FindsFirst(p: Params, chunks: seq<Chunk>, file: seq<byte>, behind: seq<byte>,
                                      curr: int, offset: int, m: nat, at: int)
    requires 1 <= p.chunk == |behind| && 0 <= curr
    requires Start(p.chunk, curr, m) <= at <= Start(p.chunk, curr, m) + p.chunk
    requires AcceptedAt(p, chunks, file, at) && Quiet(p, chunks, file, curr, at)
    ensures var k := Lookup(chunks, p.WeakOf(file[at..at + p.chunk]));
            var next := Resumed(p.chunk, Start(p.chunk, curr, m), at);
            && 0 <= k < |chunks| && 0 <= next
            && ScanFrom(p, chunks, file, behind, curr, offset)
               == Copied(offset, at, chunks[k].offset, p.chunk) + ScanFrom(p, chunks, file, behind, next, at + p.chunk)
    decreases m
  {
    hide RoundAt, ScanFrom, Copied, Lookup, WeakSums.Weak, Quiet, Start, AcceptedAt;
    AcceptedMeans(p, chunks, file, at);
    if m == 0 {
      ScanStep(p, chunks, file, behind, curr, offset);
      FindsHere(p, chunks, file, behind, curr, at);
    } else {
      SkipsHere(p, chunks, file, behind, curr, at);
      ScanStep(p, chunks, file, behind, curr, offset);
      StartNext(p.chunk, curr, m);
      FindsFirst(p, chunks, file, behind, curr + 2 * p.chunk, offset, m - 1, at);
    }
  }

  lemma AcceptedMeans(p: Params, chunks: seq<Chunk>, file: seq<byte>, at: int)
    requires 1 <= p.chunk && 0 <= at && AcceptedAt(p, chunks, file, at)
    ensures at + p.chunk <= |file| && 0 <= Lookup(chunks, p.WeakOf(file[at..at + p.chunk])) < |chunks|
  {
    hide Lookup, WeakSums.Weak;
  }

  lemma FindsHere(p: Params, chunks: seq<Chunk>, file: seq<byte>, behind: seq<byte>, curr: int, at: int)
    requires 1 <= p.chunk == |behind| && 0 <= curr <= at <= curr + p.chunk
    requires AcceptedAt(p, chunks, file, at) && Quiet(p, chunks, file, curr, at)
    ensures RoundAt(p, chunks, file, behind, curr)
         == Found(at, Lookup(chunks, p.WeakOf(file[at..at + p.chunk])), Resumed(p.chunk, curr, at))
  {
    if at == curr {
      hide RollAll, Lookup, WeakSums.Weak, Quiet;
    } else {
      hide RoundAt, Lookup, WeakSums.Weak, Quiet;
      RoundFinds(p, chunks, file, behind, curr, at);
    }
  }

  lemma SkipsHere(p: Params, chunks: seq<Chunk>, file: seq<byte>, behind: seq<byte>, curr: int, at: int)
    requires 1 <= p.chunk == |behind| && 0 <= curr && curr + 2 * p.chunk <= at <= |file|
    requires Quiet(p, chunks, file, curr, at)
    ensures RoundAt(p, chunks, file, behind, curr) == Skip(curr + 2 * p.chunk)
    ensures Quiet(p, chunks, file, curr + 2 * p.chunk, at)
  {
    hide RoundAt, Lookup, WeakSums.Weak, Quiet;
    QuietUpTo(p, chunks, file, curr, curr + p.chunk + 1, at);
    RoundSkips(p, chunks, file, behind, curr);
    QuietRest(p, chunks, file, curr, curr + 2 * p.chunk, at);
  }
}

/** What the read buffer holds during a scan, as a function of the file and of the window it was opened with. */
module ScanWindows {
  import opened Bytes
  import opened Chunks
  import opened Scans
  import opened ScanFinds
  import opened FileMaps
  import opened ReadWindows
  import WeakSums

  /** The rolling loop maps a chunk wherever a window has a weak sum of the list. */
  ghost function RollView(p: Params, chunks: seq<Chunk>, file: seq<byte>,
                          curr: int, base: int, i: int, limit: int, window: seq<byte>, w: Window): (after: Window)
    requires 1 <= p.chunk <= curr && 0 <= base <= curr
    requires 0 <= i <= limit <= p.chunk && curr + limit <= |file|
    requires window != [] && Sits(file, w)
    ensures Sits(file, after) && |after.data| == |w.data|
    decreases limit - i
  {
    if i >= limit then w
    else
      var slid := window[1..] + [file[base + i]];
      var k := Lookup(chunks, p.WeakOf(slid));
      var at := curr + i - p.chunk + 1;
      if k < 0 then RollView(p, chunks, file, curr, base, i + 1, limit, slid, w)
      else if StrongMatch(p, chunks, file, at, k) then Moved(file, w, at, p.chunk)
      else RollView(p, chunks, file, curr, at, i + 1, limit, slid, Moved(file, w, at, p.chunk))
  }

  lemma RollViewStep(p: Params, chunks: seq<Chunk>, file: seq<byte>,
                     curr: int, base: int, i: int, limit: int, window: seq<byte>, w: Window)
    requires 1 <= p.chunk <= curr && 0 <= base <= curr
    requires 0 <= i < limit <= p.chunk && curr + limit <= |file| && window != [] && Sits(file, w)
    ensures RollView(p, chunks, file, curr, base, i, limit, window, w)
         == (var slid := window[1..] + [file[base + i]];
             var k, at := Lookup(chunks, p.WeakOf(slid)), curr + i - p.chunk + 1;
             if k < 0 then RollView(p, chunks, file, curr, base, i + 1, limit, slid, w)
             else if StrongMatch(p, chunks, file, at, k) then Moved(file, w, at, p.chunk)
             else RollView(p, chunks, file, curr, at, i + 1, limit, slid, Moved(file, w, at, p.chunk)))
  {
    hide Lookup, WeakSums.Weak, StrongMatch, Moved, Sits;
  }

  lemma RollViewDone(p: Params, chunks: seq<Chunk>, file: seq<byte>, curr: int, base: int, limit: int,
                     window: seq<byte>, w: Window)
    requires 1 <= p.chunk <= curr && 0 <= base <= curr
    requires 0 <= limit <= p.chunk && curr + limit <= |file| && window != [] && Sits(file, w)
    ensures RollView(p, chunks, file, curr, base, limit, limit, window, w) == w
  {
  }

  /** The rest of a round, from where the rolling loop begins. */
  ghost function RestView(p: Params, chunks: seq<Chunk>, file: seq<byte>, next: int, window: seq<byte>, w: Window)
    : (after: Window)
    requires 1 <= p.chunk <= next <= |file| && window != [] && Sits(file, w)
    ensures Sits(file, after) && |after.data| == |w.data|
  {
    var limit := Min(|file| - next, p.chunk);
    RollView(p, chunks, file, next, next, 0, limit, window, Moved(file, w, next, limit))
  }

  /** A round maps its first window, once more if its weak sum is in the list, and then what the rolling loop needs. */
  ghost function RoundView(p: Params, chunks: seq<Chunk>, file: seq<byte>, curr: int, w: Window): (after: Window)
    requires 1 <= p.chunk && 0 <= curr && curr + p.chunk <= |file| && Sits(file, w)
    ensures Sits(file, after) && |after.data| == |w.data|
  {
    var window := file[curr..curr + p.chunk];
    var k, first := Lookup(chunks, p.WeakOf(window)), Moved(file, w, curr, p.chunk);
    var judged := if k >= 0 then Moved(file, first, curr, p.chunk) else first;
    if k >= 0 && StrongMatch(p, chunks, file, curr, k) then judged
    else RestView(p, chunks, file, curr + p.chunk, window, judged)
  }

  /** A round, in terms of its first window and the rest. */
  lemma RoundViewSteps(p: Params, chunks: seq<Chunk>, file: seq<byte>, curr: int, w: Window)
    requires 1 <= p.chunk && 0 <= curr && curr + p.chunk <= |file| && Sits(file, w)
    ensures var window, first := file[curr..curr + p.chunk], Moved(file, w, curr, p.chunk);
            var k := Lookup(chunks, p.WeakOf(window));
            var judged := if k >= 0 then Moved(file, first, curr, p.chunk) else first;
            RoundView(p, chunks, file, curr, w)
            == if k >= 0 && StrongMatch(p, chunks, file, curr, k) then judged
               else RestView(p, chunks, file, curr + p.chunk, window, judged)
  {
  }

  function Blank(chunk: int): (blank: seq<byte>)
    requires 0 <= chunk
    ensures |blank| == chunk
  {
    seq(chunk, _ => 0)
  }

  /** The round from `curr` meets the end of the file in its rolling loop, where it depends on what the buffer holds. */
  predicate MeetsEnd(p: Params, file: seq<byte>, curr: int) {
    curr + p.chunk <= |file| < curr + 2 * p.chunk
  }

  lemma BehindIdle(p: Params, chunks: seq<Chunk>, file: seq<byte>, one: seq<byte>, other: seq<byte>, curr: int)
    requires 1 <= p.chunk == |one| == |other| && 0 <= curr && !MeetsEnd(p, file, curr)
    ensures RoundAt(p, chunks, file, one, curr) == RoundAt(p, chunks, file, other, curr)
  {
  }

  /** What the buffer begins with where the scan from `curr` on meets the end of the file, if it does. */
  ghost function BehindFrom(p: Params, chunks: seq<Chunk>, file: seq<byte>, w: Window, curr: int): (behind: seq<byte>)
    requires 1 <= p.chunk <= p.window && 0 <= curr && Sits(file, w) && |w.data| == Min(p.window, |file|)
    ensures |behind| == p.chunk
    decreases |file| - curr
  {
    if curr + p.chunk > |file| then Blank(p.chunk)
    else
      var after := RoundView(p, chunks, file, curr, w);
      if MeetsEnd(p, file, curr) then after.data[..p.chunk]
      else
        match RoundAt(p, chunks, file, Blank(p.chunk), curr)
        case Skip(next) => BehindFrom(p, chunks, file, after, next)
        case Found(_, _, next) => BehindFrom(p, chunks, file, after, next)
        case _ => Blank(p.chunk)
  }

  /** One round more. */
  lemma BehindStep(p: Params, chunks: seq<Chunk>, file: seq<byte>, w: Window, behind: seq<byte>, curr: int)
    requires 1 <= p.chunk <= p.window && 0 <= curr && Sits(file, w) && |w.data| == Min(p.window, |file|)
    requires |behind| == p.chunk
    ensures var here := BehindFrom(p, chunks, file, w, curr);
            && (curr + p.chunk > |file| ==> here == Blank(p.chunk))
            && (MeetsEnd(p, file, curr) ==> here == RoundView(p, chunks, file, curr, w).data[..p.chunk])
            && (curr + 2 * p.chunk <= |file| ==>
                  var r, after := RoundAt(p, chunks, file, behind, curr), RoundView(p, chunks, file, curr, w);
                  (r.Skip? || r.Found?) && here == BehindFrom(p, chunks, file, after, r.next))
  {
    hide RoundView, RoundAt;
    if curr + 2 * p.chunk <= |file| {
      BehindIdle(p, chunks, file, behind, Blank(p.chunk), curr);
      NotPastYet(p, chunks, file, Blank(p.chunk), curr);
    }
  }

  lemma NotPastYet(p: Params, chunks: seq<Chunk>, file: seq<byte>, behind: seq<byte>, curr: int)
    requires 1 <= p.chunk == |behind| && 0 <= curr && curr + 2 * p.chunk <= |file|
    ensures var r := RoundAt(p, chunks, file, behind, curr); r.Skip? || r.Found?
  {
    hide RollFrom, Lookup, WeakSums.Weak;
  }

  /** A window filled from `a` to the end of the file. */
  predicate From(file: seq<byte>, w: Window, a: int) {
    Sits(file, w) && |w.data| == |file| && w.offset == a && w.length == |file| - a
  }

  /** A file that fits the buffer, read from its start. */
  function Whole(file: seq<byte>): Window {
    Window(file, 0, |file|)
  }

  lemma WholeFrom(file: seq<byte>)
    ensures From(file, Whole(file), 0)
  {
  }

  /** A request behind the start of such a window: covered, or filled again from there. */
  lemma MovedFrom(file: seq<byte>, w: Window, a: int, at: int, want: int)
    requires From(file, w, a) && 0 <= at && 0 <= want && at + want <= |file|
    ensures a <= at && at + want < |file| ==> Moved(file, w, at, want) == w
    ensures at < a || at + want == |file| ==> From(file, Moved(file, w, at, want), at)
  {
  }

  lemma FrontFrom(file: seq<byte>, w: Window, a: int, n: int)
    requires From(file, w, a) && 0 <= n <= |file| - a
    ensures w.data[..n] == file[a..a + n]
  {
    assert w.data[..n] == w.data[..w.length][..n] && file[a..a + n] == file[a..a + w.length][..n];
  }

  /** Where nothing is mapped up to the end of the file, the window stays. */
  lemma {:induction false} RollViewInside(p: Params, chunks: seq<Chunk>, file: seq<byte>, curr: int, base: int, i: int,
                                          limit: int, window: seq<byte>, w: Window)
    requires 1 <= p.chunk <= curr && 0 <= base <= curr && 0 <= i <= limit <= p.chunk && curr + limit < |file|
    requires window != [] && From(file, w, 0)
    ensures RollView(p, chunks, file, curr, base, i, limit, window, w) == w
    decreases limit - i
  {
    hide *;
    FromSits(file, w, 0);
    if i == limit {
      RollViewDone(p, chunks, file, curr, base, limit, window, w);
    } else {
      RollViewStep(p, chunks, file, curr, base, i, limit, window, w);
      var slid, at := window[1..] + [file[base + i]], curr + i - p.chunk + 1;
      MovedFrom(file, w, 0, at, p.chunk);
      RollViewInside(p, chunks, file, curr, base, i + 1, limit, slid, w);
      RollViewInside(p, chunks, file, curr, at, i + 1, limit, slid, w);
    }
  }

  lemma FromSits(file: seq<byte>, w: Window, a: int)
    requires From(file, w, a)
    ensures Sits(file, w) && 0 <= a <= |file|
  {
  }

  /** Otherwise it is as before, or filled from the start of a window looked at. */
  lemma {:induction false} RollViewMoves(p: Params, chunks: seq<Chunk>, file: seq<byte>, curr: int, base: int, i: int,
                                         limit: int, window: seq<byte>, w: Window, a: int) returns (b: int)
    requires 1 <= p.chunk <= curr && 0 <= base <= curr && 0 <= i <= limit <= p.chunk && curr + limit <= |file|
    requires window != [] && From(file, w, a) && (a <= curr - p.chunk + i || a == curr)
    ensures var after := RollView(p, chunks, file, curr, base, i, limit, window, w);
            after == w || (curr - p.chunk < b <= |file| - p.chunk && From(file, after, b))
    decreases limit - i
  {
    hide *;
    FromSits(file, w, a);
    b := 0;
    if i == limit {
      RollViewDone(p, chunks, file, curr, base, limit, window, w);
    } else {
      RollViewStep(p, chunks, file, curr, base, i, limit, window, w);
      var slid, at := window[1..] + [file[base + i]], curr + i - p.chunk + 1;
      var k, moved := Lookup(chunks, p.WeakOf(slid)), Moved(file, w, at, p.chunk);
      MovedFrom(file, w, a, at, p.chunk);
      if k < 0 {
        b := RollViewMoves(p, chunks, file, curr, base, i + 1, limit, slid, w, a);
      } else if StrongMatch(p, chunks, file, at, k) {
        b := at;
      } else if moved == w {
        b := RollViewMoves(p, chunks, file, curr, at, i + 1, limit, slid, w, a);
      } else {
        b := RollViewMoves(p, chunks, file, curr, at, i + 1, limit, slid, moved, at);
        b := if RollView(p, chunks, file, curr, at, i + 1, limit, slid, moved) == moved then at else b;
      }
    }
  }

  /** And it is as before when no window has a weak sum of the list. */
  lemma {:induction false} RollViewQuiet(p: Params, chunks: seq<Chunk>, file: seq<byte>, curr: int, i: int, limit: int,
                                         w: Window)
    requires 1 <= p.chunk <= curr && 0 <= i <= limit <= p.chunk && curr + limit <= |file| && Sits(file, w)
    requires Quiet(p, chunks, file, curr - p.chunk + i + 1, curr - p.chunk + limit + 1)
    ensures var at := curr - p.chunk + i;
            RollView(p, chunks, file, curr, curr, i, limit, file[at..at + p.chunk], w) == w
    decreases limit - i
  {
    hide *;
    var at := curr - p.chunk + i;
    if i == limit {
      RollViewDone(p, chunks, file, curr, curr, limit, file[at..at + p.chunk], w);
    } else {
      RollViewStep(p, chunks, file, curr, curr, i, limit, file[at..at + p.chunk], w);
      FedByItself(file, at + p.chunk, 1);
      Slides(file, at, p.chunk, file, at + p.chunk, 1);
      QuietAt(p, chunks, file, at + 1, curr - p.chunk + limit + 1, at + 1);
      QuietRest(p, chunks, file, at + 1, at + 2, curr - p.chunk + limit + 1);
      RollViewQuiet(p, chunks, file, curr, i + 1, limit, w);
    }
  }

  /** A round that maps nothing up to the end leaves a whole window as it is. */
  lemma RoundViewInside(p: Params, chunks: seq<Chunk>, file: seq<byte>, curr: int)
    requires 1 <= p.chunk && 0 <= curr && curr + 2 * p.chunk < |file|
    ensures Sits(file, Whole(file)) && RoundView(p, chunks, file, curr, Whole(file)) == Whole(file)
  {
    hide Lookup, WeakSums.Weak, StrongMatch, RollView, Moved, Sits, From;
    var w, next := Whole(file), curr + p.chunk;
    WholeFrom(file);
    FromSits(file, w, 0);
    MovedFrom(file, w, 0, curr, p.chunk);
    MovedFrom(file, w, 0, next, p.chunk);
    RollViewInside(p, chunks, file, next, next, 0, p.chunk, file[curr..next], w);
  }

  /** A round whose first window is the last of the file leaves it at the start of the buffer. */
  lemma RoundViewLast(p: Params, chunks: seq<Chunk>, file: seq<byte>, curr: int, w: Window)
    requires 1 <= p.chunk <= |w.data| && 0 <= curr && curr + p.chunk == |file| && Sits(file, w)
    ensures RoundView(p, chunks, file, curr, w).data[..p.chunk] == file[curr..]
  {
    hide Lookup, WeakSums.Weak, StrongMatch, RollView, Moved, Sits;
    var next, window := |file|, file[curr..curr + p.chunk];
    var first := Moved(file, w, curr, p.chunk);
    var second := Moved(file, first, curr, p.chunk);
    LastMoved(file, w, curr, p.chunk);
    LastMoved(file, first, curr, p.chunk);
    NoneMoved(file, first);
    NoneMoved(file, second);
    RollViewDone(p, chunks, file, next, next, 0, window, Moved(file, first, next, 0));
    RollViewDone(p, chunks, file, next, next, 0, window, Moved(file, second, next, 0));
  }

  lemma LastMoved(file: seq<byte>, w: Window, at: int, n: int)
    requires Sits(file, w) && 0 <= at && 0 <= n <= |w.data| && at + n == |file|
    ensures Moved(file, w, at, n).data[..n] == file[at..]
  {
    MovedToEnd(file, w, at, n);
  }

  lemma NoneMoved(file: seq<byte>, w: Window)
    requires Sits(file, w)
    ensures Moved(file, w, |file|, 0).data == w.data
  {
    MovedToEnd(file, w, |file|, 0);
  }

  /** The round that meets the end, when the file is wholly in the buffer and bytes are left to map. */
  lemma RoundViewEnd(p: Params, chunks: seq<Chunk>, file: seq<byte>, curr: int) returns (a: int)
    requires 1 <= p.chunk && 0 <= curr && curr + p.chunk < |file| < curr + 2 * p.chunk
    ensures Sits(file, Whole(file))
    ensures var after, next := RoundView(p, chunks, file, curr, Whole(file)), curr + p.chunk;
            var front := after.data[..p.chunk];
            && (AcceptedAt(p, chunks, file, curr) ==> front == file[..p.chunk])
            && (!AcceptedAt(p, chunks, file, curr) && Quiet(p, chunks, file, curr + 1, |file| - p.chunk + 1) ==>
                  front == file[next..] + file[|file| - next..p.chunk])
            && (!AcceptedAt(p, chunks, file, curr) ==>
                  front == file[next..] + file[|file| - next..p.chunk]
                  || (curr < a && BlockAt(file, a, front)))
  {
    hide Lookup, WeakSums.Weak, StrongMatch, AcceptedAt, RollView, RoundView, Moved, Sits, From, Quiet;
    var n, w, next := p.chunk, Whole(file), curr + p.chunk;
    var limit, window := |file| - next, file[curr..next];
    WholeFrom(file);
    FromSits(file, w, 0);
    MovedFrom(file, w, 0, curr, n);
    MovedFrom(file, w, 0, next, limit);
    var mapped := Moved(file, w, next, limit);
    EndMoved(file, next, n);
    AcceptedHere(p, chunks, file, curr);
    RoundViewSteps(p, chunks, file, curr, w);
    a := RollViewMoves(p, chunks, file, next, next, 0, limit, window, mapped, next);
    if Quiet(p, chunks, file, curr + 1, |file| - n + 1) {
      RollViewQuiet(p, chunks, file, next, 0, limit, mapped);
    }
    var after := RollView(p, chunks, file, next, next, 0, limit, window, mapped);
    if after != mapped {
      FrontFrom(file, after, a, n);
    }
  }

  lemma EndMoved(file: seq<byte>, next: int, n: int)
    requires 0 <= next <= |file| <= next + n && n <= |file|
    ensures Sits(file, Whole(file))
    ensures Moved(file, Whole(file), next, |file| - next).data[..n] == file[next..] + file[|file| - next..n]
  {
    assert file[..|file|] == file[0..|file|] == file;
    assert (file[next..] + file[|file| - next..])[..n] == file[next..] + file[|file| - next..n];
  }

  lemma AcceptedHere(p: Params, chunks: seq<Chunk>, file: seq<byte>, at: int)
    requires 1 <= p.chunk && 0 <= at && at + p.chunk <= |file|
    ensures var k := Lookup(chunks, p.WeakOf(file[at..at + p.chunk]));
            AcceptedAt(p, chunks, file, at) <==> k >= 0 && StrongMatch(p, chunks, file, at, k)
  {
    hide Lookup, WeakSums.Weak;
  }

  /** Where the round starts that meets the end of the file, or -1. */
  function EndRound(p: Params, chunks: seq<Chunk>, file: seq<byte>, curr: int): (at: int)
    requires 1 <= p.chunk && 0 <= curr
    ensures at >= 0 ==> curr <= at && MeetsEnd(p, file, at)
    decreases |file| - curr
  {
    if curr + p.chunk > |file| then -1
    else if MeetsEnd(p, file, curr) then curr
    else
      match RoundAt(p, chunks, file, Blank(p.chunk), curr)
      case Skip(next) => EndRound(p, chunks, file, next)
      case Found(_, _, next) => EndRound(p, chunks, file, next)
      case _ => -1
  }

  /** What stands at the start of the buffer when the round from `at` meets the end of a file that fits the buffer. */
  ghost predicate FrontAt(p: Params, chunks: seq<Chunk>, file: seq<byte>, at: int, front: seq<byte>)
    requires 1 <= p.chunk == |front| && 0 <= at && MeetsEnd(p, file, at)
  {
    var next := at + p.chunk;
    if next == |file| then front == file[at..]
    else if AcceptedAt(p, chunks, file, at) then front == file[..p.chunk]
    else
      && (Quiet(p, chunks, file, at + 1, |file| - p.chunk + 1) ==>
            front == file[next..] + file[|file| - next..p.chunk])
      && (front == file[next..] + file[|file| - next..p.chunk]
          || exists a :: at < a && BlockAt(file, a, front))
  }

  /**
   For a file shorter than the buffer what the scan meets behind its end is
   known: the file's first bytes that the last mapping left, or a window that was
   mapped again because it has a weak sum of the list.
  */
  lemma {:induction false} BehindIs(p: Params, chunks: seq<Chunk>, file: seq<byte>, curr: int)
    requires 1 <= p.chunk <= p.window && 0 <= curr && |file| < p.window
    ensures Sits(file, Whole(file))
    ensures var behind, at := BehindFrom(p, chunks, file, Whole(file), curr), EndRound(p, chunks, file, curr);
            at >= 0 ==> FrontAt(p, chunks, file, at, behind)
    decreases |file| - curr
  {
    hide RoundAt, RoundView, Quiet, BehindFrom, FrontAt;
    var w := Whole(file);
    WholeFrom(file);
    BehindStep(p, chunks, file, w, Blank(p.chunk), curr);
    if curr + p.chunk == |file| {
      RoundViewLast(p, chunks, file, curr, w);
      FrontLast(p, chunks, file, curr);
    } else if MeetsEnd(p, file, curr) {
      var a := RoundViewEnd(p, chunks, file, curr);
      FrontEnd(p, chunks, file, curr, RoundView(p, chunks, file, curr, w).data[..p.chunk], a);
    } else if curr + 2 * p.chunk < |file| {
      RoundViewInside(p, chunks, file, curr);
      var r := RoundAt(p, chunks, file, Blank(p.chunk), curr);
      BehindIs(p, chunks, file, r.next);
    } else if curr + 2 * p.chunk == |file| {
      BehindIsLast(p, chunks, file, curr);
    }
  }

  lemma FrontLast(p: Params, chunks: seq<Chunk>, file: seq<byte>, at: int)
    requires 1 <= p.chunk && 0 <= at && at + p.chunk == |file|
    ensures FrontAt(p, chunks, file, at, file[at..])
  {
  }

  lemma FrontEnd(p: Params, chunks: seq<Chunk>, file: seq<byte>, at: int, front: seq<byte>, a: int)
    requires 1 <= p.chunk == |front| && 0 <= at && at + p.chunk < |file| < at + 2 * p.chunk
    requires AcceptedAt(p, chunks, file, at) ==> front == file[..p.chunk]
    requires !AcceptedAt(p, chunks, file, at) && Quiet(p, chunks, file, at + 1, |file| - p.chunk + 1) ==>
               front == file[at + p.chunk..] + file[|file| - at - p.chunk..p.chunk]
    requires !AcceptedAt(p, chunks, file, at) ==>
               front == file[at + p.chunk..] + file[|file| - at - p.chunk..p.chunk]
               || (at < a && BlockAt(file, a, front))
    ensures FrontAt(p, chunks, file, at, front)
  {
    hide Quiet, AcceptedAt, BlockAt;
  }

  /** A round that maps exactly up to the end; only one that starts with the last window can meet the end after it. */
  lemma BehindIsLast(p: Params, chunks: seq<Chunk>, file: seq<byte>, curr: int)
    requires 1 <= p.chunk <= p.window && 0 <= curr && curr + 2 * p.chunk == |file| < p.window
    ensures Sits(file, Whole(file))
    ensures var behind, at := BehindFrom(p, chunks, file, Whole(file), curr), EndRound(p, chunks, file, curr);
            at >= 0 ==> FrontAt(p, chunks, file, at, behind)
  {
    hide RoundAt, RoundView, Quiet, FrontAt, BehindFrom, EndRound;
    var w := Whole(file);
    WholeFrom(file);
    FromSits(file, w, 0);
    EndRoundStep(p, chunks, file, curr);
    BehindStep(p, chunks, file, w, Blank(p.chunk), curr);
    var r, after := RoundAt(p, chunks, file, Blank(p.chunk), curr), RoundView(p, chunks, file, curr, w);
    EndRoundStep(p, chunks, file, r.next);
    if r.next + p.chunk == |file| {
      BehindStep(p, chunks, file, after, Blank(p.chunk), r.next);
      RoundViewLast(p, chunks, file, r.next, after);
      FrontLast(p, chunks, file, r.next);
    }
  }

  lemma EndRoundStep(p: Params, chunks: seq<Chunk>, file: seq<byte>, curr: int)
    requires 1 <= p.chunk && 0 <= curr
    ensures var at := EndRound(p, chunks, file, curr);
            && (curr + p.chunk > |file| ==> at == -1)
            && (MeetsEnd(p, file, curr) ==> at == curr)
            && (curr + 2 * p.chunk <= |file| ==>
                  var r := RoundAt(p, chunks, file, Blank(p.chunk), curr);
                  (r.Skip? || r.Found?) && curr + p.chunk <= r.next && at == EndRound(p, chunks, file, r.next))
  {
    hide RoundAt;
    if curr + 2 * p.chunk <= |file| {
      NotPastYet(p, chunks, file, Blank(p.chunk), curr);
    }
  }

  /** What is known of `goal`, which the buffer begins with where the scan meets the end. */
  ghost predicate Tracks(p: Params, chunks: seq<Chunk>, file: seq<byte>, met: bool, behind: seq<byte>,
                         w: Window, curr: int, goal: seq<byte>)
    requires 1 <= p.chunk <= p.window && 0 <= curr
  {
    if met then behind == goal && curr + p.chunk > |file|
    else
      && behind == Blank(p.chunk) && (curr + p.chunk > |file| ==> goal == Blank(p.chunk))
      && (curr + p.chunk <= |file| ==>
            Sits(file, w) && |w.data| == Min(p.window, |file|) && goal == BehindFrom(p, chunks, file, w, curr))
  }

  lemma TracksOn(p: Params, chunks: seq<Chunk>, file: seq<byte>, met: bool, before: seq<byte>, behind: seq<byte>,
                 w: Window, curr: int, curr': int, goal: seq<byte>)
    requires 1 <= p.chunk <= p.window && p.chunk == |behind| && 0 <= curr && 0 <= curr'
    requires Tracks(p, chunks, file, met, before, w, curr, goal)
    requires curr + p.chunk > |file| ==> curr' == curr
    requires var r := RoundAt(p, chunks, file, behind, curr);
             curr + 2 * p.chunk <= |file| && (r.Skip? || r.Found?) ==> curr' == r.next
    requires MeetsEnd(p, file, curr) ==> curr' + p.chunk > |file|
    requires curr + p.chunk <= |file| ==>
      Sits(file, w) && |w.data| == Min(p.window, |file|)
      && behind == RoundView(p, chunks, file, curr, w).data[..p.chunk]
    ensures var meets := MeetsEnd(p, file, curr);
            var w' := if curr + p.chunk <= |file| then RoundView(p, chunks, file, curr, w) else w;
            Tracks(p, chunks, file, met || meets, if meets then behind else before, w', curr', goal)
  {
    hide RoundAt, RoundView, BehindFrom, Sits;
    if !met && curr + p.chunk <= |file| {
      BehindStep(p, chunks, file, w, behind, curr);
      if !MeetsEnd(p, file, curr) && curr' + p.chunk > |file| {
        BehindStep(p, chunks, file, RoundView(p, chunks, file, curr, w), behind, curr');
      }
    }
  }

  /**
   What the read buffer held where the scan met the end, for a window that can
   have been opened over the file.
  */
  ghost predicate LeftBehind(p: Params, chunks: seq<Chunk>, file: seq<byte>, behind: seq<byte>)
    requires 1 <= p.chunk <= p.window
  {
    exists w :: Opened(p, file, w) && behind == BehindFrom(p, chunks, file, w, 0)
  }

  lemma TracksStart(p: Params, chunks: seq<Chunk>, file: seq<byte>, w: Window)
    requires 1 <= p.chunk <= p.window && Sits(file, w) && |w.data| == Min(p.window, |file|)
    ensures Tracks(p, chunks, file, false, Blank(p.chunk), w, 0, BehindFrom(p, chunks, file, w, 0))
  {
    hide RoundView, RoundAt, Sits;
    BehindStep(p, chunks, file, w, Blank(p.chunk), 0);
  }

  lemma TracksDone(p: Params, chunks: seq<Chunk>, file: seq<byte>, met: bool, behind: seq<byte>,
                   w: Window, curr: int, goal: seq<byte>)
    requires 1 <= p.chunk <= p.window && 0 <= curr && curr + p.chunk > |file|
    requires Tracks(p, chunks, file, met, behind, w, curr, goal)
    ensures behind == goal
  {
  }

  lemma LeftBehindIt(p: Params, chunks: seq<Chunk>, file: seq<byte>, w: Window)
    requires 1 <= p.chunk <= p.window && Opened(p, file, w)
    ensures Sits(file, w) && LeftBehind(p, chunks, file, BehindFrom(p, chunks, file, w, 0))
  {
  }

  /** A file shorter than the buffer is opened in one way only, so what is left behind follows from the file. */
  lemma LeftOfShort(p: Params, chunks: seq<Chunk>, file: seq<byte>, behind: seq<byte>)
    requires 1 <= p.chunk <= p.window && LeftBehind(p, chunks, file, behind) && |file| < p.window
    ensures Sits(file, Whole(file)) && behind == BehindFrom(p, chunks, file, Whole(file), 0)
  {
    hide BehindFrom, Sits;
    var w :| Opened(p, file, w) && behind == BehindFrom(p, chunks, file, w, 0);
  }

  /** Every byte in the buffer is one of the file. */
  ghost predicate OfFile(file: seq<byte>, w: Window) {
    forall j :: 0 <= j < |w.data| ==> w.data[j] in file
  }

  lemma MovedOfFile(file: seq<byte>, w: Window, at: int, want: int)
    requires Sits(file, w) && OfFile(file, w) && 0 <= at <= |file| && 0 <= want
    ensures OfFile(file, Moved(file, w, at, want))
  {
    var moved, n := Moved(file, w, at, want), Min(|w.data|, |file| - at);
    if moved != w {
      forall j | 0 <= j < |moved.data|
        ensures moved.data[j] in file
      {
        assert moved.data[j] == if j < n then file[at + j] else w.data[j];
      }
    }
  }

  lemma {:induction false} RollViewOfFile(p: Params, chunks: seq<Chunk>, file: seq<byte>, curr: int, base: int, i: int,
                                          limit: int, window: seq<byte>, w: Window)
    requires 1 <= p.chunk <= curr && 0 <= base <= curr && 0 <= i <= limit <= p.chunk && curr + limit <= |file|
    requires window != [] && Sits(file, w) && OfFile(file, w)
    ensures OfFile(file, RollView(p, chunks, file, curr, base, i, limit, window, w))
    decreases limit - i
  {
    hide *;
    if i == limit {
      RollViewDone(p, chunks, file, curr, base, limit, window, w);
    } else {
      RollViewStep(p, chunks, file, curr, base, i, limit, window, w);
      var slid, at := window[1..] + [file[base + i]], curr + i - p.chunk + 1;
      MovedOfFile(file, w, at, p.chunk);
      RollViewOfFile(p, chunks, file, curr, base, i + 1, limit, slid, w);
      RollViewOfFile(p, chunks, file, curr, at, i + 1, limit, slid, Moved(file, w, at, p.chunk));
    }
  }

  lemma RoundViewOfFile(p: Params, chunks: seq<Chunk>, file: seq<byte>, curr: int, w: Window)
    requires 1 <= p.chunk && 0 <= curr && curr + p.chunk <= |file| && Sits(file, w) && OfFile(file, w)
    ensures OfFile(file, RoundView(p, chunks, file, curr, w))
  {
    hide Lookup, WeakSums.Weak, StrongMatch, RollView, RoundView, Moved, Sits, OfFile;
    var window, first := file[curr..curr + p.chunk], Moved(file, w, curr, p.chunk);
    var second, next := Moved(file, first, curr, p.chunk), curr + p.chunk;
    var limit := Min(|file| - next, p.chunk);
    RoundViewSteps(p, chunks, file, curr, w);
    MovedOfFile(file, w, curr, p.chunk);
    MovedOfFile(file, first, curr, p.chunk);
    MovedOfFile(file, first, next, limit);
    MovedOfFile(file, second, next, limit);
    RollViewOfFile(p, chunks, file, next, next, 0, limit, window, Moved(file, first, next, limit));
    RollViewOfFile(p, chunks, file, next, next, 0, limit, window, Moved(file, second, next, limit));
  }

  /** So what the scan meets behind the end of any file are its bytes, if the buffer was filled when it was opened. */
  lemma {:induction false} BehindOfFile(p: Params, chunks: seq<Chunk>, file: seq<byte>, w: Window, curr: int)
    requires 1 <= p.chunk <= p.window && 0 <= curr && Sits(file, w) && |w.data| == Min(p.window, |file|)
    requires OfFile(file, w)
    ensures EndRound(p, chunks, file, curr) >= 0 ==> forall b <- BehindFrom(p, chunks, file, w, curr) :: b in file
    decreases |file| - curr
  {
    hide RoundAt, RoundView, BehindFrom, EndRound, Sits;
    EndRoundStep(p, chunks, file, curr);
    BehindStep(p, chunks, file, w, Blank(p.chunk), curr);
    if curr + p.chunk <= |file| {
      RoundViewOfFile(p, chunks, file, curr, w);
      if curr + 2 * p.chunk <= |file| {
        var r := RoundAt(p, chunks, file, Blank(p.chunk), curr);
        BehindOfFile(p, chunks, file, RoundView(p, chunks, file, curr, w), r.next);
      }
    }
  }
}

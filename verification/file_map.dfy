/** A sliding read window over a file. */
module FileMaps {
  import opened Bytes

  lemma SliceOfWindow(window: seq<byte>, file: seq<byte>, start: int, length: int, d: int, want: int)
    requires 0 <= start && 0 <= length <= |window| && start + length <= |file|
    requires window[..length] == file[start..start + length]
    requires 0 <= d && 0 <= want && d + want <= length
    ensures window[d..d + want] == file[start + d..start + d + want]
  {
    forall j | d <= j < d + want
      ensures window[j] == file[start + j]
    {
      assert window[..length][j] == file[start..start + length][j];
    }
  }

  /** The read buffer, the file position it was filled from, and how far. */
  datatype Window = Window(data: seq<byte>, offset: int, length: int)

  /** Its filled bytes are the file's. */
  predicate Sits(file: seq<byte>, w: Window) {
    && 0 <= w.length <= |w.data| <= |file| && 0 <= w.offset && w.offset + w.length <= |file|
    && w.data[..w.length] == file[w.offset..w.offset + w.length]
  }

  /**
   The window after a request: the same if it covers the request and more,
   otherwise filled again from `at`; what the file does not fill stays.
  */
  function Moved(file: seq<byte>, w: Window, at: int, want: int): (moved: Window)
    requires Sits(file, w) && 0 <= at <= |file| && 0 <= want
    ensures Sits(file, moved) && |moved.data| == |w.data|
    ensures moved.offset <= at && (want <= |w.data| ==> at - moved.offset + want <= |w.data|)
  {
    if w.offset <= at && at + want < w.offset + w.length then w
    else
      var n := Min(|w.data|, |file| - at);
      Window(file[at..at + n] + w.data[n..], at, n)
  }

  class FileMap {
    const file: seq<byte>
    const data: array<byte>
    var offset: int32
    var bufferLength: int32
    var length: int32

    /** The first `length` buffer bytes are the file's bytes from `offset` on. */
    ghost predicate Valid()
      reads this, data
    {
      && |file| + bufferLength < TWO31 && bufferLength <= |file|
      && data.Length == bufferLength
      && 0 <= offset <= |file| && 0 <= length <= bufferLength && offset + length <= |file|
      && data[..length] == file[offset..offset + length]
    }

    /**
     `unset` is what `length_` holds when the file fills the whole buffer: the
     source reads that many bytes without having set it. Only a value within
     the buffer keeps that read inside the allocation.
    */
    constructor (contents: seq<byte>, window: int32, unset: int32)
      requires 0 <= window && |contents| + window < TWO31
      requires |contents| >= window ==> 0 <= unset <= window
      ensures Valid() && fresh(data) && file == contents && bufferLength == Min(window, |contents|)
      ensures offset == 0 && (|contents| < window ==> View() == Window(contents, 0, |contents|))
    {
      file := contents;
      offset := 0;
      var capacity: int32, wanted: int32 := window, unset;
      if window > |contents| {
        wanted := |contents|;
        capacity := wanted;
      }
      bufferLength := capacity;
      length := wanted;
      data := new byte[capacity];
      new;
      Read();
    }

    ghost function View(): (w: Window)
      requires Valid()
      reads this, data
      ensures Sits(file, w) && |w.data| == bufferLength
    {
      Window(data[..], offset, length)
    }

    /** `fread` of `length` bytes from `offset`. */
    method Read()
      requires 0 <= offset && 0 <= length <= data.Length && offset + length <= |file|
      modifies data
      ensures data[..length] == file[offset..offset + length] && data[length..] == old(data[length..])
    {
      forall i | 0 <= i < length {
        data[i] := file[offset + i];
      }
    }

    /** The read pointer `p` stands for `n` bytes of the file from `at` on. */
    ghost predicate Holds(p: int, at: int, n: int)
      reads data
    {
      && 0 <= p && 0 <= n && p + n <= data.Length && 0 <= at && at + n <= |file|
      && data[p..p + n] == file[at..at + n]
    }

    function Bytes(p: int, ghost at: int, n: int): (bytes: seq<byte>)
      requires Holds(p, at, n)
      reads data
      ensures bytes == file[at..at + n]
    {
      data[p..p + n]
    }

    function Byte(p: int, ghost at: int, ghost n: int, i: int): (b: byte)
      requires Holds(p, at, n) && 0 <= i < n
      reads data
      ensures b == file[at + i]
    {
      assert data[p + i] == data[p..p + n][i];
      data[p + i]
    }

    /** How many of `want` bytes at `at` a mapping can hold. */
    ghost function Mapped(at: int, want: int): int
      reads this
    {
      Min(want, Min(bufferLength, |file| - at))
    }

    /** A stretch of the window stands for the file's bytes there. */
    lemma InWindow(at: int, n: int)
      requires Valid() && offset <= at && 0 <= n && at + n <= offset + length
      ensures Holds(at - offset, at, n)
    {
      SliceOfWindow(data[..], file, offset, length, at - offset, n);
    }

    /**
     The position in `data` of the file's bytes from `at` on, or -1 for the
     source's NULL. `offset + length` is computed in 32 bits without overflow.
     A request that reaches the end of the file is always read again, to the
     start of the buffer; what it does not fill stays as it was.
    */
    method MapFileContent(at: int32, want: int32) returns (p: int)
      requires Valid() && 0 <= at && 0 <= want && at + want < TWO31
      modifies this, data
      ensures Valid() && bufferLength == old(bufferLength)
      ensures p == -1 <==> at > |file|
      ensures at <= |file| ==> Holds(p, at, Mapped(at, want))
      ensures at <= |file| ==> View() == Moved(file, old(View()), at, want) && p == at - offset
    {
      hide Holds;
      if at > |file| {
        return -1;
      }
      var wantedEnd: int32 := at + want;
      var windowEnd: int32 := length + offset;
      if at >= offset && wantedEnd < windowEnd {
        InWindow(at, want);
        return at - offset;
      }
      Refill(at);
      InWindow(at, Mapped(at, want));
      return 0;
    }

    /** Moves the window to `at`. */
    method Refill(at: int32)
      requires Valid() && 0 <= at <= |file|
      modifies this, data
      ensures Valid() && bufferLength == old(bufferLength)
      ensures offset == at && length == Min(bufferLength, |file| - at)
      ensures data[..length] == file[at..at + length] && data[length..] == old(data[..])[length..]
      ensures View() == Window(file[at..at + length] + old(data[..])[length..], at, length)
    {
      offset := at;
      length := bufferLength;
      var end: int32 := length + offset;
      if end > |file| {
        length := |file| - offset;
      }
      Read();
      assert data[..] == data[..length] + data[length..];
    }
  }
}

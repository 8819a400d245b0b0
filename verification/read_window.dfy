/** Reading inside a file through a window at least as long as the request. */
module ReadWindows {
  import opened Bytes
  import opened Chunks
  import opened FileMaps

  /** A read window large enough for a chunk. */
  ghost predicate Reads(p: Params, reader: FileMap)
    reads reader, reader.data
    ensures Reads(p, reader) ==> p.Valid() && |reader.file| + p.window < TWO31
  {
    p.Valid() && reader.Valid() && reader.bufferLength == Min(p.window, |reader.file|)
    && |reader.file| + p.window < TWO31
  }

  /** The read window is `w`. */
  ghost predicate Stands(p: Params, reader: FileMap, w: Window)
    reads reader, reader.data
    ensures Stands(p, reader, w) ==>
      Reads(p, reader) && Sits(reader.file, w) && |w.data| == Min(p.window, |reader.file|)
  {
    Reads(p, reader) && reader.View() == w
  }

  /** What a newly opened read window over a file can be. */
  ghost predicate Opened(p: Params, file: seq<byte>, w: Window) {
    Sits(file, w) && |w.data| == Min(p.window, |file|) && w.offset == 0
    && (|file| < p.window ==> w == Window(file, 0, |file|))
  }

  /** A window just opened is large enough. */
  lemma OpenReads(p: Params, reader: FileMap)
    requires p.Valid() && reader.Valid() && reader.bufferLength == Min(p.window, |reader.file|)
    requires |reader.file| + p.window < TWO31
    ensures Reads(p, reader)
  {
  }

  lemma JustOpened(p: Params, reader: FileMap)
    requires p.Valid() && reader.Valid() && reader.bufferLength == Min(p.window, |reader.file|)
    requires |reader.file| + p.window < TWO31 && reader.offset == 0
    requires |reader.file| < p.window ==> reader.View() == Window(reader.file, 0, |reader.file|)
    ensures Stands(p, reader, reader.View()) && Opened(p, reader.file, reader.View())
    ensures |reader.file| < p.window ==> reader.View() == Window(reader.file, 0, |reader.file|)
  {
    hide Sits;
  }

  /** What a request up to the end of the file leaves in the buffer. */
  lemma MovedToEnd(file: seq<byte>, w: Window, at: int, want: int)
    requires Sits(file, w) && 0 <= at <= |file| <= at + want && |file| - at <= |w.data|
    ensures var n, moved := |file| - at, Moved(file, w, at, want);
            && moved.offset == at && |moved.data| == |w.data|
            && moved.data[..n] == file[at..] && moved.data[n..] == w.data[n..]
  {
  }

  method MapRange(p: Params, reader: FileMap, at: int, want: int) returns (buf: int)
    requires Reads(p, reader) && 0 <= at && 0 <= want <= p.window && at + want <= |reader.file|
    modifies reader, reader.data
    ensures Reads(p, reader) && reader.Holds(buf, at, want)
    ensures old(reader.Valid()) && reader.Valid()
    ensures reader.View() == Moved(reader.file, old(reader.View()), at, want)
    ensures at + want == |reader.file| ==>
      buf == 0 && want <= reader.data.Length && reader.data[want..] == old(reader.data[want..])
  {
    ghost var before := reader.View();
    buf := reader.MapFileContent(at, want);
    if at + want == |reader.file| {
      MovedToEnd(reader.file, before, at, want);
    }
  }

  /** A request up to the end of the file or beyond it: the rest of the file, and behind it what the buffer held. */
  method MapEnd(p: Params, reader: FileMap, at: int, want: int) returns (buf: int)
    requires Reads(p, reader) && 0 <= at <= |reader.file| <= at + want && 0 <= want <= p.window
    modifies reader, reader.data
    ensures Reads(p, reader) && buf == 0 && |reader.file| - at <= reader.data.Length
    ensures reader.data[..|reader.file| - at] == reader.file[at..]
    ensures reader.data[|reader.file| - at..] == old(reader.data[|reader.file| - at..])
  {
    MovedToEnd(reader.file, reader.View(), at, want);
    buf := reader.MapFileContent(at, want);
  }

  /** The mapped bytes as a value. */
  method ReadRange(p: Params, reader: FileMap, at: int, want: int) returns (bytes: seq<byte>)
    requires Reads(p, reader) && 0 <= at && 0 <= want <= p.window && at + want <= |reader.file|
    modifies reader, reader.data
    ensures Reads(p, reader) && bytes == reader.file[at..at + want]
  {
    var buf := MapRange(p, reader, at, want);
    bytes := reader.Bytes(buf, at, want);
  }

  /** Four mapped bytes through `ntohl`. */
  method ReadWord(p: Params, reader: FileMap, at: int) returns (word: uint32)
    requires Reads(p, reader) && 0 <= at && at + 4 <= |reader.file|
    modifies reader, reader.data
    ensures Reads(p, reader) && word == FromBe32(reader.file[at..])
  {
    var bytes := ReadRange(p, reader, at, 4);
    assert forall i :: 0 <= i < 4 ==> bytes[i] == reader.file[at..][i];
    word := FromBe32(bytes);
  }
}

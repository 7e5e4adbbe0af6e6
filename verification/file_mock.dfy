/** `FileMock`, the in-memory file the probes are tested against: a byte
    buffer that reads consume from the front, a configurable error, a
    configurable byte count for writes and copies, and an open flag.
    `FileWrapper`, which forwards to the operating system, is not part of
    this model. */
module FileMock {
  import opened Wrappers
  import opened Strings

  type byte = bv8

  const EOF: string := "EOF"
  /** `os.ErrClosed` and `os.ErrInvalid`. */
  const ErrClosed: string := "file already closed"
  const ErrInvalid: string := "invalid argument"
  const InvalidWhence: string := "invalid whence"

  datatype FileMock = FileMock(
    fileName: string,
    isOpen: bool,
    buffer: seq<byte>,
    bytes: int,
    err: Option<string>,
    fileInfo: Option<FileInfoMock>)

  /** `FileInfoMock`: describes the file it points to. */
  datatype FileInfoMock = FileInfoMock(file: FileMock)

  /** `FileInfoMock.Size`: the length of the described file's buffer. */
  function Size(info: FileInfoMock): (n: int)
    ensures n == |info.file.buffer|
  {
    |info.file.buffer|
  }

  /** What `Read` leaves behind: the file, the count, the error, and the
      caller's slice after the copy into it. */
  datatype ReadResult = ReadResult(file: FileMock, n: int, err: Option<string>, data: seq<byte>)

  /** `Read`: a set error is returned at once; an empty buffer gives EOF;
      otherwise as many bytes as fit in `p` move from the front of the
      buffer into `p`. */
  function Read(f: FileMock, p: seq<byte>): (r: ReadResult)
    ensures |r.data| == |p|
    ensures f.err.Some? ==> r == ReadResult(f, 0, f.err, p)
    ensures f.err.None? && |f.buffer| == 0 ==> r == ReadResult(f, 0, Some(EOF), p)
    ensures f.err.None? && |f.buffer| > 0 ==>
      && r.err.None?
      && r.n == (if |p| < |f.buffer| then |p| else |f.buffer|)
      && r.data[..r.n] + r.file.buffer == f.buffer
      && r.data[r.n..] == p[r.n..]
      && r.file == f.(buffer := f.buffer[r.n..])
  {
    if f.err.Some? then ReadResult(f, 0, f.err, p)
    else if |f.buffer| == 0 then ReadResult(f, 0, Some(EOF), p)
    else
      var n := if |p| < |f.buffer| then |p| else |f.buffer|;
      var data := f.buffer[..n] + p[n..];
      assert data[..n] + f.buffer[n..] == f.buffer;
      ReadResult(f.(buffer := f.buffer[n..]), n, None, data)
  }

  /** Reading the whole buffer in two reads yields the same bytes as
      reading it in one. */
  lemma ReadInTwo(f: FileMock, p: seq<byte>, q: seq<byte>)
    requires f.err.None? && |p| + |q| == |f.buffer| && |p| > 0 && |q| > 0
    ensures var r1 := Read(f, p); var r2 := Read(r1.file, q);
      r1.data + r2.data == Read(f, p + q).data && |r2.file.buffer| == 0
  {
    var r1 := Read(f, p);
    var r2 := Read(r1.file, q);
    assert r1.data == f.buffer[..|p|];
    assert r2.data == f.buffer[|p|..];
    assert f.buffer[..|p|] + f.buffer[|p|..] == f.buffer;
  }

  /** `Write`: the data is ignored; the configured count and error come
      back. */
  function Write(f: FileMock, p: seq<byte>): (r: (int, Option<string>))
    ensures r == (f.bytes, f.err)
  {
    (f.bytes, f.err)
  }

  /** Whatever is written, the outcome is the same. */
  lemma WriteIgnoresData(f: FileMock, p: seq<byte>, q: seq<byte>)
    ensures Write(f, p) == Write(f, q)
  {
  }

  /** `Close`, with `None` for a nil mock: an open file becomes closed and
      the configured error is returned; closing a closed file reports
      `os.ErrClosed` and changes nothing. */
  function Close(f: Option<FileMock>): (r: (Option<FileMock>, Option<string>))
    ensures f.None? ==> r == (None, Some(ErrInvalid))
    ensures f.Some? && f.value.isOpen ==> r == (Some(f.value.(isOpen := false)), f.value.err)
    ensures f.Some? && !f.value.isOpen ==> r == (f, Some(ErrClosed))
  {
    match f
    case None => (None, Some(ErrInvalid))
    case Some(m) => if m.isOpen then (Some(m.(isOpen := false)), m.err) else (f, Some(ErrClosed))
  }

  /** Closing twice: the second close reports `os.ErrClosed` and leaves
      the file as the first close left it. */
  lemma CloseTwice(f: FileMock)
    ensures var (g, _) := Close(Some(f)); Close(g) == (g, Some(ErrClosed))
  {
  }

  /** What `Seek` produces as written: the file, the new position and an
      error, or a run-time panic (an out-of-range slice). */
  datatype SeekOutcome = Sought(file: FileMock, pos: int, err: Option<string>) | Panic

  /** `Seek` exactly as written, with the 64-bit negation of `offset` in
      the whence-2 guard. */
  function SeekAsWritten(f: FileMock, offset: int, whence: int): (r: SeekOutcome)
    requires MinInt64 <= offset <= MaxInt64
    ensures r.Panic? <==> f.err.None? && whence == 2 && offset == MinInt64 && |f.buffer| <= MaxInt64
    ensures r.Sought? && r.err.None? ==> r.pos == |r.file.buffer| && r.file == f.(buffer := r.file.buffer)
  {
    if f.err.Some? then Sought(f, 0, f.err)
    else if whence == 0 || whence == 1 then
      if offset < 0 || offset > |f.buffer| then Sought(f, 0, Some(EOF))
      else Sought(f.(buffer := f.buffer[offset..]), |f.buffer| - offset, None)
    else if whence == 2 then
      if offset > 0 || WrapInt64(-offset) > |f.buffer| then Sought(f, 0, Some(EOF))
      else if |f.buffer| + offset < 0 then Panic
      else Sought(f.(buffer := f.buffer[..|f.buffer| + offset]), |f.buffer| + offset, None)
    else Sought(f, 0, Some(InvalidWhence))
  }

  /** The smallest 64-bit offset is its own negation, so it passes the
      guard and the slice below it panics. */
  lemma SeekMinOffsetPanics(f: FileMock)
    requires f.err.None? && |f.buffer| <= MaxInt64
    ensures SeekAsWritten(f, MinInt64, 2) == Panic
  {
    assert WrapInt64(-MinInt64) == MinInt64;
  }

  /** `Seek` as evidently intended: an offset below minus the length is out
      of range and gives EOF, like any other. Seeking from the start or
      from the current position drops the first `offset` bytes; seeking
      from the end keeps the first `len + offset`. */
  function Seek(f: FileMock, offset: int, whence: int): (r: (FileMock, int, Option<string>))
    requires MinInt64 <= offset <= MaxInt64
    ensures r.2.Some? ==> r.0 == f && r.1 == 0
    ensures f.err.Some? ==> r.2 == f.err
    ensures f.err.None? && whence != 0 && whence != 1 && whence != 2 ==> r.2 == Some(InvalidWhence)
    ensures f.err.None? && (whence == 0 || whence == 1) ==>
      (r.2.None? <==> 0 <= offset <= |f.buffer|) && (r.2.Some? ==> r.2 == Some(EOF))
    ensures f.err.None? && whence == 2 ==>
      (r.2.None? <==> -|f.buffer| <= offset <= 0) && (r.2.Some? ==> r.2 == Some(EOF))
    ensures r.2.None? ==> r.1 == |r.0.buffer| && r.0 == f.(buffer := r.0.buffer)
    ensures r.2.None? && whence != 2 ==> r.0.buffer == f.buffer[offset..]
    ensures r.2.None? && whence == 2 ==> r.0.buffer == f.buffer[..|f.buffer| + offset]
  {
    if f.err.Some? then (f, 0, f.err)
    else if whence == 0 || whence == 1 then
      if offset < 0 || offset > |f.buffer| then (f, 0, Some(EOF))
      else (f.(buffer := f.buffer[offset..]), |f.buffer| - offset, None)
    else if whence == 2 then
      if offset > 0 || -offset > |f.buffer| then (f, 0, Some(EOF))
      else (f.(buffer := f.buffer[..|f.buffer| + offset]), |f.buffer| + offset, None)
    else (f, 0, Some(InvalidWhence))
  }

  /** Outside the one offset the guard misses, the code as written and the
      corrected `Seek` agree. */
  lemma SeekAgrees(f: FileMock, offset: int, whence: int)
    requires MinInt64 < offset <= MaxInt64
    ensures SeekAsWritten(f, offset, whence) == Sought(Seek(f, offset, whence).0, Seek(f, offset, whence).1, Seek(f, offset, whence).2)
  {
  }

  /** Two seeks forward from the start amount to one seek by their sum. */
  lemma SeekForwardTwice(f: FileMock, a: int, b: int)
    requires f.err.None? && 0 <= a && 0 <= b && a + b <= |f.buffer| && a + b <= MaxInt64
    ensures Seek(Seek(f, a, 0).0, b, 0).0 == Seek(f, a + b, 0).0
  {
    assert f.buffer[a..][b..] == f.buffer[a + b..];
  }

  /** After seeking forward by `k`, a read returns the bytes from `k` on. */
  lemma ReadAfterSeek(f: FileMock, k: int, p: seq<byte>)
    requires f.err.None? && 0 <= k < |f.buffer| && k <= MaxInt64 && |p| > 0
    ensures var g := Seek(f, k, 0).0; var r := Read(g, p);
      r.data[..r.n] == f.buffer[k..k + r.n]
  {
    var g := Seek(f, k, 0).0;
    var r := Read(g, p);
    assert g.buffer == f.buffer[k..];
    assert r.data[..r.n] == g.buffer[..r.n];
  }

  /** `Copy`: a zero-length read from the source and then from the
      destination (not a write); the first error wins; otherwise the
      configured count and error. The zero-length reads move no bytes. */
  function Copy(f: FileMock, source: FileMock, destination: FileMock): (r: (int, Option<string>))
    ensures source.err.Some? ==> r == (0, source.err)
    ensures source.err.None? && |source.buffer| == 0 ==> r == (0, Some(EOF))
    ensures source.err.None? && |source.buffer| > 0 && destination.err.Some? ==> r == (0, destination.err)
    ensures source.err.None? && |source.buffer| > 0 && destination.err.None? && |destination.buffer| == 0 ==> r == (0, Some(EOF))
    ensures source.err.None? && |source.buffer| > 0 && destination.err.None? && |destination.buffer| > 0 ==> r == (f.bytes, f.err)
  {
    var fromSource := Read(source, []);
    if fromSource.err.Some? then (0, fromSource.err)
    else
      var fromDestination := Read(destination, []);
      if fromDestination.err.Some? then (0, fromDestination.err)
      else (f.bytes, f.err)
  }

  /** A zero-length read never changes the file. */
  lemma EmptyReadKeepsFile(f: FileMock)
    ensures Read(f, []).file == f && Read(f, []).n == 0
  {
  }

  /** `Stat`: the configured file information and error. */
  function Stat(f: FileMock): (r: (Option<FileInfoMock>, Option<string>))
    ensures r == (f.fileInfo, f.err)
  {
    (f.fileInfo, f.err)
  }

  /** `ReadDir`: no entries, and the configured error; the path is
      ignored. */
  function ReadDir(f: FileMock, path: string): (r: (seq<string>, Option<string>))
    ensures r.0 == [] && r.1 == f.err
  {
    ([], f.err)
  }
}

/**
 * `print_ascii` (main.c, lines 49-113): the rest of the file as a C
 * string literal, either on one line or as one quoted segment per line.
 * Each read refills a zero-cleared buffer of `BUFSIZ` bytes, which is then
 * walked up to its first zero byte; newline bytes are written as the two
 * characters `\n`, every other byte unchanged.
 */
module AsciiRenderer {
  import opened Bytes

  // ----- One chunk: the walk of `while (*ptr)`

  /** What the walk prints for byte i of the walked bytes w, with the current `startline` flag. */
  function Piece(w: seq<byte>, i: nat, multiline: bool, startline: bool): string
    requires i < |w|
  {
    var last := i + 1 == |w|;
    if w[i] == NL then
      "\\n" + (if multiline then (if last then "\\0\";" else "\"\n") else (if last then "\";\n" else ""))
    else
      (if startline then "\"" else "") + [Char(w[i])]
  }

  /** The `startline` flag after byte i: set by a newline that does not end a multi-line chunk, cleared by any other byte. */
  function NextStartline(w: seq<byte>, i: nat, multiline: bool, startline: bool): bool
    requires i < |w|
  {
    if w[i] == NL then (if multiline && i + 1 != |w| then true else startline) else false
  }

  /** Everything the walk prints from byte i of w on. */
  function WalkFrom(w: seq<byte>, i: nat, multiline: bool, startline: bool): string
    requires i <= |w|
    decreases |w| - i
  {
    if i == |w| then ""
    else Piece(w, i, multiline, startline) + WalkFrom(w, i + 1, multiline, NextStartline(w, i, multiline, startline))
  }

  /** One chunk whose walked bytes are w: the opening quote of a multi-line chunk unless `bigfile` is set, then the walk. */
  function ChunkText(w: seq<byte>, multiline: bool, bigfile: bool): string {
    (if !bigfile && multiline then "\"" else "") + WalkFrom(w, 0, multiline, false)
  }

  /** `bigfile` after a read of chunk: set when the read did not reach EOF and the walk covered at least `BUFSIZ - 2` bytes. */
  function NextBigfile(chunk: Read, size: nat, bigfile: bool): bool {
    bigfile || (!chunk.eof && |UntilNul(chunk.bytes)| >= size - 2)
  }

  /**
   * Everything the loop `while (!feof(fp))` prints from stream offset pos on,
   * with `bigfile` and the EOF indicator as they are on entry.
   */
  function AsciiChunks(data: seq<byte>, pos: nat, size: nat, multiline: bool, bigfile: bool, eof: bool): string
    requires pos <= |data| && size > 0
    decreases |data| - pos, if eof then 0 else 1
  {
    if eof then ""
    else
      var r := Fread(data, pos, size);
      ChunkText(UntilNul(r.bytes), multiline, bigfile)
        + AsciiChunks(data, pos + |r.bytes|, size, multiline, NextBigfile(r, size, bigfile), r.eof)
  }

  function AsciiHeader(varType: string, varName: string, multiline: bool): string {
    varType + " " + varName + " = " + (if multiline then "\n" else "\"")
  }

  /**
   * Everything `print_ascii` writes for a stream whose remaining contents
   * are data and whose EOF indicator is eof0 on entry (set when skipping
   * lines already ran into the end of the file).
   */
  function AsciiText(varType: string, varName: string, data: seq<byte>, size: nat, multiline: bool, eof0: bool): string
    requires size > 0
  {
    AsciiHeader(varType, varName, multiline) + AsciiChunks(data, 0, size, multiline, false, eof0)
  }

  // ----- The imperative renderer

  /**
   * `print_ascii` with `buf` as the global buffer of `BUFSIZ` bytes
   * (buf.Length).  The buffer's final contents are whatever the last read
   * left in it.
   */
  method PrintAscii(varType: string, varName: string, data: seq<byte>, multiline: bool, eof0: bool, buf: array<byte>)
    returns (out: string)
    requires buf.Length > 0
    modifies buf
    ensures out == AsciiText(varType, varName, data, buf.Length, multiline, eof0)
  {
    out := varType + " " + varName + " = ";
    if multiline {
      out := out + "\n";
    } else {
      out := out + "\"";
    }
    var text := ChunkLoop(data, multiline, eof0, buf);
    out := out + text;
  }

  /** The loop `while (!feof(fp))` of `print_ascii`, with `bigfile` carried across chunks. */
  method ChunkLoop(data: seq<byte>, multiline: bool, eof0: bool, buf: array<byte>) returns (out: string)
    requires buf.Length > 0
    modifies buf
    ensures out == AsciiChunks(data, 0, buf.Length, multiline, false, eof0)
  {
    ghost var total := AsciiChunks(data, 0, buf.Length, multiline, false, eof0);
    out := "";
    var pos := 0;
    var eof := eof0;
    var bigfile := false;
    assert out + total == total;
    while !eof
      invariant pos <= |data|
      invariant out + AsciiChunks(data, pos, buf.Length, multiline, bigfile, eof) == total
      decreases |data| - pos, if eof then 0 else 1
    {
      out, pos, eof, bigfile := ChunkPass(data, multiline, total, out, pos, bigfile, buf);
    }
    assert out + "" == out;
  }

  /**
   * One pass of the loop appended to what the loop printed so far: the
   * chunks still to come after it are the rest of total.
   */
  method ChunkPass(data: seq<byte>, multiline: bool, ghost total: string,
                   out: string, pos: nat, bigfile: bool, buf: array<byte>)
    returns (out': string, next: nat, eof: bool, bigfile': bool)
    requires pos <= |data| && buf.Length > 0
    requires out + AsciiChunks(data, pos, buf.Length, multiline, bigfile, false) == total
    modifies buf
    ensures pos <= next <= |data| && (next == pos ==> eof)
    ensures out' + AsciiChunks(data, next, buf.Length, multiline, bigfile', eof) == total
  {
    var text;
    ChunksStep(data, pos, buf.Length, multiline, bigfile);
    text, next, eof, bigfile' := PrintChunk(data, pos, multiline, bigfile, buf);
    ghost var rest := AsciiChunks(data, next, buf.Length, multiline, bigfile', eof);
    assert out + (text + rest) == (out + text) + rest;
    out' := out + text;
  }

  /**
   * One pass of the chunk loop: clear the buffer, read into it, print the
   * opening quote if due and the walk, and update `bigfile`.  Stated as one
   * step of AsciiChunks.
   */
  method PrintChunk(data: seq<byte>, pos: nat, multiline: bool, bigfile: bool, buf: array<byte>)
    returns (text: string, next: nat, eof: bool, bigfile': bool)
    requires pos <= |data| && buf.Length > 0
    modifies buf
    ensures var r := Fread(data, pos, buf.Length);
      && next == pos + |r.bytes| && eof == r.eof
      && text == ChunkText(UntilNul(r.bytes), multiline, bigfile)
      && bigfile' == NextBigfile(r, buf.Length, bigfile)
  {
    var n, walk, ptr;
    n, eof := ClearAndRead(buf, data, pos);
    text := "";
    if !bigfile && multiline {
      text := "\"";
    }
    walk, ptr := PrintWalk(buf, multiline);
    text := text + walk;
    bigfile' := bigfile;
    if !eof && ptr >= buf.Length - 2 {
      bigfile' := true;
    }
    next := pos + n;
  }

  /**
   * `memset(buf, 0, BUFSIZ)` followed by `fread(buf, 1, BUFSIZ, fp)`: the
   * buffer holds the bytes read, then zeros, so its C string is that of the
   * bytes read.
   */
  method ClearAndRead(buf: array<byte>, data: seq<byte>, pos: nat) returns (n: nat, eof: bool)
    requires pos <= |data|
    modifies buf
    ensures n == |Fread(data, pos, buf.Length).bytes| && eof == Fread(data, pos, buf.Length).eof
    ensures buf[..n] == Fread(data, pos, buf.Length).bytes
    ensures forall i :: n <= i < buf.Length ==> buf[i] == NUL
    ensures UntilNul(buf[..]) == UntilNul(Fread(data, pos, buf.Length).bytes)
  {
    forall i | 0 <= i < buf.Length {
      buf[i] := NUL;
    }
    ghost var cleared := buf[..];
    n, eof := FreadInto(buf, data, pos);
    assert buf[n..] == cleared[n..];
    assert forall i :: n <= i < buf.Length ==> buf[i] == buf[n..][i - n];
    BufferHoldsRead(buf[..], Fread(data, pos, buf.Length).bytes);
  }

  /** One step of AsciiChunks: the chunk at pos, then the chunks after it. */
  lemma ChunksStep(data: seq<byte>, pos: nat, size: nat, multiline: bool, bigfile: bool)
    requires pos <= |data| && size > 0
    ensures var r := Fread(data, pos, size);
      AsciiChunks(data, pos, size, multiline, bigfile, false)
      == ChunkText(UntilNul(r.bytes), multiline, bigfile)
         + AsciiChunks(data, pos + |r.bytes|, size, multiline, NextBigfile(r, size, bigfile), r.eof)
  {
  }

  /** After `memset` and `fread`, the buffer is the bytes read followed by zeros, so its C string is theirs. */
  lemma BufferHoldsRead(b: seq<byte>, bytes: seq<byte>)
    requires |bytes| <= |b| && b[..|bytes|] == bytes
    requires forall i :: |bytes| <= i < |b| ==> b[i] == NUL
    ensures UntilNul(b) == UntilNul(bytes) && NulIndex(b) == NulIndex(bytes)
  {
    var pad := b[|bytes|..];
    assert b == bytes + pad;
    UntilNulPadded(bytes, pad);
  }

  /**
   * The walk `while (*ptr)` over the buffer: returns what it prints and the
   * final offset `ptr - buf`, which is the length of the buffer's C string.
   * The test `ptr[1] == '\0'` is taken to hold at the last byte of the
   * buffer, as if a zero byte followed it.
   */
  method PrintWalk(buf: array<byte>, multiline: bool) returns (text: string, ptr: nat)
    ensures text == WalkFrom(UntilNul(buf[..]), 0, multiline, false)
    ensures ptr == |UntilNul(buf[..])|
  {
    ghost var w := UntilNul(buf[..]);
    text, ptr := "", 0;
    var startline := false;
    NulGuard(buf[..], 0);
    while ptr < buf.Length && buf[ptr] != NUL
      invariant ptr <= |w|
      invariant ptr < |w| <==> (ptr < buf.Length && buf[ptr] != NUL)
      invariant text + WalkFrom(w, ptr, multiline, startline) == WalkFrom(w, 0, multiline, false)
    {
      var piece, startline' := WalkStep(buf, ptr, multiline, startline);
      ghost var rest := WalkFrom(w, ptr + 1, multiline, startline');
      assert text + (piece + rest) == (text + piece) + rest;
      text := text + piece;
      startline := startline';
      ptr := ptr + 1;
      NulGuard(buf[..], ptr);
    }
  }

  /** The body of the walk for the byte at ptr, as main.c writes it. */
  method WalkStep(buf: array<byte>, ptr: nat, multiline: bool, startline: bool)
    returns (piece: string, startline': bool)
    requires ptr < NulIndex(buf[..])
    ensures piece == Piece(UntilNul(buf[..]), ptr, multiline, startline)
    ensures startline' == NextStartline(UntilNul(buf[..]), ptr, multiline, startline)
  {
    ghost var w := UntilNul(buf[..]);
    assert w[ptr] == buf[ptr];
    NulGuard(buf[..], ptr + 1);
    piece, startline' := "", startline;
    var atEnd := ptr + 1 == buf.Length || buf[ptr + 1] == NUL;
    assert atEnd <==> ptr + 1 == |w|;
    if buf[ptr] == NL {
      piece := "\\n";
      if multiline {
        if atEnd {
          piece := piece + "\\0\";";
        } else {
          piece := piece + "\"";
          if atEnd {
            piece := piece + ";";
          }
          piece := piece + "\n";
          startline' := true;
        }
      } else {
        if atEnd {
          piece := piece + "\";\n";
        }
      }
    } else {
      if startline {
        piece := "\"";
        startline' := false;
      }
      piece := piece + [Char(buf[ptr])];
    }
  }
}

/**
 * What the text `print_ascii` writes means: the escaping of newlines, where
 * the single-line literal is closed, how the multi-line layout quotes each
 * line, and that the `;` of the branch that cannot be taken never appears.
 */
module AsciiLayout {
  import opened Bytes
  import opened AsciiRenderer

  // ----- Escaping

  /** A newline byte is written as the two characters `\n`, any other byte unchanged. */
  function EscapeByte(b: byte): (s: string)
    ensures b == NL ==> s == "\\n"
    ensures b != NL ==> s == [Char(b)]
  {
    if b == NL then "\\n" else [Char(b)]
  }

  /** The escaped text of the bytes w[i..j]. */
  function EscapeRange(w: seq<byte>, i: nat, j: nat): string
    requires i <= j <= |w|
    decreases j - i
  {
    if i == j then "" else EscapeByte(w[i]) + EscapeRange(w, i + 1, j)
  }

  /** The code of a character as a byte (characters written by the renderer all come from bytes). */
  function CharByte(c: char): (b: byte)
    ensures c as int < 256 ==> b as int == c as int
  {
    (c as int % 256) as byte
  }

  /**
   * Undoing the renderer's escaping: `\n` is read as a newline and every
   * other character as its byte.  This is how a C compiler reads the body of
   * a literal only when it holds no `"` and no other `\`: a data byte `"`
   * that the renderer copies unchanged ends the literal instead.
   */
  function Unescape(s: string): seq<byte>
    decreases |s|
  {
    if s == [] then []
    else if |s| >= 2 && s[0] == '\\' && s[1] == 'n' then [NL] + Unescape(s[2..])
    else [CharByte(s[0])] + Unescape(s[1..])
  }

  const Backslash: byte := 0x5C

  /**
   * Escaping loses nothing: as long as the data holds no backslash, undoing
   * the `\n` escapes gives the original bytes.
   */
  lemma {:induction false} UnescapeEscape(w: seq<byte>, i: nat, j: nat)
    requires i <= j <= |w|
    requires forall k :: i <= k < j ==> w[k] != Backslash
    ensures Unescape(EscapeRange(w, i, j)) == w[i..j]
    decreases j - i
  {
    if i < j {
      UnescapeEscape(w, i + 1, j);
      UnescapeStep(w[i], EscapeRange(w, i + 1, j));
      assert w[i..j] == [w[i]] + w[i + 1..j];
    } else {
      assert w[i..j] == [];
    }
  }

  /** Reading back the escaped text of one byte followed by more text. */
  lemma UnescapeStep(b: byte, rest: string)
    requires b != Backslash
    ensures Unescape(EscapeByte(b) + rest) == [b] + Unescape(rest)
  {
    var s := EscapeByte(b) + rest;
    if b == NL {
      assert s[0] == '\\' && s[1] == 'n' && s[2..] == rest;
    } else {
      assert s[0] == Char(b) && s[0] != '\\' && s[1..] == rest;
    }
  }

  // ----- One step of the walk

  /** A byte other than a newline: the pending quote, then the byte; the flag is spent. */
  lemma WalkPlain(w: seq<byte>, i: nat, multiline: bool, startline: bool)
    requires i < |w| && w[i] != NL
    ensures WalkFrom(w, i, multiline, startline)
      == (if startline then "\"" else "") + (EscapeByte(w[i]) + WalkFrom(w, i + 1, multiline, false))
  {
    var q := if startline then "\"" else "";
    var t := WalkFrom(w, i + 1, multiline, false);
    WalkUnfold(w, i, multiline, startline);
    PiecePlain(w, i, multiline, startline);
    Associate(q, EscapeByte(w[i]), t);
  }

  lemma WalkUnfold(w: seq<byte>, i: nat, multiline: bool, startline: bool)
    requires i < |w|
    ensures WalkFrom(w, i, multiline, startline)
      == Piece(w, i, multiline, startline) + WalkFrom(w, i + 1, multiline, NextStartline(w, i, multiline, startline))
  {
  }

  lemma PiecePlain(w: seq<byte>, i: nat, multiline: bool, startline: bool)
    requires i < |w| && w[i] != NL
    ensures Piece(w, i, multiline, startline) == (if startline then "\"" else "") + EscapeByte(w[i])
    ensures !NextStartline(w, i, multiline, startline)
  {
  }

  /** A newline in single-line mode: `\n`, followed by `";` and a line break when it is last. */
  lemma WalkNewlineSingle(w: seq<byte>, i: nat, startline: bool)
    requires i < |w| && w[i] == NL
    ensures WalkFrom(w, i, false, startline)
      == "\\n" + (if i + 1 == |w| then "\";\n" else "") + WalkFrom(w, i + 1, false, startline)
  {
    assert NextStartline(w, i, false, startline) == startline;
  }

  /** A newline in multi-line mode: `\n\0";` when it is last, otherwise `\n"`, a line break, and a quote pending. */
  lemma WalkNewlineMulti(w: seq<byte>, i: nat, startline: bool)
    requires i < |w| && w[i] == NL
    ensures i + 1 == |w| ==> WalkFrom(w, i, true, startline) == "\\n\\0\";"
    ensures i + 1 < |w| ==> WalkFrom(w, i, true, startline) == "\\n\"\n" + WalkFrom(w, i + 1, true, true)
  {
    if i + 1 == |w| {
      AppendEmpty(Piece(w, i, true, startline));
    }
  }

  // ----- Single-line layout

  /**
   * In single-line mode the walk prints the escaped bytes, and closes the
   * literal with `";` and a line break only when the last byte is a
   * newline; text that does not end in a newline is left open.
   */
  lemma SingleLineWalk(w: seq<byte>, i: nat)
    requires i <= |w|
    ensures WalkFrom(w, i, false, false)
      == EscapeRange(w, i, |w|) + (if i < |w| && w[|w| - 1] == NL then "\";\n" else "")
  {
    if i < |w| {
      var last := |w| - 1;
      var close := if w[last] == NL then "\";\n" else "";
      var e := EscapeRange(w, i, last);
      var b := EscapeByte(w[last]);
      SingleLineRun(w, i, last);
      SingleLineStep(w, last);
      AppendEmpty(b + close);
      EscapeRangeSnoc(w, i, last);
      Associate(e, b, close);
    } else {
      AppendEmpty("");
    }
  }

  /** Before the last byte, the single-line walk prints the escaped bytes and nothing else. */
  lemma {:induction false} SingleLineRun(w: seq<byte>, i: nat, j: nat)
    requires i <= j < |w|
    ensures WalkFrom(w, i, false, false) == EscapeRange(w, i, j) + WalkFrom(w, j, false, false)
    decreases j - i
  {
    if i < j {
      var e := EscapeByte(w[i]);
      var rest := EscapeRange(w, i + 1, j);
      var t := WalkFrom(w, j, false, false);
      SingleLineRun(w, i + 1, j);
      SingleLineStep(w, i);
      AppendEmpty(e);
      Associate(e, rest, t);
    } else {
      AppendEmpty(WalkFrom(w, j, false, false));
    }
  }

  /** Escaping a range one byte longer appends that byte's escape. */
  lemma {:induction false} EscapeRangeSnoc(w: seq<byte>, i: nat, j: nat)
    requires i <= j < |w|
    ensures EscapeRange(w, i, j + 1) == EscapeRange(w, i, j) + EscapeByte(w[j])
    decreases j - i
  {
    if i < j {
      EscapeRangeSnoc(w, i + 1, j);
      Associate(EscapeByte(w[i]), EscapeRange(w, i + 1, j), EscapeByte(w[j]));
    } else {
      AppendEmpty(EscapeByte(w[j]));
    }
  }

  /** One byte of the single-line walk: its escape, and the close if it is a final newline. */
  lemma SingleLineStep(w: seq<byte>, i: nat)
    requires i < |w|
    ensures WalkFrom(w, i, false, false)
      == EscapeByte(w[i]) + (if i + 1 == |w| && w[i] == NL then "\";\n" else "") + WalkFrom(w, i + 1, false, false)
  {
    if w[i] == NL {
      WalkNewlineSingle(w, i, false);
    } else {
      var e := EscapeByte(w[i]);
      WalkPlain(w, i, false, false);
      AppendEmpty(e + WalkFrom(w, i + 1, false, false));
      AppendEmpty(e);
    }
  }

  /** A single-line chunk: no opening quote whatever `bigfile` says, the escaped bytes, and the close after a final newline. */
  lemma SingleLineChunk(w: seq<byte>, bigfile: bool)
    ensures ChunkText(w, false, bigfile)
      == EscapeRange(w, 0, |w|) + (if w != [] && w[|w| - 1] == NL then "\";\n" else "")
  {
    SingleLineWalk(w, 0);
    AppendEmpty(WalkFrom(w, 0, false, false));
  }

  /** In single-line mode the `bigfile` flag has no effect on anything printed. */
  lemma {:induction false} SingleLineIgnoresBigfile(data: seq<byte>, pos: nat, size: nat, bigfile: bool, eof: bool)
    requires pos <= |data| && size > 0
    ensures AsciiChunks(data, pos, size, false, bigfile, eof) == AsciiChunks(data, pos, size, false, false, eof)
    decreases |data| - pos, if eof then 0 else 1
  {
    if !eof {
      var r := Fread(data, pos, size);
      var next := pos + |r.bytes|;
      SingleLineIgnoresBigfile(data, next, size, NextBigfile(r, size, bigfile), r.eof);
      SingleLineIgnoresBigfile(data, next, size, NextBigfile(r, size, false), r.eof);
    }
  }

  // ----- Multi-line layout

  /**
   * A run of bytes without a newline prints as the bytes themselves,
   * preceded by an opening quote when the `startline` flag is pending; the
   * flag is then spent.
   */
  lemma {:induction false} PlainRun(w: seq<byte>, i: nat, j: nat, multiline: bool, startline: bool)
    requires i <= j <= |w|
    requires forall k :: i <= k < j ==> w[k] != NL
    ensures WalkFrom(w, i, multiline, startline)
      == (if startline && i < j then "\"" else "") + EscapeRange(w, i, j)
         + WalkFrom(w, j, multiline, startline && i == j)
    decreases j - i
  {
    if i < j {
      var q := if startline then "\"" else "";
      var c := EscapeByte(w[i]);
      var e := EscapeRange(w, i + 1, j);
      var t := WalkFrom(w, j, multiline, false);
      PlainRun(w, i + 1, j, multiline, false);
      AppendEmpty(e);
      WalkPlain(w, i, multiline, startline);
      Associate(c, e, t);
      Associate(q, c + e, t);
    } else {
      AppendEmpty("");
      AppendEmpty(WalkFrom(w, j, multiline, startline));
    }
  }

  /**
   * One line of a multi-line chunk, from offset i up to its newline at j:
   * the opening quote if the line is not empty and one is pending, the
   * escaped bytes, then either `\n\0";` when the newline ends the chunk, or
   * `\n"` and a line break, after which the next line has a quote pending.
   */
  lemma MultilineLine(w: seq<byte>, i: nat, j: nat, startline: bool)
    requires i <= j < |w| && w[j] == NL
    requires forall k :: i <= k < j ==> w[k] != NL
    ensures WalkFrom(w, i, true, startline)
      == (if startline && i < j then "\"" else "") + EscapeRange(w, i, j)
         + (if j + 1 == |w| then "\\n\\0\";" else "\\n\"\n" + WalkFrom(w, j + 1, true, true))
  {
    PlainRun(w, i, j, true, startline);
    WalkNewlineMulti(w, j, startline && i == j);
  }

  /**
   * Two newlines in a row in multi-line mode: the empty line between them
   * gets no opening quote, so its `\n"` starts outside any literal.
   */
  lemma EmptyLineUnquoted(w: seq<byte>, j: nat)
    requires j + 2 < |w| && w[j] == NL && w[j + 1] == NL
    ensures WalkFrom(w, j + 1, true, true) == "\\n\"\n" + WalkFrom(w, j + 2, true, true)
  {
    WalkNewlineMulti(w, j + 1, true);
  }

  const Semicolon: byte := 0x3B

  /**
   * The only semicolon a multi-line chunk whose bytes hold none can print is
   * the one of `\n\0";` after a final newline: the `;` of the branch at
   * lines 83-84 of main.c never appears.
   */
  lemma {:induction false} MultilineSemicolons(w: seq<byte>, i: nat, startline: bool)
    requires i <= |w|
    requires forall k :: i <= k < |w| ==> w[k] != Semicolon
    ensures CharCount(';', WalkFrom(w, i, true, startline))
      == if i < |w| && w[|w| - 1] == NL then 1 else 0
    decreases |w| - i
  {
    if i < |w| {
      var p := Piece(w, i, true, startline);
      var st := NextStartline(w, i, true, startline);
      MultilineSemicolons(w, i + 1, st);
      CharCountAppend(';', p, WalkFrom(w, i + 1, true, st));
      PieceSemicolons(w, i, startline);
    }
  }

  /** A text none of whose characters is c holds no c. */
  lemma {:induction false} CharCountNone(c: char, s: string)
    requires forall k :: 0 <= k < |s| ==> s[k] != c
    ensures CharCount(c, s) == 0
  {
    if s != [] {
      CharCountNone(c, s[1..]);
    }
  }

  /** The semicolons in the piece for byte i of a multi-line chunk. */
  lemma PieceSemicolons(w: seq<byte>, i: nat, startline: bool)
    requires i < |w| && w[i] != Semicolon
    ensures CharCount(';', Piece(w, i, true, startline)) == if w[i] == NL && i + 1 == |w| then 1 else 0
  {
    var p := Piece(w, i, true, startline);
    if w[i] == NL && i + 1 == |w| {
      assert p == "\\n\\0\"" + ";";
      CharCountAppend(';', "\\n\\0\"", ";");
      CharCountNone(';', "\\n\\0\"");
      assert ";"[1..] == "";
    } else {
      CharCountNone(';', p);
    }
  }

  // ----- Whole files

  /** A file shorter than the buffer, with no zero byte, is read in one chunk and printed whole. */
  lemma ShortFile(varType: string, varName: string, data: seq<byte>, size: nat, multiline: bool)
    requires size > 0 && |data| < size
    requires forall i :: 0 <= i < |data| ==> data[i] != NUL
    ensures AsciiText(varType, varName, data, size, multiline, false)
      == AsciiHeader(varType, varName, multiline) + ChunkText(data, multiline, false)
  {
    var r := Fread(data, 0, size);
    ChunksStep(data, 0, size, multiline, false);
    assert r.bytes == data[0..] == data && r.eof;
    NoNulWhole(data);
    var rest := AsciiChunks(data, |data|, size, multiline, NextBigfile(r, size, false), true);
    assert rest == "";
    AppendEmpty(ChunkText(data, multiline, false));
  }

  /**
   * Single-line rendering of such a file: one opening quote after `= `, the
   * escaped bytes, and the close only when the file ends in a newline.
   */
  lemma ShortFileSingleLine(varType: string, varName: string, data: seq<byte>, size: nat)
    requires size > 0 && |data| < size
    requires forall i :: 0 <= i < |data| ==> data[i] != NUL
    ensures AsciiText(varType, varName, data, size, false, false)
      == varType + " " + varName + " = \"" + EscapeRange(data, 0, |data|)
         + (if data != [] && data[|data| - 1] == NL then "\";\n" else "")
  {
    var h := varType + " " + varName;
    var e := EscapeRange(data, 0, |data|);
    var close := if data != [] && data[|data| - 1] == NL then "\";\n" else "";
    ShortFile(varType, varName, data, size, false);
    SingleLineChunk(data, false);
    assert AsciiHeader(varType, varName, false) == h + " = \"" by {
      Associate(h, " = ", "\"");
      assert " = " + "\"" == " = \"";
    }
    Associate(h + " = \"", e, close);
  }

  /** When skipping lines already hit the end of the file, only the declaration is printed. */
  lemma AtEofOnlyHeader(varType: string, varName: string, data: seq<byte>, size: nat, multiline: bool)
    requires size > 0
    ensures AsciiText(varType, varName, data, size, multiline, true) == AsciiHeader(varType, varName, multiline)
  {
    AppendEmpty(AsciiHeader(varType, varName, multiline));
  }
}

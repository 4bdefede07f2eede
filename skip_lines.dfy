/**
 * The skip loop of main.c: before rendering, `-l n` consumes n lines with
 * `fgets`, and in binary mode echoes each pass's buffer as a `// ` comment.
 */
module SkipLines {
  import opened Bytes

  /** What one pass prints: `// ` and buf's C string in binary mode, nothing otherwise. */
  function Echo(binary: int, buf: seq<byte>): (s: string)
    ensures binary == 0 <==> s == ""
    ensures binary != 0 ==> s == "// " + Chars(UntilNul(buf))
  {
    if binary != 0 then "// " + Chars(UntilNul(buf)) else ""
  }

  /** The buffer after one `fgets` that read line: `fgets` leaves it untouched when it reads nothing. */
  function Refill(buf: seq<byte>, line: seq<byte>): (b: seq<byte>)
    ensures line != [] ==> b == line
    ensures line == [] ==> b == buf
  {
    if line == [] then buf else line
  }

  /** The line `fgets` reads at offset pos. */
  function LineAt(data: seq<byte>, pos: nat): seq<byte>
    requires pos <= |data|
  {
    data[pos..LineEnd(data, pos)]
  }

  /** The stream offset after k passes of the skip loop that start at offset pos. */
  function LinesEnd(data: seq<byte>, pos: nat, k: nat): (e: nat)
    requires pos <= |data|
    ensures pos <= e <= |data|
    decreases k
  {
    if k == 0 then pos else LinesEnd(data, LineEnd(data, pos), k - 1)
  }

  /** The stream left for the renderer after skipping k lines. */
  function DropLines(data: seq<byte>, k: nat): seq<byte> {
    data[LinesEnd(data, 0, k)..]
  }

  /** Everything k passes of the skip loop print, starting at offset pos with buffer buf. */
  function SkipEcho(data: seq<byte>, pos: nat, k: nat, binary: int, buf: seq<byte>): string
    requires pos <= |data|
    decreases k
  {
    if k == 0 then ""
    else
      var line := LineAt(data, pos);
      Echo(binary, Refill(buf, line)) + SkipEcho(data, LineEnd(data, pos), k - 1, binary, Refill(buf, line))
  }

  /** Number of newlines among the first i bytes of data. */
  function Newlines(data: seq<byte>, i: nat): (n: nat)
    requires i <= |data|
    ensures n <= i
  {
    if i == 0 then 0 else Newlines(data, i - 1) + (if data[i - 1] == NL then 1 else 0)
  }

  /**
   * What holds before each pass of the skip loop with lc passes left: the
   * passes so far printed out, the remaining ones print the rest of total
   * and stop at offset end, and EOF is set exactly when the passes so far
   * ran out of lines.
   */
  ghost predicate SkipInv(data: seq<byte>, skipLines: nat, binary: int, total: string, end: nat,
                          out: string, pos: nat, eof: bool, buf: seq<byte>, lc: nat)
  {
    && lc <= skipLines && pos <= |data|
    && LinesEnd(data, pos, lc) == end
    && out + SkipEcho(data, pos, lc, binary, buf) == total
    && (eof ==> pos == |data|)
    && (!eof ==> skipLines == lc + Newlines(data, pos))
    && (eof ==> skipLines > lc + Newlines(data, pos))
  }

  /**
   * `for (lc = skip_lines; lc; lc--)`: returns what the loop prints, the
   * stream offset it leaves, whether EOF is set, and the buffer's contents.
   */
  method SkipLines(data: seq<byte>, skipLines: nat, binary: int, buf0: seq<byte>)
    returns (out: string, pos: nat, eof: bool, buf: seq<byte>)
    ensures pos == LinesEnd(data, 0, skipLines) && data[pos..] == DropLines(data, skipLines)
    ensures eof <==> Newlines(data, |data|) < skipLines
    ensures eof ==> pos == |data|
    ensures out == SkipEcho(data, 0, skipLines, binary, buf0)
  {
    ghost var total := SkipEcho(data, 0, skipLines, binary, buf0);
    ghost var end := LinesEnd(data, 0, skipLines);
    out, pos, eof, buf := "", 0, false, buf0;
    var lc: nat := skipLines;
    SkipStart(data, skipLines, binary, buf0);
    while lc != 0
      invariant SkipInv(data, skipLines, binary, total, end, out, pos, eof, buf, lc)
    {
      out, pos, eof, buf := SkipOneLine(data, skipLines, binary, total, end, out, pos, eof, buf, lc);
      lc := lc - 1;
    }
    SkipDone(data, skipLines, binary, total, end, out, pos, eof, buf);
  }

  /**
   * The loop body: `fgets(buf, BUFSIZ, fp)`, then in binary mode
   * `printf("// %s", buf)`, appended to what the loop printed so far.  One
   * pass keeps SkipInv with one pass fewer left.
   */
  method SkipOneLine(data: seq<byte>, skipLines: nat, binary: int, ghost total: string, ghost end: nat,
                     out: string, pos: nat, eof: bool, buf: seq<byte>, lc: nat)
    returns (out': string, next: nat, eof': bool, buf': seq<byte>)
    requires lc > 0 && SkipInv(data, skipLines, binary, total, end, out, pos, eof, buf, lc)
    ensures SkipInv(data, skipLines, binary, total, end, out', next, eof', buf', lc - 1)
  {
    var r := Fgets(data, pos);
    NewlinesOverLine(data, pos);
    buf' := Refill(buf, r.bytes);
    var echo := Echo(binary, buf');
    next := pos + |r.bytes|;
    eof' := r.eof;
    ghost var rest := SkipEcho(data, next, lc - 1, binary, buf');
    assert out + (echo + rest) == (out + echo) + rest;
    out' := out + echo;
  }

  /** Before the first pass nothing is printed and all passes are still to come. */
  lemma SkipStart(data: seq<byte>, skipLines: nat, binary: int, buf0: seq<byte>)
    ensures SkipInv(data, skipLines, binary, SkipEcho(data, 0, skipLines, binary, buf0),
                    LinesEnd(data, 0, skipLines), "", 0, false, buf0, skipLines)
  {
    assert "" + SkipEcho(data, 0, skipLines, binary, buf0) == SkipEcho(data, 0, skipLines, binary, buf0);
  }

  /** When the loop ends, the offset, EOF indicator and output are those of the specification. */
  lemma SkipDone(data: seq<byte>, skipLines: nat, binary: int, total: string, end: nat,
                 out: string, pos: nat, eof: bool, buf: seq<byte>)
    requires SkipInv(data, skipLines, binary, total, end, out, pos, eof, buf, 0)
    ensures pos == end && out == total
    ensures eof <==> Newlines(data, |data|) < skipLines
  {
    NewlinesMonotone(data, pos, |data|);
    assert out + "" == out;
  }

  /** The newlines before the end of the line at pos are those before pos plus the line's own. */
  lemma {:induction false} NewlinesOverLine(data: seq<byte>, pos: nat)
    requires pos <= |data|
    ensures Newlines(data, LineEnd(data, pos))
      == Newlines(data, pos) + (if EndsInNewline(LineAt(data, pos)) then 1 else 0)
    decreases |data| - pos
  {
    if pos < |data| && data[pos] != NL {
      NewlinesOverLine(data, pos + 1);
      LineEndStops(data, pos);
      LineEndStops(data, pos + 1);
    }
  }

  /** Newlines only grow along the data. */
  lemma {:induction false} NewlinesMonotone(data: seq<byte>, i: nat, j: nat)
    requires i <= j <= |data|
    ensures Newlines(data, i) <= Newlines(data, j)
    decreases j
  {
    if i < j {
      NewlinesMonotone(data, i, j - 1);
    }
  }

  function Min(a: int, b: int): int {
    if a <= b then a else b
  }

  /**
   * k passes from pos pass over exactly k newlines when that many follow pos,
   * and over all of them otherwise.
   */
  lemma {:induction false} LinesEndCount(data: seq<byte>, pos: nat, k: nat)
    requires pos <= |data|
    ensures Newlines(data, LinesEnd(data, pos, k)) - Newlines(data, pos)
      == Min(k, Newlines(data, |data|) - Newlines(data, pos))
    decreases k
  {
    NewlinesMonotone(data, pos, |data|);
    if k > 0 {
      var next := LineEnd(data, pos);
      LinesEndCount(data, next, k - 1);
      NewlinesOverLine(data, pos);
      LineEndStops(data, pos);
      NewlinesMonotone(data, next, |data|);
    }
  }

  /** When k > 0 newlines follow pos, the k passes stop right after the k-th of them. */
  lemma {:induction false} LinesEndAtNewline(data: seq<byte>, pos: nat, k: nat)
    requires pos <= |data| && 0 < k <= Newlines(data, |data|) - Newlines(data, pos)
    ensures pos < LinesEnd(data, pos, k) && data[LinesEnd(data, pos, k) - 1] == NL
    decreases k
  {
    var next := LineEnd(data, pos);
    NewlinesOverLine(data, pos);
    LineEndStops(data, pos);
    if k > 1 {
      LinesEndAtNewline(data, next, k - 1);
    }
  }

  /** Skipping more lines than there are newlines after pos consumes the whole file. */
  lemma {:induction false} SkipPastEnd(data: seq<byte>, pos: nat, k: nat)
    requires pos <= |data| && Newlines(data, |data|) - Newlines(data, pos) < k
    ensures LinesEnd(data, pos, k) == |data|
    decreases k
  {
    var next := LineEnd(data, pos);
    NewlinesOverLine(data, pos);
    LineEndStops(data, pos);
    NewlinesMonotone(data, next, |data|);
    if k > 1 {
      SkipPastEnd(data, next, k - 1);
    }
  }

  /** Text mode prints nothing while skipping. */
  lemma {:induction false} TextModeSkipsSilently(data: seq<byte>, pos: nat, k: nat, buf: seq<byte>)
    requires pos <= |data|
    ensures SkipEcho(data, pos, k, 0, buf) == ""
    decreases k
  {
    if k > 0 {
      TextModeSkipsSilently(data, LineEnd(data, pos), k - 1, Refill(buf, LineAt(data, pos)));
    }
  }

  /** The text of k copies of e. */
  function Repeat(e: string, k: nat): (r: string)
    ensures |r| == k * |e|
  {
    if k == 0 then "" else e + Repeat(e, k - 1)
  }

  /**
   * Past the end of the file `fgets` reads nothing and leaves the buffer as
   * it was, so every further pass prints the last buffer again.
   */
  lemma {:induction false} StaleEchoAtEof(data: seq<byte>, k: nat, binary: int, buf: seq<byte>)
    ensures SkipEcho(data, |data|, k, binary, buf) == Repeat(Echo(binary, buf), k)
    decreases k
  {
    if k > 0 {
      assert LineAt(data, |data|) == [];
      StaleEchoAtEof(data, k - 1, binary, buf);
    }
  }

  /**
   * The global buffer starts out zero-filled, so binary-mode passes that skip
   * past the end before any line was read print an empty comment `// ` each.
   */
  lemma ZeroBufferEchoAtEof(data: seq<byte>, k: nat, binary: int, buf: seq<byte>)
    requires binary != 0
    requires forall i :: 0 <= i < |buf| ==> buf[i] == NUL
    ensures SkipEcho(data, |data|, k, binary, buf) == Repeat("// ", k)
  {
    assert UntilNul(buf) == [];
    assert Echo(binary, buf) == "// ";
    StaleEchoAtEof(data, k, binary, buf);
  }

  /**
   * Each of k lines from pos as a `// ` comment, as `printf("// %s", ...)`
   * prints it: the line up to its first zero byte.  This is the reference
   * for what binary mode echoes.
   */
  function Commented(data: seq<byte>, pos: nat, k: nat): string
    requires pos <= |data|
    decreases k
  {
    if k == 0 then ""
    else "// " + Chars(UntilNul(LineAt(data, pos))) + Commented(data, LineEnd(data, pos), k - 1)
  }

  /**
   * When k lines remain, binary mode echoes each skipped line, in order, as
   * a `// ` comment, whatever the buffer held before.
   */
  lemma {:induction false} SkippedLinesEchoed(data: seq<byte>, pos: nat, k: nat, binary: int, buf: seq<byte>)
    requires pos <= |data| && binary != 0
    requires k <= Newlines(data, |data|) - Newlines(data, pos)
    ensures SkipEcho(data, pos, k, binary, buf) == Commented(data, pos, k)
    decreases k
  {
    if k > 0 {
      var next := RemainingLine(data, pos);
      var line := LineAt(data, pos);
      var j: nat := k - 1;
      SkippedLinesEchoed(data, next, j, binary, line);
      SkipEchoStep(data, pos, next, k, j, binary, buf);
      CommentedStep(data, pos, next, k, j);
    }
  }

  /**
   * The first of k = j + 1 passes over a line that is not empty echoes that
   * line, whatever the buffer held, and leaves the line in the buffer.
   */
  lemma SkipEchoStep(data: seq<byte>, pos: nat, next: nat, k: nat, j: nat, binary: int, buf: seq<byte>)
    requires pos < |data| && next == LineEnd(data, pos) && k == j + 1 && binary != 0
    ensures SkipEcho(data, pos, k, binary, buf)
      == ("// " + Chars(UntilNul(LineAt(data, pos)))) + SkipEcho(data, next, j, binary, LineAt(data, pos))
  {
    assert Refill(buf, LineAt(data, pos)) == LineAt(data, pos);
  }

  /** The first of k = j + 1 commented lines, and the rest. */
  lemma CommentedStep(data: seq<byte>, pos: nat, next: nat, k: nat, j: nat)
    requires pos <= |data| && next == LineEnd(data, pos) && k == j + 1
    ensures Commented(data, pos, k) == ("// " + Chars(UntilNul(LineAt(data, pos)))) + Commented(data, next, j)
  {
  }

  /** When a newline remains after pos, the line at pos ends in one, so one fewer remains after it. */
  lemma RemainingLine(data: seq<byte>, pos: nat) returns (next: nat)
    requires pos <= |data| && Newlines(data, pos) < Newlines(data, |data|)
    ensures next == LineEnd(data, pos) && pos < next
    ensures Newlines(data, next) == Newlines(data, pos) + 1
  {
    next := LineEnd(data, pos);
    NewlinesOverLine(data, pos);
    LineEndStops(data, pos);
  }

  /** An example: with one pass per line, binary mode echoes each skipped line as a comment. */
  lemma TwoLinesEchoed()
    ensures SkipEcho([0x61, NL, 0x62, NL, 0x63], 0, 2, 16, []) == "// a\n" + "// b\n"
  {
    var s: seq<byte> := [0x61, NL, 0x62, NL, 0x63];
    assert LineEnd(s, 1) == 2;
    assert LineEnd(s, 0) == 2;
    assert LineAt(s, 0) == [0x61, NL];
    assert LineEnd(s, 3) == 4;
    assert LineEnd(s, 2) == 4;
    assert LineAt(s, 2) == [0x62, NL];
    var a: seq<byte> := [0x61, NL];
    var b: seq<byte> := [0x62, NL];
    assert NulFrom(a, 1) == 2;
    assert UntilNul(a) == a;
    assert NulFrom(b, 1) == 2;
    assert UntilNul(b) == b;
    assert CharsTo(a, 1) == "a" && CharsTo(b, 1) == "b";
    assert Echo(16, [0x61, NL]) == "// a\n";
    assert Echo(16, [0x62, NL]) == "// b\n";
  }
}

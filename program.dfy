/**
 * `main` of main.c (lines 209-271) after option parsing: resolve the
 * variable name and type, print the header guard's opening, open the file,
 * skip lines, run the renderer the mode selects, end with a newline, and
 * close the header guard.
 */
module Program {
  import opened Wrappers
  import opened Bytes
  import opened Naming
  import opened SkipLines
  import opened AsciiRenderer
  import opened BinaryRenderer

  /**
   * The parsed command line: `-l`, `-m`, `-b` (its width; zero when the
   * option is absent), `-h`, `-n`, `-t` (empty when absent) and the file name.
   */
  datatype Options = Options(
    skipLines: nat,
    multiline: bool,
    binary: int,
    headerGuard: bool,
    varName: string,
    varType: string,
    fileName: string)

  /** What the program writes to standard output, and whether it exits with `EXIT_SUCCESS`. */
  datatype Outcome = Outcome(stdout: string, success: bool)

  /** The two lines that open the header guard, and the blank line after them. */
  function GuardOpen(name: string): string {
    "#ifndef __" + name + "_H__\n" + "#define __" + name + "_H__\n\n"
  }

  /** The line that closes the header guard, after a blank line. */
  function GuardClose(name: string): string {
    "\n#endif // __" + name + "_H__\n"
  }

  /**
   * The renderer the mode selects, for the rest of the stream and its EOF
   * indicator: an array of bytes when `-b` gave a nonzero width, a string
   * literal otherwise.
   */
  function Render(binary: int, multiline: bool, varType: string, varName: string,
                  rest: seq<byte>, eof: bool, size: nat): (s: string)
    requires size > 0
    ensures binary != 0 ==> BinaryHeader(varType, varName) <= s
    ensures binary == 0 ==> AsciiHeader(varType, varName, multiline) <= s
  {
    if binary != 0 then BinaryText(varType, varName, rest, binary, size)
    else AsciiText(varType, varName, rest, size, multiline, eof)
  }

  /**
   * What is printed between the guard's lines when the file holds data: the
   * skip loop's echo, the renderer's output for the rest of the stream, and
   * the newline of line 263.
   */
  function Body(skipLines: nat, binary: int, multiline: bool, varType: string, varName: string,
                data: seq<byte>, buf0: seq<byte>, size: nat): string
    requires size > 0
  {
    var pos := LinesEnd(data, 0, skipLines);
    var eof := Newlines(data, |data|) < skipLines;
    SkipEcho(data, 0, skipLines, binary, buf0)
      + Render(binary, multiline, varType, varName, data[pos..], eof, size) + "\n"
  }

  /**
   * Everything the program does for options o when the file holds data, or
   * cannot be opened (file is None); buf0 is the global buffer's contents on
   * entry and size its length `BUFSIZ`.
   */
  function Output(o: Options, file: Option<seq<byte>>, buf0: seq<byte>, size: nat): (r: Outcome)
    requires size > 0
    ensures r.success <==> file.Some?
  {
    var name := ResolveName(o.varName, o.fileName);
    var varType := ResolveType(o.varType, o.binary);
    match file
    case None => Outcome(if o.headerGuard then GuardOpen(name) else "", false)
    case Some(data) =>
      var body := Body(o.skipLines, o.binary, o.multiline, varType, name, data, buf0, size);
      Outcome(if o.headerGuard then GuardOpen(name) + body + GuardClose(name) else body, true)
  }

  /**
   * `main` from the end of option parsing on, with buf as the global buffer
   * of `BUFSIZ` bytes.  `exit(EXIT_FAILURE)` after a failed `fopen` becomes
   * a return with success false.
   */
  method Convert(o: Options, file: Option<seq<byte>>, buf: array<byte>) returns (out: string, success: bool)
    requires buf.Length > 0
    modifies buf
    ensures Outcome(out, success) == Output(o, file, old(buf[..]), buf.Length)
  {
    var name := ResolveName(o.varName, o.fileName);
    var varType := ResolveType(o.varType, o.binary);
    if file.None? {
      // The guard's opening lines are printed before `fopen` is tried.
      out := "";
      if o.headerGuard {
        out := GuardOpen(name);
      }
      success := false;
      return;
    }
    var data := file.value;
    var echo, pos, eof, lastLine := SkipLines.SkipLines(data, o.skipLines, o.binary, buf[..]);
    var text;
    if o.binary != 0 {
      // With EOF already set the loop of print_binary does not run; the rest
      // of the stream is then empty (SkipLines), and so is what it prints.
      text := PrintBinary(varType, name, data[pos..], o.binary, buf.Length);
    } else {
      text := PrintAscii(varType, name, data[pos..], o.multiline, eof, buf);
    }
    out := echo + text + "\n";
    if o.headerGuard {
      out := GuardOpen(name) + out + GuardClose(name);
    }
    success := true;
  }

  // ----- Properties

  /**
   * `-h` adds exactly the guard: the output with it is the output without
   * it, between the opening lines and the closing line that name the same
   * macro.  When the file cannot be opened only the opening is printed.
   */
  lemma HeaderGuardWraps(o: Options, file: Option<seq<byte>>, buf0: seq<byte>, size: nat)
    requires size > 0
    ensures var name := ResolveName(o.varName, o.fileName);
      var with := Output(o.(headerGuard := true), file, buf0, size);
      var without := Output(o.(headerGuard := false), file, buf0, size);
      && with.success == without.success
      && (file.Some? ==> with.stdout == GuardOpen(name) + without.stdout + GuardClose(name))
      && (file.None? ==> with.stdout == GuardOpen(name) && without.stdout == "")
  {
  }

  /** A file that cannot be opened: no output but the guard's opening, and a failing exit. */
  lemma OpenFailure(o: Options, buf0: seq<byte>, size: nat)
    requires size > 0
    ensures var r := Output(o, None, buf0, size);
      && !r.success
      && r.stdout == (if o.headerGuard then GuardOpen(ResolveName(o.varName, o.fileName)) else "")
  {
  }

  /**
   * Without `-t`, the declaration's type follows the renderer: `const char`
   * elements of an array in binary mode, and a `const char*` for the string
   * literal of text mode.
   */
  lemma DefaultTypeMatchesRenderer(o: Options, rest: seq<byte>, eof: bool, size: nat)
    requires size > 0 && o.varType == []
    ensures var name := ResolveName(o.varName, o.fileName);
      var s := Render(o.binary, o.multiline, ResolveType(o.varType, o.binary), name, rest, eof, size);
      && (o.binary != 0 ==> "const char " + name + "[] = {\n" <= s)
      && (o.binary == 0 ==> "const char* " + name + " = " <= s)
  {
    var name := ResolveName(o.varName, o.fileName);
    if o.binary != 0 {
      assert BinaryHeader("const char", name) == "const char " + name + "[] = {\n" by {
        assert "const char" + " " == "const char ";
      }
    } else {
      var h := "const char* " + name + " = ";
      assert "const char*" + " " == "const char* ";
      assert AsciiHeader("const char*", name, o.multiline) == h + (if o.multiline then "\n" else "\"");
    }
  }

  /**
   * In text mode nothing is printed for the skipped lines: without `-h` the
   * output is the string literal of what follows them, and a newline.
   */
  lemma TextModeOutput(o: Options, data: seq<byte>, buf0: seq<byte>, size: nat)
    requires size > 0 && o.binary == 0 && !o.headerGuard
    ensures Output(o, Some(data), buf0, size).stdout
      == AsciiText(ResolveType(o.varType, 0), ResolveName(o.varName, o.fileName),
                   DropLines(data, o.skipLines), size, o.multiline,
                   Newlines(data, |data|) < o.skipLines) + "\n"
  {
    var name := ResolveName(o.varName, o.fileName);
    var varType := ResolveType(o.varType, 0);
    var pos := LinesEnd(data, 0, o.skipLines);
    var eof := Newlines(data, |data|) < o.skipLines;
    var text := Render(0, o.multiline, varType, name, data[pos..], eof, size);
    TextModeSkipsSilently(data, 0, o.skipLines, buf0);
    AppendEmpty(text);
    assert text == AsciiText(varType, name, DropLines(data, o.skipLines), size, o.multiline, eof);
  }

  /**
   * In binary mode without `-h`, the skipped lines come first as comments,
   * then the array of the bytes that follow them, then a newline.
   */
  lemma BinaryModeOutput(o: Options, data: seq<byte>, buf0: seq<byte>, size: nat)
    requires size > 0 && o.binary != 0 && !o.headerGuard
    ensures Output(o, Some(data), buf0, size).stdout
      == SkipEcho(data, 0, o.skipLines, o.binary, buf0)
         + BinaryText(ResolveType(o.varType, o.binary), ResolveName(o.varName, o.fileName),
                      DropLines(data, o.skipLines), o.binary, size) + "\n"
  {
  }
}

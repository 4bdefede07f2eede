# f2h in Dafny

f2h turns a file into a C declaration to paste into a header.

In text mode, the file becomes a string literal, either on one line or with one quoted segment per line (`-m`). In that literal every newline byte is written as the two characters `\n`.

In binary mode (`-b[width]`), the file becomes an array of `0xHH` byte literals, `width` to a row, followed by a `size_t` constant holding the byte count.

Options:

- `-l n` skips the first n lines. In binary mode the skipped lines are echoed as `//` comments.
- `-n` names the variable. Without it, the name is derived from the file name.
- `-t` sets the type. Without it, the type follows the mode.
- `-h` wraps everything in a header guard.

This project models `main.c` after option parsing:

- the default name and type;
- the header guard;
- the skip loop over `fgets`;
- `print_ascii`, with its zero-cleared buffer, its walk up to the buffer's first zero byte, and the `bigfile` and `startline` flags;
- `print_binary`, with its comma rule tied to the EOF indicator and its column counter.

The file is a sequence of bytes and the output is a string. `fread` and `fgets` are modelled as functions of the data and the stream offset: `Bytes.Fread` and `Bytes.Fgets`. EOF is set only by a short read, as with a regular file. `BUFSIZ` is the length of the buffer array (`size` in the functions), and is only required to be positive.

Modules:

- `Bytes`: bytes, C strings, and the two stdio reads.
- `Numerals`: `%02X` and `%d`.
- `Naming`: the name and type defaults.
- `SkipLines`: the skip loop.
- `AsciiRenderer` and `AsciiLayout`: `print_ascii`, then what its output means.
- `BinaryRenderer`: `print_binary`, and reading its array back.
- `Program`: `main` from line 209 on.

Each loop of `main.c` is a Dafny method proved against a function of the input: `SkipLines.SkipLines`, `AsciiRenderer.ChunkLoop`, `AsciiRenderer.PrintWalk`, `BinaryRenderer.ReadLoop` and `BinaryRenderer.PrintRead`. The lemmas state the layout properties about those functions.

Some behaviours of `main.c` are easy to miss. The model follows the code in each of them:

- The derived name stops at the first `.` after the last `/`, so `a/b.c.d` gives `b`, not `b.c`.
- In single-line mode the literal is closed only after a newline that is the last byte of a chunk's C string: the last byte of the chunk, or the byte just before its first zero byte. A file without zero bytes that does not end in a newline is left open.
- For a nonempty array, there is a line break before `};` only when the last row is full. An empty array gives `{`, a line break, then `};`.
- When the byte count is a positive multiple of `BUFSIZ`, the last byte is followed by a comma before `};`: the read that takes the last bytes leaves EOF clear (`BinaryRenderer.CommaCount`).
- In multi-line mode, an empty line prints `\n"` with no opening quote before it, so that text stands outside any string literal and is not valid C (`AsciiLayout.EmptyLineUnquoted`).
- `"` and `\` bytes are copied into the literal unescaped, so the literal is the file's text only when the file holds neither (`AsciiLayout.UnescapeEscape`).
- The opening lines of the header guard are printed before `fopen` is tried, so they are printed even when the file cannot be opened.

## Model

| member | source | states |
|---|---|---|
| Naming.DerivedName | main.c:210-224 | the derived name contains no `/` and no `.`, and is no longer than the path |
| Naming.DerivedNameUnique | main.c:212-223 | whenever the path splits as prefix, n, suffix, with the prefix empty (and no `/` anywhere) or ending in the last `/`, n free of `.`, and the suffix empty or starting with `.`, the derived name is n |
| Naming.DerivedNameSplit | main.c:212-223 | every path has such a split: the name is `path[i..j]` with i just after the last `/` (or 0) and j at a `.` or the end |
| Naming.DerivedNameStopsAtFirstDot | main.c:219-223 | `a/b.c.d` gives `b` |
| Naming.DerivedNameOfPath | main.c:212-223 | `/a/b/name.ext` gives `name` |
| Naming.DerivedNameOfBareName | main.c:214-221 | every path with no `/` and no `.` is its own name |
| Naming.LastIndexOf | main.c:212 | `strrchr`: the index of the last occurrence, or none when the character is absent |
| Naming.FirstIndexOf | main.c:219-221 | `strchr` with the end standing for "not found": no occurrence before the result, and an occurrence at it unless it is the end |
| Naming.NameStart | main.c:212-217 | the name starts just after the last `/`, or at 0 when there is none, and no `/` follows it |
| Naming.ResolveName | main.c:210-224 | a given name is kept; an empty one is replaced by the derived name |
| Naming.DefaultType | main.c:226-232 | the default type is `const char` if and only if the binary width is nonzero, and `const char*` if and only if it is zero |
| Naming.ResolveType | main.c:226-232 | a given type is kept; an empty one becomes `const char` exactly in binary mode and `const char*` exactly in text mode |
| Numerals.HexDigit | main.c:132 | each digit printed by `%X` is an upper-case hexadecimal digit |
| Numerals.HexValue | main.c:132 | reading a hexadecimal digit gives its value, and printing that value gives the digit back |
| Numerals.Hex2 | main.c:132 | `%02X` gives exactly two hexadecimal digits whose value is the byte |
| Numerals.Decimal | main.c:145 | `%d` of a count: nonempty, all decimal digits, no leading zero |
| Numerals.DecimalRoundTrip | main.c:145 | reading the printed count back gives the count |
| Bytes.Fread | main.c:61 | a read returns at most `size` bytes, fewer only at the end of the data, and sets EOF exactly when it is short |
| Bytes.FreadContents | main.c:61 | the bytes a read returns are the next bytes of the data from the offset |
| Bytes.FreadInto | main.c:61 | `fread` into the buffer: its first n bytes become the bytes read, and the rest of the buffer is unchanged |
| Bytes.Fgets | main.c:251 | `fgets` returns the data from the offset through the next newline or to the end; it reads nothing only at the end; EOF is set exactly when the line does not end in a newline |
| Bytes.LineEnd | main.c:251 | the line read at a position ends within the data, and past the position unless the data is exhausted |
| Bytes.LineEndStops | main.c:251 | a line holds no newline before its last byte; a line that does not end in a newline runs to the end of the data |
| Bytes.NulFromStops | main.c:68 | the walk `while (*ptr)` stops at a zero byte or at the end, and passes over no zero byte |
| Bytes.UntilNul | main.c:68 | the bytes the walk `while (*ptr)` and `printf("%s")` see in the buffer: everything before its first zero byte, or all of it |
| Bytes.UntilNulHasNoNul | main.c:68 | the C string of the buffer ends at its first zero byte and contains no zero byte |
| Bytes.UntilNulStops | main.c:68 | everything after the first zero byte of a chunk is dropped from the output |
| Bytes.NoNulWhole | main.c:68 | a chunk without a zero byte is walked whole |
| Bytes.NulGuard | main.c:68 | up to the end of the C string, the walk continues exactly while the current byte is nonzero |
| Bytes.UntilNulPadded | main.c:60-61 | zeros cleared by `memset` after the bytes read do not change the C string |
| SkipLines.Echo | main.c:252-253 | a pass prints something exactly in binary mode, and there it prints `// ` and the buffer's C string |
| SkipLines.Refill | main.c:251 | `fgets` replaces the buffer with the line it read, and leaves the buffer as it was when it reads nothing |
| SkipLines.LinesEnd | main.c:249-251 | the stream offset after k passes of the skip loop, as repeated `fgets`; it stays within the data |
| SkipLines.DropLines | main.c:249-256 | the rest of the file the renderer is given after k lines are skipped |
| SkipLines.SkipEcho | main.c:249-254 | what k passes of the skip loop print, each pass echoing the buffer `fgets` left |
| SkipLines.Commented | main.c:252-253 | the reference for binary-mode skipping: each of k lines as `// ` and the line up to its first zero byte |
| SkipLines.SkipLines | main.c:249-254 | the loop prints the echo of its k passes, and stops at the offset after k lines (the rest is DropLines); it sets EOF exactly when the file has fewer than k newlines, and then it is at the end |
| SkipLines.SkipOneLine | main.c:251-253 | one pass keeps the skip invariant with one pass fewer left |
| SkipLines.NewlinesOverLine | main.c:251 | a pass passes over exactly the newline that ends its line, if any |
| SkipLines.LinesEndCount | main.c:249-251 | k passes pass over k newlines when that many remain, and over all remaining newlines otherwise |
| SkipLines.LinesEndAtNewline | main.c:249-251 | when k newlines remain, the k passes stop right after the k-th of them |
| SkipLines.SkipPastEnd | main.c:249-251 | skipping more lines than remain consumes the whole file |
| SkipLines.TextModeSkipsSilently | main.c:252 | text mode prints nothing while skipping |
| SkipLines.StaleEchoAtEof | main.c:251-253 | past the end, every further pass prints the last buffer again |
| SkipLines.ZeroBufferEchoAtEof | main.c:249-254 | with the zero-filled buffer of line 47, binary-mode passes past the end of the data print `// ` each |
| SkipLines.SkippedLinesEchoed | main.c:249-254 | in binary mode, when k lines remain, the k passes print each skipped line, in order, as `// ` and the line up to its first zero byte (Commented), whatever the buffer held before |
| SkipLines.TwoLinesEchoed | main.c:252-253 | an example: skipping two lines of `a`, `b`, `c` in binary mode prints `// a` and `// b`, each on its own line |
| AsciiRenderer.PrintAscii | main.c:49-113 | `print_ascii` prints the declaration, then the chunks of every read until EOF (AsciiText) |
| AsciiRenderer.ChunkLoop | main.c:57-112 | the loop `while (!feof(fp))` prints AsciiChunks from the start, with `bigfile` initially clear |
| AsciiRenderer.ChunkPass | main.c:58-112 | one pass of the loop makes progress or reaches EOF, and keeps "printed so far plus the chunks to come is the whole output" |
| AsciiRenderer.PrintChunk | main.c:60-111 | one pass reads a chunk, prints the opening quote (unless `bigfile` is set or in single-line mode) and the walk of the chunk's C string, and updates `bigfile` |
| AsciiRenderer.ClearAndRead | main.c:60-61 | after `memset` and `fread`, the buffer holds the bytes read followed by zeros, so its C string is that of the bytes read |
| AsciiRenderer.PrintWalk | main.c:63-108 | the walk prints WalkFrom of the buffer's C string, and ends with `ptr - buf` equal to its length |
| AsciiRenderer.WalkStep | main.c:70-105 | the body of the walk prints the piece for the current byte and updates `startline`, with `ptr[1] == '\0'` meaning "last byte of the C string" |
| AsciiRenderer.BufferHoldsRead | main.c:60-61 | a buffer of the bytes read followed by zeros has their C string |
| AsciiRenderer.AsciiHeader | main.c:51-55 | the declaration `type name = ` followed by a line break in multi-line mode, or by the opening quote in single-line mode |
| AsciiRenderer.Piece | main.c:70-105 | what the walk prints for one byte: `\n` then the close for a newline, or the pending quote and the byte itself |
| AsciiRenderer.NextStartline | main.c:70-105 | `startline` after a byte: set by a newline that does not end a multi-line chunk, cleared by any other byte |
| AsciiRenderer.WalkFrom | main.c:68-108 | what the walk prints from a byte of the chunk's C string on |
| AsciiRenderer.ChunkText | main.c:64-108 | one chunk: the opening quote of a multi-line chunk unless `bigfile` is set, then the walk |
| AsciiRenderer.NextBigfile | main.c:110-111 | `bigfile` becomes set once a read short of EOF had at least `BUFSIZ - 2` bytes before its first zero byte, and stays set |
| AsciiRenderer.AsciiChunks | main.c:57-112 | what the loop `while (!feof(fp))` prints from a stream offset on: one chunk per read until EOF |
| AsciiRenderer.AsciiText | main.c:49-113 | what `print_ascii` writes: the declaration, then the chunks |
| AsciiLayout.EscapeByte | main.c:70-72 | a newline is printed as `\n`; every other byte, including `"` and `\`, is printed unchanged |
| AsciiLayout.UnescapeEscape | main.c:70-105 | for data without a backslash, undoing the `\n` escapes gives the original bytes (a C compiler reads the text this way only when the data also holds no `"`) |
| AsciiLayout.SingleLineWalk | main.c:70-105 | single-line mode prints the escaped bytes, followed by `";` and a line break exactly when the last byte is a newline |
| AsciiLayout.SingleLineChunk | main.c:63-111 | a single-line chunk gets no opening quote, whatever `bigfile` is |
| AsciiLayout.SingleLineIgnoresBigfile | main.c:57-112 | in single-line mode, the output of the chunk loop does not depend on `bigfile` |
| AsciiLayout.SingleLineRun | main.c:70-105 | before the last byte, the single-line walk prints only escaped bytes |
| AsciiLayout.SingleLineStep | main.c:70-105 | a byte of the single-line walk prints its escape, and the close only if it is a final newline |
| AsciiLayout.WalkPlain | main.c:96-105 | a byte other than a newline prints the pending quote, then the byte, and clears `startline` |
| AsciiLayout.WalkNewlineSingle | main.c:90-94 | a newline in single-line mode prints `\n`, then `";` and a line break when it is last |
| AsciiLayout.WalkNewlineMulti | main.c:74-89 | a newline in multi-line mode prints `\n\0";` when it is last, and otherwise `\n"` and a line break, with a quote pending for the next line |
| AsciiLayout.PlainRun | main.c:96-105 | a run of bytes without a newline prints as the bytes themselves, after one quote if one was pending |
| AsciiLayout.MultilineLine | main.c:70-105 | a multi-line line prints its quote (if nonempty and pending), its escaped bytes, then `\n\0";` at the chunk's end or `\n"` and a line break before the next line |
| AsciiLayout.EmptyLineUnquoted | main.c:74-87 | of two newlines in a row, the second prints `\n"` with no opening quote before it |
| AsciiLayout.MultilineSemicolons | main.c:78-84 | when the data holds no `;`, a multi-line chunk contains exactly one `;` if it ends in a newline and none otherwise; the `;` of lines 83-84 is never printed |
| AsciiLayout.PieceSemicolons | main.c:72-104 | the piece for a byte other than `;` holds a `;` exactly when it is the final newline of a multi-line chunk |
| AsciiLayout.ShortFile | main.c:57-112 | a file shorter than the buffer and without a zero byte is printed in one chunk, whole |
| AsciiLayout.ShortFileSingleLine | main.c:51-111 | such a file in single-line mode gives the declaration, one opening quote, the escaped bytes, and `";` only if the file ends in a newline |
| AsciiLayout.AtEofOnlyHeader | main.c:51-58 | when skipping already reached EOF, only the declaration is printed |
| BinaryRenderer.PrintBinary | main.c:115-146 | `print_binary` prints the header, the cells of every byte, and `sz` set to the byte count (BinaryText) |
| BinaryRenderer.BinaryHeader | main.c:117 | the declaration `type name[] = {` and a line break |
| BinaryRenderer.Token | main.c:132 | `0x%02X` of a byte: four characters |
| BinaryRenderer.HasComma | main.c:134-135 | token g of n is followed by a comma when bytes remain after it or the byte count is a multiple of the read size (so EOF is still clear) |
| BinaryRenderer.HasBreak | main.c:137-141 | token g (0-based) is followed by a line break when g + 1 is a multiple of a positive width |
| BinaryRenderer.Column | main.c:120-141 | the value of `col` after g tokens: it counts up and resets to 0 when it reaches the width |
| BinaryRenderer.Cells | main.c:121-143 | the tokens of a range of bytes, each with its comma and line break, in order |
| BinaryRenderer.SizeFooter | main.c:145 | `};`, a line break, and `const size_t szname = total;` |
| BinaryRenderer.BinaryText | main.c:115-146 | what `print_binary` writes: the header, the cells of every byte, and the footer with the byte count |
| BinaryRenderer.ReadLoop | main.c:119-143 | the read loop prints the cells of all bytes in order; `total_bytes` ends as the number of bytes |
| BinaryRenderer.PrintRead | main.c:128-142 | the inner loop prints the cells of the bytes of one read, and carries the column counter to the end of the read |
| BinaryRenderer.PrintToken | main.c:132-141 | one token, its comma when bytes remain or EOF is not set, and its line break when the counter reaches the width |
| BinaryRenderer.AppendRead | main.c:127-142 | the cells of a read extend the cells of the reads before it |
| BinaryRenderer.ReadCell | main.c:132-141 | the token printed for a byte of a read is that byte's cell |
| BinaryRenderer.CommaRule | main.c:134-135 | `bytes \|\| !feof(fp)` holds after every byte except the last byte of a file whose length is not a multiple of the read size |
| BinaryRenderer.ColumnIsModulo | main.c:137-141 | `col` is the token count modulo a positive width; with any other width it never resets |
| BinaryRenderer.BreakRule | main.c:137-141 | a line break follows token i (1-based) exactly when i is a multiple of a positive width |
| BinaryRenderer.NextReadOffset | main.c:121-125 | the step behind ReadLoop's invariant: while EOF is clear every read was full, so the stream offset stays a multiple of the read size, which CommaRule relies on |
| BinaryRenderer.CellsConcat | main.c:121-143 | the cells of adjacent ranges concatenate |
| BinaryRenderer.DecodeCells | main.c:130-142 | reading the literals of the cells back gives the bytes, in order |
| BinaryRenderer.DecodeBinaryBody | main.c:130-142 | the array holds one literal per byte, in input order, each denoting that byte |
| BinaryRenderer.DecodeCellText | main.c:132-141 | one cell decodes to its byte in front of what follows |
| BinaryRenderer.TokenCounts | main.c:132 | a `0x%02X` token holds no comma and no line break |
| BinaryRenderer.CellCounts | main.c:132-141 | a cell holds one comma if HasComma and one line break if HasBreak |
| BinaryRenderer.BreakCount | main.c:137-141 | the array has one line break per full row: `n / width` for a positive width, none otherwise |
| BinaryRenderer.CommaCount | main.c:134-135 | the array has n - 1 commas when n is not a multiple of the read size, and n commas otherwise |
| BinaryRenderer.SizeConstant | main.c:145 | `};`, then the `sz` constant reads back as the number of bytes, with a final `;` |
| BinaryRenderer.BreakBeforeBrace | main.c:139-145 | for nonempty data, the character before `};` is a line break exactly when the last row is full |
| Program.Render | main.c:256-259 | binary mode prints the array declaration, text mode the string declaration |
| Program.GuardOpen | main.c:237-238 | the `#ifndef __name_H__` and `#define __name_H__` lines, then a blank line |
| Program.GuardClose | main.c:268 | a blank line, then `#endif // __name_H__` |
| Program.Body | main.c:249-263 | what follows a successful open: the skip loop's echo, the declaration of the rest of the file, and a newline |
| Program.Output | main.c:235-269 | the program succeeds exactly when the file can be opened |
| Program.Convert | main.c:209-271 | `main` after option parsing prints Output's text and succeeds as Output says |
| Program.HeaderGuardWraps | main.c:235-269 | with `-h`, the output is the output without it, between `#ifndef`/`#define` and `#endif` lines naming the same macro; on a failed open only the opening is printed |
| Program.OpenFailure | main.c:235-246 | when the file cannot be opened, only the guard's opening (if any) is printed and the exit fails |
| Program.DefaultTypeMatchesRenderer | main.c:226-232 | without `-t`, binary mode declares `const char name[] = {` and text mode `const char* name = ` |
| Program.TextModeOutput | main.c:249-263 | in text mode without `-h`, the output is the string literal of what follows the skipped lines, then a newline |
| Program.BinaryModeOutput | main.c:249-263 | in binary mode without `-h`, the output is the skipped lines as comments, the array of the rest, then a newline |

## Left out

- Option parsing (`getopt`, `atoi`, the `-b` default of 16), `show_usage` and `show_options`: the model starts from a parsed `Options` value.
- The messages written to standard error, and `fclose`: they do not affect standard output.
- `fopen` becomes the `Option` argument `file`. `exit()` becomes the `success` flag.
- Each variable is modelled in one fixed way: `skip_lines` as a natural number, `total_bytes` and `col` as unbounded integers, and the `-b` width as an unbounded integer. Negative `-l` values (which make the C loop count down through the whole `int` range) and overflow of `total_bytes` past `INT_MAX` are not modelled.
- The 64-byte `var_name` and `var_type` arrays and the `BUFSIZ` file-name array: names and types are unbounded strings, so overflowing them is not modelled.
- `fgets`'s limit of `BUFSIZ - 1` bytes per call is not modelled: `Bytes.Fgets` reads a whole line of any length.
- In `print_ascii`, a full buffer without a zero byte makes the walk run past the end of `buf` (undefined behaviour). The model walks exactly the buffer, as if a zero byte followed it.
- In `print_ascii`, the test `ptr[1] == '\0'` at the last byte of a full buffer is taken to hold.
- In `print_binary`, the bytes of each read are taken from the data by `Bytes.Fread` rather than through the global `buf`. The bytes printed are the same.
- The initial buffer `buf0` of `Program.Output` and `Program.Convert` may hold anything. The global `buf` of `main.c` (line 47) starts zero-filled. For that buffer, `SkipLines.ZeroBufferEchoAtEof` shows that skipping lines of an empty file in binary mode prints an empty comment `// ` per skipped line.
- The skip loop's buffer is carried as a value (`SkipLines.Refill`) and is not written back into the global array. Neither renderer reads what fgets left there: `print_ascii` clears the buffer before each read, and `print_binary` prints only the bytes `fread` returns.
- Reads are those of a regular file: `fread` returns fewer bytes than requested only at the end of the data, and then sets EOF. Read errors and short reads from pipes are not modelled.
- Characters are written as Unicode code points equal to the byte values, so no character encoding is modelled.

/**
 * `print_binary` (main.c, lines 115-146): every byte of the rest of the file
 * as a `0xHH` literal, comma separated, broken into rows of `columns`
 * literals, followed by a size constant.
 */
module BinaryRenderer {
  import opened Bytes
  import opened Numerals
  import opened Wrappers

  /**
   * Token g (0-based) of the n tokens is followed by a comma unless it is the
   * last one and n is not a multiple of the read size: only then does the
   * read holding the last byte come back short and set EOF.  When n is a
   * multiple of `size`, EOF is only seen by the next, empty, read, and the
   * last token keeps its comma (see CommaRule).
   */
  predicate HasComma(n: nat, size: nat, g: nat)
    requires size > 0
  {
    g + 1 < n || n % size == 0
  }

  /**
   * A line break follows token g (0-based) when g + 1 is a multiple of a
   * positive width; with a width of zero or less there is none (see BreakRule).
   */
  predicate HasBreak(columns: int, g: nat) {
    columns > 0 && (g + 1) % columns == 0
  }

  /** `printf("0x%02X", b)` */
  function Token(b: byte): (s: string)
    ensures |s| == 4
  {
    "0x" + Hex2(b)
  }

  /** A token, then its comma if any, then its line break if any. */
  function CellText(b: byte, comma: bool, lineBreak: bool): string {
    Token(b) + (if comma then "," else "") + (if lineBreak then "\n" else "")
  }

  /** What is printed for byte g of data. */
  function Cell(data: seq<byte>, g: nat, columns: int, size: nat): string
    requires g < |data| && size > 0
  {
    CellText(data[g], HasComma(|data|, size, g), HasBreak(columns, g))
  }

  /** The cells of bytes lo .. hi - 1 of data, in order. */
  function Cells(data: seq<byte>, lo: nat, hi: nat, columns: int, size: nat): string
    requires lo <= hi <= |data| && size > 0
    decreases hi - lo
  {
    if lo == hi then "" else Cells(data, lo, hi - 1, columns, size) + Cell(data, hi - 1, columns, size)
  }

  function BinaryHeader(varType: string, varName: string): string {
    varType + " " + varName + "[] = {\n"
  }

  function SizeFooter(varName: string, total: nat): string {
    "};\nconst size_t sz" + varName + " = " + Decimal(total) + ";"
  }

  /** Everything `print_binary` writes for a stream whose remaining contents are data. */
  function BinaryText(varType: string, varName: string, data: seq<byte>, columns: int, size: nat): string
    requires size > 0
  {
    BinaryHeader(varType, varName) + Cells(data, 0, |data|, columns, size) + SizeFooter(varName, |data|)
  }

  /**
   * `print_binary`: writes the array header, the tokens of every read, and the
   * closing brace with the `sz` constant holding the running byte total.
   */
  method PrintBinary(varType: string, varName: string, data: seq<byte>, columns: int, size: nat)
    returns (out: string)
    requires size > 0
    ensures out == BinaryText(varType, varName, data, columns, size)
  {
    out := varType + " " + varName + "[] = {\n";
    var tokens, totalBytes := ReadLoop(data, columns, size);
    out := out + tokens;
    out := out + "};\nconst size_t sz" + varName + " = " + Decimal(totalBytes) + ";";
  }

  /**
   * The outer loop of `print_binary`: reads `size` bytes at a time until EOF
   * or an empty read, keeping the running byte total and a column counter
   * that carries across reads.
   */
  method ReadLoop(data: seq<byte>, columns: int, size: nat) returns (out: string, totalBytes: nat)
    requires size > 0
    ensures out == Cells(data, 0, |data|, columns, size)
    ensures totalBytes == |data|
  {
    out := "";
    totalBytes := 0;
    var col := 0;
    var pos := 0;  // the stream position of fp
    var eof := false;
    while !eof
      invariant pos <= |data| && totalBytes == pos
      invariant !eof ==> pos % size == 0
      invariant eof ==> pos == |data|
      invariant col == Column(pos, columns)
      invariant out == Cells(data, 0, pos, columns, size)
      decreases |data| - pos + (if eof then 0 else 1)
    {
      var r := Fread(data, pos, size);
      var bytes := |r.bytes|;
      eof := r.eof;
      if bytes == 0 {
        break;
      }
      totalBytes := totalBytes + bytes;
      var next := pos + bytes;
      var text;
      text, col := PrintRead(r.bytes, eof, columns, col, data, pos, next, size);
      out := AppendRead(data, columns, size, out, pos, next, text);
      if !eof {
        NextReadOffset(pos, size);
      }
      pos := next;
    }
  }

  /** The tokens of the read from pos to next extend those of the reads before it. */
  method AppendRead(data: seq<byte>, columns: int, size: nat, out: string, pos: nat, next: nat, text: string)
    returns (out': string)
    requires size > 0 && pos <= next <= |data|
    requires out == Cells(data, 0, pos, columns, size)
    requires text == Cells(data, pos, next, columns, size)
    ensures out' == Cells(data, 0, next, columns, size)
  {
    CellsConcat(data, 0, pos, next, columns, size);
    out' := out + text;
  }

  /** A full read from a multiple of the read size ends at the next one. */
  lemma NextReadOffset(pos: nat, size: nat)
    requires size > 0 && pos % size == 0
    ensures (pos + size) % size == 0
  {
    DivMod(pos + size, size, pos / size + 1, 0);
  }

  /**
   * The inner loop of `print_binary`, `while (bytes--)`: the tokens of the
   * read that returned chunk at stream offset start and left the stream at
   * offset end.
   */
  method PrintRead(chunk: seq<byte>, eof: bool, columns: int, col0: int,
                   ghost data: seq<byte>, ghost start: nat, ghost end: nat, ghost size: nat)
    returns (text: string, col: int)
    requires size > 0 && start % size == 0
    requires ReadShape(data, start, size, |chunk|, eof) && end == start + |chunk|
    requires chunk == data[start..end]
    requires col0 == Column(start, columns)
    ensures text == Cells(data, start, end, columns, size)
    ensures col == Column(end, columns)
  {
    text, col := "", col0;
    var bytes := |chunk|;
    var ptr := 0;
    ghost var at := start;
    while bytes > 0
      invariant 0 <= bytes && ptr + bytes == |chunk| && at == start + ptr
      invariant col == Column(at, columns)
      invariant text == Cells(data, start, at, columns, size)
    {
      bytes := bytes - 1;
      var cell;
      cell, col := PrintToken(chunk[ptr], bytes, eof, columns, col);
      assert chunk[ptr] == data[at];
      ReadCell(data, size, start, end, at, eof, columns);
      text := text + cell;
      ptr := ptr + 1;
      at := at + 1;
    }
  }

  /** The token printed for byte at of the read from start to end is that byte's cell. */
  lemma ReadCell(data: seq<byte>, size: nat, start: nat, end: nat, at: nat, eof: bool, columns: int)
    requires size > 0 && start % size == 0 && start <= at < end
    requires ReadShape(data, start, size, end - start, eof)
    ensures CellText(data[at], end - at - 1 > 0 || !eof, Column(at, columns) + 1 == columns)
      == Cell(data, at, columns, size)
  {
    CommaRule(|data|, size, start, end - start, at, eof);
    BreakRule(at, columns);
  }

  /**
   * The body of `while (bytes--)` for byte b with `bytes` already
   * decremented: the token, a comma unless this is the read's last byte and
   * EOF is set, then a line break when the incremented column counter
   * reaches `columns`, which also resets it.
   */
  method PrintToken(b: byte, bytes: nat, eof: bool, columns: int, col0: int) returns (cell: string, col: int)
    ensures cell == CellText(b, bytes > 0 || !eof, col0 + 1 == columns)
    ensures col == if col0 + 1 == columns then 0 else col0 + 1
  {
    cell := Token(b);
    if bytes > 0 || !eof {
      cell := cell + ",";
    }
    col := col0 + 1;
    if col == columns {
      cell := cell + "\n";
      col := 0;
    }
  }

  /** Cells of adjacent ranges concatenate. */
  lemma {:induction false} CellsConcat(data: seq<byte>, lo: nat, mid: nat, hi: nat, columns: int, size: nat)
    requires lo <= mid <= hi <= |data| && size > 0
    ensures Cells(data, lo, mid, columns, size) + Cells(data, mid, hi, columns, size) == Cells(data, lo, hi, columns, size)
    decreases hi - mid
  {
    if mid < hi {
      CellsConcat(data, lo, mid, hi - 1, columns, size);
      var a, b, c := Cells(data, lo, mid, columns, size), Cells(data, mid, hi - 1, columns, size), Cell(data, hi - 1, columns, size);
      assert a + (b + c) == (a + b) + c;
    } else {
      assert Cells(data, mid, hi, columns, size) == "";
    }
  }

  /** Cells of a range, split after its first cell. */
  lemma CellsFirst(data: seq<byte>, lo: nat, hi: nat, columns: int, size: nat)
    requires lo < hi <= |data| && size > 0
    ensures Cells(data, lo, hi, columns, size) == Cell(data, lo, columns, size) + Cells(data, lo + 1, hi, columns, size)
  {
    CellsConcat(data, lo, lo + 1, hi, columns, size);
    assert Cells(data, lo, lo + 1, columns, size) == Cell(data, lo, columns, size);
  }

  /**
   * The C test `bytes || !feof(fp)` for byte g of a read of len bytes at
   * offset start is the comma rule stated on the whole stream.
   */
  lemma CommaRule(n: nat, size: nat, start: nat, len: nat, g: nat, eof: bool)
    requires size > 0 && start % size == 0 && start <= g < start + len <= n && len <= size
    requires eof <==> len < size
    requires eof ==> start + len == n
    ensures (g + 1 < start + len || !eof) == HasComma(n, size, g)
  {
    if !eof && g + 1 == n {
      DivMod(start + size, size, start / size + 1, 0);
    }
    if eof && g + 1 == n {
      DivMod(n, size, start / size, len);
    }
  }

  /** The value of `col` once g tokens have been printed. */
  function Column(g: nat, columns: int): int
  {
    if g == 0 then 0
    else if Column(g - 1, columns) + 1 == columns then 0
    else Column(g - 1, columns) + 1
  }

  /** The counter is the token count modulo a positive width; with any other width it never resets. */
  lemma {:induction false} ColumnIsModulo(g: nat, columns: int)
    ensures columns > 0 ==> Column(g, columns) == g % columns
    ensures columns <= 0 ==> Column(g, columns) == g
  {
    if g > 0 {
      ColumnIsModulo(g - 1, columns);
      if columns > 0 {
        ModSucc(g - 1, columns);
      }
    }
  }

  /** The test `++col == cols` after token g is the line-break rule. */
  lemma BreakRule(g: nat, columns: int)
    ensures Column(g, columns) + 1 == columns <==> HasBreak(columns, g)
  {
    ColumnIsModulo(g, columns);
    if columns > 0 {
      ModSucc(g, columns);
    }
  }

  /** Stepping a counter modulo m wraps at m. */
  lemma ModSucc(g: nat, m: int)
    requires m > 0
    ensures (g + 1) % m == if g % m + 1 == m then 0 else g % m + 1
  {
    DivMod(g + 1, m, g / m + (if g % m + 1 == m then 1 else 0), if g % m + 1 == m then 0 else g % m + 1);
  }

  /** The quotient by m goes up by one exactly when the dividend reaches a multiple of m. */
  lemma DivSucc(k: nat, m: int)
    requires m > 0
    ensures (k + 1) / m == k / m + (if (k + 1) % m == 0 then 1 else 0)
  {
    ModSucc(k, m);
    DivMod(k + 1, m, k / m + (if k % m + 1 == m then 1 else 0), if k % m + 1 == m then 0 else k % m + 1);
  }

  /** Quotient and remainder are unique. */
  lemma DivMod(a: int, m: int, q: int, r: int)
    requires m > 0 && a == q * m + r && 0 <= r < m
    ensures a / m == q && a % m == r
  {
    var q', r' := a / m, a % m;
    assert (q - q') * m == r' - r;
    if q > q' {
      MulAtLeast(q - q', m);
    } else if q < q' {
      MulAtLeast(q' - q, m);
    }
  }

  lemma MulAtLeast(d: int, m: int)
    requires d >= 1 && m > 0
    ensures d * m >= m
  {
  }

  // ----- Reading the rendered array back

  /** Drops one leading c, if there is one. */
  function DropIf(s: string, c: char): (r: string)
    ensures |r| <= |s|
  {
    if s != [] && s[0] == c then s[1..] else s
  }

  /**
   * The bytes an array initialiser of `0xHH` literals denotes, each literal
   * optionally followed by a comma and a line break; None when the text has
   * another shape.
   */
  function Decode(s: string): Option<seq<byte>>
    decreases |s|
  {
    if s == [] then Some([])
    else if !StartsWithLiteral(s) then None
    else Prepend(LiteralByte(s[2], s[3]), Decode(Separated(s[4..])))
  }

  /** Whether s starts with `0x` and two hexadecimal digits. */
  predicate StartsWithLiteral(s: string) {
    |s| >= 4 && s[0] == '0' && s[1] == 'x' && IsHexDigit(s[2]) && IsHexDigit(s[3])
  }

  /** The byte the digits hi and lo of a literal denote. */
  function LiteralByte(hi: char, lo: char): byte
    requires IsHexDigit(hi) && IsHexDigit(lo)
  {
    (HexValue(hi) * 16 + HexValue(lo)) as byte
  }

  /** What follows a literal once its comma and line break, if present, are dropped. */
  function Separated(t: string): (r: string)
    ensures |r| <= |t|
  {
    DropIf(DropIf(t, ','), '\n')
  }

  /** b in front of a decoded sequence; failure stays failure. */
  function Prepend(b: byte, o: Option<seq<byte>>): Option<seq<byte>> {
    match o
    case None => None
    case Some(bs) => Some([b] + bs)
  }

  /** One literal, its separators, and whatever literals follow decode as that byte in front of the rest. */
  lemma DecodeCellText(b: byte, comma: bool, lineBreak: bool, rest: string)
    requires rest == [] || rest[0] == '0'
    ensures Decode(CellText(b, comma, lineBreak) + rest) == Prepend(b, Decode(rest))
  {
    var s := CellText(b, comma, lineBreak) + rest;
    CellTextParts(b, comma, lineBreak, rest);
    assert LiteralByte(s[2], s[3]) == b;
  }

  /** The shape Decode inspects: `0x`, the two digits of b, then separators it drops before rest. */
  lemma CellTextParts(b: byte, comma: bool, lineBreak: bool, rest: string)
    requires rest == [] || rest[0] == '0'
    ensures var s := CellText(b, comma, lineBreak) + rest;
      StartsWithLiteral(s) && s[2] == Hex2(b)[0] && s[3] == Hex2(b)[1] && Separated(s[4..]) == rest
  {
    var s := CellText(b, comma, lineBreak) + rest;
    assert s[4..] == (if comma then "," else "") + (if lineBreak then "\n" else "") + rest;
  }

  /** The array holds exactly one literal per byte, in input order, each the byte's own value. */
  lemma {:induction false} DecodeCells(data: seq<byte>, k: nat, columns: int, size: nat)
    requires size > 0 && k <= |data|
    ensures Decode(Cells(data, k, |data|, columns, size)) == Some(data[k..])
    decreases |data| - k
  {
    if k < |data| {
      var rest := Cells(data, k + 1, |data|, columns, size);
      assert Decode(Cells(data, k, |data|, columns, size)) == Prepend(data[k], Decode(rest)) by {
        CellsFirst(data, k, |data|, columns, size);
        CellsHead(data, k + 1, |data|, columns, size);
        DecodeCellText(data[k], HasComma(|data|, size, k), HasBreak(columns, k), rest);
      }
      DecodeCells(data, k + 1, columns, size);
      assert data[k..] == [data[k]] + data[k + 1..];
    } else {
      assert data[k..] == [];
    }
  }

  /** A run of cells is empty or starts with the `0` of a literal. */
  lemma CellsHead(data: seq<byte>, lo: nat, hi: nat, columns: int, size: nat)
    requires lo <= hi <= |data| && size > 0
    ensures var c := Cells(data, lo, hi, columns, size);
      c == [] || c[0] == '0'
  {
    if lo < hi {
      CellsFirst(data, lo, hi, columns, size);
    }
  }

  lemma DecodeBinaryBody(data: seq<byte>, columns: int, size: nat)
    requires size > 0
    ensures Decode(Cells(data, 0, |data|, columns, size)) == Some(data)
  {
    DecodeCells(data, 0, columns, size);
    assert data[0..] == data;
  }

  lemma TokenCounts(b: byte)
    ensures CharCount(',', Token(b)) == 0 && CharCount('\n', Token(b)) == 0
  {
    var s := Token(b);
    assert s == [s[0]] + [s[1]] + [s[2]] + [s[3]];
    CharCountAppend(',', [s[0]] + [s[1]] + [s[2]], [s[3]]);
    CharCountAppend(',', [s[0]] + [s[1]], [s[2]]);
    CharCountAppend(',', [s[0]], [s[1]]);
    CharCountAppend('\n', [s[0]] + [s[1]] + [s[2]], [s[3]]);
    CharCountAppend('\n', [s[0]] + [s[1]], [s[2]]);
    CharCountAppend('\n', [s[0]], [s[1]]);
  }

  /** The commas and line breaks in one cell. */
  lemma CellCounts(data: seq<byte>, g: nat, columns: int, size: nat)
    requires g < |data| && size > 0
    ensures CharCount(',', Cell(data, g, columns, size)) == if HasComma(|data|, size, g) then 1 else 0
    ensures CharCount('\n', Cell(data, g, columns, size)) == if HasBreak(columns, g) then 1 else 0
  {
    var comma := if HasComma(|data|, size, g) then "," else "";
    var nl := if HasBreak(columns, g) then "\n" else "";
    TokenCounts(data[g]);
    CharCountAppend(',', Token(data[g]), comma);
    CharCountAppend(',', Token(data[g]) + comma, nl);
    CharCountAppend('\n', Token(data[g]), comma);
    CharCountAppend('\n', Token(data[g]) + comma, nl);
  }

  /** The line breaks among cells 0 .. k - 1: one per multiple of a positive width. */
  lemma {:induction false} BreakCountUpTo(data: seq<byte>, k: nat, columns: int, size: nat)
    requires size > 0 && k <= |data|
    ensures CharCount('\n', Cells(data, 0, k, columns, size)) == if columns > 0 then k / columns else 0
  {
    if k > 0 {
      BreakCountUpTo(data, k - 1, columns, size);
      CellCounts(data, k - 1, columns, size);
      CharCountAppend('\n', Cells(data, 0, k - 1, columns, size), Cell(data, k - 1, columns, size));
      if columns > 0 {
        DivSucc(k - 1, columns);
      }
    }
  }

  /** With width W > 0 the array has one line break per full row of W literals, and none otherwise. */
  lemma BreakCount(data: seq<byte>, columns: int, size: nat)
    requires size > 0
    ensures CharCount('\n', Cells(data, 0, |data|, columns, size)) == if columns > 0 then |data| / columns else 0
  {
    BreakCountUpTo(data, |data|, columns, size);
  }

  /** The commas among cells 0 .. k - 1: one per cell while more bytes follow. */
  lemma {:induction false} CommaCountUpTo(data: seq<byte>, k: nat, columns: int, size: nat)
    requires size > 0 && k <= |data|
    ensures CharCount(',', Cells(data, 0, k, columns, size))
      == k - (if k == |data| && k > 0 && |data| % size != 0 then 1 else 0)
  {
    if k > 0 {
      CommaCountUpTo(data, k - 1, columns, size);
      CellCounts(data, k - 1, columns, size);
      CharCountAppend(',', Cells(data, 0, k - 1, columns, size), Cell(data, k - 1, columns, size));
    }
  }

  /**
   * Every literal has a comma except the last one of a stream whose final
   * read was short; when the length is a multiple of the read size, the last
   * literal keeps a trailing comma.
   */
  lemma CommaCount(data: seq<byte>, columns: int, size: nat)
    requires size > 0
    ensures CharCount(',', Cells(data, 0, |data|, columns, size))
      == if data != [] && |data| % size != 0 then |data| - 1 else |data|
  {
    CommaCountUpTo(data, |data|, columns, size);
  }

  /** The printed size constant is the number of bytes rendered. */
  lemma SizeConstant(varName: string, data: seq<byte>)
    ensures var f := SizeFooter(varName, |data|);
      var prefix := "};\nconst size_t sz" + varName + " = ";
      f[..|prefix|] == prefix && ParseDecimal(f[|prefix|..|f| - 1]) == Some(|data|) && f[|f| - 1] == ';'
  {
    var prefix := "};\nconst size_t sz" + varName + " = ";
    var f := SizeFooter(varName, |data|);
    assert f[|prefix|..|f| - 1] == Decimal(|data|);
    DecimalRoundTrip(|data|);
  }

  /**
   * The character just before the closing `};` is a line break exactly when
   * the last row is full; after a short last row the brace follows the last
   * literal (or its comma) directly.
   */
  lemma BreakBeforeBrace(data: seq<byte>, columns: int, size: nat)
    requires size > 0 && data != []
    ensures var c := Cells(data, 0, |data|, columns, size);
      c != [] && (c[|c| - 1] == '\n' <==> columns > 0 && |data| % columns == 0)
  {
    var g := |data| - 1;
    var t := Token(data[g]);
    var comma := if HasComma(|data|, size, g) then "," else "";
    var nl := if HasBreak(columns, g) then "\n" else "";
    var c := Cells(data, 0, |data|, columns, size);
    assert c == Cells(data, 0, g, columns, size) + (t + comma + nl);
    assert t[3] == Hex2(data[g])[1];
    assert c[|c| - 1] == (t + comma + nl)[|t + comma + nl| - 1];
  }
}

/** Bytes, C strings and the stdio reads that both renderers of main.c perform. */
module Bytes {

  /** An `unsigned char`: one byte of the input file. */
  newtype byte = b: int | 0 <= b < 256

  const NUL: byte := 0
  const NL: byte := 10

  /** The character `putchar` writes for a byte (each byte is written unchanged). */
  function Char(b: byte): (c: char)
    ensures c as int == b as int
  {
    (b as int) as char
  }

  /** The characters written for the first n bytes of bs, one per byte, in order. */
  function CharsTo(bs: seq<byte>, n: nat): (s: string)
    requires n <= |bs|
    ensures |s| == n
  {
    if n == 0 then "" else CharsTo(bs, n - 1) + [Char(bs[n - 1])]
  }

  /** The characters written for a sequence of bytes. */
  function Chars(bs: seq<byte>): (s: string)
    ensures |s| == |bs|
  {
    CharsTo(bs, |bs|)
  }

  /** Number of occurrences of c in the text s. */
  function CharCount(c: char, s: string): (n: nat)
    ensures n <= |s|
  {
    if s == [] then 0 else (if s[0] == c then 1 else 0) + CharCount(c, s[1..])
  }

  lemma {:induction false} CharCountAppend(c: char, a: string, b: string)
    ensures CharCount(c, a + b) == CharCount(c, a) + CharCount(c, b)
  {
    if a == [] {
      assert a + b == b;
    } else {
      assert (a + b)[1..] == a[1..] + b;
      CharCountAppend(c, a[1..], b);
    }
  }

  /** Regrouping printed text. */
  lemma Associate(a: string, b: string, c: string)
    ensures (a + b) + c == a + (b + c)
  {
  }

  /** Printing nothing before or after a text leaves it as it is. */
  lemma AppendEmpty(a: string)
    ensures "" + a == a && a + "" == a
  {
  }

  /** The index of the first zero byte of bs at or after i, or |bs| when there is none. */
  function NulFrom(bs: seq<byte>, i: nat): (n: nat)
    requires i <= |bs|
    ensures i <= n <= |bs|
    decreases |bs| - i
  {
    if i == |bs| || bs[i] == NUL then i else NulFrom(bs, i + 1)
  }

  /** The length of the C string in a buffer holding bs. */
  function NulIndex(bs: seq<byte>): nat {
    NulFrom(bs, 0)
  }

  /**
   * The bytes a C string function sees in a buffer holding bs: everything
   * before the first zero byte.  A buffer without a zero byte is taken whole.
   */
  function UntilNul(bs: seq<byte>): seq<byte>
  {
    bs[..NulIndex(bs)]
  }

  /** The search stops at a zero byte or at the end, and passes over no zero byte. */
  lemma {:induction false} NulFromStops(bs: seq<byte>, i: nat)
    requires i <= |bs|
    ensures NulFrom(bs, i) == |bs| || bs[NulFrom(bs, i)] == NUL
    ensures forall j :: i <= j < NulFrom(bs, i) ==> bs[j] != NUL
    decreases |bs| - i
  {
    if i < |bs| && bs[i] != NUL {
      NulFromStops(bs, i + 1);
    }
  }

  /** The C string of bs ends at a zero byte or at the end of bs, and holds no zero byte. */
  lemma UntilNulHasNoNul(bs: seq<byte>)
    ensures NulIndex(bs) == |bs| || bs[NulIndex(bs)] == NUL
    ensures forall i :: 0 <= i < NulIndex(bs) ==> bs[i] != NUL
  {
    NulFromStops(bs, 0);
  }

  /** A buffer without a zero byte is its own C string. */
  lemma NoNulWhole(bs: seq<byte>)
    requires forall i :: 0 <= i < |bs| ==> bs[i] != NUL
    ensures NulIndex(bs) == |bs| && UntilNul(bs) == bs
  {
    NulFromStops(bs, 0);
  }

  /** The C string of a buffer ends at its first zero byte: nothing after it is seen. */
  lemma UntilNulStops(a: seq<byte>, b: seq<byte>)
    requires forall i :: 0 <= i < |a| ==> a[i] != NUL
    ensures UntilNul(a + [NUL] + b) == a
  {
    var c := a + [NUL] + b;
    NulFromStops(c, 0);
    assert c[|a|] == NUL;
    assert c[..|a|] == a;
  }

  /** Up to the C string's end, the walk `while (*ptr)` goes on exactly while there is a nonzero byte. */
  lemma NulGuard(bs: seq<byte>, i: nat)
    requires i <= NulIndex(bs)
    ensures i < NulIndex(bs) <==> (i < |bs| && bs[i] != NUL)
  {
    NulFromStops(bs, 0);
  }

  /** The result of one `fread(buf, 1, size, fp)`: the bytes read, and whether EOF is now set. */
  datatype Read = Read(bytes: seq<byte>, eof: bool)

  /**
   * What `fread` of up to `size` bytes at offset pos promises about the n
   * bytes it returns and the EOF indicator: fewer than `size` bytes only at
   * the end of the data, and EOF set exactly then.
   */
  predicate ReadShape(data: seq<byte>, pos: nat, size: nat, n: nat, eof: bool) {
    && pos + n <= |data| && n <= size
    && (eof <==> n < size)
    && (eof ==> pos + n == |data|)
  }

  /**
   * `fread` of up to `size` bytes from a regular file whose contents are data,
   * at offset pos.  It returns fewer than `size` bytes only at end of file, and
   * only then sets the EOF indicator: a read that takes exactly the last
   * `size` bytes leaves EOF clear, and the next read returns no bytes.
   */
  function Fread(data: seq<byte>, pos: nat, size: nat): (r: Read)
    requires pos <= |data|
    ensures ReadShape(data, pos, size, |r.bytes|, r.eof)
  {
    if |data| - pos < size then Read(data[pos..], true) else Read(data[pos..pos + size], false)
  }

  /** The bytes a read returns are the next bytes of the data, from the offset on. */
  lemma FreadContents(data: seq<byte>, pos: nat, size: nat)
    requires pos <= |data|
    ensures var r := Fread(data, pos, size);
      r.bytes == data[pos..pos + |r.bytes|]
  {
  }

  /** Zero padding after bs does not move the first zero byte at or after i. */
  lemma {:induction false} NulFromPadded(bs: seq<byte>, pad: seq<byte>, i: nat)
    requires i <= |bs|
    requires forall j :: 0 <= j < |pad| ==> pad[j] == NUL
    ensures NulFrom(bs + pad, i) == NulFrom(bs, i)
    decreases |bs| - i
  {
    if i == |bs| {
      if pad != [] {
        assert (bs + pad)[i] == pad[0];
      }
    } else {
      assert (bs + pad)[i] == bs[i];
      if bs[i] != NUL {
        NulFromPadded(bs, pad, i + 1);
      }
    }
  }

  /** Cleared buffer space after bs does not change its C string. */
  lemma UntilNulPadded(bs: seq<byte>, pad: seq<byte>)
    requires forall i :: 0 <= i < |pad| ==> pad[i] == NUL
    ensures NulIndex(bs + pad) == NulIndex(bs)
    ensures UntilNul(bs + pad) == UntilNul(bs)
  {
    NulFromPadded(bs, pad, 0);
    assert (bs + pad)[..NulIndex(bs)] == bs[..NulIndex(bs)];
  }

  /**
   * `fread(buf, 1, buf.Length, fp)` into a buffer: the first n bytes of buf
   * become the bytes Fread returns, the rest of the buffer is left as it was.
   */
  method FreadInto(buf: array<byte>, data: seq<byte>, pos: nat) returns (n: nat, eof: bool)
    requires pos <= |data|
    modifies buf
    ensures n == |Fread(data, pos, buf.Length).bytes| && eof == Fread(data, pos, buf.Length).eof
    ensures buf[..n] == Fread(data, pos, buf.Length).bytes
    ensures buf[n..] == old(buf[n..])
  {
    var r := Fread(data, pos, buf.Length);
    n, eof := |r.bytes|, r.eof;
    var i := 0;
    while i < n
      invariant 0 <= i <= n
      invariant buf[..i] == r.bytes[..i]
      invariant buf[n..] == old(buf[n..])
    {
      buf[i] := r.bytes[i];
      i := i + 1;
    }
  }

  /** The offset just past the line `fgets` takes at offset pos: through the first newline, or to the end. */
  function LineEnd(data: seq<byte>, pos: nat): (e: nat)
    requires pos <= |data|
    ensures pos <= e <= |data|
    ensures pos < |data| ==> pos < e
    decreases |data| - pos
  {
    if pos == |data| then pos else if data[pos] == NL then pos + 1 else LineEnd(data, pos + 1)
  }

  /** Whether a line ends in a newline. */
  predicate EndsInNewline(l: seq<byte>) {
    l != [] && l[|l| - 1] == NL
  }

  /** A line without a newline at its end runs to the end of the data, and holds no newline before its last byte. */
  lemma {:induction false} LineEndStops(data: seq<byte>, pos: nat)
    requires pos <= |data|
    ensures var e := LineEnd(data, pos);
      (EndsInNewline(data[pos..e]) <==> pos < e && data[e - 1] == NL)
      && (!EndsInNewline(data[pos..e]) ==> e == |data|)
      && (forall k :: pos <= k < e - 1 ==> data[k] != NL)
    decreases |data| - pos
  {
    if pos < |data| && data[pos] != NL {
      LineEndStops(data, pos + 1);
    }
  }

  /**
   * `fgets` at offset pos, with no limit on the line length: the line read,
   * and whether EOF is now set, which happens when the read reaches the end
   * of the data before a newline (in particular when nothing is left).
   */
  function Fgets(data: seq<byte>, pos: nat): (r: Read)
    requires pos <= |data|
    ensures pos + |r.bytes| == LineEnd(data, pos)
    ensures r.eof <==> !EndsInNewline(r.bytes)
    ensures r.eof ==> pos + |r.bytes| == |data|
    ensures r.bytes == [] <==> pos == |data|
    ensures r.bytes == data[pos..LineEnd(data, pos)]
  {
    LineEndStops(data, pos);
    var l := data[pos..LineEnd(data, pos)];
    Read(l, !EndsInNewline(l))
  }
}

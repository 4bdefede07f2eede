/**
 * The default variable name and type that `main` derives when `-n` or `-t`
 * was not given (main.c, lines 210-232).
 */
module Naming {
  import opened Wrappers

  /** `strrchr(s, c)`: the index of the last c in s, if any. */
  function LastIndexOf(s: string, c: char): (r: Option<nat>)
    ensures r.Some? ==> r.value < |s| && s[r.value] == c
    ensures r.Some? ==> forall k :: r.value < k < |s| ==> s[k] != c
    ensures r.None? ==> c !in s
  {
    if s == [] then None
    else if s[|s| - 1] == c then Some(|s| - 1)
    else
      LastIndexOf(s[..|s| - 1], c)
  }

  /** `strchr(s, c)`, with the end of the string standing for "not found". */
  function FirstIndexOf(s: string, c: char): (r: nat)
    ensures r <= |s| && forall k :: 0 <= k < r ==> s[k] != c
    ensures r < |s| ==> s[r] == c
  {
    if s == [] || s[0] == c then 0
    else
      FirstIndexOf(s[1..], c) + 1
  }

  /** Where the derived name starts: just after the last '/', or at 0 when there is none. */
  function NameStart(path: string): (i: nat)
    ensures i <= |path|
    ensures (i == 0 && '/' !in path) || (0 < i && path[i - 1] == '/')
    ensures forall k :: i <= k < |path| ==> path[k] != '/'
  {
    match LastIndexOf(path, '/')
    case None => 0
    case Some(k) => k + 1
  }

  /**
   * The name derived from a path: what follows the last '/' (the whole path
   * when there is none), up to the first '.' after it (to the end when there
   * is none).  The path is a C string from the command line, so it holds no
   * NUL character and the end of the sequence is the end of the string.
   */
  function DerivedName(path: string): (name: string)
    ensures '/' !in name && '.' !in name
    ensures |name| <= |path|
  {
    var tail := path[NameStart(path)..];
    tail[..FirstIndexOf(tail, '.')]
  }

  /**
   * The derived name is determined by how it sits in the path: whenever the
   * path splits as p + n + s with p empty (and no '/' anywhere) or ending in
   * the last '/', n free of '.', and s empty or starting with '.', the
   * derived name is n.
   */
  lemma DerivedNameUnique(path: string, p: string, n: string, s: string)
    requires path == p + n + s
    requires (p == [] && '/' !in path) || (p != [] && p[|p| - 1] == '/' && '/' !in n + s)
    requires '.' !in n
    requires s == [] || s[0] == '.'
    ensures DerivedName(path) == n
  {
    var start := NameStart(path);
    if p != [] {
      assert path[|p| - 1] == '/';
      assert forall k :: |p| <= k < |path| ==> path[k] == (n + s)[k - |p|];
    }
    assert start == |p|;
    var tail := path[start..];
    assert tail == n + s;
    var end := FirstIndexOf(tail, '.');
    assert forall k :: 0 <= k < |n| ==> tail[k] == n[k];
    assert s != [] ==> tail[|n|] == s[0];
    assert end == |n|;
    assert tail[..end] == n;
  }

  /** Every path has such a split, so the characterisation above is complete. */
  lemma DerivedNameSplit(path: string) returns (i: nat, j: nat)
    ensures i <= j <= |path| && DerivedName(path) == path[i..j]
    ensures (i == 0 && '/' !in path) || (i > 0 && path[i - 1] == '/' && '/' !in path[i..])
    ensures j == |path| || path[j] == '.'
  {
    i := NameStart(path);
    var tail := path[i..];
    j := i + FirstIndexOf(tail, '.');
    assert DerivedName(path) == path[i..j];
    assert j < |path| ==> path[j] == tail[j - i];
    assert '/' !in path[i..];
  }

  /** The names the documentation gives as examples. */
  lemma DerivedNameOfPath()
    ensures DerivedName("/a/b/name.ext") == "name"
  {
    DerivedNameUnique("/a/b/name.ext", "/a/b/", "name", ".ext");
  }

  /** A path with no '/' and no '.' is its own name. */
  lemma DerivedNameOfBareName(path: string)
    requires '/' !in path && '.' !in path
    ensures DerivedName(path) == path
  {
    DerivedNameUnique(path, "", path, "");
  }

  /** The name stops at the first '.' after the last '/', not at the last '.'. */
  lemma DerivedNameStopsAtFirstDot()
    ensures DerivedName("a/b.c.d") == "b"
  {
    DerivedNameUnique("a/b.c.d", "a/", "b", ".c.d");
  }

  /** The type used when `-t` was not given: an element type in binary mode, a pointer otherwise. */
  function DefaultType(binary: int): (t: string)
    ensures t == "const char" <==> binary != 0
    ensures t == "const char*" <==> binary == 0
  {
    if binary != 0 then "const char" else "const char*"
  }

  /** `-n`: an empty or missing name means "derive it from the path". */
  function ResolveName(given: string, path: string): (name: string)
    ensures given != [] ==> name == given
    ensures given == [] ==> name == DerivedName(path)
  {
    if |given| == 0 then DerivedName(path) else given
  }

  /** `-t`: an empty or missing type means the default for the mode. */
  function ResolveType(given: string, binary: int): (t: string)
    ensures given != [] ==> t == given
    ensures given == [] ==> (t == "const char" <==> binary != 0)
    ensures given == [] ==> (t == "const char*" <==> binary == 0)
  {
    if |given| == 0 then DefaultType(binary) else given
  }
}

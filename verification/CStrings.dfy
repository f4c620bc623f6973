/** NUL-terminated strings in fixed-size character buffers, and the one
    library call the firmware edits them with. A `char` stands for a byte. */
module CStrings {

  const NUL := '\0'

  predicate NulFree(s: string) {
    NUL !in s
  }

  /** The C string held by a buffer: everything before the first NUL. */
  function CStr(buf: seq<char>): (s: string)
    ensures |s| <= |buf| && s == buf[..|s|] && NulFree(s)
    ensures |s| < |buf| ==> buf[|s|] == NUL
  {
    if buf == [] || buf[0] == NUL then [] else [buf[0]] + CStr(buf[1..])
  }

  function Zeros(n: nat): (z: seq<char>)
    ensures |z| == n && forall i :: 0 <= i < n ==> z[i] == NUL
  {
    seq(n, _ => NUL)
  }

  function Min(a: int, b: int): int {
    if a <= b then a else b
  }

  /** The buffer after `strncpy(dst, src, n)`: the source cut to `n` bytes,
      NUL padding up to `n`, and the bytes from `n` on untouched. */
  function Copied(dst: seq<char>, src: string, n: nat): (r: seq<char>)
    requires n <= |dst|
    ensures |r| == |dst|
  {
    var k := Min(|src|, n);
    src[..k] + Zeros(n - k) + dst[n..]
  }

  /** A NUL-free run followed by a NUL is the buffer's C string. */
  lemma {:induction false} CStrIs(buf: seq<char>, s: string)
    requires |s| <= |buf| && buf[..|s|] == s && NulFree(s)
    requires |s| == |buf| || buf[|s|] == NUL
    ensures CStr(buf) == s
  {
    var t := CStr(buf);
    if |t| < |s| {
      assert false;
    } else if |s| < |t| {
      assert false;
    }
  }

  /** Copying into all but the last byte of a buffer that ends in NUL stores
      exactly the source cut to fit. */
  lemma CopiedHolds(dst: seq<char>, src: string)
    requires |dst| > 0 && dst[|dst| - 1] == NUL && NulFree(src)
    ensures CStr(Copied(dst, src, |dst| - 1)) == src[..Min(|src|, |dst| - 1)]
  {
    var n := |dst| - 1;
    var k := Min(|src|, n);
    var r := Copied(dst, src, n);
    assert r[..k] == src[..k];
    if k == n {
      assert r[k] == dst[n];
    }
    CStrIs(r, src[..k]);
  }

  /** `strncpy`, byte by byte. */
  method Strncpy(dst: array<char>, src: string, n: nat)
    requires n <= dst.Length
    modifies dst
    ensures dst[..] == Copied(old(dst[..]), src, n)
  {
    ghost var was := dst[..];
    var i := 0;
    while i < n && i < |src|
      invariant i <= n && i <= |src|
      invariant forall j :: 0 <= j < i ==> dst[j] == src[j]
      invariant forall j :: i <= j < dst.Length ==> dst[j] == was[j]
    {
      dst[i] := src[i];
      i := i + 1;
    }
    ghost var k := i;
    while i < n
      invariant k <= i <= n
      invariant forall j :: 0 <= j < k ==> dst[j] == src[j]
      invariant forall j :: k <= j < i ==> dst[j] == NUL
      invariant forall j :: i <= j < dst.Length ==> dst[j] == was[j]
    {
      dst[i] := NUL;
      i := i + 1;
    }
    CopiedAt(was, src, n);
  }

  /** The copied buffer, byte by byte. */
  lemma CopiedAt(dst: seq<char>, src: string, n: nat)
    requires n <= |dst|
    ensures forall j :: 0 <= j < |dst| ==>
              Copied(dst, src, n)[j] == if n <= j then dst[j] else if j < |src| then src[j] else NUL
  {
  }

  // --- Searching ---

  /** `strncmp(s, prefix, strlen(prefix)) == 0` */
  predicate StartsWith(s: string, prefix: string) {
    |prefix| <= |s| && forall i :: 0 <= i < |prefix| ==> s[i] == prefix[i]
  }

  /** Position of the first `c`, or the length if there is none. */
  function IndexOf(s: string, c: char): (k: nat)
    ensures k <= |s| && c !in s[..k]
    ensures k < |s| ==> s[k] == c
  {
    if s == "" || s[0] == c then 0 else 1 + IndexOf(s[1..], c)
  }

  lemma {:induction false} IndexIs(s: string, c: char, rest: string)
    requires c !in s && (rest == "" || rest[0] == c)
    ensures IndexOf(s + rest, c) == |s|
  {
    if s == "" {
      assert s + rest == rest;
    } else {
      assert (s + rest)[1..] == s[1..] + rest;
      assert s[0] in s;
      IndexIs(s[1..], c, rest);
    }
  }

  lemma {:induction false} IndexAt(s: string, c: char, k: nat)
    requires k < |s| && s[k] == c && forall i :: 0 <= i < k ==> s[i] != c
    ensures IndexOf(s, c) == k
  {
    if k > 0 {
      IndexAt(s[1..], c, k - 1);
    }
  }

  lemma Prefixed(pre: string, p: string)
    ensures (pre + p)[..|pre|] == pre && (pre + p)[|pre|..] == p
  {
  }
}

/** NUL-terminated text in fixed `char` buffers, and the C library calls the log
    code makes on them. */
module CText {
  import opened Common

  const NUL := '\0'

  /** The text a buffer holds: everything before its first NUL. */
  function CStr(s: string): (r: string)
    ensures r <= s && NUL !in r
    ensures |r| < |s| ==> s[|r|] == NUL
  {
    if s == [] || s[0] == NUL then [] else [s[0]] + CStr(s[1..])
  }

  lemma {:induction false} NulFound(s: string)
    requires NUL in s
    ensures |CStr(s)| < |s|
  {
    if s[0] != NUL {
      NulFound(s[1..]);
    }
  }

  lemma {:induction false} CStrIs(s: string, text: string)
    requires NUL !in text && |text| < |s|
    requires text <= s && s[|text|] == NUL
    ensures CStr(s) == text
  {
    if text != [] {
      CStrIs(s[1..], text[1..]);
    }
  }

  method StrLen(buf: array<char>) returns (n: nat)
    requires NUL in buf[..]
    ensures n == |CStr(buf[..])| < buf.Length
  {
    n := 0;
    ghost var text := CStr(buf[..]);
    NulFound(buf[..]);
    while buf[n] != NUL
      invariant n <= |text| && NUL !in buf[..n]
      decreases buf.Length - n
    {
      n := n + 1;
    }
    CStrIs(buf[..], buf[..n]);
  }

  /** `strncat`: the room the C call needs is a precondition. */
  method StrNCat(dst: array<char>, src: string, n: nat)
    requires NUL in dst[..] && NUL !in src
    requires |CStr(dst[..])| + Min(n, |src|) < dst.Length
    modifies dst
    ensures NUL in dst[..]
    ensures CStr(dst[..]) == old(CStr(dst[..])) + Take(src, n)
    ensures |src| <= n ==> CStr(dst[..]) == old(CStr(dst[..])) + src
  {
    ghost var before := CStr(dst[..]);
    var len := StrLen(dst);
    var k := Min(n, |src|);
    for i := 0 to k
      invariant dst[..len] == before
      invariant dst[len..len + i] == src[..i]
    {
      dst[len + i] := src[i];
    }
    dst[len + k] := NUL;
    assert dst[..len + k] == before + src[..k];
    CStrIs(dst[..], before + src[..k]);
    assert dst[..][len + k] == NUL;
  }

  /** `snprintf(buf, sizeof buf, ...)` of an already formatted text. */
  method SnPrintf(buf: array<char>, text: string)
    requires 0 < buf.Length && NUL !in text
    modifies buf
    ensures NUL in buf[..]
    ensures CStr(buf[..]) == Take(text, buf.Length - 1)
    ensures |text| < buf.Length ==> CStr(buf[..]) == text
  {
    var k := Min(|text|, buf.Length - 1);
    for i := 0 to k
      invariant buf[..i] == text[..i]
    {
      buf[i] := text[i];
    }
    buf[k] := NUL;
    CStrIs(buf[..], text[..k]);
    assert buf[..][k] == NUL;
  }
}

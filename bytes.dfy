/** Bytes as the scanner sees them, C strings, and ASCII case folding. */
module Bytes {

  newtype byte = x: int | 0 <= x < 256

  const NUL: byte := 0
  const NEWLINE: byte := 10

  predicate IsUpper(b: byte) { 65 <= b <= 90 }

  /** `tolower` in the C locale, on the byte values 0..255 (ASCII folding only). */
  function ToLower(b: byte): (r: byte)
    ensures !IsUpper(r)
    ensures r == b || (IsUpper(b) && r as int == b as int + 32)
    ensures r == NUL <==> b == NUL
    ensures r == NEWLINE <==> b == NEWLINE
  {
    if IsUpper(b) then b + 32 else b
  }

  /** The C string a byte buffer holds: every byte before the first NUL. */
  function CString(s: seq<byte>): (r: seq<byte>)
    ensures |r| <= |s| && r == s[..|r|]
    ensures NUL !in r
    ensures |r| < |s| ==> s[|r|] == NUL
  {
    if s == [] || s[0] == NUL then [] else [s[0]] + CString(s[1..])
  }

  lemma {:induction false} CStringOfNulFree(s: seq<byte>)
    requires NUL !in s
    ensures CString(s) == s
  {
    if s != [] {
      CStringOfNulFree(s[1..]);
    }
  }

  lemma {:induction false} CStringOfTerminated(s: seq<byte>, t: seq<byte>)
    requires NUL !in s && t != [] && t[0] == NUL
    ensures CString(s + t) == s
  {
    if s == [] {
      assert s + t == t;
    } else {
      assert (s + t)[1..] == s[1..] + t;
      CStringOfTerminated(s[1..], t);
    }
  }
}

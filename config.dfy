/** Search configuration fixed at creation: the mode and the prepared pattern,
    and the per-position match predicate the scanner evaluates. */
module Config {
  import opened Arith
  import opened Bytes

  datatype Option<T> = None | Some(value: T)

  datatype Mode = Plain | Insensitive

  /** `search_string` is a 256-byte buffer; at most 255 pattern bytes are copied into it. */
  const SEARCH_STRING_SIZE: nat := 256
  const MAX_PATTERN_LENGTH: nat := 255

  /** The mode name the host passes for each mode. */
  function ModeName(mode: Mode): (r: seq<byte>)
    ensures NUL !in r
  {
    match mode
    case Plain => [0x70, 0x6c, 0x61, 0x69, 0x6e]  // "plain"
    case Insensitive => [0x69, 0x6e, 0x73, 0x65, 0x6e, 0x73, 0x69, 0x74, 0x69, 0x76, 0x65]  // "insensitive"
  }

  /** The mode check at creation: the C string must be exactly "plain" or "insensitive". */
  function ParseMode(name: seq<byte>): (r: Option<Mode>)
    ensures r.Some? ==> CString(name) == ModeName(r.value)
    ensures r.None? ==> forall mode: Mode :: CString(name) != ModeName(mode)
  {
    var s := CString(name);
    if s == ModeName(Plain) then Some(Plain)
    else if s == ModeName(Insensitive) then Some(Insensitive)
    else None
  }

  lemma ParseModeName(mode: Mode)
    ensures ParseMode(ModeName(mode)) == Some(mode)
  {
    CStringOfNulFree(ModeName(mode));
    assert ModeName(Plain)[0] != ModeName(Insensitive)[0];
  }

  /** The per-byte comparison: exact in plain mode, ASCII `tolower` in insensitive mode. */
  function Fold(mode: Mode, b: byte): byte
  {
    match mode
    case Plain => b
    case Insensitive => ToLower(b)
  }

  function FoldAll(mode: Mode, s: seq<byte>): (r: seq<byte>)
    ensures |r| == |s|
    ensures forall k :: 0 <= k < |s| ==> r[k] == Fold(mode, s[k])
  {
    seq(|s|, k requires 0 <= k < |s| => Fold(mode, s[k]))
  }

  /** The pattern as the workers see it: the C string of the host's pattern,
      cut to 255 bytes, and lowercased once in insensitive mode. */
  function PreparePattern(raw: seq<byte>, mode: Mode): (r: seq<byte>)
    ensures |r| == IMin(|CString(raw)|, MAX_PATTERN_LENGTH)
    ensures forall k :: 0 <= k < |r| ==> r[k] == Fold(mode, raw[k])
    ensures NUL !in r
    ensures mode == Plain ==> r == raw[..|r|]
    ensures mode == Insensitive ==> forall k :: 0 <= k < |r| ==> !IsUpper(r[k])
  {
    var s := CString(raw);
    FoldAll(mode, s[..IMin(|s|, MAX_PATTERN_LENGTH)])
  }

  /** The pattern matches at position `p` of `v`: every one of the next |pat| bytes,
      folded per the mode, equals the pattern byte. Bytes past the end of `v`
      never match. */
  predicate MatchAt(v: seq<byte>, p: nat, pat: seq<byte>, mode: Mode)
  {
    p + |pat| <= |v| && forall j :: 0 <= j < |pat| ==> Fold(mode, v[p + j]) == pat[j]
  }

  /** In plain mode a position matches exactly when the bytes there are the pattern. */
  lemma PlainMatchIsEquality(v: seq<byte>, p: nat, pat: seq<byte>)
    ensures MatchAt(v, p, pat, Plain) <==> p + |pat| <= |v| && v[p..p + |pat|] == pat
  {
    if p + |pat| <= |v| && v[p..p + |pat|] == pat {
      forall j | 0 <= j < |pat| ensures Fold(Plain, v[p + j]) == pat[j] {
        assert v[p..p + |pat|][j] == v[p + j];
      }
    }
  }

  /** In insensitive mode, two windows that agree up to ASCII case match alike. */
  lemma InsensitiveIgnoresCase(v: seq<byte>, p: nat, w: seq<byte>, q: nat, pat: seq<byte>)
    requires p + |pat| <= |v| && q + |pat| <= |w|
    requires FoldAll(Insensitive, v[p..p + |pat|]) == FoldAll(Insensitive, w[q..q + |pat|])
    ensures MatchAt(v, p, pat, Insensitive) <==> MatchAt(w, q, pat, Insensitive)
  {
    forall j | 0 <= j < |pat|
      ensures Fold(Insensitive, v[p + j]) == pat[j] <==> Fold(Insensitive, w[q + j]) == pat[j]
    {
      assert v[p..p + |pat|][j] == v[p + j];
      assert w[q..q + |pat|][j] == w[q + j];
      assert FoldAll(Insensitive, v[p..p + |pat|])[j] == FoldAll(Insensitive, w[q..q + |pat|])[j];
    }
  }

  /** With the prepared pattern, insensitive mode matches at `p` exactly when the next
      bytes equal the host's pattern, cut to 255 bytes, up to ASCII case. */
  lemma {:induction false} InsensitiveFindsAnyCase(raw: seq<byte>, v: seq<byte>, p: nat)
    ensures var k := IMin(|CString(raw)|, MAX_PATTERN_LENGTH);
      MatchAt(v, p, PreparePattern(raw, Insensitive), Insensitive) <==>
        p + k <= |v| && FoldAll(Insensitive, v[p..p + k]) == FoldAll(Insensitive, CString(raw)[..k])
  {
    var s := CString(raw);
    var k := IMin(|s|, MAX_PATTERN_LENGTH);
    var pat := PreparePattern(raw, Insensitive);
    assert |pat| == k;
    if p + k <= |v| {
      var lhs := FoldAll(Insensitive, v[p..p + k]);
      var rhs := FoldAll(Insensitive, s[..k]);
      forall j | 0 <= j < k ensures lhs[j] == Fold(Insensitive, v[p + j]) && rhs[j] == pat[j] {
        assert v[p..p + k][j] == v[p + j];
        assert s[..k][j] == raw[j];
      }
      if MatchAt(v, p, pat, Insensitive) {
        assert lhs == rhs;
      }
      if lhs == rhs {
        forall j | 0 <= j < k ensures Fold(Insensitive, v[p + j]) == pat[j] {
          assert lhs[j] == rhs[j];
        }
      }
    }
  }

  /** Plain mode is case-sensitive: pattern "abc" does not match "ABC"; insensitive mode
      matches it, and "aBc", alike. */
  lemma PlainIsCaseSensitive()
    ensures !MatchAt([0x41, 0x42, 0x43], 0, [0x61, 0x62, 0x63], Plain)
    ensures MatchAt([0x41, 0x42, 0x43], 0, [0x61, 0x62, 0x63], Insensitive)
    ensures MatchAt([0x61, 0x42, 0x63], 0, [0x61, 0x62, 0x63], Insensitive)
  {
    var big: seq<byte>, small: seq<byte>, mixed: seq<byte> := [0x41, 0x42, 0x43], [0x61, 0x62, 0x63], [0x61, 0x42, 0x63];
    assert Fold(Plain, big[0]) != small[0];
    assert forall j :: 0 <= j < 3 ==> Fold(Insensitive, big[0 + j]) == small[j];
    assert forall j :: 0 <= j < 3 ==> Fold(Insensitive, mixed[0 + j]) == small[j];
  }

  /** `strlen` is unchanged when a buffer's non-NUL bytes are replaced by non-NUL bytes. */
  lemma {:induction false} CStringLengthByNul(s: seq<byte>, t: seq<byte>)
    requires |s| == |t|
    requires forall k :: 0 <= k < |s| ==> (s[k] == NUL <==> t[k] == NUL)
    ensures |CString(s)| == |CString(t)|
  {
    if s != [] && s[0] != NUL {
      CStringLengthByNul(s[1..], t[1..]);
    }
  }

  /** The lowercasing loop of creation: `tolower` applied in place to every byte
      before the buffer's first NUL. */
  method LowercaseInPlace(a: array<byte>)
    modifies a
    ensures |CString(a[..])| == |CString(old(a[..]))|
    ensures forall k :: 0 <= k < |CString(old(a[..]))| ==> a[k] == ToLower(old(a[k]))
    ensures forall k :: |CString(old(a[..]))| <= k < a.Length ==> a[k] == old(a[k])
  {
    ghost var before := a[..];
    var i := 0;
    while i < |CString(a[..])|
      invariant 0 <= i <= |CString(before)|
      invariant |CString(a[..])| == |CString(before)|
      invariant forall k :: 0 <= k < i ==> a[k] == ToLower(before[k])
      invariant forall k :: i <= k < a.Length ==> a[k] == before[k]
    {
      a[i] := ToLower(a[i]);
      i := i + 1;
      CStringLengthByNul(before, a[..]);
    }
  }
}

/** The `text` field of a match slot, a 256-byte buffer that `strncpy` fills with the
    snippet and that the drain hands on as a C string. */
module HitText {
  import opened Bytes
  import opened Config
  import opened Context

  /** A `match_entry_t` text buffer holds 256 bytes. */
  const TEXT_SIZE: nat := MAX_HIT_LENGTH

  function Zeros(n: nat): (r: seq<byte>)
    ensures |r| == n && forall k :: 0 <= k < n ==> r[k] == NUL
  {
    seq(n, k => NUL)
  }

  /** `strncpy(dst, src, n)`: the bytes of `src` up to its first NUL among the first
      `n`, then NUL padding up to `n`; the bytes of `dst` from `n` on are left as they
      were. */
  function Strncpy(dst: seq<byte>, src: seq<byte>, n: nat): (r: seq<byte>)
    requires n <= |dst| && n <= |src|
    ensures |r| == |dst|
    ensures r[..n] == CString(src[..n]) + Zeros(n - |CString(src[..n])|)
    ensures r[n..] == dst[n..]
  {
    var c := CString(src[..n]);
    var r := c + Zeros(n - |c|) + dst[n..];
    assert r[..n] == c + Zeros(n - |c|);
    r
  }

  /** What `lua_pushstring` reads from a buffer: its C string, or nothing defined when
      the buffer holds no NUL (the read runs on past the buffer). */
  function Shown(buf: seq<byte>): (r: Option<seq<byte>>)
    ensures r.Some? <==> NUL in buf
    ensures r.Some? ==> r.value == CString(buf)
  {
    if NUL in buf then Some(CString(buf)) else None
  }

  /** The text the drain hands on for a record: the snippet up to its first NUL, or
      nothing defined when the snippet length was negative. */
  function ShownText(ctx: Context): (r: Option<seq<byte>>)
    ensures ctx.UndefinedCopy? <==> r.None?
    ensures ctx.Copied? ==>
      && |r.value| <= |ctx.text| && r.value == ctx.text[..|r.value|] && NUL !in r.value
      && (|r.value| < |ctx.text| ==> ctx.text[|r.value|] == NUL)
  {
    match ctx
    case Copied(text) => Some(CString(text))
    case UndefinedCopy(_) => None
  }

  /** As written, a slot whose old contents go on past a NUL-free snippet without a
      NUL right after it shows more than the snippet: the copy writes no terminator. */
  lemma StaleTailShown(dst: seq<byte>, src: seq<byte>, n: nat)
    requires n < |dst| && n <= |src| && NUL !in src[..n] && dst[n] != NUL
    ensures Shown(Strncpy(dst, src, n)) != ShownText(Copied(src[..n]))
  {
    var r := Strncpy(dst, src, n);
    CStringOfNulFree(src[..n]);
    assert r[..n] == src[..n];
    forall k | 0 <= k <= n ensures r[k] != NUL {
      if k < n {
        assert r[k] == r[..n][k] == src[..n][k];
      }
    }
    if NUL in r {
      assert |CString(r)| > n;
    }
  }

  /** As written, the drain shows exactly the snippet when, and only when, the snippet
      holds a NUL or the slot's old byte right after it is a NUL. */
  lemma SlotShowsSnippetIff(dst: seq<byte>, src: seq<byte>, n: nat)
    requires n < |dst| && n <= |src|
    ensures Shown(Strncpy(dst, src, n)) == ShownText(Copied(src[..n])) <==>
      NUL in src[..n] || dst[n] == NUL
  {
    if NUL in src[..n] || dst[n] == NUL {
      var r := Strncpy(dst, src, n);
      var c := CString(src[..n]);
      var tail := Zeros(n - |c|) + dst[n..];
      assert r == c + tail by {
        assert r == r[..n] + r[n..];
      }
      if |c| == n {
        CStringOfNulFree(src[..n]);
        assert c == src[..n];
        assert tail[0] == dst[n];
      } else {
        assert tail[0] == NUL;
      }
      CStringOfTerminated(c, tail);
    } else {
      StaleTailShown(dst, src, n);
    }
  }

  /** "hello world" and "hi", as bytes. */
  const HELLO_WORLD: seq<byte> := [0x68, 0x65, 0x6c, 0x6c, 0x6f, 0x20, 0x77, 0x6f, 0x72, 0x6c, 0x64]
  const HI: seq<byte> := [0x68, 0x69]

  /** A fresh slot after "hello world" was copied into it holds 'l' at index 2. */
  lemma HelloWorldSlot()
    ensures |Strncpy(Zeros(TEXT_SIZE), HELLO_WORLD, |HELLO_WORLD|)| == TEXT_SIZE
    ensures Strncpy(Zeros(TEXT_SIZE), HELLO_WORLD, |HELLO_WORLD|)[2] == 0x6c
  {
    var slot := Strncpy(Zeros(TEXT_SIZE), HELLO_WORLD, |HELLO_WORLD|);
    var c := CString(HELLO_WORLD[..|HELLO_WORLD|]);
    assert HELLO_WORLD[..|HELLO_WORLD|] == HELLO_WORLD;
    assert HELLO_WORLD[0] != NUL && HELLO_WORLD[1] != NUL && HELLO_WORLD[2] != NUL;
    assert |c| > 2 && c[2] == 0x6c;
    assert slot[..|HELLO_WORLD|][2] == 0x6c;
  }

  /** The instance: "hello world" copied into a slot, drained, then "hi" copied into the
      same slot; the drain then shows more than "hi" ("hillo world"). */
  lemma HilloWorld()
    ensures Shown(Strncpy(Strncpy(Zeros(TEXT_SIZE), HELLO_WORLD, |HELLO_WORLD|), HI, |HI|))
            != ShownText(Copied(HI))
  {
    HelloWorldSlot();
    assert HI[..|HI|] == HI;
    StaleTailShown(Strncpy(Zeros(TEXT_SIZE), HELLO_WORLD, |HELLO_WORLD|), HI, |HI|);
  }

  /** As written, a snippet of the full 256 bytes without a NUL leaves the slot with no
      terminator at all. */
  lemma FullSnippetUnterminated(dst: seq<byte>, src: seq<byte>)
    requires |dst| == TEXT_SIZE && |src| == TEXT_SIZE && NUL !in src
    ensures Shown(Strncpy(dst, src, TEXT_SIZE)) == None
  {
    CStringOfNulFree(src);
    assert src[..TEXT_SIZE] == src;
  }

  /** The evidently intended copy: a buffer one byte longer, and a NUL written right
      after the `n` bytes copied. */
  function StrncpyTerminated(dst: seq<byte>, src: seq<byte>, n: nat): (r: seq<byte>)
    requires |dst| == TEXT_SIZE + 1 && n <= TEXT_SIZE && n <= |src|
    ensures |r| == |dst|
  {
    Strncpy(dst, src, n)[n := NUL]
  }

  /** With the terminator, whatever the slot held before, the drain hands on exactly the
      snippet up to its first NUL. */
  lemma TerminatedShowsSnippet(dst: seq<byte>, text: seq<byte>)
    requires |dst| == TEXT_SIZE + 1 && |text| <= TEXT_SIZE
    ensures Shown(StrncpyTerminated(dst, text, |text|)) == ShownText(Copied(text))
  {
    var n := |text|;
    var r := StrncpyTerminated(dst, text, n);
    var c := CString(text[..n]);
    assert text[..n] == text;
    var tail := Zeros(n - |c|) + [NUL] + dst[n + 1..];
    assert r == c + tail by {
      assert r[..n] == c + Zeros(n - |c|);
      assert r[n] == NUL && r[n + 1..] == dst[n + 1..];
      assert r == r[..n] + [r[n]] + r[n + 1..];
    }
    assert tail[0] == NUL;
    CStringOfTerminated(c, tail);
    assert r[|c|] == NUL;
  }
}

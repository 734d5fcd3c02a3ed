/** The context snippet stored with each hit: found by walking back from the hit
    to the start of its line (at most 80 bytes, never before the chunk start), then
    taken forward up to the next newline, 256 bytes, or the end of the last read. */
module Context {
  import opened Arith
  import opened Bytes

  const CONTEXT_LENGTH: nat := 80
  const MAX_HIT_LENGTH: nat := 256

  /** What `strncpy` does with the computed length: copy that many bytes, or, when the
      length is negative (it is converted to a huge `size_t`), overrun the record. */
  datatype Context = Copied(text: seq<byte>) | UndefinedCopy(length: int)

  /** The backward walk over s[j], s[j-1], ..., s[lo]: one past the first newline it
      meets, or `lo` when it meets none. */
  function WalkStart(s: seq<byte>, lo: nat, j: int): (r: nat)
    requires lo <= j + 1 && j < |s|
    ensures lo <= r <= j + 1
    decreases j - lo + 1
  {
    if j < lo then lo
    else if s[j] == NEWLINE then j + 1
    else WalkStart(s, lo, j - 1)
  }

  /** Where the snippet for a hit at chunk position `i` starts: one past the last newline
      in chunk[max(i-80,0) .. i] (the hit's own byte included), else max(i-80,0). */
  function ContextStart(s: seq<byte>, i: nat): (r: nat)
    requires i < |s|
    ensures IMax(i - CONTEXT_LENGTH, 0) <= r <= i + 1
  {
    WalkStart(s, IMax(i - CONTEXT_LENGTH, 0), i)
  }

  /** The forward cut over s[start+k], ..., s[start+limit-1]: the offset of the first
      newline it meets, or `limit` when it meets none. */
  function CutLength(s: seq<byte>, start: nat, limit: nat, k: nat): (r: nat)
    requires start + limit <= |s| && k <= limit
    ensures k <= r <= limit
    decreases limit - k
  {
    if k == limit then limit
    else if s[start + k] == NEWLINE then k
    else CutLength(s, start, limit, k + 1)
  }

  /** The snippet for a hit at chunk position `i`, where `lengthRead` is the number of
      bytes the last read delivered. */
  function ContextOf(s: seq<byte>, i: nat, lengthRead: nat): Context
    requires i < |s| && lengthRead <= |s|
  {
    var start := ContextStart(s, i);
    var limit := IMin(MAX_HIT_LENGTH, lengthRead - start);
    if limit < 0 then UndefinedCopy(limit)
    else Copied(s[start..start + CutLength(s, start, limit, 0)])
  }

  lemma {:induction false} WalkStartIsAfterNewline(s: seq<byte>, lo: nat, j: int)
    requires lo <= j + 1 && j < |s|
    ensures var r := WalkStart(s, lo, j);
      && (r > lo ==> s[r - 1] == NEWLINE)
      && (forall k :: r <= k <= j ==> s[k] != NEWLINE)
    decreases j - lo + 1
  {
    if j >= lo && s[j] != NEWLINE {
      WalkStartIsAfterNewline(s, lo, j - 1);
    }
  }

  /** The snippet starts just after a newline (unless it starts at the low limit), and
      no newline lies between its start and the hit. */
  lemma ContextStartIsLineStart(s: seq<byte>, i: nat)
    requires i < |s|
    ensures var r := ContextStart(s, i);
      && (r > IMax(i - CONTEXT_LENGTH, 0) ==> s[r - 1] == NEWLINE)
      && (forall k :: r <= k <= i ==> s[k] != NEWLINE)
  {
    WalkStartIsAfterNewline(s, IMax(i - CONTEXT_LENGTH, 0), i);
  }

  lemma {:induction false} CutLengthIsFirstNewline(s: seq<byte>, start: nat, limit: nat, k: nat)
    requires start + limit <= |s| && k <= limit
    ensures var r := CutLength(s, start, limit, k);
      && (forall t :: start + k <= t < start + r ==> s[t] != NEWLINE)
      && (r < limit ==> s[start + r] == NEWLINE)
    decreases limit - k
  {
    if k < limit && s[start + k] != NEWLINE {
      CutLengthIsFirstNewline(s, start, limit, k + 1);
    }
  }

  /** The snippet is a run of at most 256 bytes with no newline, taken from the line
      of the hit, and as long as the three limits allow. It ends by chunk index
      `length_read`, the count of the last read, which after a carry-over lies before
      the end of the bytes held. The copy is undefined exactly when the snippet would
      start past that index. */
  lemma ContextShape(s: seq<byte>, i: nat, lengthRead: nat)
    requires i < |s| && lengthRead <= |s|
    ensures ContextOf(s, i, lengthRead).UndefinedCopy? <==> ContextStart(s, i) > lengthRead
    ensures ContextOf(s, i, lengthRead).Copied? ==>
      var t := ContextOf(s, i, lengthRead).text;
      var st := ContextStart(s, i);
      && |t| <= MAX_HIT_LENGTH
      && NEWLINE !in t
      && st + |t| <= lengthRead
      && t == s[st..st + |t|]
      && (|t| == MAX_HIT_LENGTH || st + |t| == lengthRead || s[st + |t|] == NEWLINE)
  {
    var st := ContextStart(s, i);
    var limit := IMin(MAX_HIT_LENGTH, lengthRead - st);
    if limit >= 0 {
      var t := ContextOf(s, i, lengthRead).text;
      CutLengthIsFirstNewline(s, st, limit, 0);
      assert forall k :: 0 <= k < |t| ==> t[k] == s[st + k];
    }
  }

  lemma {:induction false} WalkStartFrame(s: seq<byte>, t: seq<byte>, lo: nat, j: int)
    requires lo <= j + 1 && j < |t| <= |s| && t == s[..|t|]
    ensures WalkStart(s, lo, j) == WalkStart(t, lo, j)
    decreases j - lo + 1
  {
    if j >= lo {
      assert s[j] == t[j];
      WalkStartFrame(s, t, lo, j - 1);
    }
  }

  lemma {:induction false} CutLengthFrame(s: seq<byte>, t: seq<byte>, start: nat, limit: nat, k: nat)
    requires start + limit <= |t| <= |s| && t == s[..|t|] && k <= limit
    ensures CutLength(s, start, limit, k) == CutLength(t, start, limit, k)
    decreases limit - k
  {
    if k < limit {
      assert s[start + k] == t[start + k];
      CutLengthFrame(s, t, start, limit, k + 1);
    }
  }

  /** The snippet only looks at the bytes up to the hit and before `lengthRead`. */
  lemma ContextOfPrefix(s: seq<byte>, t: seq<byte>, i: nat, lengthRead: nat)
    requires |t| <= |s| && t == s[..|t|] && i < |t| && lengthRead <= |t|
    ensures ContextOf(s, i, lengthRead) == ContextOf(t, i, lengthRead)
  {
    WalkStartFrame(s, t, IMax(i - CONTEXT_LENGTH, 0), i);
    var st := ContextStart(s, i);
    var limit := IMin(MAX_HIT_LENGTH, lengthRead - st);
    if limit >= 0 {
      CutLengthFrame(s, t, st, limit, 0);
      assert s[st..st + CutLength(s, st, limit, 0)] == t[st..st + CutLength(t, st, limit, 0)];
    }
  }

  /** The backward walk: from the hit down to max(i-80, 0), stopping after a newline. */
  method WalkBack(chunk: array<byte>, i: nat) returns (start: nat)
    requires i < chunk.Length
    ensures start == ContextStart(chunk[..], i)
  {
    start := IMax(i - CONTEXT_LENGTH, 0);
    ghost var lo := start;
    var j: int := i;
    while j >= start
      invariant start == lo && lo - 1 <= j <= i
      invariant WalkStart(chunk[..], lo, j) == ContextStart(chunk[..], i)
      decreases j - start
    {
      if chunk[j] == NEWLINE {
        start := j + 1;
        break;
      }
      j := j - 1;
    }
  }

  /** The forward cut: the copy length is min(256, lengthRead - start), shortened to
      the first newline. */
  method CutForward(chunk: array<byte>, start: nat, lengthRead: nat) returns (maxLength: int)
    requires start <= chunk.Length && lengthRead <= chunk.Length
    ensures var limit := IMin(MAX_HIT_LENGTH, lengthRead - start);
      if limit < 0 then maxLength == limit
      else maxLength == CutLength(chunk[..], start, limit, 0)
  {
    maxLength := IMin(MAX_HIT_LENGTH, lengthRead - start);
    ghost var limit := maxLength;
    var k := 0;
    while k < maxLength
      invariant maxLength == limit && 0 <= k
      invariant if limit >= 0 then k <= limit else k == 0
      invariant limit >= 0 ==> CutLength(chunk[..], start, limit, k) == CutLength(chunk[..], start, limit, 0)
    {
      if chunk[start + k] == NEWLINE {
        maxLength := k;
        break;
      }
      k := k + 1;
    }
  }

  /** The snippet of the match branch, computed on the chunk buffer. */
  method ContextAt(chunk: array<byte>, i: nat, lengthRead: nat) returns (ctx: Context)
    requires i < chunk.Length && lengthRead <= chunk.Length
    ensures ctx == ContextOf(chunk[..], i, lengthRead)
  {
    var start := WalkBack(chunk, i);
    var maxLength := CutForward(chunk, start, lengthRead);
    if maxLength < 0 {
      ctx := UndefinedCopy(maxLength);
    } else {
      assert chunk[..][start..start + maxLength] == chunk[start..start + maxLength];
      ctx := Copied(chunk[start..start + maxLength]);
    }
  }
}

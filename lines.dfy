/** The scanner's `line` and `col` counters. They are defined position by position, as
    the scan loop advances them, and the lemmas give their closed forms over the file
    bytes already scanned. */
module Lines {
  import opened Bytes

  function CountNewlines(s: seq<byte>): nat
  {
    if s == [] then 0
    else CountNewlines(s[..|s| - 1]) + (if s[|s| - 1] == NEWLINE then 1 else 0)
  }

  /** Index of the last newline in `s`, or -1 when there is none. */
  function LastNewline(s: seq<byte>): (r: int)
    ensures -1 <= r < |s|
    ensures r >= 0 ==> s[r] == NEWLINE
    ensures forall k :: r < k < |s| ==> s[k] != NEWLINE
  {
    if s == [] then -1
    else if s[|s| - 1] == NEWLINE then |s| - 1
    else LastNewline(s[..|s| - 1])
  }

  /** `line` at the top of the loop iteration for file position `p`: it starts at 1 and
      moves on at every newline scanned before `p`. */
  function LineBefore(v: seq<byte>, p: nat): int
    requires p <= |v|
  {
    if p == 0 then 1
    else LineBefore(v, p - 1) + (if v[p - 1] == NEWLINE then 1 else 0)
  }

  /** `col` at the top of the loop iteration for file position `p`: it starts at 1, is
      reset to 1 at a newline and advances once per scanned position. */
  function ColBefore(v: seq<byte>, p: nat): (r: int)
    requires p <= |v|
    ensures r >= 1
  {
    if p == 0 then 1
    else (if v[p - 1] == NEWLINE then 1 else ColBefore(v, p - 1)) + 1
  }

  /** The line recorded for a hit at position `p`: the newline check has already run on
      the hit's own byte, so the line counts the newlines up to and including the hit. */
  function LineOf(v: seq<byte>, p: nat): (r: int)
    requires p < |v|
    ensures r == 1 + CountNewlines(v[..p + 1])
  {
    LineBeforeCounts(v, p + 1);
    LineBefore(v, p + 1)
  }

  /** The column recorded for a hit at position `p`: `col - 1` after the newline check. */
  function ColumnOf(v: seq<byte>, p: nat): (r: int)
    requires p < |v|
    ensures r >= 0
  {
    (if v[p] == NEWLINE then 1 else ColBefore(v, p)) - 1
  }

  /** Index at which the line holding position `p` begins (one past the last newline up
      to and including `p`). */
  function LineStartOf(v: seq<byte>, p: nat): nat
    requires p < |v|
  {
    LastNewline(v[..p + 1]) + 1
  }

  lemma {:induction false} NoNewlineNoCount(s: seq<byte>)
    ensures CountNewlines(s) == 0 <==> LastNewline(s) < 0
  {
    if s != [] {
      NoNewlineNoCount(s[..|s| - 1]);
    }
  }

  /** `line` is one plus the number of newlines before `p`. */
  lemma {:induction false} LineBeforeCounts(v: seq<byte>, p: nat)
    requires p <= |v|
    ensures LineBefore(v, p) == 1 + CountNewlines(v[..p])
  {
    if p > 0 {
      LineBeforeCounts(v, p - 1);
      assert v[..p][..p - 1] == v[..p - 1];
    }
  }

  /** `col` is one more than the distance from the start of the file on the first line,
      and two more than the distance from the start of the line on later lines (the
      reset to 1 happens on the newline itself, which is then counted once more). */
  lemma {:induction false} ColBeforeFromLastNewline(v: seq<byte>, p: nat)
    requires p <= |v|
    ensures var q := LastNewline(v[..p]);
      ColBefore(v, p) == if q < 0 then p + 1 else p - q + 1
  {
    if p > 0 {
      ColBeforeFromLastNewline(v, p - 1);
      assert v[..p][..p - 1] == v[..p - 1];
    }
  }

  /** The counters at `p` depend on the bytes before `p` only. */
  lemma {:induction false} CountersFrame(v1: seq<byte>, v2: seq<byte>, a: nat, p: nat)
    requires a <= |v1| && a <= |v2| && v1[..a] == v2[..a] && p <= a
    ensures LineBefore(v1, p) == LineBefore(v2, p)
    ensures ColBefore(v1, p) == ColBefore(v2, p)
  {
    if p > 0 {
      CountersFrame(v1, v2, a, p - 1);
      assert v1[p - 1] == v1[..a][p - 1] == v2[p - 1];
    }
  }

  /** The recorded column is the offset of the hit from the start of its line on the
      first line, and one more than that on every later line. */
  lemma ColumnFromLineStart(v: seq<byte>, p: nat)
    requires p < |v|
    ensures LineStartOf(v, p) <= p + 1
    ensures LineOf(v, p) == 1 ==> ColumnOf(v, p) == p - LineStartOf(v, p)
    ensures LineOf(v, p) > 1 ==> ColumnOf(v, p) == p - LineStartOf(v, p) + 1
  {
    NoNewlineNoCount(v[..p + 1]);
    if v[p] != NEWLINE {
      ColBeforeFromLastNewline(v, p);
      assert v[..p + 1][..p] == v[..p];
      assert LastNewline(v[..p + 1]) == LastNewline(v[..p]);
    }
  }

  /** The column evidently intended: the byte offset of the hit from the start of its
      line, the same way on every line (a newline belongs to the line it ends). */
  function IntendedColumn(v: seq<byte>, p: nat): (r: nat)
    requires p < |v|
    ensures r <= p
    ensures forall k :: p - r <= k < p ==> v[k] != NEWLINE
    ensures r < p ==> v[p - r - 1] == NEWLINE
  {
    var q := LastNewline(v[..p]);
    assert forall k :: q < k < p ==> v[k] == v[..p][k];
    p - (q + 1)
  }

  /** As written, a hit that is not a newline gets the intended column on the first
      line and one more than it on every later line. */
  lemma ColumnOffByOne(v: seq<byte>, p: nat)
    requires p < |v| && v[p] != NEWLINE
    ensures LineOf(v, p) == 1 ==> ColumnOf(v, p) == IntendedColumn(v, p)
    ensures LineOf(v, p) > 1 ==> ColumnOf(v, p) == IntendedColumn(v, p) + 1
  {
    ColumnFromLineStart(v, p);
    assert v[..p + 1][..p] == v[..p];
    assert LastNewline(v[..p + 1]) == LastNewline(v[..p]);
  }

  /** "a\na": both hits are the first byte of their line, yet the recorded columns are
      0 and 1; the intended column is 0 for both. */
  const A_NL_A: seq<byte> := [0x61, NEWLINE, 0x61]

  lemma ColumnsDifferAcrossLines()
    ensures ColumnOf(A_NL_A, 0) == 0 && ColumnOf(A_NL_A, 2) == 1
    ensures IntendedColumn(A_NL_A, 0) == 0 && IntendedColumn(A_NL_A, 2) == 0
  {
    assert A_NL_A[..2][1] == NEWLINE;
    assert A_NL_A[..1] == [0x61];
  }

  /** Scanning `a` and then `b` counts the newlines of both. */
  lemma {:induction false} CountNewlinesAppend(a: seq<byte>, b: seq<byte>)
    ensures CountNewlines(a + b) == CountNewlines(a) + CountNewlines(b)
  {
    if b != [] {
      assert (a + b)[..|a + b| - 1] == a + b[..|b| - 1];
      CountNewlinesAppend(a, b[..|b| - 1]);
    } else {
      assert a + b == a;
    }
  }
}

/** What the scan of one file reports: the positions where the pattern matches inside
    the scanned part of each pass, and one record per such position, pass after pass. */
module Hits {
  import opened Arith
  import opened Bytes
  import opened Config
  import opened Lines
  import opened Context
  import opened Schedule

  /** `match_entry_t`: the file index, `line`, `col - 1` and the context snippet. */
  datatype MatchRecord = MatchRecord(fileIndex: int, line: int, col: int, context: Context)

  /** The pass `w` only looks at bytes the view `v` has. */
  ghost predicate Fits(w: Window, v: seq<byte>)
  {
    w.start + w.total <= |v| && w.lengthRead <= w.total && w.bound <= w.total
  }

  ghost predicate AllFit(ws: seq<Window>, v: seq<byte>)
  {
    forall k :: 0 <= k < |ws| ==> Fits(ws[k], v)
  }

  /** The record made for a hit at chunk position `i` of pass `w`; `v` gives the file
      bytes (and, past the end of the file, what the buffer held there). */
  function RecordAt(v: seq<byte>, w: Window, i: nat, idx: int): MatchRecord
    requires Fits(w, v) && i < w.total
  {
    MatchRecord(idx, LineOf(v, w.start + i), ColumnOf(v, w.start + i),
                ContextOf(v[w.start..w.start + w.total], i, w.lengthRead))
  }

  /** The positions in lo .. hi-1 where the pattern matches, in increasing order. */
  function HitsIn(v: seq<byte>, lo: nat, hi: nat, pat: seq<byte>, mode: Mode): (r: seq<nat>)
    requires lo <= hi
    ensures forall j :: 0 <= j < |r| ==> lo <= r[j] < hi
    decreases hi - lo
  {
    if hi == lo then []
    else if MatchAt(v, hi - 1, pat, mode) then HitsIn(v, lo, hi - 1, pat, mode) + [hi - 1]
    else HitsIn(v, lo, hi - 1, pat, mode)
  }

  /** The hits of pass `w` among its first `k` scanned positions. */
  function PassHits(v: seq<byte>, w: Window, k: nat, pat: seq<byte>, mode: Mode): (r: seq<nat>)
  {
    HitsIn(v, w.start, w.start + k, pat, mode)
  }

  /** The records of the hits `ps` (file positions) of pass `w`, in the same order. */
  function PassRecords(v: seq<byte>, w: Window, ps: seq<nat>, idx: int): (r: seq<MatchRecord>)
    requires Fits(w, v)
    requires forall j :: 0 <= j < |ps| ==> w.start <= ps[j] < w.start + w.total
    ensures |r| == |ps|
  {
    seq(|ps|, j requires 0 <= j < |ps| => RecordAt(v, w, ps[j] - w.start, idx))
  }

  /** The hit positions of a sequence of passes, pass after pass. */
  function ScanHits(v: seq<byte>, ws: seq<Window>, pat: seq<byte>, mode: Mode): seq<nat>
  {
    if ws == [] then []
    else
      var w := ws[|ws| - 1];
      ScanHits(v, ws[..|ws| - 1], pat, mode) + PassHits(v, w, w.bound, pat, mode)
  }

  /** The records of a sequence of passes, pass after pass. */
  function ScanRecords(v: seq<byte>, ws: seq<Window>, pat: seq<byte>, mode: Mode, idx: int): seq<MatchRecord>
    requires AllFit(ws, v)
  {
    if ws == [] then []
    else
      var w := ws[|ws| - 1];
      ScanRecords(v, ws[..|ws| - 1], pat, mode, idx) + PassRecords(v, w, PassHits(v, w, w.bound, pat, mode), idx)
  }

  /** HitsIn lists exactly the matching positions of the range. */
  lemma {:induction false} HitsInMembers(v: seq<byte>, lo: nat, hi: nat, pat: seq<byte>, mode: Mode)
    requires lo <= hi
    ensures forall p :: p in HitsIn(v, lo, hi, pat, mode) <==> lo <= p < hi && MatchAt(v, p, pat, mode)
    decreases hi - lo
  {
    if hi > lo {
      HitsInMembers(v, lo, hi - 1, pat, mode);
    }
  }

  /** HitsIn lists the matching positions in increasing order, so each once. */
  lemma {:induction false} HitsInIncreasing(v: seq<byte>, lo: nat, hi: nat, pat: seq<byte>, mode: Mode)
    requires lo <= hi
    ensures var r := HitsIn(v, lo, hi, pat, mode);
      forall a, b :: 0 <= a < b < |r| ==> r[a] < r[b]
    decreases hi - lo
  {
    if hi > lo && MatchAt(v, hi - 1, pat, mode) {
      HitsInIncreasing(v, lo, hi - 1, pat, mode);
      var r0 := HitsIn(v, lo, hi - 1, pat, mode);
      var r := r0 + [hi - 1];
      forall a, b | 0 <= a < b < |r| ensures r[a] < r[b] {
        if b == |r0| {
          assert r[a] == r0[a] < hi - 1 == r[b];
        } else {
          assert r[a] == r0[a] && r[b] == r0[b];
        }
      }
    } else if hi > lo {
      HitsInIncreasing(v, lo, hi - 1, pat, mode);
      assert HitsIn(v, lo, hi, pat, mode) == HitsIn(v, lo, hi - 1, pat, mode);
    }
  }

  /** The hits of two adjacent ranges are the hits of their union. */
  lemma {:induction false} HitsInSplit(v: seq<byte>, lo: nat, mid: nat, hi: nat, pat: seq<byte>, mode: Mode)
    requires lo <= mid <= hi
    ensures HitsIn(v, lo, mid, pat, mode) + HitsIn(v, mid, hi, pat, mode) == HitsIn(v, lo, hi, pat, mode)
    decreases hi - mid
  {
    if hi > mid {
      HitsInSplit(v, lo, mid, hi - 1, pat, mode);
      var a := HitsIn(v, lo, mid, pat, mode);
      var b := HitsIn(v, mid, hi - 1, pat, mode);
      if MatchAt(v, hi - 1, pat, mode) {
        assert a + (b + [hi - 1]) == (a + b) + [hi - 1];
      }
    } else {
      assert HitsIn(v, lo, mid, pat, mode) + [] == HitsIn(v, lo, mid, pat, mode);
    }
  }

  /** One more position of a pass appends its record when the pattern matches there. */
  lemma PassRecordsStep(v: seq<byte>, w: Window, k: nat, pat: seq<byte>, mode: Mode, idx: int)
    requires Fits(w, v) && 0 < k <= w.total
    ensures MatchAt(v, w.start + k - 1, pat, mode) ==>
      PassRecords(v, w, PassHits(v, w, k, pat, mode), idx)
      == PassRecords(v, w, PassHits(v, w, k - 1, pat, mode), idx) + [RecordAt(v, w, k - 1, idx)]
    ensures !MatchAt(v, w.start + k - 1, pat, mode) ==>
      PassRecords(v, w, PassHits(v, w, k, pat, mode), idx)
      == PassRecords(v, w, PassHits(v, w, k - 1, pat, mode), idx)
  {
    var a := PassHits(v, w, k - 1, pat, mode);
    if MatchAt(v, w.start + k - 1, pat, mode) {
      assert PassHits(v, w, k, pat, mode) == a + [w.start + k - 1];
      PassRecordsSnoc(v, w, a, w.start + k - 1, idx);
    } else {
      assert PassHits(v, w, k, pat, mode) == a;
    }
  }

  lemma PassRecordsSnoc(v: seq<byte>, w: Window, ps: seq<nat>, p: nat, idx: int)
    requires Fits(w, v)
    requires forall j :: 0 <= j < |ps| ==> w.start <= ps[j] < w.start + w.total
    requires w.start <= p < w.start + w.total
    ensures PassRecords(v, w, ps + [p], idx) == PassRecords(v, w, ps, idx) + [RecordAt(v, w, p - w.start, idx)]
  {
    var r := PassRecords(v, w, ps + [p], idx);
    var r0 := PassRecords(v, w, ps, idx);
    forall j | 0 <= j < |r| ensures r[j] == (r0 + [RecordAt(v, w, p - w.start, idx)])[j] {
      if j < |ps| {
        assert (ps + [p])[j] == ps[j];
      }
    }
  }

  /** The match predicate depends only on the bytes it compares. */
  lemma MatchAtFrame(v1: seq<byte>, v2: seq<byte>, a: nat, p: nat, pat: seq<byte>, mode: Mode)
    requires a <= |v1| && a <= |v2| && v1[..a] == v2[..a] && p + |pat| <= a
    ensures MatchAt(v1, p, pat, mode) == MatchAt(v2, p, pat, mode)
  {
    forall j | 0 <= j < |pat|
      ensures Fold(mode, v1[p + j]) == pat[j] <==> Fold(mode, v2[p + j]) == pat[j]
    {
      assert v1[p + j] == v1[..a][p + j];
      assert v2[p + j] == v2[..a][p + j];
    }
  }

  /** Two views that agree on the match predicate over a range have the same hits there. */
  lemma {:induction false} HitsInCongruent(v1: seq<byte>, v2: seq<byte>, lo: nat, hi: nat,
                                           pat: seq<byte>, mode: Mode)
    requires lo <= hi
    requires forall p :: lo <= p < hi ==> MatchAt(v1, p, pat, mode) == MatchAt(v2, p, pat, mode)
    ensures HitsIn(v1, lo, hi, pat, mode) == HitsIn(v2, lo, hi, pat, mode)
    decreases hi - lo
  {
    if hi > lo {
      HitsInCongruent(v1, v2, lo, hi - 1, pat, mode);
    }
  }

  /** The hits of a range depend only on the bytes their comparisons read. */
  lemma HitsInFrame(v1: seq<byte>, v2: seq<byte>, a: nat, lo: nat, hi: nat, pat: seq<byte>, mode: Mode)
    requires a <= |v1| && a <= |v2| && v1[..a] == v2[..a]
    requires lo <= hi && hi + |pat| <= a + 1
    ensures HitsIn(v1, lo, hi, pat, mode) == HitsIn(v2, lo, hi, pat, mode)
  {
    forall p | lo <= p < hi
      ensures MatchAt(v1, p, pat, mode) == MatchAt(v2, p, pat, mode)
    {
      MatchAtFrame(v1, v2, a, p, pat, mode);
    }
    HitsInCongruent(v1, v2, lo, hi, pat, mode);
  }

  /** A record depends only on the bytes of its pass. */
  lemma RecordAtFrame(v1: seq<byte>, v2: seq<byte>, a: nat, w: Window, i: nat, idx: int)
    requires a <= |v1| && a <= |v2| && v1[..a] == v2[..a]
    requires Fits(w, v1) && Fits(w, v2) && w.start + w.total <= a && i < w.total
    ensures RecordAt(v1, w, i, idx) == RecordAt(v2, w, i, idx)
  {
    var p := w.start + i;
    CountersFrame(v1, v2, a, p);
    CountersFrame(v1, v2, a, p + 1);
    assert v1[p] == v1[..a][p];
    assert v1[w.start..w.start + w.total] == v2[w.start..w.start + w.total] by {
      forall k | w.start <= k < w.start + w.total ensures v1[k] == v2[k] {
        assert v1[k] == v1[..a][k];
      }
    }
  }

  lemma PassRecordsFrame(v1: seq<byte>, v2: seq<byte>, a: nat, w: Window, ps: seq<nat>, idx: int)
    requires a <= |v1| && a <= |v2| && v1[..a] == v2[..a]
    requires Fits(w, v1) && Fits(w, v2) && w.start + w.total <= a
    requires forall j :: 0 <= j < |ps| ==> w.start <= ps[j] < w.start + w.total
    ensures PassRecords(v1, w, ps, idx) == PassRecords(v2, w, ps, idx)
  {
    forall j | 0 <= j < |ps|
      ensures PassRecords(v1, w, ps, idx)[j] == PassRecords(v2, w, ps, idx)[j]
    {
      RecordAtFrame(v1, v2, a, w, ps[j] - w.start, idx);
    }
  }

  /** Every pass reads below `a`: its buffer and its comparisons. */
  ghost predicate AllBelow(ws: seq<Window>, a: nat, m: nat)
  {
    forall k :: 0 <= k < |ws| ==> ws[k].start + ws[k].total <= a && ws[k].start + ws[k].bound + m <= a + 1
  }

  /** Two views on which every pass reports the same hits report the same hits overall. */
  lemma {:induction false} ScanHitsCongruent(v1: seq<byte>, v2: seq<byte>, ws: seq<Window>, pat: seq<byte>, mode: Mode)
    requires forall k :: 0 <= k < |ws| ==>
      PassHits(v1, ws[k], ws[k].bound, pat, mode) == PassHits(v2, ws[k], ws[k].bound, pat, mode)
    ensures ScanHits(v1, ws, pat, mode) == ScanHits(v2, ws, pat, mode)
  {
    if ws != [] {
      var init := ws[..|ws| - 1];
      assert forall k :: 0 <= k < |init| ==> init[k] == ws[k];
      ScanHitsCongruent(v1, v2, init, pat, mode);
    }
  }

  /** Two views on which every pass makes the same records make the same records overall. */
  lemma {:induction false} ScanRecordsCongruent(v1: seq<byte>, v2: seq<byte>, ws: seq<Window>,
                                                pat: seq<byte>, mode: Mode, idx: int)
    requires AllFit(ws, v1) && AllFit(ws, v2)
    requires forall k :: 0 <= k < |ws| ==>
      PassRecords(v1, ws[k], PassHits(v1, ws[k], ws[k].bound, pat, mode), idx)
      == PassRecords(v2, ws[k], PassHits(v2, ws[k], ws[k].bound, pat, mode), idx)
    ensures ScanRecords(v1, ws, pat, mode, idx) == ScanRecords(v2, ws, pat, mode, idx)
  {
    if ws != [] {
      var init := ws[..|ws| - 1];
      assert forall k :: 0 <= k < |init| ==> init[k] == ws[k];
      ScanRecordsCongruent(v1, v2, init, pat, mode, idx);
    }
  }

  /** The hits and records of one pass depend only on the bytes it reads. */
  lemma PassFrame(v1: seq<byte>, v2: seq<byte>, a: nat, w: Window, pat: seq<byte>, mode: Mode, idx: int)
    requires a <= |v1| && a <= |v2| && v1[..a] == v2[..a]
    requires Fits(w, v1) && Fits(w, v2)
    requires w.start + w.total <= a && w.start + w.bound + |pat| <= a + 1
    ensures PassHits(v1, w, w.bound, pat, mode) == PassHits(v2, w, w.bound, pat, mode)
    ensures PassRecords(v1, w, PassHits(v1, w, w.bound, pat, mode), idx)
      == PassRecords(v2, w, PassHits(v2, w, w.bound, pat, mode), idx)
  {
    HitsInFrame(v1, v2, a, w.start, w.start + w.bound, pat, mode);
    PassRecordsFrame(v1, v2, a, w, PassHits(v1, w, w.bound, pat, mode), idx);
  }

  /** What the passes report depends only on the bytes they read. */
  lemma ScanFrame(v1: seq<byte>, v2: seq<byte>, a: nat, ws: seq<Window>, pat: seq<byte>, mode: Mode, idx: int)
    requires a <= |v1| && a <= |v2| && v1[..a] == v2[..a]
    requires AllBelow(ws, a, |pat|) && AllFit(ws, v1) && AllFit(ws, v2)
    ensures ScanHits(v1, ws, pat, mode) == ScanHits(v2, ws, pat, mode)
    ensures ScanRecords(v1, ws, pat, mode, idx) == ScanRecords(v2, ws, pat, mode, idx)
  {
    forall k | 0 <= k < |ws|
      ensures PassHits(v1, ws[k], ws[k].bound, pat, mode) == PassHits(v2, ws[k], ws[k].bound, pat, mode)
      ensures PassRecords(v1, ws[k], PassHits(v1, ws[k], ws[k].bound, pat, mode), idx)
        == PassRecords(v2, ws[k], PassHits(v2, ws[k], ws[k].bound, pat, mode), idx)
    {
      PassFrame(v1, v2, a, ws[k], pat, mode, idx);
    }
    ScanHitsCongruent(v1, v2, ws, pat, mode);
    ScanRecordsCongruent(v1, v2, ws, pat, mode, idx);
  }

  /** Dropping the last pass keeps the chain, and the last pass starts where the others end. */
  lemma ChainedInit(ws: seq<Window>, from: nat)
    requires Chained(ws, from) && ws != []
    ensures Chained(ws[..|ws| - 1], from)
    ensures ws[|ws| - 1].start == if |ws| == 1 then from else End(ws[..|ws| - 1])
  {
    var init := ws[..|ws| - 1];
    forall k | 0 <= k < |init|
      ensures k > 0 ==> init[k].start == init[k - 1].start + init[k - 1].bound
    {
      assert init[k] == ws[k];
      if k > 0 {
        assert init[k - 1] == ws[k - 1];
      }
    }
  }

  /** Passes that follow each other from position 0 report the matching positions below
      the end of the scan, in order. */
  lemma {:induction false} ScanPositions(v: seq<byte>, ws: seq<Window>, pat: seq<byte>, mode: Mode)
    requires Chained(ws, 0)
    ensures ScanHits(v, ws, pat, mode) == HitsIn(v, 0, End(ws), pat, mode)
  {
    if ws != [] {
      var init := ws[..|ws| - 1];
      var w := ws[|ws| - 1];
      ChainedInit(ws, 0);
      ScanPositions(v, init, pat, mode);
      HitsInSplit(v, 0, End(init), End(ws), pat, mode);
    }
  }

  /** The shape of one record: the file index, the line and column of its hit, and a
      snippet of at most 256 bytes without a newline. */
  ghost predicate RecordShaped(v: seq<byte>, p: nat, idx: int, r: MatchRecord)
    requires p < |v|
  {
    && r.fileIndex == idx
    && r.line == LineOf(v, p)
    && r.col == ColumnOf(v, p)
    && (r.context.Copied? ==> |r.context.text| <= MAX_HIT_LENGTH && NEWLINE !in r.context.text)
  }

  lemma RecordAtShape(v: seq<byte>, w: Window, i: nat, idx: int)
    requires Fits(w, v) && i < w.total
    ensures RecordShaped(v, w.start + i, idx, RecordAt(v, w, i, idx))
  {
    var s := v[w.start..w.start + w.total];
    ContextShape(s, i, w.lengthRead);
  }

  /** The records of a scan are one per hit, in the same order, and record `j` is the
      record of hit `j`. */
  lemma {:induction false} ScanRecordsShape(v: seq<byte>, ws: seq<Window>, pat: seq<byte>, mode: Mode, idx: int)
    requires AllFit(ws, v)
    ensures var hs := ScanHits(v, ws, pat, mode);
      var rs := ScanRecords(v, ws, pat, mode, idx);
      && |rs| == |hs|
      && (forall j :: 0 <= j < |hs| ==> hs[j] < |v| && RecordShaped(v, hs[j], idx, rs[j]))
  {
    if ws != [] {
      var init := ws[..|ws| - 1];
      var w := ws[|ws| - 1];
      ScanRecordsShape(v, init, pat, mode, idx);
      var hs0 := ScanHits(v, init, pat, mode);
      var rs0 := ScanRecords(v, init, pat, mode, idx);
      var ps := PassHits(v, w, w.bound, pat, mode);
      var rs1 := PassRecords(v, w, ps, idx);
      forall j | 0 <= j < |ps|
        ensures ps[j] < |v| && RecordShaped(v, ps[j], idx, rs1[j])
      {
        RecordAtShape(v, w, ps[j] - w.start, idx);
      }
      var hs := hs0 + ps;
      var rs := rs0 + rs1;
      forall j | 0 <= j < |hs|
        ensures hs[j] < |v| && RecordShaped(v, hs[j], idx, rs[j])
      {
        if j >= |hs0| {
          assert hs[j] == ps[j - |hs0|] && rs[j] == rs1[j - |hs0|];
        }
      }
    }
  }

  /** Every pass of a file fits a view holding at least the file. */
  lemma FileWindowsFit(v: seq<byte>, n: nat, m: nat)
    requires m <= MAX_PATTERN_LENGTH && n <= |v|
    ensures AllFit(FileWindows(n, m), v)
  {
    WindowsWellFormed(n, m, 0, 0);
  }

  /** The scan of a file reports each matching position below the end of the scan
      exactly once, in file order, with one record per hit: the file index, the line and
      column of the hit, and a snippet of at most 256 bytes without a newline. */
  lemma FileHits(v: seq<byte>, n: nat, pat: seq<byte>, mode: Mode, idx: int)
    requires |pat| <= MAX_PATTERN_LENGTH && n <= |v|
    ensures var ws := FileWindows(n, |pat|);
      var hs := ScanHits(v, ws, pat, mode);
      && AllFit(ws, v)
      && (forall p: nat :: p in hs <==> p < End(ws) && MatchAt(v, p, pat, mode))
      && (forall a, b :: 0 <= a < b < |hs| ==> hs[a] < hs[b])
      && |ScanRecords(v, ws, pat, mode, idx)| == |hs|
      && (forall j :: 0 <= j < |hs| ==>
            hs[j] < n && RecordShaped(v, hs[j], idx, ScanRecords(v, ws, pat, mode, idx)[j]))
  {
    var ws := FileWindows(n, |pat|);
    FileWindowsFit(v, n, |pat|);
    WindowsWellFormed(n, |pat|, 0, 0);
    ScanEndBounds(n, |pat|);
    ScanPositions(v, ws, pat, mode);
    HitsInMembers(v, 0, End(ws), pat, mode);
    HitsInIncreasing(v, 0, End(ws), pat, mode);
    ScanRecordsShape(v, ws, pat, mode, idx);
  }

  /** The file "hello\nworld hello\n" and the pattern "hello". */
  const TWO_LINES: seq<byte> := [0x68, 0x65, 0x6c, 0x6c, 0x6f, 0x0a,
                                 0x77, 0x6f, 0x72, 0x6c, 0x64, 0x20, 0x68, 0x65, 0x6c, 0x6c, 0x6f, 0x0a]
  const HELLO: seq<byte> := [0x68, 0x65, 0x6c, 0x6c, 0x6f]

  /** An 18-byte file with a 5-byte pattern is read in one short read, and its single
      pass scans positions 0 .. 4 only: 18 - 5 - 80 is below the pattern length. */
  lemma TwoLinesSchedule()
    ensures FileWindows(|TWO_LINES|, |HELLO|) == [Window(0, 18, 18, 5)]
  {
  }

  /** "hello" occurs at 0 and at 12, and nowhere else among positions 0 .. 4. */
  lemma TwoLinesMatches()
    ensures HitsIn(TWO_LINES, 0, 5, HELLO, Plain) == [0]
    ensures MatchAt(TWO_LINES, 12, HELLO, Plain)
  {
    assert MatchAt(TWO_LINES, 0, HELLO, Plain);
    assert TWO_LINES[1] != HELLO[0] && TWO_LINES[2] != HELLO[0];
    assert TWO_LINES[3] != HELLO[0] && TWO_LINES[4] != HELLO[0];
    assert forall j :: 0 <= j < |HELLO| ==> Fold(Plain, TWO_LINES[12 + j]) == HELLO[j];
  }

  /** The single pass reports one record, that of the hit at 0. */
  lemma TwoLinesRecords(idx: int)
    ensures AllFit([Window(0, 18, 18, 5)], TWO_LINES)
    ensures ScanHits(TWO_LINES, [Window(0, 18, 18, 5)], HELLO, Plain) == [0]
    ensures ScanRecords(TWO_LINES, [Window(0, 18, 18, 5)], HELLO, Plain, idx)
      == [RecordAt(TWO_LINES, Window(0, 18, 18, 5), 0, idx)]
  {
    var w := Window(0, 18, 18, 5);
    TwoLinesMatches();
    assert [w][..0] == [];
    assert PassHits(TWO_LINES, w, w.bound, HELLO, Plain) == [0];
    assert ScanRecords(TWO_LINES, [w][..0], HELLO, Plain, idx) == [];
  }

  /** The record of a hit at the first byte of a file is in column 0, and on line 1
      unless that byte is a newline. */
  lemma FirstByteRecord(v: seq<byte>, w: Window, idx: int)
    requires Fits(w, v) && w.start == 0 && 0 < w.total && v[0] != NEWLINE
    ensures RecordAt(v, w, 0, idx).line == 1 && RecordAt(v, w, 0, idx).col == 0
  {
    assert LineBefore(v, 1) == LineBefore(v, 0) == 1;
    assert ColBefore(v, 0) == 1;
  }

  /** With pattern "hello" in plain mode, "hello\nworld hello\n" yields one report, the
      hit at 0 on line 1, column 0; the occurrence at 12, on the second line, lies in the
      tail that is never scanned. */
  lemma TwoLinesOneReport(idx: int)
    ensures var ws := FileWindows(|TWO_LINES|, |HELLO|);
      && AllFit(ws, TWO_LINES)
      && ScanHits(TWO_LINES, ws, HELLO, Plain) == [0]
      && 12 !in ScanHits(TWO_LINES, ws, HELLO, Plain) && MatchAt(TWO_LINES, 12, HELLO, Plain)
      && |ScanRecords(TWO_LINES, ws, HELLO, Plain, idx)| == 1
      && ScanRecords(TWO_LINES, ws, HELLO, Plain, idx)[0].line == 1
      && ScanRecords(TWO_LINES, ws, HELLO, Plain, idx)[0].col == 0
  {
    TwoLinesSchedule();
    TwoLinesMatches();
    TwoLinesRecords(idx);
    FirstByteRecord(TWO_LINES, Window(0, 18, 18, 5), idx);
  }

  /** When no pass compares bytes past the end of the file, what the scan reports
      depends on the file alone. */
  lemma ScanIgnoresBytesPastEnd(v1: seq<byte>, v2: seq<byte>, n: nat, pat: seq<byte>, mode: Mode, idx: int)
    requires |pat| <= MAX_PATTERN_LENGTH && n <= |v1| && n <= |v2| && v1[..n] == v2[..n]
    requires var ws := FileWindows(n, |pat|); ws == [] || ReadsWithin(ws[|ws| - 1], |pat|, n)
    ensures var ws := FileWindows(n, |pat|);
      && AllFit(ws, v1) && AllFit(ws, v2)
      && ScanHits(v1, ws, pat, mode) == ScanHits(v2, ws, pat, mode)
      && ScanRecords(v1, ws, pat, mode, idx) == ScanRecords(v2, ws, pat, mode, idx)
  {
    var ws := FileWindows(n, |pat|);
    WindowsWellFormed(n, |pat|, 0, 0);
    ReadsPastEndOnlyAtLastPass(n, |pat|);
    ScanFrame(v1, v2, n, ws, pat, mode, idx);
  }
}

/** The read loop of a worker over one file: fill the buffer after the carried-over
    bytes, stop on an empty read or when fewer bytes than the pattern are held, scan
    one pass, stop after a short read, otherwise carry chunk[bound..] over and read
    again. */
module FileScan {
  import opened Arith
  import opened Bytes
  import opened Config
  import opened Lines
  import opened Context
  import opened Schedule
  import opened Hits
  import opened Growable
  import opened Scanner

  /** What one read leads to, from a state where chunk[0] holds file byte `start` and
      `offset` bytes are carried over: no pass, a last pass, or a full pass followed by
      the passes after its carry-over. */
  lemma ReadStep(n: nat, m: nat, start: nat, offset: nat, got: int)
    requires m <= MAX_PATTERN_LENGTH && offset < CHUNK_SIZE && start + offset <= n
    requires offset == 0 || offset == m + CONTEXT_LENGTH
    requires got == IMin(CHUNK_SIZE - offset, n - start - offset)
    ensures got <= 0 || offset + got < m ==> Windows(n, m, start, offset) == []
    ensures got > 0 && offset + got >= m && got < CHUNK_SIZE - offset ==>
      var total := offset + got;
      var w := Window(start, got, total, Bound(total, m));
      && Shaped(w, m) && start + total == n
      && Windows(n, m, start, offset) == [w]
    ensures got > 0 && offset + got >= m && got == CHUNK_SIZE - offset ==>
      var w := Window(start, got, CHUNK_SIZE, Bound(CHUNK_SIZE, m));
      && Shaped(w, m) && start + CHUNK_SIZE <= n && ReadsWithin(w, m, n)
      && w.bound == CHUNK_SIZE - m - CONTEXT_LENGTH && CHUNK_SIZE - w.bound <= w.bound
      && Windows(n, m, start, offset) == [w] + Windows(n, m, start + w.bound, CHUNK_SIZE - w.bound)
  {
    if got == CHUNK_SIZE - offset {
      WindowsUnfold(n, m, start, offset);
    } else {
      WindowsShort(n, m, start, offset);
    }
  }

  /** The loop state between two reads: the passes made so far are `done`, chunk[0]
      holds file byte `start`, `offset` bytes are carried over, and the passes still to
      come are those of the schedule from there. */
  ghost predicate Between(file: seq<byte>, m: nat, done: seq<Window>, start: nat, offset: nat)
  {
    && m <= MAX_PATTERN_LENGTH && offset < CHUNK_SIZE && start + offset <= |file|
    && (offset == 0 || offset == m + CONTEXT_LENGTH)
    && FileWindows(|file|, m) == done + Windows(|file|, m, start, offset)
    && AllFit(done, file) && AllBelow(done, |file|, m)
  }

  lemma BetweenInit(file: seq<byte>, m: nat)
    requires m <= MAX_PATTERN_LENGTH
    ensures Between(file, m, [], 0, 0)
  {
    assert [] + Windows(|file|, m, 0, 0) == Windows(|file|, m, 0, 0);
  }

  /** A full pass joins the passes made, and the schedule goes on after its carry-over. */
  lemma BetweenStep(file: seq<byte>, m: nat, done: seq<Window>, start: nat, offset: nat, bound: nat, w: Window)
    requires Between(file, m, done, start, offset)
    requires w.start == start && w.start + w.total <= |file| && ReadsWithin(w, m, |file|)
    requires Fits(w, file) && w.bound == bound && bound == CHUNK_SIZE - m - CONTEXT_LENGTH
    requires start + CHUNK_SIZE <= |file|
    requires Windows(|file|, m, start, offset) == [w] + Windows(|file|, m, start + bound, CHUNK_SIZE - bound)
    ensures Between(file, m, done + [w], start + bound, CHUNK_SIZE - bound)
  {
    var rest := Windows(|file|, m, start + bound, CHUNK_SIZE - bound);
    assert done + ([w] + rest) == done + [w] + rest;
    var ws := done + [w];
    forall k | 0 <= k < |ws|
      ensures Fits(ws[k], file)
      ensures ws[k].start + ws[k].total <= |file| && ws[k].start + ws[k].bound + m <= |file| + 1
    {
      if k < |done| {
        assert ws[k] == done[k];
      }
    }
  }

  /** The records of the passes made, followed by those of one more pass. */
  lemma ScanRecordsSnoc(v: seq<byte>, ws: seq<Window>, w: Window, pat: seq<byte>, mode: Mode, idx: int)
    requires AllFit(ws, v) && Fits(w, v)
    ensures AllFit(ws + [w], v)
    ensures ScanRecords(v, ws + [w], pat, mode, idx)
      == ScanRecords(v, ws, pat, mode, idx) + PassRecords(v, w, PassHits(v, w, w.bound, pat, mode), idx)
  {
    var ws' := ws + [w];
    assert ws'[..|ws'| - 1] == ws;
    forall k | 0 <= k < |ws'| ensures Fits(ws'[k], v) {
      if k < |ws| {
        assert ws'[k] == ws[k];
      }
    }
  }

  /** After the last pass, over a view that extends the file with what the buffer held
      past its end: the earlier passes read only file bytes. */
  lemma LastPassRecords(file: seq<byte>, v: seq<byte>, done: seq<Window>, w: Window,
                        pat: seq<byte>, mode: Mode, idx: int)
    requires |file| <= |v| && v[..|file|] == file
    requires AllFit(done, file) && AllBelow(done, |file|, |pat|) && Fits(w, v)
    ensures AllFit(done + [w], v)
    ensures ScanRecords(v, done + [w], pat, mode, idx)
      == ScanRecords(file, done, pat, mode, idx) + PassRecords(v, w, PassHits(v, w, w.bound, pat, mode), idx)
  {
    assert AllFit(done, v) by {
      forall k | 0 <= k < |done| ensures Fits(done[k], v) {
        assert Fits(done[k], file);
      }
    }
    ScanRecordsSnoc(v, done, w, pat, mode, idx);
    assert file[..|file|] == file;
    ScanFrame(v, file, |file|, done, pat, mode, idx);
  }

  /** Appending a run of records to a list that already ends with others. */
  lemma AppendAssoc(a: seq<MatchRecord>, b: seq<MatchRecord>, c: seq<MatchRecord>)
    ensures a + b + c == a + (b + c)
  {
  }

  /** The bytes already in the buffer and the bytes just read make one run of the file. */
  lemma ReadJoin(c: seq<byte>, file: seq<byte>, start: nat, offset: nat, got: nat)
    requires offset + got <= |c| && start + offset + got <= |file|
    requires c[..offset] == file[start..start + offset]
    requires c[offset..offset + got] == file[start + offset..start + offset + got]
    ensures c[..offset + got] == file[start..start + offset + got]
  {
    forall k | 0 <= k < offset + got ensures c[k] == file[start + k] {
      if k < offset {
        assert c[..offset][k] == file[start..start + offset][k];
      } else {
        assert c[offset..offset + got][k - offset] == file[start + offset..start + offset + got][k - offset];
      }
    }
  }

  /** After a short read the buffer shows the end of the file followed by what it held
      before beyond the bytes read. */
  lemma ShortView(c: seq<byte>, file: seq<byte>, start: nat, total: nat)
    requires |c| == CHUNK_SIZE && total <= CHUNK_SIZE && start + total == |file|
    requires c[..total] == file[start..start + total]
    ensures var v := file + c[total..];
      && |v| == start + CHUNK_SIZE && v[..|file|] == file && c == v[start..start + CHUNK_SIZE]
  {
    var v := file + c[total..];
    assert v[..|file|] == file;
    forall k | 0 <= k < CHUNK_SIZE ensures c[k] == v[start + k] {
      if k < total {
        assert c[..total][k] == file[start..start + total][k];
      }
    }
  }

  /** After a full read the buffer holds file bytes start .. start+16383. */
  lemma FullView(c: seq<byte>, file: seq<byte>, start: nat)
    requires |c| == CHUNK_SIZE && start + CHUNK_SIZE <= |file|
    requires c[..CHUNK_SIZE] == file[start..start + CHUNK_SIZE]
    ensures c == file[start..start + CHUNK_SIZE]
  {
    assert c[..CHUNK_SIZE] == c;
  }

  /** The carry-over leaves the unscanned file bytes at the front of the buffer. */
  lemma Carried(c: seq<byte>, c': seq<byte>, file: seq<byte>, start: nat, bound: nat)
    requires |c| == |c'| == CHUNK_SIZE && bound <= CHUNK_SIZE && start + CHUNK_SIZE <= |file|
    requires c == file[start..start + CHUNK_SIZE] && c'[..CHUNK_SIZE - bound] == c[bound..]
    ensures c'[..CHUNK_SIZE - bound] == file[start + bound..start + bound + (CHUNK_SIZE - bound)]
  {
    forall k | 0 <= k < CHUNK_SIZE - bound ensures c'[k] == file[start + bound + k] {
      assert c'[..CHUNK_SIZE - bound][k] == c[bound..][k];
    }
  }

  /** The loop state at the top of `while (1)`: chunk[0] holds file byte `start`, the
      buffer front holds the `offset` carried-over bytes, the counters are those of file
      position `start`, and the records are those of the passes made. */
  ghost predicate Resume(c: seq<byte>, file: seq<byte>, pattern: seq<byte>, mode: Mode, idx: int,
                         before: seq<MatchRecord>, elems: seq<MatchRecord>, done: seq<Window>,
                         start: nat, offset: nat, line: int, col: int)
  {
    && |c| == CHUNK_SIZE && Between(file, |pattern|, done, start, offset)
    && c[..offset] == file[start..start + offset]
    && CountersAt(file, start, line, col)
    && elems == before + ScanRecords(file, done, pattern, mode, idx)
  }

  /** The loop state after the `fread`: the buffer front holds the carried-over bytes
      followed by the `got` bytes read. */
  ghost predicate Loaded(c: seq<byte>, file: seq<byte>, pattern: seq<byte>, mode: Mode, idx: int,
                         before: seq<MatchRecord>, elems: seq<MatchRecord>, done: seq<Window>,
                         start: nat, offset: nat, got: int, line: int, col: int)
  {
    && |c| == CHUNK_SIZE && Between(file, |pattern|, done, start, offset)
    && got == IMin(CHUNK_SIZE - offset, |file| - start - offset) && got >= 0
    && c[..offset + got] == file[start..start + offset + got]
    && CountersAt(file, start, line, col)
    && elems == before + ScanRecords(file, done, pattern, mode, idx)
  }

  /** The state after the loop: the records are those of the whole schedule of the
      file, over `view`, the file followed by what the buffer held past its end. */
  ghost predicate Finished(file: seq<byte>, pattern: seq<byte>, mode: Mode, idx: int,
                           before: seq<MatchRecord>, elems: seq<MatchRecord>, view: seq<byte>)
  {
    && |pattern| <= MAX_PATTERN_LENGTH
    && |file| <= |view| && view[..|file|] == file
    && AllFit(FileWindows(|file|, |pattern|), view)
    && elems == before + ScanRecords(view, FileWindows(|file|, |pattern|), pattern, mode, idx)
  }

  /** The `fread` at stream position start + offset turns the state at the top of the
      loop into the state after it. */
  lemma ReadLoads(c0: seq<byte>, c: seq<byte>, file: seq<byte>, pattern: seq<byte>, mode: Mode, idx: int,
                  before: seq<MatchRecord>, elems: seq<MatchRecord>, done: seq<Window>,
                  start: nat, offset: nat, pos: nat, got: int, line: int, col: int)
    requires Resume(c0, file, pattern, mode, idx, before, elems, done, start, offset, line, col)
    requires pos == start + offset
    requires |c| == CHUNK_SIZE && got == IMin(CHUNK_SIZE - offset, |file| - pos) && got >= 0
    requires c[..offset] == c0[..offset] && c[offset..offset + got] == file[pos..pos + got]
    ensures Loaded(c, file, pattern, mode, idx, before, elems, done, start, offset, got, line, col)
  {
    ReadJoin(c, file, start, offset, got);
  }

  /** An empty read, or fewer bytes held than the pattern, ends the scan with no more
      passes. */
  lemma NoPass(c: seq<byte>, file: seq<byte>, pattern: seq<byte>, mode: Mode, idx: int,
               before: seq<MatchRecord>, elems: seq<MatchRecord>, done: seq<Window>,
               start: nat, offset: nat, got: int, line: int, col: int)
    requires Loaded(c, file, pattern, mode, idx, before, elems, done, start, offset, got, line, col)
    requires got <= 0 || offset + got < |pattern|
    ensures Finished(file, pattern, mode, idx, before, elems, file)
  {
    ReadStep(|file|, |pattern|, start, offset, got);
    assert done + [] == done;
    assert file[..|file|] == file;
  }

  /** What the pass after a short read needs: the view is the file followed by what the
      buffer held past the bytes read. */
  lemma LastSetup(c: seq<byte>, file: seq<byte>, pattern: seq<byte>, mode: Mode, idx: int,
                  before: seq<MatchRecord>, elems: seq<MatchRecord>, done: seq<Window>,
                  start: nat, offset: nat, got: int, line: int, col: int, w: Window)
    requires Loaded(c, file, pattern, mode, idx, before, elems, done, start, offset, got, line, col)
    requires NUL !in pattern && 0 < got < CHUNK_SIZE - offset && offset + got >= |pattern|
    requires w == Window(start, got, offset + got, IMax(offset + got - |pattern| - CONTEXT_LENGTH, |pattern|))
    ensures var view := file + c[w.total..];
      && PassSetup(c, view, w, pattern) && CountersAt(view, w.start, line, col)
      && |file| <= |view| && view[..|file|] == file
      && FileWindows(|file|, |pattern|) == done + [w]
  {
    ReadStep(|file|, |pattern|, start, offset, got);
    var view := file + c[w.total..];
    ShortView(c, file, start, w.total);
    CountersFrame(file, view, |file|, start);
  }

  /** After the pass of a short read the records are those of the whole schedule. */
  lemma LastFinish(file: seq<byte>, view: seq<byte>, pattern: seq<byte>, mode: Mode, idx: int,
                   before: seq<MatchRecord>, elems0: seq<MatchRecord>, elems: seq<MatchRecord>,
                   done: seq<Window>, w: Window)
    requires |pattern| <= MAX_PATTERN_LENGTH && |file| <= |view| && view[..|file|] == file
    requires FileWindows(|file|, |pattern|) == done + [w]
    requires AllFit(done, file) && AllBelow(done, |file|, |pattern|) && Fits(w, view)
    requires elems0 == before + ScanRecords(file, done, pattern, mode, idx)
    requires elems == elems0 + PassRecords(view, w, PassHits(view, w, w.bound, pattern, mode), idx)
    ensures Finished(file, pattern, mode, idx, before, elems, view)
  {
    LastPassRecords(file, view, done, w, pattern, mode, idx);
    AppendAssoc(before, ScanRecords(file, done, pattern, mode, idx),
                PassRecords(view, w, PassHits(view, w, w.bound, pattern, mode), idx));
  }

  /** The pass after a short read, the last one. */
  method ScanLast(chunk: array<byte>, file: seq<byte>, pattern: seq<byte>, mode: Mode, idx: int,
                  matches: Vec<MatchRecord>, ghost start: nat, offset: nat, got: nat, bound: nat,
                  line0: int, col0: int, ghost done: seq<Window>, ghost before: seq<MatchRecord>)
    returns (line: int, col: int, ghost view: seq<byte>)
    requires chunk.Length == CHUNK_SIZE && NUL !in pattern && matches.Valid()
    requires Loaded(chunk[..], file, pattern, mode, idx, before, matches.Elements(), done, start, offset, got, line0, col0)
    requires 0 < got < CHUNK_SIZE - offset && offset + got >= |pattern|
    requires bound == IMax(offset + got - |pattern| - CONTEXT_LENGTH, |pattern|)
    modifies matches, matches.data
    ensures matches.Valid()
    ensures matches.data == old(matches.data) || fresh(matches.data)
    ensures Finished(file, pattern, mode, idx, before, matches.Elements(), view)
  {
    ghost var w := Window(start, got, offset + got, bound);
    ghost var elems0 := matches.Elements();
    LastSetup(chunk[..], file, pattern, mode, idx, before, elems0, done, start, offset, got, line0, col0, w);
    view := file + chunk[w.total..];
    line, col := ScanPass(chunk, view, w, bound, got, pattern, mode, idx, matches, line0, col0);
    LastFinish(file, view, pattern, mode, idx, before, elems0, matches.Elements(), done, w);
  }

  /** What the pass after a full read needs: the buffer holds 16384 file bytes. */
  lemma FullSetup(c: seq<byte>, file: seq<byte>, pattern: seq<byte>, mode: Mode, idx: int,
                  before: seq<MatchRecord>, elems: seq<MatchRecord>, done: seq<Window>,
                  start: nat, offset: nat, got: int, line: int, col: int, w: Window)
    requires Loaded(c, file, pattern, mode, idx, before, elems, done, start, offset, got, line, col)
    requires NUL !in pattern && got == CHUNK_SIZE - offset
    requires w == Window(start, got, CHUNK_SIZE, IMax(CHUNK_SIZE - |pattern| - CONTEXT_LENGTH, |pattern|))
    ensures PassSetup(c, file, w, pattern) && CountersAt(file, w.start, line, col)
    ensures w.bound <= CHUNK_SIZE && CHUNK_SIZE - w.bound <= w.bound && start + CHUNK_SIZE <= |file|
  {
    ReadStep(|file|, |pattern|, start, offset, got);
    FullView(c, file, start);
  }

  /** The records of the passes made, followed by those of a full pass. */
  lemma FullRecords(file: seq<byte>, pattern: seq<byte>, mode: Mode, idx: int,
                    before: seq<MatchRecord>, elems0: seq<MatchRecord>, elems: seq<MatchRecord>,
                    done: seq<Window>, w: Window)
    requires AllFit(done, file) && Fits(w, file)
    requires elems0 == before + ScanRecords(file, done, pattern, mode, idx)
    requires elems == elems0 + PassRecords(file, w, PassHits(file, w, w.bound, pattern, mode), idx)
    ensures elems == before + ScanRecords(file, done + [w], pattern, mode, idx)
  {
    ScanRecordsSnoc(file, done, w, pattern, mode, idx);
    AppendAssoc(before, ScanRecords(file, done, pattern, mode, idx),
                PassRecords(file, w, PassHits(file, w, w.bound, pattern, mode), idx));
  }

  /** After a full read the schedule goes on `bound` bytes further into the file. */
  lemma FullBetween(file: seq<byte>, m: nat, done: seq<Window>, start: nat, offset: nat, got: int,
                    bound: nat, w: Window)
    requires Between(file, m, done, start, offset)
    requires got == IMin(CHUNK_SIZE - offset, |file| - start - offset) && got == CHUNK_SIZE - offset
    requires bound == IMax(CHUNK_SIZE - m - CONTEXT_LENGTH, m) && w == Window(start, got, CHUNK_SIZE, bound)
    ensures Between(file, m, done + [w], start + bound, CHUNK_SIZE - bound)
  {
    ReadStep(|file|, m, start, offset, got);
    assert w.bound == bound;
    BetweenStep(file, m, done, start, offset, bound, w);
  }

  /** The state after the pass of a full read: the buffer holds file bytes start ..
      start+16383, the counters are those of file position start+bound, and the records
      are those of the passes made, this one included. */
  ghost predicate Passed(c: seq<byte>, file: seq<byte>, pattern: seq<byte>, mode: Mode, idx: int,
                         before: seq<MatchRecord>, elems: seq<MatchRecord>, done: seq<Window>,
                         start: nat, bound: nat, line: int, col: int)
  {
    && |c| == CHUNK_SIZE && bound <= CHUNK_SIZE && start + CHUNK_SIZE <= |file|
    && c == file[start..start + CHUNK_SIZE]
    && Between(file, |pattern|, done, start + bound, CHUNK_SIZE - bound)
    && CountersAt(file, start + bound, line, col)
    && elems == before + ScanRecords(file, done, pattern, mode, idx)
  }

  /** The `memcpy` of the unscanned tail to the front brings the state back to the one
      at the top of the loop, `bound` bytes further on. */
  lemma CarryResumes(c0: seq<byte>, c: seq<byte>, file: seq<byte>, pattern: seq<byte>, mode: Mode, idx: int,
                     before: seq<MatchRecord>, elems: seq<MatchRecord>, done: seq<Window>,
                     start: nat, bound: nat, line: int, col: int)
    requires Passed(c0, file, pattern, mode, idx, before, elems, done, start, bound, line, col)
    requires |c| == CHUNK_SIZE && c[..CHUNK_SIZE - bound] == c0[bound..]
    ensures Resume(c, file, pattern, mode, idx, before, elems, done, start + bound, CHUNK_SIZE - bound, line, col)
  {
    Carried(c0, c, file, start, bound);
  }

  /** The pass after a full read. */
  method FullPass(chunk: array<byte>, file: seq<byte>, pattern: seq<byte>, mode: Mode, idx: int,
                  matches: Vec<MatchRecord>, ghost start: nat, offset: nat, got: nat, bound: nat,
                  line0: int, col0: int, ghost done: seq<Window>, ghost before: seq<MatchRecord>)
    returns (line: int, col: int, ghost w: Window)
    requires chunk.Length == CHUNK_SIZE && NUL !in pattern && matches.Valid()
    requires Loaded(chunk[..], file, pattern, mode, idx, before, matches.Elements(), done, start, offset, got, line0, col0)
    requires got == CHUNK_SIZE - offset
    requires bound == IMax(CHUNK_SIZE - |pattern| - CONTEXT_LENGTH, |pattern|)
    modifies matches, matches.data
    ensures matches.Valid()
    ensures matches.data == old(matches.data) || fresh(matches.data)
    ensures w.bound == bound && 0 < bound && CHUNK_SIZE - bound <= bound
    ensures Passed(chunk[..], file, pattern, mode, idx, before, matches.Elements(), done + [w], start, bound, line, col)
  {
    w := Window(start, got, CHUNK_SIZE, bound);
    ghost var elems0 := matches.Elements();
    FullSetup(chunk[..], file, pattern, mode, idx, before, elems0, done, start, offset, got, line0, col0, w);
    FullView(chunk[..], file, start);
    FullBetween(file, |pattern|, done, start, offset, got, bound, w);
    line, col := ScanPass(chunk, file, w, bound, got, pattern, mode, idx, matches, line0, col0);
    assert CountersAt(file, start + bound, line, col);
    FullRecords(file, pattern, mode, idx, before, elems0, matches.Elements(), done, w);
  }

  /** The pass after a full read, then the `memcpy` of the unscanned tail to the front:
      the state is again the one at the top of the loop, `bound` bytes further on. */
  method ScanFull(chunk: array<byte>, file: seq<byte>, pattern: seq<byte>, mode: Mode, idx: int,
                  matches: Vec<MatchRecord>, ghost start: nat, offset: nat, got: nat, bound: nat,
                  line0: int, col0: int, ghost done: seq<Window>, ghost before: seq<MatchRecord>)
    returns (line: int, col: int, ghost w: Window)
    requires chunk.Length == CHUNK_SIZE && NUL !in pattern && matches.Valid()
    requires Loaded(chunk[..], file, pattern, mode, idx, before, matches.Elements(), done, start, offset, got, line0, col0)
    requires got == CHUNK_SIZE - offset
    requires bound == IMax(CHUNK_SIZE - |pattern| - CONTEXT_LENGTH, |pattern|)
    modifies chunk, matches, matches.data
    ensures matches.Valid()
    ensures matches.data == old(matches.data) || fresh(matches.data)
    ensures w.bound == bound && 0 < bound
    ensures Resume(chunk[..], file, pattern, mode, idx, before, matches.Elements(), done + [w],
                   start + bound, CHUNK_SIZE - bound, line, col)
  {
    line, col, w := FullPass(chunk, file, pattern, mode, idx, matches, start, offset, got, bound, line0, col0, done, before);
    ghost var c0 := chunk[..];
    CarryOver(chunk, bound);
    CarryResumes(c0, chunk[..], file, pattern, mode, idx, before, matches.Elements(), done + [w], start, bound, line, col);
  }

  /** The `fread` at the top of the loop. */
  method ReadChunk(chunk: array<byte>, file: seq<byte>, pattern: seq<byte>, mode: Mode, idx: int,
                   matches: Vec<MatchRecord>, pos: nat, offset: nat, toRead: nat, line: int, col: int,
                   ghost start: nat, ghost done: seq<Window>, ghost before: seq<MatchRecord>)
    returns (got: int)
    requires chunk.Length == CHUNK_SIZE && matches.Valid() && pos == start + offset && toRead == CHUNK_SIZE - offset
    requires Resume(chunk[..], file, pattern, mode, idx, before, matches.Elements(), done, start, offset, line, col)
    modifies chunk
    ensures Loaded(chunk[..], file, pattern, mode, idx, before, matches.Elements(), done, start, offset, got, line, col)
  {
    ghost var c0 := chunk[..];
    got := Read(chunk, offset, toRead, file, pos);
    ReadLoads(c0, chunk[..], file, pattern, mode, idx, before, matches.Elements(), done, start, offset, pos, got, line, col);
  }

  /** What one read leads to: stop when it delivered nothing or fewer bytes than the
      pattern are held, scan the last pass after a short read, otherwise scan a full
      pass and carry the unscanned tail over. `before` is what the records held before
      the file was opened. */
  method ScanRead(chunk: array<byte>, file: seq<byte>, pattern: seq<byte>, mode: Mode, idx: int,
                  matches: Vec<MatchRecord>, pos: nat, offset: nat, got: int, line0: int, col0: int,
                  ghost start: nat, ghost done: seq<Window>, ghost before: seq<MatchRecord>)
    returns (more: bool, nextPos: nat, nextOffset: nat, line: int, col: int,
             ghost nextStart: nat, ghost nextDone: seq<Window>, ghost view: seq<byte>)
    requires chunk.Length == CHUNK_SIZE && NUL !in pattern && matches.Valid()
    requires pos == start + offset
    requires Loaded(chunk[..], file, pattern, mode, idx, before, matches.Elements(), done, start, offset, got, line0, col0)
    modifies chunk, matches, matches.data
    ensures matches.Valid()
    ensures matches.data == old(matches.data) || fresh(matches.data)
    ensures more ==> nextPos == nextStart + nextOffset && start < nextStart
    ensures more ==> Resume(chunk[..], file, pattern, mode, idx, before, matches.Elements(), nextDone,
                            nextStart, nextOffset, line, col)
    ensures !more ==> Finished(file, pattern, mode, idx, before, matches.Elements(), view)
  {
    more, nextPos, nextOffset, line, col, nextStart, nextDone, view := false, pos, offset, line0, col0, start, done, file;
    // `length_read <= 0` and `total_length < search_length` both break out of the loop
    if got <= 0 || offset + got < |pattern| {
      NoPass(chunk[..], file, pattern, mode, idx, before, matches.Elements(), done, start, offset, got, line0, col0);
      return;
    }
    var total := offset + got;
    var bound := IMax(total - |pattern| - CONTEXT_LENGTH, |pattern|);
    if got < CHUNK_SIZE - offset {
      line, col, view := ScanLast(chunk, file, pattern, mode, idx, matches, start, offset, got, bound, line0, col0, done, before);
      return;
    }
    ghost var w;
    line, col, w := ScanFull(chunk, file, pattern, mode, idx, matches, start, offset, got, bound, line0, col0, done, before);
    more, nextPos, nextOffset := true, pos + got, CHUNK_SIZE - bound;
    nextStart, nextDone := start + bound, done + [w];
  }

  /** The scan of one file, `while (1)` over reads: the records appended are those of
      every pass of the schedule, each computed over `view`, the file followed by what
      the buffer held past its end at the last pass (bytes of an earlier file, or of
      whatever the buffer held before). */
  method ScanFile(chunk: array<byte>, file: seq<byte>, pattern: seq<byte>, mode: Mode, idx: int,
                  matches: Vec<MatchRecord>)
    returns (ghost view: seq<byte>)
    requires chunk.Length == CHUNK_SIZE && NUL !in pattern && |pattern| <= MAX_PATTERN_LENGTH
    requires matches.Valid()
    modifies chunk, matches, matches.data
    ensures matches.Valid()
    ensures matches.data == old(matches.data) || fresh(matches.data)
    ensures |file| <= |view| && view[..|file|] == file
    ensures AllFit(FileWindows(|file|, |pattern|), view)
    ensures matches.Elements()
      == old(matches.Elements()) + ScanRecords(view, FileWindows(|file|, |pattern|), pattern, mode, idx)
  {
    ghost var before := matches.Elements();
    var line, col := 1, 1;
    var pos, offset := 0, 0;
    ghost var start, done := 0, [];
    BetweenInit(file, |pattern|);
    assert before == before + ScanRecords(file, [], pattern, mode, idx);
    while true
      invariant matches.Valid()
      invariant matches.data == old(matches.data) || fresh(matches.data)
      invariant pos == start + offset
      invariant Resume(chunk[..], file, pattern, mode, idx, before, matches.Elements(), done, start, offset, line, col)
      decreases |file| - start
    {
      var got := ReadChunk(chunk, file, pattern, mode, idx, matches, pos, offset, CHUNK_SIZE - offset, line, col,
                           start, done, before);
      var more;
      more, pos, offset, line, col, start, done, view :=
        ScanRead(chunk, file, pattern, mode, idx, matches, pos, offset, got, line, col, start, done, before);
      if !more {
        return;
      }
    }
  }
}

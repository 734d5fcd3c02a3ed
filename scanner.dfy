/** The single-file chunked scanner of a worker: reads a file into a 16384-byte
    buffer, scans the safe prefix of each chunk for the pattern, records every hit
    with its line, column and context, and carries the unscanned tail over to the
    front of the buffer before the next read. */
module Scanner {
  import opened Arith
  import opened Bytes
  import opened Config
  import opened Lines
  import opened Context
  import opened Schedule
  import opened Hits
  import opened Growable

  /** The chunk holds the view from `s` on, so a comparison in the chunk is the same
      comparison in the view. */
  lemma MatchAtShift(c: seq<byte>, v: seq<byte>, s: nat, i: nat, pat: seq<byte>, mode: Mode)
    requires s + |c| <= |v| && c == v[s..s + |c|] && i + |pat| <= |c|
    ensures MatchAt(c, i, pat, mode) == MatchAt(v, s + i, pat, mode)
  {
    forall j | 0 <= j < |pat|
      ensures Fold(mode, c[i + j]) == pat[j] <==> Fold(mode, v[s + i + j]) == pat[j]
    {
      assert c[i + j] == v[s + i + j];
    }
  }

  /** The record built from the counters after the newline check and the snippet of the
      pass is RecordAt. */
  lemma RecordFromCounters(v: seq<byte>, w: Window, i: nat, idx: int, line: int, col: int, ctx: Context)
    requires Fits(w, v) && i < w.total
    requires line == LineBefore(v, w.start + i + 1)
    requires col == if v[w.start + i] == NEWLINE then 1 else ColBefore(v, w.start + i)
    requires ctx == ContextOf(v[w.start..w.start + w.total], i, w.lengthRead)
    ensures MatchRecord(idx, line, col - 1, ctx) == RecordAt(v, w, i, idx)
  {
  }

  /** The snippet cut from the chunk is the snippet of the pass. */
  lemma ContextFromChunk(c: seq<byte>, v: seq<byte>, w: Window, i: nat)
    requires |c| == CHUNK_SIZE && Fits(w, v) && w.total <= CHUNK_SIZE && i < w.total
    requires w.start + CHUNK_SIZE <= |v| && c == v[w.start..w.start + CHUNK_SIZE]
    ensures ContextOf(c, i, w.lengthRead) == ContextOf(v[w.start..w.start + w.total], i, w.lengthRead)
  {
    ChunkPrefix(c, v, w.start, w.total);
    ContextOfPrefix(c, c[..w.total], i, w.lengthRead);
  }

  /** The record the match branch builds from the counters and the chunk is RecordAt. */
  lemma RecordFromChunk(c: seq<byte>, v: seq<byte>, w: Window, i: nat, idx: int, line: int, col: int, ctx: Context)
    requires |c| == CHUNK_SIZE && Fits(w, v) && w.total <= CHUNK_SIZE && i < w.bound
    requires w.start + CHUNK_SIZE <= |v| && c == v[w.start..w.start + CHUNK_SIZE]
    requires line == LineBefore(v, w.start + i + 1)
    requires col == if v[w.start + i] == NEWLINE then 1 else ColBefore(v, w.start + i)
    requires ctx == ContextOf(c, i, w.lengthRead)
    ensures MatchRecord(idx, line, col - 1, ctx) == RecordAt(v, w, i, idx)
  {
    ContextFromChunk(c, v, w, i);
    RecordFromCounters(v, w, i, idx, line, col, ctx);
  }

  /** The first `t` bytes of a chunk showing the view from `s` on are the view's bytes s .. s+t-1. */
  lemma ChunkPrefix(c: seq<byte>, v: seq<byte>, s: nat, t: nat)
    requires t <= |c| && s + |c| <= |v| && c == v[s..s + |c|]
    ensures c[..t] == v[s..s + t]
  {
    forall k | 0 <= k < t ensures c[..t][k] == v[s..s + t][k] {
      assert c[k] == v[s + k];
    }
  }

  /** The comparison at chunk position `i`: `strncmp` against the pattern in plain mode,
      a byte loop through `tolower` in insensitive mode. The pattern holds no NUL, so
      `strncmp` never stops early on equal bytes and compares exactly |pattern| bytes. */
  method MatchesAt(chunk: array<byte>, i: nat, pattern: seq<byte>, mode: Mode) returns (hit: bool)
    requires i + |pattern| <= chunk.Length && NUL !in pattern
    ensures hit == MatchAt(chunk[..], i, pattern, mode)
  {
    hit := true;
    var j := 0;
    match mode {
      case Plain =>
        while j < |pattern|
          invariant 0 <= j <= |pattern|
          invariant forall t :: 0 <= t < j ==> chunk[i + t] == pattern[t]
        {
          if chunk[i + j] != pattern[j] {
            hit := false;
            break;
          }
          j := j + 1;
        }
      case Insensitive =>
        while j < |pattern|
          invariant 0 <= j <= |pattern|
          invariant forall t :: 0 <= t < j ==> ToLower(chunk[i + t]) == pattern[t]
        {
          if ToLower(chunk[i + j]) != pattern[j] {
            hit := false;
            break;
          }
          j := j + 1;
        }
    }
  }

  /** `fread`: as many bytes as are free in the buffer after `offset` and left in the
      file after `pos`; the rest of the buffer keeps what it held. */
  method Read(chunk: array<byte>, offset: nat, toRead: nat, file: seq<byte>, pos: nat) returns (got: int)
    requires offset + toRead <= chunk.Length && pos <= |file|
    modifies chunk
    ensures got == IMin(toRead, |file| - pos) && got >= 0
    ensures chunk[..offset] == old(chunk[..offset])
    ensures chunk[offset..offset + got] == file[pos..pos + got]
    ensures chunk[offset + got..] == old(chunk[offset + got..])
  {
    got := IMin(toRead, |file| - pos);
    forall k | offset <= k < offset + got {
      chunk[k] := file[pos + k - offset];
    }
  }

  /** The `memcpy` that moves the unscanned tail chunk[bound..] to the front; source and
      destination do not overlap because the tail is no longer than the scanned part. */
  method CarryOver(chunk: array<byte>, bound: nat)
    requires chunk.Length == CHUNK_SIZE && bound <= CHUNK_SIZE && CHUNK_SIZE - bound <= bound
    modifies chunk
    ensures chunk[..CHUNK_SIZE - bound] == old(chunk[bound..])
    ensures chunk[CHUNK_SIZE - bound..] == old(chunk[CHUNK_SIZE - bound..])
  {
    forall k | 0 <= k < CHUNK_SIZE - bound {
      chunk[k] := chunk[bound + k];
    }
  }

  /** The record of the match branch: the file index, `line`, `col - 1` and the
      snippet cut from the chunk. */
  method MakeRecord(chunk: array<byte>, i: nat, lengthRead: nat, idx: int, line: int, col: int)
    returns (record: MatchRecord)
    requires i < chunk.Length && lengthRead <= chunk.Length
    ensures record == MatchRecord(idx, line, col - 1, ContextOf(chunk[..], i, lengthRead))
  {
    var ctx := ContextAt(chunk, i, lengthRead);
    record := MatchRecord(idx, line, col - 1, ctx);
  }

  /** What a pass needs of the chunk: it holds the view from `w.start` on, and every
      comparison of the pass stays inside it. */
  ghost predicate PassSetup(c: seq<byte>, v: seq<byte>, w: Window, pattern: seq<byte>)
  {
    && |c| == CHUNK_SIZE && NUL !in pattern
    && Fits(w, v) && w.total <= CHUNK_SIZE && w.bound + |pattern| <= CHUNK_SIZE
    && w.start + CHUNK_SIZE <= |v| && c == v[w.start..w.start + CHUNK_SIZE]
  }

  /** `line` and `col` at the top of the iteration for file position `p`. */
  ghost predicate CountersAt(v: seq<byte>, p: nat, line: int, col: int)
    requires p <= |v|
  {
    line == LineBefore(v, p) && col == ColBefore(v, p)
  }

  /** `line` and `col` move on over the byte at file position `p`. */
  lemma CountersStep(v: seq<byte>, p: nat, line: int, col: int)
    requires p < |v| && CountersAt(v, p, line, col)
    ensures v[p] == NEWLINE ==> CountersAt(v, p + 1, line + 1, 2)
    ensures v[p] != NEWLINE ==> CountersAt(v, p + 1, line, col + 1)
  {
  }

  /** Position `i` of a pass, seen from the chunk: the comparison there is the one in
      the view, and on a hit the record built from the chunk and the counters is the
      next record of the pass. */
  lemma PositionStep(c: seq<byte>, v: seq<byte>, w: Window, i: nat, pattern: seq<byte>, mode: Mode,
                     idx: int, line: int, col: int, before: seq<MatchRecord>)
    requires PassSetup(c, v, w, pattern) && i < w.bound
    requires line == LineBefore(v, w.start + i + 1)
    requires col == if v[w.start + i] == NEWLINE then 1 else ColBefore(v, w.start + i)
    ensures MatchAt(c, i, pattern, mode) ==>
      before + PassRecords(v, w, PassHits(v, w, i + 1, pattern, mode), idx)
      == before + PassRecords(v, w, PassHits(v, w, i, pattern, mode), idx)
         + [MatchRecord(idx, line, col - 1, ContextOf(c, i, w.lengthRead))]
    ensures !MatchAt(c, i, pattern, mode) ==>
      PassRecords(v, w, PassHits(v, w, i + 1, pattern, mode), idx)
      == PassRecords(v, w, PassHits(v, w, i, pattern, mode), idx)
  {
    MatchAtShift(c, v, w.start, i, pattern, mode);
    if MatchAt(c, i, pattern, mode) {
      var ctx := ContextOf(c, i, w.lengthRead);
      RecordFromChunk(c, v, w, i, idx, line, col, ctx);
      PassRecordsHit(v, w, i, pattern, mode, idx, MatchRecord(idx, line, col - 1, ctx), before);
    } else {
      PassRecordsStep(v, w, i + 1, pattern, mode, idx);
    }
  }

  /** A hit at position `i` appends its record to the records of the pass. */
  lemma PassRecordsHit(v: seq<byte>, w: Window, i: nat, pattern: seq<byte>, mode: Mode, idx: int,
                       record: MatchRecord, before: seq<MatchRecord>)
    requires Fits(w, v) && i < w.bound && MatchAt(v, w.start + i, pattern, mode)
    requires record == RecordAt(v, w, i, idx)
    ensures before + PassRecords(v, w, PassHits(v, w, i + 1, pattern, mode), idx)
      == before + PassRecords(v, w, PassHits(v, w, i, pattern, mode), idx) + [record]
  {
    PassRecordsStep(v, w, i + 1, pattern, mode, idx);
    var earlier := PassRecords(v, w, PassHits(v, w, i, pattern, mode), idx);
    assert before + (earlier + [record]) == before + earlier + [record];
  }

  /** One iteration of the pass loop at chunk position `i`: the newline check, the
      comparison and, on a hit, the appended record; then `col` advances. */
  method ScanPosition(chunk: array<byte>, ghost v: seq<byte>, ghost w: Window, i: nat, lengthRead: nat,
                      pattern: seq<byte>, mode: Mode, idx: int, matches: Vec<MatchRecord>,
                      line0: int, col0: int, ghost before: seq<MatchRecord>)
    returns (line: int, col: int)
    requires PassSetup(chunk[..], v, w, pattern) && i < w.bound && w.lengthRead == lengthRead
    requires CountersAt(v, w.start + i, line0, col0)
    requires matches.Valid()
    requires matches.Elements() == before + PassRecords(v, w, PassHits(v, w, i, pattern, mode), idx)
    modifies matches, matches.data
    ensures matches.Valid()
    ensures matches.Elements() == before + PassRecords(v, w, PassHits(v, w, i + 1, pattern, mode), idx)
    ensures matches.data == old(matches.data) || fresh(matches.data)
    ensures CountersAt(v, w.start + i + 1, line, col)
  {
    line, col := line0, col0;
    assert chunk[i] == v[w.start + i];
    CountersStep(v, w.start + i, line0, col0);
    if chunk[i] == NEWLINE {
      line := line + 1;
      col := 1;
    }
    PositionStep(chunk[..], v, w, i, pattern, mode, idx, line, col, before);
    var hit := MatchesAt(chunk, i, pattern, mode);
    if hit {
      var record := MakeRecord(chunk, i, lengthRead, idx, line, col);
      matches.Push(record);
    }
    col := col + 1;
  }

  /** One pass over chunk[0 .. bound-1]: advances `line` and `col` over every scanned
      byte and appends the record of every hit, in position order. `v` is the view the
      chunk shows from file position `w.start` on. */
  method ScanPass(chunk: array<byte>, ghost v: seq<byte>, ghost w: Window, bound: nat, lengthRead: nat,
                  pattern: seq<byte>, mode: Mode, idx: int, matches: Vec<MatchRecord>,
                  line0: int, col0: int)
    returns (line: int, col: int)
    requires PassSetup(chunk[..], v, w, pattern) && w.bound == bound && w.lengthRead == lengthRead
    requires CountersAt(v, w.start, line0, col0)
    requires matches.Valid()
    modifies matches, matches.data
    ensures matches.Valid()
    ensures matches.Elements() == old(matches.Elements()) + PassRecords(v, w, PassHits(v, w, bound, pattern, mode), idx)
    ensures matches.data == old(matches.data) || fresh(matches.data)
    ensures CountersAt(v, w.start + bound, line, col)
  {
    line, col := line0, col0;
    var i := 0;
    while i < bound
      invariant 0 <= i <= bound
      invariant matches.Valid()
      invariant matches.Elements() == old(matches.Elements()) + PassRecords(v, w, PassHits(v, w, i, pattern, mode), idx)
      invariant matches.data == old(matches.data) || fresh(matches.data)
      invariant CountersAt(v, w.start + i, line, col)
    {
      line, col := ScanPosition(chunk, v, w, i, lengthRead, pattern, mode, idx, matches, line, col,
                                old(matches.Elements()));
      i := i + 1;
    }
  }

}

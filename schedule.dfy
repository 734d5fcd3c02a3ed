/** The chunk schedule of one file: which bytes each read brings in, how many chunk
    positions are scanned, and what is carried over to the next read. It depends only
    on the file length `n` and the pattern length `m`. */
module Schedule {
  import opened Arith
  import opened Config
  import opened Context

  const CHUNK_SIZE: nat := 16384

  /** One pass over the chunk buffer: chunk[0] holds file byte `start`; the last read
      delivered `lengthRead` bytes; the buffer holds `total` valid bytes; positions
      0 .. bound-1 are scanned. */
  datatype Window = Window(start: nat, lengthRead: nat, total: nat, bound: nat)

  /** `max_length_to_search`: the larger of the two limits. */
  function Bound(total: int, m: int): (r: int)
    ensures r >= total - m - CONTEXT_LENGTH && r >= m
    ensures r == total - m - CONTEXT_LENGTH || r == m
  {
    IMax(total - m - CONTEXT_LENGTH, m)
  }

  /** The passes made from a state where chunk[0] holds file byte `start` and
      `offset` carried-over bytes are already in the buffer. A read delivers
      min(free space, bytes left); the loop stops on an empty read, on fewer valid
      bytes than the pattern, or after the pass of a short read. */
  function Windows(n: nat, m: nat, start: nat, offset: nat): seq<Window>
    requires m <= MAX_PATTERN_LENGTH && offset < CHUNK_SIZE && start + offset <= n
    decreases n - start
  {
    var toRead := CHUNK_SIZE - offset;
    var got := IMin(toRead, n - start - offset);
    if got <= 0 || offset + got < m then []
    else
      var total := offset + got;
      var w := Window(start, got, total, Bound(total, m));
      if got < toRead then [w]
      else [w] + Windows(n, m, start + w.bound, CHUNK_SIZE - w.bound)
  }

  /** The passes of a whole file, from an empty buffer. */
  function FileWindows(n: nat, m: nat): seq<Window>
    requires m <= MAX_PATTERN_LENGTH
  {
    Windows(n, m, 0, 0)
  }

  /** One past the last file position scanned. */
  function End(ws: seq<Window>): nat
  {
    if ws == [] then 0 else ws[|ws| - 1].start + ws[|ws| - 1].bound
  }

  ghost predicate Shaped(w: Window, m: nat)
  {
    && m <= w.total <= CHUNK_SIZE
    && 0 < w.lengthRead <= w.total
    && w.bound == Bound(w.total, m)
    && w.bound <= w.total
    && w.bound + m <= CHUNK_SIZE
  }

  /** Each pass starts where the previous one stopped scanning. */
  ghost predicate Chained(ws: seq<Window>, from: nat)
  {
    && (ws != [] ==> ws[0].start == from)
    && (forall k :: 0 < k < |ws| ==> ws[k].start == ws[k - 1].start + ws[k - 1].bound)
  }

  /** Every byte the comparison reads in a pass (chunk[i+j], i < bound, j < m) lies in the file. */
  ghost predicate ReadsWithin(w: Window, m: nat, n: nat)
  {
    w.start + w.bound + m <= n + 1
  }

  /** A full read (the buffer was filled) is followed by the carry-over of
      chunk[bound..16384); the two regions of that copy never overlap. */
  lemma FullReadCarry(total: nat, m: nat)
    requires m <= MAX_PATTERN_LENGTH && total == CHUNK_SIZE
    ensures Bound(total, m) == CHUNK_SIZE - m - CONTEXT_LENGTH
    ensures CHUNK_SIZE - Bound(total, m) <= Bound(total, m)
    ensures CHUNK_SIZE - Bound(total, m) == m + CONTEXT_LENGTH
  {
  }

  /** The passes made from a full read: the first pass, then the passes that follow
      its carry-over. */
  lemma WindowsUnfold(n: nat, m: nat, start: nat, offset: nat)
    requires m <= MAX_PATTERN_LENGTH && offset < CHUNK_SIZE && start + offset <= n
    requires offset == 0 || offset >= m
    requires start + CHUNK_SIZE <= n
    ensures var total := CHUNK_SIZE;
      var w := Window(start, CHUNK_SIZE - offset, total, Bound(total, m));
      && Shaped(w, m) && w.bound == CHUNK_SIZE - m - CONTEXT_LENGTH
      && start + w.bound + CHUNK_SIZE - w.bound <= n
      && Windows(n, m, start, offset) == [w] + Windows(n, m, start + w.bound, CHUNK_SIZE - w.bound)
  {
    FullReadCarry(CHUNK_SIZE, m);
  }

  /** Each pass starts where the previous one stopped scanning. */
  lemma {:induction false} WindowsChained(n: nat, m: nat, start: nat, offset: nat)
    requires m <= MAX_PATTERN_LENGTH && offset < CHUNK_SIZE && start + offset <= n
    requires offset == 0 || offset >= m
    ensures Chained(Windows(n, m, start, offset), start)
    decreases n - start
  {
    var ws := Windows(n, m, start, offset);
    if start + CHUNK_SIZE <= n {
      WindowsUnfold(n, m, start, offset);
      var w := ws[0];
      var rest := Windows(n, m, start + w.bound, CHUNK_SIZE - w.bound);
      WindowsChained(n, m, start + w.bound, CHUNK_SIZE - w.bound);
      forall k | 0 < k < |ws|
        ensures ws[k].start == ws[k - 1].start + ws[k - 1].bound
      {
        assert ws[k] == rest[k - 1];
        if k > 1 {
          assert ws[k - 1] == rest[k - 2];
        }
      }
    }
  }

  /** The passes made when the rest of the file fits the buffer: none, or one short read. */
  lemma WindowsShort(n: nat, m: nat, start: nat, offset: nat)
    requires m <= MAX_PATTERN_LENGTH && offset < CHUNK_SIZE && start + offset <= n
    requires offset == 0 || offset >= m
    requires n < start + CHUNK_SIZE
    ensures var total := n - start;
      var w := Window(start, total - offset, total, Bound(total, m));
      && (total == offset || total < m ==> Windows(n, m, start, offset) == [])
      && (total > offset && total >= m ==> Windows(n, m, start, offset) == [w] && Shaped(w, m))
  {
  }

  /** Each pass is shaped and lies in the file. */
  lemma {:induction false} WindowsShaped(n: nat, m: nat, start: nat, offset: nat)
    requires m <= MAX_PATTERN_LENGTH && offset < CHUNK_SIZE && start + offset <= n
    requires offset == 0 || offset >= m
    ensures var ws := Windows(n, m, start, offset);
      forall k :: 0 <= k < |ws| ==> Shaped(ws[k], m) && ws[k].start + ws[k].total <= n
    decreases n - start
  {
    var ws := Windows(n, m, start, offset);
    if start + CHUNK_SIZE <= n {
      WindowsUnfold(n, m, start, offset);
      var w := ws[0];
      var rest := Windows(n, m, start + w.bound, CHUNK_SIZE - w.bound);
      WindowsShaped(n, m, start + w.bound, CHUNK_SIZE - w.bound);
      forall k | 0 < k < |ws|
        ensures ws[k] == rest[k - 1]
      {
      }
    } else {
      WindowsShort(n, m, start, offset);
    }
  }

  /** The first read fills the free space of the buffer and the last pass ends the file. */
  lemma {:induction false} WindowsEnds(n: nat, m: nat, start: nat, offset: nat)
    requires m <= MAX_PATTERN_LENGTH && offset < CHUNK_SIZE && start + offset <= n
    requires offset == 0 || offset >= m
    ensures var ws := Windows(n, m, start, offset);
      && (ws != [] ==> ws[0].lengthRead == ws[0].total - offset)
      && (ws != [] ==> ws[|ws| - 1].start + ws[|ws| - 1].total == n)
    decreases n - start
  {
    var ws := Windows(n, m, start, offset);
    if start + CHUNK_SIZE <= n {
      WindowsUnfold(n, m, start, offset);
      var w := ws[0];
      var rest := Windows(n, m, start + w.bound, CHUNK_SIZE - w.bound);
      WindowsEnds(n, m, start + w.bound, CHUNK_SIZE - w.bound);
      if rest == [] {
        assert n - (start + w.bound) - (CHUNK_SIZE - w.bound) <= 0;
      } else {
        assert ws[|ws| - 1] == rest[|rest| - 1];
      }
    } else {
      WindowsShort(n, m, start, offset);
    }
  }

  /** Every pass but the last reads a full buffer and compares only file bytes; every
      pass after the first has m + 80 carried-over bytes in front of its read. */
  lemma {:induction false} WindowsFull(n: nat, m: nat, start: nat, offset: nat)
    requires m <= MAX_PATTERN_LENGTH && offset < CHUNK_SIZE && start + offset <= n
    requires offset == 0 || offset >= m
    ensures var ws := Windows(n, m, start, offset);
      && (forall k :: 0 <= k < |ws| - 1 ==>
            ws[k].total == CHUNK_SIZE && ReadsWithin(ws[k], m, n))
      && (forall k :: 0 < k < |ws| ==> ws[k].lengthRead == ws[k].total - (m + CONTEXT_LENGTH))
    decreases n - start
  {
    var ws := Windows(n, m, start, offset);
    if start + CHUNK_SIZE <= n {
      WindowsUnfold(n, m, start, offset);
      var w := ws[0];
      var rest := Windows(n, m, start + w.bound, CHUNK_SIZE - w.bound);
      WindowsFull(n, m, start + w.bound, CHUNK_SIZE - w.bound);
      WindowsShaped(n, m, start + w.bound, CHUNK_SIZE - w.bound);
      forall k | 0 < k < |ws|
        ensures ws[k] == rest[k - 1]
      {
      }
    }
  }

  /** The bound arithmetic of every pass, and how the passes follow each other. */
  lemma WindowsWellFormed(n: nat, m: nat, start: nat, offset: nat)
    requires m <= MAX_PATTERN_LENGTH && offset < CHUNK_SIZE && start + offset <= n
    requires offset == 0 || offset >= m
    ensures var ws := Windows(n, m, start, offset);
      && Chained(ws, start)
      && (forall k :: 0 <= k < |ws| ==> Shaped(ws[k], m) && ws[k].start + ws[k].total <= n)
      && (forall k :: 0 <= k < |ws| - 1 ==>
            ws[k].total == CHUNK_SIZE && ReadsWithin(ws[k], m, n))
      && (forall k :: 0 < k < |ws| ==> ws[k].lengthRead == ws[k].total - (m + CONTEXT_LENGTH))
      && (ws != [] ==> ws[0].lengthRead == ws[0].total - offset)
      && (ws != [] ==> ws[|ws| - 1].start + ws[|ws| - 1].total == n)
  {
    WindowsChained(n, m, start, offset);
    WindowsShaped(n, m, start, offset);
    WindowsEnds(n, m, start, offset);
    WindowsFull(n, m, start, offset);
  }

  /** Where scanning stops: a file shorter than the pattern (or empty) is not scanned;
      otherwise the scan ends at max(n - m - 80, start of the last pass + m), which is
      never past the end of the file and never before n - m - 80. */
  lemma ScanEndBounds(n: nat, m: nat)
    requires m <= MAX_PATTERN_LENGTH
    ensures var ws := FileWindows(n, m);
      && (ws == [] <==> n == 0 || n < m)
      && End(ws) <= n
      && End(ws) >= n - m - CONTEXT_LENGTH
      && (ws != [] ==> End(ws) == IMax(n - m - CONTEXT_LENGTH, ws[|ws| - 1].start + m))
  {
    WindowsWellFormed(n, m, 0, 0);
  }

  /** The last m + 80 positions of a file whose last pass holds at least 2m + 80 bytes
      are never scanned, so an occurrence there is never reported. */
  lemma TailNotScanned(n: nat, m: nat)
    requires m <= MAX_PATTERN_LENGTH
    requires FileWindows(n, m) != []
    requires var ws := FileWindows(n, m); ws[|ws| - 1].total >= 2 * m + CONTEXT_LENGTH
    ensures End(FileWindows(n, m)) == n - m - CONTEXT_LENGTH
  {
    WindowsWellFormed(n, m, 0, 0);
  }

  /** On every pass after the first, `length_read` as a chunk index lies m + 80 bytes
      before the end of the bytes held and no later than the bound, so a snippet,
      which ends by that index, is cut at or before the end of the scanned positions. */
  lemma LaterPassesCutAtBound(n: nat, m: nat)
    requires m <= MAX_PATTERN_LENGTH
    ensures var ws := FileWindows(n, m);
      forall k :: 0 < k < |ws| ==>
        ws[k].lengthRead == ws[k].total - (m + CONTEXT_LENGTH) && ws[k].lengthRead <= ws[k].bound
  {
    WindowsWellFormed(n, m, 0, 0);
  }

  /** Only the last pass can compare bytes past the end of the file, and only when its
      bound fell back to the pattern length. */
  lemma ReadsPastEndOnlyAtLastPass(n: nat, m: nat)
    requires m <= MAX_PATTERN_LENGTH
    ensures var ws := FileWindows(n, m);
      && (forall k :: 0 <= k < |ws| - 1 ==> ReadsWithin(ws[k], m, n))
      && (ws != [] && !ReadsWithin(ws[|ws| - 1], m, n) ==>
            ws[|ws| - 1].bound == m && ws[|ws| - 1].total - m - CONTEXT_LENGTH < m)
  {
    WindowsWellFormed(n, m, 0, 0);
  }

  /** A three-byte file with a three-byte pattern: the single pass scans three positions,
      and the comparison at position 2 reads two bytes past the end of the file. */
  lemma ShortFileReadsPastEnd()
    ensures FileWindows(3, 3) == [Window(0, 3, 3, 3)]
    ensures !ReadsWithin(Window(0, 3, 3, 3), 3, 3)
  {
  }
}

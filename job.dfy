/** A search job: created with a mode and a pattern, fed file paths by the host, scanned
    by workers that claim one entry at a time, drained of its match records between
    calls, and joined once every worker has finished. The workers run one after the
    other here, and the mutex is a no-op. */
module Job {
  import opened Arith
  import opened Bytes
  import opened Config
  import opened Context
  import opened Schedule
  import opened Hits
  import opened Growable
  import opened FileScan
  import opened HitText

  /** `MAX_PATH`, defined as `PATH_MAX`: Linux's value, 4096. */
  const MAX_PATH: nat := 4096

  /** One call of the host's callback by the drain: path, line, column and text. */
  datatype Delivery = Delivery(path: seq<byte>, line: int, col: int, text: Option<seq<byte>>)

  /** What adding a path does: fail on a path that is too long, or drain the records
      and append the path. */
  datatype FindResult = PathTooLong | Added(delivered: seq<Delivery>)

  /** The file system as the workers see it: the files that open, by path. */
  type FileSystem = map<seq<byte>, seq<byte>>

  /** `fopen` followed by the reads: the bytes of the file at `path`, or nothing when
      it does not open. */
  function Open(fs: FileSystem, path: seq<byte>): (r: Option<seq<byte>>)
    ensures r.Some? <==> path in fs
  {
    if path in fs then Some(fs[path]) else None
  }

  /** The callback call for one record: the path of its entry, its line and column, and
      the text its slot shows. */
  function Deliver(r: MatchRecord, paths: seq<seq<byte>>): Delivery
    requires 0 <= r.fileIndex < |paths|
  {
    Delivery(paths[r.fileIndex], r.line, r.col, ShownText(r.context))
  }

  /** The callback calls for a run of records, one per record, in record order. */
  function Dispatch(rs: seq<MatchRecord>, paths: seq<seq<byte>>): (ds: seq<Delivery>)
    requires forall r :: r in rs ==> 0 <= r.fileIndex < |paths|
    ensures |ds| == |rs|
    ensures forall i :: 0 <= i < |rs| ==> ds[i] == Deliver(rs[i], paths)
  {
    if rs == [] then [] else Dispatch(rs[..|rs| - 1], paths) + [Deliver(rs[|rs| - 1], paths)]
  }

  /** The indices of the slots that still hold a thread, in increasing order. */
  function LiveSlots(slots: seq<bool>): (r: seq<nat>)
    ensures forall i :: i in r <==> 0 <= i < |slots| && slots[i]
    ensures forall a, b :: 0 <= a < b < |r| ==> r[a] < r[b]
  {
    if slots == [] then []
    else
      var init := LiveSlots(slots[..|slots| - 1]);
      assert forall a :: 0 <= a < |init| ==> init[a] in init && init[a] < |slots| - 1;
      if slots[|slots| - 1] then init + [|slots| - 1] else init
  }

  /** A worker's view of an entry's file: it extends the file when the file opens. */
  ghost predicate Extends(content: Option<seq<byte>>, view: seq<byte>)
  {
    content.Some? ==> |content.value| <= |view| && view[..|content.value|] == content.value
  }

  /** Each view of a run extends the file of its entry. */
  ghost predicate AllExtend(paths: seq<seq<byte>>, fs: FileSystem, views: seq<seq<byte>>, from: nat)
    requires from + |views| <= |paths|
  {
    forall k :: 0 <= k < |views| ==> Extends(Open(fs, paths[from + k]), views[k])
  }

  lemma AllExtendSnoc(paths: seq<seq<byte>>, fs: FileSystem, views: seq<seq<byte>>, view: seq<byte>, from: nat)
    requires from + |views| < |paths|
    requires AllExtend(paths, fs, views, from) && Extends(Open(fs, paths[from + |views|]), view)
    ensures AllExtend(paths, fs, views + [view], from)
  {
    forall k | 0 <= k < |views| + 1 ensures Extends(Open(fs, paths[from + k]), (views + [view])[k]) {
      if k < |views| {
        assert (views + [view])[k] == views[k];
      }
    }
  }

  /** The state of a worker's run over entries `from`, `from + 1`, ...: each view
      extends the file of its entry, and the records are those of the entries scanned. */
  ghost predicate RunState(paths: seq<seq<byte>>, fs: FileSystem, pattern: seq<byte>, mode: Mode, from: nat,
                           before: seq<MatchRecord>, views: seq<seq<byte>>, elems: seq<MatchRecord>)
  {
    && from + |views| <= |paths| && |pattern| <= MAX_PATTERN_LENGTH
    && AllExtend(paths, fs, views, from)
    && elems == before + RunRecords(paths, fs, views, pattern, mode, from)
  }

  /** Scanning the next entry extends the run by one view. */
  lemma RunStep(paths: seq<seq<byte>>, fs: FileSystem, pattern: seq<byte>, mode: Mode, from: nat,
                before: seq<MatchRecord>, views: seq<seq<byte>>, elems: seq<MatchRecord>,
                view: seq<byte>, elems': seq<MatchRecord>)
    requires RunState(paths, fs, pattern, mode, from, before, views, elems)
    requires from + |views| < |paths|
    requires Extends(Open(fs, paths[from + |views|]), view)
    requires elems' == elems + EntryRecords(Open(fs, paths[from + |views|]), view, pattern, mode, from + |views|)
    ensures RunState(paths, fs, pattern, mode, from, before, views + [view], elems')
  {
    RunRecordsSnoc(paths, fs, views, view, pattern, mode, from);
    AppendAssoc(before, RunRecords(paths, fs, views, pattern, mode, from),
                EntryRecords(Open(fs, paths[from + |views|]), view, pattern, mode, from + |views|));
    AllExtendSnoc(paths, fs, views, view, from);
  }

  /** The records a worker appends for entry `idx`: none when its file does not open,
      otherwise those of every pass of the file's schedule, over `view`. */
  ghost function EntryRecords(content: Option<seq<byte>>, view: seq<byte>, pattern: seq<byte>,
                              mode: Mode, idx: int): seq<MatchRecord>
    requires |pattern| <= MAX_PATTERN_LENGTH
  {
    if content.None? || |content.value| > |view| then []
    else
      FileWindowsFit(view, |content.value|, |pattern|);
      ScanRecords(view, FileWindows(|content.value|, |pattern|), pattern, mode, idx)
  }

  /** The records a worker appends for the entries `from`, `from + 1`, ... in turn. */
  ghost function RunRecords(paths: seq<seq<byte>>, fs: FileSystem, views: seq<seq<byte>>,
                            pattern: seq<byte>, mode: Mode, from: nat): seq<MatchRecord>
    requires from + |views| <= |paths| && |pattern| <= MAX_PATTERN_LENGTH
    decreases |views|
  {
    if views == [] then []
    else
      var k := |views| - 1;
      RunRecords(paths, fs, views[..k], pattern, mode, from)
        + EntryRecords(Open(fs, paths[from + k]), views[k], pattern, mode, from + k)
  }

  lemma RunRecordsSnoc(paths: seq<seq<byte>>, fs: FileSystem, views: seq<seq<byte>>, view: seq<byte>,
                       pattern: seq<byte>, mode: Mode, from: nat)
    requires from + |views| < |paths| && |pattern| <= MAX_PATTERN_LENGTH
    ensures RunRecords(paths, fs, views + [view], pattern, mode, from)
      == RunRecords(paths, fs, views, pattern, mode, from)
         + EntryRecords(Open(fs, paths[from + |views|]), view, pattern, mode, from + |views|)
  {
    assert (views + [view])[..|views|] == views;
  }

  /** Every record of an entry's scan names that entry. */
  lemma EntryRecordsIndex(content: Option<seq<byte>>, view: seq<byte>, pattern: seq<byte>, mode: Mode, idx: int)
    requires |pattern| <= MAX_PATTERN_LENGTH
    ensures forall r :: r in EntryRecords(content, view, pattern, mode, idx) ==> r.fileIndex == idx
  {
    if content.Some? && |content.value| <= |view| {
      var ws := FileWindows(|content.value|, |pattern|);
      FileWindowsFit(view, |content.value|, |pattern|);
      ScanRecordsShape(view, ws, pattern, mode, idx);
      var rs := ScanRecords(view, ws, pattern, mode, idx);
      forall r | r in rs ensures r.fileIndex == idx {
        var j :| 0 <= j < |rs| && rs[j] == r;
      }
    }
  }

  /** Once every slot is nulled, a later join finds nothing left to join. */
  lemma NoSlotJoinedTwice(slots: seq<bool>)
    requires forall i :: 0 <= i < |slots| ==> !slots[i]
    ensures LiveSlots(slots) == []
  {
    if LiveSlots(slots) != [] {
      assert LiveSlots(slots)[0] in LiveSlots(slots);
    }
  }

  /** `strncpy(search_string, raw, 255)` into the zeroed 256-byte buffer: the C string
      of the host's pattern, cut to 255 bytes, then NUL padding. */
  method CopyPattern(dst: array<byte>, raw: seq<byte>)
    requires dst.Length == SEARCH_STRING_SIZE
    modifies dst
    ensures var c := CString(raw); var k := IMin(|c|, MAX_PATTERN_LENGTH);
      dst[..] == c[..k] + Zeros(MAX_PATTERN_LENGTH - k) + old(dst[MAX_PATTERN_LENGTH..])
  {
    ghost var c := CString(raw);
    ghost var k := IMin(|c|, MAX_PATTERN_LENGTH);
    ghost var tail := dst[MAX_PATTERN_LENGTH..];
    var i := 0;
    while i < MAX_PATTERN_LENGTH && i < |raw| && raw[i] != NUL
      invariant 0 <= i <= k
      invariant dst[..i] == c[..i] && dst[MAX_PATTERN_LENGTH..] == tail
    {
      assert c[i] == raw[i];
      dst[i] := raw[i];
      i := i + 1;
      assert dst[..i] == dst[..i - 1] + [dst[i - 1]];
    }
    assert i == k;
    while i < MAX_PATTERN_LENGTH
      invariant k <= i <= MAX_PATTERN_LENGTH
      invariant dst[..i] == c[..k] + Zeros(i - k) && dst[MAX_PATTERN_LENGTH..] == tail
    {
      dst[i] := NUL;
      i := i + 1;
      assert dst[..i] == dst[..i - 1] + [NUL];
      assert Zeros(i - k) == Zeros(i - 1 - k) + [NUL];
    }
    assert dst[..] == dst[..MAX_PATTERN_LENGTH] + dst[MAX_PATTERN_LENGTH..];
  }

  /** The `search_string` buffer `f_search_init` prepares: zeroed, the host's pattern
      copied into it (at most 255 bytes) and, in insensitive mode, lowercased. */
  method SearchString(raw: seq<byte>, mode: Mode) returns (buf: array<byte>)
    ensures fresh(buf) && buf.Length == SEARCH_STRING_SIZE && buf[MAX_PATTERN_LENGTH] == NUL
    ensures CString(buf[..]) == PreparePattern(raw, mode)
  {
    buf := new byte[SEARCH_STRING_SIZE](_ => NUL);
    CopyPattern(buf, raw);
    CopiedPattern(buf[..], raw);
    if mode == Insensitive {
      ghost var before := buf[..];
      LowercaseInPlace(buf);
      LoweredPattern(before, buf[..], raw);
    }
  }

  /** The buffer after the copy holds the 255-byte cut of the pattern as its C string. */
  lemma CopiedPattern(buf: seq<byte>, raw: seq<byte>)
    requires |buf| == SEARCH_STRING_SIZE && buf[MAX_PATTERN_LENGTH] == NUL
    requires var c := CString(raw); var k := IMin(|c|, MAX_PATTERN_LENGTH);
      buf == c[..k] + Zeros(MAX_PATTERN_LENGTH - k) + buf[MAX_PATTERN_LENGTH..]
    ensures CString(buf) == PreparePattern(raw, Plain)
  {
    var c := CString(raw);
    var k := IMin(|c|, MAX_PATTERN_LENGTH);
    var rest := Zeros(MAX_PATTERN_LENGTH - k) + buf[MAX_PATTERN_LENGTH..];
    assert buf == c[..k] + rest;
    assert rest[0] == NUL;
    CStringOfTerminated(c[..k], rest);
    assert FoldAll(Plain, c[..k]) == c[..k];
  }

  /** Lowercasing the buffer in place lowercases its C string. */
  lemma LoweredPattern(before: seq<byte>, after: seq<byte>, raw: seq<byte>)
    requires CString(before) == PreparePattern(raw, Plain) && |after| == |before|
    requires |CString(after)| == |CString(before)|
    requires forall k :: 0 <= k < |CString(before)| ==> after[k] == ToLower(before[k])
    ensures CString(after) == PreparePattern(raw, Insensitive)
  {
    var p := PreparePattern(raw, Plain);
    var q := PreparePattern(raw, Insensitive);
    forall k | 0 <= k < |q| ensures CString(after)[k] == q[k] {
      assert p[k] == before[k] == raw[k];
    }
  }

  class SearchState {
    var mode: Mode
    /** `search_string`: 256 bytes holding the prepared pattern as a C string. */
    var searchString: array<byte>
    /** `thread_count`, as the host passed it. */
    var threadCount: int
    /** `threads`: one slot per worker, true while it holds a thread not yet joined. */
    var threads: array<bool>
    var threadsComplete: int
    /** `entry_start`: the next entry a worker claims. */
    var entryStart: int
    /** `entries`: the paths added, as C strings. */
    var entries: Vec<seq<byte>>
    /** `matches`: the records not yet drained. */
    var matches: Vec<MatchRecord>
    var isDone: bool
    /** The entry indices handed out so far, in the order they were handed out. */
    ghost var claimed: seq<int>

    ghost predicate Valid()
      reads this, searchString, threads, entries, entries.data, matches, matches.data
    {
      && searchString.Length == SEARCH_STRING_SIZE && searchString[MAX_PATTERN_LENGTH] == NUL
      && threads.Length == IMax(threadCount, 0)
      && entries.Valid() && matches.Valid()
      && 0 <= entryStart <= entries.count
      && |claimed| == entryStart && (forall k :: 0 <= k < |claimed| ==> claimed[k] == k)
      && (forall r :: r in matches.Elements() ==> 0 <= r.fileIndex < entries.count)
    }

    /** The pattern the workers compare: the C string in `search_string`. */
    function Pattern(): (p: seq<byte>)
      reads this`searchString, searchString
      requires searchString.Length == SEARCH_STRING_SIZE && searchString[MAX_PATTERN_LENGTH] == NUL
      ensures NUL !in p && |p| <= MAX_PATTERN_LENGTH
    {
      assert searchString[..][MAX_PATTERN_LENGTH] == NUL;
      CString(searchString[..])
    }

    /** The state `f_search_init` sets up for a valid mode: zeroed, then the pattern
        copied (at most 255 bytes) and lowercased in insensitive mode, and one thread
        started per slot. */
    constructor (threadCount: int, raw: seq<byte>, mode: Mode)
      ensures Valid()
      ensures this.mode == mode && Pattern() == PreparePattern(raw, mode)
      ensures this.threadCount == threadCount && threadsComplete == 0
      ensures forall i :: 0 <= i < threads.Length ==> threads[i]
      ensures entryStart == 0 && entries.Elements() == [] && matches.Elements() == [] && !isDone
      ensures fresh(searchString) && fresh(threads) && fresh(entries) && fresh(entries.data)
      ensures fresh(matches) && fresh(matches.data)
    {
      var buf := SearchString(raw, mode);
      this.mode := mode;
      this.threadCount := threadCount;
      searchString := buf;
      threads := new bool[IMax(threadCount, 0)](_ => true);
      threadsComplete := 0;
      entryStart := 0;
      entries := new Vec();
      matches := new Vec();
      isDone := false;
      claimed := [];
    }

    /** The claim step of a worker: hand out `entry_start` and advance it when an entry
        is left, otherwise hand out -1. */
    method Claim() returns (targeted: int)
      requires Valid()
      modifies this`entryStart, this`claimed
      ensures Valid()
      ensures old(entryStart) < entries.count ==> targeted == old(entryStart) && entryStart == targeted + 1
      ensures old(entryStart) >= entries.count ==> targeted == -1 && entryStart == old(entryStart)
      ensures claimed == if targeted == -1 then old(claimed) else old(claimed) + [targeted]
    {
      targeted := -1;
      if entryStart < entries.count {
        targeted := entryStart;
        entryStart := entryStart + 1;
        claimed := claimed + [targeted];
      }
    }

    /** `f_search_update`: call the callback for records 0 .. count-1 in index order,
        then forget them all. */
    method Update() returns (delivered: seq<Delivery>)
      requires Valid()
      modifies matches`count
      ensures Valid()
      ensures delivered == Dispatch(old(matches.Elements()), entries.Elements())
      ensures matches.Elements() == [] && matches.Capacity() == old(matches.Capacity())
    {
      delivered := [];
      if matches.count != 0 {
        var i := 0;
        while i < matches.count
          modifies {}
          invariant 0 <= i <= matches.count
          invariant delivered == Dispatch(matches.Elements()[..i], entries.Elements())
        {
          var r := matches.Get(i);
          var path := entries.Get(r.fileIndex);
          delivered := delivered + [Delivery(path, r.line, r.col, ShownText(r.context))];
          assert matches.Elements()[..i + 1][..i] == matches.Elements()[..i];
          i := i + 1;
        }
        assert matches.Elements()[..i] == matches.Elements();
        matches.Clear();
      }
    }

    /** `f_search_find`: a path longer than `MAX_PATH` fails and changes nothing;
        otherwise the records are drained and the path is appended to the entries. */
    method Find(path: seq<byte>) returns (r: FindResult)
      requires Valid()
      modifies matches`count, entries, entries.data
      ensures Valid()
      ensures r.PathTooLong? <==> |path| > MAX_PATH
      ensures r.PathTooLong? ==>
        && entries.Elements() == old(entries.Elements()) && entries.Capacity() == old(entries.Capacity())
        && matches.Elements() == old(matches.Elements())
      ensures r.Added? ==>
        && r.delivered == Dispatch(old(matches.Elements()), old(entries.Elements()))
        && matches.Elements() == []
        && entries.Elements() == old(entries.Elements()) + [CString(path)]
        && entries.Capacity() ==
             if old(entries.count) == old(entries.Capacity()) then IMax(1, 2 * old(entries.Capacity()))
             else old(entries.Capacity())
    {
      if |path| > MAX_PATH {
        return PathTooLong;
      }
      var delivered := Update();
      entries.Push(CString(path));
      r := Added(delivered);
    }

    /** One turn of a worker's outer loop: claim an entry and, when its file opens, scan
        it into the records. The records appended name the entry claimed. */
    method WorkStep(chunk: array<byte>, fs: FileSystem) returns (ghost view: seq<byte>)
      requires Valid() && chunk.Length == CHUNK_SIZE && chunk != searchString
      modifies this`entryStart, this`claimed, chunk, matches, matches.data
      ensures Valid()
      ensures matches.data == old(matches.data) || fresh(matches.data)
      ensures old(entryStart) >= entries.count ==>
        entryStart == old(entryStart) && matches.Elements() == old(matches.Elements())
      ensures old(entryStart) < entries.count ==>
        && entryStart == old(entryStart) + 1
        && Extends(Open(fs, old(entries.Elements())[old(entryStart)]), view)
        && matches.Elements() == old(matches.Elements())
             + EntryRecords(Open(fs, old(entries.Elements())[old(entryStart)]), view, old(Pattern()), mode, old(entryStart))
    {
      view := [];
      var targeted := Claim();
      if targeted != -1 {
        var path := entries.Get(targeted);
        var content := Open(fs, path);
        var pattern := Pattern();
        if content.Some? {
          view := ScanFile(chunk, content.value, pattern, mode, targeted, matches);
        }
        EntryRecordsIndex(content, view, pattern, mode, targeted);
      }
    }

    /** A worker's outer loop once the host has called join: claim and scan entries
        until none is left. */
    method Work(chunk: array<byte>, fs: FileSystem) returns (ghost views: seq<seq<byte>>)
      requires Valid() && isDone && chunk.Length == CHUNK_SIZE && chunk != searchString
      modifies this`entryStart, this`claimed, chunk, matches, matches.data
      ensures Valid()
      ensures entryStart == entries.count && old(entryStart) + |views| == entries.count
      ensures RunState(entries.Elements(), fs, Pattern(), mode, old(entryStart), old(matches.Elements()),
                       views, matches.Elements())
    {
      views := [];
      ghost var from := entryStart;
      ghost var before := matches.Elements();
      ghost var paths := entries.Elements();
      ghost var pattern := Pattern();
      while entryStart < entries.count || !isDone
        invariant Valid() && paths == entries.Elements() && pattern == Pattern()
        invariant matches.data == old(matches.data) || fresh(matches.data)
        invariant from + |views| == entryStart
        invariant RunState(paths, fs, pattern, mode, from, before, views, matches.Elements())
        decreases entries.count - entryStart
      {
        ghost var elems := matches.Elements();
        var view := WorkStep(chunk, fs);
        RunStep(paths, fs, pattern, mode, from, before, views, elems, view, matches.Elements());
        views := views + [view];
      }
    }

    /** The end of a worker: count it complete. */
    method FinishWorker()
      modifies this`threadsComplete
      ensures threadsComplete == old(threadsComplete) + 1
    {
      threadsComplete := threadsComplete + 1;
    }

    /** `f_search_join`: tell the workers that no more paths will come. */
    method Join()
      modifies this`isDone
      ensures isDone
    {
      isDone := true;
    }

    /** The join loop of `f_search_joink`: join each slot that still holds a thread and
        null it. */
    method JoinSlots() returns (joined: seq<nat>)
      requires threads.Length == IMax(threadCount, 0)
      modifies threads
      ensures joined == LiveSlots(old(threads[..]))
      ensures forall i :: 0 <= i < threads.Length ==> !threads[i]
    {
      joined := [];
      ghost var slots := threads[..];
      var i := 0;
      while i < threadCount
        invariant 0 <= i <= threads.Length
        invariant forall j :: i <= j < threads.Length ==> threads[j] == slots[j]
        invariant forall j :: 0 <= j < i ==> !threads[j]
        invariant joined == LiveSlots(slots[..i])
      {
        if threads[i] {
          joined := joined + [i];
          threads[i] := false;
        }
        assert slots[..i + 1][..i] == slots[..i];
        i := i + 1;
      }
      assert slots[..i] == slots;
    }

    /** `f_search_joink`: once every worker is complete, join each slot that still holds
        a thread and null it; otherwise drain the records and yield. */
    method JoinK() returns (finished: bool, joined: seq<nat>, delivered: seq<Delivery>)
      requires Valid()
      modifies threads, matches`count
      ensures Valid()
      ensures finished <==> threadsComplete == threadCount
      ensures finished ==>
        && joined == LiveSlots(old(threads[..]))
        && (forall i :: 0 <= i < threads.Length ==> !threads[i])
        && delivered == [] && matches.Elements() == old(matches.Elements())
      ensures !finished ==>
        && joined == [] && threads[..] == old(threads[..])
        && delivered == Dispatch(old(matches.Elements()), entries.Elements())
        && matches.Elements() == []
    {
      joined, delivered := [], [];
      finished := threadsComplete == threadCount;
      if finished {
        joined := JoinSlots();
      } else {
        delivered := Update();
      }
    }

    /** `f_search_joink` as evidently intended: every call drains the records, and the
        call that finds every worker complete drains them before it joins, so no record
        is left undelivered. */
    method JoinKDrained() returns (finished: bool, joined: seq<nat>, delivered: seq<Delivery>)
      requires Valid()
      modifies threads, matches`count
      ensures Valid()
      ensures finished <==> threadsComplete == threadCount
      ensures delivered == Dispatch(old(matches.Elements()), entries.Elements())
      ensures matches.Elements() == []
      ensures finished ==>
        && joined == LiveSlots(old(threads[..]))
        && (forall i :: 0 <= i < threads.Length ==> !threads[i])
      ensures !finished ==> joined == [] && threads[..] == old(threads[..])
    {
      delivered := Update();
      joined := [];
      finished := threadsComplete == threadCount;
      if finished {
        joined := JoinSlots();
      }
    }
  }

  /** The path "a", and the record of a hit at its first byte. */
  const A_PATH: seq<byte> := [0x61]
  const A_RECORD: MatchRecord := MatchRecord(0, 1, 0, Copied(A_PATH))

  /** A search with one worker that appended the record of a hit in its only file, "a",
      after the last drain, and then finished; `join` has been called. */
  method OneRecordAfterLastDrain() returns (s: SearchState)
    ensures fresh(s) && fresh(s.threads) && fresh(s.matches) && fresh(s.matches.data)
    ensures s.Valid() && s.threadsComplete == s.threadCount
    ensures s.entries.Elements() == [A_PATH]
    ensures s.matches.Elements() == [A_RECORD]
  {
    s := new SearchState(1, A_PATH, Plain);
    var added := s.Find(A_PATH);
    CStringOfNulFree(A_PATH);
    s.Join();
    s.matches.Push(A_RECORD);
    s.FinishWorker();
  }

  /** As written, the record is lost: the `joink` call that sees the worker complete
      joins it and drains nothing, and nothing drains after it. With the drain before
      the join, the callback receives the record. */
  method FinalJoinDropsRecords() returns (asWritten: seq<Delivery>, left: nat, corrected: seq<Delivery>)
    ensures asWritten == [] && left == 1
    ensures corrected == [Delivery(A_PATH, 1, 0, Some(A_PATH))]
  {
    var s := OneRecordAfterLastDrain();
    var finished, joined;
    finished, joined, asWritten := s.JoinK();
    left := s.matches.count;
    var t := OneRecordAfterLastDrain();
    finished, joined, corrected := t.JoinKDrained();
    CStringOfNulFree(A_PATH);
  }

  /** `f_search_init`: fail on a mode name other than "plain" or "insensitive",
      otherwise a fresh search in that mode. */
  method Init(threadCount: int, raw: seq<byte>, modeName: seq<byte>) returns (r: Option<SearchState>)
    ensures r.None? <==> ParseMode(modeName).None?
    ensures r.Some? ==>
      && fresh(r.value) && r.value.Valid()
      && r.value.mode == ParseMode(modeName).value
      && r.value.Pattern() == PreparePattern(raw, r.value.mode)
      && r.value.threadCount == threadCount
      && r.value.entries.Elements() == [] && r.value.matches.Elements() == []
  {
    var mode := ParseMode(modeName);
    if mode.None? {
      return None;
    }
    var s := new SearchState(threadCount, raw, mode.value);
    r := Some(s);
  }
}

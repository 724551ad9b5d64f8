/**
 * `convertFilesBatch`: scans the input directory twice (once to count
 * the files to convert, once after `rewinddir` to create one worker per
 * file), lets the workers convert their files, then joins them and
 * reports progress. The directory listing is a sequence of entries in
 * `readdir` order; each `pthread_create` outcome is an input; log-file
 * lines (the workers' included), on-screen log lines, message dialogs and
 * progress-bar updates are recorded, in order, as events. The workers run
 * one after another, in job order, between the creation pass and the
 * first join.
 */
module ConvertBatch {
  import opened CLib
  import opened ConvertThread

  /** A directory entry as `readdir` returns it: its name and whether `d_type == DT_REG`. */
  datatype Entry = Entry(name: string, isRegular: bool)

  /** The observable effects of one batch, in order. Progress is the fraction done / total. */
  datatype Event =
    | WriteLog(line: string)
    | UpdateLog(line: string)
    | ShowMessage(text: string)
    | Progress(done: nat, total: nat)

  /**
   * The outcome of one batch: the count of the first pass, the jobs whose
   * worker started, the events, and the files once every worker is done.
   */
  datatype BatchRun = BatchRun(fileCount: nat, jobs: seq<Job>, events: seq<Event>, files: map<string, seq<byte>>)

  const DIR_ERROR_LOG := "Error opening input directory for batch conversion."
  const DIR_ERROR_MESSAGE := "Error opening input directory. Check logs."
  const NO_FILES_MESSAGE := "No files found to convert."
  const START_LOG := "Starting batch conversion."
  const THREAD_FAILED_LOG := "Failed to create thread"
  const THREAD_FAILED_MESSAGE := "Failed to create thread. Conversion aborted."
  const DONE_UPDATE := "Batch conversion complete."
  const DONE_LOG := "Batch conversion completed."
  const DONE_MESSAGE := "Conversion complete!"

  // -------------------------------------------------------- selection

  /** A regular file whose name contains ".txt", ".jpg" or ".png" anywhere. */
  predicate Selected(e: Entry)
  {
    e.isRegular && (Contains(e.name, ".txt") || Contains(e.name, ".jpg") || Contains(e.name, ".png"))
  }

  /** The selected entries of a listing, in listing order. */
  function Matches(entries: seq<Entry>): seq<Entry>
    decreases |entries|
  {
    if entries == [] then []
    else
      var last := entries[|entries| - 1];
      Matches(entries[..|entries| - 1]) + (if Selected(last) then [last] else [])
  }

  /** An entry of the listing is selected exactly when it is a regular file with a recognised name. */
  lemma {:induction false} MatchesIff(entries: seq<Entry>, e: Entry)
    ensures e in Matches(entries) <==> e in entries && Selected(e)
    decreases |entries|
  {
    if entries != [] {
      var init := entries[..|entries| - 1];
      MatchesIff(init, e);
      assert entries == init + [entries[|entries| - 1]];
    }
  }

  /** "notes.md" contains none of the three extensions. */
  lemma NotesNotRecognised(ext: string)
    requires ext in {".txt", ".jpg", ".png"}
    ensures !Contains("notes.md", ext)
  {
    assert |ext| == 4 && ext[0] == '.';
    ShortHaystack(".md", ext);
    var names := ["notes.md", "otes.md", "tes.md", "es.md", "s.md"];
    var k := 4;
    while k > 0
      invariant 0 <= k <= 4
      invariant !Contains(names[k][1..], ext)
    {
      assert names[k - 1][0] != '.' && names[k - 1][1..] == names[k];
      k := k - 1;
    }
  }

  /** The substring test accepts a name with ".txt" in the middle and refuses other names and non-regular files. */
  lemma SelectionExamples()
    ensures Selected(Entry("a.txt.bak", true))
    ensures Selected(Entry("b.png", true)) && Selected(Entry("c.jpg", true))
    ensures !Selected(Entry("notes.md", true))
    ensures !Selected(Entry("a.txt", false))
  {
    NotesNotRecognised(".txt");
    NotesNotRecognised(".jpg");
    NotesNotRecognised(".png");
  }

  lemma {:induction false} MatchesPrefix(entries: seq<Entry>, i: nat)
    requires i <= |entries|
    ensures |Matches(entries[..i])| <= |Matches(entries)|
    decreases |entries|
  {
    if i < |entries| {
      var init := entries[..|entries| - 1];
      assert init[..i] == entries[..i];
      MatchesPrefix(init, i);
    } else {
      assert entries[..i] == entries;
    }
  }

  // ------------------------------------------------------------ paths

  /**
   * The input path: the input directory, a slash and the entry name, cut
   * to fit a path buffer of MAX_FILES bytes.
   */
  function InputPath(inputDir: string, name: string): string
  {
    Snprintf(inputDir + "/" + name, MAX_FILES)
  }

  /**
   * The output path: the output directory, a slash, the entry name, a dot
   * and the target format, cut to fit a path buffer of MAX_FILES bytes.
   */
  function OutputPath(outputDir: string, name: string, format: string): string
  {
    Snprintf(outputDir + "/" + name + "." + format, MAX_FILES)
  }

  /** The output name keeps the original extension and appends the target one. */
  lemma OutputPathExample()
    ensures OutputPath("out", "a.txt", "csv") == "out/a.txt.csv"
    ensures InputPath("in", "a.txt") == "in/a.txt"
  {
  }

  /**
   * When input and output directory are the same and the input path
   * already fills the 99 characters, the output path is cut to the same
   * string: the worker then overwrites its own input.
   */
  lemma {:induction false} TruncatedPathsCollide(dir: string, name: string, format: string)
    requires |dir + "/" + name| >= MAX_FILES - 1
    ensures InputPath(dir, name) == OutputPath(dir, name, format)
  {
    var full := dir + "/" + name;
    assert dir + "/" + name + "." + format == full + ("." + format);
    assert (full + ("." + format))[..MAX_FILES - 1] == full[..MAX_FILES - 1];
  }

  /** The job created for an entry of the given name. */
  function JobFor(inputDir: string, outputDir: string, format: string, name: string): Job
  {
    Job(InputPath(inputDir, name), OutputPath(outputDir, name, format), format)
  }

  /** The jobs the second pass tries to start: one per selected entry, in listing order. */
  function Attempts(entries: seq<Entry>, inputDir: string, outputDir: string, format: string): (r: seq<Job>)
    ensures |r| == |Matches(entries)|
    ensures forall k :: 0 <= k < |r| ==> r[k] == JobFor(inputDir, outputDir, format, Matches(entries)[k].name)
    decreases |entries|
  {
    if entries == [] then []
    else
      var last := entries[|entries| - 1];
      Attempts(entries[..|entries| - 1], inputDir, outputDir, format)
        + (if Selected(last) then [JobFor(inputDir, outputDir, format, last.name)] else [])
  }

  // ----------------------------------------------------- worker creation

  /** The attempts whose `pthread_create` succeeded, in order. */
  function Spawned(attempts: seq<Job>, ok: seq<bool>): seq<Job>
    requires |attempts| == |ok|
    decreases |ok|
  {
    if ok == [] then []
    else
      var n := |ok| - 1;
      Spawned(attempts[..n], ok[..n]) + (if ok[n] then [attempts[n]] else [])
  }

  lemma SpawnedStep(attempts: seq<Job>, job: Job, ok: seq<bool>)
    requires |ok| == |attempts| + 1
    ensures Spawned(attempts + [job], ok)
      == Spawned(attempts, ok[..|attempts|]) + (if ok[|attempts|] then [job] else [])
  {
    assert (attempts + [job])[..|attempts|] == attempts;
  }

  function CountTrue(ok: seq<bool>): nat
    decreases |ok|
  {
    if ok == [] then 0 else CountTrue(ok[..|ok| - 1]) + (if ok[|ok| - 1] then 1 else 0)
  }

  function CountFalse(ok: seq<bool>): nat
    decreases |ok|
  {
    if ok == [] then 0 else CountFalse(ok[..|ok| - 1]) + (if ok[|ok| - 1] then 0 else 1)
  }

  /** The events for the failed creations: a log line and a dialog for each. */
  function FailureEvents(ok: seq<bool>): seq<Event>
    decreases |ok|
  {
    if ok == [] then []
    else
      FailureEvents(ok[..|ok| - 1])
        + (if ok[|ok| - 1] then [] else [WriteLog(THREAD_FAILED_LOG), ShowMessage(THREAD_FAILED_MESSAGE)])
  }

  /**
   * One job per successful creation: their number is the number of
   * successes, never more than the attempts, and every attempt became a
   * job exactly when every creation succeeded.
   */
  lemma {:induction false} SpawnedCount(attempts: seq<Job>, ok: seq<bool>)
    requires |attempts| == |ok|
    ensures |Spawned(attempts, ok)| == CountTrue(ok) <= |ok|
    ensures CountTrue(ok) + CountFalse(ok) == |ok|
    ensures CountTrue(ok) == |ok| <==> forall k :: 0 <= k < |ok| ==> ok[k]
    ensures (forall k :: 0 <= k < |ok| ==> ok[k]) ==> Spawned(attempts, ok) == attempts
    decreases |ok|
  {
    if ok != [] {
      var n := |ok| - 1;
      SpawnedCount(attempts[..n], ok[..n]);
      assert attempts == attempts[..n] + [attempts[n]];
      if !ok[n] {
        assert CountTrue(ok) < |ok|;
      }
      if forall k :: 0 <= k < n ==> ok[k] {
        assert forall k :: 0 <= k < n ==> ok[..n][k];
      }
    }
  }

  // ---------------------------------------------------------- progress

  /** After the i-th join, the progress bar shows i joined threads out of the file count. */
  function ProgressEvents(threadCount: nat, fileCount: nat): (r: seq<Event>)
  {
    seq(threadCount, i requires 0 <= i < threadCount => Progress(i + 1, fileCount))
  }

  /**
   * Progress strictly increases (the denominator is fixed), ends at
   * threadCount / fileCount, and reaches 1 only if the last join does.
   */
  lemma ProgressShape(threadCount: nat, fileCount: nat)
    requires 0 < fileCount
    ensures var p := ProgressEvents(threadCount, fileCount);
      && (forall i, j :: 0 <= i < j < |p| ==> p[i].total == p[j].total == fileCount && p[i].done < p[j].done)
      && (threadCount > 0 ==> p[|p| - 1] == Progress(threadCount, fileCount))
      && ((exists i :: 0 <= i < |p| && p[i].done == p[i].total) <==> threadCount >= fileCount)
  {
    var p := ProgressEvents(threadCount, fileCount);
    if threadCount >= fileCount {
      assert p[fileCount - 1].done == fileCount;
    }
  }

  // ---------------------------------------------------------- the batch

  /** The lines the workers write with `writeLog`, as log-file events. */
  function WorkerEvents(lines: seq<string>): seq<Event>
  {
    seq(|lines|, i requires 0 <= i < |lines| => WriteLog(lines[i]))
  }

  /** The `%d` and `%s` message shown when the workers start, cut to the 100-byte buffer. */
  function StartMessage(fileCount: nat, format: string): string
  {
    Snprintf("Starting batch conversion of " + DecimalString(fileCount) + " files to " + format + "...", MAX_FILES)
  }

  /**
   * The whole batch with its workers. `directory` is None when `opendir`
   * fails and otherwise the first pass's listing; `rewound` is what
   * `readdir` returns after `rewinddir`; `spawnOk` holds one
   * `pthread_create` outcome per creation attempt; `files` and
   * `unwritable` are the file system the workers find.
   */
  function Batch(directory: Option<seq<Entry>>, rewound: seq<Entry>, inputDir: string, outputDir: string,
                 format: string, spawnOk: seq<bool>, files: map<string, seq<byte>>, unwritable: set<string>): BatchRun
    requires |spawnOk| == |Matches(rewound)|
  {
    match directory
    case None => BatchRun(0, [], [WriteLog(DIR_ERROR_LOG), ShowMessage(DIR_ERROR_MESSAGE)], files)
    case Some(entries) =>
      var fileCount := |Matches(entries)|;
      if fileCount == 0 then BatchRun(0, [], [ShowMessage(NO_FILES_MESSAGE)], files)
      else
        var jobs := Spawned(Attempts(rewound, inputDir, outputDir, format), spawnOk);
        Started(fileCount, format, spawnOk, jobs, RunAll(files, unwritable, jobs))
  }

  /**
   * A batch that found files: the start lines, the creation failures, the
   * workers' lines, one progress update per join, and the closing lines.
   */
  function Started(fileCount: nat, format: string, spawnOk: seq<bool>, jobs: seq<Job>, work: ThreadResult): BatchRun
  {
    BatchRun(fileCount, jobs,
      [UpdateLog(StartMessage(fileCount, format)), WriteLog(START_LOG)]
      + FailureEvents(spawnOk)
      + WorkerEvents(work.log)
      + ProgressEvents(|jobs|, fileCount)
      + [UpdateLog(DONE_UPDATE), WriteLog(DONE_LOG), ShowMessage(DONE_MESSAGE)],
      work.files)
  }

  /** The lines a batch writes to the log file. */
  function LogLines(events: seq<Event>): seq<string>
    decreases |events|
  {
    if events == [] then []
    else LogLines(events[..|events| - 1]) + (if events[|events| - 1].WriteLog? then [events[|events| - 1].line] else [])
  }

  /** The lines a batch adds to the on-screen log. */
  function ScreenLines(events: seq<Event>): seq<string>
    decreases |events|
  {
    if events == [] then []
    else ScreenLines(events[..|events| - 1]) + (if events[|events| - 1].UpdateLog? then [events[|events| - 1].line] else [])
  }

  /** If the directory does not open, exactly one log line is written, no job is created and no file changes. */
  lemma DirectoryErrorRun(rewound: seq<Entry>, inputDir: string, outputDir: string, format: string, spawnOk: seq<bool>,
                          files: map<string, seq<byte>>, unwritable: set<string>)
    requires |spawnOk| == |Matches(rewound)|
    ensures var run := Batch(None, rewound, inputDir, outputDir, format, spawnOk, files, unwritable);
      && run.jobs == [] && run.files == files
      && LogLines(run.events) == [DIR_ERROR_LOG] && ScreenLines(run.events) == []
  {
    var events := [WriteLog(DIR_ERROR_LOG), ShowMessage(DIR_ERROR_MESSAGE)];
    assert events[..1] == [WriteLog(DIR_ERROR_LOG)];
    assert events[..1][..0] == [];
    assert LogLines([]) == [] && ScreenLines([]) == [];
    assert LogLines(events[..1]) == [DIR_ERROR_LOG];
    assert ScreenLines(events[..1]) == [];
  }

  /** If no entry matches, nothing is logged (file or screen), no job is created and no file changes. */
  lemma NoMatchesRun(entries: seq<Entry>, rewound: seq<Entry>, inputDir: string, outputDir: string,
                     format: string, spawnOk: seq<bool>, files: map<string, seq<byte>>, unwritable: set<string>)
    requires |spawnOk| == |Matches(rewound)| && Matches(entries) == []
    ensures var run := Batch(Some(entries), rewound, inputDir, outputDir, format, spawnOk, files, unwritable);
      run.jobs == [] && run.files == files && LogLines(run.events) == [] && ScreenLines(run.events) == []
  {
    assert [ShowMessage(NO_FILES_MESSAGE)][..0] == [];
  }

  /**
   * With an unchanged listing the number of started workers is at most
   * the number of files counted, which is at most MAX_FILES, and progress
   * reaches 1 exactly when every creation succeeded.
   */
  lemma UnchangedListingRun(entries: seq<Entry>, inputDir: string, outputDir: string, format: string, spawnOk: seq<bool>,
                            files: map<string, seq<byte>>, unwritable: set<string>)
    requires |spawnOk| == |Matches(entries)| <= MAX_FILES
    requires Matches(entries) != []
    ensures var run := Batch(Some(entries), entries, inputDir, outputDir, format, spawnOk, files, unwritable);
      && |run.jobs| <= run.fileCount <= MAX_FILES
      && (|run.jobs| == run.fileCount <==> forall k :: 0 <= k < |spawnOk| ==> spawnOk[k])
      && ((exists i :: 0 <= i < |run.jobs| && ProgressEvents(|run.jobs|, run.fileCount)[i].done == run.fileCount)
            <==> forall k :: 0 <= k < |spawnOk| ==> spawnOk[k])
  {
    var attempts := Attempts(entries, inputDir, outputDir, format);
    SpawnedCount(attempts, spawnOk);
    ProgressShape(|Spawned(attempts, spawnOk)|, |Matches(entries)|);
  }

  lemma {:induction false} LogLinesAppend(a: seq<Event>, b: seq<Event>)
    ensures LogLines(a + b) == LogLines(a) + LogLines(b)
    ensures ScreenLines(a + b) == ScreenLines(a) + ScreenLines(b)
    decreases |b|
  {
    if b != [] {
      var init := b[..|b| - 1];
      assert (a + b)[..|a + b| - 1] == a + init;
      LogLinesAppend(a, init);
    } else {
      assert a + b == a;
    }
  }

  /** A single event contributes its line to the log file or to the screen, by its kind. */
  lemma OneEventLines(e: Event)
    ensures LogLines([e]) == (if e.WriteLog? then [e.line] else [])
    ensures ScreenLines([e]) == (if e.UpdateLog? then [e.line] else [])
  {
    assert [e][..0] == [];
  }

  /** The workers' events are their log-file lines, in order, and nothing on screen. */
  lemma {:induction false} WorkerLines(lines: seq<string>)
    ensures LogLines(WorkerEvents(lines)) == lines && ScreenLines(WorkerEvents(lines)) == []
    decreases |lines|
  {
    if lines != [] {
      var init := lines[..|lines| - 1];
      WorkerLines(init);
      assert WorkerEvents(lines)[..|lines| - 1] == WorkerEvents(init);
    }
  }

  /** Progress updates write no log line of either kind. */
  lemma {:induction false} ProgressLines(threadCount: nat, fileCount: nat)
    ensures LogLines(ProgressEvents(threadCount, fileCount)) == []
    ensures ScreenLines(ProgressEvents(threadCount, fileCount)) == []
    decreases threadCount
  {
    if threadCount > 0 {
      ProgressLines(threadCount - 1, fileCount);
      assert ProgressEvents(threadCount, fileCount)[..threadCount - 1] == ProgressEvents(threadCount - 1, fileCount);
    }
  }

  /** n copies of a line. */
  function Repeated(line: string, n: nat): (r: seq<string>)
    ensures |r| == n
  {
    if n == 0 then [] else Repeated(line, n - 1) + [line]
  }

  /** Every element of Repeated(line, n) is line. */
  lemma {:induction false} RepeatedAll(line: string, n: nat)
    ensures forall k :: 0 <= k < n ==> Repeated(line, n)[k] == line
  {
    if n > 0 {
      RepeatedAll(line, n - 1);
    }
  }

  /** Each failed creation writes one "Failed to create thread" line to the log file and none on screen. */
  lemma {:induction false} FailureLines(ok: seq<bool>)
    ensures LogLines(FailureEvents(ok)) == Repeated(THREAD_FAILED_LOG, CountFalse(ok))
    ensures ScreenLines(FailureEvents(ok)) == []
    decreases |ok|
  {
    if ok != [] {
      var init := ok[..|ok| - 1];
      FailureLines(init);
      var failed := CountFalse(init);
      var step := if ok[|ok| - 1] then [] else [WriteLog(THREAD_FAILED_LOG), ShowMessage(THREAD_FAILED_MESSAGE)];
      assert FailureEvents(ok) == FailureEvents(init) + step;
      LogLinesAppend(FailureEvents(init), step);
      if ok[|ok| - 1] {
        assert step == [];
        assert FailureEvents(ok) == FailureEvents(init);
      } else {
        assert step == [step[0]] + [step[1]];
        LogLinesAppend([step[0]], [step[1]]);
        OneEventLines(step[0]);
        OneEventLines(step[1]);
        assert LogLines(step) == [THREAD_FAILED_LOG];
        assert Repeated(THREAD_FAILED_LOG, failed + 1) == Repeated(THREAD_FAILED_LOG, failed) + [THREAD_FAILED_LOG];
      }
    }
  }

  /** The lines of five consecutive stretches of events are those of each stretch, in order. */
  lemma FramedLines(head: seq<Event>, failures: seq<Event>, workers: seq<Event>, progress: seq<Event>, tail: seq<Event>)
    ensures LogLines(head + failures + workers + progress + tail)
      == LogLines(head) + LogLines(failures) + LogLines(workers) + LogLines(progress) + LogLines(tail)
    ensures ScreenLines(head + failures + workers + progress + tail)
      == ScreenLines(head) + ScreenLines(failures) + ScreenLines(workers) + ScreenLines(progress) + ScreenLines(tail)
  {
    LogLinesAppend(head, failures);
    LogLinesAppend(head + failures, workers);
    LogLinesAppend(head + failures + workers, progress);
    LogLinesAppend(head + failures + workers + progress, tail);
  }

  lemma HeadLines(start: string)
    ensures LogLines([UpdateLog(start), WriteLog(START_LOG)]) == [START_LOG]
    ensures ScreenLines([UpdateLog(start), WriteLog(START_LOG)]) == [start]
  {
    var head := [UpdateLog(start), WriteLog(START_LOG)];
    assert head == [head[0]] + [head[1]];
    LogLinesAppend([head[0]], [head[1]]);
    OneEventLines(head[0]);
    OneEventLines(head[1]);
  }

  /** The lines of three events are those of each event, in order. */
  lemma ThreeEventLines(a: Event, b: Event, c: Event)
    ensures LogLines([a, b, c]) == LogLines([a]) + LogLines([b]) + LogLines([c])
    ensures ScreenLines([a, b, c]) == ScreenLines([a]) + ScreenLines([b]) + ScreenLines([c])
  {
    assert [a, b, c] == [a] + [b] + [c];
    LogLinesAppend([a], [b]);
    LogLinesAppend([a] + [b], [c]);
  }

  lemma TailLines()
    ensures LogLines([UpdateLog(DONE_UPDATE), WriteLog(DONE_LOG), ShowMessage(DONE_MESSAGE)]) == [DONE_LOG]
    ensures ScreenLines([UpdateLog(DONE_UPDATE), WriteLog(DONE_LOG), ShowMessage(DONE_MESSAGE)]) == [DONE_UPDATE]
  {
    var a, b, c := UpdateLog(DONE_UPDATE), WriteLog(DONE_LOG), ShowMessage(DONE_MESSAGE);
    ThreeEventLines(a, b, c);
    OneEventLines(a);
    OneEventLines(b);
    OneEventLines(c);
    assert [] + [DONE_LOG] + [] == [DONE_LOG];
    assert [DONE_UPDATE] + [] + [] == [DONE_UPDATE];
  }

  /** The log-file lines of five concatenated pieces, given the lines of each piece. */
  lemma FramedLog(head: seq<Event>, failures: seq<Event>, workers: seq<Event>, progress: seq<Event>, tail: seq<Event>,
                  failed: seq<string>, worked: seq<string>)
    requires LogLines(head) == [START_LOG] && LogLines(failures) == failed && LogLines(workers) == worked
    requires LogLines(progress) == [] && LogLines(tail) == [DONE_LOG]
    ensures LogLines(head + failures + workers + progress + tail) == [START_LOG] + failed + worked + [DONE_LOG]
  {
    FramedLines(head, failures, workers, progress, tail);
    assert [START_LOG] + failed + worked + [] == [START_LOG] + failed + worked;
  }

  /** The log-file lines of the events of a batch that found files, piece by piece. */
  lemma StartedPiecesLog(start: string, spawnOk: seq<bool>, threadCount: nat, fileCount: nat, lines: seq<string>)
    ensures LogLines([UpdateLog(start), WriteLog(START_LOG)] + FailureEvents(spawnOk) + WorkerEvents(lines)
                     + ProgressEvents(threadCount, fileCount)
                     + [UpdateLog(DONE_UPDATE), WriteLog(DONE_LOG), ShowMessage(DONE_MESSAGE)])
      == [START_LOG] + Repeated(THREAD_FAILED_LOG, CountFalse(spawnOk)) + lines + [DONE_LOG]
  {
    assert LogLines([UpdateLog(start), WriteLog(START_LOG)]) == [START_LOG] by { HeadLines(start); }
    assert LogLines(FailureEvents(spawnOk)) == Repeated(THREAD_FAILED_LOG, CountFalse(spawnOk))
      by { FailureLines(spawnOk); }
    assert LogLines(WorkerEvents(lines)) == lines by { WorkerLines(lines); }
    assert LogLines(ProgressEvents(threadCount, fileCount)) == [] by { ProgressLines(threadCount, fileCount); }
    assert LogLines([UpdateLog(DONE_UPDATE), WriteLog(DONE_LOG), ShowMessage(DONE_MESSAGE)]) == [DONE_LOG] by { TailLines(); }
    FramedLog([UpdateLog(start), WriteLog(START_LOG)], FailureEvents(spawnOk), WorkerEvents(lines),
              ProgressEvents(threadCount, fileCount), [UpdateLog(DONE_UPDATE), WriteLog(DONE_LOG), ShowMessage(DONE_MESSAGE)],
              Repeated(THREAD_FAILED_LOG, CountFalse(spawnOk)), lines);
  }

  /** The log-file lines of a batch that found files, for any jobs and worker lines. */
  lemma StartedLog(fileCount: nat, format: string, spawnOk: seq<bool>, jobs: seq<Job>, work: ThreadResult, run: BatchRun)
    requires run == Started(fileCount, format, spawnOk, jobs, work)
    ensures LogLines(run.events) == [START_LOG] + Repeated(THREAD_FAILED_LOG, CountFalse(spawnOk)) + work.log + [DONE_LOG]
  {
    StartedPiecesLog(StartMessage(fileCount, format), spawnOk, |jobs|, fileCount, work.log);
  }

  /** The on-screen lines of five concatenated pieces, given the lines of each piece. */
  lemma FramedScreen(head: seq<Event>, failures: seq<Event>, workers: seq<Event>, progress: seq<Event>, tail: seq<Event>,
                     start: string)
    requires ScreenLines(head) == [start] && ScreenLines(failures) == [] && ScreenLines(workers) == []
    requires ScreenLines(progress) == [] && ScreenLines(tail) == [DONE_UPDATE]
    ensures ScreenLines(head + failures + workers + progress + tail) == [start, DONE_UPDATE]
  {
    FramedLines(head, failures, workers, progress, tail);
    assert [start] + [] + [] + [] + [DONE_UPDATE] == [start, DONE_UPDATE];
  }

  /** The on-screen lines of the events of a batch that found files, piece by piece. */
  lemma StartedPiecesScreen(start: string, spawnOk: seq<bool>, threadCount: nat, fileCount: nat, lines: seq<string>)
    ensures ScreenLines([UpdateLog(start), WriteLog(START_LOG)] + FailureEvents(spawnOk) + WorkerEvents(lines)
                        + ProgressEvents(threadCount, fileCount)
                        + [UpdateLog(DONE_UPDATE), WriteLog(DONE_LOG), ShowMessage(DONE_MESSAGE)])
      == [start, DONE_UPDATE]
  {
    assert ScreenLines([UpdateLog(start), WriteLog(START_LOG)]) == [start] by { HeadLines(start); }
    assert ScreenLines(FailureEvents(spawnOk)) == [] by { FailureLines(spawnOk); }
    assert ScreenLines(WorkerEvents(lines)) == [] by { WorkerLines(lines); }
    assert ScreenLines(ProgressEvents(threadCount, fileCount)) == [] by { ProgressLines(threadCount, fileCount); }
    assert ScreenLines([UpdateLog(DONE_UPDATE), WriteLog(DONE_LOG), ShowMessage(DONE_MESSAGE)]) == [DONE_UPDATE]
      by { TailLines(); }
    FramedScreen([UpdateLog(start), WriteLog(START_LOG)], FailureEvents(spawnOk), WorkerEvents(lines),
                 ProgressEvents(threadCount, fileCount), [UpdateLog(DONE_UPDATE), WriteLog(DONE_LOG), ShowMessage(DONE_MESSAGE)],
                 start);
  }

  /** The on-screen lines of a batch that found files: the start message and the completion line. */
  lemma StartedScreen(fileCount: nat, format: string, spawnOk: seq<bool>, jobs: seq<Job>, work: ThreadResult, run: BatchRun)
    requires run == Started(fileCount, format, spawnOk, jobs, work)
    ensures ScreenLines(run.events) == [StartMessage(fileCount, format), DONE_UPDATE]
  {
    StartedPiecesScreen(StartMessage(fileCount, format), spawnOk, |jobs|, fileCount, work.log);
  }

  /**
   * A batch that finds files writes "Starting batch conversion.", then one
   * line per failed creation, then exactly one line per started worker
   * (the workers' own lines, in job order), then "Batch conversion
   * completed."; on screen it shows the start message and the completion
   * line only; and it leaves the files the workers leave.
   */
  lemma BatchLog(entries: seq<Entry>, rewound: seq<Entry>, inputDir: string, outputDir: string, format: string,
                 spawnOk: seq<bool>, files: map<string, seq<byte>>, unwritable: set<string>)
    requires |spawnOk| == |Matches(rewound)| && Matches(entries) != []
    ensures var run := Batch(Some(entries), rewound, inputDir, outputDir, format, spawnOk, files, unwritable);
      var work := RunAll(files, unwritable, run.jobs);
      && |run.jobs| + CountFalse(spawnOk) == |spawnOk|
      && LogLines(run.events) == [START_LOG] + Repeated(THREAD_FAILED_LOG, CountFalse(spawnOk))
           + work.log + [DONE_LOG]
      && |work.log| == |run.jobs|
      && ScreenLines(run.events) == [StartMessage(run.fileCount, format), DONE_UPDATE]
      && run.files == work.files
  {
    var jobs := Spawned(Attempts(rewound, inputDir, outputDir, format), spawnOk);
    var work := RunAll(files, unwritable, jobs);
    StartedLog(|Matches(entries)|, format, spawnOk, jobs, work,
               Batch(Some(entries), rewound, inputDir, outputDir, format, spawnOk, files, unwritable));
    StartedScreen(|Matches(entries)|, format, spawnOk, jobs, work,
                  Batch(Some(entries), rewound, inputDir, outputDir, format, spawnOk, files, unwritable));
    RunAllLogsOnePerJob(files, unwritable, jobs);
    SpawnedCount(Attempts(rewound, inputDir, outputDir, format), spawnOk);
  }

  // -------------------------------------------------------- the method

  /** The first pass: counts the selected entries. */
  method CountFiles(entries: seq<Entry>) returns (fileCount: nat)
    ensures fileCount == |Matches(entries)|
  {
    fileCount := 0;
    for i := 0 to |entries|
      invariant fileCount == |Matches(entries[..i])|
    {
      assert entries[..i + 1][..i] == entries[..i];
      if Selected(entries[i]) {
        fileCount := fileCount + 1;
      }
    }
    assert entries[..|entries|] == entries;
  }

  /**
   * One entry of the second pass, on sequences: a selected entry is the
   * next creation attempt, whose success adds its job and whose failure
   * adds the failure events; any other entry changes nothing.
   */
  lemma CreateStep(rewound: seq<Entry>, i: nat, inputDir: string, outputDir: string, format: string, spawnOk: seq<bool>)
    requires i < |rewound| && |spawnOk| == |Matches(rewound)|
    ensures var attempt := |Matches(rewound[..i])|;
      var entry := rewound[i];
      && attempt <= |Matches(rewound[..i + 1])| <= |spawnOk|
      && var before := Spawned(Attempts(rewound[..i], inputDir, outputDir, format), spawnOk[..attempt]);
         var after := Spawned(Attempts(rewound[..i + 1], inputDir, outputDir, format), spawnOk[..|Matches(rewound[..i + 1])|]);
         && (Selected(entry) ==>
               && attempt < |spawnOk| && |Matches(rewound[..i + 1])| == attempt + 1
               && after == before + (if spawnOk[attempt] then [JobFor(inputDir, outputDir, format, entry.name)] else [])
               && FailureEvents(spawnOk[..attempt + 1]) == FailureEvents(spawnOk[..attempt])
                    + (if spawnOk[attempt] then [] else [WriteLog(THREAD_FAILED_LOG), ShowMessage(THREAD_FAILED_MESSAGE)]))
         && (!Selected(entry) ==> |Matches(rewound[..i + 1])| == attempt && after == before)
  {
    var prefix := rewound[..i];
    var attempt := |Matches(prefix)|;
    assert rewound[..i + 1][..i] == prefix;
    MatchesPrefix(rewound, i);
    assert rewound[..i + 1][i] == rewound[i];
    MatchesPrefix(rewound, i + 1);
    var attempts := Attempts(prefix, inputDir, outputDir, format);
    if Selected(rewound[i]) {
      var job := JobFor(inputDir, outputDir, format, rewound[i].name);
      assert Attempts(rewound[..i + 1], inputDir, outputDir, format) == attempts + [job];
      SpawnedStep(attempts, job, spawnOk[..attempt + 1]);
      assert spawnOk[..attempt + 1][..attempt] == spawnOk[..attempt];
    } else {
      assert Attempts(rewound[..i + 1], inputDir, outputDir, format) == attempts;
    }
  }

  /**
   * The second pass: fills `args[threadCount]` for each selected entry and
   * advances `threadCount` only when the creation succeeds; a failed
   * creation leaves its slot to be reused by the next entry.
   */
  method CreateWorkers(rewound: seq<Entry>, inputDir: string, outputDir: string, format: string, spawnOk: seq<bool>)
    returns (jobs: seq<Job>, failures: seq<Event>)
    requires |Matches(rewound)| <= MAX_FILES
    requires |spawnOk| == |Matches(rewound)|
    ensures jobs == Spawned(Attempts(rewound, inputDir, outputDir, format), spawnOk)
    ensures failures == FailureEvents(spawnOk)
  {
    var args := new Job[MAX_FILES](_ => Job("", "", ""));
    var threadCount := 0;
    var attempt := 0;
    failures := [];
    for i := 0 to |rewound|
      invariant attempt == |Matches(rewound[..i])| <= |spawnOk|
      invariant threadCount <= attempt
      invariant args[..threadCount] == Spawned(Attempts(rewound[..i], inputDir, outputDir, format), spawnOk[..attempt])
      invariant failures == FailureEvents(spawnOk[..attempt])
    {
      CreateStep(rewound, i, inputDir, outputDir, format, spawnOk);
      ghost var before := args[..threadCount];
      var entry := rewound[i];
      if Selected(entry) {
        args[threadCount] := Job(InputPath(inputDir, entry.name), OutputPath(outputDir, entry.name, format), format);
        if spawnOk[attempt] {
          threadCount := threadCount + 1;
          assert args[..threadCount] == before + [args[threadCount - 1]];
        } else {
          assert args[..threadCount] == before;
          failures := failures + [WriteLog(THREAD_FAILED_LOG), ShowMessage(THREAD_FAILED_MESSAGE)];
        }
        attempt := attempt + 1;
      }
    }
    assert rewound[..|rewound|] == rewound;
    assert spawnOk[..attempt] == spawnOk;
    jobs := args[..threadCount];
  }

  /** The join loop: one progress update per started worker. */
  method JoinWorkers(threadCount: nat, fileCount: nat) returns (progress: seq<Event>)
    ensures progress == ProgressEvents(threadCount, fileCount)
  {
    progress := [];
    for i := 0 to threadCount
      invariant progress == ProgressEvents(i, fileCount)
    {
      progress := progress + [Progress(i + 1, fileCount)];
    }
  }

  /**
   * `convertFilesBatch`: the two passes over the directory, the started
   * workers converting their files in `fs`, and the join loop.
   */
  method ConvertFilesBatch(fs: FileSystem, directory: Option<seq<Entry>>, rewound: seq<Entry>, inputDir: string,
                           outputDir: string, format: string, spawnOk: seq<bool>) returns (run: BatchRun)
    requires |format| < 10
    requires |Matches(rewound)| <= MAX_FILES
    requires |spawnOk| == |Matches(rewound)|
    modifies fs
    ensures run == Batch(directory, rewound, inputDir, outputDir, format, spawnOk, old(fs.files), fs.unwritable)
    ensures fs.files == run.files
  {
    if directory.None? {
      return BatchRun(0, [], [WriteLog(DIR_ERROR_LOG), ShowMessage(DIR_ERROR_MESSAGE)], fs.files);
    }
    var fileCount := CountFiles(directory.value);
    if fileCount == 0 {
      return BatchRun(0, [], [ShowMessage(NO_FILES_MESSAGE)], fs.files);
    }
    var events := [UpdateLog(StartMessage(fileCount, format)), WriteLog(START_LOG)];
    var jobs, failures := CreateWorkers(rewound, inputDir, outputDir, format, spawnOk);
    var lines := fs.RunJobs(jobs);
    var progress := JoinWorkers(|jobs|, fileCount);
    events := events + failures + WorkerEvents(lines) + progress
      + [UpdateLog(DONE_UPDATE), WriteLog(DONE_LOG), ShowMessage(DONE_MESSAGE)];
    run := BatchRun(fileCount, jobs, events, fs.files);
  }
}

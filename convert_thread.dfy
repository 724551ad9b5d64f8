/**
 * The per-file worker of the batch converter (`convertFileThread`):
 * it opens the input, creates the output, and copies the input to the
 * output through a 100-byte `fgets` buffer, rewriting spaces to commas
 * for the csv target. Each worker writes one line to the conversion log.
 * Console output (`printf` and error messages on standard error) is not modelled.
 */
module ConvertThread {
  import opened CLib

  /** `MAX_FILES`: the job limit, and also the size of every path and line buffer. */
  const MAX_FILES: nat := 100

  /** The `ThreadArgs` record one worker receives. */
  datatype Job = Job(inputFile: string, outputFile: string, format: string)

  const CANNOT_OPEN_INPUT := "Error: Cannot open input file in thread."
  const CANNOT_OPEN_OUTPUT := "Error: Cannot open output file in thread."
  const UNSUPPORTED_FORMAT := "Error: Unsupported format in thread."
  const THREAD_COMPLETED := "File conversion thread completed."

  // ------------------------------------------------------ the text formats

  function CommaFor(b: byte): byte { if b == SPACE then COMMA else b }

  /** Every space replaced by a comma, every other byte kept. */
  function Commas(s: seq<byte>): (r: seq<byte>)
  {
    seq(|s|, i requires 0 <= i < |s| => CommaFor(s[i]))
  }

  lemma CommasAppend(a: seq<byte>, b: seq<byte>)
    ensures Commas(a + b) == Commas(a) + Commas(b)
  {
    assert forall i :: 0 <= i < |a + b| ==> Commas(a + b)[i] == (Commas(a) + Commas(b))[i];
  }

  /** What the txt, jpg and png targets write: each fgets chunk re-emitted with `%s`. */
  function CopyOutput(input: seq<byte>): seq<byte>
  {
    Printed(Chunks(input, MAX_FILES))
  }

  /** What printing each chunk with the `%s` format writes after the space-to-comma pass. */
  function CsvPrinted(cs: seq<seq<byte>>): seq<byte>
  {
    if cs == [] then [] else Commas(CutAtNul(cs[0])) + CsvPrinted(cs[1..])
  }

  lemma CsvPrintedStep(s: seq<byte>)
    requires s != []
    ensures var n := LineLength(s, MAX_FILES - 1);
      CsvPrinted(Chunks(s, MAX_FILES)) == Commas(CutAtNul(s[..n])) + CsvPrinted(Chunks(s[n..], MAX_FILES))
  {
    var n := LineLength(s, MAX_FILES - 1);
    assert Chunks(s, MAX_FILES) == [s[..n]] + Chunks(s[n..], MAX_FILES);
  }

  /** What the csv target writes. */
  function CsvOutput(input: seq<byte>): seq<byte>
  {
    CsvPrinted(Chunks(input, MAX_FILES))
  }

  /** The output the worker produces for a target format, or None for an unsupported one. */
  function Convert(format: string, input: seq<byte>): Option<seq<byte>>
  {
    if format == "txt" then Some(CopyOutput(input))
    else if format == "csv" then Some(CsvOutput(input))
    else if format == "jpg" then Some(CopyOutput(input))
    else if format == "png" then Some(CopyOutput(input))
    else None
  }

  // --------------------------------------------------- properties of them

  /** The csv output is the copy output with spaces turned into commas. */
  lemma {:induction false} CsvIsCommasOfCopy(cs: seq<seq<byte>>)
    ensures CsvPrinted(cs) == Commas(Printed(cs))
  {
    if cs != [] {
      CsvIsCommasOfCopy(cs[1..]);
      CommasAppend(CutAtNul(cs[0]), Printed(cs[1..]));
    }
  }

  /**
   * For the txt, jpg and png targets the output equals the input byte for
   * byte exactly when the input holds no NUL byte.
   */
  lemma CopyFaithful(input: seq<byte>)
    ensures CopyOutput(input) == input <==> NUL !in input
  {
    PrintedChunksIff(input, MAX_FILES);
  }

  /** For NUL-free input the csv output has the input's length and differs only where the input has a space. */
  lemma CsvCharwise(input: seq<byte>)
    requires NUL !in input
    ensures |CsvOutput(input)| == |input|
    ensures forall i :: 0 <= i < |input| ==>
      CsvOutput(input)[i] == (if input[i] == SPACE then COMMA else input[i])
  {
    CsvIsCommasOfCopy(Chunks(input, MAX_FILES));
    CopyFaithful(input);
  }

  /** Converting the csv output again changes nothing. */
  lemma CsvIdempotent(input: seq<byte>)
    ensures CsvOutput(CsvOutput(input)) == CsvOutput(input)
  {
    var once := CsvOutput(input);
    var copy := CopyOutput(input);
    CsvIsCommasOfCopy(Chunks(input, MAX_FILES));
    PrintedNulFree(Chunks(input, MAX_FILES));
    assert once == Commas(copy);
    assert NUL !in once;
    CopyFaithful(once);
    CsvIsCommasOfCopy(Chunks(once, MAX_FILES));
    assert CsvOutput(once) == Commas(once);
  }

  // ------------------------------------------------- the fgets read loops

  /** The copy loop: each chunk `fgets` reads into the 100-byte buffer is printed with `%s`, until end of file. */
  method CopyLines(input: seq<byte>) returns (output: seq<byte>)
    ensures output == CopyOutput(input)
  {
    var buffer := new byte[MAX_FILES];
    var rest := input;
    output := [];
    while true
      invariant output + Printed(Chunks(rest, MAX_FILES)) == CopyOutput(input)
      decreases |rest|
    {
      var got, n := Fgets(buffer, rest);
      if !got {
        break;
      }
      FgetsChunk(rest, MAX_FILES, buffer[..], n);
      output := output + CutAtNul(buffer[..]);
      rest := rest[n..];
    }
  }

  /**
   * The in-place pass of the csv target: every space before the buffer's
   * first NUL becomes a comma; the NUL and what follows it are untouched.
   */
  method SpacesToCommas(buffer: array<byte>)
    requires NUL in buffer[..]
    modifies buffer
    ensures CommaPass(old(buffer[..]), buffer[..])
  {
    ghost var orig := buffer[..];
    ghost var k := |CutAtNul(orig)|;
    assert orig[k] == NUL;
    var i := 0;
    while buffer[i] != NUL
      invariant 0 <= i <= k
      invariant forall j :: 0 <= j < i ==> buffer[j] == CommaFor(orig[j])
      invariant forall j :: i <= j < buffer.Length ==> buffer[j] == orig[j]
      decreases k - i
    {
      if buffer[i] == SPACE {
        buffer[i] := COMMA;
      }
      i := i + 1;
    }
    assert i == k;
    assert orig == old(buffer[..]);
    assert buffer[..k] == Commas(orig[..k]);
    assert buffer[k..] == orig[k..];
  }

  /** `after` is `read` with every space before its first NUL rewritten to a comma. */
  predicate CommaPass(read: seq<byte>, after: seq<byte>)
  {
    var k := |CutAtNul(read)|;
    |after| == |read| && after[..k] == Commas(read[..k]) && after[k..] == read[k..]
  }

  /** After the comma pass, the buffer reads as the chunk fgets stored, with its spaces rewritten. */
  lemma CommaPassRead(read: seq<byte>, after: seq<byte>, n: nat)
    requires n < |read| && read[n] == NUL && CommaPass(read, after)
    ensures CutAtNul(after) == Commas(CutAtNul(read[..n]))
  {
    CutAtNulOfTerminated(read, n);
    var line := CutAtNul(read);
    var k := |line|;
    assert read[..k] == line;
    assert after[k] == read[k] == NUL;
    assert after[..k] == Commas(line);
    CutAtNulAt(after, k);
  }

  /**
   * One round of the csv loop: the chunk fgets stores, read back after the
   * comma pass, is what the csv output holds for that chunk.
   */
  lemma CsvChunk(rest: seq<byte>, read: seq<byte>, after: seq<byte>, n: nat)
    requires rest != [] && n == LineLength(rest, MAX_FILES - 1) && Stored(read, rest, n)
    requires CommaPass(read, after)
    ensures CsvPrinted(Chunks(rest, MAX_FILES)) == CutAtNul(after) + CsvPrinted(Chunks(rest[n..], MAX_FILES))
  {
    assert read[..n] == rest[..n];
    CommaPassRead(read, after, n);
    CsvPrintedStep(rest);
  }

  /** The csv branch: the fgets loop with the space-to-comma pass on each chunk. */
  method CsvLines(input: seq<byte>) returns (output: seq<byte>)
    ensures output == CsvOutput(input)
  {
    var buffer := new byte[MAX_FILES];
    var rest := input;
    output := [];
    while true
      invariant output + CsvPrinted(Chunks(rest, MAX_FILES)) == CsvOutput(input)
      decreases |rest|
    {
      var got, n, written := CsvRound(buffer, rest);
      if !got {
        break;
      }
      output := output + written;
      rest := rest[n..];
    }
  }

  /**
   * One round of the csv loop: `fgets` into the buffer, the comma pass,
   * and the bytes then printed with `%s`; reports false at end of file.
   */
  method CsvRound(buffer: array<byte>, rest: seq<byte>) returns (got: bool, n: nat, written: seq<byte>)
    requires buffer.Length == MAX_FILES
    modifies buffer
    ensures got <==> rest != []
    ensures got ==> 0 < n <= |rest|
    ensures got ==> CsvPrinted(Chunks(rest, MAX_FILES)) == written + CsvPrinted(Chunks(rest[n..], MAX_FILES))
  {
    written := [];
    got, n := Fgets(buffer, rest);
    if !got {
      return;
    }
    ghost var read := buffer[..];
    assert read[n] == NUL;
    SpacesToCommas(buffer);
    CsvChunk(rest, read, buffer[..], n);
    written := CutAtNul(buffer[..]);
  }

  // ------------------------------------------------------------ the worker

  /** The files after one worker, and the line it adds to the log. */
  datatype ThreadResult = ThreadResult(files: map<string, seq<byte>>, log: seq<string>)

  /**
   * One worker run on the files it finds: opening the input fails when it
   * does not exist, opening the output fails for an unwritable path, and
   * the output is truncated when opened, before any byte of the input is read.
   */
  function ThreadEffect(files: map<string, seq<byte>>, unwritable: set<string>, job: Job): ThreadResult
  {
    if job.inputFile !in files then ThreadResult(files, [CANNOT_OPEN_INPUT])
    else if job.outputFile in unwritable then ThreadResult(files, [CANNOT_OPEN_OUTPUT])
    else
      var truncated := files[job.outputFile := []];
      match Convert(job.format, truncated[job.inputFile])
      case None => ThreadResult(truncated, [UNSUPPORTED_FORMAT])
      case Some(output) => ThreadResult(truncated[job.outputFile := output], [THREAD_COMPLETED])
  }

  /**
   * A worker writes exactly one log line; it reports completion exactly
   * when both files open and the format is supported, and then the output
   * file holds the converted input and no other file changes.
   */
  lemma ThreadOutcome(files: map<string, seq<byte>>, unwritable: set<string>, job: Job)
    ensures var r := ThreadEffect(files, unwritable, job);
      && |r.log| == 1
      && (r.log[0] == THREAD_COMPLETED <==>
            job.inputFile in files && job.outputFile !in unwritable && Convert(job.format, files[job.inputFile]).Some?)
      && (r.log[0] == THREAD_COMPLETED && job.inputFile != job.outputFile ==>
            r.files == files[job.outputFile := Convert(job.format, files[job.inputFile]).value])
  {
  }

  /** If the input does not open, no file is created or changed and no completion is logged. */
  lemma InputMissing(files: map<string, seq<byte>>, unwritable: set<string>, job: Job)
    requires job.inputFile !in files
    ensures ThreadEffect(files, unwritable, job) == ThreadResult(files, [CANNOT_OPEN_INPUT])
  {
  }

  /** An unsupported format leaves the already created output file empty. */
  lemma UnsupportedLeavesEmpty(files: map<string, seq<byte>>, unwritable: set<string>, job: Job)
    requires job.inputFile in files && job.outputFile !in unwritable
    requires job.format !in {"txt", "csv", "jpg", "png"}
    ensures ThreadEffect(files, unwritable, job) == ThreadResult(files[job.outputFile := []], [UNSUPPORTED_FORMAT])
  {
  }

  /** A job whose input and output paths coincide empties that file: the input is truncated before it is read. */
  lemma SelfOverwriteEmpties(files: map<string, seq<byte>>, unwritable: set<string>, job: Job)
    requires job.inputFile == job.outputFile && job.inputFile in files && job.outputFile !in unwritable
    ensures ThreadEffect(files, unwritable, job).files == files[job.outputFile := []]
  {
    assert Chunks([], MAX_FILES) == [];
  }

  /** The file system the workers share: the files present and the paths that cannot be created. */
  class FileSystem {
    var files: map<string, seq<byte>>
    const unwritable: set<string>

    constructor (files: map<string, seq<byte>>, unwritable: set<string>)
      ensures this.files == files && this.unwritable == unwritable
    {
      this.files := files;
      this.unwritable := unwritable;
    }

    /** `convertFileThread`: converts one job and returns the line it writes to the log. */
    method ConvertFileThread(job: Job) returns (log: seq<string>)
      modifies this
      ensures ThreadResult(files, log) == ThreadEffect(old(files), unwritable, job)
    {
      if job.inputFile !in files {
        return [CANNOT_OPEN_INPUT];
      }
      if job.outputFile in unwritable {
        return [CANNOT_OPEN_OUTPUT];
      }
      files := files[job.outputFile := []];
      var input := files[job.inputFile];
      var output;
      if job.format == "txt" {
        output := CopyLines(input);
      } else if job.format == "csv" {
        output := CsvLines(input);
      } else if job.format == "jpg" {
        output := CopyLines(input);
      } else if job.format == "png" {
        output := CopyLines(input);
      } else {
        return [UNSUPPORTED_FORMAT];
      }
      files := files[job.outputFile := output];
      log := [THREAD_COMPLETED];
    }

    /** The workers of a batch run one after another, each to completion, in job order. */
    method RunJobs(jobs: seq<Job>) returns (log: seq<string>)
      modifies this
      ensures ThreadResult(files, log) == RunAll(old(files), unwritable, jobs)
    {
      log := [];
      var i := 0;
      while i < |jobs|
        invariant 0 <= i <= |jobs|
        invariant ThreadResult(files, log) == RunAll(old(files), unwritable, jobs[..i])
      {
        var line := ConvertFileThread(jobs[i]);
        assert jobs[..i + 1][..i] == jobs[..i];
        log := log + line;
        i := i + 1;
      }
      assert jobs[..i] == jobs;
    }
  }

  /** The jobs run in order, each from the files the previous ones left; the log lines in the same order. */
  function RunAll(files: map<string, seq<byte>>, unwritable: set<string>, jobs: seq<Job>): ThreadResult
    decreases |jobs|
  {
    if jobs == [] then ThreadResult(files, [])
    else
      var before := RunAll(files, unwritable, jobs[..|jobs| - 1]);
      var last := ThreadEffect(before.files, unwritable, jobs[|jobs| - 1]);
      ThreadResult(last.files, before.log + last.log)
  }

  /** Running n jobs writes exactly n log lines, one per job. */
  lemma {:induction false} RunAllLogsOnePerJob(files: map<string, seq<byte>>, unwritable: set<string>, jobs: seq<Job>)
    ensures |RunAll(files, unwritable, jobs).log| == |jobs|
    decreases |jobs|
  {
    if jobs != [] {
      RunAllLogsOnePerJob(files, unwritable, jobs[..|jobs| - 1]);
      var before := RunAll(files, unwritable, jobs[..|jobs| - 1]);
      ThreadOutcome(before.files, unwritable, jobs[|jobs| - 1]);
    }
  }
}

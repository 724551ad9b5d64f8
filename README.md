# File converter core in Dafny

A model of the conversion core of a small GTK file converter written in C, with proofs about it.
The model covers two programs.

**Batch converter** (`file_converter_gtk.c`):
- `convertFilesBatch` lists an input directory twice. The first pass counts the regular files whose names contain ".txt", ".jpg" or ".png". The second pass starts one worker per such file, with input and output paths formatted into 100-byte buffers. The function then joins the workers and reports progress.
- `convertFileThread` is the worker. It copies the input through a 100-byte `fgets` buffer, or turns spaces into commas for the csv target, and logs one line.

**Drop converter** (`main.c`):
- `convert_file` dispatches on ".txt" or ".png" in the dropped file's name.
- `convert_txt_to_pdf` draws the text in 255-byte chunks down A4 pages.
- `convert_png_to_jpg` repacks decoded RGBA rows into RGB scanlines for the JPEG compressor.

Modules, one per file:
- `CLib` (`clib.dfy`): the C library behaviour the converters rely on. This covers `strstr`, `snprintf` truncation, `fgets` chunking, `%s` stopping at the first NUL byte, and an `fgets` method over a byte array.
- `ConvertThread` (`convert_thread.dfy`): the worker's read loops as methods over their buffers. It also has a `FileSystem` class whose file map the workers update, and the worker's effect as a function.
- `ConvertBatch` (`convert_batch.dfy`): entry selection, path building, worker creation, progress, and the whole batch with its workers. The batch is a sequence of events (log-file lines, the workers' included, on-screen log lines, dialogs, progress updates) together with the files it leaves. Methods follow the two passes, the workers and the join loop.
- `TxtToPdf` (`txt_to_pdf.dfy`): a `PdfDocument` class the converter drives page by page, the closed-form layout of the chunks, and the cursor loop.
- `PngToJpg` (`png_to_jpg.dfy`): the row repack as a for-loop method, and a `Compressor` class driven by `next_scanline`. The error branches are modelled as a `PngRead` outcome: no open, no init, read error, or decoded image.
- `DropConvert` (`drop_convert.dfy`): the `convert_file` if-chain and its log.

Outside inputs are parameters:
- the directory listing before and after `rewinddir` (None when `opendir` fails);
- one `pthread_create` outcome per creation attempt;
- the files present and the paths that cannot be opened for writing;
- whether `HPDF_New` succeeds;
- the outcome of decoding the PNG;
- whether the JPG file opens.

The workers run one after another, each to completion, in job order, after the creation pass and before the first join.

## Model

| member | source | states |
|---|---|---|
| CLib.ContainsIffOccurs | file_converter_gtk.c:59 | The `strstr` test succeeds exactly when the needle occurs at some position of the name. |
| CLib.OccursShift | file_converter_gtk.c:59 | Past the first position, the needle occurs in the name wherever it occurs in the name without its first character, one position on. |
| CLib.Snprintf | file_converter_gtk.c:81-82 | The buffer holds a prefix of the formatted text of length min(len, size-1). It is the whole text exactly when the text is shorter than the buffer. |
| CLib.CutAtNul | file_converter_gtk.c:135 | `%s` prints a NUL-free prefix of the buffer. The prefix is followed by a NUL, and is the whole buffer exactly when the buffer has no NUL. |
| CLib.LineLength | file_converter_gtk.c:134 | One `fgets` takes at most size-1 bytes, and at least one when the stream is not empty. It takes no newline except possibly the last byte, and it stops at the limit, at end of file or after a newline. |
| CLib.ChunksPartition | file_converter_gtk.c:134 | The `fgets` chunks concatenate back to the stream. Each chunk holds 1 to size-1 bytes. |
| CLib.PrintedChunksIff | file_converter_gtk.c:134-136 | Re-emitting the chunks with `%s` reproduces the stream exactly when the stream holds no NUL byte. |
| CLib.PrintedNulFree | file_converter_gtk.c:135 | Output written with `%s` never contains a NUL byte. |
| CLib.Fgets | file_converter_gtk.c:134 | The method reports a line exactly when the stream is not empty. It copies the next chunk into the buffer, terminates it with a NUL, leaves the rest of the buffer alone, and leaves the buffer unchanged at end of file. |
| CLib.CopyLine | file_converter_gtk.c:134 | The copying part of `fgets` stores exactly the next chunk's bytes at the start of the buffer and touches nothing after them. |
| CLib.FgetsChunk | file_converter_gtk.c:134-136 | After one successful `fgets`, the buffer reads as the stream's next chunk. Printing it and then the remaining chunks prints all of the stream's chunks. |
| ConvertThread.CsvIsCommasOfCopy | file_converter_gtk.c:137-145 | The csv output is the copy output with every space turned into a comma. |
| ConvertThread.CopyFaithful | file_converter_gtk.c:132-155 | For the txt, jpg and png targets, the output equals the input exactly when the input holds no NUL byte. |
| ConvertThread.CsvCharwise | file_converter_gtk.c:137-145 | For NUL-free input, the csv output has the input's length. Every 0x20 byte becomes ',' and every other byte is unchanged. |
| ConvertThread.CsvIdempotent | file_converter_gtk.c:137-145 | Converting the csv output to csv again changes nothing. |
| ConvertThread.CopyLines | file_converter_gtk.c:134-136 | The fgets/fprintf loop over a 100-byte buffer writes exactly the printed chunks of the input. |
| ConvertThread.SpacesToCommas | file_converter_gtk.c:140-143 | Up to the buffer's first NUL, every space becomes a comma and other bytes stay. Bytes from the NUL on are unchanged. |
| ConvertThread.CommaPassRead | file_converter_gtk.c:139-144 | After the comma pass, the C string in the buffer is the chunk `fgets` stored, with its spaces turned into commas. |
| ConvertThread.CsvChunk | file_converter_gtk.c:139-145 | One round of the csv loop writes exactly the csv output's share for the next chunk. The rest of the output comes from the remaining chunks. |
| ConvertThread.CsvRound | file_converter_gtk.c:139-144 | One round of the csv loop reports a chunk exactly when bytes remain. It consumes 1 to |rest| bytes, and writes exactly the csv output's share for that chunk, with the remaining chunks giving the rest. |
| ConvertThread.CsvLines | file_converter_gtk.c:139-145 | The csv read loop writes exactly the spaces-to-commas image of the printed chunks. |
| ConvertThread.ThreadOutcome | file_converter_gtk.c:117-167 | A worker logs exactly one line. It logs completion exactly when the input opens, the output opens and the format is txt, csv, jpg or png. If the paths differ, only the output file changes, and it then holds the converted input. |
| ConvertThread.InputMissing | file_converter_gtk.c:117-122 | If the input does not open, no file is created or changed, and only the input error is logged. |
| ConvertThread.UnsupportedLeavesEmpty | file_converter_gtk.c:124-161 | For an unsupported format, the output file that was opened for writing is left empty, and the unsupported-format error is logged. |
| ConvertThread.SelfOverwriteEmpties | file_converter_gtk.c:117-136 | When the input and output paths coincide, the file ends up empty, because opening the output truncates it before the input is read. |
| ConvertThread.FileSystem.ConvertFileThread | file_converter_gtk.c:110-169 | The worker's new file map and log line are those of the worker effect function. |
| ConvertThread.FileSystem.RunJobs | file_converter_gtk.c:84-100 | Running the started workers in job order yields the fold of the worker effect over the jobs. |
| ConvertThread.RunAllLogsOnePerJob | file_converter_gtk.c:110-169 | n workers write exactly n log lines. |
| ConvertBatch.MatchesIff | file_converter_gtk.c:57-63 | An entry becomes a candidate exactly when it is a regular file whose name contains ".txt", ".jpg" or ".png". |
| ConvertBatch.SelectionExamples | file_converter_gtk.c:58-59 | "a.txt.bak", "b.png" and "c.jpg" are selected. "notes.md" and a non-regular "a.txt" are not. |
| ConvertBatch.OutputPathExample | file_converter_gtk.c:81-82 | "a.txt" in "out" becomes "out/a.txt.csv", keeping the original extension. |
| ConvertBatch.TruncatedPathsCollide | file_converter_gtk.c:81-82 | When dir/name fills 99 characters, the truncated input and output paths are the same string. |
| ConvertBatch.Attempts | file_converter_gtk.c:78-83 | There is one job per selected entry of the second listing, in listing order. Each job has the truncated input and output paths and the format. |
| ConvertBatch.SpawnedCount | file_converter_gtk.c:84-92 | The number of started workers equals the number of successful creations, and is at most the number of attempts. Every attempt becomes a worker exactly when every creation succeeds. |
| ConvertBatch.ProgressShape | file_converter_gtk.c:99-102 | Progress after the i-th join is (i+1)/fileCount. It strictly increases and ends at threadCount/fileCount. It reaches 1 exactly when threadCount reaches fileCount. |
| ConvertBatch.DirectoryErrorRun | file_converter_gtk.c:48-54 | If the directory does not open, exactly one log-file line is written, nothing goes to the on-screen log, no job is created and no file changes. |
| ConvertBatch.NoMatchesRun | file_converter_gtk.c:66-70 | If no entry matches, nothing is logged, no job is created and no file changes. |
| ConvertBatch.UnchangedListingRun | file_converter_gtk.c:44-102 | With an unchanged listing, threadCount <= fileCount <= 100. threadCount equals fileCount, and progress reaches 1, exactly when every creation succeeds. |
| ConvertBatch.CountFiles | file_converter_gtk.c:57-63 | The first pass counts exactly the selected entries. |
| ConvertBatch.CreateStep | file_converter_gtk.c:78-92 | One listing entry adds a job exactly when it is selected and its creation succeeds. A failed creation adds one log-file line and one dialog. An unselected entry changes nothing. |
| ConvertBatch.CreateWorkers | file_converter_gtk.c:78-95 | The second pass fills the argument array with exactly the attempts whose creation succeeded, in order. It emits a log line and a dialog for each failure. |
| ConvertBatch.JoinWorkers | file_converter_gtk.c:99-102 | The join loop emits the progress sequence. |
| ConvertBatch.FailureLines | file_converter_gtk.c:84-89 | Each failed creation writes one "Failed to create thread" line to the log file and nothing to the on-screen log. k failures write k such lines. |
| ConvertBatch.WorkerLines | file_converter_gtk.c:120-167 | The workers' lines reach the log file unchanged, in job order, and nothing from them reaches the on-screen log. |
| ConvertBatch.ProgressLines | file_converter_gtk.c:99-102 | Progress updates write no line to either log. |
| ConvertBatch.StartedPiecesLog | file_converter_gtk.c:75-105 | The log-file lines of a run that found files are the start line, one line per failed creation, the workers' lines and the completion line, in that order. |
| ConvertBatch.StartedLog | file_converter_gtk.c:75-105 | The same log-file lines, read off a batch run that found files, for any jobs and worker lines. |
| ConvertBatch.StartedScreen | file_converter_gtk.c:73-104 | The on-screen log of a run that found files is the start message followed by the completion line. |
| ConvertBatch.BatchLog | file_converter_gtk.c:73-106 | A batch that finds files writes "Starting batch conversion.", one line per failed creation, exactly one line per started worker (in job order), and "Batch conversion completed." The started and failed creations add up to the attempts. The on-screen log is the start message and the completion line. The files afterwards are those the workers leave. |
| ConvertBatch.ConvertFilesBatch | file_converter_gtk.c:40-107 | The batch, with its workers run between the creation pass and the joins, has the file count, started jobs, events (the workers' log lines included) and final file map of the batch function. The file system ends with that file map. |
| TxtToPdf.EarlierPageKept | main.c:40-48 | Drawing one more chunk leaves every page before the last one as it was. |
| TxtToPdf.LastPageGrows | main.c:40-48 | The last page holds n mod 51 draws, and one more chunk is appended to it at y = 800 - 15 * (n mod 51). |
| TxtToPdf.LayoutStep | main.c:40-48 | Drawing one more chunk appends it to the last page at row n mod 51. A new empty page opens exactly when that page becomes full. |
| TxtToPdf.NextLayoutText | main.c:42 | One draw adds its text at the end of the document's text. |
| TxtToPdf.LayoutText | main.c:40-42 | Read page by page, the document's text is what the chunks print as C strings. |
| TxtToPdf.FileDrawnInFull | main.c:39-42 | For a NUL-free file, the drawn text equals the file contents. Every chunk holds 1 to 255 bytes. |
| TxtToPdf.LayoutGeometry | main.c:34-48 | Every draw is at x = 50 with 50 <= y <= 800, and consecutive draws on a page are 15 apart. A page holds at most 51 chunks. n chunks make 1 + n div 51 pages, the last one empty when n is a positive multiple of 51. Chunk i is on page i div 51. Only the first page gets A4 portrait and Helvetica 12. |
| TxtToPdf.CursorRow | main.c:38-48 | The float cursor, stepped by 15 and reset below 50, is always 800 - 15 * (k mod 51). |
| TxtToPdf.DrawnStep | main.c:42-48 | One more chunk is drawn on the current page at the cursor. The cursor then moves down 15, or a new page is added and the cursor returns to 800 when it would drop below 50. |
| TxtToPdf.DrawnNext | main.c:44-47 | While the current page holds k mod 51 draws, the loop's "below 50" test opens a new page exactly when the page reaches 51 draws. |
| TxtToPdf.DrawnIsLayout | main.c:38-48 | Drawing chunk by chunk with the cursor produces exactly the closed-form layout of the chunks. |
| TxtToPdf.PdfDocument.DrawLine | main.c:41-48 | One `HPDF_Page_TextOut` at (50, y) on the current page, then the cursor step. Below 50, a fresh page is added and y becomes 800. |
| TxtToPdf.ChunkRead | main.c:39-40 | A successful `fgets` into the 256-byte line delivers the next chunk, and its C string is that chunk's. The unread bytes make up the chunks after it. |
| TxtToPdf.DrawNextLine | main.c:40-48 | One round of the loop: it reports a line exactly when bytes remain. It then draws the next chunk and moves the cursor as the cursor-driven document prescribes. At end of file it changes nothing. |
| TxtToPdf.DrawText | main.c:34-50 | The page set-up and the fgets/cursor loop produce exactly the cursor-driven document of the file's chunks. |
| TxtToPdf.ConvertTxtToPdf | main.c:20-55 | A file that does not open logs only "Failed to open TXT file." and saves nothing. A failed `HPDF_New` logs only "Failed to create PDF." Otherwise the closed-form layout is saved and "TXT to PDF conversion done." is logged. |
| PngToJpg.Repack | main.c:125-130 | Each output row has exactly 3 * width bytes. |
| PngToJpg.RepackPixel | main.c:126-130 | out[3x+c] = in[4x+c] for c in 0, 1, 2. |
| PngToJpg.RepackBytes | main.c:126-130 | out[3x+c] = in[4x+c] holds for every pixel and channel of the row. |
| PngToJpg.AlphaIgnored | main.c:127-129 | Byte 4x+3 is never read: rows that agree on the colour bytes repack alike. |
| PngToJpg.RepackRow | main.c:125-130 | The inner loop over a fresh 3 * width array yields the repacked row. |
| PngToJpg.Compress | main.c:117-135 | The `next_scanline` loop feeds the compressor the repacked rows once each, in scanline order, with the image's width and height, 3 components, RGB. |
| PngToJpg.EncodedShape | main.c:82-133 | The JPEG's width and height are the PNG's, with 3 components in RGB. Scanline y is row y with bytes 4x+3 dropped. |
| PngToJpg.ConversionOutcome | main.c:57-143 | Every path logs exactly one line. "PNG to JPG conversion done." is logged exactly when a JPEG is written, which happens exactly when the PNG decodes and the JPG file opens. If the JPG does not open, only "Failed to open JPG file." is logged. |
| PngToJpg.ConvertPngToJpg | main.c:57-143 | The converter's output and log follow its five branches, in the source's order. |
| DropConvert.DetectIff | main.c:149-157 | A name goes to PDF exactly when ".txt" occurs in it. It goes to JPEG exactly when ".png" occurs and ".txt" does not. Otherwise it is unsupported. |
| DropConvert.BothExtensionsGoToPdf | main.c:149-152 | Names containing both ".txt" and ".png" go to PDF, in either order. |
| DropConvert.PngNameGoesToJpeg | main.c:152-154 | "b.png" goes to the JPEG converter. |
| DropConvert.OtherNameUnsupported | main.c:155-157 | "c.jpg" is unsupported. |
| DropConvert.LogFraming | main.c:147-160 | The log starts with "Starting conversion..." and ends with "Conversion complete.", even after a failure. The detection line is second, and the converter's one line comes in between. An unsupported file logs exactly three lines. |
| DropConvert.OutputFiles | main.c:149-154 | A PDF appears exactly for a text file that opens with `HPDF_New` succeeding, and it is named "converted_output.pdf" and holds its layout. A JPEG appears exactly for a decoded PNG whose output opens, and it is named "converted_output.jpg". Nothing else writes a file. |
| DropConvert.ConvertFile | main.c:145-163 | The if-chain's output and log are those of the conversion function. |

## Left out

- The GTK user interface is not modelled: windows, buttons, the drop callback, `showMessage`, `updateLog`, and both `main` functions. It is widget wiring; the dialogs and on-screen log lines of a batch appear as events.
- Concurrency is not modelled: thread creation, joining, detached `convert_file` threads, and the unsynchronised shared log. Creation outcomes are inputs, and workers run sequentially in job order. Their log lines therefore come after the last creation failure line and before the first progress update. In the source a worker's line can land among the failure lines, or after a progress update of an earlier worker, and workers' lines can come in any order.
- The internals of libpng, libjpeg and libharu are not modelled: decoding, the transforms at main.c:87-92, `setjmp` recovery, JPEG encoding, and PDF serialisation. The PNG read outcome is an input. The JPEG is the set-up plus the scanlines the compressor receives, and the PDF is the recorded page and draw calls. Pages after the first get no font, so libharu rejects the `HPDF_Page_TextOut` calls on them with a font-not-found error. The model still records those draws, and TxtToPdf.FileDrawnInFull reads them as drawn text. The text libharu actually writes is only that of the first page.
- `HPDF_Page_BeginText`/`HPDF_Page_EndText` are not modelled; they only bracket each draw. `HPDF_SaveToFile` failures are not modelled, because the source ignores its result.
- PngToJpg.ConvertPngToJpg: requires every decoded row to hold 4 * width bytes. libpng's filler transform gives grayscale input two bytes per pixel, because the code does not expand gray to RGB, and the repack would read past such rows. This precondition excludes that case.
- ConvertBatch.ConvertFilesBatch: requires at most 100 selected entries (the `args` array) and a format shorter than 10 characters (the `strcpy` target). Overflowing either buffer is undefined behaviour and is not modelled.
- The percentage text of the progress bar (`"%.0f%%"`) and `gtk_progress_bar_pulse` are not modelled; they are floating-point display only.
- `viewLogs` and the file mechanics of `writeLog` are not modelled; only the sequence of log lines is.
- Console output (`printf`, `perror`, `fprintf(stderr, ...)`) is not modelled.
- `malloc`/`free` and the leaks on early returns are not modelled.
- Read errors in `fgets` are not modelled: a stream ends only at end of file.
- The `int` product `width * 3` is not modelled; widths are unbounded naturals, so its overflow is not captured.
- File systems are reduced to what a conversion observes. For a batch worker, a `fopen` failure means the input path is absent or the output path is in the unwritable set. In `convert_file`, the text contents and the PNG outcome are given directly.
- Paths and names are `seq<char>` with one character per C byte.

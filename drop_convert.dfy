/**
 * `convert_file` in main.c: the worker started for each file dropped on
 * the window. It picks a converter by searching the file name for ".txt"
 * and then ".png", writes to a fixed output name, and frames the
 * converter's own log lines with a start and an end line. The outside
 * world is given as what opening and reading the dropped file yields.
 */
module DropConvert {
  import opened CLib
  import TxtToPdf
  import PngToJpg

  const PDF_OUTPUT := "converted_output.pdf"
  const JPG_OUTPUT := "converted_output.jpg"

  const STARTING := "Starting conversion..."
  const TEXT_DETECTED := "Text file detected."
  const PNG_DETECTED := "PNG file detected."
  const UNSUPPORTED := "Unsupported format."
  const COMPLETE := "Conversion complete."

  datatype Kind = TextFile | PngFile | Unsupported

  /** The `strstr` if-chain: ".txt" is tested first. */
  function Detect(filename: string): Kind
  {
    if Contains(filename, ".txt") then TextFile
    else if Contains(filename, ".png") then PngFile
    else Unsupported
  }

  /**
   * What one conversion finds: the text file's contents (None when it
   * does not open), whether `HPDF_New` succeeds, the outcome of opening
   * and decoding the PNG file, and whether the JPG file opens.
   */
  datatype Environment = Environment(txt: Option<seq<byte>>, hpdfOk: bool, png: PngToJpg.PngRead, jpgOpens: bool)

  /** The repack needs well-formed rows only when it runs. */
  predicate Ready(filename: string, env: Environment)
  {
    Detect(filename) == PngFile && env.png.Decoded? && env.jpgOpens ==> PngToJpg.WellFormed(env.png.image)
  }

  /** The file a conversion leaves behind. */
  datatype Output = NoOutput | PdfFile(path: string, pages: seq<TxtToPdf.Page>) | JpegFile(path: string, image: PngToJpg.Jpeg)

  datatype FileResult = FileResult(output: Output, log: seq<string>)

  function Conversion(filename: string, env: Environment): FileResult
    requires Ready(filename, env)
  {
    match Detect(filename)
    case TextFile =>
      var r := TxtToPdf.Conversion(env.txt, env.hpdfOk);
      FileResult(if r.saved.Some? then PdfFile(PDF_OUTPUT, r.saved.value) else NoOutput,
                 [STARTING, TEXT_DETECTED] + r.log + [COMPLETE])
    case PngFile =>
      var r := PngToJpg.Conversion(env.png, env.jpgOpens);
      FileResult(if r.written.Some? then JpegFile(JPG_OUTPUT, r.written.value) else NoOutput,
                 [STARTING, PNG_DETECTED] + r.log + [COMPLETE])
    case Unsupported =>
      FileResult(NoOutput, [STARTING, UNSUPPORTED, COMPLETE])
  }

  /** `convert_file`: the if-chain, appending to the log line by line. */
  method ConvertFile(filename: string, env: Environment) returns (output: Output, log: seq<string>)
    requires Ready(filename, env)
    ensures FileResult(output, log) == Conversion(filename, env)
  {
    log := [STARTING];
    output := NoOutput;
    if Contains(filename, ".txt") {
      log := log + [TEXT_DETECTED];
      var saved, lines := TxtToPdf.ConvertTxtToPdf(env.txt, env.hpdfOk);
      log := log + lines;
      if saved.Some? {
        output := PdfFile(PDF_OUTPUT, saved.value);
      }
    } else if Contains(filename, ".png") {
      log := log + [PNG_DETECTED];
      var written, lines := PngToJpg.ConvertPngToJpg(env.png, env.jpgOpens);
      log := log + lines;
      if written.Some? {
        output := JpegFile(JPG_OUTPUT, written.value);
      }
    } else {
      log := log + [UNSUPPORTED];
    }
    log := log + [COMPLETE];
  }

  /**
   * A name goes to the PDF converter exactly when ".txt" occurs in it, to
   * the JPEG converter exactly when ".png" occurs and ".txt" does not,
   * and is refused otherwise.
   */
  lemma DetectIff(filename: string)
    ensures Detect(filename) == TextFile <==> exists i :: OccursAt(filename, ".txt", i)
    ensures Detect(filename) == PngFile <==>
      (exists i :: OccursAt(filename, ".png", i)) && !(exists i :: OccursAt(filename, ".txt", i))
    ensures Detect(filename) == Unsupported <==>
      !(exists i :: OccursAt(filename, ".png", i)) && !(exists i :: OccursAt(filename, ".txt", i))
  {
    ContainsIffOccurs(filename, ".txt");
    ContainsIffOccurs(filename, ".png");
  }

  /** A name holding both extensions goes to PDF, wherever ".txt" occurs in it. */
  lemma BothExtensionsGoToPdf()
    ensures Detect("photo.png.txt") == TextFile
    ensures Detect("notes.txt.png") == TextFile
  {
    assert OccursAt("photo.png.txt", ".txt", 9);
    ContainsIffOccurs("photo.png.txt", ".txt");
    assert OccursAt("notes.txt.png", ".txt", 5);
    ContainsIffOccurs("notes.txt.png", ".txt");
  }

  /** A PNG name without ".txt" goes to the JPEG converter. */
  lemma PngNameGoesToJpeg()
    ensures Detect("b.png") == PngFile
  {
    assert "b.png"[1..] == ".png" && ".png"[1..] == "png";
    assert ".txt"[0] != "b.png"[0] && ".txt"[1] != ".png"[1];
    ShortHaystack("png", ".txt");
  }

  /** Any other name is refused. */
  lemma OtherNameUnsupported()
    ensures Detect("c.jpg") == Unsupported
  {
    assert "c.jpg"[1..] == ".jpg" && ".jpg"[1..] == "jpg";
    assert ".txt"[0] != "c.jpg"[0] && ".txt"[1] != ".jpg"[1];
    assert ".png"[0] != "c.jpg"[0] && ".png"[1] != ".jpg"[1];
    ShortHaystack("jpg", ".txt");
    ShortHaystack("jpg", ".png");
  }

  /**
   * Every call logs "Starting conversion..." first and "Conversion
   * complete." last, whatever the converter did, with the detection line
   * second and the converter's one line in between.
   */
  lemma LogFraming(filename: string, env: Environment)
    requires Ready(filename, env)
    ensures var log := Conversion(filename, env).log;
      && log[0] == STARTING && log[|log| - 1] == COMPLETE
      && (Detect(filename) == Unsupported ==> log == [STARTING, UNSUPPORTED, COMPLETE])
      && (Detect(filename) == TextFile ==> |log| == 4 && log[1] == TEXT_DETECTED)
      && (Detect(filename) == PngFile ==> |log| == 4 && log[1] == PNG_DETECTED)
  {
    if Detect(filename) == PngFile {
      PngToJpg.ConversionOutcome(env.png, env.jpgOpens);
    }
  }

  /**
   * The output names are fixed: a text file yields "converted_output.pdf"
   * holding its layout when it opens and the document is created, a PNG
   * yields "converted_output.jpg" when it decodes and the JPG opens, and
   * nothing else writes a file.
   */
  lemma OutputFiles(filename: string, env: Environment)
    requires Ready(filename, env)
    ensures var out := Conversion(filename, env).output;
      && (out.PdfFile? <==> Detect(filename) == TextFile && env.txt.Some? && env.hpdfOk)
      && (out.PdfFile? ==>
            out.path == PDF_OUTPUT && out.pages == TxtToPdf.Layout(Chunks(env.txt.value, TxtToPdf.LINE_SIZE)))
      && (out.JpegFile? <==> Detect(filename) == PngFile && env.png.Decoded? && env.jpgOpens)
      && (out.JpegFile? ==> out.path == JPG_OUTPUT && out.image == PngToJpg.Encoded(env.png.image))
  {
  }
}

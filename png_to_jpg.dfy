/**
 * `convert_png_to_jpg`: the rows libpng decodes (normalised to four bytes
 * per pixel, red, green, blue, alpha) are repacked one scanline at a time
 * into three-byte RGB rows and handed to the JPEG compressor. Decoding and
 * encoding are the libraries' business; the model takes the outcome of the
 * PNG read as an input and records the scanlines the compressor receives.
 */
module PngToJpg {
  import opened CLib

  const FAILED_OPEN_PNG := "Failed to open PNG file."
  const FAILED_INIT := "Failed to initialize libpng."
  const FAILED_READ := "Error during PNG read."
  const FAILED_OPEN_JPG := "Failed to open JPG file."
  const DONE := "PNG to JPG conversion done."

  /** The image after `png_read_image`: `height` rows of decoded bytes. */
  datatype PngImage = PngImage(width: nat, height: nat, rows: seq<seq<byte>>)

  /** What opening and reading the PNG file comes to. */
  datatype PngRead = CannotOpen | InitFailed | ReadFailed | Decoded(image: PngImage)

  /** The repack reads four bytes per pixel from every row. */
  predicate WellFormed(img: PngImage)
  {
    |img.rows| == img.height && forall y :: 0 <= y < img.height ==> |img.rows[y]| >= 4 * img.width
  }

  datatype ColorSpace = RGB

  /** A compressed image as the compressor was set up and fed. */
  datatype Jpeg = Jpeg(width: nat, height: nat, components: nat, colorSpace: ColorSpace, scanlines: seq<seq<byte>>)

  // ---------------------------------------------------------- the repack

  /** The first `width` pixels of a four-byte-per-pixel row, each without its fourth byte. */
  function Repack(src: seq<byte>, width: nat): (r: seq<byte>)
    requires 4 * width <= |src|
    ensures |r| == 3 * width
    decreases width
  {
    if width == 0 then [] else Repack(src, width - 1) + src[4 * (width - 1)..4 * (width - 1) + 3]
  }

  /** Byte c of pixel x in a row of four-byte pixels. */
  function InByte(src: seq<byte>, x: nat, c: nat): byte
    requires 4 * x + c < |src|
  {
    src[4 * x + c]
  }

  /** Byte c of pixel x in a row of three-byte pixels. */
  function OutByte(row: seq<byte>, x: nat, c: nat): byte
    requires 3 * x + c < |row|
  {
    row[3 * x + c]
  }

  /** Byte c of output pixel x is byte c of input pixel x. */
  lemma {:induction false} RepackPixel(src: seq<byte>, width: nat, x: nat, c: nat)
    requires 4 * width <= |src| && x < width && c < 3
    ensures OutByte(Repack(src, width), x, c) == InByte(src, x, c)
    decreases width
  {
    if x < width - 1 {
      RepackPixel(src, width - 1, x, c);
    }
  }

  /** The whole row, pixel by pixel. */
  lemma RepackBytes(src: seq<byte>, width: nat)
    requires 4 * width <= |src|
    ensures forall x: nat, c: nat :: x < width && c < 3 ==> OutByte(Repack(src, width), x, c) == InByte(src, x, c)
  {
    forall x: nat, c: nat | x < width && c < 3
      ensures OutByte(Repack(src, width), x, c) == InByte(src, x, c)
    {
      RepackPixel(src, width, x, c);
    }
  }

  /** The alpha byte 4x + 3 is never read: rows that differ only there repack alike. */
  lemma AlphaIgnored(src: seq<byte>, src': seq<byte>, width: nat)
    requires 4 * width <= |src| && 4 * width <= |src'|
    requires forall x: nat, c: nat :: x < width && c < 3 ==> InByte(src, x, c) == InByte(src', x, c)
    ensures Repack(src, width) == Repack(src', width)
  {
    var r, r' := Repack(src, width), Repack(src', width);
    forall i | 0 <= i < 3 * width
      ensures r[i] == r'[i]
    {
      var x, c := i / 3, i % 3;
      assert 3 * x + c == i && x < width;
      RepackPixel(src, width, x, c);
      RepackPixel(src', width, x, c);
      assert InByte(src, x, c) == InByte(src', x, c);
      assert OutByte(r, x, c) == r[i] && OutByte(r', x, c) == r'[i];
    }
  }

  /**
   * The inner loop over the pixels of a row: fills a fresh row of three
   * bytes per pixel from a decoded row of four bytes per pixel.
   */
  method RepackRow(src: seq<byte>, width: nat) returns (row: seq<byte>)
    requires 4 * width <= |src|
    ensures row == Repack(src, width)
  {
    var out := new byte[3 * width];
    for x := 0 to width
      invariant out[..3 * x] == Repack(src, x)
    {
      ghost var before := out[..3 * x];
      out[3 * x] := src[4 * x];
      out[3 * x + 1] := src[4 * x + 1];
      out[3 * x + 2] := src[4 * x + 2];
      assert out[..3 * x + 3] == before + src[4 * x..4 * x + 3];
    }
    assert out[..] == out[..3 * width];
    row := out[..];
  }

  // ------------------------------------------------------- the compressor

  /** The scanlines the compressor is fed for a decoded image, in order. */
  function Scanlines(img: PngImage): (lines: seq<seq<byte>>)
    requires WellFormed(img)
    ensures |lines| == img.height
  {
    seq(img.height, y requires 0 <= y < img.height => Repack(img.rows[y], img.width))
  }

  /** The compressed image: same dimensions, three RGB components, the repacked rows. */
  function Encoded(img: PngImage): Jpeg
    requires WellFormed(img)
  {
    Jpeg(img.width, img.height, 3, RGB, Scanlines(img))
  }

  /** The `jpeg_compress_struct`, as far as the converter drives it. */
  class Compressor {
    const width: nat
    const height: nat
    var nextScanline: nat
    var scanlines: seq<seq<byte>>

    /** `jpeg_create_compress` with the image size, then `jpeg_start_compress`. */
    constructor (width: nat, height: nat)
      ensures this.width == width && this.height == height
      ensures nextScanline == 0 && scanlines == []
    {
      this.width := width;
      this.height := height;
      nextScanline := 0;
      scanlines := [];
    }

    /** `jpeg_write_scanlines` with a single row: takes that row and advances the next-scanline counter. */
    method WriteScanline(row: seq<byte>)
      requires nextScanline < height
      modifies this
      ensures scanlines == old(scanlines) + [row]
      ensures nextScanline == old(nextScanline) + 1
    {
      scanlines := scanlines + [row];
      nextScanline := nextScanline + 1;
    }
  }

  /**
   * The compression loop, which writes one scanline per image row until the
   * next-scanline counter reaches the image height, and its set-up.
   */
  method Compress(img: PngImage) returns (jpeg: Jpeg)
    requires WellFormed(img)
    ensures jpeg == Encoded(img)
  {
    var cinfo := new Compressor(img.width, img.height);
    while cinfo.nextScanline < cinfo.height
      invariant cinfo.width == img.width && cinfo.height == img.height
      invariant cinfo.nextScanline <= cinfo.height
      invariant cinfo.scanlines == Scanlines(img)[..cinfo.nextScanline]
      decreases cinfo.height - cinfo.nextScanline
    {
      var row := RepackRow(img.rows[cinfo.nextScanline], img.width);
      assert Scanlines(img)[..cinfo.nextScanline + 1] == Scanlines(img)[..cinfo.nextScanline] + [row];
      cinfo.WriteScanline(row);
    }
    assert Scanlines(img)[..img.height] == Scanlines(img);
    jpeg := Jpeg(cinfo.width, cinfo.height, 3, RGB, cinfo.scanlines);
  }

  /**
   * The JPEG has the PNG's width and height, three RGB components, and
   * scanline y is row y of the PNG with its alpha bytes dropped: every
   * row is written once, in scanline order.
   */
  lemma EncodedShape(img: PngImage)
    requires WellFormed(img)
    ensures var jpeg := Encoded(img);
      && jpeg.width == img.width && jpeg.height == img.height
      && jpeg.components == 3 && jpeg.colorSpace == RGB
      && |jpeg.scanlines| == img.height
      && (forall y :: 0 <= y < img.height ==> |jpeg.scanlines[y]| == 3 * img.width)
      && forall y: nat, x: nat, c: nat :: y < img.height && x < img.width && c < 3 ==>
           OutByte(jpeg.scanlines[y], x, c) == InByte(img.rows[y], x, c)
  {
    forall y: nat | y < img.height
      ensures forall x: nat, c: nat :: x < img.width && c < 3 ==>
                OutByte(Encoded(img).scanlines[y], x, c) == InByte(img.rows[y], x, c)
    {
      RepackBytes(img.rows[y], img.width);
    }
  }

  // ------------------------------------------------------- the converter

  /** What the converter writes and logs; `jpgOpens` says whether the output file opens. */
  datatype JpgResult = JpgResult(written: Option<Jpeg>, log: seq<string>)

  function Conversion(read: PngRead, jpgOpens: bool): JpgResult
    requires read.Decoded? && jpgOpens ==> WellFormed(read.image)
  {
    match read
    case CannotOpen => JpgResult(None, [FAILED_OPEN_PNG])
    case InitFailed => JpgResult(None, [FAILED_INIT])
    case ReadFailed => JpgResult(None, [FAILED_READ])
    case Decoded(img) =>
      if !jpgOpens then JpgResult(None, [FAILED_OPEN_JPG])
      else JpgResult(Some(Encoded(img)), [DONE])
  }

  /**
   * Every path logs exactly one line, and "PNG to JPG conversion done."
   * is logged exactly when a JPEG is written, which is exactly when the
   * PNG decodes and the JPG file opens.
   */
  lemma ConversionOutcome(read: PngRead, jpgOpens: bool)
    requires read.Decoded? && jpgOpens ==> WellFormed(read.image)
    ensures var r := Conversion(read, jpgOpens);
      && |r.log| == 1
      && (r.log == [DONE] <==> r.written.Some?)
      && (r.written.Some? <==> read.Decoded? && jpgOpens)
      && (read.Decoded? && !jpgOpens ==> r.log == [FAILED_OPEN_JPG])
  {
  }

  /** `convert_png_to_jpg`, with the PNG read outcome and the output file's opening as inputs. */
  method ConvertPngToJpg(read: PngRead, jpgOpens: bool) returns (written: Option<Jpeg>, log: seq<string>)
    requires read.Decoded? && jpgOpens ==> WellFormed(read.image)
    ensures JpgResult(written, log) == Conversion(read, jpgOpens)
  {
    match read {
      case CannotOpen =>
        return None, [FAILED_OPEN_PNG];
      case InitFailed =>
        return None, [FAILED_INIT];
      case ReadFailed =>
        return None, [FAILED_READ];
      case Decoded(img) =>
        if !jpgOpens {
          return None, [FAILED_OPEN_JPG];
        }
        var jpeg := Compress(img);
        written, log := Some(jpeg), [DONE];
    }
  }
}

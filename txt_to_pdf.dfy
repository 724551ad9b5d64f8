/**
 * `convert_txt_to_pdf`: reads the text file through a 256-byte `fgets`
 * buffer and draws each chunk at x = 50 with a cursor that starts at
 * y = 800 and steps down by 15, opening a new page when the cursor drops
 * below 50. The PDF library is modelled by the calls the converter makes:
 * a document is a sequence of pages, a page records its size, its font
 * and the text drawn on it. The cursor is a C `float`, but all its values
 * are whole numbers, so it is an `int` here.
 */
module TxtToPdf {
  import opened CLib

  /** `char line[256]` */
  const LINE_SIZE: nat := 256
  const LEFT := 50
  const TOP := 800
  const STEP := 15
  const BOTTOM := 50
  /** The cursor positions TOP, TOP - STEP, ..., BOTTOM: 51 chunks fit on a page. */
  const LINES_PER_PAGE: nat := 51

  const FAILED_OPEN := "Failed to open TXT file."
  const FAILED_CREATE := "Failed to create PDF."
  const DONE := "TXT to PDF conversion done."

  datatype PageSize = A4Portrait
  datatype Font = Font(name: string, size: int)
  const HELVETICA_12 := Font("Helvetica", 12)

  /** One `HPDF_Page_TextOut` call at x and y; the text is the C string in the buffer. */
  datatype Draw = Draw(x: int, y: int, text: seq<byte>)
  /** A page: the size and font set on it (None: never set), and the text drawn on it, in order. */
  datatype Page = Page(size: Option<PageSize>, font: Option<Font>, draws: seq<Draw>)

  const BLANK := Page(None, None, [])

  /** The page a PDF document object keeps, changed by the library calls the converter makes. */
  class PdfDocument {
    var pages: seq<Page>

    /** `HPDF_New` */
    constructor ()
      ensures pages == []
    {
      pages := [];
    }

    /** `HPDF_AddPage`: appends a page with no size or font set and returns its handle. */
    method AddPage() returns (page: nat)
      modifies this
      ensures page == |old(pages)| && pages == old(pages) + [BLANK]
    {
      page := |pages|;
      pages := pages + [BLANK];
    }

    /** `HPDF_Page_SetSize` */
    method SetSize(page: nat, size: PageSize)
      requires page < |pages|
      modifies this
      ensures pages == old(pages)[page := old(pages)[page].(size := Some(size))]
    {
      pages := pages[page := pages[page].(size := Some(size))];
    }

    /** `HPDF_Page_SetFontAndSize` */
    method SetFontAndSize(page: nat, font: Font)
      requires page < |pages|
      modifies this
      ensures pages == old(pages)[page := old(pages)[page].(font := Some(font))]
    {
      pages := pages[page := pages[page].(font := Some(font))];
    }

    /** `HPDF_Page_TextOut` between `HPDF_Page_BeginText` and `HPDF_Page_EndText` */
    method TextOut(page: nat, x: int, y: int, text: seq<byte>)
      requires page < |pages|
      modifies this
      ensures pages == old(pages)[page := old(pages)[page].(draws := old(pages)[page].draws + [Draw(x, y, text)])]
    {
      pages := pages[page := pages[page].(draws := pages[page].draws + [Draw(x, y, text)])];
    }

    /**
     * The body of the converter's read loop: `HPDF_Page_TextOut` at the
     * cursor, the cursor stepped down, and a fresh page with the cursor
     * back at the top when it drops below the bottom margin.
     */
    method DrawLine(page: nat, y: int, text: seq<byte>) returns (page': nat, y': int)
      requires page == |pages| - 1
      modifies this
      ensures var drawn := old(pages)[page := old(pages)[page].(draws := old(pages)[page].draws + [Draw(LEFT, y, text)])];
        && (y - STEP < BOTTOM ==> pages == drawn + [BLANK] && y' == TOP)
        && (y - STEP >= BOTTOM ==> pages == drawn && y' == y - STEP)
        && page' == |pages| - 1
    {
      TextOut(page, LEFT, y, text);
      page', y' := page, y - STEP;
      if y' < BOTTOM {
        page' := AddPage();
        y' := TOP;
      }
    }
  }

  // -------------------------------------------------------- the layout

  /** Page p of the layout of the chunks: the chunks 51p to 51p + 50, drawn from the top down. */
  function PageOf(chunks: seq<seq<byte>>, p: nat): Page
    requires p <= |chunks| / LINES_PER_PAGE
  {
    var count := Min(LINES_PER_PAGE, |chunks| - LINES_PER_PAGE * p);
    Page(if p == 0 then Some(A4Portrait) else None,
         if p == 0 then Some(HELVETICA_12) else None,
         seq(count, j requires 0 <= j < count => Draw(LEFT, TOP - STEP * j, CutAtNul(chunks[LINES_PER_PAGE * p + j]))))
  }

  /** The pages a document holds after the given chunks have been drawn. */
  function Layout(chunks: seq<seq<byte>>): seq<Page>
  {
    seq(|chunks| / LINES_PER_PAGE + 1, p requires 0 <= p < |chunks| / LINES_PER_PAGE + 1 => PageOf(chunks, p))
  }

  /** The document after one more draw on its last page, with a new page when that one is full. */
  function NextLayout(pages: seq<Page>, d: Draw): seq<Page>
    requires pages != []
  {
    var last := |pages| - 1;
    var drawn := pages[last := pages[last].(draws := pages[last].draws + [d])];
    if |drawn[last].draws| == LINES_PER_PAGE then drawn + [BLANK] else drawn
  }

  /** One more chunk leaves the pages before the last one as they were. */
  lemma EarlierPageKept(cs: seq<seq<byte>>, c: seq<byte>, p: nat)
    requires p < |cs| / LINES_PER_PAGE
    ensures p <= (|cs| + 1) / LINES_PER_PAGE && PageOf(cs + [c], p) == PageOf(cs, p)
  {
    var cs' := cs + [c];
    assert PageOf(cs', p).draws == PageOf(cs, p).draws;
  }

  /** One more chunk is appended to the last page, at row |cs| mod 51. */
  lemma LastPageGrows(cs: seq<seq<byte>>, c: seq<byte>)
    ensures var P := |cs| / LINES_PER_PAGE;
      && P <= (|cs| + 1) / LINES_PER_PAGE
      && |PageOf(cs, P).draws| == |cs| % LINES_PER_PAGE
      && PageOf(cs + [c], P) == PageOf(cs, P).(draws := PageOf(cs, P).draws
           + [Draw(LEFT, TOP - STEP * (|cs| % LINES_PER_PAGE), CutAtNul(c))])
  {
    var P := |cs| / LINES_PER_PAGE;
    var j := |cs| % LINES_PER_PAGE;
    assert |cs| == LINES_PER_PAGE * P + j;
    var cs' := cs + [c];
    assert PageOf(cs', P).draws == PageOf(cs, P).draws + [Draw(LEFT, TOP - STEP * j, CutAtNul(c))];
  }

  /** Drawing one more chunk: it goes to the last page at the cursor row |chunks| mod 51. */
  lemma LayoutStep(cs: seq<seq<byte>>, c: seq<byte>)
    ensures |Layout(cs)[|Layout(cs)| - 1].draws| == |cs| % LINES_PER_PAGE
    ensures Layout(cs + [c]) == NextLayout(Layout(cs), Draw(LEFT, TOP - STEP * (|cs| % LINES_PER_PAGE), CutAtNul(c)))
  {
    var P := |cs| / LINES_PER_PAGE;
    var j := |cs| % LINES_PER_PAGE;
    var before := Layout(cs);
    var after := Layout(cs + [c]);
    var expected := NextLayout(before, Draw(LEFT, TOP - STEP * j, CutAtNul(c)));
    LastPageGrows(cs, c);
    forall p | 0 <= p < P
      ensures after[p] == before[p]
    {
      EarlierPageKept(cs, c, p);
    }
    if j == LINES_PER_PAGE - 1 {
      assert |after| == P + 2 && after[P + 1] == BLANK;
    } else {
      assert |after| == P + 1;
    }
    assert after == expected;
  }

  /**
   * The cursor before the k-th chunk is drawn, as the loop moves it:
   * down by 15 after each chunk, back to the top when it drops below 50.
   */
  function Cursor(k: nat): int
  {
    if k == 0 then TOP
    else if Cursor(k - 1) - STEP < BOTTOM then TOP
    else Cursor(k - 1) - STEP
  }

  /** The cursor is on row k mod 51 of its page. */
  lemma {:induction false} CursorRow(k: nat)
    ensures Cursor(k) == TOP - STEP * (k % LINES_PER_PAGE)
  {
    if k > 0 {
      CursorRow(k - 1);
      var j := (k - 1) % LINES_PER_PAGE;
      assert k - 1 == LINES_PER_PAGE * ((k - 1) / LINES_PER_PAGE) + j;
      if j == LINES_PER_PAGE - 1 {
        assert k % LINES_PER_PAGE == 0;
      } else {
        assert k % LINES_PER_PAGE == j + 1;
      }
    }
  }

  const FIRST_PAGE := Page(Some(A4Portrait), Some(HELVETICA_12), [])

  /**
   * The document as the loop builds it: each chunk drawn on the current
   * page at the cursor, and a new page added when the stepped cursor
   * drops below the bottom margin.
   */
  function Drawn(chunks: seq<seq<byte>>): (pages: seq<Page>)
    ensures pages != []
    decreases |chunks|
  {
    if chunks == [] then [FIRST_PAGE]
    else
      var k := |chunks| - 1;
      var before := Drawn(chunks[..k]);
      var last := |before| - 1;
      var drawn := before[last := before[last].(draws := before[last].draws + [Draw(LEFT, Cursor(k), CutAtNul(chunks[k]))])];
      if Cursor(k) - STEP < BOTTOM then drawn + [BLANK] else drawn
  }

  /** One more chunk, in the shape the loop body produces it. */
  lemma DrawnStep(chunks: seq<seq<byte>>, k: nat)
    requires k < |chunks|
    ensures var before := Drawn(chunks[..k]);
      var last := |before| - 1;
      var drawn := before[last := before[last].(draws := before[last].draws + [Draw(LEFT, Cursor(k), CutAtNul(chunks[k]))])];
      && (Cursor(k) - STEP < BOTTOM ==> Drawn(chunks[..k + 1]) == drawn + [BLANK] && Cursor(k + 1) == TOP)
      && (Cursor(k) - STEP >= BOTTOM ==> Drawn(chunks[..k + 1]) == drawn && Cursor(k + 1) == Cursor(k) - STEP)
  {
    assert chunks[..k + 1][..k] == chunks[..k];
  }

  /**
   * While the last page holds k mod 51 draws, the cursor's new-page test
   * and the 51-draws-per-page test of the layout agree.
   */
  lemma DrawnNext(chunks: seq<seq<byte>>)
    requires chunks != []
    requires var before := Drawn(chunks[..|chunks| - 1]);
      |before[|before| - 1].draws| == (|chunks| - 1) % LINES_PER_PAGE
    ensures var k := |chunks| - 1;
      Drawn(chunks) == NextLayout(Drawn(chunks[..k]), Draw(LEFT, TOP - STEP * (k % LINES_PER_PAGE), CutAtNul(chunks[k])))
  {
    var k := |chunks| - 1;
    CursorRow(k);
    assert Cursor(k) - STEP < BOTTOM <==> k % LINES_PER_PAGE == LINES_PER_PAGE - 1;
  }

  /** Drawing chunk by chunk with the cursor produces the closed-form page layout. */
  lemma {:induction false} DrawnIsLayout(chunks: seq<seq<byte>>)
    ensures Drawn(chunks) == Layout(chunks)
    decreases |chunks|
  {
    if chunks == [] {
      assert PageOf([], 0) == FIRST_PAGE;
      assert Layout([]) == [FIRST_PAGE];
    } else {
      var k := |chunks| - 1;
      var init := chunks[..k];
      assert chunks == init + [chunks[k]];
      DrawnIsLayout(init);
      LayoutStep(init, chunks[k]);
      DrawnNext(chunks);
    }
  }

  /** The text of a page's draws, in drawing order. */
  function DrawsText(ds: seq<Draw>): seq<byte>
    decreases |ds|
  {
    if ds == [] then [] else DrawsText(ds[..|ds| - 1]) + ds[|ds| - 1].text
  }

  /** The text of a document, page by page. */
  function PagesText(pages: seq<Page>): seq<byte>
    decreases |pages|
  {
    if pages == [] then [] else PagesText(pages[..|pages| - 1]) + DrawsText(pages[|pages| - 1].draws)
  }

  lemma DrawsTextAppend(ds: seq<Draw>, d: Draw)
    ensures DrawsText(ds + [d]) == DrawsText(ds) + d.text
  {
    assert (ds + [d])[..|ds|] == ds;
  }

  lemma PagesTextAppend(pages: seq<Page>, p: Page)
    ensures PagesText(pages + [p]) == PagesText(pages) + DrawsText(p.draws)
  {
    assert (pages + [p])[..|pages|] == pages;
  }

  /** One draw adds its text at the end of the document's text; a blank page adds none. */
  lemma NextLayoutText(pages: seq<Page>, d: Draw)
    requires pages != []
    ensures PagesText(NextLayout(pages, d)) == PagesText(pages) + d.text
  {
    var last := |pages| - 1;
    var earlier := pages[..last];
    var page' := pages[last].(draws := pages[last].draws + [d]);
    var drawn := earlier + [page'];
    assert pages[last := page'] == drawn;
    assert pages == earlier + [pages[last]];
    PagesTextAppend(earlier, pages[last]);
    PagesTextAppend(earlier, page');
    DrawsTextAppend(pages[last].draws, d);
    if |page'.draws| == LINES_PER_PAGE {
      PagesTextAppend(drawn, BLANK);
    }
  }

  /**
   * Reading the document page by page gives back what the chunks print
   * as C strings: every byte of a NUL-free file, in order.
   */
  lemma {:induction false} LayoutText(cs: seq<seq<byte>>)
    ensures PagesText(Layout(cs)) == Printed(cs)
    decreases |cs|
  {
    if cs == [] {
      assert Layout(cs) == [PageOf(cs, 0)];
      assert [PageOf(cs, 0)][..0] == [];
    } else {
      var init := cs[..|cs| - 1];
      var c := cs[|cs| - 1];
      assert cs == init + [c];
      LayoutText(init);
      LayoutStep(init, c);
      NextLayoutText(Layout(init), Draw(LEFT, TOP - STEP * (|init| % LINES_PER_PAGE), CutAtNul(c)));
      PrintedAppend(init, c);
    }
  }

  /** For a NUL-free file the drawn text is the file's contents, in 255-byte-or-shorter chunks. */
  lemma FileDrawnInFull(contents: seq<byte>)
    requires NUL !in contents
    ensures PagesText(Layout(Chunks(contents, LINE_SIZE))) == contents
    ensures forall c :: c in Chunks(contents, LINE_SIZE) ==> 0 < |c| <= LINE_SIZE - 1
  {
    LayoutText(Chunks(contents, LINE_SIZE));
    PrintedChunksIff(contents, LINE_SIZE);
    ChunksPartition(contents, LINE_SIZE);
  }

  /**
   * Where things land: every draw is at x = 50 and 50 <= y <= 800, the
   * rows of a page are 15 apart from the top, a page holds at most 51
   * chunks, n chunks make 1 + n div 51 pages with the last one empty
   * when n is a positive multiple of 51, chunk i is on page i div 51,
   * and only the first page has its size and font set.
   */
  lemma LayoutGeometry(cs: seq<seq<byte>>)
    ensures var pages := Layout(cs);
      && |pages| == 1 + |cs| / LINES_PER_PAGE
      && (forall p :: 0 <= p < |pages| ==> |pages[p].draws| <= LINES_PER_PAGE)
      && (forall p, j :: 0 <= p < |pages| && 0 <= j < |pages[p].draws| ==>
            pages[p].draws[j].x == LEFT && BOTTOM <= pages[p].draws[j].y <= TOP)
      && (forall p, j :: 0 <= p < |pages| && 0 < j < |pages[p].draws| ==>
            pages[p].draws[j].y == pages[p].draws[j - 1].y - STEP)
      && (|cs| > 0 && |cs| % LINES_PER_PAGE == 0 ==> pages[|pages| - 1].draws == [])
      && (forall i :: 0 <= i < |cs| ==>
            i % LINES_PER_PAGE < |pages[i / LINES_PER_PAGE].draws| &&
            pages[i / LINES_PER_PAGE].draws[i % LINES_PER_PAGE].text == CutAtNul(cs[i]))
      && pages[0].size == Some(A4Portrait) && pages[0].font == Some(HELVETICA_12)
      && (forall p :: 0 < p < |pages| ==> pages[p].size == None && pages[p].font == None)
  {
    var pages := Layout(cs);
    forall i | 0 <= i < |cs|
      ensures i % LINES_PER_PAGE < |pages[i / LINES_PER_PAGE].draws|
      ensures pages[i / LINES_PER_PAGE].draws[i % LINES_PER_PAGE].text == CutAtNul(cs[i])
    {
      assert i == LINES_PER_PAGE * (i / LINES_PER_PAGE) + i % LINES_PER_PAGE;
    }
  }

  // ------------------------------------------------------- the converter

  /** What the converter saves and logs. `contents` is None when the text file does not open. */
  datatype PdfResult = PdfResult(saved: Option<seq<Page>>, log: seq<string>)

  function Conversion(contents: Option<seq<byte>>, hpdfOk: bool): PdfResult
  {
    if contents.None? then PdfResult(None, [FAILED_OPEN])
    else if !hpdfOk then PdfResult(None, [FAILED_CREATE])
    else PdfResult(Some(Layout(Chunks(contents.value, LINE_SIZE))), [DONE])
  }

  /** The bytes still unread make up the chunks from the k-th on. */
  predicate Progress(chunks: seq<seq<byte>>, k: nat, rest: seq<byte>)
  {
    k <= |chunks| && Chunks(rest, LINE_SIZE) == chunks[k..]
  }

  /** One successful `fgets` into the line buffer delivers the next chunk and leaves the rest. */
  lemma ChunkRead(chunks: seq<seq<byte>>, k: nat, rest: seq<byte>, read: seq<byte>, n: nat)
    requires Progress(chunks, k, rest) && rest != []
    requires n == LineLength(rest, LINE_SIZE - 1) && Stored(read, rest, n)
    ensures k < |chunks| && CutAtNul(read) == CutAtNul(chunks[k])
    ensures Progress(chunks, k + 1, rest[n..])
  {
    FgetsChunk(rest, LINE_SIZE, read, n);
    var tail := chunks[k..];
    assert chunks[k] == tail[0] == rest[..n];
    assert chunks[k + 1..] == tail[1..];
  }

  /**
   * The body of `convert_txt_to_pdf` once both the text file and the
   * document are open: the fgets loop with the y cursor and the page
   * handle, returning the pages `HPDF_SaveToFile` writes.
   */
  method DrawText(text: seq<byte>) returns (pages: seq<Page>)
    ensures pages == Drawn(Chunks(text, LINE_SIZE))
  {
    var pdf := new PdfDocument();
    var page := pdf.AddPage();
    pdf.SetSize(page, A4Portrait);
    pdf.SetFontAndSize(page, HELVETICA_12);

    var y := TOP;
    var line := new byte[LINE_SIZE];
    var rest := text;
    ghost var chunks := Chunks(text, LINE_SIZE);
    ghost var k := 0;
    while true
      invariant Progress(chunks, k, rest)
      invariant pdf.pages == Drawn(chunks[..k]) && page == |pdf.pages| - 1
      invariant y == Cursor(k)
      decreases |rest|
    {
      var got, n;
      got, n, page, y := DrawNextLine(pdf, line, rest, chunks, k, page, y);
      if !got {
        break;
      }
      rest := rest[n..];
      k := k + 1;
    }
    assert chunks[..k] == chunks;
    pages := pdf.pages;
  }

  /**
   * One round of the loop in `convert_txt_to_pdf`: `fgets` the next chunk
   * into the line buffer and draw it at the cursor, moving to a new page
   * when the cursor drops below the bottom margin.
   */
  method DrawNextLine(pdf: PdfDocument, line: array<byte>, rest: seq<byte>, ghost chunks: seq<seq<byte>>, ghost k: nat,
                      page: nat, y: int)
      returns (got: bool, n: nat, page': nat, y': int)
    requires line.Length == LINE_SIZE
    requires Progress(chunks, k, rest) && pdf.pages == Drawn(chunks[..k]) && page == |pdf.pages| - 1 && y == Cursor(k)
    modifies pdf, line
    ensures got <==> rest != []
    ensures !got ==> pdf.pages == old(pdf.pages) && page' == page && y' == y
    ensures got ==> 0 < n <= |rest| && Progress(chunks, k + 1, rest[n..])
    ensures got ==> pdf.pages == Drawn(chunks[..k + 1]) && page' == |pdf.pages| - 1 && y' == Cursor(k + 1)
  {
    got, n := Fgets(line, rest);
    if !got {
      return got, n, page, y;
    }
    ChunkRead(chunks, k, rest, line[..], n);
    DrawnStep(chunks, k);
    var chunk := CutAtNul(line[..]);
    page', y' := pdf.DrawLine(page, y, chunk);
  }

  /**
   * `convert_txt_to_pdf`: `contents` is None when the text file does not
   * open, `hpdfOk` says whether `HPDF_New` succeeds.
   */
  method ConvertTxtToPdf(contents: Option<seq<byte>>, hpdfOk: bool) returns (saved: Option<seq<Page>>, log: seq<string>)
    ensures PdfResult(saved, log) == Conversion(contents, hpdfOk)
  {
    if contents.None? {
      return None, [FAILED_OPEN];
    }
    if !hpdfOk {
      return None, [FAILED_CREATE];
    }
    var pages := DrawText(contents.value);
    DrawnIsLayout(Chunks(contents.value, LINE_SIZE));
    saved, log := Some(pages), [DONE];
  }
}

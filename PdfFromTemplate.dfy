/**
 * `generatePDFFromTemplate`: the processed text of a document laid out on A4 pages, under the
 * template's name, with a footer on every page.
 */
module PdfFromTemplate {
  import opened Strings
  import opened Pdf

  /** Where the first body line goes on the first page: below the title and the divider. */
  const BodyTop: int := PageTop + 15 + 10

  /** The footer of page `i` of `total`; `date` and `time` are the creation time in pt-BR. */
  function FooterText(date: string, time: string, i: nat, total: nat): string {
    "Documento gerado em " + date + " às " + time + " - Página " + NatToString(i) + " de " + NatToString(total)
  }

  /** What the builder draws, and the name it saves the file under. */
  datatype TemplatePdf = TemplatePdf(
    title: Drawn,
    body: seq<Drawn>,
    pageCount: nat,
    footers: seq<Drawn>,
    fileName: string)

  /** The place of body line `next` given the place of the line before it, 7 mm higher. */
  predicate FollowsLine(prev: Drawn, next: Drawn, pageHeight: int) {
    (next.page, next.y) == NextPlace(prev.page, prev.y + 7, pageHeight)
  }

  /**
   * The document for a template whose processed text, wrapped to the page width, is `lines`.
   * `pageHeight` is the page's height (`A4Height` for `new jsPDF()`).
   */
  method Generate(employeeName: string, templateName: string, lines: seq<string>,
                  pageHeight: int, date: string, time: string)
    returns (pdf: TemplatePdf)
    // The title, in the top-left corner of the first page.
    ensures pdf.title == Drawn(1, Margin, PageTop, templateName)
    // Every line is drawn once, in order, at the left margin; nothing is dropped.
    ensures |pdf.body| == |lines|
    ensures forall k :: 0 <= k < |lines| ==> pdf.body[k].text == lines[k] && pdf.body[k].x == Margin
    // The first line goes below the header, unless that is already past the bottom.
    ensures |lines| > 0 ==> (pdf.body[0].page, pdf.body[0].y) == NextPlace(1, BodyTop, pageHeight)
    ensures |lines| > 0 && pageHeight >= BodyTop + 30 ==> pdf.body[0].page == 1 && pdf.body[0].y == 45
    // Each later line goes 7 mm lower, or to the top of a new page.
    ensures forall k :: 0 < k < |lines| ==> FollowsLine(pdf.body[k - 1], pdf.body[k], pageHeight)
    // On a page at least 50 mm high, no line is drawn below `pageHeight - 30`.
    ensures pageHeight >= 50 ==> forall k :: 0 <= k < |lines| ==> PageTop <= pdf.body[k].y <= pageHeight - 30
    // The pages are those the lines reached.
    ensures pdf.pageCount == if lines == [] then 1 else pdf.body[|lines| - 1].page
    ensures 1 <= pdf.pageCount <= |lines| + 1
    // One footer per page, at `pageHeight - 10`, numbered against the total.
    ensures |pdf.footers| == pdf.pageCount
    ensures forall i :: 0 <= i < pdf.pageCount ==>
              pdf.footers[i] == Drawn(i + 1, Margin, pageHeight - 10, FooterText(date, time, i + 1, pdf.pageCount))
    ensures pdf.fileName == DownloadName(employeeName, templateName)
  {
    var y := PageTop;
    var title := Drawn(1, Margin, y, templateName);
    y := y + 15;
    y := y + 10;
    var page: nat := 1;
    var body: seq<Drawn> := [];
    for k := 0 to |lines|
      invariant |body| == k
      invariant forall j :: 0 <= j < k ==> body[j].text == lines[j] && body[j].x == Margin
      invariant k == 0 ==> page == 1 && y == BodyTop
      invariant k > 0 ==> (body[0].page, body[0].y) == NextPlace(1, BodyTop, pageHeight)
      invariant k > 0 ==> page == body[k - 1].page && y == body[k - 1].y + 7
      invariant forall j :: 0 < j < k ==> FollowsLine(body[j - 1], body[j], pageHeight)
      invariant pageHeight >= 50 ==> forall j :: 0 <= j < k ==> PageTop <= body[j].y <= pageHeight - 30
      invariant 1 <= page <= k + 1
    {
      if PastBottom(y, pageHeight) {
        page := page + 1;
        y := PageTop;
      }
      body := body + [Drawn(page, Margin, y, lines[k])];
      y := y + 7;
    }
    var total := page;
    var footers: seq<Drawn> := [];
    for i := 1 to total + 1
      invariant |footers| == i - 1
      invariant forall j :: 0 <= j < i - 1 ==>
                  footers[j] == Drawn(j + 1, Margin, pageHeight - 10, FooterText(date, time, j + 1, total))
    {
      footers := footers + [Drawn(i, Margin, pageHeight - 10, FooterText(date, time, i, total))];
    }
    pdf := TemplatePdf(title, body, total, footers, DownloadName(employeeName, templateName));
  }
}

/**
 * What both PDF builders share: the page cursor of a jsPDF document (portrait A4, in
 * millimetres), the record of what was drawn where, and the download name.
 */
module Pdf {
  import opened Strings

  /** The height of a portrait A4 page, which `new jsPDF()` creates. */
  const A4Height: int := 297

  /** The left margin, where every text starts. */
  const Margin: int := 20

  /** The cursor at the top of a page, on the first page and after every `addPage()`. */
  const PageTop: int := 20

  /** A new page is started before drawing when the cursor is below `pageHeight - 30`. */
  predicate PastBottom(y: int, pageHeight: int) {
    y > pageHeight - 30
  }

  /** A text drawn on `page` (numbered from 1) with its baseline at `(x, y)`. */
  datatype Drawn = Drawn(page: nat, x: int, y: int, text: string)

  /**
   * Where the next block goes when the cursor is at `y` on `page`: the same place, or the top
   * of a new page when `y` is past the bottom.
   */
  function NextPlace(page: nat, y: int, pageHeight: int): (r: (nat, int))
    ensures PastBottom(y, pageHeight) ==> r == (page + 1, PageTop)
    ensures !PastBottom(y, pageHeight) ==> r == (page, y)
    ensures r.1 <= pageHeight - 30 || r.1 == PageTop
  {
    if PastBottom(y, pageHeight) then (page + 1, PageTop) else (page, y)
  }

  /** `${employee.replace(/\s+/g, '_')}_${template.replace(/\s+/g, '_')}.pdf`. */
  function DownloadName(employeeName: string, templateName: string): (r: string)
    ensures |r| >= 5 && r[|r| - 4..] == ".pdf"
    ensures forall i :: 0 <= i < |r| ==> !IsSpace(r[i])
  {
    var r := SqueezeSpaces(employeeName) + "_" + SqueezeSpaces(templateName) + ".pdf";
    SqueezedNoSpace(employeeName);
    SqueezedNoSpace(templateName);
    assert forall i :: 0 <= i < |r| ==> !IsSpace(r[i]) by {
      forall i | 0 <= i < |r| ensures !IsSpace(r[i]) {
        var a, b := SqueezeSpaces(employeeName), SqueezeSpaces(templateName);
        if i < |a| {
          assert r[i] == a[i];
        } else if i == |a| {
        } else if i < |a| + 1 + |b| {
          assert r[i] == b[i - |a| - 1];
        }
      }
    }
    assert r[|r| - 4..] == ".pdf";
    r
  }

  /** Names without white space are joined by `_` as they are. */
  lemma DownloadNameOfPlainNames(employeeName: string, templateName: string)
    requires forall i :: 0 <= i < |employeeName| ==> !IsSpace(employeeName[i])
    requires forall i :: 0 <= i < |templateName| ==> !IsSpace(templateName[i])
    ensures DownloadName(employeeName, templateName) == employeeName + "_" + templateName + ".pdf"
  {
    SqueezeSpaceFree(employeeName);
    SqueezeSpaceFree(templateName);
  }

  /**
   * A run of white space in the employee's name becomes one `_`, and the text in front of it
   * is kept as it is.
   */
  lemma DownloadNameOfSpacedName(a: string, w: string, b: string, templateName: string)
    requires forall i :: 0 <= i < |a| ==> !IsSpace(a[i])
    requires |w| > 0 && AllSpaces(w)
    requires b == [] || !IsSpace(b[0])
    ensures DownloadName(a + w + b, templateName) == a + "_" + DownloadName(b, templateName)
  {
    SqueezeRun(a, w, b);
    JoinRegroups(a, SqueezeSpaces(b), SqueezeSpaces(templateName));
  }

  lemma JoinRegroups(a: string, e: string, t: string)
    ensures a + "_" + e + "_" + t + ".pdf" == a + "_" + (e + "_" + t + ".pdf")
  {
  }
}

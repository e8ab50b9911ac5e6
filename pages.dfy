/** Asset selection of scripts/enrich_urls.py over an abstract page:
    `pick_pdf_from_page` (the first `.pdf` link whose header says PDF) and
    `pick_image_from_page` (a confirmed og:image, else the `<img>` with the
    strictly largest positive width times height, first on ties). */
module Pages {
  import opened Base
  import opened Text
  import opened Web

  /** The `.pdf` test on a link: `".pdf" in href.lower()`. */
  predicate PdfLink(href: string) {
    Contains(Lower(href), ".pdf")
  }

  /** The header test on a PDF candidate: `"application/pdf" in ct`. */
  predicate PdfHeader(ct: string) {
    Contains(Lower(ct), "application/pdf")
  }

  /** The page itself is a PDF or an image: a content-type prefix test. */
  predicate PdfPage(ct: string) {
    StartsWith(Lower(ct), "application/pdf")
  }

  predicate ImageType(ct: string) {
    StartsWith(Lower(ct), "image/")
  }

  /** The link scan of `pick_pdf_from_page`: the first `.pdf` link whose
      header confirms a PDF; an `urljoin` or a header request that raises
      ends the whole call with `None`. */
  function PdfScan(net: Net, url: string, hrefs: seq<string>): Option<string>
    decreases |hrefs|
  {
    if hrefs == [] then None
    else if !PdfLink(hrefs[0]) then PdfScan(net, url, hrefs[1..])
    else
      match net.join(url, hrefs[0])
      case None => None
      case Some(pdf) =>
        match net.head(pdf)
        case HeadFailed => None
        case Head(ct) => if PdfHeader(ct) then Some(pdf) else PdfScan(net, url, hrefs[1..])
  }

  /** `pick_pdf_from_page(url)`. */
  function PickPdf(net: Net, url: string): Option<string> {
    match net.fetch(url)
    case FetchFailed => None
    case Fetched(ct, page) => if PdfPage(ct) then Some(url) else PdfScan(net, url, page.hrefs)
  }

  method PickPdfFromPage(net: Net, url: string) returns (pdf: Option<string>)
    ensures pdf == PickPdf(net, url)
  {
    var r := net.fetch(url);
    if r.FetchFailed? {
      return None;
    }
    if PdfPage(r.ct) {
      return Some(url);
    }
    var hrefs := r.page.hrefs;
    var i := 0;
    while i < |hrefs|
      invariant i <= |hrefs|
      invariant PdfScan(net, url, hrefs[i..]) == PdfScan(net, url, hrefs)
    {
      var href := hrefs[i];
      assert hrefs[i..][1..] == hrefs[i + 1..];
      if PdfLink(href) {
        var candidate := net.join(url, href);
        if candidate.None? {
          return None;
        }
        var h := net.head(candidate.value);
        if h.HeadFailed? {
          return None;
        }
        if PdfHeader(h.ct) {
          return candidate;
        }
      }
      i := i + 1;
    }
    return None;
  }

  /** A link the scan passes over: not a `.pdf` link, or one that joins and
      whose header request succeeds with another content type. */
  predicate PdfPassed(net: Net, url: string, href: string) {
    var c := net.join(url, href);
    !PdfLink(href)
    || (c.Some? && net.head(c.value).Head? && !PdfHeader(net.head(c.value).ct))
  }

  /** A `.pdf` link that joins and whose header confirms a PDF. */
  predicate PdfConfirmed(net: Net, url: string, href: string) {
    var c := net.join(url, href);
    PdfLink(href) && c.Some? && net.head(c.value).Head? && PdfHeader(net.head(c.value).ct)
  }

  /** A `.pdf` link whose `urljoin` or header request raises. */
  predicate PdfRaises(net: Net, url: string, href: string) {
    var c := net.join(url, href);
    PdfLink(href) && (c.None? || net.head(c.value).HeadFailed?)
  }

  /** The first link that is not passed over decides: a confirmed link is
      the answer. */
  lemma {:induction false} PdfScanFirst(net: Net, url: string, hrefs: seq<string>, k: nat)
    requires k < |hrefs| && PdfConfirmed(net, url, hrefs[k])
    requires forall j :: 0 <= j < k ==> PdfPassed(net, url, hrefs[j])
    ensures PdfScan(net, url, hrefs) == net.join(url, hrefs[k])
    decreases k
  {
    if k > 0 {
      assert PdfPassed(net, url, hrefs[0]);
      PdfScanFirst(net, url, hrefs[1..], k - 1);
    }
  }

  /** ... and a `.pdf` link whose `urljoin` or header request raises gives
      `None`, even when a later link would have been a PDF. */
  lemma {:induction false} PdfScanAbort(net: Net, url: string, hrefs: seq<string>, k: nat)
    requires k < |hrefs| && PdfRaises(net, url, hrefs[k])
    requires forall j :: 0 <= j < k ==> PdfPassed(net, url, hrefs[j])
    ensures PdfScan(net, url, hrefs) == None
    decreases k
  {
    if k > 0 {
      assert PdfPassed(net, url, hrefs[0]);
      PdfScanAbort(net, url, hrefs[1..], k - 1);
    }
  }

  /** When every link is passed over there is no PDF. */
  lemma {:induction false} PdfScanNone(net: Net, url: string, hrefs: seq<string>)
    requires forall j :: 0 <= j < |hrefs| ==> PdfPassed(net, url, hrefs[j])
    ensures PdfScan(net, url, hrefs) == None
    decreases |hrefs|
  {
    if hrefs != [] {
      assert PdfPassed(net, url, hrefs[0]);
      PdfScanNone(net, url, hrefs[1..]);
    }
  }

  /** A PDF found by the scan is the join of a confirmed link, and every link
      before it was passed over. */
  lemma {:induction false} PdfScanSound(net: Net, url: string, hrefs: seq<string>)
    ensures PdfScan(net, url, hrefs).Some? ==>
      exists k :: 0 <= k < |hrefs| && PdfConfirmed(net, url, hrefs[k])
        && PdfScan(net, url, hrefs) == net.join(url, hrefs[k])
        && forall j :: 0 <= j < k ==> PdfPassed(net, url, hrefs[j])
    decreases |hrefs|
  {
    var r := PdfScan(net, url, hrefs);
    if hrefs != [] && r.Some? {
      var rest := hrefs[1..];
      if PdfConfirmed(net, url, hrefs[0]) {
        assert r == net.join(url, hrefs[0]);
      } else {
        assert PdfPassed(net, url, hrefs[0]);
        assert r == PdfScan(net, url, rest);
        PdfScanSound(net, url, rest);
        var k :| 0 <= k < |rest| && PdfConfirmed(net, url, rest[k])
          && r == net.join(url, rest[k])
          && forall j :: 0 <= j < k ==> PdfPassed(net, url, rest[j]);
        assert hrefs[k + 1] == rest[k];
        assert forall j :: 1 <= j < k + 1 ==> hrefs[j] == rest[j - 1];
      }
    }
  }

  /** A PDF answer is the URL itself when the page is a PDF, else a link of
      the page that some header confirmed. */
  lemma PickPdfSound(net: Net, url: string)
    ensures PickPdf(net, url).Some? ==>
      (net.fetch(url).Fetched? &&
       ((PdfPage(net.fetch(url).ct) && PickPdf(net, url).value == url)
        || exists k :: 0 <= k < |net.fetch(url).page.hrefs|
             && PdfConfirmed(net, url, net.fetch(url).page.hrefs[k])
             && PickPdf(net, url) == net.join(url, net.fetch(url).page.hrefs[k])))
  {
    if net.fetch(url).Fetched? {
      PdfScanSound(net, url, net.fetch(url).page.hrefs);
    }
  }

  /** `int(img.get(attr) or 0)` for an attribute that parses. */
  function DimValue(d: Dim): int {
    match d
    case Missing => 0
    case Parsed(n) => n
    case Unparsable => 0
  }

  /** An `<img>` the size scan weighs: its URL joins, the joined URL does not
      contain ".svg", its header request succeeds with an image type, and
      both attributes parse. */
  predicate Weighed(net: Net, url: string, img: Img) {
    var c := net.join(url, img.src);
    && c.Some?
    && !Contains(Lower(c.value), ".svg")
    && net.head(c.value).Head? && ImageType(net.head(c.value).ct)
    && !img.width.Unparsable? && !img.height.Unparsable?
  }

  /** The `urljoin` of an `<img>` raises; it is outside the inner `try`. */
  predicate ImgRaises(net: Net, url: string, img: Img) {
    net.join(url, img.src).None?
  }

  function Area(img: Img): int {
    DimValue(img.width) * DimValue(img.height)
  }

  /** The running `best`, `best_area` pair. */
  datatype Best = Best(best: Option<string>, area: int)

  /** One iteration of the `<img>` loop: None when the `urljoin` raises,
      which leaves the loop and the whole call. */
  function ImgStep(net: Net, url: string, acc: Best, img: Img): Option<Best> {
    match net.join(url, img.src)
    case None => None
    case Some(c) =>
      if Contains(Lower(c), ".svg") then Some(acc)
      else
        match net.head(c)
        case HeadFailed => Some(acc)
        case Head(ct) =>
          if !ImageType(ct) || img.width.Unparsable? || img.height.Unparsable? then Some(acc)
          else if Area(img) > acc.area then Some(Best(Some(c), Area(img)))
          else Some(acc)
  }

  /** The pair after the loop has seen `imgs`, starting from `None`, 0, or
      None once an `urljoin` has raised. */
  function BestImage(net: Net, url: string, imgs: seq<Img>): Option<Best>
    decreases |imgs|
  {
    if imgs == [] then Some(Best(None, 0))
    else
      match BestImage(net, url, imgs[..|imgs| - 1])
      case None => None
      case Some(acc) => ImgStep(net, url, acc, imgs[|imgs| - 1])
  }

  /** What the `<img>` loop makes the call return: `best`, or None when an
      `urljoin` raised. */
  function SizeScan(net: Net, url: string, imgs: seq<Img>): Option<string> {
    match BestImage(net, url, imgs)
    case None => None
    case Some(b) => b.best
  }

  /** The og:image content joins and its header says image. */
  predicate OgConfirmed(net: Net, url: string, og: Option<string>) {
    && Present(og)
    && net.join(url, og.value).Some?
    && net.head(net.join(url, og.value).value).Head?
    && ImageType(net.head(net.join(url, og.value).value).ct)
  }

  /** `pick_image_from_page(url)`. */
  function PickImage(net: Net, url: string): Option<string> {
    match net.fetch(url)
    case FetchFailed => None
    case Fetched(ct, page) =>
      if ImageType(ct) then Some(url)
      else if Present(page.og) then
        match net.join(url, page.og.value)
        case None => None
        case Some(c) =>
          match net.head(c)
          case HeadFailed => None
          case Head(hct) => if ImageType(hct) then Some(c) else SizeScan(net, url, page.imgs)
      else SizeScan(net, url, page.imgs)
  }

  method PickImageFromPage(net: Net, url: string) returns (image: Option<string>)
    ensures image == PickImage(net, url)
  {
    var r := net.fetch(url);
    if r.FetchFailed? {
      return None;
    }
    if ImageType(r.ct) {
      return Some(url);
    }
    var og := r.page.og;
    if og.Some? && og.value != "" {
      var candidate := net.join(url, og.value);
      if candidate.None? {
        return None;
      }
      var h := net.head(candidate.value);
      if h.HeadFailed? {
        return None;
      }
      if ImageType(h.ct) {
        return candidate;
      }
    }
    var best: Option<string> := None;
    var bestArea := 0;
    var imgs := r.page.imgs;
    for i := 0 to |imgs|
      invariant BestImage(net, url, imgs[..i]) == Some(Best(best, bestArea))
    {
      var img := imgs[i];
      assert imgs[..i + 1][..i] == imgs[..i];
      var joined := net.join(url, img.src);
      if joined.None? {
        BestImageRaisedStays(net, url, imgs, i + 1);
        return None;
      }
      var candidate := joined.value;
      if Contains(Lower(candidate), ".svg") {
        continue;
      }
      var h := net.head(candidate);
      if h.HeadFailed? {
        continue;
      }
      if ImageType(h.ct) {
        if img.width.Unparsable? || img.height.Unparsable? {
          continue;
        }
        var area := DimValue(img.width) * DimValue(img.height);
        if area > bestArea {
          bestArea, best := area, Some(candidate);
        }
      }
    }
    assert imgs[..|imgs|] == imgs;
    return best;
  }

  /** Once an `urljoin` has raised, the rest of the `<img>` elements cannot
      bring the loop back. */
  lemma {:induction false} BestImageRaisedStays(net: Net, url: string, imgs: seq<Img>, n: nat)
    requires n <= |imgs| && BestImage(net, url, imgs[..n]).None?
    ensures BestImage(net, url, imgs).None?
    decreases |imgs|
  {
    if n == |imgs| {
      assert imgs[..n] == imgs;
    } else {
      var p := imgs[..|imgs| - 1];
      assert p[..n] == imgs[..n];
      BestImageRaisedStays(net, url, p, n);
    }
  }

  /** The loop raises exactly when the `urljoin` of some `<img>` raises. */
  lemma {:induction false} BestImageRaises(net: Net, url: string, imgs: seq<Img>)
    ensures BestImage(net, url, imgs).None? <==>
      exists j :: 0 <= j < |imgs| && ImgRaises(net, url, imgs[j])
    decreases |imgs|
  {
    if imgs != [] {
      var n := |imgs| - 1;
      var p := imgs[..n];
      BestImageRaises(net, url, p);
      assert forall j :: 0 <= j < n ==> imgs[j] == p[j];
      if BestImage(net, url, imgs).None? && BestImage(net, url, p).Some? {
        assert ImgRaises(net, url, imgs[n]);
      }
    }
  }

  /** Without a raise, the kept area is never negative and bounds every
      weighed image; there is a kept image exactly when some weighed image
      has a positive area. */
  lemma {:induction false} BestImageMax(net: Net, url: string, imgs: seq<Img>)
    ensures var r := BestImage(net, url, imgs);
      r.Some? ==>
        && r.value.area >= 0
        && (r.value.best.None? <==> r.value.area == 0)
        && (forall j :: 0 <= j < |imgs| && Weighed(net, url, imgs[j]) ==> Area(imgs[j]) <= r.value.area)
        && (r.value.best.None? <==>
            forall j :: 0 <= j < |imgs| && Weighed(net, url, imgs[j]) ==> Area(imgs[j]) <= 0)
    decreases |imgs|
  {
    var r := BestImage(net, url, imgs);
    if imgs != [] && r.Some? {
      var n := |imgs| - 1;
      var p := imgs[..n];
      BestImageMax(net, url, p);
      assert forall j :: 0 <= j < n ==> imgs[j] == p[j];
      var a := BestImage(net, url, p);
      assert a.Some? && r == ImgStep(net, url, a.value, imgs[n]);
      if r.value.best.Some? && r.value.area > 0 && a.value.best.None? {
        assert Weighed(net, url, imgs[n]) && Area(imgs[n]) > 0;
      }
    }
  }

  /** Without a raise, the kept image is the first weighed image of the
      largest area. */
  lemma {:induction false} BestImageFirst(net: Net, url: string, imgs: seq<Img>)
    ensures var r := BestImage(net, url, imgs);
      r.Some? && r.value.best.Some? ==>
        exists k :: 0 <= k < |imgs| && Weighed(net, url, imgs[k])
          && r.value.best == net.join(url, imgs[k].src)
          && Area(imgs[k]) == r.value.area
          && forall j :: 0 <= j < k && Weighed(net, url, imgs[j]) ==> Area(imgs[j]) < Area(imgs[k])
    decreases |imgs|
  {
    var r := BestImage(net, url, imgs);
    if imgs != [] && r.Some? && r.value.best.Some? {
      var n := |imgs| - 1;
      var p := imgs[..n];
      BestImageFirst(net, url, p);
      BestImageMax(net, url, p);
      assert forall j :: 0 <= j < n ==> imgs[j] == p[j];
      var a := BestImage(net, url, p);
      assert a.Some?;
      if r.value != a.value {
        assert Weighed(net, url, imgs[n]) && Area(imgs[n]) > a.value.area;
      } else {
        var k :| 0 <= k < n && Weighed(net, url, p[k])
          && a.value.best == net.join(url, p[k].src) && Area(p[k]) == a.value.area
          && forall j :: 0 <= j < k && Weighed(net, url, p[j]) ==> Area(p[j]) < Area(p[k]);
        assert imgs[k] == p[k];
      }
    }
  }

  /** An image answer is the URL itself when the page is an image, else a
      confirmed og:image, else a weighed `<img>` of the largest positive
      area, found only when no `<img>` made `urljoin` raise. */
  lemma PickImageSound(net: Net, url: string)
    ensures PickImage(net, url).Some? ==>
      (net.fetch(url).Fetched? &&
       var page := net.fetch(url).page;
       || (ImageType(net.fetch(url).ct) && PickImage(net, url).value == url)
       || (OgConfirmed(net, url, page.og) && PickImage(net, url) == net.join(url, page.og.value))
       || ((forall j :: 0 <= j < |page.imgs| ==> !ImgRaises(net, url, page.imgs[j]))
           && (exists k :: 0 <= k < |page.imgs| && Weighed(net, url, page.imgs[k])
                 && Area(page.imgs[k]) > 0 && PickImage(net, url) == net.join(url, page.imgs[k].src)
                 && forall j :: 0 <= j < |page.imgs| && Weighed(net, url, page.imgs[j]) ==>
                      Area(page.imgs[j]) <= Area(page.imgs[k]))))
  {
    if net.fetch(url).Fetched? {
      var imgs := net.fetch(url).page.imgs;
      BestImageRaises(net, url, imgs);
      BestImageMax(net, url, imgs);
      BestImageFirst(net, url, imgs);
    }
  }

  /** An og:image whose header says image is chosen whatever the `<img>`
      elements are. */
  lemma OgImagePreferred(net: Net, url: string)
    requires net.fetch(url).Fetched? && !ImageType(net.fetch(url).ct)
    requires OgConfirmed(net, url, net.fetch(url).page.og)
    ensures PickImage(net, url) == net.join(url, net.fetch(url).page.og.value)
  {
  }

  /** An `<img>` whose `urljoin` raises makes the whole call return None,
      even when an earlier `<img>` was already the best. */
  lemma PickImageJoinRaises(net: Net, url: string, k: nat)
    requires net.fetch(url).Fetched? && !ImageType(net.fetch(url).ct)
    requires !OgConfirmed(net, url, net.fetch(url).page.og)
    requires k < |net.fetch(url).page.imgs| && ImgRaises(net, url, net.fetch(url).page.imgs[k])
    ensures PickImage(net, url) == None
  {
    BestImageRaises(net, url, net.fetch(url).page.imgs);
  }

  /** A page whose `<img>` elements all lack a width yields no `<img>`. */
  lemma UnsizedNeverChosen(net: Net, url: string, imgs: seq<Img>)
    requires forall j :: 0 <= j < |imgs| ==> imgs[j].width.Missing?
    ensures SizeScan(net, url, imgs) == None
  {
    BestImageMax(net, url, imgs);
  }
}

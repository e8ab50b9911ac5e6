/** scripts/download_catalog.py: for every row of the enriched sheet, skip
    excluded providers and rows the provider filter rejects, then download
    the image (saved as JPEG) and the PDF into a folder per provider, under
    a name per article, counting what was saved and what was skipped. */
module Download {
  import opened Base
  import opened Text
  import opened Cells
  import opened Normalize

  /** `EXCLUDE_PROVIDERS`. */
  const EXCLUDED: set<string> := {"FAMARA"}

  /** The class `[\\/:*?"<>|]` of characters a file name may not hold. */
  predicate Forbidden(c: char) {
    c == '\\' || c == '/' || c == ':' || c == '*' || c == '?' || c == '"' || c == '<' || c == '>' || c == '|'
  }

  /** `safe_name(s)` for a string `s`: strip, turn every run of forbidden
      characters into a space, then every run of whitespace into one space. */
  function SafeName(s: string): string {
    ReplaceRuns(ReplaceRuns(Strip(s), Forbidden, " "), IsSpace, " ")
  }

  /** `is_pdf_content_type(ct)`. */
  predicate IsPdfContentType(ct: string) {
    ct != "" && Contains(Lower(ct), "application/pdf")
  }

  /** `is_image_content_type(ct)`. */
  predicate IsImageContentType(ct: string) {
    ct != "" && StartsWith(Lower(ct), "image/")
  }

  /** The extensions of the pattern `\.(png|jpg|jpeg|webp|bmp|gif|tif|tiff)$`. */
  const IMAGE_EXTS: seq<string> := ["png", "jpg", "jpeg", "webp", "bmp", "gif", "tif", "tiff"]

  /** `re.search(r"\.(png|...|tiff)$", url, re.I)`: the URL ends, in any
      casing, with a dot and one of the extensions, possibly followed by one
      newline (where `$` also matches). */
  predicate ImageUrl(url: string) {
    exists e :: e in IMAGE_EXTS && (EndsWith(Lower(url), "." + e) || EndsWith(Lower(url), "." + e + "\n"))
  }

  /** The test in `download_pdf`, on the content type as sent. */
  predicate AcceptPdf(url: string, ct: string) {
    IsPdfContentType(Lower(ct)) || EndsWith(Lower(url), ".pdf")
  }

  /** The test in `download_image_as_jpg`, on the content type as sent. */
  predicate AcceptImage(url: string, ct: string) {
    IsImageContentType(Lower(ct)) || ImageUrl(url)
  }

  /** What the server and the disk do with one download: the request fails
      (an exception or an HTTP error status), or it answers with a
      `Content-Type` ("" when absent) and the file is or is not saved (the
      chunks written, or the image decoded and saved as JPEG). */
  datatype Reply = Failed | Answered(ct: string, saved: bool)

  /** `download_pdf(session, url, dest)`. */
  predicate DownloadPdf(r: Reply, url: string) {
    r.Answered? && AcceptPdf(url, r.ct) && r.saved
  }

  /** `download_image_as_jpg(session, url, dest)`. */
  predicate DownloadImage(r: Reply, url: string) {
    r.Answered? && AcceptImage(url, r.ct) && r.saved
  }

  /** The columns the script reads. */
  datatype DRow = DRow(codArt: Cell, refProv: Cell, prov: Cell, codProv: Cell, img: Cell, pdf: Cell)

  /** `--provider-contains` and `--overwrite`. */
  datatype Options = Options(providerContains: string, overwrite: bool)

  /** The `stats` dictionary. */
  datatype Stats = Stats(rows: nat, skippedExcluded: nat, skippedProvider: nat,
                         imgOk: nat, imgSkip: nat, pdfOk: nat, pdfSkip: nat)

  /** The two trees under the output directory. */
  datatype Tree = Images | Fichas

  /** A destination file: `<out>/<tree>/<folder>/<file>`. */
  datatype Dest = Dest(tree: Tree, folder: string, file: string)

  /** The counters and the files present on disk. */
  datatype Tally = Tally(stats: Stats, files: set<Dest>)

  /** `str(v if not is_empty(v) else "").strip()`. */
  function CleanText(c: Cell): string {
    if IsEmpty(c) then "" else Strip(CellStr(c))
  }

  /** Step 1: the normalised provider is not empty and contains the
      normalised form of an excluded provider. */
  predicate Excluded(prov: string) {
    NormText(prov) != "" && exists x :: x in EXCLUDED && Contains(NormText(prov), NormText(x))
  }

  /** Step 2: a non-empty filter that the normalised provider does not
      contain. */
  predicate FilteredOut(opts: Options, prov: string) {
    var pf := NormText(opts.providerContains);
    pf != "" && !Contains(NormText(prov), pf)
  }

  /** A row that gets past steps 1 and 2. */
  predicate Processed(opts: Options, row: DRow) {
    !Excluded(CleanText(row.prov)) && !FilteredOut(opts, CleanText(row.prov))
  }

  /** Step 3: `"<codprov> - <prov>"` made safe, or "SIN_PROVEEDOR" when
      both are empty. */
  function FolderName(codProv: string, prov: string): string {
    if codProv != "" || prov != "" then SafeName(codProv + " - " + prov) else "SIN_PROVEEDOR"
  }

  /** Step 4: `"<cod_art> - <refprov>"` stripped and made safe, or
      `fila_<i+1>` when that is empty. */
  function BaseName(i: nat, codArt: Cell, refProv: string): string {
    var b := SafeName(Strip(CellStr(codArt) + " - " + refProv));
    if b != "" then b else "fila_" + NatToString(i + 1)
  }

  function ImageDest(i: nat, row: DRow): Dest {
    Dest(Images, FolderName(CleanText(row.codProv), CleanText(row.prov)), BaseName(i, row.codArt, CleanText(row.refProv)) + ".jpg")
  }

  function PdfDest(i: nat, row: DRow): Dest {
    Dest(Fichas, FolderName(CleanText(row.codProv), CleanText(row.prov)), BaseName(i, row.codArt, CleanText(row.refProv)) + ".pdf")
  }

  /** What happens to one URL of a processed row. */
  datatype Fate = NoUrl | Kept | Saved | NotSaved

  /** Steps 5 and 6 for one URL: nothing without a URL; an existing file is
      kept unless `--overwrite`; otherwise the download saves the file or
      fails. */
  function FateOf(opts: Options, files: set<Dest>, url: string, dest: Dest, ok: bool): Fate {
    if url == "" then NoUrl
    else if dest in files && !opts.overwrite then Kept
    else if ok then Saved
    else NotSaved
  }

  /** The files after one URL. */
  function FilesAfter(files: set<Dest>, f: Fate, dest: Dest): set<Dest> {
    if f == Saved then files + {dest} else files
  }

  function Inc(b: bool): nat {
    if b then 1 else 0
  }

  /** Which of steps 1 and 2 stops a row, if any. */
  datatype Gate = ExcludedRow | FilteredRow | Open

  function GateOf(opts: Options, row: DRow): Gate {
    var prov := CleanText(row.prov);
    if Excluded(prov) then ExcludedRow
    else if FilteredOut(opts, prov) then FilteredRow
    else Open
  }

  /** One pass of the loop of `main` over row `i`, with `net(url)` the reply
      to a download of `url`. */
  function DownloadRow(opts: Options, net: string -> Reply, i: nat, row: DRow, t: Tally): Tally {
    match GateOf(opts, row)
    case ExcludedRow => t.(stats := t.stats.(skippedExcluded := t.stats.skippedExcluded + 1))
    case FilteredRow => t.(stats := t.stats.(skippedProvider := t.stats.skippedProvider + 1))
    case Open => Downloaded(opts, net, i, row, t)
  }

  /** Steps 3 to 6 for a processed row. */
  function Downloaded(opts: Options, net: string -> Reply, i: nat, row: DRow, t: Tally): Tally {
      var urlImg, urlPdf := CleanText(row.img), CleanText(row.pdf);
      var di, dp := ImageDest(i, row), PdfDest(i, row);
      var fi := FateOf(opts, t.files, urlImg, di, DownloadImage(net(urlImg), urlImg));
      var files1 := FilesAfter(t.files, fi, di);
      var fp := FateOf(opts, files1, urlPdf, dp, DownloadPdf(net(urlPdf), urlPdf));
      var files2 := FilesAfter(files1, fp, dp);
      Tally(Count(t.stats, fi, fp), files2)
  }

  /** The counters after the two URLs of a processed row: `*_ok` for a
      saved file, `*_skip` for a kept file or a failed download. */
  function Count(st: Stats, fi: Fate, fp: Fate): Stats {
    st.(imgOk := st.imgOk + Inc(fi == Saved), imgSkip := st.imgSkip + Inc(fi == Kept || fi == NotSaved),
        pdfOk := st.pdfOk + Inc(fp == Saved), pdfSkip := st.pdfSkip + Inc(fp == Kept || fp == NotSaved))
  }

  /** The loop over `rows` in order, from the tally `t`. */
  function DownloadRows(opts: Options, net: string -> Reply, rows: seq<DRow>, t: Tally): Tally
    decreases |rows|
  {
    if rows == [] then t
    else
      var n := |rows| - 1;
      DownloadRow(opts, net, n, rows[n], DownloadRows(opts, net, rows[..n], t))
  }

  /** The loop of `main` from the files already on disk. */
  function DownloadAll(opts: Options, net: string -> Reply, rows: seq<DRow>, files: set<Dest>): Tally {
    DownloadRows(opts, net, rows, Tally(Stats(|rows|, 0, 0, 0, 0, 0, 0), files))
  }

  /** The loop of `main`: `stats` and the files on disk are updated row by
      row. */
  method RunDownloads(opts: Options, net: string -> Reply, rows: seq<DRow>, existing: set<Dest>)
    returns (stats: Stats, files: set<Dest>)
    ensures Tally(stats, files) == DownloadAll(opts, net, rows, existing)
  {
    stats := Stats(|rows|, 0, 0, 0, 0, 0, 0);
    files := existing;
    ghost var init := Tally(stats, files);
    for i := 0 to |rows|
      invariant Tally(stats, files) == DownloadRows(opts, net, rows[..i], init)
    {
      assert rows[..i + 1][..i] == rows[..i];
      stats, files := VisitRow(opts, net, i, rows[i], stats, files);
    }
    assert rows[..|rows|] == rows;
  }

  /** The body of the loop of `main`. */
  method VisitRow(opts: Options, net: string -> Reply, i: nat, row: DRow, stats: Stats, files: set<Dest>)
    returns (stats': Stats, files': set<Dest>)
    ensures Tally(stats', files') == DownloadRow(opts, net, i, row, Tally(stats, files))
  {
    ghost var t := Tally(stats, files);
    var gate := GateOf(opts, row);
    match gate {
      case ExcludedRow =>
        stats', files' := stats.(skippedExcluded := stats.skippedExcluded + 1), files;
        assert DownloadRow(opts, net, i, row, t) == Tally(stats', files');
      case FilteredRow =>
        stats', files' := stats.(skippedProvider := stats.skippedProvider + 1), files;
        assert DownloadRow(opts, net, i, row, t) == Tally(stats', files');
      case Open =>
        stats', files' := DownloadBoth(opts, net, i, row, stats, files);
        assert DownloadRow(opts, net, i, row, t) == Downloaded(opts, net, i, row, t);
    }
  }

  /** Steps 3 to 6 for a processed row. */
  method DownloadBoth(opts: Options, net: string -> Reply, i: nat, row: DRow, stats: Stats, files: set<Dest>)
    returns (stats': Stats, files': set<Dest>)
    ensures Tally(stats', files') == Downloaded(opts, net, i, row, Tally(stats, files))
  {
    var urlImg := CleanText(row.img);
    var urlPdf := CleanText(row.pdf);
    var fi, fp;
    files' := files;
    fi, files' := FetchImage(opts, net, files', urlImg, ImageDest(i, row));
    fp, files' := FetchPdf(opts, net, files', urlPdf, PdfDest(i, row));
    stats' := Count(stats, fi, fp);
  }

  /** Step 5: the image is downloaded only when there is a URL and no file
      stands in the way. */
  method FetchImage(opts: Options, net: string -> Reply, files: set<Dest>, url: string, dest: Dest)
    returns (fate: Fate, files': set<Dest>)
    ensures fate == FateOf(opts, files, url, dest, DownloadImage(net(url), url))
    ensures files' == FilesAfter(files, fate, dest)
  {
    files' := files;
    if url == "" {
      return NoUrl, files';
    }
    if dest in files && !opts.overwrite {
      return Kept, files';
    }
    if DownloadImage(net(url), url) {
      fate := Saved;
      files' := files + {dest};
    } else {
      fate := NotSaved;
    }
  }

  /** Step 6: the same for the PDF. */
  method FetchPdf(opts: Options, net: string -> Reply, files: set<Dest>, url: string, dest: Dest)
    returns (fate: Fate, files': set<Dest>)
    ensures fate == FateOf(opts, files, url, dest, DownloadPdf(net(url), url))
    ensures files' == FilesAfter(files, fate, dest)
  {
    files' := files;
    if url == "" {
      return NoUrl, files';
    }
    if dest in files && !opts.overwrite {
      return Kept, files';
    }
    if DownloadPdf(net(url), url) {
      fate := Saved;
      files' := files + {dest};
    } else {
      fate := NotSaved;
    }
  }
}

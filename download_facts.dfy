/** What the model of scripts/download_catalog.py guarantees: the shape of
    the names it builds, the acceptance tests of the two downloads, what one
    row does to the counters and the files, and the totals of a whole run. */
module DownloadFacts {
  import opened Text
  import opened Cells
  import opened Normalize
  import opened Brand
  import opened Download

  // ---------------------------------------------------------------- names

  /** `safe_name` leaves no forbidden character, and its only whitespace is
      single spaces. */
  lemma SafeNameClean(s: string)
    ensures forall i :: 0 <= i < |SafeName(s)| ==> !Forbidden(SafeName(s)[i])
    ensures forall i :: 0 <= i < |SafeName(s)| ==> IsSpace(SafeName(s)[i]) ==> SafeName(s)[i] == ' '
    ensures forall i :: 0 <= i < |SafeName(s)| - 1 ==> !(SafeName(s)[i] == ' ' && SafeName(s)[i + 1] == ' ')
  {
    var a := Strip(s);
    var b := ReplaceRuns(a, Forbidden, " ");
    var r := ReplaceRuns(b, IsSpace, " ");
    ReplaceRunsSpec(a, Forbidden, " ");
    ReplaceRunsSpec(b, IsSpace, " ");
    ReplaceRunsNoAdjacent(b, IsSpace, ' ');
    forall i | 0 <= i < |r| ensures !Forbidden(r[i]) && (IsSpace(r[i]) ==> r[i] == ' ') {
      if r[i] != ' ' {
        var j :| 0 <= j < |b| && b[j] == r[i];
      }
    }
  }

  /** A name that is already clean (no forbidden character, no surrounding
      whitespace, only single spaces inside) comes back unchanged. */
  lemma SafeNameFixed(s: string)
    requires forall i :: 0 <= i < |s| ==> !Forbidden(s[i])
    requires forall i :: 0 <= i < |s| ==> IsSpace(s[i]) ==> s[i] == ' '
    requires forall i :: 0 <= i < |s| - 1 ==> !(s[i] == ' ' && s[i + 1] == ' ')
    requires s == [] || (!IsSpace(s[0]) && !IsSpace(s[|s| - 1]))
    ensures SafeName(s) == s
  {
    StripNoop(s);
    ReplaceRunsNone(s, Forbidden, " ");
    ReplaceRunsFixed(s, IsSpace, ' ');
  }

  /** The text is stripped before the forbidden characters become spaces,
      so a trailing forbidden character leaves a trailing space. */
  lemma SafeNameTrailingSpace()
    ensures SafeName("a/") == "a "
  {
    var s := "a/";
    assert !IsSpace(s[0]) && !IsSpace(s[1]);
    StripNoop(s);
    assert RunLength(s[1..], Forbidden) == 1;
    assert ReplaceRuns(s[1..], Forbidden, " ") == " ";
    assert ReplaceRuns(s, Forbidden, " ") == "a ";
    ReplaceRunsFixed("a ", IsSpace, ' ');
  }

  /** The folder "SIN_PROVEEDOR" is used exactly when both the provider
      code and the provider are empty: no named provider's folder is called
      that, because every such name keeps the dash of " - ". */
  lemma FolderNameFallback(codProv: string, prov: string)
    ensures FolderName(codProv, prov) == "SIN_PROVEEDOR" <==> codProv == "" && prov == ""
  {
    if codProv != "" || prov != "" {
      DashKept(codProv + " - " + prov);
      assert forall k :: 0 <= k < |"SIN_PROVEEDOR"| ==> "SIN_PROVEEDOR"[k] != '-';
    }
  }

  /** The base name is never empty, since it always holds the dash of
      " - ": the fallback `fila_<i+1>` is never taken. */
  lemma BaseNameNeverFallback(i: nat, codArt: Cell, refProv: string)
    ensures BaseName(i, codArt, refProv) == SafeName(Strip(CellStr(codArt) + " - " + refProv))
    ensures '-' in BaseName(i, codArt, refProv)
  {
    var s := CellStr(codArt) + " - " + refProv;
    assert s[|CellStr(codArt)| + 1] == '-';
    StripKeeps(s, '-');
    DashKept(Strip(s));
  }

  /** `safe_name` keeps a dash. */
  lemma DashKept(s: string)
    requires '-' in s
    ensures '-' in SafeName(s)
  {
    StripKeeps(s, '-');
    ReplaceRunsKeeps(Strip(s), Forbidden, " ", '-');
    ReplaceRunsKeeps(ReplaceRuns(Strip(s), Forbidden, " "), IsSpace, " ", '-');
  }

  // --------------------------------------------------------- content types

  /** Lower-casing the content type first, as both downloads do, changes
      neither test. */
  lemma ContentTypeLowered(ct: string)
    ensures IsPdfContentType(Lower(ct)) == IsPdfContentType(ct)
    ensures IsImageContentType(Lower(ct)) == IsImageContentType(ct)
  {
    LowerLower(ct);
  }

  /** A PDF is accepted exactly when the content type mentions
      application/pdf or the URL ends in ".pdf", in any casing. */
  lemma AcceptPdfIff(url: string, ct: string)
    ensures AcceptPdf(url, ct) <==> Contains(Lower(ct), "application/pdf") || EndsWith(Lower(url), ".pdf")
  {
    ContentTypeLowered(ct);
  }

  /** An image is accepted exactly when the content type starts with
      "image/" or the URL ends in a known image extension, in any casing. */
  lemma AcceptImageIff(url: string, ct: string)
    ensures AcceptImage(url, ct) <==> StartsWith(Lower(ct), "image/") || ImageUrl(url)
  {
    ContentTypeLowered(ct);
  }

  /** The URL test rescues a reply without a content type, and `$` also
      matches before a final newline. */
  lemma ImageUrlExamples()
    ensures AcceptImage("x.PNG\n", "")
    ensures AcceptPdf("F.PDF", "")
    ensures !AcceptPdf("f", "text/html")
  {
    var u := "x.PNG\n";
    assert Lower(u) == "x.png\n";
    assert "png" in IMAGE_EXTS;
    assert EndsWith(Lower(u), "." + "png" + "\n");
    assert Lower("F.PDF") == "f.pdf";
  }

  // ------------------------------------------------------------ exclusion

  /** Step 1 agrees with the exclusion rule of the enrichment script: the
      row is dropped exactly when FAMARA occurs in the normalised provider. */
  lemma ExclusionAgrees(prov: string)
    ensures Excluded(prov) <==> IsExcludedProvider(prov)
    ensures Excluded(prov) <==> Contains(NormText(prov), "FAMARA")
  {
    Brand.ExcludedIffFamara(prov);
    FamaraNormal();
    assert EXCLUDED == {"FAMARA"};
  }

  // ------------------------------------------------------------ one row

  /** A row stopped by step 1 or 2 adds one to its skip counter, touches no
      file and downloads nothing. */
  lemma SkippedRow(opts: Options, net: string -> Reply, net': string -> Reply, i: nat, row: DRow, t: Tally)
    requires GateOf(opts, row) != Open
    ensures DownloadRow(opts, net, i, row, t) == DownloadRow(opts, net', i, row, t)
    ensures DownloadRow(opts, net, i, row, t).files == t.files
    ensures DownloadRow(opts, net, i, row, t).stats ==
      if GateOf(opts, row) == ExcludedRow then t.stats.(skippedExcluded := t.stats.skippedExcluded + 1)
      else t.stats.(skippedProvider := t.stats.skippedProvider + 1)
  {
  }

  /** A processed row adds one to `img_ok` or `img_skip` when it has an
      image URL and nothing otherwise, the same for the PDF, and only adds
      its own two destinations to the files. */
  lemma ProcessedRow(opts: Options, net: string -> Reply, i: nat, row: DRow, t: Tally)
    requires GateOf(opts, row) == Open
    ensures var s, s' := t.stats, DownloadRow(opts, net, i, row, t).stats;
      && s'.imgOk + s'.imgSkip == s.imgOk + s.imgSkip + Inc(CleanText(row.img) != "")
      && s'.pdfOk + s'.pdfSkip == s.pdfOk + s.pdfSkip + Inc(CleanText(row.pdf) != "")
      && s'.(imgOk := s.imgOk, imgSkip := s.imgSkip, pdfOk := s.pdfOk, pdfSkip := s.pdfSkip) == s
    ensures t.files <= DownloadRow(opts, net, i, row, t).files <= t.files + {ImageDest(i, row), PdfDest(i, row)}
  {
  }

  /** An image already on disk is kept without `--overwrite`: it counts as
      skipped whatever the server would answer. */
  lemma ImageKept(opts: Options, net: string -> Reply, i: nat, row: DRow, t: Tally)
    requires GateOf(opts, row) == Open && CleanText(row.img) != ""
    requires ImageDest(i, row) in t.files && !opts.overwrite
    ensures DownloadRow(opts, net, i, row, t).stats.imgOk == t.stats.imgOk
    ensures DownloadRow(opts, net, i, row, t).stats.imgSkip == t.stats.imgSkip + 1
  {
  }

  /** The same for a PDF already on disk. */
  lemma PdfKept(opts: Options, net: string -> Reply, i: nat, row: DRow, t: Tally)
    requires GateOf(opts, row) == Open && CleanText(row.pdf) != ""
    requires PdfDest(i, row) in t.files && !opts.overwrite
    ensures DownloadRow(opts, net, i, row, t).stats.pdfOk == t.stats.pdfOk
    ensures DownloadRow(opts, net, i, row, t).stats.pdfSkip == t.stats.pdfSkip + 1
  {
  }

  /** When the image is fetched, `img_ok` grows exactly when the download
      succeeds, and then the JPEG is on disk. */
  lemma ImageFetched(opts: Options, net: string -> Reply, i: nat, row: DRow, t: Tally)
    requires GateOf(opts, row) == Open && CleanText(row.img) != ""
    requires ImageDest(i, row) !in t.files || opts.overwrite
    ensures var url, t' := CleanText(row.img), DownloadRow(opts, net, i, row, t);
      && (t'.stats.imgOk == t.stats.imgOk + 1 <==> DownloadImage(net(url), url))
      && (DownloadImage(net(url), url) ==> ImageDest(i, row) in t'.files)
  {
  }

  /** When the PDF is fetched, `pdf_ok` grows exactly when the download
      succeeds, and then the file is on disk. */
  lemma PdfFetched(opts: Options, net: string -> Reply, i: nat, row: DRow, t: Tally)
    requires GateOf(opts, row) == Open && CleanText(row.pdf) != ""
    requires PdfDest(i, row) !in t.files || opts.overwrite
    ensures var url, t' := CleanText(row.pdf), DownloadRow(opts, net, i, row, t);
      && (t'.stats.pdfOk == t.stats.pdfOk + 1 <==> DownloadPdf(net(url), url))
      && (DownloadPdf(net(url), url) ==> PdfDest(i, row) in t'.files)
  {
  }

  // ------------------------------------------------------------ the run

  /** The number of rows of `rows` that `GateOf` sends to `g`. */
  function GateCount(opts: Options, rows: seq<DRow>, g: Gate): (n: nat)
    ensures n <= |rows|
  {
    if rows == [] then 0
    else GateCount(opts, rows[..|rows| - 1], g) + Inc(GateOf(opts, rows[|rows| - 1]) == g)
  }

  /** The number of processed rows with an image URL (`pdf` false) or a PDF
      URL (`pdf` true). */
  function UrlCount(opts: Options, rows: seq<DRow>, pdf: bool): (n: nat)
    ensures n <= GateCount(opts, rows, Open)
  {
    if rows == [] then 0
    else
      var row := rows[|rows| - 1];
      var url := if pdf then CleanText(row.pdf) else CleanText(row.img);
      UrlCount(opts, rows[..|rows| - 1], pdf) + Inc(GateOf(opts, row) == Open && url != "")
  }

  /** Every row lands in exactly one of the three gates. */
  lemma {:induction false} GateCountsPartition(opts: Options, rows: seq<DRow>)
    ensures GateCount(opts, rows, ExcludedRow) + GateCount(opts, rows, FilteredRow) + GateCount(opts, rows, Open) == |rows|
  {
    if rows != [] {
      GateCountsPartition(opts, rows[..|rows| - 1]);
    }
  }

  /** What one row adds to each total. */
  lemma RowDeltas(opts: Options, net: string -> Reply, i: nat, row: DRow, t: Tally)
    ensures var s, s' := t.stats, DownloadRow(opts, net, i, row, t).stats;
      && s'.rows == s.rows
      && s'.skippedExcluded == s.skippedExcluded + Inc(GateOf(opts, row) == ExcludedRow)
      && s'.skippedProvider == s.skippedProvider + Inc(GateOf(opts, row) == FilteredRow)
      && s'.imgOk + s'.imgSkip == s.imgOk + s.imgSkip + Inc(GateOf(opts, row) == Open && CleanText(row.img) != "")
      && s'.pdfOk + s'.pdfSkip == s.pdfOk + s.pdfSkip + Inc(GateOf(opts, row) == Open && CleanText(row.pdf) != "")
    ensures t.files <= DownloadRow(opts, net, i, row, t).files
  {
    if GateOf(opts, row) == Open {
      ProcessedRow(opts, net, i, row, t);
    } else {
      SkippedRow(opts, net, net, i, row, t);
    }
  }

  /** The counters after a stretch of rows: each skip counter grows by the
      rows of its gate, each pair of download counters by the processed rows
      with that URL, and no file disappears. */
  lemma {:induction false} DownloadRowsTotals(opts: Options, net: string -> Reply, rows: seq<DRow>, t: Tally)
    ensures var s, s' := t.stats, DownloadRows(opts, net, rows, t).stats;
      && s'.rows == s.rows
      && s'.skippedExcluded == s.skippedExcluded + GateCount(opts, rows, ExcludedRow)
      && s'.skippedProvider == s.skippedProvider + GateCount(opts, rows, FilteredRow)
      && s'.imgOk + s'.imgSkip == s.imgOk + s.imgSkip + UrlCount(opts, rows, false)
      && s'.pdfOk + s'.pdfSkip == s.pdfOk + s.pdfSkip + UrlCount(opts, rows, true)
    ensures t.files <= DownloadRows(opts, net, rows, t).files
    decreases |rows|
  {
    if rows != [] {
      var n := |rows| - 1;
      DownloadRowsTotals(opts, net, rows[..n], t);
      RowDeltas(opts, net, n, rows[n], DownloadRows(opts, net, rows[..n], t));
    }
  }

  /** The final `stats` of `main`: `rows` is the number of rows, and every
      row is either skipped by one rule or processed; the files on disk
      before the run are still there. */
  lemma DownloadAllTotals(opts: Options, net: string -> Reply, rows: seq<DRow>, existing: set<Dest>)
    ensures var s := DownloadAll(opts, net, rows, existing).stats;
      && s.rows == |rows|
      && s.skippedExcluded == GateCount(opts, rows, ExcludedRow)
      && s.skippedProvider == GateCount(opts, rows, FilteredRow)
      && s.imgOk + s.imgSkip == UrlCount(opts, rows, false)
      && s.pdfOk + s.pdfSkip == UrlCount(opts, rows, true)
      && s.skippedExcluded + s.skippedProvider + GateCount(opts, rows, Open) == |rows|
    ensures existing <= DownloadAll(opts, net, rows, existing).files
  {
    DownloadRowsTotals(opts, net, rows, Tally(Stats(|rows|, 0, 0, 0, 0, 0, 0), existing));
    GateCountsPartition(opts, rows);
  }
}

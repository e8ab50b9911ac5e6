/** What the model of the older download script
    (GH_CATALOGO_TEMPLATE/GH_CATALOGO_TEMPLATE/scripts/download_catalog.py)
    guarantees: clean key fields, the order of the content-type lookup, the
    pathlib suffix round trip, the outcomes of `download`, and what the loop
    counts. */
module TemplateFacts {
  import opened Base
  import opened Text
  import opened Cells
  import opened Brand
  import opened Download
  import opened Template

  // ------------------------------------------------------------- sanitize

  /** No character of `s` is forbidden in a file name. */
  predicate NoForbidden(s: string) {
    forall i :: 0 <= i < |s| ==> !Forbidden(s[i])
  }

  /** `s` neither starts nor ends with whitespace. */
  predicate Trimmed(s: string) {
    s == [] || (!IsSpace(s[0]) && !IsSpace(s[|s| - 1]))
  }

  /** `sanitize` leaves no forbidden character and no surrounding
      whitespace. */
  lemma SanitizeTextClean(s: string)
    ensures NoForbidden(SanitizeText(s)) && Trimmed(SanitizeText(s))
  {
    var a := Strip(s);
    StripSpec(s);
    ReplaceRunsSpec(a, Forbidden, "-");
    if a != [] {
      ReplaceRunsLast(a, Forbidden, "-");
    }
  }

  lemma SanitizeClean(c: Cell)
    ensures NoForbidden(Sanitize(c)) && Trimmed(Sanitize(c))
  {
    if !c.Null? {
      SanitizeTextClean(CellStr(c));
    }
  }

  /** Sanitising a sanitised field changes nothing. */
  lemma SanitizeIdempotent(c: Cell)
    ensures Sanitize(Str(Sanitize(c))) == Sanitize(c)
  {
    var r := Sanitize(c);
    SanitizeClean(c);
    StripNoop(r);
    ReplaceRunsNone(r, Forbidden, "-");
  }

  /** A key field is missing exactly when the cell is `None` or its text is
      blank. */
  lemma SanitizeEmptyIff(c: Cell)
    ensures Sanitize(c) == "" <==> c.Null? || Strip(CellStr(c)) == ""
  {
    if !c.Null? {
      ReplaceRunsSpec(Strip(CellStr(c)), Forbidden, "-");
      assert Sanitize(c) == ReplaceRuns(Strip(CellStr(c)), Forbidden, "-");
    }
  }

  /** pandas reads an empty cell as NaN, which `sanitize` turns into
      "nan": a row whose key cells are all empty is not skipped, and an
      empty URL cell is tried as the URL "nan". */
  lemma EmptyCellsAreNotMissing(row: TRow)
    requires row.codArt == NaN && row.refProv == NaN && row.prov == NaN && row.codProv == NaN
    ensures Sanitize(NaN) == "nan" && UrlOf(NaN) == "nan"
    ensures !MissingKey(row)
  {
    var s := "nan";
    assert !IsSpace(s[0]) && !IsSpace(s[2]);
    StripNoop(s);
    ReplaceRunsNone(s, Forbidden, "-");
  }

  // --------------------------------------------------------- ext_from_ct

  /** The keywords of `ext_from_ct` in the order they are tried, and the
      suffix each asks for. */
  const CT_KEYS: seq<string> := ["pdf", "jpeg", "jpg", "png", "gif", "webp"]
  const CT_EXTS: seq<string> := [".pdf", ".jpg", ".jpg", ".png", ".gif", ".webp"]

  /** `ext_from_ct` is a first-match lookup: the suffix of the first
      keyword, in the order above, that occurs in the lower-cased content
      type; `None` for an empty content type or when none occurs. */
  lemma ExtFromCtFirstMatch(ct: string)
    ensures ExtFromCt(ct) ==
      if ct == "" then None
      else
        var k := FirstContained(CT_KEYS, Lower(ct));
        if k < |CT_KEYS| then Some(CT_EXTS[k]) else None
  {
    if ct != "" {
      var l := Lower(ct);
      FirstContainedSpec(CT_KEYS, l);
      var k := FirstContained(CT_KEYS, l);
      assert CT_KEYS[0] == "pdf" && CT_KEYS[1] == "jpeg" && CT_KEYS[2] == "jpg";
      assert CT_KEYS[3] == "png" && CT_KEYS[4] == "gif" && CT_KEYS[5] == "webp";
      if k > 0 { assert !Contains(l, CT_KEYS[0]); }
      if k > 1 { assert !Contains(l, CT_KEYS[1]); }
      if k > 2 { assert !Contains(l, CT_KEYS[2]); }
      if k > 3 { assert !Contains(l, CT_KEYS[3]); }
      if k > 4 { assert !Contains(l, CT_KEYS[4]); }
      if k > 5 { assert !Contains(l, CT_KEYS[5]); }
    }
  }

  /** Every suffix `ext_from_ct` returns is a dot and a dotless word. */
  lemma ExtFromCtShape(ct: string)
    requires ExtFromCt(ct).Some?
    ensures var e := ExtFromCt(ct).value; |e| >= 2 && e[0] == '.' && '.' !in e[1..]
  {
  }

  /** No keyword occurs in "image/bmp", so a BMP keeps the name it was
      given, `.jpg` included. */
  lemma BmpHasNoExt()
    ensures ExtFromCt("image/bmp") == None
  {
    var l := "image/bmp";
    assert Lower("image/bmp") == l;
    NotContained(l, "pdf", 0);
    NotContained(l, "jpeg", 0);
    NotContained(l, "jpg", 0);
    NotContained(l, "png", 0);
    NotContained(l, "gif", 1);
    NotContained(l, "webp", 0);
  }

  /** A word whose `m`-th letter is missing from every place in `s`
      where it would have to be does not occur in `s`. */
  lemma NotContained(s: string, p: string, m: nat)
    requires m < |p|
    requires forall j :: m <= j <= |s| - |p| + m ==> s[j] != p[m]
    ensures !Contains(s, p)
  {
    forall k | 0 <= k <= |s| - |p| ensures !OccursAt(s, p, k) {
      assert s[k..k + |p|][m] == s[k + m];
    }
  }

  // ------------------------------------------------------ pathlib suffix

  /** `LastDot` is the last dot: there is none, or there is one and none
      after it. */
  lemma {:induction false} LastDotSpec(name: string)
    ensures LastDot(name) == -1 ==> '.' !in name
    ensures LastDot(name) >= 0 ==> name[LastDot(name)] == '.' && '.' !in name[LastDot(name) + 1..]
    decreases |name|
  {
    if name != [] && name[|name| - 1] != '.' {
      var p := name[..|name| - 1];
      LastDotSpec(p);
      if LastDot(p) == -1 {
        assert name == p + [name[|name| - 1]];
      } else {
        assert name[LastDot(p) + 1..] == p[LastDot(p) + 1..] + [name[|name| - 1]];
      }
    }
  }

  /** A dot with no dot after it is the last dot. */
  lemma {:induction false} LastDotIs(name: string, k: nat)
    requires k < |name| && name[k] == '.' && '.' !in name[k + 1..]
    ensures LastDot(name) == k
    decreases |name|
  {
    if k < |name| - 1 {
      var p := name[..|name| - 1];
      assert name[|name| - 1] in name[k + 1..];
      assert p[k + 1..] <= name[k + 1..];
      LastDotIs(p, k);
    }
  }

  /** `with_suffix(s)` followed by `.suffix` gives back `s`, for a suffix
      made of a dot and a dotless word and a non-empty name. */
  lemma SuffixOfWithSuffix(d: Dest, s: string)
    requires d.file != ""
    requires |s| >= 2 && s[0] == '.' && '.' !in s[1..]
    ensures Suffix(WithSuffix(d, s).file) == s
    ensures Stem(WithSuffix(d, s).file) == Stem(d.file)
    ensures WithSuffix(d, s).tree == d.tree && WithSuffix(d, s).folder == d.folder
  {
    var stem := Stem(d.file);
    assert stem != [];
    var n := stem + s;
    assert n[|stem|..] == s;
    assert n[|stem| + 1..] == s[1..];
    LastDotIs(n, |stem|);
    assert n[..|stem|] == stem;
  }

  // ------------------------------------------------------------ download

  /** `download` fails exactly on an exception or a status other than 200;
      a failure leaves the files alone and reports "HTTP <code>" for a bad
      status or the exception's message. */
  lemma FetchFails(dest: Dest, a: Answer, forceJpg: bool, files: set<Dest>)
    ensures var d := Fetch(dest, a, forceJpg, files);
      && (!d.ok <==> a.Raised? || a.code != 200 || a.writeError.Some?)
      && (!d.ok ==> d.files == files)
      && (a.Raised? ==> d.msg == a.msg)
      && (a.Response? && a.code != 200 ==> d.msg == "HTTP " + IntToString(a.code))
      && (d.ok ==> d.msg == "OK")
  {
  }

  /** A successful download writes the body under the name the content
      type asks for, and `force_jpg` replaces a convertible non-JPEG image
      by its `.jpg` twin; nothing else changes. */
  lemma FetchWrites(dest: Dest, a: Answer, forceJpg: bool, files: set<Dest>)
    requires Fetch(dest, a, forceJpg, files).ok
    ensures var saved, d := SavedAs(dest, a.ct), Fetch(dest, a, forceJpg, files);
      if NeedsJpeg(forceJpg, a.ct, saved) && a.convertible
      then d.files == (files + {WithSuffix(saved, ".jpg")}) - {saved}
      else d.files == files + {saved}
  {
  }

  /** Everything a download adds is in the folder of its destination. */
  lemma FetchStaysInFolder(dest: Dest, a: Answer, forceJpg: bool, files: set<Dest>)
    ensures forall f :: f in Fetch(dest, a, forceJpg, files).files && f !in files ==>
      f.tree == dest.tree && f.folder == dest.folder
  {
  }

  /** The body is written under the suffix the content type asks for. */
  lemma SavedSuffix(dest: Dest, ct: string)
    requires dest.file != "" && ExtFromCt(ct).Some?
    ensures Suffix(SavedAs(dest, ct).file) == ExtFromCt(ct).value
  {
    ExtFromCtShape(ct);
    SuffixOfWithSuffix(dest, ExtFromCt(ct).value);
  }

  /** With `force_jpg`, an image that the library can convert ends as a
      file with a JPEG suffix. */
  lemma ForcedImageIsJpeg(dest: Dest, a: Answer, files: set<Dest>)
    requires dest.file != ""
    requires Fetch(dest, a, true, files).ok && a.convertible && Contains(Lower(a.ct), "image")
    ensures exists f :: (f in Fetch(dest, a, true, files).files &&
      (Lower(Suffix(f.file)) == ".jpg" || Lower(Suffix(f.file)) == ".jpeg"))
  {
    var saved := SavedAs(dest, a.ct);
    assert saved.file != "" by {
      if ExtFromCt(a.ct).Some? {
        ExtFromCtShape(a.ct);
      }
    }
    if NeedsJpeg(true, a.ct, saved) {
      var jpg := WithSuffix(saved, ".jpg");
      SuffixOfWithSuffix(saved, ".jpg");
      assert Lower(".jpg") == ".jpg";
      assert jpg != saved;
      assert jpg in Fetch(dest, a, true, files).files;
    } else {
      assert saved in Fetch(dest, a, true, files).files;
    }
  }

  /** A BMP answer with `force_jpg` is written as is under the `.jpg`
      name: no suffix is asked for, and the name already has a JPEG
      suffix, so nothing is converted. */
  lemma BmpKeptUnderJpegName(dest: Dest, files: set<Dest>, convertible: bool)
    requires Suffix(dest.file) == ".jpg"
    ensures Fetch(dest, Response(200, "image/bmp", None, convertible), true, files) ==
      Done(true, "OK", files + {dest})
  {
    BmpHasNoExt();
    assert Lower(".jpg") == ".jpg";
  }

  // ------------------------------------------------------------ the loop

  /** The text of the path `download` is given, as `str(path)` spells it. */
  function PathText(d: Dest): string {
    "CATALOGO/" + (if d.tree == Images then "IMAGENES" else "FICHAS") + "/" + d.folder + "/" + d.file
  }

  /** The check after the PDF download never fires: the path it tests
      always ends in ".pdf". */
  lemma PdfCheckNeverFires(row: TRow)
    ensures EndsWith(Lower(PathText(PdfPath(row))), ".pdf")
  {
    var t := PathText(PdfPath(row));
    assert t[|t| - 4..] == ".pdf";
    assert Lower(t)[|t| - 4..] == ".pdf";
  }

  /** Both destinations of a row are made of sanitised fields and " - ",
      so neither the folder nor the file name holds a forbidden character. */
  lemma PathsClean(row: TRow)
    ensures NoForbidden(ImagePath(row).folder) && NoForbidden(ImagePath(row).file)
    ensures NoForbidden(PdfPath(row).file) && PdfPath(row).folder == ImagePath(row).folder
  {
    SanitizeClean(row.codArt);
    SanitizeClean(row.refProv);
    SanitizeClean(row.prov);
    SanitizeClean(row.codProv);
    var dash, jpg, pdf := " - ", ".jpg", ".pdf";
    assert NoForbidden(dash) && NoForbidden(jpg) && NoForbidden(pdf);
    NoForbiddenJoin(Sanitize(row.codProv), dash, Sanitize(row.prov), "");
    NoForbiddenJoin(Sanitize(row.codArt), dash, Sanitize(row.refProv), jpg);
    NoForbiddenJoin(Sanitize(row.codArt), dash, Sanitize(row.refProv), pdf);
  }

  /** Joining clean pieces gives a clean name. */
  lemma NoForbiddenJoin(a: string, b: string, c: string, d: string)
    requires NoForbidden(a) && NoForbidden(b) && NoForbidden(c) && NoForbidden(d)
    ensures NoForbidden(a + b + c + d)
  {
    var s := a + b + c + d;
    forall i | 0 <= i < |s| ensures !Forbidden(s[i]) {
      if i < |a| { assert s[i] == a[i]; }
      else if i < |a| + |b| { assert s[i] == b[i - |a|]; }
      else if i < |a| + |b| + |c| { assert s[i] == c[i - |a| - |b|]; }
      else { assert s[i] == d[i - |a| - |b| - |c|]; }
    }
  }

  /** A row with a missing key field changes nothing. */
  lemma MissingKeySkips(net: string -> Answer, row: TRow, p: Progress)
    requires MissingKey(row)
    ensures TemplateRow(net, row, p) == p
  {
  }

  /** `with_url` grows by the URLs of a row with its key fields present,
      whatever the downloads bring. */
  lemma RowCountsUrls(net: string -> Answer, net': string -> Answer, row: TRow, p: Progress)
    ensures TemplateRow(net, row, p).withUrl ==
      p.withUrl + (if MissingKey(row) then 0 else Inc(UrlOf(row.img) != "") + Inc(UrlOf(row.pdf) != ""))
    ensures TemplateRow(net, row, p).withUrl == TemplateRow(net', row, p).withUrl
  {
  }

  /** What a row adds to the disk lies in the row's provider folder. */
  lemma RowStaysInFolder(net: string -> Answer, row: TRow, p: Progress)
    ensures forall f :: f in TemplateRow(net, row, p).files && f !in p.files ==>
      f.folder == ImagePath(row).folder
  {
    if !MissingKey(row) {
      var uimg, updf := UrlOf(row.img), UrlOf(row.pdf);
      var f1 := FilesAfterUrl(net, uimg, ImagePath(row), true, p.files);
      if uimg != "" {
        FetchStaysInFolder(ImagePath(row), net(uimg), true, p.files);
      }
      if updf != "" {
        FetchStaysInFolder(PdfPath(row), net(updf), false, f1);
      }
    }
  }

  /** The URLs of the rows with their key fields present. */
  function UrlsTried(rows: seq<TRow>): (n: nat)
    ensures n <= 2 * |rows|
  {
    if rows == [] then 0
    else
      var row := rows[|rows| - 1];
      UrlsTried(rows[..|rows| - 1]) + (if MissingKey(row) then 0 else Inc(UrlOf(row.img) != "") + Inc(UrlOf(row.pdf) != ""))
  }

  /** The final `with_url` counts every URL of every row with its key
      fields present, successful or not; so it does not depend on what the
      servers answer. */
  lemma {:induction false} WithUrlCountsTries(net: string -> Answer, rows: seq<TRow>, p: Progress)
    ensures TemplateRows(net, rows, p).withUrl == p.withUrl + UrlsTried(rows)
    decreases |rows|
  {
    if rows != [] {
      var n := |rows| - 1;
      WithUrlCountsTries(net, rows[..n], p);
      RowCountsUrls(net, net, rows[n], TemplateRows(net, rows[..n], p));
    }
  }
}

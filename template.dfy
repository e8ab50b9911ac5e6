/** GH_CATALOGO_TEMPLATE/GH_CATALOGO_TEMPLATE/scripts/download_catalog.py,
    the older download script: every row with its four key fields present
    gets its image and its PDF downloaded into
    `CATALOGO/IMAGENES/<cod_prov> - <proveedor>/<cod_art> - <ref_prov>.jpg`
    and the same under `FICHAS` with `.pdf`; the file suffix follows the
    content type the server sends, and images that are not JPEG are
    converted.  `with_url` counts the URLs the loop tried. */
module Template {
  import opened Base
  import opened Text
  import opened Cells
  import opened Download

  /** `sanitize(s)`: `None` gives ""; otherwise strip `str(s)` and turn
      every run of forbidden characters into one dash. */
  function Sanitize(c: Cell): string {
    if c.Null? then "" else SanitizeText(CellStr(c))
  }

  /** `sanitize` on the text `str(s)`. */
  function SanitizeText(s: string): string {
    ReplaceRuns(Strip(s), Forbidden, "-")
  }

  /** `ext_from_ct(ct)`: the file suffix a content type asks for, looked
      up case-insensitively in the order pdf, jpeg or jpg, png, gif, webp. */
  function ExtFromCt(ct: string): Option<string> {
    if ct == "" then None
    else
      var l := Lower(ct);
      if Contains(l, "pdf") then Some(".pdf")
      else if Contains(l, "jpeg") || Contains(l, "jpg") then Some(".jpg")
      else if Contains(l, "png") then Some(".png")
      else if Contains(l, "gif") then Some(".gif")
      else if Contains(l, "webp") then Some(".webp")
      else None
  }

  // ------------------------------------------------- pathlib file suffixes

  /** `name.rfind('.')`: the index of the last dot, -1 when there is none. */
  function LastDot(name: string): (k: int)
    ensures -1 <= k < |name|
  {
    if name == [] then -1
    else if name[|name| - 1] == '.' then |name| - 1
    else LastDot(name[..|name| - 1])
  }

  /** The last dot starts a suffix when it is neither the first nor the
      last character of the name. */
  predicate HasSuffix(name: string) {
    0 < LastDot(name) < |name| - 1
  }

  /** `PurePath.suffix`. */
  function Suffix(name: string): string {
    if HasSuffix(name) then name[LastDot(name)..] else ""
  }

  /** The name without its suffix. */
  function Stem(name: string): string {
    if HasSuffix(name) then name[..LastDot(name)] else name
  }

  /** `PurePath.with_suffix(s)` on the last component of a path. */
  function WithSuffix(d: Dest, s: string): Dest {
    d.(file := Stem(d.file) + s)
  }

  // ------------------------------------------------------------ download

  /** What one `session.get` brings: an exception with its message, or a
      response with its status code, its `Content-Type` ("" when absent),
      the message of an exception raised while the body is written (`None`
      when it is written), and whether the image library can read and
      re-save the written file. */
  datatype Answer =
    | Raised(msg: string)
    | Response(code: int, ct: string, writeError: Option<string>, convertible: bool)

  /** The result of `download` and the files on disk afterwards. */
  datatype Done = Done(ok: bool, msg: string, files: set<Dest>)

  /** The file the body is written to: `dest` with the suffix the content
      type asks for, when it asks for one. */
  function SavedAs(dest: Dest, ct: string): Dest {
    var ext := ExtFromCt(ct);
    if ext.Some? then WithSuffix(dest, ext.value) else dest
  }

  /** The `force_jpg` test: an image content type and a file whose suffix
      is not a JPEG suffix in any casing. */
  predicate NeedsJpeg(forceJpg: bool, ct: string, saved: Dest) {
    forceJpg && Contains(Lower(ct), "image") && Lower(Suffix(saved.file)) != ".jpg" && Lower(Suffix(saved.file)) != ".jpeg"
  }

  /** `download(url, dest, session, force_jpg)` when `session.get(url)`
      brings `a`, with the files on disk before. */
  function Fetch(dest: Dest, a: Answer, forceJpg: bool, files: set<Dest>): Done {
    match a
    case Raised(msg) => Done(false, msg, files)
    case Response(code, ct, writeError, convertible) =>
      if code != 200 then Done(false, "HTTP " + IntToString(code), files)
      else if writeError.Some? then Done(false, writeError.value, files)
      else
        var saved := SavedAs(dest, ct);
        var written := files + {saved};
        if NeedsJpeg(forceJpg, ct, saved) && convertible then
          Done(true, "OK", (written + {WithSuffix(saved, ".jpg")}) - {saved})
        else Done(true, "OK", written)
  }

  /** `download`: `dest` is reassigned as the response is handled. */
  method DownloadTo(dest: Dest, a: Answer, forceJpg: bool, files: set<Dest>)
    returns (ok: bool, msg: string, files': set<Dest>)
    ensures Done(ok, msg, files') == Fetch(dest, a, forceJpg, files)
  {
    files' := files;
    if a.Raised? {
      return false, a.msg, files';
    }
    if a.code != 200 {
      return false, "HTTP " + IntToString(a.code), files';
    }
    var d := dest;
    var ext := ExtFromCt(a.ct);
    if ext.Some? {
      d := WithSuffix(d, ext.value);
    }
    if a.writeError.Some? {
      return false, a.writeError.value, files';
    }
    files' := files' + {d};
    if NeedsJpeg(forceJpg, a.ct, d) && a.convertible {
      var jpg := WithSuffix(d, ".jpg");
      files' := files' + {jpg};
      files' := files' - {d};
    }
    return true, "OK", files';
  }

  // ------------------------------------------------------------ the loop

  /** The columns the loop reads. */
  datatype TRow = TRow(codArt: Cell, refProv: Cell, prov: Cell, codProv: Cell, img: Cell, pdf: Cell)

  /** `with_url` and the files on disk. */
  datatype Progress = Progress(withUrl: nat, files: set<Dest>)

  /** The test at the start of the loop body: some key field sanitises to "". */
  predicate MissingKey(row: TRow) {
    Sanitize(row.codArt) == "" || Sanitize(row.refProv) == "" || Sanitize(row.prov) == "" || Sanitize(row.codProv) == ""
  }

  /** `str(v or "").strip()` for a URL cell. */
  function UrlOf(c: Cell): string {
    Strip(OrEmpty(c))
  }

  /** The image destination of a row. */
  function ImagePath(row: TRow): Dest {
    Dest(Images, Sanitize(row.codProv) + " - " + Sanitize(row.prov), Sanitize(row.codArt) + " - " + Sanitize(row.refProv) + ".jpg")
  }

  /** The PDF destination of a row. */
  function PdfPath(row: TRow): Dest {
    Dest(Fichas, Sanitize(row.codProv) + " - " + Sanitize(row.prov), Sanitize(row.codArt) + " - " + Sanitize(row.refProv) + ".pdf")
  }

  /** The files after one URL of a processed row: nothing happens without
      a URL. */
  function FilesAfterUrl(net: string -> Answer, url: string, dest: Dest, forceJpg: bool, files: set<Dest>): set<Dest> {
    if url != "" then Fetch(dest, net(url), forceJpg, files).files else files
  }

  /** One pass of the loop body, with `net(url)` what fetching `url` brings. */
  function TemplateRow(net: string -> Answer, row: TRow, p: Progress): Progress {
    if MissingKey(row) then p else Downloads(net, row, p)
  }

  /** The two downloads of a row with its key fields present. */
  function Downloads(net: string -> Answer, row: TRow, p: Progress): Progress {
    var uimg, updf := UrlOf(row.img), UrlOf(row.pdf);
    var files1 := FilesAfterUrl(net, uimg, ImagePath(row), true, p.files);
    var files2 := FilesAfterUrl(net, updf, PdfPath(row), false, files1);
    Progress(p.withUrl + Inc(uimg != "") + Inc(updf != ""), files2)
  }

  /** The loop over `rows` in order, from `p`. */
  function TemplateRows(net: string -> Answer, rows: seq<TRow>, p: Progress): Progress
    decreases |rows|
  {
    if rows == [] then p
    else TemplateRow(net, rows[|rows| - 1], TemplateRows(net, rows[..|rows| - 1], p))
  }

  /** The loop of `main`: `with_url` and the files are updated row by row. */
  method RunTemplate(net: string -> Answer, rows: seq<TRow>, existing: set<Dest>)
    returns (withUrl: nat, files: set<Dest>)
    ensures Progress(withUrl, files) == TemplateRows(net, rows, Progress(0, existing))
  {
    withUrl, files := 0, existing;
    for i := 0 to |rows|
      invariant Progress(withUrl, files) == TemplateRows(net, rows[..i], Progress(0, existing))
    {
      assert rows[..i + 1][..i] == rows[..i];
      withUrl, files := VisitTemplateRow(net, rows[i], withUrl, files);
    }
    assert rows[..|rows|] == rows;
  }

  /** The body of the loop of `main`. */
  method VisitTemplateRow(net: string -> Answer, row: TRow, withUrl: nat, files: set<Dest>)
    returns (withUrl': nat, files': set<Dest>)
    ensures Progress(withUrl', files') == TemplateRow(net, row, Progress(withUrl, files))
  {
    withUrl', files' := withUrl, files;
    if MissingKey(row) {
      return;
    }
    withUrl', files' := DownloadBoth(net, row, withUrl, files);
  }

  /** The two downloads of a row with its key fields present. */
  method DownloadBoth(net: string -> Answer, row: TRow, withUrl: nat, files: set<Dest>)
    returns (withUrl': nat, files': set<Dest>)
    ensures Progress(withUrl', files') == Downloads(net, row, Progress(withUrl, files))
  {
    var uimg, updf := UrlOf(row.img), UrlOf(row.pdf);
    files' := TryUrl(net, uimg, ImagePath(row), true, files);
    files' := TryUrl(net, updf, PdfPath(row), false, files');
    withUrl' := withUrl + Inc(uimg != "") + Inc(updf != "");
  }

  /** `if url: download(url, dest, ...)`; the result is only printed. */
  method TryUrl(net: string -> Answer, url: string, dest: Dest, forceJpg: bool, files: set<Dest>)
    returns (files': set<Dest>)
    ensures files' == FilesAfterUrl(net, url, dest, forceJpg, files)
  {
    files' := files;
    if url != "" {
      var ok, msg;
      ok, msg, files' := DownloadTo(dest, net(url), forceJpg, files);
    }
  }
}

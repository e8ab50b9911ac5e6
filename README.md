# Catalogue URL enrichment and download, modelled in Dafny

The repository keeps a product catalogue in a spreadsheet. Each row has an
article code, a supplier reference, a supplier name and code, and two URL
columns: the official product image and the technical data sheet (PDF).
Three scripts work on that sheet, and this project models all three.

- `scripts/enrich_urls.py` fills in missing URLs.
  - For each row of the selected range, it skips the excluded supplier (FAMARA), the rows the provider filter rejects, and the rows that already have both URLs.
  - It recognises the brand from the supplier name.
  - It searches Google Custom Search in two passes, one request per query in each: first restricted to the brand's official domains (`site:` queries), then the whole web. The `site:` pass runs only for FLUIDRA, JIMTEN, ESPA and GENEBRE, the brands that have official domains.
  - It opens the candidate pages in order, skipping marketplace and social hosts, and in the web pass also hosts that do not look like the brand's.
  - The first page that yields a PDF link or an image supplies the URLs. A URL is written only into an empty cell.
  - It writes one report record per visited row. A quota error (HTTP 429) stops the loop and keeps the work done so far.
- `scripts/download_catalog.py` downloads every row's image (converted to JPEG) and PDF.
  - Files go to `IMAGENES/<supplier folder>/<base>.jpg` and `FICHAS/<supplier folder>/<base>.pdf`.
  - It keeps counters for skipped rows and for downloaded or skipped files.
- `GH_CATALOGO_TEMPLATE/GH_CATALOGO_TEMPLATE/scripts/download_catalog.py` is the older downloader.
  - It skips rows with a missing key field.
  - It names files after the content type the server sends, and converts non-JPEG images.
  - It counts the URLs it tried.

Modules, bottom up:

| module | file | models |
|---|---|---|
| `Base` | base.dfy | `Option`, order-preserving de-duplication |
| `Text` | text.dfy | ASCII case mapping, `in`, `startswith`/`endswith`, `strip`, regex run replacement `re.sub(r"[...]+", x, s)`, `str(int)` |
| `Cells` | cells.dfy | spreadsheet cell values, `str(v)`, `str(v or "")`, `is_empty` |
| `Normalize` | normalize.dfy | `norm_text` |
| `Brand` | brand.dfy | `ALIASES`, `canonical_brand`, `is_excluded_provider` |
| `Hosts` | hosts.dfy | `BLACKLIST`, `BRAND_HINTS`, `is_blacklisted`, `looks_like_brand_site` |
| `Web` | web.dfy | the network, page parsing, `urljoin` and `host_of`, as oracles |
| `Pages` | pages.dfy | `pick_pdf_from_page`, `pick_image_from_page` |
| `Queries` | queries.dfy | `ref_variants`, `build_queries`, `build_site_queries` |
| `Enrich` | enrich.dfy | `google_search` over a query list, `try_enrich_with_hints` |
| `EnrichRun` | enrich_run.dfy | the row loop of `main` in enrich_urls.py |
| `EnrichFacts` | enrich_facts.dfy | properties of that loop |
| `Download` | download.dfy | scripts/download_catalog.py |
| `DownloadFacts` | download_facts.dfy | properties of it |
| `Template` | template.dfy | the template's download_catalog.py |
| `TemplateFacts` | template_facts.dfy | properties of it |

Conventions of the model:

- **The outside world is an oracle.**
  - `Web.Net` bundles five functions: a Custom Search query, a page fetch, a header request, `urljoin` and `host_of`. The `urljoin` oracle may fail, as `urllib.parse.urljoin` raises `ValueError` on a malformed host. A page is given as its `<a href>` values, its `og:image` content and its `<img>` elements.
  - The downloaders receive `net: string -> Reply` (or `-> Answer`): what fetching a URL brings.
  - Files are modelled as the set of `Dest` paths that exist. The set starts from an `existing` parameter.
- **Python set iteration order is a parameter.**
  - `build_queries` iterates over the set of reference variants. Its order is a sequence `order` that enumerates that set.
  - In the row loop, this is `order(ref)`.
- **Loops are methods proved against functions.**
  - The loops that build or update something are `method`s with `while` loops: `EnrichRun.Run` over the sheet as an `array`, `Download.RunDownloads`, `Template.RunTemplate`, `Base.DedupInOrder`, the query builders (`Queries.BuildQueries`, `Queries.BuildGroup`, `Queries.BuildSiteQueries`, `Queries.PrefixAll`), the search passes (`Enrich.TryEnrichWithHints`, `Enrich.Collect`, `Enrich.AddHits`, `Enrich.SelectFrom`) and the page scans (`Pages.PickPdfFromPage`, `Pages.PickImageFromPage`).
  - The short scans that only look for a first match are recursive functions or quantifiers: the two loops of `canonical_brand` (`Brand.AliasIndex`, `Brand.FirstContained`), the hint loop of `looks_like_brand_site` (a quantifier in `Hosts.LooksLikeBrandSite`) and the item loop of `google_search` (`Enrich.NonEmpty`).
  - Each such method ensures that its result equals a recursive function of its inputs.
  - The `*Facts` modules prove what the scripts promise about those functions.

## Model

| member | source | states |
|---|---|---|
| Base.DedupInOrder | scripts/enrich_urls.py:229-234 | the seen/ordered loop returns `Dedup(s)`: its first-occurrence de-duplication |
| Base.DedupAfter | scripts/enrich_urls.py:229-234 | the de-duplicated list has no repeats and holds exactly the input's elements not already seen |
| Base.DedupKeepsFirstOrder | scripts/enrich_urls.py:229-234 | elements of the de-duplicated list appear in the order of their first occurrence in the input |
| Cells.OrEmpty | scripts/enrich_urls.py:328-330 | a cell that `str(v or "")` turns into blank text is empty for `is_empty`, except the number zero; NaN and the infinities are empty yet read as "nan", "inf", "-inf" |
| Cells.NaNTextIsEmpty | scripts/enrich_urls.py:70-74 | a float NaN and the text "NaN" both count as empty |
| Cells.ZeroIsNotEmpty | scripts/enrich_urls.py:70-74 | the number 0 is not empty for `is_empty`, yet `str(0 or "")` is "" |
| Normalize.NormTextShape | scripts/enrich_urls.py:76-80 | `norm_text` yields only A-Z, 0-9 and single inner spaces, with no leading or trailing space |
| Normalize.NormTextIdempotent | scripts/download_catalog.py:54-58 | `norm_text(norm_text(s)) == norm_text(s)` |
| Normalize.NormTextUpper | scripts/enrich_urls.py:76-80 | upper-casing the input first changes nothing |
| Normalize.DecomposedAccentDropped | scripts/enrich_urls.py:78-80 | a combining accent already in the input is dropped, not turned into a separator: "CAFE" + U+0301 + "S" gives "CAFES" |
| Brand.CanonicalBrand | scripts/enrich_urls.py:82-95 | the result is always "" or one of the four brand tags |
| Brand.CanonicalBrandEmpty | scripts/enrich_urls.py:84-86 | a supplier that normalises to "" has no brand |
| Brand.CanonicalBrandAlias | scripts/enrich_urls.py:87-90 | a supplier whose normal form equals any alias spelling gets that alias's tag |
| Brand.AliasesDisjoint | scripts/enrich_urls.py:33-41 | no normalised spelling belongs to two tags, so the dictionary order cannot change the answer |
| Brand.CanonicalBrandContains | scripts/enrich_urls.py:91-95 | with no exact alias, the brand is the first of JIMTEN, ESPA, GENEBRE, FLUIDRA contained in the normal form, else "" |
| Brand.AstralpoolIsFluidra | scripts/enrich_urls.py:38-39 | "astralpool" is detected as FLUIDRA |
| Brand.LasNavesIsNoBrand | scripts/enrich_urls.py:40 | "Las Naves" maps to the empty brand |
| Brand.MatchesVariantIff | scripts/enrich_urls.py:88-89 | an alias entry matches exactly when one of its spellings normalises to the text |
| Brand.AliasIndexSpec | scripts/enrich_urls.py:87-90 | the alias scan stops at the first matching entry |
| Brand.FirstContainedSpec | scripts/enrich_urls.py:92-94 | the contains heuristic stops at the first tag contained in the text |
| Brand.ExcludedIffFamara | scripts/enrich_urls.py:97-99 | a supplier is excluded exactly when its normal form contains FAMARA |
| Hosts.Hints | scripts/enrich_urls.py:252 | exactly FLUIDRA, JIMTEN, ESPA and GENEBRE have hint domains |
| Hosts.HintsLowerCase | scripts/enrich_urls.py:44-52 | every hint domain is already lower case, so `dom.lower()` in `looks_like_brand_site` leaves it unchanged |
| Hosts.MatchesDomainIsSuffix | scripts/enrich_urls.py:119 | the three-way domain test is just `host.endswith(d)` |
| Hosts.LooksLikeBrandSiteIff | scripts/enrich_urls.py:110-121 | a host looks like the brand's iff the brand is non-empty and the host contains the lower-cased brand or ends with one of its hint domains |
| Hosts.FluidraHintSite | scripts/enrich_urls.py:44-48 | a host under a FLUIDRA hint domain (cepex.com) counts as a FLUIDRA site |
| Hosts.BlacklistedExample | scripts/enrich_urls.py:107-108 | an Amazon host is blacklisted; the empty host is not |
| Pages.PickPdfFromPage | scripts/enrich_urls.py:144-161 | the method's answer is `PickPdf`, whose properties follow |
| Pages.PdfScanFirst | scripts/enrich_urls.py:151-158 | the first `.pdf` link whose header says application/pdf is returned, once all links before it passed |
| Pages.PdfScanAbort | scripts/enrich_urls.py:153-160 | an `urljoin` or a header request that raises on a `.pdf` link ends the whole call with None, whatever the later links are |
| Pages.PdfScanNone | scripts/enrich_urls.py:151-161 | when every link is passed over, no PDF is found |
| Pages.PdfScanSound | scripts/enrich_urls.py:151-158 | a returned PDF is the joined URL of a confirmed link, with every earlier link passed over |
| Pages.PickPdfSound | scripts/enrich_urls.py:144-161 | a found PDF is the page itself (PDF content type) or a confirmed link of the page |
| Pages.PickImageFromPage | scripts/enrich_urls.py:163-196 | the method's answer is `PickImage`, whose properties follow |
| Pages.BestImageMax | scripts/enrich_urls.py:178-194 | when no `urljoin` raised, the best area bounds every weighed image's area, and nothing is chosen iff no weighed image has a positive area |
| Pages.BestImageRaises | scripts/enrich_urls.py:179-181 | the `<img>` loop raises exactly when the `urljoin` of some `<img>` raises |
| Pages.BestImageRaisedStays | scripts/enrich_urls.py:179-181 | once an `urljoin` has raised, no later `<img>` brings the loop back |
| Pages.BestImageFirst | scripts/enrich_urls.py:188-191 | the chosen image is weighed, has the best area, and every earlier one is strictly smaller: the first maximum wins |
| Pages.PickImageSound | scripts/enrich_urls.py:163-196 | a found image is the page itself, a confirmed og:image, or an `<img>` of maximal positive area found when no `<img>` made `urljoin` raise |
| Pages.OgImagePreferred | scripts/enrich_urls.py:170-176 | an og:image whose header says image is returned before any `<img>` is weighed |
| Pages.UnsizedNeverChosen | scripts/enrich_urls.py:188-191 | a page whose `<img>` elements all lack a width yields no `<img>` |
| Pages.PickImageJoinRaises | scripts/enrich_urls.py:179-196 | an `<img>` whose `urljoin` raises makes the whole call return None, discarding a best `<img>` already found |
| Queries.Variants | scripts/enrich_urls.py:200-211 | the variant set never contains "" |
| Queries.PlainRefVariants | scripts/enrich_urls.py:200-211 | a reference without hyphens, dots or whitespace has itself as its only variant |
| Queries.HyphenDotVariants | scripts/enrich_urls.py:206-210 | "A-1.2" has exactly the variants "A-1.2", "A1.2", "A-12"; "A12" is not among them |
| Queries.BuildQueries | scripts/enrich_urls.py:213-234 | the method returns `Queries`, the de-duplicated concatenation of the per-variant groups and the no-reference fallback |
| Queries.BuildGroup | scripts/enrich_urls.py:220-224 | one variant's group: the variant alone, with the article, with the brand, and with both |
| Queries.QueriesDistinctNonEmpty | scripts/enrich_urls.py:229-234 | the queries are distinct, none is empty, and they are exactly the raw queries as a set |
| Queries.QueriesCoverVariant | scripts/enrich_urls.py:219-224 | every query of every variant's group is among the queries |
| Queries.NoRefFallback | scripts/enrich_urls.py:226-228 | without a reference, the queries are the article and then "brand article" (when each is non-empty) |
| Queries.BlankRefNoQueries | scripts/enrich_urls.py:202-204 | a reference made only of whitespace gives no query at all, not even the article fallback |
| Queries.NanRefQueries | scripts/enrich_urls.py:213-228 | the reference "nan" is its own only variant, the article fallback gives nothing, and "nan" is the first query |
| Queries.BuildSiteQueries | scripts/enrich_urls.py:236-243 | the method returns `SiteQueries` of the domains and the base queries |
| Queries.SiteQueriesIndex | scripts/enrich_urls.py:239-243 | there are `|domains| * |base|` site queries, and entry `i*|base|+j` is "site:" + domain i + " " + query j |
| Enrich.TryEnrichWithHints | scripts/enrich_urls.py:247-278 | the method's answer is `TryEnrich` |
| Enrich.Collect | scripts/enrich_urls.py:254-263 | one search pass stops exactly as the query sequence does, and otherwise appends the unseen result URLs in order, tagged with the pass |
| Enrich.AddHits | scripts/enrich_urls.py:255-257 | the inner loop over one search's hits keeps candidates and seen equal to the de-duplicated history |
| Enrich.SearchAllStop | scripts/enrich_urls.py:127-132 | the searches stop at the first query that is not answered with hits: on 429 as a quota stop, otherwise as a failure |
| Enrich.SearchAllHits | scripts/enrich_urls.py:127-140 | when every search answers with hits, the searches run to the end |
| Enrich.CandidatesShape | scripts/enrich_urls.py:249-263 | candidates are the hint-pass then web-pass URLs, each once at first occurrence, with all hint candidates first |
| Enrich.SelectFrom | scripts/enrich_urls.py:266-278 | the selection loop's answer is `Select` |
| Enrich.SelectFirst | scripts/enrich_urls.py:266-277 | the first candidate that is admitted and yields a PDF or an image is the one returned |
| Enrich.SelectNoMatch | scripts/enrich_urls.py:266-278 | nothing is found exactly when no candidate is chosen |
| Enrich.SelectFound | scripts/enrich_urls.py:266-277 | what is found comes from a chosen candidate |
| Enrich.TryEnrichFound | scripts/enrich_urls.py:266-277 | a found page has a non-blacklisted host (a brand site in the web pass when a brand is known), and its image and PDF are what the page scans return, at least one present |
| Enrich.NoHintsWebOnly | scripts/enrich_urls.py:252-253 | a brand without hint domains can only be found in the web pass |
| EnrichRun.PlanRow | scripts/enrich_urls.py:327-363 | a skipped row's record is numbered i+1 and carries one of the three skip statuses |
| EnrichRun.CheckRow | scripts/enrich_urls.py:327-363 | the checks before the search compute `PlanRow` |
| EnrichRun.WriteBack | scripts/enrich_urls.py:365-384 | the second half of the loop body computes `Finish` |
| EnrichRun.ProcessRow | scripts/enrich_urls.py:326-384 | the loop body computes `RowStep` |
| EnrichRun.Run | scripts/enrich_urls.py:315-389 | the sheet updated in place, the records, `filled` and the outcome are those of `RunRange` over the original sheet |
| EnrichFacts.PlanRowStatus | scripts/enrich_urls.py:333-358 | a row is searched iff it is not excluded, passes the filter and lacks a URL; each skip carries its pass label and status |
| EnrichFacts.PlanRowSearch | scripts/enrich_urls.py:327-363 | a searched row uses the stripped texts and the detected brand, FLUIDRA when none is detected and the filter mentions FLUIDRA |
| EnrichFacts.NaNReferenceSearchedAsText | scripts/enrich_urls.py:326-330 | a searched row whose reference cell holds NaN is searched with the text "nan" as its reference |
| EnrichFacts.SkipNeedsNoSearch | scripts/enrich_urls.py:333-358 | a skipped row's step does not depend on the network and leaves the row unchanged |
| EnrichFacts.FinishFacts | scripts/enrich_urls.py:365-384 | a step counts as filled iff its status is "filled"; no cell that had a URL is overwritten; the loop halts iff the search raised, and on a quota error it stops rather than aborts |
| EnrichFacts.FinishFilled | scripts/enrich_urls.py:370-374 | a filled row records what was found and writes each found URL only into an empty cell |
| EnrichFacts.FilledWithoutWrite | scripts/enrich_urls.py:370-374 | a row that needed only its image, for which only a PDF was found, counts as filled with the sheet unchanged |
| EnrichFacts.RowStepFacts | scripts/enrich_urls.py:324-384 | each row's record is numbered i+1, filled agrees with the status, and no URL is overwritten |
| EnrichFacts.RowStepHalts | scripts/enrich_urls.py:365-369 | the loop stops on a row exactly when its search raises; it is a quota stop exactly when the error is a 429 |
| EnrichFacts.RowStepFilledHost | scripts/enrich_urls.py:370-381 | a filled row's host is the page's host, is not blacklisted, and in the web pass looks like the brand's |
| EnrichFacts.RowStepFilledAssets | scripts/enrich_urls.py:274-277 | a filled row's image and PDF are the page scans' answers for its page |
| EnrichFacts.RunRangeRows | scripts/enrich_urls.py:317-325 | only rows start..start+n-1 are visited, each changed by its own step; every other row is unchanged |
| EnrichFacts.RunRangeRecords | scripts/enrich_urls.py:378-384 | one record per visited row, and `filled` counts the filled steps |
| EnrichFacts.RunRangeOutcome | scripts/enrich_urls.py:324-389 | the run completes iff no visited row halts; otherwise it ends with the outcome of the first halting row |
| EnrichFacts.EnrichmentSheet | scripts/enrich_urls.py:370-372 | the sheet keeps its length, no URL cell is overwritten, and rows outside the visited range are untouched |
| EnrichFacts.EnrichmentReport | scripts/enrich_urls.py:373-384 | `filled` is the number of "filled" records, and the records are numbered start+1, start+2, ... |
| EnrichFacts.EnrichmentEnd | scripts/enrich_urls.py:317-387 | the run completes iff it wrote a record for every row of the range; otherwise the next row is the one whose search raised |
| Download.RunDownloads | scripts/download_catalog.py:186-241 | the counters and the files on disk after the loop are those of `DownloadAll` |
| Download.VisitRow | scripts/download_catalog.py:190-241 | one loop body computes `DownloadRow` |
| Download.DownloadBoth | scripts/download_catalog.py:209-241 | the image and PDF steps of a processed row compute `Downloaded` |
| Download.FetchImage | scripts/download_catalog.py:220-229 | the image step counts and saves as `FateOf` and `FilesAfter` say |
| Download.FetchPdf | scripts/download_catalog.py:232-241 | the PDF step counts and saves as `FateOf` and `FilesAfter` say |
| DownloadFacts.SafeNameClean | scripts/download_catalog.py:70-75 | a safe name has no forbidden character, only plain spaces as whitespace, and no two spaces in a row |
| DownloadFacts.SafeNameFixed | scripts/download_catalog.py:70-75 | a name that is already clean and trimmed is left unchanged |
| DownloadFacts.SafeNameTrailingSpace | scripts/download_catalog.py:72-73 | a forbidden character at the end leaves a trailing space ("a/" gives "a "), since the strip comes first |
| DownloadFacts.FolderNameFallback | scripts/download_catalog.py:209 | the folder is SIN_PROVEEDOR exactly when both the supplier code and name are empty |
| DownloadFacts.BaseNameNeverFallback | scripts/download_catalog.py:215-217 | the base name always contains the " - " dash, so the `fila_<n>` fallback never applies |
| DownloadFacts.ContentTypeLowered | scripts/download_catalog.py:82-87 | the two content-type tests ignore case |
| DownloadFacts.AcceptPdfIff | scripts/download_catalog.py:99-102 | a PDF is accepted iff the header contains application/pdf or the URL ends in .pdf, in any casing |
| DownloadFacts.AcceptImageIff | scripts/download_catalog.py:118-121 | an image is accepted iff the header starts with image/ or the URL ends in a known image extension |
| DownloadFacts.ImageUrlExamples | scripts/download_catalog.py:101-121 | "x.PNG\n" passes the image test (`$` matches before a final newline); "F.PDF" passes the PDF test; a text/html page without .pdf does not |
| DownloadFacts.ExclusionAgrees | scripts/download_catalog.py:199-201 | the downloader's exclusion test agrees with the enricher's: the normal form contains FAMARA |
| DownloadFacts.SkippedRow | scripts/download_catalog.py:199-206 | an excluded or filtered row touches no file, needs no network, and bumps only its own counter |
| DownloadFacts.ProcessedRow | scripts/download_catalog.py:219-241 | a processed row adds one ok-or-skip per URL it has, changes no other counter, and creates only its two destination files |
| DownloadFacts.ImageKept | scripts/download_catalog.py:222-223 | an existing image without --overwrite is counted as skipped, not downloaded |
| DownloadFacts.PdfKept | scripts/download_catalog.py:234-235 | an existing PDF without --overwrite is counted as skipped, not downloaded |
| DownloadFacts.ImageFetched | scripts/download_catalog.py:224-229 | `img_ok` rises iff the download succeeds, and then the image file exists |
| DownloadFacts.PdfFetched | scripts/download_catalog.py:236-241 | `pdf_ok` rises iff the download succeeds, and then the PDF file exists |
| DownloadFacts.GateCountsPartition | scripts/download_catalog.py:198-206 | every row is excluded, filtered or processed, and exactly one of these |
| DownloadFacts.RowDeltas | scripts/download_catalog.py:190-241 | per row: `rows` is fixed, each skip counter rises by its gate, ok+skip rises by each present URL, and no file disappears |
| DownloadFacts.DownloadRowsTotals | scripts/download_catalog.py:190-241 | over a run, the counters rise by the gate counts and URL counts of the rows |
| DownloadFacts.DownloadAllTotals | scripts/download_catalog.py:187-241 | the final stats: rows is the row count, skip counters count their gates, img_ok+img_skip and pdf_ok+pdf_skip count the processed rows with that URL, and existing files stay |
| Template.DownloadTo | GH_CATALOGO_TEMPLATE/GH_CATALOGO_TEMPLATE/scripts/download_catalog.py:26-49 | `download` returns the flag, the message and the files that `Fetch` describes |
| Template.RunTemplate | GH_CATALOGO_TEMPLATE/GH_CATALOGO_TEMPLATE/scripts/download_catalog.py:84-113 | `with_url` and the files after the loop are those of `TemplateRows` |
| Template.VisitTemplateRow | GH_CATALOGO_TEMPLATE/GH_CATALOGO_TEMPLATE/scripts/download_catalog.py:87-113 | one loop body computes `TemplateRow` |
| Template.DownloadBoth | GH_CATALOGO_TEMPLATE/GH_CATALOGO_TEMPLATE/scripts/download_catalog.py:99-113 | the two downloads of a complete row compute `Downloads` |
| Template.TryUrl | GH_CATALOGO_TEMPLATE/GH_CATALOGO_TEMPLATE/scripts/download_catalog.py:103-108 | a URL is downloaded only when it is non-empty |
| TemplateFacts.SanitizeClean | GH_CATALOGO_TEMPLATE/GH_CATALOGO_TEMPLATE/scripts/download_catalog.py:7-11 | a sanitised value has no forbidden character and no surrounding whitespace |
| TemplateFacts.SanitizeTextClean | GH_CATALOGO_TEMPLATE/GH_CATALOGO_TEMPLATE/scripts/download_catalog.py:9-10 | the same for the text form |
| TemplateFacts.SanitizeIdempotent | GH_CATALOGO_TEMPLATE/GH_CATALOGO_TEMPLATE/scripts/download_catalog.py:7-11 | sanitising a sanitised value changes nothing |
| TemplateFacts.SanitizeEmptyIff | GH_CATALOGO_TEMPLATE/GH_CATALOGO_TEMPLATE/scripts/download_catalog.py:7-11 | the result is "" iff the value is None or its text is blank |
| TemplateFacts.EmptyCellsAreNotMissing | GH_CATALOGO_TEMPLATE/GH_CATALOGO_TEMPLATE/scripts/download_catalog.py:88-97 | NaN cells sanitise to "nan", so a row of blank key cells is not skipped |
| TemplateFacts.ExtFromCtFirstMatch | GH_CATALOGO_TEMPLATE/GH_CATALOGO_TEMPLATE/scripts/download_catalog.py:16-24 | the suffix is that of the first key among pdf, jpeg, jpg, png, gif, webp contained in the lower-cased type; "" gives none |
| TemplateFacts.ExtFromCtShape | GH_CATALOGO_TEMPLATE/GH_CATALOGO_TEMPLATE/scripts/download_catalog.py:19-23 | every suffix returned is a dot followed by a dot-free extension |
| TemplateFacts.BmpHasNoExt | GH_CATALOGO_TEMPLATE/GH_CATALOGO_TEMPLATE/scripts/download_catalog.py:16-24 | image/bmp has no suffix in the table |
| TemplateFacts.LastDotSpec | GH_CATALOGO_TEMPLATE/GH_CATALOGO_TEMPLATE/scripts/download_catalog.py:33 | -1 means no dot; otherwise the index holds the last dot of the name |
| TemplateFacts.SuffixOfWithSuffix | GH_CATALOGO_TEMPLATE/GH_CATALOGO_TEMPLATE/scripts/download_catalog.py:33-42 | after `with_suffix(s)`, the suffix is `s`, the stem is unchanged, and the folder is unchanged |
| TemplateFacts.SavedSuffix | GH_CATALOGO_TEMPLATE/GH_CATALOGO_TEMPLATE/scripts/download_catalog.py:31-33 | the file is saved with the suffix the content type asks for |
| TemplateFacts.FetchFails | GH_CATALOGO_TEMPLATE/GH_CATALOGO_TEMPLATE/scripts/download_catalog.py:28-49 | the download fails iff the request raises, the status is not 200, or writing raises; a failure leaves the files unchanged and reports the exception text or "HTTP <code>" |
| TemplateFacts.FetchWrites | GH_CATALOGO_TEMPLATE/GH_CATALOGO_TEMPLATE/scripts/download_catalog.py:33-46 | a success adds the saved file, or, when converted, adds the .jpg and removes the original |
| TemplateFacts.FetchStaysInFolder | GH_CATALOGO_TEMPLATE/GH_CATALOGO_TEMPLATE/scripts/download_catalog.py:26-49 | every new file lies in the destination's own folder |
| TemplateFacts.ForcedImageIsJpeg | GH_CATALOGO_TEMPLATE/GH_CATALOGO_TEMPLATE/scripts/download_catalog.py:38-46 | a convertible image downloaded with force_jpg leaves a file with a JPEG suffix |
| TemplateFacts.BmpKeptUnderJpegName | GH_CATALOGO_TEMPLATE/GH_CATALOGO_TEMPLATE/scripts/download_catalog.py:32-38 | a BMP answer is stored unconverted under the .jpg name, because the type gives no suffix and the .jpg suffix skips conversion |
| TemplateFacts.PdfCheckNeverFires | GH_CATALOGO_TEMPLATE/GH_CATALOGO_TEMPLATE/scripts/download_catalog.py:110-111 | the "real PDF" check tests a path that always ends in .pdf |
| TemplateFacts.PathsClean | GH_CATALOGO_TEMPLATE/GH_CATALOGO_TEMPLATE/scripts/download_catalog.py:99-101 | folder and file names contain no forbidden character, and image and PDF share a folder name |
| TemplateFacts.MissingKeySkips | GH_CATALOGO_TEMPLATE/GH_CATALOGO_TEMPLATE/scripts/download_catalog.py:95-97 | a row with a missing key field changes nothing |
| TemplateFacts.RowCountsUrls | GH_CATALOGO_TEMPLATE/GH_CATALOGO_TEMPLATE/scripts/download_catalog.py:103-113 | `with_url` rises by the row's non-empty URLs, whatever the downloads return |
| TemplateFacts.RowStaysInFolder | GH_CATALOGO_TEMPLATE/GH_CATALOGO_TEMPLATE/scripts/download_catalog.py:99-108 | a row creates files only in its supplier's folder |
| TemplateFacts.WithUrlCountsTries | GH_CATALOGO_TEMPLATE/GH_CATALOGO_TEMPLATE/scripts/download_catalog.py:84-113 | at the end, `with_url` is the number of URLs tried, at most two per row |

Notes on what the code does:

- In `build_queries`, a reference made of spaces gives an empty query list (`Queries.BlankRefNoQueries`), because the `not ref` test is on the unstripped text. `main` strips the reference before it calls `build_queries` (scripts/enrich_urls.py:328), so this case cannot arise from the loop.
- A reference cell that pandas reads as NaN becomes the text "nan" through `str(v or "")`, since NaN is truthy. The row is then searched with "nan" as its reference (`EnrichFacts.NaNReferenceSearchedAsText`): "nan" is the first query, and the article-only fallback of `build_queries` never runs (`Queries.NanRefQueries`).
- The search is one hint pass and one web pass per row. A QUOTA error ends the run. Nothing is re-queued or retried later.
- `<img>` elements of area 0 are never chosen. Among equal areas, the first is kept.
- In `pick_image_from_page`, the `urljoin` of an `<img>` is outside the inner `try`. One malformed `src` therefore makes the whole call return None, even after a good `<img>` was found (`Pages.PickImageJoinRaises`). In `pick_pdf_from_page`, a `.pdf` link that `urljoin` rejects likewise ends the call with None (`Pages.PdfScanAbort`).
- Reference variants only delete characters: "AB123" is not a variant of "AB-12.3".
- A row that needed only its image and got only a PDF still counts as filled (`EnrichFacts.FilledWithoutWrite`).
- In the template script, a NaN cell reads as the text "nan", so it is not a missing field (`TemplateFacts.EmptyCellsAreNotMissing`).

## Left out

- Reading and writing the spreadsheets and the CSV report, `argparse`, the environment secrets check and the exits on a missing file or column: these are I/O. The data frame is an array of rows, and the report is a sequence of records.
- Creating the two URL columns when they are missing (enrich_urls.py:299-301): the model's rows always have both cells.
- Directory creation, the ZIP archive and its `copytree`/`rglob` file walk, and the progress and warning printouts: I/O.
- `time.sleep` pacing between searches: it has no effect on the results.
- HTTP requests, BeautifulSoup parsing, `urljoin` and `urlparse`: these are the oracle functions of `Web.Net` and of the downloaders' `net`. Asking the same URL twice is assumed to give the same answer. The `urljoin` oracle can fail; `host_of` catches its own exceptions and is total.
- The image library: decoding, mode conversion and re-saving are the `Reply.saved` and `Answer.convertible` flags.
- Download.DownloadRow: a PDF whose streaming fails part-way leaves no file in the model, while the script may leave a partial file.
- Template.Fetch: a body whose writing raises leaves no file in the model, while the script may leave a partial file.
- Normalize.FoldChar: folds only ASCII and Latin-1 letters and the superscript digits. Other NFKD decompositions (such as the fraction ½) and case mappings that change length (such as ß to SS) are out of scope, because the full Unicode tables are not modelled.
- Normalize.CombiningMark: only the combining diacritical marks U+0300 to U+036F (less U+034F, which has combining class 0) are dropped as `unicodedata.combining` would drop them. Marks of other blocks, such as Hebrew, Arabic or the supplementary diacritic blocks, are kept and become separators, because the full table of combining classes is not modelled.
- Text.Lower and Text.Upper: these map ASCII letters only. `re.I` and `str.lower` beyond ASCII are not modelled.
- The `i` of `df.iterrows()` in download_catalog.py is taken to be the row position. It is used only for the `fila_<n>` name, which never applies (`DownloadFacts.BaseNameNeverFallback`).
- `int()` on the width and height attributes is abstracted to `Web.Dim`: missing, a parsed integer, or an unparsable text.
- The exception messages in the template script are given strings (`Answer.Raised.msg` and `writeError`), not Python's texts.
- The QuotaExceeded and StopRun exception classes: they are the `Enriched.QuotaExceeded` answer and the `StoppedByQuota` outcome. Any other search error propagating out of `main` is the `Aborted` outcome, after the sheet and report are saved.

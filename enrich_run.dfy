/** The row loop of `main` in scripts/enrich_urls.py: for every row of the
    selected range, skip excluded providers, then rows the provider filter
    rejects, then rows that already have both URLs; otherwise search, write
    each found URL into its column only when that column was empty, and add
    one report record.  A quota error stops the loop and keeps what was done;
    any other search failure aborts it the same way. */
module EnrichRun {
  import opened Base
  import opened Text
  import opened Cells
  import opened Normalize
  import opened Brand
  import opened Web
  import opened Enrich

  /** The columns the loop reads and writes. */
  datatype Row = Row(codArt: Cell, refProv: Cell, art: Cell, prov: Cell, img: Cell, pdf: Cell)

  /** One line of the enrichment report. */
  datatype Record = Record(
    row: int, codArt: Cell, ref: string, provRaw: string, brand: string,
    host: string, pass: string, page: string, img: string, pdf: string, status: string)

  /** `--offset`, `--limit` and `--provider-contains`. */
  datatype Config = Config(offset: int, limit: int, providerContains: string)

  /** How the loop ended: it ran to the end, `QuotaExceeded` raised `StopRun`,
      or another search failure propagated out of `main`. */
  datatype Outcome = Completed | StoppedByQuota | Aborted

  /** What one row does: go on with the (possibly updated) row, its record
      and whether it counts as filled, or stop the loop. */
  datatype Step = Next(row: Row, rec: Record, fill: bool) | Halt(outcome: Outcome)

  /** The sheet, the report records, `filled` and how the loop ended. */
  datatype State = State(sheet: seq<Row>, records: seq<Record>, filled: nat, outcome: Outcome)

  /** `x or ""` for an optional string the search returned. */
  function OptStr(o: Option<string>): string {
    if o.Some? then o.value else ""
  }

  /** `start = max(0, offset)`. */
  function Start(cfg: Config): int {
    if cfg.offset > 0 then cfg.offset else 0
  }

  /** `end = total if limit == 0 else min(total, start + limit)`. */
  function End(cfg: Config, total: int): int {
    if cfg.limit == 0 then total
    else if total <= Start(cfg) + cfg.limit then total
    else Start(cfg) + cfg.limit
  }

  /** The one-line record of a row that was not searched. */
  function SkipRecord(i: int, row: Row, ref: string, provRaw: string, brand: string,
                      pass: string, status: string): Record {
    Record(i + 1, row.codArt, ref, provRaw, brand, "", pass, "", "", "", status)
  }

  /** What the first half of the loop body decides: a record written
      without searching, or a search with the row's texts, the brand to
      search for and which of the two URL cells are missing. */
  datatype Plan =
    | Skip(rec: Record)
    | Search(ref: string, art: string, provRaw: string, brand: string, needImg: bool, needPdf: bool)

  /** The checks before the search, in the order of the loop body; a row
      that passes them is searched, with FLUIDRA forced as the brand when no
      brand was recognised and the provider filter mentions FLUIDRA.  A skip
      record is numbered `i + 1` and carries one of the three skip statuses. */
  function PlanRow(cfg: Config, i: int, row: Row): (p: Plan)
    ensures p.Skip? ==> p.rec.row == i + 1 && p.rec.status in {"skipped_by_rule", "skipped_by_provider", "already had URLs"}
  {
    var pf := NormText(cfg.providerContains);
    var ref := Strip(OrEmpty(row.refProv));
    var art := Strip(OrEmpty(row.art));
    var provRaw := Strip(OrEmpty(row.prov));
    var brand := CanonicalBrand(provRaw);
    if IsExcludedProvider(provRaw) then
      Skip(SkipRecord(i, row, ref, provRaw, brand, "proveedor_excluido", "skipped_by_rule"))
    else if pf != "" && !Contains(NormText(provRaw), pf) then
      Skip(SkipRecord(i, row, ref, provRaw, brand, "skipped_provider_filter", "skipped_by_provider"))
    else if !(IsEmpty(row.img) || IsEmpty(row.pdf)) then
      Skip(SkipRecord(i, row, ref, provRaw, brand, "", "already had URLs"))
    else
      var b := if brand == "" && pf != "" && Contains(pf, "FLUIDRA") then "FLUIDRA" else brand;
      Search(ref, art, provRaw, b, IsEmpty(row.img), IsEmpty(row.pdf))
  }

  /** The second half of the loop body, given what the search returned. */
  function Finish(i: int, row: Row, p: Plan, r: Enriched): Step
    requires p.Search?
  {
    match r
    case QuotaExceeded => Halt(StoppedByQuota)
    case SearchError => Halt(Aborted)
    case NoMatch => Next(row, SkipRecord(i, row, p.ref, p.provRaw, p.brand, "", "no match"), false)
    case Found(img, pdf, page, host, pass) =>
      if Present(img) || Present(pdf) then
        var row' := row.(img := if p.needImg && Present(img) then Str(img.value) else row.img,
                         pdf := if p.needPdf && Present(pdf) then Str(pdf.value) else row.pdf);
        Next(row', Record(i + 1, row.codArt, p.ref, p.provRaw, p.brand, host, PassName(pass), page,
                          OptStr(img), OptStr(pdf), "filled"), true)
      else
        Next(row, Record(i + 1, row.codArt, p.ref, p.provRaw, p.brand, host, PassName(pass), page,
                         "", "", "no match"), false)
  }

  /** The body of the loop for row `i`, with `order(ref)` the iteration
      order of the reference's variants. */
  function RowStep(net: Net, order: string -> seq<string>, cfg: Config, i: int, row: Row): Step {
    var p := PlanRow(cfg, i, row);
    if p.Skip? then Next(row, p.rec, false)
    else Finish(i, row, p, TryEnrich(net, order(p.ref), p.brand, p.ref, p.art))
  }

  /** The loop from row `i` to `end`, with `step` the body of the loop. */
  function RunFrom(step: (int, Row) -> Step, st: State, i: int, end: int): State
    requires 0 <= i <= end <= |st.sheet|
    decreases end - i
  {
    if i == end then st
    else
      match step(i, st.sheet[i])
      case Halt(o) => st.(outcome := o)
      case Next(row, rec, fill) =>
        RunFrom(step, State(st.sheet[i := row], st.records + [rec], st.filled + (if fill then 1 else 0), st.outcome),
                i + 1, end)
  }

  /** The body of the loop as a function of the row index and the row. */
  function Body(net: Net, order: string -> seq<string>, cfg: Config): (int, Row) -> Step {
    (i: int, row: Row) => RowStep(net, order, cfg, i, row)
  }

  /** The loop over the rows `start .. end - 1` of `sheet`, with `step` the
      body of the loop. */
  function RunRange(step: (int, Row) -> Step, cfg: Config, sheet: seq<Row>): State {
    var lo, hi := Start(cfg), End(cfg, |sheet|);
    var init := State(sheet, [], 0, Completed);
    if lo >= hi then init else RunFrom(step, init, lo, hi)
  }

  /** What `main` does to the sheet and the report. */
  function Enrichment(net: Net, order: string -> seq<string>, cfg: Config, sheet: seq<Row>): State {
    RunRange(Body(net, order, cfg), cfg, sheet)
  }

  /** `body` is the loop body of the run with configuration `cfg`. */
  ghost predicate BodyIsRowStep(body: (int, Row) -> Step, net: Net, order: string -> seq<string>, cfg: Config) {
    forall j, r {:trigger RowStep(net, order, cfg, j, r)} :: body(j, r) == RowStep(net, order, cfg, j, r)
  }

  /** The loop of `main`; `sheet` is the data frame, updated in place.
      `body` has no counterpart in `main`: it is a ghost name for the loop
      body `RowStep` of this run, so that the loop invariant can speak of
      `RunFrom`. Each row is still processed by `ProcessRow` (via `Visit`). */
  method Run(net: Net, order: string -> seq<string>, cfg: Config, sheet: array<Row>,
             ghost body: (int, Row) -> Step)
    returns (records: seq<Record>, filled: nat, outcome: Outcome)
    requires BodyIsRowStep(body, net, order, cfg)
    modifies sheet
    ensures State(sheet[..], records, filled, outcome) == RunRange(body, cfg, old(sheet[..]))
  {
    var total := sheet.Length;
    var start := Start(cfg);
    var end := End(cfg, total);
    records, filled, outcome := [], 0, Completed;
    if start >= end {
      return;
    }
    ghost var init := State(sheet[..], [], 0, Completed);
    var i := start;
    while i < end
      invariant start <= i <= end
      invariant RunFrom(body, State(sheet[..], records, filled, Completed), i, end) == RunFrom(body, init, start, end)
      decreases end - i
    {
      var step := Visit(net, order, cfg, i, sheet[i], body);
      if step.Halt? {
        outcome := step.outcome;
        return;
      }
      sheet[i] := step.row;
      records := records + [step.rec];
      if step.fill {
        filled := filled + 1;
      }
      i := i + 1;
    }
  }

  /** One pass of the loop body, seen through `body`. */
  method Visit(net: Net, order: string -> seq<string>, cfg: Config, i: int, row: Row,
               ghost body: (int, Row) -> Step)
    returns (step: Step)
    requires BodyIsRowStep(body, net, order, cfg)
    ensures step == body(i, row)
  {
    step := ProcessRow(net, order, cfg, i, row);
  }

  /** One pass of the loop body: the checks, the search, the write-back. */
  method ProcessRow(net: Net, order: string -> seq<string>, cfg: Config, i: int, row: Row)
    returns (step: Step)
    ensures step == RowStep(net, order, cfg, i, row)
  {
    var p := CheckRow(cfg, i, row);
    if p.Skip? {
      return Next(row, p.rec, false);
    }
    var r := TryEnrichWithHints(net, order(p.ref), p.brand, p.ref, p.art);
    step := WriteBack(i, row, p, r);
  }

  /** The checks before the search. */
  method CheckRow(cfg: Config, i: int, row: Row) returns (p: Plan)
    ensures p == PlanRow(cfg, i, row)
  {
    var pf := NormText(cfg.providerContains);
    var ref := Strip(OrEmpty(row.refProv));
    var art := Strip(OrEmpty(row.art));
    var provRaw := Strip(OrEmpty(row.prov));
    var brand := CanonicalBrand(provRaw);
    if IsExcludedProvider(provRaw) {
      return Skip(SkipRecord(i, row, ref, provRaw, brand, "proveedor_excluido", "skipped_by_rule"));
    }
    if pf != "" && !Contains(NormText(provRaw), pf) {
      return Skip(SkipRecord(i, row, ref, provRaw, brand, "skipped_provider_filter", "skipped_by_provider"));
    }
    var needImg := IsEmpty(row.img);
    var needPdf := IsEmpty(row.pdf);
    if !(needImg || needPdf) {
      return Skip(SkipRecord(i, row, ref, provRaw, brand, "", "already had URLs"));
    }
    if brand == "" && pf != "" && Contains(pf, "FLUIDRA") {
      brand := "FLUIDRA";
    }
    return Search(ref, art, provRaw, brand, needImg, needPdf);
  }

  /** What the loop body does with the search result. */
  method WriteBack(i: int, row: Row, p: Plan, r: Enriched) returns (step: Step)
    requires p.Search?
    ensures step == Finish(i, row, p, r)
  {
    if r.QuotaExceeded? {
      return Halt(StoppedByQuota);
    }
    if r.SearchError? {
      return Halt(Aborted);
    }
    if r.NoMatch? {
      return Next(row, SkipRecord(i, row, p.ref, p.provRaw, p.brand, "", "no match"), false);
    }
    var updated := row;
    if Present(r.img) || Present(r.pdf) {
      if p.needImg && Present(r.img) {
        updated := updated.(img := Str(r.img.value));
      }
      if p.needPdf && Present(r.pdf) {
        updated := updated.(pdf := Str(r.pdf.value));
      }
      return Next(updated, Record(i + 1, row.codArt, p.ref, p.provRaw, p.brand, r.host, PassName(r.pass), r.page,
                                  OptStr(r.img), OptStr(r.pdf), "filled"), true);
    }
    return Next(row, Record(i + 1, row.codArt, p.ref, p.provRaw, p.brand, r.host, PassName(r.pass), r.page,
                            "", "", "no match"), false);
  }
}

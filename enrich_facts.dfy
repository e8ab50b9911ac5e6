/** What the row loop of scripts/enrich_urls.py guarantees about the sheet,
    the report and the `filled` counter: first for any loop body with the
    right properties, then for the real body `RowStep`. */
module EnrichFacts {
  import opened Base
  import opened Text
  import opened Cells
  import opened Normalize
  import opened Brand
  import opened Web
  import opened Hosts
  import opened Pages
  import opened Enrich
  import opened EnrichRun

  /** The row as the body leaves it (a halting row is left alone). */
  function After(step: (int, Row) -> Step, j: int, row: Row): Row {
    var s := step(j, row);
    if s.Next? then s.row else row
  }

  /** How many of `rows` (the first at index `i`) the loop gets through
      before a body halts. */
  function Visited(step: (int, Row) -> Step, rows: seq<Row>, i: int): (n: nat)
    ensures n <= |rows|
    decreases |rows|
  {
    if rows == [] || step(i, rows[0]).Halt? then 0 else 1 + Visited(step, rows[1..], i + 1)
  }

  /** The records of the rows the loop gets through. */
  function Written(step: (int, Row) -> Step, rows: seq<Row>, i: int): seq<Record>
    decreases |rows|
  {
    if rows == [] || step(i, rows[0]).Halt? then []
    else [step(i, rows[0]).rec] + Written(step, rows[1..], i + 1)
  }

  /** How many of the rows the loop gets through count as filled. */
  function Fills(step: (int, Row) -> Step, rows: seq<Row>, i: int): nat
    decreases |rows|
  {
    if rows == [] || step(i, rows[0]).Halt? then 0
    else (if step(i, rows[0]).fill then 1 else 0) + Fills(step, rows[1..], i + 1)
  }

  /** How the loop ends: with the first halting body's outcome, or `o`. */
  function Final(step: (int, Row) -> Step, rows: seq<Row>, i: int, o: Outcome): Outcome
    decreases |rows|
  {
    if rows == [] then o
    else if step(i, rows[0]).Halt? then step(i, rows[0]).outcome
    else Final(step, rows[1..], i + 1, o)
  }

  /** The number of report records with status "filled". */
  function FilledCount(recs: seq<Record>): (n: nat)
    ensures n <= |recs|
  {
    if recs == [] then 0
    else (if recs[0].status == "filled" then 1 else 0) + FilledCount(recs[1..])
  }

  /** `updated` keeps every column of `row`, except that an empty URL cell
      may receive a non-empty URL. */
  predicate NoOverwrite(row: Row, updated: Row) {
    && updated.codArt == row.codArt && updated.refProv == row.refProv
    && updated.art == row.art && updated.prov == row.prov
    && (updated.img == row.img || (IsEmpty(row.img) && updated.img.Str? && updated.img.s != ""))
    && (updated.pdf == row.pdf || (IsEmpty(row.pdf) && updated.pdf.Str? && updated.pdf.s != ""))
  }

  /** The body counts a row as filled exactly when its record says so. */
  ghost predicate CountsFilled(step: (int, Row) -> Step) {
    forall j, r :: step(j, r).Next? ==> (step(j, r).fill <==> step(j, r).rec.status == "filled")
  }

  /** The record of row `j` carries the 1-based row number `j + 1`. */
  ghost predicate NumbersRows(step: (int, Row) -> Step) {
    forall j, r :: step(j, r).Next? ==> step(j, r).rec.row == j + 1
  }

  /** The body never overwrites a cell that holds something. */
  ghost predicate KeepsCells(step: (int, Row) -> Step) {
    forall j, r :: step(j, r).Next? ==> NoOverwrite(r, step(j, r).row)
  }

  /** The body only halts to stop the run early. */
  ghost predicate HaltsEarly(step: (int, Row) -> Step) {
    forall j, r :: step(j, r).Halt? ==> step(j, r).outcome != Completed
  }

  /** The loop from row `i` applies the body to the rows it gets through and
      to no other, appends their records, counts their fills and takes its
      outcome from the first halting body. */
  lemma {:induction false} RunFromIs(step: (int, Row) -> Step, st: State, i: int, end: int)
    requires 0 <= i <= end <= |st.sheet|
    ensures var r := RunFrom(step, st, i, end);
      var rows := st.sheet[i..end];
      var n := Visited(step, rows, i);
      && |r.sheet| == |st.sheet|
      && (forall j :: 0 <= j < |st.sheet| ==>
            r.sheet[j] == if i <= j < i + n then After(step, j, st.sheet[j]) else st.sheet[j])
      && r.records == st.records + Written(step, rows, i)
      && r.filled == st.filled + Fills(step, rows, i)
      && r.outcome == Final(step, rows, i, st.outcome)
    decreases end - i
  {
    if i < end {
      var rows := st.sheet[i..end];
      var s := step(i, st.sheet[i]);
      assert rows[0] == st.sheet[i];
      if s.Next? {
        var st' := State(st.sheet[i := s.row], st.records + [s.rec], st.filled + (if s.fill then 1 else 0), st.outcome);
        RunFromIs(step, st', i + 1, end);
        assert st'.sheet[i + 1..end] == rows[1..];
        assert st'.records + Written(step, rows[1..], i + 1) == st.records + Written(step, rows, i);
      }
    }
  }

  /** The rows the loop gets through are those whose bodies go on; the row
      after them, if any, halts. */
  lemma {:induction false} VisitedIs(step: (int, Row) -> Step, rows: seq<Row>, i: int)
    ensures var n := Visited(step, rows, i);
      && (forall k :: 0 <= k < n ==> step(i + k, rows[k]).Next?)
      && (n < |rows| ==> step(i + n, rows[n]).Halt?)
      && |Written(step, rows, i)| == n
      && (forall k :: 0 <= k < n ==> Written(step, rows, i)[k] == step(i + k, rows[k]).rec)
      && Final(step, rows, i, Completed) == if n == |rows| then Completed else step(i + n, rows[n]).outcome
    decreases |rows|
  {
    if rows != [] && step(i, rows[0]).Next? {
      VisitedIs(step, rows[1..], i + 1);
      var n := Visited(step, rows, i);
      forall k | 0 < k < n
        ensures step(i + k, rows[k]).Next? && Written(step, rows, i)[k] == step(i + k, rows[k]).rec
      {
        assert rows[k] == rows[1..][k - 1];
      }
      if n < |rows| {
        assert rows[n] == rows[1..][n - 1];
      }
    }
  }

  /** Under `CountsFilled`, the fills are the "filled" records. */
  lemma {:induction false} FillsAreFilled(step: (int, Row) -> Step, rows: seq<Row>, i: int)
    requires CountsFilled(step)
    ensures Fills(step, rows, i) == FilledCount(Written(step, rows, i))
    decreases |rows|
  {
    if rows != [] && step(i, rows[0]).Next? {
      FillsAreFilled(step, rows[1..], i + 1);
      var w := Written(step, rows, i);
      assert w[0] == step(i, rows[0]).rec && w[1..] == Written(step, rows[1..], i + 1);
    }
  }

  /** The rows of the range the loop over `start .. end - 1` gets through
      are those it applies the body to, and the only rows it changes. */
  lemma RunRangeRows(step: (int, Row) -> Step, cfg: Config, sheet: seq<Row>)
    requires Start(cfg) < End(cfg, |sheet|)
    ensures var r := RunRange(step, cfg, sheet);
      var lo := Start(cfg);
      var n := Visited(step, sheet[lo..End(cfg, |sheet|)], lo);
      && |r.sheet| == |sheet|
      && (forall j :: 0 <= j < |sheet| ==>
            r.sheet[j] == if lo <= j < lo + n then After(step, j, sheet[j]) else sheet[j])
      && (forall j :: lo <= j < lo + n ==> step(j, sheet[j]).Next?)
  {
    var lo, hi := Start(cfg), End(cfg, |sheet|);
    var rows := sheet[lo..hi];
    RunFromIs(step, State(sheet, [], 0, Completed), lo, hi);
    VisitedIs(step, rows, lo);
    var n := Visited(step, rows, lo);
    forall j | lo <= j < lo + n
      ensures step(j, sheet[j]).Next?
    {
      assert rows[j - lo] == sheet[j];
    }
  }

  /** The loop over `start .. end - 1` writes one record per row it gets
      through, in order, and counts their fills. */
  lemma RunRangeRecords(step: (int, Row) -> Step, cfg: Config, sheet: seq<Row>)
    requires Start(cfg) < End(cfg, |sheet|)
    ensures var r := RunRange(step, cfg, sheet);
      var lo := Start(cfg);
      var rows := sheet[lo..End(cfg, |sheet|)];
      && r.records == Written(step, rows, lo)
      && |r.records| == Visited(step, rows, lo)
      && r.filled == Fills(step, rows, lo)
  {
    var lo, hi := Start(cfg), End(cfg, |sheet|);
    RunFromIs(step, State(sheet, [], 0, Completed), lo, hi);
    VisitedIs(step, sheet[lo..hi], lo);
  }

  /** Under `NumbersRows`, the records are numbered from `i + 1` on. */
  lemma {:induction false} WrittenNumbered(step: (int, Row) -> Step, rows: seq<Row>, i: int)
    requires NumbersRows(step)
    ensures var w := Written(step, rows, i);
      forall k :: 0 <= k < |w| ==> w[k].row == i + k + 1
    decreases |rows|
  {
    if rows != [] && step(i, rows[0]).Next? {
      WrittenNumbered(step, rows[1..], i + 1);
      var w := Written(step, rows, i);
      assert w[1..] == Written(step, rows[1..], i + 1);
      forall k | 0 < k < |w|
        ensures w[k].row == i + k + 1
      {
        assert w[k] == w[1..][k - 1];
      }
    }
  }

  /** The loop over `start .. end - 1` completes when it gets through every
      row, and otherwise ends with the outcome of the body that halted. */
  lemma RunRangeOutcome(step: (int, Row) -> Step, cfg: Config, sheet: seq<Row>)
    requires Start(cfg) < End(cfg, |sheet|)
    ensures var r := RunRange(step, cfg, sheet);
      var lo, hi := Start(cfg), End(cfg, |sheet|);
      var n := Visited(step, sheet[lo..hi], lo);
      && (n < hi - lo ==> step(lo + n, sheet[lo + n]).Halt?)
      && r.outcome == (if n == hi - lo then Completed else step(lo + n, sheet[lo + n]).outcome)
  {
    var lo, hi := Start(cfg), End(cfg, |sheet|);
    var rows := sheet[lo..hi];
    RunFromIs(step, State(sheet, [], 0, Completed), lo, hi);
    VisitedIs(step, rows, lo);
    var n := Visited(step, rows, lo);
    if n < |rows| {
      assert rows[n] == sheet[lo + n];
    }
  }

  /** Under `KeepsCells`, the loop keeps the sheet's length and every filled
      cell, and leaves every row after its last record untouched. */
  lemma RunRangeSheet(step: (int, Row) -> Step, cfg: Config, sheet: seq<Row>)
    requires KeepsCells(step)
    ensures var r := RunRange(step, cfg, sheet);
      && |r.sheet| == |sheet|
      && (forall j :: 0 <= j < |sheet| ==> NoOverwrite(sheet[j], r.sheet[j]))
      && (forall j :: 0 <= j < |sheet| && !(Start(cfg) <= j < Start(cfg) + |r.records|) ==> r.sheet[j] == sheet[j])
  {
    var lo, hi := Start(cfg), End(cfg, |sheet|);
    if lo < hi {
      RunRangeRows(step, cfg, sheet);
      RunRangeRecords(step, cfg, sheet);
      var r := RunRange(step, cfg, sheet);
      forall j | 0 <= j < |sheet|
        ensures NoOverwrite(sheet[j], r.sheet[j])
      {
        if lo <= j < lo + |r.records| {
          assert step(j, sheet[j]).Next?;
        }
      }
    }
  }

  /** Under `CountsFilled` and `NumbersRows`, the counter is the number of
      "filled" records and the records are numbered row by row from
      `start + 1`. */
  lemma RunRangeReport(step: (int, Row) -> Step, cfg: Config, sheet: seq<Row>)
    requires CountsFilled(step) && NumbersRows(step)
    ensures var r := RunRange(step, cfg, sheet);
      && r.filled == FilledCount(r.records)
      && (forall k :: 0 <= k < |r.records| ==> r.records[k].row == Start(cfg) + k + 1)
  {
    var lo, hi := Start(cfg), End(cfg, |sheet|);
    if lo < hi {
      RunRangeRecords(step, cfg, sheet);
      FillsAreFilled(step, sheet[lo..hi], lo);
      WrittenNumbered(step, sheet[lo..hi], lo);
    }
  }

  /** Under `HaltsEarly`, the run completes exactly when it writes one
      record per row of the range; otherwise it stops at the row after its
      last record, whose body halted with the run's outcome. */
  lemma RunRangeEnd(step: (int, Row) -> Step, cfg: Config, sheet: seq<Row>)
    requires HaltsEarly(step)
    ensures var r := RunRange(step, cfg, sheet);
      var lo, hi := Start(cfg), End(cfg, |sheet|);
      var k := lo + |r.records|;
      && (r.outcome == Completed <==> |r.records| == (if lo < hi then hi - lo else 0))
      && (r.outcome != Completed ==> (k < hi && step(k, sheet[k]).Halt? && step(k, sheet[k]).outcome == r.outcome))
  {
    var lo, hi := Start(cfg), End(cfg, |sheet|);
    if lo < hi {
      RunRangeRecords(step, cfg, sheet);
      RunRangeOutcome(step, cfg, sheet);
    }
  }

  /** A row is searched exactly when its provider is not excluded, passes
      the provider filter, and lacks the image or the PDF; a skipped row's
      status names the first of these checks that failed. */
  lemma PlanRowStatus(cfg: Config, i: int, row: Row)
    ensures var p := PlanRow(cfg, i, row);
      var provRaw := Strip(OrEmpty(row.prov));
      var pf := NormText(cfg.providerContains);
      var passesFilter := pf == "" || Contains(NormText(provRaw), pf);
      && (p.Search? <==> !IsExcludedProvider(provRaw) && passesFilter && (IsEmpty(row.img) || IsEmpty(row.pdf)))
      && (IsExcludedProvider(provRaw) ==> p == Skip(SkipRecord(i, row, p.rec.ref, provRaw, p.rec.brand, "proveedor_excluido", "skipped_by_rule")))
      && (!IsExcludedProvider(provRaw) && !passesFilter ==>
            p == Skip(SkipRecord(i, row, p.rec.ref, provRaw, p.rec.brand, "skipped_provider_filter", "skipped_by_provider")))
      && (!IsExcludedProvider(provRaw) && passesFilter && !IsEmpty(row.img) && !IsEmpty(row.pdf) ==>
            p == Skip(SkipRecord(i, row, p.rec.ref, provRaw, p.rec.brand, "", "already had URLs")))
  {
  }

  /** A row that is searched is searched with its stripped texts, the
      brand recognised in its provider (FLUIDRA when none is recognised and
      the filter names FLUIDRA), and the set of cells it lacks. */
  lemma PlanRowSearch(cfg: Config, i: int, row: Row)
    requires PlanRow(cfg, i, row).Search?
    ensures var p := PlanRow(cfg, i, row);
      var pf := NormText(cfg.providerContains);
      var b := CanonicalBrand(p.provRaw);
      && p.ref == Strip(OrEmpty(row.refProv)) && p.art == Strip(OrEmpty(row.art))
      && p.provRaw == Strip(OrEmpty(row.prov))
      && p.brand == (if b == "" && pf != "" && Contains(pf, "FLUIDRA") then "FLUIDRA" else b)
      && p.needImg == IsEmpty(row.img) && p.needPdf == IsEmpty(row.pdf)
      && (p.needImg || p.needPdf)
  {
  }

  /** A blank reference cell that pandas reads as NaN is not blank to the
      loop: `str(v or "")` gives "nan", and the row is searched with "nan" as
      its reference.  `Queries.NanRefQueries` then says what is searched:
      "nan" first, and never the article-only fallback of `build_queries`,
      since the reference is not "". */
  lemma NaNReferenceSearchedAsText(cfg: Config, i: int, row: Row)
    requires row.refProv == NaN && PlanRow(cfg, i, row).Search?
    ensures PlanRow(cfg, i, row).ref == "nan"
  {
    PlanRowRef(cfg, i, row);
    NaNCellText();
  }

  /** `str(v or "").strip()` of a NaN cell. */
  lemma NaNCellText()
    ensures Strip(OrEmpty(NaN)) == "nan"
  {
    assert OrEmpty(NaN) == "nan";
    StripNoop("nan");
  }

  /** The reference a searched row is searched with. */
  lemma PlanRowRef(cfg: Config, i: int, row: Row)
    requires PlanRow(cfg, i, row).Search?
    ensures PlanRow(cfg, i, row).ref == Strip(OrEmpty(row.refProv))
  {
  }

  /** A skipped row needs no search: its step is the same whatever the
      search engine, the web and the variant order answer. */
  lemma SkipNeedsNoSearch(net: Net, net': Net, order: string -> seq<string>, order': string -> seq<string>,
                          cfg: Config, i: int, row: Row)
    requires PlanRow(cfg, i, row).Skip?
    ensures RowStep(net, order, cfg, i, row) == RowStep(net', order', cfg, i, row)
    ensures RowStep(net, order, cfg, i, row) == Next(row, PlanRow(cfg, i, row).rec, false)
  {
  }

  /** The write-back: the record is numbered `i + 1`; the row counts as
      filled exactly when its status is "filled"; only a missing cell is
      written, and only with a non-empty URL; the loop halts only on a
      search failure, stopping on `QuotaExceeded`. */
  lemma FinishFacts(i: int, row: Row, p: Plan, r: Enriched)
    requires p.Search? && p.needImg == IsEmpty(row.img) && p.needPdf == IsEmpty(row.pdf)
    ensures var s := Finish(i, row, p, r);
      && (s.Next? ==> s.rec.row == i + 1 && (s.fill <==> s.rec.status == "filled") && NoOverwrite(row, s.row))
      && (s.Halt? <==> r.QuotaExceeded? || r.SearchError?)
      && (s.Halt? ==> (s.outcome == StoppedByQuota <==> r.QuotaExceeded?) && s.outcome != Completed)
  {
  }

  /** A filled row found an image or a PDF, it is written into each cell
      that was missing, and each cell that held something keeps it. */
  lemma FinishFilled(i: int, row: Row, p: Plan, r: Enriched)
    requires p.Search? && p.needImg == IsEmpty(row.img) && p.needPdf == IsEmpty(row.pdf)
    requires Finish(i, row, p, r).Next? && Finish(i, row, p, r).fill
    ensures var s := Finish(i, row, p, r);
      && r.Found? && (Present(r.img) || Present(r.pdf))
      && s.rec.img == OptStr(r.img) && s.rec.pdf == OptStr(r.pdf)
      && s.rec.page == r.page && s.rec.host == r.host
      && s.row.img == (if IsEmpty(row.img) && Present(r.img) then Str(r.img.value) else row.img)
      && s.row.pdf == (if IsEmpty(row.pdf) && Present(r.pdf) then Str(r.pdf.value) else row.pdf)
  {
  }

  /** A row can count as filled while no cell changes: the page gave only
      a PDF and the PDF cell already held one. */
  lemma FilledWithoutWrite(i: int, row: Row, p: Plan, r: Enriched)
    requires p.Search? && !p.needPdf && r.Found? && Present(r.pdf) && !Present(r.img)
    ensures Finish(i, row, p, r) == Next(row, Finish(i, row, p, r).rec, true)
    ensures Finish(i, row, p, r).rec.status == "filled"
  {
  }

  /** The properties of the loop body, row by row. */
  lemma RowStepFacts(net: Net, order: string -> seq<string>, cfg: Config, i: int, row: Row)
    ensures var s := RowStep(net, order, cfg, i, row);
      && (s.Next? ==> s.rec.row == i + 1 && (s.fill <==> s.rec.status == "filled") && NoOverwrite(row, s.row))
      && (s.Halt? ==> s.outcome != Completed)
  {
    var p := PlanRow(cfg, i, row);
    PlanRowStatus(cfg, i, row);
    if p.Search? {
      PlanRowSearch(cfg, i, row);
      FinishFacts(i, row, p, TryEnrich(net, order(p.ref), p.brand, p.ref, p.art));
    }
  }

  /** The loop stops at a row exactly when the row is searched and the
      search fails, and stops quietly (keeping what was done) exactly when
      the quota ran out. */
  lemma RowStepHalts(net: Net, order: string -> seq<string>, cfg: Config, i: int, row: Row)
    ensures var p := PlanRow(cfg, i, row);
      var s := RowStep(net, order, cfg, i, row);
      && (s.Halt? <==> p.Search? && TryEnrich(net, order(p.ref), p.brand, p.ref, p.art) in {QuotaExceeded, SearchError})
      && (s.Halt? ==> (s.outcome == StoppedByQuota <==> TryEnrich(net, order(p.ref), p.brand, p.ref, p.art) == QuotaExceeded))
  {
    var p := PlanRow(cfg, i, row);
    PlanRowStatus(cfg, i, row);
    if p.Search? {
      PlanRowSearch(cfg, i, row);
      FinishFacts(i, row, p, TryEnrich(net, order(p.ref), p.brand, p.ref, p.art));
    }
  }

  /** A halting row is one whose search failed as the outcome says. */
  lemma RowStepHalting(net: Net, order: string -> seq<string>, cfg: Config, i: int, row: Row)
    requires RowStep(net, order, cfg, i, row).Halt?
    ensures Halting(net, order, cfg, i, row, RowStep(net, order, cfg, i, row).outcome)
  {
    RowStepHalts(net, order, cfg, i, row);
  }

  /** A row that counts as filled was searched, and its step is the
      write-back of a search that found a page. */
  lemma RowStepFilledFound(net: Net, order: string -> seq<string>, cfg: Config, i: int, row: Row)
    requires RowStep(net, order, cfg, i, row).Next? && RowStep(net, order, cfg, i, row).fill
    ensures var p := PlanRow(cfg, i, row);
      && p.Search?
      && var r := TryEnrich(net, order(p.ref), p.brand, p.ref, p.art);
      && r.Found?
      && RowStep(net, order, cfg, i, row) == Finish(i, row, p, r)
  {
    var p := PlanRow(cfg, i, row);
    RowStepCases(net, order, cfg, i, row);
    var r := TryEnrich(net, order(p.ref), p.brand, p.ref, p.art);
    FinishFillsFound(i, row, p, r);
  }

  /** The loop body in its two cases: a skipped row, a searched row. */
  lemma RowStepCases(net: Net, order: string -> seq<string>, cfg: Config, i: int, row: Row)
    ensures var p := PlanRow(cfg, i, row);
      && (p.Skip? ==> RowStep(net, order, cfg, i, row) == Next(row, p.rec, false))
      && (p.Search? ==> RowStep(net, order, cfg, i, row) == Finish(i, row, p, TryEnrich(net, order(p.ref), p.brand, p.ref, p.art)))
  {
  }

  /** Only a found page makes the write-back count the row as filled. */
  lemma FinishFillsFound(i: int, row: Row, p: Plan, r: Enriched)
    requires p.Search?
    ensures Finish(i, row, p, r).Next? && Finish(i, row, p, r).fill ==> r.Found? && (Present(r.img) || Present(r.pdf))
  {
  }

  /** A row counts as filled only with a page whose host is not
      blacklisted, and which looks like the brand's site when it came from
      the general web search for a known brand. */
  lemma RowStepFilledHost(net: Net, order: string -> seq<string>, cfg: Config, i: int, row: Row)
    requires RowStep(net, order, cfg, i, row).Next? && RowStep(net, order, cfg, i, row).fill
    ensures var s := RowStep(net, order, cfg, i, row);
      var p := PlanRow(cfg, i, row);
      && !IsBlacklisted(s.rec.host)
      && s.rec.host == net.host(s.rec.page)
      && (p.Search? && s.rec.pass == "web" && p.brand != "" ==> LooksLikeBrandSite(s.rec.host, p.brand))
  {
    RowStepFilledFound(net, order, cfg, i, row);
    var p := PlanRow(cfg, i, row);
    TryEnrichFound(net, order(p.ref), p.brand, p.ref, p.art);
    assert "hint"[0] != "web"[0];
  }

  /** The record of a filled row holds the image and the PDF that its page
      yields. */
  lemma RowStepFilledAssets(net: Net, order: string -> seq<string>, cfg: Config, i: int, row: Row)
    requires RowStep(net, order, cfg, i, row).Next? && RowStep(net, order, cfg, i, row).fill
    ensures var s := RowStep(net, order, cfg, i, row);
      && s.rec.img == OptStr(PickImage(net, s.rec.page))
      && s.rec.pdf == OptStr(PickPdf(net, s.rec.page))
  {
    RowStepFilledFound(net, order, cfg, i, row);
    var p := PlanRow(cfg, i, row);
    TryEnrichFound(net, order(p.ref), p.brand, p.ref, p.art);
  }

  /** The real loop body has the four properties the run lemmas need. */
  lemma BodyFacts(net: Net, order: string -> seq<string>, cfg: Config)
    ensures var b := Body(net, order, cfg);
      CountsFilled(b) && NumbersRows(b) && KeepsCells(b) && HaltsEarly(b)
  {
    var b := Body(net, order, cfg);
    forall j, r
      ensures var s := b(j, r);
        && (s.Next? ==> s.rec.row == j + 1 && (s.fill <==> s.rec.status == "filled") && NoOverwrite(r, s.row))
        && (s.Halt? ==> s.outcome != Completed)
    {
      RowStepFacts(net, order, cfg, j, r);
    }
  }

  /** The loop body, applied. */
  lemma BodyIs(net: Net, order: string -> seq<string>, cfg: Config, j: int, row: Row)
    ensures Body(net, order, cfg)(j, row) == RowStep(net, order, cfg, j, row)
  {
  }

  /** `main` keeps the sheet's length and every filled cell, and leaves
      the rows it does not get through untouched. */
  lemma EnrichmentSheet(net: Net, order: string -> seq<string>, cfg: Config, sheet: seq<Row>)
    ensures var r := Enrichment(net, order, cfg, sheet);
      && |r.sheet| == |sheet|
      && (forall j :: 0 <= j < |sheet| ==> NoOverwrite(sheet[j], r.sheet[j]))
      && (forall j :: 0 <= j < |sheet| && !(Start(cfg) <= j < Start(cfg) + |r.records|) ==> r.sheet[j] == sheet[j])
  {
    BodyFacts(net, order, cfg);
    RunRangeSheet(Body(net, order, cfg), cfg, sheet);
  }

  /** `main`'s `filled` is the number of "filled" records, and the records
      are numbered row by row from `start + 1`. */
  lemma EnrichmentReport(net: Net, order: string -> seq<string>, cfg: Config, sheet: seq<Row>)
    ensures var r := Enrichment(net, order, cfg, sheet);
      && r.filled == FilledCount(r.records)
      && (forall m :: 0 <= m < |r.records| ==> r.records[m].row == Start(cfg) + m + 1)
  {
    BodyFacts(net, order, cfg);
    RunRangeReport(Body(net, order, cfg), cfg, sheet);
  }

  /** A run of `main` completes exactly when it writes one record per row
      of the range; otherwise it stops at the row after its last record,
      because that row's search failed, for lack of quota exactly when it
      stopped quietly. */
  lemma EnrichmentEnd(net: Net, order: string -> seq<string>, cfg: Config, sheet: seq<Row>)
    ensures var r := Enrichment(net, order, cfg, sheet);
      var lo, hi := Start(cfg), End(cfg, |sheet|);
      var k := lo + |r.records|;
      && (r.outcome == Completed <==> |r.records| == (if lo < hi then hi - lo else 0))
      && (r.outcome != Completed ==> k < hi && Halting(net, order, cfg, k, sheet[k], r.outcome))
  {
    var b := Body(net, order, cfg);
    assert Enrichment(net, order, cfg, sheet) == RunRange(b, cfg, sheet);
    BodyFacts(net, order, cfg);
    RunRangeEnd(b, cfg, sheet);
    var r := RunRange(b, cfg, sheet);
    var k := Start(cfg) + |r.records|;
    if r.outcome != Completed {
      BodyIs(net, order, cfg, k, sheet[k]);
      RowStepHalting(net, order, cfg, k, sheet[k]);
    }
  }

  /** Row `k` is searched and its search fails: with `QuotaExceeded` when
      the run stopped quietly, with another error when it aborted. */
  ghost predicate Halting(net: Net, order: string -> seq<string>, cfg: Config, k: int, row: Row, o: Outcome) {
    var p := PlanRow(cfg, k, row);
    && p.Search?
    && TryEnrich(net, order(p.ref), p.brand, p.ref, p.art) == (if o == StoppedByQuota then QuotaExceeded else SearchError)
  }
}

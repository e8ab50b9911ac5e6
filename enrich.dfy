/** `try_enrich_with_hints` of scripts/enrich_urls.py: search the brand's
    official domains first and the whole web second, keep every result URL
    once (hint results before web results), then take the first candidate
    whose host is acceptable and whose page yields an image or a PDF. */
module Enrich {
  import opened Base
  import opened Text
  import opened Web
  import opened Hosts
  import opened Queries
  import opened Pages

  /** The two search passes, reported as "hint" and "web". */
  datatype Pass = HintPass | WebPass

  function PassName(p: Pass): string {
    match p
    case HintPass => "hint"
    case WebPass => "web"
  }

  datatype Candidate = Candidate(pass: Pass, url: string)

  /** Why a sequence of searches stopped early, if it did. */
  datatype Stop = Go | QuotaStop | FailStop

  /** The URLs a sequence of searches returned, up to the first failure. */
  datatype Gathered = Gathered(urls: seq<string>, stop: Stop)

  /** The truthy links of one search: `if url: hits.append(url)`. */
  function NonEmpty(links: seq<string>): seq<string>
    decreases |links|
  {
    if links == [] then []
    else
      var n := |links| - 1;
      NonEmpty(links[..n]) + (if links[n] != "" then [links[n]] else [])
  }

  /** `google_search` over the queries in order; the first 429 or other
      failure ends the pass. */
  function SearchAll(net: Net, qs: seq<string>): Gathered
    decreases |qs|
  {
    if qs == [] then Gathered([], Go)
    else
      var g := SearchAll(net, qs[..|qs| - 1]);
      if g.stop != Go then g
      else
        match net.search(qs[|qs| - 1])
        case Quota => Gathered(g.urls, QuotaStop)
        case SearchFailed => Gathered(g.urls, FailStop)
        case Hits(links) => Gathered(g.urls + NonEmpty(links), Go)
  }

  function Tagged(urls: seq<string>, p: Pass): (r: seq<Candidate>)
    ensures |r| == |urls|
  {
    seq(|urls|, i requires 0 <= i < |urls| => Candidate(p, urls[i]))
  }

  function Urls(cs: seq<Candidate>): (r: seq<string>)
    ensures |r| == |cs|
  {
    seq(|cs|, i requires 0 <= i < |cs| => cs[i].url)
  }

  /** The candidate list: the new hint URLs, then the web URLs not seen yet. */
  function Candidates(hint: seq<string>, web: seq<string>): seq<Candidate> {
    Tagged(Dedup(hint), HintPass) + Tagged(DedupAfter(web, Elems(hint)), WebPass)
  }

  /** What `try_enrich_with_hints` returns or raises. */
  datatype Enriched =
    | Found(img: Option<string>, pdf: Option<string>, page: string, host: string, pass: Pass)
    | NoMatch
    | QuotaExceeded
    | SearchError

  /** A candidate the selection loop opens: its host is not blacklisted and,
      in the web pass with a brand, looks like the brand's site. */
  predicate Admitted(net: Net, brand: string, c: Candidate) {
    var h := net.host(c.url);
    !IsBlacklisted(h) && !(c.pass == WebPass && brand != "" && !LooksLikeBrandSite(h, brand))
  }

  /** A candidate the selection loop returns: admitted, and its page yields
      a PDF or an image. */
  predicate Chosen(net: Net, brand: string, c: Candidate) {
    Admitted(net, brand, c) && (Present(PickPdf(net, c.url)) || Present(PickImage(net, c.url)))
  }

  /** The selection loop over the candidates. */
  function Select(net: Net, brand: string, cs: seq<Candidate>): Enriched
    decreases |cs|
  {
    if cs == [] then NoMatch
    else
      var c := cs[0];
      var h := net.host(c.url);
      if IsBlacklisted(h) || (c.pass == WebPass && brand != "" && !LooksLikeBrandSite(h, brand)) then
        Select(net, brand, cs[1..])
      else
        var pdf, img := PickPdf(net, c.url), PickImage(net, c.url);
        if Present(pdf) || Present(img) then Found(img, pdf, c.url, h, c.pass)
        else Select(net, brand, cs[1..])
  }

  function StopResult(s: Stop): Enriched {
    if s == QuotaStop then QuotaExceeded else SearchError
  }

  /** `try_enrich_with_hints(brand, ref, art)`, with `order` the iteration
      order of the reference variants. */
  function TryEnrich(net: Net, order: seq<string>, brand: string, ref: string, art: string): Enriched {
    var base := Queries.Queries(order, brand, ref, art);
    var h := SearchAll(net, SiteQueries(Hints(Upper(brand)), base));
    if h.stop != Go then StopResult(h.stop)
    else
      var w := SearchAll(net, base);
      if w.stop != Go then StopResult(w.stop)
      else Select(net, brand, Candidates(h.urls, w.urls))
  }

  method TryEnrichWithHints(net: Net, order: seq<string>, brand: string, ref: string, art: string)
    returns (r: Enriched)
    ensures r == TryEnrich(net, order, brand, ref, art)
  {
    var candidates: seq<Candidate> := [];
    var seen: set<string> := {};
    var stop: Stop := Go;
    var domains := Hints(Upper(brand));
    ghost var base := Queries.Queries(order, brand, ref, art);
    ghost var hint: seq<string> := [];
    if domains != [] {
      var siteQs := BuildSiteQueries(domains, order, brand, ref, art);
      stop, candidates, seen := Collect(net, siteQs, HintPass, candidates, seen);
      if stop != Go {
        return StopResult(stop);
      }
      hint := SearchAll(net, siteQs).urls;
    }
    assert SearchAll(net, SiteQueries(domains, base)) == Gathered(hint, Go);
    assert candidates == Tagged(Dedup(hint), HintPass) && seen == Elems(hint);
    var webQs := BuildQueries(order, brand, ref, art);
    stop, candidates, seen := Collect(net, webQs, WebPass, candidates, seen);
    if stop != Go {
      return StopResult(stop);
    }
    assert candidates == Candidates(hint, SearchAll(net, base).urls);
    r := SelectFrom(net, brand, candidates);
  }

  /** The selection loop at the end of `try_enrich_with_hints`. */
  method SelectFrom(net: Net, brand: string, candidates: seq<Candidate>) returns (r: Enriched)
    ensures r == Select(net, brand, candidates)
  {
    for i := 0 to |candidates|
      invariant Select(net, brand, candidates[i..]) == Select(net, brand, candidates)
    {
      var c := candidates[i];
      assert candidates[i..][1..] == candidates[i + 1..];
      var h := net.host(c.url);
      if IsBlacklisted(h) {
        continue;
      }
      if c.pass == WebPass && brand != "" && !LooksLikeBrandSite(h, brand) {
        continue;
      }
      var pdf := PickPdfFromPage(net, c.url);
      var img := PickImageFromPage(net, c.url);
      if Present(pdf) || Present(img) {
        return Found(img, pdf, c.url, h, c.pass);
      }
    }
    return NoMatch;
  }

  /** The state of a pass after `done` was scanned: the candidates are the
      earlier ones plus the new URLs of `done`, tagged with the pass, and
      `seen` holds everything met so far. */
  predicate Accumulated(cands: seq<Candidate>, seen: set<string>, cands0: seq<Candidate>,
                        seen0: set<string>, done: seq<string>, pass: Pass) {
    cands == cands0 + Tagged(DedupAfter(done, seen0), pass) && seen == seen0 + Elems(done)
  }

  /** One search pass: every truthy result URL not seen before is appended
      as a candidate of the pass; a 429 or another failure stops the pass. */
  method Collect(net: Net, qs: seq<string>, pass: Pass, cands0: seq<Candidate>, seen0: set<string>)
    returns (stop: Stop, cands: seq<Candidate>, seen: set<string>)
    ensures stop == SearchAll(net, qs).stop
    ensures stop == Go ==> Accumulated(cands, seen, cands0, seen0, SearchAll(net, qs).urls, pass)
  {
    cands, seen := cands0, seen0;
    for i := 0 to |qs|
      invariant SearchAll(net, qs[..i]).stop == Go
      invariant Accumulated(cands, seen, cands0, seen0, SearchAll(net, qs[..i]).urls, pass)
    {
      assert qs[..i + 1][..i] == qs[..i];
      var reply := net.search(qs[i]);
      if reply.Quota? || reply.SearchFailed? {
        stop := if reply.Quota? then QuotaStop else FailStop;
        SearchAllStopped(net, qs, i + 1);
        return;
      }
      cands, seen := AddHits(reply.links, pass, cands, seen, cands0, seen0, SearchAll(net, qs[..i]).urls);
    }
    assert qs[..|qs|] == qs;
    stop := Go;
  }

  /** The `for u in google_search(...)` loop of one query. */
  method AddHits(links: seq<string>, pass: Pass, cands: seq<Candidate>, seen: set<string>,
                 ghost cands0: seq<Candidate>, ghost seen0: set<string>, ghost done: seq<string>)
    returns (cands': seq<Candidate>, seen': set<string>)
    requires Accumulated(cands, seen, cands0, seen0, done, pass)
    ensures Accumulated(cands', seen', cands0, seen0, done + NonEmpty(links), pass)
  {
    cands', seen' := cands, seen;
    assert done + NonEmpty(links[..0]) == done;
    for j := 0 to |links|
      invariant Accumulated(cands', seen', cands0, seen0, done + NonEmpty(links[..j]), pass)
    {
      var u := links[j];
      ghost var d := done + NonEmpty(links[..j]);
      assert links[..j + 1][..j] == links[..j];
      if u != "" {
        assert done + NonEmpty(links[..j + 1]) == d + [u];
        AccumulatedSnoc(cands', seen', cands0, seen0, d, pass, u);
        if u !in seen' {
          seen' := seen' + {u};
          cands' := cands' + [Candidate(pass, u)];
        } else {
          seen' := seen' + {u};
        }
      } else {
        assert done + NonEmpty(links[..j + 1]) == d;
      }
    }
    assert links[..|links|] == links;
  }

  lemma AccumulatedSnoc(cands: seq<Candidate>, seen: set<string>, cands0: seq<Candidate>,
                        seen0: set<string>, done: seq<string>, pass: Pass, u: string)
    requires Accumulated(cands, seen, cands0, seen0, done, pass)
    ensures Accumulated(if u in seen then cands else cands + [Candidate(pass, u)], seen + {u},
                        cands0, seen0, done + [u], pass)
  {
    DedupAfterSnoc(done, u, seen0);
    TaggedSnoc(DedupAfter(done, seen0), u, pass);
    assert Elems(done + [u]) == Elems(done) + {u};
  }

  lemma TaggedSnoc(s: seq<string>, u: string, p: Pass)
    ensures Tagged(s + [u], p) == Tagged(s, p) + [Candidate(p, u)]
  {
  }

  /** Once a prefix of the queries has stopped, the whole pass stops the same way. */
  lemma {:induction false} SearchAllStopped(net: Net, qs: seq<string>, i: nat)
    requires i <= |qs| && SearchAll(net, qs[..i]).stop != Go
    ensures SearchAll(net, qs).stop == SearchAll(net, qs[..i]).stop
    decreases |qs| - i
  {
    if i < |qs| {
      var p := qs[..|qs| - 1];
      assert p[..i] == qs[..i];
      SearchAllStopped(net, p, i);
    } else {
      assert qs[..i] == qs;
    }
  }

  /** A pass stops exactly at its first query whose search is not a list of
      hits, and then stops the way that search did. */
  lemma {:induction false} SearchAllStop(net: Net, qs: seq<string>, k: nat)
    requires k < |qs| && !net.search(qs[k]).Hits?
    requires forall j :: 0 <= j < k ==> net.search(qs[j]).Hits?
    ensures SearchAll(net, qs).stop == if net.search(qs[k]).Quota? then QuotaStop else FailStop
    decreases |qs|
  {
    var n := |qs| - 1;
    var p := qs[..n];
    if k < n {
      SearchAllStop(net, p, k);
    } else {
      SearchAllHits(net, p);
    }
  }

  /** A pass whose every search returns hits collects them all in order. */
  lemma {:induction false} SearchAllHits(net: Net, qs: seq<string>)
    requires forall j :: 0 <= j < |qs| ==> net.search(qs[j]).Hits?
    ensures SearchAll(net, qs).stop == Go
    decreases |qs|
  {
    if qs != [] {
      SearchAllHits(net, qs[..|qs| - 1]);
    }
  }

  lemma UrlsTagged(s: seq<string>, p: Pass)
    ensures Urls(Tagged(s, p)) == s
  {
  }

  /** The candidates are the result URLs once each, at their first
      occurrence, hint results first; a candidate belongs to the hint pass
      exactly when a hint search returned it. */
  lemma CandidatesShape(hint: seq<string>, web: seq<string>)
    ensures Urls(Candidates(hint, web)) == Dedup(hint + web)
    ensures NoDups(Urls(Candidates(hint, web)))
    ensures forall k :: 0 <= k < |Candidates(hint, web)| ==>
      (Candidates(hint, web)[k].pass == HintPass <==> Candidates(hint, web)[k].url in hint)
    ensures forall i, j :: 0 <= i < j < |Candidates(hint, web)| && Candidates(hint, web)[j].pass == HintPass ==>
      Candidates(hint, web)[i].pass == HintPass
  {
    var a, b := Dedup(hint), DedupAfter(web, Elems(hint));
    var cs := Candidates(hint, web);
    DedupAfterAppend(hint, web, {});
    assert {} + Elems(hint) == Elems(hint);
    UrlsTagged(a, HintPass);
    UrlsTagged(b, WebPass);
    assert Urls(cs) == a + b;
    forall k | 0 <= k < |cs| ensures cs[k].pass == HintPass <==> cs[k].url in hint {
      if k < |a| {
        assert cs[k].url == a[k] && a[k] in Elems(a);
      } else {
        assert cs[k].url == b[k - |a|] && b[k - |a|] in Elems(b);
      }
    }
  }

  /** The answer for a chosen candidate. */
  function Picked(net: Net, c: Candidate): Enriched {
    Found(PickImage(net, c.url), PickPdf(net, c.url), c.url, net.host(c.url), c.pass)
  }

  /** The selection returns the first chosen candidate, with its page's
      assets and its host. */
  lemma {:induction false} SelectFirst(net: Net, brand: string, cs: seq<Candidate>, k: nat)
    requires k < |cs| && Chosen(net, brand, cs[k])
    requires forall j :: 0 <= j < k ==> !Chosen(net, brand, cs[j])
    ensures Select(net, brand, cs) == Picked(net, cs[k])
    decreases k
  {
    if k > 0 {
      assert !Chosen(net, brand, cs[0]);
      SelectFirst(net, brand, cs[1..], k - 1);
    }
  }

  /** Nothing is found exactly when no candidate is chosen; the selection
      itself never raises. */
  lemma {:induction false} SelectNoMatch(net: Net, brand: string, cs: seq<Candidate>)
    ensures Select(net, brand, cs).Found? || Select(net, brand, cs).NoMatch?
    ensures Select(net, brand, cs).NoMatch? <==> forall k :: 0 <= k < |cs| ==> !Chosen(net, brand, cs[k])
    decreases |cs|
  {
    if cs != [] {
      SelectNoMatch(net, brand, cs[1..]);
      assert forall k :: 1 <= k < |cs| ==> cs[k] == cs[1..][k - 1];
      if !Chosen(net, brand, cs[0]) {
        assert Select(net, brand, cs) == Select(net, brand, cs[1..]);
      }
    }
  }

  /** What is found comes from a chosen candidate. */
  lemma {:induction false} SelectFound(net: Net, brand: string, cs: seq<Candidate>)
    ensures var r := Select(net, brand, cs);
      r.Found? ==> exists k :: 0 <= k < |cs| && Chosen(net, brand, cs[k]) && r == Picked(net, cs[k])
    decreases |cs|
  {
    var r := Select(net, brand, cs);
    if cs != [] && r.Found? {
      if Chosen(net, brand, cs[0]) {
        assert r == Picked(net, cs[0]);
      } else {
        assert r == Select(net, brand, cs[1..]);
        SelectFound(net, brand, cs[1..]);
        var k :| 0 <= k < |cs[1..]| && Chosen(net, brand, cs[1..][k]) && r == Picked(net, cs[1..][k]);
        assert cs[k + 1] == cs[1..][k];
      }
    }
  }

  /** A returned page never has a blacklisted host; a web-pass page with a
      brand looks like the brand's site; and it yields an image or a PDF. */
  lemma TryEnrichFound(net: Net, order: seq<string>, brand: string, ref: string, art: string)
    ensures var r := TryEnrich(net, order, brand, ref, art);
      r.Found? ==>
        && r.host == net.host(r.page)
        && !IsBlacklisted(r.host)
        && (r.pass == WebPass && brand != "" ==> LooksLikeBrandSite(r.host, brand))
        && r.img == PickImage(net, r.page) && r.pdf == PickPdf(net, r.page)
        && (Present(r.img) || Present(r.pdf))
  {
    var base := Queries.Queries(order, brand, ref, art);
    var h := SearchAll(net, SiteQueries(Hints(Upper(brand)), base));
    var w := SearchAll(net, base);
    if h.stop == Go && w.stop == Go {
      SelectFound(net, brand, Candidates(h.urls, w.urls));
    }
  }

  /** A brand without official domains is searched on the web only. */
  lemma NoHintsWebOnly(net: Net, order: seq<string>, brand: string, ref: string, art: string)
    requires Upper(brand) !in BRAND_HINTS
    ensures TryEnrich(net, order, brand, ref, art).Found? ==> TryEnrich(net, order, brand, ref, art).pass == WebPass
  {
    var base := Queries.Queries(order, brand, ref, art);
    assert SiteQueries([], base) == [];
    var h := SearchAll(net, SiteQueries(Hints(Upper(brand)), base));
    var w := SearchAll(net, base);
    assert h == Gathered([], Go);
    var cs := Candidates([], w.urls);
    CandidatesShape([], w.urls);
    SelectFound(net, brand, cs);
  }
}

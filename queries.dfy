/** Query generation of scripts/enrich_urls.py: the spelling variants of a
    supplier reference (`ref_variants`), the de-duplicated query list
    (`build_queries`) and its expansion over official domains
    (`build_site_queries`).

    `ref_variants` returns a Python set and `build_queries` walks it in the
    set's iteration order, which depends on string hashing.  The model takes
    that order as a parameter: a sequence that enumerates the set. */
module Queries {
  import opened Base
  import opened Text

  predicate NotHyphen(c: char) { c != '-' }
  predicate NotDotOrSpace(c: char) { c != '.' && !IsSpace(c) }
  predicate NotBlank(c: char) { c != ' ' }
  predicate NotDot(c: char) { c != '.' }

  /** The variants of an already stripped reference: itself, without
      hyphens, without periods and whitespace (`re.sub(r"[.\s]+", "", ref)`),
      without blanks and without periods, the empty string removed. */
  function Variants(r: string): (v: set<string>)
    ensures "" !in v
  {
    if r == "" then {}
    else {r, Filter(r, NotHyphen), Filter(r, NotDotOrSpace), Filter(r, NotBlank), Filter(r, NotDot)} - {""}
  }

  /** `ref_variants(ref)`: the variants of the stripped reference. */
  function RefVariants(ref: string): set<string> {
    Variants(Strip(ref))
  }

  /** `ref_variants(ref) or {""}`: the set `build_queries` walks. */
  function RefSet(ref: string): set<string> {
    if RefVariants(ref) == {} then {""} else RefVariants(ref)
  }

  /** `order` lists the elements of `s` once each. */
  predicate Enumerates<T(==)>(order: seq<T>, s: set<T>) {
    NoDups(order) && Elems(order) == s
  }

  /** `[s]` when `c` holds, else nothing: one conditional `append`. */
  function When(c: bool, s: string): seq<string> {
    if c then [s] else []
  }

  /** The queries one reference variant contributes: the variant, then with
      the article, with the brand, and with both. */
  function Group(rv: string, art: string, brand: string): seq<string> {
    if rv == "" then []
    else
      [rv] + When(art != "", rv + " " + art) + When(brand != "", brand + " " + rv)
      + When(brand != "" && art != "", brand + " " + rv + " " + art)
  }

  /** The groups of the variants, in the order they are walked. */
  function ByVariant(order: seq<string>, art: string, brand: string): seq<string> {
    if order == [] then []
    else ByVariant(order[..|order| - 1], art, brand) + Group(order[|order| - 1], art, brand)
  }

  /** The article alone and with the brand, added when the reference (as
      passed, unstripped) is empty. */
  function Fallback(ref: string, art: string, brand: string): seq<string> {
    if ref == "" && art != "" then [art] + (if brand != "" then [brand + " " + art] else [])
    else []
  }

  /** The list `build_queries` builds before de-duplication. */
  function RawQueries(order: seq<string>, brand: string, ref: string, art: string): seq<string> {
    ByVariant(order, Strip(art), Strip(brand)) + Fallback(ref, Strip(art), Strip(brand))
  }

  /** `build_queries(brand, ref, art)`, with `order` the iteration order of
      `ref_variants(ref) or {""}`. */
  function Queries(order: seq<string>, brand: string, ref: string, art: string): seq<string> {
    Dedup(RawQueries(order, brand, ref, art))
  }

  /** `build_queries`: collect the groups and the article fallback, then keep
      each query at its first occurrence. */
  method BuildQueries(order: seq<string>, brand: string, ref: string, art: string)
    returns (ordered: seq<string>)
    ensures ordered == Queries(order, brand, ref, art)
  {
    var a, b := Strip(art), Strip(brand);
    var queries: seq<string> := [];
    for i := 0 to |order|
      invariant queries == ByVariant(order[..i], a, b)
    {
      var group := BuildGroup(order[i], a, b);
      assert order[..i + 1][..i] == order[..i] && order[..i + 1][i] == order[i];
      queries := queries + group;
    }
    assert order[..|order|] == order;
    var fallback: seq<string> := [];
    if ref == "" && a != "" {
      fallback := fallback + [a];
      if b != "" { fallback := fallback + [b + " " + a]; }
    }
    assert fallback == Fallback(ref, a, b);
    ordered := DedupInOrder(queries + fallback);
  }

  /** The queries of one variant `rv`, appended one `if` at a time. */
  method BuildGroup(rv: string, a: string, b: string) returns (group: seq<string>)
    ensures group == Group(rv, a, b)
  {
    group := [];
    if rv != "" {
      group := [rv];
      if a != "" { group := group + [rv + " " + a]; }
      assert group == [rv] + When(a != "", rv + " " + a);
      ghost var g2 := group;
      if b != "" { group := group + [b + " " + rv]; }
      assert group == g2 + When(b != "", b + " " + rv);
      ghost var g3 := group;
      if b != "" && a != "" { group := group + [b + " " + rv + " " + a]; }
      assert group == g3 + When(b != "" && a != "", b + " " + rv + " " + a);
    }
  }

  /** Every query built before de-duplication is non-empty. */
  lemma {:induction false} RawQueriesNonEmpty(order: seq<string>, brand: string, ref: string, art: string)
    ensures "" !in RawQueries(order, brand, ref, art)
  {
    ByVariantNonEmpty(order, Strip(art), Strip(brand));
  }

  lemma {:induction false} ByVariantNonEmpty(order: seq<string>, art: string, brand: string)
    ensures "" !in ByVariant(order, art, brand)
    decreases |order|
  {
    if order != [] {
      ByVariantNonEmpty(order[..|order| - 1], art, brand);
      var rv := order[|order| - 1];
      assert "" !in Group(rv, art, brand) by {
        assert rv != "" ==> |rv + " " + art| > 0 && |brand + " " + rv| > 0 && |brand + " " + rv + " " + art| > 0;
      }
    }
  }

  /** The query list has no repeats and no empty query, and holds exactly
      the queries the groups and the fallback produce. */
  lemma QueriesDistinctNonEmpty(order: seq<string>, brand: string, ref: string, art: string)
    ensures NoDups(Queries(order, brand, ref, art))
    ensures "" !in Queries(order, brand, ref, art)
    ensures Elems(Queries(order, brand, ref, art)) == Elems(RawQueries(order, brand, ref, art))
  {
    RawQueriesNonEmpty(order, brand, ref, art);
    var q := Queries(order, brand, ref, art);
    assert "" !in Elems(RawQueries(order, brand, ref, art));
    assert "" !in Elems(q);
  }

  /** Every variant of the reference is searched on its own, with the
      article and with the brand. */
  lemma QueriesCoverVariant(order: seq<string>, brand: string, ref: string, art: string, rv: string)
    requires Enumerates(order, RefSet(ref))
    requires rv in RefVariants(ref)
    ensures forall x :: x in Group(rv, Strip(art), Strip(brand)) ==> x in Queries(order, brand, ref, art)
    ensures rv in Queries(order, brand, ref, art)
  {
    assert rv in RefSet(ref);
    assert rv in Elems(order);
    var k :| 0 <= k < |order| && order[k] == rv;
    GroupInQueries(order, brand, ref, art, k);
    assert rv in Group(rv, Strip(art), Strip(brand));
  }

  lemma GroupInQueries(order: seq<string>, brand: string, ref: string, art: string, k: nat)
    requires k < |order|
    ensures forall x :: x in Group(order[k], Strip(art), Strip(brand)) ==> x in Queries(order, brand, ref, art)
  {
    var a, b := Strip(art), Strip(brand);
    InByVariant(order, a, b, k);
    var raw := RawQueries(order, brand, ref, art);
    assert Elems(Dedup(raw)) == Elems(raw);
    forall x | x in Group(order[k], a, b) ensures x in Queries(order, brand, ref, art) {
      assert x in ByVariant(order, a, b);
      assert x in raw;
      assert x in Elems(raw);
    }
  }

  /** The group of the variant at position k is part of the walk. */
  lemma {:induction false} InByVariant(order: seq<string>, art: string, brand: string, k: nat)
    requires k < |order|
    ensures forall x :: x in Group(order[k], art, brand) ==> x in ByVariant(order, art, brand)
    decreases |order|
  {
    var n := |order| - 1;
    assert ByVariant(order, art, brand) == ByVariant(order[..n], art, brand) + Group(order[n], art, brand);
    if k < n {
      InByVariant(order[..n], art, brand, k);
      assert order[..n][k] == order[k];
    }
  }

  /** With an empty reference the article is searched alone and then with
      the brand. */
  lemma NoRefFallback(order: seq<string>, brand: string, art: string)
    requires Enumerates(order, RefSet(""))
    ensures var a, b := Strip(art), Strip(brand);
      Queries(order, brand, "", art)
      == if a == "" then [] else [a] + (if b != "" then [b + " " + a] else [])
  {
    assert RefSet("") == {""};
    SingletonOrder(order, "");
    var a, b := Strip(art), Strip(brand);
    assert ByVariant(order, a, b) == ByVariant([], a, b) + Group("", a, b);
    var raw := RawQueries(order, brand, "", art);
    assert raw == Fallback("", a, b);
    if a != "" {
      DedupAfterDistinct(raw, {});
    }
  }

  /** The reference "nan" is its own only variant, gets no article
      fallback, and is the first query searched. */
  lemma NanRefQueries(order: seq<string>, brand: string, art: string)
    requires Enumerates(order, RefSet("nan"))
    ensures RefVariants("nan") == {"nan"}
    ensures Fallback("nan", Strip(art), Strip(brand)) == []
    ensures Queries(order, brand, "nan", art) != [] && Queries(order, brand, "nan", art)[0] == "nan"
  {
    StripNoop("nan");
    PlainRefVariants("nan");
    assert RefSet("nan") == {"nan"};
    SingletonOrder(order, "nan");
    var a, b := Strip(art), Strip(brand);
    assert ByVariant(order, a, b) == ByVariant([], a, b) + Group("nan", a, b);
    var raw := RawQueries(order, brand, "nan", art);
    assert raw == Group("nan", a, b);
    assert raw[0] == "nan";
    DedupAfterAppend([raw[0]], raw[1..], {});
    assert [raw[0]] + raw[1..] == raw;
    assert DedupAfter([raw[0]], {}) == [raw[0]];
  }

  lemma SingletonOrder<T>(order: seq<T>, x: T)
    requires Enumerates(order, {x})
    ensures order == [x]
  {
    NoDupsCard(order);
    assert |order| == 1;
    assert order[0] in Elems(order);
  }

  /** A reference made only of whitespace yields no query at all: it has no
      variant, and the article fallback tests the unstripped reference. */
  lemma BlankRefNoQueries(order: seq<string>, brand: string, ref: string, art: string)
    requires ref != "" && Strip(ref) == ""
    requires Enumerates(order, RefSet(ref))
    ensures Queries(order, brand, ref, art) == []
  {
    assert RefSet(ref) == {""};
    forall i | 0 <= i < |order| ensures order[i] == "" {
      assert order[i] in Elems(order);
    }
    EmptyVariants(order, Strip(art), Strip(brand));
  }

  lemma {:induction false} EmptyVariants(order: seq<string>, art: string, brand: string)
    requires forall i :: 0 <= i < |order| ==> order[i] == ""
    ensures ByVariant(order, art, brand) == []
    decreases |order|
  {
    if order != [] {
      EmptyVariants(order[..|order| - 1], art, brand);
    }
  }

  /** A reference without hyphens, periods or whitespace is its only variant. */
  lemma PlainRefVariants(ref: string)
    requires Strip(ref) != ""
    requires forall i :: 0 <= i < |Strip(ref)| ==> NotHyphen(Strip(ref)[i]) && NotDotOrSpace(Strip(ref)[i])
    ensures RefVariants(ref) == {Strip(ref)}
  {
    var r := Strip(ref);
    assert RefVariants(ref) == Variants(r);
    FilterAll(r, NotHyphen);
    FilterAll(r, NotDotOrSpace);
    FilterAll(r, NotBlank);
    FilterAll(r, NotDot);
  }

  /** "A-1.2" is searched as "A-1.2", "A1.2" and "A-12"; no variant drops
      both the hyphen and the period. */
  lemma HyphenDotVariants()
    ensures Variants("A-1.2") == {"A-1.2", "A1.2", "A-12"}
    ensures "A12" !in Variants("A-1.2")
  {
    WithoutHyphen();
    WithoutDotsOrSpaces();
    WithoutBlanks();
    WithoutDots();
  }

  lemma WithoutHyphen() ensures Filter("A-1.2", NotHyphen) == "A1.2" {}
  lemma WithoutDotsOrSpaces() ensures Filter("A-1.2", NotDotOrSpace) == "A-12" {}
  lemma WithoutBlanks() ensures Filter("A-1.2", NotBlank) == "A-1.2" {}
  lemma WithoutDots() ensures Filter("A-1.2", NotDot) == "A-12" {}

  /** The queries of one official domain: `site:<dom> <q>` for every base query. */
  function Prefixed(p: string, base: seq<string>): (r: seq<string>)
    ensures |r| == |base|
  {
    seq(|base|, j requires 0 <= j < |base| => p + base[j])
  }

  lemma PrefixedSnoc(p: string, base: seq<string>, j: nat)
    requires j < |base|
    ensures Prefixed(p, base[..j + 1]) == Prefixed(p, base[..j]) + [p + base[j]]
  {
  }

  /** `build_site_queries` over a base list: domain-major. */
  function SiteQueries(domains: seq<string>, base: seq<string>): seq<string> {
    if domains == [] then []
    else
      SiteQueries(domains[..|domains| - 1], base)
      + Prefixed("site:" + domains[|domains| - 1] + " ", base)
  }

  /** `build_site_queries(domains, brand, ref, art)`. */
  method BuildSiteQueries(domains: seq<string>, order: seq<string>, brand: string, ref: string, art: string)
    returns (siteQs: seq<string>)
    ensures siteQs == SiteQueries(domains, Queries(order, brand, ref, art))
  {
    var base := BuildQueries(order, brand, ref, art);
    siteQs := PrefixAll(domains, base);
  }

  /** The nested loop of `build_site_queries`: every base query behind every
      domain's `site:` prefix. */
  method PrefixAll(domains: seq<string>, base: seq<string>) returns (siteQs: seq<string>)
    ensures siteQs == SiteQueries(domains, base)
  {
    siteQs := [];
    var i := 0;
    while i < |domains|
      invariant i <= |domains|
      invariant siteQs == SiteQueries(domains[..i], base)
    {
      var p := "site:" + domains[i] + " ";
      ghost var before := siteQs;
      var j := 0;
      while j < |base|
        invariant j <= |base|
        invariant siteQs == before + Prefixed(p, base[..j])
      {
        PrefixedSnoc(p, base, j);
        siteQs := siteQs + [p + base[j]];
        j := j + 1;
      }
      assert base[..j] == base;
      assert domains[..i + 1][..i] == domains[..i];
      i := i + 1;
    }
    assert domains[..i] == domains;
  }

  /** There are |domains|·|base| site queries, and the one at position
      i·|base| + j is `site:<domains[i]> <base[j]>`. */
  lemma {:induction false} SiteQueriesIndex(domains: seq<string>, base: seq<string>)
    ensures |SiteQueries(domains, base)| == |domains| * |base|
    ensures forall i, j :: 0 <= i < |domains| && 0 <= j < |base| ==>
      SiteQueries(domains, base)[i * |base| + j] == "site:" + domains[i] + " " + base[j]
    decreases |domains|
  {
    if domains != [] {
      var n := |domains| - 1;
      var p := domains[..n];
      SiteQueriesIndex(p, base);
      var m := |base|;
      var head := SiteQueries(p, base);
      var last := Prefixed("site:" + domains[n] + " ", base);
      var r := SiteQueries(domains, base);
      assert r == head + last;
      MulSucc(n, m);
      forall i, j | 0 <= i < |domains| && 0 <= j < m
        ensures r[i * m + j] == "site:" + domains[i] + " " + base[j]
      {
        if i < n {
          MulStrict(i, n, m, j);
          assert r[i * m + j] == head[i * m + j];
          assert domains[i] == p[i];
        } else {
          assert r[i * m + j] == last[j];
        }
      }
    }
  }

  lemma MulSucc(n: nat, m: nat)
    ensures (n + 1) * m == n * m + m
  {
  }

  /** Row `i` of an `n`-row table with rows of length `m` lies before row `n`. */
  lemma MulStrict(i: nat, n: nat, m: nat, j: nat)
    requires i < n && j < m
    ensures i * m + j < n * m
  {
    MulMono(i + 1, n, m);
    MulSucc(i, m);
  }

  lemma MulMono(a: nat, b: nat, m: nat)
    requires a <= b
    ensures a * m <= b * m
  {
  }
}

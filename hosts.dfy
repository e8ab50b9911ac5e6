/** Host predicates of scripts/enrich_urls.py: the marketplace and social
    media `BLACKLIST`, the official domains of `BRAND_HINTS` and
    `looks_like_brand_site`. */
module Hosts {
  import opened Text

  /** `BLACKLIST`: host fragments of shops, marketplaces and social sites. */
  const BLACKLIST: set<string> := {
    "amazon.", "ebay.", "aliexpress.", "alibaba.", "leroymerlin.", "manomano.",
    "pinterest.", "facebook.", "instagram.", "youtube.", "issuu.", "scribd.",
    "mercadolibre.", "wikipedia.", "reddit.", "x.com", "tiktok.", "linkedin."
  }

  /** `BRAND_HINTS`: the official domains of each brand, in list order. */
  const BRAND_HINTS: map<string, seq<string>> := map[
    "FLUIDRA" := ["fluidra.com", "astralpool.com", "cepex.com",
                  "ctxprofessional.com", "zodiacpoolcare.com", "zodiac.com"],
    "JIMTEN" := ["jimten.com"],
    "ESPA" := ["espa.com", "espa.es"],
    "GENEBRE" := ["genebre.es", "genebre.com"]
  ]

  /** `BRAND_HINTS.get(brand, [])`: exactly the four recognised brands have
      official domains, so the hint pass runs for them and for no other
      brand. */
  function Hints(brand: string): (r: seq<string>)
    ensures brand !in BRAND_HINTS ==> r == []
    ensures brand in BRAND_HINTS ==> r == BRAND_HINTS[brand]
    ensures r != [] <==> brand in {"FLUIDRA", "JIMTEN", "ESPA", "GENEBRE"}
  {
    if brand in BRAND_HINTS then BRAND_HINTS[brand] else []
  }

  /** Every hint domain is already lower case, so the `dom.lower()` of
      `looks_like_brand_site` leaves it as it is. */
  lemma HintsLowerCase(brand: string)
    ensures forall j :: 0 <= j < |Hints(brand)| ==> Lower(Hints(brand)[j]) == Hints(brand)[j]
  {
    var r := Hints(brand);
    forall j | 0 <= j < |r| ensures Lower(r[j]) == r[j] {
      LowerNoop(r[j]);
    }
  }

  /** `is_blacklisted(host)`: some blacklisted fragment occurs in the host. */
  predicate IsBlacklisted(host: string) {
    exists bad :: bad in BLACKLIST && Contains(host, bad)
  }

  /** The test applied to one hint domain `d`: `host.endswith(d) or host == d
      or host.endswith("." + d)`. */
  predicate MatchesDomain(host: string, d: string) {
    EndsWith(host, d) || host == d || EndsWith(host, "." + d)
  }

  /** `looks_like_brand_site(host, brand)`. */
  predicate LooksLikeBrandSite(host: string, brand: string) {
    if brand == "" then false
    else
      var b := Lower(brand);
      Contains(host, b)
      || exists j :: 0 <= j < |Hints(Upper(b))| && MatchesDomain(host, Lower(Hints(Upper(b))[j]))
  }

  /** The last two disjuncts of the per-domain test add nothing: a host that
      equals `d`, or ends with "." + `d`, also ends with `d`. */
  lemma MatchesDomainIsSuffix(host: string, d: string)
    ensures MatchesDomain(host, d) <==> EndsWith(host, d)
  {
    if EndsWith(host, "." + d) {
      var k := |host| - |d|;
      assert host[k..] == ("." + d)[1..];
    }
  }

  /** A site looks like the brand's exactly when the brand is non-empty and
      either its lower-case name occurs in the host or the host ends with one
      of the brand's hint domains. */
  lemma LooksLikeBrandSiteIff(host: string, brand: string)
    ensures LooksLikeBrandSite(host, brand) <==>
      brand != "" &&
      (Contains(host, Lower(brand)) ||
       exists j :: 0 <= j < |Hints(Upper(Lower(brand)))|
         && EndsWith(host, Lower(Hints(Upper(Lower(brand)))[j])))
  {
    var hs := Hints(Upper(Lower(brand)));
    forall j | 0 <= j < |hs|
      ensures MatchesDomain(host, Lower(hs[j])) <==> EndsWith(host, Lower(hs[j]))
    {
      MatchesDomainIsSuffix(host, Lower(hs[j]));
    }
  }

  /** A host under one of FLUIDRA's hint domains is a FLUIDRA site even though
      it does not contain "fluidra". */
  lemma FluidraHintSite()
    ensures LooksLikeBrandSite("www.cepex.com", "FLUIDRA")
  {
    assert Lower("FLUIDRA") == "fluidra";
    assert Upper("fluidra") == "FLUIDRA";
    var d := BRAND_HINTS["FLUIDRA"][2];
    assert d == "cepex.com";
    assert Lower(d) == d;
    assert "www.cepex.com"[4..] == d;
    assert MatchesDomain("www.cepex.com", Lower(Hints(Upper(Lower("FLUIDRA")))[2]));
  }

  /** A blacklisted fragment anywhere in the host rejects it. */
  lemma BlacklistedExample()
    ensures IsBlacklisted("www.amazon.es")
    ensures !IsBlacklisted("")
  {
    ContainsAt("www.amazon.es", "amazon.", 4);
  }
}

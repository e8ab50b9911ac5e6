/** Brand resolution of scripts/enrich_urls.py: the `ALIASES` table,
    `canonical_brand` and the FAMARA exclusion rule. */
module Brand {
  import opened Text
  import opened Normalize

  /** The spellings `ALIASES` lists under each tag. */
  const JIMTEN_SPELLINGS: seq<string> :=
    ["JIMTEN", "JIMTEN SA", "JIMTEN, S.A.", "JIMTEN S.A", "JIMTEN S A"]
  const ESPA_SPELLINGS: seq<string> :=
    ["ESPA", "ESPA 2020", "ESPA PUMPS", "ESPA PUMPS IBERICA", "ESPA PUMPS IB\U{C9}RICA"]
  const GENEBRE_SPELLINGS: seq<string> :=
    ["GENEBRE", "GENEBRE SA", "GENEBRE, S.A.", "GENEBRE S.A", "GENEBRE S A"]
  const FLUIDRA_SPELLINGS: seq<string> :=
    ["FLUIDRA", "FLUIDRA SA", "FLUIDRA S.A", "ZODIAC", "ZODIAC FLUIDRA",
     "ASTRALPOOL", "CTX", "CTX PROFESSIONAL", "CEPEX"]
  const NO_BRAND_SPELLINGS: seq<string> :=
    ["LAS NAVES", "ALMACENES", "DISTRIBUIDOR", "PROVEEDOR"]

  /** `ALIASES`, in the dictionary's (insertion) order: canonical tag and the
      provider spellings recognised as that tag.  The empty tag collects
      intermediaries that name no manufacturer. */
  const ALIASES: seq<(string, seq<string>)> := [
    ("JIMTEN", JIMTEN_SPELLINGS), ("ESPA", ESPA_SPELLINGS), ("GENEBRE", GENEBRE_SPELLINGS),
    ("FLUIDRA", FLUIDRA_SPELLINGS), ("", NO_BRAND_SPELLINGS)
  ]

  /** The fixed order of the "contains" heuristic. */
  const PRIORITY: seq<string> := ["JIMTEN", "ESPA", "GENEBRE", "FLUIDRA"]

  /** `EXCLUDE_PROVIDERS`. */
  const EXCLUDE_PROVIDERS: set<string> := {"FAMARA"}

  /** The five tags `canonical_brand` can return. */
  predicate IsTag(t: string) {
    t == "JIMTEN" || t == "ESPA" || t == "GENEBRE" || t == "FLUIDRA" || t == ""
  }

  /** Some spelling in `variants` normalises to `n`: the inner `for` loop. */
  predicate MatchesVariant(variants: seq<string>, n: string) {
    variants != [] && (NormText(variants[0]) == n || MatchesVariant(variants[1..], n))
  }

  lemma {:induction false} MatchesVariantIff(variants: seq<string>, n: string)
    ensures MatchesVariant(variants, n) <==>
      exists j :: 0 <= j < |variants| && NormText(variants[j]) == n
  {
    if variants != [] {
      MatchesVariantIff(variants[1..], n);
      assert forall j :: 1 <= j < |variants| ==> variants[j] == variants[1..][j - 1];
    }
  }

  /** Index of the first table entry with a spelling that normalises to `n`
      (|table| when there is none): the nested `for` loops over `ALIASES`. */
  function AliasIndex(table: seq<(string, seq<string>)>, n: string): (k: nat)
    ensures k <= |table|
  {
    if table == [] then 0
    else if MatchesVariant(table[0].1, n) then 0
    else 1 + AliasIndex(table[1..], n)
  }

  /** `AliasIndex` finds the first matching entry. */
  lemma {:induction false} AliasIndexSpec(table: seq<(string, seq<string>)>, n: string)
    ensures forall j :: 0 <= j < AliasIndex(table, n) ==> !MatchesVariant(table[j].1, n)
    ensures AliasIndex(table, n) < |table| ==> MatchesVariant(table[AliasIndex(table, n)].1, n)
  {
    if table != [] && !MatchesVariant(table[0].1, n) {
      AliasIndexSpec(table[1..], n);
      forall j | 0 <= j < AliasIndex(table, n) ensures !MatchesVariant(table[j].1, n) {
        if j > 0 {
          assert table[j] == table[1..][j - 1];
        }
      }
    }
  }

  /** Index of the first name in `names` that occurs in `n` (|names| when none). */
  function FirstContained(names: seq<string>, n: string): (k: nat)
    ensures k <= |names|
  {
    if names == [] then 0
    else if Contains(n, names[0]) then 0
    else 1 + FirstContained(names[1..], n)
  }

  /** `FirstContained` finds the first name that occurs. */
  lemma {:induction false} FirstContainedSpec(names: seq<string>, n: string)
    ensures forall j :: 0 <= j < FirstContained(names, n) ==> !Contains(n, names[j])
    ensures FirstContained(names, n) < |names| ==> Contains(n, names[FirstContained(names, n)])
  {
    if names != [] && !Contains(n, names[0]) {
      FirstContainedSpec(names[1..], n);
      forall j | 0 <= j < FirstContained(names, n) ensures !Contains(n, names[j]) {
        if j > 0 {
          assert names[j] == names[1..][j - 1];
        }
      }
    }
  }

  /** `canonical_brand(raw)`. */
  function CanonicalBrand(raw: string): (r: string)
    ensures IsTag(r)
  {
    var n := NormText(raw);
    if n == "" then ""
    else
      var a := AliasIndex(ALIASES, n);
      if a < |ALIASES| then AliasTag(a); ALIASES[a].0
      else
        var k := FirstContained(PRIORITY, n);
        if k < |PRIORITY| then PriorityTag(k); PRIORITY[k] else ""
  }

  lemma AliasTag(a: nat)
    requires a < |ALIASES|
    ensures IsTag(ALIASES[a].0)
  {
  }

  lemma PriorityTag(k: nat)
    requires k < |PRIORITY|
    ensures IsTag(PRIORITY[k])
  {
  }

  /** A provider that normalises to nothing names no brand. */
  lemma CanonicalBrandEmpty(raw: string)
    requires NormText(raw) == ""
    ensures CanonicalBrand(raw) == ""
  {
  }

  /** `is_excluded_provider(prov_raw)`. */
  predicate IsExcludedProvider(provRaw: string) {
    exists x :: x in EXCLUDE_PROVIDERS && Contains(NormText(provRaw), NormText(x))
  }

  /** The exclusion rule is "FAMARA occurs in the normalised provider". */
  lemma ExcludedIffFamara(provRaw: string)
    ensures IsExcludedProvider(provRaw) <==> Contains(NormText(provRaw), "FAMARA")
  {
    FamaraNormal();
    assert EXCLUDE_PROVIDERS == {"FAMARA"};
  }

  lemma FamaraNormal()
    ensures NormText("FAMARA") == "FAMARA"
  {
    assert IsNormalForm("FAMARA");
    NormalFormFixed("FAMARA");
  }

  /** The first two letters of the spellings under each tag; no pair is
      shared by two tags. */
  const HEADS: seq<set<(char, char)>> := [
    {('J', 'I')}, {('E', 'S')}, {('G', 'E')},
    {('F', 'L'), ('Z', 'O'), ('A', 'S'), ('C', 'T'), ('C', 'E')},
    {('L', 'A'), ('A', 'L'), ('D', 'I'), ('P', 'R')}
  ]

  predicate HeadAt(v: string, hs: set<(char, char)>) {
    |v| >= 2 && IsUpperAlnum(v[0]) && IsUpperAlnum(v[1]) && (v[0], v[1]) in hs
  }

  /** Every spelling from position `j` on starts with a pair of `hs`. */
  predicate HeadsFrom(vs: seq<string>, hs: set<(char, char)>, j: nat)
    decreases |vs| - j
  {
    j >= |vs| || (HeadAt(vs[j], hs) && HeadsFrom(vs, hs, j + 1))
  }

  lemma {:induction false} HeadsFromAt(vs: seq<string>, hs: set<(char, char)>, j: nat, m: nat)
    requires HeadsFrom(vs, hs, j) && j <= m < |vs|
    ensures HeadAt(vs[m], hs)
    decreases m - j
  {
    if j < m {
      HeadsFromAt(vs, hs, j + 1, m);
    }
  }

  lemma EntryHeads(i: nat)
    requires i < |ALIASES|
    ensures HeadsFrom(ALIASES[i].1, HEADS[i], 0)
  {
    if i == 0 {
      assert HeadsFrom(JIMTEN_SPELLINGS, HEADS[0], 0);
    } else if i == 1 {
      assert HeadsFrom(ESPA_SPELLINGS, HEADS[1], 0);
    } else if i == 2 {
      assert HeadsFrom(GENEBRE_SPELLINGS, HEADS[2], 0);
    } else if i == 3 {
      assert HeadsFrom(FLUIDRA_SPELLINGS, HEADS[3], 0);
    } else {
      assert HeadsFrom(NO_BRAND_SPELLINGS, HEADS[4], 0);
    }
  }

  /** Every spelling of the table normalises to a text that starts with the
      spelling's own first two letters, a pair that belongs to its tag. */
  lemma AliasInitial(i: nat, j: nat)
    requires i < |ALIASES| && j < |ALIASES[i].1|
    ensures |NormText(ALIASES[i].1[j])| >= 2
    ensures (NormText(ALIASES[i].1[j])[0], NormText(ALIASES[i].1[j])[1]) in HEADS[i]
  {
    EntryHeads(i);
    HeadsFromAt(ALIASES[i].1, HEADS[i], 0, j);
    NormTextFirstTwo(ALIASES[i].1[j]);
  }

  /** Spellings of two different tags never normalise to the same text, so
      the order of the table does not decide the exact-match step. */
  lemma AliasesDisjoint(k: nat, a: nat, i: nat, b: nat)
    requires k < i < |ALIASES|
    requires a < |ALIASES[k].1| && b < |ALIASES[i].1|
    ensures NormText(ALIASES[k].1[a]) != NormText(ALIASES[i].1[b])
  {
    AliasInitial(k, a);
    AliasInitial(i, b);
    HeadsDisjoint(k, i);
  }

  lemma HeadsDisjoint(k: nat, i: nat)
    requires k < i < |HEADS|
    ensures HEADS[k] !! HEADS[i]
  {
  }

  /** A provider text that normalises like one of the table's spellings
      resolves to that spelling's tag. */
  lemma {:induction false} CanonicalBrandAlias(raw: string, i: nat, j: nat)
    requires i < |ALIASES| && j < |ALIASES[i].1|
    requires NormText(raw) == NormText(ALIASES[i].1[j])
    ensures CanonicalBrand(raw) == ALIASES[i].0
  {
    var n := NormText(raw);
    AliasInitial(i, j);
    MatchesVariantIff(ALIASES[i].1, n);
    forall k | 0 <= k < i ensures !MatchesVariant(ALIASES[k].1, n) {
      MatchesVariantIff(ALIASES[k].1, n);
      forall a | 0 <= a < |ALIASES[k].1| ensures NormText(ALIASES[k].1[a]) != n {
        AliasesDisjoint(k, a, i, j);
      }
    }
    AliasIndexIs(ALIASES, n, i);
  }

  /** The entry `i` is the first whose spellings match. */
  lemma {:induction false} AliasIndexIs(table: seq<(string, seq<string>)>, n: string, i: nat)
    requires i < |table| && MatchesVariant(table[i].1, n)
    requires forall k :: 0 <= k < i ==> !MatchesVariant(table[k].1, n)
    ensures AliasIndex(table, n) == i
  {
    if i > 0 {
      forall k | 0 <= k < i - 1 ensures !MatchesVariant(table[1..][k].1, n) {
        assert table[1..][k] == table[k + 1];
      }
      AliasIndexIs(table[1..], n, i - 1);
    }
  }

  /** Without an exact match, the first of JIMTEN, ESPA, GENEBRE, FLUIDRA that
      occurs in the normalised text wins, and "" when none occurs. */
  lemma CanonicalBrandContains(raw: string)
    requires NormText(raw) != ""
    requires forall i, j :: 0 <= i < |ALIASES| && 0 <= j < |ALIASES[i].1| ==>
      NormText(ALIASES[i].1[j]) != NormText(raw)
    ensures var n := NormText(raw);
      (exists k :: 0 <= k < |PRIORITY| && Contains(n, PRIORITY[k]))
      ==> (exists k :: 0 <= k < |PRIORITY| && CanonicalBrand(raw) == PRIORITY[k]
            && Contains(n, PRIORITY[k])
            && forall m :: 0 <= m < k ==> !Contains(n, PRIORITY[m]))
    ensures var n := NormText(raw);
      (forall k :: 0 <= k < |PRIORITY| ==> !Contains(n, PRIORITY[k])) ==> CanonicalBrand(raw) == ""
  {
    var n := NormText(raw);
    forall i | 0 <= i < |ALIASES| ensures !MatchesVariant(ALIASES[i].1, n) {
      MatchesVariantIff(ALIASES[i].1, n);
    }
    AliasIndexSpec(ALIASES, n);
    var k := FirstContained(PRIORITY, n);
    FirstContainedSpec(PRIORITY, n);
    if k < |PRIORITY| {
      assert CanonicalBrand(raw) == PRIORITY[k];
    }
  }

  /** "astralpool" is a FLUIDRA brand. */
  lemma AstralpoolIsFluidra()
    ensures CanonicalBrand("astralpool") == "FLUIDRA"
  {
    assert Upper("astralpool") == FLUIDRA_SPELLINGS[5];
    NormTextUpper("astralpool");
    CanonicalBrandAlias("astralpool", 3, 5);
  }

  /** "Las Naves", the retailer itself, names no brand. */
  lemma LasNavesIsNoBrand()
    ensures CanonicalBrand("Las Naves") == ""
  {
    assert Upper("Las Naves") == NO_BRAND_SPELLINGS[0];
    NormTextUpper("Las Naves");
    CanonicalBrandAlias("Las Naves", 4, 0);
  }
}

/** `norm_text`, shared verbatim by scripts/enrich_urls.py and
    scripts/download_catalog.py: strip, upper-case, decompose accents and
    drop the combining marks, turn every run of characters outside A-Z/0-9
    into one space, strip again. */
module Normalize {
  import opened Text

  /** One character after `upper()`, NFKD decomposition and removal of the
      combining marks the decomposition produces.  ASCII letters are
      upper-cased; the Latin-1 letters with diacritics fold to their base
      letter and the superscript digits to digits; every other character is
      left as it is.  A combining mark already present in the input is
      dropped afterwards by `NotMark`; any other character outside A-Z/0-9
      becomes a separator. */
  function FoldChar(c: char): char {
    if 'a' <= c <= 'z' then UpperChar(c)
    else if ('\U{C0}' <= c <= '\U{C5}') || ('\U{E0}' <= c <= '\U{E5}') then 'A'
    else if c == '\U{C7}' || c == '\U{E7}' then 'C'
    else if ('\U{C8}' <= c <= '\U{CB}') || ('\U{E8}' <= c <= '\U{EB}') then 'E'
    else if ('\U{CC}' <= c <= '\U{CF}') || ('\U{EC}' <= c <= '\U{EF}') then 'I'
    else if c == '\U{D1}' || c == '\U{F1}' then 'N'
    else if ('\U{D2}' <= c <= '\U{D6}') || ('\U{F2}' <= c <= '\U{F6}') then 'O'
    else if ('\U{D9}' <= c <= '\U{DC}') || ('\U{F9}' <= c <= '\U{FC}') then 'U'
    else if c == '\U{DD}' || c == '\U{FD}' || c == '\U{FF}' then 'Y'
    else if c == '\U{B9}' then '1'
    else if c == '\U{B2}' then '2'
    else if c == '\U{B3}' then '3'
    else c
  }

  function Fold(s: string): (r: string)
    ensures |r| == |s|
  {
    seq(|s|, i requires 0 <= i < |s| => FoldChar(s[i]))
  }

  /** The class `[^A-Z0-9]` of the regular expression. */
  predicate Separator(c: char) {
    !IsUpperAlnum(c)
  }

  /** The characters of the Combining Diacritical Marks block that
      `unicodedata.combining` reports with a non-zero class: U+0300 to U+036F
      except the grapheme joiner U+034F. */
  predicate CombiningMark(c: char) {
    ('\U{300}' <= c <= '\U{34E}') || ('\U{350}' <= c <= '\U{36F}')
  }

  /** The filter `not unicodedata.combining(ch)`. */
  predicate NotMark(c: char) {
    !CombiningMark(c)
  }

  /** The folded text without its combining marks. */
  function Unmarked(s: string): string {
    Filter(Fold(s), NotMark)
  }

  /** `norm_text(s)`. */
  function NormText(s: string): string {
    Strip(ReplaceRuns(Unmarked(Strip(s)), Separator, " "))
  }

  /** What `norm_text` produces: only A-Z, 0-9 and single inner spaces. */
  predicate IsNormalForm(t: string) {
    && (forall i :: 0 <= i < |t| ==> IsUpperAlnum(t[i]) || t[i] == ' ')
    && (forall i :: 0 <= i < |t| - 1 ==> !(t[i] == ' ' && t[i + 1] == ' '))
    && (t == [] || (t[0] != ' ' && t[|t| - 1] != ' '))
  }

  /** The result of `norm_text` is in normal form. */
  lemma NormTextShape(s: string)
    ensures IsNormalForm(NormText(s))
  {
    var f := Unmarked(Strip(s));
    var r := ReplaceRuns(f, Separator, " ");
    RunsShape(f, r);
    StripKeepsShape(r);
  }

  /** After replacing the separator runs only letters, digits and single
      spaces remain. */
  lemma RunsShape(f: string, r: string)
    requires r == ReplaceRuns(f, Separator, " ")
    ensures forall i :: 0 <= i < |r| ==> IsUpperAlnum(r[i]) || r[i] == ' '
    ensures forall i :: 0 <= i < |r| - 1 ==> !(r[i] == ' ' && r[i + 1] == ' ')
  {
    ReplaceRunsNoAdjacent(f, Separator, ' ');
    ReplaceRunsSpec(f, Separator, " ");
    forall i | 0 <= i < |r| ensures IsUpperAlnum(r[i]) || r[i] == ' ' {
      assert (!Separator(r[i]) && r[i] in f) || r[i] in " ";
    }
    forall i | 0 <= i < |r| - 1 ensures !(r[i] == ' ' && r[i + 1] == ' ') {
      assert !(Separator(r[i]) && Separator(r[i + 1]));
    }
  }

  /** Stripping a string of letters, digits and single spaces gives a normal form. */
  lemma StripKeepsShape(r: string)
    requires forall i :: 0 <= i < |r| ==> IsUpperAlnum(r[i]) || r[i] == ' '
    requires forall i :: 0 <= i < |r| - 1 ==> !(r[i] == ' ' && r[i + 1] == ' ')
    ensures IsNormalForm(Strip(r))
  {
    var t, a := Strip(r), LeadingSpaces(r);
    StripSpec(r);
    forall i | 0 <= i < |t| ensures IsUpperAlnum(t[i]) || t[i] == ' ' {
      assert t[i] == r[a + i];
    }
    forall i | 0 <= i < |t| - 1 ensures !(t[i] == ' ' && t[i + 1] == ' ') {
      assert t[i] == r[a + i] && t[i + 1] == r[a + i + 1];
    }
  }

  /** A normal-form string is left unchanged by `norm_text`. */
  lemma NormalFormFixed(t: string)
    requires IsNormalForm(t)
    ensures NormText(t) == t
  {
    assert t != [] ==> !IsSpace(t[0]) && !IsSpace(t[|t| - 1]);
    StripNoop(t);
    FoldNormal(t);
    FilterAll(t, NotMark);
    assert forall i :: 0 <= i < |t| ==> Separator(t[i]) ==> t[i] == ' ';
    assert forall i :: 0 <= i < |t| - 1 ==> !(Separator(t[i]) && Separator(t[i + 1]));
    ReplaceRunsFixed(t, Separator, ' ');
  }

  lemma FoldNormal(t: string)
    requires forall i :: 0 <= i < |t| ==> IsUpperAlnum(t[i]) || t[i] == ' '
    ensures Fold(t) == t
  {
    forall i | 0 <= i < |t| ensures Fold(t)[i] == t[i] {
      FoldCharFixed(t[i]);
    }
  }

  lemma FoldCharFixed(c: char)
    requires IsUpperAlnum(c) || c == ' '
    ensures FoldChar(c) == c
  {
  }

  /** `norm_text` is idempotent. */
  lemma NormTextIdempotent(s: string)
    ensures NormText(NormText(s)) == NormText(s)
  {
    NormTextShape(s);
    NormalFormFixed(NormText(s));
  }

  /** A string that starts with two letters or digits keeps them as the
      first two characters of its normal form. */
  lemma NormTextFirstTwo(s: string)
    requires |s| >= 2 && IsUpperAlnum(s[0]) && IsUpperAlnum(s[1])
    ensures |NormText(s)| >= 2 && NormText(s)[0] == s[0] && NormText(s)[1] == s[1]
  {
    StripSpec(s);
    var st := Strip(s);
    assert LeadingSpaces(s) == 0;
    assert !IsSpace(s[1]);
    assert |st| >= 2 && st[0] == s[0] && st[1] == s[1];
    var f := Fold(st);
    FoldCharFixed(s[0]);
    FoldCharFixed(s[1]);
    var g := Filter(f, NotMark);
    assert g == [f[0]] + Filter(f[1..], NotMark);
    assert f[1..][0] == f[1];
    assert Filter(f[1..], NotMark) == [f[1]] + Filter(f[1..][1..], NotMark);
    assert |g| >= 2 && g[0] == s[0] && g[1] == s[1];
    var r := ReplaceRuns(g, Separator, " ");
    assert r == [g[0]] + ReplaceRuns(g[1..], Separator, " ");
    assert g[1..][0] == g[1];
    assert |r| >= 2 && r[0] == s[0] && r[1] == s[1];
    StripSpec(r);
    assert LeadingSpaces(r) == 0;
    assert !IsSpace(r[1]);
  }

  /** Characters that fold alike and agree on being whitespace give the same
      normal form: in particular `norm_text` ignores ASCII case. */
  lemma NormTextSimilar(s: string, t: string)
    requires |s| == |t|
    requires forall i :: 0 <= i < |s| ==> FoldChar(s[i]) == FoldChar(t[i])
    requires forall i :: 0 <= i < |s| ==> (IsSpace(s[i]) <==> IsSpace(t[i]))
    ensures NormText(s) == NormText(t)
  {
    LeadingSpacesSimilar(s, t);
    var a := LeadingSpaces(s);
    TrailingSpacesSimilar(s[a..], t[a..]);
    var ss, st := Strip(s), Strip(t);
    StripSpec(s);
    StripSpec(t);
    assert |ss| == |st|;
    FoldSimilar(ss, st);
  }

  lemma FoldSimilar(s: string, t: string)
    requires |s| == |t|
    requires forall i :: 0 <= i < |s| ==> FoldChar(s[i]) == FoldChar(t[i])
    ensures Fold(s) == Fold(t)
  {
    assert forall i :: 0 <= i < |s| ==> Fold(s)[i] == Fold(t)[i];
  }

  lemma {:induction false} LeadingSpacesSimilar(s: string, t: string)
    requires |s| == |t|
    requires forall i :: 0 <= i < |s| ==> (IsSpace(s[i]) <==> IsSpace(t[i]))
    ensures LeadingSpaces(s) == LeadingSpaces(t)
    decreases |s|
  {
    if s != [] && IsSpace(s[0]) {
      LeadingSpacesSimilar(s[1..], t[1..]);
    }
  }

  lemma {:induction false} TrailingSpacesSimilar(s: string, t: string)
    requires |s| == |t|
    requires forall i :: 0 <= i < |s| ==> (IsSpace(s[i]) <==> IsSpace(t[i]))
    ensures TrailingSpaces(s) == TrailingSpaces(t)
    decreases |s|
  {
    if s != [] && IsSpace(s[|s| - 1]) {
      TrailingSpacesSimilar(s[..|s| - 1], t[..|t| - 1]);
    }
  }

  /** `norm_text` does not see ASCII case. */
  lemma NormTextUpper(s: string)
    ensures NormText(Upper(s)) == NormText(s)
  {
    NormTextSimilar(Upper(s), s);
  }

  /** A combining accent typed after its letter is dropped, not turned into
      a separator: "CAFE" + U+0301 + "S" normalises to "CAFES". */
  lemma DecomposedAccentDropped()
    ensures NormText("CAFE\U{301}S") == "CAFES"
  {
    var s, t := "CAFE\U{301}S", "CAFES";
    StripNoop(s);
    AccentFold(s);
    AccentFilter(s);
    ReplaceRunsFixed(t, Separator, ' ');
    StripNoop(t);
  }

  /** Folding leaves the letters and the accent of the example alone. */
  lemma AccentFold(s: string)
    requires s == "CAFE\U{301}S"
    ensures Fold(s) == s
  {
    forall i | 0 <= i < |s| ensures Fold(s)[i] == s[i] {
      if i != 4 { FoldCharFixed(s[i]); }
    }
  }

  /** Removing the marks of the example, one character at a time. */
  lemma AccentFilter(s: string)
    requires s == "CAFE\U{301}S"
    ensures Filter(s, NotMark) == "CAFES"
  {
    assert Filter(s[5..], NotMark) == "S" by {
      assert s[5..][1..] == [];
    }
    assert Filter(s[4..], NotMark) == "S" by {
      assert s[4..][1..] == s[5..];
    }
    assert Filter(s[3..], NotMark) == "ES" by {
      assert s[3..][1..] == s[4..];
    }
    assert Filter(s[2..], NotMark) == "FES" by {
      assert s[2..][1..] == s[3..];
    }
    assert Filter(s[1..], NotMark) == "AFES" by {
      assert s[1..][1..] == s[2..];
    }
  }
}

/** The small part of Python's `str` and `re` that the three scripts use,
    written out over `seq<char>`: whitespace (as `str.isspace` and the
    regular-expression class `\s` see it), `strip`, ASCII `upper`/`lower`,
    the substring test `p in s`, `startswith`/`endswith`, character removal
    (`replace(c, "")`) and `re.sub(r"[...]+", rep, s)`, which replaces every
    maximal run of a character class by one replacement string. */
module Text {

  /** Python's whitespace characters (`str.isspace`, and `\s` in a `str`
      pattern). */
  predicate IsSpace(c: char) {
    || c == ' ' || c == '\t' || c == '\n' || c == '\r'
    || c == '\U{0B}' || c == '\U{0C}'
    || ('\U{1C}' <= c <= '\U{1F}')
    || c == '\U{85}' || c == '\U{A0}' || c == '\U{1680}'
    || ('\U{2000}' <= c <= '\U{200A}')
    || c == '\U{2028}' || c == '\U{2029}' || c == '\U{202F}' || c == '\U{205F}'
    || c == '\U{3000}'
  }

  predicate IsUpperAlnum(c: char) {
    ('A' <= c <= 'Z') || ('0' <= c <= '9')
  }

  function LowerChar(c: char): char {
    if 'A' <= c <= 'Z' then (c as int + 32) as char else c
  }

  function UpperChar(c: char): char {
    if 'a' <= c <= 'z' then (c as int - 32) as char else c
  }

  /** `s.lower()` on the ASCII letters. */
  function Lower(s: string): (r: string)
    ensures |r| == |s|
  {
    seq(|s|, i requires 0 <= i < |s| => LowerChar(s[i]))
  }

  /** A text without ASCII capitals is its own lower case. */
  lemma LowerNoop(s: string)
    requires forall k :: 0 <= k < |s| ==> !('A' <= s[k] <= 'Z')
    ensures Lower(s) == s
  {
  }

  /** `s.upper()` on the ASCII letters. */
  function Upper(s: string): (r: string)
    ensures |r| == |s|
  {
    seq(|s|, i requires 0 <= i < |s| => UpperChar(s[i]))
  }

  /** `p in s` for strings: `p` occurs in `s` as a contiguous piece. */
  predicate Contains(s: string, p: string) {
    exists k :: 0 <= k <= |s| - |p| && OccursAt(s, p, k)
  }

  /** `p` occurs in `s` starting at position `k`. */
  predicate OccursAt(s: string, p: string, k: int) {
    0 <= k && k + |p| <= |s| && s[k..k + |p|] == p
  }

  predicate StartsWith(s: string, p: string) {
    p <= s
  }

  predicate EndsWith(s: string, suffix: string) {
    |suffix| <= |s| && s[|s| - |suffix|..] == suffix
  }

  lemma ContainsAt(s: string, p: string, k: nat)
    requires k + |p| <= |s| && s[k..k + |p|] == p
    ensures Contains(s, p)
  {
    assert OccursAt(s, p, k);
  }

  lemma EndsWithContains(s: string, suffix: string)
    requires EndsWith(s, suffix)
    ensures Contains(s, suffix)
  {
    ContainsAt(s, suffix, |s| - |suffix|);
  }

  lemma PrefixContains(s: string, p: string)
    requires StartsWith(s, p)
    ensures Contains(s, p)
  {
    ContainsAt(s, p, 0);
  }

  /** A piece of `s` is still found in anything that contains `s`. */
  lemma ContainsInfix(t: string, a: nat, s: string, p: string)
    requires a + |s| <= |t| && t[a..a + |s|] == s
    requires Contains(s, p)
    ensures Contains(t, p)
  {
    var k :| 0 <= k <= |s| - |p| && OccursAt(s, p, k);
    forall i | 0 <= i < |p| ensures t[a + k + i] == p[i] {
      assert t[a..a + |s|][k + i] == t[a + k + i];
      assert s[k..k + |p|][i] == s[k + i];
    }
    assert t[a + k..a + k + |p|] == p;
    ContainsAt(t, p, a + k);
  }

  /** Length of the leading run of characters of the class `cls`. */
  function RunLength(s: string, cls: char -> bool): (n: nat)
    ensures n <= |s|
  {
    if s != [] && cls(s[0]) then 1 + RunLength(s[1..], cls) else 0
  }

  /** The leading run is all of the class and is maximal. */
  lemma {:induction false} RunLengthSpec(s: string, cls: char -> bool)
    ensures forall i :: 0 <= i < RunLength(s, cls) ==> cls(s[i])
    ensures RunLength(s, cls) < |s| ==> !cls(s[RunLength(s, cls)])
  {
    if s != [] && cls(s[0]) {
      var t := s[1..];
      RunLengthSpec(t, cls);
      forall i | 0 <= i < RunLength(s, cls) ensures cls(s[i]) {
        if i > 0 {
          assert s[i] == t[i - 1];
        }
      }
      if RunLength(s, cls) < |s| {
        assert s[RunLength(s, cls)] == t[RunLength(t, cls)];
      }
    }
  }

  /** Number of whitespace characters at the start of `s`. */
  function LeadingSpaces(s: string): (n: nat)
    ensures n <= |s|
  {
    RunLength(s, IsSpace)
  }

  /** Number of whitespace characters at the end of `s`. */
  function TrailingSpaces(s: string): (n: nat)
    ensures n <= |s|
  {
    if s != [] && IsSpace(s[|s| - 1]) then 1 + TrailingSpaces(s[..|s| - 1]) else 0
  }

  /** The trailing run is all whitespace and is maximal. */
  lemma {:induction false} TrailingSpacesSpec(s: string)
    ensures forall i :: |s| - TrailingSpaces(s) <= i < |s| ==> IsSpace(s[i])
    ensures TrailingSpaces(s) < |s| ==> !IsSpace(s[|s| - TrailingSpaces(s) - 1])
  {
    if s != [] && IsSpace(s[|s| - 1]) {
      var t := s[..|s| - 1];
      TrailingSpacesSpec(t);
      forall i | |s| - TrailingSpaces(s) <= i < |s| ensures IsSpace(s[i]) {
        if i < |s| - 1 {
          assert s[i] == t[i];
        }
      }
      if TrailingSpaces(s) < |s| {
        assert s[|s| - TrailingSpaces(s) - 1] == t[|t| - TrailingSpaces(t) - 1];
      }
    }
  }

  /** `s.strip()`: what lies between the leading and the trailing whitespace. */
  function Strip(s: string): string {
    var a := LeadingSpaces(s);
    s[a..|s| - TrailingSpaces(s[a..])]
  }

  /** What `strip()` keeps is the piece of `s` from its first non-space
      character on; it neither starts nor ends with whitespace, and only
      whitespace was removed around it. */
  lemma StripSpec(s: string)
    ensures var a, r := LeadingSpaces(s), Strip(s);
      && a + |r| <= |s|
      && (forall i :: 0 <= i < |r| ==> r[i] == s[a + i])
      && (r == [] || (!IsSpace(r[0]) && !IsSpace(r[|r| - 1])))
      && (forall i :: 0 <= i < a ==> IsSpace(s[i]))
      && (forall i :: a + |r| <= i < |s| ==> IsSpace(s[i]))
  {
    RunLengthSpec(s, IsSpace);
    StripTrailing(s[LeadingSpaces(s)..]);
  }

  /** What remains of `t` without its trailing whitespace. */
  lemma StripTrailing(t: string)
    requires t == [] || !IsSpace(t[0])
    ensures var r := t[..|t| - TrailingSpaces(t)];
      && (r == [] || (!IsSpace(r[0]) && !IsSpace(r[|r| - 1])))
      && (forall i :: |r| <= i < |t| ==> IsSpace(t[i]))
  {
    TrailingSpacesSpec(t);
  }

  /** A string without surrounding whitespace is its own `strip()`. */
  lemma StripNoop(s: string)
    requires s == [] || (!IsSpace(s[0]) && !IsSpace(s[|s| - 1]))
    ensures Strip(s) == s
  {
    assert LeadingSpaces(s) == 0;
    assert s[0..] == s;
  }

  /** A string strips to "" exactly when it is all whitespace. */
  lemma StripEmptyIff(s: string)
    ensures Strip(s) == [] <==> forall i :: 0 <= i < |s| ==> IsSpace(s[i])
  {
    StripSpec(s);
  }

  /** `s.replace(c, "")` and friends: keep the characters `keep` accepts. */
  function Filter(s: string, keep: char -> bool): string {
    if s == [] then []
    else if keep(s[0]) then [s[0]] + Filter(s[1..], keep)
    else Filter(s[1..], keep)
  }

  /** A filter that accepts every character changes nothing. */
  lemma {:induction false} FilterAll(s: string, keep: char -> bool)
    requires forall i :: 0 <= i < |s| ==> keep(s[i])
    ensures Filter(s, keep) == s
  {
    if s != [] {
      FilterAll(s[1..], keep);
    }
  }

  /** `re.sub("<cls>+", rep, s)`: every maximal run of characters of the class
      `cls` becomes one copy of `rep`; other characters are kept. */
  function ReplaceRuns(s: string, cls: char -> bool, rep: string): string
    decreases |s|
  {
    if s == [] then []
    else if cls(s[0]) then rep + ReplaceRuns(s[RunLength(s, cls)..], cls, rep)
    else [s[0]] + ReplaceRuns(s[1..], cls, rep)
  }

  /** Every character of the result is a kept character of `s` outside the
      class or a character of `rep`; the first character is the first of
      `rep` or of `s`. */
  lemma {:induction false} ReplaceRunsSpec(s: string, cls: char -> bool, rep: string)
    ensures forall i :: 0 <= i < |ReplaceRuns(s, cls, rep)| ==>
      var c := ReplaceRuns(s, cls, rep)[i]; (!cls(c) && c in s) || c in rep
    ensures s != [] && rep != [] ==>
      (ReplaceRuns(s, cls, rep) != [] && ReplaceRuns(s, cls, rep)[0] == (if cls(s[0]) then rep[0] else s[0]))
    decreases |s|
  {
    if s != [] {
      var r := ReplaceRuns(s, cls, rep);
      var k := if cls(s[0]) then RunLength(s, cls) else 1;
      var rest := s[k..];
      var head := if cls(s[0]) then rep else [s[0]];
      ReplaceRunsSpec(rest, cls, rep);
      var tail := ReplaceRuns(rest, cls, rep);
      assert r == head + tail;
      forall i | 0 <= i < |r| ensures (!cls(r[i]) && r[i] in s) || r[i] in rep {
        if i >= |head| {
          var c := tail[i - |head|];
          assert r[i] == c;
          if !cls(c) && c in rest {
            var m :| 0 <= m < |rest| && rest[m] == c;
            assert s[k + m] == c;
          }
        }
      }
    }
  }

  /** Replacing runs by one character of the class itself leaves no two
      neighbouring characters of that class. */
  lemma {:induction false} ReplaceRunsNoAdjacent(s: string, cls: char -> bool, c: char)
    requires cls(c)
    ensures forall i :: 0 <= i < |ReplaceRuns(s, cls, [c])| - 1 ==>
      !(cls(ReplaceRuns(s, cls, [c])[i]) && cls(ReplaceRuns(s, cls, [c])[i + 1]))
    decreases |s|
  {
    if s != [] {
      var r := ReplaceRuns(s, cls, [c]);
      if cls(s[0]) {
        var rest := s[RunLength(s, cls)..];
        RunLengthSpec(s, cls);
        ReplaceRunsNoAdjacent(rest, cls, c);
        ReplaceRunsSpec(rest, cls, [c]);
        var tail := ReplaceRuns(rest, cls, [c]);
        assert r == [c] + tail;
        assert tail != [] ==> !cls(tail[0]);
      } else {
        ReplaceRunsNoAdjacent(s[1..], cls, c);
        assert r == [s[0]] + ReplaceRuns(s[1..], cls, [c]);
      }
    }
  }

  /** A string whose class characters are single, isolated copies of `c` is
      a fixed point of replacing runs by `c`. */
  lemma {:induction false} ReplaceRunsFixed(s: string, cls: char -> bool, c: char)
    requires forall i :: 0 <= i < |s| ==> cls(s[i]) ==> s[i] == c
    requires forall i :: 0 <= i < |s| - 1 ==> !(cls(s[i]) && cls(s[i + 1]))
    ensures ReplaceRuns(s, cls, [c]) == s
    decreases |s|
  {
    if s != [] {
      var t := s[1..];
      assert forall i :: 0 <= i < |t| ==> t[i] == s[i + 1];
      ReplaceRunsFixed(t, cls, c);
      if cls(s[0]) {
        assert t == [] || !cls(t[0]);
        assert RunLength(t, cls) == 0;
        assert RunLength(s, cls) == 1;
        assert ReplaceRuns(s, cls, [c]) == [c] + ReplaceRuns(t, cls, [c]);
      } else {
        assert ReplaceRuns(s, cls, [c]) == [s[0]] + ReplaceRuns(t, cls, [c]);
      }
      assert s == [s[0]] + t;
    }
  }

  /** A string without class characters is left unchanged. */
  lemma {:induction false} ReplaceRunsNone(s: string, cls: char -> bool, rep: string)
    requires forall i :: 0 <= i < |s| ==> !cls(s[i])
    ensures ReplaceRuns(s, cls, rep) == s
    decreases |s|
  {
    if s != [] {
      var t := s[1..];
      assert forall i :: 0 <= i < |t| ==> t[i] == s[i + 1];
      ReplaceRunsNone(t, cls, rep);
      assert s == [s[0]] + t;
    }
  }

  /** The last character after replacement: the last character of `s`, or the
      last of `rep` when `s` ends inside a run. */
  lemma {:induction false} ReplaceRunsLast(s: string, cls: char -> bool, rep: string)
    requires s != [] && rep != []
    ensures ReplaceRuns(s, cls, rep) != []
    ensures var r := ReplaceRuns(s, cls, rep);
      r[|r| - 1] == if cls(s[|s| - 1]) then rep[|rep| - 1] else s[|s| - 1]
    decreases |s|
  {
    var r := ReplaceRuns(s, cls, rep);
    if cls(s[0]) {
      var rest := s[RunLength(s, cls)..];
      RunLengthSpec(s, cls);
      if rest == [] {
        assert r == rep;
        assert cls(s[|s| - 1]);
      } else {
        ReplaceRunsLast(rest, cls, rep);
        assert rest[|rest| - 1] == s[|s| - 1];
      }
    } else if |s| > 1 {
      ReplaceRunsLast(s[1..], cls, rep);
    }
  }

  /** A character outside the class survives the replacement of runs. */
  lemma {:induction false} ReplaceRunsKeeps(s: string, cls: char -> bool, rep: string, c: char)
    requires c in s && !cls(c)
    ensures c in ReplaceRuns(s, cls, rep)
    decreases |s|
  {
    if s[0] == c {
      assert ReplaceRuns(s, cls, rep)[0] == c;
    } else {
      var k := if cls(s[0]) then RunLength(s, cls) else 1;
      var rest := s[k..];
      RunLengthSpec(s, cls);
      var m :| 0 <= m < |s| && s[m] == c;
      assert rest[m - k] == c;
      ReplaceRunsKeeps(rest, cls, rep, c);
      var head := if cls(s[0]) then rep else [s[0]];
      assert ReplaceRuns(s, cls, rep) == head + ReplaceRuns(rest, cls, rep);
    }
  }

  /** A character other than whitespace survives `strip()`. */
  lemma StripKeeps(s: string, c: char)
    requires c in s && !IsSpace(c)
    ensures c in Strip(s)
  {
    StripSpec(s);
    var a, r := LeadingSpaces(s), Strip(s);
    var m :| 0 <= m < |s| && s[m] == c;
    assert r[m - a] == c;
  }

  /** `lower()` is idempotent. */
  lemma LowerLower(s: string)
    ensures Lower(Lower(s)) == Lower(s)
  {
  }

  /** Decimal rendering of an integer, as Python's `str(int)`. */
  function NatToString(n: nat): (r: string)
    ensures r != [] && forall i :: 0 <= i < |r| ==> '0' <= r[i] <= '9'
  {
    var d := ['0', '1', '2', '3', '4', '5', '6', '7', '8', '9'];
    if n < 10 then [d[n]] else NatToString(n / 10) + [d[n % 10]]
  }

  function IntToString(n: int): string {
    if n < 0 then "-" + NatToString(-n) else NatToString(n)
  }
}

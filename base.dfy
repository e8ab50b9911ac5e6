/** Generic building blocks shared by every module: an optional value and the
    stable, first-occurrence de-duplication that the enrichment script uses
    for queries (a `seen` set plus an output list) and for candidate URLs. */
module Base {

  datatype Option<+T> = None | Some(value: T)

  /** Python truthiness of an optional string: present and non-empty. */
  predicate Present<T>(o: Option<seq<T>>) {
    o.Some? && o.value != []
  }

  /** No element occurs twice. */
  predicate NoDups<T(==)>(s: seq<T>) {
    forall i, j :: 0 <= i < j < |s| ==> s[i] != s[j]
  }

  function Elems<T>(s: seq<T>): set<T> {
    set x | x in s
  }

  /** A list without repeats has as many elements as positions. */
  lemma {:induction false} NoDupsCard<T>(s: seq<T>)
    requires NoDups(s)
    ensures |Elems(s)| == |s|
    decreases |s|
  {
    if s != [] {
      var p, x := s[..|s| - 1], s[|s| - 1];
      assert NoDups(p) by {
        forall i, j | 0 <= i < j < |p| ensures p[i] != p[j] {
          assert p[i] == s[i] && p[j] == s[j];
        }
      }
      NoDupsCard(p);
      assert s == p + [x];
      assert Elems(s) == Elems(p) + {x};
      assert x !in Elems(p) by {
        forall i | 0 <= i < |p| ensures p[i] != x {
          assert p[i] == s[i];
        }
      }
    }
  }

  /** The elements of `s` that are not in `seen`, each kept at its first
      occurrence, in the order of `s`.  Defined from the right so that it
      follows a loop that scans `s` from the left with a growing `seen`. */
  function DedupAfter<T(==)>(s: seq<T>, seen: set<T>): (r: seq<T>)
    ensures NoDups(r)
    ensures Elems(r) == Elems(s) - seen
    decreases |s|
  {
    if s == [] then []
    else
      var p, x := s[..|s| - 1], s[|s| - 1];
      var q := DedupAfter(p, seen);
      assert s == p + [x] && Elems(s) == Elems(p) + {x};
      if x in p || x in seen then q
      else
        assert x !in Elems(q);
        assert Elems(q + [x]) == Elems(q) + {x};
        q + [x]
  }

  /** Stable de-duplication: every element once, at its first occurrence. */
  function Dedup<T(==)>(s: seq<T>): seq<T> {
    DedupAfter(s, {})
  }

  /** Extending the scanned list by one element: the one step of the
      `if u not in seen: seen.add(u); out.append(u)` loop. */
  lemma DedupAfterSnoc<T>(s: seq<T>, x: T, seen: set<T>)
    ensures DedupAfter(s + [x], seen)
      == if x in s || x in seen then DedupAfter(s, seen) else DedupAfter(s, seen) + [x]
  {
    assert (s + [x])[..|s + [x]| - 1] == s;
  }

  /** The `seen`/`ordered` loop: keep each element at its first occurrence. */
  method DedupInOrder<T(==)>(s: seq<T>) returns (out: seq<T>)
    ensures out == Dedup(s)
  {
    var seen: set<T> := {};
    out := [];
    for k := 0 to |s|
      invariant out == DedupAfter(s[..k], {})
      invariant seen == Elems(s[..k])
    {
      DedupStep(s, k);
      if s[k] !in seen {
        seen := seen + {s[k]};
        out := out + [s[k]];
      }
    }
    assert s[..|s|] == s;
  }

  /** One step of that loop, stated on prefixes of `s`. */
  lemma DedupStep<T>(s: seq<T>, k: nat)
    requires k < |s|
    ensures DedupAfter(s[..k + 1], {})
      == if s[k] in Elems(s[..k]) then DedupAfter(s[..k], {}) else DedupAfter(s[..k], {}) + [s[k]]
    ensures Elems(s[..k + 1]) == Elems(s[..k]) + {s[k]}
  {
    assert s[..k + 1] == s[..k] + [s[k]];
    DedupAfterSnoc(s[..k], s[k], {});
  }

  /** De-duplicating a concatenation keeps the de-duplicated first part as a
      prefix: what came first stays first. */
  lemma {:induction false} DedupAfterAppend<T>(a: seq<T>, b: seq<T>, seen: set<T>)
    ensures DedupAfter(a + b, seen) == DedupAfter(a, seen) + DedupAfter(b, seen + Elems(a))
    decreases |b|
  {
    if b == [] {
      assert a + b == a;
    } else {
      var p, x := b[..|b| - 1], b[|b| - 1];
      assert b == p + [x];
      assert a + b == (a + p) + [x];
      DedupAfterAppend(a, p, seen);
      DedupAfterSnoc(a + p, x, seen);
      DedupAfterSnoc(p, x, seen + Elems(a));
      assert (x in a + p || x in seen) <==> (x in p || x in seen + Elems(a));
    }
  }

  /** A list that already has no duplicates (and avoids `seen`) is left as it is. */
  lemma {:induction false} DedupAfterDistinct<T>(s: seq<T>, seen: set<T>)
    requires NoDups(s)
    requires forall x :: x in s ==> x !in seen
    ensures DedupAfter(s, seen) == s
    decreases |s|
  {
    if s != [] {
      var p, x := s[..|s| - 1], s[|s| - 1];
      assert s == p + [x];
      assert NoDups(p) by {
        forall i, j | 0 <= i < j < |p| ensures p[i] != p[j] {
          assert p[i] == s[i] && p[j] == s[j];
        }
      }
      DedupAfterDistinct(p, seen);
      assert x !in p by {
        forall i | 0 <= i < |p| ensures p[i] != x {
          assert p[i] == s[i] && x == s[|s| - 1];
        }
      }
    }
  }

  /** Position of the first occurrence of `x` in `s`. */
  function IndexOf<T(==)>(s: seq<T>, x: T): (k: nat)
    requires x in s
    ensures k < |s| && s[k] == x
    ensures forall m :: 0 <= m < k ==> s[m] != x
  {
    if s[0] == x then 0
    else
      assert x in s[1..];
      1 + IndexOf(s[1..], x)
  }

  /** First-occurrence order: of two kept elements, the one whose first
      occurrence in the input comes earlier also comes earlier in the output. */
  lemma {:induction false} DedupKeepsFirstOrder<T>(s: seq<T>, i: nat, j: nat)
    requires i < j < |Dedup(s)|
    ensures Dedup(s)[i] in s && Dedup(s)[j] in s
    ensures IndexOf(s, Dedup(s)[i]) < IndexOf(s, Dedup(s)[j])
    decreases |s|
  {
    var r := Dedup(s);
    var p, x := s[..|s| - 1], s[|s| - 1];
    assert s == p + [x];
    if x in p {
      DedupKeepsFirstOrder(p, i, j);
      FirstIndexInPrefix(p, x, r[i]);
      FirstIndexInPrefix(p, x, r[j]);
    } else {
      assert r == Dedup(p) + [x];
      if j < |Dedup(p)| {
        DedupKeepsFirstOrder(p, i, j);
        FirstIndexInPrefix(p, x, r[i]);
        FirstIndexInPrefix(p, x, r[j]);
      } else {
        assert r[i] in Dedup(p) && r[i] in Elems(Dedup(p));
        assert r[j] == x && r[i] in p;
        FirstIndexInPrefix(p, x, r[i]);
        assert forall k :: 0 <= k < |p| ==> s[k] == p[k];
        assert IndexOf(s, x) == |p|;
      }
    }
  }

  lemma FirstIndexInPrefix<T>(p: seq<T>, x: T, y: T)
    requires y in p
    ensures y in p + [x] && IndexOf(p + [x], y) == IndexOf(p, y)
  {
    var k, k' := IndexOf(p, y), IndexOf(p + [x], y);
    assert (p + [x])[k] == y;
  }
}

/** Spreadsheet cells as pandas hands them to the scripts, and the three ways
    the scripts turn a cell into text: `str(v)`, `str(v or "")` and the
    `is_empty` test (scripts/enrich_urls.py and scripts/download_catalog.py
    define the same `is_empty`). */
module Cells {
  import opened Text

  /** A cell value: Python `None`, a float NaN or infinity, another number
      (kept as its `str()` rendering and whether it is zero, which makes it
      falsy), or a string. */
  datatype Cell =
    | Null
    | NaN
    | Inf(negative: bool)
    | Num(text: string, zero: bool)
    | Str(s: string)

  /** `str(v)`. */
  function CellStr(c: Cell): string {
    match c
    case Null => "None"
    case NaN => "nan"
    case Inf(neg) => if neg then "-inf" else "inf"
    case Num(t, _) => t
    case Str(s) => s
  }

  /** Python truthiness of the value. */
  predicate Truthy(c: Cell) {
    match c
    case Null => false
    case NaN => true
    case Inf(_) => true
    case Num(_, zero) => !zero
    case Str(s) => s != ""
  }

  /** `str(v or "")`.  A value whose `str(v or "")` is blank is one that
      `is_empty` reports, except the number zero; NaN and the infinities are
      empty yet read as "nan", "inf" or "-inf". */
  function OrEmpty(c: Cell): (r: string)
    ensures !Truthy(c) ==> r == ""
    ensures Truthy(c) ==> r == CellStr(c)
    ensures Strip(r) == "" ==> IsEmpty(c) || (c.Num? && c.zero)
    ensures (c.NaN? || c.Inf?) ==> IsEmpty(c) && r in {"nan", "inf", "-inf"}
  {
    if Truthy(c) then CellStr(c) else ""
  }

  /** `is_empty(v)`: None, NaN and infinities are empty; otherwise the
      stripped text is empty when it is "", any casing of "nan", or "None". */
  predicate IsEmpty(c: Cell) {
    match c
    case Null => true
    case NaN => true
    case Inf(_) => true
    case _ =>
      var s := Strip(CellStr(c));
      s == "" || Lower(s) == "nan" || s == "None"
  }

  /** Text that reads "NaN" in any casing counts as empty, as a float NaN does. */
  lemma NaNTextIsEmpty()
    ensures IsEmpty(Str("NaN")) && IsEmpty(NaN)
  {
    var s := "NaN";
    assert !IsSpace(s[0]) && !IsSpace(s[2]);
    StripNoop(s);
    var l := Lower(s);
    assert l[0] == 'n' && l[1] == 'a' && l[2] == 'n';
    assert l == "nan";
  }

  /** A zero number is falsy, so `str(v or "")` gives "", yet it is not empty. */
  lemma ZeroIsNotEmpty()
    ensures !IsEmpty(Num("0", true)) && OrEmpty(Num("0", true)) == ""
  {
    var s := "0";
    assert !IsSpace(s[0]);
    StripNoop(s);
    ShortTextNotEmpty(s, true);
  }

  /** A one-character text without surrounding whitespace is not empty. */
  lemma ShortTextNotEmpty(s: string, zero: bool)
    requires |s| == 1 && Strip(s) == s
    ensures !IsEmpty(Num(s, zero))
  {
    assert |Lower(s)| == 1;
  }
}

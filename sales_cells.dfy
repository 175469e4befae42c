/** Cell values of the sales ledger and of the Agoda remittance sheets as the reconciliation
    script reads them, column lookup by header keyword, and the `normalize` helper. */
module SalesCells {
  import opened Text
  import opened Numbers
  import opened Sheets

  // ---------------------------------------------------------------------------------------
  // normalize(val)

  /** The characters `[a-zA-Z0-9가-힣]` kept by `normalize`. */
  predicate Kept(c: char) {
    'a' <= c <= 'z' || 'A' <= c <= 'Z' || '0' <= c <= '9' || '\U{AC00}' <= c <= '\U{D7A3}'
  }

  /** What `normalize` can return: lower-case letters, digits and Hangul syllables. */
  predicate NormalChar(c: char) {
    'a' <= c <= 'z' || '0' <= c <= '9' || '\U{AC00}' <= c <= '\U{D7A3}'
  }

  /** `re.sub(r'[^a-zA-Z0-9가-힣]', '', s)`. */
  function KeepOnly(s: string): (r: string)
    ensures |r| <= |s|
    ensures forall k :: 0 <= k < |r| ==> Kept(r[k])
    decreases |s|
  {
    if s == [] then []
    else (if Kept(s[0]) then [s[0]] else []) + KeepOnly(s[1..])
  }

  /** `normalize(val)`: `None` gives `''`; otherwise the kept characters, `.0` removed, stripped,
      lower-cased. */
  function Normalize(v: Option<string>): (r: string)
    ensures v.None? ==> r == ""
    ensures forall k :: 0 <= k < |r| ==> NormalChar(r[k])
  {
    match v
    case None => ""
    case Some(s) =>
      var kept := KeepOnly(s);
      NormalizeSteps(kept);
      Lower(Strip(Delete(kept, ".0")))
  }

  lemma KeptNoSpace(t: string)
    requires forall k :: 0 <= k < |t| ==> Kept(t[k])
    ensures '.' !in t && NoSpace(t)
  {
    forall k | 0 <= k < |t| ensures t[k] != '.' && !IsSpace(t[k]) {
      assert Kept(t[k]);
    }
  }

  /** On kept characters the `.replace('.0', '')` and the `.strip()` change nothing. */
  lemma NormalizeSteps(kept: string)
    requires forall k :: 0 <= k < |kept| ==> Kept(kept[k])
    ensures Strip(Delete(kept, ".0")) == kept
    ensures forall k :: 0 <= k < |kept| ==> NormalChar(Lower(kept)[k])
  {
    KeptNoSpace(kept);
    DeleteAbsent(kept, ".0");
    StripNoSpace(kept);
    LowerKept(kept);
  }

  lemma LowerKept(kept: string)
    requires forall k :: 0 <= k < |kept| ==> Kept(kept[k])
    ensures forall k :: 0 <= k < |kept| ==> NormalChar(Lower(kept)[k])
  {
  }

  /** The `.replace('.0', '')` in `normalize` is dead: the dot is already gone, so `12.0` becomes `120`. */
  lemma NormalizeIgnoresDotZero(s: string)
    ensures Normalize(Some(s)) == Lower(KeepOnly(s))
  {
    NormalizeSteps(KeepOnly(s));
  }

  lemma {:induction false} KeepOnlyKept(t: string)
    requires forall k :: 0 <= k < |t| ==> Kept(t[k])
    ensures KeepOnly(t) == t
    decreases |t|
  {
    if t != [] {
      KeepOnlyKept(t[1..]);
      assert [t[0]] + t[1..] == t;
    }
  }

  /** `normalize(normalize(v)) == normalize(v)`. */
  lemma NormalizeIdempotent(v: Option<string>)
    ensures Normalize(Some(Normalize(v))) == Normalize(v)
  {
    var n := Normalize(v);
    forall k | 0 <= k < |n| ensures Kept(n[k]) {
      assert NormalChar(n[k]);
    }
    KeepOnlyKept(n);
    NormalizeIgnoresDotZero(n);
    forall k | 0 <= k < |n| ensures LowerChar(n[k]) == n[k] {
      assert NormalChar(n[k]);
    }
  }

  // ---------------------------------------------------------------------------------------
  // Column lookup

  /** `find_col(cols, keyword)`: the first column whose label contains `keyword`. */
  function FirstContaining(cols: seq<string>, keyword: string): (r: Option<nat>)
    ensures r.Some? ==> r.value < |cols| && Contains(cols[r.value], keyword)
    ensures r.Some? ==> forall j :: 0 <= j < r.value ==> !Contains(cols[j], keyword)
    ensures r.None? ==> forall j :: 0 <= j < |cols| ==> !Contains(cols[j], keyword)
    decreases |cols|
  {
    if cols == [] then None
    else if Contains(cols[0], keyword) then Some(0)
    else match FirstContaining(cols[1..], keyword)
      case None => None
      case Some(k) => Some(k + 1)
  }

  /** The loop of `find_col`. */
  method FindCol(cols: seq<string>, keyword: string) returns (r: Option<nat>)
    ensures r == FirstContaining(cols, keyword)
  {
    var i := 0;
    while i < |cols|
      invariant 0 <= i <= |cols|
      invariant forall j :: 0 <= j < i ==> !Contains(cols[j], keyword)
    {
      if Contains(cols[i], keyword) {
        FirstIsUnique(cols, keyword, i);
        return Some(i);
      }
      i := i + 1;
    }
    r := None;
    FirstIsUnique(cols, keyword, |cols|);
  }

  /** A position before which no label matches and at which one does (or the end) is `find_col`'s answer. */
  lemma FirstIsUnique(cols: seq<string>, keyword: string, i: nat)
    requires i <= |cols|
    requires forall j :: 0 <= j < i ==> !Contains(cols[j], keyword)
    requires i < |cols| ==> Contains(cols[i], keyword)
    ensures FirstContaining(cols, keyword) == if i < |cols| then Some(i) else None
  {
  }

  /** `row.get('거래처', '')` uses the exact label: the first column carrying it. */
  function ExactCol(cols: seq<string>, wanted: string): (r: Option<nat>)
    ensures r.Some? ==> r.value < |cols| && cols[r.value] == wanted
    ensures r.None? ==> wanted !in cols
    decreases |cols|
  {
    if cols == [] then None
    else if cols[0] == wanted then Some(0)
    else match ExactCol(cols[1..], wanted)
      case None => None
      case Some(k) => Some(k + 1)
  }

  /** A remittance column holding an amount: its label has `금액` or `Amount`, is `G` or `H`, or
      starts with `Unnamed`. */
  predicate IsPriceLabel(c: string) {
    Contains(c, "금액") || Contains(c, "Amount") || c == "G" || c == "H" || StartsWith(c, "Unnamed")
  }

  /** The positions from `k` on whose label is a price label, in order. */
  function PriceIndices(header: seq<string>, k: nat): (r: seq<nat>)
    requires k <= |header|
    ensures forall j :: j in r <==> k <= j < |header| && IsPriceLabel(header[j])
    ensures forall a, b :: 0 <= a < b < |r| ==> r[a] < r[b]
    decreases |header| - k
  {
    if k == |header| then []
    else
      var rest := PriceIndices(header, k + 1);
      assert forall b :: 0 <= b < |rest| ==> rest[b] in rest;
      if IsPriceLabel(header[k]) then [k] + rest else rest
  }

  /** `ota_price_cols`: the price-labelled columns, or else columns 7 and 8 (indices 6 and 7).
      `None` is the IndexError when there are no price labels and fewer than eight columns. */
  function PriceColumns(header: seq<string>): (r: Option<seq<nat>>)
    ensures r.Some? ==> |r.value| >= 1 && forall j :: j in r.value ==> j < |header|
    ensures r.None? <==> |header| < 8 && forall j :: 0 <= j < |header| ==> !IsPriceLabel(header[j])
    ensures (exists j :: 0 <= j < |header| && IsPriceLabel(header[j])) ==>
      r.Some? && forall j :: j in r.value <==> 0 <= j < |header| && IsPriceLabel(header[j])
    ensures (forall j :: 0 <= j < |header| ==> !IsPriceLabel(header[j])) && |header| >= 8 ==> r == Some([6, 7])
  {
    var m := PriceIndices(header, 0);
    if m != [] then assert m[0] in m; Some(m)
    else if |header| >= 8 then Some([6, 7])
    else None
  }

  /** `df_ota.columns[3]`: the guest name is read from the fourth column. */
  const NameColumn: nat := 3

  // ---------------------------------------------------------------------------------------
  // Cell text and amounts

  /** `str(row.get(col, ''))`: `''` for a missing column, `'nan'` for an empty cell (pandas reads it
      as NaN), otherwise the cell's text. */
  function CellText(row: Row, col: Option<nat>): string {
    match col
    case None => ""
    case Some(k) => if k < |row| && row[k].Some? then row[k].value else "nan"
  }

  /** A parsed amount: Python's `float` restricted to decimal values and NaN. */
  datatype Amount = Finite(v: real) | NaN

  predicate IsNanText(t: string) {
    var l := Lower(Strip(t));
    l == "nan" || l == "+nan" || l == "-nan"
  }

  /** `float(t)`; `None` is the ValueError. */
  function ParseAmount(t: string): (r: Option<Amount>)
    ensures r == Some(NaN) <==> IsNanText(t)
    ensures r.Some? && r.value.Finite? ==> ParseFloat(t) == Some(r.value.v)
    ensures r.None? ==> ParseFloat(t).None? && !IsNanText(t)
  {
    if IsNanText(t) then Some(NaN)
    else match ParseFloat(t)
      case Some(v) => Some(Finite(v))
      case None => None
  }

  /** `str(cell).replace(',', '').strip()`, the text handed to `float`. */
  function PriceText(row: Row, col: Option<nat>): string {
    Strip(Delete(CellText(row, col), ","))
  }

  /** Python's `a == b` on floats: NaN equals nothing. */
  predicate Same(a: Amount, b: Amount) {
    a.Finite? && b.Finite? && a.v == b.v
  }

  /** Python's truthiness of a float: only zero is false, NaN is true. */
  predicate NonZero(a: Amount) {
    !(a.Finite? && a.v == 0.0)
  }

  function Add(a: Amount, b: Amount): Amount {
    if a.Finite? && b.Finite? then Finite(a.v + b.v) else NaN
  }

  /** `sum(...)`, left to right from 0. */
  function Sum(xs: seq<Amount>): (r: Amount)
    ensures (exists k :: 0 <= k < |xs| && xs[k] == NaN) <==> r == NaN
    decreases |xs|
  {
    if xs == [] then Finite(0.0)
    else
      var r := Add(Sum(xs[..|xs| - 1]), xs[|xs| - 1]);
      assert forall k :: 0 <= k < |xs| - 1 ==> xs[..|xs| - 1][k] == xs[k];
      r
  }

  /** The amount `float(text)` gives, or `fallback` when it raises. */
  function OrElse(a: Option<Amount>, fallback: Amount): Amount {
    if a.Some? then a.value else fallback
  }
}

/** Decimal text and numbers: Python's `str(int)`, `f"{n:,}"`, `float(text)` on
    decimal notation and `int(x)` on a float (truncation toward zero). */
module Numbers {
  import opened Text

  predicate IsDigit(c: char) {
    '0' <= c <= '9'
  }

  predicate AllDigits(s: string) {
    forall k :: 0 <= k < |s| ==> IsDigit(s[k])
  }

  function DigitValue(c: char): nat
    requires IsDigit(c)
  {
    c as int - '0' as int
  }

  function DigitChar(d: nat): (c: char)
    requires d < 10
    ensures IsDigit(c) && DigitValue(c) == d
  {
    ('0' as int + d) as char
  }

  /** The value of a string of decimal digits (the empty string is 0). */
  function DigitsValue(s: string): nat
    requires AllDigits(s)
    decreases |s|
  {
    if s == [] then 0 else DigitsValue(s[..|s| - 1]) * 10 + DigitValue(s[|s| - 1])
  }

  /** Python's `str(n)` for a non-negative integer: digits without leading zeros that read back as `n`. */
  function NatStr(n: nat): (s: string)
    ensures |s| >= 1 && AllDigits(s) && DigitsValue(s) == n
    ensures |s| > 1 ==> s[0] != '0'
    decreases n
  {
    if n < 10 then [DigitChar(n)]
    else
      var p := NatStr(n / 10);
      var s := p + [DigitChar(n % 10)];
      assert s[..|s| - 1] == p;
      s
  }

  /** Python's `str(i)`. */
  function IntStr(i: int): string {
    if i < 0 then "-" + NatStr(-i) else NatStr(i)
  }

  /** Three digits with leading zeros, as each group after a thousands separator is written. */
  function Pad3(n: nat): (s: string)
    requires n < 1000
    ensures |s| == 3 && AllDigits(s) && DigitsValue(s) == n
  {
    var a, b, c := DigitChar(n / 100), DigitChar(n / 10 % 10), DigitChar(n % 10);
    var s := [a, b, c];
    assert [a, b][..1] == [a] && [a][..0] == [] && s[..2] == [a, b];
    assert DigitsValue([a]) == n / 100;
    assert DigitsValue([a, b]) == n / 100 * 10 + n / 10 % 10;
    assert n / 100 * 100 + n / 10 % 10 * 10 + n % 10 == n;
    s
  }

  function Grouped(n: nat): string
    decreases n
  {
    if n < 1000 then NatStr(n) else Grouped(n / 1000) + "," + Pad3(n % 1000)
  }

  /** Python's `f"{i:,}"`: the decimal digits in groups of three separated by commas. */
  function Thousands(i: int): string {
    if i < 0 then "-" + Grouped(-i) else Grouped(i)
  }

  lemma NatStrNoComma(n: nat)
    ensures ',' !in NatStr(n) && '.' !in NatStr(n) && '-' !in NatStr(n) && '_' !in NatStr(n)
  {
    var s := NatStr(n);
    forall k | 0 <= k < |s| ensures s[k] != ',' && s[k] != '.' && s[k] != '-' && s[k] != '_' {
      assert IsDigit(s[k]);
    }
  }

  /** Writing `1000 a + b` in decimal is writing `a` and then `b` on three digits. */
  lemma NatStrThousand(a: nat, b: nat)
    requires a >= 1 && b < 1000
    ensures NatStr(a * 1000 + b) == NatStr(a) + Pad3(b)
  {
    var n := a * 1000 + b;
    assert n / 10 == a * 100 + b / 10;
    assert n / 10 / 10 == a * 10 + b / 100;
    assert n / 10 / 10 / 10 == a;
    assert n % 10 == b % 10;
    assert n / 10 % 10 == b / 10 % 10;
    assert n / 10 / 10 % 10 == b / 100;
    calc {
      NatStr(n);
      NatStr(n / 10) + [DigitChar(n % 10)];
      NatStr(n / 10 / 10) + [DigitChar(n / 10 % 10)] + [DigitChar(n % 10)];
      NatStr(n / 10 / 10 / 10) + [DigitChar(n / 10 / 10 % 10)] + [DigitChar(n / 10 % 10)] + [DigitChar(n % 10)];
      NatStr(a) + Pad3(b);
    }
  }

  /** Dropping the separators from the grouped form gives `str(n)`. */
  lemma {:induction false} GroupedWithoutCommas(n: nat)
    ensures Delete(Grouped(n), ",") == NatStr(n)
    decreases n
  {
    NatStrNoComma(n);
    if n < 1000 {
      DeleteAbsent(NatStr(n), ",");
    } else {
      var a, b := n / 1000, n % 1000;
      GroupedWithoutCommas(a);
      assert ',' !in Pad3(b);
      DeleteCharAppend(Grouped(a) + ",", Pad3(b), ',');
      DeleteCharAppend(Grouped(a), ",", ',');
      DeleteAbsent(Pad3(b), ",");
      NatStrThousand(a, b);
    }
  }

  /** The grouped form is never empty and starts and ends in a digit. */
  lemma {:induction false} GroupedDigitAtEnds(n: nat)
    ensures Grouped(n) != [] && IsDigit(Grouped(n)[0]) && IsDigit(Grouped(n)[|Grouped(n)| - 1])
    decreases n
  {
    if n < 1000 {
      var s := NatStr(n);
      assert IsDigit(s[0]) && IsDigit(s[|s| - 1]);
    } else {
      GroupedDigitAtEnds(n / 1000);
      var p := Pad3(n % 1000);
      assert IsDigit(p[2]);
      assert Grouped(n)[0] == Grouped(n / 1000)[0];
      assert Grouped(n)[|Grouped(n)| - 1] == p[2];
    }
  }

  /** `f"{i:,}".replace(',', '') == str(i)`. */
  lemma ThousandsWithoutCommas(i: int)
    ensures Delete(Thousands(i), ",") == IntStr(i)
  {
    if i < 0 {
      GroupedWithoutCommas(-i);
      DeleteCharAppend("-", Grouped(-i), ',');
    } else {
      GroupedWithoutCommas(i);
    }
  }

  function Pow10(k: nat): (p: nat)
    ensures p >= 1
  {
    if k == 0 then 1 else 10 * Pow10(k - 1)
  }

  /** The first position of `c` in `s`. */
  function IndexOf(s: string, c: char): (r: Option<nat>)
    ensures r.Some? ==> r.value < |s| && s[r.value] == c && c !in s[..r.value]
    ensures r.None? ==> c !in s
    decreases |s|
  {
    if s == [] then None
    else if s[0] == c then Some(0)
    else match IndexOf(s[1..], c)
      case None => None
      case Some(k) =>
        assert s[..k + 1] == [s[0]] + s[1..][..k];
        Some(k + 1)
  }

  /** Digits with at most one decimal point and at least one digit, e.g. `12`, `12.`, `.5`, `12.50`. */
  function ParseUnsigned(t: string): Option<real> {
    var p := IndexOf(t, '.');
    var whole := if p.Some? then t[..p.value] else t;
    var frac := if p.Some? then t[p.value + 1..] else "";
    if AllDigits(whole) && AllDigits(frac) && |whole| + |frac| > 0 then
      Some(Decimal(DigitsValue(whole), DigitsValue(frac), |frac|))
    else None
  }

  /** The value of a whole part and a fraction of `places` digits. */
  function Decimal(whole: nat, frac: nat, places: nat): (r: real)
    ensures r >= whole as real
    ensures frac == 0 ==> r == whole as real
  {
    whole as real + Scaled(frac as real, places)
  }

  /** `x / 10^places`, one place at a time. */
  function Scaled(x: real, places: nat): (r: real)
    ensures x >= 0.0 ==> r >= 0.0
    ensures x == 0.0 ==> r == 0.0
  {
    if places == 0 then x else Scaled(x, places - 1) / 10.0
  }

  /** Python's `float(s)` on decimal notation: surrounding whitespace, an optional sign, digits
      with at most one point. `None` is the ValueError. */
  function ParseFloat(s: string): Option<real> {
    var t := Strip(s);
    if t != [] && (t[0] == '-' || t[0] == '+') then
      match ParseUnsigned(t[1..])
      case Some(v) => Some(if t[0] == '-' then -v else v)
      case None => None
    else ParseUnsigned(t)
  }

  /** Text with no sign and no whitespace is read as unsigned decimal text. */
  lemma ParseFloatUnsigned(t: string)
    requires t != [] && NoSpace(t) && t[0] != '-' && t[0] != '+'
    ensures ParseFloat(t) == ParseUnsigned(t)
  {
    StripNoSpace(t);
  }

  /** Python's `int(x)` on a float: truncation toward zero. */
  function Trunc(x: real): (r: int)
    ensures x >= 0.0 ==> 0 <= r && r as real <= x < r as real + 1.0
    ensures x < 0.0 ==> r <= 0 && r as real - 1.0 < x <= r as real
  {
    if x >= 0.0 then x.Floor else -((-x).Floor)
  }

  lemma ParseUnsignedNatStr(n: nat)
    ensures ParseUnsigned(NatStr(n)) == Some(n as real)
  {
    NatStrNoComma(n);
  }

  /** `float(str(i)) == i`. */
  lemma ParseFloatIntStr(i: int)
    ensures ParseFloat(IntStr(i)) == Some(i as real)
  {
    if i < 0 {
      ParseFloatMinus(-i, i);
    } else {
      ParseFloatNatStr(i);
    }
  }

  lemma ParseFloatNatStr(n: nat)
    ensures ParseFloat(NatStr(n)) == Some(n as real)
  {
    var s := NatStr(n);
    assert IsDigit(s[0]) && IsDigit(s[|s| - 1]);
    StripTrimmed(s);
    ParseUnsignedNatStr(n);
  }

  /** `float("-" + str(n)) == -n`, with `-n` given as `i`. */
  lemma ParseFloatMinus(n: nat, i: int)
    requires n > 0 && i + n == 0
    ensures ParseFloat("-" + NatStr(n)) == Some(i as real)
  {
    var s := "-" + NatStr(n);
    assert IsDigit(s[|s| - 1]);
    StripTrimmed(s);
    assert s[1..] == NatStr(n);
    ParseUnsignedNatStr(n);
    assert ParseFloat(s).Some? && ParseFloat(s).value == i as real;
  }

  /** The first `c` of `a + b` is the one that starts `b` when `a` holds none. */
  lemma IndexOfAfter(a: string, b: string, c: char)
    requires c !in a && b != [] && b[0] == c
    ensures IndexOf(a + b, c) == Some(|a|)
  {
    var s := a + b;
    assert s[|a|] == c && s[|a|] in s;
  }

  /** Digits, a point and digits read as the whole part plus the fraction. */
  lemma UnsignedWithPoint(w: string, f: string)
    requires '.' !in w && AllDigits(w) && AllDigits(f) && |w| + |f| > 0
    ensures ParseUnsigned(w + "." + f) == Some(Decimal(DigitsValue(w), DigitsValue(f), |f|))
  {
    var s := w + "." + f;
    IndexOfAfter(w, "." + f, '.');
    assert s == w + ("." + f);
    assert s[..|w|] == w && s[|w| + 1..] == f;
  }

  /** `float(str(n) + ".00") == n`. */
  lemma ParseCents(n: nat)
    ensures ParseUnsigned(NatStr(n) + ".00") == Some(n as real)
  {
    var zeros := "00";
    NatStrNoComma(n);
    assert zeros[..1] == "0" && "0"[..0] == [];
    assert DigitsValue(zeros) == 0;
    UnsignedWithPoint(NatStr(n), zeros);
    assert NatStr(n) + "." + zeros == NatStr(n) + ".00";
  }

  /** A figure written with thousands separators reads back, once they are removed, as itself. */
  lemma ParseThousands(i: int)
    ensures ParseFloat(Delete(Thousands(i), ",")) == Some(i as real)
  {
    ThousandsWithoutCommas(i);
    ParseFloatIntStr(i);
  }
}

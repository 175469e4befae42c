/** Calendar dates as the downloaders read and write them: the Korean `YYYY년 M월 D일` payout
    date and `M월 D일` period of the Booking.com table, Agoda's `DD-Mon-YYYY`, and the
    `YYYY-MM-DD` / `YYYYMMDD` forms written to the summary sheets and file names. */
module Dates {
  import opened Text
  import opened Numbers

  datatype Date = Date(year: int, month: int, day: int)

  predicate IsLeap(y: int) {
    y % 4 == 0 && (y % 100 != 0 || y % 400 == 0)
  }

  function DaysIn(y: int, m: int): int
    requires 1 <= m <= 12
  {
    if m == 2 then (if IsLeap(y) then 29 else 28)
    else if m == 4 || m == 6 || m == 9 || m == 11 then 30
    else 31
  }

  /** What Python's `datetime(year, month, day)` accepts without raising ValueError. */
  predicate Valid(d: Date) {
    1 <= d.year <= 9999 && 1 <= d.month <= 12 && 1 <= d.day <= DaysIn(d.year, d.month)
  }

  /** `f"{n:02d}"` for `n < 100`. */
  function Pad2(n: nat): (s: string)
    requires n < 100
    ensures |s| == 2 && AllDigits(s) && DigitsValue(s) == n
  {
    var a, b := DigitChar(n / 10), DigitChar(n % 10);
    var s := [a, b];
    assert s[..1] == [a] && [a][..0] == [];
    assert DigitsValue([a]) == n / 10;
    s
  }

  /** A year on four digits, as `%Y` writes it. */
  function Pad4(n: nat): (s: string)
    requires n < 10000
    ensures |s| == 4 && AllDigits(s) && DigitsValue(s) == n
  {
    var s := Pad2(n / 100) + Pad2(n % 100);
    var h, l := Pad2(n / 100), Pad2(n % 100);
    assert s[..3] == h + [l[0]] && s[..3][..2] == h && l[..1] == [l[0]];
    assert DigitsValue(l) == DigitsValue([l[0]]) * 10 + DigitValue(l[1]);
    s
  }

  /** `strftime('%Y-%m-%d')`. */
  function Iso(d: Date): (s: string)
    requires Valid(d)
    ensures |s| == 10 && s[4] == '-' && s[7] == '-'
    ensures AllDigits(s[..4]) && AllDigits(s[5..7]) && AllDigits(s[8..])
    ensures DigitsValue(s[..4]) == d.year && DigitsValue(s[5..7]) == d.month && DigitsValue(s[8..]) == d.day
  {
    var s := Pad4(d.year) + "-" + Pad2(d.month) + "-" + Pad2(d.day);
    assert s[..4] == Pad4(d.year) && s[5..7] == Pad2(d.month) && s[8..] == Pad2(d.day);
    s
  }

  /** `strftime('%Y%m%d')`. */
  function Compact(d: Date): (s: string)
    requires Valid(d)
    ensures |s| == 8 && AllDigits(s)
    ensures AllDigits(s[..4]) && AllDigits(s[4..6]) && AllDigits(s[6..])
    ensures DigitsValue(s[..4]) == d.year && DigitsValue(s[4..6]) == d.month && DigitsValue(s[6..]) == d.day
  {
    var s := Pad4(d.year) + Pad2(d.month) + Pad2(d.day);
    assert s[..4] == Pad4(d.year) && s[4..6] == Pad2(d.month) && s[6..] == Pad2(d.day);
    s
  }

  lemma DeleteDigits(s: string, c: char)
    requires AllDigits(s) && !IsDigit(c)
    ensures Delete(s, [c]) == s
  {
    assert c !in s by {
      forall k | 0 <= k < |s| ensures s[k] != c { assert IsDigit(s[k]); }
    }
    DeleteAbsent(s, [c]);
  }

  /** The compact form is the ISO form without its dashes. */
  lemma IsoWithoutDashes(d: Date)
    requires Valid(d)
    ensures Delete(Iso(d), "-") == Compact(d)
  {
    var y, m, dd := Pad4(d.year), Pad2(d.month), Pad2(d.day);
    var dash: string := "-";
    assert Delete(dash, dash) == [];
    DeleteDigits(y, '-');
    DeleteDigits(m, '-');
    DeleteDigits(dd, '-');
    calc {
      Delete(Iso(d), dash);
      Delete(y + dash + m + dash + dd, dash);
      { DeleteCharAppend(y + dash + m + dash, dd, '-'); }
      Delete(y + dash + m + dash, dash) + dd;
      { DeleteCharAppend(y + dash + m, dash, '-'); }
      Delete(y + dash + m, dash) + dd;
      { DeleteCharAppend(y + dash, m, '-'); }
      Delete(y + dash, dash) + m + dd;
      { DeleteCharAppend(y, dash, '-'); }
      y + m + dd;
    }
  }

  // ---------------------------------------------------------------------------------------
  // Korean dates (regular expressions `(\d{4})년\s*(\d{1,2})월\s*(\d{1,2})일` and
  // `(\d{1,2})월\s*(\d{1,2})일`)

  /** The first position at or after `p` that is not whitespace (`\s*`). */
  function SkipSpaces(s: string, p: nat): (q: nat)
    requires p <= |s|
    ensures p <= q <= |s|
    ensures forall k :: p <= k < q ==> IsSpace(s[k])
    ensures q == |s| || !IsSpace(s[q])
    decreases |s| - p
  {
    if p < |s| && IsSpace(s[p]) then SkipSpaces(s, p + 1) else p
  }

  /** `(\d{1,2})` followed by `unit` at position `p`: the number and the position after `unit`.
      The two-digit reading is tried first, as the greedy quantifier does. */
  function DigitsThen(s: string, p: nat, unit: char): (r: Option<(nat, nat)>)
    requires !IsDigit(unit)
    ensures r.Some? ==> p + 2 <= r.value.1 <= p + 3 && r.value.1 <= |s| && s[r.value.1 - 1] == unit
    ensures r.Some? ==> AllDigits(s[p..r.value.1 - 1]) && r.value.0 == DigitsValue(s[p..r.value.1 - 1])
    ensures r.None? ==> !(p + 1 < |s| && IsDigit(s[p]) && s[p + 1] == unit)
    ensures r.None? ==> !(p + 2 < |s| && IsDigit(s[p]) && IsDigit(s[p + 1]) && s[p + 2] == unit)
  {
    if p + 2 < |s| && IsDigit(s[p]) && IsDigit(s[p + 1]) && s[p + 2] == unit then
      var t := s[p..p + 2];
      assert t == [s[p], s[p + 1]] && t[..1] == [s[p]] && [s[p]][..0] == [];
      assert DigitsValue([s[p]]) == DigitValue(s[p]);
      Some((DigitValue(s[p]) * 10 + DigitValue(s[p + 1]), p + 3))
    else if p + 1 < |s| && IsDigit(s[p]) && s[p + 1] == unit then
      var t := s[p..p + 1];
      assert t == [s[p]] && t[..0] == [];
      Some((DigitValue(s[p]), p + 2))
    else
      None
  }

  /** `re.match(r'(\d{4})년\s*(\d{1,2})월\s*(\d{1,2})일', s)`: the three numbers, not yet checked
      as a calendar date (the match is anchored at the start only). */
  function KoreanDateMatch(s: string): (r: Option<Date>)
    ensures r.Some? ==> 0 <= r.value.year < 10000 && 0 <= r.value.month < 100 && 0 <= r.value.day < 100
  {
    if |s| >= 5 && AllDigits(s[..4]) && s[4] == '년' then
      match DigitsThen(s, SkipSpaces(s, 5), '월')
      case None => None
      case Some(mq) =>
        match DigitsThen(s, SkipSpaces(s, mq.1), '일')
        case None => None
        case Some(dq) =>
          assert DigitsValue(s[..4]) < 10000 by { DigitsBound(s[..4]); }
          assert mq.0 < 100 by { DigitsBound(s[SkipSpaces(s, 5)..mq.1 - 1]); }
          assert dq.0 < 100 by { DigitsBound(s[SkipSpaces(s, mq.1)..dq.1 - 1]); }
          Some(Date(DigitsValue(s[..4]), mq.0, dq.0))
    else None
  }

  /** A digit string of length `n` denotes less than `10^n`. */
  lemma {:induction false} DigitsBound(s: string)
    requires AllDigits(s)
    ensures DigitsValue(s) < Pow10(|s|)
    decreases |s|
  {
    if s != [] {
      DigitsBound(s[..|s| - 1]);
    }
  }

  /** The payout date of a Booking.com table row as `YYYY-MM-DD`; `None` when the text does not
      match or names no calendar day (the row is then skipped). */
  function PayoutDate(s: string): (r: Option<string>)
    ensures r.Some? <==> KoreanDateMatch(s).Some? && Valid(KoreanDateMatch(s).value)
    ensures r.Some? ==> r.value == Iso(KoreanDateMatch(s).value)
  {
    match KoreanDateMatch(s)
    case Some(d) => if Valid(d) then Some(Iso(d)) else None
    case None => None
  }

  /** One `(\d{1,2})월\s*(\d{1,2})일` match starting exactly at `p`: month, day and end position. */
  function PeriodMatchAt(s: string, p: nat): (r: Option<(nat, nat, nat)>)
    ensures r.Some? ==> p + 4 <= r.value.2 <= |s| && r.value.0 < 100 && r.value.1 < 100
  {
    match DigitsThen(s, p, '월')
    case None => None
    case Some(mq) =>
      if mq.1 > |s| then None
      else
        match DigitsThen(s, SkipSpaces(s, mq.1), '일')
        case None => None
        case Some(dq) =>
          DigitsBound(s[p..mq.1 - 1]);
          DigitsBound(s[SkipSpaces(s, mq.1)..dq.1 - 1]);
          Some((mq.0, dq.0, dq.1))
  }

  /** `re.findall` of the period pattern from position `p`: non-overlapping matches, left to right. */
  function FindAllPeriods(s: string, p: nat): (r: seq<(nat, nat)>)
    requires p <= |s|
    ensures forall k :: 0 <= k < |r| ==> r[k].0 < 100 && r[k].1 < 100
    decreases |s| - p
  {
    if p == |s| then []
    else
      match PeriodMatchAt(s, p)
      case Some(m) => [(m.0, m.1)] + FindAllPeriods(s, m.2)
      case None => FindAllPeriods(s, p + 1)
  }

  /** `MM-DD` for a month and day read from a period. */
  function MonthDay(md: (nat, nat)): string
    requires md.0 < 100 && md.1 < 100
  {
    Pad2(md.0) + "-" + Pad2(md.1)
  }

  /** The payout period `(period_from, period_to)`: the first two matches when there are at least two. */
  function Period(s: string): Option<(string, string)> {
    var ms := FindAllPeriods(s, 0);
    if |ms| >= 2 then Some((MonthDay(ms[0]), MonthDay(ms[1]))) else None
  }

  /** How the Booking.com table writes a day, e.g. `2026년 1월 1일`. */
  function KoreanText(d: Date): string
    requires Valid(d) && d.year >= 1000
  {
    NatStr(d.year) + "년 " + NatStr(d.month) + "월 " + NatStr(d.day) + "일"
  }

  lemma NatStrSmall(n: nat)
    requires 1 <= n < 100
    ensures 1 <= |NatStr(n)| <= 2
    ensures |NatStr(n)| == 1 <==> n < 10
  {
  }

  lemma NatStrFour(n: nat)
    requires 1000 <= n < 10000
    ensures |NatStr(n)| == 4
  {
    assert NatStr(n) == NatStr(n / 10) + [DigitChar(n % 10)];
    assert NatStr(n / 10) == NatStr(n / 100) + [DigitChar(n / 10 % 10)];
    assert NatStr(n / 100) == NatStr(n / 1000) + [DigitChar(n / 100 % 10)];
  }

  /** One or two digits followed by `unit` at `p` are read as their value, up to just past `unit`. */
  lemma DigitsThenOf(s: string, p: nat, unit: char, a: string, e: nat)
    requires !IsDigit(unit) && 1 <= |a| <= 2 && AllDigits(a)
    requires e == p + |a| && e < |s| && s[p..e] == a && s[e] == unit
    ensures DigitsThen(s, p, unit) == Some((DigitsValue(a), e + 1))
  {
    assert s[p] == a[0];
    if |a| == 2 {
      assert s[p + 1] == a[1];
      assert a[..1][..0] == [] && a[..1] == [a[0]];
    } else {
      assert a[..0] == [];
    }
  }

  /** The three pieces of a Korean date, found one after another, make up the match. */
  lemma KoreanDateMatchOf(s: string, y: string, a: nat, b: nat, c: nat, m: nat, d: nat, e: nat)
    requires |s| >= 5 && s[..4] == y && AllDigits(y) && s[4] == '년'
    requires SkipSpaces(s, 5) == a && DigitsThen(s, a, '월') == Some((m, b))
    requires b <= |s| && SkipSpaces(s, b) == c && DigitsThen(s, c, '일') == Some((d, e))
    ensures KoreanDateMatch(s) == Some(Date(DigitsValue(y), m, d))
  {
  }

  /** A single blank before a digit is all that `\s*` consumes. */
  lemma SkipOneBlank(s: string, p: nat)
    requires p + 1 < |s| && s[p] == ' ' && IsDigit(s[p + 1])
    ensures SkipSpaces(s, p) == p + 1
  {
    assert IsSpace(s[p]);
    assert !IsSpace(s[p + 1]);
  }

  /** Four digits, `년`, a blank, month digits, `월`, a blank, day digits and `일` match as those
      three numbers. */
  lemma KoreanDateAt(s: string, y: string, m: string, d: string, p: nat, q: nat)
    requires |y| == 4 && AllDigits(y) && 1 <= |m| <= 2 && AllDigits(m) && 1 <= |d| <= 2 && AllDigits(d)
    requires p == 6 + |m| && q == p + 2 + |d| && q < |s|
    requires s[..4] == y && s[4] == '년' && s[5] == ' '
    requires s[6..p] == m && s[p] == '월' && s[p + 1] == ' '
    requires s[p + 2..q] == d && s[q] == '일'
    ensures KoreanDateMatch(s) == Some(Date(DigitsValue(y), DigitsValue(m), DigitsValue(d)))
  {
    assert s[6] == m[0] && s[p + 2] == d[0];
    SkipOneBlank(s, 5);
    DigitsThenOf(s, 6, '월', m, p);
    SkipOneBlank(s, p + 1);
    DigitsThenOf(s, p + 2, '일', d, q);
    KoreanDateMatchOf(s, y, 6, p + 1, p + 2, DigitsValue(m), DigitsValue(d), q + 1);
  }

  /** Where the pieces of `YYYY년 M월 D일` sit in a text that starts with it. */
  lemma KoreanLayout(y: string, m: string, d: string, rest: string, s: string, p: nat, q: nat)
    requires s == y + "년 " + m + "월 " + d + "일" + rest
    requires |y| == 4 && p == 6 + |m| && q == p + 2 + |d|
    ensures q < |s| && s[..4] == y && s[4] == '년' && s[5] == ' '
    ensures s[6..p] == m && s[p] == '월' && s[p + 1] == ' '
    ensures s[p + 2..q] == d && s[q] == '일'
  {
    assert s == y + ['년', ' '] + m + ['월', ' '] + d + ['일'] + rest;
    assert s[..4] == y;
    assert s[6..p] == m;
    assert s[p + 2..q] == d;
  }

  /** The Korean form of a valid day is parsed back to the same `YYYY-MM-DD`, whatever follows it. */
  lemma PayoutDateRoundTrip(d: Date, rest: string)
    requires Valid(d) && d.year >= 1000
    ensures PayoutDate(KoreanText(d) + rest) == Some(Iso(d))
  {
    var y, m, dd := NatStr(d.year), NatStr(d.month), NatStr(d.day);
    NatStrFour(d.year);
    NatStrSmall(d.month);
    NatStrSmall(d.day);
    var s := KoreanText(d) + rest;
    var p := 6 + |m|;
    var q := p + 2 + |dd|;
    KoreanLayout(y, m, dd, rest, s, p, q);
    KoreanDateAt(s, y, m, dd, p, q);
    assert KoreanDateMatch(s) == Some(d);
  }

  /** How the Booking.com table writes one end of a period, e.g. `12월 31일`. */
  function PeriodText(m: nat, d: nat): string {
    NatStr(m) + "월 " + NatStr(d) + "일"
  }

  lemma PeriodMatchAtOf(s: string, p: nat, b: nat, c: nat, m: nat, d: nat, e: nat)
    requires DigitsThen(s, p, '월') == Some((m, b)) && b <= |s| && SkipSpaces(s, b) == c
    requires DigitsThen(s, c, '일') == Some((d, e))
    ensures PeriodMatchAt(s, p) == Some((m, d, e))
  {
  }

  /** Month digits ending at `e`, `월`, a blank, day digits ending at `q` and `일` are one match. */
  lemma PeriodAt(s: string, p: nat, a: string, b: string, e: nat, q: nat, f: nat)
    requires 1 <= |a| <= 2 && AllDigits(a) && 1 <= |b| <= 2 && AllDigits(b)
    requires e == p + |a| && q == e + 2 + |b| && f == q + 1 && q < |s|
    requires s[p..e] == a && s[e] == '월' && s[e + 1] == ' '
    requires s[e + 2..q] == b && s[q] == '일'
    ensures PeriodMatchAt(s, p) == Some((DigitsValue(a), DigitsValue(b), f))
  {
    assert s[e + 2] == b[0];
    DigitsThenOf(s, p, '월', a, e);
    SkipOneBlank(s, e + 1);
    DigitsThenOf(s, e + 2, '일', b, q);
    PeriodMatchAtOf(s, p, e + 1, e + 2, DigitsValue(a), DigitsValue(b), f);
  }

  /** The characters of `M월 D일` found at `p`: the month ends at `e`, the day at `q`. */
  lemma PeriodLayout(s: string, p: nat, a: string, b: string, e: nat, q: nat, f: nat)
    requires e == p + |a| && q == e + 2 + |b| && f == q + 1 && f <= |s|
    requires s[p..f] == a + "월 " + b + "일"
    ensures s[p..e] == a && s[e] == '월' && s[e + 1] == ' '
    ensures s[e + 2..q] == b && s[q] == '일'
  {
    var t := a + "월 " + b + "일";
    assert t == a + ['월', ' '] + b + ['일'];
    assert t[..|a|] == a && t[|a| + 2..|a| + 2 + |b|] == b;
    SliceOf(s, p, t, 0, |a|);
    CharOf(s, p, t, |a|);
    CharOf(s, p, t, |a| + 1);
    SliceOf(s, p, t, |a| + 2, |a| + 2 + |b|);
    CharOf(s, p, t, |a| + 2 + |b|);
  }

  /** A text found at `p` of `s` gives its slices at the same offsets. */
  lemma SliceOf(s: string, p: nat, t: string, i: nat, j: nat)
    requires p + |t| <= |s| && s[p..p + |t|] == t && i <= j <= |t|
    ensures s[p + i..p + j] == t[i..j]
  {
    forall k | 0 <= k < j - i ensures s[p + i..p + j][k] == t[i..j][k] {
      assert s[p + i + k] == s[p..p + |t|][i + k];
    }
  }

  /** A text found at `p` of `s` gives its characters at the same offsets. */
  lemma CharOf(s: string, p: nat, t: string, i: nat)
    requires p + |t| <= |s| && s[p..p + |t|] == t && i < |t|
    ensures s[p + i] == t[i]
  {
    assert s[p + i] == s[p..p + |t|][i];
  }

  /** A match at `p` is recorded and the scan resumes after it. */
  lemma FindAllTakes(s: string, p: nat)
    requires p < |s| && PeriodMatchAt(s, p).Some?
    ensures FindAllPeriods(s, p)
      == [(PeriodMatchAt(s, p).value.0, PeriodMatchAt(s, p).value.1)] + FindAllPeriods(s, PeriodMatchAt(s, p).value.2)
  {
  }

  /** No match can start on a character that is not a digit. */
  lemma FindAllSkips(s: string, p: nat)
    requires p < |s| && !IsDigit(s[p])
    ensures FindAllPeriods(s, p) == FindAllPeriods(s, p + 1)
  {
  }

  /** Three characters without a digit are skipped before a match. */
  lemma FindAllAfterGap(s: string, e: nat, m: nat, d: nat, f: nat)
    requires e + 3 < |s| && PeriodMatchAt(s, e + 3) == Some((m, d, f))
    requires !IsDigit(s[e]) && !IsDigit(s[e + 1]) && !IsDigit(s[e + 2])
    ensures FindAllPeriods(s, e) == [(m, d)] + FindAllPeriods(s, f)
  {
    FindAllTakes(s, e + 3);
    FindAllSkips(s, e + 2);
    FindAllSkips(s, e + 1);
    FindAllSkips(s, e);
  }

  /** Two matches three characters apart, with no digit between them, are the first two. */
  lemma FirstTwoOf(s: string, m1: nat, d1: nat, m2: nat, d2: nat, e: nat, f: nat)
    requires m1 < 100 && d1 < 100 && m2 < 100 && d2 < 100
    requires 0 < |s| && PeriodMatchAt(s, 0) == Some((m1, d1, e))
    requires e + 3 < |s| && PeriodMatchAt(s, e + 3) == Some((m2, d2, f))
    requires !IsDigit(s[e]) && !IsDigit(s[e + 1]) && !IsDigit(s[e + 2])
    ensures Period(s) == Some((MonthDay((m1, d1)), MonthDay((m2, d2))))
  {
    FindAllAfterGap(s, e, m2, d2, f);
    FindAllTakes(s, 0);
    var ms := FindAllPeriods(s, 0);
    assert ms == [(m1, d1)] + ([(m2, d2)] + FindAllPeriods(s, f));
    assert ms[0] == (m1, d1) && ms[1] == (m2, d2);
  }

  /** Where the two ends of `M월 D일 ~ M월 D일` sit, and the separator between them. */
  lemma PeriodPairLayout(a1: string, b1: string, a2: string, b2: string, rest: string, s: string, e: nat, f: nat)
    requires s == a1 + "월 " + b1 + "일" + " ~ " + (a2 + "월 " + b2 + "일") + rest
    requires e == |a1| + 3 + |b1| && f == e + 3 + |a2| + 3 + |b2|
    ensures f <= |s| && s[0..e] == a1 + "월 " + b1 + "일" && s[e + 3..f] == a2 + "월 " + b2 + "일"
    ensures s[e] == ' ' && s[e + 1] == '~' && s[e + 2] == ' '
  {
    var t1, t2 := a1 + "월 " + b1 + "일", a2 + "월 " + b2 + "일";
    assert s == t1 + [' ', '~', ' '] + t2 + rest;
    assert s[0..e] == t1;
    assert s[e + 3..f] == t2;
  }

  /** `M월 D일` written at `p` and ending before `f` is one match. */
  lemma PeriodTextMatch(s: string, p: nat, a: string, b: string, f: nat)
    requires 1 <= |a| <= 2 && AllDigits(a) && 1 <= |b| <= 2 && AllDigits(b)
    requires f == p + |a| + 3 + |b| && f <= |s| && s[p..f] == a + "월 " + b + "일"
    ensures PeriodMatchAt(s, p) == Some((DigitsValue(a), DigitsValue(b), f))
  {
    PeriodLayout(s, p, a, b, p + |a|, f - 1, f);
    PeriodAt(s, p, a, b, p + |a|, f - 1, f);
  }

  /** `M월 D일 ~ M월 D일`, as the table writes a period, gives both ends as `MM-DD`. */
  lemma PeriodRoundTrip(m1: nat, d1: nat, m2: nat, d2: nat, rest: string)
    requires 1 <= m1 < 100 && 1 <= d1 < 100 && 1 <= m2 < 100 && 1 <= d2 < 100
    ensures Period(PeriodText(m1, d1) + " ~ " + PeriodText(m2, d2) + rest)
      == Some((MonthDay((m1, d1)), MonthDay((m2, d2))))
  {
    var a1, b1, a2, b2 := NatStr(m1), NatStr(d1), NatStr(m2), NatStr(d2);
    NatStrSmall(m1);
    NatStrSmall(d1);
    NatStrSmall(m2);
    NatStrSmall(d2);
    var s := PeriodText(m1, d1) + " ~ " + PeriodText(m2, d2) + rest;
    var e := |a1| + 3 + |b1|;
    var f := e + 3 + |a2| + 3 + |b2|;
    PeriodPairLayout(a1, b1, a2, b2, rest, s, e, f);
    PeriodTextMatch(s, 0, a1, b1, e);
    PeriodTextMatch(s, e + 3, a2, b2, f);
    FirstTwoOf(s, m1, d1, m2, d2, e, f);
  }

  // ---------------------------------------------------------------------------------------
  // Agoda dates: `datetime.strptime(s, '%d-%b-%Y')` in the C locale

  /** `%d`: one of `3[01]`, `[12]\d`, `0[1-9]`, `[1-9]`, ` [1-9]` covering the whole token. */
  function DayToken(t: string): (r: Option<nat>)
    ensures r.Some? ==> 1 <= r.value <= 31
  {
    if |t| == 1 then
      (if '1' <= t[0] <= '9' then Some(DigitValue(t[0])) else None)
    else if |t| == 2 then
      if t[0] == '3' && (t[1] == '0' || t[1] == '1') then Some(30 + DigitValue(t[1]))
      else if (t[0] == '1' || t[0] == '2') && IsDigit(t[1]) then Some(DigitValue(t[0]) * 10 + DigitValue(t[1]))
      else if t[0] == '0' && '1' <= t[1] <= '9' then Some(DigitValue(t[1]))
      else if t[0] == ' ' && '1' <= t[1] <= '9' then Some(DigitValue(t[1]))
      else None
    else None
  }

  /** The C locale's month abbreviations, in lower case. */
  const MonthNames: seq<string> :=
    ["jan", "feb", "mar", "apr", "may", "jun", "jul", "aug", "sep", "oct", "nov", "dec"]

  /** `%b` under IGNORECASE: the month whose abbreviation equals `t` up to ASCII case. */
  function MonthOf(t: string): (r: Option<nat>)
    ensures r.Some? ==> 1 <= r.value <= 12 && MonthNames[r.value - 1] == Lower(t)
    ensures r.None? ==> forall k :: 0 <= k < 12 ==> MonthNames[k] != Lower(t)
  {
    MonthFrom(Lower(t), 0)
  }

  function MonthFrom(lt: string, k: nat): (r: Option<nat>)
    requires k <= 12
    ensures r.Some? ==> k < r.value <= 12 && MonthNames[r.value - 1] == lt
    ensures r.None? ==> forall j :: k <= j < 12 ==> MonthNames[j] != lt
    decreases 12 - k
  {
    if k == 12 then None
    else if MonthNames[k] == lt then Some(k + 1)
    else MonthFrom(lt, k + 1)
  }

  lemma MonthNamesDistinct()
    ensures forall j, k :: 0 <= j < 12 && 0 <= k < 12 && j != k ==> MonthNames[j] != MonthNames[k]
  {
    forall j, k | 0 <= j < 12 && 0 <= k < 12 && j != k ensures MonthNames[j] != MonthNames[k] {
      assert MonthNames[j][0] != MonthNames[k][0] || MonthNames[j][1] != MonthNames[k][1] || MonthNames[j][2] != MonthNames[k][2];
    }
  }

  /** Any spelling of a month's abbreviation, in any ASCII case, names that month. */
  lemma MonthOfName(t: string, m: nat)
    requires 1 <= m <= 12 && Lower(t) == MonthNames[m - 1]
    ensures MonthOf(t) == Some(m)
  {
    MonthNamesDistinct();
  }

  /** `datetime.strptime(s, '%d-%b-%Y')`: the whole text must be a day token, `-`, a month
      abbreviation, `-` and four digits, naming a calendar day. `None` is the ValueError. */
  function ParseDayMonYear(s: string): (r: Option<Date>)
    ensures r.Some? ==> Valid(r.value)
  {
    var k := if |s| >= 2 && s[1] == '-' then 1 else 2;
    if |s| != k + 9 || s[k] != '-' || s[k + 4] != '-' || !AllDigits(s[k + 5..]) then None
    else
      match (DayToken(s[..k]), MonthOf(s[k + 1..k + 4]))
      case (Some(day), Some(month)) =>
        var d := Date(DigitsValue(s[k + 5..]), month, day);
        if Valid(d) then Some(d) else None
      case _ => None
  }

  /** How Agoda writes a day, e.g. `07-Jan-2026`, with the month spelt `mon` in any case. */
  function AgodaText(d: Date, mon: string): string
    requires Valid(d) && d.year >= 1000
  {
    Pad2(d.day) + "-" + mon + "-" + NatStr(d.year)
  }

  /** Agoda's form of a valid day is read back as that day. */
  lemma ParseDayMonYearRoundTrip(d: Date, mon: string)
    requires Valid(d) && d.year >= 1000
    requires |mon| == 3 && Lower(mon) == MonthNames[d.month - 1]
    ensures ParseDayMonYear(AgodaText(d, mon)) == Some(d)
  {
    var s := AgodaText(d, mon);
    var dd := Pad2(d.day);
    NatStrFour(d.year);
    assert |s| == 11;
    assert IsDigit(dd[1]);
    assert s[..2] == dd && s[2] == '-' && s[6] == '-' && s[1] != '-';
    assert s[3..6] == mon;
    assert s[7..] == NatStr(d.year);
    assert dd[..1] == [dd[0]] && [dd[0]][..0] == [];
    assert DayToken(s[..2]) == Some(d.day);
    MonthOfName(mon, d.month);
  }
}

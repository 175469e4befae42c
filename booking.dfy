/** The Booking.com downloader's bookkeeping: reading a payout from the cells of a row of the
    payouts table, and the update of the `부킹` summary sheet. */
module Booking {
  import opened Text
  import opened Numbers
  import opened Dates
  import opened Sheets
  import opened Lists

  /** A payout of the table: `payout_id`, `payout_date` (`YYYY-MM-DD`), the period
      `(period_from, period_to)` when one was read, and `amount`. */
  datatype Payout = Payout(id: string, date: string, period: Option<(string, string)>, amount: int)

  // ---------------------------------------------------------------------------------------
  // Amounts

  /** `re.sub(r'[^\d.]', '', text)`: the digits and points of `text`, in order. */
  function DigitsAndPoints(s: string): string
    decreases |s|
  {
    if s == [] then [] else Kept(s[0]) + DigitsAndPoints(s[1..])
  }

  /** What `[^\d.]` leaves of one character. */
  function Kept(c: char): string {
    if IsDigit(c) || c == '.' then [c] else []
  }

  /** Only digits and points are left, and every digit and point of the text is. */
  lemma {:induction false} DigitsAndPointsChars(s: string)
    ensures forall c :: c in DigitsAndPoints(s) <==> c in s && (IsDigit(c) || c == '.')
    decreases |s|
  {
    if s != [] {
      DigitsAndPointsChars(s[1..]);
      assert forall c :: c in s <==> c == s[0] || c in s[1..];
    }
  }

  lemma {:induction false} DigitsAndPointsAppend(a: string, b: string)
    ensures DigitsAndPoints(a + b) == DigitsAndPoints(a) + DigitsAndPoints(b)
    decreases |a|
  {
    if a == [] {
      assert a + b == b;
    } else {
      calc {
        DigitsAndPoints(a + b);
        { assert (a + b)[0] == a[0] && (a + b)[1..] == a[1..] + b; }
        Kept(a[0]) + DigitsAndPoints(a[1..] + b);
        { DigitsAndPointsAppend(a[1..], b); }
        Kept(a[0]) + (DigitsAndPoints(a[1..]) + DigitsAndPoints(b));
      }
    }
  }

  /** Text made only of digits is kept whole. */
  lemma {:induction false} DigitsKept(s: string)
    requires AllDigits(s)
    ensures DigitsAndPoints(s) == s
    decreases |s|
  {
    if s != [] {
      assert IsDigit(s[0]);
      assert AllDigits(s[1..]) by {
        forall k | 0 <= k < |s[1..]| ensures IsDigit(s[1..][k]) {
          assert s[1..][k] == s[k + 1];
        }
      }
      DigitsKept(s[1..]);
    }
  }

  /** Keeping the digits of the grouped form gives `str(n)`. */
  lemma {:induction false} DigitsOfGrouped(n: nat)
    ensures DigitsAndPoints(Grouped(n)) == NatStr(n)
    decreases n
  {
    if n < 1000 {
      DigitsKept(NatStr(n));
    } else {
      var a, b := n / 1000, n % 1000;
      DigitsOfGrouped(a);
      DigitsAndPointsAppend(Grouped(a) + ",", Pad3(b));
      DigitsAndPointsAppend(Grouped(a), ",");
      assert DigitsAndPoints(",") == [];
      DigitsKept(Pad3(b));
      NatStrThousand(a, b);
    }
  }

  /** `int(float(amount_str)) if amount_str else 0`, and 0 when `float()` fails. */
  function AmountOf(text: string): int {
    var t := DigitsAndPoints(text);
    if t == "" then 0
    else match ParseFloat(t)
      case Some(v) => Trunc(v)
      case None => 0
  }

  /** With no sign left in the text, an amount is never negative. */
  lemma AmountNotNegative(text: string)
    ensures AmountOf(text) >= 0
  {
    var t := DigitsAndPoints(text);
    if t != "" {
      assert NoSpace(t) && t[0] != '-' && t[0] != '+' by {
        DigitsAndPointsChars(text);
        forall k | 0 <= k < |t| ensures !IsSpace(t[k]) && t[k] != '-' && t[k] != '+' {
          assert t[k] in t;
        }
      }
      ParseFloatUnsigned(t);
    }
  }

  /** A won figure as the table shows it, e.g. `₩54,895,500`, reads as its value. */
  lemma WonAmount(n: nat)
    ensures AmountOf("₩" + Thousands(n)) == n
  {
    assert DigitsAndPoints("₩" + Thousands(n)) == IntStr(n) by {
      DigitsAndPointsAppend("₩", Grouped(n));
      assert DigitsAndPoints("₩") == [];
      DigitsOfGrouped(n);
    }
    assert IntStr(n) != "";
    assert ParseFloat(IntStr(n)) == Some(n as real) by {
      ParseFloatIntStr(n);
    }
  }

  // ---------------------------------------------------------------------------------------
  // Table rows

  /** One row of the payouts table, given the text of its cells: the payout, or `None` when the
      row is skipped (fewer than 7 cells, no payout date, or no id). */
  function ParseRow(cells: seq<string>): Option<Payout> {
    if |cells| < 7 then None
    else
      match PayoutDate(Strip(cells[1]))
      case None => None
      case Some(date) =>
        var id := Strip(cells[3]);
        if id != "" && date != "" then
          Some(Payout(id, date, Period(Strip(cells[2])), AmountOf(Strip(cells[|cells| - 1]))))
        else None
  }

  /** A row is read exactly when it has at least 7 cells, a payout date and an id; the payout
      then carries the id, the date, the period and the amount of the last cell. */
  lemma ParseRowIff(cells: seq<string>)
    ensures ParseRow(cells).Some? <==>
      |cells| >= 7 && PayoutDate(Strip(cells[1])).Some? && Strip(cells[3]) != ""
    ensures ParseRow(cells).Some? ==>
      var p := ParseRow(cells).value;
      && p.id == Strip(cells[3]) && p.date == PayoutDate(Strip(cells[1])).value
      && p.period == Period(Strip(cells[2])) && p.amount == AmountOf(Strip(cells[|cells| - 1]))
  {
    if |cells| >= 7 && PayoutDate(Strip(cells[1])).Some? {
      var d := KoreanDateMatch(Strip(cells[1])).value;
      assert |Iso(d)| == 10;
    }
  }

  /** Text that begins and ends with something other than whitespace is left alone by `strip()`. */
  lemma Trimmed(s: string)
    requires s != [] && !IsSpace(s[0]) && !IsSpace(s[|s| - 1])
    ensures Strip(s) == s
  {
    StripTrimmed(s);
  }

  /** The payout date cell as the table writes it, e.g. `2026년 1월 1일`, reads as `YYYY-MM-DD`. */
  lemma DateCell(d: Date)
    requires Valid(d) && d.year >= 1000
    ensures PayoutDate(Strip(KoreanText(d))) == Some(Iso(d))
  {
    var k := KoreanText(d);
    assert k[|k| - 1] == '일';
    assert IsDigit(NatStr(d.year)[0]);
    assert k[0] == NatStr(d.year)[0];
    Trimmed(k);
    PayoutDateRoundTrip(d, "");
    assert k + "" == k;
  }

  /** The period cell as the table writes it, e.g. `12월 1일 ~ 12월 31일`, reads as both ends. */
  lemma PeriodCell(m1: nat, d1: nat, m2: nat, d2: nat)
    requires 1 <= m1 < 100 && 1 <= d1 < 100 && 1 <= m2 < 100 && 1 <= d2 < 100
    ensures Period(Strip(PeriodText(m1, d1) + " ~ " + PeriodText(m2, d2)))
      == Some((MonthDay((m1, d1)), MonthDay((m2, d2))))
  {
    var t := PeriodText(m1, d1) + " ~ " + PeriodText(m2, d2);
    assert t[|t| - 1] == '일';
    assert IsDigit(NatStr(m1)[0]);
    assert t[0] == NatStr(m1)[0];
    Trimmed(t);
    PeriodRoundTrip(m1, d1, m2, d2, "");
    assert t + "" == t;
  }

  /** The amount cell as the table writes it, e.g. `₩54,895,500`, reads as its value. */
  lemma AmountCell(n: nat)
    ensures AmountOf(Strip("₩" + Thousands(n))) == n
  {
    var w := "₩" + Thousands(n);
    GroupedDigitAtEnds(n);
    assert w[|w| - 1] == Grouped(n)[|Grouped(n)| - 1];
    Trimmed(w);
    WonAmount(n);
  }

  /** A row as the payouts table shows it reads as the payout it shows. */
  lemma ParseRowOfTable(cells: seq<string>, d: Date, m1: nat, d1: nat, m2: nat, d2: nat, n: nat)
    requires |cells| >= 7 && Valid(d) && d.year >= 1000
    requires 1 <= m1 < 100 && 1 <= d1 < 100 && 1 <= m2 < 100 && 1 <= d2 < 100
    requires cells[1] == KoreanText(d)
    requires cells[2] == PeriodText(m1, d1) + " ~ " + PeriodText(m2, d2)
    requires cells[3] != "" && Strip(cells[3]) == cells[3]
    requires cells[|cells| - 1] == "₩" + Thousands(n)
    ensures ParseRow(cells) ==
      Some(Payout(cells[3], Iso(d), Some((MonthDay((m1, d1)), MonthDay((m2, d2)))), n))
  {
    DateCell(d);
    PeriodCell(m1, d1, m2, d2);
    AmountCell(n);
  }

  /** The payouts of a table, in row order. */
  function Payouts(rows: seq<seq<string>>): seq<Payout> {
    Collect(rows, ParseRow)
  }

  /** The loop of `parse_payouts_table`. */
  method ParsePayouts(rows: seq<seq<string>>) returns (payouts: seq<Payout>)
    ensures payouts == Payouts(rows)
  {
    payouts := CollectAll(rows, ParseRow);
  }

  /** Every listed payout is read from a row with at least 7 cells, a payout date and the id it
      carries, and every such row gives one, in row order. */
  lemma PayoutsIff(rows: seq<seq<string>>, p: Payout)
    ensures p in Payouts(rows) <==> exists i :: 0 <= i < |rows| && ParseRow(rows[i]) == Some(p)
    ensures p in Payouts(rows) ==> p.id != "" && p.date != ""
  {
    CollectIff(rows, ParseRow, p);
    if p in Payouts(rows) {
      var i :| 0 <= i < |rows| && ParseRow(rows[i]) == Some(p);
      ParseRowIff(rows[i]);
    }
  }

  // ---------------------------------------------------------------------------------------
  // The summary sheet

  /** `[payout_id, period_from, period_to, f"{amount:,}"]`; a missing period leaves its cells empty. */
  function RowFor(p: Payout): Row {
    match p.period
    case Some(pr) => [Some(p.id), Some(pr.0), Some(pr.1), Some(Thousands(p.amount))]
    case None => [Some(p.id), None, None, Some(Thousands(p.amount))]
  }

  /** `existing_payout_ids`: the stripped `대금지급기간` (column A) of the data rows that have one. */
  function ExistingIds(rows: seq<Row>): set<string> {
    set i | 0 <= i < |rows| && Truthy(CellAt(rows[i], 0)) :: Strip(CellAt(rows[i], 0).value)
  }

  method CollectIds(rows: seq<Row>) returns (ids: set<string>)
    ensures ids == ExistingIds(rows)
  {
    ids := {};
    var i := 0;
    while i < |rows|
      invariant 0 <= i <= |rows|
      invariant ids == set j | 0 <= j < i && Truthy(CellAt(rows[j], 0)) :: Strip(CellAt(rows[j], 0).value)
    {
      if Truthy(CellAt(rows[i], 0)) {
        ids := ids + {Strip(CellAt(rows[i], 0).value)};
      }
      i := i + 1;
    }
  }

  /** The rows appended for `ps` when the ids in `seen` are already present; each appended id
      joins `seen`. */
  function NewRows(ps: seq<Payout>, seen: set<string>): seq<Row>
    decreases |ps|
  {
    if ps == [] then []
    else if ps[0].id in seen then NewRows(ps[1..], seen)
    else [RowFor(ps[0])] + NewRows(ps[1..], seen + {ps[0].id})
  }

  /** Payouts with ids give rows with new ids, none appended twice. */
  lemma {:induction false} NewRowsFresh(ps: seq<Payout>, seen: set<string>)
    requires forall p :: p in ps ==> p.id != ""
    ensures FreshIds(NewRows(ps, seen), 0, seen)
    decreases |ps|
  {
    if ps != [] {
      assert forall p :: p in ps[1..] ==> p in ps;
      var id := ps[0].id;
      if id in seen {
        NewRowsFresh(ps[1..], seen);
      } else {
        NewRowsFresh(ps[1..], seen + {id});
        assert CellAt(RowFor(ps[0]), 0) == Some(id);
        FreshCons(RowFor(ps[0]), NewRows(ps[1..], seen + {id}), 0, id, seen);
      }
    }
  }

  /** Every payout whose id is not yet present gets a row with that id. */
  lemma {:induction false} NewRowsComplete(ps: seq<Payout>, seen: set<string>, x: Payout)
    requires x in ps && x.id !in seen
    ensures exists k :: 0 <= k < |NewRows(ps, seen)| && CellAt(NewRows(ps, seen)[k], 0) == Some(x.id)
    decreases |ps|
  {
    var id := ps[0].id;
    var isNew := id !in seen;
    var seen' := if isNew then seen + {id} else seen;
    var rest := NewRows(ps[1..], seen');
    var rs := NewRows(ps, seen);
    assert rs == (if isNew then [RowFor(ps[0])] else []) + rest;
    if isNew && id == x.id {
      assert CellAt(rs[0], 0) == Some(x.id);
    } else {
      assert x in ps[1..];
      NewRowsComplete(ps[1..], seen', x);
      var k :| 0 <= k < |rest| && CellAt(rest[k], 0) == Some(x.id);
      var j := if isNew then k + 1 else k;
      assert rs[j] == rest[k];
    }
  }

  /** Every appended row is the row of one of the payouts. */
  lemma {:induction false} NewRowsFrom(ps: seq<Payout>, seen: set<string>)
    ensures forall r :: r in NewRows(ps, seen) ==> exists x :: x in ps && r == RowFor(x)
    decreases |ps|
  {
    if ps != [] {
      var seen' := if ps[0].id in seen then seen else seen + {ps[0].id};
      NewRowsFrom(ps[1..], seen');
      assert forall x :: x in ps[1..] ==> x in ps;
    }
  }

  /** The ids of a batch. */
  function IdsOf(ps: seq<Payout>): set<string> {
    set p | p in ps :: p.id
  }

  /** Appending a batch in two parts: the second part sees the ids of the first. */
  lemma {:induction false} NewRowsAppend(a: seq<Payout>, b: seq<Payout>, seen: set<string>)
    ensures NewRows(a + b, seen) == NewRows(a, seen) + NewRows(b, seen + IdsOf(a))
    decreases |a|
  {
    if a == [] {
      assert a + b == b && IdsOf(a) == {};
      assert seen + IdsOf(a) == seen;
    } else {
      var seen' := if a[0].id in seen then seen else seen + {a[0].id};
      assert (a + b)[0] == a[0] && (a + b)[1..] == a[1..] + b;
      NewRowsAppend(a[1..], b, seen');
      IdsOfCons(a);
      assert seen' + IdsOf(a[1..]) == seen + IdsOf(a);
    }
  }

  /** The ids of a non-empty batch are its first id and the ids of the rest. */
  lemma IdsOfCons(a: seq<Payout>)
    requires a != []
    ensures IdsOf(a) == {a[0].id} + IdsOf(a[1..])
  {
    assert a == [a[0]] + a[1..];
  }

  /** Nothing is appended when every id is already present. */
  lemma {:induction false} NewRowsNone(ps: seq<Payout>, seen: set<string>)
    requires forall p :: p in ps ==> p.id in seen
    ensures NewRows(ps, seen) == []
    decreases |ps|
  {
    if ps != [] {
      assert forall p :: p in ps[1..] ==> p in ps;
      NewRowsNone(ps[1..], seen);
    }
  }

  /** Since each appended id joins the present ones, a batch holding every payout twice appends
      each new row once (the Agoda update appends it twice). */
  lemma NewRowsTwice(ps: seq<Payout>, seen: set<string>)
    ensures NewRows(ps + ps, seen) == NewRows(ps, seen)
  {
    NewRowsAppend(ps, ps, seen);
    NewRowsNone(ps, seen + IdsOf(ps));
  }

  lemma NewRowsUnfold(ps: seq<Payout>, i: nat, seen: set<string>)
    requires i < |ps|
    ensures NewRows(ps[i..], seen) ==
      if ps[i].id in seen then NewRows(ps[i + 1..], seen)
      else [RowFor(ps[i])] + NewRows(ps[i + 1..], seen + {ps[i].id})
  {
    assert ps[i..][0] == ps[i] && ps[i..][1..] == ps[i + 1..];
  }

  /** `update_excel_with_payouts` on the `부킹` sheet: append a row for each payout with a new id,
      then sort the data rows by column A, latest first. */
  method UpdatePayouts(sheet: Sheet, ps: seq<Payout>)
    requires sheet.Valid()
    modifies sheet
    ensures sheet.Valid() && sheet.rows[0] == old(sheet.rows[0])
    ensures sheet.rows[1..] == SortDesc(old(sheet.rows[1..]) + NewRows(ps, ExistingIds(old(sheet.rows[1..]))))
  {
    ghost var data0 := sheet.rows[1..];
    var seen := CollectIds(sheet.rows[1..]);
    ghost var target := data0 + NewRows(ps, seen);
    var i := 0;
    while i < |ps|
      invariant 0 <= i <= |ps| && sheet.Valid() && sheet.rows[0] == old(sheet.rows[0])
      invariant sheet.rows[1..] + NewRows(ps[i..], seen) == target
    {
      ghost var before := sheet.rows;
      var p := ps[i];
      ghost var rest := NewRows(ps[i + 1..], if p.id in seen then seen else seen + {p.id});
      NewRowsUnfold(ps, i, seen);
      if p.id !in seen {
        sheet.Append(RowFor(p));
        AppendData(before, RowFor(p), rest);
        seen := seen + {p.id};
      }
      i := i + 1;
    }
    assert ps[i..] == [];
    assert sheet.rows[1..] == target;
    sheet.SortByColumnA();
  }
}

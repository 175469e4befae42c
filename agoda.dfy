/** The bookkeeping of the Agoda downloader: which rows of the remittance table are statements,
    which are in the date range, which still have to be downloaded, the name a statement is saved
    under, and the update of the `아고다` summary sheet. */
module Agoda {
  import opened Text
  import opened Numbers
  import opened Dates
  import opened Sheets
  import opened Lists
  import opened Keys

  /** A `<tr>` of the remittance table: its `id` attribute and the text of its `<td>` cells. */
  datatype TableRow = TableRow(id: string, cells: seq<string>)

  /** A `RemittanceRecord`: the row id (`remittance_info_id`), the date as the site writes it
      (`07-Jan-2026`), the currency, the amount, the payout id and the payout method. */
  datatype Remittance = Remittance(rowId: string, date: string, currency: string, amount: real,
                                   payoutId: string, payoutMethod: string)

  // ---------------------------------------------------------------------------------------
  // The remittance list

  /** Row ids that are not statements: empty ids, card-detail rows and additional-info rows. */
  predicate SkippedId(id: string) {
    id == "" || Contains(id, "cardInfo") || Contains(id, "trAdditional")
  }

  /** One row of `get_remittance_list`: `None` when the row is skipped, has fewer than 9 cells or
      its amount, without commas, is not a number. */
  function ReadRow(t: TableRow): Option<Remittance> {
    if SkippedId(t.id) || |t.cells| < 9 then None
    else
      match ParseFloat(Delete(Strip(t.cells[3]), ","))
      case None => None
      case Some(v) =>
        Some(Remittance(t.id, Strip(t.cells[1]), Strip(t.cells[2]), v, Strip(t.cells[4]), Strip(t.cells[7])))
  }

  /** The statements of the table, in order. */
  function Remittances(rows: seq<TableRow>): seq<Remittance> {
    Collect(rows, ReadRow)
  }

  /** The row loop of `get_remittance_list`. */
  method ListRemittances(rows: seq<TableRow>) returns (rs: seq<Remittance>)
    ensures rs == Remittances(rows)
  {
    rs := CollectAll(rows, ReadRow);
  }

  /** An amount as the table shows it, `15,123,015.00`, reads back as its value. */
  lemma AmountCell(n: nat)
    ensures ParseFloat(Delete(Strip(Thousands(n) + ".00"), ",")) == Some(n as real)
  {
    AmountText(n);
    CentsFloat(n);
  }

  /** Stripping the table's amount text and deleting its commas leaves the plain digits and cents. */
  lemma AmountText(n: nat)
    ensures Delete(Strip(Thousands(n) + ".00"), ",") == NatStr(n) + ".00"
  {
    var cents := ".00";
    NatStrNoComma(n);
    GroupedDigitAtEnds(n);
    assert (Thousands(n) + cents)[0] == Thousands(n)[0];
    StripTrimmed(Thousands(n) + cents);
    ThousandsWithoutCommas(n);
    DeleteCharAppend(Thousands(n), cents, ',');
    DeleteAbsent(cents, ",");
  }

  /** `float(f"{n}.00") == n`. */
  lemma CentsFloat(n: nat)
    ensures ParseFloat(NatStr(n) + ".00") == Some(n as real)
  {
    var s := NatStr(n) + ".00";
    assert IsDigit(s[0]) && s[|s| - 1] == '0';
    StripTrimmed(s);
    ParseCents(n);
  }

  /** A row of the table whose id is a statement id and whose cells are already trimmed reads back
      as the statement they show. */
  lemma ReadRowOf(id: string, cells: seq<string>, n: nat)
    requires !SkippedId(id) && |cells| >= 9 && cells[3] == Thousands(n) + ".00"
    requires forall k :: k in {1, 2, 4, 7} ==> Strip(cells[k]) == cells[k]
    ensures ReadRow(TableRow(id, cells)) == Some(Remittance(id, cells[1], cells[2], n as real, cells[4], cells[7]))
  {
    AmountCell(n);
    assert 1 in {1, 2, 4, 7} && 2 in {1, 2, 4, 7} && 4 in {1, 2, 4, 7} && 7 in {1, 2, 4, 7};
  }

  /** A statement is listed exactly when some row reads as it, and a listed statement never has
      the id of a skipped row. */
  lemma RemittancesIff(rows: seq<TableRow>, r: Remittance)
    ensures r in Remittances(rows) <==> exists i :: 0 <= i < |rows| && ReadRow(rows[i]) == Some(r)
    ensures r in Remittances(rows) ==> !SkippedId(r.rowId)
  {
    CollectIff(rows, ReadRow, r);
  }

  // ---------------------------------------------------------------------------------------
  // The date filter

  /** `datetime.strptime(date, '%d-%b-%Y').strftime('%Y-%m-%d')`; `None` is the ValueError. */
  function IsoDate(date: string): (r: Option<string>)
    ensures r.Some? ==> |r.value| == 10
  {
    match ParseDayMonYear(date)
    case Some(d) => Some(Iso(d))
    case None => None
  }

  /** The date `download_remittances` compares a remittance by. */
  function DateOf(r: Remittance): Option<string> {
    IsoDate(r.date)
  }

  /** `start_date and r_date < start_date` or `end_date and r_date > end_date` skips a date; a
      date that did not parse drops its remittance. */
  predicate Bounded(d: Option<string>, start: string, end: string) {
    match d
    case None => false
    case Some(d) => !(start != "" && LexLess(d, start)) && !(end != "" && LexLess(end, d))
  }

  /** A remittance is kept by the date filter. */
  predicate Within(r: Remittance, start: string, end: string) {
    Bounded(DateOf(r), start, end)
  }

  /** The elements whose date is within the range, in order. */
  function Dated<T>(xs: seq<T>, date: T -> Option<string>, start: string, end: string): seq<T>
    decreases |xs|
  {
    if xs == [] then []
    else Dated(xs[..|xs| - 1], date, start, end) + Kept(xs[|xs| - 1], date, start, end)
  }

  /** The element itself when its date is within the range. */
  function Kept<T>(x: T, date: T -> Option<string>, start: string, end: string): seq<T> {
    if Bounded(date(x), start, end) then [x] else []
  }

  /** The remittances within the range, in order. */
  function InRange(rs: seq<Remittance>, start: string, end: string): seq<Remittance> {
    Dated(rs, DateOf, start, end)
  }

  /** The date-filter loop of `download_remittances`. */
  method FilterByDate(rs: seq<Remittance>, start: string, end: string) returns (filtered: seq<Remittance>)
    ensures filtered == InRange(rs, start, end)
  {
    filtered := FilterDated(rs, DateOf, start, end);
  }

  /** The loop `for r in remittances: if within the range: filtered.append(r)`. */
  method FilterDated<T>(xs: seq<T>, date: T -> Option<string>, start: string, end: string) returns (out: seq<T>)
    ensures out == Dated(xs, date, start, end)
  {
    out := [];
    var i := 0;
    while i < |xs|
      invariant 0 <= i <= |xs| && out == Dated(xs[..i], date, start, end)
    {
      assert xs[..i + 1][..i] == xs[..i];
      out := out + if Bounded(date(xs[i]), start, end) then [xs[i]] else [];
      i := i + 1;
    }
    assert xs[..i] == xs;
  }

  /** An element is kept exactly when its date is within the range. */
  lemma {:induction false} DatedIff<T>(xs: seq<T>, date: T -> Option<string>, start: string, end: string, x: T)
    ensures x in Dated(xs, date, start, end) <==> x in xs && Bounded(date(x), start, end)
    decreases |xs|
  {
    if xs != [] {
      var init := xs[..|xs| - 1];
      DatedIff(init, date, start, end, x);
      assert xs == init + [xs[|xs| - 1]];
    }
  }

  /** A remittance is kept exactly when it is within the range. */
  lemma InRangeIff(rs: seq<Remittance>, start: string, end: string, x: Remittance)
    ensures x in InRange(rs, start, end) <==> x in rs && Within(x, start, end)
  {
    DatedIff(rs, DateOf, start, end, x);
  }

  /** With an end date given, a remittance is within the range exactly when its date parses and
      lies between the bounds, both included. */
  lemma WithinBounds(x: Remittance, start: string, end: string)
    requires end != ""
    ensures Within(x, start, end) <==>
      IsoDate(x.date).Some? && LexLessEq(start, IsoDate(x.date).value) && LexLessEq(IsoDate(x.date).value, end)
  {
    if IsoDate(x.date).Some? {
      var d := IsoDate(x.date).value;
      LexLessTotal(d, start);
      LexLessTotal(d, end);
      LexLessIrreflexive(d);
      if LexLess(d, start) {
        LexLessAsymmetric(d, start);
      }
      if LexLess(end, d) {
        LexLessAsymmetric(end, d);
      }
    }
  }

  /** Every kept remittance has a date that parses. */
  lemma InRangeParsed(rs: seq<Remittance>, start: string, end: string)
    ensures forall x :: x in InRange(rs, start, end) ==> ParseDayMonYear(x.date).Some?
  {
    forall x | x in InRange(rs, start, end)
      ensures ParseDayMonYear(x.date).Some?
    {
      InRangeIff(rs, start, end, x);
    }
  }

  // ---------------------------------------------------------------------------------------
  // The saved file name

  /** The date part of a saved name: `%Y%m%d` when the date parses, else the date without dashes. */
  function FileDate(date: string): string {
    match ParseDayMonYear(date)
    case Some(d) => Compact(d)
    case None => Delete(date, "-")
  }

  /** `아고다_{date_str}_{int(amount)}.csv`. */
  function TargetName(r: Remittance): string {
    "아고다_" + FileDate(r.date) + "_" + IntStr(Trunc(r.amount)) + ".csv"
  }

  /** The key `download_remittances` gives a remittance: `%Y%m%d` date and `int(amount)`; `None`
      when the date does not parse (`strptime` raises). */
  function RemittanceKey(r: Remittance): Option<string> {
    match ParseDayMonYear(r.date)
    case Some(d) => Some(Compact(d) + "_" + IntStr(Trunc(r.amount)))
    case None => None
  }

  /** A compact date holds no `_` and no `.`. */
  lemma CompactClean(d: Date)
    requires Valid(d)
    ensures '_' !in Compact(d) && '.' !in Compact(d)
  {
    var c := Compact(d);
    assert forall k :: 0 <= k < |c| ==> IsDigit(c[k]);
  }

  /** A statement saved under its target name is recognised as saved: the key read back from the
      name is the statement's own key. */
  lemma TargetNameRecognised(r: Remittance)
    requires ParseDayMonYear(r.date).Some?
    ensures FileKey(TargetName(r)) == RemittanceKey(r)
  {
    var d := Compact(ParseDayMonYear(r.date).value);
    var a := IntStr(Trunc(r.amount));
    var csv := ".csv";
    CompactClean(ParseDayMonYear(r.date).value);
    IntStrClean(Trunc(r.amount));
    assert csv[1..] == "csv";
    assert TargetName(r) == "아고다" + "_" + d + "_" + a + csv;
    NameKey("아고다", d, a, csv);
  }

  /** A date that does not parse is used without its dashes: the name still splits into the
      date and the amount as long as the date holds no `_` or `.`. */
  lemma RawTargetName(r: Remittance)
    requires ParseDayMonYear(r.date).None? && Delete(r.date, "-") != ""
    requires '_' !in r.date && '.' !in r.date
    ensures FileKey(TargetName(r)) == Some(Delete(r.date, "-") + "_" + IntStr(Trunc(r.amount)))
  {
    var d := Delete(r.date, "-");
    var a := IntStr(Trunc(r.amount));
    var csv := ".csv";
    DeleteNoNew(r.date, "-", '_');
    DeleteNoNew(r.date, "-", '.');
    IntStrClean(Trunc(r.amount));
    assert csv[1..] == "csv";
    assert TargetName(r) == "아고다" + "_" + d + "_" + a + csv;
    NameKey("아고다", d, a, csv);
  }

  // ---------------------------------------------------------------------------------------
  // The Excel-based download filter

  /** The elements whose key is among `missing`, in order; `None` when a key cannot be built
      (`strptime` raises and the filter is abandoned). */
  function Narrowed<T>(xs: seq<T>, key: T -> Option<string>, missing: set<string>): Option<seq<T>>
    decreases |xs|
  {
    if xs == [] then Some([])
    else
      match Narrowed(xs[..|xs| - 1], key, missing)
      case None => None
      case Some(n) =>
        match key(xs[|xs| - 1])
        case None => None
        case Some(k) => Some(n + if k in missing then [xs[|xs| - 1]] else [])
  }

  /** The list after the Excel-based filter: narrowed to the missing keys when some are missing,
      unchanged when none is or when the filter raises. */
  function Targets(rs: seq<Remittance>, missing: set<string>): seq<Remittance> {
    if missing == {} then rs
    else
      match Narrowed(rs, RemittanceKey, missing)
      case Some(n) => n
      case None => rs
  }

  /** The statements `download_remittances` downloads: when the workbook has an `아고다` sheet,
      the remittances in it (date in column A, amount in column B) whose file is missing. */
  function Downloads(rs: seq<Remittance>, sheetRows: Option<seq<Row>>, names: seq<string>): seq<Remittance> {
    match sheetRows
    case None => rs
    case Some(rows) => Targets(rs, RecordKeys(rows, 0, 1) - FileKeys(names))
  }

  /** The Excel-based filter of `download_remittances`: `sheetRows` are the data rows of the
      `아고다` sheet when the workbook and the sheet exist, `names` the names of the saved
      `아고다_*.csv` files. */
  method ExcelFilter(rs: seq<Remittance>, sheetRows: Option<seq<Row>>, names: seq<string>)
    returns (targets: seq<Remittance>)
    ensures targets == Downloads(rs, sheetRows, names)
  {
    targets := rs;
    if sheetRows.Some? {
      var excel := CollectRecordKeys(sheetRows.value, 0, 1);
      var files := CollectFileKeys(names);
      var missing := excel - files;
      if missing != {} {
        var narrowed := NarrowAll(rs, RemittanceKey, missing);
        if narrowed.Some? {
          targets := narrowed.value;
        }
      }
    }
  }

  /** The loop keeping the remittances whose key is missing; the first key that cannot be built
      abandons it. */
  method NarrowAll<T>(xs: seq<T>, key: T -> Option<string>, missing: set<string>) returns (r: Option<seq<T>>)
    ensures r == Narrowed(xs, key, missing)
  {
    var out: seq<T> := [];
    var i := 0;
    while i < |xs|
      invariant 0 <= i <= |xs| && Narrowed(xs[..i], key, missing) == Some(out)
    {
      var k := key(xs[i]);
      NarrowedStep(xs, key, missing, i);
      if k.None? {
        NarrowedStuck(xs, key, missing, i + 1);
        return None;
      }
      out := out + if k.value in missing then [xs[i]] else [];
      i := i + 1;
    }
    assert xs[..i] == xs;
    return Some(out);
  }

  /** Narrowing one more element. */
  lemma NarrowedStep<T>(xs: seq<T>, key: T -> Option<string>, missing: set<string>, i: nat)
    requires i < |xs|
    ensures Narrowed(xs[..i], key, missing).None? || key(xs[i]).None? ==> Narrowed(xs[..i + 1], key, missing) == None
    ensures Narrowed(xs[..i], key, missing).Some? && key(xs[i]).Some? ==>
      Narrowed(xs[..i + 1], key, missing) ==
      Some(Narrowed(xs[..i], key, missing).value + if key(xs[i]).value in missing then [xs[i]] else [])
  {
    var p := xs[..i + 1];
    assert p[..|p| - 1] == xs[..i] && p[|p| - 1] == xs[i];
  }

  /** Once a key cannot be built, the whole filter is abandoned. */
  lemma {:induction false} NarrowedStuck<T>(xs: seq<T>, key: T -> Option<string>, missing: set<string>, n: nat)
    requires 0 < n <= |xs| && key(xs[n - 1]).None?
    ensures Narrowed(xs, key, missing) == None
  {
    assert xs[..n][..n - 1] == xs[..n - 1];
    NarrowedNone(xs, key, missing, n, |xs|);
    assert xs[..|xs|] == xs;
  }

  lemma {:induction false} NarrowedNone<T>(xs: seq<T>, key: T -> Option<string>, missing: set<string>, n: nat, m: nat)
    requires 0 < n <= m <= |xs| && Narrowed(xs[..n], key, missing) == None
    ensures Narrowed(xs[..m], key, missing) == None
    decreases m
  {
    if m > n {
      NarrowedNone(xs, key, missing, n, m - 1);
      assert xs[..m][..m - 1] == xs[..m - 1];
    }
  }

  /** When every key can be built, the filter keeps exactly the elements whose key is missing. */
  lemma {:induction false} NarrowedIff<T>(xs: seq<T>, key: T -> Option<string>, missing: set<string>)
    requires forall x :: x in xs ==> key(x).Some?
    ensures Narrowed(xs, key, missing).Some?
    ensures forall x :: x in Narrowed(xs, key, missing).value <==> x in xs && key(x).value in missing
    decreases |xs|
  {
    if xs != [] {
      var init := xs[..|xs| - 1];
      assert forall x :: x in init ==> x in xs;
      NarrowedIff(init, key, missing);
      assert xs == init + [xs[|xs| - 1]];
    }
  }

  /** Remittances kept by the date filter always have a key. */
  lemma KeysOfInRange(rs: seq<Remittance>, start: string, end: string)
    ensures forall x :: x in InRange(rs, start, end) ==> RemittanceKey(x).Some?
  {
    InRangeParsed(rs, start, end);
  }

  /** On date-filtered remittances the Excel-based filter never raises: it keeps every
      remittance when no key is missing, and otherwise exactly those whose key is missing, none of
      which is among the saved files. */
  lemma TargetsIff(rs: seq<Remittance>, start: string, end: string, excel: set<string>, files: set<string>, x: Remittance)
    ensures var ts := Targets(InRange(rs, start, end), excel - files);
      x in ts <==> x in InRange(rs, start, end) && (excel - files == {} || (RemittanceKey(x).Some? && RemittanceKey(x).value in excel - files))
    ensures var ts := Targets(InRange(rs, start, end), excel - files);
      excel - files != {} && x in ts ==> RemittanceKey(x).value !in files
  {
    KeysOfInRange(rs, start, end);
    if excel - files != {} {
      NarrowedIff(InRange(rs, start, end), RemittanceKey, excel - files);
    }
  }

  /** As written, `download_remittances` returns the list after the Excel-based filter, and `run`
      writes only that list to the summary sheet: as soon as one statement of the sheet lacks its
      file, a remittance in the date range whose key is not missing is left out of the list. */
  lemma ReturnedListOmits(rs: seq<Remittance>, start: string, end: string, missing: set<string>, x: Remittance)
    requires missing != {} && x in InRange(rs, start, end)
    requires RemittanceKey(x).Some? && RemittanceKey(x).value !in missing
    ensures x !in Targets(InRange(rs, start, end), missing)
  {
    KeysOfInRange(rs, start, end);
    NarrowedIff(InRange(rs, start, end), RemittanceKey, missing);
  }

  // ---------------------------------------------------------------------------------------
  // The summary sheet

  /** The header row `요청날짜`, `처리금액`, `지불ID`. */
  const Header: Row := [Some("요청날짜"), Some("처리금액"), Some("지불ID")]

  /** The header row after the check: rewritten in columns A to C unless A1 already reads
      `요청날짜`. */
  function FixedHeader(h: Row): Row {
    if CellAt(h, 0) == Some("요청날짜") then h
    else Header + if |h| > 3 then h[3..] else []
  }

  /** The header check always leaves `요청날짜` in A1, rewrites A1:C1 exactly when A1 holds
      something else (a header already starting with `요청날짜` stays as it is), keeps every column
      past C, and a second check changes nothing. */
  lemma FixedHeaderSound(h: Row)
    ensures CellAt(FixedHeader(h), 0) == Some("요청날짜")
    ensures CellAt(h, 0) != Some("요청날짜") ==> FixedHeader(h)[..3] == Header
    ensures CellAt(h, 0) == Some("요청날짜") ==> FixedHeader(h) == h
    ensures forall j :: j >= 3 ==> CellAt(FixedHeader(h), j) == CellAt(h, j)
    ensures FixedHeader(FixedHeader(h)) == FixedHeader(h)
  {
  }

  /** The header check of `_update_excel_with_remittances`. */
  method FixHeader(sheet: Sheet)
    requires sheet.Valid()
    modifies sheet
    ensures sheet.Valid() && sheet.rows == [FixedHeader(old(sheet.rows[0]))] + old(sheet.rows[1..])
  {
    ghost var h := sheet.rows[0];
    if CellAt(sheet.rows[0], 0) != Some("요청날짜") {
      sheet.SetHeaderCell(0, Some("요청날짜"));
      sheet.SetHeaderCell(1, Some("처리금액"));
      sheet.SetHeaderCell(2, Some("지불ID"));
      assert sheet.rows[0] == FixedHeader(h);
    }
    assert sheet.rows == [sheet.rows[0]] + sheet.rows[1..];
  }

  /** The date written to the sheet: `%Y-%m-%d` when it parses, else the date as given. */
  function SheetDate(date: string): string {
    match IsoDate(date)
    case Some(d) => d
    case None => date
  }

  /** `[date_str, f"{int(amount):,}", payout_id]`. */
  function RowFor(r: Remittance): Row {
    [Some(SheetDate(r.date)), Some(Thousands(Trunc(r.amount))), Some(r.payoutId)]
  }

  /** A row the update writes reads back, in the Excel-based filter, with the remittance's own
      key: the next run does not download its statement again once the file is saved. */
  lemma RowForKey(r: Remittance)
    requires ParseDayMonYear(r.date).Some?
    ensures RecordKey(RowFor(r), 0, 1) == RemittanceKey(r)
  {
    var d := ParseDayMonYear(r.date).value;
    IsoWithoutDashes(d);
    ThousandsReadBack(Trunc(r.amount));
    assert CellAt(RowFor(r), 0) == Some(Iso(d));
    assert CellAt(RowFor(r), 1) == Some(Thousands(Trunc(r.amount)));
  }

  /** `existing_payout_ids`: the `지불ID` values (column C) of the data rows that have one, not
      stripped. */
  function ExistingIds(rows: seq<Row>): set<string> {
    set r | r in rows && Truthy(CellAt(r, 2)) :: CellAt(r, 2).value
  }

  method CollectIds(rows: seq<Row>) returns (ids: set<string>)
    ensures ids == ExistingIds(rows)
  {
    ids := {};
    var i := 0;
    while i < |rows|
      invariant 0 <= i <= |rows| && ids == ExistingIds(rows[..i])
    {
      assert rows[..i + 1] == rows[..i] + [rows[i]];
      if Truthy(CellAt(rows[i], 2)) {
        ids := ids + {CellAt(rows[i], 2).value};
      }
      i := i + 1;
    }
    assert rows[..i] == rows;
  }

  /** The payout id a remittance is appended under. */
  function PayoutId(r: Remittance): string {
    r.payoutId
  }

  /** The rows appended for `xs`, in order: the row of each element whose id is not in `seen`,
      which is never updated. */
  function Added<T>(xs: seq<T>, id: T -> string, row: T -> Row, seen: set<string>): seq<Row>
    decreases |xs|
  {
    if xs == [] then [] else Appended(xs[0], id, row, seen) + Added(xs[1..], id, row, seen)
  }

  /** The row of one element, unless its id was present. */
  function Appended<T>(x: T, id: T -> string, row: T -> Row, seen: set<string>): seq<Row> {
    if id(x) in seen then [] else [row(x)]
  }

  /** The rows appended for `rs` when the ids in `seen` are present before the loop. */
  function NewRows(rs: seq<Remittance>, seen: set<string>): seq<Row> {
    Added(rs, PayoutId, RowFor, seen)
  }

  /** Appending is done element by element, with the same ids throughout. */
  lemma {:induction false} AddedAppend<T>(a: seq<T>, b: seq<T>, id: T -> string, row: T -> Row, seen: set<string>)
    ensures Added(a + b, id, row, seen) == Added(a, id, row, seen) + Added(b, id, row, seen)
    decreases |a|
  {
    if a == [] {
      assert a + b == b;
    } else {
      assert (a + b)[0] == a[0] && (a + b)[1..] == a[1..] + b;
      AddedAppend(a[1..], b, id, row, seen);
    }
  }

  /** Since the ids are not updated, a batch holding every remittance twice appends every new
      row twice (the Booking update appends it once). */
  lemma NewRowsTwice(rs: seq<Remittance>, seen: set<string>)
    ensures NewRows(rs + rs, seen) == NewRows(rs, seen) + NewRows(rs, seen)
  {
    AddedAppend(rs, rs, PayoutId, RowFor, seen);
  }

  /** A row is appended exactly when it is the row of an element whose id was not present. */
  lemma {:induction false} AddedIff<T>(xs: seq<T>, id: T -> string, row: T -> Row, seen: set<string>, r: Row)
    ensures r in Added(xs, id, row, seen) <==> exists x :: x in xs && id(x) !in seen && r == row(x)
    decreases |xs|
  {
    if xs != [] {
      AddedIff(xs[1..], id, row, seen, r);
      assert xs == [xs[0]] + xs[1..];
      if r in Added(xs[1..], id, row, seen) {
        var x :| x in xs[1..] && id(x) !in seen && r == row(x);
        assert x in xs;
      }
    }
  }

  /** A row is appended exactly when it is the row of a remittance whose payout id was not
      present. */
  lemma NewRowsIff(rs: seq<Remittance>, seen: set<string>, row: Row)
    ensures row in NewRows(rs, seen) <==> exists x :: x in rs && x.payoutId !in seen && row == RowFor(x)
  {
    AddedIff(rs, PayoutId, RowFor, seen, row);
  }

  /** `_update_excel_with_remittances` on the `아고다` sheet: check the header, append a row for
      each remittance whose payout id was not present, then sort the data rows by column A,
      latest first. */
  method UpdateRemittances(sheet: Sheet, rs: seq<Remittance>)
    requires sheet.Valid()
    modifies sheet
    ensures sheet.Valid() && sheet.rows[0] == FixedHeader(old(sheet.rows[0]))
    ensures sheet.rows[1..] == SortDesc(old(sheet.rows[1..]) + NewRows(rs, ExistingIds(old(sheet.rows[1..]))))
  {
    FixHeader(sheet);
    var seen := CollectIds(sheet.rows[1..]);
    AppendNew(sheet, rs, PayoutId, RowFor, seen);
    sheet.SortByColumnA();
  }

  /** The append loop: a row for each element whose id is not in `seen`, in order. */
  method AppendNew<T>(sheet: Sheet, xs: seq<T>, id: T -> string, row: T -> Row, seen: set<string>)
    requires sheet.Valid()
    modifies sheet
    ensures sheet.Valid() && sheet.rows[0] == old(sheet.rows[0])
    ensures sheet.rows[1..] == old(sheet.rows[1..]) + Added(xs, id, row, seen)
  {
    ghost var target := sheet.rows[1..] + Added(xs, id, row, seen);
    var i := 0;
    while i < |xs|
      invariant 0 <= i <= |xs| && sheet.Valid() && sheet.rows[0] == old(sheet.rows[0])
      invariant sheet.rows[1..] + Added(xs[i..], id, row, seen) == target
    {
      ghost var before := sheet.rows;
      if id(xs[i]) !in seen {
        sheet.Append(row(xs[i]));
      }
      AppendStep(before, sheet.rows, xs, i, id, row, seen);
      i := i + 1;
    }
    assert xs[i..] == [];
  }

  /** One turn of the append loop keeps what is still to be appended. */
  lemma AppendStep<T>(before: seq<Row>, after: seq<Row>, xs: seq<T>, i: nat, id: T -> string, row: T -> Row, seen: set<string>)
    requires i < |xs| && |before| >= 1
    requires id(xs[i]) !in seen ==> after == before + [row(xs[i])]
    requires id(xs[i]) in seen ==> after == before
    ensures after[1..] + Added(xs[i + 1..], id, row, seen) == before[1..] + Added(xs[i..], id, row, seen)
  {
    assert xs[i..][0] == xs[i] && xs[i..][1..] == xs[i + 1..];
    if id(xs[i]) !in seen {
      AppendData(before, row(xs[i]), Added(xs[i + 1..], id, row, seen));
    }
  }

  /** A data row with a payout id keeps it among the present ids. */
  lemma IdPresent(rows: seq<Row>, row: Row)
    requires row in rows && Truthy(CellAt(row, 2))
    ensures CellAt(row, 2).value in ExistingIds(rows)
  {
  }

  /** After the update every remittance with a payout id has a row with that id, and no row was
      lost. */
  lemma UpdateRecordsAll(data0: seq<Row>, rs: seq<Remittance>, x: Remittance)
    requires x in rs && x.payoutId != ""
    ensures x.payoutId in ExistingIds(SortDesc(data0 + NewRows(rs, ExistingIds(data0))))
  {
    var seen := ExistingIds(data0);
    var all := data0 + NewRows(rs, seen);
    SortDescPermutes(all);
    if x.payoutId in seen {
      var row :| row in data0 && Truthy(CellAt(row, 2)) && CellAt(row, 2).value == x.payoutId;
      assert row in all;
      assert row in multiset(SortDesc(all));
      IdPresent(SortDesc(all), row);
    } else {
      NewRowsIff(rs, seen, RowFor(x));
      assert RowFor(x) in all;
      assert RowFor(x) in multiset(SortDesc(all));
      IdPresent(SortDesc(all), RowFor(x));
    }
  }

  /** Nothing is appended when every id is already present. */
  lemma {:induction false} AddedNone<T>(xs: seq<T>, id: T -> string, row: T -> Row, seen: set<string>)
    requires forall x :: x in xs ==> id(x) in seen
    ensures Added(xs, id, row, seen) == []
    decreases |xs|
  {
    if xs != [] {
      assert forall x :: x in xs[1..] ==> x in xs;
      AddedNone(xs[1..], id, row, seen);
    }
  }

  /** Updating twice with the same remittances, all with payout ids, appends nothing the second
      time. */
  lemma UpdateIdempotent(data0: seq<Row>, rs: seq<Remittance>)
    requires forall x :: x in rs ==> x.payoutId != ""
    ensures var data1 := SortDesc(data0 + NewRows(rs, ExistingIds(data0)));
      NewRows(rs, ExistingIds(data1)) == []
  {
    var data1 := SortDesc(data0 + NewRows(rs, ExistingIds(data0)));
    forall x | x in rs
      ensures x.payoutId in ExistingIds(data1)
    {
      UpdateRecordsAll(data0, rs, x);
    }
    AddedNone(rs, PayoutId, RowFor, ExistingIds(data1));
  }

  // ---------------------------------------------------------------------------------------
  // Default bounds

  /** `datetime.now().replace(year=datetime.now().year - 1)` as written: the same month and day a
      year earlier, or `None` where `replace` raises `ValueError` because that date does not
      exist. */
  function YearEarlierAsWritten(today: Date): Option<Date> {
    var d := Date(today.year - 1, today.month, today.day);
    if Valid(d) then Some(d) else None
  }

  /** The default start date raises exactly on 29 February, so `download_remittances` called
      without a start date fails on that day (the `except` re-raises). */
  lemma LeapDayRaises(today: Date)
    requires Valid(today) && today.year >= 2
    ensures YearEarlierAsWritten(today).None? <==> today.month == 2 && today.day == 29
  {
    if today.month == 2 && today.day == 29 {
      assert today.year % 4 == 0;
      assert (today.year - 1) % 4 == 3;
    }
  }

  /** The default start date as intended: a year before `today`, with 29 February stepping back
      to 28 February. It is always a date, and it is the source's date whenever that one exists. */
  function YearEarlier(today: Date): (r: Date)
    requires Valid(today) && today.year >= 2
    ensures Valid(r) && r.year == today.year - 1
    ensures YearEarlierAsWritten(today).Some? ==> YearEarlierAsWritten(today) == Some(r)
    ensures YearEarlierAsWritten(today).None? ==> r == Date(today.year - 1, 2, 28)
  {
    LeapDayRaises(today);
    if today.month == 2 && today.day == 29 then Date(today.year - 1, 2, 28)
    else Date(today.year - 1, today.month, today.day)
  }

  /** `start_date` as `download_remittances` uses it: the one given, or a year before `today`. */
  function StartOr(start: string, today: Date): string
    requires Valid(today) && today.year >= 2
  {
    if start == "" then Iso(YearEarlier(today)) else start
  }

  /** `end_date` as `download_remittances` uses it: the one given, or `today`. */
  function EndOr(end: string, today: Date): string
    requires Valid(today)
  {
    if end == "" then Iso(today) else end
  }

  // ---------------------------------------------------------------------------------------
  // A whole run

  /** `download_remittances` on the clock's date `today`: resolve the bounds (`""` is a bound not
      given), list the table, keep the remittances in the date range and pick those the
      Excel-based filter selects for download. `listed` is the date-filtered list, the one its
      comments promise to return; `targets` is the list the code returns. */
  method DownloadRemittances(rows: seq<TableRow>, start: string, end: string, today: Date,
                             sheetRows: Option<seq<Row>>, names: seq<string>)
    returns (listed: seq<Remittance>, targets: seq<Remittance>)
    requires Valid(today) && today.year >= 2
    ensures listed == InRange(Remittances(rows), StartOr(start, today), EndOr(end, today))
    ensures targets == Downloads(listed, sheetRows, names)
  {
    var from := start;
    if from == "" {
      from := Iso(YearEarlier(today));
    }
    var to := end;
    if to == "" {
      to := Iso(today);
    }
    var all := ListRemittances(rows);
    listed := FilterByDate(all, from, to);
    targets := ExcelFilter(listed, sheetRows, names);
  }

  /** `run` after the login, with the summary sheet updated from every remittance in the date
      range rather than from the download list. An empty list leaves the sheet alone. */
  method Run(sheet: Sheet, rows: seq<TableRow>, start: string, end: string, today: Date,
             sheetRows: Option<seq<Row>>, names: seq<string>)
    returns (targets: seq<Remittance>)
    requires sheet.Valid() && Valid(today) && today.year >= 2
    modifies sheet
    ensures var listed := InRange(Remittances(rows), StartOr(start, today), EndOr(end, today));
      && targets == Downloads(listed, sheetRows, names)
      && sheet.Valid()
      && (listed == [] ==> sheet.rows == old(sheet.rows))
      && (listed != [] ==> sheet.rows[0] == FixedHeader(old(sheet.rows[0])))
      && (listed != [] ==>
            sheet.rows[1..] == SortDesc(old(sheet.rows[1..]) + NewRows(listed, ExistingIds(old(sheet.rows[1..])))))
  {
    var listed;
    listed, targets := DownloadRemittances(rows, start, end, today, sheetRows, names);
    if listed != [] {
      UpdateRemittances(sheet, listed);
    }
  }
}

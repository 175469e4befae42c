/** The bookkeeping of the Expedia downloader: which statements are paid and in range, which still
    have to be downloaded, the name a downloaded statement is saved under, and the update of the
    `익스피디아` summary sheet. */
module Expedia {
  import opened Text
  import opened Numbers
  import opened Sheets
  import opened Keys

  /** `amountProcessed` as the JSON payload gives it (a missing one is the number 0): a number; a
      string that `int()` accepts, such as `"123"`, which the summary sheet still writes as 0
      because it is neither an `int` nor a `float`; or any other value, on which `int()` raises and
      for which the sheet writes 0. */
  datatype JsonAmount = Num(v: real) | IntText(n: int) | NotNum

  /** `int(amountProcessed)`, or `None` when it raises. */
  function IntOf(a: JsonAmount): Option<int> {
    match a
    case Num(v) => Some(Trunc(v))
    case IntText(n) => Some(n)
    case NotNum => None
  }

  /** A statement of the payload: `paymentRequestId`, `dateRequested`, `datePaid` (`""` when
      missing or null) and `amountProcessed`. */
  datatype Statement = Statement(id: string, dateRequested: string, datePaid: string, amount: JsonAmount)

  // ---------------------------------------------------------------------------------------
  // Filters

  /** `[s for s in statements if s.get('datePaid')]`. */
  function PaidOnly(ss: seq<Statement>): (r: seq<Statement>)
    ensures forall x :: x in r <==> x in ss && x.datePaid != ""
    ensures |r| <= |ss|
    decreases |ss|
  {
    if ss == [] then []
    else (if ss[0].datePaid != "" then [ss[0]] else []) + PaidOnly(ss[1..])
  }

  /** The paid filter keeps the original order: filtering a concatenation is concatenating the
      filtered parts. */
  lemma {:induction false} PaidOnlyAppend(a: seq<Statement>, b: seq<Statement>)
    ensures PaidOnly(a + b) == PaidOnly(a) + PaidOnly(b)
    decreases |a|
  {
    if a == [] {
      assert a + b == b;
    } else {
      assert (a + b)[1..] == a[1..] + b;
      PaidOnlyAppend(a[1..], b);
    }
  }

  /** `date_paid and date_from <= date_paid <= date_to`, compared as strings. */
  predicate Within(s: Statement, from: string, to: string) {
    s.datePaid != "" && LexLessEq(from, s.datePaid) && LexLessEq(s.datePaid, to)
  }

  /** The statements within the range, in order. */
  function InRange(ss: seq<Statement>, from: string, to: string): seq<Statement>
    decreases |ss|
  {
    if ss == [] then []
    else InRange(ss[..|ss| - 1], from, to) + if Within(ss[|ss| - 1], from, to) then [ss[|ss| - 1]] else []
  }

  /** The date-filter loop of `download_statements`. */
  method FilterByDate(ss: seq<Statement>, from: string, to: string) returns (r: seq<Statement>)
    ensures r == InRange(ss, from, to)
  {
    r := [];
    var i := 0;
    while i < |ss|
      invariant 0 <= i <= |ss| && r == InRange(ss[..i], from, to)
    {
      assert ss[..i + 1][..i] == ss[..i];
      if Within(ss[i], from, to) {
        r := r + [ss[i]];
      }
      i := i + 1;
    }
    assert ss[..i] == ss;
  }

  /** A statement is kept exactly when it is paid within the range. */
  lemma {:induction false} InRangeIff(ss: seq<Statement>, from: string, to: string, x: Statement)
    ensures x in InRange(ss, from, to) <==> x in ss && Within(x, from, to)
    decreases |ss|
  {
    if ss != [] {
      var init := ss[..|ss| - 1];
      InRangeIff(init, from, to, x);
      assert ss == init + [ss[|ss| - 1]];
    }
  }

  /** `if payment_ids: [s for s in ... if s.get('paymentRequestId') in payment_ids]`. */
  function ByIds(ss: seq<Statement>, ids: seq<string>): (r: seq<Statement>)
    ensures ids == [] ==> r == ss
    ensures ids != [] ==> forall x :: x in r <==> x in ss && x.id in ids
    decreases |ss|
  {
    if ids == [] || ss == [] then ss
    else (if ss[0].id in ids then [ss[0]] else []) + ByIds(ss[1..], ids)
  }

  // ---------------------------------------------------------------------------------------
  // Keys

  /** `f"{date_paid.replace('-', '')}_{int(amount)}"`; `None` when `int()` raises. */
  function StatementKey(s: Statement): Option<string> {
    match IntOf(s.amount)
    case Some(i) => Some(Delete(s.datePaid, "-") + "_" + IntStr(i))
    case None => None
  }

  // ---------------------------------------------------------------------------------------
  // Selection

  /** The statements whose key is not among the saved files, in order; `None` when a key cannot be
      built. */
  function Selected(ss: seq<Statement>, fileKeys: set<string>): Option<seq<Statement>>
    decreases |ss|
  {
    if ss == [] then Some([])
    else
      match Selected(ss[..|ss| - 1], fileKeys)
      case None => None
      case Some(r) =>
        match StatementKey(ss[|ss| - 1])
        case None => None
        case Some(k) => Some(if k !in fileKeys then r + [ss[|ss| - 1]] else r)
  }

  /** Python's `xs[:n]`. */
  function Take<T>(xs: seq<T>, n: nat): (r: seq<T>)
    ensures |r| == if n <= |xs| then n else |xs|
    ensures r == xs[..|r|]
  {
    if n <= |xs| then xs[..n] else xs
  }

  /** The selection loop of `download_statements` and its `limit` (0 or absent: no limit). A
      statement is taken when its key is in `missing_from_excel`, or else when it is not in
      `existing_files`. */
  method SelectDownloads(filtered: seq<Statement>, excelKeys: set<string>, fileKeys: set<string>, limit: nat)
    returns (r: Option<seq<Statement>>)
    ensures r == match Selected(filtered, fileKeys)
      case None => None
      case Some(sel) => Some(if limit == 0 then sel else Take(sel, limit))
  {
    var missing := excelKeys - fileKeys;
    var out: seq<Statement> := [];
    var i := 0;
    while i < |filtered|
      invariant 0 <= i <= |filtered| && Selected(filtered[..i], fileKeys) == Some(out)
    {
      var s := filtered[i];
      var amount := IntOf(s.amount);
      if amount.None? {
        SelectedStuck(filtered, fileKeys, i + 1);
        return None;
      }
      var key := Delete(s.datePaid, "-") + "_" + IntStr(amount.value);
      SelectStep(filtered, fileKeys, i, out);
      if key in missing {
        out := out + [s];
      } else if key !in fileKeys {
        out := out + [s];
      }
      i := i + 1;
    }
    assert filtered[..i] == filtered;
    if limit != 0 {
      out := Take(out, limit);
    }
    return Some(out);
  }

  /** One turn of the selection loop: a statement with a key is taken exactly when its key is not
      among the saved files. */
  lemma SelectStep(ss: seq<Statement>, fileKeys: set<string>, i: nat, out: seq<Statement>)
    requires i < |ss| && !ss[i].amount.NotNum? && Selected(ss[..i], fileKeys) == Some(out)
    ensures Selected(ss[..i + 1], fileKeys) ==
      Some(if StatementKey(ss[i]).value !in fileKeys then out + [ss[i]] else out)
  {
    assert ss[..i + 1][..i] == ss[..i];
  }

  /** Once a key cannot be built, the whole selection fails. */
  lemma SelectedStuck(ss: seq<Statement>, fileKeys: set<string>, n: nat)
    requires 0 < n <= |ss| && ss[n - 1].amount.NotNum?
    ensures Selected(ss[..n], fileKeys) == None
    ensures forall m :: n <= m <= |ss| ==> Selected(ss[..m], fileKeys) == None
  {
    forall m | n <= m <= |ss| ensures Selected(ss[..m], fileKeys) == None {
      assert ss[..m][n - 1] == ss[n - 1];
      SelectedIff(ss[..m], fileKeys);
    }
  }

  /** The selection takes exactly the statements whose key is not among the saved files, and fails
      exactly when some amount is not a number. */
  lemma {:induction false} SelectedIff(ss: seq<Statement>, fileKeys: set<string>)
    ensures Selected(ss, fileKeys).None? <==> exists k :: 0 <= k < |ss| && ss[k].amount.NotNum?
    ensures Selected(ss, fileKeys).Some? ==>
      forall x :: x in Selected(ss, fileKeys).value <==> x in ss && StatementKey(x).value !in fileKeys
    decreases |ss|
  {
    if ss != [] {
      var init := ss[..|ss| - 1];
      SelectedIff(init, fileKeys);
      assert ss == init + [ss[|ss| - 1]];
      assert forall k :: 0 <= k < |init| ==> init[k] == ss[k];
    }
  }

  /** Keys in `missing_from_excel` are never in `existing_files`, so the first branch of the
      selection never takes a statement the second would not. */
  lemma MissingNotSaved(excelKeys: set<string>, fileKeys: set<string>, key: string)
    requires key in excelKeys - fileKeys
    ensures key !in fileKeys
  {
  }

  // ---------------------------------------------------------------------------------------
  // The saved file name

  /** `'.csv' if source_ext.lower() in {'.txt', ''} else source_ext`. */
  function TargetExt(ext: string): string {
    if Lower(ext) == ".txt" || ext == "" then ".csv" else ext
  }

  /** `익스피디아_{date_paid}_{amount}{target_ext}`; `None` when `datePaid` without dashes is empty
      (the statement is skipped). `int(amount)` runs first, so it has succeeded here. */
  function SavedName(s: Statement, ext: string): (r: Option<string>)
    requires !s.amount.NotNum?
    ensures r.Some? <==> Delete(s.datePaid, "-") != ""
  {
    var d := Delete(s.datePaid, "-");
    if d == "" then None else Some("익스피디아_" + d + "_" + IntStr(IntOf(s.amount).value) + TargetExt(ext))
  }

  /** What `Path.suffix` gives: empty, or a dot followed by at least one character and no dot. */
  predicate IsSuffix(ext: string) {
    ext == "" || (|ext| >= 2 && ext[0] == '.' && '.' !in ext[1..])
  }

  /** The extension a statement is saved with is always a proper suffix. */
  lemma TargetExtSuffix(ext: string)
    requires IsSuffix(ext)
    ensures var t := TargetExt(ext); |t| >= 2 && t[0] == '.' && '.' !in t[1..]
  {
    var csv := ".csv";
    assert csv[1..] == "csv";
  }

  /** A statement saved under its file name is recognised as saved: the key read back from the
      name is the statement's own key, as long as the date holds no `_` or `.`. */
  lemma SavedNameRecognised(s: Statement, ext: string)
    requires !s.amount.NotNum? && SavedName(s, ext).Some? && IsSuffix(ext)
    requires '_' !in s.datePaid && '.' !in s.datePaid
    ensures FileKey(SavedName(s, ext).value) == StatementKey(s)
  {
    DeleteNoNew(s.datePaid, "-", '_');
    DeleteNoNew(s.datePaid, "-", '.');
    IntStrClean(IntOf(s.amount).value);
    TargetExtSuffix(ext);
    var d, a, t := Delete(s.datePaid, "-"), IntStr(IntOf(s.amount).value), TargetExt(ext);
    assert "익스피디아_" + d + "_" + a + t == "익스피디아" + "_" + d + "_" + a + t;
    NameKey("익스피디아", d, a, t);
  }

  // ---------------------------------------------------------------------------------------
  // The summary sheet

  /** `f"{int(amount):,}"` for a number, `"0"` otherwise (a string `int()` accepts included). */
  function AmountText(a: JsonAmount): string {
    match a
    case Num(v) => Thousands(Trunc(v))
    case IntText(_) => Thousands(0)
    case NotNum => Thousands(0)
  }

  /** `[date_requested, payment_id, date_paid, amount_formatted]`. */
  function RowFor(s: Statement): Row {
    [Some(s.dateRequested), Some(Strip(s.id)), Some(s.datePaid), Some(AmountText(s.amount))]
  }

  /** A row the summary update writes reads back with the statement's own key. */
  lemma RowForKey(s: Statement)
    requires s.amount.Num? && s.datePaid != ""
    ensures RecordKey(RowFor(s), 2, 3) == StatementKey(s)
  {
    ThousandsReadBack(Trunc(s.amount.v));
    assert CellAt(RowFor(s), 2) == Some(s.datePaid);
    assert CellAt(RowFor(s), 3) == Some(Thousands(Trunc(s.amount.v)));
  }

  /** A string amount that `int()` accepts is saved under its own value but written to the sheet as
      0, so its row reads back with the amount 0, and not with the statement's key unless that
      amount is 0 as well. */
  lemma RowForTextKey(s: Statement)
    requires s.amount.IntText? && s.datePaid != ""
    ensures RecordKey(RowFor(s), 2, 3) == Some(Delete(s.datePaid, "-") + "_" + IntStr(0))
    ensures RecordKey(RowFor(s), 2, 3) == StatementKey(s) <==> s.amount.n == 0
  {
    ThousandsReadBack(0);
    assert CellAt(RowFor(s), 2) == Some(s.datePaid);
    assert CellAt(RowFor(s), 3) == Some(Thousands(0));
    var d := Delete(s.datePaid, "-") + "_";
    if IntStr(s.amount.n) == IntStr(0) {
      ParseFloatIntStr(s.amount.n);
      ParseFloatIntStr(0);
    }
    if d + IntStr(s.amount.n) == d + IntStr(0) {
      assert (d + IntStr(s.amount.n))[|d|..] == IntStr(s.amount.n);
      assert (d + IntStr(0))[|d|..] == IntStr(0);
    }
  }

  /** `existing_payment_ids`: the stripped `지불ID` (column B) of the data rows that have one. */
  function ExistingIds(rows: seq<Row>): set<string> {
    set i | 0 <= i < |rows| && Truthy(CellAt(rows[i], 1)) :: Strip(CellAt(rows[i], 1).value)
  }

  method CollectIds(rows: seq<Row>) returns (ids: set<string>)
    ensures ids == ExistingIds(rows)
  {
    ids := {};
    var i := 0;
    while i < |rows|
      invariant 0 <= i <= |rows|
      invariant ids == set j | 0 <= j < i && Truthy(CellAt(rows[j], 1)) :: Strip(CellAt(rows[j], 1).value)
    {
      if Truthy(CellAt(rows[i], 1)) {
        ids := ids + {Strip(CellAt(rows[i], 1).value)};
      }
      i := i + 1;
    }
  }

  /** The rows appended for `ss` when the ids in `seen` are already present; each appended id
      joins `seen`. */
  function NewRows(ss: seq<Statement>, seen: set<string>): seq<Row>
    decreases |ss|
  {
    if ss == [] then []
    else
      var id := Strip(ss[0].id);
      if id == "" || id in seen then NewRows(ss[1..], seen)
      else [RowFor(ss[0])] + NewRows(ss[1..], seen + {id})
  }

  /** The `지불ID` cell of a written row is the stripped id. */
  lemma RowForId(x: Statement)
    ensures CellAt(RowFor(x), 1) == Some(Strip(x.id))
  {
  }

  /** Every appended row has a non-empty id that was not present, and no id is appended twice. */
  lemma {:induction false} NewRowsFresh(ss: seq<Statement>, seen: set<string>)
    ensures FreshIds(NewRows(ss, seen), 1, seen)
    decreases |ss|
  {
    if ss != [] {
      var id := Strip(ss[0].id);
      if id == "" || id in seen {
        NewRowsFresh(ss[1..], seen);
      } else {
        var rest := NewRows(ss[1..], seen + {id});
        NewRowsFresh(ss[1..], seen + {id});
        RowForId(ss[0]);
        FreshCons(RowFor(ss[0]), rest, 1, id, seen);
      }
    }
  }

  /** Every appended row is the row of one of the statements. */
  lemma {:induction false} NewRowsFrom(ss: seq<Statement>, seen: set<string>)
    ensures forall r :: r in NewRows(ss, seen) ==> exists x :: x in ss && r == RowFor(x)
    decreases |ss|
  {
    if ss != [] {
      var id := Strip(ss[0].id);
      var seen' := if id == "" || id in seen then seen else seen + {id};
      NewRowsFrom(ss[1..], seen');
      assert forall x :: x in ss[1..] ==> x in ss;
    }
  }

  /** Every statement with a non-empty id not yet present gets a row with that id. */
  lemma NewRowsComplete(ss: seq<Statement>, seen: set<string>, x: Statement)
    requires x in ss && Strip(x.id) != "" && Strip(x.id) !in seen
    ensures exists k :: 0 <= k < |NewRows(ss, seen)| && CellAt(NewRows(ss, seen)[k], 1) == Some(Strip(x.id))
  {
    var i :| 0 <= i < |ss| && ss[i] == x;
    NewRowsHasId(ss, seen, Strip(x.id), i);
  }

  /** Some row carries `id` in its `지불ID` cell. */
  predicate HasId(rows: seq<Row>, id: string) {
    exists k :: 0 <= k < |rows| && CellAt(rows[k], 1) == Some(id)
  }

  /** The statement at `i`, with a non-empty id not yet present, gets a row with that id. */
  lemma {:induction false} NewRowsHasId(ss: seq<Statement>, seen: set<string>, id: string, i: nat)
    requires i < |ss| && Strip(ss[i].id) == id && id != "" && id !in seen
    ensures HasId(NewRows(ss, seen), id)
    decreases i
  {
    var first := Strip(ss[0].id);
    var isNew := first != "" && first !in seen;
    var seen' := if isNew then seen + {first} else seen;
    var rest := NewRows(ss[1..], seen');
    var head := if isNew then [RowFor(ss[0])] else [];
    assert NewRows(ss, seen) == head + rest;
    if isNew && first == id {
      RowForId(ss[0]);
      assert CellAt((head + rest)[0], 1) == Some(id);
    } else {
      assert ss[1..][i - 1] == ss[i];
      NewRowsHasId(ss[1..], seen', id, i - 1);
      var k :| 0 <= k < |rest| && CellAt(rest[k], 1) == Some(id);
      assert (head + rest)[|head| + k] == rest[k];
    }
  }

  /** One statement of the append loop. */
  lemma NewRowsUnfold(ss: seq<Statement>, i: nat, seen: set<string>)
    requires i < |ss|
    ensures NewRows(ss[i..], seen) ==
      var id := Strip(ss[i].id);
      if id == "" || id in seen then NewRows(ss[i + 1..], seen)
      else [RowFor(ss[i])] + NewRows(ss[i + 1..], seen + {id})
  {
    assert ss[i..][0] == ss[i] && ss[i..][1..] == ss[i + 1..];
  }

  /** `_update_excel_with_statements` on the `익스피디아` sheet: append a row for each statement with
      a new id, then sort the data rows latest `요청날짜` first. */
  method UpdateStatements(sheet: Sheet, ss: seq<Statement>)
    requires sheet.Valid()
    modifies sheet
    ensures sheet.Valid() && sheet.rows[0] == old(sheet.rows[0])
    ensures sheet.rows[1..] == SortDesc(old(sheet.rows[1..]) + NewRows(ss, ExistingIds(old(sheet.rows[1..]))))
  {
    ghost var data0 := sheet.rows[1..];
    var seen := CollectIds(sheet.rows[1..]);
    ghost var target := data0 + NewRows(ss, seen);
    var i := 0;
    while i < |ss|
      invariant 0 <= i <= |ss| && sheet.Valid() && sheet.rows[0] == old(sheet.rows[0])
      invariant sheet.rows[1..] + NewRows(ss[i..], seen) == target
    {
      ghost var before := sheet.rows;
      var id := Strip(ss[i].id);
      var isNew := id != "" && id !in seen;
      ghost var rest := NewRows(ss[i + 1..], if isNew then seen + {id} else seen);
      NewRowsUnfold(ss, i, seen);
      if isNew {
        sheet.Append(RowFor(ss[i]));
        AppendData(before, RowFor(ss[i]), rest);
        seen := seen + {id};
      }
      i := i + 1;
    }
    assert ss[i..] == [];
    assert sheet.rows[1..] == target;
    sheet.SortByColumnA();
  }

  /** After the update the data rows are sorted latest first and are the old rows and the new ones,
      each exactly once. */
  lemma UpdateSortedPermutation(old0: seq<Row>, ss: seq<Statement>)
    ensures SortedDesc(SortDesc(old0 + NewRows(ss, ExistingIds(old0))))
    ensures multiset(SortDesc(old0 + NewRows(ss, ExistingIds(old0)))) == multiset(old0) + multiset(NewRows(ss, ExistingIds(old0)))
  {
    SortDescSorted(old0 + NewRows(ss, ExistingIds(old0)));
    SortDescPermutes(old0 + NewRows(ss, ExistingIds(old0)));
  }

  // ---------------------------------------------------------------------------------------
  // A whole run

  /** What `get_statement_list` hands to `download_statements`: the paid statements of the
      payload, or, when the payload has no statement list, its invoices. Invoices carry no
      `datePaid`, so only how many there are matters here. */
  datatype Listing = Paid(statements: seq<Statement>) | Invoices(count: nat)

  /** `if not statements: return 0`. */
  predicate EmptyListing(l: Listing) {
    match l
    case Paid(ss) => ss == []
    case Invoices(n) => n == 0
  }

  /** The statements left after the date filter and the id filter. Every invoice fails the
      `datePaid` test of the date filter. */
  function Filtered(l: Listing, from: string, to: string, ids: seq<string>): seq<Statement> {
    match l
    case Paid(ss) => ByIds(InRange(ss, from, to), ids)
    case Invoices(_) => []
  }

  /** `download_statements` from the listing on, with the Excel rows and the names of the
      saved `익스피디아_*` files. An empty listing returns at once. Otherwise the statements in the
      date range (and among `ids` when some are given) are selected for download, and the summary
      sheet is updated from all of them, selected or not; an invoice-only listing selects nothing
      and still re-sorts the sheet. `None` is the `int()` that raises in the selection, which
      leaves before the sheet is touched. */
  method DownloadStatements(sheet: Sheet, listing: Listing, from: string, to: string, ids: seq<string>,
                            sheetRows: Option<seq<Row>>, names: seq<string>, limit: nat)
    returns (selected: Option<seq<Statement>>)
    requires sheet.Valid()
    modifies sheet
    ensures sheet.Valid()
    ensures EmptyListing(listing) ==> selected == Some([]) && sheet.rows == old(sheet.rows)
    ensures listing.Invoices? && !EmptyListing(listing) ==>
      selected == Some([]) && sheet.rows == [old(sheet.rows[0])] + SortDesc(old(sheet.rows[1..]))
    ensures var filtered := Filtered(listing, from, to, ids);
      !EmptyListing(listing) ==>
        && selected == (match Selected(filtered, FileKeys(names))
                        case None => None
                        case Some(sel) => Some(if limit == 0 then sel else Take(sel, limit)))
        && (selected.None? ==> sheet.rows == old(sheet.rows))
        && (selected.Some? ==> sheet.rows[0] == old(sheet.rows[0]))
        && (selected.Some? ==>
              sheet.rows[1..] == SortDesc(old(sheet.rows[1..]) + NewRows(filtered, ExistingIds(old(sheet.rows[1..])))))
  {
    if EmptyListing(listing) {
      return Some([]);
    }
    var filtered: seq<Statement> := [];
    if listing.Paid? {
      var inRange := FilterByDate(listing.statements, from, to);
      filtered := ByIds(inRange, ids);
    }
    var excel: set<string> := {};
    if sheetRows.Some? {
      excel := CollectRecordKeys(sheetRows.value, 2, 3);
    }
    var files := CollectFileKeys(names);
    selected := SelectDownloads(filtered, excel, files, limit);
    if selected.Some? {
      UpdateStatements(sheet, filtered);
    }
    if listing.Invoices? {
      assert old(sheet.rows[1..]) + [] == old(sheet.rows[1..]);
      assert sheet.rows == [sheet.rows[0]] + sheet.rows[1..];
    }
  }
}

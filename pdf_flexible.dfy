/** The flexible scanner over the lines of a Booking.com statement PDF: after each `예약` line
    followed by a reference number, it looks ahead at most thirteen lines for a guest name and a
    `KRW` line whose next line is the amount. */
module PdfFlexible {
  import opened Text
  import opened Numbers
  import opened PdfLines

  // ---------------------------------------------------------------------------------------
  // Lines

  predicate IsHangul(c: char) {
    '가' <= c <= '힣'
  }

  predicate IsUpper(c: char) {
    'A' <= c <= 'Z'
  }

  predicate IsNameChar(c: char) {
    IsUpper(c) || ('a' <= c <= 'z') || IsHangul(c) || c == ' '
  }

  /** `[A-Z가-힣][A-Za-z가-힣 ]+` over the whole of `s`. */
  predicate NameBody(s: string) {
    |s| >= 2 && (IsUpper(s[0]) || IsHangul(s[0])) && forall k :: 1 <= k < |s| ==> IsNameChar(s[k])
  }

  /** `re.match(r'^[A-Z가-힣][A-Za-z가-힣 ]+$', s)`: `$` also matches before a final line break. */
  predicate NameLike(s: string) {
    NameBody(s) || (|s| >= 1 && s[|s| - 1] == '\n' && NameBody(s[..|s| - 1]))
  }

  /** The line `KRW` itself looks like a name. */
  lemma KrwIsName()
    ensures NameLike("KRW")
  {
    var krw := "KRW";
    assert IsNameChar(krw[1]) && IsNameChar(krw[2]);
  }

  /** A trigger at `i`: `예약` followed by a line starting with ten digits. */
  predicate Trigger(lines: seq<string>, i: nat)
    requires i < |lines|
  {
    lines[i] == "예약" && i + 1 < |lines| && StartsWithReference(lines[i + 1])
  }

  // ---------------------------------------------------------------------------------------
  // The lookahead

  /** What the inner loop ends with: the name last seen, and the position of the `KRW` line it
      stopped at, if any. */
  datatype Look = Look(name: Option<string>, hit: Option<nat>)

  /** The name after looking at `line`. */
  function NameAfter(line: string, name: Option<string>): Option<string> {
    if NameLike(line) then Some(line) else name
  }

  /** The inner loop from `j` up to `stop`, with `name` seen so far: it stops at the first `KRW`
      line that has a next line. */
  function LookFrom(lines: seq<string>, j: nat, stop: nat, name: Option<string>): (r: Look)
    requires stop <= |lines|
    ensures r.hit.Some? ==> j <= r.hit.value < stop && lines[r.hit.value] == "KRW" && r.hit.value + 1 < |lines|
    ensures r.hit.Some? ==> forall h :: j <= h < r.hit.value ==> !(lines[h] == "KRW" && h + 1 < |lines|)
    ensures r.hit.None? ==> forall h :: j <= h < stop ==> !(lines[h] == "KRW" && h + 1 < |lines|)
    decreases stop - j
  {
    if j >= stop then Look(name, None)
    else if lines[j] == "KRW" && j + 1 < |lines| then Look(NameAfter(lines[j], name), Some(j))
    else LookFrom(lines, j + 1, stop, NameAfter(lines[j], name))
  }

  /** The quirk: the `KRW` line is matched against the name pattern before it stops the lookahead, so whenever
      an amount is found the name is `KRW`. */
  lemma {:induction false} LookName(lines: seq<string>, j: nat, stop: nat, name: Option<string>)
    requires stop <= |lines| && LookFrom(lines, j, stop, name).hit.Some?
    ensures LookFrom(lines, j, stop, name).name == Some("KRW")
    decreases stop - j
  {
    if lines[j] == "KRW" && j + 1 < |lines| {
      KrwIsName();
    } else {
      LookName(lines, j + 1, stop, NameAfter(lines[j], name));
    }
  }

  // ---------------------------------------------------------------------------------------
  // The scan

  /** The end of the lookahead after a trigger at `i`: `min(i + 15, len(lines))`. */
  function Stop(lines: seq<string>, i: nat): (stop: nat)
    ensures stop <= |lines|
  {
    if i + 15 < |lines| then i + 15 else |lines|
  }

  /** The amount of the lookahead after a trigger at `i`: the line after `KRW`, without commas. */
  function AmountAfter(lines: seq<string>, i: nat): Option<string> {
    match LookFrom(lines, i + 2, Stop(lines, i), None).hit
    case Some(h) => Some(Delete(lines[h + 1], ","))
    case None => None
  }

  /** Where the scan goes on after a trigger at `i`: two lines past the `KRW` line when a
      non-empty amount was found, else two lines past the trigger. */
  function Next(lines: seq<string>, i: nat): (n: nat)
    ensures n >= i + 2
  {
    var a := AmountAfter(lines, i);
    if a.Some? && a.value != "" then LookFrom(lines, i + 2, Stop(lines, i), None).hit.value + 2 else i + 2
  }

  /** The entry of a trigger at `i`, when both name and amount are non-empty. */
  function EntryOf(lines: seq<string>, i: nat): seq<Entry>
    requires i + 1 < |lines|
  {
    var name := LookFrom(lines, i + 2, Stop(lines, i), None).name;
    var amount := AmountAfter(lines, i);
    if name.Some? && name.value != "" && amount.Some? && amount.value != "" then
      [Entry(lines[i + 1], name.value, amount.value)]
    else []
  }

  /** The entries found from line `i` on, in trigger order. */
  function Scan(lines: seq<string>, i: nat): seq<Entry>
    decreases |lines| - i
  {
    if i >= |lines| then []
    else if Trigger(lines, i) then EntryOf(lines, i) + Scan(lines, Next(lines, i))
    else Scan(lines, i + 1)
  }

  /** The `while` loop of the script. */
  method ScanBookings(lines: seq<string>) returns (results: seq<Entry>)
    ensures results == Scan(lines, 0)
  {
    results := [];
    var i := 0;
    while i < |lines|
      invariant results + Scan(lines, i) == Scan(lines, 0)
      decreases |lines| - i
    {
      if lines[i] == "예약" && i + 1 < |lines| && StartsWithReference(lines[i + 1]) {
        var reference := lines[i + 1];
        var name, amount, j := LookAhead(lines, i);
        ScanStep(lines, i, j, name, amount);
        if name.Some? && name.value != "" && amount.Some? && amount.value != "" {
          results := results + [Entry(reference, name.value, amount.value)];
        }
        i := if amount.Some? && amount.value != "" then j + 2 else i + 2;
      } else {
        i := i + 1;
      }
    }
  }

  /** The inner `for` loop after a trigger at `i`: the name last seen, the amount after the first
      `KRW` line, and where that line is. */
  method LookAhead(lines: seq<string>, i: nat) returns (name: Option<string>, amount: Option<string>, j: nat)
    ensures amount.Some? ==> LookFrom(lines, i + 2, Stop(lines, i), None) == Look(name, Some(j))
    ensures amount.Some? ==> j + 1 < |lines| && amount.value == Delete(lines[j + 1], ",")
    ensures amount.None? ==> LookFrom(lines, i + 2, Stop(lines, i), None) == Look(name, None)
  {
    name, amount := None, None;
    var stop := if i + 15 < |lines| then i + 15 else |lines|;
    j := i + 2;
    while j < stop
      invariant i + 2 <= j && (i + 2 <= stop ==> j <= stop)
      invariant LookFrom(lines, i + 2, stop, None) == LookFrom(lines, j, stop, name)
    {
      if NameLike(lines[j]) {
        name := Some(lines[j]);
      }
      if lines[j] == "KRW" && j + 1 < |lines| {
        amount := Some(Delete(lines[j + 1], ","));
        return;
      }
      j := j + 1;
    }
  }

  /** The state the inner loop ends in determines the entry and the next position. */
  lemma ScanStep(lines: seq<string>, i: nat, j: nat, name: Option<string>, amount: Option<string>)
    requires i < |lines| && Trigger(lines, i)
    requires amount.Some? ==> LookFrom(lines, i + 2, Stop(lines, i), None) == Look(name, Some(j))
    requires amount.Some? ==> j + 1 < |lines| && amount.value == Delete(lines[j + 1], ",")
    requires amount.None? ==> LookFrom(lines, i + 2, Stop(lines, i), None) == Look(name, None)
    ensures Scan(lines, i) ==
      (if name.Some? && name.value != "" && amount.Some? && amount.value != "" then
         [Entry(lines[i + 1], name.value, amount.value)] else [])
      + Scan(lines, if amount.Some? && amount.value != "" then j + 2 else i + 2)
  {
  }

  // ---------------------------------------------------------------------------------------
  // Properties

  /** Every entry comes from a trigger at or after `i`, is named `KRW`, and has a non-empty amount
      without commas. */
  lemma {:induction false} ScanEntries(lines: seq<string>, i: nat, e: Entry)
    requires e in Scan(lines, i)
    ensures e.name == "KRW" && e.amount != "" && ',' !in e.amount
    ensures exists k :: i <= k < |lines| && Trigger(lines, k) && e.reference == lines[k + 1]
    decreases |lines| - i
  {
    if Trigger(lines, i) {
      if e in EntryOf(lines, i) {
        LookName(lines, i + 2, Stop(lines, i), None);
        var h := LookFrom(lines, i + 2, Stop(lines, i), None).hit.value;
        DeleteCharGone(lines[h + 1], ',');
      } else {
        ScanEntries(lines, Next(lines, i), e);
      }
    } else {
      ScanEntries(lines, i + 1, e);
    }
  }

  /** A trigger whose lookahead finds a `KRW` line followed by a non-empty amount gives an entry. */
  lemma TriggerFound(lines: seq<string>, i: nat)
    requires i < |lines| && Trigger(lines, i)
    requires AmountAfter(lines, i).Some? && AmountAfter(lines, i).value != ""
    ensures Scan(lines, i) == [Entry(lines[i + 1], "KRW", AmountAfter(lines, i).value)] + Scan(lines, Next(lines, i))
  {
    LookName(lines, i + 2, Stop(lines, i), None);
  }
}

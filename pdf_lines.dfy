/** The fixed-window scanner over the lines of a Booking.com statement PDF: the text is cut into
    trimmed non-blank lines, and every window of eight lines of the expected shape gives one
    reservation (reference number, guest name, amount). */
module PdfLines {
  import opened Text
  import opened Numbers
  import opened Lists

  /** One reservation found in the text: reference number, guest name and amount text. */
  datatype Entry = Entry(reference: string, name: string, amount: string)

  // ---------------------------------------------------------------------------------------
  // Preprocessing

  /** A line as `line.strip()` leaves it, when anything is left. */
  function NonBlank(line: string): Option<string> {
    var t := Strip(line);
    if t != "" then Some(t) else None
  }

  /** `[line.strip() for line in text.split('\n') if line.strip()]`. */
  function Preprocess(text: string): seq<string> {
    Collect(Split(text, '\n'), NonBlank)
  }

  /** Every preprocessed line is non-empty, holds no line break, and has no whitespace at either
      end; each is the trimmed form of a line of the text. */
  lemma PreprocessClean(text: string, line: string)
    requires line in Preprocess(text)
    ensures line != "" && Strip(line) == line && '\n' !in line
    ensures exists k :: 0 <= k < |Split(text, '\n')| && line == Strip(Split(text, '\n')[k])
  {
    var parts := Split(text, '\n');
    CollectIff(parts, NonBlank, line);
    var k :| 0 <= k < |parts| && NonBlank(parts[k]) == Some(line);
    StripIdempotent(parts[k]);
    assert '\n' !in parts[k];
    StripIn(parts[k], '\n');
  }

  /** Stripping never brings in a character. */
  lemma StripIn(s: string, c: char)
    requires c !in s
    ensures c !in Strip(s)
  {
    StripSub(s);
  }

  /** The strip of `s` is a slice of `s`. */
  lemma StripSub(s: string)
    ensures exists a, b :: 0 <= a <= b <= |s| && Strip(s) == s[a..b]
  {
    var l := StripLeft(s);
    var r := StripRight(l);
    StripLeftSuffix(s);
    StripRightPrefix(l);
    assert l == s[|s| - |l|..];
    assert r == l[..|r|];
    assert r == s[|s| - |l|..|s| - |l| + |r|];
  }

  // ---------------------------------------------------------------------------------------
  // The window scanner

  /** `re.match(r'\d{10}', s)`: the line starts with ten digits. */
  predicate StartsWithReference(s: string) {
    |s| >= 10 && AllDigits(s[..10])
  }

  /** `re.match(r'[\d,]+\.?\d*', s)`: the line starts with a digit or a comma. */
  predicate StartsWithAmount(s: string) {
    |s| >= 1 && (IsDigit(s[0]) || s[0] == ',')
  }

  /** The window at `i`: `예약`, a reference number, `예약`, three more lines, a line holding
      `KRW`, and an amount. */
  predicate WindowMatches(lines: seq<string>, i: nat)
    requires i + 7 < |lines|
  {
    && lines[i] == "예약"
    && StartsWithReference(lines[i + 1])
    && lines[i + 2] == "예약"
    && Contains(lines[i + 6], "KRW")
    && StartsWithAmount(lines[i + 7])
  }

  /** The entry of the window at `i`: the reference, the sixth line, the amount without commas. */
  function EntryAt(lines: seq<string>, i: nat): Entry
    requires i + 7 < |lines|
  {
    Entry(lines[i + 1], lines[i + 5], Delete(lines[i + 7], ","))
  }

  /** The number of windows, `len(range(len(lines) - 7))`. */
  function WindowCount(lines: seq<string>): nat {
    if |lines| > 7 then |lines| - 7 else 0
  }

  /** The entries of the first `n` windows, in window order. */
  function Entries(lines: seq<string>, n: nat): seq<Entry>
    requires n <= WindowCount(lines)
  {
    if n == 0 then [] else Entries(lines, n - 1) + Found(lines, n - 1)
  }

  /** The entry of the window at `i`, if it matches. */
  function Found(lines: seq<string>, i: nat): seq<Entry>
    requires i + 7 < |lines|
  {
    if WindowMatches(lines, i) then [EntryAt(lines, i)] else []
  }

  /** `find_booking_entries`. */
  method FindBookingEntries(lines: seq<string>) returns (results: seq<Entry>)
    ensures results == Entries(lines, WindowCount(lines))
  {
    results := [];
    var i := 0;
    while i < |lines| - 7
      invariant 0 <= i && (|lines| > 7 ==> i <= |lines| - 7)
      invariant i <= WindowCount(lines) && results == Entries(lines, i)
    {
      if WindowMatches(lines, i) {
        results := results + [EntryAt(lines, i)];
      }
      i := i + 1;
    }
  }

  /** The entries are those of the matching windows, in increasing window order: `idx` gives the
      window of each entry. */
  lemma {:induction false} EntriesIndexed(lines: seq<string>, n: nat) returns (idx: seq<nat>)
    requires n <= WindowCount(lines)
    ensures |idx| == |Entries(lines, n)|
    ensures forall k :: 0 <= k < |idx| ==> idx[k] < n && WindowMatches(lines, idx[k])
    ensures forall k :: 0 <= k < |idx| ==> Entries(lines, n)[k] == EntryAt(lines, idx[k])
    ensures forall k, l :: 0 <= k < l < |idx| ==> idx[k] < idx[l]
  {
    if n == 0 {
      idx := [];
    } else {
      var prev := EntriesIndexed(lines, n - 1);
      var before := Entries(lines, n - 1);
      if WindowMatches(lines, n - 1) {
        idx := prev + [n - 1];
        assert Entries(lines, n) == before + [EntryAt(lines, n - 1)];
      } else {
        idx := prev;
        assert Entries(lines, n) == before;
      }
    }
  }

  /** Every matching window gives an entry. */
  lemma {:induction false} EntriesComplete(lines: seq<string>, n: nat, i: nat)
    requires n <= WindowCount(lines) && i < n && WindowMatches(lines, i)
    ensures EntryAt(lines, i) in Entries(lines, n)
  {
    if i < n - 1 {
      EntriesComplete(lines, n - 1, i);
    }
  }

  /** There are never more entries than windows. */
  lemma {:induction false} EntriesCount(lines: seq<string>, n: nat)
    requires n <= WindowCount(lines)
    ensures |Entries(lines, n)| <= n
  {
    if n > 0 {
      EntriesCount(lines, n - 1);
    }
  }

  /** Every entry has a reference starting with ten digits and an amount without commas. */
  lemma EntryShape(lines: seq<string>, i: nat)
    requires i + 7 < |lines| && WindowMatches(lines, i)
    ensures StartsWithReference(EntryAt(lines, i).reference)
    ensures ',' !in EntryAt(lines, i).amount
  {
    DeleteCharGone(lines[i + 7], ',');
  }
}

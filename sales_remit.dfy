/** The remittance side of the reconciliation: the `Remittances*.xlsx` files stacked into one
    table, the file-offset map used to report a file row, and the amounts listed per guest name
    (`otas_by_name`). */
module SalesRemit {
  import opened Text
  import opened Sheets
  import opened SalesCells
  import opened SalesLedger

  /** One remittance workbook: its file name and its data rows. */
  datatype RemitFile = RemitFile(fileName: string, rows: seq<Row>)

  /** The remittance workbooks in listing order; they share one header. */
  datatype Remittances = Remittances(header: seq<string>, files: seq<RemitFile>)

  /** The columns of the stacked table: none at all when there is no file. */
  function Columns(rm: Remittances): seq<string> {
    if rm.files == [] then [] else rm.header
  }

  /** The first `k` files stacked: their rows one after another. */
  function Stacked(files: seq<RemitFile>, k: nat): seq<Row>
    requires k <= |files|
  {
    if k == 0 then [] else Stacked(files, k - 1) + files[k - 1].rows
  }

  /** The stacked table, `pd.concat(..., ignore_index=True)`. */
  function AllRows(files: seq<RemitFile>): seq<Row> {
    Stacked(files, |files|)
  }

  /** The offset of file `k`: the number of rows of the files before it. */
  function Offset(files: seq<RemitFile>, k: nat): nat
    requires k <= |files|
  {
    if k == 0 then 0 else Offset(files, k - 1) + |files[k - 1].rows|
  }

  /** An entry of `ota_file_map`: file name, row count and offset. */
  datatype Span = Span(fileName: string, size: nat, offset: nat)

  /** The entry of file `k`. */
  function SpanAt(files: seq<RemitFile>, k: nat): Span
    requires k < |files|
  {
    Span(files[k].fileName, |files[k].rows|, Offset(files, k))
  }

  /** `ota_file_map` as a whole. */
  function Spans(files: seq<RemitFile>): (r: seq<Span>)
    ensures |r| == |files|
    ensures forall k :: 0 <= k < |files| ==> r[k] == SpanAt(files, k)
  {
    seq(|files|, k requires 0 <= k < |files| => SpanAt(files, k))
  }

  lemma {:induction false} StackedLength(files: seq<RemitFile>, n: nat)
    requires n <= |files|
    ensures |Stacked(files, n)| == Offset(files, n)
  {
    if n > 0 {
      StackedLength(files, n - 1);
    }
  }

  /** The stacked table holds row `j` of file `k` at that file's offset plus `j`. */
  lemma {:induction false} StackedAt(files: seq<RemitFile>, n: nat, k: nat, j: nat)
    requires k < n <= |files| && j < |files[k].rows|
    ensures Offset(files, k) + j < |Stacked(files, n)|
    ensures Stacked(files, n)[Offset(files, k) + j] == files[k].rows[j]
  {
    StackedLength(files, n - 1);
    if k < n - 1 {
      StackedAt(files, n - 1, k, j);
    }
  }

  /** The file-map loop: it records each file with the running offset and stacks its rows. */
  method BuildFileMap(files: seq<RemitFile>) returns (spans: seq<Span>, all: seq<Row>)
    ensures spans == Spans(files)
    ensures all == AllRows(files)
  {
    spans, all := [], [];
    var offset: nat := 0;
    var k := 0;
    while k < |files|
      invariant 0 <= k <= |files|
      invariant |spans| == k && offset == Offset(files, k)
      invariant forall j :: 0 <= j < k ==> spans[j] == SpanAt(files, j)
      invariant all == Stacked(files, k)
    {
      spans := spans + [Span(files[k].fileName, |files[k].rows|, offset)];
      assert spans[k] == SpanAt(files, k);
      all := all + files[k].rows;
      offset := offset + |files[k].rows|;
      k := k + 1;
    }
  }

  /** The first span, from `k` on, holding the absolute row `abs`. */
  function LocateFrom(spans: seq<Span>, abs: nat, k: nat): (r: Option<nat>)
    requires k <= |spans|
    ensures r.Some? ==> (k <= r.value < |spans| &&
      spans[r.value].offset <= abs < spans[r.value].offset + spans[r.value].size)
    ensures r.Some? ==> forall j :: k <= j < r.value ==>
      !(spans[j].offset <= abs < spans[j].offset + spans[j].size)
    ensures r.None? ==> forall j :: k <= j < |spans| ==>
      !(spans[j].offset <= abs < spans[j].offset + spans[j].size)
    decreases |spans| - k
  {
    if k == |spans| then None
    else if spans[k].offset <= abs < spans[k].offset + spans[k].size then Some(k)
    else LocateFrom(spans, abs, k + 1)
  }

  /** The file-location loop `for fname, df, offset in ota_file_map`. */
  method Locate(spans: seq<Span>, abs: nat) returns (r: Option<nat>)
    ensures r == LocateFrom(spans, abs, 0)
  {
    var k := 0;
    while k < |spans|
      invariant 0 <= k <= |spans|
      invariant LocateFrom(spans, abs, k) == LocateFrom(spans, abs, 0)
    {
      if spans[k].offset <= abs < spans[k].offset + spans[k].size {
        return Some(k);
      }
      k := k + 1;
    }
    return None;
  }

  /** Every absolute row of the stacked table falls in exactly one file, and the reported file row
      `abs - offset + 2` is that row's place in its own file (its worksheet row). */
  lemma {:induction false} LocateExact(files: seq<RemitFile>, abs: nat)
    requires abs < |AllRows(files)|
    ensures LocateFrom(Spans(files), abs, 0).Some?
    ensures var k := LocateFrom(Spans(files), abs, 0).value;
      Offset(files, k) <= abs < Offset(files, k) + |files[k].rows| &&
      AllRows(files)[abs] == files[k].rows[abs - Offset(files, k)]
    ensures forall k :: 0 <= k < |files| && Offset(files, k) <= abs < Offset(files, k) + |files[k].rows| ==>
      LocateFrom(Spans(files), abs, 0) == Some(k)
  {
    StackedLength(files, |files|);
    var n := LocateCover(files, abs);
    var j := abs - Offset(files, n);
    StackedAt(files, |files|, n, j);
    assert Offset(files, n) + j == abs;
  }

  /** The file found for `abs` is the only one whose rows cover it. */
  lemma {:induction false} LocateCover(files: seq<RemitFile>, abs: nat) returns (n: nat)
    requires abs < Offset(files, |files|)
    ensures n < |files| && Offset(files, n) <= abs < Offset(files, n) + |files[n].rows|
    ensures LocateFrom(Spans(files), abs, 0) == Some(n)
    ensures forall k :: 0 <= k < |files| && Offset(files, k) <= abs < Offset(files, k) + |files[k].rows| ==> k == n
  {
    var spans := Spans(files);
    n := OffsetCover(files, abs);
    forall k | 0 <= k < |files| && Offset(files, k) <= abs < Offset(files, k) + |files[k].rows|
      ensures k == n
    {
      OffsetsApart(files, k, n);
    }
    forall j | 0 <= j < n ensures !(spans[j].offset <= abs < spans[j].offset + spans[j].size) {
      assert spans[j] == SpanAt(files, j);
      OffsetsApart(files, j, n);
    }
    assert spans[n] == SpanAt(files, n);
    LocateFirst(spans, abs, n);
  }

  /** A span holding `abs` with none before it holding it is the one found. */
  lemma {:induction false} LocateFirst(spans: seq<Span>, abs: nat, n: nat)
    requires n < |spans| && spans[n].offset <= abs < spans[n].offset + spans[n].size
    requires forall j :: 0 <= j < n ==> !(spans[j].offset <= abs < spans[j].offset + spans[j].size)
    ensures LocateFrom(spans, abs, 0) == Some(n)
  {
  }

  /** The spans of two different files do not overlap. */
  lemma {:induction false} OffsetsApart(files: seq<RemitFile>, a: nat, b: nat)
    requires a < |files| && b < |files|
    ensures a < b ==> Offset(files, a) + |files[a].rows| <= Offset(files, b)
    ensures b < a ==> Offset(files, b) + |files[b].rows| <= Offset(files, a)
  {
    if a < b {
      OffsetAfter(files, a, b);
    } else if b < a {
      OffsetAfter(files, b, a);
    }
  }

  lemma {:induction false} OffsetAfter(files: seq<RemitFile>, a: nat, b: nat)
    requires a < b < |files|
    ensures Offset(files, a) + |files[a].rows| <= Offset(files, b)
  {
    assert Offset(files, a + 1) == Offset(files, a) + |files[a].rows|;
    OffsetGrows(files, a + 1, b);
  }

  lemma {:induction false} OffsetGrows(files: seq<RemitFile>, a: nat, b: nat)
    requires a <= b <= |files|
    ensures Offset(files, a) <= Offset(files, b)
    decreases b - a
  {
    if a < b {
      OffsetGrows(files, a, b - 1);
    }
  }

  /** Some file holds the absolute row `abs`. */
  lemma {:induction false} OffsetCover(files: seq<RemitFile>, abs: nat) returns (n: nat)
    requires abs < Offset(files, |files|)
    ensures n < |files| && Offset(files, n) <= abs < Offset(files, n) + |files[n].rows|
  {
    n := 0;
    while Offset(files, n + 1) <= abs
      invariant n < |files| && Offset(files, n) <= abs
      decreases |files| - n
    {
      OffsetGrows(files, n + 1, |files|);
      n := n + 1;
    }
  }

  // ---------------------------------------------------------------------------------------
  // Amounts per guest name

  /** One price column of a remittance row: `float` of its text (`None` when it raises) and
      `str` of the cell, which the comparison log reports. */
  datatype PriceCell = PriceCell(amount: Option<Amount>, text: string)

  /** What the matching reads from one remittance row: the stripped name of column 4 and its
      price columns in order. */
  datatype Line = Line(name: string, cells: seq<PriceCell>)

  function LineOf(r: Row, cols: seq<nat>): (line: Line)
    ensures line.name == Strip(CellText(r, Some(NameColumn))) && |line.cells| == |cols|
    ensures forall k :: 0 <= k < |cols| ==>
      line.cells[k] == PriceCell(ParseAmount(PriceText(r, Some(cols[k]))), CellText(r, Some(cols[k])))
  {
    Line(Strip(CellText(r, Some(NameColumn))),
         seq(|cols|, k requires 0 <= k < |cols| =>
           PriceCell(ParseAmount(PriceText(r, Some(cols[k]))), CellText(r, Some(cols[k])))))
  }

  function Lines(rows: seq<Row>, cols: seq<nat>): (r: seq<Line>)
    ensures |r| == |rows|
    ensures forall i :: 0 <= i < |rows| ==> r[i] == LineOf(rows[i], cols)
  {
    seq(|rows|, i requires 0 <= i < |rows| => LineOf(rows[i], cols))
  }

  /** A parseable price: absolute row, position among the price columns, amount, cell text. */
  datatype Candidate = Candidate(abs: nat, pos: nat, amount: Amount, text: string)

  /** The parseable prices of one row among its first `c` price columns, in column order. */
  function LineCandidates(line: Line, abs: nat, c: nat): seq<Candidate>
    requires c <= |line.cells|
  {
    if c == 0 then []
    else
      LineCandidates(line, abs, c - 1) +
      match line.cells[c - 1].amount
      case Some(a) => [Candidate(abs, c - 1, a, line.cells[c - 1].text)]
      case None => []
  }

  /** The rows among the first `n` that carry `name`, in order. */
  function MatchRows(lines: seq<Line>, name: string, n: nat): (r: seq<nat>)
    requires n <= |lines|
    ensures forall j :: 0 <= j < |r| ==> r[j] < n
  {
    if n == 0 then []
    else MatchRows(lines, name, n - 1) + if lines[n - 1].name == name then [n - 1] else []
  }

  /** The parseable prices of the rows `idxs`, row by row. */
  function CandidatesAt(lines: seq<Line>, idxs: seq<nat>): seq<Candidate>
    requires forall j :: 0 <= j < |idxs| ==> idxs[j] < |lines|
  {
    if idxs == [] then []
    else
      var i := idxs[|idxs| - 1];
      CandidatesAt(lines, idxs[..|idxs| - 1]) + LineCandidates(lines[i], i, |lines[i].cells|)
  }

  /** The parseable prices of every row carrying `name`. */
  function Candidates(lines: seq<Line>, name: string): seq<Candidate> {
    CandidatesAt(lines, MatchRows(lines, name, |lines|))
  }

  function AmountsOf(cs: seq<Candidate>): (r: seq<Amount>)
    ensures |r| == |cs| && forall k :: 0 <= k < |cs| ==> r[k] == cs[k].amount
  {
    seq(|cs|, k requires 0 <= k < |cs| => cs[k].amount)
  }

  /** The amounts listed for `name` after the first `n` remittance rows. */
  function Listed(lines: seq<Line>, name: string, n: nat): seq<Amount>
    requires n <= |lines|
  {
    AmountsOf(CandidatesAt(lines, MatchRows(lines, name, n)))
  }

  /** `otas_by_name.get(name, [])`. */
  function AmountsFor(lines: seq<Line>, name: string): seq<Amount> {
    Listed(lines, name, |lines|)
  }

  lemma {:induction false} LineCandidatesExact(line: Line, abs: nat, c: nat)
    requires c <= |line.cells|
    ensures forall x :: x in LineCandidates(line, abs, c) <==>
      x.abs == abs && x.pos < c && line.cells[x.pos] == PriceCell(Some(x.amount), x.text)
    ensures forall a, b :: 0 <= a < b < |LineCandidates(line, abs, c)| ==>
      LineCandidates(line, abs, c)[a].pos < LineCandidates(line, abs, c)[b].pos
    decreases c
  {
    if c > 0 {
      LineCandidatesExact(line, abs, c - 1);
    }
  }

  lemma {:induction false} CandidatesAtExact(lines: seq<Line>, idxs: seq<nat>)
    requires forall j :: 0 <= j < |idxs| ==> idxs[j] < |lines|
    ensures forall x :: x in CandidatesAt(lines, idxs) <==>
      x.abs in idxs && x.pos < |lines[x.abs].cells| && lines[x.abs].cells[x.pos] == PriceCell(Some(x.amount), x.text)
    decreases |idxs|
  {
    if idxs != [] {
      var i := idxs[|idxs| - 1];
      var init := idxs[..|idxs| - 1];
      CandidatesAtExact(lines, init);
      LineCandidatesExact(lines[i], i, |lines[i].cells|);
      assert idxs == init + [i];
    }
  }

  lemma {:induction false} MatchRowsExact(lines: seq<Line>, name: string, n: nat)
    requires n <= |lines|
    ensures forall i :: i in MatchRows(lines, name, n) <==> 0 <= i < n && lines[i].name == name
    ensures forall a, b :: 0 <= a < b < |MatchRows(lines, name, n)| ==>
      MatchRows(lines, name, n)[a] < MatchRows(lines, name, n)[b]
    decreases n
  {
    if n > 0 {
      MatchRowsExact(lines, name, n - 1);
    }
  }

  /** The amounts listed for `name` are exactly the parseable prices of the rows carrying that
      name: `x` is a candidate iff its row has the name and its price column parses to its amount. */
  lemma {:induction false} CandidatesExact(lines: seq<Line>, name: string)
    ensures forall x :: x in Candidates(lines, name) <==>
      x.abs < |lines| && lines[x.abs].name == name &&
      x.pos < |lines[x.abs].cells| && lines[x.abs].cells[x.pos] == PriceCell(Some(x.amount), x.text)
  {
    MatchRowsExact(lines, name, |lines|);
    CandidatesAtExact(lines, MatchRows(lines, name, |lines|));
  }

  /** Appending a row extends the candidates of its name and leaves the others alone. */
  lemma {:induction false} CandidatesStep(lines: seq<Line>, name: string, i: nat)
    requires i < |lines|
    ensures CandidatesAt(lines, MatchRows(lines, name, i + 1)) ==
      CandidatesAt(lines, MatchRows(lines, name, i)) +
      if lines[i].name == name then LineCandidates(lines[i], i, |lines[i].cells|) else []
  {
    var ms := MatchRows(lines, name, i);
    if lines[i].name == name {
      assert MatchRows(lines, name, i + 1) == ms + [i];
      assert (ms + [i])[..|ms|] == ms;
    } else {
      assert MatchRows(lines, name, i + 1) == ms + [] == ms;
    }
  }

  /** The loop over the stacked table collecting `otas_by_name`. */
  method CollectAmounts(lines: seq<Line>) returns (m: map<string, seq<Amount>>)
    ensures forall name :: Get(m, name) == AmountsFor(lines, name)
  {
    m := map[];
    var i := 0;
    while i < |lines|
      invariant 0 <= i <= |lines|
      invariant forall name :: Get(m, name) == Listed(lines, name, i)
    {
      var before := m;
      m := AddLine(m, lines[i], i);
      ListedStep(lines, i, before, m);
      i := i + 1;
    }
  }

  /** A map that listed the first `i` rows lists the first `i + 1` once row `i` is added to it. */
  lemma ListedStep(lines: seq<Line>, i: nat, m0: map<string, seq<Amount>>, m: map<string, seq<Amount>>)
    requires i < |lines|
    requires forall name :: Get(m0, name) == Listed(lines, name, i)
    requires Get(m, lines[i].name) == Get(m0, lines[i].name) + AmountsOf(LineCandidates(lines[i], i, |lines[i].cells|))
    requires forall name :: name != lines[i].name ==> Get(m, name) == Get(m0, name)
    ensures forall name :: Get(m, name) == Listed(lines, name, i + 1)
  {
    forall name ensures Get(m, name) == Listed(lines, name, i + 1) {
      AmountsStep(lines, name, i);
      if name != lines[i].name {
        assert Listed(lines, name, i) + [] == Listed(lines, name, i);
      }
    }
  }

  /** The amounts listed for `name` after one more remittance row. */
  lemma {:induction false} AmountsStep(lines: seq<Line>, name: string, i: nat)
    requires i < |lines|
    ensures Listed(lines, name, i + 1) == Listed(lines, name, i) +
      if lines[i].name == name then AmountsOf(LineCandidates(lines[i], i, |lines[i].cells|)) else []
  {
    CandidatesStep(lines, name, i);
    AmountsOfAppend(CandidatesAt(lines, MatchRows(lines, name, i)),
      if lines[i].name == name then LineCandidates(lines[i], i, |lines[i].cells|) else []);
  }

  /** The inner loop over the price columns of one remittance row: each parseable price is appended
      to the row's name, and no other name changes. */
  method AddLine(m0: map<string, seq<Amount>>, line: Line, ghost abs: nat) returns (m: map<string, seq<Amount>>)
    ensures Get(m, line.name) == Get(m0, line.name) + AmountsOf(LineCandidates(line, abs, |line.cells|))
    ensures forall name :: name != line.name ==> Get(m, name) == Get(m0, name)
  {
    m := m0;
    var c := 0;
    while c < |line.cells|
      invariant 0 <= c <= |line.cells|
      invariant Get(m, line.name) == Get(m0, line.name) + AmountsOf(LineCandidates(line, abs, c))
      invariant forall name :: name != line.name ==> Get(m, name) == Get(m0, name)
    {
      AppendCandidate(line, abs, c);
      if line.cells[c].amount.Some? {
        m := m[line.name := Get(m, line.name) + [line.cells[c].amount.value]];
      }
      c := c + 1;
    }
  }

  /** One more price column of a row adds its amount when it parses and nothing otherwise. */
  lemma {:induction false} AppendCandidate(line: Line, abs: nat, c: nat)
    requires c < |line.cells|
    ensures AmountsOf(LineCandidates(line, abs, c + 1)) ==
      AmountsOf(LineCandidates(line, abs, c)) + if line.cells[c].amount.Some? then [line.cells[c].amount.value] else []
  {
    var prev := LineCandidates(line, abs, c);
    if line.cells[c].amount.Some? {
      AmountsOfAppend(prev, [Candidate(abs, c, line.cells[c].amount.value, line.cells[c].text)]);
    } else {
      assert LineCandidates(line, abs, c + 1) == prev;
    }
  }

  lemma {:induction false} AmountsOfAppend(a: seq<Candidate>, b: seq<Candidate>)
    ensures AmountsOf(a + b) == AmountsOf(a) + AmountsOf(b)
  {
  }
}

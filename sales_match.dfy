/** What the Agoda reconciliation decides: for each group of ledger rows, the grouped-sum match
    (Stage A), and otherwise the row-by-row match with its per-name credit (Stage B); the mark
    each ledger row receives and the rows of the comparison log. */
module SalesMatch {
  import opened Text
  import opened SalesCells
  import opened SalesLedger
  import opened SalesRemit

  /** The outcome of one ledger row: yellow fill, red font, or nothing. */
  datatype Mark = Yellow | Red | Unmarked

  /** A row of the comparison log (`비교로그`). `Compared` is the recorded non-matching pair
      `[name, idx+2, use_price, fname, file_row, text, text]`; `Unmatched` is the fallback
      `[name, idx+2, use_price, '-', '-', '불일치', '-']`. */
  datatype LogRow =
    | Compared(name: string, ledgerRow: nat, usePrice: Option<Amount>, fileName: string, fileRow: nat, text: string)
    | Unmatched(name: string, ledgerRow: nat, usePrice: Option<Amount>)

  // ---------------------------------------------------------------------------------------
  // Stage A: the grouped sum

  /** The first position of `xs` holding an amount equal to `t`. */
  function FirstSame(xs: seq<Amount>, t: Amount): (r: Option<nat>)
    ensures r.Some? ==> r.value < |xs| && Same(xs[r.value], t)
    ensures r.Some? ==> forall j :: 0 <= j < r.value ==> !Same(xs[j], t)
    ensures r.None? ==> forall j :: 0 <= j < |xs| ==> !Same(xs[j], t)
    decreases |xs|
  {
    if xs == [] then None
    else if Same(xs[0], t) then Some(0)
    else match FirstSame(xs[1..], t)
      case None => None
      case Some(k) => Some(k + 1)
  }

  function Prices(ms: seq<Member>): (r: seq<Amount>)
    ensures |r| == |ms| && forall k :: 0 <= k < |ms| ==> r[k] == ms[k].price
  {
    seq(|ms|, k requires 0 <= k < |ms| => ms[k].price)
  }

  /** `total_price = sum(price for _, price in rows)`. */
  function GroupTotal(ms: seq<Member>): Amount {
    Sum(Prices(ms))
  }

  // ---------------------------------------------------------------------------------------
  // Stage B: one ledger row against the remittance rows of its name

  /** `(price1_f is not None and p == price1_f) or (price2_f is not None and p == price2_f)`. */
  predicate Matches(a: Amount, e: Entry) {
    (e.room.Some? && Same(a, e.room.value)) || (e.total.Some? && Same(a, e.total.value))
  }

  predicate AnyMatch(cs: seq<Candidate>, e: Entry) {
    exists k :: 0 <= k < |cs| && Matches(cs[k].amount, e)
  }

  /** The log row a non-matching candidate records when its absolute row is found in a file. */
  function LogOf(spans: seq<Span>, e: Entry, idx: nat, c: Candidate): Option<LogRow> {
    match LocateFrom(spans, c.abs, 0)
    case None => None
    case Some(k) =>
      Some(Compared(e.name, idx + 2, UsePrice(e), spans[k].fileName, c.abs - spans[k].offset + 2, c.text))
  }

  /** `log_info` after scanning the candidates `cs`: the first one that records a log row. */
  function FirstLog(cs: seq<Candidate>, spans: seq<Span>, e: Entry, idx: nat): Option<LogRow>
    decreases |cs|
  {
    if cs == [] then None
    else
      var p := FirstLog(cs[..|cs| - 1], spans, e, idx);
      if p.Some? then p else LogOf(spans, e, idx, cs[|cs| - 1])
  }

  /** What the remittances say about one ledger row. */
  datatype Probe = NoRemit | Hit | Miss(log: Option<LogRow>)

  /** The scan of Stage B for the ledger row `idx`: no remittance row carries the name, or some
      parseable amount of those rows matches, or none does (with the recorded log row). */
  function ProbeOf(lines: seq<Line>, spans: seq<Span>, e: Entry, idx: nat): Probe {
    if MatchRows(lines, e.name, |lines|) == [] then NoRemit
    else
      var cs := Candidates(lines, e.name);
      if AnyMatch(cs, e) then Hit else Miss(FirstLog(cs, spans, e, idx))
  }

  /** The marks and log rows of a group so far, and the name's credit (`matched_remit_names`). */
  datatype Outcome = Outcome(marks: seq<Mark>, logs: seq<LogRow>, credit: nat)

  /** One ledger row as Stage B visits it: what the remittances say, its entry, its index. */
  datatype Visit = Visit(probe: Probe, entry: Entry, idx: nat)

  predicate MembersIn(es: seq<Entry>, ms: seq<Member>) {
    forall k :: 0 <= k < |ms| ==> ms[k].idx < |es|
  }

  function VisitOf(es: seq<Entry>, lines: seq<Line>, spans: seq<Span>, idx: nat): Visit
    requires idx < |es|
  {
    Visit(ProbeOf(lines, spans, es[idx], idx), es[idx], idx)
  }

  /** The visits of a group's members, in member order. */
  function Visits(es: seq<Entry>, lines: seq<Line>, spans: seq<Span>, ms: seq<Member>): (vs: seq<Visit>)
    requires MembersIn(es, ms)
    ensures |vs| == |ms|
    ensures forall k :: 0 <= k < |ms| ==> vs[k] == VisitOf(es, lines, spans, ms[k].idx)
  {
    seq(|ms|, k requires 0 <= k < |ms| && MembersIn(es, ms) => VisitOf(es, lines, spans, ms[k].idx))
  }

  /** The log row of a red row: the recorded pair, or the fallback row. */
  function RedLog(log: Option<LogRow>, e: Entry, idx: nat): LogRow {
    if log.Some? then log.value else Unmatched(e.name, idx + 2, UsePrice(e))
  }

  /** One Stage B step: a hit earns a credit; a miss spends one, or turns the row red. */
  function StepB(o: Outcome, v: Visit): Outcome {
    match v.probe
    case NoRemit => Outcome(o.marks + [Unmarked], o.logs, o.credit)
    case Hit => Outcome(o.marks + [Yellow], o.logs, o.credit + 1)
    case Miss(log) =>
      if o.credit > 0 then Outcome(o.marks + [Unmarked], o.logs, o.credit - 1)
      else Outcome(o.marks + [Red], o.logs + [RedLog(log, v.entry, v.idx)], 0)
  }

  /** Stage B over the first `n` visits, the credit starting at zero. */
  function Run(vs: seq<Visit>, n: nat): Outcome
    requires n <= |vs|
  {
    if n == 0 then Outcome([], [], 0) else StepB(Run(vs, n - 1), vs[n - 1])
  }

  /** Stage B over a whole group. */
  function StageB(es: seq<Entry>, lines: seq<Line>, spans: seq<Span>, ms: seq<Member>): Outcome
    requires MembersIn(es, ms)
  {
    Run(Visits(es, lines, spans, ms), |ms|)
  }

  /** The group of `name`: all yellow when Stage A matches the group sum, Stage B otherwise. */
  function GroupOutcome(es: seq<Entry>, lines: seq<Line>, spans: seq<Span>, name: string): Outcome {
    var ms := MembersOf(es, name, |es|);
    MembersOfExact(es, name, |es|);
    if FirstSame(AmountsFor(lines, name), GroupTotal(ms)).Some? then Outcome(seq(|ms|, k => Yellow), [], 0)
    else StageB(es, lines, spans, ms)
  }

  /** The log rows of the first `g` groups, in group order. */
  function LogsUpTo(es: seq<Entry>, lines: seq<Line>, spans: seq<Span>, names: seq<string>, g: nat): seq<LogRow>
    requires g <= |names|
  {
    if g == 0 then [] else LogsUpTo(es, lines, spans, names, g - 1) + GroupOutcome(es, lines, spans, names[g - 1]).logs
  }

  /** All log rows of the pass. */
  function AllLogs(es: seq<Entry>, lines: seq<Line>, spans: seq<Span>): seq<LogRow> {
    LogsUpTo(es, lines, spans, NamesOf(es, |es|), |NamesOf(es, |es|)|)
  }

  /** The position of row `i` in a member list. */
  function PositionOf(ms: seq<Member>, i: nat): (r: Option<nat>)
    ensures r.Some? ==> r.value < |ms| && ms[r.value].idx == i
    ensures r.None? ==> forall k :: 0 <= k < |ms| ==> ms[k].idx != i
    decreases |ms|
  {
    if ms == [] then None
    else if ms[0].idx == i then Some(0)
    else match PositionOf(ms[1..], i)
      case None => None
      case Some(k) => Some(k + 1)
  }

  /** The mark of ledger row `i`: the mark of its place in its group, nothing for other rows. */
  function RowMark(es: seq<Entry>, lines: seq<Line>, spans: seq<Span>, i: nat): Mark
    requires i < |es|
  {
    if !es[i].agoda then Unmarked
    else
      var o := GroupOutcome(es, lines, spans, es[i].name);
      var k := PositionOf(MembersOf(es, es[i].name, |es|), i);
      if k.Some? && k.value < |o.marks| then o.marks[k.value] else Unmarked
  }

  // ---------------------------------------------------------------------------------------
  // Properties

  /** Stage A matches exactly when some amount listed for the name equals the group sum. */
  lemma StageAIff(xs: seq<Amount>, t: Amount)
    ensures FirstSame(xs, t).Some? <==> exists k :: 0 <= k < |xs| && Same(xs[k], t)
  {
  }

  /** The number of marks `m`. */
  function Count(marks: seq<Mark>, m: Mark): nat
    decreases |marks|
  {
    if marks == [] then 0 else Count(marks[..|marks| - 1], m) + if marks[|marks| - 1] == m then 1 else 0
  }

  /** Stage B gives each visited row one mark, in order: yellow exactly on a hit, nothing when the
      name has no remittance row, red only on a miss; a miss is red exactly when no credit is
      left, and then it adds its log row. */
  lemma {:induction false} RunMarks(vs: seq<Visit>, n: nat)
    requires n <= |vs|
    ensures var o := Run(vs, n); |o.marks| == n
    ensures var o := Run(vs, n); forall k :: 0 <= k < n ==>
      (o.marks[k] == Yellow <==> vs[k].probe == Hit) &&
      (vs[k].probe == NoRemit ==> o.marks[k] == Unmarked) &&
      (o.marks[k] == Red ==> vs[k].probe.Miss?)
    ensures n > 0 ==> var o := Run(vs, n);
      (o.marks[n - 1] == Red <==> vs[n - 1].probe.Miss? && Run(vs, n - 1).credit == 0)
  {
    if n > 0 {
      RunMarks(vs, n - 1);
    }
  }

  /** Stage B appends exactly one log row per red row, the last one for the last red row. */
  lemma {:induction false} RunLogs(vs: seq<Visit>, n: nat)
    requires n <= |vs|
    ensures |Run(vs, n).logs| == Count(Run(vs, n).marks, Red)
    ensures n > 0 && vs[n - 1].probe.Miss? && Run(vs, n - 1).credit == 0 ==>
      Run(vs, n).logs == Run(vs, n - 1).logs + [RedLog(vs[n - 1].probe.log, vs[n - 1].entry, vs[n - 1].idx)]
  {
    if n > 0 {
      RunLogs(vs, n - 1);
      StepBShape(Run(vs, n - 1), vs[n - 1]);
    }
  }

  /** The misses among the first `n` visits that a credit left unmarked. */
  function Spared(vs: seq<Visit>, n: nat): nat
    requires n <= |vs|
  {
    if n == 0 then 0
    else Spared(vs, n - 1) + if vs[n - 1].probe.Miss? && Run(vs, n - 1).credit > 0 then 1 else 0
  }

  /** The credit is the number of hits not yet spent: yellow rows minus spared misses. So the spared
      misses never outnumber the yellow rows, and the credit never goes negative. */
  lemma {:induction false} RunCredit(vs: seq<Visit>, n: nat)
    requires n <= |vs|
    ensures Run(vs, n).credit + Spared(vs, n) == Count(Run(vs, n).marks, Yellow)
  {
    if n > 0 {
      RunCredit(vs, n - 1);
      StepBShape(Run(vs, n - 1), vs[n - 1]);
    }
  }

  /** One visit appends one mark; a hit adds one credit, a spared miss spends one, and a red row
      adds one log row. */
  lemma StepBShape(o: Outcome, v: Visit)
    ensures var o' := StepB(o, v); |o'.marks| == |o.marks| + 1 && o'.marks[..|o.marks|] == o.marks
    ensures var o' := StepB(o, v);
      o'.credit + (if v.probe.Miss? && o.credit > 0 then 1 else 0)
      == o.credit + (if o'.marks[|o.marks|] == Yellow then 1 else 0)
    ensures var o' := StepB(o, v); |o'.logs| == |o.logs| + if o'.marks[|o.marks|] == Red then 1 else 0
  {
    var o' := StepB(o, v);
    assert o'.marks[..|o.marks|] == o.marks;
  }

  /** When no visited name has a remittance row, Stage B marks nothing and logs nothing. */
  lemma {:induction false} RunNoRemit(vs: seq<Visit>, n: nat)
    requires n <= |vs|
    requires forall k :: 0 <= k < |vs| ==> vs[k].probe == NoRemit
    ensures var o := Run(vs, n);
      o.logs == [] && o.credit == 0 && |o.marks| == n && forall k :: 0 <= k < n ==> o.marks[k] == Unmarked
  {
    if n > 0 {
      RunNoRemit(vs, n - 1);
    }
  }

  /** A Stage B hit is exactly a remittance row of the same name with a parseable amount equal to
      the ledger row's room charge or total. */
  lemma HitIff(lines: seq<Line>, spans: seq<Span>, e: Entry, idx: nat)
    ensures ProbeOf(lines, spans, e, idx) == Hit <==>
      exists x: Candidate :: x.abs < |lines| && lines[x.abs].name == e.name && x.pos < |lines[x.abs].cells| &&
        lines[x.abs].cells[x.pos] == PriceCell(Some(x.amount), x.text) && Matches(x.amount, e)
  {
    if ProbeOf(lines, spans, e, idx) == Hit {
      HitOnly(lines, spans, e, idx);
    }
    if x: Candidate :| (x.abs < |lines| && lines[x.abs].name == e.name && x.pos < |lines[x.abs].cells| &&
        lines[x.abs].cells[x.pos] == PriceCell(Some(x.amount), x.text) && Matches(x.amount, e)) {
      HitIf(lines, spans, e, idx, x);
    }
  }

  lemma HitOnly(lines: seq<Line>, spans: seq<Span>, e: Entry, idx: nat)
    requires ProbeOf(lines, spans, e, idx) == Hit
    ensures exists x: Candidate ::
      x.abs < |lines| && lines[x.abs].name == e.name && x.pos < |lines[x.abs].cells| &&
      lines[x.abs].cells[x.pos] == PriceCell(Some(x.amount), x.text) && Matches(x.amount, e)
  {
    var cs := Candidates(lines, e.name);
    CandidatesExact(lines, e.name);
    var k :| 0 <= k < |cs| && Matches(cs[k].amount, e);
    assert cs[k] in cs;
  }

  lemma HitIf(lines: seq<Line>, spans: seq<Span>, e: Entry, idx: nat, x: Candidate)
    requires x.abs < |lines| && lines[x.abs].name == e.name && x.pos < |lines[x.abs].cells|
    requires lines[x.abs].cells[x.pos] == PriceCell(Some(x.amount), x.text) && Matches(x.amount, e)
    ensures ProbeOf(lines, spans, e, idx) == Hit
  {
    var cs := Candidates(lines, e.name);
    CandidatesExact(lines, e.name);
    MatchRowsExact(lines, e.name, |lines|);
    assert x.abs in MatchRows(lines, e.name, |lines|);
    var k :| 0 <= k < |cs| && cs[k] == x;
  }

  /** A guest with no remittance row is left unmarked throughout and logs nothing. */
  lemma {:induction false} AbsentNameUnmarked(es: seq<Entry>, lines: seq<Line>, spans: seq<Span>, name: string)
    requires forall j :: 0 <= j < |lines| ==> lines[j].name != name
    ensures var o := GroupOutcome(es, lines, spans, name);
      o.logs == [] && forall k :: 0 <= k < |o.marks| ==> o.marks[k] == Unmarked
  {
    var ms := MembersOf(es, name, |es|);
    MembersOfExact(es, name, |es|);
    MatchRowsExact(lines, name, |lines|);
    NoMatchRows(lines, name, |lines|);
    assert AmountsFor(lines, name) == [];
    var vs := Visits(es, lines, spans, ms);
    RunNoRemit(vs, |ms|);
  }

  lemma {:induction false} NoMatchRows(lines: seq<Line>, name: string, n: nat)
    requires n <= |lines|
    requires forall j :: 0 <= j < n ==> lines[j].name != name
    ensures MatchRows(lines, name, n) == []
  {
    if n > 0 {
      NoMatchRows(lines, name, n - 1);
    }
  }

  /** Every member of a group gets exactly one mark. */
  lemma {:induction false} GroupShape(es: seq<Entry>, lines: seq<Line>, spans: seq<Span>, name: string)
    ensures |GroupOutcome(es, lines, spans, name).marks| == |MembersOf(es, name, |es|)|
  {
    var ms := MembersOf(es, name, |es|);
    MembersOfExact(es, name, |es|);
    RunMarks(Visits(es, lines, spans, ms), |ms|);
  }

  /** A ledger row has a place in the group of `name` exactly when it is an Agoda row of that
      guest; its mark is the group's mark at that place. */
  lemma {:induction false} GroupRows(es: seq<Entry>, lines: seq<Line>, spans: seq<Span>, name: string, i: nat)
    requires i < |es|
    ensures PositionOf(MembersOf(es, name, |es|), i).Some? <==> RowOf(es, name, i)
    ensures RowOf(es, name, i) ==>
      var k := PositionOf(MembersOf(es, name, |es|), i).value;
      var marks := GroupOutcome(es, lines, spans, name).marks;
      k < |marks| && RowMark(es, lines, spans, i) == marks[k]
  {
    MembersOfExact(es, name, |es|);
    GroupShape(es, lines, spans, name);
  }
}

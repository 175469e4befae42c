/** The reconciliation pass as the script runs it: the loops over groups, members, remittance rows
    and price columns, writing fills, fonts and log rows into the result workbook. */
module SalesRun {
  import opened Text
  import opened Sheets
  import opened SalesCells
  import opened SalesLedger
  import opened SalesRemit
  import opened SalesMatch

  // ---------------------------------------------------------------------------------------
  // The scan of one ledger row (Stage B)

  /** The loop over the matching remittance rows and their price columns: it stops at the first
      parseable amount equal to the room charge or the total, and records the first non-matching
      pair whose file it finds. */
  method ProbeRow(lines: seq<Line>, spans: seq<Span>, e: Entry, idx: nat) returns (p: Probe)
    ensures p == ProbeOf(lines, spans, e, idx)
  {
    var rows := MatchRows(lines, e.name, |lines|);
    if rows == [] {
      return NoRemit;
    }
    var log: Option<LogRow> := None;
    ghost var seen: seq<Candidate> := [];
    var r := 0;
    while r < |rows|
      invariant 0 <= r <= |rows|
      invariant seen == CandidatesAt(lines, rows[..r])
      invariant !AnyMatch(seen, e)
      invariant log == FirstLog(seen, spans, e, idx)
    {
      var abs := rows[r];
      ghost var lc := LineCandidates(lines[abs], abs, |lines[abs].cells|);
      var hit;
      hit, log := ScanLine(lines[abs], abs, e, spans, idx, log);
      if hit {
        HitFound(lines, e, r);
        return Hit;
      }
      ConcatStep(seen, lc, e, spans, idx);
      assert rows[..r + 1][..r] == rows[..r];
      seen := seen + lc;
      r := r + 1;
    }
    assert rows[..|rows|] == rows;
    return Miss(log);
  }

  /** The loop over the price columns of one remittance row; `log0` is the log row found so far. */
  method ScanLine(line: Line, abs: nat, e: Entry, spans: seq<Span>, idx: nat, log0: Option<LogRow>)
    returns (hit: bool, log: Option<LogRow>)
    ensures hit <==> AnyMatch(LineCandidates(line, abs, |line.cells|), e)
    ensures !hit ==> log == if log0.Some? then log0 else FirstLog(LineCandidates(line, abs, |line.cells|), spans, e, idx)
  {
    log := log0;
    var c := 0;
    while c < |line.cells|
      invariant 0 <= c <= |line.cells|
      invariant !AnyMatch(LineCandidates(line, abs, c), e)
      invariant log == if log0.Some? then log0 else FirstLog(LineCandidates(line, abs, c), spans, e, idx)
    {
      var cell := line.cells[c];
      if cell.amount.Some? {
        if Matches(cell.amount.value, e) {
          LineHit(line, abs, c, e);
          return true, log;
        }
        if log.None? {
          log := RecordLog(spans, e, idx, Candidate(abs, c, cell.amount.value, cell.text));
        }
      }
      ScanStep(line, abs, c, e, spans, idx);
      c := c + 1;
    }
    return false, log;
  }

  /** The log row of a non-matching price: the file holding the remittance row, the row's
      line in that file (header counted), the price as written. */
  method RecordLog(spans: seq<Span>, e: Entry, idx: nat, cand: Candidate) returns (r: Option<LogRow>)
    ensures r == LogOf(spans, e, idx, cand)
  {
    var k := Locate(spans, cand.abs);
    if k.Some? {
      r := Some(Compared(e.name, idx + 2, UsePrice(e), spans[k.value].fileName,
                         cand.abs - spans[k.value].offset + 2, cand.text));
    } else {
      r := None;
    }
  }

  /** One more price column without a match: still no match, and the first log row is the
      earlier one or the one this column records. */
  lemma {:induction false} ScanStep(line: Line, abs: nat, c: nat, e: Entry, spans: seq<Span>, idx: nat)
    requires c < |line.cells| && !AnyMatch(LineCandidates(line, abs, c), e)
    requires line.cells[c].amount.Some? ==> !Matches(line.cells[c].amount.value, e)
    ensures !AnyMatch(LineCandidates(line, abs, c + 1), e)
    ensures FirstLog(LineCandidates(line, abs, c + 1), spans, e, idx) ==
      if line.cells[c].amount.None? || FirstLog(LineCandidates(line, abs, c), spans, e, idx).Some?
      then FirstLog(LineCandidates(line, abs, c), spans, e, idx)
      else LogOf(spans, e, idx, Candidate(abs, c, line.cells[c].amount.value, line.cells[c].text))
  {
    var cell := line.cells[c];
    if cell.amount.Some? {
      var cand := Candidate(abs, c, cell.amount.value, cell.text);
      assert LineCandidates(line, abs, c + 1) == LineCandidates(line, abs, c) + [cand];
      SeenStep(LineCandidates(line, abs, c), cand, e, spans, idx);
    } else {
      assert LineCandidates(line, abs, c + 1) == LineCandidates(line, abs, c);
    }
  }

  /** A matching price column makes its whole row a hit. */
  lemma LineHit(line: Line, abs: nat, c: nat, e: Entry)
    requires c < |line.cells| && line.cells[c].amount.Some? && Matches(line.cells[c].amount.value, e)
    ensures AnyMatch(LineCandidates(line, abs, |line.cells|), e)
  {
    LineCandidatesExact(line, abs, |line.cells|);
    var cand := Candidate(abs, c, line.cells[c].amount.value, line.cells[c].text);
    var cs := LineCandidates(line, abs, |line.cells|);
    assert cand in cs;
    var k :| 0 <= k < |cs| && cs[k] == cand;
  }

  /** A matching amount in a row carrying the name is a hit of the whole scan. */
  lemma HitFound(lines: seq<Line>, e: Entry, r: nat)
    requires r < |MatchRows(lines, e.name, |lines|)|
    requires var abs := MatchRows(lines, e.name, |lines|)[r];
      AnyMatch(LineCandidates(lines[abs], abs, |lines[abs].cells|), e)
    ensures AnyMatch(Candidates(lines, e.name), e)
  {
    var abs := MatchRows(lines, e.name, |lines|)[r];
    var lc := LineCandidates(lines[abs], abs, |lines[abs].cells|);
    var j :| 0 <= j < |lc| && Matches(lc[j].amount, e);
    var cand := lc[j];
    LineCandidatesExact(lines[abs], abs, |lines[abs].cells|);
    assert cand in lc;
    MatchRowsExact(lines, e.name, |lines|);
    assert abs in MatchRows(lines, e.name, |lines|);
    CandidatesExact(lines, e.name);
    var cs := Candidates(lines, e.name);
    assert cand in cs;
    var k :| 0 <= k < |cs| && cs[k] == cand;
  }

  /** One more non-matching candidate: no match so far, and the log row is the first recorded. */
  lemma SeenStep(seen: seq<Candidate>, cand: Candidate, e: Entry, spans: seq<Span>, idx: nat)
    requires !AnyMatch(seen, e) && !Matches(cand.amount, e)
    ensures !AnyMatch(seen + [cand], e)
    ensures FirstLog(seen + [cand], spans, e, idx) ==
      if FirstLog(seen, spans, e, idx).Some? then FirstLog(seen, spans, e, idx) else LogOf(spans, e, idx, cand)
  {
    assert (seen + [cand])[..|seen|] == seen;
  }

  /** Scanning `a` and then `b` without a match: no match in both, and the first log row of `a`,
      or failing that of `b`. */
  lemma {:induction false} ConcatStep(a: seq<Candidate>, b: seq<Candidate>, e: Entry, spans: seq<Span>, idx: nat)
    requires !AnyMatch(a, e) && !AnyMatch(b, e)
    ensures !AnyMatch(a + b, e)
    ensures FirstLog(a + b, spans, e, idx) ==
      if FirstLog(a, spans, e, idx).Some? then FirstLog(a, spans, e, idx) else FirstLog(b, spans, e, idx)
    decreases |b|
  {
    if b == [] {
      assert a + b == a;
    } else {
      var b' := b[..|b| - 1];
      assert b == b' + [b[|b| - 1]];
      ConcatStep(a, b', e, spans, idx);
      assert a + b == (a + b') + [b[|b| - 1]];
      assert (a + b)[..|a + b| - 1] == a + b';
    }
  }

  // ---------------------------------------------------------------------------------------
  // Stage A

  /** `for i, price in enumerate(otas_by_name.get(name, [])): if price == total_price and
      (name, i) not in used_ota_idx`: the first such `i`. */
  method FindUnused(amounts: seq<Amount>, total: Amount, name: string, used: set<(string, nat)>)
    returns (found: bool, i: nat)
    ensures found ==> i < |amounts| && Same(amounts[i], total) && (name, i) !in used
    ensures found ==> forall j :: 0 <= j < i ==> !Same(amounts[j], total) || (name, j) in used
    ensures !found ==> forall j :: 0 <= j < |amounts| ==> !Same(amounts[j], total) || (name, j) in used
  {
    i := 0;
    while i < |amounts|
      invariant 0 <= i <= |amounts|
      invariant forall j :: 0 <= j < i ==> !Same(amounts[j], total) || (name, j) in used
    {
      if Same(amounts[i], total) && (name, i) !in used {
        return true, i;
      }
      i := i + 1;
    }
    return false, 0;
  }

  /** While no index of this name has been used, the search is the first equal amount. */
  lemma UnusedIsFirst(amounts: seq<Amount>, total: Amount, name: string, used: set<(string, nat)>,
                      found: bool, i: nat)
    requires forall p :: p in used ==> p.0 != name
    requires found ==> i < |amounts| && Same(amounts[i], total) && (name, i) !in used
    requires found ==> forall j :: 0 <= j < i ==> !Same(amounts[j], total) || (name, j) in used
    requires !found ==> forall j :: 0 <= j < |amounts| ==> !Same(amounts[j], total) || (name, j) in used
    ensures found <==> FirstSame(amounts, total).Some?
    ensures found ==> FirstSame(amounts, total) == Some(i)
  {
  }

  // ---------------------------------------------------------------------------------------
  // The result workbook

  /** The style of one ledger row: whether its cells carry the yellow fill or the red font. */
  datatype Style = Style(yellowFill: bool, redFont: bool)

  /** `cell.fill = fill_yellow` or `cell.font = font_red` on every cell of the row. */
  function Paint(s: Style, m: Mark): Style {
    match m
    case Yellow => s.(yellowFill := true)
    case Red => s.(redFont := true)
    case Unmarked => s
  }

  /** A line of the comparison log sheet: its header, or a log row. */
  datatype LogLine = LogHeader | LogEntry(row: LogRow)

  function AsLines(rows: seq<LogRow>): (r: seq<LogLine>)
    ensures |r| == |rows| && forall k :: 0 <= k < |rows| ==> r[k] == LogEntry(rows[k])
  {
    seq(|rows|, k requires 0 <= k < |rows| => LogEntry(rows[k]))
  }

  /** The members of a group: Agoda rows of one guest, in increasing row order. */
  predicate GroupOf(es: seq<Entry>, name: string, ms: seq<Member>) {
    MembersIn(es, ms) &&
    (forall k :: 0 <= k < |ms| ==> RowOf(es, name, ms[k].idx)) &&
    (forall a, b :: 0 <= a < b < |ms| ==> ms[a].idx < ms[b].idx)
  }

  /** The style of a ledger row after the marks of a group's first `t` members are painted. */
  function Painted(old0: seq<Style>, ms: seq<Member>, marks: seq<Mark>, t: nat, i: nat): Style
    requires i < |old0|
  {
    var k := PositionOf(ms, i);
    if k.Some? && k.value < t && k.value < |marks| then Paint(old0[i], marks[k.value]) else old0[i]
  }

  /** The result workbook: the styles of the ledger's data rows (data row `i` is worksheet row
      `i + 2`) and the comparison log sheet. */
  class ResultBook {
    var styles: seq<Style>
    var log: seq<LogLine>

    constructor(styles0: seq<Style>, log0: seq<LogLine>)
      ensures styles == styles0 && log == log0
    {
      styles := styles0;
      log := log0;
    }

    /** Stage A matched: `for idx, _ in rows: for cell in ws[idx+2]: cell.fill = fill_yellow`. */
    method FillGroup(ms: seq<Member>)
      requires forall k :: 0 <= k < |ms| ==> ms[k].idx < |styles|
      modifies this
      ensures log == old(log) && |styles| == |old(styles)|
      ensures forall i :: 0 <= i < |styles| ==>
        styles[i] == if PositionOf(ms, i).Some? then Paint(old(styles)[i], Yellow) else old(styles)[i]
    {
      var t := 0;
      while t < |ms|
        invariant 0 <= t <= |ms| && log == old(log) && |styles| == |old(styles)|
        invariant forall i :: 0 <= i < |styles| ==>
          styles[i] == if PositionOf(ms[..t], i).Some? then Paint(old(styles)[i], Yellow) else old(styles)[i]
      {
        var idx := ms[t].idx;
        styles := styles[idx := Paint(styles[idx], Yellow)];
        forall i | 0 <= i < |styles|
          ensures PositionOf(ms[..t + 1], i).Some? <==> PositionOf(ms[..t], i).Some? || i == idx
        {
          PositionIn(ms[..t + 1], i);
          PositionIn(ms[..t], i);
          assert ms[..t + 1][t] == ms[t];
        }
        t := t + 1;
      }
      assert ms[..t] == ms;
    }

    /** Stage B over one group: each member is probed; a hit fills it yellow and adds a credit to
        the name, a miss spends a credit or turns it red and appends its log row. */
    method StageBGroup(es: seq<Entry>, lines: seq<Line>, spans: seq<Span>, ms: seq<Member>, name: string,
                       credits0: map<string, int>) returns (credits: map<string, int>)
      requires GroupOf(es, name, ms) && |styles| == |es|
      requires name !in credits0
      modifies this
      ensures |styles| == |es|
      ensures forall i :: 0 <= i < |es| ==>
        styles[i] == Painted(old(styles), ms, StageB(es, lines, spans, ms).marks, |ms|, i)
      ensures log == old(log) + AsLines(StageB(es, lines, spans, ms).logs)
      ensures credits - {name} == credits0 - {name}
      ensures Credit(credits, name) == StageB(es, lines, spans, ms).credit
    {
      ghost var vs := Visits(es, lines, spans, ms);
      credits := credits0;
      var t := 0;
      while t < |ms|
        invariant 0 <= t <= |ms| && |styles| == |es|
        invariant forall i :: 0 <= i < |es| ==> styles[i] == Painted(old(styles), ms, Run(vs, t).marks, t, i)
        invariant log == old(log) + AsLines(Run(vs, t).logs)
        invariant credits - {name} == credits0 - {name}
        invariant Credit(credits, name) == Run(vs, t).credit
      {
        credits := StageBStep(es, lines, spans, ms, name, vs, t, old(styles), old(log), credits0, credits);
        t := t + 1;
      }
    }

    /** One pass of Stage B's loop: member `t` is visited and the loop's invariant moves on to
        `t + 1`. */
    method StageBStep(es: seq<Entry>, lines: seq<Line>, spans: seq<Span>, ms: seq<Member>, name: string,
                      ghost vs: seq<Visit>, t: nat, ghost styles0: seq<Style>, ghost log0: seq<LogLine>,
                      ghost credits0: map<string, int>, creditsIn: map<string, int>)
      returns (credits: map<string, int>)
      requires GroupOf(es, name, ms) && vs == Visits(es, lines, spans, ms) && t < |ms|
      requires |styles| == |es| && |styles0| == |es|
      requires forall i :: 0 <= i < |es| ==> styles[i] == Painted(styles0, ms, Run(vs, t).marks, t, i)
      requires log == log0 + AsLines(Run(vs, t).logs)
      requires creditsIn - {name} == credits0 - {name} && Credit(creditsIn, name) == Run(vs, t).credit
      modifies this
      ensures |styles| == |es|
      ensures forall i :: 0 <= i < |es| ==> styles[i] == Painted(styles0, ms, Run(vs, t + 1).marks, t + 1, i)
      ensures log == log0 + AsLines(Run(vs, t + 1).logs)
      ensures credits - {name} == credits0 - {name} && Credit(credits, name) == Run(vs, t + 1).credit
    {
      var idx := ms[t].idx;
      ghost var before := styles;
      RunMarks(vs, t + 1);
      credits := VisitMember(lines, spans, es[idx], idx, name, creditsIn, Run(vs, t), vs[t], log0);
      PaintStep(styles0, before, styles, ms, Run(vs, t).marks, Run(vs, t + 1).marks, t);
    }

    /** One member of Stage B: the outcome so far `o` becomes `StepB(o, v)`, the row is painted
        with its new mark and a red row's log line is appended. */
    method VisitMember(lines: seq<Line>, spans: seq<Span>, e: Entry, idx: nat, name: string,
                       credits0: map<string, int>, ghost o: Outcome, ghost v: Visit, ghost base: seq<LogLine>)
      returns (credits: map<string, int>)
      requires idx < |styles| && v == Visit(ProbeOf(lines, spans, e, idx), e, idx)
      requires log == base + AsLines(o.logs) && Credit(credits0, name) == o.credit
      modifies this
      ensures log == base + AsLines(StepB(o, v).logs) && Credit(credits, name) == StepB(o, v).credit
      ensures styles == old(styles)[idx := Paint(old(styles)[idx], StepB(o, v).marks[|o.marks|])]
      ensures credits - {name} == credits0 - {name}
    {
      credits := credits0;
      var p := ProbeRow(lines, spans, e, idx);
      match p {
        case NoRemit =>
          assert styles == old(styles)[idx := Paint(old(styles)[idx], Unmarked)];
        case Hit =>
          styles := styles[idx := Paint(styles[idx], Yellow)];
          credits := credits[name := Credit(credits, name) + 1];
        case Miss(info) =>
          if Credit(credits, name) > 0 {
            credits := credits[name := credits[name] - 1];
            assert styles == old(styles)[idx := Paint(old(styles)[idx], Unmarked)];
          } else {
            styles := styles[idx := Paint(styles[idx], Red)];
            log := log + [LogEntry(RedLog(info, e, idx))];
            assert AsLines(o.logs + [RedLog(info, e, idx)]) == AsLines(o.logs) + [LogEntry(RedLog(info, e, idx))];
          }
      }
    }

    /** One group of the matching loop: Stage A against the amounts listed for the name, then
        Stage B when no unused amount equals the group sum. */
    method ReconcileGroup(es: seq<Entry>, lines: seq<Line>, spans: seq<Span>, name: string,
                          ms: seq<Member>, amounts: seq<Amount>, used0: set<(string, nat)>,
                          credits0: map<string, int>) returns (used: set<(string, nat)>, credits: map<string, int>)
      requires ms == MembersOf(es, name, |es|) && amounts == AmountsFor(lines, name)
      requires |styles| == |es| && name !in credits0 && forall p :: p in used0 ==> p.0 != name
      modifies this
      ensures |styles| == |es|
      ensures forall i :: 0 <= i < |es| ==>
        styles[i] == if RowOf(es, name, i) then Paint(old(styles)[i], RowMark(es, lines, spans, i)) else old(styles)[i]
      ensures log == old(log) + AsLines(GroupOutcome(es, lines, spans, name).logs)
      ensures forall n :: n in credits ==> n in credits0 || n == name
      ensures forall p :: p in used ==> p in used0 || p.0 == name
    {
      MembersOfExact(es, name, |es|);
      forall i | 0 <= i < |es| {
        GroupRows(es, lines, spans, name, i);
      }
      var total := Sum(Prices(ms));
      var found, k := FindUnused(amounts, total, name, used0);
      UnusedIsFirst(amounts, total, name, used0, found, k);
      used, credits := used0, credits0;
      if found {
        used := used + {(name, k)};
        FillGroup(ms);
        assert AsLines([]) == [];
      } else {
        credits := StageBGroup(es, lines, spans, ms, name, credits0);
        OnlyNameAdded(credits0, credits, name);
      }
    }

    /** The matching loop `for name, rows in grouped_rows.items()`, with the used remittance
        amounts and the per-name credits shared across groups. */
    method RunGroups(es: seq<Entry>, lines: seq<Line>, spans: seq<Span>, names: seq<string>,
                     groups: map<string, seq<Member>>, amounts: map<string, seq<Amount>>)
      requires |styles| == |es|
      requires forall a, b :: 0 <= a < b < |names| ==> names[a] != names[b]
      requires forall name :: Get(groups, name) == MembersOf(es, name, |es|)
      requires forall name :: Get(amounts, name) == AmountsFor(lines, name)
      modifies this
      ensures |styles| == |es|
      ensures PaintedFor(es, lines, spans, old(styles), styles, names)
      ensures log == old(log) + AsLines(LogsUpTo(es, lines, spans, names, |names|))
    {
      var used: set<(string, nat)> := {};
      var credits: map<string, int> := map[];
      var g := 0;
      while g < |names|
        invariant 0 <= g <= |names| && |styles| == |es|
        invariant PaintedFor(es, lines, spans, old(styles), styles, names[..g])
        invariant log == old(log) + AsLines(LogsUpTo(es, lines, spans, names, g))
        invariant forall n :: n in credits ==> n in names[..g]
        invariant forall p :: p in used ==> p.0 in names[..g]
      {
        var name := names[g];
        NotBefore(names, g);
        ghost var before := styles;
        ghost var logBefore := log;
        used, credits := ReconcileGroup(es, lines, spans, name, Get(groups, name), Get(amounts, name), used, credits);
        GroupStep(es, lines, spans, names, g, old(styles), before, styles);
        LogStep(es, lines, spans, names, g, old(log), logBefore, log);
        g := g + 1;
      }
      assert names[..g] == names;
    }

    /** The whole pass over the result workbook: the remittance columns are resolved (no name
        column or no price column is an error before anything is written), the log sheet is
        recreated with its header, and every guest group is reconciled in ledger order. Each
        ledger row ends up painted with its mark, and the log holds the groups' log rows in
        group order. */
    method Reconcile(l: Ledger, rm: Remittances) returns (ok: bool)
      requires |styles| == |l.rows|
      modifies this
      ensures ok <==> |Columns(rm)| >= 4 && PriceColumns(Columns(rm)).Some?
      ensures !ok ==> styles == old(styles) && log == old(log)
      ensures ok ==>
        var es := Entries(l);
        var lines := Lines(AllRows(rm.files), PriceColumns(Columns(rm)).value);
        var spans := Spans(rm.files);
        |styles| == |es| &&
        (forall i :: 0 <= i < |es| ==> styles[i] == Paint(old(styles)[i], RowMark(es, lines, spans, i))) &&
        log == [LogHeader] + AsLines(AllLogs(es, lines, spans))
    {
      var header := Columns(rm);
      if |header| < 4 {
        return false;
      }
      var cols := PriceColumns(header);
      if cols.None? {
        return false;
      }
      log := [LogHeader];
      var spans, all := BuildFileMap(rm.files);
      var lines := Lines(all, cols.value);
      var amounts := CollectAmounts(lines);
      var es := Entries(l);
      var names, groups := BuildGroups(es);
      NamesOfDistinct(es, |es|);
      ghost var before := styles;
      RunGroups(es, lines, spans, names, groups, amounts);
      EveryGroupPainted(es, lines, spans, before, styles);
      return true;
    }
  }

  lemma {:induction false} OnlyNameAdded(m0: map<string, int>, m: map<string, int>, name: string)
    requires m - {name} == m0 - {name}
    ensures forall n :: n in m ==> n in m0 || n == name
  {
    forall n | n in m && n != name
      ensures n in m0
    {
      assert n in m - {name};
    }
  }

  /** `matched_remit_names.get(name, 0)`. */
  function Credit(credits: map<string, int>, name: string): int {
    if name in credits then credits[name] else 0
  }

  lemma {:induction false} AsLinesAppend(a: seq<LogRow>, b: seq<LogRow>)
    ensures AsLines(a + b) == AsLines(a) + AsLines(b)
  {
  }

  /** `after` is `old0` with the rows of the guests in `ns` painted with their marks. */
  ghost predicate PaintedFor(es: seq<Entry>, lines: seq<Line>, spans: seq<Span>, old0: seq<Style>, after: seq<Style>,
                             ns: seq<string>) {
    |old0| == |es| && |after| == |es| &&
    forall i :: 0 <= i < |es| ==>
      after[i] == if es[i].agoda && es[i].name in ns then Paint(old0[i], RowMark(es, lines, spans, i)) else old0[i]
  }

  /** Reconciling group `g` extends the painted rows by the rows of that group's guest. */
  lemma {:induction false} GroupStep(es: seq<Entry>, lines: seq<Line>, spans: seq<Span>, names: seq<string>, g: nat,
                                     old0: seq<Style>, before: seq<Style>, after: seq<Style>)
    requires g < |names| && names[g] !in names[..g]
    requires PaintedFor(es, lines, spans, old0, before, names[..g]) && |after| == |es|
    requires forall i :: 0 <= i < |es| ==>
      after[i] == if RowOf(es, names[g], i) then Paint(before[i], RowMark(es, lines, spans, i)) else before[i]
    ensures PaintedFor(es, lines, spans, old0, after, names[..g + 1])
  {
    assert names[..g + 1] == names[..g] + [names[g]];
  }

  /** Reconciling group `g` appends that group's log rows after the earlier groups' rows. */
  lemma {:induction false} LogStep(es: seq<Entry>, lines: seq<Line>, spans: seq<Span>, names: seq<string>, g: nat,
                                   base: seq<LogLine>, before: seq<LogLine>, after: seq<LogLine>)
    requires g < |names|
    requires before == base + AsLines(LogsUpTo(es, lines, spans, names, g))
    requires after == before + AsLines(GroupOutcome(es, lines, spans, names[g]).logs)
    ensures after == base + AsLines(LogsUpTo(es, lines, spans, names, g + 1))
  {
    AsLinesAppend(LogsUpTo(es, lines, spans, names, g), GroupOutcome(es, lines, spans, names[g]).logs);
  }

  /** Distinct keys: the key at `g` is not among the earlier ones. */
  lemma {:induction false} NotBefore(names: seq<string>, g: nat)
    requires g < |names|
    requires forall a, b :: 0 <= a < b < |names| ==> names[a] != names[b]
    ensures names[g] !in names[..g]
  {
    forall a | 0 <= a < g ensures names[..g][a] != names[g] {
      assert names[..g][a] == names[a];
    }
  }

  /** Every Agoda row's guest is a key of `grouped_rows`, so painting the rows of every key paints
      each row with its mark. */
  lemma {:induction false} EveryGroupPainted(es: seq<Entry>, lines: seq<Line>, spans: seq<Span>,
                                             old0: seq<Style>, after: seq<Style>)
    requires PaintedFor(es, lines, spans, old0, after, NamesOf(es, |es|))
    ensures forall i :: 0 <= i < |es| ==> after[i] == Paint(old0[i], RowMark(es, lines, spans, i))
  {
    forall i | 0 <= i < |es| && es[i].agoda
      ensures es[i].name in NamesOf(es, |es|)
    {
      NamesOfExact(es, |es|, es[i].name);
      assert RowOf(es, es[i].name, i);
    }
  }

  /** `PositionOf` finds a row exactly when some member has it. */
  lemma {:induction false} PositionIn(ms: seq<Member>, i: nat)
    ensures PositionOf(ms, i).Some? <==> exists k :: 0 <= k < |ms| && ms[k].idx == i
  {
  }

  /** Painting member `t` with its mark extends the painted styles by that one row. */
  lemma {:induction false} PaintStep(old0: seq<Style>, before: seq<Style>, after: seq<Style>, ms: seq<Member>,
                  marks: seq<Mark>, marks': seq<Mark>, t: nat)
    requires t < |ms| && ms[t].idx < |old0| && |before| == |old0|
    requires |marks| == t && |marks'| == t + 1 && marks' == marks + [marks'[t]]
    requires forall a, b :: 0 <= a < b < |ms| ==> ms[a].idx < ms[b].idx
    requires forall i :: 0 <= i < |old0| ==> before[i] == Painted(old0, ms, marks, t, i)
    requires after == before[ms[t].idx := Paint(before[ms[t].idx], marks'[t])]
    ensures forall i :: 0 <= i < |old0| ==> after[i] == Painted(old0, ms, marks', t + 1, i)
  {
  }
}

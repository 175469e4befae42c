/** The embedded-payload scanner of the Expedia statements page: after the marker
    `statementsAndInvoicesPayload: ` it finds the end of the brace-balanced object, counting braces
    only outside double-quoted strings and letting a backslash skip the next character. */
module Payload {
  import opened Text

  const Marker: string := "statementsAndInvoicesPayload: "

  /** The scanner variables `brace_count`, `in_string` and `escape_next`. */
  datatype ScanState = ScanState(depth: int, inString: bool, escape: bool)

  const Initial: ScanState := ScanState(0, false, false)

  /** One character of the loop body: the next state, or `None` when the character is the `}` that
      brings the depth back to zero (the loop breaks there). */
  function Step(st: ScanState, c: char): (r: Option<ScanState>)
    ensures r.None? <==> !st.escape && c == '}' && !st.inString && st.depth == 1
  {
    if st.escape then Some(st.(escape := false))
    else if c == '\\' then Some(st.(escape := true))
    else if c == '"' then Some(st.(inString := !st.inString))
    else if st.inString then Some(st)
    else if c == '{' then Some(st.(depth := st.depth + 1))
    else if c == '}' then
      if st.depth - 1 == 0 then None else Some(st.(depth := st.depth - 1))
    else Some(st)
  }

  /** Scanning a text: closed after `n` characters, or still open in some state at its end. */
  datatype Scan = Closed(n: nat) | Open(st: ScanState)

  function Run(st: ScanState, t: string): (r: Scan)
    ensures r.Closed? ==> 1 <= r.n <= |t|
    decreases |t|
  {
    if t == [] then Open(st)
    else match Step(st, t[0])
      case None => Closed(1)
      case Some(st') =>
        match Run(st', t[1..])
        case Closed(n) => Closed(n + 1)
        case Open(st'') => Open(st'')
  }

  /** Scanning `a + b` is scanning `a`, then, if it is still open, `b` from where `a` left off. */
  lemma {:induction false} RunAppend(st: ScanState, a: string, b: string)
    ensures Run(st, a + b) ==
      match Run(st, a)
      case Closed(n) => Closed(n)
      case Open(st') =>
        match Run(st', b)
        case Closed(m) => Closed(|a| + m)
        case Open(st'') => Open(st'')
    decreases |a|
  {
    if a == [] {
      assert a + b == b;
    } else {
      assert (a + b)[0] == a[0];
      assert (a + b)[1..] == a[1..] + b;
      if Step(st, a[0]).Some? {
        RunAppend(Step(st, a[0]).value, a[1..], b);
      }
    }
  }

  /** The end of the object: one past the closing `}`, or `start` itself when the depth never
      returns to zero. */
  function ObjectEnd(s: string, start: nat): (e: nat)
    requires start <= |s|
    ensures start <= e <= |s|
  {
    match Run(Initial, s[start..])
    case Closed(n) => start + n
    case Open(_) => start
  }

  /** The `for i in range(start_idx, len(page_source))` loop with its early `break`. */
  method ScanObjectEnd(s: string, start: nat) returns (end: nat)
    requires start <= |s|
    ensures end == ObjectEnd(s, start)
  {
    var depth := 0;
    var inString := false;
    var escape := false;
    end := start;
    var i := start;
    while i < |s|
      invariant start <= i <= |s|
      invariant Run(Initial, s[start..i]) == Open(ScanState(depth, inString, escape))
    {
      var c := s[i];
      RunAppend(Initial, s[start..i], [c]);
      assert s[start..i + 1] == s[start..i] + [c];
      if escape {
        escape := false;
      } else if c == '\\' {
        escape := true;
      } else if c == '"' {
        inString := !inString;
      } else if !inString {
        if c == '{' {
          depth := depth + 1;
        } else if c == '}' {
          depth := depth - 1;
          if depth == 0 {
            end := i + 1;
            RunAppend(Initial, s[start..i + 1], s[i + 1..]);
            assert s[start..] == s[start..i + 1] + s[i + 1..];
            return;
          }
        }
      }
      i := i + 1;
    }
    assert s[start..] == s[start..i];
  }

  /** The text handed to `json.loads`, or `None` when the marker is absent. An empty slice cannot
      be decoded, so it is `None` as well. */
  function PayloadText(s: string): (r: Option<string>)
    ensures Find(s, Marker).None? ==> r.None?
  {
    match Find(s, Marker)
    case None => None
    case Some(p) =>
      var start := p + |Marker|;
      var slice := s[start..ObjectEnd(s, start)];
      if slice == "" then None else Some(slice)
  }

  /** `extract_payload` up to the JSON decoding. */
  method ExtractPayload(s: string) returns (r: Option<string>)
    ensures r == PayloadText(s)
  {
    var p := Find(s, Marker);
    if p.None? {
      return None;
    }
    var start := p.value + |Marker|;
    var end := ScanObjectEnd(s, start);
    if end == start {
      return None;
    }
    return Some(s[start..end]);
  }

  // ---------------------------------------------------------------------------------------
  // Balanced objects

  /** The text of a JavaScript object literal, as pieces: a character with no meaning to the
      scanner, a backslash pair, a double-quoted string, or a nested object. */
  datatype Piece = Plain(c: char) | Escaped(c: char) | Quoted(body: seq<QPiece>) | Object(items: seq<Piece>)

  /** A piece of a string body: an ordinary character or a backslash pair. */
  datatype QPiece = QChar(c: char) | QEscaped(c: char)

  predicate PlainChar(c: char) {
    c != '{' && c != '}' && c != '"' && c != '\\'
  }

  predicate QuotedWf(body: seq<QPiece>) {
    forall k :: 0 <= k < |body| ==> body[k].QChar? ==> body[k].c != '"' && body[k].c != '\\'
  }

  predicate PieceWf(p: Piece)
    decreases p
  {
    match p
    case Plain(c) => PlainChar(c)
    case Escaped(_) => true
    case Quoted(body) => QuotedWf(body)
    case Object(items) => ItemsWf(items)
  }

  predicate ItemsWf(ps: seq<Piece>)
    decreases ps
  {
    ps == [] || (PieceWf(ps[0]) && ItemsWf(ps[1..]))
  }

  function QuotedText(body: seq<QPiece>): string
    decreases |body|
  {
    if body == [] then []
    else (match body[0] case QChar(c) => [c] case QEscaped(c) => ['\\', c]) + QuotedText(body[1..])
  }

  function PieceText(p: Piece): string
    decreases p
  {
    match p
    case Plain(c) => [c]
    case Escaped(c) => ['\\', c]
    case Quoted(body) => ['"'] + QuotedText(body) + ['"']
    case Object(items) => ['{'] + ItemsText(items) + ['}']
  }

  function ItemsText(ps: seq<Piece>): string
    decreases ps
  {
    if ps == [] then [] else PieceText(ps[0]) + ItemsText(ps[1..])
  }

  /** The state outside any string at depth `d`. */
  function At(d: int): ScanState {
    ScanState(d, false, false)
  }

  /** Inside a string nothing changes the depth: a string body leaves the scanner inside the
      string at the depth it had. */
  lemma {:induction false} QuotedNeutral(body: seq<QPiece>, d: int)
    requires QuotedWf(body)
    ensures Run(ScanState(d, true, false), QuotedText(body)) == Open(ScanState(d, true, false))
    decreases |body|
  {
    if body != [] {
      var head := match body[0] case QChar(c) => [c] case QEscaped(c) => ['\\', c];
      assert QuotedText(body) == head + QuotedText(body[1..]);
      assert QuotedWf(body[1..]) by {
        forall k | 0 <= k < |body[1..]| && body[1..][k].QChar?
          ensures body[1..][k].c != '"' && body[1..][k].c != '\\'
        {
          assert body[1..][k] == body[k + 1];
        }
      }
      QuotedNeutral(body[1..], d);
      RunAppend(ScanState(d, true, false), head, QuotedText(body[1..]));
      if body[0].QEscaped? {
        assert head[1..] == [body[0].c];
      }
    }
  }

  /** A well-formed piece inside an object (depth at least one) leaves the depth as it found it. */
  lemma {:induction false} PieceNeutral(p: Piece, d: int)
    requires PieceWf(p) && d >= 1
    ensures Run(At(d), PieceText(p)) == Open(At(d))
    decreases p, 1
  {
    match p
    case Plain(c) =>
    case Escaped(c) =>
      assert PieceText(p)[1..] == [c] && [c][1..] == [];
      assert Run(ScanState(d, false, true), [c]) == Open(At(d));
    case Quoted(body) =>
      QuotedNeutral(body, d);
      RunAppend(At(d), ['"'], QuotedText(body));
      RunAppend(At(d), ['"'] + QuotedText(body), ['"']);
    case Object(items) =>
      ItemsNeutral(items, d + 1);
      RunAppend(At(d), ['{'], ItemsText(items));
      RunAppend(At(d), ['{'] + ItemsText(items), ['}']);
  }

  lemma {:induction false} ItemsNeutral(ps: seq<Piece>, d: int)
    requires ItemsWf(ps) && d >= 1
    ensures Run(At(d), ItemsText(ps)) == Open(At(d))
    decreases ps, 0
  {
    if ps != [] {
      PieceNeutral(ps[0], d);
      ItemsNeutral(ps[1..], d);
      RunAppend(At(d), PieceText(ps[0]), ItemsText(ps[1..]));
    }
  }

  /** Scanning a balanced object from the start closes exactly at its final `}`, whatever follows. */
  lemma {:induction false} ObjectCloses(items: seq<Piece>, rest: string)
    requires ItemsWf(items)
    ensures Run(Initial, PieceText(Object(items)) + rest) == Closed(|PieceText(Object(items))|)
  {
    ItemsNeutral(items, 1);
    RunAppend(Initial, ['{'], ItemsText(items));
    RunAppend(Initial, ['{'] + ItemsText(items), ['}']);
    RunAppend(Initial, PieceText(Object(items)), rest);
  }

  /** When the first marker is followed by a balanced object and any trailing text, the payload is
      exactly that object. */
  lemma {:induction false} PayloadIsObject(s: string, items: seq<Piece>, rest: string)
    requires Find(s, Marker).Some? && ItemsWf(items)
    requires s[Find(s, Marker).value + |Marker|..] == PieceText(Object(items)) + rest
    ensures PayloadText(s) == Some(PieceText(Object(items)))
  {
    var start := Find(s, Marker).value + |Marker|;
    ObjectCloses(items, rest);
    var n := |PieceText(Object(items))|;
    assert ObjectEnd(s, start) == start + n;
    assert s[start..start + n] == PieceText(Object(items));
  }

  /** When the depth never returns to zero, there is no payload. */
  lemma {:induction false} UnclosedIsNone(s: string)
    requires Find(s, Marker).Some?
    requires Run(Initial, s[Find(s, Marker).value + |Marker|..]).Open?
    ensures PayloadText(s) == None
  {
  }
}

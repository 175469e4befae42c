/** The `date_amount` keys the statement downloaders use to tell which statements are already
    saved: the key of a summary-sheet row, and the key read back from a saved file's name. */
module Keys {
  import opened Text
  import opened Numbers
  import opened Sheets

  // ---------------------------------------------------------------------------------------
  // Keys of summary-sheet rows

  /** `f"{str(row[dateCol]).replace('-', '')}_{str(row[amountCol]).replace(',', '').replace('.0', '').strip()}"`
      for a data row whose date and amount cells are both set. */
  function RecordKey(r: Row, dateCol: nat, amountCol: nat): Option<string> {
    if Truthy(CellAt(r, dateCol)) && Truthy(CellAt(r, amountCol)) then
      Some(Delete(CellAt(r, dateCol).value, "-") + "_"
           + Strip(Delete(Delete(CellAt(r, amountCol).value, ","), ".0")))
    else None
  }

  /** The keys of the data rows that have one. */
  function RecordKeys(rows: seq<Row>, dateCol: nat, amountCol: nat): set<string> {
    set i | 0 <= i < |rows| && RecordKey(rows[i], dateCol, amountCol).Some? :: RecordKey(rows[i], dateCol, amountCol).value
  }

  /** The loop collecting `excel_records` from the data rows. */
  method CollectRecordKeys(rows: seq<Row>, dateCol: nat, amountCol: nat) returns (keys: set<string>)
    ensures keys == RecordKeys(rows, dateCol, amountCol)
  {
    keys := {};
    var i := 0;
    while i < |rows|
      invariant 0 <= i <= |rows|
      invariant forall k :: k in keys <==> exists j :: 0 <= j < i && RecordKey(rows[j], dateCol, amountCol) == Some(k)
    {
      var key := RecordKey(rows[i], dateCol, amountCol);
      if key.Some? {
        keys := keys + {key.value};
      }
      i := i + 1;
    }
  }

  /** `str(i)` holds no `.`, `_`, `,` or surrounding whitespace, and is never empty. */
  lemma IntStrClean(i: int)
    ensures var a := IntStr(i); a != [] && '.' !in a && '_' !in a && ',' !in a
    ensures var a := IntStr(i); !IsSpace(a[0]) && !IsSpace(a[|a| - 1])
  {
    var n := if i < 0 then -i else i;
    NatStrNoComma(n);
    var d := NatStr(n);
    assert IsDigit(d[|d| - 1]);
    if i < 0 {
      assert IntStr(i) == "-" + d;
      assert IntStr(i)[|IntStr(i)| - 1] == d[|d| - 1];
    } else {
      assert IsDigit(d[0]);
    }
  }

  /** An amount cell written as `f"{i:,}"` reads back as `str(i)`. */
  lemma ThousandsReadBack(i: int)
    ensures Thousands(i) != ""
    ensures Strip(Delete(Delete(Thousands(i), ","), ".0")) == IntStr(i)
  {
    ThousandsWithoutCommas(i);
    IntStrClean(i);
    DeleteAbsent(IntStr(i), ".0");
    StripTrimmed(IntStr(i));
  }

  // ---------------------------------------------------------------------------------------
  // Keys of saved file names

  /** The position of the last `.` of `s`. */
  function LastDot(s: string): (r: Option<nat>)
    ensures r.Some? ==> r.value < |s| && s[r.value] == '.' && '.' !in s[r.value + 1..]
    ensures r.None? ==> '.' !in s
    decreases |s|
  {
    if s == [] then None
    else if s[|s| - 1] == '.' then Some(|s| - 1)
    else
      var r := LastDot(s[..|s| - 1]);
      assert forall x :: x in s ==> x in s[..|s| - 1] || x == s[|s| - 1] by {
        assert s == s[..|s| - 1] + [s[|s| - 1]];
      }
      if r.Some? then
        assert s[r.value + 1..] == s[..|s| - 1][r.value + 1..] + [s[|s| - 1]];
        r
      else r
  }

  /** `Path(name).stem`: the name without its suffix; a leading or trailing dot is no suffix. */
  function Stem(name: string): string {
    match LastDot(name)
    case Some(i) => if 0 < i < |name| - 1 then name[..i] else name
    case None => name
  }

  /** `parts = f.stem.split('_')`: `f"{parts[1]}_{parts[2]}"` when there are at least three parts. */
  function FileKey(name: string): Option<string> {
    var parts := Split(Stem(name), '_');
    if |parts| >= 3 then Some(parts[1] + "_" + parts[2]) else None
  }

  /** The keys of the names that have one. */
  function FileKeys(names: seq<string>): set<string> {
    set i | 0 <= i < |names| && FileKey(names[i]).Some? :: FileKey(names[i]).value
  }

  /** The loop collecting `existing_files` from the names of the saved statements. */
  method CollectFileKeys(names: seq<string>) returns (keys: set<string>)
    ensures keys == FileKeys(names)
  {
    keys := {};
    var i := 0;
    while i < |names|
      invariant 0 <= i <= |names|
      invariant forall k :: k in keys <==> exists j :: 0 <= j < i && FileKey(names[j]) == Some(k)
    {
      var key := FileKey(names[i]);
      if key.Some? {
        keys := keys + {key.value};
      }
      i := i + 1;
    }
  }

  /** A dot-free base followed by a proper suffix has that base as its stem. */
  lemma {:induction false} StemOf(base: string, ext: string)
    requires |base| >= 1 && '.' !in base
    requires |ext| >= 2 && ext[0] == '.' && '.' !in ext[1..]
    ensures Stem(base + ext) == base
  {
    var name := base + ext;
    assert name[|base| + 1..] == ext[1..];
    assert name[|base|] == '.' && name[|base|] in name;
    var i := LastDot(name).value;
    assert i == |base|;
    assert name[..|base|] == base;
  }

  /** The three parts of a saved name, joined by `_`, split back into the same three parts. */
  lemma ThreeParts(p: string, d: string, a: string)
    requires '_' !in p && '_' !in d && '_' !in a
    ensures Split(p + "_" + d + "_" + a, '_') == [p, d, a]
  {
    var parts := [p, d, a];
    assert Join([a], '_') == a;
    assert [d, a][1..] == [a];
    assert Join([d, a], '_') == d + "_" + a;
    assert parts[1..] == [d, a];
    assert Join(parts, '_') == p + "_" + (d + "_" + a);
    assert p + "_" + (d + "_" + a) == p + "_" + d + "_" + a;
    SplitJoin(parts, '_');
  }

  /** A name `{prefix}_{date}_{amount}{ext}` yields the key `{date}_{amount}` it was built from. */
  lemma NameKey(prefix: string, d: string, a: string, t: string)
    requires prefix != [] && '_' !in prefix && '.' !in prefix
    requires '_' !in d && '.' !in d && '_' !in a && '.' !in a
    requires |t| >= 2 && t[0] == '.' && '.' !in t[1..]
    ensures FileKey(prefix + "_" + d + "_" + a + t) == Some(d + "_" + a)
  {
    var base := prefix + "_" + d + "_" + a;
    assert '.' !in base;
    StemOf(base, t);
    ThreeParts(prefix, d, a);
  }
}

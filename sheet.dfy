/** Worksheet rows and the "sort data rows by column A, latest first" step shared by the three
    summary sheets (`익스피디아`, `부킹`, `아고다`). */
module Sheets {
  import opened Text

  /** A cell value: `None` is an empty cell. Cell values other than strings are not modelled. */
  type Cell = Option<string>
  type Row = seq<Cell>

  /** The value of column `k` (0-based), `None` past the end of the row. */
  function CellAt(r: Row, k: nat): Cell {
    if k < |r| then r[k] else None
  }

  /** A cell's value as Python's truthiness sees it: empty cells and `''` are false. */
  predicate Truthy(c: Cell) {
    c.Some? && c.value != ""
  }

  /** The sort key `x[0] if x[0] else ''`. */
  function SortKey(r: Row): string {
    if Truthy(CellAt(r, 0)) then CellAt(r, 0).value else ""
  }

  /** `a` comes no later than `b` in a descending order. */
  predicate Before(a: Row, b: Row) {
    !LexLess(SortKey(a), SortKey(b))
  }

  predicate SortedDesc(rs: seq<Row>) {
    forall i, j :: 0 <= i < j < |rs| ==> Before(rs[i], rs[j])
  }

  /** `x` placed after every row whose key is at least its own. */
  function Insert(x: Row, ys: seq<Row>): (r: seq<Row>)
    ensures |r| == |ys| + 1
    decreases |ys|
  {
    if ys == [] then [x]
    else if LexLess(SortKey(ys[0]), SortKey(x)) then [x] + ys
    else [ys[0]] + Insert(x, ys[1..])
  }

  /** `rows.sort(key=..., reverse=True)`: a stable sort, latest key first. */
  function SortDesc(rs: seq<Row>): seq<Row>
    decreases |rs|
  {
    if rs == [] then [] else Insert(rs[|rs| - 1], SortDesc(rs[..|rs| - 1]))
  }

  lemma NotLessTransitive(a: string, b: string, c: string)
    requires !LexLess(a, b) && !LexLess(b, c)
    ensures !LexLess(a, c)
  {
    LexLessTotal(a, b);
    LexLessTotal(b, c);
    if LexLess(a, c) {
      if a == b {
        LexLessAsymmetric(b, c);
      } else if b == c {
        LexLessAsymmetric(a, b);
      } else {
        LexLessTransitive(c, b, a);
        LexLessAsymmetric(c, a);
      }
    }
  }

  lemma {:induction false} InsertElements(x: Row, ys: seq<Row>)
    ensures multiset(Insert(x, ys)) == multiset(ys) + multiset{x}
    decreases |ys|
  {
    if ys != [] && !LexLess(SortKey(ys[0]), SortKey(x)) {
      InsertElements(x, ys[1..]);
      assert ys == [ys[0]] + ys[1..];
    }
  }

  lemma {:induction false} InsertSorted(x: Row, ys: seq<Row>)
    requires SortedDesc(ys)
    ensures SortedDesc(Insert(x, ys))
    decreases |ys|
  {
    if ys == [] {
    } else if LexLess(SortKey(ys[0]), SortKey(x)) {
      var r := Insert(x, ys);
      LexLessAsymmetric(SortKey(ys[0]), SortKey(x));
      forall i, j | 0 <= i < j < |r| ensures Before(r[i], r[j]) {
        if i == 0 && j > 1 {
          NotLessTransitive(SortKey(x), SortKey(ys[0]), SortKey(ys[j - 1]));
        }
      }
    } else {
      InsertSorted(x, ys[1..]);
      var r := Insert(x, ys);
      var t := Insert(x, ys[1..]);
      InsertElements(x, ys[1..]);
      forall j | 0 < j < |r| ensures Before(ys[0], r[j]) {
        assert r[j] == t[j - 1];
        assert t[j - 1] in multiset(t);
        assert t[j - 1] == x || t[j - 1] in multiset(ys[1..]);
        if t[j - 1] != x {
          var k :| 0 <= k < |ys[1..]| && ys[1..][k] == t[j - 1];
          assert Before(ys[0], ys[k + 1]);
        }
      }
    }
  }

  /** The sort puts every row after the rows with a later key. */
  lemma {:induction false} SortDescSorted(rs: seq<Row>)
    ensures SortedDesc(SortDesc(rs))
    decreases |rs|
  {
    if rs != [] {
      SortDescSorted(rs[..|rs| - 1]);
      InsertSorted(rs[|rs| - 1], SortDesc(rs[..|rs| - 1]));
    }
  }

  /** The sort neither loses nor invents a row. */
  lemma {:induction false} SortDescPermutes(rs: seq<Row>)
    ensures multiset(SortDesc(rs)) == multiset(rs)
    decreases |rs|
  {
    if rs != [] {
      SortDescPermutes(rs[..|rs| - 1]);
      InsertElements(rs[|rs| - 1], SortDesc(rs[..|rs| - 1]));
      assert rs == rs[..|rs| - 1] + [rs[|rs| - 1]];
    }
  }

  /** The rows whose key is `k`, in order. */
  function WithKey(rs: seq<Row>, k: string): (r: seq<Row>)
    ensures |r| <= |rs|
    decreases |rs|
  {
    if rs == [] then []
    else (if SortKey(rs[0]) == k then [rs[0]] else []) + WithKey(rs[1..], k)
  }

  lemma {:induction false} WithKeyAppend(a: seq<Row>, b: seq<Row>, k: string)
    ensures WithKey(a + b, k) == WithKey(a, k) + WithKey(b, k)
    decreases |a|
  {
    if a != [] {
      assert (a + b)[1..] == a[1..] + b;
      WithKeyAppend(a[1..], b, k);
    } else {
      assert a + b == b;
    }
  }

  /** In a descending sequence, a row's equal-keyed companions all stand before the rows it
      is inserted ahead of. */
  lemma {:induction false} InsertWithKey(x: Row, ys: seq<Row>, k: string)
    requires SortedDesc(ys)
    ensures WithKey(Insert(x, ys), k) == WithKey(ys, k) + (if SortKey(x) == k then [x] else [])
    decreases |ys|
  {
    if ys == [] {
    } else if LexLess(SortKey(ys[0]), SortKey(x)) {
      InsertFront(x, ys, k);
    } else {
      var rest := ys[1..];
      SortedTail(ys);
      InsertWithKey(x, rest, k);
      assert Insert(x, ys) == [ys[0]] + Insert(x, rest);
      WithKeyCons(ys[0], Insert(x, rest), k);
      WithKeyCons(ys[0], rest, k);
      assert ys == [ys[0]] + rest;
    }
  }

  /** A row inserted in front of a descending sequence comes after its equal-keyed rows, since
      there are none. */
  lemma InsertFront(x: Row, ys: seq<Row>, k: string)
    requires SortedDesc(ys) && ys != [] && LexLess(SortKey(ys[0]), SortKey(x))
    ensures WithKey(Insert(x, ys), k) == WithKey(ys, k) + (if SortKey(x) == k then [x] else [])
  {
    assert Insert(x, ys) == [x] + ys;
    WithKeyCons(x, ys, k);
    if SortKey(x) == k {
      NoneWithKey(ys, k);
    }
  }

  lemma SortedTail(ys: seq<Row>)
    requires SortedDesc(ys) && ys != []
    ensures SortedDesc(ys[1..])
  {
    var rest := ys[1..];
    forall i, j | 0 <= i < j < |rest| ensures Before(rest[i], rest[j]) {
      assert rest[i] == ys[i + 1] && rest[j] == ys[j + 1];
    }
  }

  lemma WithKeyCons(r: Row, rs: seq<Row>, k: string)
    ensures WithKey([r] + rs, k) == (if SortKey(r) == k then [r] else []) + WithKey(rs, k)
  {
    assert ([r] + rs)[0] == r && ([r] + rs)[1..] == rs;
  }

  /** Below a row whose key is less than `k`, a descending sequence holds no row keyed `k`. */
  lemma NoneWithKey(ys: seq<Row>, k: string)
    requires SortedDesc(ys) && ys != [] && LexLess(SortKey(ys[0]), k)
    ensures WithKey(ys, k) == []
  {
    forall j | 0 <= j < |ys| ensures SortKey(ys[j]) != k {
      if j == 0 {
        LexLessIrreflexive(k);
      } else {
        assert Before(ys[0], ys[j]);
      }
    }
    NoKeyNoRows(ys, k);
  }

  lemma {:induction false} NoKeyNoRows(ys: seq<Row>, k: string)
    requires forall j :: 0 <= j < |ys| ==> SortKey(ys[j]) != k
    ensures WithKey(ys, k) == []
    decreases |ys|
  {
    if ys != [] {
      NoKeyNoRows(ys[1..], k);
    }
  }

  /** The sort is stable: rows sharing a key keep their original order. */
  lemma {:induction false} SortDescStable(rs: seq<Row>, k: string)
    ensures WithKey(SortDesc(rs), k) == WithKey(rs, k)
    decreases |rs|
  {
    if rs != [] {
      var init, x := rs[..|rs| - 1], rs[|rs| - 1];
      SortDescStable(init, k);
      SortDescSorted(init);
      InsertWithKey(x, SortDesc(init), k);
      assert rs == init + [x];
      WithKeyAppend(init, [x], k);
    }
  }

  /** Every row has a non-empty id in column `col` outside `seen`, and no two rows share one. */
  predicate FreshIds(rs: seq<Row>, col: nat, seen: set<string>) {
    && (forall k :: 0 <= k < |rs| ==> Truthy(CellAt(rs[k], col)) && CellAt(rs[k], col).value !in seen)
    && (forall a, b :: 0 <= a < b < |rs| ==> CellAt(rs[a], col) != CellAt(rs[b], col))
  }

  /** A row with a new id in front of rows whose ids are new even once it is seen. */
  lemma FreshCons(r: Row, rest: seq<Row>, col: nat, id: string, seen: set<string>)
    requires FreshIds(rest, col, seen + {id}) && CellAt(r, col) == Some(id) && id != "" && id !in seen
    ensures FreshIds([r] + rest, col, seen)
  {
    var rs := [r] + rest;
    forall k | 0 <= k < |rs| ensures Truthy(CellAt(rs[k], col)) && CellAt(rs[k], col).value !in seen {
      if k > 0 {
        assert rs[k] == rest[k - 1];
      }
    }
    forall a, b | 0 <= a < b < |rs| ensures CellAt(rs[a], col) != CellAt(rs[b], col) {
      assert rs[b] == rest[b - 1];
      if a > 0 {
        assert rs[a] == rest[a - 1];
      }
    }
  }

  /** The data rows after appending `r`, with more rows to come after it. */
  lemma AppendData(rows: seq<Row>, r: Row, rest: seq<Row>)
    requires |rows| >= 1
    ensures (rows + [r])[1..] + rest == rows[1..] + ([r] + rest)
  {
    assert (rows + [r])[1..] == rows[1..] + [r];
  }

  /** A worksheet: row 0 is the header, the rest are data rows. */
  class Sheet {
    var rows: seq<Row>

    predicate Valid()
      reads this
    {
      |rows| >= 1
    }

    constructor(header: Row)
      ensures Valid() && rows == [header]
    {
      rows := [header];
    }

    /** `ws.append(r)`. */
    method Append(r: Row)
      requires Valid()
      modifies this
      ensures Valid() && rows == old(rows) + [r]
    {
      rows := rows + [r];
    }

    /** `ws.cell(row=1, column=k+1, value=v)` on the header row. */
    method SetHeaderCell(k: nat, v: Cell)
      requires Valid()
      modifies this
      ensures Valid() && rows[1..] == old(rows)[1..]
      ensures |rows[0]| == if k < |old(rows)[0]| then |old(rows)[0]| else k + 1
      ensures rows[0][k] == v
      ensures forall j :: 0 <= j < |rows[0]| && j != k ==> rows[0][j] == CellAt(old(rows)[0], j)
    {
      var h := rows[0];
      var padded := if k < |h| then h else h + seq(k + 1 - |h|, _ => None);
      rows := [padded[k := v]] + rows[1..];
    }

    /** Read the data rows, sort them latest first on column A, and write them back under the header. */
    method SortByColumnA()
      requires Valid()
      modifies this
      ensures Valid() && rows[0] == old(rows)[0]
      ensures rows[1..] == SortDesc(old(rows)[1..])
    {
      if |rows| > 1 {
        var data := rows[1..];
        rows := [rows[0]] + SortDesc(data);
      }
      assert rows[1..] == SortDesc(old(rows)[1..]);
    }
  }
}

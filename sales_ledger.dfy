/** The ledger side of the reconciliation: which rows are Agoda bookings, their guest names and
    prices, and the grouping of those rows by guest name (`grouped_rows`). */
module SalesLedger {
  import opened Text
  import opened Sheets
  import opened SalesCells

  /** The first sheet of the result workbook: its header labels and its data rows; data row
      `idx` is worksheet row `idx + 2`. */
  datatype Ledger = Ledger(header: seq<string>, rows: seq<Row>)

  /** `row.get('거래처', '')` looks the vendor up by its exact label. */
  function VendorCol(l: Ledger): Option<nat> { ExactCol(l.header, "거래처") }
  /** `col_name_all = find_col(df_all.columns, '고객')`. */
  function NameCol(l: Ledger): Option<nat> { FirstContaining(l.header, "고객") }
  /** `col_price_all_1 = find_col(df_all.columns, '객실')`, the room charge. */
  function RoomCol(l: Ledger): Option<nat> { FirstContaining(l.header, "객실") }
  /** `col_price_all_2 = find_col(df_all.columns, '합계')`, the total. */
  function TotalCol(l: Ledger): Option<nat> { FirstContaining(l.header, "합계") }

  predicate IsAgoda(l: Ledger, r: Row) {
    Strip(CellText(r, VendorCol(l))) == "아고다"
  }

  function GuestName(l: Ledger, r: Row): string {
    Strip(CellText(r, NameCol(l)))
  }

  /** `float` of the room charge text; `None` when it raises. */
  function RoomPrice(l: Ledger, r: Row): Option<Amount> {
    ParseAmount(PriceText(r, RoomCol(l)))
  }

  /** `float` of the total text; `None` when it raises. */
  function TotalPrice(l: Ledger, r: Row): Option<Amount> {
    ParseAmount(PriceText(r, TotalCol(l)))
  }

  /** What the reconciliation reads from one ledger row: whether it is an Agoda row, the stripped
      guest name, and `float` of the room charge and of the total (`None` when it raises). */
  datatype Entry = Entry(agoda: bool, name: string, room: Option<Amount>, total: Option<Amount>)

  function EntryOf(l: Ledger, r: Row): Entry {
    Entry(IsAgoda(l, r), GuestName(l, r), RoomPrice(l, r), TotalPrice(l, r))
  }

  /** The price a row brings to its group: an unparseable price counts as 0.0, and the total is
      used when it is non-zero, the room charge otherwise. */
  function GroupPrice(e: Entry): (a: Amount)
    ensures e.total.Some? && NonZero(e.total.value) ==> a == e.total.value
    ensures !(e.total.Some? && NonZero(e.total.value)) ==> a == OrElse(e.room, Finite(0.0))
  {
    var total := OrElse(e.total, Finite(0.0));
    var room := OrElse(e.room, Finite(0.0));
    if NonZero(total) then total else room
  }

  /** The price reported in the comparison log, where an unparseable price stays `None`: the total
      when it parsed and is non-zero, the room charge (or `None`) otherwise. */
  function UsePrice(e: Entry): (a: Option<Amount>)
    ensures a.Some? ==> a == e.total || a == e.room
    ensures e.total.Some? && NonZero(e.total.value) ==> a == e.total
    ensures !(e.total.Some? && NonZero(e.total.value)) ==> a == e.room
  {
    if e.total.Some? && NonZero(e.total.value) then e.total else e.room
  }

  /** Where the two prices agree: when both parse, `UsePrice` is `GroupPrice`. */
  lemma UsePriceAgrees(e: Entry)
    requires e.room.Some? && e.total.Some?
    ensures UsePrice(e) == Some(GroupPrice(e))
  {
  }

  /** An entry of `grouped_rows[name]`: the data row index and its group price. */
  datatype Member = Member(idx: nat, price: Amount)

  /** The row at `i` is an Agoda row of guest `name`. */
  predicate RowOf(es: seq<Entry>, name: string, i: nat)
    requires i < |es|
  {
    es[i].agoda && es[i].name == name
  }

  /** The keys of `grouped_rows` after the first `n` rows, in insertion order. */
  function NamesOf(es: seq<Entry>, n: nat): seq<string>
    requires n <= |es|
  {
    if n == 0 then []
    else
      var ns := NamesOf(es, n - 1);
      if es[n - 1].agoda && es[n - 1].name !in ns then ns + [es[n - 1].name] else ns
  }

  /** `grouped_rows[name]` after the first `n` rows. */
  function MembersOf(es: seq<Entry>, name: string, n: nat): seq<Member>
    requires n <= |es|
  {
    if n == 0 then []
    else
      MembersOf(es, name, n - 1) +
      if RowOf(es, name, n - 1) then [Member(n - 1, GroupPrice(es[n - 1]))] else []
  }

  /** A guest name is a key exactly when some Agoda row carries it. */
  lemma {:induction false} NamesOfExact(es: seq<Entry>, n: nat, name: string)
    requires n <= |es|
    ensures name in NamesOf(es, n) <==> exists i :: 0 <= i < n && RowOf(es, name, i)
  {
    if n > 0 {
      NamesOfExact(es, n - 1, name);
      if RowOf(es, name, n - 1) {
        assert name in NamesOf(es, n);
      }
    }
  }

  /** The keys are distinct. */
  lemma {:induction false} NamesOfDistinct(es: seq<Entry>, n: nat)
    requires n <= |es|
    ensures forall a, b :: 0 <= a < b < |NamesOf(es, n)| ==> NamesOf(es, n)[a] != NamesOf(es, n)[b]
  {
    if n > 0 {
      NamesOfDistinct(es, n - 1);
    }
  }

  /** `grouped_rows[name]` holds exactly the Agoda rows of that guest, in sheet order, each with its
      group price. */
  lemma {:induction false} MembersOfExact(es: seq<Entry>, name: string, n: nat)
    requires n <= |es|
    ensures forall k :: 0 <= k < |MembersOf(es, name, n)| ==>
      var m := MembersOf(es, name, n)[k];
      m.idx < n && RowOf(es, name, m.idx) && m.price == GroupPrice(es[m.idx])
    ensures forall i :: 0 <= i < n && RowOf(es, name, i) ==>
      exists k :: 0 <= k < |MembersOf(es, name, n)| && MembersOf(es, name, n)[k].idx == i
    ensures forall a, b :: 0 <= a < b < |MembersOf(es, name, n)| ==>
      MembersOf(es, name, n)[a].idx < MembersOf(es, name, n)[b].idx
  {
    if n > 0 {
      MembersOfExact(es, name, n - 1);
      var prev := MembersOf(es, name, n - 1);
      var ms := MembersOf(es, name, n);
      assert ms[..|prev|] == prev;
      forall i | 0 <= i < n && RowOf(es, name, i)
        ensures exists k :: 0 <= k < |ms| && ms[k].idx == i
      {
        if i == n - 1 {
          assert ms[|prev|].idx == i;
        } else {
          var k :| 0 <= k < |prev| && prev[k].idx == i;
          assert ms[k].idx == i;
        }
      }
    }
  }

  /** A guest that no Agoda row names has no group. */
  lemma MembersOfAbsent(es: seq<Entry>, name: string, n: nat)
    requires n <= |es|
    requires name !in NamesOf(es, n)
    ensures MembersOf(es, name, n) == []
  {
    NamesOfExact(es, n, name);
    MembersOfExact(es, name, n);
  }

  /** Each Agoda row lands in exactly one group, the one of its own guest name, exactly once. */
  lemma OneGroupPerRow(es: seq<Entry>, i: nat, name: string)
    requires i < |es|
    ensures |set k | 0 <= k < |MembersOf(es, name, |es|)| && MembersOf(es, name, |es|)[k].idx == i| ==
      if RowOf(es, name, i) then 1 else 0
  {
    var ms := MembersOf(es, name, |es|);
    MembersOfExact(es, name, |es|);
    var ks := set k | 0 <= k < |ms| && ms[k].idx == i;
    if RowOf(es, name, i) {
      var k0 :| 0 <= k0 < |ms| && ms[k0].idx == i;
      forall k | k in ks ensures k == k0 {
      }
      assert ks == {k0};
    } else {
      forall k | k in ks ensures false {
      }
      assert ks == {};
    }
  }

  /** Python's `dict.get(name, [])` on a map of lists. */
  function Get<V>(m: map<string, seq<V>>, name: string): seq<V> {
    if name in m then m[name] else []
  }

  /** The entries of all ledger rows. */
  function Entries(l: Ledger): (es: seq<Entry>)
    ensures |es| == |l.rows|
    ensures forall i :: 0 <= i < |l.rows| ==> es[i] == EntryOf(l, l.rows[i])
  {
    seq(|l.rows|, i requires 0 <= i < |l.rows| => EntryOf(l, l.rows[i]))
  }

  /** The grouping loop: one pass over the ledger rows appending `(idx, price)` to the guest's list. */
  method BuildGroups(es: seq<Entry>) returns (names: seq<string>, groups: map<string, seq<Member>>)
    ensures names == NamesOf(es, |es|)
    ensures forall name :: name in groups <==> name in names
    ensures forall name :: Get(groups, name) == MembersOf(es, name, |es|)
  {
    names, groups := [], map[];
    var i := 0;
    while i < |es|
      invariant 0 <= i <= |es|
      invariant names == NamesOf(es, i)
      invariant forall name :: name in groups <==> name in names
      invariant forall name :: Get(groups, name) == MembersOf(es, name, i)
    {
      var e := es[i];
      if e.agoda {
        var m := Member(i, GroupPrice(e));
        if e.name in groups {
          groups := groups[e.name := groups[e.name] + [m]];
        } else {
          MembersOfAbsent(es, e.name, i);
          groups := groups[e.name := [m]];
          names := names + [e.name];
        }
      }
      forall name ensures Get(groups, name) == MembersOf(es, name, i + 1) {
        assert MembersOf(es, name, i + 1) ==
          MembersOf(es, name, i) + if RowOf(es, name, i) then [Member(i, GroupPrice(es[i]))] else [];
      }
      i := i + 1;
    }
  }
}

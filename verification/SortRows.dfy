/** The order every device sorts a track list in, whatever its keys' bytes
    (crates/core/src/sort.rs:48-164). */
module SortRows {
  import opened Wrappers
  import opened Orders
  import opened Sequences
  import opened Sorting
  import opened Paths

  type Key = Name

  const U32_MAX: nat := 0xFFFF_FFFF

  datatype Field = Title | Artist | Album | Year | Added | Duration

  /** A row as far as sorting goes; a key that is empty, or a `release` that is none, is unknown. */
  datatype Row = Row(
    id: nat, titleKey: Key, artistKey: Key, albumKey: Key, albumId: nat, release: Option<Key>,
    disc: Option<nat>, number: Option<nat>, durationUs: nat, added: Key)
  {
    function DiscOr0(): nat {
      if disc.Some? then disc.value else 0
    }

    /** No number counts as the greatest. */
    function NumberOrMax(): nat {
      if number.Some? then number.value else U32_MAX
    }

    /** The order of the album's columns, the ID the last. */
    function AlbumOrder(other: Row): Ordering {
      CompareNames(albumKey, other.albumKey)
        .Then(CompareInt(albumId, other.albumId))
        .Then(CompareInt(DiscOr0(), other.DiscOr0()))
        .Then(CompareInt(NumberOrMax(), other.NumberOrMax()))
        .Then(CompareInt(id, other.id))
    }

    predicate Unknown(field: Field) {
      match field
      case Title => titleKey == []
      case Artist => artistKey == []
      case Album => albumKey == []
      case Year => release.None?
      case _ => false
    }

    /** The order by the field's own value. */
    function Lead(other: Row, field: Field): Ordering {
      match field
      case Title => CompareNames(titleKey, other.titleKey)
      case Artist => CompareNames(artistKey, other.artistKey)
      case Album => CompareNames(albumKey, other.albumKey)
      case Year => CompareDates(release, other.release)
      case Added => CompareNames(added, other.added)
      case Duration => CompareInt(durationUs, other.durationUs)
    }

    /** The columns after the first, which end on the ID. */
    function Rest(other: Row, field: Field): Ordering {
      match field
      case Artist => CompareNames(titleKey, other.titleKey).Then(CompareInt(id, other.id))
      case Album | Year => AlbumOrder(other)
      case _ => CompareInt(id, other.id)
    }
  }

  /** No date comes before any. */
  function CompareDates(a: Option<Key>, b: Option<Key>): Ordering {
    match (a, b)
    case (None, None) => Equal
    case (None, Some(_)) => Less
    case (Some(_), None) => Greater
    case (Some(x), Some(y)) => CompareNames(x, y)
  }

  function CompareBool(a: bool, b: bool): Ordering {
    if a == b then Equal else if b then Less else Greater
  }

  function Order(field: Field, descending: bool, x: Row, y: Row): Ordering {
    if x.Unknown(field) != y.Unknown(field) then CompareBool(x.Unknown(field), y.Unknown(field))
    else
      var order := x.Lead(y, field).Then(x.Rest(y, field));
      if descending then order.Reverse() else order
  }

  function RowOrder(field: Field, descending: bool): (Row, Row) -> Ordering {
    (x, y) => Order(field, descending, x, y)
  }

  /** The order of positions of `rows`, those past the end after the rest. */
  function PositionOrder(rows: seq<Row>, field: Field, descending: bool): (nat, nat) -> Ordering {
    (a: nat, b: nat) =>
      if a < |rows| && b < |rows| then Order(field, descending, rows[a], rows[b]).Then(CompareInt(a, b))
      else CompareInt(a, b)
  }

  function Positions(n: nat): (s: seq<nat>)
    ensures |s| == n && forall i :: 0 <= i < n ==> s[i] == i
  {
    seq(n, i => i)
  }

  /** Gives each position once, strictly in the field's order. */
  method SortPositions(rows: seq<Row>, field: Field, descending: bool) returns (positions: seq<nat>)
    ensures multiset(positions) == multiset(Positions(|rows|))
    ensures StrictlySortedBy(PositionOrder(rows, field, descending), positions)
    ensures positions == Sorted(rows, field, descending)
  {
    positions := Positions(|rows|);
    positions := Sort(PositionOrder(rows, field, descending), positions);
    SortedPositions(rows, field, descending);
  }

  function Sorted(rows: seq<Row>, field: Field, descending: bool): seq<nat> {
    Sort(PositionOrder(rows, field, descending), Positions(|rows|))
  }

  // ---- One order ----

  type Column = seq<int>

  function CompareColumns(a: seq<Column>, b: seq<Column>): Ordering {
    Lex((x, y) => Lex<int>(CompareInt, x, y), a, b)
  }

  function DateColumn(release: Option<Key>): Column {
    if release.None? then [] else [0] + release.value
  }

  /** The columns a row sorts by, the first that differs deciding, down to its ID. */
  function Columns(row: Row, field: Field): (columns: seq<Column>)
    ensures columns != [] && columns[|columns| - 1] == [row.id]
  {
    var album: seq<Column> := [row.albumKey, [row.albumId], [row.DiscOr0()], [row.NumberOrMax()], [row.id]];
    match field
    case Title => [row.titleKey, [row.id]]
    case Artist => [row.artistKey, row.titleKey, [row.id]]
    case Album => album
    case Year => [DateColumn(row.release)] + album
    case Added => [row.added, [row.id]]
    case Duration => [[row.durationUs], [row.id]]
  }

  lemma ColumnsTotal()
    ensures Total(CompareColumns)
  {
    CompareIntTotal();
    var cmp := (x: Column, y: Column) => Lex<int>(CompareInt, x, y);
    forall a: Column, b: Column ensures cmp(a, b) == cmp(b, a).Reverse() {
      LexReverse(CompareInt, a, b);
    }
    forall a: Column, b: Column, c: Column | cmp(a, b) != Greater && cmp(b, c) != Greater ensures cmp(a, c) != Greater {
      LexTransitive(CompareInt, a, b, c);
    }
    forall a: Column, b: Column | cmp(a, b) == Equal ensures a == b {
      LexEqual(CompareInt, a, b);
    }
    forall a, b ensures CompareColumns(a, b) == CompareColumns(b, a).Reverse() {
      LexReverse(cmp, a, b);
    }
    forall a, b, c | CompareColumns(a, b) != Greater && CompareColumns(b, c) != Greater ensures CompareColumns(a, c) != Greater {
      LexTransitive(cmp, a, b, c);
    }
    forall a, b | CompareColumns(a, b) == Equal ensures a == b {
      LexEqual(cmp, a, b);
    }
  }

  /** One column, and then the rest. */
  lemma ColumnNext(a: seq<Column>, b: seq<Column>, i: nat)
    requires i < |a| == |b|
    ensures CompareColumns(a[i..], b[i..]) == Lex<int>(CompareInt, a[i], b[i]).Then(CompareColumns(a[i + 1..], b[i + 1..]))
    ensures CompareColumns(a[|a|..], b[|b|..]) == Equal
  {
    assert a[i..][1..] == a[i + 1..] && b[i..][1..] == b[i + 1..];
  }

  lemma ColumnOfNumber(m: int, n: int)
    ensures Lex<int>(CompareInt, [m], [n]) == CompareInt(m, n)
  {
  }

  lemma ColumnOfDate(a: Option<Key>, b: Option<Key>)
    ensures Lex<int>(CompareInt, DateColumn(a), DateColumn(b)) == CompareDates(a, b)
  {
    if a.Some? && b.Some? {
      assert ([0] + a.value)[1..] == a.value && ([0] + b.value)[1..] == b.value;
    }
  }

  function AlbumColumns(row: Row): seq<Column> {
    [row.albumKey, [row.albumId], [row.DiscOr0()], [row.NumberOrMax()], [row.id]]
  }

  lemma AlbumByColumns(x: Row, y: Row)
    ensures x.AlbumOrder(y) == CompareColumns(AlbumColumns(x), AlbumColumns(y))
  {
    var (a, b) := (AlbumColumns(x), AlbumColumns(y));
    ColumnNext(a, b, 0);
    ColumnNext(a, b, 1);
    ColumnNext(a, b, 2);
    ColumnNext(a, b, 3);
    ColumnNext(a, b, 4);
    ColumnOfNumber(x.albumId, y.albumId);
    ColumnOfNumber(x.DiscOr0(), y.DiscOr0());
    ColumnOfNumber(x.NumberOrMax(), y.NumberOrMax());
    ColumnOfNumber(x.id, y.id);
    hide CompareColumns, Lex;
    assert a[0..] == a && b[0..] == b;
    assert CompareColumns(a[4..], b[4..]) == CompareInt(x.id, y.id);
    assert CompareColumns(a[3..], b[3..]) == CompareInt(x.NumberOrMax(), y.NumberOrMax()).Then(CompareInt(x.id, y.id));
  }

  /** The order of two rows, none or both unknown, is that of their columns. */
  lemma OrderByColumns(x: Row, y: Row, field: Field)
    ensures x.Lead(y, field).Then(x.Rest(y, field)) == CompareColumns(Columns(x, field), Columns(y, field))
  {
    var (a, b) := (Columns(x, field), Columns(y, field));
    ColumnNext(a, b, 0);
    ColumnNext(a, b, 1);
    if |a| == 3 {
      ColumnNext(a, b, 2);
    }
    ColumnOfNumber(x.id, y.id);
    AlbumByColumns(x, y);
    ColumnOfDate(x.release, y.release);
    ColumnOfNumber(x.durationUs, y.durationUs);
    hide CompareColumns, Lex, Row.AlbumOrder;
    assert a[0..] == a && b[0..] == b;
    if field == Album {
      AlbumLeads(x, y);
    }
  }

  lemma AlbumLeads(x: Row, y: Row)
    ensures CompareNames(x.albumKey, y.albumKey).Then(x.AlbumOrder(y)) == x.AlbumOrder(y)
  {
  }

  /** The order of rows is consistent, and ties only rows with the same ID. */
  lemma RowsConsistent(field: Field, descending: bool)
    ensures Consistent(RowOrder(field, descending))
    ensures forall x, y :: RowOrder(field, descending)(x, y) == Equal ==> x.id == y.id
  {
    ColumnsTotal();
    var cmp := RowOrder(field, descending);
    hide CompareColumns, Columns, Row.Lead, Row.Rest, Row.Unknown;
    forall x, y ensures cmp(x, y) == cmp(y, x).Reverse() && (cmp(x, y) == Equal ==> x.id == y.id) {
      OrderByColumns(x, y, field);
      OrderByColumns(y, x, field);
      assert CompareColumns(Columns(x, field), Columns(y, field)) == CompareColumns(Columns(y, field), Columns(x, field)).Reverse();
      LastColumn(x, y, field);
    }
    forall x, y, z | cmp(x, y) != Greater && cmp(y, z) != Greater ensures cmp(x, z) != Greater {
      OrderTransitive(field, descending, x, y, z);
    }
  }

  lemma LastColumn(x: Row, y: Row, field: Field)
    ensures Columns(x, field) == Columns(y, field) ==> x.id == y.id
  {
    if Columns(x, field) == Columns(y, field) {
      var (a, b) := (Columns(x, field), Columns(y, field));
      assert a[|a| - 1][0] == b[|b| - 1][0];
    }
  }

  lemma OrderTransitive(field: Field, descending: bool, x: Row, y: Row, z: Row)
    requires Total(CompareColumns)
    requires Order(field, descending, x, y) != Greater && Order(field, descending, y, z) != Greater
    ensures Order(field, descending, x, z) != Greater
  {
    OrderByColumns(x, y, field);
    OrderByColumns(y, z, field);
    OrderByColumns(x, z, field);
    hide CompareColumns, Columns, Row.Lead, Row.Rest, Row.Unknown;
    var (a, b, c) := (Columns(x, field), Columns(y, field), Columns(z, field));
    assert CompareColumns(a, b) == CompareColumns(b, a).Reverse();
    assert CompareColumns(b, c) == CompareColumns(c, b).Reverse();
    assert CompareColumns(a, c) == CompareColumns(c, a).Reverse();
  }

  /** The order of positions is total, for every field and direction. */
  lemma PositionsTotal(rows: seq<Row>, field: Field, descending: bool)
    ensures Total(PositionOrder(rows, field, descending))
  {
    RowsConsistent(field, descending);
    var order := RowOrder(field, descending);
    var cmp := PositionOrder(rows, field, descending);
    hide Order;
    forall a: nat, b: nat ensures cmp(a, b) == cmp(b, a).Reverse() && (cmp(a, b) == Equal ==> a == b) {
      if a < |rows| && b < |rows| {
        assert order(rows[a], rows[b]) == order(rows[b], rows[a]).Reverse();
      }
    }
    forall a: nat, b: nat, c: nat | cmp(a, b) != Greater && cmp(b, c) != Greater ensures cmp(a, c) != Greater {
      if a < |rows| && b < |rows| && c < |rows| {
        var (x, y, z) := (rows[a], rows[b], rows[c]);
        assert order(x, y) != Greater && order(y, z) != Greater;
        assert order(x, z) != Greater;
        assert order(x, y) == order(y, x).Reverse() && order(y, z) == order(z, y).Reverse() && order(x, z) == order(z, x).Reverse();
      }
    }
  }

  // ---- What sorting gives ----

  /** The positions, each once, strictly in order. */
  lemma SortedPositions(rows: seq<Row>, field: Field, descending: bool)
    ensures multiset(Sorted(rows, field, descending)) == multiset(Positions(|rows|))
    ensures StrictlySortedBy(PositionOrder(rows, field, descending), Sorted(rows, field, descending))
    ensures forall p: nat :: p in Sorted(rows, field, descending) <==> p < |rows|
  {
    PositionsTotal(rows, field, descending);
    hide PositionOrder;
    var n := |rows|;
    assert Distinct(Positions(n));
    forall p: nat ensures p in Positions(n) <==> p < n {
      if p < n {
        assert Positions(n)[p] == p;
      }
    }
    SortDistinct(PositionOrder(rows, field, descending), Positions(n));
  }

  /** Any order of the positions that sorts them is that one. */
  lemma SortedOnlyWay(rows: seq<Row>, field: Field, descending: bool, positions: seq<nat>)
    requires multiset(positions) == multiset(Positions(|rows|)) && SortedBy(PositionOrder(rows, field, descending), positions)
    ensures positions == Sorted(rows, field, descending)
  {
    PositionsTotal(rows, field, descending);
    SortedPositions(rows, field, descending);
    hide PositionOrder, Sorted;
    SortedUnique(PositionOrder(rows, field, descending), positions, Sorted(rows, field, descending));
  }

  /** The rows with no value come last, either way. */
  lemma UnknownLast(rows: seq<Row>, field: Field, descending: bool, i: nat, j: nat)
    requires i < j < |Sorted(rows, field, descending)|
    ensures var sorted := Sorted(rows, field, descending);
      sorted[i] < |rows| && sorted[j] < |rows| && (rows[sorted[i]].Unknown(field) ==> rows[sorted[j]].Unknown(field))
  {
    SortedPositions(rows, field, descending);
    var sorted := Sorted(rows, field, descending);
    assert sorted[i] in sorted && sorted[j] in sorted;
    hide Sorted;
    assert PositionOrder(rows, field, descending)(sorted[i], sorted[j]) == Less;
  }

  // ---- Which order the rows came in ----

  function RowsAt(rows: seq<Row>, positions: seq<nat>): (r: seq<Row>)
    requires forall i :: 0 <= i < |positions| ==> positions[i] < |rows|
    ensures |r| == |positions| && forall i :: 0 <= i < |r| ==> r[i] == rows[positions[i]]
  {
    seq(|positions|, i requires 0 <= i < |positions| => rows[positions[i]])
  }

  lemma InRange(rows: seq<Row>, field: Field, descending: bool)
    ensures forall i :: 0 <= i < |Sorted(rows, field, descending)| ==> Sorted(rows, field, descending)[i] < |rows|
  {
    SortedPositions(rows, field, descending);
    forall i | 0 <= i < |Sorted(rows, field, descending)| ensures Sorted(rows, field, descending)[i] < |rows| {
      assert Sorted(rows, field, descending)[i] in Sorted(rows, field, descending);
    }
  }

  /** The rows in the field's order. */
  function SortedRows(rows: seq<Row>, field: Field, descending: bool): seq<Row> {
    InRange(rows, field, descending);
    RowsAt(rows, Sorted(rows, field, descending))
  }

  predicate DistinctIds(rows: seq<Row>) {
    forall i, j :: 0 <= i < j < |rows| ==> rows[i].id != rows[j].id
  }

  /** Taking the rows at each position once takes each row once. */
  lemma {:induction false} RowsAtAll(rows: seq<Row>, positions: seq<nat>)
    requires multiset(positions) == multiset(Positions(|rows|))
    ensures forall i :: 0 <= i < |positions| ==> positions[i] < |rows|
    ensures multiset(RowsAt(rows, positions)) == multiset(rows)
    decreases |rows|
  {
    AllInRange(positions, |rows|);
    if rows == [] {
      assert |multiset(positions)| == 0;
    } else {
      var last := |rows| - 1;
      var k := PlaceOf(positions, last);
      var rest := positions[..k] + positions[k + 1..];
      AllInRange(rest, last);
      RowsAtAll(rows[..last], rest);
      TakesLast(rows, positions, k);
    }
  }

  lemma AllInRange(positions: seq<nat>, n: nat)
    requires multiset(positions) == multiset(Positions(n))
    ensures forall i :: 0 <= i < |positions| ==> positions[i] < n
  {
    forall i | 0 <= i < |positions| ensures positions[i] < n {
      assert positions[i] in multiset(positions);
    }
  }

  lemma PlaceOf(positions: seq<nat>, last: nat) returns (k: nat)
    requires multiset(positions) == multiset(Positions(last + 1))
    ensures k < |positions| && positions[k] == last
    ensures multiset(positions[..k] + positions[k + 1..]) == multiset(Positions(last))
  {
    assert Positions(last + 1) == Positions(last) + [last];
    assert last in multiset(positions);
    k :| 0 <= k < |positions| && positions[k] == last;
    WithoutOne(positions, k);
    var rest := positions[..k] + positions[k + 1..];
    assert multiset(rest) == multiset(positions) - multiset{last};
  }

  lemma TakesLast(rows: seq<Row>, positions: seq<nat>, k: nat)
    requires rows != [] && k < |positions| && positions[k] == |rows| - 1
    requires forall i :: 0 <= i < |positions| ==> positions[i] < |rows|
    requires var rest := positions[..k] + positions[k + 1..]; forall i :: 0 <= i < |rest| ==> rest[i] < |rows| - 1
    ensures var (last, rest) := (|rows| - 1, positions[..k] + positions[k + 1..]);
      && multiset(RowsAt(rows, positions)) == multiset(RowsAt(rows[..last], rest)) + multiset{rows[last]}
      && multiset(rows) == multiset(rows[..last]) + multiset{rows[last]}
  {
    var (last, rest) := (|rows| - 1, positions[..k] + positions[k + 1..]);
    var (all, some) := (RowsAt(rows, positions), RowsAt(rows[..last], rest));
    assert some == all[..k] + all[k + 1..];
    WithoutOne(all, k);
    assert rows == rows[..last] + [rows[last]];
  }

  /** Rows with distinct IDs come out in one order, whatever order they came in. */
  lemma AnyInputOrder(rows: seq<Row>, rows': seq<Row>, field: Field, descending: bool)
    requires multiset(rows) == multiset(rows') && DistinctIds(rows) && DistinctIds(rows')
    ensures SortedRows(rows, field, descending) == SortedRows(rows', field, descending)
  {
    RowsConsistent(field, descending);
    RowsStrict(rows, field, descending);
    RowsStrict(rows', field, descending);
    hide SortedRows, RowOrder;
    StrictUnique(RowOrder(field, descending), SortedRows(rows, field, descending), SortedRows(rows', field, descending));
  }

  lemma RowsStrict(rows: seq<Row>, field: Field, descending: bool)
    requires DistinctIds(rows)
    ensures StrictlySortedBy(RowOrder(field, descending), SortedRows(rows, field, descending))
    ensures multiset(SortedRows(rows, field, descending)) == multiset(rows)
  {
    SortedPositions(rows, field, descending);
    InRange(rows, field, descending);
    RowsAtAll(rows, Sorted(rows, field, descending));
    RowsConsistent(field, descending);
    var (sorted, r) := (Sorted(rows, field, descending), SortedRows(rows, field, descending));
    assert r == RowsAt(rows, sorted);
    hide PositionOrder, RowOrder, Sorted, SortedRows;
    forall i, j | 0 <= i < j < |r| ensures RowOrder(field, descending)(r[i], r[j]) == Less {
      assert PositionOrder(rows, field, descending)(sorted[i], sorted[j]) == Less;
      NotByPosition(rows, field, descending, sorted[i], sorted[j]);
    }
  }

  /** With distinct IDs no two rows are left to their positions. */
  lemma NotByPosition(rows: seq<Row>, field: Field, descending: bool, p: nat, q: nat)
    requires DistinctIds(rows) && p < |rows| && q < |rows|
    requires PositionOrder(rows, field, descending)(p, q) == Less
    ensures RowOrder(field, descending)(rows[p], rows[q]) == Less
  {
    hide Order;
    if p != q {
      NoTies(rows, field, descending, p, q);
    }
  }

  lemma NoTies(rows: seq<Row>, field: Field, descending: bool, p: nat, q: nat)
    requires DistinctIds(rows) && p < |rows| && q < |rows| && p != q
    ensures RowOrder(field, descending)(rows[p], rows[q]) != Equal
  {
    RowsConsistent(field, descending);
    hide RowOrder;
    assert rows[p].id != rows[q].id;
  }

  // ---- Descending ----

  function Backwards<T>(s: seq<T>): (r: seq<T>)
    ensures |r| == |s| && forall i :: 0 <= i < |r| ==> r[i] == s[|s| - 1 - i]
  {
    seq(|s|, i requires 0 <= i < |s| => s[|s| - 1 - i])
  }

  lemma {:induction false} BackwardsSame<T>(s: seq<T>)
    ensures multiset(Backwards(s)) == multiset(s)
  {
    if s != [] {
      BackwardsSame(s[1..]);
      assert Backwards(s) == Backwards(s[1..]) + [s[0]];
      assert s == [s[0]] + s[1..];
    }
  }

  /** Where the rows with no value begin. */
  predicate Splits(rows: seq<Row>, field: Field, positions: seq<nat>, k: nat) {
    && k <= |positions|
    && (forall i :: 0 <= i < |positions| ==> positions[i] < |rows|)
    && (forall i :: 0 <= i < k ==> !rows[positions[i]].Unknown(field))
    && forall i :: k <= i < |positions| ==> rows[positions[i]].Unknown(field)
  }

  lemma {:induction false} KnownThenUnknown(rows: seq<Row>, field: Field, descending: bool, i: nat) returns (k: nat)
    requires i <= |Sorted(rows, field, descending)|
    requires forall j :: 0 <= j < i ==> Sorted(rows, field, descending)[j] < |rows| && !rows[Sorted(rows, field, descending)[j]].Unknown(field)
    ensures Splits(rows, field, Sorted(rows, field, descending), k)
    decreases |Sorted(rows, field, descending)| - i
  {
    InRange(rows, field, descending);
    var sorted := Sorted(rows, field, descending);
    if i < |sorted| && !rows[sorted[i]].Unknown(field) {
      k := KnownThenUnknown(rows, field, descending, i + 1);
    } else {
      k := i;
      forall j | i < j < |sorted| ensures rows[sorted[j]].Unknown(field) {
        UnknownLast(rows, field, descending, i, j);
      }
    }
  }

  /** With distinct IDs, descending order is ascending order with the rows that have a value backwards, and then
      those that have none backwards. */
  lemma DescendingBackwards(rows: seq<Row>, field: Field) returns (k: nat)
    requires DistinctIds(rows)
    ensures Splits(rows, field, Sorted(rows, field, false), k)
    ensures Sorted(rows, field, true) == Backwards(Sorted(rows, field, false)[..k]) + Backwards(Sorted(rows, field, false)[k..])
  {
    hide PositionOrder, Sorted;
    k := KnownThenUnknown(rows, field, false, 0);
    var up := Sorted(rows, field, false);
    SortedPositions(rows, field, false);
    DistinctByCount(Positions(|rows|));
    DistinctByCount(up);
    BackwardsOfBoth(up, k);
    var down := Backwards(up[..k]) + Backwards(up[k..]);
    hide StrictlySortedBy, Distinct;
    forall i, j | 0 <= i < j < |down| ensures PositionOrder(rows, field, true)(down[i], down[j]) != Greater {
      DownAgain(rows, field, up, k, i, j);
    }
    SortedOnlyWay(rows, field, true, down);
  }

  lemma BackwardsOfBoth<T>(s: seq<T>, k: nat)
    requires k <= |s|
    ensures multiset(Backwards(s[..k]) + Backwards(s[k..])) == multiset(s)
  {
    BackwardsSame(s[..k]);
    BackwardsSame(s[k..]);
    assert s == s[..k] + s[k..];
  }

  lemma DownAgain(rows: seq<Row>, field: Field, up: seq<nat>, k: nat, i: nat, j: nat)
    requires DistinctIds(rows) && Splits(rows, field, up, k) && StrictlySortedBy(PositionOrder(rows, field, false), up)
    requires Distinct(up) && i < j < |up|
    ensures var down := Backwards(up[..k]) + Backwards(up[k..]);
      |down| == |up| && PositionOrder(rows, field, true)(down[i], down[j]) != Greater
  {
    hide PositionOrder, DistinctIds;
    var down := Backwards(up[..k]) + Backwards(up[k..]);
    var p: nat := if i < k then k - 1 - i else k + |up| - 1 - i;
    var q: nat := if j < k then k - 1 - j else k + |up| - 1 - j;
    assert down[i] == up[p] && down[j] == up[q];
    if i < k <= j {
      KnownFirst(rows, field, up[p], up[q]);
    } else {
      assert PositionOrder(rows, field, false)(up[q], up[p]) == Less;
      OtherWay(rows, field, up[q], up[p]);
    }
  }

  lemma KnownFirst(rows: seq<Row>, field: Field, p: nat, q: nat)
    requires p < |rows| && q < |rows| && !rows[p].Unknown(field) && rows[q].Unknown(field)
    ensures PositionOrder(rows, field, true)(p, q) == Less
  {
  }

  lemma OtherWay(rows: seq<Row>, field: Field, p: nat, q: nat)
    requires DistinctIds(rows) && p < |rows| && q < |rows| && p != q && rows[p].Unknown(field) == rows[q].Unknown(field)
    requires PositionOrder(rows, field, false)(p, q) == Less
    ensures PositionOrder(rows, field, true)(q, p) == Less
  {
    RowsConsistent(field, true);
    NoTies(rows, field, false, p, q);
    Reversed(field, rows[p], rows[q]);
    hide Order;
    assert RowOrder(field, true)(rows[q], rows[p]) == RowOrder(field, true)(rows[p], rows[q]).Reverse();
  }

  lemma Reversed(field: Field, x: Row, y: Row)
    requires x.Unknown(field) == y.Unknown(field)
    ensures Order(field, true, x, y) == Order(field, false, x, y).Reverse()
  {
  }

  // ---- What is unknown ----

  /** Just a row whose first column for the field is empty, of a field that may be, has no value for it; so a dated
      row never, and one with no date always. */
  lemma UnknownIsEmpty(row: Row, field: Field)
    ensures row.Unknown(field) <==> field != Added && field != Duration && Columns(row, field)[0] == []
    ensures row.release.None? <==> Columns(row, Year)[0] == []
  {
  }

  /** Whichever way a list is sorted, no row with an empty first column comes before one with another. */
  lemma EmptyLast(rows: seq<Row>, field: Field, descending: bool, i: nat, j: nat)
    requires i < j < |Sorted(rows, field, descending)| && field != Added && field != Duration
    ensures var sorted := Sorted(rows, field, descending);
      && sorted[i] < |rows| && sorted[j] < |rows|
      && (Columns(rows[sorted[i]], field)[0] == [] ==> Columns(rows[sorted[j]], field)[0] == [])
  {
    UnknownLast(rows, field, descending, i, j);
    hide Sorted;
    UnknownIsEmpty(rows[Sorted(rows, field, descending)[i]], field);
    UnknownIsEmpty(rows[Sorted(rows, field, descending)[j]], field);
  }

  /** On one disc of an album a track with no number comes after those with one. */
  lemma NumberlessLast(x: Row, y: Row)
    requires x.albumKey == y.albumKey && x.albumId == y.albumId && x.disc == y.disc
    requires x.number.None? && y.number.Some? && y.number.value < U32_MAX
    ensures y.AlbumOrder(x) == Less
  {
    NamesTotal();
    assert CompareNames(y.albumKey, x.albumKey) == CompareNames(x.albumKey, y.albumKey).Reverse();
  }

  /** And one with no disc is just where it would be on disc 0. */
  lemma DisclessOnZero(x: Row, y: Row)
    requires x.disc.None?
    ensures x.AlbumOrder(y) == x.(disc := Some(0)).AlbumOrder(y) && y.AlbumOrder(x) == y.AlbumOrder(x.(disc := Some(0)))
  {
  }

  // ---- Which way ----

  /** The columns, in turn as bytes or as a number, that are the same in both rows, up to one in which `x` is the less. */
  ghost predicate ColumnBefore(a: Column, b: Column) {
    exists k: nat ::
      k <= |a| && k <= |b| && a[..k] == b[..k] && if k < |a| && k < |b| then a[k] < b[k] else k == |a| < |b|
  }

  /** Ascending, of two rows with a value the lesser in the first column they differ in comes first; descending, the
      greater. */
  lemma FirstDifference(x: Row, y: Row, field: Field, c: nat)
    requires x.Unknown(field) == y.Unknown(field) && c < |Columns(x, field)|
    requires Columns(x, field)[..c] == Columns(y, field)[..c] && ColumnBefore(Columns(x, field)[c], Columns(y, field)[c])
    ensures Order(field, false, x, y) == Less && Order(field, true, x, y) == Greater
  {
    var (a, b) := (Columns(x, field), Columns(y, field));
    OrderByColumns(x, y, field);
    ColumnLess(a[c], b[c]);
    hide Columns, Row.Lead, Row.Rest, Row.Unknown;
    ColumnsDecided(a, b, c);
  }

  lemma ColumnLess(a: Column, b: Column)
    requires ColumnBefore(a, b)
    ensures Lex<int>(CompareInt, a, b) == Less
  {
    CompareIntTotal();
    LexLess<int>(CompareInt, a, b);
    var k: nat :| k <= |a| && k <= |b| && a[..k] == b[..k] && if k < |a| && k < |b| then a[k] < b[k] else k == |a| < |b|;
    assert DecidedAt<int>(CompareInt, a, b, k);
  }

  lemma {:induction false} ColumnsDecided(a: seq<Column>, b: seq<Column>, c: nat)
    requires c < |a| && c < |b| && a[..c] == b[..c] && Lex<int>(CompareInt, a[c], b[c]) == Less
    ensures CompareColumns(a, b) == Less
    decreases c
  {
    if c > 0 {
      assert a[..c][1..] == a[1..][..c - 1] && b[..c][1..] == b[1..][..c - 1];
      ColumnsDecided(a[1..], b[1..], c - 1);
      ColumnsSelf(a[0]);
      assert a[..c][0] == a[0] && b[..c][0] == b[0];
    }
  }

  lemma ColumnsSelf(a: Column)
    ensures Lex<int>(CompareInt, a, a) == Equal
  {
    CompareIntTotal();
    LexReverse<int>(CompareInt, a, a);
  }

  /** Rows that tie keep their places, ascending and descending. */
  lemma TiesKeepPlaces(rows: seq<Row>, field: Field, descending: bool, i: nat, j: nat)
    requires i < j < |Sorted(rows, field, descending)|
    ensures var sorted := Sorted(rows, field, descending);
      && sorted[i] < |rows| && sorted[j] < |rows|
      && (Order(field, descending, rows[sorted[i]], rows[sorted[j]]) == Equal ==> sorted[i] < sorted[j])
  {
    InRange(rows, field, descending);
    SortedPositions(rows, field, descending);
    hide Sorted, Order;
  }
}

/**
 * Reading the device table page by page, behind a cursor that remembers the last device ID.
 *
 * The table may change between two page reads. The query names no order; that a page is the
 * ascending run of the next IDs is the hypothesis `IsPage`, and only what follows from it is
 * claimed with it.
 */
module DevicePaging {
  import opened Common

  const BATCH := 100

  class Cursor {
    var data: int

    constructor ()
      ensures data == 0
    {
      data := 0;
    }

    function Get(): int
      reads this
    {
      data
    }

    method Set(d: int)
      modifies this
      ensures data == d
    {
      data := d;
    }
  }

  /** What the database and the message queue answer for one page: the rows' IDs, and the two errors. */
  datatype Reply = Reply(rows: seq<int>, readErr: bool, sendErr: bool)

  /** One row of the device table as far as it is read, and the device that is sent on. */
  datatype Row = Row(typ: string, cid: int)

  datatype Device = Device(typ: string, id: int)

  datatype Column = TypeColumn | CIdColumn

  /** What the page query selects. */
  const SELECTED: set<Column> := {CIdColumn}

  /** A column that is not selected comes back with its zero value. */
  function Select(columns: set<Column>, d: Row): Row {
    Row(if TypeColumn in columns then d.typ else "", if CIdColumn in columns then d.cid else 0)
  }

  function EntityToDomain(d: Row): Device { Device(d.typ, d.cid) }

  /** How a device of this type with this ID comes out of a query for these columns. */
  function AsRead(columns: set<Column>, typ: string, id: int): Device {
    EntityToDomain(Select(columns, Row(typ, id)))
  }

  function Moved(cursor: int, rows: seq<int>): int {
    if rows == [] then cursor else rows[|rows| - 1]
  }

  /** What a page query asks the database for. */
  datatype Query = Query(typ: string, limit: int, after: int)

  class DeviceDAO {
    var asked: seq<Query>

    constructor ()
      ensures asked == []
    {
      asked := [];
    }

    /** The cursor moves to the last row even when the read reports an error. */
    method FindDevicesPage(typ: string, limit: int, reply: Reply, cursor: Cursor)
      returns (devices: seq<Device>, err: bool)
      modifies this, cursor
      ensures asked == old(asked) + [Query(typ, limit, old(cursor.data))]
      ensures cursor.data == Moved(old(cursor.data), reply.rows)
      ensures err == reply.readErr
      ensures devices == if err then [] else Devices(typ, reply.rows)
    {
      asked := asked + [Query(typ, limit, cursor.Get())];
      var res := seq(|reply.rows|, i requires 0 <= i < |reply.rows| => Select(SELECTED, Row(typ, reply.rows[i])));
      if |res| > 0 {
        cursor.Set(res[|res| - 1].cid);
      }
      devices, err := [], reply.readErr;
      if err { return; }
      var i := 0;
      while i < |res|
        invariant 0 <= i <= |res| && devices == Devices(typ, reply.rows[..i])
      {
        devices := devices + [EntityToDomain(res[i])];
        i := i + 1;
      }
      assert reply.rows[..|res|] == reply.rows;
    }
  }

  /** The devices of a type as a page read returns them. */
  function Devices(typ: string, ids: seq<int>): seq<Device> {
    seq(|ids|, i requires 0 <= i < |ids| => AsRead(SELECTED, typ, ids[i]))
  }

  /** A device is read with its ID and without its type. */
  lemma DeviceExactly(typ: string, ids: seq<int>, i: nat)
    requires i < |ids|
    ensures |Devices(typ, ids)| == |ids| && Devices(typ, ids)[i] == Device("", ids[i])
  {
  }

  // ---------------------------------------------------------------- sessions

  /** The pages asked for: num / 100, rounded up, and none if num is not positive. */
  function Pages(num: int): nat {
    if num <= 0 then 0 else (num + 99) / 100
  }

  function LimitAt(num: int, k: nat): int {
    if num - 100 * k < 100 then num - 100 * k else 100
  }

  /** How many rows the first p pages together may carry. */
  function Reached(num: int, p: nat): int {
    if p == 0 then 0 else if 100 * p < num then 100 * p else num
  }

  lemma ReachedStep(num: int, p: nat)
    requires 0 < p <= Pages(num)
    ensures num > 0 && 0 < LimitAt(num, p - 1) <= 100
    ensures Reached(num, p) == Reached(num, p - 1) + LimitAt(num, p - 1)
    ensures Reached(num, Pages(num)) == num
  {
  }

  /** The cursor after these pages, and the IDs they sent. */
  function CursorAfter(rs: seq<Reply>): int {
    if rs == [] then 0 else Moved(CursorAfter(rs[..|rs| - 1]), rs[|rs| - 1].rows)
  }

  function SentIds(rs: seq<Reply>): seq<int> {
    if rs == [] then [] else SentIds(rs[..|rs| - 1]) + rs[|rs| - 1].rows
  }

  /** The first p page queries of a session. */
  function Queries(typ: string, rs: seq<Reply>, num: int, p: nat): seq<Query>
    requires p <= |rs|
  {
    seq(p, k requires 0 <= k < p => Query(typ, LimitAt(num, k), CursorAfter(rs[..k])))
  }

  /** How many pages are read and sent before the first error, from page k on. */
  function CompletedFrom(rs: seq<Reply>, k: nat): (p: nat)
    requires k <= |rs|
    ensures k <= p <= |rs|
    ensures forall i :: k <= i < p ==> !rs[i].readErr && !rs[i].sendErr
    ensures p < |rs| ==> rs[p].readErr || rs[p].sendErr
    decreases |rs| - k
  {
    if k == |rs| || rs[k].readErr || rs[k].sendErr then k else CompletedFrom(rs, k + 1)
  }

  // ---------------------------------------------------------------- the ordering hypothesis

  predicate Ascending(s: seq<int>) {
    forall i, j :: 0 <= i < j < |s| ==> s[i] < s[j]
  }

  /** The ascending run of at most `limit` IDs above the cursor, with nothing skipped. */
  ghost predicate IsPage(rows: seq<int>, ids: set<int>, cursor: int, limit: int) {
    && Ascending(rows)
    && |rows| <= limit
    && (forall r :: r in rows ==> r in ids && r > cursor)
    && (forall x :: x in ids && x > cursor && x !in rows ==> |rows| == limit > 0 && x > rows[limit - 1])
  }

  /** Page k answers the table as it was at that moment. */
  ghost predicate Paged(rs: seq<Reply>, tables: seq<set<int>>, num: int) {
    && |rs| == |tables| <= Pages(num)
    && (rs != [] ==>
          && Paged(rs[..|rs| - 1], tables[..|rs| - 1], num)
          && IsPage(rs[|rs| - 1].rows, tables[|rs| - 1], CursorAfter(rs[..|rs| - 1]), LimitAt(num, |rs| - 1)))
  }

  /** All the tables contain x. */
  predicate Throughout(tables: seq<set<int>>, x: int) {
    tables == [] || (Throughout(tables[..|tables| - 1], x) && x in tables[|tables| - 1])
  }

  lemma AscendingConcat(a: seq<int>, b: seq<int>, mid: int)
    requires Ascending(a) && Ascending(b)
    requires (forall x :: x in a ==> x <= mid) && (forall x :: x in b ==> x > mid)
    ensures Ascending(a + b)
  {
    forall i, j | 0 <= i < j < |a + b| ensures (a + b)[i] < (a + b)[j] {
      if i < |a| <= j { assert a[i] in a && b[j - |a|] in b; }
    }
  }

  lemma LastIsLargest(s: seq<int>, x: int)
    requires Ascending(s) && x in s
    ensures x <= s[|s| - 1]
  {
  }

  lemma PageExtends(sent: seq<int>, cursor: int, rows: seq<int>, table: set<int>, limit: int)
    requires Ascending(sent) && 0 <= cursor && (forall x :: x in sent ==> 0 < x <= cursor)
    requires IsPage(rows, table, cursor, limit)
    ensures Ascending(sent + rows) && cursor <= Moved(cursor, rows)
    ensures forall x :: x in sent + rows ==> 0 < x <= Moved(cursor, rows)
    ensures forall x :: x in table && cursor < x && (x <= Moved(cursor, rows) || |rows| < limit) ==> x in rows
  {
    AscendingConcat(sent, rows, cursor);
    if rows != [] { assert rows[|rows| - 1] in rows; }
    forall x | x in rows ensures x <= Moved(cursor, rows) { LastIsLargest(rows, x); }
  }

  /** What is sent is strictly increasing, positive, and ends at the cursor. */
  lemma {:induction false} SentAscending(rs: seq<Reply>, tables: seq<set<int>>, num: int)
    requires Paged(rs, tables, num)
    ensures Ascending(SentIds(rs)) && 0 <= CursorAfter(rs)
    ensures forall x :: x in SentIds(rs) ==> 0 < x <= CursorAfter(rs)
  {
    if rs != [] {
      var front, k := rs[..|rs| - 1], |rs| - 1;
      SentAscending(front, tables[..k], num);
      PageExtends(SentIds(front), CursorAfter(front), rs[k].rows, tables[k], LimitAt(num, k));
    }
  }

  lemma {:induction false} NothingMissed(rs: seq<Reply>, tables: seq<set<int>>, num: int, x: int)
    requires Paged(rs, tables, num) && Throughout(tables, x) && 0 < x
    ensures x <= CursorAfter(rs) || (exists k :: 0 <= k < |rs| && |rs[k].rows| < LimitAt(num, k)) ==> x in SentIds(rs)
  {
    if rs != [] {
      var front, k := rs[..|rs| - 1], |rs| - 1;
      SentAscending(front, tables[..k], num);
      NothingMissed(front, tables[..k], num, x);
      PageExtends(SentIds(front), CursorAfter(front), rs[k].rows, tables[k], LimitAt(num, k));
      if j :| 0 <= j < |rs| && |rs[j].rows| < LimitAt(num, j) {
        if j < k { assert front[j] == rs[j]; }
      }
    }
  }

  /**
   * The table changes arbitrarily between pages: what is sent is strictly increasing and
   * positive, up to the cursor, and misses nothing that was there at every page read - nothing
   * at all of it, if some page was shorter than its limit.
   */
  lemma PagingOverChangingTable(rs: seq<Reply>, tables: seq<set<int>>, num: int)
    requires Paged(rs, tables, num)
    ensures Ascending(SentIds(rs))
    ensures forall x :: x in SentIds(rs) ==> 0 < x <= CursorAfter(rs)
    ensures forall x :: 0 < x <= CursorAfter(rs) && Throughout(tables, x) ==> x in SentIds(rs)
    ensures (exists k :: 0 <= k < |rs| && |rs[k].rows| < LimitAt(num, k)) ==>
              forall x :: 0 < x && Throughout(tables, x) ==> x in SentIds(rs)
  {
    SentAscending(rs, tables, num);
    forall x | 0 < x && Throughout(tables, x)
      ensures x <= CursorAfter(rs) || (exists k :: 0 <= k < |rs| && |rs[k].rows| < LimitAt(num, k)) ==> x in SentIds(rs)
    {
      NothingMissed(rs, tables, num, x);
    }
  }

  predicate AllFull(rs: seq<Reply>, num: int) {
    rs == [] || (AllFull(rs[..|rs| - 1], num) && |rs[|rs| - 1].rows| == LimitAt(num, |rs| - 1))
  }

  /** At most the wanted number is sent, and exactly that many if and only if every page was full. */
  lemma {:induction false} SentAtMost(rs: seq<Reply>, tables: seq<set<int>>, num: int)
    requires Paged(rs, tables, num)
    ensures |SentIds(rs)| <= Reached(num, |rs|)
    ensures |SentIds(rs)| == Reached(num, |rs|) <==> AllFull(rs, num)
  {
    if rs != [] {
      SentAtMost(rs[..|rs| - 1], tables[..|rs| - 1], num);
      ReachedStep(num, |rs|);
    }
  }

  // ---------------------------------------------------------------- a table that stays as it is

  /** All positive IDs of the table in ascending order. */
  ghost predicate Enumerates(ids: seq<int>, table: set<int>) {
    && Ascending(ids)
    && (forall x :: x in ids <==> x in table && x > 0)
  }

  /** The hypothesis leaves no choice: a table, a cursor and a limit have one page. */
  lemma PageUnique(a: seq<int>, b: seq<int>, ids: set<int>, cursor: int, limit: int)
    requires IsPage(a, ids, cursor, limit) && IsPage(b, ids, cursor, limit) && |a| <= |b|
    ensures a == b
  {
    forall i | 0 <= i < |a| ensures a[i] == b[i] { PagePrefix(a, b, ids, cursor, limit, i); }
    var next := if |a| < |b| then b[|a|] else cursor;
    assert |a| == |b| || next in b;
  }

  lemma {:induction false} PagePrefix(a: seq<int>, b: seq<int>, ids: set<int>, cursor: int, limit: int, i: nat)
    requires IsPage(a, ids, cursor, limit) && IsPage(b, ids, cursor, limit) && i < |a| <= |b|
    ensures a[i] == b[i]
  {
    if a[i] < b[i] {
      NotSkipped(a, b, ids, cursor, limit, i);
    } else if b[i] < a[i] {
      NotSkipped(b, a, ids, cursor, limit, i);
    }
  }

  /** If the pages agree below i, the smaller of their i-th rows would be missing from the other page. */
  lemma {:induction false} NotSkipped(a: seq<int>, b: seq<int>, ids: set<int>, cursor: int, limit: int, i: nat)
    requires IsPage(a, ids, cursor, limit) && IsPage(b, ids, cursor, limit) && i < |a| && i < |b|
    ensures a[i] >= b[i]
    decreases i
  {
    if a[i] < b[i] {
      var x := a[i];
      assert x in a;
      if j :| 0 <= j < i && b[j] == x {
        NotSkipped(a, b, ids, cursor, limit, j);
      }
    }
  }

  /** The next ids, in order, form a page. */
  lemma NextIdsArePage(ids: seq<int>, table: set<int>, m: nat, limit: int)
    requires Enumerates(ids, table) && m <= |ids| && limit > 0
    ensures IsPage(ids[m..Least(m + limit, |ids|)], table, if m == 0 then 0 else ids[m - 1], limit)
  {
    var end := Least(m + limit, |ids|);
    var rows, cursor := ids[m..end], if m == 0 then 0 else ids[m - 1];
    forall x | x in table && x > cursor && x !in rows
      ensures |rows| == limit && x > rows[limit - 1]
    {
      if m > 0 { assert ids[m - 1] in ids; }
      assert x in ids;
      var i :| 0 <= i < |ids| && ids[i] == x;
    }
    forall r | r in rows ensures r in table && r > cursor { assert r in ids; }
  }

  function Least(a: int, b: int): int { if a < b then a else b }

  /** The page after the first m IDs is the next IDs. */
  lemma PageIsNextIds(ids: seq<int>, table: set<int>, m: nat, limit: int, rows: seq<int>)
    requires Enumerates(ids, table) && m <= |ids| && limit > 0
    requires IsPage(rows, table, if m == 0 then 0 else ids[m - 1], limit)
    ensures rows == ids[m..Least(m + limit, |ids|)]
  {
    NextIdsArePage(ids, table, m, limit);
    var next, cursor := ids[m..Least(m + limit, |ids|)], if m == 0 then 0 else ids[m - 1];
    if |rows| <= |next| {
      PageUnique(rows, next, table, cursor, limit);
    } else {
      PageUnique(next, rows, table, cursor, limit);
    }
  }

  lemma SlicesJoin(ids: seq<int>, m: nat, end: nat)
    requires m <= end <= |ids|
    ensures ids[..m] + ids[m..end] == ids[..end]
    ensures Moved(if m == 0 then 0 else ids[m - 1], ids[m..end]) == if end == 0 then 0 else ids[end - 1]
  {
  }

  /** On a table that stays as it is, p pages send the first min(100p, num, available) positive IDs in order. */
  lemma {:induction false} FixedTableSendsFirst(rs: seq<Reply>, tables: seq<set<int>>, table: set<int>,
                                                ids: seq<int>, num: int)
    requires Paged(rs, tables, num) && (forall i :: 0 <= i < |tables| ==> tables[i] == table) && Enumerates(ids, table)
    ensures var m := Least(Reached(num, |rs|), |ids|);
            && 0 <= m
            && SentIds(rs) == ids[..m]
            && CursorAfter(rs) == if m == 0 then 0 else ids[m - 1]
  {
    if rs != [] {
      FixedTableSendsFirst(rs[..|rs| - 1], tables[..|rs| - 1], table, ids, num);
      NextPageOfFixedTable(rs[|rs| - 1].rows, table, ids, num, |rs|, Least(Reached(num, |rs| - 1), |ids|));
    }
  }

  lemma NextPageOfFixedTable(rows: seq<int>, table: set<int>, ids: seq<int>, num: int, p: nat, m: nat)
    requires 0 < p <= Pages(num) && Enumerates(ids, table) && m == Least(Reached(num, p - 1), |ids|)
    requires IsPage(rows, table, if m == 0 then 0 else ids[m - 1], LimitAt(num, p - 1))
    ensures var end := Least(Reached(num, p), |ids|);
            && m <= end <= |ids|
            && ids[..m] + rows == ids[..end]
            && Moved(if m == 0 then 0 else ids[m - 1], rows) == if end == 0 then 0 else ids[end - 1]
  {
    var end := Least(Reached(num, p), |ids|);
    ReachedStep(num, p);
    assert rows == ids[m..end] by {
      PageIsNextIds(ids, table, m, LimitAt(num, p - 1), rows);
    }
    SlicesJoin(ids, m, end);
  }

  /** Every finite table has its enumeration. */
  lemma {:induction false} EnumerationExists(table: set<int>) returns (ids: seq<int>)
    ensures Enumerates(ids, table)
    decreases |table|
  {
    if table == {} {
      ids := [];
    } else {
      var top := Largest(table);
      ids := EnumerationExists(table - {top});
      if top > 0 {
        AscendingConcat(ids, [top], top - 1);
        ids := ids + [top];
      }
    }
  }

  lemma {:induction false} Largest(s: set<int>) returns (top: int)
    requires s != {}
    ensures top in s && forall x :: x in s ==> x <= top
    decreases |s|
  {
    top := Member(s);
    var rest := s - {top};
    assert forall x :: x in s ==> x in rest || x == top;
    if rest != {} {
      var other := Largest(rest);
      if other > top { top := other; }
    }
  }
}

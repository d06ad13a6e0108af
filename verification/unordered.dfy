/**
 * Paging with nothing but what the query itself promises: a page is any choice of the rows
 * above the cursor, in any order, and it is complete only if it is short. Two rows may have the
 * same ID. When nothing is sent twice, and when no row is passed over, exactly.
 */
module UnorderedPaging {
  import opened Common
  import opened DevicePaging

  /** What the page query allows the database to answer; `ids` has the ID of each row of the type. */
  ghost predicate Allowed(rows: seq<int>, ids: multiset<int>, cursor: int, limit: int) {
    && multiset(rows) <= ids
    && |rows| <= limit
    && (forall r :: r in rows ==> r > cursor)
    && (|rows| < limit ==> forall x :: x > cursor ==> multiset(rows)[x] == ids[x])
  }

  /** Page k is one of the allowed answers on the table of that moment. */
  ghost predicate Answers(rs: seq<Reply>, tables: seq<multiset<int>>, num: int) {
    && |rs| == |tables| <= Pages(num)
    && (rs != [] ==>
          && Answers(rs[..|rs| - 1], tables[..|rs| - 1], num)
          && Allowed(rs[|rs| - 1].rows, tables[|rs| - 1], CursorAfter(rs[..|rs| - 1]), LimitAt(num, |rs| - 1)))
  }

  predicate EndsAtLargest(rows: seq<int>) {
    forall r :: r in rows ==> r <= rows[|rows| - 1]
  }

  /** The page has every row between the cursor it started from and the cursor it leaves. */
  ghost predicate Gapless(rows: seq<int>, ids: multiset<int>, cursor: int) {
    forall x :: cursor < x <= Moved(cursor, rows) ==> multiset(rows)[x] == ids[x]
  }

  lemma AllowedIn(rows: seq<int>, ids: multiset<int>, cursor: int, limit: int, r: int)
    requires Allowed(rows, ids, cursor, limit) && r in rows
    ensures r in ids && r > cursor
  {
    assert r in multiset(rows);
  }

  // ---------------------------------------------------------------- the ordering hypothesis

  /** Tables without two rows of one ID. */
  function AsRows(tables: seq<set<int>>): seq<multiset<int>> {
    seq(|tables|, i requires 0 <= i < |tables| => multiset(tables[i]))
  }

  lemma OrderedPage(rows: seq<int>, ids: set<int>, cursor: int, limit: int)
    requires IsPage(rows, ids, cursor, limit)
    ensures Allowed(rows, multiset(ids), cursor, limit)
    ensures Distinct(rows) && EndsAtLargest(rows) && Gapless(rows, multiset(ids), cursor)
  {
    forall x ensures multiset(rows)[x] == if x in rows then 1 else 0 {
      DistinctCount(rows, x);
    }
  }

  lemma {:induction false} OrderedAnswers(rs: seq<Reply>, tables: seq<set<int>>, num: int)
    requires Paged(rs, tables, num)
    ensures Answers(rs, AsRows(tables), num)
  {
    if rs != [] {
      var front, last := rs[..|rs| - 1], |rs| - 1;
      OrderedAnswers(front, tables[..last], num);
      OrderedPage(rs[last].rows, tables[last], CursorAfter(front), LimitAt(num, last));
      assert AsRows(tables)[..last] == AsRows(tables[..last]);
    }
  }

  lemma {:induction false} PageAt(rs: seq<Reply>, tables: seq<set<int>>, num: int, k: nat)
    requires Paged(rs, tables, num) && k < |rs|
    ensures IsPage(rs[k].rows, tables[k], CursorAfter(rs[..k]), LimitAt(num, k))
  {
    var last := |rs| - 1;
    if k < last {
      PageAt(rs[..last], tables[..last], num, k);
      assert rs[..last][..k] == rs[..k];
    }
  }

  /** The ordering hypothesis is more than distinct IDs and the two conditions. */
  lemma OrderedPages(rs: seq<Reply>, tables: seq<set<int>>, num: int)
    requires Paged(rs, tables, num)
    ensures Answers(rs, AsRows(tables), num)
    ensures AllDistinct(rs) && AllEndAtLargest(rs, num) && AllGapless(rs, AsRows(tables))
  {
    OrderedAnswers(rs, tables, num);
    forall k | 0 <= k < |rs|
      ensures Distinct(rs[k].rows) && EndsAtLargest(rs[k].rows)
      ensures Gapless(rs[k].rows, AsRows(tables)[k], CursorAfter(rs[..k]))
    {
      PageAt(rs, tables, num, k);
      OrderedPage(rs[k].rows, tables[k], CursorAfter(rs[..k]), LimitAt(num, k));
    }
  }

  // ---------------------------------------------------------------- answers and cursors

  lemma {:induction false} RowsAbove(ids: multiset<int>, cursor: int) returns (rows: seq<int>)
    ensures forall x :: multiset(rows)[x] == if x > cursor then ids[x] else 0
    decreases |ids|
  {
    if x :| x in ids {
      rows := RowsAbove(ids - multiset{x}, cursor);
      if x > cursor { rows := rows + [x]; }
    } else {
      rows := [];
    }
  }

  lemma ToFront(s: seq<int>, r: int) returns (t: seq<int>)
    requires r in s
    ensures t != [] && t[0] == r && multiset(t) == multiset(s)
  {
    var i :| 0 <= i < |s| && s[i] == r;
    t := [r] + (s[..i] + s[i + 1..]);
    assert s == s[..i] + [r] + s[i + 1..];
  }

  lemma PartOf(s: seq<int>, n: nat)
    requires n <= |s|
    ensures multiset(s[..n]) <= multiset(s)
  {
    assert s == s[..n] + s[n..];
  }

  /** Any row above the cursor may be among the answer. */
  lemma AllowedWith(ids: multiset<int>, cursor: int, limit: int, r: int) returns (rows: seq<int>)
    requires r in ids && r > cursor && limit > 0
    ensures Allowed(rows, ids, cursor, limit) && r in rows
  {
    var above := RowsAbove(ids, cursor);
    assert r in multiset(above);
    var all := ToFront(above, r);
    var n := Least(limit, |all|);
    rows := all[..n];
    PartOf(all, n);
    forall x ensures multiset(rows)[x] <= ids[x] {
      assert multiset(rows)[x] <= multiset(all)[x] == multiset(above)[x];
    }
    assert rows[0] == r;
    forall x | x in rows ensures x > cursor { assert x in multiset(rows); }
    if n < limit { assert rows == all; }
  }

  lemma LimitPositive(num: int, k: nat)
    requires k < Pages(num)
    ensures LimitAt(num, k) > 0
  {
  }

  lemma Extended(rs: seq<Reply>, k: nat)
    requires k < |rs|
    ensures CursorAfter(rs[..k + 1]) == Moved(CursorAfter(rs[..k]), rs[k].rows)
    ensures SentIds(rs[..k + 1]) == SentIds(rs[..k]) + rs[k].rows
  {
    assert rs[..k + 1][..k] == rs[..k];
  }

  lemma {:induction false} AnswersUpTo(rs: seq<Reply>, tables: seq<multiset<int>>, num: int, k: nat)
    requires Answers(rs, tables, num) && k <= |rs|
    ensures Answers(rs[..k], tables[..k], num)
  {
    var last := |rs| - 1;
    if k == |rs| {
      assert rs[..k] == rs && tables[..k] == tables;
    } else {
      AnswersUpTo(rs[..last], tables[..last], num, k);
      assert rs[..last][..k] == rs[..k] && tables[..last][..k] == tables[..k];
    }
  }

  lemma AnswerAt(rs: seq<Reply>, tables: seq<multiset<int>>, num: int, k: nat)
    requires Answers(rs, tables, num) && k < |rs|
    ensures Answers(rs[..k], tables[..k], num) && Answers(rs[..k + 1], tables[..k + 1], num)
    ensures Allowed(rs[k].rows, tables[k], CursorAfter(rs[..k]), LimitAt(num, k))
  {
    AnswersUpTo(rs, tables, num, k);
    AnswersUpTo(rs, tables, num, k + 1);
    var upTo, before := rs[..k + 1], tables[..k + 1];
    assert upTo[..k] == rs[..k] && upTo[k] == rs[k] && before[k] == tables[k];
  }

  lemma PageRises(rows: seq<int>, ids: multiset<int>, cursor: int, limit: int)
    requires Allowed(rows, ids, cursor, limit)
    ensures Moved(cursor, rows) >= cursor
  {
    if rows != [] { assert rows[|rows| - 1] in rows; }
  }

  lemma {:induction false} CursorRises(rs: seq<Reply>, tables: seq<multiset<int>>, num: int, k: nat)
    requires Answers(rs, tables, num) && k <= |rs|
    ensures 0 <= CursorAfter(rs[..k]) <= CursorAfter(rs)
  {
    var last := |rs| - 1;
    if rs == [] {
      assert rs[..k] == [];
    } else {
      var front := rs[..last];
      PageRises(rs[last].rows, tables[last], CursorAfter(front), LimitAt(num, last));
      CursorRises(front, tables[..last], num, Least(k, last));
      if k <= last {
        assert front[..k] == rs[..k];
      } else {
        assert rs[..k] == rs && front[..last] == front;
      }
    }
  }

  // ---------------------------------------------------------------- nothing twice

  predicate NoneOf(a: seq<int>, b: seq<int>) {
    forall x :: x in a ==> x !in b
  }

  /** Whatever the query allows on this table for the next page, it repeats nothing. */
  ghost predicate NoRepeatOn(rs: seq<Reply>, num: int, table: multiset<int>) {
    forall next :: Allowed(next, table, CursorAfter(rs), LimitAt(num, |rs|)) ==> NoneOf(SentIds(rs), next)
  }

  /** The first k + 1 pages sent nothing twice, nor can the next one, if there may be one, on this table. */
  ghost predicate OnceOn(rs: seq<Reply>, num: int, k: nat, table: multiset<int>)
    requires k < |rs|
  {
    Distinct(SentIds(rs[..k + 1])) && (k + 1 < Pages(num) ==> NoRepeatOn(rs[..k + 1], num, table))
  }

  /** The same, whatever has become of the table. */
  ghost predicate OnceAfter(rs: seq<Reply>, num: int, k: nat)
    requires k < |rs|
  {
    forall table :: OnceOn(rs, num, k, table)
  }

  /** All pages but the last possible one end at their largest ID. */
  predicate AllEndAtLargest(rs: seq<Reply>, num: int) {
    forall k :: 0 <= k < |rs| && k + 1 < Pages(num) ==> EndsAtLargest(rs[k].rows)
  }

  predicate AllDistinct(rs: seq<Reply>) {
    forall k :: 0 <= k < |rs| ==> Distinct(rs[k].rows)
  }

  lemma {:induction false} SentUpToCursor(rs: seq<Reply>, tables: seq<multiset<int>>, num: int)
    requires Answers(rs, tables, num) && AllEndAtLargest(rs, num)
    ensures |rs| < Pages(num) ==> forall x :: x in SentIds(rs) ==> x <= CursorAfter(rs)
  {
    if rs != [] {
      var front, k := rs[..|rs| - 1], |rs| - 1;
      SentUpToCursor(front, tables[..k], num);
      PageRises(rs[k].rows, tables[k], CursorAfter(front), LimitAt(num, k));
      if |rs| < Pages(num) { assert EndsAtLargest(rs[k].rows); }
    }
  }

  lemma DistinctConcat(a: seq<int>, b: seq<int>)
    requires Distinct(a) && Distinct(b) && NoneOf(a, b)
    ensures Distinct(a + b)
  {
    forall i, j | 0 <= i < j < |a + b| ensures (a + b)[i] != (a + b)[j] {
      if i < |a| <= j { assert a[i] in a && b[j - |a|] in b; }
    }
  }

  lemma {:induction false} SentDistinct(rs: seq<Reply>, tables: seq<multiset<int>>, num: int)
    requires Answers(rs, tables, num) && AllEndAtLargest(rs, num) && AllDistinct(rs)
    ensures Distinct(SentIds(rs))
  {
    if rs != [] {
      var front, k := rs[..|rs| - 1], |rs| - 1;
      SentDistinct(front, tables[..k], num);
      SentUpToCursor(front, tables[..k], num);
      assert Distinct(rs[k].rows);
      DistinctConcat(SentIds(front), rs[k].rows);
    }
  }

  lemma OnceIfClean(rs: seq<Reply>, tables: seq<multiset<int>>, num: int, k: nat)
    requires Answers(rs, tables, num) && AllEndAtLargest(rs, num) && AllDistinct(rs) && k < |rs|
    ensures OnceAfter(rs, num, k) && OnceOn(rs, num, k, tables[k])
  {
    var front := rs[..k + 1];
    AnswerAt(rs, tables, num, k);
    assert forall j :: 0 <= j <= k ==> front[j] == rs[j];
    SentDistinct(front, tables[..k + 1], num);
    SentUpToCursor(front, tables[..k + 1], num);
    forall table ensures OnceOn(rs, num, k, table) {}
  }

  lemma DoubledPageRepeats(rs: seq<Reply>, num: int, k: nat, table: multiset<int>)
    requires k < |rs| && !Distinct(rs[k].rows)
    ensures !OnceOn(rs, num, k, table)
  {
    Extended(rs, k);
    var before, rows := SentIds(rs[..k]), rs[k].rows;
    var i, j :| 0 <= i < j < |rows| && rows[i] == rows[j];
    assert (before + rows)[|before| + i] == (before + rows)[|before| + j];
  }

  lemma TurningPageRepeats(rs: seq<Reply>, tables: seq<multiset<int>>, num: int, k: nat)
    requires Answers(rs, tables, num) && k < |rs| && k + 1 < Pages(num) && !EndsAtLargest(rs[k].rows)
    ensures !OnceOn(rs, num, k, tables[k])
  {
    AnswerAt(rs, tables, num, k);
    Extended(rs, k);
    LimitPositive(num, k + 1);
    var rows := rs[k].rows;
    var r :| r in rows && r > rows[|rows| - 1];
    AllowedIn(rows, tables[k], CursorAfter(rs[..k]), LimitAt(num, k), r);
    assert CursorAfter(rs[..k + 1]) == rows[|rows| - 1];
    var next := AllowedWith(tables[k], CursorAfter(rs[..k + 1]), LimitAt(num, k + 1), r);
    assert r in SentIds(rs[..k + 1]) && r in next;
  }

  /**
   * No page has sent, or can be followed by one that sends, an ID twice - on the same table, or on any
   * other - exactly when no page has an ID twice and every page that may be followed at all ends at its
   * largest ID.
   */
  lemma SentOnceExactly(rs: seq<Reply>, tables: seq<multiset<int>>, num: int)
    requires Answers(rs, tables, num)
    ensures (forall k :: 0 <= k < |rs| ==> OnceOn(rs, num, k, tables[k])) <==>
              AllDistinct(rs) && AllEndAtLargest(rs, num)
    ensures (forall k :: 0 <= k < |rs| ==> OnceAfter(rs, num, k)) <==>
              AllDistinct(rs) && AllEndAtLargest(rs, num)
    ensures AllDistinct(rs) && AllEndAtLargest(rs, num) ==> Distinct(SentIds(rs))
  {
    if AllDistinct(rs) && AllEndAtLargest(rs, num) {
      SentDistinct(rs, tables, num);
      forall k | 0 <= k < |rs| ensures OnceAfter(rs, num, k) && OnceOn(rs, num, k, tables[k]) {
        OnceIfClean(rs, tables, num, k);
      }
    } else {
      var k :| 0 <= k < |rs|
               && (!Distinct(rs[k].rows) || (k + 1 < Pages(num) && !EndsAtLargest(rs[k].rows)));
      if !Distinct(rs[k].rows) {
        DoubledPageRepeats(rs, num, k, tables[k]);
      } else {
        TurningPageRepeats(rs, tables, num, k);
      }
      assert !OnceAfter(rs, num, k);
    }
  }

  // ---------------------------------------------------------------- nothing passed over

  /** Some allowed next page has x. */
  ghost predicate MayFollow(rs: seq<Reply>, num: int, table: multiset<int>, x: int) {
    exists next :: Allowed(next, table, CursorAfter(rs), LimitAt(num, |rs|)) && x in next
  }

  /** Some row with this ID is above the cursor and not on the page. */
  predicate Lacks(rows: seq<int>, ids: multiset<int>, cursor: int, x: int) {
    x > cursor && multiset(rows)[x] < ids[x]
  }

  /** A page leaves every row it does not have within reach of the next one exactly when it is gapless. */
  lemma PassedOverExactly(rs: seq<Reply>, tables: seq<multiset<int>>, num: int, k: nat)
    requires Answers(rs, tables, num) && k < |rs| && k + 1 < Pages(num)
    ensures (forall x :: Lacks(rs[k].rows, tables[k], CursorAfter(rs[..k]), x) ==>
               MayFollow(rs[..k + 1], num, tables[k], x))
            <==> Gapless(rs[k].rows, tables[k], CursorAfter(rs[..k]))
  {
    Extended(rs, k);
    AnswerAt(rs, tables, num, k);
    LimitPositive(num, k + 1);
    forall x | x in tables[k] && x > CursorAfter(rs[..k + 1])
      ensures MayFollow(rs[..k + 1], num, tables[k], x)
    {
      var next := AllowedWith(tables[k], CursorAfter(rs[..k + 1]), LimitAt(num, k + 1), x);
    }
    forall x | CursorAfter(rs[..k]) < x <= CursorAfter(rs[..k + 1]) && multiset(rs[k].rows)[x] != tables[k][x]
      ensures Lacks(rs[k].rows, tables[k], CursorAfter(rs[..k]), x) && !MayFollow(rs[..k + 1], num, tables[k], x)
    {
    }
  }

  ghost predicate AllGapless(rs: seq<Reply>, tables: seq<multiset<int>>)
    requires |rs| == |tables|
  {
    forall k :: 0 <= k < |rs| ==> Gapless(rs[k].rows, tables[k], CursorAfter(rs[..k]))
  }

  /** The page on whose way the cursor passed x. */
  lemma {:induction false} PagePassing(rs: seq<Reply>, x: int) returns (k: nat)
    requires 0 < x <= CursorAfter(rs)
    ensures k < |rs| && CursorAfter(rs[..k]) < x <= CursorAfter(rs[..k + 1])
  {
    var last := |rs| - 1;
    assert rs[..last + 1] == rs;
    if x <= CursorAfter(rs[..last]) {
      k := PagePassing(rs[..last], x);
      assert rs[..last][..k] == rs[..k] && rs[..last][..k + 1] == rs[..k + 1];
    } else {
      k := last;
    }
  }

  lemma {:induction false} PageIsSent(rs: seq<Reply>, k: nat, x: int)
    requires k < |rs| && x in rs[k].rows
    ensures x in SentIds(rs)
  {
    if k < |rs| - 1 { PageIsSent(rs[..|rs| - 1], k, x); }
  }

  /** Over changing tables, gapless pages miss nothing up to the cursor that was there all along. */
  lemma GaplessMissesNothing(rs: seq<Reply>, tables: seq<multiset<int>>, num: int, x: int)
    requires Answers(rs, tables, num) && AllGapless(rs, tables)
    requires (forall i :: 0 <= i < |tables| ==> x in tables[i]) && 0 < x <= CursorAfter(rs)
    ensures x in SentIds(rs)
  {
    var k := PagePassing(rs, x);
    Extended(rs, k);
    assert Gapless(rs[k].rows, tables[k], CursorAfter(rs[..k]));
    assert x in multiset(rs[k].rows);
    PageIsSent(rs, k, x);
  }

  lemma NotCounted(s: seq<int>, x: int)
    requires x !in s
    ensures multiset(s)[x] == 0
  {
  }

  lemma SentCount(rs: seq<Reply>, x: int)
    requires rs != []
    ensures multiset(SentIds(rs))[x] == multiset(SentIds(rs[..|rs| - 1]))[x] + multiset(rs[|rs| - 1].rows)[x]
  {
  }

  lemma FrontEndsAtLargest(rs: seq<Reply>, num: int)
    requires AllEndAtLargest(rs, num) && rs != []
    ensures AllEndAtLargest(rs[..|rs| - 1], num)
  {
    assert forall j :: 0 <= j < |rs| - 1 ==> rs[..|rs| - 1][j] == rs[j];
  }

  /** The cursor has not come as far as x before the last page. */
  lemma SentOnLast(rs: seq<Reply>, tables: seq<multiset<int>>, num: int, x: int)
    requires Answers(rs, tables, num) && AllEndAtLargest(rs, num) && rs != []
    requires CursorAfter(rs[..|rs| - 1]) < x
    ensures multiset(SentIds(rs))[x] == multiset(rs[|rs| - 1].rows)[x]
  {
    FrontEndsAtLargest(rs, num);
    SentUpToCursor(rs[..|rs| - 1], tables[..|rs| - 1], num);
    NotCounted(SentIds(rs[..|rs| - 1]), x);
    SentCount(rs, x);
  }

  /** The cursor has passed x before the last page. */
  lemma NotSentOnLast(rs: seq<Reply>, tables: seq<multiset<int>>, num: int, k: nat, x: int)
    requires Answers(rs, tables, num) && k + 1 < |rs| && x <= CursorAfter(rs[..k + 1])
    ensures multiset(SentIds(rs))[x] == multiset(SentIds(rs[..|rs| - 1]))[x]
  {
    var last := |rs| - 1;
    CursorRises(rs[..last], tables[..last], num, k + 1);
    assert rs[..last][..k + 1] == rs[..k + 1];
    NotCounted(rs[last].rows, x);
    SentCount(rs, x);
  }

  /** An ID that the cursor passes on a page has been sent on that page and on no other. */
  lemma {:induction false} SentOnPassing(rs: seq<Reply>, tables: seq<multiset<int>>, num: int, k: nat, x: int)
    requires Answers(rs, tables, num) && AllEndAtLargest(rs, num) && k < |rs|
    requires CursorAfter(rs[..k]) < x <= CursorAfter(rs[..k + 1])
    ensures multiset(SentIds(rs))[x] == multiset(rs[k].rows)[x]
  {
    var last := |rs| - 1;
    if k == last {
      SentOnLast(rs, tables, num, x);
    } else {
      assert rs[..last][..k] == rs[..k] && rs[..last][..k + 1] == rs[..k + 1];
      FrontEndsAtLargest(rs, num);
      SentOnPassing(rs[..last], tables[..last], num, k, x);
      NotSentOnLast(rs, tables, num, k, x);
    }
  }

  /**
   * On a table that stays as it is, a session whose pages end at their largest ID has sent every row
   * with a positive ID up to its cursor, and as often as it is there, exactly when all its pages were
   * gapless.
   */
  lemma NothingMissedExactly(rs: seq<Reply>, tables: seq<multiset<int>>, num: int, table: multiset<int>)
    requires Answers(rs, tables, num) && AllEndAtLargest(rs, num)
    requires forall i :: 0 <= i < |tables| ==> tables[i] == table
    ensures (forall x :: 0 < x <= CursorAfter(rs) ==> multiset(SentIds(rs))[x] == table[x]) <==> AllGapless(rs, tables)
  {
    if AllGapless(rs, tables) {
      forall x | 0 < x <= CursorAfter(rs) ensures multiset(SentIds(rs))[x] == table[x] {
        var k := PagePassing(rs, x);
        Extended(rs, k);
        SentOnPassing(rs, tables, num, k, x);
        assert Gapless(rs[k].rows, tables[k], CursorAfter(rs[..k]));
      }
    } else {
      var k :| 0 <= k < |rs| && !Gapless(rs[k].rows, tables[k], CursorAfter(rs[..k]));
      GapNotMadeUp(rs, tables, num, table, k);
    }
  }

  lemma GapNotMadeUp(rs: seq<Reply>, tables: seq<multiset<int>>, num: int, table: multiset<int>, k: nat)
    requires Answers(rs, tables, num) && AllEndAtLargest(rs, num)
    requires k < |rs| && tables[k] == table && !Gapless(rs[k].rows, table, CursorAfter(rs[..k]))
    ensures exists x :: 0 < x <= CursorAfter(rs) && multiset(SentIds(rs))[x] != table[x]
  {
    var cursor := CursorAfter(rs[..k]);
    var x :| cursor < x <= Moved(cursor, rs[k].rows) && multiset(rs[k].rows)[x] != table[x];
    Extended(rs, k);
    SentOnPassing(rs, tables, num, k, x);
    CursorRises(rs, tables, num, k + 1);
    CursorRises(rs, tables, num, k);
    AnswerAt(rs, tables, num, k);
    CursorRises(rs[..k], tables[..k], num, 0);
  }

  // ---------------------------------------------------------------- both conditions can fail

  lemma AllOnce(rows: seq<int>)
    requires Distinct(rows)
    ensures forall x :: multiset(rows)[x] == if x in rows then 1 else 0
  {
    forall x ensures multiset(rows)[x] == if x in rows then 1 else 0 { DistinctCount(rows, x); }
  }

  /** On a table of 101 rows: a page that ends at its second smallest ID, and one that goes on from there. */
  lemma TwoAllowedPages(first: seq<int>, second: seq<int>, table: multiset<int>)
    requires forall x :: table[x] == if 1 <= x <= 101 then 1 else 0
    requires first == [101] + seq(99, i requires 0 <= i < 99 => 100 - i)
    requires second == seq(99, i requires 0 <= i < 99 => i + 3)
    ensures Distinct(first) && Allowed(first, table, 0, 100)
    ensures Distinct(second) && Allowed(second, table, 2, 100)
  {
    AllOnce(first);
    AllOnce(second);
    forall r | 2 < r <= 101 ensures r in second { assert second[r - 3] == r; }
  }

  /** They send 98 IDs twice. */
  lemma UnorderedPageSendsTwice(first: Reply, second: Reply, table: multiset<int>)
    requires forall x :: table[x] == if 1 <= x <= 101 then 1 else 0
    requires first == Reply([101] + seq(99, i requires 0 <= i < 99 => 100 - i), false, false)
    requires second == Reply(seq(99, i requires 0 <= i < 99 => i + 3), false, false)
    ensures Answers([first, second], [table, table], 200) && AllDistinct([first, second])
    ensures !Distinct(SentIds([first, second]))
  {
    TwoAllowedPages(first.rows, second.rows, table);
    TwoPages(first, second, table, 200);
    assert (first.rows + second.rows)[1] == (first.rows + second.rows)[100 + 97] == 100;
    assert AllDistinct([first, second]);
  }

  lemma TwoPages(first: Reply, second: Reply, table: multiset<int>, num: int)
    requires Pages(num) >= 2
    requires Allowed(first.rows, table, 0, LimitAt(num, 0))
    requires Allowed(second.rows, table, Moved(0, first.rows), LimitAt(num, 1))
    ensures Answers([first, second], [table, table], num)
    ensures SentIds([first, second]) == first.rows + second.rows
  {
    FirstPage(first, table, num);
    assert [first, second][..1] == [first] && [table, table][..1] == [table];
  }

  lemma FirstPage(first: Reply, table: multiset<int>, num: int)
    requires Pages(num) >= 1 && Allowed(first.rows, table, 0, LimitAt(num, 0))
    ensures Answers([first], [table], num)
    ensures SentIds([first]) == first.rows && CursorAfter([first]) == Moved(0, first.rows)
  {
    assert [first][..0] == [] && [table][..0] == [];
    assert Answers([], [], num) && SentIds([]) == [] && CursorAfter([]) == 0;
  }

  /** Two rows of one ID, on one page in ascending order: the device is sent twice. */
  lemma SharedIdSendsTwice(id: int)
    requires id > 0
    ensures Answers([Reply([id, id], false, false)], [multiset{id, id}], 2)
    ensures EndsAtLargest([id, id]) && !Distinct(SentIds([Reply([id, id], false, false)]))
  {
    var r := Reply([id, id], false, false);
    assert [r][..0] == [] && [multiset{id, id}][..0] == [];
    assert SentIds([r]) == [id, id];
    assert SentIds([r])[0] == SentIds([r])[1];
  }
}

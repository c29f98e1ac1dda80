/**
  Keyset pagination. Rows carry an immutable, unique key, the pair (created_at, id); a cursor is the
  key of the last row already delivered. Identifiers and timestamps are integers here: only their
  equality and their order matter.
 */
module Keyset {
  import opened Wrappers

  datatype Key = Key(createdAt: int, id: int)

  datatype Row<+T> = Row(key: Key, item: T)

  type Cursor = Option<Key>

  /** The lexicographic order of the (created_at, id) pairs. */
  predicate Before(a: Key, b: Key) {
    a.createdAt < b.createdAt || (a.createdAt == b.createdAt && a.id < b.id)
  }

  predicate After(cursor: Cursor, key: Key) {
    cursor.None? || Before(cursor.value, key)
  }

  /** True iff every row that lies after `d` also lies after `c`. */
  predicate NotPast(c: Cursor, d: Cursor) {
    c.None? || (d.Some? && !Before(d.value, c.value))
  }

  predicate Ascending<T>(rows: seq<Row<T>>) {
    forall i, j :: 0 <= i < j < |rows| ==> Before(rows[i].key, rows[j].key)
  }

  predicate HasKey<T>(rows: seq<Row<T>>, key: Key) {
    exists i :: 0 <= i < |rows| && rows[i].key == key
  }

  function Keep<T(!new)>(rows: seq<T>, p: T -> bool): (r: seq<T>)
    ensures forall x :: x in r <==> x in rows && p(x)
    ensures |r| <= |rows|
  {
    if rows == [] then []
    else (if p(rows[0]) then [rows[0]] else []) + Keep(rows[1..], p)
  }

  function Later<T(!new)>(cursor: Cursor): Row<T> -> bool {
    (row: Row<T>) => After(cursor, row.key)
  }

  /** At or before the cursor; everything, at the end of the stream. */
  predicate UpTo(next: Cursor, key: Key) {
    next.None? || !Before(next.value, key)
  }

  function Earlier<T>(next: Cursor): Row<T> -> bool {
    (row: Row<T>) => UpTo(next, row.key)
  }

  function RowsAfter<T(!new)>(rows: seq<Row<T>>, cursor: Cursor): seq<Row<T>> {
    Keep(rows, Later(cursor))
  }

  /** One step of a filtering loop that has kept `done` of the rows before i. */
  lemma KeepStep<T(!new)>(rows: seq<T>, i: nat, p: T -> bool, done: seq<T>)
    requires i < |rows| && done + Keep(rows[i..], p) == Keep(rows, p)
    ensures rows[i] in rows
    ensures (if p(rows[i]) then done + [rows[i]] else done) + Keep(rows[i + 1..], p) == Keep(rows, p)
  {
    assert rows[i..][1..] == rows[i + 1..];
    Regroup(done, if p(rows[i]) then [rows[i]] else [], Keep(rows[i + 1..], p));
  }

  lemma Regroup<T>(a: seq<T>, b: seq<T>, c: seq<T>)
    ensures a + (b + c) == a + b + c
    ensures b == [] ==> a + b == a
  {
  }

  function LastKey<T(!new)>(rows: seq<Row<T>>): Key
    requires rows != []
  {
    rows[|rows| - 1].key
  }

  function Take<T(!new)>(rows: seq<T>, n: nat): seq<T> {
    if |rows| <= n then rows else rows[..n]
  }

  /** Where a loop over the rows starts and where it ends. */
  lemma KeepEnds<T(!new)>(rows: seq<T>, p: T -> bool)
    ensures Keep(rows[0..], p) == Keep(rows, p) && Keep(rows[|rows|..], p) == []
  {
    assert rows[0..] == rows;
  }

  lemma MulOrder(a: int, b: int, c: nat)
    ensures a >= b ==> a * c >= b * c
  {
    assert (a - b) * c == a * c - b * c;
  }

  function CeilDiv(n: nat, d: nat): (q: nat)
    requires d > 0
    ensures (q as int - 1) * d < n <= q * d || n == q == 0
  {
    var q := (n + d - 1) / d;
    assert n + d - 1 == q * d + (n + d - 1) % d;
    q
  }

  lemma {:induction false} KeepConcat<T(!new)>(a: seq<T>, b: seq<T>, p: T -> bool)
    ensures Keep(a + b, p) == Keep(a, p) + Keep(b, p)
  {
    if a == [] {
      assert a + b == b;
    } else {
      assert (a + b)[1..] == a[1..] + b;
      KeepConcat(a[1..], b, p);
    }
  }

  /** The position at which x first occurs from n on; the length if it does not. */
  function FirstIndexFrom<T(==)>(xs: seq<T>, x: T, n: nat): (k: nat)
    requires n <= |xs|
    ensures n <= k <= |xs| && (k < |xs| ==> xs[k] == x)
    ensures forall i :: n <= i < k ==> xs[i] != x
    decreases |xs| - n
  {
    if n == |xs| || xs[n] == x then n else FirstIndexFrom(xs, x, n + 1)
  }

  function FirstIndex<T(==)>(xs: seq<T>, x: T): (k: nat)
    ensures k <= |xs| && (k < |xs| ==> xs[k] == x)
    ensures forall i :: 0 <= i < k ==> xs[i] != x
  {
    FirstIndexFrom(xs, x, 0)
  }

  /**
    The store's page contract: the first `limit` rows after the cursor, ascending, and a cursor
    exactly when more rows lie behind the page.
   */
  function Fetch<T(!new)>(rows: seq<Row<T>>, cursor: Cursor, limit: nat): (seq<Row<T>>, Cursor)
    requires limit > 0
  {
    var after := RowsAfter(rows, cursor);
    if |after| <= limit then (after, None) else (after[..limit], Some(after[limit - 1].key))
  }

  function Insert<T(!new)>(row: Row<T>, rows: seq<Row<T>>): (r: seq<Row<T>>)
    ensures forall x :: x in r <==> x == row || x in rows
  {
    if rows == [] || Before(row.key, rows[0].key) then [row] + rows
    else
      assert rows == [rows[0]] + rows[1..];
      [rows[0]] + Insert(row, rows[1..])
  }

  /** `sorted(rows, key=lambda d: (d.created_at, d.id))` */
  function SortByKey<T(!new)>(rows: seq<Row<T>>): (r: seq<Row<T>>)
    ensures forall x :: x in r <==> x in rows
  {
    if rows == [] then []
    else
      assert rows == [rows[0]] + rows[1..];
      Insert(rows[0], SortByKey(rows[1..]))
  }

  predicate DistinctKeys<T>(rows: seq<Row<T>>) {
    forall i, j :: 0 <= i < j < |rows| ==> rows[i].key != rows[j].key
  }

  // ----- Ascending sequences are determined by their elements -----

  lemma InsertAscending<T(!new)>(row: Row<T>, rows: seq<Row<T>>)
    requires Ascending(rows) && !HasKey(rows, row.key)
    ensures Ascending(Insert(row, rows))
  {
    if rows != [] && !Before(row.key, rows[0].key) {
      var rest := rows[1..];
      assert forall i :: 0 <= i < |rest| ==> rest[i] == rows[i + 1];
      InsertAscending(row, rest);
      assert rows[0].key != row.key;
      var r := Insert(row, rest);
      forall j | 0 <= j < |r|
        ensures Before(rows[0].key, r[j].key)
      {
        assert r[j] in r;
        if r[j] != row {
          var i :| 0 <= i < |rest| && rest[i] == r[j];
          assert rows[i + 1] == r[j];
        }
      }
    }
  }

  lemma {:induction false} SortAscending<T(!new)>(rows: seq<Row<T>>)
    requires DistinctKeys(rows)
    ensures Ascending(SortByKey(rows))
  {
    if rows != [] {
      var rest := rows[1..];
      SortAscending(rest);
      var sorted := SortByKey(rest);
      forall i | 0 <= i < |sorted|
        ensures sorted[i].key != rows[0].key
      {
        assert sorted[i] in rest;
        var j :| 0 <= j < |rest| && rest[j] == sorted[i];
        assert rows[j + 1] == rest[j];
      }
      InsertAscending(rows[0], SortByKey(rest));
    }
  }

  lemma {:induction false} KeepAscending<T(!new)>(rows: seq<Row<T>>, p: Row<T> -> bool)
    requires Ascending(rows)
    ensures Ascending(Keep(rows, p))
  {
    if rows != [] {
      var rest := Keep(rows[1..], p);
      KeepAscending(rows[1..], p);
      forall j | 0 <= j < |rest|
        ensures Before(rows[0].key, rest[j].key)
      {
        assert rest[j] in rest && rest[j] in rows[1..];
        var i :| 0 <= i < |rows[1..]| && rows[1..][i] == rest[j];
        assert rows[i + 1] == rest[j];
      }
    }
  }

  lemma HasMember<T(!new)>(rows: seq<T>)
    requires rows != []
    ensures exists x :: x in rows
  {
    assert rows[0] in rows;
  }

  /** Two ascending sequences with the same rows are the same sequence. */
  lemma {:induction false} AscendingUnique<T(!new)>(a: seq<Row<T>>, b: seq<Row<T>>)
    requires Ascending(a) && Ascending(b)
    requires forall x :: x in a <==> x in b
    ensures a == b
  {
    if a == [] {
      if b != [] {
        HasMember(b);
      }
    } else {
      assert a[0] in a && a[0] in b;
      assert b[0] in b && b[0] in a;
      var i :| 0 <= i < |b| && b[i] == a[0];
      var j :| 0 <= j < |a| && a[j] == b[0];
      assert i == 0 && j == 0;
      forall x
        ensures x in a[1..] <==> x in b[1..]
      {
        assert x in a <==> x == a[0] || x in a[1..] by { assert a == [a[0]] + a[1..]; }
        assert x in b <==> x == b[0] || x in b[1..] by { assert b == [b[0]] + b[1..]; }
        assert forall k :: 0 <= k < |a[1..]| ==> a[1..][k] != a[0];
        assert forall k :: 0 <= k < |b[1..]| ==> b[1..][k] != b[0];
      }
      AscendingUnique(a[1..], b[1..]);
      assert a == [a[0]] + a[1..] && b == [b[0]] + b[1..];
    }
  }

  lemma SameKeySameRow<T(!new)>(rows: seq<Row<T>>, a: Row<T>, b: Row<T>)
    requires Ascending(rows) && a in rows && b in rows && a.key == b.key
    ensures a == b
  {
  }

  // ----- Splitting at a cursor -----

  lemma RowsAfterAt<T(!new)>(rows: seq<Row<T>>, i: nat)
    requires Ascending(rows) && i < |rows|
    ensures RowsAfter(rows, Some(rows[i].key)) == rows[i + 1..]
  {
    var tail := rows[i + 1..];
    KeepAscending(rows, Later(Some(rows[i].key)));
    forall x
      ensures x in RowsAfter(rows, Some(rows[i].key)) <==> x in tail
    {
      if x in rows && Before(rows[i].key, x.key) {
        var j :| 0 <= j < |rows| && rows[j] == x;
        assert j > i;
        assert tail[j - i - 1] == x;
      }
      if x in tail {
        var j :| 0 <= j < |tail| && tail[j] == x;
        assert rows[i + 1 + j] == x;
      }
    }
    AscendingUnique(RowsAfter(rows, Some(rows[i].key)), tail);
  }

  lemma RowsAfterTwice<T(!new)>(rows: seq<Row<T>>, c: Cursor, d: Cursor)
    requires Ascending(rows) && NotPast(c, d)
    ensures RowsAfter(RowsAfter(rows, c), d) == RowsAfter(rows, d)
  {
    KeepAscending(rows, Later(c));
    KeepAscending(RowsAfter(rows, c), Later(d));
    KeepAscending(rows, Later(d));
    AscendingUnique(RowsAfter(RowsAfter(rows, c), d), RowsAfter(rows, d));
  }

  /**
    What one store page is: an ascending run of rows after the cursor that leaves out nothing up to
    its last key; what remains after that key is the rest of the stream.
   */
  lemma FetchSplits<T(!new)>(rows: seq<Row<T>>, cursor: Cursor, limit: nat)
    requires Ascending(rows) && limit > 0
    ensures var after := RowsAfter(rows, cursor);
            var (page, next) := Fetch(rows, cursor, limit);
            && Ascending(after) && Ascending(page)
            && page == after[..|page|]
            && |page| == (if |after| <= limit then |after| else limit)
            && next == (if |after| <= limit then None else Some(LastKey(page)))
            && (page == [] ==> after == [])
            && (page != [] ==>
                  && After(cursor, LastKey(page)) && NotPast(cursor, Some(LastKey(page)))
                  && RowsAfter(rows, Some(LastKey(page))) == after[|page|..])
  {
    hide RowsAfter, Ascending, NotPast;
    AfterAscends(rows, cursor);
    var after := RowsAfter(rows, cursor);
    if after != [] {
      var n := if |after| <= limit then |after| else limit;
      PrefixAscends(after, n);
      RestAfter(rows, cursor, n - 1);
    }
  }

  lemma AfterAscends<T(!new)>(rows: seq<Row<T>>, cursor: Cursor)
    requires Ascending(rows)
    ensures Ascending(RowsAfter(rows, cursor))
  {
    KeepAscending(rows, Later(cursor));
  }

  lemma PrefixAscends<T>(rows: seq<Row<T>>, n: nat)
    requires Ascending(rows) && n <= |rows|
    ensures Ascending(rows[..n])
  {
  }

  /** Fetching from a row's key continues right after the row. */
  lemma RestAfter<T(!new)>(rows: seq<Row<T>>, cursor: Cursor, i: nat)
    requires Ascending(rows) && i < |RowsAfter(rows, cursor)|
    ensures var after := RowsAfter(rows, cursor);
            && After(cursor, after[i].key) && NotPast(cursor, Some(after[i].key))
            && RowsAfter(rows, Some(after[i].key)) == after[i + 1..]
  {
    hide Ascending;
    var after := RowsAfter(rows, cursor);
    assert after[i] in after;
    AfterAscends(rows, cursor);
    RowsAfterAt(after, i);
    RowsAfterTwice(rows, cursor, Some(after[i].key));
  }

  /** Beyond one of its own rows less of a stream remains. */
  lemma FewerRowsAfter<T(!new)>(rows: seq<Row<T>>, cursor: Cursor, row: Row<T>)
    requires Ascending(rows) && row in RowsAfter(rows, cursor)
    ensures |RowsAfter(rows, Some(row.key))| < |RowsAfter(rows, cursor)|
  {
    hide Ascending, RowsAfter;
    var after := RowsAfter(rows, cursor);
    var i :| 0 <= i < |after| && after[i] == row;
    RestAfter(rows, cursor, i);
  }

  lemma {:induction false} KeepAll<T(!new)>(rows: seq<T>, p: T -> bool)
    requires forall x :: x in rows ==> p(x)
    ensures Keep(rows, p) == rows
  {
    if rows != [] {
      assert rows[0] in rows && forall x :: x in rows[1..] ==> x in rows;
      KeepAll(rows[1..], p);
    }
  }

  lemma {:induction false} KeepNone<T(!new)>(rows: seq<T>, p: T -> bool)
    requires forall x :: x in rows ==> !p(x)
    ensures Keep(rows, p) == []
  {
    if rows != [] {
      assert rows[0] in rows && forall x :: x in rows[1..] ==> x in rows;
      KeepNone(rows[1..], p);
    }
  }

  lemma AscendingThen<T(!new)>(a: seq<Row<T>>, b: seq<Row<T>>)
    requires Ascending(a) && Ascending(b)
    requires forall i, j :: 0 <= i < |a| && 0 <= j < |b| ==> Before(a[i].key, b[j].key)
    ensures Ascending(a + b)
  {
  }

  /** A cursor cuts an ascending stream into what was delivered and what remains. */
  lemma SplitsAtCursor<T(!new)>(rows: seq<Row<T>>, c: Key)
    requires Ascending(rows)
    ensures Keep(rows, Earlier(Some(c))) + RowsAfter(rows, Some(c)) == rows
  {
    var a, b := Keep(rows, Earlier(Some(c))), RowsAfter(rows, Some(c));
    KeepAscending(rows, Earlier(Some(c)));
    KeepAscending(rows, Later(Some(c)));
    forall i, j | 0 <= i < |a| && 0 <= j < |b|
      ensures Before(a[i].key, b[j].key)
    {
      assert a[i] in a && b[j] in b;
    }
    AscendingThen(a, b);
    AscendingUnique(a + b, rows);
  }
}

/**
  Keyset pagination over rows ordered by `(created_at, id)`: the cursor clause of
  `_page_clause_asc` and the limit+1 slicing of `_paginate_rows_asc`. The database's part
  (filtering by the caller's `WHERE` terms and `ORDER BY created_at, id`) is the input
  `rows`: the matching rows, already in key order. SQLite compares text by its UTF-8 bytes,
  which orders strings as their code points do, so `LexLess` stands for `<` on the columns.
*/
module ApiPages {
  import opened Wrappers
  import opened Strings
  import opened Json
  import opened Pagination

  /** A table row: its key columns and the rest of its columns. */
  datatype Row = Row(createdAt: string, id: string, columns: map<string, Value>)

  /** `ORDER BY created_at, id`: strictly before. */
  predicate KeyLess(a: Row, b: Row) {
    LexLess(a.createdAt, b.createdAt) || (a.createdAt == b.createdAt && LexLess(a.id, b.id))
  }

  /** `(created_at > ? OR (created_at = ? AND id > ?))` bound to the cursor's fields. */
  predicate After(r: Row, c: Cursor) {
    LexLess(c.createdAt, r.createdAt) || (r.createdAt == c.createdAt && LexLess(c.id, r.id))
  }

  /** The cursor that points at a row. */
  function CursorAt(r: Row): Cursor {
    Cursor(r.createdAt, r.id)
  }

  /** Rows strictly increasing by key, as the query returns them (ids are primary keys). */
  predicate Ordered(rows: seq<Row>) {
    forall i, j :: 0 <= i < j < |rows| ==> KeyLess(rows[i], rows[j])
  }

  /** The `WHERE` clause the cursor adds: the rows after it, in order. */
  function Filter(rows: seq<Row>, c: Cursor): (r: seq<Row>)
    ensures |r| <= |rows|
  {
    if |rows| == 0 then []
    else (if After(rows[0], c) then [rows[0]] else []) + Filter(rows[1..], c)
  }

  /** The rows the query matches: all of them without a cursor. */
  function Matching(rows: seq<Row>, cursor: Option<Cursor>): (r: seq<Row>)
    ensures |r| <= |rows|
  {
    match cursor
    case None => rows
    case Some(c) => Filter(rows, c)
  }

  /** SQL `LIMIT n`. */
  function Take(rows: seq<Row>, n: nat): (r: seq<Row>)
    ensures r == rows[..if n < |rows| then n else |rows|]
  {
    if n < |rows| then rows[..n] else rows
  }

  /**
    `_paginate_rows_asc`: fetch up to `limit + 1` matching rows; when more than `limit` came
    back, return the first `limit` and a cursor at `rows[limit - 1]` (Python's negative index
    when `limit` is 0, which `parse_limit` never lets through).
  */
  function Paginate(rows: seq<Row>, cursor: Option<Cursor>, limit: nat): (r: (seq<Row>, Option<string>))
    ensures |r.0| <= limit && |r.0| <= |Matching(rows, cursor)| && r.0 == Matching(rows, cursor)[..|r.0|]
    ensures r.1.Some? <==> |Matching(rows, cursor)| > limit
    ensures r.1.Some? ==> |r.0| == limit
    ensures r.1.None? ==> r.0 == Matching(rows, cursor)
    ensures r.1.Some? && limit > 0 ==> r.1 == Some(EncodeCursor(CursorAt(r.0[limit - 1])))
  {
    var matched := Matching(rows, cursor);
    var fetched := Take(matched, limit + 1);
    if |fetched| > limit then
      var last := fetched[if limit == 0 then |fetched| - 1 else limit - 1];
      (fetched[..limit], Some(EncodeCursor(CursorAt(last))))
    else (fetched, None)
  }

  // ----- order facts -----

  lemma KeyLessTransitive(a: Row, b: Row, c: Row)
    requires KeyLess(a, b) && KeyLess(b, c)
    ensures KeyLess(a, c)
  {
    if LexLess(a.createdAt, b.createdAt) && LexLess(b.createdAt, c.createdAt) {
      LexLessTransitive(a.createdAt, b.createdAt, c.createdAt);
    } else if a.createdAt == b.createdAt && b.createdAt == c.createdAt {
      LexLessTransitive(a.id, b.id, c.id);
    }
  }

  /** A row after the cursor is followed only by rows after it. */
  lemma AfterMonotone(a: Row, b: Row, c: Cursor)
    requires After(a, c) && KeyLess(a, b)
    ensures After(b, c)
  {
    var q := Row(c.createdAt, c.id, map[]);
    assert KeyLess(q, a);
    KeyLessTransitive(q, a, b);
  }

  /** Rows at or before a row are not after the cursor pointing at it. */
  lemma NotAfterEarlier(a: Row, b: Row)
    requires a == b || KeyLess(a, b)
    ensures !After(a, CursorAt(b))
  {
    LexLessIrreflexive(a.createdAt);
    LexLessIrreflexive(a.id);
    if KeyLess(a, b) {
      if LexLess(a.createdAt, b.createdAt) {
        LexLessAsymmetric(a.createdAt, b.createdAt);
      } else {
        LexLessAsymmetric(a.id, b.id);
      }
    }
  }

  lemma OrderedTail(rows: seq<Row>)
    requires |rows| > 0 && Ordered(rows)
    ensures Ordered(rows[1..])
  {
    forall i, j | 0 <= i < j < |rows| - 1 ensures KeyLess(rows[1..][i], rows[1..][j]) {
      assert rows[1..][i] == rows[i + 1] && rows[1..][j] == rows[j + 1];
    }
  }

  /** If the rows before `m` fail the clause and the rest pass, the clause keeps exactly `rows[m..]`. */
  lemma {:induction false} FilterCut(rows: seq<Row>, c: Cursor, m: nat)
    requires m <= |rows|
    requires forall i :: 0 <= i < m ==> !After(rows[i], c)
    requires forall i :: m <= i < |rows| ==> After(rows[i], c)
    ensures Filter(rows, c) == rows[m..]
    decreases |rows|
  {
    if |rows| > 0 {
      var tail := rows[1..];
      var m' := if m == 0 then 0 else m - 1;
      forall i | 0 <= i < m' ensures !After(tail[i], c) { assert tail[i] == rows[i + 1]; }
      forall i | m' <= i < |tail| ensures After(tail[i], c) { assert tail[i] == rows[i + 1]; }
      FilterCut(tail, c, m');
      if m == 0 {
        assert rows == [rows[0]] + tail;
      } else {
        assert rows[m..] == tail[m'..];
      }
    }
  }

  /** Over ordered rows, the rows after any cursor are a suffix. */
  lemma {:induction false} FilterSuffix(rows: seq<Row>, c: Cursor) returns (m: nat)
    requires Ordered(rows)
    ensures m <= |rows| && Filter(rows, c) == rows[m..]
    decreases |rows|
  {
    if |rows| == 0 {
      m := 0;
    } else if After(rows[0], c) {
      forall i | 0 <= i < |rows| ensures After(rows[i], c) {
        if i > 0 { AfterMonotone(rows[0], rows[i], c); }
      }
      FilterCut(rows, c, 0);
      m := 0;
    } else {
      OrderedTail(rows);
      var k := FilterSuffix(rows[1..], c);
      assert Filter(rows, c) == Filter(rows[1..], c);
      assert rows[1..][k..] == rows[k + 1..];
      m := k + 1;
    }
  }

  /** Over ordered rows, the rows after the cursor at `rows[k]` are exactly those after index `k`. */
  lemma FilterAtRow(rows: seq<Row>, k: nat)
    requires Ordered(rows) && k < |rows|
    ensures Filter(rows, CursorAt(rows[k])) == rows[k + 1..]
  {
    UpToRowNotAfter(rows, k);
    PastRowAfter(rows, k);
    FilterCut(rows, CursorAt(rows[k]), k + 1);
  }

  lemma UpToRowNotAfter(rows: seq<Row>, k: nat)
    requires Ordered(rows) && k < |rows|
    ensures forall i :: 0 <= i < k + 1 ==> !After(rows[i], CursorAt(rows[k]))
  {
    forall i | 0 <= i < k + 1
      ensures !After(rows[i], CursorAt(rows[k]))
    {
      NotAfterEarlier(rows[i], rows[k]);
    }
  }

  lemma PastRowAfter(rows: seq<Row>, k: nat)
    requires Ordered(rows) && k < |rows|
    ensures forall i :: k + 1 <= i < |rows| ==> After(rows[i], CursorAt(rows[k]))
  {
    forall i | k + 1 <= i < |rows|
      ensures After(rows[i], CursorAt(rows[k]))
    {
      assert KeyLess(rows[k], rows[i]);
    }
  }

  /** The matching rows form a suffix of the ordered rows. */
  lemma MatchingSuffix(rows: seq<Row>, cursor: Option<Cursor>) returns (m: nat)
    requires Ordered(rows)
    ensures m <= |rows| && Matching(rows, cursor) == rows[m..]
  {
    if cursor.None? {
      m := 0;
    } else {
      m := FilterSuffix(rows, cursor.value);
    }
  }

  /** Every row has non-empty key columns (ids and timestamps are never empty). */
  predicate Keyed(rows: seq<Row>) {
    forall i :: 0 <= i < |rows| ==> rows[i].createdAt != [] && rows[i].id != []
  }

  /**
    Paging continues where it stopped: the next cursor decodes, and the rows after it are
    exactly the matching rows this page did not return, so no row is skipped or repeated.
  */
  lemma PageContinues(loads: string -> Option<Value>, rows: seq<Row>, cursor: Option<Cursor>, limit: nat)
    requires Ordered(rows) && Keyed(rows) && limit > 0
    requires ReadsCursorJson(loads)
    requires Paginate(rows, cursor, limit).1.Some?
    ensures var (page, next) := Paginate(rows, cursor, limit);
      && DecodeCursor(loads, next.value) == Success(CursorAt(page[limit - 1]))
      && page + Matching(rows, Some(CursorAt(page[limit - 1]))) == Matching(rows, cursor)
  {
    var page := Paginate(rows, cursor, limit).0;
    var k := PageThenRest(rows, cursor, limit);
    assert rows[k].createdAt != [] && rows[k].id != [];
    DecodeEncodeCursor(loads, CursorAt(page[limit - 1]));
  }

  /** The page followed by the rows after its last row is every matching row. */
  lemma PageThenRest(rows: seq<Row>, cursor: Option<Cursor>, limit: nat) returns (k: nat)
    requires Ordered(rows) && limit > 0
    requires Paginate(rows, cursor, limit).1.Some?
    ensures var page := Paginate(rows, cursor, limit).0;
      && |page| == limit && k < |rows| && page[limit - 1] == rows[k]
      && page + Matching(rows, Some(CursorAt(page[limit - 1]))) == Matching(rows, cursor)
  {
    var page := Paginate(rows, cursor, limit).0;
    var m := MatchingSuffix(rows, cursor);
    k := m + limit - 1;
    PageIsSlice(rows, cursor, limit, m);
    assert page[limit - 1] == rows[k];
    FilterAtRow(rows, k);
    SliceSplit(rows, m, k + 1);
  }

  lemma SliceSplit<T>(s: seq<T>, a: nat, b: nat)
    requires a <= b <= |s|
    ensures s[a..b] + s[b..] == s[a..]
  {
  }

  /** With the matching rows at `rows[m..]`, a full page is `rows[m..m + limit]`. */
  lemma PageIsSlice(rows: seq<Row>, cursor: Option<Cursor>, limit: nat, m: nat)
    requires m <= |rows| && Matching(rows, cursor) == rows[m..] && limit > 0
    requires Paginate(rows, cursor, limit).1.Some?
    ensures m + limit <= |rows| && Paginate(rows, cursor, limit).0 == rows[m..m + limit]
  {
  }
}

/** What the SQL engine under the handlers decides: the integers a statement
    can bind, the order in which a table is scanned, the rowid an INSERT gets,
    OFFSET/LIMIT, and SQLAlchemy's `.one()`. The database is SQLite
    (fastapi_tutorial/simple_api/database.py). The scan order is the one
    SQLite shows for a plain rowid table; SQLite does not promise it (see
    `KeyOrder`). */
module Sql {
  import opened Wrappers

  ghost predicate IsMin(s: set<int>, m: int) {
    m in s && forall k | k in s :: m <= k
  }

  ghost predicate IsMax(s: set<int>, m: int) {
    m in s && forall k | k in s :: k <= m
  }

  /** A key set other than `{}` has an element. */
  lemma HasKey(s: set<int>)
    requires s != {}
    ensures exists x :: x in s
  {
    if forall x :: x !in s {
      assert false;
    }
  }

  lemma {:induction false} MinExists(s: set<int>)
    requires s != {}
    ensures exists m :: IsMin(s, m)
    decreases |s|
  {
    HasKey(s);
    var x :| x in s;
    var rest := s - {x};
    if rest == {} {
      assert s == {x};
      assert IsMin(s, x);
    } else {
      MinExists(rest);
      var y :| IsMin(rest, y);
      assert forall k | k in s :: k == x || k in rest;
      assert IsMin(s, if x < y then x else y);
    }
  }

  lemma {:induction false} MaxExists(s: set<int>)
    requires s != {}
    ensures exists m :: IsMax(s, m)
    decreases |s|
  {
    HasKey(s);
    var x :| x in s;
    var rest := s - {x};
    if rest == {} {
      assert s == {x};
      assert IsMax(s, x);
    } else {
      MaxExists(rest);
      var y :| IsMax(rest, y);
      assert forall k | k in s :: k == x || k in rest;
      assert IsMax(s, if x < y then y else x);
    }
  }

  /** The smallest key of a non-empty key set. */
  function MinKey(s: set<int>): (m: int)
    requires s != {}
    ensures IsMin(s, m)
  {
    MinExists(s);
    var m :| m in s && forall k | k in s :: m <= k; m
  }

  /** The largest key of a non-empty key set. */
  function MaxKey(s: set<int>): (m: int)
    requires s != {}
    ensures IsMax(s, m)
  {
    MaxExists(s);
    var m :| m in s && forall k | k in s :: k <= m; m
  }

  /** SQLite's INTEGER range: a signed 64-bit value. */
  const MinInteger := -0x8000_0000_0000_0000
  const MaxInteger := 0x7fff_ffff_ffff_ffff

  /** The Python driver binds an int parameter only inside that range; any
      other int raises `OverflowError` before the statement runs, so nothing
      is read or written. */
  predicate Bindable(x: int) {
    MinInteger <= x <= MaxInteger
  }

  /** A nullable integer column value: None binds as NULL. */
  predicate BindableOption(x: Option<int>) {
    x.None? || Bindable(x.value)
  }

  predicate Ascending(ids: seq<int>) {
    forall i, j | 0 <= i < j < |ids| :: ids[i] < ids[j]
  }

  /** The primary keys of a table in the order a `SELECT` without `ORDER BY`
      returns its rows, taken to be ascending rowid order. SQL leaves that
      order undefined; ascending rowid is what SQLite's full scan of a rowid
      table yields when no index is chosen, an assumed order and not a
      guaranteed one. */
  function KeyOrder(s: set<int>): (ids: seq<int>)
    ensures Ascending(ids)
    ensures forall k :: k in ids <==> k in s
    ensures forall i | 0 <= i < |ids| :: ids[i] in s
    ensures |ids| == |s|
    decreases |s|
  {
    if s == {} then []
    else
      var m := MinKey(s);
      [m] + KeyOrder(s - {m})
  }

  /** The rowid SQLite gives a row inserted without one: one more than the
      largest rowid in the table, or 1 when the table is empty. It is never a
      rowid the table already holds. */
  function NextRowId(s: set<int>): (id: int)
    ensures id !in s
    ensures forall k | k in s :: k < id
    ensures s == {} ==> id == 1
    ensures s != {} ==> id - 1 in s
  {
    if s == {} then 1 else MaxKey(s) + 1
  }

  /** `LIMIT limit OFFSET offset`: skip `offset` rows, then keep at most `limit`
      of the rest. SQLite reads a negative OFFSET as 0 and a negative LIMIT as
      "no limit". */
  function OffsetLimit<T>(rows: seq<T>, offset: int, limit: int): (page: seq<T>)
    ensures var skip := if offset < 0 then 0 else offset;
      |page| == if skip >= |rows| then 0
                else if limit < 0 || skip + limit > |rows| then |rows| - skip
                else limit
    ensures 0 <= limit ==> |page| <= limit
    ensures var skip := if offset < 0 then 0 else offset;
      forall i | 0 <= i < |page| :: skip + i < |rows| && page[i] == rows[skip + i]
  {
    var skip := if offset < 0 then 0 else offset;
    if skip >= |rows| then []
    else if limit < 0 || skip + limit > |rows| then rows[skip..]
    else rows[skip..skip + limit]
  }

  /** A negative OFFSET gives the page that OFFSET 0 gives. */
  lemma NegativeOffsetIsZero<T>(rows: seq<T>, offset: int, limit: int)
    requires offset < 0
    ensures OffsetLimit(rows, offset, limit) == OffsetLimit(rows, 0, limit)
  {
  }

  /** SQLAlchemy's `.one()` over the keys of the matching rows: the one key when
      exactly one row matches; `NoResultFound` or `MultipleResultsFound`
      (neither caught by the callers) otherwise. */
  method One(matches: set<int>) returns (r: Result<int>)
    ensures r.Ok? <==> |matches| == 1
    ensures r.Ok? ==> matches == {r.value}
    ensures r.Err? ==> r.error == ServerError
  {
    if |matches| == 1 {
      HasKey(matches);
      var k :| k in matches;
      assert |matches - {k}| == 0;
      assert matches == (matches - {k}) + {k};
      r := Ok(k);
    } else {
      r := Err(ServerError);
    }
  }
}

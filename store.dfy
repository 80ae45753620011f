/**
 * The SQLite database the two managers share, held in memory: the `expenses`
 * table (rows as inserted, which a scan returns by id, plus its AUTOINCREMENT
 * sequence value) and
 * the `budgets` table (category -> current balance). Each table may not exist
 * yet; `CREATE TABLE IF NOT EXISTS` in the managers' `InitDb` creates it.
 */
module Store {

  import opened Wrappers

  /** A clock reading (`datetime.now()`); the model never looks inside one. */
  type Timestamp = int

  /** A stored row of the `expenses` table. */
  datatype Expense = Expense(id: int, date: Timestamp, category: string, description: string, amount: real)

  /** A row handed to a bulk save; a row that was never stored has no id yet. */
  datatype Row = Row(id: Option<int>, date: Timestamp, category: string, description: string, amount: real)

  /** The database errors the core can meet: a missing table, a repeated primary key. */
  datatype DbError = NoSuchTable(table: string) | DuplicateId(id: int)

  /** The `expenses` table's content and its `sqlite_sequence` entry (largest id ever used). */
  datatype Table = Table(rows: seq<Expense>, lastId: int)

  function Ids(es: seq<Expense>): set<int>
  {
    set e | e in es :: e.id
  }

  predicate UniqueIds(es: seq<Expense>)
  {
    forall i, j :: 0 <= i < j < |es| ==> es[i].id != es[j].id
  }

  /** Primary keys are unique and none exceeds the sequence value. */
  predicate ValidTable(t: Table)
  {
    t.lastId >= 0 && UniqueIds(t.rows) && forall e :: e in t.rows ==> e.id <= t.lastId
  }

  function Max(a: int, b: int): int
  {
    if a <= b then b else a
  }

  function Stored(r: Row, id: int): Expense
  {
    Expense(id, r.date, r.category, r.description, r.amount)
  }

  /**
   * One INSERT into an AUTOINCREMENT table. A row without an id gets one more
   * than the largest id the table has ever held (that is `lastId + 1`, since a
   * valid table holds no id above `lastId`); a row with an id keeps it, fails
   * on a primary-key clash, and raises the sequence value when it is larger.
   */
  function InsertRow(t: Table, r: Row): Result<Table, DbError>
  {
    match r.id
    case None => Success(Table(t.rows + [Stored(r, t.lastId + 1)], t.lastId + 1))
    case Some(k) =>
      if k in Ids(t.rows) then Failure(DuplicateId(k))
      else Success(Table(t.rows + [Stored(r, k)], Max(t.lastId, k)))
  }

  /** The rows inserted one after another; the first failure aborts the lot. */
  function InsertAll(t: Table, rows: seq<Row>): Result<Table, DbError>
  {
    if rows == [] then Success(t)
    else
      match InsertAll(t, rows[..|rows| - 1])
      case Failure(e) => Failure(e)
      case Success(t') => InsertRow(t', rows[|rows| - 1])
  }

  /** A stored expense carries every column of the row it came from, and the row's id if it had one. */
  predicate Matches(e: Expense, r: Row)
  {
    && e.date == r.date && e.category == r.category && e.description == r.description && e.amount == r.amount
    && (r.id.Some? ==> e.id == r.id.value)
  }

  /** An expense as `load_data` hands it back for a bulk save: every column, its id included. */
  function AsRow(e: Expense): Row
  {
    Row(Some(e.id), e.date, e.category, e.description, e.amount)
  }

  function AsRows(es: seq<Expense>): seq<Row>
  {
    seq(|es|, i requires 0 <= i < |es| => AsRow(es[i]))
  }

  /** Ids strictly ascending, the order a scan of an `INTEGER PRIMARY KEY` table returns. */
  predicate Ascending(es: seq<Expense>)
  {
    forall i, j :: 0 <= i < j < |es| ==> es[i].id < es[j].id
  }

  /** `e` placed after the last row of `es` whose id is not above its own. */
  function InsertById(es: seq<Expense>, e: Expense): seq<Expense>
  {
    if es == [] || es[|es| - 1].id <= e.id then es + [e]
    else InsertById(es[..|es| - 1], e) + [es[|es| - 1]]
  }

  /** The rows in the order of their ids: the rowid order of `SELECT * FROM expenses`. */
  function SortById(es: seq<Expense>): seq<Expense>
  {
    if es == [] then [] else InsertById(SortById(es[..|es| - 1]), es[|es| - 1])
  }

  class Database {
    var expensesTable: bool
    var budgetsTable: bool
    var expenses: seq<Expense>
    var lastId: int
    var budgets: map<string, real>

    ghost predicate Valid()
      reads this
    {
      && ValidTable(Table(expenses, lastId))
      && (!expensesTable ==> expenses == [] && lastId == 0)
      && (!budgetsTable ==> budgets == map[])
    }

    /** A new database file: no tables yet. */
    constructor ()
      ensures Valid()
      ensures !expensesTable && !budgetsTable && expenses == [] && lastId == 0 && budgets == map[]
    {
      expensesTable, budgetsTable := false, false;
      expenses, lastId, budgets := [], 0, map[];
    }
  }

  // ---------------------------------------------------------------------------
  // Bulk insertion

  /** Once an insert fails, inserting further rows fails with the same error. */
  lemma {:induction false} InsertAllFailureSticks(t: Table, rows: seq<Row>, k: nat)
    requires k <= |rows|
    requires InsertAll(t, rows[..k]).Failure?
    ensures InsertAll(t, rows) == InsertAll(t, rows[..k])
    decreases |rows| - k
  {
    if k < |rows| {
      assert rows[..k + 1][..k] == rows[..k];
      InsertAllFailureSticks(t, rows, k + 1);
    } else {
      assert rows[..k] == rows;
    }
  }

  /**
   * A successful bulk insert keeps the table valid, never lowers the sequence
   * value, keeps the rows already there, and appends one stored expense per
   * row, in order; rows without an id get ids above every id used before.
   */
  lemma {:induction false} InsertAllShape(t: Table, rows: seq<Row>)
    requires ValidTable(t)
    requires InsertAll(t, rows).Success?
    ensures var t' := InsertAll(t, rows).value;
      && ValidTable(t')
      && t'.lastId >= t.lastId
      && |t'.rows| == |t.rows| + |rows|
      && t'.rows[..|t.rows|] == t.rows
      && (forall i :: 0 <= i < |rows| ==> Matches(t'.rows[|t.rows| + i], rows[i]))
      && (forall i :: 0 <= i < |rows| && rows[i].id.None? ==> t'.rows[|t.rows| + i].id > t.lastId)
  {
    if rows != [] {
      var init := rows[..|rows| - 1];
      var r := rows[|rows| - 1];
      InsertAllShape(t, init);
      var mid := InsertAll(t, init).value;
      var t' := InsertAll(t, rows).value;
      assert t'.rows == mid.rows + [t'.rows[|mid.rows|]];
      assert t'.rows[..|mid.rows|] == mid.rows;
      assert t'.rows[..|t.rows|] == mid.rows[..|t.rows|];
      match r.id {
        case None =>
        case Some(k) =>
          assert k !in Ids(mid.rows);
      }
      forall i | 0 <= i < |rows|
        ensures Matches(t'.rows[|t.rows| + i], rows[i])
        ensures rows[i].id.None? ==> t'.rows[|t.rows| + i].id > t.lastId
      {
        if i < |init| {
          assert rows[i] == init[i];
          assert t'.rows[|t.rows| + i] == mid.rows[|t.rows| + i];
        }
      }
    }
  }

  /** Inserting one row keeps the others and adds just that one. */
  lemma {:induction false} InsertByIdCount(es: seq<Expense>, e: Expense)
    ensures multiset(InsertById(es, e)) == multiset(es) + multiset{e}
  {
    if es != [] && es[|es| - 1].id > e.id {
      var init := es[..|es| - 1];
      assert es == init + [es[|es| - 1]];
      InsertByIdCount(init, e);
    }
  }

  /** Ascending rows stay ascending when a row with a larger id follows them. */
  lemma AscendingSnoc(es: seq<Expense>, e: Expense)
    requires Ascending(es)
    requires forall i :: 0 <= i < |es| ==> es[i].id < e.id
    ensures Ascending(es + [e])
  {
  }

  /** Into ascending rows, a row with an unused id goes where it keeps them ascending. */
  lemma {:induction false} InsertByIdAscending(es: seq<Expense>, e: Expense)
    requires Ascending(es) && e.id !in Ids(es)
    ensures Ascending(InsertById(es, e))
  {
    if es == [] || es[|es| - 1].id <= e.id {
      forall i | 0 <= i < |es| ensures es[i].id < e.id {
        assert es[i] in es;
      }
      AscendingSnoc(es, e);
    } else {
      var init, last := es[..|es| - 1], es[|es| - 1];
      assert Ascending(init);
      assert e.id !in Ids(init) by {
        forall x | x in init ensures x.id != e.id {
          assert x in es;
        }
      }
      InsertByIdAscending(init, e);
      InsertByIdCount(init, e);
      var r := InsertById(init, e);
      forall i | 0 <= i < |r| ensures r[i].id < last.id {
        assert r[i] in multiset(r);
        if r[i] != e {
          var k :| 0 <= k < |init| && init[k] == r[i];
          assert es[k] == init[k];
        }
      }
      AscendingSnoc(r, last);
    }
  }

  /**
   * Loading returns the rows as a permutation of the stored ones, and with
   * unique primary keys their ids strictly ascend.
   */
  lemma {:induction false} SortByIdSpec(es: seq<Expense>)
    ensures multiset(SortById(es)) == multiset(es)
    ensures UniqueIds(es) ==> Ascending(SortById(es))
  {
    if es != [] {
      var init, last := es[..|es| - 1], es[|es| - 1];
      assert es == init + [last];
      SortByIdSpec(init);
      InsertByIdCount(SortById(init), last);
      if UniqueIds(es) {
        assert UniqueIds(init) by {
          forall i, j | 0 <= i < j < |init| ensures init[i].id != init[j].id {
            assert init[i] == es[i] && init[j] == es[j];
          }
        }
        assert last.id !in Ids(SortById(init)) by {
          forall x | x in SortById(init) ensures x.id != last.id {
            assert x in multiset(SortById(init));
            var k :| 0 <= k < |init| && init[k] == x;
            assert es[k] == x;
          }
        }
        InsertByIdAscending(SortById(init), last);
      }
    }
  }

  /** Rows already in id order load unchanged. */
  lemma {:induction false} SortAscending(es: seq<Expense>)
    requires Ascending(es)
    ensures SortById(es) == es
  {
    if es != [] {
      var init := es[..|es| - 1];
      SortAscending(init);
      if |init| > 0 {
        assert init[|init| - 1] == es[|es| - 2];
      }
    }
  }

  /** Loading keeps the table valid: the same ids, in id order. */
  lemma SortedValid(t: Table)
    requires ValidTable(t)
    ensures ValidTable(Table(SortById(t.rows), t.lastId)) && Ascending(SortById(t.rows))
  {
    var es := SortById(t.rows);
    SortByIdSpec(t.rows);
    forall e | e in es ensures e.id <= t.lastId {
      assert e in multiset(es);
    }
  }

  /** Loading, saving back and loading again returns what the first load returned. */
  lemma SaveLoadedRoundTrip(t: Table)
    requires ValidTable(t)
    ensures var loaded := SortById(t.rows);
      InsertAll(Table([], t.lastId), AsRows(loaded)) == Success(Table(loaded, t.lastId))
      && SortById(loaded) == loaded
  {
    SortedValid(t);
    SortAscending(SortById(t.rows));
    SaveRowsBack(Table(SortById(t.rows), t.lastId));
  }

  /** Saving rows back with their own ids rebuilds the same table. */
  lemma SaveRowsBack(t: Table)
    requires ValidTable(t)
    ensures InsertAll(Table([], t.lastId), AsRows(t.rows)) == Success(t)
  {
    var es := t.rows;
    for k := 0 to |es|
      invariant InsertAll(Table([], t.lastId), AsRows(es)[..k]) == Success(Table(es[..k], t.lastId))
    {
      assert AsRows(es)[..k + 1][..k] == AsRows(es)[..k];
      assert es[k].id !in Ids(es[..k]) by {
        forall j | 0 <= j < k ensures es[..k][j].id != es[k].id {
          assert es[..k][j] == es[j];
        }
      }
      assert es[..k + 1] == es[..k] + [es[k]];
      assert es[k] in es;
    }
    assert AsRows(es)[..|es|] == AsRows(es);
    assert es[..|es|] == es;
  }

  /** A bulk save succeeds only when the ids its rows carry are pairwise different. */
  lemma SavedIdsDistinct(lastId: int, rows: seq<Row>)
    requires lastId >= 0
    requires InsertAll(Table([], lastId), rows).Success?
    ensures forall i, j :: 0 <= i < j < |rows| && rows[i].id.Some? ==> rows[i].id != rows[j].id
  {
    var t0 := Table([], lastId);
    InsertAllShape(t0, rows);
    var t' := InsertAll(t0, rows).value;
    assert UniqueIds(t'.rows) && |t0.rows| == 0;
    forall i, j | 0 <= i < j < |rows| && rows[i].id.Some?
      ensures rows[i].id != rows[j].id
    {
      assert Matches(t'.rows[|t0.rows| + i], rows[i]) && Matches(t'.rows[|t0.rows| + j], rows[j]);
    }
  }

  /** So a bulk save whose rows repeat an id is refused. */
  lemma RepeatedIdRejected(lastId: int, rows: seq<Row>, i: nat, j: nat)
    requires lastId >= 0
    requires i < j < |rows| && rows[i].id.Some? && rows[i].id == rows[j].id
    ensures InsertAll(Table([], lastId), rows).Failure?
  {
    if InsertAll(Table([], lastId), rows).Success? {
      SavedIdsDistinct(lastId, rows);
    }
  }
}

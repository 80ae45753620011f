/**
 * The expense ledger: the `expenses` table with its bulk save and its
 * single-expense insert (which also debits the matching budget bucket), and
 * the dashboard aggregations computed over a loaded list of expenses.
 */
module Expenses {

  import opened Wrappers
  import opened Dicts
  import opened Store

  // ---------------------------------------------------------------------------
  // Aggregations over a list of expenses

  /** `df["Amount"].sum()`, added in row order. */
  function TotalSpent(es: seq<Expense>): real
  {
    if es == [] then 0.0 else TotalSpent(es[..|es| - 1]) + es[|es| - 1].amount
  }

  /** The amount spent in category `c`. */
  function CategorySum(es: seq<Expense>, c: string): real
  {
    if es == [] then 0.0
    else CategorySum(es[..|es| - 1], c) + (if es[|es| - 1].category == c then es[|es| - 1].amount else 0.0)
  }

  /** The categories that occur in the list: the groups of `groupby("Category")`. */
  function Categories(es: seq<Expense>): set<string>
  {
    set e | e in es :: e.category
  }

  /** `df[df["Category"] == c]["Amount"].tolist()`: the amounts spent in `c`, in row order. */
  function AmountsOf(es: seq<Expense>, c: string): seq<real>
  {
    if es == [] then []
    else AmountsOf(es[..|es| - 1], c) + (if es[|es| - 1].category == c then [es[|es| - 1].amount] else [])
  }

  function SumReals(xs: seq<real>): real
  {
    if xs == [] then 0.0 else SumReals(xs[..|xs| - 1]) + xs[|xs| - 1]
  }

  /**
   * calculate_metrics: the total spent and the number of expenses; an empty
   * list gives (0, 0).
   */
  function CalculateMetrics(es: seq<Expense>): (r: (real, nat))
    ensures r.1 == |es|
    ensures r.0 == TotalSpent(es)
  {
    if |es| == 0 then (0.0, 0) else (TotalSpent(es), |es|)
  }

  /**
   * get_expenses_by_category: one entry per category that occurs, holding the
   * amount spent in it; an empty list gives an empty series.
   */
  function ExpensesByCategory(es: seq<Expense>): (m: map<string, real>)
    ensures m.Keys == Categories(es)
    ensures forall c :: Get(m, c) == CategorySum(es, c)
  {
    CategorySumOutside(es);
    if |es| == 0 then map[] else map c | c in Categories(es) :: CategorySum(es, c)
  }

  /** A category that does not occur has nothing spent in it. */
  lemma {:induction false} CategorySumOutside(es: seq<Expense>)
    ensures forall c :: c !in Categories(es) ==> CategorySum(es, c) == 0.0
  {
    if es != [] {
      var init := es[..|es| - 1];
      CategorySumOutside(init);
      forall c | c !in Categories(es)
        ensures CategorySum(es, c) == 0.0
      {
        assert es[|es| - 1] in es;
        forall e | e in init ensures e in es {
          var k :| 0 <= k < |init| && init[k] == e;
          assert es[k] == e;
        }
      }
    }
  }

  /** The amounts listed for a category add up to what was spent in it. */
  lemma {:induction false} AmountsOfSum(es: seq<Expense>, c: string)
    ensures SumReals(AmountsOf(es, c)) == CategorySum(es, c)
  {
    if es != [] {
      var init := es[..|es| - 1];
      AmountsOfSum(init, c);
      var xs := AmountsOf(es, c);
      if es[|es| - 1].category == c {
        assert xs[..|xs| - 1] == AmountsOf(init, c);
      } else {
        assert xs == AmountsOf(init, c);
      }
    }
  }

  /** A category has amounts listed exactly when it occurs in the list. */
  lemma {:induction false} AmountsOfEmpty(es: seq<Expense>, c: string)
    ensures AmountsOf(es, c) == [] <==> c !in Categories(es)
  {
    if es != [] {
      var init := es[..|es| - 1];
      AmountsOfEmpty(init, c);
      assert es[|es| - 1] in es;
      assert Categories(es) == Categories(init) + {es[|es| - 1].category} by {
        assert es == init + [es[|es| - 1]];
      }
    }
  }

  /** Recording one more expense: one more row and its amount on the total. */
  lemma MetricsAfterAdd(es: seq<Expense>, e: Expense)
    ensures CalculateMetrics(es + [e]) == (CalculateMetrics(es).0 + e.amount, CalculateMetrics(es).1 + 1)
  {
    assert (es + [e])[..|es|] == es;
  }

  /** Recording one more expense adds its amount to its own category and to no other. */
  lemma ByCategoryAfterAdd(es: seq<Expense>, e: Expense)
    ensures var before := ExpensesByCategory(es);
      var after := ExpensesByCategory(es + [e]);
      && after.Keys == before.Keys + {e.category}
      && Get(after, e.category) == Get(before, e.category) + e.amount
      && forall c :: c != e.category ==> Get(after, c) == Get(before, c)
  {
    var es' := es + [e];
    assert es'[..|es|] == es;
    assert Categories(es') == Categories(es) + {e.category} by {
      assert es'[|es|] == e;
      forall x | x in es' ensures x in es || x == e {
        var k :| 0 <= k < |es'| && es'[k] == x;
        if k < |es| { assert es[k] == x; }
      }
    }
  }

  /** The per-category sums over `cats`, added in the order of `cats`. */
  function SumCategories(cats: seq<string>, es: seq<Expense>): real
  {
    if cats == [] then 0.0 else SumCategories(cats[..|cats| - 1], es) + CategorySum(es, cats[|cats| - 1])
  }

  lemma {:induction false} SumCategoriesAfterAdd(cats: seq<string>, es: seq<Expense>, e: Expense)
    requires Distinct(cats)
    ensures SumCategories(cats, es + [e]) == SumCategories(cats, es) + (if e.category in cats then e.amount else 0.0)
  {
    assert (es + [e])[..|es|] == es;
    if cats != [] {
      var init := cats[..|cats| - 1];
      assert Distinct(init);
      SumCategoriesAfterAdd(init, es, e);
      assert cats == init + [cats[|cats| - 1]];
      assert cats[|cats| - 1] == e.category ==> e.category !in init;
    }
  }

  lemma {:induction false} SumCategoriesIsTotal(cats: seq<string>, es: seq<Expense>)
    requires Distinct(cats)
    requires forall e :: e in es ==> e.category in cats
    ensures SumCategories(cats, es) == TotalSpent(es)
  {
    if es == [] {
      SumCategoriesNothing(cats);
    } else {
      var init := es[..|es| - 1];
      var e := es[|es| - 1];
      assert es == init + [e];
      assert e in es;
      forall x | x in init ensures x.category in cats {
        var k :| 0 <= k < |init| && init[k] == x;
        assert es[k] == x;
      }
      SumCategoriesIsTotal(cats, init);
      SumCategoriesAfterAdd(cats, init, e);
    }
  }

  lemma {:induction false} SumCategoriesNothing(cats: seq<string>)
    ensures SumCategories(cats, []) == 0.0
  {
    if cats != [] {
      SumCategoriesNothing(cats[..|cats| - 1]);
    }
  }

  lemma {:induction false} SumOverByCategory(cats: seq<string>, es: seq<Expense>)
    ensures SumOver(cats, ExpensesByCategory(es)) == SumCategories(cats, es)
  {
    if cats != [] {
      SumOverByCategory(cats[..|cats| - 1], es);
    }
  }

  /**
   * The per-category breakdown accounts for every expense: over a list of
   * distinct categories that covers every expense, the category sums add up
   * to the total of calculate_metrics.
   */
  lemma ByCategoryTotal(cats: seq<string>, es: seq<Expense>)
    requires Distinct(cats)
    requires forall e :: e in es ==> e.category in cats
    ensures SumOver(cats, ExpensesByCategory(es)) == CalculateMetrics(es).0
  {
    SumOverByCategory(cats, es);
    SumCategoriesIsTotal(cats, es);
  }

  // ---------------------------------------------------------------------------
  // The category matrix

  /** The keys of `data_dict` in insertion order: each category at its first occurrence. */
  function Columns(cats: seq<string>): seq<string>
  {
    if cats == [] then []
    else
      var init := Columns(cats[..|cats| - 1]);
      if cats[|cats| - 1] in init then init else init + [cats[|cats| - 1]]
  }

  /** `max_len`: the longest amount list over the requested categories. */
  function Longest(es: seq<Expense>, cats: seq<string>): nat
  {
    if cats == [] then 0
    else
      var m := Longest(es, cats[..|cats| - 1]);
      var n := |AmountsOf(es, cats[|cats| - 1])|;
      if m < n then n else m
  }

  function Somes(xs: seq<real>): seq<Option<real>>
  {
    seq(|xs|, i requires 0 <= i < |xs| => Some(xs[i]))
  }

  function Nones(n: nat): seq<Option<real>>
  {
    seq(n, i => None)
  }

  /** `amounts + [None] * (n - len(amounts))`; a negative repeat count gives no padding. */
  function Padded(xs: seq<real>, n: nat): seq<Option<real>>
  {
    if n <= |xs| then Somes(xs) else Somes(xs) + Nones(n - |xs|)
  }

  /**
   * get_category_matrix: one column per requested category, holding the
   * amounts spent in it in row order, padded with `None` to the longest
   * column.
   */
  method CategoryMatrix(es: seq<Expense>, categories: seq<string>)
    returns (columns: seq<string>, data: map<string, seq<Option<real>>>)
    ensures columns == Columns(categories)
    ensures data.Keys == set c | c in categories
    ensures forall c :: c in data ==> data[c] == Padded(AmountsOf(es, c), Longest(es, categories))
  {
    var maxLen;
    columns, data, maxLen := GatherColumns(es, categories);
    data := PadColumns(es, columns, data, maxLen);
  }

  /** The first loop of get_category_matrix: each category's amounts, and `max_len`. */
  method GatherColumns(es: seq<Expense>, categories: seq<string>)
    returns (columns: seq<string>, data: map<string, seq<Option<real>>>, maxLen: nat)
    ensures columns == Columns(categories) && Distinct(columns)
    ensures data.Keys == set c | c in categories
    ensures forall c :: c in data <==> c in columns
    ensures forall c :: c in data ==> data[c] == Somes(AmountsOf(es, c))
    ensures maxLen == Longest(es, categories)
  {
    columns, data, maxLen := [], map[], 0;
    for i := 0 to |categories|
      invariant columns == Columns(categories[..i])
      invariant data.Keys == set c | c in categories[..i]
      invariant forall c :: c in data ==> data[c] == Somes(AmountsOf(es, c))
      invariant maxLen == Longest(es, categories[..i])
    {
      var cat := categories[i];
      GatherStep(es, categories, i);
      var amounts := AmountsOf(es, cat);
      if cat !in data {
        columns := columns + [cat];
      }
      data := data[cat := Somes(amounts)];
      maxLen := if maxLen < |amounts| then |amounts| else maxLen;
    }
    assert categories[..|categories|] == categories;
    ColumnsKeys(categories);
  }

  /** The second loop of get_category_matrix: every column padded with `None` to `max_len`. */
  method PadColumns(es: seq<Expense>, columns: seq<string>, data: map<string, seq<Option<real>>>, maxLen: nat)
    returns (padded: map<string, seq<Option<real>>>)
    requires Distinct(columns)
    requires forall c :: c in data <==> c in columns
    requires forall c :: c in data ==> data[c] == Somes(AmountsOf(es, c))
    ensures padded.Keys == data.Keys
    ensures forall c :: c in padded ==> padded[c] == Padded(AmountsOf(es, c), maxLen)
  {
    padded := data;
    for j := 0 to |columns|
      invariant padded.Keys == data.Keys
      invariant forall c :: c in padded && c in columns[..j] ==> padded[c] == Padded(AmountsOf(es, c), maxLen)
      invariant forall c :: c in padded && c !in columns[..j] ==> padded[c] == data[c]
    {
      var cat := columns[j];
      NextColumn(columns, j);
      var column := padded[cat];
      PadStep(AmountsOf(es, cat), maxLen);
      if maxLen > |column| {
        column := column + Nones(maxLen - |column|);
      }
      PadMore(es, columns, data, padded, j, maxLen, column);
      padded := padded[cat := column];
    }
    assert columns[..|columns|] == columns;
  }

  /** The padding loop's invariant after column `j` is replaced by its padded form. */
  lemma PadMore(es: seq<Expense>, columns: seq<string>, data: map<string, seq<Option<real>>>,
                padded: map<string, seq<Option<real>>>, j: nat, maxLen: nat, column: seq<Option<real>>)
    requires Distinct(columns) && j < |columns|
    requires forall c :: c in data <==> c in columns
    requires padded.Keys == data.Keys
    requires forall c :: c in padded && c in columns[..j] ==> padded[c] == Padded(AmountsOf(es, c), maxLen)
    requires forall c :: c in padded && c !in columns[..j] ==> padded[c] == data[c]
    requires column == Padded(AmountsOf(es, columns[j]), maxLen)
    ensures var next := padded[columns[j] := column];
      && next.Keys == data.Keys
      && (forall c :: c in next && c in columns[..j + 1] ==> next[c] == Padded(AmountsOf(es, c), maxLen))
      && (forall c :: c in next && c !in columns[..j + 1] ==> next[c] == data[c])
  {
    NextColumn(columns, j);
  }

  /** The gathering loop's step: the columns, keys and `max_len` after one more category. */
  lemma GatherStep(es: seq<Expense>, cats: seq<string>, i: nat)
    requires i < |cats|
    ensures var before := cats[..i];
      var c := cats[i];
      && (c in Columns(before) <==> c in before)
      && Columns(cats[..i + 1]) == (if c in Columns(before) then Columns(before) else Columns(before) + [c])
      && (forall x :: x in cats[..i + 1] <==> x in before || x == c)
      && Longest(es, cats[..i + 1]) == (if Longest(es, before) < |AmountsOf(es, c)| then |AmountsOf(es, c)| else Longest(es, before))
  {
    assert cats[..i + 1][..i] == cats[..i];
    assert cats[..i + 1] == cats[..i] + [cats[i]];
    ColumnsKeys(cats[..i]);
  }

  /** Padding a column of amounts with `None` up to `n`. */
  lemma PadStep(xs: seq<real>, n: nat)
    ensures |Somes(xs)| == |xs|
    ensures Padded(xs, n) == if n > |Somes(xs)| then Somes(xs) + Nones(n - |Somes(xs)|) else Somes(xs)
  {
  }

  /** The padding loop's step: column `j` joins the padded prefix and was not in it before. */
  lemma NextColumn(columns: seq<string>, j: nat)
    requires Distinct(columns) && j < |columns|
    ensures columns[j] !in columns[..j]
    ensures forall c :: c in columns[..j + 1] <==> c in columns[..j] || c == columns[j]
  {
    assert columns[..j + 1] == columns[..j] + [columns[j]];
  }

  /** Each requested category becomes exactly one column. */
  lemma {:induction false} ColumnsKeys(cats: seq<string>)
    ensures Distinct(Columns(cats))
    ensures forall c :: c in Columns(cats) <==> c in cats
  {
    if cats != [] {
      var init := cats[..|cats| - 1];
      ColumnsKeys(init);
      assert cats == init + [cats[|cats| - 1]];
    }
  }

  /** `max_len` is the length of the longest amount list, and some requested category reaches it. */
  lemma {:induction false} LongestIsMax(es: seq<Expense>, cats: seq<string>)
    ensures forall i :: 0 <= i < |cats| ==> |AmountsOf(es, cats[i])| <= Longest(es, cats)
    ensures cats != [] ==> exists i :: 0 <= i < |cats| && |AmountsOf(es, cats[i])| == Longest(es, cats)
  {
    if cats != [] {
      var init := cats[..|cats| - 1];
      var last := |cats| - 1;
      LongestIsMax(es, init);
      assert forall i :: 0 <= i < |init| ==> cats[i] == init[i];
      if Longest(es, init) < |AmountsOf(es, cats[last])| || init == [] {
        assert |AmountsOf(es, cats[last])| == Longest(es, cats);
      } else {
        var k :| 0 <= k < |init| && |AmountsOf(es, init[k])| == Longest(es, init);
        assert |AmountsOf(es, cats[k])| == Longest(es, cats);
      }
    }
  }

  /**
   * The matrix is rectangular: every column is `max_len` long, begins with
   * the category's amounts in row order and is `None` after them, and its
   * entries add up to what was spent in the category.
   */
  lemma MatrixShape(es: seq<Expense>, categories: seq<string>, c: string)
    requires c in categories
    ensures var col := Padded(AmountsOf(es, c), Longest(es, categories));
      var xs := AmountsOf(es, c);
      && |col| == Longest(es, categories)
      && (forall i :: 0 <= i < |xs| ==> col[i] == Some(xs[i]))
      && (forall i :: |xs| <= i < |col| ==> col[i] == None)
      && SumReals(xs) == CategorySum(es, c)
  {
    LongestIsMax(es, categories);
    AmountsOfSum(es, c);
  }

  // ---------------------------------------------------------------------------
  // The expense manager

  /** `current_balance = current_balance - amount WHERE category = c`: no row, no change. */
  function Debit(budgets: map<string, real>, c: string, amount: real): map<string, real>
  {
    if c in budgets then budgets[c := budgets[c] - amount] else budgets
  }

  class ExpenseManager {
    const db: Database

    /** The expenses table exists. */
    ghost predicate Valid()
      reads db
    {
      db.Valid() && db.expensesTable
    }

    constructor (db: Database)
      requires db.Valid()
      modifies db
      ensures this.db == db && Valid()
      ensures db.expenses == old(db.expenses) && db.lastId == old(db.lastId)
      ensures db.budgetsTable == old(db.budgetsTable) && db.budgets == old(db.budgets)
    {
      this.db := db;
      new;
      InitDb();
    }

    /** `CREATE TABLE IF NOT EXISTS expenses`: an existing table keeps its rows. */
    method InitDb()
      requires db.Valid()
      modifies db
      ensures Valid()
      ensures db.expenses == old(db.expenses) && db.lastId == old(db.lastId)
      ensures db.budgetsTable == old(db.budgetsTable) && db.budgets == old(db.budgets)
    {
      db.expensesTable := true;
    }

    /** `SELECT * FROM expenses`: every stored row, scanned in id order. */
    method LoadData() returns (es: seq<Expense>)
      requires Valid()
      ensures es == SortById(db.expenses)
      ensures multiset(es) == multiset(db.expenses)
      ensures Ascending(es)
    {
      es := SortById(db.expenses);
      SortByIdSpec(db.expenses);
    }

    /**
     * save_bulk_data: in one transaction, delete every expense and insert
     * `rows` in order. DELETE leaves the AUTOINCREMENT sequence value alone, so
     * rows without an id get ids above every id ever used. A repeated id
     * raises and rolls the whole transaction back.
     */
    method SaveBulkData(rows: seq<Row>) returns (r: Result<(), DbError>)
      requires Valid()
      modifies db
      ensures Valid()
      ensures match InsertAll(Table([], old(db.lastId)), rows)
        case Success(t) => r.Success? && db.expenses == t.rows && db.lastId == t.lastId
        case Failure(e) => r == Failure(e) && db.expenses == old(db.expenses) && db.lastId == old(db.lastId)
      ensures db.budgetsTable == old(db.budgetsTable) && db.budgets == old(db.budgets)
    {
      var stored: seq<Expense> := [];
      var seqValue := db.lastId;
      ghost var start := Table([], db.lastId);
      for i := 0 to |rows|
        invariant InsertAll(start, rows[..i]) == Success(Table(stored, seqValue))
      {
        var row := rows[i];
        assert rows[..i + 1][..i] == rows[..i];
        match row.id {
          case None =>
            seqValue := seqValue + 1;
            stored := stored + [Stored(row, seqValue)];
          case Some(k) =>
            if k in Ids(stored) {
              InsertAllFailureSticks(start, rows, i + 1);
              return Failure(DuplicateId(k));
            }
            stored := stored + [Stored(row, k)];
            seqValue := Max(seqValue, k);
        }
      }
      assert rows[..|rows|] == rows;
      InsertAllShape(start, rows);
      db.expenses, db.lastId := stored, seqValue;
      r := Success(());
    }

    /**
     * add_expense: in one transaction, record the expense under the next id
     * and debit its amount from the category's bucket, then reload. Without a
     * budgets table the debit raises and the insert is rolled back.
     */
    method AddExpense(category: string, description: string, amount: real, now: Timestamp)
      returns (r: Result<seq<Expense>, DbError>)
      requires Valid()
      modifies db
      ensures Valid()
      ensures db.budgetsTable == old(db.budgetsTable)
      ensures !old(db.budgetsTable) ==>
        r == Failure(NoSuchTable("budgets")) && db.expenses == old(db.expenses) && db.lastId == old(db.lastId) && db.budgets == old(db.budgets)
      ensures old(db.budgetsTable) ==>
        && db.expenses == old(db.expenses) + [Expense(old(db.lastId) + 1, now, category, description, amount)]
        && db.lastId == old(db.lastId) + 1
        && db.budgets == Debit(old(db.budgets), category, amount)
        && r == Success(SortById(db.expenses))
      ensures old(db.budgetsTable) ==> forall e :: e in old(db.expenses) ==> e.id < db.expenses[|old(db.expenses)|].id
    {
      if !db.budgetsTable {
        return Failure(NoSuchTable("budgets"));
      }
      var id := db.lastId + 1;
      db.expenses, db.lastId := db.expenses + [Expense(id, now, category, description, amount)], id;
      if category in db.budgets {
        db.budgets := db.budgets[category := db.budgets[category] - amount];
      }
      var es := LoadData();
      r := Success(es);
    }
  }
}

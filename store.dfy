/**
 * An in-memory model of the SQLite repository: a Categories table with unique
 * names and a Transactions table, both with AUTOINCREMENT ids, and the queries
 * the handlers issue against them.
 */
module Store {
  import opened Wrappers
  import opened Models

  /**
   * A row of Categories. The table shown in the repository has only Id and Name;
   * the type column is the one its callers rely on (category creation with a
   * type, listing by type), and no reader returns it.
   */
  datatype CategoryRow = CategoryRow(id: int, name: string, ctype: TransactionType)

  /** A row of Transactions: the transaction's type is not among the columns. */
  datatype TransactionRow = TransactionRow(id: int, amount: real, date: DateTime, categoryId: int, description: string)

  /** The UNIQUE constraint on Categories.Name rejecting an insertion. */
  datatype StoreError = DuplicateCategoryName(name: string)

  /** A category built by a reader: only Id and Name are read, the rest keep their defaults. */
  function ReadCategory(row: CategoryRow): (c: Category)
    ensures c.id == row.id && c.name == row.name
    ensures c == NewCategory().(id := row.id, name := row.name)
    ensures c.ctype == DefaultType()
  {
    NewCategory().(id := row.id, name := row.name)
  }

  /** A transaction built by a reader: the five persisted columns, Type left at its default. */
  function ReadTransaction(row: TransactionRow): (t: Transaction)
    ensures t.ttype == DefaultType()
    ensures t.id == row.id && t.amount == row.amount && t.date == row.date
    ensures t.categoryId == row.categoryId && t.description == row.description
  {
    Transaction(row.id, row.amount, row.date, row.categoryId, row.description, DefaultType())
  }

  function ReadTransactions(rows: seq<TransactionRow>): (ts: seq<Transaction>)
    ensures |ts| == |rows|
    ensures forall k :: 0 <= k < |rows| ==> ts[k] == ReadTransaction(rows[k])
  {
    seq(|rows|, k requires 0 <= k < |rows| => ReadTransaction(rows[k]))
  }

  predicate HasName(rows: seq<CategoryRow>, name: string)
  {
    exists i :: 0 <= i < |rows| && rows[i].name == name
  }

  predicate HasId(rows: seq<CategoryRow>, id: int)
  {
    exists i :: 0 <= i < |rows| && rows[i].id == id
  }

  /** `WHERE Name = $name`: the first row with exactly this name. */
  function FindByName(rows: seq<CategoryRow>, name: string): (r: Option<CategoryRow>)
    ensures r.None? <==> !HasName(rows, name)
    ensures r.Some? ==> r.value in rows && r.value.name == name
  {
    if rows == [] then None
    else if rows[0].name == name then Some(rows[0])
    else
      var r := FindByName(rows[1..], name);
      assert HasName(rows, name) ==> HasName(rows[1..], name) by {
        if HasName(rows, name) {
          var i :| 0 <= i < |rows| && rows[i].name == name;
          assert rows[1..][i - 1].name == name;
        }
      }
      r
  }

  /** `WHERE Id = $id`: the first row with this id. */
  function FindById(rows: seq<CategoryRow>, id: int): (r: Option<CategoryRow>)
    ensures r.None? <==> !HasId(rows, id)
    ensures r.Some? ==> r.value in rows && r.value.id == id
  {
    if rows == [] then None
    else if rows[0].id == id then Some(rows[0])
    else
      var r := FindById(rows[1..], id);
      assert HasId(rows, id) ==> HasId(rows[1..], id) by {
        if HasId(rows, id) {
          var i :| 0 <= i < |rows| && rows[i].id == id;
          assert rows[1..][i - 1].id == id;
        }
      }
      r
  }

  function ReadOption(r: Option<CategoryRow>): Option<Category>
  {
    match r
    case None => None
    case Some(row) => Some(ReadCategory(row))
  }

  /** Whether a date lies between the optional bounds, both inclusive. */
  predicate InPeriod(d: DateTime, start: Option<DateTime>, end: Option<DateTime>)
  {
    && (start.None? || Instant(start.value) <= Instant(d))
    && (end.None? || Instant(d) <= Instant(end.value))
  }

  /** The rows a period query returns, in table order; each lies within the bounds. */
  function Selected(rows: seq<TransactionRow>, start: Option<DateTime>, end: Option<DateTime>): (r: seq<TransactionRow>)
    ensures |r| <= |rows|
    ensures forall i :: 0 <= i < |r| ==> InPeriod(r[i].date, start, end)
  {
    if rows == [] then []
    else
      var last := rows[|rows| - 1];
      Selected(rows[..|rows| - 1], start, end) + (if InPeriod(last.date, start, end) then [last] else [])
  }

  /** A period query returns exactly the stored rows whose date lies within the bounds. */
  lemma {:induction false} SelectedExactly(rows: seq<TransactionRow>, start: Option<DateTime>, end: Option<DateTime>)
    ensures forall row :: row in Selected(rows, start, end) <==> row in rows && InPeriod(row.date, start, end)
    ensures |Selected(rows, start, end)| <= |rows|
  {
    if rows != [] {
      var init := rows[..|rows| - 1];
      SelectedExactly(init, start, end);
      assert rows == init + [rows[|rows| - 1]];
    }
  }

  /** Without bounds a period query returns every stored row, in order. */
  lemma {:induction false} SelectedUnbounded(rows: seq<TransactionRow>)
    ensures Selected(rows, None, None) == rows
  {
    if rows != [] {
      SelectedUnbounded(rows[..|rows| - 1]);
    }
  }

  /** The rows of one category within the bounds (the per-category query its callers use). */
  function SelectedOfCategory(rows: seq<TransactionRow>, categoryId: int, start: Option<DateTime>, end: Option<DateTime>)
    : seq<TransactionRow>
  {
    if rows == [] then []
    else
      var last := rows[|rows| - 1];
      SelectedOfCategory(rows[..|rows| - 1], categoryId, start, end)
        + (if last.categoryId == categoryId && InPeriod(last.date, start, end) then [last] else [])
  }

  lemma {:induction false} SelectedOfCategoryExactly(rows: seq<TransactionRow>, categoryId: int, start: Option<DateTime>, end: Option<DateTime>)
    ensures forall row :: row in SelectedOfCategory(rows, categoryId, start, end)
                   <==> row in rows && row.categoryId == categoryId && InPeriod(row.date, start, end)
  {
    if rows != [] {
      var init := rows[..|rows| - 1];
      SelectedOfCategoryExactly(init, categoryId, start, end);
      assert rows == init + [rows[|rows| - 1]];
    }
  }

  /** The category rows stored with one type, in table order. */
  function RowsOfType(rows: seq<CategoryRow>, t: TransactionType): (r: seq<CategoryRow>)
    ensures |r| <= |rows|
    ensures forall i :: 0 <= i < |r| ==> r[i].ctype == t
  {
    if rows == [] then []
    else
      var last := rows[|rows| - 1];
      RowsOfType(rows[..|rows| - 1], t) + (if last.ctype == t then [last] else [])
  }

  lemma RowsOfTypeSnoc(rows: seq<CategoryRow>, i: int, t: TransactionType)
    requires 0 <= i < |rows|
    ensures RowsOfType(rows[..i + 1], t) == RowsOfType(rows[..i], t) + (if rows[i].ctype == t then [rows[i]] else [])
  {
    assert rows[..i + 1][..i] == rows[..i];
  }

  /** The type filter keeps exactly the rows of that type. */
  lemma {:induction false} RowsOfTypeExactly(rows: seq<CategoryRow>, t: TransactionType)
    ensures forall row :: row in RowsOfType(rows, t) <==> row in rows && row.ctype == t
  {
    if rows != [] {
      var init := rows[..|rows| - 1];
      RowsOfTypeExactly(init, t);
      assert rows == init + [rows[|rows| - 1]];
    }
  }

  /** Each row read back as a category, in order. */
  function ReadAll(rows: seq<CategoryRow>): (r: seq<Category>)
    ensures |r| == |rows|
    ensures forall k :: 0 <= k < |r| ==> r[k] == ReadCategory(rows[k])
  {
    if rows == [] then [] else ReadAll(rows[..|rows| - 1]) + [ReadCategory(rows[|rows| - 1])]
  }

  lemma ReadAllSnoc(rows: seq<CategoryRow>, row: CategoryRow)
    ensures ReadAll(rows + [row]) == ReadAll(rows) + [ReadCategory(row)]
  {
    assert (rows + [row])[..|rows|] == rows;
  }

  /** A list read back from the rows of one type holds exactly the categories of the rows of that type. */
  lemma ReadOfType(rows: seq<CategoryRow>, t: TransactionType)
    ensures var r := ReadAll(RowsOfType(rows, t));
      forall c :: c in r <==> exists i :: 0 <= i < |rows| && rows[i].ctype == t && c == ReadCategory(rows[i])
  {
    var f := RowsOfType(rows, t);
    var r := ReadAll(f);
    RowsOfTypeExactly(rows, t);
    forall c | c in r
      ensures exists i :: 0 <= i < |rows| && rows[i].ctype == t && c == ReadCategory(rows[i])
    {
      var k :| 0 <= k < |r| && r[k] == c;
      assert f[k] in f;
      var i :| 0 <= i < |rows| && rows[i] == f[k];
    }
    forall c | exists i :: 0 <= i < |rows| && rows[i].ctype == t && c == ReadCategory(rows[i])
      ensures c in r
    {
      var i :| 0 <= i < |rows| && rows[i].ctype == t && c == ReadCategory(rows[i]);
      assert rows[i] in f;
      var k :| 0 <= k < |f| && f[k] == rows[i];
      assert r[k] == c;
    }
  }

  /** Category names are unique and ids strictly increase along the table. */
  ghost predicate CategoriesWellFormed(rows: seq<CategoryRow>, lastId: int)
  {
    && (forall i :: 0 <= i < |rows| ==> 0 < rows[i].id <= lastId)
    && (forall i, j :: 0 <= i < j < |rows| ==> rows[i].id < rows[j].id)
    && (forall i, j :: 0 <= i < j < |rows| ==> rows[i].name != rows[j].name)
  }

  /** Appending a row with a new name under the next id keeps the table well formed. */
  lemma AppendWellFormed(rows: seq<CategoryRow>, lastId: int, row: CategoryRow)
    requires CategoriesWellFormed(rows, lastId) && lastId >= 0
    requires row.id == lastId + 1 && !HasName(rows, row.name)
    ensures CategoriesWellFormed(rows + [row], row.id)
  {
    var rows' := rows + [row];
    forall i, j | 0 <= i < j < |rows'|
      ensures rows'[i].id < rows'[j].id && rows'[i].name != rows'[j].name
    {
      if j == |rows| {
        assert rows'[i] == rows[i];
      } else {
        assert rows'[i] == rows[i] && rows'[j] == rows[j];
      }
    }
  }

  /** Once a name is known to be new, appending a row under it keeps names unique, and looking it up finds that row. */
  lemma FindAfterAppend(rows: seq<CategoryRow>, row: CategoryRow)
    requires !HasName(rows, row.name) && !HasId(rows, row.id)
    ensures FindByName(rows + [row], row.name) == Some(row)
    ensures FindById(rows + [row], row.id) == Some(row)
  {
    var rows' := rows + [row];
    forall i | 0 <= i < |rows|
      ensures rows'[i].name != row.name && rows'[i].id != row.id
    {
      assert rows'[i] == rows[i];
    }
    assert rows'[|rows|] == row;
    var r := FindByName(rows', row.name);
    var k :| 0 <= k < |rows'| && rows'[k] == r.value;
    assert k == |rows|;
    var q := FindById(rows', row.id);
    var m :| 0 <= m < |rows'| && rows'[m] == q.value;
    assert m == |rows|;
  }

  /** In a well-formed table the name lookup has one possible answer. */
  lemma FindByNameUnique(rows: seq<CategoryRow>, lastId: int, name: string, i: int)
    requires CategoriesWellFormed(rows, lastId)
    requires 0 <= i < |rows| && rows[i].name == name
    ensures FindByName(rows, name) == Some(rows[i])
  {
    var r := FindByName(rows, name);
    var k :| 0 <= k < |rows| && rows[k] == r.value;
    assert k == i;
  }

  /** The repository: both tables and the AUTOINCREMENT counters of SQLite. */
  class BudgetStore {
    var categories: seq<CategoryRow>
    var transactions: seq<TransactionRow>
    var lastCategoryId: int
    var lastTransactionId: int

    ghost predicate Valid()
      reads this
    {
      && lastCategoryId >= 0 && lastTransactionId >= 0
      && CategoriesWellFormed(categories, lastCategoryId)
      && (forall i :: 0 <= i < |transactions| ==> 0 < transactions[i].id <= lastTransactionId)
      && (forall i, j :: 0 <= i < j < |transactions| ==> transactions[i].id < transactions[j].id)
    }

    /** A freshly created database: both tables empty. */
    constructor ()
      ensures Valid() && categories == [] && transactions == []
    {
      categories, transactions := [], [];
      lastCategoryId, lastTransactionId := 0, 0;
    }

    /**
     * `INSERT INTO Categories`: a new name gets a row under an id never used
     * before; an existing name is rejected and nothing changes.
     */
    method AddCategory(name: string, ctype: TransactionType) returns (r: Result<int, StoreError>)
      requires Valid()
      modifies this
      ensures Valid()
      ensures transactions == old(transactions)
      ensures r.Err? <==> HasName(old(categories), name)
      ensures r.Err? ==> r.error == DuplicateCategoryName(name) && categories == old(categories)
      ensures r.Ok? ==> !HasId(old(categories), r.value)
      ensures r.Ok? ==> categories == old(categories) + [CategoryRow(r.value, name, ctype)]
      ensures r.Ok? ==> FindByName(categories, name) == Some(CategoryRow(r.value, name, ctype))
      ensures r.Ok? ==> FindById(categories, r.value) == Some(CategoryRow(r.value, name, ctype))
    {
      if FindByName(categories, name).Some? {
        return Err(DuplicateCategoryName(name));
      }
      var id := lastCategoryId + 1;
      var row := CategoryRow(id, name, ctype);
      assert !HasId(categories, id);
      FindAfterAppend(categories, row);
      AppendWellFormed(categories, lastCategoryId, row);
      categories := categories + [row];
      lastCategoryId := id;
      r := Ok(id);
    }

    /** `SELECT Id, Name FROM Categories WHERE Name = $name`, read with a scan of the table. */
    method GetCategoryByName(name: string) returns (r: Option<Category>)
      requires Valid()
      ensures r.None? <==> !HasName(categories, name)
      ensures forall i :: 0 <= i < |categories| && categories[i].name == name ==> r == Some(ReadCategory(categories[i]))
      ensures r == ReadOption(FindByName(categories, name))
    {
      var i := 0;
      while i < |categories|
        invariant 0 <= i <= |categories|
        invariant forall k :: 0 <= k < i ==> categories[k].name != name
      {
        if categories[i].name == name {
          FindByNameUnique(categories, lastCategoryId, name, i);
          forall j | 0 <= j < |categories| && categories[j].name == name
            ensures j == i
          {
          }
          return Some(ReadCategory(categories[i]));
        }
        i := i + 1;
      }
      return None;
    }

    /** `SELECT Id, Name FROM Categories WHERE Id = $id`, read with a scan of the table. */
    method GetCategoryById(id: int) returns (r: Option<Category>)
      requires Valid()
      ensures r.None? <==> !HasId(categories, id)
      ensures r.Some? ==> r.value.id == id && exists i :: 0 <= i < |categories| && r.value == ReadCategory(categories[i])
      ensures r == ReadOption(FindById(categories, id))
    {
      var i := 0;
      while i < |categories|
        invariant 0 <= i <= |categories|
        invariant forall k :: 0 <= k < i ==> categories[k].id != id
        invariant FindById(categories, id) == FindById(categories[i..], id)
      {
        if categories[i].id == id {
          return Some(ReadCategory(categories[i]));
        }
        assert categories[i..][1..] == categories[i + 1..];
        i := i + 1;
      }
      return None;
    }

    /** `SELECT Id, Name FROM Categories`: every row once, in table order. */
    method GetAllCategories() returns (r: seq<Category>)
      requires Valid()
      ensures |r| == |categories|
      ensures forall i :: 0 <= i < |r| ==> r[i] == ReadCategory(categories[i])
      ensures forall i, j :: 0 <= i < j < |r| ==> r[i].id != r[j].id
    {
      r := [];
      var i := 0;
      while i < |categories|
        invariant 0 <= i <= |categories|
        invariant |r| == i
        invariant forall k :: 0 <= k < i ==> r[k] == ReadCategory(categories[k])
      {
        r := r + [ReadCategory(categories[i])];
        i := i + 1;
      }
    }

    /**
     * The categories of one type (a repository query its callers use, not among
     * the shown queries): the rows whose stored type matches, in table order,
     * each read back as a category.
     */
    method GetCategoriesByType(t: TransactionType) returns (r: seq<Category>)
      requires Valid()
      ensures r == ReadAll(RowsOfType(categories, t))
      ensures forall c :: c in r <==> exists i :: 0 <= i < |categories| && categories[i].ctype == t && c == ReadCategory(categories[i])
    {
      var rows := categories;
      r := [];
      var i := 0;
      while i < |rows|
        invariant 0 <= i <= |rows|
        invariant r == ReadAll(RowsOfType(rows[..i], t))
      {
        RowsOfTypeSnoc(rows, i, t);
        if rows[i].ctype == t {
          ReadAllSnoc(RowsOfType(rows[..i], t), rows[i]);
          r := r + [ReadCategory(rows[i])];
        } else {
          assert RowsOfType(rows[..i], t) + [] == RowsOfType(rows[..i], t);
        }
        i := i + 1;
      }
      assert rows[..i] == rows;
      ReadOfType(rows, t);
    }

    /**
     * `INSERT INTO Transactions`: exactly one row is added, under an id never
     * used before; the transaction's type is not stored.
     */
    method AddTransaction(t: Transaction) returns (id: int)
      requires Valid()
      modifies this
      ensures Valid()
      ensures categories == old(categories)
      ensures forall i :: 0 <= i < |old(transactions)| ==> old(transactions)[i].id != id
      ensures transactions == old(transactions) + [TransactionRow(id, t.amount, t.date, t.categoryId, t.description)]
    {
      id := lastTransactionId + 1;
      transactions := transactions + [TransactionRow(id, t.amount, t.date, t.categoryId, t.description)];
      lastTransactionId := id;
    }

    /** `SELECT ... FROM Transactions WHERE Date >= $startDate AND Date <= $endDate`, each bound optional. */
    method GetTransactions(start: Option<DateTime>, end: Option<DateTime>) returns (r: seq<Transaction>)
      requires Valid()
      ensures r == ReadTransactions(Selected(transactions, start, end))
    {
      r := [];
      var i := 0;
      while i < |transactions|
        invariant 0 <= i <= |transactions|
        invariant r == ReadTransactions(Selected(transactions[..i], start, end))
      {
        assert transactions[..i + 1][..i] == transactions[..i];
        var row := transactions[i];
        if InPeriod(row.date, start, end) {
          r := r + [ReadTransaction(row)];
        }
        i := i + 1;
      }
      assert transactions[..i] == transactions;
    }

    /** The transactions of one category within the bounds (the per-category query its callers use). */
    method GetTransactionsByCategoryAndPeriod(categoryId: int, start: Option<DateTime>, end: Option<DateTime>)
      returns (r: seq<Transaction>)
      requires Valid()
      ensures r == ReadTransactions(SelectedOfCategory(transactions, categoryId, start, end))
    {
      r := [];
      var i := 0;
      while i < |transactions|
        invariant 0 <= i <= |transactions|
        invariant r == ReadTransactions(SelectedOfCategory(transactions[..i], categoryId, start, end))
      {
        assert transactions[..i + 1][..i] == transactions[..i];
        var row := transactions[i];
        if row.categoryId == categoryId && InPeriod(row.date, start, end) {
          r := r + [ReadTransaction(row)];
        }
        i := i + 1;
      }
      assert transactions[..i] == transactions;
    }
  }
}

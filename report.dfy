/**
 * The computations behind the report screens: the reporting period, the
 * split of a period's transactions by type, their grouping by category with
 * totals, the ordering by total, and the per-category breakdown.
 */
module Reports {
  import opened Wrappers
  import opened Models
  import opened Store
  import Budget

  // ------------------------------------------------------------------ periods

  /** An inclusive reporting window. */
  datatype Window = Window(start: DateTime, end: DateTime)

  /** A month index names one year and one month. */
  lemma MonthIndexDetermines(a: DateTime, b: DateTime)
    requires 1 <= a.month <= 12 && 1 <= b.month <= 12
    requires MonthIndex(a) == MonthIndex(b)
    ensures a.year == b.year && a.month == b.month
  {
  }

  /**
   * `start = new DateTime(year, month, 1)` and `end = start.AddMonths(1).AddDays(-1)`:
   * None where the constructor or AddMonths throws. The end is midnight at the
   * start of the month's last day.
   */
  function MonthWindow(year: int, month: int): (r: Option<Window>)
    ensures r.Some? <==> 1 <= year <= 9999 && 1 <= month <= 12 && !(year == 9999 && month == 12)
    ensures r.Some? ==> 1 <= month <= 12
    ensures r.Some? ==> r.value == Window(DateTime(year, month, 1, 0), DateTime(year, month, DaysInMonth(year, month), 0))
  {
    if !(1 <= year <= 9999 && 1 <= month <= 12) then None
    else
      var start := DateTime(year, month, 1, 0);
      match AddMonths(start, 1)
      case None => None
      case Some(next) =>
        match PreviousDay(next)
        case None => None
        case Some(end) =>
          MonthIndexDetermines(end, start);
          Some(Window(start, end))
  }

  /**
   * What the month window admits: the dates of that month, except the times
   * after midnight on its last day.
   */
  lemma MonthWindowContents(year: int, month: int, d: DateTime)
    requires MonthWindow(year, month).Some? && ValidDate(d)
    ensures var w := MonthWindow(year, month).value;
            (InPeriod(d, Some(w.start), Some(w.end))
             <==> d.year == year && d.month == month && (d.day < DaysInMonth(year, month) || d.tick == 0))
  {
    var w := MonthWindow(year, month).value;
    InstantOrder(d, w.start);
    InstantOrder(w.end, d);
  }

  /** The window used when no month is given: from the first of the current month to now. */
  function CurrentWindow(now: DateTime): Window
  {
    Window(FirstOfMonth(now), now)
  }

  /** The current window admits the dates of the current month up to and including now. */
  lemma CurrentWindowContents(now: DateTime, d: DateTime)
    requires ValidDate(now) && ValidDate(d)
    ensures (InPeriod(d, Some(CurrentWindow(now).start), Some(CurrentWindow(now).end))
             <==> d.year == now.year && d.month == now.month && !Earlier(now, d))
  {
    InstantOrder(d, FirstOfMonth(now));
    InstantOrder(now, d);
  }

  /** The period of the summary and detailed reports: the month when both parts are given, else the current window. */
  function ReportPeriod(year: Option<int>, month: Option<int>, now: DateTime): Option<Window>
  {
    if year.Some? && month.Some? then MonthWindow(year.value, month.value) else Some(CurrentWindow(now))
  }

  // ------------------------------------------------------------------ filters and sums

  /** `Where(t => t.Type == type)`, in order. */
  function OfType(txs: seq<Transaction>, t: TransactionType): (r: seq<Transaction>)
    ensures forall x :: x in r <==> x in txs && x.ttype == t
    ensures |r| <= |txs|
  {
    if txs == [] then []
    else
      var last := txs[|txs| - 1];
      assert txs == txs[..|txs| - 1] + [last];
      OfType(txs[..|txs| - 1], t) + (if last.ttype == t then [last] else [])
  }

  /** The transactions of one category, in order. */
  function OfCategory(txs: seq<Transaction>, id: int): (r: seq<Transaction>)
    ensures forall x :: x in r <==> x in txs && x.categoryId == id
  {
    if txs == [] then []
    else
      var last := txs[|txs| - 1];
      assert txs == txs[..|txs| - 1] + [last];
      OfCategory(txs[..|txs| - 1], id) + (if last.categoryId == id then [last] else [])
  }

  /** `Sum(t => t.Amount)`. */
  function Sum(txs: seq<Transaction>): real
  {
    if txs == [] then 0.0 else Sum(txs[..|txs| - 1]) + txs[|txs| - 1].amount
  }

  /** The category ids of the transactions, in order. */
  function CategoryIds(txs: seq<Transaction>): (ids: seq<int>)
    ensures |ids| == |txs|
    ensures forall k :: 0 <= k < |txs| ==> ids[k] == txs[k].categoryId
  {
    if txs == [] then [] else CategoryIds(txs[..|txs| - 1]) + [txs[|txs| - 1].categoryId]
  }

  /** The elements of a sequence at their first occurrence. */
  function Distinct(s: seq<int>): (r: seq<int>)
    ensures forall x :: x in r <==> x in s
    ensures forall i, j :: 0 <= i < j < |r| ==> r[i] != r[j]
  {
    if s == [] then []
    else
      var d := Distinct(s[..|s| - 1]);
      assert s == s[..|s| - 1] + [s[|s| - 1]];
      if s[|s| - 1] in d then d else d + [s[|s| - 1]]
  }

  // ------------------------------------------------------------------ grouping

  /** One group of `GroupBy(t => t.CategoryId)` with its `Sum(t => t.Amount)`. */
  datatype Group = Group(categoryId: int, total: real)

  function Keys(g: seq<Group>): (ids: seq<int>)
    ensures |ids| == |g|
    ensures forall k :: 0 <= k < |g| ==> ids[k] == g[k].categoryId
  {
    if g == [] then [] else [g[0].categoryId] + Keys(g[1..])
  }

  /** The total of the group with this id, 0 when there is none. */
  function TotalOf(g: seq<Group>, id: int): real
  {
    if g == [] then 0.0 else if g[0].categoryId == id then g[0].total else TotalOf(g[1..], id)
  }

  function SumGroups(g: seq<Group>): real
  {
    if g == [] then 0.0 else g[0].total + SumGroups(g[1..])
  }

  /** Adds one transaction to its group, opening a new group at the end for a new id. */
  function AddTo(g: seq<Group>, t: Transaction): (r: seq<Group>)
    ensures |r| <= |g| + 1
  {
    if g == [] then [Group(t.categoryId, t.amount)]
    else if g[0].categoryId == t.categoryId then [g[0].(total := g[0].total + t.amount)] + g[1..]
    else [g[0]] + AddTo(g[1..], t)
  }

  /** The groups in order of the first appearance of their id; grouping keeps the grand total. */
  function GroupByCategory(txs: seq<Transaction>): (g: seq<Group>)
    ensures |g| <= |txs|
    ensures SumGroups(g) == Sum(txs)
  {
    if txs == [] then []
    else
      var init := GroupByCategory(txs[..|txs| - 1]);
      AddToSum(init, txs[|txs| - 1]);
      AddTo(init, txs[|txs| - 1])
  }

  lemma {:induction false} AddToKeys(g: seq<Group>, t: Transaction)
    ensures Keys(AddTo(g, t)) == if t.categoryId in Keys(g) then Keys(g) else Keys(g) + [t.categoryId]
  {
    if g != [] && g[0].categoryId != t.categoryId {
      AddToKeys(g[1..], t);
      assert Keys(g) == [g[0].categoryId] + Keys(g[1..]);
    }
  }

  lemma {:induction false} AddToTotal(g: seq<Group>, t: Transaction, id: int)
    ensures TotalOf(AddTo(g, t), id) == TotalOf(g, id) + (if id == t.categoryId then t.amount else 0.0)
  {
    if g != [] && g[0].categoryId != t.categoryId {
      AddToTotal(g[1..], t, id);
      assert AddTo(g, t)[1..] == AddTo(g[1..], t);
    } else if g != [] {
      assert AddTo(g, t)[1..] == g[1..];
    }
  }

  lemma {:induction false} AddToSum(g: seq<Group>, t: Transaction)
    ensures SumGroups(AddTo(g, t)) == SumGroups(g) + t.amount
  {
    if g == [] {
    } else if g[0].categoryId == t.categoryId {
      assert AddTo(g, t)[1..] == g[1..];
    } else {
      AddToSum(g[1..], t);
      assert AddTo(g, t)[1..] == AddTo(g[1..], t);
    }
  }

  /** The groups are keyed by the distinct category ids, in order of first appearance. */
  lemma {:induction false} GroupByCategoryKeys(txs: seq<Transaction>)
    ensures Keys(GroupByCategory(txs)) == Distinct(CategoryIds(txs))
  {
    if txs != [] {
      var init, last := txs[..|txs| - 1], txs[|txs| - 1];
      GroupByCategoryKeys(init);
      AddToKeys(GroupByCategory(init), last);
      assert CategoryIds(txs)[..|txs| - 1] == CategoryIds(init);
    }
  }

  /** A category's group total is the sum of that category's amounts. */
  lemma {:induction false} GroupByCategoryTotal(txs: seq<Transaction>, id: int)
    ensures TotalOf(GroupByCategory(txs), id) == Sum(OfCategory(txs, id))
  {
    if txs != [] {
      var init, last := txs[..|txs| - 1], txs[|txs| - 1];
      GroupByCategoryTotal(init, id);
      AddToTotal(GroupByCategory(init), last, id);
      var before := OfCategory(init, id);
      if last.categoryId == id {
        assert (before + [last])[..|before|] == before;
      } else {
        assert before + [] == before;
      }
    }
  }

  /**
   * The groups are keyed by the distinct category ids in order of first
   * appearance, and each group's total is the sum of its category's amounts.
   */
  lemma GroupByCategoryCorrect(txs: seq<Transaction>)
    ensures Keys(GroupByCategory(txs)) == Distinct(CategoryIds(txs))
    ensures forall id :: TotalOf(GroupByCategory(txs), id) == Sum(OfCategory(txs, id))
  {
    GroupByCategoryKeys(txs);
    forall id
      ensures TotalOf(GroupByCategory(txs), id) == Sum(OfCategory(txs, id))
    {
      GroupByCategoryTotal(txs, id);
    }
  }

  // ------------------------------------------------------------------ ordering

  /** Orders by a key, descending, non-increasing along the sequence. */
  predicate SortedDesc<T>(s: seq<T>, key: T -> real)
  {
    forall i, j :: 0 <= i < j < |s| ==> key(s[i]) >= key(s[j])
  }

  /** The elements with a given key, in order. */
  function WithKey<T>(s: seq<T>, key: T -> real, k: real): seq<T>
  {
    if s == [] then [] else (if key(s[0]) == k then [s[0]] else []) + WithKey(s[1..], key, k)
  }

  /** Places `x` before the first element whose key is not greater than its own. */
  function Insert<T>(x: T, s: seq<T>, key: T -> real): seq<T>
  {
    if s == [] then [x]
    else if key(x) >= key(s[0]) then [x] + s
    else [s[0]] + Insert(x, s[1..], key)
  }

  /** `OrderByDescending(key)`: an insertion sort that keeps elements with equal keys in their order. */
  function SortDesc<T>(s: seq<T>, key: T -> real): (r: seq<T>)
    ensures multiset(r) == multiset(s)
  {
    if s == [] then []
    else
      var rest := SortDesc(s[1..], key);
      InsertMembers(s[0], rest, key);
      assert s == [s[0]] + s[1..];
      Insert(s[0], rest, key)
  }

  lemma {:induction false} InsertMembers<T>(x: T, s: seq<T>, key: T -> real)
    ensures multiset(Insert(x, s, key)) == multiset{x} + multiset(s)
    ensures forall y :: y in Insert(x, s, key) <==> y == x || y in s
  {
    if s != [] && key(x) < key(s[0]) {
      InsertMembers(x, s[1..], key);
      assert s == [s[0]] + s[1..];
    }
  }

  lemma {:induction false} InsertSorted<T>(x: T, s: seq<T>, key: T -> real)
    requires SortedDesc(s, key)
    ensures SortedDesc(Insert(x, s, key), key)
  {
    if s != [] && key(x) < key(s[0]) {
      var rest := Insert(x, s[1..], key);
      InsertSorted(x, s[1..], key);
      InsertMembers(x, s[1..], key);
      forall y | y in rest
        ensures key(y) <= key(s[0])
      {
        assert y in multiset(rest);
        assert y == x || y in multiset(s[1..]);
        if y != x {
          assert y in s[1..];
          var k :| 0 <= k < |s[1..]| && s[1..][k] == y;
          assert s[k + 1] == y;
        }
      }
      assert forall i :: 0 <= i < |rest| ==> rest[i] in rest;
      assert ([s[0]] + rest)[1..] == rest;
    }
  }

  lemma {:induction false} InsertStable<T>(x: T, s: seq<T>, key: T -> real, k: real)
    requires SortedDesc(s, key)
    ensures WithKey(Insert(x, s, key), key, k) == (if key(x) == k then [x] else []) + WithKey(s, key, k)
  {
    if s == [] {
    } else if key(x) >= key(s[0]) {
      assert ([x] + s)[1..] == s;
    } else {
      InsertStable(x, s[1..], key, k);
      assert ([s[0]] + Insert(x, s[1..], key))[1..] == Insert(x, s[1..], key);
    }
  }

  /**
   * The sort orders by key, descending, is a permutation of its input, and is
   * stable: the elements sharing any one key keep their input order.
   */
  lemma {:induction false} SortDescCorrect<T>(s: seq<T>, key: T -> real)
    ensures SortedDesc(SortDesc(s, key), key)
    ensures multiset(SortDesc(s, key)) == multiset(s)
    ensures forall k :: WithKey(SortDesc(s, key), key, k) == WithKey(s, key, k)
  {
    if s != [] {
      SortDescCorrect(s[1..], key);
      InsertSorted(s[0], SortDesc(s[1..], key), key);
      InsertMembers(s[0], SortDesc(s[1..], key), key);
      forall k
        ensures WithKey(SortDesc(s, key), key, k) == WithKey(s, key, k)
      {
        InsertStable(s[0], SortDesc(s[1..], key), key, k);
      }
      assert s == [s[0]] + s[1..];
    }
  }

  /** A sequence whose elements have pairwise distinct images. */
  predicate DistinctBy<T>(s: seq<T>, f: T -> int)
  {
    forall i, j :: 0 <= i < j < |s| ==> f(s[i]) != f(s[j])
  }

  /** Putting an element with a new image in front keeps images distinct. */
  lemma ConsDistinct<T>(a: T, s: seq<T>, f: T -> int)
    requires DistinctBy(s, f)
    requires forall y :: y in s ==> f(y) != f(a)
    ensures DistinctBy([a] + s, f)
  {
    var t := [a] + s;
    forall i, j | 0 <= i < j < |t|
      ensures f(t[i]) != f(t[j])
    {
      assert t[j] == s[j - 1];
      if i > 0 {
        assert t[i] == s[i - 1];
      } else {
        assert s[j - 1] in s;
      }
    }
  }

  lemma {:induction false} InsertDistinct<T>(x: T, s: seq<T>, key: T -> real, f: T -> int)
    requires DistinctBy(s, f)
    requires forall y :: y in s ==> f(y) != f(x)
    ensures DistinctBy(Insert(x, s, key), f)
  {
    if s == [] || key(x) >= key(s[0]) {
      ConsDistinct(x, s, f);
    } else {
      var rest := Insert(x, s[1..], key);
      assert DistinctBy(s[1..], f) by {
        forall i, j | 0 <= i < j < |s[1..]|
          ensures f(s[1..][i]) != f(s[1..][j])
        {
          assert s[1..][i] == s[i + 1] && s[1..][j] == s[j + 1];
        }
      }
      assert forall y :: y in s[1..] ==> y in s;
      InsertDistinct(x, s[1..], key, f);
      InsertMembers(x, s[1..], key);
      forall y | y in rest
        ensures f(y) != f(s[0])
      {
        assert y in multiset(rest);
        assert y == x || y in multiset(s[1..]);
        if y != x {
          assert y in s[1..];
          var k :| 0 <= k < |s[1..]| && s[1..][k] == y;
          assert s[k + 1] == y;
        }
      }
      ConsDistinct(s[0], rest, f);
    }
  }

  /** Sorting keeps distinct images distinct. */
  lemma {:induction false} SortDescDistinct<T>(s: seq<T>, key: T -> real, f: T -> int)
    requires DistinctBy(s, f)
    ensures DistinctBy(SortDesc(s, key), f)
  {
    if s != [] {
      SortDescDistinct(s[1..], key, f);
      SortDescCorrect(s[1..], key);
      forall y | y in SortDesc(s[1..], key)
        ensures f(y) != f(s[0])
      {
        assert y in multiset(SortDesc(s[1..], key));
        var k :| 0 <= k < |s[1..]| && s[1..][k] == y;
        assert s[k + 1] == y;
      }
      InsertDistinct(s[0], SortDesc(s[1..], key), key, f);
    }
  }

  // ------------------------------------------------------------------ report rows

  /** One line of a per-category list: the id, the name shown, and the total. */
  datatype Row = Row(categoryId: int, name: string, total: real)

  function RowTotal(r: Row): real
  {
    r.total
  }

  function RowId(r: Row): int
  {
    r.categoryId
  }

  function SumRows(rows: seq<Row>): real
  {
    if rows == [] then 0.0 else rows[0].total + SumRows(rows[1..])
  }

  /**
   * `categories.FirstOrDefault(c => c.Id == id)`: the first category with this
   * id, None when there is none.
   */
  function FirstWithId(categories: seq<Category>, id: int): (r: Option<Category>)
    ensures r.None? <==> forall c :: c in categories ==> c.id != id
    ensures r.Some? ==> r.value in categories && r.value.id == id
  {
    if categories == [] then None
    else if categories[0].id == id then Some(categories[0])
    else
      assert categories == [categories[0]] + categories[1..];
      FirstWithId(categories[1..], id)
  }

  /** The name shown for a category id: the first matching category's, else the fallback. */
  function NameOf(categories: seq<Category>, id: int, fallback: string): string
  {
    match FirstWithId(categories, id)
    case Some(c) => c.name
    case None => fallback
  }

  /** The `Select` step: each group with the name looked up. */
  function ToRows(g: seq<Group>, categories: seq<Category>, fallback: string): (rows: seq<Row>)
    ensures |rows| == |g|
  {
    if g == [] then [] else [Row(g[0].categoryId, NameOf(categories, g[0].categoryId, fallback), g[0].total)] + ToRows(g[1..], categories, fallback)
  }

  /** With distinct keys, a row comes from a group exactly when its id, total and name match that group's. */
  lemma {:induction false} ToRowsMembers(g: seq<Group>, categories: seq<Category>, fallback: string)
    requires forall i, j :: 0 <= i < j < |g| ==> g[i].categoryId != g[j].categoryId
    ensures forall r :: r in ToRows(g, categories, fallback) <==>
              && r.categoryId in Keys(g)
              && r.total == TotalOf(g, r.categoryId)
              && r.name == NameOf(categories, r.categoryId, fallback)
    ensures DistinctBy(ToRows(g, categories, fallback), RowId)
    ensures SumRows(ToRows(g, categories, fallback)) == SumGroups(g)
  {
    if g != [] {
      ToRowsMembers(g[1..], categories, fallback);
      assert Keys(g) == [g[0].categoryId] + Keys(g[1..]);
      var rows := ToRows(g, categories, fallback);
      assert rows[1..] == ToRows(g[1..], categories, fallback);
      forall i | 0 < i < |rows|
        ensures rows[i].categoryId == g[i].categoryId
      {
        ToRowsIds(g, categories, fallback, i);
      }
    }
  }

  lemma {:induction false} ToRowsIds(g: seq<Group>, categories: seq<Category>, fallback: string, i: int)
    requires 0 <= i < |g|
    ensures ToRows(g, categories, fallback)[i].categoryId == g[i].categoryId
  {
    if i > 0 {
      ToRowsIds(g[1..], categories, fallback, i - 1);
    }
  }

  lemma {:induction false} InsertSum(x: Row, s: seq<Row>)
    ensures SumRows(Insert(x, s, RowTotal)) == x.total + SumRows(s)
  {
    if s != [] && x.total < s[0].total {
      InsertSum(x, s[1..]);
      assert Insert(x, s, RowTotal)[1..] == Insert(x, s[1..], RowTotal);
    } else if s != [] {
      assert Insert(x, s, RowTotal)[1..] == s;
    }
  }

  lemma {:induction false} SortSum(s: seq<Row>)
    ensures SumRows(SortDesc(s, RowTotal)) == SumRows(s)
  {
    if s != [] {
      SortSum(s[1..]);
      InsertSum(s[0], SortDesc(s[1..], RowTotal));
    }
  }

  /** The per-category list of one type: grouped, named, ordered by total, descending. */
  function CategoryReport(txs: seq<Transaction>, t: TransactionType, categories: seq<Category>, fallback: string): (rows: seq<Row>)
    ensures SumRows(rows) == Sum(OfType(txs, t))
  {
    var g := GroupByCategory(OfType(txs, t));
    GroupByCategoryCorrect(OfType(txs, t));
    ToRowsMembers(g, categories, fallback);
    SortSum(ToRows(g, categories, fallback));
    SortDesc(ToRows(g, categories, fallback), RowTotal)
  }

  /** A category id occurs among the groups of a type exactly when a transaction of that type carries it. */
  lemma GroupKeysOfType(txs: seq<Transaction>, t: TransactionType, id: int)
    ensures id in Keys(GroupByCategory(OfType(txs, t))) <==> exists x :: x in txs && x.ttype == t && x.categoryId == id
  {
    var sel := OfType(txs, t);
    GroupByCategoryKeys(sel);
    if id in Keys(GroupByCategory(sel)) {
      assert id in CategoryIds(sel);
      var k :| 0 <= k < |sel| && CategoryIds(sel)[k] == id;
      assert sel[k] in sel;
    }
    if exists x :: x in txs && x.ttype == t && x.categoryId == id {
      var x :| x in txs && x.ttype == t && x.categoryId == id;
      var k :| 0 <= k < |sel| && sel[k] == x;
      assert CategoryIds(sel)[k] == id;
    }
  }

  /**
   * The per-category list of a type has one row per category occurring among
   * that type's transactions, carrying the sum of their amounts and the
   * looked-up name.
   */
  lemma CategoryReportRows(txs: seq<Transaction>, t: TransactionType, categories: seq<Category>, fallback: string, r: Row)
    ensures r in CategoryReport(txs, t, categories, fallback) <==>
              && (exists x :: x in txs && x.ttype == t && x.categoryId == r.categoryId)
              && r.total == Sum(OfCategory(OfType(txs, t), r.categoryId))
              && r.name == NameOf(categories, r.categoryId, fallback)
  {
    var sel := OfType(txs, t);
    var g := GroupByCategory(sel);
    var grouped := ToRows(g, categories, fallback);
    GroupByCategoryCorrect(sel);
    ToRowsMembers(g, categories, fallback);
    SortDescCorrect(grouped, RowTotal);
    GroupKeysOfType(txs, t, r.categoryId);
    assert r in SortDesc(grouped, RowTotal) <==> r in multiset(SortDesc(grouped, RowTotal));
  }

  /**
   * The rows of a per-category list have distinct ids and are ordered by total,
   * descending; rows with equal totals keep the order in which their categories
   * first appear among the transactions.
   */
  lemma CategoryReportOrder(txs: seq<Transaction>, t: TransactionType, categories: seq<Category>, fallback: string)
    ensures DistinctBy(CategoryReport(txs, t, categories, fallback), RowId)
    ensures SortedDesc(CategoryReport(txs, t, categories, fallback), RowTotal)
    ensures Keys(GroupByCategory(OfType(txs, t))) == Distinct(CategoryIds(OfType(txs, t)))
    ensures forall k :: WithKey(CategoryReport(txs, t, categories, fallback), RowTotal, k)
                     == WithKey(ToRows(GroupByCategory(OfType(txs, t)), categories, fallback), RowTotal, k)
  {
    var sel := OfType(txs, t);
    var g := GroupByCategory(sel);
    var grouped := ToRows(g, categories, fallback);
    GroupByCategoryCorrect(sel);
    ToRowsMembers(g, categories, fallback);
    SortDescCorrect(grouped, RowTotal);
    SortDescDistinct(grouped, RowTotal, RowId);
  }

  // ------------------------------------------------------------------ summary report

  /** The summary: nothing for an empty period, else both lists and the three totals. */
  datatype Report =
    | NoData
    | Summary(income: seq<Row>, expense: seq<Row>, totalIncome: real, totalExpense: real, balance: real)

  /**
   * The report over a period's transactions. The totals are summed over the
   * per-category rows; they equal the sums of the amounts of each type.
   */
  function BuildReport(txs: seq<Transaction>, categories: seq<Category>, fallback: string): (r: Report)
    ensures r.NoData? <==> txs == []
    ensures r.Summary? ==> r.totalIncome == Sum(OfType(txs, Income)) && r.totalExpense == Sum(OfType(txs, Expense))
    ensures r.Summary? ==> r.balance == Sum(OfType(txs, Income)) - Sum(OfType(txs, Expense))
    ensures r.Summary? ==> r.income == CategoryReport(txs, Income, categories, fallback)
    ensures r.Summary? ==> r.expense == CategoryReport(txs, Expense, categories, fallback)
  {
    if txs == [] then NoData
    else
      var income := CategoryReport(txs, Income, categories, fallback);
      var expense := CategoryReport(txs, Expense, categories, fallback);
      var totalIncome := SumRows(income);
      var totalExpense := SumRows(expense);
      Summary(income, expense, totalIncome, totalExpense, totalIncome - totalExpense)
  }

  /**
   * Over transactions read back from the store, whose Type is never persisted,
   * the income list is empty and every amount counts as an expense.
   */
  lemma {:induction false} ReadBackReport(rows: seq<TransactionRow>, categories: seq<Category>, fallback: string)
    requires rows != []
    ensures var r := BuildReport(ReadTransactions(rows), categories, fallback);
            && r.income == []
            && r.totalIncome == 0.0
            && r.totalExpense == Sum(ReadTransactions(rows))
            && r.balance == -r.totalExpense
  {
    var txs := ReadTransactions(rows);
    OfTypeOfDefault(txs);
  }

  lemma {:induction false} OfTypeOfDefault(txs: seq<Transaction>)
    requires forall x :: x in txs ==> x.ttype == Expense
    ensures OfType(txs, Income) == [] && OfType(txs, Expense) == txs
  {
    if txs != [] {
      assert txs[..|txs| - 1] + [txs[|txs| - 1]] == txs;
      OfTypeOfDefault(txs[..|txs| - 1]);
    }
  }

  // ------------------------------------------------------------------ category details

  /** The mark before a line: plus for income, minus for everything else. */
  datatype Sign = Plus | Minus

  /** One transaction as the breakdown lists it. */
  datatype DetailLine = DetailLine(date: DateTime, amount: real, description: string, sign: Sign)

  /** `t => t.Date` as a sort key. */
  function DateKey(t: Transaction): real
  {
    Instant(t.date) as real
  }

  function LineOf(t: Transaction): (l: DetailLine)
    ensures l.date == t.date && l.amount == t.amount
    ensures l.description != []
    ensures t.description != [] ==> l.description == t.description
    ensures l.sign == Plus <==> t.ttype == Income
  {
    DetailLine(t.date, t.amount,
      if t.description == [] then Budget.NoDescription else t.description,
      if t.ttype == Income then Plus else Minus)
  }

  function Lines(txs: seq<Transaction>): (ls: seq<DetailLine>)
    ensures |ls| == |txs|
    ensures forall i :: 0 <= i < |txs| ==> ls[i] == LineOf(txs[i])
  {
    seq(|txs|, i requires 0 <= i < |txs| => LineOf(txs[i]))
  }

  /** The breakdown of one category and month; the name is absent when the id names no category. */
  datatype Details =
    | NoTransactions(categoryName: Option<string>)
    | Breakdown(categoryName: Option<string>, total: real, count: int, lines: seq<DetailLine>)

  /**
   * The breakdown: a notice for no transactions, else the total, the count and
   * one line per transaction, latest first.
   */
  function BuildDetails(txs: seq<Transaction>, category: Option<Category>): (r: Details)
    ensures r.NoTransactions? <==> txs == []
    ensures r.categoryName == (if category.Some? then Some(category.value.name) else None)
    ensures r.Breakdown? ==> r.total == Sum(txs) && r.count == |txs| && |r.lines| == |txs|
    ensures r.Breakdown? ==> forall i, j :: 0 <= i < j < |r.lines| ==> Instant(r.lines[i].date) >= Instant(r.lines[j].date)
    ensures r.Breakdown? ==> multiset(r.lines) == multiset(Lines(txs))
    ensures r.Breakdown? ==> forall l :: l in r.lines <==> exists x :: x in txs && l == LineOf(x)
    ensures r.Breakdown? ==> forall k :: WithKey(r.lines, LineKey, k) == Lines(WithKey(txs, DateKey, k))
  {
    var name := if category.Some? then Some(category.value.name) else None;
    if txs == [] then NoTransactions(name)
    else
      var sorted := SortDesc(txs, DateKey);
      SortDescCorrect(txs, DateKey);
      LinesOfPermutation(txs, sorted);
      LinesPermutation(sorted, txs);
      LinesKeepTies(sorted);
      Breakdown(name, Sum(txs), |txs|, Lines(sorted))
  }

  /** A line's date as a sort key: the key its transaction had. */
  function LineKey(l: DetailLine): real
  {
    Instant(l.date) as real
  }

  /** Reordering transactions reorders their lines the same way. */
  lemma {:induction false} LinesPermutation(s: seq<Transaction>, t: seq<Transaction>)
    requires multiset(s) == multiset(t)
    ensures multiset(Lines(s)) == multiset(Lines(t))
    decreases |s|
  {
    if s != [] {
      var x := s[0];
      assert x in multiset(t);
      var j :| 0 <= j < |t| && t[j] == x;
      var before, after := t[..j], t[j + 1..];
      WithoutOne(s, t, j);
      LinesPermutation(s[1..], before + after);
      LinesMoveOne(s, t, j);
    }
  }

  /** Lines of `s` and `t` agree as multisets once they agree without the element `s[0]` found at `t[j]`. */
  lemma LinesMoveOne(s: seq<Transaction>, t: seq<Transaction>, j: int)
    requires s != [] && 0 <= j < |t| && t[j] == s[0]
    requires multiset(Lines(s[1..])) == multiset(Lines(t[..j] + t[j + 1..]))
    ensures multiset(Lines(s)) == multiset(Lines(t))
  {
    var before, after := t[..j], t[j + 1..];
    var l := LineOf(s[0]);
    assert Lines(s) == [l] + Lines(s[1..]) by {
      assert s == [s[0]] + s[1..];
      LinesAppend([s[0]], s[1..]);
    }
    LinesAround(t, j);
    LinesAppend(before, after);
    InsertedAt(Lines(s), Lines(t), l, Lines(s[1..]), Lines(before), Lines(after));
  }

  /** `l` followed by `rest` is a permutation of `a`, `l`, `b` when `rest` is one of `a` and `b`. */
  lemma InsertedAt<U>(ls: seq<U>, lt: seq<U>, l: U, rest: seq<U>, a: seq<U>, b: seq<U>)
    requires ls == [l] + rest && lt == a + [l] + b
    requires multiset(rest) == multiset(a + b)
    ensures multiset(ls) == multiset(lt)
  {
    calc {
      multiset(ls);
      multiset{l} + multiset(rest);
      multiset{l} + multiset(a) + multiset(b);
      multiset(lt);
    }
  }

  /** Taking the same element out of two permutations of each other leaves permutations. */
  lemma WithoutOne<T>(s: seq<T>, t: seq<T>, j: int)
    requires multiset(s) == multiset(t) && s != [] && 0 <= j < |t| && t[j] == s[0]
    ensures multiset(t[..j] + t[j + 1..]) == multiset(s[1..])
  {
    assert t == t[..j] + [t[j]] + t[j + 1..];
    assert s == [s[0]] + s[1..];
    calc {
      multiset(t[..j] + t[j + 1..]);
      multiset(t[..j]) + multiset(t[j + 1..]);
      multiset(t) - multiset{s[0]};
      multiset(s) - multiset{s[0]};
      multiset(s[1..]);
    }
  }

  lemma LinesAround(t: seq<Transaction>, j: int)
    requires 0 <= j < |t|
    ensures Lines(t) == Lines(t[..j]) + [LineOf(t[j])] + Lines(t[j + 1..])
  {
    assert t == t[..j] + [t[j]] + t[j + 1..];
    LinesAppend(t[..j] + [t[j]], t[j + 1..]);
    LinesAppend(t[..j], [t[j]]);
  }

  lemma LinesAppend(a: seq<Transaction>, b: seq<Transaction>)
    ensures Lines(a + b) == Lines(a) + Lines(b)
  {
  }

  /** The lines with one date are the lines of the transactions with that date, in their order. */
  lemma {:induction false} LinesKeepTies(s: seq<Transaction>)
    ensures forall k :: WithKey(Lines(s), LineKey, k) == Lines(WithKey(s, DateKey, k))
  {
    if s != [] {
      LinesKeepTies(s[1..]);
      assert Lines(s)[1..] == Lines(s[1..]);
      forall k
        ensures WithKey(Lines(s), LineKey, k) == Lines(WithKey(s, DateKey, k))
      {
        var head := if DateKey(s[0]) == k then [s[0]] else [];
        assert Lines(head + WithKey(s[1..], DateKey, k)) == Lines(head) + Lines(WithKey(s[1..], DateKey, k));
      }
    }
  }

  lemma LinesOfPermutation(txs: seq<Transaction>, sorted: seq<Transaction>)
    requires multiset(sorted) == multiset(txs)
    ensures |sorted| == |txs|
    ensures forall l :: l in Lines(sorted) <==> exists x :: x in txs && l == LineOf(x)
  {
    assert |sorted| == |multiset(sorted)| == |multiset(txs)| == |txs|;
    forall l
      ensures l in Lines(sorted) <==> exists x :: x in txs && l == LineOf(x)
    {
      if l in Lines(sorted) {
        var i :| 0 <= i < |sorted| && Lines(sorted)[i] == l;
        assert sorted[i] in multiset(txs);
      }
      if exists x :: x in txs && l == LineOf(x) {
        var x :| x in txs && l == LineOf(x);
        assert x in multiset(sorted);
        var i :| 0 <= i < |sorted| && sorted[i] == x;
        assert Lines(sorted)[i] == l;
      }
    }
  }

  /** Over transactions read back from the store, every line is marked as an expense. */
  lemma ReadBackDetails(rows: seq<TransactionRow>, category: Option<Category>)
    requires rows != []
    ensures var r := BuildDetails(ReadTransactions(rows), category);
            r.Breakdown? && forall l :: l in r.lines ==> l.sign == Minus
  {
    var txs := ReadTransactions(rows);
    forall l | l in BuildDetails(txs, category).lines
      ensures l.sign == Minus
    {
      var x :| x in txs && l == LineOf(x);
    }
  }
}

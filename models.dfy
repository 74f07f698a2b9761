/**
 * The persistent records of the budget: the operation types with their integer
 * codes, categories, transactions, and the calendar timestamps they carry.
 */
module Models {
  import opened Wrappers

  // ------------------------------------------------------------------ types

  /** The four kinds of financial operation. */
  datatype TransactionType = Expense | Income | Saving | Transfer

  /** The integer value of each enum member. */
  function Code(t: TransactionType): int
  {
    match t
    case Expense => 0
    case Income => 1
    case Saving => 2
    case Transfer => 3
  }

  /**
   * The cast `(TransactionType)c`, restricted to the declared members: exactly
   * the codes 0 to 3 name a member, and each names the member with that code.
   */
  function FromCode(c: int): (r: Option<TransactionType>)
    ensures r.Some? <==> 0 <= c < 4
    ensures r.Some? ==> Code(r.value) == c
  {
    if c == 0 then Some(Expense)
    else if c == 1 then Some(Income)
    else if c == 2 then Some(Saving)
    else if c == 3 then Some(Transfer)
    else None
  }

  /** Encoding a type as its code and casting back gives the type again. */
  lemma CodeRoundTrip(t: TransactionType)
    ensures 0 <= Code(t) < 4
    ensures FromCode(Code(t)) == Some(t)
  {
  }

  /** The value an unassigned `TransactionType` field holds: the member with code 0. */
  function DefaultType(): (t: TransactionType)
    ensures Code(t) == 0
  {
    Expense
  }

  // ------------------------------------------------------------------ calendar

  /** A `DateTime`: a Gregorian date and a time of day counted in 100-nanosecond ticks. */
  datatype DateTime = DateTime(year: int, month: int, day: int, tick: int)

  const TicksPerDay: int := 864_000_000_000

  predicate IsLeapYear(year: int)
  {
    year % 4 == 0 && (year % 100 != 0 || year % 400 == 0)
  }

  /** The number of days of a month in the Gregorian calendar. */
  function DaysInMonth(year: int, month: int): (n: int)
    requires 1 <= month <= 12
    ensures 28 <= n <= 31
    ensures month == 2 ==> (n == 29 <==> IsLeapYear(year))
  {
    if month == 2 then (if IsLeapYear(year) then 29 else 28)
    else if month == 4 || month == 6 || month == 9 || month == 11 then 30
    else 31
  }

  /** The dates a `DateTime` can represent: years 1 to 9999. */
  predicate ValidDate(d: DateTime)
  {
    && 1 <= d.year <= 9999
    && 1 <= d.month <= 12
    && 1 <= d.day <= DaysInMonth(d.year, d.month)
    && 0 <= d.tick < TicksPerDay
  }

  /** Calendar order: by year, then month, then day, then time of day. */
  predicate Earlier(a: DateTime, b: DateTime)
  {
    || a.year < b.year
    || (a.year == b.year && a.month < b.month)
    || (a.year == b.year && a.month == b.month && a.day < b.day)
    || (a.year == b.year && a.month == b.month && a.day == b.day && a.tick < b.tick)
  }

  /** The month a date falls in, counted from January of year 0. */
  function MonthIndex(d: DateTime): int
  {
    d.year * 12 + d.month - 1
  }

  /**
   * A timestamp as a single integer, by which timestamps are compared: every month
   * is given 31 days of `TicksPerDay` ticks.
   */
  function Instant(d: DateTime): int
  {
    ((d.year * 12 + d.month - 1) * 31 + d.day - 1) * 864_000_000_000 + d.tick
  }

  /** Comparing instants is comparing dates in calendar order. */
  lemma InstantOrder(a: DateTime, b: DateTime)
    requires ValidDate(a) && ValidDate(b)
    ensures Instant(a) < Instant(b) <==> Earlier(a, b)
    ensures Instant(a) == Instant(b) <==> a == b
  {
    InstantBounds(a);
    InstantBounds(b);
    if MonthIndex(a) < MonthIndex(b) {
      assert MonthIndex(a) * 31 + 31 <= MonthIndex(b) * 31;
    } else if MonthIndex(b) < MonthIndex(a) {
      assert MonthIndex(b) * 31 + 31 <= MonthIndex(a) * 31;
    }
  }

  /** Where an instant lies: inside the block of its month, and inside the block of its day. */
  lemma InstantBounds(d: DateTime)
    requires ValidDate(d)
    ensures Instant(d) == (MonthIndex(d) * 31 + d.day - 1) * TicksPerDay + d.tick
    ensures MonthIndex(d) * 31 * TicksPerDay <= Instant(d) < (MonthIndex(d) * 31 + 31) * TicksPerDay
  {
  }

  /** The first instant of the month of `d`. */
  function FirstOfMonth(d: DateTime): DateTime
  {
    DateTime(d.year, d.month, 1, 0)
  }

  function Min(a: int, b: int): int
  {
    if a <= b then a else b
  }

  /**
   * `d.AddMonths(months)`: the same day and time `months` months later, the day
   * clipped to the length of the target month; None where the .NET method throws
   * because the result falls outside years 1 to 9999.
   */
  function AddMonths(d: DateTime, months: int): (r: Option<DateTime>)
    requires ValidDate(d)
    ensures r.Some? <==> 12 <= MonthIndex(d) + months < 120000
    ensures r.Some? ==> ValidDate(r.value) && MonthIndex(r.value) == MonthIndex(d) + months
    ensures r.Some? ==> r.value.tick == d.tick
    ensures r.Some? ==> r.value.day == Min(d.day, DaysInMonth(r.value.year, r.value.month))
  {
    var total := MonthIndex(d) + months;
    var year, month := total / 12, total % 12 + 1;
    if 1 <= year <= 9999 then Some(DateTime(year, month, Min(d.day, DaysInMonth(year, month)), d.tick))
    else None
  }

  /**
   * `d.AddDays(-1)`: the same time on the previous calendar day; None where the
   * .NET method throws, before 1 January of year 1.
   */
  function PreviousDay(d: DateTime): (r: Option<DateTime>)
    requires ValidDate(d)
    ensures r.None? <==> d.year == 1 && d.month == 1 && d.day == 1
    ensures r.Some? ==> ValidDate(r.value) && r.value.tick == d.tick && Earlier(r.value, d)
    ensures r.Some? && d.day == 1 ==>
              MonthIndex(r.value) + 1 == MonthIndex(d) && r.value.day == DaysInMonth(r.value.year, r.value.month)
    ensures r.Some? && d.day > 1 ==> MonthIndex(r.value) == MonthIndex(d) && r.value.day + 1 == d.day
  {
    if d.day > 1 then Some(d.(day := d.day - 1))
    else if d.month > 1 then Some(DateTime(d.year, d.month - 1, DaysInMonth(d.year, d.month - 1), d.tick))
    else if d.year > 1 then Some(DateTime(d.year - 1, 12, 31, d.tick))
    else None
  }

  // ------------------------------------------------------------------ records

  /** A category as the program holds it; Type, Color and Icon have defaults. */
  datatype Category = Category(id: int, name: string, ctype: TransactionType, color: string, icon: string)

  /**
   * `new Category()`: Id 0, an empty name, the enum's zero type, the colour
   * "#3498db" and the folder icon.
   */
  function NewCategory(): (c: Category)
    ensures c.id == 0 && c.name == "" && Code(c.ctype) == 0
    ensures c.color == "#3498db" && c.icon == "📁"
  {
    Category(0, "", DefaultType(), "#3498db", "📁")
  }

  /**
   * A transaction with an exact decimal amount. The source documents `ttype` as
   * "determined from the category", but nothing assigns it: it keeps its default
   * unless a caller sets it.
   */
  datatype Transaction = Transaction(
    id: int, amount: real, date: DateTime, categoryId: int, description: string, ttype: TransactionType)

  /**
   * `new Transaction { Amount, CategoryId, Date, Description }`: the fields the
   * initialiser leaves out keep their defaults, Id 0 and the enum's zero type.
   */
  function NewTransaction(amount: real, date: DateTime, categoryId: int, description: string): (t: Transaction)
    ensures t.id == 0 && Code(t.ttype) == 0
    ensures t.amount == amount && t.date == date && t.categoryId == categoryId && t.description == description
  {
    Transaction(0, amount, date, categoryId, description, DefaultType())
  }
}

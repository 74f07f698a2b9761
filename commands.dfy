/**
 * The slash-command handler: normalising the command text, dispatching the
 * eight commands, its own last-month report, and its callback switch.
 */
module Commands {
  import opened Wrappers
  import opened Models
  import opened Text
  import opened Store
  import opened PendingActions
  import opened Reports
  import opened ReportScreens
  import opened Backup

  // ------------------------------------------------------------------ recognising commands

  datatype Command =
    | StartCmd
    | AddCategoryCmd
    | ReportCmd
    | HelpCmd
    | CategoriesCmd
    | IncomeCategoriesCmd
    | BackupCmd
    | RestoreCmd
    | UnknownCmd

  /** The text that selects a command, in lower case. */
  function Name(c: Command): string
  {
    match c
    case StartCmd => "/start"
    case AddCategoryCmd => "/addcategory"
    case ReportCmd => "/report"
    case HelpCmd => "/help"
    case CategoriesCmd => "/categories"
    case IncomeCategoriesCmd => "/incategories"
    case BackupCmd => "/backup"
    case RestoreCmd => "/restore"
    case UnknownCmd => ""
  }

  /** The command a text selects: the part before the first '@', compared in lower case. */
  function CommandOf(text: string): (c: Command)
    ensures c != UnknownCmd ==> ToLower(Word(text, '@')) == Name(c)
    ensures c == UnknownCmd ==> forall k :: k != UnknownCmd ==> ToLower(Word(text, '@')) != Name(k)
  {
    CommandNamed(ToLower(Word(text, '@')))
  }

  /** The `switch` on the normalised command text. */
  function CommandNamed(c: string): Command
  {
    if c == "/start" then StartCmd
    else if c == "/addcategory" then AddCategoryCmd
    else if c == "/report" then ReportCmd
    else if c == "/help" then HelpCmd
    else if c == "/categories" then CategoriesCmd
    else if c == "/incategories" then IncomeCategoriesCmd
    else if c == "/backup" then BackupCmd
    else if c == "/restore" then RestoreCmd
    else UnknownCmd
  }

  lemma LowerOfLower(s: string)
    requires forall i :: 0 <= i < |s| ==> !IsUpper(s[i])
    ensures ToLower(s) == s
  {
  }

  /** A name without '@' or capitals is its own normal form. */
  lemma Normalised(n: string)
    requires '@' !in n
    requires forall i :: 0 <= i < |n| ==> !IsUpper(n[i])
    ensures ToLower(Word(n, '@')) == n
  {
    WordOfConcat(n, [], '@');
    assert n + [] == n;
    LowerOfLower(n);
  }

  /** Each of the eight names selects its own command, so they are all distinct. */
  lemma NameRoundTrip(c: Command)
    requires c != UnknownCmd
    ensures CommandOf(Name(c)) == c
  {
    var n := Name(c);
    assert '@' !in n && forall i :: 0 <= i < |n| ==> 'a' <= n[i] <= 'z' || n[i] == '/' by {
      match c
      case StartCmd =>
      case AddCategoryCmd =>
      case ReportCmd =>
      case HelpCmd =>
      case CategoriesCmd =>
      case IncomeCategoriesCmd =>
      case BackupCmd =>
      case RestoreCmd =>
    }
    Normalised(n);
    assert CommandNamed(n) == c;
  }

  /** A mention of the bot after the command does not change it. */
  lemma MentionIgnored(command: string, bot: string)
    requires '@' !in command
    ensures CommandOf(command + "@" + bot) == CommandOf(command)
  {
    WordOfConcat(command, "@" + bot, '@');
    assert command + "@" + bot == command + ("@" + bot);
    WordOfConcat(command, [], '@');
    assert command + [] == command;
  }

  lemma ToUpperCons(c: char, s: string)
    ensures ToUpper([c] + s) == [UpperChar(c)] + ToUpper(s)
  {
    var l, r := ToUpper([c] + s), [UpperChar(c)] + ToUpper(s);
    assert |l| == |r|;
    forall i | 0 <= i < |l|
      ensures l[i] == r[i]
    {
      if i > 0 {
        assert ([c] + s)[i] == s[i - 1];
      }
    }
  }

  /** Cutting at the first '@' and upper-casing commute: '@' is not a letter. */
  lemma {:induction false} WordOfUpper(t: string)
    ensures Word(ToUpper(t), '@') == ToUpper(Word(t, '@'))
  {
    if t != [] {
      var c, rest := t[0], t[1..];
      assert t == [c] + rest;
      ToUpperCons(c, rest);
      var u := ToUpper(t);
      assert u[0] == UpperChar(c) && u[1..] == ToUpper(rest);
      if c == '@' {
        assert UpperChar(c) == '@';
        assert Word(t, '@') == [];
      } else {
        assert UpperChar(c) != '@';
        WordOfUpper(rest);
        assert Word(u, '@') == [UpperChar(c)] + Word(ToUpper(rest), '@');
        assert Word(t, '@') == [c] + Word(rest, '@');
        ToUpperCons(c, Word(rest, '@'));
      }
    }
  }

  /** Commands are matched without regard to case. */
  lemma CaseIgnored(text: string)
    ensures CommandOf(ToUpper(text)) == CommandOf(text)
  {
    WordOfUpper(text);
    ToLowerIgnoresCase(Word(text, '@'));
    assert ToLower(Word(ToUpper(text), '@')) == ToLower(Word(text, '@'));
  }

  // ------------------------------------------------------------------ the command handler's report

  /** The name an unknown category gets in this report. */
  const UnknownCategoryName: string := "Неизвестная"

  /** A `DateTime` operation that would throw. */
  datatype CommandError = DateOutOfRange

  /** The window of this report: one calendar month back from now, up to now. */
  lemma LastMonthWindowContents(now: DateTime, d: DateTime)
    requires ValidDate(now) && ValidDate(d) && AddMonths(now, -1).Some?
    ensures var start := AddMonths(now, -1).value;
            && MonthIndex(start) + 1 == MonthIndex(now)
            && (InPeriod(d, Some(start), Some(now)) <==> !Earlier(d, start) && !Earlier(now, d))
  {
    var start := AddMonths(now, -1).value;
    InstantOrder(d, start);
    InstantOrder(now, d);
  }

  /**
   * GenerateReport of the command handler: the report over [now − 1 month, now]
   * with unknown categories named "Неизвестная"; an error when the month before
   * now is before year 1.
   */
  method LastMonthReport(store: BudgetStore, now: DateTime) returns (r: Result<Report, CommandError>)
    requires store.Valid() && ValidDate(now)
    ensures r.Err? <==> AddMonths(now, -1).None?
    ensures r.Ok? ==>
              r.value == BuildReport(ReadTransactions(Selected(store.transactions, Some(AddMonths(now, -1).value), Some(now))),
                                     ReadCategories(store.categories), UnknownCategoryName)
  {
    var start := AddMonths(now, -1);
    if start.None? {
      return Err(DateOutOfRange);
    }
    var transactions := store.GetTransactions(Some(start.value), Some(now));
    if transactions == [] {
      return Ok(NoData);
    }
    var categories := store.GetAllCategories();
    assert categories == ReadCategories(store.categories);
    r := Ok(BuildReport(transactions, categories, UnknownCategoryName));
  }

  // ------------------------------------------------------------------ dispatch

  /** What a command shows; texts and keyboards are left abstract. */
  datatype CommandReply =
    | MenuShown
    | TypeSelectionShown
    | ReportShown(report: Report)
    | HelpShown
    | CategoryList(ctype: TransactionType, names: seq<string>, offersIncomeList: bool)
    | BackupSent
    | RestoreRequested
    | UnknownCommand

  /** A category-list reply of type t naming the stored categories of that type, in table order. */
  predicate ListsCategories(reply: CommandReply, rows: seq<CategoryRow>, t: TransactionType)
  {
    && reply.CategoryList? && reply.ctype == t
    && |reply.names| == |RowsOfType(rows, t)|
    && forall k :: 0 <= k < |reply.names| ==> reply.names[k] == RowsOfType(rows, t)[k].name
  }

  /** Such a list names exactly the categories stored with that type. */
  lemma ListedNames(reply: CommandReply, rows: seq<CategoryRow>, t: TransactionType)
    requires ListsCategories(reply, rows, t)
    ensures forall n :: n in reply.names <==> exists i :: 0 <= i < |rows| && rows[i].ctype == t && rows[i].name == n
  {
    var kept := RowsOfType(rows, t);
    RowsOfTypeExactly(rows, t);
    forall n
      ensures n in reply.names <==> exists i :: 0 <= i < |rows| && rows[i].ctype == t && rows[i].name == n
    {
      if n in reply.names {
        var k :| 0 <= k < |reply.names| && reply.names[k] == n;
        assert kept[k] in kept;
        var i :| 0 <= i < |rows| && rows[i] == kept[k];
      }
      if exists i :: 0 <= i < |rows| && rows[i].ctype == t && rows[i].name == n {
        var i :| 0 <= i < |rows| && rows[i].ctype == t && rows[i].name == n;
        assert rows[i] in kept;
        var k :| 0 <= k < |kept| && kept[k] == rows[i];
        assert reply.names[k] == n;
      }
    }
  }

  /**
   * ShowExpenseCategories / ShowIncomeCategories: the names of the categories
   * stored with that type, in table order; the expense list offers a button
   * for the income list.
   */
  method ShowCategories(store: BudgetStore, t: TransactionType) returns (reply: CommandReply)
    requires store.Valid()
    ensures ListsCategories(reply, store.categories, t) && reply.offersIncomeList == (t == Expense)
    ensures forall n :: n in reply.names <==> exists i :: 0 <= i < |store.categories| && store.categories[i].ctype == t && store.categories[i].name == n
  {
    var categories := store.GetCategoriesByType(t);
    var names := seq(|categories|, i requires 0 <= i < |categories| => categories[i].name);
    reply := CategoryList(t, names, t == Expense);
    ListedNames(reply, store.categories, t);
  }

  /**
   * What a command does, given the pending map before (`pending`) and after
   * (`pending'`): each command's reply, the names of the stored categories for
   * the two lists, the last month's report; only /addcategory and /restore
   * change the pending map, each for this chat alone; only /report can fail,
   * exactly when the month before now does not exist.
   */
  predicate CommandOutcome(pending: map<int, Pending>, pending': map<int, Pending>,
                           categories: seq<CategoryRow>, transactions: seq<TransactionRow>,
                           chatId: int, text: string, now: DateTime, r: Result<CommandReply, CommandError>)
    requires ValidDate(now)
  {
    && (CommandOf(text) == AddCategoryCmd ==>
          r == Ok(TypeSelectionShown) && pending' == Updated(pending, chatId, Some(Pending(SelectCategoryType, None))))
    && (CommandOf(text) == RestoreCmd ==>
          r == Ok(RestoreRequested) && pending' == Updated(pending, chatId, Some(Pending(Other(WaitingRestoreFileTag), None))))
    && (CommandOf(text) != AddCategoryCmd && CommandOf(text) != RestoreCmd ==> pending' == pending)
    && (r.Err? <==> CommandOf(text) == ReportCmd && AddMonths(now, -1).None?)
    && (CommandOf(text) == ReportCmd && r.Ok? ==>
          r.value == ReportShown(BuildReport(ReadTransactions(Selected(transactions, Some(AddMonths(now, -1).value), Some(now))),
                                             ReadCategories(categories), UnknownCategoryName)))
    && (CommandOf(text) == CategoriesCmd ==> r.Ok? && ListsCategories(r.value, categories, Expense))
    && (CommandOf(text) == IncomeCategoriesCmd ==> r.Ok? && ListsCategories(r.value, categories, Income))
    && (CommandOf(text) == StartCmd ==> r == Ok(MenuShown))
    && (CommandOf(text) == HelpCmd ==> r == Ok(HelpShown))
    && (CommandOf(text) == BackupCmd ==> r == Ok(BackupSent))
    && (CommandOf(text) == UnknownCmd ==> r == Ok(UnknownCommand))
  }

  /**
   * HandleCommand: only /addcategory and /restore change the pending map, each
   * for this chat alone; no command changes the store; only /report can fail.
   */
  method HandleCommand(h: PendingActionHandler, store: BudgetStore, chatId: int, text: string, now: DateTime)
    returns (r: Result<CommandReply, CommandError>)
    requires h.Valid() && store.Valid() && ValidDate(now)
    modifies h
    ensures h.Valid()
    ensures CommandOutcome(old(h.pending), h.pending, store.categories, store.transactions, chatId, text, now, r)
  {
    var command := CommandOf(text);
    match command {
      case StartCmd => r := Ok(MenuShown);
      case AddCategoryCmd =>
        h.ShowCategoryTypeSelection(chatId);
        r := Ok(TypeSelectionShown);
      case ReportCmd =>
        var report := LastMonthReport(store, now);
        match report {
          case Ok(rep) => r := Ok(ReportShown(rep));
          case Err(e) => r := Err(e);
        }
      case HelpCmd => r := Ok(HelpShown);
      case CategoriesCmd =>
        var list := ShowCategories(store, Expense);
        r := Ok(list);
      case IncomeCategoriesCmd =>
        var list := ShowCategories(store, Income);
        r := Ok(list);
      case BackupCmd => r := Ok(BackupSent);
      case RestoreCmd =>
        RequestDatabaseRestore(h, chatId);
        r := Ok(RestoreRequested);
      case UnknownCmd => r := Ok(UnknownCommand);
    }
  }

  // ------------------------------------------------------------------ the command handler's callbacks

  datatype CommandCallback = ShowIncomeList | PressedButtonTwo | NotHandled

  /** The command handler's callback switch. */
  function CommandCallbackOf(data: string): (c: CommandCallback)
    ensures c == ShowIncomeList <==> data == "income_categories"
    ensures c == PressedButtonTwo <==> data == "btn2"
    ensures c == NotHandled <==> data != "income_categories" && data != "btn2"
  {
    if data == "income_categories" then ShowIncomeList
    else if data == "btn2" then PressedButtonTwo
    else NotHandled
  }

  datatype CallbackReply = IncomeList(list: CommandReply) | FixedReply | NoCallbackReply

  /** CommandHandler.HandleCallbackQuery: the store is only read and no state changes. */
  method HandleCommandCallback(store: BudgetStore, data: string) returns (reply: CallbackReply)
    requires store.Valid()
    ensures CommandCallbackOf(data) == ShowIncomeList <==> reply.IncomeList?
    ensures reply.IncomeList? ==> ListsCategories(reply.list, store.categories, Income)
    ensures CommandCallbackOf(data) == PressedButtonTwo <==> reply == FixedReply
    ensures CommandCallbackOf(data) == NotHandled <==> reply == NoCallbackReply
  {
    match CommandCallbackOf(data) {
      case ShowIncomeList =>
        var list := ShowCategories(store, Income);
        reply := IncomeList(list);
      case PressedButtonTwo => reply := FixedReply;
      case NotHandled => reply := NoCallbackReply;
    }
  }
}

# Family budget bot — a verified model of its core

A Telegram bot keeps a family's budget in a SQLite database. It works through
a few kinds of message:

- **Transactions.** A message such as `1500 продукты покупки в магазине` records
  a transaction: an amount, a category name and a free description.
- **Slash commands.** `/start`, `/addcategory`, `/report`, `/help`,
  `/categories`, `/incategories`, `/backup` and `/restore` show menus, lists,
  reports and backups.
- **The category dialog.** A short per-chat dialog first asks for a type
  (ДОХОД or РАСХОД), then for a name, and creates a category.
- **Report screens.** These summarise a month by category, ordered by total.
  They offer inline buttons for a per-category keyboard and a per-category
  breakdown.

This project models that core in Dafny and proves what each part promises.

The modules follow the program's components:

| file | module | models |
|---|---|---|
| `wrappers.dfy` | `Wrappers` | `Option` and `Result` |
| `models.dfy` | `Models` | `TransactionType` and its integer codes, `Category`, `Transaction`, and the `DateTime` calendar arithmetic (`AddMonths`, `AddDays(-1)`) |
| `text.dfy` | `Text` | the string operations the handlers use: `Split` with empty pieces removed, `Join`, `ToUpper`/`ToLower`, integer rendering and the decimal parser |
| `store.dfy` | `Store` | `BudgetRepository` as an in-memory class: two tables with AUTOINCREMENT ids and a unique category name, and its queries |
| `budget_service.dfy` | `Budget` | `BudgetService.ProcessTransactionMessage` |
| `pending_actions.dfy` | `PendingActions` | `PendingActionHandler`: its per-chat dictionary as a class, and the dialog as a pure transition `Step` |
| `backup.dfy` | `Backup` | what the restore workflow does to the pending dictionary |
| `report.dfy` | `Reports` | report periods, grouping by category, the stable descending sort, the summary report and the category breakdown |
| `navigation.dfy` | `Navigation` | the callback data of the report buttons, the two-per-row layout and the report keyboards |
| `report_service.dfy` | `ReportScreens` | `ReportService`'s three screens over the store |
| `commands.dfy` | `Commands` | `CommandHandler`: command recognition, dispatch, its own last-month report and its callback switch |
| `callbacks.dfy` | `Callbacks` | `CallbackHandler` |
| `bot.dfy` | `Bot` | the routing of `TelegramBotService.HandleUpdateAsync` |

The model follows the code as written. In three places this differs from what
the code's own comments promise:

- **Transaction type.** `Transaction.Type` is documented as "determined from the
  category", but nothing assigns it. The Transactions table has no column for
  it either, so every transaction read back has the enum's zero value, Expense.
  `Reports.ReadBackReport` proves the consequence: every report has an empty
  income list, and every amount counts as an expense.
- **No sign check on amounts.** Any amount that parses is accepted, negative
  ones included (`Budget.AnyIntegerAmountAccepted`).
- **The month window ends too early.** It is `[1st 00:00, last day 00:00]`, so a
  transaction later on the month's last day is outside its month's report
  (`Reports.MonthWindowContents`).

The code also references members that do not match the repository and service
that define them:

- `PendingActionHandler` calls `AddCategory(name, type)`, but
  `BudgetService.AddCategory` takes only a name.
- `ReportService` and `CommandHandler` use `GetTransactionsByCategoryAndPeriod`
  and `GetCategoriesByType`, which neither class defines.
- `TelegramBotService` builds its `CommandHandler` with three arguments
  (`Bot/Services/TelegramBotService.cs:46`), but the constructor takes five: the
  backup handler and the database path as well
  (`Bot/Handlers/CommandHandler.cs:22`). The model's /restore route assumes the
  backup handler is wired in, as the constructor requires.

The model's store gives its callers what they use: a category row keeps its
type, and both queries exist. Its readers still return only Id and Name, as
the repository's readers do.

The routing in `TelegramBotService` is narrower than the handlers suggest:

- **Only text messages reach a handler.** Every other update is dropped,
  including callback queries and documents.
- **The restore wait never ends.** After `/restore`, the chat's
  `WAITING_RESTORE_FILE` entry absorbs every text, and the file that would end
  the wait is never delivered (`Bot.RestoreWaitIsPermanent`).
- **No handler reads the report buttons' data** (`Callbacks.ReportButtonsIgnored`).
  Their encoding is still proved injective, by a reader defined in the model
  (`Navigation.Decode`).

## Model

| member | source | states |
|---|---|---|
| Models.FromCode | Data/Models/TransactionType.cs:6-27 | exactly the codes 0 to 3 name a type, and each names the member with that code |
| Models.CodeRoundTrip | Data/Models/TransactionType.cs:6-27 | every type's code lies in 0..3 and casts back to the same type |
| Models.DefaultType | Data/Models/TransactionType.cs:11 | an unassigned type field holds the member with code 0 |
| Models.DaysInMonth | Bot/Services/ReportService.cs:32 | a month has 28 to 31 days; February has 29 exactly in leap years |
| Models.InstantOrder | Data/Repositories/BudgetRepository.cs:240-252 | comparing the timestamps' instants is comparing them in calendar order, and equal instants are equal timestamps |
| Models.InstantBounds | Data/Repositories/BudgetRepository.cs:240-252 | an instant lies inside the block of its month and of its day |
| Models.AddMonths | Bot/Handlers/CommandHandler.cs:171-174 | defined exactly when the target month lies in years 1 to 9999; then it lands in that month, keeps the time and clips the day to the month's length |
| Models.PreviousDay | Bot/Services/ReportService.cs:32 | absent only on 1 January of year 1; otherwise the same time on the previous calendar day, crossing into the previous month's last day from the 1st |
| Models.NewCategory | Data/Models/Category.cs:6-25 | a new category has id 0, an empty name, the type with code 0, the colour "#3498db" and the folder icon "📁" |
| Models.NewTransaction | Data/Models/Transaction.cs:6-18 | an initialised transaction carries the given amount, date, category and description, with id 0 and the type with code 0 |
| Text.Word | Bot/Handlers/CommandHandler.cs:35-38 | the longest prefix without the separator, followed in the text by the separator when it is shorter |
| Text.Split | Services/BudgetService.cs:73 | every piece is non-empty and free of the separator; SplitSpaced pins which pieces |
| Text.WordOfConcat | Bot/Handlers/CommandHandler.cs:35-38 | a separator-free prefix followed by anything keeps its place in the word of the whole |
| Text.SplitJoin | Services/BudgetService.cs:73 | splitting what was joined from non-empty, separator-free pieces gives back the pieces |
| Text.SplitRun | Services/BudgetService.cs:73 | separators before a text are dropped: the split is that of the text |
| Text.SplitSpaced | Services/BudgetService.cs:73 | non-empty, separator-free pieces with runs of one or more separators between them and runs of any length before and after split into exactly those pieces, so empty entries are removed |
| Text.UpperChar | Bot/Handlers/PendingActionHandler.cs:67-68 | no lower-case letter remains, non-letters are kept, and lower-casing undoes it |
| Text.LowerChar | Bot/Handlers/CommandHandler.cs:40 | no upper-case letter remains, and non-upper-case characters are kept |
| Text.ToUpper | Bot/Handlers/PendingActionHandler.cs:67-68 | the same length, no lower-case letter left, every other character kept |
| Text.ToLower | Bot/Handlers/CommandHandler.cs:40 | the same length, no upper-case letter left, every other character kept |
| Text.ToUpperIdempotent | Bot/Handlers/PendingActionHandler.cs:67-68 | upper-casing twice is upper-casing once |
| Text.ToLowerIgnoresCase | Bot/Handlers/CommandHandler.cs:40 | lower-casing ignores the case the text was written in |
| Text.NatToString | Bot/Services/ReportService.cs:207 | a non-empty string of decimal digits |
| Text.IntToString | Bot/Services/ReportService.cs:236 | a non-empty rendering without '_' or ' ', so it can sit inside '_'-separated data and space-separated text |
| Text.DigitsValueOfNatToString | Bot/Services/ReportService.cs:207 | reading back a rendered natural number gives the number |
| Text.IntRoundTrip | Bot/Services/ReportService.cs:236 | parsing a rendered integer gives the integer back |
| Text.ParseUnsigned | Services/BudgetService.cs:80 | a text without a point is accepted exactly when it is a non-empty digit string, and then reads as its digits' value; every accepted number is non-negative |
| Text.Decimal | Services/BudgetService.cs:80 | the value of a whole part and fractional digits is non-negative |
| Text.ParseUnsignedFraction | Services/BudgetService.cs:80 | digits, a point and digits, with at least one digit, read as the whole part plus the fractional digits over 10 to the power of their count |
| Text.ParseUnsignedTwoPoints | Services/BudgetService.cs:80 | a text with two points is rejected |
| Text.ParseDecimal | Services/BudgetService.cs:80 | an accepted amount has at least one digit; no sign is imposed |
| Text.ParseDecimalSign | Services/BudgetService.cs:80 | a leading '-' negates the unsigned reading, a leading '+' keeps it, and a text without a sign is read unsigned |
| Text.ParseDecimalValue | Services/BudgetService.cs:80 | a non-empty digit string reads as its value, and digits, a point and digits read as the exact decimal they write |
| Text.ParseFractionExample | Services/BudgetService.cs:80 | "1500.50" reads as 1500.5 |
| Text.ParseNoWholeExample | Services/BudgetService.cs:80 | ".5" reads as 0.5 |
| Text.ParseNegativeExample | Services/BudgetService.cs:80 | "-2.25" reads as -2.25 |
| Text.ParsePlusExample | Services/BudgetService.cs:80 | "+5" reads as 5 |
| Text.ParseZerosExample | Services/BudgetService.cs:80 | "007" reads as 7 |
| Text.ParseRejectExamples | Services/BudgetService.cs:80 | "1.2.3", "." and "12a" are rejected |
| Text.DecimalOfInt | Services/BudgetService.cs:80 | every integer, written out, parses back to the same amount |
| Store.ReadCategory | Data/Repositories/BudgetRepository.cs:86-90 | a read category carries the row's id and name, and every other field keeps its default |
| Store.ReadTransaction | Data/Repositories/BudgetRepository.cs:261-268 | a read transaction carries the five stored columns, and its type keeps its default |
| Store.ReadTransactions | Data/Repositories/BudgetRepository.cs:258-269 | one transaction per row, in order, each read by ReadTransaction |
| Store.FindByName | Data/Repositories/BudgetRepository.cs:75 | absent exactly when no row has the name; otherwise a stored row with that name |
| Store.FindById | Data/Repositories/BudgetRepository.cs:198 | absent exactly when no row has the id; otherwise a stored row with that id |
| Store.Selected | Data/Repositories/BudgetRepository.cs:235-252 | a period query returns no more rows than stored, each dated within both inclusive bounds |
| Store.SelectedExactly | Data/Repositories/BudgetRepository.cs:235-252 | a period query returns exactly the stored rows whose date lies within both inclusive bounds |
| Store.SelectedUnbounded | Data/Repositories/BudgetRepository.cs:226 | without bounds, the query returns every row in order |
| Store.SelectedOfCategoryExactly | Bot/Services/ReportService.cs:297 | the per-category query returns exactly the rows of that category within the bounds |
| Store.RowsOfType | Bot/Handlers/CommandHandler.cs:80-96 | the rows kept by the type filter all have that type, and there are no more than stored |
| Store.RowsOfTypeExactly | Bot/Handlers/CommandHandler.cs:80-96 | the type filter keeps exactly the rows of that type |
| Store.AppendWellFormed | Data/Repositories/BudgetRepository.cs:44-48 | appending a new name under the next id keeps names unique and ids increasing |
| Store.FindAfterAppend | Data/Repositories/BudgetRepository.cs:102-121 | after an insertion under a new name and id, both lookups find the new row |
| Store.FindByNameUnique | Data/Repositories/BudgetRepository.cs:69-95 | in a well-formed table a name lookup has exactly one possible answer |
| Store.BudgetStore.constructor | Data/Repositories/BudgetRepository.cs:21-62 | a fresh database has both tables empty |
| Store.BudgetStore.AddCategory | Data/Repositories/BudgetRepository.cs:102-121 | a new name is appended under an id never used before and can be looked up; an existing name violates UNIQUE and changes nothing; transactions are untouched |
| Store.BudgetStore.GetCategoryByName | Data/Repositories/BudgetRepository.cs:69-95 | absent exactly when no category has the name, else the category of the one row with that name |
| Store.BudgetStore.GetCategoryById | Data/Repositories/BudgetRepository.cs:192-218 | absent exactly when no category has the id, else the category read from that row |
| Store.BudgetStore.GetAllCategories | Data/Repositories/BudgetRepository.cs:158-185 | every row once, in table order, read by ReadCategory, with pairwise distinct ids |
| Store.BudgetStore.GetCategoriesByType | Bot/Handlers/CommandHandler.cs:80-96 | the rows of that type, in table order, each read as a category; so a category is listed exactly when a row of that type reads as it |
| Store.BudgetStore.AddTransaction | Data/Repositories/BudgetRepository.cs:128-152 | exactly one row is appended under a new id with the amount, date, category and description, and no type; categories are untouched |
| Store.BudgetStore.GetTransactions | Data/Repositories/BudgetRepository.cs:226-273 | the transactions read from the rows within the optional inclusive bounds, in table order |
| Store.BudgetStore.GetTransactionsByCategoryAndPeriod | Bot/Services/ReportService.cs:297 | the transactions read from the rows of that category within the bounds, in order |
| Budget.ParseMessage | Services/BudgetService.cs:73-87 | fewer than two pieces is malformed; otherwise an unparsable first piece is an invalid amount; otherwise the amount is the parsed first piece and the category name is a single non-empty word |
| Budget.ParseComposed | Services/BudgetService.cs:73-87 | an amount, a category and description words joined by spaces parse back to exactly those parts, with the placeholder description when there are no words |
| Budget.ParseDependsOnSplit | Services/BudgetService.cs:73-87 | two texts with the same space-separated pieces parse alike |
| Budget.SpacingIgnored | Services/BudgetService.cs:73-87 | extra spaces before, between and after the pieces change nothing, so a description's words end up one space apart |
| Budget.AnyIntegerAmountAccepted | Services/BudgetService.cs:80 | every integer amount, negative or zero included, is accepted as written |
| Budget.OnePieceIsMalformed | Services/BudgetService.cs:76-77 | a single word with trailing spaces is malformed |
| Budget.SplitOfSpaces | Services/BudgetService.cs:73 | a text of spaces splits into nothing |
| Budget.ProcessTransactionMessage | Services/BudgetService.cs:68-119 | the first failing check decides the reply and nothing is stored; otherwise exactly one transaction is stored with the parsed amount, the found category's id, the description and now; categories never change |
| PendingActions.ActionOfTag | Bot/Handlers/PendingActionHandler.cs:55-76 | a tag is an unknown action exactly when it is neither of the dialog's two tags |
| PendingActions.TagRoundTrip | Bot/Handlers/PendingActionHandler.cs:32-35 | every tag survives being read as an action and written back, and unknown actions read back as themselves |
| PendingActions.SelectedType | Bot/Handlers/PendingActionHandler.cs:80-101 | ДОХОД selects Income and РАСХОД selects Expense, and no other text selects anything |
| PendingActions.StoredType | Bot/Handlers/PendingActionHandler.cs:67 | a stored code denotes the type with that code; no code denotes Expense |
| PendingActions.TypeSelectionStep | Bot/Handlers/PendingActionHandler.cs:80-101 | the chat waits for a name exactly when a type keyword was chosen, and the entry then holds that type's valid code |
| PendingActions.Step | Bot/Handlers/PendingActionHandler.cs:45-78 | the dialog step never leaves a malformed entry |
| PendingActions.NameStepLeavesIdle | Bot/Handlers/PendingActionHandler.cs:60-65 | the name step always clears the entry, and it cancels exactly on one of the three keywords |
| PendingActions.OtherActionUntouched | Bot/Handlers/PendingActionHandler.cs:47-78 | an entry the dialog does not own, such as the restore wait, absorbs any text and stays |
| PendingActions.DialogCreatesChosenType | Bot/Handlers/PendingActionHandler.cs:45-101 | a type keyword followed by a non-keyword name creates that name upper-cased with exactly that type, and leaves the chat idle |
| PendingActions.LowerCaseKeywordIsAName | Bot/Handlers/PendingActionHandler.cs:61-68 | keywords are compared as typed: "доход" at the name step creates the category "ДОХОД" |
| PendingActions.Updated | Bot/Handlers/PendingActionHandler.cs:32-43 | only the given chat's entry is set or removed, and every other chat is untouched |
| PendingActions.PendingActionHandler.constructor | Bot/Handlers/PendingActionHandler.cs:15-21 | the handler starts with no pending entries |
| PendingActions.PendingActionHandler.HasPendingAction | Bot/Handlers/PendingActionHandler.cs:23 | a chat has a pending action exactly when its entry's action is present |
| PendingActions.PendingActionHandler.GetPendingAction | Bot/Handlers/PendingActionHandler.cs:25-30 | the chat's stored action and code, or (null, null) when it has none; a missing action never comes with a code; in a valid handler an ADD_CATEGORY code is a declared type code |
| PendingActions.PendingActionHandler.GetAgreesWithHas | Bot/Handlers/PendingActionHandler.cs:23-30 | a chat has a pending action exactly when its entry is not (null, null) |
| PendingActions.PendingActionHandler.SetPendingAction | Bot/Handlers/PendingActionHandler.cs:32-35 | this chat's entry is overwritten, and other chats are unchanged |
| PendingActions.PendingActionHandler.RemovePendingAction | Bot/Handlers/PendingActionHandler.cs:37-43 | this chat's entry is gone, and other chats are unchanged |
| PendingActions.PendingActionHandler.HandleCategoryTypeSelection | Bot/Handlers/PendingActionHandler.cs:80-101 | a type keyword moves the chat to the name step of that type and asks for a name; anything else clears it and shows the menu |
| PendingActions.PendingActionHandler.HandlePendingAction | Bot/Handlers/PendingActionHandler.cs:45-78 | the entry becomes what Step gives; a category is created exactly when Step's effect says so, and a duplicate name changes nothing; transactions are never touched |
| PendingActions.PendingActionHandler.ShowCategoryTypeSelection | Bot/Handlers/PendingActionHandler.cs:103-123 | the chat now waits for a type, and other chats are unchanged |
| Backup.RequestDatabaseRestore | Bot/Services/BackupService.cs:68-74 | the chat now waits for a database file, and other chats are unchanged |
| Backup.FinishDatabaseRestore | Bot/Services/BackupService.cs:114-117 | after a restore attempt the chat's wait is removed, whatever the outcome |
| Reports.MonthIndexDetermines | Bot/Services/ReportService.cs:31-32 | a month index names one year and one month |
| Reports.MonthWindow | Bot/Services/ReportService.cs:29-33 | defined exactly for months of years 1 to 9999 other than December 9999, and then from the 1st at 00:00 to the last day at 00:00 |
| Reports.MonthWindowContents | Bot/Services/ReportService.cs:29-33 | a date is in the window exactly when it is in that month and before the last day, or at midnight of the last day |
| Reports.CurrentWindowContents | Bot/Services/ReportService.cs:36-41 | without a month, the window admits the dates of the current month up to and including now |
| Reports.OfType | Bot/Services/ReportService.cs:52-53 | exactly the transactions of the given type |
| Reports.OfCategory | Bot/Services/ReportService.cs:56 | exactly the transactions of the given category |
| Reports.CategoryIds | Bot/Services/ReportService.cs:56 | the category id of each transaction, in order |
| Reports.Distinct | Bot/Services/ReportService.cs:56 | the same elements, each once |
| Reports.Keys | Bot/Services/ReportService.cs:56 | one key per group, in order |
| Reports.AddToKeys | Bot/Services/ReportService.cs:56 | a transaction with a new category opens a group at the end, and otherwise the keys are unchanged |
| Reports.AddToTotal | Bot/Services/ReportService.cs:64 | adding a transaction raises only its own category's total, by its amount |
| Reports.AddToSum | Bot/Services/ReportService.cs:64 | adding a transaction raises the grand total by its amount |
| Reports.GroupByCategory | Bot/Services/ReportService.cs:55-65 | at most one group per transaction, and the groups keep the grand total |
| Reports.GroupByCategoryCorrect | Bot/Services/ReportService.cs:55-65 | the groups are keyed by the distinct category ids in order of first appearance, and each total is the sum of that category's amounts |
| Reports.GroupByCategoryKeys | Bot/Services/ReportService.cs:56 | the groups are keyed by the distinct category ids, in order of first appearance |
| Reports.GroupByCategoryTotal | Bot/Services/ReportService.cs:64 | each category's group total is the sum of that category's amounts |
| Navigation.SplitEncode | Bot/Services/ReportService.cs:207-287 | a token's data splits on '_' back into its pieces |
| Reports.InsertMembers | Bot/Services/ReportService.cs:67 | insertion adds exactly the one element |
| Reports.InsertSorted | Bot/Services/ReportService.cs:67 | insertion into a descending sequence keeps it descending |
| Reports.InsertStable | Bot/Services/ReportService.cs:67 | the inserted element goes before the elements that share its key, and the others keep their order |
| Reports.SortDesc | Bot/Services/ReportService.cs:67 | the result is a permutation of the input |
| Reports.SortDescCorrect | Bot/Services/ReportService.cs:67 | the sort is descending by key, a permutation of its input, and stable for every key |
| Reports.InsertDistinct | Bot/Services/ReportService.cs:67 | inserting an element with a new image keeps images distinct |
| Reports.SortDescDistinct | Bot/Services/ReportService.cs:67 | sorting keeps distinct images distinct |
| Reports.FirstWithId | Bot/Services/ReportService.cs:59 | absent exactly when no category has the id, else a category with that id |
| Reports.ToRows | Bot/Services/ReportService.cs:57-66 | one row per group |
| Reports.ToRowsMembers | Bot/Services/ReportService.cs:57-66 | a row comes from a group exactly when its id, name and total match it; ids stay distinct, and the rows keep the groups' sum |
| Reports.ToRowsIds | Bot/Services/ReportService.cs:57-66 | each row has its group's id |
| Reports.InsertSum | Bot/Services/ReportService.cs:83-84 | insertion adds exactly the inserted row's total |
| Reports.SortSum | Bot/Services/ReportService.cs:83-84 | ordering the rows keeps their sum |
| Reports.GroupKeysOfType | Bot/Services/ReportService.cs:54-56 | a category has a group exactly when a transaction of that type carries it |
| Reports.CategoryReport | Bot/Services/ReportService.cs:54-67 | the rows sum to the total amount of that type |
| Reports.CategoryReportRows | Bot/Services/ReportService.cs:54-67 | a row is listed exactly when a transaction of that type has its category, its total is that category's sum, and its name is the category's or the fallback |
| Reports.CategoryReportOrder | Bot/Services/ReportService.cs:54-67 | the rows have distinct categories and are ordered by total, descending, with ties in order of first appearance |
| Reports.BuildReport | Bot/Services/ReportService.cs:46-85 | no data exactly for an empty period; otherwise the two per-category lists, the type totals, and the balance as income minus expense |
| Reports.ReadBackReport | Bot/Services/ReportService.cs:52-53 | over transactions read from the store, the income list is empty, income is 0 and everything counts as expense |
| Reports.OfTypeOfDefault | Bot/Services/ReportService.cs:52-53 | when every transaction has the default type, none is income and all are expense |
| Reports.LineOf | Bot/Services/ReportService.cs:316-323 | a line keeps the date and amount; an empty description shows the placeholder; the plus sign is exactly for income |
| Reports.Lines | Bot/Services/ReportService.cs:316-323 | one line per transaction, in order |
| Reports.BuildDetails | Bot/Services/ReportService.cs:299-323 | a notice exactly when there are no transactions; otherwise the total, the count and the lines of the transactions as a permutation, latest first, lines with the same date in the order of their transactions; the name comes from the category when it exists |
| Reports.LinesOfPermutation | Bot/Services/ReportService.cs:316 | reordering the transactions lists the same lines |
| Reports.LinesPermutation | Bot/Services/ReportService.cs:316 | permuting the transactions permutes their lines, counting repeats |
| Reports.LinesKeepTies | Bot/Services/ReportService.cs:316 | the lines with one date are the lines of the transactions with that date, in their order |
| Reports.ReadBackDetails | Bot/Services/ReportService.cs:320 | over transactions read from the store, every line has the minus sign |
| Navigation.Pieces | Bot/Services/ReportService.cs:207 | each piece of a token's data is non-empty and free of '_' |
| Navigation.Encode | Bot/Services/ReportService.cs:207-287 | a token's interpolated data is its pieces joined by '_' |
| Navigation.DecodeEncode | Bot/Services/ReportService.cs:207-287 | every token's data reads back as that token |
| Navigation.EncodeInjective | Bot/Services/ReportService.cs:207-287 | distinct tokens have distinct data |
| Navigation.FlattenAppend | Bot/Services/ReportService.cs:243-279 | the buttons of two row lists laid end to end are the buttons of each, in order |
| Navigation.Chunks | Bot/Services/ReportService.cs:243-250 | ⌈n/2⌉ rows that hold the buttons in order |
| Navigation.ChunksShape | Bot/Services/ReportService.cs:243-250 | ⌈n/2⌉ rows hold the buttons in order, two to a row, the last row holding one when n is odd |
| Navigation.ChunkPairs | Bot/Services/ReportService.cs:243-250 | the loop builds exactly the two-per-row layout |
| Navigation.Buttons | Bot/Services/ReportService.cs:234-240 | one button per row, in order |
| Navigation.CategoryButtons | Bot/Services/ReportService.cs:234-240 | the loop builds exactly one button per category row, in order |
| Navigation.CategoryButtonTarget | Bot/Services/ReportService.cs:236 | a category's button asks for the details of that category in the report's month |
| Navigation.ReportKeyboard | Bot/Services/ReportService.cs:205-222 | two rows: a button for the detailed report of the given month, with missing parts taken from now, and the period button |
| Navigation.DetailedKeyboard | Bot/Services/ReportService.cs:224-290 | the number of rows is ⌈i/2⌉ + ⌈e/2⌉ + 1, plus one for the separator when both lists are non-empty, and the last row holds the back and period buttons |
| Navigation.DetailedKeyboardShape | Bot/Services/ReportService.cs:224-290 | the income buttons come first, then the separator only when both lists are non-empty, then the expense buttons, two to a row, and last the back and period buttons |
| Navigation.CreateDetailedReportKeyboard | Bot/Services/ReportService.cs:224-290 | builds exactly the detailed keyboard of the given month, with missing parts taken from now |
| Navigation.DetailsKeyboard | Bot/Services/ReportService.cs:327-346 | a row back to the detailed report and to the summary of that month, then the period button |
| Navigation.FixedButtonsData | Bot/Services/ReportService.cs:253-259 | the period and separator buttons carry their tokens' data |
| ReportScreens.ReadCategories | Data/Repositories/BudgetRepository.cs:158-185 | one category per row, in order |
| ReportScreens.GenerateReport | Bot/Services/ReportService.cs:24-122 | an invalid month is an error; otherwise the summary of the period's stored transactions, with unknown categories named "", and the summary keyboard, or the notice for an empty period |
| ReportScreens.GenerateDetailedReport | Bot/Services/ReportService.cs:124-203 | as the summary, with one button per category row in the detailed keyboard |
| ReportScreens.ShowCategoryDetails | Bot/Services/ReportService.cs:292-354 | an invalid month is an error; otherwise the breakdown of the category's transactions in that month's window, with a keyboard exactly when there are any |
| Commands.CommandOf | Bot/Handlers/CommandHandler.cs:35-76 | a recognised command is exactly its name once the mention is cut and the case folded, and an unknown text matches no name |
| Commands.LowerOfLower | Bot/Handlers/CommandHandler.cs:40 | lower-casing a text without capitals leaves it unchanged |
| Commands.Normalised | Bot/Handlers/CommandHandler.cs:35-40 | a name without '@' or capitals is its own normal form |
| Commands.NameRoundTrip | Bot/Handlers/CommandHandler.cs:42-76 | each of the eight names selects its own command, so they are pairwise distinct |
| Commands.MentionIgnored | Bot/Handlers/CommandHandler.cs:35-38 | a mention of the bot after the command does not change it |
| Commands.WordOfUpper | Bot/Handlers/CommandHandler.cs:35-40 | cutting at '@' and upper-casing commute |
| Commands.CaseIgnored | Bot/Handlers/CommandHandler.cs:40 | commands are matched regardless of case |
| Commands.LastMonthWindowContents | Bot/Handlers/CommandHandler.cs:171-174 | the window starts one calendar month before now and admits exactly the dates from then up to now |
| Commands.LastMonthReport | Bot/Handlers/CommandHandler.cs:169-228 | an error exactly when the month before now is before year 1; otherwise the report over the stored transactions of the last month, with unknown categories named "Неизвестная" |
| Commands.ListedNames | Bot/Handlers/CommandHandler.cs:80-106 | a category list of a type names exactly the categories stored with that type |
| Commands.ShowCategories | Bot/Handlers/CommandHandler.cs:80-106 | lists the names of the categories stored with that type, in table order, so exactly those names; only the expense list offers the income list |
| Commands.HandleCommand | Bot/Handlers/CommandHandler.cs:32-78 | each command gives its reply, /categories and /incategories the names of the stored categories of their type; only /addcategory and /restore change the pending map, for this chat alone; only /report can fail, exactly when the month before now is out of range |
| Commands.CommandCallbackOf | Bot/Handlers/CommandHandler.cs:240-253 | "income_categories" and "btn2" are the two handled cases, and any other data is not handled |
| Commands.HandleCommandCallback | Bot/Handlers/CommandHandler.cs:230-255 | "income_categories" lists the names of the stored income categories, "btn2" gets the fixed reply, and anything else gets none |
| Callbacks.CallbackOf | Bot/Handlers/CallbackHandler.cs:34-49 | each of the three handled strings selects its own case, and every other string is ignored |
| Callbacks.ReportButtonsIgnored | Bot/Handlers/CallbackHandler.cs:36-46 | no report button's data is among the handled cases |
| Callbacks.HandleCallbackQuery | Bot/Handlers/CallbackHandler.cs:27-51 | each type button moves this chat to the name step of its type; the income-list button lists the names of the stored income categories and changes nothing; anything else changes nothing |
| Bot.RouteOf | Bot/Services/TelegramBotService.cs:80-112 | a non-text update is dropped; a text from a chat with a pending entry goes to the dialog; otherwise a text starting with '/' is a command and any other text, the empty one included, goes to the parser |
| Bot.HandleUpdate | Bot/Services/TelegramBotService.cs:77-119 | a non-text update changes nothing and gets no reply; a chat with a pending entry goes to the dialog, whose reply and new state are the handler's (DialogOutcome), a duplicate category name becoming the error reply exactly when Step creates a stored name; a '/' text gets the command handler's reply and pending map (CommandOutcome), a failed /report becoming the error reply; any other text gets the parser's reply and appended row (TransactionOutcome); the dialog never stores a transaction, a command never changes the store, the parser never changes the pending map or the categories |
| Bot.RestoreWaitIsPermanent | Bot/Services/TelegramBotService.cs:80-97 | for a chat waiting for a restore file, every update is dropped or absorbed by the wait unchanged |
| Bot.DialogBeforeCommands | Bot/Services/TelegramBotService.cs:92-105 | a chat with a pending entry sends even a command text to the dialog |

## Left out

- **Telegram transport.** Sending messages, HTML formatting, emoji, the wording
  of replies and button captions, reply-keyboard layouts, and answering callback
  queries. Replies are datatypes naming what is shown.
- **Clock.** `DateTime.Now` is a parameter `now`, read once per update; the
  source reads it several times.
- **The amount grammar.** `decimal.TryParse` with `NumberStyles.Any` accepts
  more than the model: thousands separators, currency symbols, exponents,
  parentheses, surrounding whitespace, and a trailing sign ("5-" reads as −5).
  The range limit of `decimal` is not modelled either. The model accepts an
  optional leading sign and digits with an optional fraction.
- **Storage formats.** SQLite stores amounts as REAL and compares dates as ISO
  strings. The model keeps exact amounts and compares dates in calendar order.
- **Null descriptions.** A null description, read back from the nullable column,
  is not modelled; descriptions are strings.
- **Casing.** Upper- and lower-casing cover the Latin and Russian alphabets
  only, not other culture-specific casing. `StartsWith("/")`, which compares by
  culture, is modelled as a test of the first character.
- **Exceptions.** Other exceptions caught by the update handler and the
  parser's `try` are not modelled: database failures, and the overflow of a
  32-bit id. Two failures are modelled as errors: the UNIQUE violation and an
  out-of-range `DateTime`.
- **Concurrency.** Concurrent updates are not modelled; each update is handled
  to completion.
- **Backup and restore.** Only their effect on the pending dictionary is
  modelled. Copying and downloading the database file and restarting the
  application are file and network work.
- **Other files.** `SqlQueryHandler` (arbitrary SQL over the database file),
  `Program.cs` (configuration and start-up) and the static keyboards are not
  part of this model.
- PendingActions.PendingActionHandler.SetPendingAction: requires a code for
  ADD_CATEGORY to be a declared type code. The C# accepts any `int?` and only
  casts it when the name arrives; every caller in the code stores a declared
  code.
- Navigation.Decode: is a reader defined only in the model, to prove the
  callback data injective. The bot has no such reader.
- Reports.MonthWindow: keeps the source's end bound, midnight at the start of
  the last day. It does not include the rest of that day.

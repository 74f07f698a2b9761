/**
 * The callback handler: inline-button data mapped to a handler call. The type
 * buttons of the category dialog act as if the keyword had been typed.
 */
module Callbacks {
  import opened Wrappers
  import opened Models
  import opened Store
  import opened PendingActions
  import opened Navigation
  import opened Commands

  datatype CallbackAction = ShowIncome | ChooseIncome | ChooseExpense | Ignored

  /** The callback handler's switch on the button data. */
  function CallbackOf(data: string): (a: CallbackAction)
    ensures a == ShowIncome <==> data == "income_categories"
    ensures a == ChooseIncome <==> data == "income_categorie_selected"
    ensures a == ChooseExpense <==> data == "expance_categorie_selected"
    ensures a == Ignored <==> data !in {"income_categories", "income_categorie_selected", "expance_categorie_selected"}
  {
    if data == "income_categories" then ShowIncome
    else if data == "income_categorie_selected" then ChooseIncome
    else if data == "expance_categorie_selected" then ChooseExpense
    else Ignored
  }

  /** No report button's data is among the cases: those buttons are answered and do nothing. */
  lemma ReportButtonsIgnored(t: Token)
    ensures CallbackOf(Encode(t)) == Ignored
  {
    var s := Encode(t);
    assert s[0] in {'d', 'b', 'c', 's', 'n'};
  }

  datatype CallbackReply = IncomeCategories(list: CommandReply) | TypeChosen(reply: DialogReply) | Unanswered

  /**
   * HandleCallbackQuery: the type buttons set this chat's entry to the name step
   * of the chosen type, whatever it was before; the income-list button only
   * reads the store; anything else does nothing.
   */
  method HandleCallbackQuery(h: PendingActionHandler, store: BudgetStore, chatId: int, data: string)
    returns (reply: CallbackReply)
    requires h.Valid() && store.Valid()
    modifies h
    ensures h.Valid()
    ensures CallbackOf(data) == ChooseIncome ==>
              && h.pending == Updated(old(h.pending), chatId, Some(Pending(AddCategory, Some(Code(Income)))))
              && reply == TypeChosen(AskCategoryName(Income))
    ensures CallbackOf(data) == ChooseExpense ==>
              && h.pending == Updated(old(h.pending), chatId, Some(Pending(AddCategory, Some(Code(Expense)))))
              && reply == TypeChosen(AskCategoryName(Expense))
    ensures CallbackOf(data) == ShowIncome ==>
              h.pending == old(h.pending) && reply.IncomeCategories? && ListsCategories(reply.list, store.categories, Income)
    ensures CallbackOf(data) == Ignored ==> h.pending == old(h.pending) && reply == Unanswered
  {
    match CallbackOf(data) {
      case ShowIncome =>
        var list := ShowCategories(store, Income);
        reply := IncomeCategories(list);
      case ChooseIncome =>
        var r := h.HandleCategoryTypeSelection(chatId, IncomeKeyword);
        reply := TypeChosen(r);
      case ChooseExpense =>
        var r := h.HandleCategoryTypeSelection(chatId, ExpenseKeyword);
        reply := TypeChosen(r);
      case Ignored =>
        reply := Unanswered;
    }
  }
}

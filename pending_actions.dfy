/**
 * The per-chat pending-action state machine that turns separate messages into
 * the two-step "choose a type, then enter a name" category dialog.
 */
module PendingActions {
  import opened Wrappers
  import opened Models
  import opened Text
  import opened Store

  const SelectCategoryTypeTag: string := "SELECT_CATEGORY_TYPE"
  const AddCategoryTag: string := "ADD_CATEGORY"
  /** The tag the backup code stores while it waits for a database file. */
  const WaitingRestoreFileTag: string := "WAITING_RESTORE_FILE"

  /** The action a chat is waiting on; tags this handler does not know are kept opaque. */
  datatype Action = SelectCategoryType | AddCategory | Other(tag: string)

  /** The action a string tag denotes. */
  function ActionOfTag(tag: string): (a: Action)
    ensures a.Other? <==> tag != SelectCategoryTypeTag && tag != AddCategoryTag
  {
    if tag == SelectCategoryTypeTag then SelectCategoryType
    else if tag == AddCategoryTag then AddCategory
    else Other(tag)
  }

  function TagOf(a: Action): string
  {
    match a
    case SelectCategoryType => SelectCategoryTypeTag
    case AddCategory => AddCategoryTag
    case Other(tag) => tag
  }

  /** Tags and actions are in one-to-one correspondence. */
  lemma TagRoundTrip(tag: string, a: Action)
    ensures TagOf(ActionOfTag(tag)) == tag
    ensures a.Other? ==> a.tag != SelectCategoryTypeTag && a.tag != AddCategoryTag ==> ActionOfTag(TagOf(a)) == a
  {
  }

  /**
   * A chat's entry: the action and the `int?` slot beside it, which during the
   * dialog holds the code of the chosen type.
   */
  datatype Pending = Pending(action: Action, code: Option<int>)

  /** An ADD_CATEGORY entry holds no code or the code of a declared type. */
  predicate WellFormed(p: Pending)
  {
    p.action == AddCategory && p.code.Some? ==> FromCode(p.code.value).Some?
  }

  const IncomeKeyword: string := "ДОХОД"
  const ExpenseKeyword: string := "РАСХОД"
  const CancelKeyword: string := "ОТМЕНА"

  /** The texts that cancel the name step instead of naming a category. */
  predicate IsDialogKeyword(text: string)
  {
    text == IncomeKeyword || text == ExpenseKeyword || text == CancelKeyword
  }

  /** The type a keyword of the selection step chooses: exactly the two keywords choose one. */
  function SelectedType(text: string): (r: Option<TransactionType>)
    ensures r == Some(Expense) <==> text == ExpenseKeyword
    ensures r == Some(Income) <==> text == IncomeKeyword
    ensures r.None? <==> text != ExpenseKeyword && text != IncomeKeyword
  {
    if text == ExpenseKeyword then Some(Expense)
    else if text == IncomeKeyword then Some(Income)
    else None
  }

  /** `(TransactionType)(code ?? 0)`: the type a stored code denotes, Expense when there is none. */
  function StoredType(code: Option<int>): (t: TransactionType)
    requires code.Some? ==> FromCode(code.value).Some?
    ensures code.Some? ==> Code(t) == code.value
    ensures code.None? ==> t == DefaultType()
  {
    match code
    case None => FromCode(0).value
    case Some(c) => FromCode(c).value
  }

  /** What a step does besides updating the chat's entry. */
  datatype Effect =
    | NoEffect
    | PromptForName(ctype: TransactionType)
    | ShowMainMenu
    | Cancelled
    | CreateCategory(name: string, ctype: TransactionType)

  datatype StepResult = StepResult(next: Option<Pending>, effect: Effect)

  /**
   * HandleCategoryTypeSelection as a transition, independent of the current
   * entry: a type keyword stores (ADD_CATEGORY, its code) and asks for a name;
   * any other text clears the entry and returns to the main menu.
   */
  function TypeSelectionStep(text: string): (r: StepResult)
    ensures r.next.Some? ==> WellFormed(r.next.value) && r.next.value.action == AddCategory
    ensures r.next.Some? <==> SelectedType(text).Some?
    ensures r.next.Some? ==> r.next.value.code == Some(Code(SelectedType(text).value))
  {
    match SelectedType(text)
    case Some(t) =>
      CodeRoundTrip(t);
      StepResult(Some(Pending(AddCategory, Some(Code(t)))), PromptForName(t))
    case None => StepResult(None, ShowMainMenu)
  }

  /**
   * HandlePendingAction as a transition on one chat's entry: nothing happens
   * without an entry or for an action the handler does not know; the selection
   * step is TypeSelectionStep; the name step always clears the entry and
   * either cancels on a keyword or creates the upper-cased name with the
   * stored type.
   */
  function Step(entry: Option<Pending>, text: string): (r: StepResult)
    requires entry.Some? ==> WellFormed(entry.value)
    ensures r.next.Some? ==> WellFormed(r.next.value)
  {
    match entry
    case None => StepResult(None, NoEffect)
    case Some(p) =>
      match p.action
      case SelectCategoryType => TypeSelectionStep(text)
      case AddCategory =>
        if IsDialogKeyword(text) then StepResult(None, Cancelled)
        else StepResult(None, CreateCategory(ToUpper(text), StoredType(p.code)))
      case Other(_) => StepResult(entry, NoEffect)
  }

  /** The name step leaves the chat idle on every path. */
  lemma NameStepLeavesIdle(p: Pending, text: string)
    requires WellFormed(p) && p.action == AddCategory
    ensures Step(Some(p), text).next == None
    ensures Step(Some(p), text).effect == Cancelled <==> IsDialogKeyword(text)
  {
  }

  /** An action owned by another workflow, such as the restore wait, absorbs the text and stays. */
  lemma OtherActionUntouched(tag: string, code: Option<int>, text: string)
    ensures Step(Some(Pending(Other(tag), code)), text) == StepResult(Some(Pending(Other(tag), code)), NoEffect)
  {
  }

  /**
   * The whole dialog: after choosing a type by its keyword, any name that is not
   * a keyword creates one category of exactly that type under the upper-cased
   * name, and the chat is idle again.
   */
  lemma DialogCreatesChosenType(t: TransactionType, name: string)
    requires t == Expense || t == Income
    requires !IsDialogKeyword(name)
    ensures var keyword := if t == Income then IncomeKeyword else ExpenseKeyword;
            var first := Step(Some(Pending(SelectCategoryType, None)), keyword);
            && first == StepResult(Some(Pending(AddCategory, Some(Code(t)))), PromptForName(t))
            && Step(first.next, name) == StepResult(None, CreateCategory(ToUpper(name), t))
  {
    CodeRoundTrip(t);
  }

  /** The keywords are compared as written: the lower-case "доход" is a name and becomes the category "ДОХОД". */
  lemma LowerCaseKeywordIsAName()
    ensures Step(Some(Pending(AddCategory, Some(Code(Income)))), "доход")
         == StepResult(None, CreateCategory("ДОХОД", Income))
  {
    var u := ToUpper("доход");
    assert u[0] == 'Д' && u[1] == 'О' && u[2] == 'Х' && u[3] == 'О' && u[4] == 'Д';
    assert u == "ДОХОД";
  }

  /** A map with one chat's entry set to `next` (removed when None), every other chat untouched. */
  function Updated(m: map<int, Pending>, chatId: int, next: Option<Pending>): (r: map<int, Pending>)
    ensures chatId in r <==> next.Some?
    ensures next.Some? ==> r[chatId] == next.value
    ensures forall c :: c != chatId ==> (c in r <==> c in m)
    ensures forall c :: c != chatId && c in m ==> r[c] == m[c]
  {
    match next
    case None => m - {chatId}
    case Some(p) => m[chatId := p]
  }

  /** The reply a handled message produces. */
  datatype DialogReply =
    | NoReply
    | AskCategoryName(ctype: TransactionType)
    | MainMenuShown
    | OperationCancelled
    | CategoryCreated(id: int, name: string, ctype: TransactionType)
    | CreationFailed(error: StoreError)

  /**
   * What feeding a text to a chat's dialog does: the chat's entry becomes what
   * Step gives, and the categories change exactly as Step's effect says, a
   * name already stored being refused with nothing added.
   */
  predicate DialogOutcome(pending: map<int, Pending>, pending': map<int, Pending>,
                          categories: seq<CategoryRow>, categories': seq<CategoryRow>,
                          chatId: int, text: string, reply: DialogReply)
    requires chatId in pending ==> WellFormed(pending[chatId])
  {
    var step := Step(if chatId in pending then Some(pending[chatId]) else None, text);
    && pending' == Updated(pending, chatId, step.next)
    && match step.effect
       case CreateCategory(name, t) =>
         (if HasName(categories, name)
          then reply == CreationFailed(DuplicateCategoryName(name)) && categories' == categories
          else (reply.CategoryCreated? && reply.name == name && reply.ctype == t
                && categories' == categories + [CategoryRow(reply.id, name, t)]))
       case NoEffect => reply == NoReply && categories' == categories
       case PromptForName(t) => reply == AskCategoryName(t) && categories' == categories
       case ShowMainMenu => reply == MainMenuShown && categories' == categories
       case Cancelled => reply == OperationCancelled && categories' == categories
  }

  /** The handler and its dictionary from chat id to pending entry. */
  class PendingActionHandler {
    var pending: map<int, Pending>

    ghost predicate Valid()
      reads this
    {
      forall c :: c in pending ==> WellFormed(pending[c])
    }

    constructor ()
      ensures Valid() && pending == map[]
    {
      pending := map[];
    }

    /** Whether the chat is in the middle of a dialog; its entry then says which step. */
    function HasPendingAction(chatId: int): (has: bool)
      reads this
      ensures has <==> GetPendingAction(chatId).0.Some?
    {
      chatId in pending
    }

    /**
     * The entry of a chat, or (null, null) when it has none; in a valid handler
     * an ADD_CATEGORY entry's code is a declared type code.
     */
    function GetPendingAction(chatId: int): (e: (Option<Action>, Option<int>))
      reads this
      ensures e.0.None? ==> e.1.None?
      ensures chatId in pending ==> e.0 == Some(pending[chatId].action) && e.1 == pending[chatId].code
      ensures chatId !in pending ==> e == (None, None)
      ensures Valid() && e.0 == Some(AddCategory) && e.1.Some? ==> FromCode(e.1.value).Some?
    {
      if chatId in pending then (Some(pending[chatId].action), pending[chatId].code) else (None, None)
    }

    /** A chat has a pending action exactly when its entry is not (null, null). */
    lemma GetAgreesWithHas(chatId: int)
      ensures HasPendingAction(chatId) <==> GetPendingAction(chatId).0.Some?
      ensures !HasPendingAction(chatId) ==> GetPendingAction(chatId) == (None, None)
    {
    }

    /** Overwrites this chat's entry; other chats are unchanged. */
    method SetPendingAction(chatId: int, tag: string, code: Option<int>)
      requires Valid()
      requires WellFormed(Pending(ActionOfTag(tag), code))
      modifies this
      ensures Valid()
      ensures pending == Updated(old(pending), chatId, Some(Pending(ActionOfTag(tag), code)))
    {
      pending := pending[chatId := Pending(ActionOfTag(tag), code)];
    }

    /** Removes this chat's entry if it has one; other chats are unchanged. */
    method RemovePendingAction(chatId: int)
      requires Valid()
      modifies this
      ensures Valid()
      ensures pending == Updated(old(pending), chatId, None)
    {
      if chatId in pending {
        pending := pending - {chatId};
      }
    }

    /** The selection step, whatever the chat's current entry. */
    method HandleCategoryTypeSelection(chatId: int, text: string) returns (reply: DialogReply)
      requires Valid()
      modifies this
      ensures Valid()
      ensures pending == Updated(old(pending), chatId, TypeSelectionStep(text).next)
      ensures reply == (match SelectedType(text) case Some(t) => AskCategoryName(t) case None => MainMenuShown)
    {
      var selected := SelectedType(text);
      match selected {
        case None =>
          RemovePendingAction(chatId);
          return MainMenuShown;
        case Some(t) =>
          CodeRoundTrip(t);
          pending := pending[chatId := Pending(AddCategory, Some(Code(t)))];
          return AskCategoryName(t);
      }
    }

    /**
     * Feeds a text to the chat's pending dialog: the entry becomes what Step
     * gives, and a category is created in the store exactly when Step's effect
     * says so (a duplicate name is rejected by the store, the entry is
     * cleared all the same).
     */
    method HandlePendingAction(store: BudgetStore, chatId: int, text: string) returns (reply: DialogReply)
      requires Valid() && store.Valid()
      modifies this, store
      ensures Valid() && store.Valid()
      ensures store.transactions == old(store.transactions)
      ensures DialogOutcome(old(pending), pending, old(store.categories), store.categories, chatId, text, reply)
    {
      if chatId !in pending {
        return NoReply;
      }
      var entry := pending[chatId];
      match entry.action {
        case SelectCategoryType =>
          reply := HandleCategoryTypeSelection(chatId, text);
        case AddCategory =>
          RemovePendingAction(chatId);
          if text == IncomeKeyword || text == ExpenseKeyword || text == CancelKeyword {
            return OperationCancelled;
          }
          var ctype := StoredType(entry.code);
          var name := ToUpper(text);
          var added := store.AddCategory(name, ctype);
          match added {
            case Ok(id) => reply := CategoryCreated(id, name, ctype);
            case Err(e) => reply := CreationFailed(e);
          }
        case Other(_) =>
          reply := NoReply;
      }
    }

    /** The /addcategory prompt: the chat now waits for a type. */
    method ShowCategoryTypeSelection(chatId: int)
      requires Valid()
      modifies this
      ensures Valid()
      ensures pending == Updated(old(pending), chatId, Some(Pending(SelectCategoryType, None)))
    {
      pending := pending[chatId := Pending(SelectCategoryType, None)];
    }
  }
}

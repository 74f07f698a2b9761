/**
 * The update loop's routing: non-text updates are dropped; a chat with a
 * pending action has its text handled by the dialog alone; otherwise a text
 * starting with '/' is a command and anything else a transaction. Failures
 * become an error reply.
 */
module Bot {
  import opened Wrappers
  import opened Models
  import opened Store
  import opened Budget
  import opened PendingActions
  import opened Commands

  /** An incoming update: a text message in a chat, or anything else. */
  datatype Update = TextMessage(chatId: int, text: string) | OtherUpdate

  datatype Route = Dropped | ToDialog | ToCommand | ToParser

  /** Where an update goes, given the chats that have a pending action. */
  function RouteOf(u: Update, pending: map<int, Pending>): (r: Route)
    ensures r == Dropped <==> u.OtherUpdate?
    ensures r == ToDialog <==> u.TextMessage? && u.chatId in pending
    ensures r == ToCommand <==> u.TextMessage? && u.chatId !in pending && u.text != [] && u.text[0] == '/'
    ensures r == ToParser <==> u.TextMessage? && u.chatId !in pending && (u.text == [] || u.text[0] != '/')
  {
    if u.OtherUpdate? then Dropped
    else if u.chatId in pending then ToDialog
    else if |u.text| > 0 && u.text[0] == '/' then ToCommand
    else ToParser
  }

  /** The exceptions the update handler turns into an error reply. */
  datatype Failure = DuplicateName(name: string) | DateFailure

  datatype BotReply =
    | Silent
    | DialogStep(dialog: DialogReply)
    | CommandDone(command: CommandReply)
    | TransactionDone(transaction: TransactionReply)
    | ErrorReply(failure: Failure)

  /** The entry a chat's dialog moves to on a text. */
  function NextEntry(pending: map<int, Pending>, chatId: int, text: string): Option<Pending>
    requires chatId in pending && WellFormed(pending[chatId])
  {
    Step(Some(pending[chatId]), text).next
  }

  /**
   * HandleUpdateAsync: each route's reply and new state are those of the
   * handler it calls. A duplicate category name, which the source raises as
   * an exception, becomes the error reply; so does a /report whose month
   * before now does not exist. The dialog never stores a transaction, a
   * command never changes the store, the parser never changes the pending map
   * or the categories.
   */
  method HandleUpdate(h: PendingActionHandler, store: BudgetStore, u: Update, now: DateTime) returns (reply: BotReply)
    requires h.Valid() && store.Valid() && ValidDate(now)
    modifies h, store
    ensures h.Valid() && store.Valid()
    ensures RouteOf(u, old(h.pending)) == Dropped ==>
              && reply == Silent && h.pending == old(h.pending)
              && store.categories == old(store.categories) && store.transactions == old(store.transactions)
    ensures RouteOf(u, old(h.pending)) == ToDialog ==>
              && store.transactions == old(store.transactions)
              && ((reply.DialogStep? && !reply.dialog.CreationFailed?) || (reply.ErrorReply? && reply.failure.DuplicateName?))
              && DialogOutcome(old(h.pending), h.pending, old(store.categories), store.categories, u.chatId, u.text,
                               if reply.ErrorReply? then CreationFailed(DuplicateCategoryName(reply.failure.name)) else reply.dialog)
              && (reply.ErrorReply? <==>
                    var effect := Step(Some(old(h.pending)[u.chatId]), u.text).effect;
                    effect.CreateCategory? && HasName(old(store.categories), effect.name))
    ensures RouteOf(u, old(h.pending)) == ToCommand ==>
              && store.categories == old(store.categories) && store.transactions == old(store.transactions)
              && (reply.CommandDone? || reply == ErrorReply(DateFailure))
              && CommandOutcome(old(h.pending), h.pending, store.categories, store.transactions, u.chatId, u.text, now,
                                if reply.CommandDone? then Ok(reply.command) else Err(DateOutOfRange))
    ensures RouteOf(u, old(h.pending)) == ToParser ==>
              && h.pending == old(h.pending) && store.categories == old(store.categories)
              && reply.TransactionDone?
              && TransactionOutcome(store.categories, old(store.transactions), store.transactions, u.text, now, reply.transaction)
  {
    if u.OtherUpdate? {
      return Silent;
    }
    if h.HasPendingAction(u.chatId) {
      var d := h.HandlePendingAction(store, u.chatId, u.text);
      if d.CreationFailed? {
        return ErrorReply(DuplicateName(d.error.name));
      }
      return DialogStep(d);
    }
    if |u.text| > 0 && u.text[0] == '/' {
      var c := HandleCommand(h, store, u.chatId, u.text, now);
      match c {
        case Ok(x) => reply := CommandDone(x);
        case Err(_) => reply := ErrorReply(DateFailure);
      }
      return;
    }
    var t := ProcessTransactionMessage(store, u.text, now);
    reply := TransactionDone(t);
  }

  /**
   * After /restore the chat waits for a file, and nothing ever ends the wait:
   * a file is not a text message and is dropped, and every text is absorbed
   * by the wait without changing it.
   */
  lemma RestoreWaitIsPermanent(pending: map<int, Pending>, chatId: int, u: Update)
    requires chatId in pending && pending[chatId] == Pending(Other(WaitingRestoreFileTag), None)
    requires u.OtherUpdate? || u.chatId == chatId
    ensures RouteOf(u, pending) == Dropped || RouteOf(u, pending) == ToDialog
    ensures RouteOf(u, pending) == ToDialog ==>
              Step(Some(pending[chatId]), u.text) == StepResult(Some(pending[chatId]), NoEffect)
              && Updated(pending, chatId, NextEntry(pending, chatId, u.text)) == pending
  {
  }

  /** With a pending action, even a command text goes to the dialog. */
  lemma DialogBeforeCommands(pending: map<int, Pending>, chatId: int, text: string)
    requires chatId in pending
    ensures RouteOf(TextMessage(chatId, text), pending) == ToDialog
  {
  }
}

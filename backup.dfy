/**
 * The restore workflow's effect on the pending-action map; copying,
 * downloading and restarting are file and network work and are not modelled.
 */
module Backup {
  import opened Wrappers
  import opened PendingActions

  /** RequestDatabaseRestore: the chat now waits for a database file. */
  method RequestDatabaseRestore(h: PendingActionHandler, chatId: int)
    requires h.Valid()
    modifies h
    ensures h.Valid()
    ensures h.pending == Updated(old(h.pending), chatId, Some(Pending(Other(WaitingRestoreFileTag), None)))
  {
    h.SetPendingAction(chatId, WaitingRestoreFileTag, None);
  }

  /** The end of HandleDatabaseRestore: whether or not the restore succeeded, the wait is over. */
  method FinishDatabaseRestore(h: PendingActionHandler, chatId: int)
    requires h.Valid()
    modifies h
    ensures h.Valid()
    ensures h.pending == Updated(old(h.pending), chatId, None)
  {
    h.RemovePendingAction(chatId);
  }
}

/** The records the email service hands to the client, reduced to the fields the
    client logic reads. Nullable fields are `Option`s; timestamps are integers in
    milliseconds. */
module Emails {
  import opened Wrappers

  datatype Email = Email(
    id: int,
    mailboxId: int,
    fromEmail: string,
    fromName: Option<string>,
    subject: Option<string>,
    snippet: Option<string>,
    aiSummary: Option<string>,
    receivedAt: int,
    isRead: bool,
    isStarred: bool,
    hasAttachments: bool,
    category: string,
    /** The server's task status: normally one of `none`, `todo`, `in_progress`,
        `done`, but any other string can arrive and is handled. */
    taskStatus: string,
    isSnoozed: bool,
    snoozedUntil: Option<int>)

  /** Background ingestion state of a connected mailbox. */
  datatype SyncStatus = Idle | Pending | Syncing | Synced | SyncError

  datatype Mailbox = Mailbox(id: int, email: string, syncStatus: SyncStatus, totalEmails: nat)
}

# Email kanban client: state and decision layer in Dafny

This project models the client-side logic of an email client that shows a
mailbox as a kanban board. The logic covered:

- how loaded emails are partitioned into the four board columns;
- the optimistic drag-and-drop move, its remote status update and its rollback;
- the UI query store (view mode, search query, merged filters, sorting) and the
  filtering/sorting toolbar;
- the polling, `enabled` and cache-invalidation decisions of the email hooks;
- the board-settings dialog (sorted local columns, per-field edits,
  update-on-blur, add/delete/initialise gates);
- the board page's mailbox auto-selection;
- the compose dialog's prefill and send validation;
- the search results' relative dates and display fallbacks;
- the navigation bar's initials;
- the mock authentication backend, the authentication store with its stored
  refresh token, and the authentication hooks' session lifecycle.

Everything is written as immutable datatypes and pure functions, with one
module per source file of the core:

| module | models |
|---|---|
| `KanbanBoard` | `KanbanBoard.tsx` |
| `UiStore` | `uiStore.ts` |
| `FilterToolbar` | `FilteringSortingToolbar.tsx` |
| `EmailQueries` | `useEmail.ts` |
| `KanbanSettings` | `KanbanSettingsModal.tsx` |
| `KanbanPage` | `Kanban.tsx` |
| `ComposeEmail` | `ComposeEmailModal.tsx` |
| `SearchResults` | `SearchResults.tsx` |
| `Navigation` | `Navigation.tsx` |
| `MockAuthApi` | `mockAuthApi.ts` |
| `AuthStore` | `authStore.ts` |
| `AuthHooks` | `useAuth.ts` |

Three shared modules support them:

- `Wrappers`: `Option`/`Result`. JavaScript's `null` and `undefined` become
  `None`; thrown errors and refused actions become `Failure`.
- `Strings`: the JavaScript string operations the code uses, over `seq<char>`.
- `Emails`: the email and mailbox records.

Some inputs are parameters rather than modelled:

- The clock: `now` and elapsed milliseconds are integers.
- Randomness: the random and time-derived tails of tokens and user ids are
  `nonce` and `userId` strings, so a token is `prefix + "_" + nonce`.
- `localStorage`: the refresh-token entry is the `storedRefresh` field of the
  session.
- The user's answer to a confirmation dialog: a boolean.
- Outcomes: each remote call is a single success or failure.

Two points where the code does not do what its own comments say it is for,
with the model following the code:

- **Toggling a filter off.** The comment at
  `src/components/toolbar/FilteringSortingToolbar.tsx:42` reads "Remove filter
  if clicking the same value". But `handleToggleFilter` hands a copy without the
  key to `setFilters`, and `setFilters` merges that copy into the current
  filters (`src/store/uiStore.ts:72-76`), so the key survives.
  `FilterToolbar.ToggleFilter` models this; see the first finding.
- **Logging out.** The comment at `src/hooks/useAuth.ts:104` says a real app
  would call an endpoint to invalidate the refresh token; the call is commented
  out and `useLogout` never reaches the backend's `logout`. The backend
  therefore keeps accepting the refresh token after a client logout.
  `AuthHooks.LogoutKeepsBackendToken` states this.

An unknown source column makes `sourceColumn.find` throw, and an unknown
destination column makes `Array.from(undefined)` throw before the status
lookup. `KanbanBoard.HandleDragEnd` returns `Thrown` exactly in these two cases. The
`|| 'none'` default of the status lookup still holds for the lookup alone
(`KanbanBoard.StatusForColumn`).

Each configurable column carries a Gmail label binding, which the settings
dialog edits and sends (`KanbanSettings.Column.gmailLabelId`). The board itself
never reads it: `KanbanBoard.tsx` places emails by task status and snooze time
only, so the model's board has no label-driven placement. The list has no
keyboard navigation, so none is modelled.

## Model

| member | source | states |
|---|---|---|
| KanbanBoard.ColumnFor | src/components/kanban/KanbanBoard.tsx:46-60 | `todo`, `in_progress` and `done` select the column of the same name; `none` and every other status select `inbox`; the result is always one of the four column ids |
| KanbanBoard.ColumnContents | src/components/kanban/KanbanBoard.tsx:40-61 | reference contents of one column: only input emails that are not snoozed into the future and whose status selects that column, never more than the input |
| KanbanBoard.Organize | src/components/kanban/KanbanBoard.tsx:32-64 | the one-pass effect builds a board with exactly the four columns, each equal to its reference contents in input order |
| KanbanBoard.PartitionSnoc | src/components/kanban/KanbanBoard.tsx:40-61 | one more email appends to the end of the column its status selects and changes no other column; a snoozed one changes nothing |
| KanbanBoard.PartitionIsExact | src/components/kanban/KanbanBoard.tsx:40-61 | the board holds exactly the visible emails, each as often as in the input: nothing lost, nothing duplicated |
| KanbanBoard.PartitionPlacesEachEmail | src/components/kanban/KanbanBoard.tsx:42-60 | a visible email is in the column its status selects and in no other; an email with `snoozedUntil` after `now` is in no column; `isSnoozed` plays no part |
| KanbanBoard.FindById | src/components/kanban/KanbanBoard.tsx:87-88 | the email found has the dragged id and is in the column; nothing is found exactly when no email there has that id |
| KanbanBoard.SpliceRemove | src/components/kanban/KanbanBoard.tsx:91-92 | an in-range index drops exactly that element and keeps the rest in order; an index past the end changes nothing |
| KanbanBoard.SpliceInsert | src/components/kanban/KanbanBoard.tsx:94-95 | the new email sits at an in-range index with the elements before and after it kept; the column gains exactly that email |
| KanbanBoard.StatusForColumn | src/components/kanban/KanbanBoard.tsx:103-105 | a drop persists the destination column's configured status, `none` for the inbox and for an unknown column id |
| KanbanBoard.StatusAgreesWithPartition | src/components/kanban/KanbanBoard.tsx:104-105 | the persisted status sends the email back to the column it was dropped in when the board re-partitions |
| KanbanBoard.HandleDragEnd | src/components/kanban/KanbanBoard.tsx:66-105 | no destination, the same position, or an id missing from the source column are ignored; it throws exactly when the source column is unknown, or the email is found and the destination column is unknown; otherwise it moves. A move requests the destination's status for the dragged id and captures the board and both columns. The destination becomes the captured column with the found email spliced in at the destination index; in a cross-column move the source becomes the captured column spliced at the source index. Every other column is unchanged |
| KanbanBoard.MisplacedIndexMove | src/components/kanban/KanbanBoard.tsx:87-95 | the removal uses `source.index`, not the position `find` located: when that index holds a different email, the cross-column move drops that email from the board, the dragged email stays in its source column, and the destination gains a copy, so the board loses the one email and gains the other |
| KanbanBoard.FaithfulDropMoves | src/components/kanban/KanbanBoard.tsx:82-105 | a drop whose source index points at the dragged email reaches the optimistic update: removal at the source index, insertion of that email at the destination index |
| KanbanBoard.CrossColumnMove | src/components/kanban/KanbanBoard.tsx:91-101 | a faithful cross-column drop removes the email from its position, inserts it at the destination position, keeps the four columns, and keeps the board's emails exactly |
| KanbanBoard.Settle | src/components/kanban/KanbanBoard.tsx:108-128 | a successful remote update keeps the board; a drop that did not move leaves it alone |
| KanbanBoard.RollbackRestores | src/components/kanban/KanbanBoard.tsx:114-120 | after a failed remote update the board equals the board before the drag exactly |
| KanbanBoard.BoardAfterDrop | src/components/kanban/KanbanBoard.tsx:70-101 | an ignored or throwing drop leaves the board as it was; every drop keeps the board's column ids; a drop that moves puts the found email into the destination column |
| KanbanBoard.DropKeepsBoard | src/components/kanban/KanbanBoard.tsx:76-101 | for a well-formed drop: a cross-column move keeps the board's emails exactly; as written, a reorder inside one column adds a second copy of the dragged email; dropping in place changes nothing |
| KanbanBoard.SameColumnDropDuplicates | src/components/kanban/KanbanBoard.tsx:97-101 | as written, a reorder inside one column leaves that column one longer and the board with a second copy of the email |
| KanbanBoard.SameColumnDropExample | src/components/kanban/KanbanBoard.tsx:91-101 | as written, dragging the top inbox email of `[a, b]` down one place gives `[a, a, b]` |
| KanbanBoard.HandleDragEndFixed | src/components/kanban/KanbanBoard.tsx:91-101 | corrected handler: identical to the original for cross-column drops and for drops the original ignores or throws on |
| KanbanBoard.FixedReorderBoard | src/components/kanban/KanbanBoard.tsx:91-101 | corrected handler, reorder inside one column: that column is spliced for the removal and then for the insertion; no other column changes |
| KanbanBoard.SameColumnReorderFixed | src/components/kanban/KanbanBoard.tsx:91-101 | corrected handler: a reorder permutes its column and keeps the board's emails exactly |
| UiStore.SetViewMode | src/store/uiStore.ts:50-51 | sets the view mode and nothing else |
| UiStore.SetSearchQuery | src/store/uiStore.ts:54-61 | always stores the query; switches to the search view exactly when the query has a non-white-space character; otherwise the view is unchanged |
| UiStore.ClearSearch | src/store/uiStore.ts:62-68 | empty query, board view, not searching; nothing else changes |
| UiStore.ClearSearchForgetsQuery | src/store/uiStore.ts:54-68 | clearing after any query is the same as clearing directly, and clearing is idempotent |
| UiStore.SetFilters | src/store/uiStore.ts:71-76 | right-biased merge: argument keys take the argument's values, every other key keeps its presence and value |
| UiStore.SetFiltersComposes | src/store/uiStore.ts:72-76 | two merges equal one merge of the merged arguments; merging nothing changes nothing |
| UiStore.ClearFilters | src/store/uiStore.ts:77 | the filters become empty and nothing else changes |
| UiStore.HasActiveFilters | src/store/uiStore.ts:78-81 | true exactly when some key is present, whatever it holds |
| UiStore.ClearFiltersDeactivates | src/store/uiStore.ts:77-81 | after clearing, no filter is active |
| UiStore.SetSorting | src/store/uiStore.ts:84-86 | sets the sort field and order and nothing else |
| UiStore.SetIsSearching | src/store/uiStore.ts:89-90 | sets the searching flag and nothing else |
| UiStore.SetSelectedMailboxId | src/store/uiStore.ts:93-94 | sets the selected mailbox and nothing else |
| UiStore.SettersIndependent | src/store/uiStore.ts:50-94 | the query, sort, searching flag and mailbox setters commute with one another, and a later write to a field overrides an earlier one |
| UiStore.InitialState | src/store/uiStore.ts:48-95 | board view, empty query, no active filter, received date descending, not searching, no mailbox |
| FilterToolbar.ToggleFilter | src/components/toolbar/FilteringSortingToolbar.tsx:40-49 | as written: choosing the value the key already reads as changes nothing at all; choosing another value sets the key and keeps the rest |
| FilterToolbar.ToggleTwiceKeepsFilter | src/components/toolbar/FilteringSortingToolbar.tsx:40-49 | as written: toggling an absent key to the same value twice leaves it set, so the filters differ from the original |
| FilterToolbar.ToggleTwiceExample | src/components/toolbar/FilteringSortingToolbar.tsx:51-53 | as written: choosing the "social" category twice from the start leaves the category filter on |
| FilterToolbar.ToggleFilterFixed | src/components/toolbar/FilteringSortingToolbar.tsx:40-49 | corrected toggle: choosing the current value removes exactly that key; any other value sets it; every other key and field is kept |
| FilterToolbar.ToggleTwiceRestores | src/components/toolbar/FilteringSortingToolbar.tsx:40-49 | corrected toggle: for an absent key, toggling the same value twice restores the original state |
| FilterToolbar.ActiveFiltersCount | src/components/toolbar/FilteringSortingToolbar.tsx:59 | the number of keys present; zero exactly when no filter is active |
| FilterToolbar.CheckboxChange | src/components/toolbar/FilteringSortingToolbar.tsx:109-124 | a checked box (key holds `true`) becomes a present key with no value; any other box becomes `true`; nothing else changes |
| FilterToolbar.UncheckKeepsKey | src/components/toolbar/FilteringSortingToolbar.tsx:109-110 | unchecking leaves the key present, so the active count does not drop |
| FilterToolbar.CheckUncheckCounts | src/components/toolbar/FilteringSortingToolbar.tsx:109-110 | checking an untouched box adds one to the count, and unchecking it again keeps that one |
| FilterToolbar.CategoryFilter | src/components/toolbar/FilteringSortingToolbar.tsx:51-53 | the category reads as the chosen one afterwards; every other key reads as before |
| FilterToolbar.TaskStatusFilter | src/components/toolbar/FilteringSortingToolbar.tsx:55-57 | the task status reads as the chosen one afterwards; every other key reads as before |
| FilterToolbar.CategoryReplaces | src/components/toolbar/FilteringSortingToolbar.tsx:51-57 | choosing a different category replaces the previous one and the active count stays the same |
| FilterToolbar.SortLabelIn | src/components/toolbar/FilteringSortingToolbar.tsx:35-38 | the label of the first option for the field, or "Sort By" when no option matches |
| FilterToolbar.SortLabels | src/components/toolbar/FilteringSortingToolbar.tsx:29-38 | each sort field shows its own label, so the fallback never shows |
| FilterToolbar.PickSortField | src/components/toolbar/FilteringSortingToolbar.tsx:239 | picking a field keeps the current order and changes nothing else |
| FilterToolbar.PickSortOrder | src/components/toolbar/FilteringSortingToolbar.tsx:247-256 | picking an order keeps the current field and changes nothing else |
| EmailQueries.AnyBusy | src/hooks/useEmail.ts:9-16 | true exactly when some mailbox is syncing or pending |
| EmailQueries.RefetchInterval | src/hooks/useEmail.ts:9-16 | 3000 ms exactly when data has arrived and some mailbox is syncing or pending; no polling otherwise, including before data |
| EmailQueries.PollingStopsWhenSettled | src/hooks/useEmail.ts:9-16 | once every mailbox is idle, synced or failed, polling stops |
| EmailQueries.EmailQueryEnabled | src/hooks/useEmail.ts:34 | the single-email query runs exactly for an id that is present and not 0 |
| EmailQueries.SearchEnabled | src/hooks/useEmail.ts:195 | fuzzy and semantic search run exactly when enabled and the query is non-empty |
| EmailQueries.SuggestionsEnabled | src/hooks/useEmail.ts:215 | suggestions are fetched exactly when enabled and the query has at least two characters |
| EmailQueries.SuggestionsImplySearch | src/hooks/useEmail.ts:195-215 | whenever suggestions are fetched, the search is enabled too |
| EmailQueries.AnyMatch | src/hooks/useEmail.ts:46-48 | a list of invalidation filters marks a key stale exactly when one of them is a prefix of it |
| EmailQueries.StaleByName | src/hooks/useEmail.ts:42-181 | with one-element filters, a query is marked stale exactly when its name is among the filters |
| EmailQueries.InvalidationSets | src/hooks/useEmail.ts:42-181 | updating, marking read and deleting refresh exactly `emails`, `email` and `mailboxes`; moving to a column refreshes only `emails`; every column mutation refreshes only `kanbanColumns` |
| EmailQueries.SearchNeverInvalidated | src/hooks/useEmail.ts:191-215 | no mutation marks search results or suggestions stale |
| KanbanSettings.InsertByOrder | src/components/kanban/KanbanSettingsModal.tsx:22-26 | inserting into a list sorted by order index keeps it sorted and adds exactly that column |
| KanbanSettings.SortByOrder | src/components/kanban/KanbanSettingsModal.tsx:22-26 | the result is sorted ascending by order index and is a permutation of the input |
| KanbanSettings.InsertStable | src/components/kanban/KanbanSettingsModal.tsx:22-26 | inserting a column puts it after every column already present with the same order index, and those keep their order |
| KanbanSettings.SortStable | src/components/kanban/KanbanSettingsModal.tsx:22-26 | the sort is stable, as JavaScript's `sort` is: for every order index, the columns carrying it keep their input order |
| KanbanSettings.SortedUnchanged | src/components/kanban/KanbanSettingsModal.tsx:22-26 | sorting a list already in order changes nothing, ties included |
| KanbanSettings.EqualOrderKept | src/components/kanban/KanbanSettingsModal.tsx:22-26 | two columns with the same order index come out in the order they went in, either way round |
| KanbanSettings.SyncLocal | src/components/kanban/KanbanSettingsModal.tsx:22-26 | a non-empty server list replaces the local copy by a sorted permutation of it; an empty one leaves the local copy unchanged |
| KanbanSettings.EditColumn | src/components/kanban/KanbanSettingsModal.tsx:119 | only columns with the edited id change, each by exactly the edit; length, order, ids and order indices are kept |
| KanbanSettings.EditIdempotent | src/components/kanban/KanbanSettingsModal.tsx:119 | applying the same edit twice is the same as once |
| KanbanSettings.FindColumn | src/components/kanban/KanbanSettingsModal.tsx:122 | the column found is a server column with the id; none exactly when no server column has it |
| KanbanSettings.NullIfEmpty | src/components/kanban/KanbanSettingsModal.tsx:38 | an empty or missing label becomes `null`; any other label is kept |
| KanbanSettings.BlurUpdate | src/components/kanban/KanbanSettingsModal.tsx:122-159 | a blur sends nothing exactly when the server column with that id holds the same value; otherwise an update of that field with the local value (label `null` when empty) |
| KanbanSettings.UntouchedBlurSendsNothing | src/components/kanban/KanbanSettingsModal.tsx:22-26 | right after a sync (unique ids), blurring any field of any column sends nothing |
| KanbanSettings.FindUnique | src/components/kanban/KanbanSettingsModal.tsx:122 | with unique ids, looking up a column's id finds that column |
| KanbanSettings.EditThenBlurTitle | src/components/kanban/KanbanSettingsModal.tsx:119-122 | typing a title and leaving the input sends it exactly when it differs from the server's title |
| KanbanSettings.AddColumn | src/components/kanban/KanbanSettingsModal.tsx:30-43 | a blank title is refused with "Title is required"; otherwise the title and color are sent as typed and an empty label as `null` |
| KanbanSettings.DraftAfterAdd | src/components/kanban/KanbanSettingsModal.tsx:30-49 | a refused title or a failed create keeps the typed form; a successful create resets it to an empty title and label and the default color |
| KanbanSettings.ResetFormRefused | src/components/kanban/KanbanSettingsModal.tsx:30-43 | the empty form is refused with "Title is required", so an add right after a successful create sends nothing; the form after an attempt can be sent exactly when the attempt was accepted but the create failed |
| KanbanSettings.DeleteRequest | src/components/kanban/KanbanSettingsModal.tsx:63-74 | a delete is sent, for that column's id, exactly when the column is not a default one and the user confirms |
| KanbanSettings.ShowInitializePrompt | src/components/kanban/KanbanSettingsModal.tsx:101 | the prompt shows exactly when loading has finished and there are no columns (a missing response counts as none) |
| KanbanPage.AutoSelect | src/pages/Kanban.tsx:14-18 | with nothing selected, the first mailbox is selected; an existing selection is kept; an empty list selects nothing |
| KanbanPage.AutoSelectSettles | src/pages/Kanban.tsx:14-18 | running the selection rule again changes nothing |
| KanbanPage.BoardEmails | src/pages/Kanban.tsx:26 | the board gets the page's emails, or none until the page arrives |
| KanbanPage.CurrentMailbox | src/pages/Kanban.tsx:27 | the first mailbox with the selected id; none when nothing is selected or no mailbox has it |
| KanbanPage.FirstMailboxShown | src/pages/Kanban.tsx:14-27 | once mailboxes load with nothing selected, the header names the first mailbox |
| ComposeEmail.PrefillTo | src/components/dashboard/ComposeEmailModal.tsx:35-40 | replies are addressed to the original sender when it has one; every other mode starts empty |
| ComposeEmail.PrefillCc | src/components/dashboard/ComposeEmailModal.tsx:42-47 | the cc field is prefilled only for reply-all to a message with a cc list; every other mode, and a reply-all without a cc list, starts empty; a single cc address is copied as it is |
| ComposeEmail.PrefillSubject | src/components/dashboard/ComposeEmailModal.tsx:49-57 | "Re: " for replies and "Fwd: " for forwards, before the original subject or nothing; empty for a new message |
| ComposeEmail.SubjectRoundTrip | src/components/dashboard/ComposeEmailModal.tsx:49-57 | a prefilled subject starts with its mode's prefix and, with the prefix dropped, reads back as the original subject; replying to a reply stacks a second "Re: " |
| ComposeEmail.PrefillBody | src/components/dashboard/ComposeEmailModal.tsx:59-66 | a new message starts empty; a reply or forward starts with the attribution line and the quoted text |
| ComposeEmail.Prefill | src/components/dashboard/ComposeEmailModal.tsx:35-68 | the cc row is open exactly for reply-all; a new message starts with every field empty |
| ComposeEmail.QuotedBodyKeepsOriginal | src/components/dashboard/ComposeEmailModal.tsx:59-66 | a quoted body starts with the separator and ends with the original text untouched |
| ComposeEmail.Tidy | src/components/dashboard/ComposeEmailModal.tsx:87 | the kept pieces are non-empty and trimmed, never more than the pieces split |
| ComposeEmail.SplitRecipients | src/components/dashboard/ComposeEmailModal.tsx:87-88 | every parsed recipient is non-empty, trimmed and free of commas |
| ComposeEmail.RecipientsRoundTrip | src/components/dashboard/ComposeEmailModal.tsx:87-88 | clean addresses joined with ", " parse back to the same list |
| ComposeEmail.ReplyAddressesSender | src/components/dashboard/ComposeEmailModal.tsx:35-40 | a prefilled reply parses to exactly the original sender |
| ComposeEmail.ReplyAllKeepsCc | src/components/dashboard/ComposeEmailModal.tsx:42-47 | a prefilled reply-all cc field parses to exactly the original cc list |
| ComposeEmail.ToHtml | src/components/dashboard/ComposeEmailModal.tsx:96 | the HTML body has no line feed left; a body without one is unchanged |
| ComposeEmail.ToHtmlLines | src/components/dashboard/ComposeEmailModal.tsx:96 | a body of lines becomes those lines joined with `<br>` |
| ComposeEmail.HandleSend | src/components/dashboard/ComposeEmailModal.tsx:72-112 | refused exactly for a missing or zero mailbox, then exactly for a blank recipient field; otherwise the request carries the parsed recipients, cc only for a non-empty field, "(No subject)" for an empty subject, the body unchanged and its HTML equal to `ToHtml` of the body (every line feed a `<br>`), and reply ids only for replies |
| ComposeEmail.CommaOnlyRecipientAccepted | src/components/dashboard/ComposeEmailModal.tsx:81-87 | as written, a recipient field of one comma passes the check and the request has no recipient |
| ComposeEmail.HandleSendFixed | src/components/dashboard/ComposeEmailModal.tsx:81-87 | corrected send: refused exactly when the parsed list is empty; every request has at least one clean recipient |
| ComposeEmail.FixedSendAgrees | src/components/dashboard/ComposeEmailModal.tsx:81-98 | the corrected send builds the same request whenever it accepts, and refuses beyond the original only requests with no recipient |
| ComposeEmail.BlankHasNoRecipient | src/components/dashboard/ComposeEmailModal.tsx:81-87 | a blank recipient field parses to no address |
| ComposeEmail.Title | src/components/dashboard/ComposeEmailModal.tsx:114-125 | each mode has its own heading, "New Message" exactly for a new message |
| SearchResults.SearchMailbox | src/components/search/SearchResults.tsx:18 | no selection and the id 0 both search every mailbox; any other selection is sent |
| SearchResults.ScreenFor | src/components/search/SearchResults.tsx:42-85 | spinner exactly while loading; else the error panel with the error's message or "Please try again."; else the empty screen exactly for no data or no items; else the list |
| SearchResults.AgeOf | src/components/search/SearchResults.tsx:23-37 | minutes under an hour, hours under a day, days under a week, a calendar date after; each count is the floor of the elapsed time in its unit |
| SearchResults.AgeMonotone | src/components/search/SearchResults.tsx:30-36 | an older email never shows a newer bucket, nor a smaller count in the same bucket |
| SearchResults.FormatDate | src/components/search/SearchResults.tsx:23-38 | a week or more shows the calendar date; under an hour, including a date in the future, the floored minute count followed by "m ago" |
| SearchResults.FormatDateMinutesReadsBack | src/components/search/SearchResults.tsx:29-32 | under an hour the label ends in "m ago"; for a past date the digits read back as the whole minutes elapsed, below 60; for a future date it starts with "-" and the digits read back as the minutes to go, rounded up |
| SearchResults.FormatDateReadsBack | src/components/search/SearchResults.tsx:33-36 | between an hour and a week the label is digits then "h ago" or "d ago", and the digits read back as the whole hours or days elapsed |
| SearchResults.ResultNoun | src/components/search/SearchResults.tsx:94 | "email" exactly for one result, "emails" otherwise |
| SearchResults.SenderLabel | src/components/search/SearchResults.tsx:124 | the sender's name when non-empty, else the address |
| SearchResults.AvatarInitial | src/components/search/SearchResults.tsx:114 | no initial (the source throws) exactly when both name and address are empty |
| SearchResults.AvatarMatchesSender | src/components/search/SearchResults.tsx:114-124 | the avatar letter is the upper-cased first character of the sender label shown beside it |
| SearchResults.SubjectLine | src/components/search/SearchResults.tsx:136 | the subject when non-empty, else "(No subject)"; never empty |
| SearchResults.PreviewLine | src/components/search/SearchResults.tsx:140 | the AI summary, else the snippet, else "No content preview"; never empty |
| SearchResults.StatusBadge | src/components/search/SearchResults.tsx:159-161 | hidden exactly for `none`; otherwise the same length, with the text before the first underscore unchanged, a space in place of that underscore, and everything after it unchanged, including later underscores; a status without an underscore is shown as it is |
| SearchResults.StatusBadges | src/components/search/SearchResults.tsx:159-161 | `in_progress` shows as "in progress"; only the first of two underscores is replaced |
| SearchResults.PageInfo | src/components/search/SearchResults.tsx:186-188 | the page line shows exactly when there is more than one page |
| Navigation.FirstChars | src/components/Navigation.tsx:24-25 | one character per piece when no piece is empty, each the piece's first; never longer than the pieces |
| Navigation.Initials | src/components/Navigation.tsx:20-28 | "?" for an empty name; otherwise at most two characters, a prefix of the upper-cased first characters of the space-separated pieces |
| Navigation.InitialsOfWords | src/components/Navigation.tsx:20-28 | a name of single-space-separated words gets the upper-cased first letters of its first two words |
| Navigation.DoubleSpaceIgnored | src/components/Navigation.tsx:22-26 | a double space between two words gives the same initials as a single space |
| Navigation.BlankNameHasNoInitials | src/components/Navigation.tsx:20-27 | a name of one space skips the "?" and yields no initials at all |
| MockAuthApi.Token | src/services/mockAuthApi.ts:22-24 | every generated token starts with its prefix and an underscore |
| MockAuthApi.EmailFormatOk | src/services/mockAuthApi.ts:38-41 | an accepted address has an "@" that is not its first character |
| MockAuthApi.EmailFormatMatchesPattern | src/services/mockAuthApi.ts:38-41 | the procedural check accepts exactly the language of `^[^\s@]+@[^\s@]+\.[^\s@]+$` |
| MockAuthApi.AcceptedShape | src/services/mockAuthApi.ts:38-41 | an accepted address has exactly one "@" and no white space |
| MockAuthApi.AddressAccepted | src/services/mockAuthApi.ts:38-41 | non-empty plain local part, host and top-level domain joined by "@" and "." are accepted |
| MockAuthApi.EmailAccepted | src/services/mockAuthApi.ts:38-41 | "ann@mail.com" is accepted |
| MockAuthApi.EmailRejected | src/services/mockAuthApi.ts:38-41 | no dot in the domain, a dot right after the "@", or a space are rejected |
| MockAuthApi.DisplayName | src/services/mockAuthApi.ts:58 | same length as the local part, first character upper-cased, the rest unchanged |
| MockAuthApi.Login | src/services/mockAuthApi.ts:34-61 | "Invalid email format" exactly when the address does not match; then the password-length error exactly for fewer than 6 characters; success exactly for a matching address with a password of at least 6 characters, and success registers the new refresh token and returns prefixed tokens and the user with that address |
| MockAuthApi.LoginNamesUser | src/services/mockAuthApi.ts:58 | a successful login names the user after the address's text before the first "@" |
| MockAuthApi.GoogleLogin | src/services/mockAuthApi.ts:64-85 | always succeeds with the fixed demo user, a new `access_` token and a new `refresh_` token, and registers that refresh token |
| MockAuthApi.Refresh | src/services/mockAuthApi.ts:88-101 | a new access token exactly for a registered refresh token; "Invalid refresh token" otherwise |
| MockAuthApi.ValidateToken | src/services/mockAuthApi.ts:104-109 | true exactly when the token starts with "access_" |
| MockAuthApi.IssuedTokensValidate | src/services/mockAuthApi.ts:104-109 | every issued access token validates and no refresh token does |
| MockAuthApi.Logout | src/services/mockAuthApi.ts:112-117 | the token stops being registered; every other token keeps its status |
| MockAuthApi.RefreshLifecycle | src/services/mockAuthApi.ts:88-117 | a login's refresh token refreshes until it is logged out and not after; logging it out leaves every other token's refresh unchanged |
| AuthStore.SetAccessToken | src/store/authStore.ts:36-38 | sets the token and the authenticated flag; the user and everything else are kept |
| AuthStore.SetUser | src/store/authStore.ts:40-42 | sets user, token and the authenticated flag; error, loading and storage are kept |
| AuthStore.LogoutStore | src/store/authStore.ts:44-55 | clears user, token, flag and error and removes the stored refresh token; loading is kept |
| AuthStore.ClearError | src/store/authStore.ts:57-59 | clears the error and nothing else |
| AuthStore.SetError | src/store/authStore.ts:61-63 | sets the error and ends loading; nothing else changes |
| AuthStore.SetLoading | src/store/authStore.ts:65-67 | sets the loading flag and nothing else |
| AuthStore.SetRefreshToken | src/store/authStore.ts:75-77 | the stored token reads back as the one set; nothing else changes |
| AuthStore.RemoveRefreshToken | src/store/authStore.ts:79-81 | no token is stored afterwards; nothing else changes |
| AuthStore.StorageRoundTrip | src/store/authStore.ts:71-81 | storing then reading gives the token; storing then removing equals removing |
| AuthStore.ApplyKeepsConsistent | src/store/authStore.ts:36-81 | every store action keeps "authenticated exactly when a token is held, and a user only when authenticated" |
| AuthStore.RunKeepsConsistent | src/store/authStore.ts:29-81 | from a consistent state, any sequence of actions keeps that invariant |
| AuthStore.LogoutResets | src/store/authStore.ts:30-55 | after any actions, logging out gives the initial state except for the loading flag |
| AuthHooks.SignedIn | src/hooks/useAuth.ts:47-58 | a sign-in stores the returned user and access token, stores the refresh token, and moves to the inbox |
| AuthHooks.UseLogin | src/hooks/useAuth.ts:39-63 | a rejected login changes nothing; an accepted one signs in |
| AuthHooks.UseGoogleLogin | src/hooks/useAuth.ts:72-93 | the store is authenticated as the demo user with the new access token, the new refresh token is stored on the client and registered with the backend, and the app moves to the inbox |
| AuthHooks.UseLogout | src/hooks/useAuth.ts:97-129 | success and failure both sign out, remove the stored token and go to the login page; only success clears the cache; the backend is untouched |
| AuthHooks.UseRefresh | src/hooks/useAuth.ts:152-183 | no or empty stored token, or one the backend rejects, signs out (no user, no access token, no error, not authenticated) and removes it; an accepted one installs a new access token only when a user is present, keeping that user |
| AuthHooks.RefreshAfterLogin | src/hooks/useAuth.ts:156-175 | after a login, a refresh keeps the same user signed in with a new access token |
| AuthHooks.LogoutKeepsBackendToken | src/hooks/useAuth.ts:102-127 | after login then logout, a refresh leaves the user signed out, yet the backend still accepts the login's refresh token |
| AuthHooks.HooksKeepConsistent | src/hooks/useAuth.ts:39-183 | every hook keeps the store's consistency invariant |
| Strings.Trim | src/store/uiStore.ts:58 | the result is the input minus its leading and trailing white space, trimmed at both ends, and empty exactly for a blank input |
| Strings.TrimOfTrimmed | src/store/uiStore.ts:58 | trimming a string with no white space at either end changes nothing |
| Strings.Split | src/components/Navigation.tsx:23 | at least one piece, none containing the separator |
| Strings.JoinSplit | src/components/Navigation.tsx:22-25 | joining the pieces of a split with the separator gives the original string |
| Strings.SplitJoin | src/components/Navigation.tsx:22-25 | splitting a join of separator-free pieces gives the pieces back |
| Strings.ReplaceFirst | src/components/search/SearchResults.tsx:161 | only the first occurrence is replaced; the length and every other character are kept |
| Strings.NatToStringRoundTrip | src/components/search/SearchResults.tsx:32-36 | the decimal rendering of a count reads back as the count |

## Left out

- Rendering: JSX, styling and layout, including the presentation-only pages
  and components (`Dashboard.tsx`, `Login.tsx`, `Inbox.tsx`, `KanbanColumn.tsx`,
  `MailboxList.tsx`) and routing in `App.tsx`.
- React, react-query and zustand machinery: hooks, subscriptions, placeholder
  data and cache timing. Only the decisions are kept: polling, `enabled`
  gates and invalidation keys.
- The query cache itself: invalidation is modelled as which keys a mutation
  marks stale, not as refetching. `queryClient.clear()` is a flag.
- The drag-and-drop library: a finished drag is a plain `DropResult` record.
  The dragged id is taken as an integer; `parseInt` of the library's string
  id is not modelled.
- Notifications and logging: `toast`, `alert` and `console`.
- Confirmation dialogs: `window.confirm` is the boolean `confirmed`.
- Navigation: `navigate` is recorded only as the last route.
- Time: simulated network delays and timers. `new Date()` and `Date.now()`
  are the parameter `now` or the elapsed milliseconds.
- Randomness: `Math.random` token tails and user ids are parameters.
- Locale formatting: the date `toLocaleString` in the quote header and
  `toLocaleDateString` after a week are opaque strings (`stamp`, `calendar`).
- Relevance: the percentage rounding is floating point.
- SearchResults.FormatDate: an unparsable `receivedAt` gives an invalid date in
  JavaScript, every comparison is false, and the label is "Invalid Date". The
  model takes the elapsed time as an integer and does not represent that case.
- KanbanSettings.BlurUpdate: a server column whose `gmailLabelId` is missing
  (`undefined`) and a local label that is `null` compare unequal in JavaScript
  (`null !== undefined`), so a blur sends an update; both are `None` here, so
  the model sends nothing for that pair.
- Case mapping: `toUpperCase` is modelled for ASCII letters only; other
  characters are unchanged.
- String length and indexing: a string is a sequence of code points, not of
  UTF-16 code units, so `length`, `[0]`, `charAt` and `slice` differ from
  JavaScript on characters outside the Basic Multilingual Plane (an emoji is one
  element here and two units in JavaScript). The members this affects follow.
- EmailQueries.SuggestionsEnabled: `q.length >= 2` counts one emoji as 2 in
  JavaScript and as 1 here.
- MockAuthApi.Login: the password check `password.length < 6` accepts three
  emoji in JavaScript and refuses them here.
- MockAuthApi.DisplayName: `charAt(0)` and `slice(1)` split an emoji into
  halves in JavaScript and keep it whole here.
- SearchResults.AvatarInitial: `fromName[0]` is half of an emoji in JavaScript
  and the whole emoji here.
- Navigation.Initials: `n[0]` and `.slice(0, 2)` count code units in
  JavaScript and code points here.
- Unseen code: the email service client, the OAuth helpers behind
  `OAuthCallback.tsx`, and `getUserDisplayName` are not part of this model.
- The OAuth callback flow: it is orchestration around those helpers.
- Concurrency: overlapping mutations and late responses are not modelled.
  Each remote call is one success or failure outcome.
- KanbanBoard.HandleDragEnd: a source or destination column id that is not on
  the board is the outcome `Thrown`. The error JavaScript raises is not
  modelled further.
- EmailQueries.SearchEnabled: the search parameters are reduced to the query
  string; the other parameters (mailbox, threshold, fields) are not modelled.

## Findings

| source | as written | input that shows it | evidently intended | confidence | as-written member | corrected member |
|---|---|---|---|---|---|---|
| src/components/toolbar/FilteringSortingToolbar.tsx:40-49 | the toggle-off branch passes a copy without the key to `setFilters`, which merges it into the current filters (src/store/uiStore.ts:72-76), so the key is never removed | start with no filters, choose category "social", choose "social" again: the category filter is still on | choosing the current value removes that filter, and toggling twice restores the filters | not executed | FilterToolbar.ToggleTwiceKeepsFilter | FilterToolbar.ToggleTwiceRestores |
| src/components/kanban/KanbanBoard.tsx:91-101 | when source and destination are the same column, the destination copy (original column plus the email) overwrites the source copy (column minus the email) | inbox `[a, b]`, drag `a` from index 0 to index 1: the inbox becomes `[a, a, b]` | a reorder inside one column moves the email, keeping the column a permutation | not executed | KanbanBoard.SameColumnDropDuplicates | KanbanBoard.SameColumnReorderFixed |
| src/components/dashboard/ComposeEmailModal.tsx:81-87 | the blank check is on the raw field, but the request uses the field split on commas with empty pieces dropped | recipient field "," with a mailbox selected: the send goes out with an empty `to` list | a send is refused when no recipient address remains after parsing | not executed | ComposeEmail.CommaOnlyRecipientAccepted | ComposeEmail.HandleSendFixed |

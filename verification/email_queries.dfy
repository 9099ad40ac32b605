/** The data-fetching decisions of the email hooks: when the mailbox list polls,
    when each query is enabled, and which cached queries each mutation marks stale
    on success. The query cache itself is not modelled, only these decisions. */
module EmailQueries {
  import opened Wrappers
  import opened Emails

  /** Poll period while some mailbox is still being ingested. */
  const PollIntervalMs: nat := 3000

  /** The mailbox is still being ingested. */
  predicate IsBusy(m: Mailbox) {
    m.syncStatus == Syncing || m.syncStatus == Pending
  }

  /** `mailboxes.some(m => syncing or pending)`. */
  function AnyBusy(mailboxes: seq<Mailbox>): (r: bool)
    ensures r <==> exists i :: 0 <= i < |mailboxes| && IsBusy(mailboxes[i])
  {
    if mailboxes == [] then false
    else if IsBusy(mailboxes[0]) then true
    else
      var rest := AnyBusy(mailboxes[1..]);
      assert forall i :: 0 < i < |mailboxes| ==> mailboxes[i] == mailboxes[1..][i - 1];
      rest
  }

  /** The mailbox query's `refetchInterval`: the poll period while some mailbox is
      syncing or pending, otherwise `false` (here `None`), including before any
      data has arrived. */
  function RefetchInterval(data: Option<seq<Mailbox>>): (r: Option<nat>)
    ensures r.None? || r == Some(PollIntervalMs)
    ensures r == Some(PollIntervalMs) <==> data.Some? && exists m :: m in data.value && IsBusy(m)
  {
    if data.Some? && AnyBusy(data.value) then Some(PollIntervalMs) else None
  }

  /** Once every mailbox has settled (idle, synced or failed) polling stops. */
  lemma PollingStopsWhenSettled(mailboxes: seq<Mailbox>)
    requires forall m :: m in mailboxes ==> m.syncStatus in {Idle, Synced, SyncError}
    ensures RefetchInterval(Some(mailboxes)) == None
  {
  }

  /** The single-email query runs only for a truthy id: `null` and `0` disable it. */
  function EmailQueryEnabled(id: Option<int>): (r: bool)
    ensures r <==> id != None && id != Some(0)
  {
    match id
    case Some(n) => n != 0
    case None => false
  }

  /** Fuzzy and semantic search run only when enabled and the query is non-empty. */
  function SearchEnabled(enabled: bool, q: string): (r: bool)
    ensures r <==> enabled && |q| > 0
  {
    enabled && q != ""
  }

  /** Suggestions are fetched only when enabled and the query has two or more
      characters. */
  function SuggestionsEnabled(enabled: bool, q: string): (r: bool)
    ensures r <==> enabled && |q| >= 2
  {
    enabled && |q| >= 2
  }

  /** Whenever suggestions are fetched the search itself is enabled too. */
  lemma SuggestionsImplySearch(enabled: bool, q: string)
    ensures SuggestionsEnabled(enabled, q) ==> SearchEnabled(enabled, q)
  {
  }

  /** A query key: its first element names the query, the rest are parameters
      (rendered as strings). */
  type QueryKey = seq<string>

  /** The mutations of the email and kanban-column hooks. */
  datatype Mutation =
    | UpdateEmail | ToggleStar | MarkAsRead | DeleteEmail | SyncMailbox | ConnectMailbox
    | SendEmail | SummarizeEmail | MoveEmailToColumn
    | CreateColumn | UpdateColumn | DeleteColumn | InitializeColumns

  /** The invalidation filters each mutation's success handler issues, in order. */
  function InvalidationFilters(m: Mutation): seq<QueryKey> {
    match m
    case UpdateEmail => [["emails"], ["email"], ["mailboxes"]]
    case ToggleStar => [["emails"], ["email"]]
    case MarkAsRead => [["emails"], ["email"], ["mailboxes"]]
    case DeleteEmail => [["emails"], ["email"], ["mailboxes"]]
    case SyncMailbox => [["mailboxes"], ["emails"]]
    case ConnectMailbox => [["mailboxes"]]
    case SendEmail => [["emails"], ["mailboxes"]]
    case SummarizeEmail => [["emails"], ["email"]]
    case MoveEmailToColumn => [["emails"]]
    case CreateColumn => [["kanbanColumns"]]
    case UpdateColumn => [["kanbanColumns"]]
    case DeleteColumn => [["kanbanColumns"]]
    case InitializeColumns => [["kanbanColumns"]]
  }

  /** `invalidateQueries({ queryKey: filter })` matches keys element-wise by prefix. */
  predicate Matches(filter: QueryKey, key: QueryKey) {
    |filter| <= |key| && key[..|filter|] == filter
  }

  /** Some filter in the list matches the key. */
  function AnyMatch(filters: seq<QueryKey>, key: QueryKey): (r: bool)
    ensures r <==> exists i :: 0 <= i < |filters| && Matches(filters[i], key)
  {
    if filters == [] then false
    else if Matches(filters[0], key) then true
    else
      var rest := AnyMatch(filters[1..], key);
      assert forall i :: 0 < i < |filters| ==> filters[i] == filters[1..][i - 1];
      rest
  }

  /** The cached query with this key is marked stale by a successful `m`. */
  function StaleAfter(m: Mutation, key: QueryKey): bool {
    AnyMatch(InvalidationFilters(m), key)
  }

  /** For one-element filters, staleness is membership of the query's name among
      the filters' names. */
  lemma StaleByName(m: Mutation, key: QueryKey)
    requires |key| >= 1
    ensures StaleAfter(m, key) <==> exists i :: 0 <= i < |InvalidationFilters(m)| && InvalidationFilters(m)[i] == [key[0]]
  {
    var fs := InvalidationFilters(m);
    assert forall i :: 0 <= i < |fs| ==> |fs[i]| == 1;
    forall i | 0 <= i < |fs|
      ensures Matches(fs[i], key) <==> fs[i] == [key[0]]
    {
      if Matches(fs[i], key) {
        assert key[..1] == [key[0]];
      }
    }
  }

  /** Which cached queries each mutation refreshes, by the name of the query:
      the email edits refresh the email lists, the single email and the mailboxes;
      moving an email to a column refreshes only the email lists; every column
      mutation refreshes only the column list. */
  lemma InvalidationSets(m: Mutation, key: QueryKey)
    requires |key| >= 1
    ensures m in {UpdateEmail, MarkAsRead, DeleteEmail} ==>
              (StaleAfter(m, key) <==> key[0] in {"emails", "email", "mailboxes"})
    ensures m == MoveEmailToColumn ==> (StaleAfter(m, key) <==> key[0] == "emails")
    ensures m in {CreateColumn, UpdateColumn, DeleteColumn, InitializeColumns} ==>
              (StaleAfter(m, key) <==> key[0] == "kanbanColumns")
  {
    StaleByName(m, key);
    var fs := InvalidationFilters(m);
    if m in {UpdateEmail, MarkAsRead, DeleteEmail} {
      assert fs == [["emails"], ["email"], ["mailboxes"]];
      if key[0] == "emails" { assert fs[0] == [key[0]]; }
      if key[0] == "email" { assert fs[1] == [key[0]]; }
      if key[0] == "mailboxes" { assert fs[2] == [key[0]]; }
    } else if m == MoveEmailToColumn {
      if key[0] == "emails" { assert fs[0] == [key[0]]; }
    } else if m in {CreateColumn, UpdateColumn, DeleteColumn, InitializeColumns} {
      assert fs == [["kanbanColumns"]];
      if key[0] == "kanbanColumns" { assert fs[0] == [key[0]]; }
    }
  }

  /** No mutation refreshes search results or suggestions: those queries are only
      refetched when their own key changes or their cache time runs out. */
  lemma SearchNeverInvalidated(m: Mutation, key: QueryKey)
    requires |key| >= 1 && key[0] in {"emailSearch", "semanticSearch", "searchSuggestions"}
    ensures !StaleAfter(m, key)
  {
    StaleByName(m, key);
  }
}

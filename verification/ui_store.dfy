/** The client's UI query store: view mode, search query, filters, sort order,
    searching flag and selected mailbox, with the store's actions as pure
    transitions on an immutable record. */
module UiStore {
  import opened Wrappers
  import opened Strings

  datatype ViewMode = BoardView | SearchView
  datatype SortBy = ReceivedAt | Subject | FromEmail
  datatype SortOrder = Asc | Desc

  /** The keys of the email filter object. */
  datatype FilterKey = IsRead | IsStarred | HasAttachments | Category | TaskStatus | FromEmailKey | Label | IsSnoozed

  /** A filter value: the boolean filters hold flags, the others strings. */
  datatype FilterValue = Flag(flag: bool) | Text(text: string)

  /** The filter object. A key can be present and still hold no value (a property
      set to `undefined`), hence the `Option`. */
  type Filters = map<FilterKey, Option<FilterValue>>

  datatype UiState = UiState(
    viewMode: ViewMode,
    searchQuery: string,
    filters: Filters,
    sortBy: SortBy,
    sortOrder: SortOrder,
    isSearching: bool,
    selectedMailboxId: Option<int>)

  /** The store's initial state: board view, no query, no filters, newest first. */
  const Initial: UiState := UiState(BoardView, "", map[], ReceivedAt, Desc, false, None)

  /** `setViewMode`. */
  function SetViewMode(s: UiState, mode: ViewMode): (r: UiState)
    ensures r.viewMode == mode
    ensures r.(viewMode := s.viewMode) == s
  {
    s.(viewMode := mode)
  }

  /** `setSearchQuery`: the query is always stored; a query with any non-white-space
      character also switches to the search view, a blank one leaves the view alone. */
  function SetSearchQuery(s: UiState, query: string): (r: UiState)
    ensures r.searchQuery == query
    ensures !IsBlank(query) ==> r.viewMode == SearchView
    ensures IsBlank(query) ==> r.viewMode == s.viewMode
    ensures r.(searchQuery := s.searchQuery, viewMode := s.viewMode) == s
  {
    var stored := s.(searchQuery := query);
    if Trim(query) != "" then stored.(viewMode := SearchView) else stored
  }

  /** `clearSearch`: empty query, board view, not searching; nothing else changes. */
  function ClearSearch(s: UiState): (r: UiState)
    ensures r.searchQuery == "" && r.viewMode == BoardView && !r.isSearching
    ensures r.(searchQuery := s.searchQuery, viewMode := s.viewMode, isSearching := s.isSearching) == s
  {
    s.(searchQuery := "", viewMode := BoardView, isSearching := false)
  }

  /** Clearing the search forgets whatever query was typed before it. */
  lemma ClearSearchForgetsQuery(s: UiState, query: string)
    ensures ClearSearch(SetSearchQuery(s, query)) == ClearSearch(s)
    ensures ClearSearch(ClearSearch(s)) == ClearSearch(s)
  {
  }

  /** `setFilters`: a right-biased merge. Keys of the argument take the argument's
      value; every other key keeps its presence and its value. */
  function SetFilters(s: UiState, newFilters: Filters): (r: UiState)
    ensures r.filters.Keys == s.filters.Keys + newFilters.Keys
    ensures forall k :: k in newFilters ==> r.filters[k] == newFilters[k]
    ensures forall k :: k in s.filters && k !in newFilters ==> r.filters[k] == s.filters[k]
    ensures r.(filters := s.filters) == s
  {
    s.(filters := s.filters + newFilters)
  }

  /** Merging twice is merging once with the merged argument, and merging nothing
      changes nothing. */
  lemma SetFiltersComposes(s: UiState, a: Filters, b: Filters)
    ensures SetFilters(SetFilters(s, a), b) == SetFilters(s, a + b)
    ensures SetFilters(s, map[]) == s
  {
    assert s.filters + a + b == s.filters + (a + b);
    assert s.filters + map[] == s.filters;
  }

  /** `clearFilters`. */
  function ClearFilters(s: UiState): (r: UiState)
    ensures r.filters == map[]
    ensures r.(filters := s.filters) == s
  {
    s.(filters := map[])
  }

  /** `hasActiveFilters`: some key is present, whatever it holds. */
  function HasActiveFilters(s: UiState): (r: bool)
    ensures r <==> exists k :: k in s.filters
  {
    assert |s.filters.Keys| > 0 ==> exists k :: k in s.filters.Keys;
    |s.filters.Keys| > 0
  }

  /** After `clearFilters` nothing is active. */
  lemma ClearFiltersDeactivates(s: UiState)
    ensures !HasActiveFilters(ClearFilters(s))
  {
  }

  /** `setSorting`: sets the field and the order and nothing else. */
  function SetSorting(s: UiState, sortBy: SortBy, sortOrder: SortOrder): (r: UiState)
    ensures r.sortBy == sortBy && r.sortOrder == sortOrder
    ensures r.(sortBy := s.sortBy, sortOrder := s.sortOrder) == s
  {
    s.(sortBy := sortBy, sortOrder := sortOrder)
  }

  /** `setIsSearching`. */
  function SetIsSearching(s: UiState, searching: bool): (r: UiState)
    ensures r.isSearching == searching
    ensures r.(isSearching := s.isSearching) == s
  {
    s.(isSearching := searching)
  }

  /** `setSelectedMailboxId`. */
  function SetSelectedMailboxId(s: UiState, id: Option<int>): (r: UiState)
    ensures r.selectedMailboxId == id
    ensures r.(selectedMailboxId := s.selectedMailboxId) == s
  {
    s.(selectedMailboxId := id)
  }

  /** The store's fields are independent: setting the query, the sort, the
      searching flag or the selected mailbox commute with one another, and of two
      writes to the same field the later one wins. */
  lemma SettersIndependent(s: UiState, q: string, field: SortBy, order: SortOrder, searching: bool, id: Option<int>, id2: Option<int>)
    ensures SetSorting(SetSearchQuery(s, q), field, order) == SetSearchQuery(SetSorting(s, field, order), q)
    ensures SetIsSearching(SetSelectedMailboxId(s, id), searching) == SetSelectedMailboxId(SetIsSearching(s, searching), id)
    ensures SetSelectedMailboxId(SetSelectedMailboxId(s, id), id2) == SetSelectedMailboxId(s, id2)
    ensures SetViewMode(SetSearchQuery(s, q), BoardView) == SetSearchQuery(s, q).(viewMode := BoardView)
  {
  }

  /** The initial state is the board view with nothing searched, filtered or
      selected, sorted by date received, newest first. */
  lemma InitialState()
    ensures Initial.viewMode == BoardView && Initial.searchQuery == ""
    ensures !HasActiveFilters(Initial)
    ensures Initial.sortBy == ReceivedAt && Initial.sortOrder == Desc
    ensures !Initial.isSearching && Initial.selectedMailboxId == None
  {
  }
}

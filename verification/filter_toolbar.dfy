/** The filtering and sorting toolbar: the toggle rule for filters (buttons,
    checkboxes and the single-valued category and task-status groups), the active
    filter count, the sort label and the sort menu. */
module FilterToolbar {
  import opened Wrappers
  import opened UiStore

  /** `filters[key]` in JavaScript: an absent key and a key holding `undefined`
      both read as `undefined`. */
  function Lookup(f: Filters, k: FilterKey): (v: Option<FilterValue>)
    ensures k !in f ==> v == None
    ensures k in f ==> v == f[k]
  {
    if k in f then f[k] else None
  }

  /** `handleToggleFilter` AS WRITTEN. Choosing the value the key already reads as
      hands `setFilters` a copy without the key, but `setFilters` merges that copy
      into the current filters, so the key survives and nothing changes. Choosing
      any other value sets the key. */
  function ToggleFilter(s: UiState, k: FilterKey, v: Option<FilterValue>): (r: UiState)
    ensures Lookup(s.filters, k) == v ==> r == s
    ensures Lookup(s.filters, k) != v ==> r == s.(filters := s.filters[k := v])
  {
    if Lookup(s.filters, k) == v then
      var copy := s.filters - {k};
      assert s.filters + copy == s.filters;
      SetFilters(s, copy)
    else
      var r := SetFilters(s, map[k := v]);
      assert r.filters == s.filters[k := v];
      r
  }

  /** AS WRITTEN, toggling the same value twice does not undo the first toggle: a
      category chosen once cannot be deselected by choosing it again. */
  lemma ToggleTwiceKeepsFilter(s: UiState, k: FilterKey, v: FilterValue)
    requires k !in s.filters
    ensures ToggleFilter(ToggleFilter(s, k, Some(v)), k, Some(v)).filters == s.filters[k := Some(v)]
    ensures ToggleFilter(ToggleFilter(s, k, Some(v)), k, Some(v)).filters != s.filters
  {
  }

  /** A concrete instance: from the initial state, choosing "social" twice leaves
      the category filter on. */
  lemma ToggleTwiceExample()
    ensures var once := ToggleFilter(Initial, Category, Some(Text("social")));
            ToggleFilter(once, Category, Some(Text("social"))).filters == map[Category := Some(Text("social"))]
  {
  }

  /** CORRECTED toggle: choosing the value the key already reads as removes the key
      (the copy replaces the filters instead of being merged into them). */
  function ToggleFilterFixed(s: UiState, k: FilterKey, v: Option<FilterValue>): (r: UiState)
    ensures Lookup(s.filters, k) == v ==> r.filters.Keys == s.filters.Keys - {k}
    ensures Lookup(s.filters, k) != v ==> r.filters.Keys == s.filters.Keys + {k} && r.filters[k] == v
    ensures forall j :: j in s.filters && j != k ==> j in r.filters && r.filters[j] == s.filters[j]
    ensures r.(filters := s.filters) == s
  {
    if Lookup(s.filters, k) == v then s.(filters := s.filters - {k})
    else SetFilters(s, map[k := v])
  }

  /** With the corrected toggle, toggling a key that was not set to the same value
      twice gives back the original filters. */
  lemma ToggleTwiceRestores(s: UiState, k: FilterKey, v: Option<FilterValue>)
    requires k !in s.filters
    ensures ToggleFilterFixed(ToggleFilterFixed(s, k, v), k, v) == s
  {
    var once := ToggleFilterFixed(s, k, v);
    if v.Some? {
      assert once.filters == s.filters[k := v];
      assert once.filters - {k} == s.filters;
    } else {
      assert s.filters - {k} == s.filters;
    }
  }

  /** Number of keys present in the filter object (the badge on the filter button). */
  function ActiveFiltersCount(s: UiState): (n: nat)
    ensures n == 0 <==> !HasActiveFilters(s)
  {
    |s.filters.Keys|
  }

  /** A checkbox filter (starred, attachments, snoozed). The checkbox shows as
      checked when the key holds `true`; a change passes `checked || undefined`. */
  function CheckboxChange(s: UiState, k: FilterKey): (r: UiState)
    ensures Lookup(s.filters, k) == Some(Flag(true)) ==> r.filters == s.filters[k := None]
    ensures Lookup(s.filters, k) != Some(Flag(true)) ==> r.filters == s.filters[k := Some(Flag(true))]
    ensures r.(filters := s.filters) == s
  {
    var checked := Lookup(s.filters, k) != Some(Flag(true));
    ToggleFilter(s, k, if checked then Some(Flag(true)) else None)
  }

  /** Unchecking a checkbox leaves its key present with no value, so it still counts
      as an active filter. */
  lemma UncheckKeepsKey(s: UiState, k: FilterKey)
    requires Lookup(s.filters, k) == Some(Flag(true))
    ensures k in CheckboxChange(s, k).filters
    ensures ActiveFiltersCount(CheckboxChange(s, k)) == ActiveFiltersCount(s)
  {
    assert CheckboxChange(s, k).filters.Keys == s.filters.Keys;
  }

  /** Checking a box that was never touched adds one to the count, and unchecking
      it again does not take it away. */
  lemma CheckUncheckCounts(s: UiState, k: FilterKey)
    requires k !in s.filters
    ensures ActiveFiltersCount(CheckboxChange(s, k)) == ActiveFiltersCount(s) + 1
    ensures ActiveFiltersCount(CheckboxChange(CheckboxChange(s, k), k)) == ActiveFiltersCount(s) + 1
  {
    var once := CheckboxChange(s, k);
    assert once.filters.Keys == s.filters.Keys + {k};
    assert CheckboxChange(once, k).filters.Keys == once.filters.Keys;
  }

  /** `handleCategoryFilter`. */
  function CategoryFilter(s: UiState, category: string): (r: UiState)
    ensures Lookup(r.filters, Category) == Some(Text(category))
    ensures forall j :: j != Category ==> Lookup(r.filters, j) == Lookup(s.filters, j)
  {
    ToggleFilter(s, Category, Some(Text(category)))
  }

  /** `handleTaskStatusFilter`. */
  function TaskStatusFilter(s: UiState, status: string): (r: UiState)
    ensures Lookup(r.filters, TaskStatus) == Some(Text(status))
    ensures forall j :: j != TaskStatus ==> Lookup(r.filters, j) == Lookup(s.filters, j)
  {
    ToggleFilter(s, TaskStatus, Some(Text(status)))
  }

  /** The category filter is single-valued: choosing another category replaces the
      previous choice and the number of active filters stays the same. */
  lemma CategoryReplaces(s: UiState, previous: string, chosen: string)
    requires Lookup(s.filters, Category) == Some(Text(previous)) && previous != chosen
    ensures Lookup(CategoryFilter(s, chosen).filters, Category) == Some(Text(chosen))
    ensures ActiveFiltersCount(CategoryFilter(s, chosen)) == ActiveFiltersCount(s)
  {
    assert CategoryFilter(s, chosen).filters.Keys == s.filters.Keys;
  }

  /** One entry of the sort menu. */
  datatype SortOption = SortOption(value: SortBy, title: string)

  const SortOptions: seq<SortOption> := [
    SortOption(ReceivedAt, "Date Received"),
    SortOption(Subject, "Subject"),
    SortOption(FromEmail, "Sender")
  ]

  /** `getSortLabel` over a list of options: the label of the first option for the
      field, or `Sort By` when no option matches. */
  function SortLabelIn(options: seq<SortOption>, sortBy: SortBy): (shown: string)
    ensures (forall o :: o in options ==> o.value != sortBy) ==> shown == "Sort By"
    ensures (exists o :: o in options && o.value == sortBy) ==>
              exists i :: 0 <= i < |options| && options[i].value == sortBy && shown == options[i].title
                          && forall j :: 0 <= j < i ==> options[j].value != sortBy
  {
    if options == [] then "Sort By"
    else if options[0].value == sortBy then options[0].title
    else
      var rest := SortLabelIn(options[1..], sortBy);
      assert (exists o :: o in options && o.value == sortBy) ==> exists o :: o in options[1..] && o.value == sortBy;
      assert forall i :: 0 <= i < |options| - 1 ==> options[1..][i] == options[i + 1];
      rest
  }

  /** `getSortLabel` for the toolbar's own options. */
  function GetSortLabel(sortBy: SortBy): string {
    SortLabelIn(SortOptions, sortBy)
  }

  /** Every sort field has its own entry, so the `Sort By` fallback never shows. */
  lemma SortLabels()
    ensures GetSortLabel(ReceivedAt) == "Date Received"
    ensures GetSortLabel(Subject) == "Subject"
    ensures GetSortLabel(FromEmail) == "Sender"
  {
  }

  /** Picking a field in the sort menu keeps the current order. */
  function PickSortField(s: UiState, field: SortBy): (r: UiState)
    ensures r.sortBy == field && r.sortOrder == s.sortOrder
    ensures r.(sortBy := s.sortBy) == s
  {
    SetSorting(s, field, s.sortOrder)
  }

  /** Picking an order in the sort menu keeps the current field. */
  function PickSortOrder(s: UiState, order: SortOrder): (r: UiState)
    ensures r.sortOrder == order && r.sortBy == s.sortBy
    ensures r.(sortOrder := s.sortOrder) == s
  {
    SetSorting(s, s.sortBy, order)
  }
}

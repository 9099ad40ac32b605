/** The board-settings dialog: a local, editable copy of the server's column list
    kept sorted by order index, the rule that turns a finished edit into an update
    request, validation of a new column, and the delete and initialise gates. */
module KanbanSettings {
  import opened Wrappers
  import opened Strings

  /** A configurable board column as the column service returns it. A missing
      label binding is `None` (the service's `null`). */
  datatype Column = Column(
    id: int,
    title: string,
    gmailLabelId: Option<string>,
    color: string,
    orderIndex: int,
    isDefault: bool)

  predicate SortedByOrder(s: seq<Column>) {
    forall i, j :: 0 <= i < j < |s| ==> s[i].orderIndex <= s[j].orderIndex
  }

  /** Inserts `c` after every column whose order index is not larger than its own. */
  function InsertByOrder(c: Column, s: seq<Column>): (r: seq<Column>)
    requires SortedByOrder(s)
    ensures SortedByOrder(r)
    ensures multiset(r) == multiset(s) + multiset{c}
    ensures |r| == |s| + 1
  {
    if s == [] then [c]
    else if c.orderIndex < s[0].orderIndex then [c] + s
    else
      var rest := InsertByOrder(c, s[1..]);
      assert s == [s[0]] + s[1..];
      InsertedNotBelow(s[0], s[1..], c, rest);
      SortedCons(s[0], rest);
      [s[0]] + rest
  }

  /** Inserting a column no earlier than `h` into columns no earlier than `h` keeps
      every column no earlier than `h`. */
  lemma InsertedNotBelow(h: Column, t: seq<Column>, c: Column, rest: seq<Column>)
    requires SortedByOrder([h] + t) && h.orderIndex <= c.orderIndex
    requires multiset(rest) == multiset(t) + multiset{c}
    ensures forall x :: x in rest ==> h.orderIndex <= x.orderIndex
  {
    forall x | x in rest
      ensures h.orderIndex <= x.orderIndex
    {
      assert x in multiset(rest);
      if x != c {
        assert x in t;
        var i :| 0 <= i < |t| && t[i] == x;
        assert ([h] + t)[0] == h && ([h] + t)[i + 1] == x;
      }
    }
  }

  /** A column no later than every column of a sorted list can go in front of it. */
  lemma SortedCons(h: Column, t: seq<Column>)
    requires SortedByOrder(t)
    requires forall x :: x in t ==> h.orderIndex <= x.orderIndex
    ensures SortedByOrder([h] + t)
  {
    var r := [h] + t;
    forall i, j | 0 <= i < j < |r|
      ensures r[i].orderIndex <= r[j].orderIndex
    {
      if i > 0 {
        assert r[i] == t[i - 1] && r[j] == t[j - 1];
      } else {
        assert r[j] in t;
      }
    }
  }

  /** `[...columns].sort((a, b) => a.orderIndex - b.orderIndex)`: the same columns,
      ascending by order index. */
  function SortByOrder(s: seq<Column>): (r: seq<Column>)
    ensures SortedByOrder(r)
    ensures multiset(r) == multiset(s)
    ensures |r| == |s|
  {
    if s == [] then []
    else
      var init := s[..|s| - 1];
      assert s == init + [s[|s| - 1]];
      InsertByOrder(s[|s| - 1], SortByOrder(init))
  }

  /** The columns of `s` whose order index is `k`, in their order in `s`. */
  function WithOrder(s: seq<Column>, k: int): (r: seq<Column>)
    ensures |r| <= |s|
    ensures forall i :: 0 <= i < |r| ==> r[i].orderIndex == k
  {
    if s == [] then [] else (if s[0].orderIndex == k then [s[0]] else []) + WithOrder(s[1..], k)
  }

  /** Picking the columns of one order index distributes over concatenation. */
  lemma {:induction false} WithOrderAppend(a: seq<Column>, b: seq<Column>, k: int)
    ensures WithOrder(a + b, k) == WithOrder(a, k) + WithOrder(b, k)
  {
    if a != [] {
      assert (a + b)[1..] == a[1..] + b;
      WithOrderAppend(a[1..], b, k);
    } else {
      assert a + b == b;
    }
  }

  /** Columns none of which has order index `k` contribute nothing for `k`. */
  lemma {:induction false} WithOrderNone(s: seq<Column>, k: int)
    requires forall x :: x in s ==> x.orderIndex != k
    ensures WithOrder(s, k) == []
  {
    if s != [] {
      assert forall x :: x in s[1..] ==> x in s;
      WithOrderNone(s[1..], k);
    }
  }

  /** The tail of a sorted list is sorted. */
  lemma SortedTail(s: seq<Column>)
    requires SortedByOrder(s) && s != []
    ensures SortedByOrder(s[1..])
    ensures forall x :: x in s[1..] ==> s[0].orderIndex <= x.orderIndex
  {
    forall x | x in s[1..]
      ensures s[0].orderIndex <= x.orderIndex
    {
      var i :| 0 <= i < |s[1..]| && s[1..][i] == x;
      assert s[i + 1] == x;
    }
  }

  /** The two ways `InsertByOrder` proceeds on a non-empty list. */
  lemma InsertUnfold(c: Column, s: seq<Column>)
    requires SortedByOrder(s) && s != []
    ensures SortedByOrder(s[1..])
    ensures c.orderIndex < s[0].orderIndex ==> InsertByOrder(c, s) == [c] + s
    ensures c.orderIndex >= s[0].orderIndex ==> InsertByOrder(c, s) == [s[0]] + InsertByOrder(c, s[1..])
  {
    SortedTail(s);
  }

  /** Picking the columns of one order index from a list with a first element. */
  lemma WithOrderCons(x: Column, t: seq<Column>, k: int)
    ensures WithOrder([x] + t, k) == (if x.orderIndex == k then [x] else []) + WithOrder(t, k)
  {
    assert ([x] + t)[1..] == t;
  }

  /** Insertion is stable: among the columns sharing an order index, the inserted
      one comes after all those already present, which keep their order. */
  lemma {:induction false} InsertStable(c: Column, s: seq<Column>, k: int)
    requires SortedByOrder(s)
    ensures WithOrder(InsertByOrder(c, s), k) == WithOrder(s, k) + (if c.orderIndex == k then [c] else [])
  {
    if s != [] {
      InsertUnfold(c, s);
      WithOrderCons(s[0], s[1..], k);
      assert [s[0]] + s[1..] == s;
      if c.orderIndex < s[0].orderIndex {
        InsertBeforeAll(c, s, k);
      } else {
        var rest := InsertByOrder(c, s[1..]);
        InsertStable(c, s[1..], k);
        WithOrderCons(s[0], rest, k);
      }
    }
  }

  /** A column smaller than the head of a sorted list is the last of its order
      index once put in front. */
  lemma InsertBeforeAll(c: Column, s: seq<Column>, k: int)
    requires SortedByOrder(s) && s != [] && c.orderIndex < s[0].orderIndex
    ensures WithOrder([c] + s, k) == WithOrder(s, k) + (if c.orderIndex == k then [c] else [])
  {
    WithOrderCons(c, s, k);
    if c.orderIndex == k {
      forall x | x in s
        ensures x.orderIndex != k
      {
        var i :| 0 <= i < |s| && s[i] == x;
        assert s[0].orderIndex <= s[i].orderIndex;
      }
      WithOrderNone(s, k);
    }
  }

  /** The sort is stable: for every order index, the columns carrying it appear in
      the result in the same order as in the input, as JavaScript's stable
      `Array.prototype.sort` leaves them. */
  lemma {:induction false} SortStable(s: seq<Column>, k: int)
    ensures WithOrder(SortByOrder(s), k) == WithOrder(s, k)
  {
    if s != [] {
      var init, last := s[..|s| - 1], s[|s| - 1];
      assert s == init + [last];
      SortStable(init, k);
      InsertStable(last, SortByOrder(init), k);
      WithOrderAppend(init, [last], k);
    }
  }

  /** A column no earlier than every column of a sorted list goes at its end. */
  lemma {:induction false} InsertAtEnd(c: Column, s: seq<Column>)
    requires SortedByOrder(s)
    requires forall x :: x in s ==> x.orderIndex <= c.orderIndex
    ensures InsertByOrder(c, s) == s + [c]
  {
    if s != [] {
      InsertUnfold(c, s);
      assert s[0] in s;
      assert forall x :: x in s[1..] ==> x in s;
      InsertAtEnd(c, s[1..]);
      assert s == [s[0]] + s[1..];
    }
  }

  /** The columns before the last one of a sorted list are sorted and no later
      than it. */
  lemma SortedInit(s: seq<Column>)
    requires SortedByOrder(s) && s != []
    ensures SortedByOrder(s[..|s| - 1])
    ensures forall x :: x in s[..|s| - 1] ==> x.orderIndex <= s[|s| - 1].orderIndex
  {
    var init := s[..|s| - 1];
    forall x | x in init
      ensures x.orderIndex <= s[|s| - 1].orderIndex
    {
      var i :| 0 <= i < |init| && init[i] == x;
      assert s[i] == x;
    }
  }

  /** Sorting an already sorted list changes nothing, equal order indices
      included. */
  lemma {:induction false} SortedUnchanged(s: seq<Column>)
    requires SortedByOrder(s)
    ensures SortByOrder(s) == s
  {
    if s != [] {
      var init, last := s[..|s| - 1], s[|s| - 1];
      SortedInit(s);
      SortedUnchanged(init);
      InsertAtEnd(last, init);
      assert s == init + [last];
    }
  }

  /** Two columns with the same order index come out in the order they went in. */
  lemma EqualOrderKept(a: Column, b: Column)
    requires a.orderIndex == b.orderIndex
    ensures SortByOrder([a, b]) == [a, b]
    ensures SortByOrder([b, a]) == [b, a]
  {
    SortedUnchanged([a, b]);
    SortedUnchanged([b, a]);
  }

  /** The dialog's effect on the local copy when the server list changes: a
      non-empty list replaces it, sorted; an empty one leaves it as it was. */
  function SyncLocal(server: seq<Column>, local: seq<Column>): (r: seq<Column>)
    ensures |server| > 0 ==> SortedByOrder(r) && multiset(r) == multiset(server)
    ensures |server| == 0 ==> r == local
  {
    if |server| > 0 then SortByOrder(server) else local
  }

  /** An edit typed into one of a column's inputs. */
  datatype FieldEdit = EditTitle(title: string) | EditLabel(labelId: string) | EditColor(color: string)

  /** The column with the edit applied; the label input always yields a string. */
  function ApplyEdit(c: Column, e: FieldEdit): Column {
    match e
    case EditTitle(t) => c.(title := t)
    case EditLabel(l) => c.(gmailLabelId := Some(l))
    case EditColor(k) => c.(color := k)
  }

  /** An input's change handler: the columns with the given id get the edit, every
      other column and the order stay as they were. */
  function EditColumn(local: seq<Column>, id: int, e: FieldEdit): (r: seq<Column>)
    ensures |r| == |local|
    ensures forall i :: 0 <= i < |local| && local[i].id != id ==> r[i] == local[i]
    ensures forall i :: 0 <= i < |local| && local[i].id == id ==> r[i] == ApplyEdit(local[i], e)
    ensures forall i :: 0 <= i < |local| ==> r[i].id == local[i].id && r[i].orderIndex == local[i].orderIndex
  {
    if local == [] then []
    else
      var head := if local[0].id == id then ApplyEdit(local[0], e) else local[0];
      [head] + EditColumn(local[1..], id, e)
  }

  /** Typing the same thing twice is the same as typing it once. */
  lemma EditIdempotent(local: seq<Column>, id: int, e: FieldEdit)
    ensures EditColumn(EditColumn(local, id, e), id, e) == EditColumn(local, id, e)
  {
  }

  /** The first server column with the given id. */
  function FindColumn(server: seq<Column>, id: int): (r: Option<Column>)
    ensures r.Some? ==> r.value in server && r.value.id == id
    ensures r.None? <==> forall c :: c in server ==> c.id != id
  {
    if server == [] then None
    else if server[0].id == id then Some(server[0])
    else FindColumn(server[1..], id)
  }

  /** The input a blur comes from. */
  datatype Field = TitleField | LabelField | ColorField

  /** A field's value as the blur handler compares it. */
  function FieldValue(c: Column, f: Field): Option<string> {
    match f
    case TitleField => Some(c.title)
    case LabelField => c.gmailLabelId
    case ColorField => Some(c.color)
  }

  /** `value || null` on the label: an empty or missing label is sent as `null`. */
  function NullIfEmpty(text: Option<string>): (r: Option<string>)
    ensures r.None? <==> text.None? || text == Some("")
    ensures r.Some? ==> r == text
  {
    if text.Some? && text.value != "" then text else None
  }

  /** An update request to the column service. */
  datatype ColumnUpdate =
    | UpdateTitle(id: int, title: string)
    | UpdateLabel(id: int, gmailLabelId: Option<string>)
    | UpdateColor(id: int, color: string)

  /** A blur sends an update exactly when the local value differs from the value of
      the server column with that id (a column the server does not have always
      differs). The update carries the local value, the label as `null` when empty. */
  function BlurUpdate(server: seq<Column>, col: Column, f: Field): (r: Option<ColumnUpdate>)
    ensures r.None? <==> exists c :: c in server && c.id == col.id && FieldValue(c, f) == FieldValue(col, f)
                                     && FindColumn(server, col.id) == Some(c)
    ensures r.Some? && f == TitleField ==> r.value == UpdateTitle(col.id, col.title)
    ensures r.Some? && f == LabelField ==> r.value == UpdateLabel(col.id, NullIfEmpty(col.gmailLabelId))
    ensures r.Some? && f == ColorField ==> r.value == UpdateColor(col.id, col.color)
  {
    var found := FindColumn(server, col.id);
    if found.Some? && FieldValue(found.value, f) == FieldValue(col, f) then None
    else
      Some(match f
           case TitleField => UpdateTitle(col.id, col.title)
           case LabelField => UpdateLabel(col.id, NullIfEmpty(col.gmailLabelId))
           case ColorField => UpdateColor(col.id, col.color))
  }

  /** Column ids are unique. */
  predicate UniqueIds(s: seq<Column>) {
    forall i, j :: 0 <= i < j < |s| ==> s[i].id != s[j].id
  }

  /** Leaving an input untouched sends nothing: right after a sync every local
      column equals its server column, so no blur issues an update. */
  lemma UntouchedBlurSendsNothing(server: seq<Column>, f: Field, k: nat)
    requires UniqueIds(server) && k < |SyncLocal(server, [])|
    ensures BlurUpdate(server, SyncLocal(server, [])[k], f).None?
  {
    var local := SyncLocal(server, []);
    var col := local[k];
    assert col in multiset(server);
    var i :| 0 <= i < |server| && server[i] == col;
    FindUnique(server, i);
  }

  /** With unique ids, looking a column's id up finds that column. */
  lemma {:induction false} FindUnique(server: seq<Column>, i: nat)
    requires UniqueIds(server) && i < |server|
    ensures FindColumn(server, server[i].id) == Some(server[i])
  {
    if i > 0 {
      FindUnique(server[1..], i - 1);
    }
  }

  /** An edit followed by a blur on the same field sends the new value exactly
      when it differs from the server's. */
  lemma EditThenBlurTitle(server: seq<Column>, local: seq<Column>, k: nat, t: string)
    requires UniqueIds(server) && k < |local| && local[k] in server
    ensures var edited := EditColumn(local, local[k].id, EditTitle(t))[k];
            BlurUpdate(server, edited, TitleField)
              == if t == local[k].title then None else Some(UpdateTitle(local[k].id, t))
  {
    var i :| 0 <= i < |server| && server[i] == local[k];
    FindUnique(server, i);
  }

  /** The add-column form. */
  datatype Draft = Draft(title: string, gmailLabelId: string, color: string)

  /** The form's state when it opens and after a successful create. */
  const EmptyDraft: Draft := Draft("", "", "#3B82F6")

  /** A create request to the column service. */
  datatype CreateRequest = CreateRequest(title: string, gmailLabelId: Option<string>, color: string)

  /** `handleAddColumn`: a blank title is refused; otherwise the title is sent as
      typed (not trimmed) and an empty label as `null`. */
  function AddColumn(d: Draft): (r: Result<CreateRequest, string>)
    ensures r.Failure? <==> IsBlank(d.title)
    ensures r.Failure? ==> r.error == "Title is required"
    ensures r.Success? ==> && r.value.title == d.title
                           && r.value.color == d.color
                           && (r.value.gmailLabelId.None? <==> d.gmailLabelId == "")
                           && (r.value.gmailLabelId.Some? ==> r.value.gmailLabelId.value == d.gmailLabelId)
  {
    if Trim(d.title) == "" then Failure("Title is required")
    else Success(CreateRequest(d.title, NullIfEmpty(Some(d.gmailLabelId)), d.color))
  }

  /** The form after an add attempt: a refused title or a failed create keeps what
      was typed; a successful create resets the form. */
  function DraftAfterAdd(d: Draft, remoteOk: bool): (next: Draft)
    ensures AddColumn(d).Failure? || !remoteOk ==> next == d
    ensures AddColumn(d).Success? && remoteOk ==> next.title == "" && next.gmailLabelId == "" && next.color == EmptyDraft.color
  {
    if AddColumn(d).Success? && remoteOk then EmptyDraft else d
  }

  /** The empty form cannot be submitted, so submitting again right after a
      successful create sends nothing. */
  lemma ResetFormRefused(d: Draft, remoteOk: bool)
    ensures AddColumn(EmptyDraft) == Failure("Title is required")
    ensures AddColumn(d).Success? && remoteOk ==> AddColumn(DraftAfterAdd(d, remoteOk)).Failure?
    ensures AddColumn(DraftAfterAdd(d, remoteOk)).Success? <==> AddColumn(d).Success? && !remoteOk
  {
  }

  /** The delete button: disabled for a default column, and even when enabled the
      request goes out only after the user confirms. */
  function DeleteRequest(col: Column, confirmed: bool): (r: Option<int>)
    ensures r.Some? <==> !col.isDefault && confirmed
    ensures r.Some? ==> r.value == col.id
  {
    if col.isDefault then None
    else if confirmed then Some(col.id)
    else None
  }

  /** The "Initialize Default Columns" prompt: shown only when the service has no
      columns (a missing response counts as none) and is not loading. */
  function ShowInitializePrompt(data: Option<seq<Column>>, isLoading: bool): (r: bool)
    ensures r <==> !isLoading && (data.None? || data.value == [])
  {
    var columns := data.GetOr([]);
    |columns| == 0 && !isLoading
  }
}

/** The kanban board: the partition of the loaded emails into four fixed columns by
    task status, the optimistic drag-and-drop move, and its rollback when the
    remote status update fails. */
module KanbanBoard {
  import opened Wrappers
  import opened Emails

  /** One entry of the fixed column configuration. */
  datatype ColumnConfig = ColumnConfig(id: string, title: string, taskStatus: string)

  /** The board's columns, in display order, with the task status each one stands for. */
  const Columns: seq<ColumnConfig> := [
    ColumnConfig("inbox", "Inbox", "none"),
    ColumnConfig("todo", "To Do", "todo"),
    ColumnConfig("in_progress", "In Progress", "in_progress"),
    ColumnConfig("done", "Done", "done")
  ]

  const ColumnIds: set<string> := {"inbox", "todo", "in_progress", "done"}

  /** The board state: column id to the ordered emails shown in that column. */
  type Board = map<string, seq<Email>>

  /** The board has exactly the four configured columns. */
  predicate WellFormed(b: Board) {
    b.Keys == ColumnIds
  }

  /** Every email on the board, counted with multiplicity. */
  function AllEmails(b: Board): multiset<Email>
    requires WellFormed(b)
  {
    multiset(b["inbox"]) + multiset(b["todo"]) + multiset(b["in_progress"]) + multiset(b["done"])
  }

  /** Replacing one column changes the board's contents by exactly the difference
      between the old and the new column. */
  lemma AllEmailsUpdate(b: Board, k: string, v: seq<Email>)
    requires WellFormed(b) && k in ColumnIds
    ensures WellFormed(b[k := v])
    ensures AllEmails(b[k := v]) + multiset(b[k]) == AllEmails(b) + multiset(v)
  {
    var b' := b[k := v];
    assert b'.Keys == ColumnIds;
    if k == "inbox" {
      assert b'["todo"] == b["todo"] && b'["in_progress"] == b["in_progress"] && b'["done"] == b["done"];
    } else if k == "todo" {
      assert b'["inbox"] == b["inbox"] && b'["in_progress"] == b["in_progress"] && b'["done"] == b["done"];
    } else if k == "in_progress" {
      assert b'["inbox"] == b["inbox"] && b'["todo"] == b["todo"] && b'["done"] == b["done"];
    } else {
      assert b'["inbox"] == b["inbox"] && b'["todo"] == b["todo"] && b'["in_progress"] == b["in_progress"];
    }
  }

  /** Multiset addition cancels. */
  lemma Cancel<T>(a: multiset<T>, b: multiset<T>, c: multiset<T>)
    requires a + c == b + c
    ensures a == b
  {
    assert forall x :: a[x] == (a + c)[x] - c[x];
    assert forall x :: b[x] == (b + c)[x] - c[x];
  }

  // ---------------------------------------------------------------------------
  // Partition

  /** An email snoozed until a time after `now` is kept off the board. The
      `isSnoozed` flag plays no part. */
  predicate IsHidden(e: Email, now: int) {
    e.snoozedUntil.Some? && e.snoozedUntil.value > now
  }

  /** The column an email's task status sends it to: the three work states have a
      column of the same name, `none` and every unrecognised status go to `inbox`. */
  function ColumnFor(taskStatus: string): (c: string)
    ensures c in ColumnIds
    ensures taskStatus in {"todo", "in_progress", "done"} ==> c == taskStatus
    ensures taskStatus !in {"todo", "in_progress", "done"} ==> c == "inbox"
  {
    match taskStatus
    case "todo" => "todo"
    case "in_progress" => "in_progress"
    case "done" => "done"
    case _ => "inbox"
  }

  /** The email shows up in column `c`. */
  predicate LandsIn(e: Email, now: int, c: string) {
    !IsHidden(e, now) && ColumnFor(e.taskStatus) == c
  }

  /** Reference definition of one column: the emails that land in it, in input order. */
  function ColumnContents(emails: seq<Email>, now: int, c: string): (col: seq<Email>)
    ensures |col| <= |emails|
    ensures forall e :: e in col ==> e in emails && LandsIn(e, now, c)
  {
    if emails == [] then []
    else
      var last := emails[|emails| - 1];
      ColumnContents(emails[..|emails| - 1], now, c) + (if LandsIn(last, now, c) then [last] else [])
  }

  /** Reference definition of the whole partition. */
  function Partition(emails: seq<Email>, now: int): (b: Board)
    ensures WellFormed(b)
  {
    map c | c in ColumnIds :: ColumnContents(emails, now, c)
  }

  /** The emails that are not snoozed into the future, in input order. */
  function Visible(emails: seq<Email>, now: int): seq<Email> {
    if emails == [] then []
    else
      var last := emails[|emails| - 1];
      Visible(emails[..|emails| - 1], now) + (if IsHidden(last, now) then [] else [last])
  }

  /** The board's effect that organises the emails: one pass over the input,
      appending each visible email to the column its status selects. */
  method Organize(emails: seq<Email>, now: int) returns (board: Board)
    ensures WellFormed(board)
    ensures forall c :: c in ColumnIds ==> board[c] == ColumnContents(emails, now, c)
  {
    board := map["inbox" := [], "todo" := [], "in_progress" := [], "done" := []];
    var i := 0;
    while i < |emails|
      invariant 0 <= i <= |emails|
      invariant WellFormed(board)
      invariant forall c :: c in ColumnIds ==> board[c] == ColumnContents(emails[..i], now, c)
    {
      var e := emails[i];
      assert emails[..i + 1][..i] == emails[..i];
      if !IsHidden(e, now) {
        var c := ColumnFor(e.taskStatus);
        board := board[c := board[c] + [e]];
      }
      i := i + 1;
    }
    assert emails[..i] == emails;
  }

  /** Partitioning one more email extends the column it lands in and nothing else. */
  lemma PartitionSnoc(emails: seq<Email>, now: int)
    requires emails != []
    ensures var init, last := emails[..|emails| - 1], emails[|emails| - 1];
            var p := Partition(init, now);
            Partition(emails, now)
              == if IsHidden(last, now) then p
                 else p[ColumnFor(last.taskStatus) := p[ColumnFor(last.taskStatus)] + [last]]
  {
    var init, last := emails[..|emails| - 1], emails[|emails| - 1];
    var p, q := Partition(init, now), Partition(emails, now);
    forall c | c in ColumnIds
      ensures q[c] == p[c] + (if LandsIn(last, now, c) then [last] else [])
    {
    }
    SnocBoard(p, q, last, now);
  }

  /** A board whose every column is the old column, extended by `last` where it
      lands, is the old board with `last` appended to its column. */
  lemma SnocBoard(p: Board, q: Board, last: Email, now: int)
    requires WellFormed(p) && WellFormed(q)
    requires forall c :: c in ColumnIds ==> q[c] == p[c] + (if LandsIn(last, now, c) then [last] else [])
    ensures q == if IsHidden(last, now) then p
                 else p[ColumnFor(last.taskStatus) := p[ColumnFor(last.taskStatus)] + [last]]
  {
    if IsHidden(last, now) {
      assert forall c :: c in ColumnIds ==> q[c] == p[c];
    } else {
      var k := ColumnFor(last.taskStatus);
      var t := p[k := p[k] + [last]];
      assert forall c :: c in ColumnIds ==> q[c] == t[c];
    }
  }

  /** Appending one email to a column adds exactly that email to the board. */
  lemma AllEmailsAppend(b: Board, c: string, e: Email)
    requires WellFormed(b) && c in ColumnIds
    ensures WellFormed(b[c := b[c] + [e]])
    ensures AllEmails(b[c := b[c] + [e]]) == AllEmails(b) + multiset{e}
  {
    AllEmailsUpdate(b, c, b[c] + [e]);
    assert multiset(b[c] + [e]) == multiset(b[c]) + multiset{e};
    Cancel(AllEmails(b[c := b[c] + [e]]), AllEmails(b) + multiset{e}, multiset(b[c]));
  }

  /** No email is lost and none is duplicated: the board holds exactly the visible
      emails, each as many times as it occurs in the input. */
  lemma {:induction false} PartitionIsExact(emails: seq<Email>, now: int)
    ensures AllEmails(Partition(emails, now)) == multiset(Visible(emails, now))
  {
    if emails != [] {
      var init, last := emails[..|emails| - 1], emails[|emails| - 1];
      PartitionIsExact(init, now);
      PartitionSnoc(emails, now);
      if !IsHidden(last, now) {
        AllEmailsAppend(Partition(init, now), ColumnFor(last.taskStatus), last);
      }
    }
  }

  /** A visible email is in the column its status selects and in no other column;
      a hidden email is in no column at all. */
  lemma PartitionPlacesEachEmail(emails: seq<Email>, now: int, e: Email)
    requires e in emails
    ensures !IsHidden(e, now) ==> e in Partition(emails, now)[ColumnFor(e.taskStatus)]
    ensures forall c :: c in ColumnIds && c != ColumnFor(e.taskStatus) ==> e !in Partition(emails, now)[c]
    ensures IsHidden(e, now) ==> forall c :: c in ColumnIds ==> e !in Partition(emails, now)[c]
  {
    if !IsHidden(e, now) {
      InColumn(emails, now, e);
    }
  }

  /** A visible email of the input appears in its column's reference contents. */
  lemma {:induction false} InColumn(emails: seq<Email>, now: int, e: Email)
    requires e in emails && !IsHidden(e, now)
    ensures e in ColumnContents(emails, now, ColumnFor(e.taskStatus))
  {
    var last := emails[|emails| - 1];
    if e != last {
      assert e in emails[..|emails| - 1] by {
        assert emails == emails[..|emails| - 1] + [last];
      }
      InColumn(emails[..|emails| - 1], now, e);
    }
  }

  // ---------------------------------------------------------------------------
  // Drag and drop

  /** Where a drag started or ended: a column id and a position in it. */
  datatype Location = Location(droppableId: string, index: int)

  /** The drag-and-drop library's report of a finished drag. The dragged item's id
      is the email id (the library hands it over as a string; its parsing is not
      modelled). */
  datatype DropResult = DropResult(emailId: int, source: Location, destination: Option<Location>)

  /** The remote update the board asks for. */
  datatype StatusUpdate = StatusUpdate(id: int, taskStatus: string)

  /** What a finished drag does. `Moved` carries the optimistic board, the remote
      request, and the values the error handler captured: the board before the move
      and the two columns it touched. */
  datatype DragOutcome =
    | Ignored
    | Thrown
    | Moved(optimistic: Board, request: StatusUpdate,
            snapshot: Board, sourceId: string, destId: string,
            sourceColumn: seq<Email>, destColumn: seq<Email>)

  /** The first email with the given id, as `Array.prototype.find` returns it. */
  function FindById(col: seq<Email>, id: int): (r: Option<Email>)
    ensures r.Some? ==> r.value in col && r.value.id == id
    ensures r.None? <==> forall e :: e in col ==> e.id != id
  {
    if col == [] then None
    else if col[0].id == id then Some(col[0])
    else FindById(col[1..], id)
  }

  /** Position of the first email with the given id. */
  function FirstIndexOf(col: seq<Email>, id: int): (k: nat)
    requires exists e :: e in col && e.id == id
    ensures k < |col| && col[k].id == id
    ensures forall j :: 0 <= j < k ==> col[j].id != id
    ensures FindById(col, id) == Some(col[k])
  {
    if col[0].id == id then 0 else 1 + FirstIndexOf(col[1..], id)
  }

  /** The start position `Array.prototype.splice` derives from its index argument:
      negative indices count from the end, and both ends are clamped. */
  function SpliceStart(len: nat, index: int): (k: nat)
    ensures k <= len
    ensures 0 <= index <= len ==> k == index
  {
    if index < 0 then (if len + index < 0 then 0 else len + index)
    else if index > len then len
    else index
  }

  /** `copy.splice(index, 1)`: drops the element at the start position, if any. */
  function SpliceRemove(s: seq<Email>, index: int): (r: seq<Email>)
    ensures 0 <= index < |s| ==> r == s[..index] + s[index + 1..]
    ensures 0 <= index < |s| ==> multiset(r) + multiset{s[index]} == multiset(s)
    ensures index >= |s| ==> r == s
  {
    var k := SpliceStart(|s|, index);
    if k < |s| then
      assert s == s[..k] + [s[k]] + s[k + 1..];
      s[..k] + s[k + 1..]
    else s
  }

  /** `copy.splice(index, 0, x)`: inserts `x` at the start position. */
  function SpliceInsert(s: seq<Email>, index: int, x: Email): (r: seq<Email>)
    ensures |r| == |s| + 1
    ensures 0 <= index <= |s| ==> r[index] == x && r[..index] == s[..index] && r[index + 1..] == s[index..]
    ensures multiset(r) == multiset(s) + multiset{x}
  {
    var k := SpliceStart(|s|, index);
    assert s == s[..k] + s[k..];
    s[..k] + [x] + s[k..]
  }

  /** The task status a drop into a column persists: the configured status of the
      column with that id, or `none` when no column has it. */
  function StatusForColumn(columnId: string): (status: string)
    ensures columnId in {"todo", "in_progress", "done"} ==> status == columnId
    ensures columnId !in {"todo", "in_progress", "done"} ==> status == "none"
  {
    var found := FindConfig(Columns, columnId);
    if found.Some? && found.value.taskStatus != "" then found.value.taskStatus else "none"
  }

  /** The first configuration entry with the given id. */
  function FindConfig(cfg: seq<ColumnConfig>, id: string): (r: Option<ColumnConfig>)
    ensures r.Some? ==> r.value in cfg && r.value.id == id
    ensures r.None? ==> forall c :: c in cfg ==> c.id != id
  {
    if cfg == [] then None
    else if cfg[0].id == id then Some(cfg[0])
    else FindConfig(cfg[1..], id)
  }

  /** The drop handler as written. Later object keys win, so when source and
      destination are the same column the destination copy replaces the source copy. */
  function HandleDragEnd(columns: Board, drop: DropResult): (r: DragOutcome)
    ensures drop.destination.None? ==> r == Ignored
    ensures drop.destination.Some? && drop.destination.value == drop.source ==> r == Ignored
    ensures drop.source.droppableId in columns && FindById(columns[drop.source.droppableId], drop.emailId).None?
            ==> r == Ignored
    ensures r.Moved? ==> && drop.destination.Some?
                         && r.sourceId == drop.source.droppableId
                         && r.destId == drop.destination.value.droppableId
                         && r.sourceId in columns && r.destId in columns
                         && r.snapshot == columns
                         && r.sourceColumn == columns[r.sourceId]
                         && r.destColumn == columns[r.destId]
                         && r.request == StatusUpdate(drop.emailId, StatusForColumn(r.destId))
                         && r.optimistic.Keys == columns.Keys
                         && forall k :: k in columns && k != r.sourceId && k != r.destId
                                        ==> r.optimistic[k] == columns[k]
    ensures r == Thrown <==> && drop.destination.Some? && drop.destination.value != drop.source
                             && (|| drop.source.droppableId !in columns
                                 || (&& FindById(columns[drop.source.droppableId], drop.emailId).Some?
                                     && drop.destination.value.droppableId !in columns))
    ensures r.Moved? <==> && drop.destination.Some? && drop.destination.value != drop.source
                          && drop.source.droppableId in columns
                          && drop.destination.value.droppableId in columns
                          && FindById(columns[drop.source.droppableId], drop.emailId).Some?
    ensures r.Moved? ==> r.optimistic[r.destId]
                           == SpliceInsert(r.destColumn, drop.destination.value.index, FindById(r.sourceColumn, drop.emailId).value)
    ensures r.Moved? && r.sourceId != r.destId ==> r.optimistic[r.sourceId] == SpliceRemove(r.sourceColumn, drop.source.index)
  {
    match drop.destination
    case None => Ignored
    case Some(dest) =>
      var src := drop.source;
      if src.droppableId == dest.droppableId && src.index == dest.index then Ignored
      else if src.droppableId !in columns then Thrown
      else
        var sourceColumn := columns[src.droppableId];
        match FindById(sourceColumn, drop.emailId)
        case None => Ignored
        case Some(moved) =>
          if dest.droppableId !in columns then Thrown
          else
            var destColumn := columns[dest.droppableId];
            var newSource := SpliceRemove(sourceColumn, src.index);
            var newDest := SpliceInsert(destColumn, dest.index, moved);
            Moved(columns[src.droppableId := newSource][dest.droppableId := newDest],
                  StatusUpdate(drop.emailId, StatusForColumn(dest.droppableId)),
                  columns, src.droppableId, dest.droppableId, sourceColumn, destColumn)
  }

  /** The drop is a well-formed move of the email at `source.index`: both columns
      exist, both positions are in range, and the first email in the source column
      with the dragged id sits exactly at `source.index`. */
  predicate FaithfulDrop(columns: Board, drop: DropResult) {
    && drop.destination.Some?
    && drop.source.droppableId in columns
    && drop.destination.value.droppableId in columns
    && 0 <= drop.source.index < |columns[drop.source.droppableId]|
    && 0 <= drop.destination.value.index <= |columns[drop.destination.value.droppableId]|
    && columns[drop.source.droppableId][drop.source.index].id == drop.emailId
    && FirstIndexOf(columns[drop.source.droppableId], drop.emailId) == drop.source.index
  }

  /** A faithful drop is carried out: the handler reaches the optimistic update. */
  lemma FaithfulDropMoves(columns: Board, drop: DropResult)
    requires FaithfulDrop(columns, drop)
    requires drop.destination.value != drop.source
    ensures var s, d := drop.source.droppableId, drop.destination.value.droppableId;
            var moved := columns[s][drop.source.index];
            HandleDragEnd(columns, drop)
              == Moved(columns[s := SpliceRemove(columns[s], drop.source.index)]
                              [d := SpliceInsert(columns[d], drop.destination.value.index, moved)],
                       StatusUpdate(drop.emailId, StatusForColumn(d)),
                       columns, s, d, columns[s], columns[d])
  {
  }

  /** Taking an email out of one column and putting it into another keeps the
      board's contents. */
  lemma TransferKeepsEmails(b: Board, s: string, d: string, ns: seq<Email>, nd: seq<Email>, m: Email)
    requires WellFormed(b) && s in ColumnIds && d in ColumnIds && s != d
    requires multiset(ns) + multiset{m} == multiset(b[s])
    requires multiset(nd) == multiset(b[d]) + multiset{m}
    ensures WellFormed(b[s := ns][d := nd])
    ensures AllEmails(b[s := ns][d := nd]) == AllEmails(b)
  {
    var b1 := b[s := ns];
    AllEmailsUpdate(b, s, ns);
    AllEmailsUpdate(b1, d, nd);
    assert b1[d] == b[d];
    var b2 := b1[d := nd];
    var a, a1, a2 := AllEmails(b), AllEmails(b1), AllEmails(b2);
    var ms, md, mn, mnd := multiset(b[s]), multiset(b[d]), multiset(ns), multiset(nd);
    assert a1 + ms == a + mn;
    assert a2 + md == a1 + mnd;
    forall x
      ensures a2[x] == a[x]
    {
      assert (a1 + ms)[x] == (a + mn)[x];
      assert (a2 + md)[x] == (a1 + mnd)[x];
      assert (mn + multiset{m})[x] == ms[x];
      assert mnd[x] == (md + multiset{m})[x];
    }
    assert a2 == a;
  }

  /** A faithful drop into another column removes the email from its old position,
      inserts it at the new one, leaves the other columns alone, and neither loses
      nor duplicates any email on the board. */
  lemma CrossColumnMove(columns: Board, drop: DropResult)
    requires WellFormed(columns) && FaithfulDrop(columns, drop)
    requires drop.source.droppableId != drop.destination.value.droppableId
    ensures var r := HandleDragEnd(columns, drop);
            var src, dst := drop.source, drop.destination.value;
            var moved := columns[src.droppableId][src.index];
            && r.Moved?
            && WellFormed(r.optimistic)
            && r.optimistic[src.droppableId] == columns[src.droppableId][..src.index] + columns[src.droppableId][src.index + 1..]
            && r.optimistic[dst.droppableId][dst.index] == moved
            && r.optimistic[dst.droppableId][..dst.index] == columns[dst.droppableId][..dst.index]
            && r.optimistic[dst.droppableId][dst.index + 1..] == columns[dst.droppableId][dst.index..]
            && AllEmails(r.optimistic) == AllEmails(columns)
  {
    var src, dst := drop.source, drop.destination.value;
    FaithfulDropMoves(columns, drop);
    MovedBoard(columns, src.droppableId, dst.droppableId, src.index, dst.index, columns[src.droppableId][src.index]);
  }

  /** The removal goes by `source.index`, not by where the dragged email was found.
      When the email at that index is a different one, the cross-column move drops
      that other email from the board, leaves the dragged one in its source column
      and adds a second copy of it to the destination. */
  lemma MisplacedIndexMove(columns: Board, drop: DropResult)
    requires WellFormed(columns) && drop.destination.Some?
    requires drop.source.droppableId in columns && drop.destination.value.droppableId in columns
    requires drop.source.droppableId != drop.destination.value.droppableId
    requires 0 <= drop.source.index < |columns[drop.source.droppableId]|
    requires FindById(columns[drop.source.droppableId], drop.emailId).Some?
    requires columns[drop.source.droppableId][drop.source.index].id != drop.emailId
    ensures var r := HandleDragEnd(columns, drop);
            var s, d, i := drop.source.droppableId, drop.destination.value.droppableId, drop.source.index;
            var moved := FindById(columns[s], drop.emailId).value;
            var removed := columns[s][i];
            && r.Moved?
            && removed != moved
            && WellFormed(r.optimistic)
            && r.optimistic[s] == columns[s][..i] + columns[s][i + 1..]
            && moved in r.optimistic[s]
            && multiset(r.optimistic[d]) == multiset(columns[d]) + multiset{moved}
            && AllEmails(r.optimistic) == AllEmails(columns) - multiset{removed} + multiset{moved}
  {
    var s, d, i := drop.source.droppableId, drop.destination.value.droppableId, drop.source.index;
    var moved := FindById(columns[s], drop.emailId).value;
    var removed := columns[s][i];
    var ns := SpliceRemove(columns[s], i);
    var nd := SpliceInsert(columns[d], drop.destination.value.index, moved);
    var r := HandleDragEnd(columns, drop);
    assert r.optimistic == columns[s := ns][d := nd];
    MisplacedCounts(columns, s, d, ns, nd, removed, moved);
    assert moved in multiset(ns) by {
      assert multiset(ns) + multiset{removed} == multiset(columns[s]);
      assert moved in multiset(columns[s]);
    }
  }

  /** Board contents after one email leaves the source column and another joins the
      destination column. */
  lemma MisplacedCounts(b: Board, s: string, d: string, ns: seq<Email>, nd: seq<Email>, removed: Email, added: Email)
    requires WellFormed(b) && s in ColumnIds && d in ColumnIds && s != d
    requires multiset(ns) + multiset{removed} == multiset(b[s])
    requires multiset(nd) == multiset(b[d]) + multiset{added}
    ensures WellFormed(b[s := ns][d := nd])
    ensures AllEmails(b[s := ns][d := nd]) == AllEmails(b) - multiset{removed} + multiset{added}
  {
    var b1 := b[s := ns];
    AllEmailsUpdate(b, s, ns);
    AllEmailsUpdate(b1, d, nd);
    assert b1[d] == b[d];
    var b2 := b1[d := nd];
    var a, a1, a2 := AllEmails(b), AllEmails(b1), AllEmails(b2);
    var ms, md, mn, mnd := multiset(b[s]), multiset(b[d]), multiset(ns), multiset(nd);
    assert a1 + ms == a + mn;
    assert a2 + md == a1 + mnd;
    assert removed in a by { assert removed in ms; }
    forall x
      ensures a2[x] == (a - multiset{removed} + multiset{added})[x]
    {
      assert (a1 + ms)[x] == (a + mn)[x];
      assert (a2 + md)[x] == (a1 + mnd)[x];
      assert (mn + multiset{removed})[x] == ms[x];
      assert mnd[x] == (md + multiset{added})[x];
    }
    assert a2 == a - multiset{removed} + multiset{added};
  }

  /** The board a cross-column move produces, described column by column. */
  lemma MovedBoard(columns: Board, s: string, d: string, si: nat, di: nat, moved: Email)
    requires WellFormed(columns) && s in columns && d in columns && s != d
    requires si < |columns[s]| && di <= |columns[d]| && columns[s][si] == moved
    ensures var b := columns[s := SpliceRemove(columns[s], si)][d := SpliceInsert(columns[d], di, moved)];
            && WellFormed(b)
            && b[s] == columns[s][..si] + columns[s][si + 1..]
            && b[d][di] == moved
            && b[d][..di] == columns[d][..di]
            && b[d][di + 1..] == columns[d][di..]
            && AllEmails(b) == AllEmails(columns)
  {
    var ns := SpliceRemove(columns[s], si);
    var nd := SpliceInsert(columns[d], di, moved);
    TransferKeepsEmails(columns, s, d, ns, nd, moved);
    var b := columns[s := ns][d := nd];
    assert b[s] == ns && b[d] == nd;
  }

  /** How the pending move settles: a successful remote update keeps the optimistic
      board; a failed one writes the captured columns back over the captured board. */
  function Settle(o: DragOutcome, current: Board, remoteOk: bool): (b: Board)
    ensures !o.Moved? ==> b == current
    ensures o.Moved? && remoteOk ==> b == current
  {
    match o
    case Moved(_, _, snapshot, s, d, sc, dc) =>
      if remoteOk then current else snapshot[s := sc][d := dc]
    case _ => current
  }

  /** On a failed remote update the board is exactly the board before the drag. */
  lemma RollbackRestores(columns: Board, drop: DropResult, current: Board)
    requires HandleDragEnd(columns, drop).Moved?
    ensures Settle(HandleDragEnd(columns, drop), current, false) == columns
  {
  }

  /** The board right after a drop. A drop that is ignored or throws leaves the
      board as it was; any drop keeps the board's column ids. */
  function BoardAfterDrop(columns: Board, drop: DropResult): (b: Board)
    ensures !HandleDragEnd(columns, drop).Moved? ==> b == columns
    ensures b.Keys == columns.Keys
    ensures WellFormed(columns) ==> WellFormed(b)
    ensures drop.destination.Some? && drop.destination.value.droppableId in columns
            && drop.source.droppableId in columns && FindById(columns[drop.source.droppableId], drop.emailId).Some?
            && drop.destination.value != drop.source
            ==> FindById(columns[drop.source.droppableId], drop.emailId).value in b[drop.destination.value.droppableId]
  {
    var r := HandleDragEnd(columns, drop);
    if r.Moved? then r.optimistic else columns
  }

  /** What a well-formed drop does to the board's contents: a cross-column move
      keeps every email; a reorder inside one column, as written, adds a second copy
      of the dragged email; dropping back in place changes nothing. */
  lemma DropKeepsBoard(columns: Board, drop: DropResult)
    requires WellFormed(columns) && FaithfulDrop(columns, drop)
    ensures var b := BoardAfterDrop(columns, drop);
            var src, dst := drop.source, drop.destination.value;
            && WellFormed(b)
            && (src.droppableId != dst.droppableId ==> AllEmails(b) == AllEmails(columns))
            && (src.droppableId == dst.droppableId && src.index != dst.index ==>
                  AllEmails(b) == AllEmails(columns) + multiset{columns[src.droppableId][src.index]})
            && (src == dst ==> b == columns)
  {
    var src, dst := drop.source, drop.destination.value;
    if src.droppableId != dst.droppableId {
      CrossColumnMove(columns, drop);
    } else if src.index != dst.index {
      SameColumnDropDuplicates(columns, drop);
    }
  }

  /** A drop into a column persists a status that, once the board re-partitions the
      refreshed emails, puts the email back in that same column. */
  lemma StatusAgreesWithPartition(columnId: string)
    requires columnId in ColumnIds
    ensures ColumnFor(StatusForColumn(columnId)) == columnId
  {
  }

  /** AS WRITTEN: reordering within one column does not move the email but copies
      it: the column gains a second copy and the board grows by one. */
  lemma SameColumnDropDuplicates(columns: Board, drop: DropResult)
    requires WellFormed(columns) && FaithfulDrop(columns, drop)
    requires drop.source.droppableId == drop.destination.value.droppableId
    requires drop.source.index != drop.destination.value.index
    ensures var r := HandleDragEnd(columns, drop);
            var moved := columns[drop.source.droppableId][drop.source.index];
            && r.Moved?
            && |r.optimistic[drop.source.droppableId]| == |columns[drop.source.droppableId]| + 1
            && AllEmails(r.optimistic) == AllEmails(columns) + multiset{moved}
  {
    var s := drop.source.droppableId;
    FaithfulDropMoves(columns, drop);
    DuplicatedBoard(columns, s, drop.source.index, drop.destination.value.index, columns[s][drop.source.index]);
  }

  /** The board the as-written handler produces when source and destination are the
      same column: the insertion overwrites the removal. */
  lemma DuplicatedBoard(columns: Board, s: string, si: nat, di: nat, moved: Email)
    requires WellFormed(columns) && s in columns
    requires si < |columns[s]| && di <= |columns[s]| && columns[s][si] == moved
    ensures var b := columns[s := SpliceRemove(columns[s], si)][s := SpliceInsert(columns[s], di, moved)];
            && |b[s]| == |columns[s]| + 1
            && AllEmails(b) == AllEmails(columns) + multiset{moved}
  {
    var nd := SpliceInsert(columns[s], di, moved);
    var b := columns[s := SpliceRemove(columns[s], si)][s := nd];
    assert b == columns[s := nd];
    AllEmailsUpdate(columns, s, nd);
    assert AllEmails(b) + multiset(columns[s]) == (AllEmails(columns) + multiset{moved}) + multiset(columns[s]);
    Cancel(AllEmails(b), AllEmails(columns) + multiset{moved}, multiset(columns[s]));
  }

  /** A concrete instance: dragging the top inbox email down one place leaves two
      copies of it in the inbox. */
  lemma SameColumnDropExample(a: Email, b: Email)
    requires a.id != b.id
    ensures var columns := map["inbox" := [a, b], "todo" := [], "in_progress" := [], "done" := []];
            var r := HandleDragEnd(columns, DropResult(a.id, Location("inbox", 0), Some(Location("inbox", 1))));
            r.Moved? && r.optimistic["inbox"] == [a, a, b]
  {
    var columns := map["inbox" := [a, b], "todo" := [], "in_progress" := [], "done" := []];
    var drop := DropResult(a.id, Location("inbox", 0), Some(Location("inbox", 1)));
    assert FindById([a, b], a.id) == Some(a);
    assert SpliceInsert([a, b], 1, a) == [a, a, b];
    assert HandleDragEnd(columns, drop).optimistic
        == columns["inbox" := SpliceRemove([a, b], 0)]["inbox" := [a, a, b]];
  }

  /** CORRECTED drop handler: the same column is spliced once for the removal and
      then for the insertion, so a reorder moves the email; cross-column drops are
      unchanged. */
  function HandleDragEndFixed(columns: Board, drop: DropResult): (r: DragOutcome)
    ensures drop.destination.Some? && drop.source.droppableId != drop.destination.value.droppableId
            ==> r == HandleDragEnd(columns, drop)
    ensures !HandleDragEnd(columns, drop).Moved? ==> r == HandleDragEnd(columns, drop)
  {
    var r := HandleDragEnd(columns, drop);
    match r
    case Moved(_, req, snapshot, s, d, sc, dc) =>
      if s == d then
        var moved := FindById(sc, drop.emailId).value;
        var col := SpliceInsert(SpliceRemove(sc, drop.source.index), drop.destination.value.index, moved);
        Moved(columns[s := col], req, snapshot, s, d, sc, dc)
      else r
    case _ => r
  }

  /** The corrected handler's board for a faithful reorder within one column. */
  lemma FixedReorderBoard(columns: Board, drop: DropResult)
    requires FaithfulDrop(columns, drop)
    requires drop.source.droppableId == drop.destination.value.droppableId
    requires drop.source.index != drop.destination.value.index
    ensures var s := drop.source.droppableId;
            var r := HandleDragEndFixed(columns, drop);
            && r.Moved?
            && r.optimistic == columns[s := SpliceInsert(SpliceRemove(columns[s], drop.source.index),
                                                         drop.destination.value.index,
                                                         columns[s][drop.source.index])]
  {
    var s := drop.source.droppableId;
    FaithfulDropMoves(columns, drop);
    FaithfulFind(columns[s], drop.emailId, drop.source.index);
    FixedOfSameColumn(columns, drop);
  }

  /** The corrected handler, unfolded for a move within one column. */
  lemma FixedOfSameColumn(columns: Board, drop: DropResult)
    requires HandleDragEnd(columns, drop).Moved?
    requires drop.source.droppableId == drop.destination.value.droppableId
    ensures var r := HandleDragEnd(columns, drop);
            var s := drop.source.droppableId;
            var col := SpliceInsert(SpliceRemove(r.sourceColumn, drop.source.index), drop.destination.value.index,
                                    FindById(r.sourceColumn, drop.emailId).value);
            HandleDragEndFixed(columns, drop).optimistic == columns[s := col]
  {
  }

  /** An email sitting at the first position with its id is the one found by id. */
  lemma FaithfulFind(col: seq<Email>, id: int, k: nat)
    requires k < |col| && col[k].id == id && FirstIndexOf(col, id) == k
    ensures FindById(col, id) == Some(col[k])
  {
  }

  /** With the corrected handler a faithful reorder within a column is a permutation
      of that column, and the board keeps every email exactly once. */
  lemma SameColumnReorderFixed(columns: Board, drop: DropResult)
    requires WellFormed(columns) && FaithfulDrop(columns, drop)
    requires drop.source.droppableId == drop.destination.value.droppableId
    requires drop.source.index != drop.destination.value.index
    ensures var r := HandleDragEndFixed(columns, drop);
            var s := drop.source.droppableId;
            && r.Moved?
            && WellFormed(r.optimistic)
            && |r.optimistic[s]| == |columns[s]|
            && multiset(r.optimistic[s]) == multiset(columns[s])
            && AllEmails(r.optimistic) == AllEmails(columns)
  {
    var s := drop.source.droppableId;
    var moved := columns[s][drop.source.index];
    var removed := SpliceRemove(columns[s], drop.source.index);
    var col := SpliceInsert(removed, drop.destination.value.index, moved);
    FixedReorderBoard(columns, drop);
    assert multiset(col) == multiset(columns[s]);
    AllEmailsUpdate(columns, s, col);
    Cancel(AllEmails(columns[s := col]), AllEmails(columns), multiset(col));
  }
}

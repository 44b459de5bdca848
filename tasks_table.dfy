/** The editable tasks table: the add form, completion toggles, the two-phase
    delete dialog and the pagination footer, over the in-memory task store. */
module TasksTable {
  import opened TaskModel
  import opened IsoDate
  import opened Arithmetic

  /* ---------- Store transforms ---------- */

  /** `prev.map(t => t.id === id ? { ...t, completed: !t.completed } : t)` */
  function Toggled(tasks: seq<Task>, id: string): (r: seq<Task>)
    ensures |r| == |tasks|
  {
    if tasks == [] then []
    else
      var t := tasks[0];
      [if t.id == id then t.(completed := !t.completed) else t] + Toggled(tasks[1..], id)
  }

  /** `prev.filter(t => t.id !== id)` */
  function WithoutId(tasks: seq<Task>, id: string): (r: seq<Task>)
    ensures |r| <= |tasks|
    ensures forall t :: t in r <==> t in tasks && t.id != id
  {
    if tasks == [] then []
    else if tasks[0].id == id then WithoutId(tasks[1..], id)
    else [tasks[0]] + WithoutId(tasks[1..], id)
  }

  /** Toggling flips the flag of exactly the tasks with that id; positions,
      ids, titles, due dates and subjects never change. */
  lemma {:induction false} ToggledFlipsOnlyMatches(tasks: seq<Task>, id: string)
    ensures var r := Toggled(tasks, id);
      |r| == |tasks| &&
      forall i :: 0 <= i < |tasks| ==>
        r[i].id == tasks[i].id && r[i].title == tasks[i].title && r[i].dueDate == tasks[i].dueDate
        && r[i].subject == tasks[i].subject
        && (r[i].completed <==> (if tasks[i].id == id then !tasks[i].completed else tasks[i].completed))
  {
    if tasks != [] {
      ToggledFlipsOnlyMatches(tasks[1..], id);
      var r := Toggled(tasks, id);
      assert r[1..] == Toggled(tasks[1..], id);
    }
  }

  /** Toggling an id that no task has changes nothing. */
  lemma {:induction false} ToggledUnknownIdIsNoOp(tasks: seq<Task>, id: string)
    requires id !in Ids(tasks)
    ensures Toggled(tasks, id) == tasks
  {
    if tasks != [] {
      assert tasks[0] in tasks;
      IdsOfTail(tasks);
      ToggledUnknownIdIsNoOp(tasks[1..], id);
    }
  }

  /** Toggling twice gives the store back. */
  lemma {:induction false} ToggledTwiceIsIdentity(tasks: seq<Task>, id: string)
    ensures Toggled(Toggled(tasks, id), id) == tasks
  {
    if tasks != [] {
      ToggledTwiceIsIdentity(tasks[1..], id);
      assert Toggled(tasks, id)[1..] == Toggled(tasks[1..], id);
    }
  }

  /** Filtering distributes over concatenation: the kept tasks stay in their
      original order. */
  lemma {:induction false} WithoutIdKeepsOrder(a: seq<Task>, b: seq<Task>, id: string)
    ensures WithoutId(a + b, id) == WithoutId(a, id) + WithoutId(b, id)
  {
    if a == [] {
      assert a + b == b;
    } else {
      assert (a + b)[0] == a[0] && (a + b)[1..] == a[1..] + b;
      WithoutIdKeepsOrder(a[1..], b, id);
    }
  }

  /** Deleting an id that no task has changes nothing. */
  lemma {:induction false} WithoutUnknownIdIsNoOp(tasks: seq<Task>, id: string)
    requires id !in Ids(tasks)
    ensures WithoutId(tasks, id) == tasks
  {
    if tasks != [] {
      assert tasks[0] in tasks;
      IdsOfTail(tasks);
      WithoutUnknownIdIsNoOp(tasks[1..], id);
    }
  }

  lemma IdsOfTail(tasks: seq<Task>)
    requires tasks != []
    ensures Ids(tasks[1..]) <= Ids(tasks)
  {
    forall x | x in Ids(tasks[1..]) ensures x in Ids(tasks) {
      var t :| t in tasks[1..] && t.id == x;
      assert t in tasks;
    }
  }

  /** With unique ids, confirming a delete removes exactly one task. */
  lemma {:induction false} WithoutIdRemovesOne(tasks: seq<Task>, i: int)
    requires UniqueIds(tasks) && 0 <= i < |tasks|
    ensures WithoutId(tasks, tasks[i].id) == tasks[..i] + tasks[i + 1..]
  {
    var id := tasks[i].id;
    assert tasks == tasks[..i] + ([tasks[i]] + tasks[i + 1..]);
    WithoutIdKeepsOrder(tasks[..i], [tasks[i]] + tasks[i + 1..], id);
    WithoutIdKeepsOrder([tasks[i]], tasks[i + 1..], id);
    assert WithoutId([tasks[i]], id) == [] by {
      assert [tasks[i]][1..] == [];
    }
    IdOnlyAt(tasks, i);
    WithoutUnknownIdIsNoOp(tasks[..i], id);
    WithoutUnknownIdIsNoOp(tasks[i + 1..], id);
  }

  /** With unique ids, no task before or after position i has its id. */
  lemma IdOnlyAt(tasks: seq<Task>, i: int)
    requires UniqueIds(tasks) && 0 <= i < |tasks|
    ensures tasks[i].id !in Ids(tasks[..i])
    ensures tasks[i].id !in Ids(tasks[i + 1..])
  {
    forall t | t in tasks[..i] ensures t.id != tasks[i].id {
      var j :| 0 <= j < i && tasks[..i][j] == t;
      assert tasks[j].id != tasks[i].id;
    }
    forall t | t in tasks[i + 1..] ensures t.id != tasks[i].id {
      var j :| 0 <= j < |tasks[i + 1..]| && tasks[i + 1..][j] == t;
      assert tasks[i].id != tasks[i + 1 + j].id;
    }
  }

  /** A toggle between marking a task for deletion and confirming does not
      change what the confirmation removes. */
  lemma {:induction false} DeleteCommutesWithToggle(tasks: seq<Task>, pending: string, toggled: string)
    ensures WithoutId(Toggled(tasks, toggled), pending) == Toggled(WithoutId(tasks, pending), toggled)
  {
    if tasks != [] {
      DeleteCommutesWithToggle(tasks[1..], pending, toggled);
      assert Toggled(tasks, toggled)[1..] == Toggled(tasks[1..], toggled);
      var w := WithoutId(tasks[1..], pending);
      if tasks[0].id != pending {
        assert ([tasks[0]] + w)[1..] == w;
      }
    }
  }

  lemma {:induction false} ToggledKeepsUniqueIds(tasks: seq<Task>, id: string)
    requires UniqueIds(tasks)
    ensures UniqueIds(Toggled(tasks, id))
  {
    ToggledFlipsOnlyMatches(tasks, id);
  }

  lemma {:induction false} WithoutIdKeepsUniqueIds(tasks: seq<Task>, id: string)
    requires UniqueIds(tasks)
    ensures UniqueIds(WithoutId(tasks, id))
  {
    if tasks != [] {
      assert UniqueIds(tasks[1..]);
      WithoutIdKeepsUniqueIds(tasks[1..], id);
      var rest := WithoutId(tasks[1..], id);
      if tasks[0].id != id {
        forall t | t in rest ensures t.id != tasks[0].id {
          var j :| 0 < j < |tasks| && tasks[j] == t;
        }
        var r := [tasks[0]] + rest;
        forall i, j | 0 <= i < j < |r| ensures r[i].id != r[j].id {
          if i == 0 {
            assert r[j] in rest;
          } else {
            assert r[i] == rest[i - 1] && r[j] == rest[j - 1];
          }
        }
      }
    }
  }

  /** Toggling never changes which ids the store holds. */
  lemma {:induction false} IdsOfToggled(tasks: seq<Task>, id: string)
    ensures Ids(Toggled(tasks, id)) == Ids(tasks)
  {
    var r := Toggled(tasks, id);
    ToggledFlipsOnlyMatches(tasks, id);
    forall x | x in Ids(r) ensures x in Ids(tasks) {
      var t :| t in r && t.id == x;
      var k :| 0 <= k < |r| && r[k] == t;
      assert tasks[k] in tasks;
    }
    forall x | x in Ids(tasks) ensures x in Ids(r) {
      var t :| t in tasks && t.id == x;
      var k :| 0 <= k < |tasks| && tasks[k] == t;
      assert r[k] in r;
    }
  }

  /** Deleting removes exactly the deleted id from the store's ids. */
  lemma IdsOfWithoutId(tasks: seq<Task>, id: string)
    ensures Ids(WithoutId(tasks, id)) == Ids(tasks) - {id}
  {
    var r := WithoutId(tasks, id);
    forall x | x in Ids(tasks) - {id} ensures x in Ids(r) {
      var t :| t in tasks && t.id == x;
      assert t in r;
    }
  }

  /** Appending a task adds exactly its id. */
  lemma IdsOfAppend(tasks: seq<Task>, t: Task)
    ensures Ids(tasks + [t]) == Ids(tasks) + {t.id}
  {
    var r := tasks + [t];
    assert t in r;
    forall x | x in Ids(tasks) ensures x in Ids(r) {
      var u :| u in tasks && u.id == x;
      assert u in r;
    }
    forall x | x in Ids(r) ensures x in Ids(tasks) + {t.id} {
      var u :| u in r && u.id == x;
      var k :| 0 <= k < |r| && r[k] == u;
      if k < |tasks| {
        assert tasks[k] == u;
      }
    }
  }

  /* ---------- Pagination ---------- */

  /** The rows-per-page choices the footer offers; -1 is "All". */
  const RowsPerPageOptions: seq<int> := [5, 10, 25, -1]

  /** Math.ceil(a / b) for a non-negative numerator and a non-zero divisor. */
  function CeilDiv(a: nat, b: int): (r: int)
    requires b != 0
    ensures b > 0 ==> (r - 1) * b < a <= r * b
    ensures b < 0 ==> r * b <= a < (r - 1) * b
  {
    if b > 0 then
      var q := (a + b - 1) / b;
      DivBracket(a + b - 1, b);
      assert (q - 1) * b == b * q - b && q * b == b * q;
      q
    else
      var q := a / (-b);
      DivBracket(a, -b);
      assert (-q) * b == (-b) * q && (-q - 1) * b == (-b) * q + (-b);
      -q
  }

  lemma CeilDivSign(a: nat, b: int)
    requires b != 0
    ensures b < 0 || a == 0 ==> CeilDiv(a, b) <= 0
    ensures b > 0 && a > 0 ==> CeilDiv(a, b) >= 1
  {
    var c := CeilDiv(a, b);
    if b < 0 {
      assert (c - 1) * b == (-b) * (1 - c);
      MulLeftMonotone(-b, 0, 1 - c);
    } else if a == 0 {
      assert (c - 1) * b == b * (c - 1);
      MulLeftMonotone(b, c - 1, 0);
    } else {
      assert c * b == b * c;
      MulLeftMonotone(b, 0, c);
    }
  }

  /** `lastPage` of the footer. */
  function LastPage(count: nat, rowsPerPage: int): (r: int)
    requires rowsPerPage != 0
    ensures r >= 0
    ensures count == 0 || rowsPerPage < 0 ==> r == 0
    ensures count > 0 && rowsPerPage > 0 ==> r * rowsPerPage < count <= (r + 1) * rowsPerPage
  {
    var c := CeilDiv(count, rowsPerPage);
    CeilDivSign(count, rowsPerPage);
    if c - 1 > 0 then c - 1 else 0
  }

  datatype PagerAction = FirstPage | PreviousPage | NextPage | LastPageAction

  /** The `disabled` flags of the four footer buttons. */
  predicate Disabled(action: PagerAction, page: int, lastPage: int)
  {
    match action
    case FirstPage => page == 0
    case PreviousPage => page == 0
    case NextPage => page >= lastPage
    case LastPageAction => page >= lastPage
  }

  /** The page each button asks for. An enabled button, pressed on an
      existing page, always moves to another existing page. */
  function Target(action: PagerAction, page: int, lastPage: int): (r: int)
    ensures 0 <= page <= lastPage && !Disabled(action, page, lastPage) ==> 0 <= r <= lastPage && r != page
  {
    match action
    case FirstPage => 0
    case PreviousPage => page - 1
    case NextPage => page + 1
    case LastPageAction => lastPage
  }

  /** A button is disabled exactly when pressing it would stay put or leave
      the pages that exist. */
  lemma DisabledIffStuck(action: PagerAction, page: int, lastPage: int)
    requires 0 <= page <= lastPage
    ensures Disabled(action, page, lastPage) <==>
      var r := Target(action, page, lastPage);
      r == page || r < 0 || r > lastPage
  {
  }

  /** An enabled button never leaves the pages that exist: from a page in
      [0, lastPage] every enabled button lands in [0, lastPage], and the
      previous/next buttons move by exactly one. */
  lemma PagerStaysInRange(action: PagerAction, count: nat, page: int, rowsPerPage: int)
    requires rowsPerPage in RowsPerPageOptions
    requires 0 <= page <= LastPage(count, rowsPerPage)
    requires !Disabled(action, page, LastPage(count, rowsPerPage))
    ensures var target := Target(action, page, LastPage(count, rowsPerPage));
      && 0 <= target <= LastPage(count, rowsPerPage)
      && (rowsPerPage > 0 && count > 0 ==> target * rowsPerPage < count)
      && (action == PreviousPage ==> target == page - 1)
      && (action == NextPage ==> target == page + 1)
  {
    var last := LastPage(count, rowsPerPage);
    var target := Target(action, page, last);
    if rowsPerPage > 0 && count > 0 {
      MulMonotone(target, last, rowsPerPage);
    }
  }

  /** `slice(start, end)` for non-negative bounds: both clamped to the length. */
  function Slice(s: seq<Task>, start: nat, end: nat): (r: seq<Task>)
    ensures |r| == if start >= |s| || end <= start then 0 else (if end <= |s| then end else |s|) - start
    ensures forall k :: 0 <= k < |r| ==> r[k] == s[start + k]
  {
    var lo := if start <= |s| then start else |s|;
    var hi := if end <= |s| then end else |s|;
    if hi <= lo then [] else s[lo..hi]
  }

  /** The rows the table body shows: page `page` of `rowsPerPage` rows, or
      every task for "All". */
  function VisibleRows(tasks: seq<Task>, page: nat, rowsPerPage: int): (r: seq<Task>)
    ensures rowsPerPage <= 0 ==> r == tasks
    ensures rowsPerPage > 0 ==>
      var start := page * rowsPerPage;
      && |r| == (if start >= |tasks| then 0 else if start + rowsPerPage <= |tasks| then rowsPerPage else |tasks| - start)
      && forall k :: 0 <= k < |r| ==> r[k] == tasks[start + k]
  {
    if rowsPerPage > 0 then Slice(tasks, page * rowsPerPage, page * rowsPerPage + rowsPerPage) else tasks
  }

  /** Height, in rows, of the filler row under the last page. */
  function EmptyRows(page: int, rowsPerPage: int, count: nat): (r: int)
    ensures r >= 0
    ensures page <= 0 ==> r == 0
    ensures rowsPerPage < 0 ==> r == 0
  {
    if page > 0 then (if (1 + page) * rowsPerPage - count > 0 then (1 + page) * rowsPerPage - count else 0) else 0
  }

  /** Row k of page p is task p * rowsPerPage + k whenever that task exists. */
  lemma PageRow(tasks: seq<Task>, p: nat, rowsPerPage: int, k: int)
    requires rowsPerPage > 0 && 0 <= k < rowsPerPage && p * rowsPerPage + k < |tasks|
    ensures k < |VisibleRows(tasks, p, rowsPerPage)|
    ensures VisibleRows(tasks, p, rowsPerPage)[k] == tasks[p * rowsPerPage + k]
  {
  }

  /** Every task is reachable: task i is row i % rowsPerPage of page
      i / rowsPerPage, and that page exists. With "All", every task is shown. */
  lemma EveryTaskOnItsPage(tasks: seq<Task>, rowsPerPage: int, i: int)
    requires rowsPerPage != 0 && 0 <= i < |tasks|
    ensures rowsPerPage < 0 ==> VisibleRows(tasks, 0, rowsPerPage) == tasks
    ensures rowsPerPage > 0 ==>
      var p := i / rowsPerPage;
      && 0 <= p <= LastPage(|tasks|, rowsPerPage)
      && i % rowsPerPage < |VisibleRows(tasks, p, rowsPerPage)|
      && VisibleRows(tasks, p, rowsPerPage)[i % rowsPerPage] == tasks[i]
  {
    if rowsPerPage > 0 {
      var p := i / rowsPerPage;
      PageOfPositionExists(|tasks|, rowsPerPage, i);
      PageRow(tasks, p, rowsPerPage, i - p * rowsPerPage);
    }
  }

  lemma PageOfPositionExists(count: nat, rowsPerPage: int, i: int)
    requires rowsPerPage > 0 && 0 <= i < count
    ensures 0 <= i / rowsPerPage <= LastPage(count, rowsPerPage)
    ensures i % rowsPerPage == i - (i / rowsPerPage) * rowsPerPage
    ensures 0 <= i - (i / rowsPerPage) * rowsPerPage < rowsPerPage
  {
    var p, last := i / rowsPerPage, LastPage(count, rowsPerPage);
    DivBracket(i, rowsPerPage);
    assert p * rowsPerPage == rowsPerPage * p;
    assert (last + 1) * rowsPerPage == rowsPerPage * (last + 1);
    MulLeftMonotone(rowsPerPage, p, last + 1);
  }

  /** On any page but the first that exists, the shown rows and the filler
      together take exactly one page's height. */
  lemma FillerCompletesPage(tasks: seq<Task>, page: int, rowsPerPage: int)
    requires rowsPerPage in RowsPerPageOptions
    requires 0 < page <= LastPage(|tasks|, rowsPerPage)
    ensures |VisibleRows(tasks, page, rowsPerPage)| + EmptyRows(page, rowsPerPage, |tasks|) == rowsPerPage
  {
    var last := LastPage(|tasks|, rowsPerPage);
    MulMonotone(page, last, rowsPerPage);
    assert (1 + page) * rowsPerPage == page * rowsPerPage + rowsPerPage;
  }

  /** Nothing clamps the page after a delete. With one task more than a
      page holds, deleting the last task while on page 1 leaves the table
      on page 1 although the last page is now 0: no rows are shown, the
      filler takes the whole page, "previous" is still enabled, and "last
      page" is disabled although its target, page 0, exists. */
  lemma DeleteCanLeavePagePastLast(tasks: seq<Task>, rowsPerPage: int)
    requires rowsPerPage > 0 && |tasks| == rowsPerPage + 1 && UniqueIds(tasks)
    ensures LastPage(|tasks|, rowsPerPage) == 1
    ensures var after := WithoutId(tasks, tasks[rowsPerPage].id);
      && LastPage(|after|, rowsPerPage) == 0
      && VisibleRows(after, 1, rowsPerPage) == []
      && EmptyRows(1, rowsPerPage, |after|) == rowsPerPage
      && !Disabled(PreviousPage, 1, LastPage(|after|, rowsPerPage))
      && Disabled(LastPageAction, 1, LastPage(|after|, rowsPerPage))
      && Target(LastPageAction, 1, LastPage(|after|, rowsPerPage)) == 0
  {
    WithoutIdRemovesOne(tasks, rowsPerPage);
    var after := WithoutId(tasks, tasks[rowsPerPage].id);
    assert |after| == rowsPerPage;
  }

  /* ---------- The component's state ---------- */

  /** What the add button did. */
  datatype AddOutcome = Ignored | RejectedPastDate | Added

  class TasksTable {
    /** The store (owned by the page and handed down with its setter). */
    var tasks: seq<Task>
    /** The add form. */
    var taskName: string
    var dueDate: string
    var subject: string
    /** The footer. */
    var page: int
    var rowsPerPage: int
    /** The delete dialog. */
    var openDialog: bool
    var taskToDelete: Option<Task>
    /** The UTC date at mount time, `YYYY-MM-DD`. */
    const today: string

    ghost predicate Valid()
      reads this
    {
      && UniqueIds(tasks)
      && page >= 0
      && rowsPerPage in RowsPerPageOptions
      && (openDialog <==> taskToDelete.Some?)
    }

    constructor (today: string)
      ensures Valid() && this.today == today
      ensures tasks == [] && taskName == "" && dueDate == "" && subject == ""
      ensures page == 0 && rowsPerPage == 5 && !openDialog && taskToDelete == None
    {
      this.today := today;
      tasks := [];
      taskName, dueDate, subject := "", "", "";
      page, rowsPerPage := 0, 5;
      openDialog, taskToDelete := false, None;
    }

    method SetTaskName(s: string)
      modifies this`taskName
      ensures taskName == s
    {
      taskName := s;
    }

    method SetDueDate(s: string)
      modifies this`dueDate
      ensures dueDate == s
    {
      dueDate := s;
    }

    method SetSubject(s: string)
      modifies this`subject
      ensures subject == s
    {
      subject := s;
    }

    /** The add button. `newId` is the fresh identifier the browser's UUID
        generator supplies. An incomplete form is ignored, a due date before
        today is rejected (the alert), and otherwise the task is appended and
        the form cleared. */
    method AddTask(newId: string) returns (outcome: AddOutcome)
      requires Valid() && newId !in Ids(tasks)
      modifies this`tasks, this`taskName, this`dueDate, this`subject
      ensures Valid()
      ensures outcome == Ignored <==> old(taskName) == "" || old(dueDate) == ""
      ensures outcome == RejectedPastDate <==>
        old(taskName) != "" && old(dueDate) != "" && StringLess(old(dueDate), today)
      ensures outcome != Added ==>
        tasks == old(tasks) && taskName == old(taskName) && dueDate == old(dueDate) && subject == old(subject)
      ensures outcome == Added ==>
        && tasks == old(tasks) + [Task(newId, old(taskName), old(dueDate), old(subject), false)]
        && taskName == "" && dueDate == "" && subject == ""
    {
      if taskName == "" || dueDate == "" {
        return Ignored;
      }
      if StringLess(dueDate, today) {
        return RejectedPastDate;
      }
      var newTask := Task(newId, taskName, dueDate, subject, false);
      forall i | 0 <= i < |tasks| ensures tasks[i].id != newId {
        assert tasks[i] in tasks;
      }
      tasks := tasks + [newTask];
      taskName, dueDate, subject := "", "", "";
      outcome := Added;
    }

    /** The row checkbox. */
    method ToggleComplete(id: string)
      requires Valid()
      modifies this`tasks
      ensures Valid()
      ensures tasks == Toggled(old(tasks), id)
    {
      ToggledKeepsUniqueIds(tasks, id);
      tasks := Toggled(tasks, id);
    }

    /** The row's delete icon: remember the task and open the dialog. A
        second click before the dialog closes replaces the first. */
    method DeleteClick(taskItem: Task)
      requires Valid()
      modifies this`taskToDelete, this`openDialog
      ensures Valid()
      ensures taskToDelete == Some(taskItem) && openDialog
    {
      taskToDelete := Some(taskItem);
      openDialog := true;
    }

    /** "Delete" in the dialog: drop every task with the pending id, then
        close and forget. */
    method ConfirmDelete()
      requires Valid()
      modifies this`tasks, this`openDialog, this`taskToDelete
      ensures Valid()
      ensures tasks == match old(taskToDelete)
                       case Some(t) => WithoutId(old(tasks), t.id)
                       case None => old(tasks)
      ensures !openDialog && taskToDelete == None
    {
      if taskToDelete.Some? {
        WithoutIdKeepsUniqueIds(tasks, taskToDelete.value.id);
        tasks := WithoutId(tasks, taskToDelete.value.id);
      }
      openDialog := false;
      taskToDelete := None;
    }

    /** "Cancel", or closing the dialog. */
    method CancelDelete()
      requires Valid()
      modifies this`openDialog, this`taskToDelete
      ensures Valid()
      ensures !openDialog && taskToDelete == None
    {
      openDialog := false;
      taskToDelete := None;
    }

    /** A footer button, which the table passes on as the new page. */
    method PressPager(action: PagerAction)
      requires Valid() && !Disabled(action, page, LastPage(|tasks|, rowsPerPage))
      modifies this`page
      ensures Valid()
      ensures page == Target(action, old(page), LastPage(|tasks|, rowsPerPage))
    {
      page := Target(action, page, LastPage(|tasks|, rowsPerPage));
    }

    /** The rows-per-page selector: always back to the first page. */
    method ChangeRowsPerPage(value: int)
      requires Valid() && value in RowsPerPageOptions
      modifies this`rowsPerPage, this`page
      ensures Valid()
      ensures rowsPerPage == value && page == 0
    {
      rowsPerPage := value;
      page := 0;
    }
  }
}

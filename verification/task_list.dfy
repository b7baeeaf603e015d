/**
 * The task list of `show_tasks_page` (handlers/tasks.py): the user's open
 * tasks ordered by urgency, cut into pages of ten, each shown with a status
 * light and the time left, followed by the navigation and action buttons.
 *
 * `time_left` is `due - now` in whole seconds; the `strftime` date text of
 * each row is not modelled.
 */
module TaskList {
  import opened Basics
  import opened Sorting
  import opened Paging
  import opened Html
  import Text
  import Store
  import Keyboards

  function TimeLeft(t: Store.Task, now: int): int {
    t.due - now
  }

  function Abs(x: int): nat {
    if x < 0 then -x else x
  }

  predicate Late(t: Store.Task, now: int) {
    TimeLeft(t, now) < 0
  }

  // ---------------------------------------------------------------------------
  // Urgency order
  // ---------------------------------------------------------------------------

  /**
   * The sort key `(time_left >= 0, abs(time_left))` compared as a tuple:
   * `False` sorts before `True`, so overdue tasks come first.
   */
  predicate UrgencyLe(now: int, a: Store.Task, b: Store.Task) {
    if Late(a, now) == Late(b, now) then Abs(TimeLeft(a, now)) <= Abs(TimeLeft(b, now))
    else Late(a, now)
  }

  lemma UrgencyLeTotalPreorder(now: int)
    ensures TotalPreorder((a: Store.Task, b: Store.Task) => UrgencyLe(now, a, b))
  {
  }

  /** Every overdue task comes before every task that is not overdue. */
  predicate LateFirst(s: seq<Store.Task>, now: int) {
    forall i, j :: 0 <= i < j < |s| && Late(s[j], now) ==> Late(s[i], now)
  }

  /**
   * `task_list.sort(key=...)`: the same tasks, every overdue one before every
   * other, and within each group nearest deadline (past or future) first.
   */
  function ByUrgency(tasks: seq<Store.Task>, now: int): (r: seq<Store.Task>)
    ensures multiset(r) == multiset(tasks)
    ensures LateFirst(r, now)
    ensures forall i, j :: 0 <= i < j < |r| && Late(r[i], now) == Late(r[j], now) ==>
      Abs(TimeLeft(r[i], now)) <= Abs(TimeLeft(r[j], now))
  {
    var le := (a: Store.Task, b: Store.Task) => UrgencyLe(now, a, b);
    UrgencyLeTotalPreorder(now);
    SortBySorted(tasks, le);
    var r := SortBy(tasks, le);
    assert forall i, j :: 0 <= i < j < |r| ==> UrgencyLe(now, r[i], r[j]) by {
      assert SortedBy(r, le);
    }
    r
  }

  lemma LateFirstSlice(s: seq<Store.Task>, now: int, a: int, b: int)
    requires LateFirst(s, now) && 0 <= a <= b <= |s|
    ensures LateFirst(s[a..b], now)
  {
    var t := s[a..b];
    forall i, j | 0 <= i < j < |t| && Late(t[j], now)
      ensures Late(t[i], now)
    {
      assert t[i] == s[a + i] && t[j] == s[a + j];
    }
  }

  // ---------------------------------------------------------------------------
  // Status light and time-left text
  // ---------------------------------------------------------------------------

  /** 🔴 overdue, 🟡 less than an hour left, 🟢 otherwise. */
  datatype Status = Red | Yellow | Green

  /**
   * The light never disagrees with the time-left text: red exactly when it
   * says overdue, yellow exactly when it counts minutes, green when it counts
   * hours or days.
   */
  function StatusOf(timeLeft: int): (r: Status)
    ensures r == Red <==> RemainingOf(timeLeft).Overdue?
    ensures r == Yellow <==> RemainingOf(timeLeft).Minutes?
    ensures r == Green <==> RemainingOf(timeLeft).Days? || RemainingOf(timeLeft).Hours?
  {
    if timeLeft < 0 then Red
    else if timeLeft < 3600 then Yellow
    else Green
  }

  /** "Просрочено", or whole days, hours or minutes left. */
  datatype Remaining = Overdue | Days(n: nat) | Hours(n: nat) | Minutes(n: nat)

  /**
   * The time-left text from `timedelta.days` and `timedelta.seconds`: days
   * when at least one whole day is left, else hours when at least one whole
   * hour is, else minutes; every count is rounded down.
   */
  function RemainingOf(timeLeft: int): (r: Remaining)
    ensures r.Overdue? <==> timeLeft < 0
    ensures r.Days? ==> 1 <= r.n && r.n * 86400 <= timeLeft < (r.n + 1) * 86400
    ensures r.Hours? ==> 1 <= r.n <= 23 && r.n * 3600 <= timeLeft < (r.n + 1) * 3600
    ensures r.Minutes? ==> r.n <= 59 && r.n * 60 <= timeLeft < (r.n + 1) * 60
  {
    if timeLeft < 0 then Overdue
    else if timeLeft / 86400 > 0 then
      DivBounds(timeLeft, 86400);
      Days(timeLeft / 86400)
    else
      assert timeLeft % 86400 == timeLeft;
      if timeLeft % 86400 >= 3600 then
        DivBounds(timeLeft % 86400, 3600);
        Hours(timeLeft % 86400 / 3600)
      else
        DivBounds(timeLeft % 86400, 60);
        Minutes(timeLeft % 86400 / 60)
  }

  /** Floor division brackets its dividend. */
  lemma DivBounds(a: int, b: int)
    requires a >= 0 && b > 0
    ensures a / b * b <= a < (a / b + 1) * b
  {
  }

  // ---------------------------------------------------------------------------
  // One page
  // ---------------------------------------------------------------------------

  /** One line of the list: status, time left, escaped title (first 50 characters). */
  datatype Row = Row(taskId: nat, status: Status, remaining: Remaining, title: string)

  function RowOf(t: Store.Task, now: int): Row {
    Row(t.id, StatusOf(TimeLeft(t, now)), RemainingOf(TimeLeft(t, now)), EscapeHtml(Text.Take(t.title, 50)))
  }

  datatype View =
    | NoTasks
    | Page(page: nat, totalPages: nat, rows: seq<Row>, buttons: seq<Keyboards.Button>)

  /** One `task:actions:{id}` button per row. */
  function RowButtons(rows: seq<Row>): (r: seq<Keyboards.Button>)
    ensures |r| == |rows|
    ensures forall k :: 0 <= k < |rows| ==>
      r[k].payload == Keyboards.ActionPayload(Keyboards.ShowActions, rows[k].taskId)
  {
    seq(|rows|, k requires 0 <= k < |rows| =>
      Keyboards.Button("📋", Keyboards.ActionPayload(Keyboards.ShowActions, rows[k].taskId)))
  }

  /** Red rows come before all others. */
  predicate RedFirst(rows: seq<Row>) {
    forall i, j :: 0 <= i < j < |rows| && rows[j].status == Red ==> rows[i].status == Red
  }

  /** The rows of one page, in order. */
  function RowsOf(tasks: seq<Store.Task>, now: int): (rows: seq<Row>)
    ensures |rows| == |tasks|
    ensures forall k :: 0 <= k < |tasks| ==> rows[k] == RowOf(tasks[k], now)
    ensures LateFirst(tasks, now) ==> RedFirst(rows)
  {
    seq(|tasks|, k requires 0 <= k < |tasks| => RowOf(tasks[k], now))
  }

  /** The open tasks of a user in the order the list shows them. */
  function Ordered(db: Store.Db, userId: int, now: int): (r: seq<Store.Task>)
    ensures LateFirst(r, now)
    ensures forall t :: t in r <==> t in db.tasks && t.userId == userId && !t.completed
  {
    var tasks := Store.UserTasks(db, userId, false);
    var r := ByUrgency(tasks, now);
    assert forall t :: t in r <==> t in tasks by {
      forall t { SameElements(r, tasks, t); }
    }
    r
  }

  /**
   * The add, delete and back buttons under the list. Their captions are
   * shorter than the tasks menu's; the payloads are the same.
   */
  function ListFooter(): (r: seq<Keyboards.Button>)
    ensures |r| == 3
    ensures forall j :: 0 <= j < 3 ==> r[j].payload == Keyboards.TasksMenu()[j].payload
  {
    [ Keyboards.Button("➕ Добавить", "task:add"),
      Keyboards.Button("🗑 Удалить", "task:delete"),
      Keyboards.Button("◀️ Назад", "menu:main") ]
  }

  /** The keyboard under the list: the rows, the pages, then add, delete and back. */
  function PageButtons(rows: seq<Row>, page: nat, totalPages: nat): (r: seq<Keyboards.Button>)
    ensures |r| == |rows| + |Keyboards.PageNav("task:page:", page, totalPages)| + 3
    ensures r[..|rows|] == RowButtons(rows)
    ensures forall k :: 0 <= k < |rows| ==>
      r[k].payload == Keyboards.ActionPayload(Keyboards.ShowActions, rows[k].taskId)
    ensures r[|r| - 3..] == ListFooter()
  {
    var a, b := RowButtons(rows), Keyboards.PageNav("task:page:", page, totalPages);
    var r := a + b + ListFooter();
    assert r[..|rows|] == a;
    r
  }

  /**
   * `show_tasks_page`: nothing to page through without open tasks; otherwise
   * the clamped page of the urgency-ordered list, one to ten rows, overdue
   * rows first, and buttons for each row, the pages, adding, deleting and
   * going back.
   */
  function ShowTasksPage(db: Store.Db, userId: int, now: int, page: int): (v: View)
    ensures v.NoTasks? <==> Store.UserTasks(db, userId, false) == []
    ensures v.Page? ==>
      && v.totalPages == TotalPages(|Ordered(db, userId, now)|)
      && v.page == ClampPage(page, v.totalPages)
      && v.rows == RowsOf(PageSlice(Ordered(db, userId, now), page), now)
      && v.page < v.totalPages
      && 1 <= |v.rows| <= PageSize
      && RedFirst(v.rows)
      && v.buttons == PageButtons(v.rows, v.page, v.totalPages)
  {
    var tasks := Store.UserTasks(db, userId, false);
    if tasks == [] then NoTasks
    else
      var sorted := Ordered(db, userId, now);
      assert |sorted| == |tasks|;
      var total := TotalPages(|sorted|);
      var p := ClampPage(page, total);
      var slice := PageSlice(sorted, page);
      LateFirstSlice(sorted, now, PageStart(|sorted|, page), PageEnd(|sorted|, page));
      var rows := RowsOf(slice, now);
      Page(p, total, rows, PageButtons(rows, p, total))
  }

  // ---------------------------------------------------------------------------
  // What the list shows
  // ---------------------------------------------------------------------------

  /** Every row is one of the user's own open tasks, shown with its own title. */
  lemma ShownRowsAreOpenTasks(db: Store.Db, userId: int, now: int, page: int, k: int)
    requires ShowTasksPage(db, userId, now, page).Page?
    requires 0 <= k < |ShowTasksPage(db, userId, now, page).rows|
    ensures var row := ShowTasksPage(db, userId, now, page).rows[k];
      exists t :: t in db.tasks && t.id == row.taskId && t.userId == userId && !t.completed
        && row.title == EscapeHtml(Text.Take(t.title, 50))
  {
    var sorted := Ordered(db, userId, now);
    var slice := PageSlice(sorted, page);
    var rows := ShowTasksPage(db, userId, now, page).rows;
    assert rows == RowsOf(slice, now);
    var t := slice[k];
    assert rows[k] == RowOf(t, now);
    assert t in sorted;
  }

  /** Every open task of the user is on some page of the list. */
  lemma EveryOpenTaskIsListed(db: Store.Db, userId: int, now: int, t: Store.Task)
    requires t in db.tasks && t.userId == userId && !t.completed
    ensures exists p :: (0 <= p < TotalPages(|Ordered(db, userId, now)|) &&
      RowOf(t, now) in ShowTasksPage(db, userId, now, p).rows)
  {
    var sorted := Ordered(db, userId, now);
    var i :| 0 <= i < |sorted| && sorted[i] == t;
    EntryOnItsPage(sorted, i);
    var p := i / PageSize;
    var k := i % PageSize;
    var slice := PageSlice(sorted, p);
    assert slice[k] == t;
    var v := ShowTasksPage(db, userId, now, p);
    assert v.Page? by {
      assert t in Store.UserTasks(db, userId, false);
    }
    assert v.rows == RowsOf(slice, now);
    assert v.rows[k] == RowOf(t, now);
  }
}

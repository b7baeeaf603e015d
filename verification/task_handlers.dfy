/**
 * The task router of handlers/tasks.py: the three input steps of the "new
 * task" conversation and the callbacks behind the list, card, postpone and
 * delete buttons.
 *
 * A callback payload is first decoded into a `Command` exactly as the
 * handlers read it (`startswith` filters in registration order, then
 * `split(":")` and `int`); a payload a handler claims but cannot read (the
 * `ValueError` or `IndexError` of `int(...)` or `parts[3]`) is `Malformed`
 * and changes nothing.
 */
module TaskHandlers {
  import opened Basics
  import opened Text
  import opened Html
  import opened Conversation
  import Store
  import Keyboards
  import TaskList
  import Paging

  // ---------------------------------------------------------------------------
  // Callback payloads
  // ---------------------------------------------------------------------------

  datatype Command =
    | OpenList                       // menu:tasks
    | StartAdd                       // task:add
    | GotoPage(page: int)            // task:page:{n}
    | SamePage                       // task:page:current
    | ShowCard(id: int)              // task:actions:{id}
    | ChooseDeletion                 // task:delete
    | Delete(id: int)                // task:delete_confirm:{id}
    | Complete(id: int)              // task:complete:{id}
    | OfferPostpone(id: int)         // task:postpone_menu:{id}
    | Postpone(id: int, minutes: int) // task:postpone:{id}:{minutes}
    | Malformed

  /** `int(callback.data.split(":")[-1])`, or the handler's `ValueError`. */
  function WithId(p: string, make: int -> Command): Command {
    match ParseInt(LastField(p, ':'))
    case Some(n) => make(n)
    case None => Malformed
  }

  /** `parts = data.split(":")`, `int(parts[2])`, `int(parts[3])`. */
  function PostponeFields(p: string): Command {
    var parts := Split(p, ':');
    if |parts| < 4 then Malformed
    else match (ParseInt(parts[2]), ParseInt(parts[3]))
      case (Some(id), Some(m)) => Postpone(id, m)
      case _ => Malformed
  }

  /** The handlers of the router that take a callback, in registration order. */
  datatype Route =
    | ListRoute | AddRoute | PageRoute | ActionsRoute | DeleteMenuRoute
    | DeleteConfirmRoute | CompleteRoute | PostponeMenuRoute | PostponeRoute

  /**
   * The first handler whose filter (`==` or `startswith`) accepts the payload,
   * if any: the chosen handler's filter accepts it, and the router claims
   * only `menu:tasks` and payloads under `task:`.
   */
  function RouteOf(p: string): (r: Option<Route>)
    ensures r.Some? && r.value in {ListRoute, AddRoute, DeleteMenuRoute} ==> p == PrefixOf(r.value)
    ensures r.Some? && r.value !in {ListRoute, AddRoute, DeleteMenuRoute} ==> StartsWith(p, PrefixOf(r.value))
    ensures r.Some? ==> p == "menu:tasks" || StartsWith(p, "task:")
  {
    InTaskNamespace(p);
    if p == "menu:tasks" then Some(ListRoute)
    else if p == "task:add" then Some(AddRoute)
    else if StartsWith(p, "task:page:") then Some(PageRoute)
    else if StartsWith(p, "task:actions:") then Some(ActionsRoute)
    else if p == "task:delete" then Some(DeleteMenuRoute)
    else if StartsWith(p, "task:delete_confirm:") then Some(DeleteConfirmRoute)
    else if StartsWith(p, "task:complete:") then Some(CompleteRoute)
    else if StartsWith(p, "task:postpone_menu:") then Some(PostponeMenuRoute)
    else if StartsWith(p, "task:postpone:") then Some(PostponeRoute)
    else None
  }

  /** Every prefix the router matches lies in the `task:` namespace. */
  lemma InTaskNamespace(p: string)
    ensures StartsWith(p, "task:page:") || StartsWith(p, "task:actions:") || StartsWith(p, "task:delete_confirm:")
      || StartsWith(p, "task:complete:") || StartsWith(p, "task:postpone_menu:") || StartsWith(p, "task:postpone:")
      ==> StartsWith(p, "task:")
  {
    var prefixes := ["task:page:", "task:actions:", "task:delete_confirm:", "task:complete:", "task:postpone_menu:", "task:postpone:"];
    forall k | 0 <= k < |prefixes| && StartsWith(p, prefixes[k])
      ensures StartsWith(p, "task:")
    {
      assert StartsWith(prefixes[k], "task:");
      StartsWithShorter(p, prefixes[k], "task:");
    }
    assert StartsWith(p, "task:page:") ==> StartsWith(p, prefixes[0]);
    assert StartsWith(p, "task:actions:") ==> StartsWith(p, prefixes[1]);
    assert StartsWith(p, "task:delete_confirm:") ==> StartsWith(p, prefixes[2]);
    assert StartsWith(p, "task:complete:") ==> StartsWith(p, prefixes[3]);
    assert StartsWith(p, "task:postpone_menu:") ==> StartsWith(p, prefixes[4]);
    assert StartsWith(p, "task:postpone:") ==> StartsWith(p, prefixes[5]);
  }

  /** The handler that produces each well-formed command. */
  function RouteFor(c: Command): Route
    requires !c.Malformed?
  {
    match c
    case OpenList => ListRoute
    case StartAdd => AddRoute
    case GotoPage(_) => PageRoute
    case SamePage => PageRoute
    case ShowCard(_) => ActionsRoute
    case ChooseDeletion => DeleteMenuRoute
    case Delete(_) => DeleteConfirmRoute
    case Complete(_) => CompleteRoute
    case OfferPostpone(_) => PostponeMenuRoute
    case Postpone(_, _) => PostponeRoute
  }

  /**
   * What each handler reads from the payload: a command of its own, whose
   * numbers are the `int()` of the fields it reads, or the handler's
   * `ValueError`/`IndexError`; the fixed payloads never fail.
   */
  function Read(route: Route, p: string): (r: Command)
    ensures route in {ListRoute, AddRoute, DeleteMenuRoute} ==> !r.Malformed?
    ensures !r.Malformed? ==> RouteFor(r) == route
    ensures r.SamePage? ==> LastField(p, ':') == "current"
    ensures r.GotoPage? ==> ParseInt(LastField(p, ':')) == Some(r.page)
    ensures r.ShowCard? || r.Delete? || r.Complete? || r.OfferPostpone? ==> ParseInt(LastField(p, ':')) == Some(r.id)
    ensures r.Postpone? ==>
      var parts := Split(p, ':');
      |parts| >= 4 && ParseInt(parts[2]) == Some(r.id) && ParseInt(parts[3]) == Some(r.minutes)
  {
    match route
    case ListRoute => OpenList
    case AddRoute => StartAdd
    case PageRoute => if LastField(p, ':') == "current" then SamePage else WithId(p, n => GotoPage(n))
    case ActionsRoute => WithId(p, n => ShowCard(n))
    case DeleteMenuRoute => ChooseDeletion
    case DeleteConfirmRoute => WithId(p, n => Delete(n))
    case CompleteRoute => WithId(p, n => Complete(n))
    case PostponeMenuRoute => WithId(p, n => OfferPostpone(n))
    case PostponeRoute => PostponeFields(p)
  }

  /**
   * Which handler of the router claims a payload and what it reads from it;
   * `None` when no handler of this router matches.
   */
  function Decode(p: string): (r: Option<Command>)
    ensures r.Some? <==> RouteOf(p).Some?
    ensures r.Some? && !r.value.Malformed? ==> RouteOf(p) == Some(RouteFor(r.value))
    ensures r.Some? ==> p == "menu:tasks" || StartsWith(p, "task:")
  {
    match RouteOf(p)
    case None => None
    case Some(route) => Some(Read(route, p))
  }

  /** The command each task action button stands for. */
  function ActionCommand(a: Keyboards.TaskAction, id: int): Command {
    match a
    case Complete => Complete(id)
    case PostponeMenu => OfferPostpone(id)
    case DeleteConfirm => Delete(id)
    case ShowActions => ShowCard(id)
  }

  /** The handler registered for each action. */
  function ActionRoute(a: Keyboards.TaskAction): Route {
    match a
    case Complete => CompleteRoute
    case PostponeMenu => PostponeMenuRoute
    case DeleteConfirm => DeleteConfirmRoute
    case ShowActions => ActionsRoute
  }

  /** The prefix each `startswith` handler is registered under. */
  function PrefixOf(route: Route): string {
    match route
    case ListRoute => "menu:tasks"
    case AddRoute => "task:add"
    case PageRoute => "task:page:"
    case ActionsRoute => "task:actions:"
    case DeleteMenuRoute => "task:delete"
    case DeleteConfirmRoute => "task:delete_confirm:"
    case CompleteRoute => "task:complete:"
    case PostponeMenuRoute => "task:postpone_menu:"
    case PostponeRoute => "task:postpone:"
  }

  /**
   * The `startswith` filters do not shadow one another: a payload under a
   * handler's prefix reaches that handler.
   */
  lemma RouteOfPrefixed(p: string, route: Route)
    requires route !in {ListRoute, AddRoute, DeleteMenuRoute}
    requires StartsWith(p, PrefixOf(route))
    ensures RouteOf(p) == Some(route)
  {
    var q := PrefixOf(route);
    assert |p| >= 10 && p[5] == q[5] && p[6] == q[6];
    match route
    case PageRoute =>
      assert p[..10] == "task:page:";
    case ActionsRoute =>
      NotPrefix(p, "task:page:", 5);
    case DeleteConfirmRoute =>
      NotPrefix(p, "task:page:", 5);
      NotPrefix(p, "task:actions:", 5);
    case CompleteRoute =>
      NotPrefix(p, "task:page:", 5);
      NotPrefix(p, "task:actions:", 5);
      NotPrefix(p, "task:delete_confirm:", 5);
    case PostponeMenuRoute =>
      NotPrefix(p, "task:page:", 6);
      NotPrefix(p, "task:actions:", 5);
      NotPrefix(p, "task:delete_confirm:", 5);
      NotPrefix(p, "task:complete:", 5);
    case PostponeRoute =>
      assert p[13] == ':';
      NotPrefix(p, "task:page:", 6);
      NotPrefix(p, "task:actions:", 5);
      NotPrefix(p, "task:delete_confirm:", 5);
      NotPrefix(p, "task:complete:", 5);
      NotPrefix(p, "task:postpone_menu:", 13);
  }

  lemma RouteOfActionPayload(a: Keyboards.TaskAction, id: int)
    ensures RouteOf(Keyboards.ActionPayload(a, id)) == Some(ActionRoute(a))
  {
    var p := Keyboards.ActionPayload(a, id);
    var q := Keyboards.ActionPrefix(a);
    assert PrefixOf(ActionRoute(a)) == q;
    assert p[..|q|] == q;
    RouteOfPrefixed(p, ActionRoute(a));
  }

  /**
   * Every action payload of `get_task_action_keyboard` and of the task list
   * reaches its own handler, which reads back the same task id.
   */
  lemma DecodeActionPayload(a: Keyboards.TaskAction, id: int)
    ensures Decode(Keyboards.ActionPayload(a, id)) == Some(ActionCommand(a, id))
  {
    var p := Keyboards.ActionPayload(a, id);
    RouteOfActionPayload(a, id);
    ReadAction(a, p, id);
  }

  lemma ReadAction(a: Keyboards.TaskAction, p: string, id: int)
    requires ParseInt(LastField(p, ':')) == Some(id)
    ensures Read(ActionRoute(a), p) == ActionCommand(a, id)
  {
    match a
    case Complete =>
    case PostponeMenu =>
    case DeleteConfirm =>
    case ShowActions =>
  }

  lemma RouteOfPostponePayload(id: int, minutes: int)
    ensures RouteOf(Keyboards.PostponePayload(id, minutes)) == Some(PostponeRoute)
  {
    var p := Keyboards.PostponePayload(id, minutes);
    assert p == "task:postpone:" + (IntToString(id) + ":" + IntToString(minutes));
    assert p[..14] == "task:postpone:";
    RouteOfPrefixed(p, PostponeRoute);
  }

  lemma ReadPostpone(p: string, id: int, minutes: int)
    requires var parts := Split(p, ':');
      |parts| >= 4 && ParseInt(parts[2]) == Some(id) && ParseInt(parts[3]) == Some(minutes)
    ensures Read(PostponeRoute, p) == Postpone(id, minutes)
  {
  }

  /** `get_postpone_keyboard`'s `task:postpone:{id}:{minutes}` reads back both numbers. */
  lemma DecodePostponePayload(id: int, minutes: int)
    ensures Decode(Keyboards.PostponePayload(id, minutes)) == Some(Postpone(id, minutes))
  {
    var p := Keyboards.PostponePayload(id, minutes);
    RouteOfPostponePayload(id, minutes);
    ReadPostpone(p, id, minutes);
  }

  /** The list's page buttons: a page number reads back, the counter is a no-op. */
  lemma DecodePagePayload(target: Option<nat>)
    ensures Decode(Keyboards.PagePayload("task:page:", target)) ==
      Some(if target.Some? then GotoPage(target.value) else SamePage)
  {
    var p := Keyboards.PagePayload("task:page:", target);
    var d := if target.Some? then IntToString(target.value) else "current";
    assert p == "task:page:" + d;
    assert p[..10] == "task:page:";
    RouteOfPrefixed(p, PageRoute);
    if target.Some? {
      IntToStringHasNo(target.value, ':');
      IntToStringRoundTrip(target.value);
      assert d != "current" by { assert d[0] == '-' || IsDigit(d[0]); }
    }
    LastFieldAfterPrefix("task:page:", ':', d);
  }

  // ---------------------------------------------------------------------------
  // Replies
  // ---------------------------------------------------------------------------

  datatype Reply =
    | Nothing
    | List(view: TaskList.View)
    | AskTitle | TitleTooShort | TitleTooLong
    | AskDescription | DescriptionTooLong
    | AskDate | BadDateFormat | DateNotInFuture | Created(id: nat)
    | NotFound
    | Card(task: Store.Task, buttons: seq<Keyboards.Button>)
    | NoTasksToDelete | DeletionChoices(buttons: seq<Keyboards.Button>)
    | Deleted(title: string) | Completed(title: string)
    | PostponeChoices(buttons: seq<Keyboards.Button>)
    | Postponed(title: string, newDue: int)

  // ---------------------------------------------------------------------------
  // The "new task" conversation
  // ---------------------------------------------------------------------------

  const MinTitle: nat := 3
  const MaxTitle: nat := 200
  const MaxDescription: nat := 1000

  /**
   * `process_task_title`: the stripped text is the title when it has 3 to 200
   * characters, and the conversation moves on to the description; otherwise
   * the user is asked again in the same state and nothing is stored.
   */
  function ProcessTitle(s: Session, db: Store.Db, text: string): (r: Step<Reply>)
    ensures r.db == db
    ensures r.reply == AskDescription <==> MinTitle <= |Strip(text)| <= MaxTitle
    ensures r.reply == TitleTooShort <==> |Strip(text)| < MinTitle
    ensures r.reply == TitleTooLong <==> |Strip(text)| > MaxTitle
    ensures r.reply == AskDescription ==>
      r.session.state == TaskDescription && r.session.data == s.data.(title := Some(Strip(text)))
    ensures r.reply != AskDescription ==> r.session == s
    ensures DraftOk(s.data) ==> DraftOk(r.session.data)
  {
    var title := Strip(text);
    if |title| < MinTitle then Stay(s, db, TitleTooShort)
    else if |title| > MaxTitle then Stay(s, db, TitleTooLong)
    else Step(Session(TaskDescription, s.data.(title := Some(title))), db, AskDescription)
  }

  /** The description a text stands for: a lone `-` means none. */
  function DescriptionOf(text: string): string {
    if Strip(text) == "-" then "" else Strip(text)
  }

  /**
   * `process_task_description`: a lone `-` means no description; more than
   * 1000 characters are refused in the same state; otherwise the
   * conversation moves on to the date.
   */
  function ProcessDescription(s: Session, db: Store.Db, text: string): (r: Step<Reply>)
    ensures r.db == db
    ensures r.reply == AskDate <==> |DescriptionOf(text)| <= MaxDescription
    ensures r.reply == AskDate || r.reply == DescriptionTooLong
    ensures Strip(text) == "-" ==> r.reply == AskDate && r.session.data.description == Some("")
    ensures r.reply == AskDate ==>
      r.session.state == TaskDate && r.session.data == s.data.(description := Some(DescriptionOf(text)))
    ensures r.reply != AskDate ==> r.session == s
    ensures DraftOk(s.data) ==> DraftOk(r.session.data)
  {
    var description := DescriptionOf(text);
    if |description| > MaxDescription then Stay(s, db, DescriptionTooLong)
    else Step(Session(TaskDate, s.data.(description := Some(description))), db, AskDate)
  }

  /**
   * `process_task_date`: `parse` is `strptime` with the bot's time zone
   * applied to the stripped text (`None` for its `ValueError`). A date that
   * does not parse, or is not strictly after `now`, is refused in the same
   * state; otherwise exactly one task is created from the collected title
   * and description and the conversation ends. Without a stored title the
   * handler fails on `data["title"]` and nothing happens.
   */
  function ProcessDate(s: Session, db: Store.Db, userId: int, text: string,
                       parse: string -> Option<int>, now: int): (r: Step<Reply>)
    ensures r.reply == BadDateFormat <==> parse(Strip(text)).None?
    ensures r.reply == DateNotInFuture <==> parse(Strip(text)).Some? && parse(Strip(text)).value <= now
    ensures r.reply.Created? <==>
      parse(Strip(text)).Some? && parse(Strip(text)).value > now && s.data.title.Some?
    ensures !r.reply.Created? ==> r.session == s && r.db == db
    ensures r.reply.Created? ==>
      && r.session == Cleared
      && r.reply.id == db.nextTaskId && r.db.nextTaskId == db.nextTaskId + 1
      && |r.db.tasks| == |db.tasks| + 1
      && r.db.tasks[..|db.tasks|] == db.tasks
      && r.db.tasks[|db.tasks|] == Store.Task(db.nextTaskId, userId, s.data.title.value, s.data.description.GetOr(""),
                                              parse(Strip(text)).value, None, now, false)
      && r.db.birthdays == db.birthdays && r.db.nextBirthdayId == db.nextBirthdayId
      && r.db.settings == db.settings && r.db.dailyMessages == db.dailyMessages
    ensures Store.Valid(db) ==> Store.Valid(r.db)
  {
    match parse(Strip(text))
    case None => Stay(s, db, BadDateFormat)
    case Some(due) =>
      if due <= now then Stay(s, db, DateNotInFuture)
      else if s.data.title.None? then Stay(s, db, Nothing)
      else
        var (db', id) := Store.CreateTask(db, userId, s.data.title.value, s.data.description.GetOr(""), due, now);
        Step(Cleared, db', Created(id))
  }

  /** A task just created is in the future, so no reminder goes out for it yet. */
  lemma CreatedTaskNotYetPending(s: Session, db: Store.Db, userId: int, text: string,
                                 parse: string -> Option<int>, now: int)
    requires ProcessDate(s, db, userId, text, parse, now).reply.Created?
    ensures var r := ProcessDate(s, db, userId, text, parse, now);
      && |r.db.tasks| == |db.tasks| + 1
      && r.db.tasks[|db.tasks|].userId == userId
      && r.db.tasks[|db.tasks|] !in Store.PendingTasks(r.db, now)
  {
  }

  // ---------------------------------------------------------------------------
  // Callbacks
  // ---------------------------------------------------------------------------

  /**
   * The ownership check of every task action: the row with that id exists
   * and is the user's. Ids are unique in a valid database, so a refusal then
   * means no row with that id belongs to the user.
   */
  function Owned(db: Store.Db, id: int, userId: int): (r: Option<Store.Task>)
    ensures r.Some? ==> r.value in db.tasks && r.value.id == id && r.value.userId == userId
    ensures Store.Valid(db) && r.None? ==>
      forall i :: 0 <= i < |db.tasks| && db.tasks[i].id == id ==> db.tasks[i].userId != userId
  {
    var t := Store.FindTask(db, id);
    if t.Some? && t.value.userId == userId then t
    else
      assert Store.Valid(db) ==>
        forall i :: 0 <= i < |db.tasks| && db.tasks[i].id == id ==> db.tasks[i].userId != userId by {
        if Store.Valid(db) {
          forall i | 0 <= i < |db.tasks| && db.tasks[i].id == id
            ensures db.tasks[i].userId != userId
          {
            Store.FindTaskRow(db, i);
          }
        }
      }
      None
  }

  /** `title[:30] + "..."` for titles longer than 30 characters. */
  function ShortTitle(title: string): (r: string)
    ensures |r| <= 33
  {
    if |title| > 30 then Take(title, 30) + "..." else title
  }

  /**
   * `delete_task_start`: one `task:delete_confirm:{id}` button per open task
   * (re-sorting the already due-ordered list by due date changes nothing),
   * then the way back to the list. The date part of each caption is not
   * modelled.
   */
  function DeletionButtons(tasks: seq<Store.Task>): (r: seq<Keyboards.Button>)
    ensures |r| == |tasks| + 1
    ensures forall k :: 0 <= k < |tasks| ==>
      r[k].payload == Keyboards.ActionPayload(Keyboards.DeleteConfirm, tasks[k].id)
    ensures r[|tasks|].payload == "menu:tasks"
  {
    seq(|tasks|, k requires 0 <= k < |tasks| =>
      Keyboards.Button(ShortTitle(tasks[k].title), Keyboards.ActionPayload(Keyboards.DeleteConfirm, tasks[k].id)))
    + [Keyboards.Button("◀️ Назад", "menu:tasks")]
  }

  /**
   * One callback of the router. `messageId` is the message the button was
   * on, remembered by `task:add`. No callback here looks at the
   * conversation state, and only `task:add` changes it.
   */
  function HandleCallback(s: Session, db: Store.Db, userId: int, now: int, messageId: int, c: Command)
    : (r: Step<Reply>)
    ensures c != StartAdd ==> r.session == s
    ensures c == StartAdd ==> r.session == Session(TaskTitle, s.data.(messageId := Some(messageId)))
    ensures !(c.Delete? || c.Complete? || c.Postpone?) ==> r.db == db
    ensures (c.ShowCard? || c.Delete? || c.Complete? || c.Postpone?) ==>
      (r.reply == NotFound <==> Owned(db, c.id, userId).None?)
    ensures r.reply == NotFound ==> r.db == db
    ensures r.db.(tasks := db.tasks) == db && (Store.Valid(db) ==> Store.Valid(r.db))
  {
    match c
    case OpenList => Stay(s, db, List(TaskList.ShowTasksPage(db, userId, now, 0)))
    case StartAdd => Step(Session(TaskTitle, s.data.(messageId := Some(messageId))), db, AskTitle)
    case GotoPage(page) => Stay(s, db, List(TaskList.ShowTasksPage(db, userId, now, page)))
    case SamePage => Stay(s, db, Nothing)
    case ShowCard(id) =>
      var t := Owned(db, id, userId);
      if t.None? then Stay(s, db, NotFound)
      else Stay(s, db, Card(t.value, Keyboards.TaskActionKeyboard(id)))
    case ChooseDeletion =>
      var tasks := Store.UserTasks(db, userId, false);
      if tasks == [] then Stay(s, db, NoTasksToDelete)
      else Stay(s, db, DeletionChoices(DeletionButtons(tasks)))
    case Delete(id) =>
      var t := Owned(db, id, userId);
      if t.None? then Stay(s, db, NotFound)
      else Step(s, Store.DeleteTask(db, id), Deleted(t.value.title))
    case Complete(id) =>
      var t := Owned(db, id, userId);
      if t.None? then Stay(s, db, NotFound)
      else Step(s, Store.CompleteTask(db, id), Completed(t.value.title))
    case OfferPostpone(id) => Stay(s, db, PostponeChoices(Keyboards.PostponeKeyboard(id)))
    case Postpone(id, minutes) =>
      var t := Owned(db, id, userId);
      if t.None? then Stay(s, db, NotFound)
      else
        var newDue := t.value.due + minutes * 60;
        Step(s, Store.PostponeTask(db, id, newDue), Postponed(t.value.title, newDue))
    case Malformed => Stay(s, db, Nothing)
  }

  /**
   * Postponing by `m` minutes moves exactly that task's due date `60 * m`
   * seconds later and lets it be reminded afresh; every other task is
   * unchanged.
   */
  lemma PostponeMovesOnlyThatTask(s: Session, db: Store.Db, userId: int, now: int, messageId: int,
                                  id: int, minutes: int, i: int)
    requires Store.Valid(db) && 0 <= i < |db.tasks|
    requires Owned(db, id, userId).Some?
    ensures var r := HandleCallback(s, db, userId, now, messageId, Postpone(id, minutes));
      && |r.db.tasks| == |db.tasks|
      && (db.tasks[i].id == id ==>
            r.db.tasks[i].due == db.tasks[i].due + 60 * minutes && r.db.tasks[i].lastRemindedAt.None?)
      && (db.tasks[i].id != id ==> r.db.tasks[i] == db.tasks[i])
  {
    var t := Owned(db, id, userId).value;
    if db.tasks[i].id == id {
      var j :| 0 <= j < |db.tasks| && db.tasks[j] == t;
      Store.FindTaskRow(db, j);
      Store.FindTaskRow(db, i);
    }
  }

  /**
   * Deleting a task of one's own removes exactly the rows with that id and
   * keeps every other row; the session is untouched and the reply names the
   * deleted task.
   */
  lemma DeleteRemovesOnlyThatTask(s: Session, db: Store.Db, userId: int, now: int, messageId: int, id: int)
    requires Owned(db, id, userId).Some?
    ensures var r := HandleCallback(s, db, userId, now, messageId, Delete(id));
      && r.session == s
      && r.reply == Deleted(Owned(db, id, userId).value.title)
      && (forall t :: t in r.db.tasks <==> t in db.tasks && t.id != id)
      && Owned(db, id, userId).value !in r.db.tasks
  {
  }

  /**
   * Completing a task of one's own marks the rows with that id completed and
   * changes nothing else: the table keeps its length and order, every other
   * row and every other field stays as it was.
   */
  lemma CompleteMarksOnlyThatTask(s: Session, db: Store.Db, userId: int, now: int, messageId: int, id: int, i: int)
    requires Owned(db, id, userId).Some? && 0 <= i < |db.tasks|
    ensures var r := HandleCallback(s, db, userId, now, messageId, Complete(id));
      && r.session == s
      && r.reply == Completed(Owned(db, id, userId).value.title)
      && |r.db.tasks| == |db.tasks|
      && r.db.tasks[i] == (if db.tasks[i].id == id then db.tasks[i].(completed := true) else db.tasks[i])
  {
  }

  /**
   * The buttons of a task's card work for its owner: each reaches its
   * handler with the card's task id, and none of the checked actions is
   * refused.
   */
  lemma CardButtonsWork(s: Session, db: Store.Db, userId: int, now: int, messageId: int, id: int, k: int)
    requires Owned(db, id, userId).Some? && 0 <= k < 3
    ensures var b := Keyboards.TaskActionKeyboard(id)[k];
      && Decode(b.payload).Some?
      && HandleCallback(s, db, userId, now, messageId, Decode(b.payload).value).reply != NotFound
  {
    var a := if k == 0 then Keyboards.Complete else if k == 1 then Keyboards.PostponeMenu else Keyboards.DeleteConfirm;
    var p := Keyboards.TaskActionKeyboard(id)[k].payload;
    var c := ActionCommand(a, id);
    assert Decode(p) == Some(c) by {
      assert p == Keyboards.ActionPayload(a, id);
      DecodeActionPayload(a, id);
    }
    assert HandleCallback(s, db, userId, now, messageId, c).reply != NotFound by {
      CardActionAccepted(s, db, userId, now, messageId, a, id);
    }
  }

  lemma CardActionAccepted(s: Session, db: Store.Db, userId: int, now: int, messageId: int, a: Keyboards.TaskAction, id: int)
    requires Owned(db, id, userId).Some? && !a.ShowActions?
    ensures HandleCallback(s, db, userId, now, messageId, ActionCommand(a, id)).reply != NotFound
  {
  }

  /**
   * Every delay offered for a task decodes to a postpone of that task by one
   * of 5, 10, 30, 60, 180 or 1440 minutes, and its back button reopens the card.
   */
  lemma PostponeButtonsDecode(id: int, k: int)
    requires 0 <= k < |Keyboards.PostponeKeyboard(id)|
    ensures var c := Decode(Keyboards.PostponeKeyboard(id)[k].payload);
      if k < |Keyboards.PostponeMinutes| then c == Some(Postpone(id, Keyboards.PostponeMinutes[k]))
      else c == Some(ShowCard(id))
  {
    var p := Keyboards.PostponeKeyboard(id)[k].payload;
    if k < |Keyboards.PostponeMinutes| {
      var m := Keyboards.PostponeMinutes[k];
      assert p == Keyboards.PostponePayload(id, m);
      assert Decode(p) == Some(Postpone(id, m)) by {
        DecodePostponePayload(id, m);
      }
    } else {
      DecodeShowCard(p, id);
    }
  }

  lemma NavButtonDecodes(page: nat, totalPages: nat, j: int)
    requires page < totalPages && 0 <= j < |Keyboards.PageNav("task:page:", page, totalPages)|
    ensures var c := Decode(Keyboards.PageNav("task:page:", page, totalPages)[j].payload);
      && c.Some? && c != Some(Malformed)
      && (c.value.GotoPage? ==> 0 <= c.value.page < totalPages)
  {
    if j == 0 {
      DecodePagePayload(Paging.PrevPage(page));
    } else if j == 1 {
      DecodePagePayload(None);
    } else {
      DecodePagePayload(Paging.NextPage(page, totalPages));
    }
  }

  /**
   * Every button under the task list reaches this router: a row's button
   * opens that row's task, a page button names a page that exists, and the
   * counter and the add and delete buttons are read without error (the last
   * button, `menu:main`, belongs to the start router).
   */
  lemma ListButtonsDecode(rows: seq<TaskList.Row>, page: nat, totalPages: nat, k: int)
    requires page < totalPages
    requires 0 <= k < |TaskList.PageButtons(rows, page, totalPages)|
    ensures var bs := TaskList.PageButtons(rows, page, totalPages);
      var c := Decode(bs[k].payload);
      && (k < |rows| ==> c == Some(ShowCard(rows[k].taskId)))
      && (|rows| <= k < |bs| - 1 ==> c.Some? && c != Some(Malformed))
      && (c.Some? && c.value.GotoPage? ==> 0 <= c.value.page < totalPages)
  {
    var bs := TaskList.PageButtons(rows, page, totalPages);
    var nav := Keyboards.PageNav("task:page:", page, totalPages);
    var p := bs[k].payload;
    if k < |rows| {
      RowButtonDecodes(rows, page, totalPages, k);
    } else if k < |rows| + |nav| {
      var j := k - |rows|;
      assert p == nav[j].payload by {
        assert bs == TaskList.RowButtons(rows) + nav + TaskList.ListFooter();
      }
      NavButtonDecodes(page, totalPages, j);
    } else {
      var j := k - |rows| - |nav|;
      var footer := TaskList.ListFooter();
      var menu := Keyboards.TasksMenu();
      assert p == menu[j].payload by {
        assert bs == TaskList.RowButtons(rows) + nav + footer;
        assert p == footer[j].payload;
      }
      TasksMenuDecodes();
      if j == 0 {
        assert Decode(p) == Some(StartAdd);
      } else if j == 1 {
        assert Decode(p) == Some(ChooseDeletion);
      } else {
        assert Decode(p) == None;
      }
    }
  }

  lemma RowButtonDecodes(rows: seq<TaskList.Row>, page: nat, totalPages: nat, k: int)
    requires 0 <= k < |rows|
    ensures Decode(TaskList.PageButtons(rows, page, totalPages)[k].payload) == Some(ShowCard(rows[k].taskId))
  {
    var bs := TaskList.PageButtons(rows, page, totalPages);
    var p := bs[k].payload;
    assert p == Keyboards.ActionPayload(Keyboards.ShowActions, rows[k].taskId);
    DecodeShowCard(p, rows[k].taskId);
  }

  lemma DecodeShowCard(p: string, id: int)
    requires p == Keyboards.ActionPayload(Keyboards.ShowActions, id)
    ensures Decode(p) == Some(ShowCard(id))
  {
    DecodeActionPayload(Keyboards.ShowActions, id);
  }

  /** The tasks menu: add and delete reach this router, back does not. */
  lemma TasksMenuDecodes()
    ensures Decode(Keyboards.TasksMenu()[0].payload) == Some(StartAdd)
    ensures Decode(Keyboards.TasksMenu()[1].payload) == Some(ChooseDeletion)
    ensures Decode(Keyboards.TasksMenu()[2].payload) == None
  {
    var p := "task:delete";
    NotPrefix(p, "task:page:", 5);
    NotPrefix(p, "task:actions:", 5);
    var q := "menu:main";
    NotPrefix(q, "task:page:", 0);
    NotPrefix(q, "task:actions:", 0);
    NotPrefix(q, "task:delete_confirm:", 0);
    NotPrefix(q, "task:complete:", 0);
    NotPrefix(q, "task:postpone_menu:", 0);
    NotPrefix(q, "task:postpone:", 0);
    var a := "task:add";
    assert RouteOf(a) == Some(AddRoute);
  }

  // ---------------------------------------------------------------------------
  // What the task flow keeps true
  // ---------------------------------------------------------------------------

  /** The fields collected so far passed their checks. */
  predicate DraftOk(d: Data) {
    && (d.title.Some? ==> MinTitle <= |d.title.value| <= MaxTitle)
    && (d.description.Some? ==> |d.description.value| <= MaxDescription)
  }

  /** Every stored task has a title of 3 to 200 characters and a description of at most 1000. */
  predicate TaskTextsOk(db: Store.Db) {
    forall i :: 0 <= i < |db.tasks| ==>
      MinTitle <= |db.tasks[i].title| <= MaxTitle && |db.tasks[i].description| <= MaxDescription
  }

  /** The title and description steps only ever keep checked fields in the draft, and store nothing. */
  lemma TextStepsKeepTextsOk(s: Session, db: Store.Db, text: string)
    requires DraftOk(s.data) && TaskTextsOk(db)
    ensures var r := ProcessTitle(s, db, text); DraftOk(r.session.data) && TaskTextsOk(r.db)
    ensures var r := ProcessDescription(s, db, text); DraftOk(r.session.data) && TaskTextsOk(r.db)
  {
  }

  /** The date step stores the checked draft, so the task it creates respects the same limits. */
  lemma {:induction false} DateStepKeepsTextsOk(s: Session, db: Store.Db, userId: int, text: string,
                                                parse: string -> Option<int>, now: int)
    requires DraftOk(s.data) && TaskTextsOk(db)
    ensures var r := ProcessDate(s, db, userId, text, parse, now);
      DraftOk(r.session.data) && TaskTextsOk(r.db) && (r.session == s || r.session == Cleared)
  {
    var r := ProcessDate(s, db, userId, text, parse, now);
    if r.reply.Created? {
      forall i | 0 <= i < |r.db.tasks|
        ensures MinTitle <= |r.db.tasks[i].title| <= MaxTitle && |r.db.tasks[i].description| <= MaxDescription
      {
        if i < |db.tasks| {
          assert r.db.tasks[i] == r.db.tasks[..|db.tasks|][i];
        }
      }
    }
  }

  /** The callbacks keep the limits too: none of them writes a title or description. */
  lemma CallbacksKeepTextsOk(s: Session, db: Store.Db, userId: int, now: int, messageId: int, c: Command)
    requires DraftOk(s.data) && TaskTextsOk(db)
    ensures var r := HandleCallback(s, db, userId, now, messageId, c);
      DraftOk(r.session.data) && TaskTextsOk(r.db)
  {
    var r := HandleCallback(s, db, userId, now, messageId, c);
    if c.Delete? && r.db != db {
      forall i | 0 <= i < |r.db.tasks|
        ensures MinTitle <= |r.db.tasks[i].title| <= MaxTitle && |r.db.tasks[i].description| <= MaxDescription
      {
        assert r.db.tasks[i] in db.tasks;
      }
    }
  }

  /** The date step writes only the task table and its id counter, and keeps the database consistent. */
  lemma DateStepTouchesOnlyTasks(s: Session, db: Store.Db, userId: int, text: string,
                                 parse: string -> Option<int>, now: int)
    ensures var db' := ProcessDate(s, db, userId, text, parse, now).db;
      db'.(tasks := db.tasks, nextTaskId := db.nextTaskId) == db && (Store.Valid(db) ==> Store.Valid(db'))
  {
    var due := parse(Strip(text));
    if due.Some? && due.value > now && s.data.title.Some? {
      var res := Store.CreateTask(db, userId, s.data.title.value, s.data.description.GetOr(""), due.value, now);
      assert ProcessDate(s, db, userId, text, parse, now).db == res.0;
    }
  }
}

/**
 * The bot's SQLite database (database/models.py) as an immutable value: the
 * four tables of `_create_tables` and the repository operations on them.
 *
 * Rows of `tasks` and `birthdays` are kept in rowid order; `AUTOINCREMENT`
 * is the counter `nextTaskId` / `nextBirthdayId`, which only grows, so an id
 * is never handed out twice. `user_settings` and `daily_messages` are keyed
 * by the user id (their PRIMARY KEY). SQL timestamps are integer seconds;
 * `CURRENT_TIMESTAMP` is the `now` parameter.
 */
module Store {
  import opened Basics
  import opened Calendar
  import opened Sorting

  datatype Task = Task(
    id: nat,
    userId: int,
    title: string,
    description: string,
    due: int,
    lastRemindedAt: Option<int>,
    createdAt: int,
    completed: bool)

  datatype Birthday = Birthday(id: nat, userId: int, name: string, birthDate: Date, createdAt: int)

  datatype UserSettings = UserSettings(
    city: Option<string>,
    country: Option<string>,
    region: Option<string>,
    timezone: Option<string>,
    language: string,
    createdAt: int,
    updatedAt: int)

  datatype DailyMessage = DailyMessage(messageId: int, sentAt: int)

  datatype Db = Db(
    tasks: seq<Task>,
    nextTaskId: nat,
    birthdays: seq<Birthday>,
    nextBirthdayId: nat,
    settings: map<int, UserSettings>,
    dailyMessages: map<int, DailyMessage>)

  /** A freshly created database: empty tables, AUTOINCREMENT starting at 1. */
  const Empty: Db := Db([], 1, [], 1, map[], map[])

  /** `language TEXT DEFAULT 'ru'`. */
  const DefaultLanguage: string := "ru"

  /**
   * The schema constraints: task and birthday ids are increasing in rowid
   * order and below the AUTOINCREMENT counter, and `UNIQUE(user_id, name)`.
   */
  predicate Valid(db: Db) {
    && 1 <= db.nextTaskId && 1 <= db.nextBirthdayId
    && Pairwise(db.tasks, TaskIdLt)
    && (forall i :: 0 <= i < |db.tasks| ==> 1 <= db.tasks[i].id < db.nextTaskId)
    && Pairwise(db.birthdays, BirthdayIdLt)
    && (forall i :: 0 <= i < |db.birthdays| ==> 1 <= db.birthdays[i].id < db.nextBirthdayId)
    && Pairwise(db.birthdays, DifferentOwnerOrName)
  }

  predicate TaskIdLt(a: Task, b: Task) {
    a.id < b.id
  }

  predicate BirthdayIdLt(a: Birthday, b: Birthday) {
    a.id < b.id
  }

  predicate DifferentOwnerOrName(a: Birthday, b: Birthday) {
    a.userId != b.userId || a.name != b.name
  }

  lemma EmptyValid()
    ensures Valid(Empty)
  {
  }

  // ---------------------------------------------------------------------------
  // TaskRepository
  // ---------------------------------------------------------------------------

  /** `ORDER BY due_date ASC`. */
  predicate DueLe(a: Task, b: Task) {
    a.due <= b.due
  }

  lemma DueLeTotalPreorder()
    ensures TotalPreorder(DueLe)
  {
  }

  /** `get_task_by_id`: the row with that id, if any. */
  function FindTask(db: Db, id: int): (r: Option<Task>)
    ensures r.Some? ==> r.value in db.tasks && r.value.id == id
    ensures r.None? ==> forall i :: 0 <= i < |db.tasks| ==> db.tasks[i].id != id
  {
    FindById(db.tasks, id)
  }

  function FindById(rows: seq<Task>, id: int): (r: Option<Task>)
    ensures r.Some? ==> r.value in rows && r.value.id == id
    ensures r.None? ==> forall i :: 0 <= i < |rows| ==> rows[i].id != id
  {
    if |rows| == 0 then None
    else if rows[0].id == id then Some(rows[0])
    else FindById(rows[1..], id)
  }

  /** Under the schema constraints a row is found by its id. */
  lemma FindTaskRow(db: Db, i: int)
    requires Valid(db) && 0 <= i < |db.tasks|
    ensures FindTask(db, db.tasks[i].id) == Some(db.tasks[i])
  {
    var r := FindTask(db, db.tasks[i].id);
    var j :| 0 <= j < |db.tasks| && db.tasks[j] == r.value;
    assert j == i;
  }

  /**
   * `create_task`: one new row with a fresh id, not completed, never reminded;
   * every existing row is untouched and the new id is returned.
   */
  function CreateTask(db: Db, userId: int, title: string, description: string, due: int, now: int)
    : (res: (Db, nat))
    ensures var (db', id) := res;
      && id == db.nextTaskId && db'.nextTaskId == id + 1
      && |db'.tasks| == |db.tasks| + 1
      && db'.tasks[..|db.tasks|] == db.tasks
      && db'.tasks[|db.tasks|] == Task(id, userId, title, description, due, None, now, false)
      && db'.(tasks := db.tasks, nextTaskId := db.nextTaskId) == db
    ensures Valid(db) ==> Valid(res.0)
    ensures Valid(db) ==> forall i :: 0 <= i < |db.tasks| ==> db.tasks[i].id != res.1
  {
    var id := db.nextTaskId;
    var row := Task(id, userId, title, description, due, None, now, false);
    var db' := db.(tasks := db.tasks + [row], nextTaskId := id + 1);
    assert Valid(db) ==> Valid(db') by {
      if Valid(db) {
        forall i, j | 0 <= i < j < |db'.tasks|
          ensures TaskIdLt(db'.tasks[i], db'.tasks[j])
        {
          if j < |db.tasks| {
            assert TaskIdLt(db.tasks[i], db.tasks[j]);
          }
        }
      }
    }
    (db', id)
  }

  /**
   * `get_user_tasks`: that user's rows, without completed ones unless
   * `include_completed`, ascending by due date.
   */
  function UserTasks(db: Db, userId: int, includeCompleted: bool): (r: seq<Task>)
    ensures forall t :: t in r <==> t in db.tasks && t.userId == userId && (includeCompleted || !t.completed)
    ensures forall t :: multiset(r)[t] == (if t.userId == userId && (includeCompleted || !t.completed)
                                           then multiset(db.tasks)[t] else 0)
    ensures SortedBy(r, DueLe)
  {
    var keep := (t: Task) => t.userId == userId && (includeCompleted || !t.completed);
    var rows := Filter(db.tasks, keep);
    forall t
      ensures multiset(rows)[t] == if t.userId == userId && (includeCompleted || !t.completed) then multiset(db.tasks)[t] else 0
    {
      FilterCount(db.tasks, keep, t);
    }
    DueLeTotalPreorder();
    SortBySorted(rows, DueLe);
    var r := SortBy(rows, DueLe);
    assert forall t :: t in r <==> t in rows by {
      forall t { SameElements(r, rows, t); }
    }
    r
  }

  /** `update_task_reminder`: sets `last_reminded_at` of that row; nothing else changes. */
  function UpdateTaskReminder(db: Db, id: int, at: int): (db': Db)
    ensures |db'.tasks| == |db.tasks|
    ensures forall i :: 0 <= i < |db.tasks| ==>
      && db'.tasks[i].lastRemindedAt == (if db.tasks[i].id == id then Some(at) else db.tasks[i].lastRemindedAt)
      && db'.tasks[i].(lastRemindedAt := db.tasks[i].lastRemindedAt) == db.tasks[i]
    ensures db'.(tasks := db.tasks) == db
    ensures Valid(db) ==> Valid(db')
  {
    db.(tasks := seq(|db.tasks|, i requires 0 <= i < |db.tasks| =>
      if db.tasks[i].id == id then db.tasks[i].(lastRemindedAt := Some(at)) else db.tasks[i]))
  }

  /**
   * `postpone_task`: the row gets the new due date and forgets its last
   * reminder; every other field and row is unchanged.
   */
  function PostponeTask(db: Db, id: int, newDue: int): (db': Db)
    ensures |db'.tasks| == |db.tasks|
    ensures forall i :: 0 <= i < |db.tasks| ==>
      if db.tasks[i].id == id then
        && db'.tasks[i].due == newDue && db'.tasks[i].lastRemindedAt.None?
        && db'.tasks[i].(due := db.tasks[i].due, lastRemindedAt := db.tasks[i].lastRemindedAt) == db.tasks[i]
      else db'.tasks[i] == db.tasks[i]
    ensures db'.(tasks := db.tasks) == db
    ensures Valid(db) ==> Valid(db')
  {
    db.(tasks := seq(|db.tasks|, i requires 0 <= i < |db.tasks| =>
      if db.tasks[i].id == id then db.tasks[i].(due := newDue, lastRemindedAt := None) else db.tasks[i]))
  }

  /** `complete_task`: only `is_completed` of that row changes, to true. */
  function CompleteTask(db: Db, id: int): (db': Db)
    ensures |db'.tasks| == |db.tasks|
    ensures forall i :: 0 <= i < |db.tasks| ==>
      && db'.tasks[i].completed == (db.tasks[i].completed || db.tasks[i].id == id)
      && db'.tasks[i].(completed := db.tasks[i].completed) == db.tasks[i]
    ensures db'.(tasks := db.tasks) == db
    ensures Valid(db) ==> Valid(db')
  {
    db.(tasks := seq(|db.tasks|, i requires 0 <= i < |db.tasks| =>
      if db.tasks[i].id == id then db.tasks[i].(completed := true) else db.tasks[i]))
  }

  /** `delete_task`: removes the row with that id and keeps every other row. */
  function DeleteTask(db: Db, id: int): (db': Db)
    ensures forall t :: t in db'.tasks <==> t in db.tasks && t.id != id
    ensures db'.(tasks := db.tasks) == db
    ensures Valid(db) ==> Valid(db')
  {
    var rows := Filter(db.tasks, (t: Task) => t.id != id);
    var db' := db.(tasks := rows);
    assert Valid(db) ==> Valid(db') by {
      if Valid(db) {
        FilterPairwise(db.tasks, (t: Task) => t.id != id, TaskIdLt);
      }
    }
    db'
  }

  /**
   * `get_pending_tasks`: exactly the rows not completed whose due date has
   * passed, ascending by due date.
   */
  function PendingTasks(db: Db, now: int): (r: seq<Task>)
    ensures forall t :: t in r <==> t in db.tasks && !t.completed && t.due <= now
    ensures multiset(r) <= multiset(db.tasks)
    ensures SortedBy(r, DueLe)
  {
    var rows := Filter(db.tasks, (t: Task) => !t.completed && t.due <= now);
    DueLeTotalPreorder();
    SortBySorted(rows, DueLe);
    var r := SortBy(rows, DueLe);
    assert forall t :: t in r <==> t in rows by {
      forall t { SameElements(r, rows, t); }
    }
    r
  }

  /** A completed task is never pending again. */
  lemma CompletedNeverPending(db: Db, id: int, now: int)
    ensures forall t :: t in PendingTasks(CompleteTask(db, id), now) ==> t.id != id
  {
    var db' := CompleteTask(db, id);
    forall t | t in PendingTasks(db', now)
      ensures t.id != id
    {
      var i :| 0 <= i < |db'.tasks| && db'.tasks[i] == t;
      assert db'.tasks[i].completed == (db.tasks[i].completed || db.tasks[i].id == id);
      assert db'.tasks[i].id == db.tasks[i].id;
    }
  }

  // ---------------------------------------------------------------------------
  // BirthdayRepository
  // ---------------------------------------------------------------------------

  /** `ORDER BY birth_date ASC` (ISO text order is chronological order). */
  predicate BirthDateLe(a: Birthday, b: Birthday) {
    !Before(b.birthDate, a.birthDate)
  }

  lemma BirthDateLeTotalPreorder()
    ensures TotalPreorder(BirthDateLe)
  {
  }

  /** The rows that are not the user's row of that name, in their order. */
  function OtherRows(rows: seq<Birthday>, userId: int, name: string): (r: seq<Birthday>)
    ensures forall b :: b in r <==> b in rows && (b.userId != userId || b.name != name)
    ensures Pairwise(rows, BirthdayIdLt) ==> Pairwise(r, BirthdayIdLt)
    ensures Pairwise(rows, DifferentOwnerOrName) ==> Pairwise(r, DifferentOwnerOrName)
  {
    var p := (b: Birthday) => b.userId != userId || b.name != name;
    var r := Filter(rows, p);
    assert Pairwise(rows, BirthdayIdLt) ==> Pairwise(r, BirthdayIdLt) by {
      if Pairwise(rows, BirthdayIdLt) {
        FilterPairwise(rows, p, BirthdayIdLt);
      }
    }
    assert Pairwise(rows, DifferentOwnerOrName) ==> Pairwise(r, DifferentOwnerOrName) by {
      if Pairwise(rows, DifferentOwnerOrName) {
        FilterPairwise(rows, p, DifferentOwnerOrName);
      }
    }
    r
  }

  /**
   * `add_birthday` (`INSERT OR REPLACE`): the row with the same user and name,
   * if any, is replaced by a new row with a fresh id; afterwards exactly one
   * row holds that pair and it carries the new date; other rows are kept.
   */
  function AddBirthday(db: Db, userId: int, name: string, birthDate: Date, now: int): (res: (Db, nat))
    ensures var (db', id) := res;
      && id == db.nextBirthdayId && db'.nextBirthdayId == id + 1
      && |db'.birthdays| > 0
      && db'.birthdays[|db'.birthdays| - 1] == Birthday(id, userId, name, birthDate, now)
      && (forall b :: b in db'.birthdays[..|db'.birthdays| - 1] <==>
            b in db.birthdays && (b.userId != userId || b.name != name))
      && db'.(birthdays := db.birthdays, nextBirthdayId := db.nextBirthdayId) == db
    ensures Valid(db) ==> Valid(res.0)
  {
    var id := db.nextBirthdayId;
    var row := Birthday(id, userId, name, birthDate, now);
    var kept := OtherRows(db.birthdays, userId, name);
    var db' := db.(birthdays := kept + [row], nextBirthdayId := id + 1);
    assert (kept + [row])[..|kept|] == kept;
    assert Valid(db) ==> Valid(db') by {
      if Valid(db) {
        AppendFreshKeepsValid(db, kept, row);
      }
    }
    (db', id)
  }

  /** Appending a row with the next id, whose user and name no kept row shares, keeps the constraints. */
  lemma AppendFreshKeepsValid(db: Db, kept: seq<Birthday>, row: Birthday)
    requires Valid(db) && row.id == db.nextBirthdayId
    requires Pairwise(kept, BirthdayIdLt) && Pairwise(kept, DifferentOwnerOrName)
    requires forall b :: b in kept ==> b in db.birthdays && DifferentOwnerOrName(b, row)
    ensures Valid(db.(birthdays := kept + [row], nextBirthdayId := row.id + 1))
  {
    var rows := kept + [row];
    forall i, j | 0 <= i < j < |rows|
      ensures BirthdayIdLt(rows[i], rows[j]) && DifferentOwnerOrName(rows[i], rows[j])
    {
      if j < |kept| {
        assert BirthdayIdLt(kept[i], kept[j]) && DifferentOwnerOrName(kept[i], kept[j]);
      } else {
        assert kept[i] in db.birthdays;
      }
    }
    forall i | 0 <= i < |rows|
      ensures 1 <= rows[i].id < row.id + 1
    {
      if i < |kept| {
        assert kept[i] in db.birthdays;
      }
    }
  }

  /** After `add_birthday` exactly one row holds the pair, and it has the new date. */
  lemma AddBirthdayUnique(db: Db, userId: int, name: string, birthDate: Date, now: int)
    ensures var db' := AddBirthday(db, userId, name, birthDate, now).0;
      forall b :: b in db'.birthdays && b.userId == userId && b.name == name ==>
        b.birthDate == birthDate && b == db'.birthdays[|db'.birthdays| - 1]
  {
    var db' := AddBirthday(db, userId, name, birthDate, now).0;
    var n := |db'.birthdays|;
    forall b | b in db'.birthdays && b.userId == userId && b.name == name
      ensures b.birthDate == birthDate && b == db'.birthdays[n - 1]
    {
      var i :| 0 <= i < n && db'.birthdays[i] == b;
    }
  }

  /** `get_user_birthdays`: that user's rows ascending by birth date. */
  function UserBirthdays(db: Db, userId: int): (r: seq<Birthday>)
    ensures forall b :: b in r <==> b in db.birthdays && b.userId == userId
    ensures forall b :: multiset(r)[b] == if b.userId == userId then multiset(db.birthdays)[b] else 0
    ensures SortedBy(r, BirthDateLe)
  {
    var keep := (b: Birthday) => b.userId == userId;
    var rows := Filter(db.birthdays, keep);
    forall b
      ensures multiset(rows)[b] == if b.userId == userId then multiset(db.birthdays)[b] else 0
    {
      FilterCount(db.birthdays, keep, b);
    }
    BirthDateLeTotalPreorder();
    SortBySorted(rows, BirthDateLe);
    var r := SortBy(rows, BirthDateLe);
    assert forall b :: b in r <==> b in rows by {
      forall b { SameElements(r, rows, b); }
    }
    r
  }

  /** `delete_birthday`: removes exactly the row of that user and name. */
  function DeleteBirthday(db: Db, userId: int, name: string): (db': Db)
    ensures forall b :: b in db'.birthdays <==> b in db.birthdays && (b.userId != userId || b.name != name)
    ensures db'.(birthdays := db.birthdays) == db
    ensures Valid(db) ==> Valid(db')
  {
    db.(birthdays := OtherRows(db.birthdays, userId, name))
  }

  // ---------------------------------------------------------------------------
  // UserSettingsRepository
  // ---------------------------------------------------------------------------

  /** `get_settings`. */
  function GetSettings(db: Db, userId: int): (r: Option<UserSettings>)
    ensures r.Some? <==> userId in db.settings
    ensures r.Some? ==> r.value == db.settings[userId]
  {
    if userId in db.settings then Some(db.settings[userId]) else None
  }

  /** Keep the old value unless a new one is passed (`if x is not None`). */
  function Override(current: Option<string>, given: Option<string>): (r: Option<string>)
    ensures given.Some? ==> r == given
    ensures given.None? ==> r == current
  {
    if given.Some? then given else current
  }

  /**
   * `update_settings`: on an existing row only the fields passed as non-None
   * change (and `updated_at`); without a row exactly one row is inserted with
   * the given fields and the default language. Other users' rows are untouched.
   */
  function UpdateSettings(
    db: Db, userId: int,
    city: Option<string>, country: Option<string>, region: Option<string>, timezone: Option<string>,
    now: int): (db': Db)
    ensures db'.settings.Keys == db.settings.Keys + {userId}
    ensures forall u :: u in db.settings && u != userId ==> db'.settings[u] == db.settings[u]
    ensures userId in db.settings ==>
      var cur := db.settings[userId];
      var row := db'.settings[userId];
      && row.city == (if city.Some? then city else cur.city)
      && row.country == (if country.Some? then country else cur.country)
      && row.region == (if region.Some? then region else cur.region)
      && row.timezone == (if timezone.Some? then timezone else cur.timezone)
      && row.language == cur.language && row.createdAt == cur.createdAt
      && row.updatedAt == now
    ensures userId !in db.settings ==>
      db'.settings[userId] == UserSettings(city, country, region, timezone, DefaultLanguage, now, now)
    ensures db'.(settings := db.settings) == db
  {
    if userId in db.settings then
      var cur := db.settings[userId];
      var row := cur.(
        city := Override(cur.city, city),
        country := Override(cur.country, country),
        region := Override(cur.region, region),
        timezone := Override(cur.timezone, timezone),
        updatedAt := now);
      db.(settings := db.settings[userId := row])
    else
      db.(settings := db.settings[userId := UserSettings(city, country, region, timezone, DefaultLanguage, now, now)])
  }

  // ---------------------------------------------------------------------------
  // DailyMessageRepository
  // ---------------------------------------------------------------------------

  /**
   * `save_message` (`INSERT OR REPLACE` on the user key): at most one record
   * per user, now holding the new message id.
   */
  function SaveMessage(db: Db, userId: int, messageId: int, now: int): (db': Db)
    ensures db'.dailyMessages.Keys == db.dailyMessages.Keys + {userId}
    ensures db'.dailyMessages[userId] == DailyMessage(messageId, now)
    ensures forall u :: u in db.dailyMessages && u != userId ==> db'.dailyMessages[u] == db.dailyMessages[u]
    ensures db'.(dailyMessages := db.dailyMessages) == db
  {
    db.(dailyMessages := db.dailyMessages[userId := DailyMessage(messageId, now)])
  }

  /** `get_message`. */
  function GetMessage(db: Db, userId: int): (r: Option<DailyMessage>)
    ensures r.Some? <==> userId in db.dailyMessages
    ensures r.Some? ==> r.value == db.dailyMessages[userId]
  {
    if userId in db.dailyMessages then Some(db.dailyMessages[userId]) else None
  }

  /** `delete_message`: the user's record is gone; other records are kept. */
  function DeleteMessage(db: Db, userId: int): (db': Db)
    ensures db'.dailyMessages.Keys == db.dailyMessages.Keys - {userId}
    ensures forall u :: u in db'.dailyMessages ==> db'.dailyMessages[u] == db.dailyMessages[u]
    ensures db'.(dailyMessages := db.dailyMessages) == db
  {
    db.(dailyMessages := db.dailyMessages - {userId})
  }

  /** Saving twice keeps only the later message; deleting after saving leaves no record. */
  lemma SaveOverwritesThenDeleteRemoves(db: Db, userId: int, m1: int, m2: int, t1: int, t2: int)
    ensures GetMessage(SaveMessage(SaveMessage(db, userId, m1, t1), userId, m2, t2), userId)
      == Some(DailyMessage(m2, t2))
    ensures GetMessage(DeleteMessage(SaveMessage(db, userId, m1, t1), userId), userId).None?
  {
  }
}

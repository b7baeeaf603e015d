/**
 * The background jobs of utils/scheduler.py, each as one atomic step over
 * the store: the due-task reminders with their one-hour debounce, the
 * birthday notices for today and tomorrow, the morning digest and the
 * nightly removal of the digest.
 *
 * Whether Telegram accepted a message is an oracle parameter: `delivered`
 * for a reminder, `sentId` for the digest, `chatDeleted` for a deletion.
 */
module Scheduler {
  import opened Basics
  import Calendar
  import opened Store
  import CurrencyService

  // ---------------------------------------------------------------------------
  // check_tasks
  // ---------------------------------------------------------------------------

  /** `timedelta(hours=1)`, in seconds. */
  const ReminderInterval: int := 3600

  /**
   * Whether `check_tasks` sends a reminder for a pending task: it is due,
   * and it was never reminded or the last reminder is at least an hour old.
   */
  predicate ShouldRemind(t: Task, now: int): (r: bool)
    ensures r ==> t.due <= now
    ensures t.lastRemindedAt.None? ==> (r <==> t.due <= now)
    ensures t.lastRemindedAt.Some? ==> (r <==> t.due <= now && now >= t.lastRemindedAt.value + ReminderInterval)
  {
    && t.due <= now
    && (t.lastRemindedAt.None? || now - t.lastRemindedAt.value >= ReminderInterval)
  }

  /** Some task of `pending` with this id was reminded and the message went through. */
  predicate Notified(pending: seq<Task>, now: int, delivered: Task -> bool, id: int) {
    exists j :: 0 <= j < |pending| && pending[j].id == id && ShouldRemind(pending[j], now) && delivered(pending[j])
  }

  /** The ids reminded, in the order the pending list was walked. */
  function RemindedIds(pending: seq<Task>, now: int, delivered: Task -> bool): (r: seq<int>)
    ensures forall id :: id in r <==> Notified(pending, now, delivered, id)
  {
    if |pending| == 0 then []
    else
      var prefix := pending[..|pending| - 1];
      var t := pending[|pending| - 1];
      NotifiedExtend(prefix, t, now, delivered);
      assert prefix + [t] == pending;
      RemindedIds(prefix, now, delivered) + (if ShouldRemind(t, now) && delivered(t) then [t.id] else [])
  }

  lemma NotifiedExtend(prefix: seq<Task>, t: Task, now: int, delivered: Task -> bool)
    ensures forall id :: Notified(prefix + [t], now, delivered, id) <==>
      Notified(prefix, now, delivered, id) || (t.id == id && ShouldRemind(t, now) && delivered(t))
  {
    var all := prefix + [t];
    forall id | Notified(prefix, now, delivered, id)
      ensures Notified(all, now, delivered, id)
    {
      var j :| 0 <= j < |prefix| && prefix[j].id == id && ShouldRemind(prefix[j], now) && delivered(prefix[j]);
      assert all[j] == prefix[j];
    }
    forall id | Notified(all, now, delivered, id) && !(t.id == id && ShouldRemind(t, now) && delivered(t))
      ensures Notified(prefix, now, delivered, id)
    {
      var j :| 0 <= j < |all| && all[j].id == id && ShouldRemind(all[j], now) && delivered(all[j]);
      assert j < |prefix| && all[j] == prefix[j];
    }
    assert all[|prefix|] == t;
  }

  /** How a row stands after the job: stamped with `now` exactly when its reminder went through. */
  predicate StampedAfter(before: Task, after: Task, pending: seq<Task>, now: int, delivered: Task -> bool) {
    && after.lastRemindedAt == (if Notified(pending, now, delivered, before.id) then Some(now) else before.lastRemindedAt)
    && after.(lastRemindedAt := before.lastRemindedAt) == before
  }

  /** Every row of `cur` is the row of `db` as the job leaves it after walking `walked`. */
  predicate StampedAll(db: Db, cur: Db, walked: seq<Task>, now: int, delivered: Task -> bool) {
    && |cur.tasks| == |db.tasks|
    && forall i :: 0 <= i < |db.tasks| ==> StampedAfter(db.tasks[i], cur.tasks[i], walked, now, delivered)
  }

  /** One iteration of the loop of `check_tasks`. */
  function RemindOne(cur: Db, t: Task, now: int, delivered: Task -> bool): Db {
    if ShouldRemind(t, now) && delivered(t) then UpdateTaskReminder(cur, t.id, now) else cur
  }

  lemma RemindOneStamps(db: Db, cur: Db, walked: seq<Task>, t: Task, now: int, delivered: Task -> bool)
    requires StampedAll(db, cur, walked, now, delivered)
    ensures StampedAll(db, RemindOne(cur, t, now, delivered), walked + [t], now, delivered)
  {
    NotifiedExtend(walked, t, now, delivered);
    var next := RemindOne(cur, t, now, delivered);
    forall i | 0 <= i < |db.tasks|
      ensures StampedAfter(db.tasks[i], next.tasks[i], walked + [t], now, delivered)
    {
      assert cur.tasks[i].id == db.tasks[i].id;
    }
  }

  /**
   * The body of the loop of `check_tasks` for one task: skip it if it is not
   * due or was reminded within the hour; otherwise send, and stamp it only
   * if the message went through.
   */
  method RemindStep(cur: Db, t: Task, now: int, delivered: Task -> bool) returns (next: Db, sent: bool)
    ensures sent <==> ShouldRemind(t, now) && delivered(t)
    ensures next == RemindOne(cur, t, now, delivered)
    ensures |next.tasks| == |cur.tasks| && next.(tasks := cur.tasks) == cur
    ensures forall i :: 0 <= i < |cur.tasks| ==>
      && next.tasks[i].lastRemindedAt == (if sent && cur.tasks[i].id == t.id then Some(now) else cur.tasks[i].lastRemindedAt)
      && next.tasks[i].(lastRemindedAt := cur.tasks[i].lastRemindedAt) == cur.tasks[i]
  {
    next, sent := cur, false;
    if t.due <= now {
      if t.lastRemindedAt.Some? && now - t.lastRemindedAt.value < ReminderInterval {
        return;
      }
      if delivered(t) {
        next := UpdateTaskReminder(cur, t.id, now);
        sent := true;
      }
    }
  }

  /** The loop of `check_tasks` over a list of tasks. */
  method RemindAll(db: Db, pending: seq<Task>, now: int, delivered: Task -> bool) returns (db': Db, reminded: seq<int>)
    ensures reminded == RemindedIds(pending, now, delivered)
    ensures StampedAll(db, db', pending, now, delivered)
    ensures db'.(tasks := db.tasks) == db
    ensures Valid(db) ==> Valid(db')
  {
    db' := db;
    reminded := [];
    var k := 0;
    while k < |pending|
      invariant 0 <= k <= |pending|
      invariant reminded == RemindedIds(pending[..k], now, delivered)
      invariant StampedAll(db, db', pending[..k], now, delivered)
      invariant db'.(tasks := db.tasks) == db
      invariant Valid(db) ==> Valid(db')
    {
      var t := pending[k];
      assert pending[..k + 1] == pending[..k] + [t];
      assert pending[..k + 1][..k] == pending[..k];
      RemindOneStamps(db, db', pending[..k], t, now, delivered);
      var sent;
      db', sent := RemindStep(db', t, now, delivered);
      if sent {
        reminded := reminded + [t.id];
      }
      k := k + 1;
    }
    assert pending[..k] == pending;
  }

  /**
   * `check_tasks`: walks the pending tasks (due, not completed, by due date)
   * and sends a reminder for each that `ShouldRemind`; `last_reminded_at` is
   * set to now only for the reminders Telegram accepted. Nothing else in the
   * store changes.
   */
  method CheckTasks(db: Db, now: int, delivered: Task -> bool) returns (db': Db, reminded: seq<int>)
    ensures reminded == RemindedIds(PendingTasks(db, now), now, delivered)
    ensures StampedAll(db, db', PendingTasks(db, now), now, delivered)
    ensures db'.(tasks := db.tasks) == db
    ensures Valid(db) ==> Valid(db')
  {
    db', reminded := RemindAll(db, PendingTasks(db, now), now, delivered);
  }

  /**
   * The debounce: a task stamped at `at` is not reminded again within the
   * hour, and is reminded again from the hour on while it stays due and
   * open.
   */
  lemma Debounce(t: Task, at: int, later: int)
    requires t.lastRemindedAt == Some(at) && t.due <= at <= later
    ensures ShouldRemind(t, later) <==> later >= at + ReminderInterval
  {
  }

  /**
   * After the job, a walked task whose reminder went through is stamped with
   * now, and so is quiet for the next hour; one whose send failed keeps its
   * old stamp. `check_tasks` walks rows of the table (`PendingTasks`).
   */
  lemma CheckTasksStamp(db: Db, pending: seq<Task>, now: int, delivered: Task -> bool, db': Db, i: int)
    requires Valid(db) && 0 <= i < |db.tasks|
    requires forall u :: u in pending ==> u in db.tasks
    requires StampedAll(db, db', pending, now, delivered)
    requires db.tasks[i] in pending
    ensures ShouldRemind(db.tasks[i], now) && delivered(db.tasks[i]) ==> db'.tasks[i].lastRemindedAt == Some(now)
    ensures !delivered(db.tasks[i]) ==> db'.tasks[i].lastRemindedAt == db.tasks[i].lastRemindedAt
  {
    var t := db.tasks[i];
    if ShouldRemind(t, now) && delivered(t) {
      var j :| 0 <= j < |pending| && pending[j] == t;
      assert Notified(pending, now, delivered, t.id);
    }
    if !delivered(t) && Notified(pending, now, delivered, t.id) {
      var j :| 0 <= j < |pending| && pending[j].id == t.id && ShouldRemind(pending[j], now) && delivered(pending[j]);
      RowOfId(db, pending[j], i);
    }
  }

  /** Under the schema constraints the only row with a row's id is that row. */
  lemma RowOfId(db: Db, u: Task, i: int)
    requires Valid(db) && 0 <= i < |db.tasks| && u in db.tasks && u.id == db.tasks[i].id
    ensures u == db.tasks[i]
  {
    var m :| 0 <= m < |db.tasks| && db.tasks[m] == u;
  }

  // ---------------------------------------------------------------------------
  // check_birthdays
  // ---------------------------------------------------------------------------

  datatype NoticeKind = Today | Tomorrow

  /** One message `check_birthdays` tries to send. */
  datatype Notice = Notice(userId: int, name: string, kind: NoticeKind, age: int)

  /** The month and day of `d` are those of `on` (the year plays no part). */
  predicate SameMonthDay(d: Calendar.Date, on: Calendar.Date) {
    d.month == on.month && d.day == on.day
  }

  /** The notices for one birthday: today's, then tomorrow's advance notice. */
  function NoticesFor(b: Birthday, today: Calendar.Date): (r: seq<Notice>)
    requires Calendar.Valid(today)
    ensures |r| <= 1
    ensures forall n :: n in r ==> n.userId == b.userId && n.name == b.name
    ensures (exists n :: n in r && n.kind == Today) <==> SameMonthDay(b.birthDate, today)
    ensures (exists n :: n in r && n.kind == Tomorrow) <==> SameMonthDay(b.birthDate, Calendar.Tomorrow(today))
    ensures forall n :: n in r && n.kind == Today ==> n.age == today.year - b.birthDate.year
    ensures forall n :: n in r && n.kind == Tomorrow ==> n.age == Calendar.Tomorrow(today).year - b.birthDate.year
  {
    var tomorrow := Calendar.Tomorrow(today);
    TodayIsNotTomorrow(today);
    (if SameMonthDay(b.birthDate, today)
     then [Notice(b.userId, b.name, Today, today.year - b.birthDate.year)] else [])
    + (if SameMonthDay(b.birthDate, tomorrow)
       then [Notice(b.userId, b.name, Tomorrow, tomorrow.year - b.birthDate.year)] else [])
  }

  /** Tomorrow falls on another month and day, so no birthday gets both notices on one run. */
  lemma TodayIsNotTomorrow(today: Calendar.Date)
    requires Calendar.Valid(today)
    ensures !SameMonthDay(Calendar.Tomorrow(today), today)
  {
  }

  /**
   * `check_birthdays`: the notices of every birthday, in table order. A
   * failed send is caught per message, so the notices of one birthday never
   * depend on the others.
   */
  function CheckBirthdays(birthdays: seq<Birthday>, today: Calendar.Date): (r: seq<Notice>)
    requires Calendar.Valid(today)
    ensures forall n :: n in r <==> exists i :: 0 <= i < |birthdays| && n in NoticesFor(birthdays[i], today)
  {
    if |birthdays| == 0 then []
    else
      var rest := CheckBirthdays(birthdays[1..], today);
      assert forall n :: n in rest <==> exists i :: 1 <= i < |birthdays| && n in NoticesFor(birthdays[i], today) by {
        forall n
          ensures n in rest <==> exists i :: 1 <= i < |birthdays| && n in NoticesFor(birthdays[i], today)
        {
          if n in rest {
            var i :| 0 <= i < |birthdays[1..]| && n in NoticesFor(birthdays[1..][i], today);
            assert birthdays[1..][i] == birthdays[i + 1];
          }
          if exists i :: 1 <= i < |birthdays| && n in NoticesFor(birthdays[i], today) {
            var i :| 1 <= i < |birthdays| && n in NoticesFor(birthdays[i], today);
            assert birthdays[1..][i - 1] == birthdays[i];
          }
        }
      }
      NoticesFor(birthdays[0], today) + rest
  }

  /** A birthday on 1 January, scanned on 31 December, is announced with the age it reaches next year. */
  lemma NewYearAdvanceNotice(b: Birthday, year: int)
    requires 1 <= year && b.birthDate.month == 1 && b.birthDate.day == 1
    ensures NoticesFor(b, Calendar.Date(year, 12, 31)) == [Notice(b.userId, b.name, Tomorrow, year + 1 - b.birthDate.year)]
  {
  }

  /**
   * In a common year a 29 February birthday gets no notice at all: no day
   * matches 29 February, and neither does the day after 28 February, which
   * is 1 March.
   */
  lemma LeapDayBirthdayInCommonYear(b: Birthday, today: Calendar.Date)
    requires Calendar.Valid(today) && !Calendar.IsLeap(today.year)
    requires b.birthDate.month == 2 && b.birthDate.day == 29
    ensures NoticesFor(b, today) == []
  {
  }

  // ---------------------------------------------------------------------------
  // check_birthdays as evidently intended
  // ---------------------------------------------------------------------------

  /**
   * The day a birthday is kept on in a year: its own month and day, except
   * that a 29 February birthday is kept on 28 February in a common year.
   */
  predicate KeptOn(birth: Calendar.Date, on: Calendar.Date) {
    || SameMonthDay(birth, on)
    || (birth.month == 2 && birth.day == 29 && !Calendar.IsLeap(on.year) && on.month == 2 && on.day == 28)
  }

  /** The notices for one birthday when a 29 February birthday is kept on 28 February in common years. */
  function KeptNoticesFor(b: Birthday, today: Calendar.Date): (r: seq<Notice>)
    requires Calendar.Valid(today)
    ensures |r| <= 2
    ensures forall n :: n in r ==> n.userId == b.userId && n.name == b.name
    ensures (exists n :: n in r && n.kind == Today) <==> KeptOn(b.birthDate, today)
    ensures (exists n :: n in r && n.kind == Tomorrow) <==> KeptOn(b.birthDate, Calendar.Tomorrow(today))
    ensures forall n :: n in r && n.kind == Today ==> n.age == today.year - b.birthDate.year
    ensures forall n :: n in r && n.kind == Tomorrow ==> n.age == Calendar.Tomorrow(today).year - b.birthDate.year
  {
    var tomorrow := Calendar.Tomorrow(today);
    (if KeptOn(b.birthDate, today)
     then [Notice(b.userId, b.name, Today, today.year - b.birthDate.year)] else [])
    + (if KeptOn(b.birthDate, tomorrow)
       then [Notice(b.userId, b.name, Tomorrow, tomorrow.year - b.birthDate.year)] else [])
  }

  /** The day of year `y` on which a birthday is kept. */
  function KeptDay(birth: Calendar.Date, y: int): (d: Calendar.Date)
    requires Calendar.Valid(birth) && 1 <= y
    ensures Calendar.Valid(d) && d.year == y && KeptOn(birth, d)
  {
    if birth.month == 2 && birth.day == 29 && !Calendar.IsLeap(y) then Calendar.Date(y, 2, 28)
    else Calendar.Date(y, birth.month, birth.day)
  }

  /** Every stored birthday is announced on the day itself in every year, 29 February included. */
  lemma EveryBirthdayIsAnnounced(b: Birthday, y: int)
    requires Calendar.Valid(b.birthDate) && 1 <= y
    ensures var d := KeptDay(b.birthDate, y);
      exists n :: n in KeptNoticesFor(b, d) && n.kind == Today && n.age == y - b.birthDate.year
  {
    var d := KeptDay(b.birthDate, y);
    var n := Notice(b.userId, b.name, Today, y - b.birthDate.year);
    assert n == KeptNoticesFor(b, d)[0];
  }

  /** Apart from 29 February in a common year, the correction sends exactly what the job sends. */
  lemma KeptNoticesAgree(b: Birthday, today: Calendar.Date)
    requires Calendar.Valid(today)
    requires !(b.birthDate.month == 2 && b.birthDate.day == 29)
    ensures KeptNoticesFor(b, today) == NoticesFor(b, today)
  {
  }

  // ---------------------------------------------------------------------------
  // Morning digest
  // ---------------------------------------------------------------------------

  /**
   * `format_major_currencies`: the priority currencies present in the table,
   * in priority order, each priced at value/nominal; `None` when a nominal
   * is zero (the division raises).
   */
  function MajorCurrencies(table: seq<CurrencyService.Rate>): (r: Option<seq<CurrencyService.Quote>>)
    ensures var present := CurrencyService.PresentPriority(table);
      && (r.None? <==> exists c :: c in present && CurrencyService.RateOf(table, c).DivisionByZero?)
      && (r.Some? ==>
            && |r.value| == |present|
            && forall i :: 0 <= i < |present| ==>
                 r.value[i].code == present[i] && CurrencyService.RateOf(table, present[i]) == CurrencyService.Known(r.value[i].value))
  {
    var present := CurrencyService.PresentPriority(table);
    PresentAreListedNonRouble(table);
    CurrencyService.QuotesAreRates(present, table);
    CurrencyService.Quotes(present, table)
  }

  lemma PresentAreListedNonRouble(table: seq<CurrencyService.Rate>)
    ensures var present := CurrencyService.PresentPriority(table);
      forall i :: 0 <= i < |present| ==> present[i] != "RUB" && present[i] in CurrencyService.Codes(table)
  {
    var present := CurrencyService.PresentPriority(table);
    forall i | 0 <= i < |present|
      ensures present[i] != "RUB" && present[i] in CurrencyService.Codes(table)
    {
      assert present[i] in present;
      CurrencyService.PriorityExcludesRouble(present[i]);
    }
  }

  /** The currency section of the digest raises: a priority currency with a zero nominal. */
  predicate DigestRaises(rates: Option<seq<CurrencyService.Rate>>) {
    rates.Some? && |rates.value| > 0 && MajorCurrencies(rates.value).None?
  }

  /**
   * `send_morning_message`: the digest's message id is recorded for the admin
   * only when the message was sent (`sentId`). A currency section that
   * raises does so before sending, so nothing is recorded then. Other users'
   * records are untouched.
   */
  function MorningDigest(db: Db, adminId: int, rates: Option<seq<CurrencyService.Rate>>, sentId: Option<int>, now: int)
    : (db': Db)
    ensures GetMessage(db', adminId) ==
      if !DigestRaises(rates) && sentId.Some? then Some(DailyMessage(sentId.value, now)) else GetMessage(db, adminId)
    ensures forall u :: u != adminId ==> GetMessage(db', u) == GetMessage(db, u)
    ensures db'.(dailyMessages := db.dailyMessages) == db
  {
    if DigestRaises(rates) || sentId.None? then db
    else SaveMessage(db, adminId, sentId.value, now)
  }

  // ---------------------------------------------------------------------------
  // delete_daily_message
  // ---------------------------------------------------------------------------

  /**
   * `delete_daily_message`: for every record (`rows` are the user ids in the
   * order `get_all_messages` returns them), delete the message in the chat;
   * the record is removed only when that deletion succeeded, and a failure
   * for one user does not stop the others.
   */
  method DeleteDailyMessages(db: Db, rows: seq<int>, chatDeleted: (int, int) -> bool) returns (db': Db)
    requires forall u :: u in rows <==> u in db.dailyMessages
    ensures forall u :: u in db'.dailyMessages <==>
      u in db.dailyMessages && !chatDeleted(u, db.dailyMessages[u].messageId)
    ensures forall u :: u in db'.dailyMessages ==> db'.dailyMessages[u] == db.dailyMessages[u]
    ensures db'.(dailyMessages := db.dailyMessages) == db
  {
    db' := db;
    var k := 0;
    while k < |rows|
      invariant 0 <= k <= |rows|
      invariant forall v :: v in db'.dailyMessages <==>
        v in db.dailyMessages && (v !in rows[..k] || !chatDeleted(v, db.dailyMessages[v].messageId))
      invariant forall v :: v in db'.dailyMessages ==> db'.dailyMessages[v] == db.dailyMessages[v]
      invariant db'.(dailyMessages := db.dailyMessages) == db
    {
      var u := rows[k];
      assert rows[..k + 1] == rows[..k] + [u];
      if chatDeleted(u, db.dailyMessages[u].messageId) {
        db' := DeleteMessage(db', u);
      }
      k := k + 1;
    }
    assert rows[..k] == rows;
  }
}

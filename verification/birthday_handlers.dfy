/**
 * The birthday router of handlers/birthdays.py: the two input steps of the
 * "new birthday" conversation, the confirmation that follows, and the
 * callbacks behind the list, page and delete buttons.
 *
 * `datetime.now()` is a `Moment`: today's date and the seconds since
 * midnight. `datetime.strptime(text, "%d.%m.%Y")` is the `parse` parameter,
 * which reads the three fields; a triple that is not a calendar date is the
 * `ValueError` strptime raises for it.
 */
module BirthdayHandlers {
  import opened Basics
  import opened Text
  import opened Calendar
  import opened Conversation
  import Store
  import Keyboards
  import BirthdayList
  import Paging

  // ---------------------------------------------------------------------------
  // Time of day
  // ---------------------------------------------------------------------------

  datatype Moment = Moment(date: Date, second: int)

  predicate ValidMoment(m: Moment) {
    Valid(m.date) && 0 <= m.second < 86400
  }

  /** `a > b` on datetimes. */
  predicate Later(a: Moment, b: Moment) {
    Before(b.date, a.date) || (a.date == b.date && a.second > b.second)
  }

  /** The datetime `strptime` returns for a date: its midnight. */
  function Midnight(d: Date): Moment {
    Moment(d, 0)
  }

  /** A moment as seconds since the start of the calendar (for `CURRENT_TIMESTAMP`). */
  function Timestamp(m: Moment): int
    requires ValidMoment(m)
  {
    DayNumber(m.date) * 86400 + m.second
  }

  // ---------------------------------------------------------------------------
  // Replies
  // ---------------------------------------------------------------------------

  datatype Reply =
    | Nothing
    | List(view: BirthdayList.View)
    | AskName | NameTooShort | NameTooLong
    | AskBirthDate | BadDateFormat | DateInFuture | DateTooOld
    | Added(name: string, age: int, daysUntil: Option<int>)
    | NoBirthdaysToDelete | DeletionChoices(buttons: seq<Keyboards.Button>)
    | Deleted(name: string)

  // ---------------------------------------------------------------------------
  // The "new birthday" conversation
  // ---------------------------------------------------------------------------

  const MinName: nat := 2
  const MaxName: nat := 100
  const MinYear: int := 1900

  /**
   * `process_birthday_name`: the stripped text is the name when it has 2 to
   * 100 characters, and the conversation moves on to the date; otherwise the
   * user is asked again in the same state.
   */
  function ProcessName(s: Session, db: Store.Db, text: string): (r: Step<Reply>)
    ensures r.db == db
    ensures r.reply == AskBirthDate <==> MinName <= |Strip(text)| <= MaxName
    ensures r.reply == NameTooShort <==> |Strip(text)| < MinName
    ensures r.reply == NameTooLong <==> |Strip(text)| > MaxName
    ensures r.reply == AskBirthDate ==>
      r.session.state == BirthdayDate && r.session.data == s.data.(name := Some(Strip(text)))
    ensures r.reply != AskBirthDate ==> r.session == s
    ensures DraftOk(s.data) ==> DraftOk(r.session.data)
  {
    var name := Strip(text);
    if |name| < MinName then Stay(s, db, NameTooShort)
    else if |name| > MaxName then Stay(s, db, NameTooLong)
    else Step(Session(BirthdayDate, s.data.(name := Some(name))), db, AskBirthDate)
  }

  /**
   * `process_birthday_date` with the confirmation computed as the list
   * computes it. A text that is not a date, a date after now and a year
   * before 1900 are refused in the same state and nothing is stored;
   * otherwise the birthday is upserted under the collected name and the
   * conversation ends. Without a stored name the handler fails on
   * `data["name"]` and nothing happens. The reply gives the age and, unless
   * the date cannot be moved to this year, the days left: zero exactly on
   * the birthday.
   */
  function ProcessBirthDate(s: Session, db: Store.Db, userId: int, text: string,
                            parse: string -> Option<Date>, now: Moment): (r: Step<Reply>)
    requires ValidMoment(now)
    ensures var d := parse(Strip(text));
      if d.None? || !Valid(d.value) then r == Stay(s, db, BadDateFormat)
      else if Later(Midnight(d.value), now) then r == Stay(s, db, DateInFuture)
      else if d.value.year < MinYear then r == Stay(s, db, DateTooOld)
      else if s.data.name.None? then r == Stay(s, db, Nothing)
      else
        && r.session == Cleared
        && r.db == Store.AddBirthday(db, userId, s.data.name.value, d.value, Timestamp(now)).0
        && r.reply.Added? && r.reply.name == s.data.name.value
        && r.reply.age == now.date.year - d.value.year
        && (r.reply.daysUntil.Some? ==>
              r.reply.daysUntil.value >= 0 &&
              (r.reply.daysUntil.value == 0 <==> d.value.month == now.date.month && d.value.day == now.date.day))
    ensures r.reply == BadDateFormat ==> r.db == db && r.session == s
    ensures r.db != db ==> r.session == Cleared && r.reply.Added?
  {
    match parse(Strip(text))
    case None => Stay(s, db, BadDateFormat)
    case Some(d) =>
      if !Valid(d) then Stay(s, db, BadDateFormat)
      else if Later(Midnight(d), now) then Stay(s, db, DateInFuture)
      else if d.year < MinYear then Stay(s, db, DateTooOld)
      else if s.data.name.None? then Stay(s, db, Nothing)
      else
        var name := s.data.name.value;
        var db' := Store.AddBirthday(db, userId, name, d, Timestamp(now)).0;
        var days := BirthdayList.DaysUntil(d, now.date);
        Step(Cleared, db', Added(name, now.date.year - d.year, if days.Some? then Some(days.value) else None))
  }

  /** A date that passes is kept: afterwards exactly one row of the user has that name, with that date. */
  lemma AddedBirthdayIsStored(s: Session, db: Store.Db, userId: int, text: string,
                              parse: string -> Option<Date>, now: Moment, b: Store.Birthday)
    requires ValidMoment(now)
    requires ProcessBirthDate(s, db, userId, text, parse, now).reply.Added?
    requires b in ProcessBirthDate(s, db, userId, text, parse, now).db.birthdays
    requires b.userId == userId && b.name == s.data.name.value
    ensures b.birthDate == parse(Strip(text)).value
    ensures Valid(b.birthDate) && b.birthDate.year >= MinYear && !Later(Midnight(b.birthDate), now)
  {
    Store.AddBirthdayUnique(db, userId, s.data.name.value, parse(Strip(text)).value, Timestamp(now));
  }

  // ---------------------------------------------------------------------------
  // The confirmation as written
  // ---------------------------------------------------------------------------

  /**
   * The days left in the confirmation as the handler computes them: this
   * year's birthday, at midnight, is compared with the current time
   * (`next_birthday < now`), and `replace(year=...)` may raise. `None` is
   * that `ValueError`.
   */
  function ConfirmationDaysAsWritten(d: Date, now: Moment): (r: Option<int>)
    requires Valid(d) && ValidMoment(now)
    ensures r.Some? ==> r.value >= 0
  {
    match WithYear(d, now.date.year)
    case None => None
    case Some(n) =>
      if Later(now, Midnight(n)) then
        match WithYear(d, now.date.year + 1)
        case None => None
        case Some(x) =>
          DayNumberNotBefore(now.date, x);
          Some(DayNumber(x) - DayNumber(now.date))
      else
        DayNumberNotBefore(now.date, n);
        Some(DayNumber(n) - DayNumber(now.date))
  }

  /**
   * `process_birthday_date` as written: the same checks and the same write,
   * then the confirmation above, whose `ValueError` is caught by the
   * handler's `except ValueError` and answered with the wrong-format prompt,
   * after the birthday was stored and the conversation cleared.
   */
  function ProcessBirthDateAsWritten(s: Session, db: Store.Db, userId: int, text: string,
                                     parse: string -> Option<Date>, now: Moment): (r: Step<Reply>)
    requires ValidMoment(now)
    ensures var fixed := ProcessBirthDate(s, db, userId, text, parse, now);
      && r.session == fixed.session && r.db == fixed.db
      && (!fixed.reply.Added? ==> r.reply == fixed.reply)
  {
    var fixed := ProcessBirthDate(s, db, userId, text, parse, now);
    if !fixed.reply.Added? then fixed
    else
      var d := parse(Strip(text)).value;
      match ConfirmationDaysAsWritten(d, now)
      case None => Step(fixed.session, fixed.db, BadDateFormat)
      case Some(k) => Step(fixed.session, fixed.db, fixed.reply.(daysUntil := Some(k)))
  }

  /**
   * A birthday entered on the day itself, any time after midnight, is
   * announced as a year away: never as zero days, which the corrected
   * confirmation and the list both show.
   */
  lemma TodaysBirthdayAsWritten(d: Date, now: Moment)
    requires Valid(d) && ValidMoment(now) && now.second > 0
    requires d.month == now.date.month && d.day == now.date.day
    ensures ConfirmationDaysAsWritten(d, now) != Some(0)
    ensures BirthdayList.DaysUntil(d, now.date) == Some(0)
  {
    var n := WithYear(d, now.date.year);
    assert n == Some(now.date);
    assert Later(now, Midnight(now.date));
    var x := WithYear(d, now.date.year + 1);
    if x.Some? {
      DayNumberMonotone(now.date, x.value);
    }
  }

  /** Fifteenth of March, entered at noon on the fifteenth of March: 365 days, where 0 was meant. */
  lemma TodaysBirthdayExample()
    ensures ConfirmationDaysAsWritten(Date(2000, 3, 15), Moment(Date(2025, 3, 15), 43200)) == Some(365)
  {
    DaysBeforeYearStep(2025);
  }

  /**
   * A 29 February birth date entered in a common year passes every check and
   * is stored, the conversation ends, and the user is told the date has the
   * wrong format.
   */
  lemma LeapDayAsWritten(s: Session, db: Store.Db, userId: int, text: string,
                         parse: string -> Option<Date>, now: Moment)
    requires ValidMoment(now) && !IsLeap(now.date.year)
    requires s.data.name.Some?
    requires parse(Strip(text)).Some?
    requires var d := parse(Strip(text)).value;
      d.month == 2 && d.day == 29 && Valid(d) && d.year >= MinYear && !Later(Midnight(d), now)
    ensures var r := ProcessBirthDateAsWritten(s, db, userId, text, parse, now);
      r.reply == BadDateFormat && r.db != db && r.session == Cleared
    ensures ProcessBirthDate(s, db, userId, text, parse, now).reply.Added?
  {
    var r := ProcessBirthDate(s, db, userId, text, parse, now);
    assert r.db.nextBirthdayId == db.nextBirthdayId + 1;
  }

  // ---------------------------------------------------------------------------
  // Callback payloads
  // ---------------------------------------------------------------------------

  datatype Command =
    | OpenList                // menu:birthdays
    | StartAdd                // bd:add
    | GotoPage(page: int)     // bd:page:{n}
    | SamePage                // bd:page:current
    | ChooseDeletion          // bd:delete
    | DeleteNamed(name: string) // bd:delete_confirm:{name}
    | Malformed

  /** `f"bd:delete_confirm:{name}"`. */
  function DeletePayload(name: string): string {
    "bd:delete_confirm:" + name
  }

  /** The handlers of the router that take a callback, in registration order. */
  datatype Route = ListRoute | AddRoute | PageRoute | DeleteMenuRoute | DeleteConfirmRoute

  /**
   * The first handler whose filter (`==` or `startswith`) accepts the payload,
   * if any. The router claims only `menu:birthdays` and payloads under
   * `bd:`, and the page and delete prefixes never shadow each other.
   */
  function RouteOf(p: string): (r: Option<Route>)
    ensures r.Some? ==> p == "menu:birthdays" || StartsWith(p, "bd:")
    ensures r == Some(PageRoute) <==> StartsWith(p, "bd:page:")
    ensures r == Some(DeleteConfirmRoute) <==> StartsWith(p, "bd:delete_confirm:")
    ensures r == Some(AddRoute) <==> p == "bd:add"
    ensures r == Some(DeleteMenuRoute) <==> p == "bd:delete"
  {
    PrefixesApart(p);
    if p == "menu:birthdays" then Some(ListRoute)
    else if p == "bd:add" then Some(AddRoute)
    else if StartsWith(p, "bd:page:") then Some(PageRoute)
    else if p == "bd:delete" then Some(DeleteMenuRoute)
    else if StartsWith(p, "bd:delete_confirm:") then Some(DeleteConfirmRoute)
    else None
  }

  /** The fixed payloads and the two prefixes of the router exclude one another. */
  lemma PrefixesApart(p: string)
    ensures StartsWith(p, "bd:page:") ==>
      p != "menu:birthdays" && p != "bd:add" && p != "bd:delete" && !StartsWith(p, "bd:delete_confirm:")
    ensures StartsWith(p, "bd:delete_confirm:") ==> p != "menu:birthdays" && p != "bd:add" && p != "bd:delete"
  {
    if StartsWith(p, "bd:page:") {
      assert p[0] == 'b' && p[3] == 'p';
      NotPrefix(p, "bd:delete_confirm:", 3);
    }
    if StartsWith(p, "bd:delete_confirm:") {
      assert p[0] == 'b' && |p| >= 18;
    }
  }

  /** `":".join(callback.data.split(":")[2:])`: everything after the second colon. */
  function NameField(p: string): string {
    var parts := Split(p, ':');
    Join(if |parts| >= 2 then parts[2..] else [], ':')
  }

  /** The handler that produces each well-formed command. */
  function RouteFor(c: Command): Route
    requires !c.Malformed?
  {
    match c
    case OpenList => ListRoute
    case StartAdd => AddRoute
    case GotoPage(_) => PageRoute
    case SamePage => PageRoute
    case ChooseDeletion => DeleteMenuRoute
    case DeleteNamed(_) => DeleteConfirmRoute
  }

  /**
   * What each handler reads from the payload: a command of its own; only
   * the page handler's `int()` can fail; the delete handler takes the name
   * after the two fixed fields.
   */
  function Read(route: Route, p: string): (r: Command)
    ensures r.Malformed? ==> route == PageRoute
    ensures !r.Malformed? ==> RouteFor(r) == route
    ensures r.SamePage? ==> LastField(p, ':') == "current"
    ensures r.GotoPage? ==> ParseInt(LastField(p, ':')) == Some(r.page)
    ensures r.DeleteNamed? ==> r.name == NameField(p)
  {
    match route
    case ListRoute => OpenList
    case AddRoute => StartAdd
    case PageRoute =>
      if LastField(p, ':') == "current" then SamePage
      else if ParseInt(LastField(p, ':')).Some? then GotoPage(ParseInt(LastField(p, ':')).value)
      else Malformed
    case DeleteMenuRoute => ChooseDeletion
    case DeleteConfirmRoute => DeleteNamed(NameField(p))
  }

  /** Which handler of the router claims a payload and what it reads from it. */
  function Decode(p: string): (r: Option<Command>)
    ensures r.Some? <==> RouteOf(p).Some?
    ensures r.Some? && !r.value.Malformed? ==> RouteOf(p) == Some(RouteFor(r.value))
    ensures r.Some? ==> p == "menu:birthdays" || StartsWith(p, "bd:")
  {
    match RouteOf(p)
    case None => None
    case Some(route) => Some(Read(route, p))
  }

  /** The name after the two fixed fields comes back whole, colons and all. */
  lemma NameFieldOfDeletePayload(name: string)
    ensures NameField(DeletePayload(name)) == name
  {
    var p := DeletePayload(name);
    assert "bd:delete_confirm:" == "bd" + [':'] + "delete_confirm" + [':'];
    assert p == "bd" + [':'] + ("delete_confirm" + [':'] + name);
    AfterTwoFields("bd", "delete_confirm", name);
    JoinSplit(name, ':');
  }

  lemma AfterTwoFields(a: string, b: string, rest: string)
    requires ':' !in a && ':' !in b
    ensures var parts := Split(a + [':'] + (b + [':'] + rest), ':');
      |parts| >= 2 && parts[2..] == Split(rest, ':')
  {
    SplitAppend(a, ':', b + [':'] + rest);
    SplitAppend(b, ':', rest);
  }

  lemma RouteOfDeletePayload(name: string)
    ensures RouteOf(DeletePayload(name)) == Some(DeleteConfirmRoute)
  {
    var p := DeletePayload(name);
    assert p[..18] == "bd:delete_confirm:";
    NotPrefix(p, "bd:page:", 3);
  }

  /**
   * `bd:delete_confirm:{name}` reaches the delete handler with exactly the
   * name it was built from, for every name, even one holding colons.
   */
  lemma DecodeDeletePayload(name: string)
    ensures Decode(DeletePayload(name)) == Some(DeleteNamed(name))
  {
    RouteOfDeletePayload(name);
    NameFieldOfDeletePayload(name);
  }

  /** A page button reaches the pagination handler, which reads back the page or the no-op. */
  lemma DecodePagePayload(target: Option<nat>)
    ensures Decode(Keyboards.PagePayload("bd:page:", target)) ==
      Some(if target.Some? then GotoPage(target.value) else SamePage)
  {
    var p := Keyboards.PagePayload("bd:page:", target);
    var d := if target.Some? then IntToString(target.value) else "current";
    assert p == "bd:page:" + d;
    assert p[..8] == "bd:page:";
    NotPrefix(p, "bd:add", 3);
    if target.Some? {
      IntToStringHasNo(target.value, ':');
      IntToStringRoundTrip(target.value);
      assert d != "current" by { assert d[0] == '-' || IsDigit(d[0]); }
    }
    LastFieldAfterPrefix("bd:page:", ':', d);
  }

  lemma NavButtonDecodes(page: nat, totalPages: nat, j: int)
    requires page < totalPages && 0 <= j < |Keyboards.PageNav("bd:page:", page, totalPages)|
    ensures var c := Decode(Keyboards.PageNav("bd:page:", page, totalPages)[j].payload);
      && c.Some? && c != Some(Malformed)
      && (c.value.GotoPage? ==> 0 <= c.value.page < totalPages)
  {
    if j == 0 {
      DecodePagePayload(Paging.PrevPage(page));
    } else if j == 1 {
      DecodePagePayload(None);
    } else {
      DecodePagePayload(Paging.NextPage(page, totalPages));
    }
  }

  /**
   * Every button under the birthday list but the last reaches this router: a
   * page button names a page that exists, and add and delete are read
   * without error; `menu:main` belongs to the start router.
   */
  lemma ListButtonsDecode(page: nat, totalPages: nat, k: int)
    requires page < totalPages
    requires 0 <= k < |BirthdayList.ListButtons(page, totalPages)|
    ensures var bs := BirthdayList.ListButtons(page, totalPages);
      var c := Decode(bs[k].payload);
      && (k < |bs| - 1 ==> c.Some? && c != Some(Malformed))
      && (k == |bs| - 1 ==> c.None?)
      && (c.Some? && c.value.GotoPage? ==> 0 <= c.value.page < totalPages)
  {
    var bs := BirthdayList.ListButtons(page, totalPages);
    var nav := Keyboards.PageNav("bd:page:", page, totalPages);
    if k < |nav| {
      assert bs[k] == nav[k];
      NavButtonDecodes(page, totalPages, k);
    } else if k == |bs| - 3 {
      assert RouteOf("bd:add") == Some(AddRoute);
    } else if k == |bs| - 2 {
      NotPrefix("bd:delete", "bd:page:", 3);
      assert RouteOf("bd:delete") == Some(DeleteMenuRoute);
    } else {
      NotPrefix("menu:main", "bd:page:", 0);
      NotPrefix("menu:main", "bd:delete_confirm:", 0);
    }
  }

  // ---------------------------------------------------------------------------
  // Callbacks
  // ---------------------------------------------------------------------------

  /**
   * `delete_birthday_start`: one `bd:delete_confirm:{name}` button per
   * birthday, in the order of `get_user_birthdays`, then the way back to the
   * list. The caption text is not modelled.
   */
  function DeletionButtons(bds: seq<Store.Birthday>): (r: seq<Keyboards.Button>)
    ensures |r| == |bds| + 1
    ensures forall k :: 0 <= k < |bds| ==> r[k].payload == DeletePayload(bds[k].name)
    ensures r[|bds|].payload == "menu:birthdays"
  {
    seq(|bds|, k requires 0 <= k < |bds| => Keyboards.Button(bds[k].name, DeletePayload(bds[k].name)))
    + [Keyboards.Button("◀️ Назад", "menu:birthdays")]
  }

  /**
   * One callback of the router. `messageId` is the message the button was
   * on, remembered by `bd:add`. Only `bd:add` changes the conversation and
   * only a delete confirmation changes the database; deleting by name
   * removes exactly the user's row of that name. The deletion menu reads
   * every stored date with `strptime`, which fails (and nothing is shown)
   * if one is not a date.
   */
  function HandleCallback(s: Session, db: Store.Db, userId: int, today: Date, messageId: int, c: Command)
    : (r: Step<Reply>)
    requires Valid(today)
    ensures c != StartAdd ==> r.session == s
    ensures c == StartAdd ==> r.session == Session(BirthdayName, s.data.(messageId := Some(messageId)))
    ensures !c.DeleteNamed? ==> r.db == db
    ensures c.DeleteNamed? ==>
      && (forall b :: b in r.db.birthdays <==> b in db.birthdays && (b.userId != userId || b.name != c.name))
      && r.db.tasks == db.tasks
  {
    match c
    case OpenList => Stay(s, db, List(BirthdayList.ShowBirthdaysPage(db, userId, today, 0)))
    case StartAdd => Step(Session(BirthdayName, s.data.(messageId := Some(messageId))), db, AskName)
    case GotoPage(page) => Stay(s, db, List(BirthdayList.ShowBirthdaysPage(db, userId, today, page)))
    case SamePage => Stay(s, db, Nothing)
    case ChooseDeletion =>
      var bds := Store.UserBirthdays(db, userId);
      if bds == [] then Stay(s, db, NoBirthdaysToDelete)
      else if exists k :: 0 <= k < |bds| && !Valid(bds[k].birthDate) then Stay(s, db, Nothing)
      else Stay(s, db, DeletionChoices(DeletionButtons(bds)))
    case DeleteNamed(name) => Step(s, Store.DeleteBirthday(db, userId, name), Deleted(name))
    case Malformed => Stay(s, db, Nothing)
  }

  /** Names are unique per user, so the user's other rows all have other names. */
  lemma OnlyRowOfItsName(db: Store.Db, target: Store.Birthday, b: Store.Birthday)
    requires Store.Valid(db) && target in db.birthdays && b in db.birthdays && b != target
    ensures b.userId != target.userId || b.name != target.name
  {
    var i :| 0 <= i < |db.birthdays| && db.birthdays[i] == b;
    var j :| 0 <= j < |db.birthdays| && db.birthdays[j] == target;
    if i < j {
      assert Store.DifferentOwnerOrName(db.birthdays[i], db.birthdays[j]);
    } else {
      assert Store.DifferentOwnerOrName(db.birthdays[j], db.birthdays[i]);
    }
  }

  /** Each button of the deletion menu asks to delete its own birthday's name; the last goes back to the list. */
  lemma DeletionButtonsDecode(bds: seq<Store.Birthday>, k: int)
    requires 0 <= k <= |bds|
    ensures k < |bds| ==> Decode(DeletionButtons(bds)[k].payload) == Some(DeleteNamed(bds[k].name))
    ensures k == |bds| ==> Decode(DeletionButtons(bds)[k].payload) == Some(OpenList)
  {
    if k < |bds| {
      DecodeDeletePayload(bds[k].name);
    }
  }

  /**
   * Deleting one of the user's birthdays by name removes exactly that row:
   * names are unique per user, so every other row stays.
   */
  lemma DeletingRemovesOnlyIt(s: Session, db: Store.Db, userId: int, today: Date, messageId: int,
                              target: Store.Birthday)
    requires Valid(today) && Store.Valid(db)
    requires target in db.birthdays && target.userId == userId
    ensures var r := HandleCallback(s, db, userId, today, messageId, DeleteNamed(target.name));
      && target !in r.db.birthdays
      && forall b :: b in db.birthdays && b != target ==> b in r.db.birthdays
  {
    forall b | b in db.birthdays && b != target
      ensures b.userId != userId || b.name != target.name
    {
      OnlyRowOfItsName(db, target, b);
    }
  }

  // ---------------------------------------------------------------------------
  // What the birthday flow keeps true
  // ---------------------------------------------------------------------------

  /** The name collected so far passed its check. */
  predicate DraftOk(d: Data) {
    d.name.Some? ==> MinName <= |d.name.value| <= MaxName
  }

  /** Every stored birthday has a name of 2 to 100 characters and a real date from 1900 on. */
  predicate BirthdaysOk(db: Store.Db) {
    forall i :: 0 <= i < |db.birthdays| ==>
      && MinName <= |db.birthdays[i].name| <= MaxName
      && Valid(db.birthdays[i].birthDate) && db.birthdays[i].birthDate.year >= MinYear
  }

  /** Upserting a checked name and date keeps every stored birthday checked. */
  lemma AddKeepsBirthdaysOk(db: Store.Db, userId: int, name: string, d: Date, t: int)
    requires BirthdaysOk(db)
    requires MinName <= |name| <= MaxName && Valid(d) && d.year >= MinYear
    ensures BirthdaysOk(Store.AddBirthday(db, userId, name, d, t).0)
  {
    var rows := Store.AddBirthday(db, userId, name, d, t).0.birthdays;
    forall i | 0 <= i < |rows| - 1
      ensures rows[i] in db.birthdays
    {
      assert rows[i] in rows[..|rows| - 1];
    }
  }

  /** The name step stores only a checked name, and only in the draft. */
  lemma NameStepKeepsBirthdaysOk(s: Session, db: Store.Db, text: string)
    requires DraftOk(s.data) && BirthdaysOk(db)
    ensures var r := ProcessName(s, db, text); DraftOk(r.session.data) && BirthdaysOk(r.db)
  {
  }

  /** The date step stores only a checked date, under the checked name. */
  lemma DateStepKeepsBirthdaysOk(s: Session, db: Store.Db, userId: int, text: string,
                                 parse: string -> Option<Date>, now: Moment)
    requires ValidMoment(now)
    requires DraftOk(s.data) && BirthdaysOk(db)
    ensures var r := ProcessBirthDate(s, db, userId, text, parse, now); DraftOk(r.session.data) && BirthdaysOk(r.db)
  {
    var r := ProcessBirthDate(s, db, userId, text, parse, now);
    if r.db != db {
      AddKeepsBirthdaysOk(db, userId, s.data.name.value, parse(Strip(text)).value, Timestamp(now));
    }
  }

  /** The callbacks keep it too: deleting only removes rows. */
  lemma CallbacksKeepBirthdaysOk(s: Session, db: Store.Db, userId: int, today: Date, messageId: int, c: Command)
    requires Valid(today)
    requires DraftOk(s.data) && BirthdaysOk(db)
    ensures var r := HandleCallback(s, db, userId, today, messageId, c);
      DraftOk(r.session.data) && BirthdaysOk(r.db)
  {
    var r := HandleCallback(s, db, userId, today, messageId, c);
    if c.DeleteNamed? {
      forall i | 0 <= i < |r.db.birthdays|
        ensures MinName <= |r.db.birthdays[i].name| <= MaxName
        ensures Valid(r.db.birthdays[i].birthDate) && r.db.birthdays[i].birthDate.year >= MinYear
      {
        assert r.db.birthdays[i] in db.birthdays;
      }
    }
  }

  /** The birthday callbacks write only the birthday table and keep the database consistent. */
  lemma CallbacksTouchOnlyBirthdays(s: Session, db: Store.Db, userId: int, today: Date, messageId: int, c: Command)
    requires Valid(today)
    ensures var db' := HandleCallback(s, db, userId, today, messageId, c).db;
      db'.(birthdays := db.birthdays) == db && (Store.Valid(db) ==> Store.Valid(db'))
  {
    if c.DeleteNamed? {
      assert HandleCallback(s, db, userId, today, messageId, c).db == Store.DeleteBirthday(db, userId, c.name);
    }
  }

  /** The date step writes only the birthday table and its id counter, and keeps the database consistent. */
  lemma DateStepTouchesOnlyBirthdays(s: Session, db: Store.Db, userId: int, text: string,
                                     parse: string -> Option<Date>, now: Moment)
    requires ValidMoment(now)
    ensures var db' := ProcessBirthDate(s, db, userId, text, parse, now).db;
      db'.(birthdays := db.birthdays, nextBirthdayId := db.nextBirthdayId) == db && (Store.Valid(db) ==> Store.Valid(db'))
  {
    var d := parse(Strip(text));
    if d.Some? && Valid(d.value) && !Later(Midnight(d.value), now) && d.value.year >= MinYear && s.data.name.Some? {
      var res := Store.AddBirthday(db, userId, s.data.name.value, d.value, Timestamp(now));
      assert ProcessBirthDate(s, db, userId, text, parse, now).db == res.0;
    }
  }
}

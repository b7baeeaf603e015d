/**
 * The birthday list of `show_birthdays_page` (handlers/birthdays.py): for
 * each of the user's birthdays the days until it next comes round and the
 * age, sorted soonest first, cut into pages of ten, each line marked by how
 * soon the day is.
 *
 * Dates are (year, month, day) triples; `datetime.now()` enters only
 * through today's date, since the list compares `.date()` values. The
 * `strftime` text of each line is not modelled.
 */
module BirthdayList {
  import opened Basics
  import opened Calendar
  import opened Sorting
  import opened Paging
  import opened Html
  import Text
  import Store
  import Keyboards

  // ---------------------------------------------------------------------------
  // Days until the next birthday
  // ---------------------------------------------------------------------------

  /**
   * `birth_date.replace(year=now.year)`, moved to next year when that date
   * is already past. `replace` fails for 29 February in a common year: no
   * occurrence then. The result is the first day from today on that has the
   * birthday's month and day.
   */
  function NextOccurrence(birth: Date, today: Date): (r: Option<Date>)
    requires Valid(birth) && Valid(today)
    ensures r.None? <==>
      birth.month == 2 && birth.day == 29 && (!IsLeap(today.year) || Before(Date(today.year, 2, 29), today))
    ensures r.Some? ==>
      && Valid(r.value) && r.value.month == birth.month && r.value.day == birth.day
      && !Before(r.value, today)
      && (r.value.year == today.year <==> !Before(Date(today.year, birth.month, birth.day), today))
    ensures r.Some? ==> forall e :: Valid(e) && e.month == birth.month && e.day == birth.day && !Before(e, today) ==>
      !Before(e, r.value)
  {
    match WithYear(birth, today.year)
    case None => None
    case Some(d) =>
      if Before(d, today) then
        assert birth.month == 2 && birth.day == 29 ==> IsLeap(today.year) && !IsLeap(today.year + 1);
        WithYear(birth, today.year + 1)
      else Some(d)
  }

  /**
   * `(next_birthday.date() - now.date()).days`, or `None` for an entry the
   * list skips. Never negative, and zero exactly on the birthday itself.
   */
  function DaysUntil(birth: Date, today: Date): (r: Option<nat>)
    requires Valid(birth) && Valid(today)
    ensures r.Some? <==> NextOccurrence(birth, today).Some?
    ensures r.Some? ==> (r.value == 0 <==> birth.month == today.month && birth.day == today.day)
  {
    match NextOccurrence(birth, today)
    case None => None
    case Some(d) =>
      NextOccurrenceFacts(birth, today, d);
      Some(DayNumber(d) - DayNumber(today))
  }

  lemma NextOccurrenceFacts(birth: Date, today: Date, d: Date)
    requires Valid(birth) && Valid(today)
    requires NextOccurrence(birth, today) == Some(d)
    ensures DayNumber(d) >= DayNumber(today)
    ensures DayNumber(d) == DayNumber(today) <==> birth.month == today.month && birth.day == today.day
  {
    if birth.month == today.month && birth.day == today.day {
      assert !Before(today, d);
      assert d == today;
    } else {
      assert d != today;
      DayNumberMonotone(today, d);
    }
  }

  // ---------------------------------------------------------------------------
  // Entries and their order
  // ---------------------------------------------------------------------------

  datatype Entry = Entry(id: nat, name: string, birthDate: Date, daysUntil: nat, age: int)

  /**
   * One turn of the loop: the entry of a birthday, or `None` when its date
   * cannot be read or moved to this year (`except Exception: continue`).
   * The age is the difference of the years.
   */
  function EntryOf(b: Store.Birthday, today: Date): (r: Option<Entry>)
    requires Valid(today)
    ensures r.Some? <==> Valid(b.birthDate) && DaysUntil(b.birthDate, today).Some?
    ensures r.Some? ==> r.value.id == b.id && r.value.name == b.name && r.value.birthDate == b.birthDate
  {
    if !Valid(b.birthDate) then None
    else match DaysUntil(b.birthDate, today)
      case None => None
      case Some(n) => Some(Entry(b.id, b.name, b.birthDate, n, today.year - b.birthDate.year))
  }

  /** The entries of the birthdays that can be placed, in input order. */
  function Upcoming(bds: seq<Store.Birthday>, today: Date): (r: seq<Entry>)
    requires Valid(today)
    ensures |r| <= |bds|
    ensures forall e :: e in r ==> exists b :: b in bds && EntryOf(b, today) == Some(e)
    ensures forall b :: b in bds && EntryOf(b, today).Some? ==> EntryOf(b, today).value in r
  {
    if |bds| == 0 then []
    else
      var rest := Upcoming(bds[1..], today);
      assert forall b :: b in bds[1..] ==> b in bds;
      match EntryOf(bds[0], today)
      case None => rest
      case Some(e) => [e] + rest
  }

  predicate DaysLe(a: Entry, b: Entry) {
    a.daysUntil <= b.daysUntil
  }

  lemma DaysLeTotalPreorder()
    ensures TotalPreorder(DaysLe)
  {
  }

  /** Soonest first. */
  predicate SoonestFirst(s: seq<Entry>) {
    forall i, j :: 0 <= i < j < |s| ==> s[i].daysUntil <= s[j].daysUntil
  }

  lemma SoonestFirstSlice(s: seq<Entry>, a: int, b: int)
    requires SoonestFirst(s) && 0 <= a <= b <= |s|
    ensures SoonestFirst(s[a..b])
  {
    var t := s[a..b];
    forall i, j | 0 <= i < j < |t|
      ensures t[i].daysUntil <= t[j].daysUntil
    {
      assert t[i] == s[a + i] && t[j] == s[a + j];
    }
  }

  /** `sorted_birthdays.sort(key=lambda x: x["days_until"])`: the same entries, soonest first. */
  function BySoonest(entries: seq<Entry>): (r: seq<Entry>)
    ensures multiset(r) == multiset(entries)
    ensures SoonestFirst(r)
  {
    DaysLeTotalPreorder();
    SortBySorted(entries, DaysLe);
    var r := SortBy(entries, DaysLe);
    assert forall i, j :: 0 <= i < j < |r| ==> DaysLe(r[i], r[j]) by {
      assert SortedBy(r, DaysLe);
    }
    r
  }

  /** The entry comes from one of the user's birthdays. */
  predicate OwnEntry(db: Store.Db, userId: int, today: Date, e: Entry)
    requires Valid(today)
  {
    exists b :: b in db.birthdays && b.userId == userId && EntryOf(b, today) == Some(e)
  }

  /** The user's birthdays that the list can place, soonest first. */
  function Ordered(db: Store.Db, userId: int, today: Date): (r: seq<Entry>)
    requires Valid(today)
    ensures SoonestFirst(r)
    ensures forall e :: e in r ==> OwnEntry(db, userId, today, e)
    ensures forall b :: b in db.birthdays && b.userId == userId && EntryOf(b, today).Some? ==>
      EntryOf(b, today).value in r
  {
    var bds := Store.UserBirthdays(db, userId);
    var entries := Upcoming(bds, today);
    var r := BySoonest(entries);
    assert forall e :: e in r <==> e in entries by {
      forall e { SameElements(r, entries, e); }
    }
    r
  }

  // ---------------------------------------------------------------------------
  // How soon
  // ---------------------------------------------------------------------------

  /** The five cases of the status emoji and the "days" text. */
  datatype Bucket = Today | VerySoon | Soon | ThisMonth | Later

  function BucketOf(days: nat): Bucket {
    if days == 0 then Today
    else if days <= 3 then VerySoon
    else if days <= 7 then Soon
    else if days <= 30 then ThisMonth
    else Later
  }

  /** 🔴 today and within three days, 🟡 within a week, 🟢 within a month, ⚪ later. */
  datatype Light = Red | Yellow | Green | White

  function LightOf(b: Bucket): Light {
    match b
    case Today => Red
    case VerySoon => Red
    case Soon => Yellow
    case ThisMonth => Green
    case Later => White
  }

  /** How urgent a bucket is: smaller is sooner. */
  function Rank(b: Bucket): nat {
    match b
    case Today => 0
    case VerySoon => 1
    case Soon => 2
    case ThisMonth => 3
    case Later => 4
  }

  /** The light as a function of the day count: the thresholds 3, 7 and 30 days. */
  lemma LightThresholds(days: nat)
    ensures LightOf(BucketOf(days)) == Red <==> days <= 3
    ensures LightOf(BucketOf(days)) == Yellow <==> 4 <= days <= 7
    ensures LightOf(BucketOf(days)) == Green <==> 8 <= days <= 30
    ensures LightOf(BucketOf(days)) == White <==> days > 30
    ensures BucketOf(days) == Today <==> days == 0
  {
  }

  /** A later day is never in a more urgent bucket. */
  lemma BucketMonotone(a: nat, b: nat)
    requires a <= b
    ensures Rank(BucketOf(a)) <= Rank(BucketOf(b))
  {
  }

  // ---------------------------------------------------------------------------
  // One page
  // ---------------------------------------------------------------------------

  /** One line: how soon, the escaped name (first 30 characters), age, day and month, days left. */
  datatype Row = Row(bucket: Bucket, name: string, age: int, day: int, month: int, daysUntil: nat)

  function RowOf(e: Entry): Row {
    Row(BucketOf(e.daysUntil), EscapeHtml(Text.Take(e.name, 30)), e.age, e.birthDate.day, e.birthDate.month,
        e.daysUntil)
  }

  /** Ascending in the days left. */
  predicate RowsAscending(rows: seq<Row>) {
    forall i, j :: 0 <= i < j < |rows| ==> rows[i].daysUntil <= rows[j].daysUntil
  }

  function RowsOf(entries: seq<Entry>): (rows: seq<Row>)
    ensures |rows| == |entries|
    ensures forall k :: 0 <= k < |entries| ==> rows[k] == RowOf(entries[k])
    ensures SoonestFirst(entries) ==> RowsAscending(rows)
  {
    seq(|entries|, k requires 0 <= k < |entries| => RowOf(entries[k]))
  }

  datatype View =
    | NoBirthdays
    | Page(page: nat, totalPages: nat, rows: seq<Row>, buttons: seq<Keyboards.Button>)

  /** The keyboard under the list: the pages, then add, delete and back. */
  function ListButtons(page: nat, totalPages: nat): (r: seq<Keyboards.Button>)
    ensures |r| == |Keyboards.PageNav("bd:page:", page, totalPages)| + 3
    ensures r[|r| - 3].payload == "bd:add" && r[|r| - 2].payload == "bd:delete"
    ensures r[|r| - 1].payload == "menu:main"
  {
    Keyboards.PageNav("bd:page:", page, totalPages)
      + [ Keyboards.Button("➕ Добавить", "bd:add"),
          Keyboards.Button("🗑 Удалить", "bd:delete"),
          Keyboards.Button("◀️ Назад", "menu:main") ]
  }

  /**
   * `show_birthdays_page`: a notice when the user has no birthdays at all;
   * otherwise the clamped page of the soonest-first list, at most ten lines,
   * in ascending days. When no birthday can be placed the page is empty and
   * counts zero pages.
   */
  function ShowBirthdaysPage(db: Store.Db, userId: int, today: Date, page: int): (v: View)
    requires Valid(today)
    ensures v.NoBirthdays? <==> Store.UserBirthdays(db, userId) == []
    ensures v.Page? ==>
      && v.totalPages == TotalPages(|Ordered(db, userId, today)|)
      && v.page == ClampPage(page, v.totalPages)
      && v.rows == RowsOf(PageSlice(Ordered(db, userId, today), page))
      && |v.rows| <= PageSize
      && (|v.rows| == 0 <==> v.totalPages == 0)
      && RowsAscending(v.rows)
      && v.buttons == ListButtons(v.page, v.totalPages)
  {
    var bds := Store.UserBirthdays(db, userId);
    if bds == [] then NoBirthdays
    else
      var entries := Ordered(db, userId, today);
      var total := TotalPages(|entries|);
      var p := ClampPage(page, total);
      var slice := PageSlice(entries, page);
      SoonestFirstSlice(entries, PageStart(|entries|, page), PageEnd(|entries|, page));
      var rows := RowsOf(slice);
      Page(p, total, rows, ListButtons(p, total))
  }

  /** Down the page the lights never get less urgent. */
  lemma LightsInOrder(db: Store.Db, userId: int, today: Date, page: int, i: int, j: int)
    requires Valid(today)
    requires ShowBirthdaysPage(db, userId, today, page).Page?
    requires 0 <= i < j < |ShowBirthdaysPage(db, userId, today, page).rows|
    ensures var rows := ShowBirthdaysPage(db, userId, today, page).rows;
      Rank(rows[i].bucket) <= Rank(rows[j].bucket)
  {
    var rows := ShowBirthdaysPage(db, userId, today, page).rows;
    var slice := PageSlice(Ordered(db, userId, today), page);
    assert rows[i] == RowOf(slice[i]) && rows[j] == RowOf(slice[j]);
    BucketMonotone(rows[i].daysUntil, rows[j].daysUntil);
  }

  /** Line `k` of a page is the entry at the page's start plus `k`. */
  lemma PageRow(db: Store.Db, userId: int, today: Date, page: int, k: int)
    requires Valid(today)
    requires ShowBirthdaysPage(db, userId, today, page).Page?
    requires 0 <= k < |ShowBirthdaysPage(db, userId, today, page).rows|
    ensures var entries := Ordered(db, userId, today);
      var start := PageStart(|entries|, page);
      && start + k < |entries|
      && ShowBirthdaysPage(db, userId, today, page).rows[k] == RowOf(entries[start + k])
  {
    var v := ShowBirthdaysPage(db, userId, today, page);
    var entries := Ordered(db, userId, today);
    var slice := PageSlice(entries, page);
    assert v.rows == RowsOf(slice);
    assert v.rows[k] == RowOf(slice[k]);
  }

  /** The line shows this birthday: its escaped name, its age and its day count. */
  predicate Shows(row: Row, b: Store.Birthday, today: Date)
    requires Valid(today)
  {
    && Valid(b.birthDate)
    && DaysUntil(b.birthDate, today) == Some(row.daysUntil)
    && row.name == EscapeHtml(Text.Take(b.name, 30))
    && row.age == today.year - b.birthDate.year
  }

  /** Every line is one of the user's own birthdays, shown with its own name and day count. */
  lemma ShownRowsAreBirthdays(db: Store.Db, userId: int, today: Date, page: int, k: int)
    requires Valid(today)
    requires ShowBirthdaysPage(db, userId, today, page).Page?
    requires 0 <= k < |ShowBirthdaysPage(db, userId, today, page).rows|
    ensures exists b :: (b in db.birthdays && b.userId == userId &&
      Shows(ShowBirthdaysPage(db, userId, today, page).rows[k], b, today))
  {
    var entries := Ordered(db, userId, today);
    PageRow(db, userId, today, page, k);
    var e := entries[PageStart(|entries|, page) + k];
    assert OwnEntry(db, userId, today, e);
    var b :| b in db.birthdays && b.userId == userId && EntryOf(b, today) == Some(e);
    assert Shows(RowOf(e), b, today);
  }

  /** Every birthday of the user whose date can be placed is on some page of the list. */
  lemma EveryPlaceableBirthdayIsListed(db: Store.Db, userId: int, today: Date, b: Store.Birthday)
    requires Valid(today)
    requires b in db.birthdays && b.userId == userId && EntryOf(b, today).Some?
    ensures exists p :: (0 <= p < TotalPages(|Ordered(db, userId, today)|) &&
      RowOf(EntryOf(b, today).value) in ShowBirthdaysPage(db, userId, today, p).rows)
  {
    var entries := Ordered(db, userId, today);
    var e := EntryOf(b, today).value;
    var i :| 0 <= i < |entries| && entries[i] == e;
    EntryOnItsPage(entries, i);
    var p := i / PageSize;
    assert b in Store.UserBirthdays(db, userId);
    var v := ShowBirthdaysPage(db, userId, today, p);
    assert v.rows[i % PageSize] == RowOf(e);
  }
}

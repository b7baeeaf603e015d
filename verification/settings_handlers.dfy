/**
 * The settings router of handlers/settings.py: the settings screen, which
 * shows the stored city, and the conversation that changes it.
 *
 * A city is accepted when the weather service finds current weather for it;
 * that HTTP lookup is the `found` parameter.
 */
module SettingsHandlers {
  import opened Basics
  import opened Text
  import opened Conversation
  import Store
  import Keyboards

  /** What the screen shows when no city is stored. */
  const NotSet: string := "Не задан"

  /** `get_settings_menu`: change the city, or back to the main menu. */
  function SettingsMenu(): (r: seq<Keyboards.Button>)
    ensures |r| == 2 && r[0].payload == "settings:change_city" && r[1].payload == "menu:main"
  {
    [ Keyboards.Button("📍 Изменить город", "settings:change_city"),
      Keyboards.Button("◀️ Назад", "menu:main") ]
  }

  datatype Reply =
    | Menu(city: string, buttons: seq<Keyboards.Button>)
    | AskCity
    | CityNotFound
    | CityChanged(city: string, buttons: seq<Keyboards.Button>)

  /** The stored city, or the "not set" text when there is no row or the city is missing or empty. */
  function CityShown(db: Store.Db, userId: int): (r: string)
    ensures userId in db.settings && db.settings[userId].city.Some? && db.settings[userId].city.value != [] ==>
      r == db.settings[userId].city.value
    ensures userId !in db.settings || db.settings[userId].city.None? || db.settings[userId].city.value == [] ==>
      r == NotSet
  {
    match Store.GetSettings(db, userId)
    case None => NotSet
    case Some(row) => if row.city.Some? && row.city.value != [] then row.city.value else NotSet
  }

  /** `show_settings_menu` (`menu:settings`): reads only, and leaves the conversation alone. */
  function ShowSettings(s: Session, db: Store.Db, userId: int): (r: Step<Reply>)
    ensures r.session == s && r.db == db
    ensures r.reply == Menu(CityShown(db, userId), SettingsMenu())
  {
    Stay(s, db, Menu(CityShown(db, userId), SettingsMenu()))
  }

  /**
   * `settings_change_city` (`settings:change_city`): waits for a city and
   * remembers the message to edit; the rest of the data bag is kept.
   */
  function StartChangeCity(s: Session, db: Store.Db, messageId: int): (r: Step<Reply>)
    ensures r.session.state == SettingsCity && WellFormed(r.session)
    ensures r.session.data == s.data.(messageId := Some(messageId))
    ensures r.db == db && r.reply == AskCity
  {
    Step(Session(SettingsCity, s.data.(messageId := Some(messageId))), db, AskCity)
  }

  /**
   * `process_city_change`: the stripped text is looked up; an unknown city
   * leaves the conversation waiting and nothing stored; a known one is
   * stored as the user's city (only the city) and ends the conversation.
   */
  function ProcessCity(s: Session, db: Store.Db, userId: int, text: string, found: string -> bool, now: int)
    : (r: Step<Reply>)
    ensures r.reply.CityNotFound? <==> !found(Strip(text))
    ensures r.reply.CityNotFound? ==> r.session == s && r.db == db
    ensures !r.reply.CityNotFound? ==>
      && r.session == Cleared
      && r.reply == CityChanged(Strip(text), SettingsMenu())
      && userId in r.db.settings
      && r.db.settings[userId].city == Some(Strip(text))
  {
    var city := Strip(text);
    if !found(city) then Stay(s, db, CityNotFound)
    else Step(Cleared, Store.UpdateSettings(db, userId, Some(city), None, None, None, now), CityChanged(city, SettingsMenu()))
  }

  /**
   * Changing the city touches nothing else: the user's other settings, every
   * other user's settings, and all tasks, birthdays and daily messages.
   */
  lemma ChangeKeepsEverythingElse(s: Session, db: Store.Db, userId: int, text: string, found: string -> bool, now: int)
    ensures var db' := ProcessCity(s, db, userId, text, found, now).db;
      && db'.tasks == db.tasks && db'.nextTaskId == db.nextTaskId
      && db'.birthdays == db.birthdays && db'.nextBirthdayId == db.nextBirthdayId
      && db'.dailyMessages == db.dailyMessages
      && db'.settings.Keys <= db.settings.Keys + {userId}
      && (forall u :: u in db.settings && u != userId ==> db'.settings[u] == db.settings[u])
      && (userId in db.settings ==>
            && db'.settings[userId].country == db.settings[userId].country
            && db'.settings[userId].region == db.settings[userId].region
            && db'.settings[userId].timezone == db.settings[userId].timezone
            && db'.settings[userId].language == db.settings[userId].language)
  {
    if found(Strip(text)) {
      var db' := Store.UpdateSettings(db, userId, Some(Strip(text)), None, None, None, now);
      assert db'.(settings := db.settings) == db;
    }
  }

  /** After a successful change the settings screen shows the new city (unless it is empty). */
  lemma ChangedCityIsShown(s: Session, db: Store.Db, userId: int, text: string, found: string -> bool, now: int, s': Session)
    requires ProcessCity(s, db, userId, text, found, now).reply.CityChanged?
    requires Strip(text) != []
    ensures ShowSettings(s', ProcessCity(s, db, userId, text, found, now).db, userId).reply.city == Strip(text)
  {
  }
}

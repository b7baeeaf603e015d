/**
 * The dispatcher of bot_main.py: the routers are included in a fixed order
 * (start, tasks, birthdays, weather, currency, places, settings) and an
 * update goes to the first router with a handler whose filters accept it.
 * Message handlers filter on the conversation state, callback handlers on
 * the payload; an update no handler accepts changes nothing.
 *
 * Everything outside the bot (the clock, the parsers, the HTTP services and
 * the geocoder) is fixed for one update in an `Env`.
 */
module Dispatcher {
  import opened Basics
  import opened Text
  import opened Calendar
  import opened Conversation
  import Store
  import Keyboards
  import StartHandlers
  import TaskHandlers
  import BirthdayHandlers
  import CurrencyHandlers
  import PlacesHandlers
  import SettingsHandlers
  import CurrencyService
  import PlacesService

  /** What reaches the bot from one user. */
  datatype Update =
    | TextMessage(text: string)
    | LocationMessage(lat: PlacesHandlers.Coord, lon: PlacesHandlers.Coord)
    | Callback(payload: string, messageId: int)

  /** The outside world as one update sees it. */
  datatype Env = Env(
    userId: int,
    botName: string,
    now: int,
    moment: BirthdayHandlers.Moment,
    parseDue: string -> Option<int>,
    parseBirthDate: string -> Option<Date>,
    parseFloat: string -> Option<real>,
    rates: Option<seq<CurrencyService.Rate>>,
    cityFound: string -> bool,
    geocode: string -> PlacesHandlers.Geocoded,
    fetch: string -> seq<PlacesService.Element>,
    dist: (real, real) -> real)

  /** `datetime.now()` is a real moment of a real day. */
  predicate EnvOk(env: Env) {
    BirthdayHandlers.ValidMoment(env.moment)
  }

  datatype Router = StartRouter | TasksRouter | BirthdaysRouter | WeatherRouter | CurrencyRouter | PlacesRouter | SettingsRouter

  /** The position of each router in the `dp.include_router(...)` calls. */
  function Rank(router: Router): (r: nat)
    ensures r < 7
  {
    match router
    case StartRouter => 0
    case TasksRouter => 1
    case BirthdaysRouter => 2
    case WeatherRouter => 3
    case CurrencyRouter => 4
    case PlacesRouter => 5
    case SettingsRouter => 6
  }

  datatype Reply =
    | Unhandled
    | Raised
    | FromStart(start: StartHandlers.Reply)
    | FromTasks(tasks: TaskHandlers.Reply)
    | FromBirthdays(birthdays: BirthdayHandlers.Reply)
    | FromWeather
    | FromCurrency(currency: CurrencyHandlers.Reply)
    | FromPlaces(places: PlacesHandlers.Reply)
    | FromSettings(settings: SettingsHandlers.Reply)

  // ---------------------------------------------------------------------------
  // Filters
  // ---------------------------------------------------------------------------

  /** aiogram's `Command(name)`: the first word is `/name`, or `/name@bot` addressed to this bot. */
  predicate IsCommand(text: string, name: string, botName: string): (r: bool)
    ensures r ==> |Words(text)| > 0 && StartsWith(Words(text)[0], "/" + name)
    ensures r ==> Words(text)[0] == "/" + name || Words(text)[0] == "/" + name + "@" + botName
  {
    var words := Words(text);
    if |words| > 0 && (words[0] == "/" + name || words[0] == "/" + name + "@" + botName) then
      assert ("/" + name + "@" + botName)[..|"/" + name|] == "/" + name;
      true
    else false
  }

  /** Arguments after the command word do not stop it being the command. */
  lemma CommandWithArguments(name: string, botName: string, args: string)
    requires IsWord("/" + name)
    ensures IsCommand("/" + name, name, botName)
    ensures IsCommand("/" + name + " " + args, name, botName)
  {
    WordsOfWord("/" + name);
    WordsAppend("/" + name, args);
  }

  /** The request of the start router an update is, if any. */
  function StartRequest(u: Update, botName: string): (r: Option<StartHandlers.Request>)
    ensures u.LocationMessage? ==> r.None?
    ensures u.Callback? ==> (r == Some(StartHandlers.MainMenuButton) <==> u.payload == "menu:main")
    ensures u.Callback? ==> (r == Some(StartHandlers.CancelButton) <==> u.payload == "cancel")
    ensures u.Callback? && r.Some? ==> r.value.MainMenuButton? || r.value.CancelButton?
    ensures u.TextMessage? ==> (r == Some(StartHandlers.StartCommand) <==> IsCommand(u.text, "start", botName))
    ensures u.TextMessage? && r.Some? ==> !r.value.MainMenuButton? && !r.value.CancelButton?
  {
    match u
    case TextMessage(t) =>
      if IsCommand(t, "start", botName) then Some(StartHandlers.StartCommand)
      else if IsCommand(t, "help", botName) then Some(StartHandlers.HelpCommand)
      else if IsCommand(t, "menu", botName) then Some(StartHandlers.MenuCommand)
      else None
    case LocationMessage(_, _) => None
    case Callback(p, _) =>
      if p == "menu:main" then Some(StartHandlers.MainMenuButton)
      else if p == "cancel" then Some(StartHandlers.CancelButton)
      else None
  }

  /** Whether some handler of the router accepts the update in this state. */
  predicate Claims(router: Router, s: Session, u: Update, botName: string): (r: bool)
    ensures r && u.Callback? && router == StartRouter ==> u.payload == "menu:main" || u.payload == "cancel"
    ensures r && u.Callback? && router != StartRouter ==>
      u.payload == MenuEntry(router) || StartsWith(u.payload, OwnPrefix(router))
    ensures r && !u.Callback? && router != StartRouter ==> s.state != Idle
  {
    FixedPayloadsOwned();
    match router
    case StartRouter => StartRequest(u, botName).Some?
    case TasksRouter =>
      if u.Callback? then TaskHandlers.RouteOf(u.payload).Some?
      else s.state in {TaskTitle, TaskDescription, TaskDate}
    case BirthdaysRouter =>
      if u.Callback? then BirthdayHandlers.RouteOf(u.payload).Some?
      else s.state in {BirthdayName, BirthdayDate}
    case WeatherRouter => u.Callback? && u.payload in {"menu:weather", "weather:forecast"}
    case CurrencyRouter =>
      if u.Callback? then u.payload in {"menu:currency", "currency:convert"}
      else s.state == CurrencyConversion
    case PlacesRouter =>
      if u.Callback? then PlacesHandlers.RouteOf(u.payload).Some?
      else s.state == PlacesLocation
    case SettingsRouter =>
      if u.Callback? then u.payload in {"menu:settings", "settings:change_city"}
      else s.state == SettingsCity
  }

  /** The main-menu button that opens each router's section. */
  function MenuEntry(router: Router): string {
    match router
    case StartRouter => "menu:main"
    case TasksRouter => "menu:tasks"
    case BirthdaysRouter => "menu:birthdays"
    case WeatherRouter => "menu:weather"
    case CurrencyRouter => "menu:currency"
    case PlacesRouter => "menu:places"
    case SettingsRouter => "menu:settings"
  }

  /** The payload namespace each section's router owns. */
  function OwnPrefix(router: Router): string {
    match router
    case StartRouter => ""
    case TasksRouter => "task:"
    case BirthdaysRouter => "bd:"
    case WeatherRouter => "weather:"
    case CurrencyRouter => "currency:"
    case PlacesRouter => "places:"
    case SettingsRouter => "settings:"
  }

  /** The fixed payloads of the weather, currency and settings screens lie in their namespaces. */
  lemma FixedPayloadsOwned()
    ensures StartsWith("weather:forecast", OwnPrefix(WeatherRouter))
    ensures StartsWith("currency:convert", OwnPrefix(CurrencyRouter))
    ensures StartsWith("settings:change_city", OwnPrefix(SettingsRouter))
  {
    assert "weather:forecast"[..8] == "weather:";
    assert "currency:convert"[..9] == "currency:";
    assert "settings:change_city"[..9] == "settings:";
  }

  /** The router that gets the update: the first, in inclusion order, that claims it. */
  function Chosen(s: Session, u: Update, botName: string): (r: Option<Router>)
    ensures r.Some? ==> Claims(r.value, s, u, botName)
    ensures r.Some? ==> forall q :: Rank(q) < Rank(r.value) ==> !Claims(q, s, u, botName)
    ensures r.None? <==> forall q :: !Claims(q, s, u, botName)
  {
    if Claims(StartRouter, s, u, botName) then Some(StartRouter)
    else if Claims(TasksRouter, s, u, botName) then Some(TasksRouter)
    else if Claims(BirthdaysRouter, s, u, botName) then Some(BirthdaysRouter)
    else if Claims(WeatherRouter, s, u, botName) then Some(WeatherRouter)
    else if Claims(CurrencyRouter, s, u, botName) then Some(CurrencyRouter)
    else if Claims(PlacesRouter, s, u, botName) then Some(PlacesRouter)
    else if Claims(SettingsRouter, s, u, botName) then Some(SettingsRouter)
    else None
  }

  // ---------------------------------------------------------------------------
  // Running the chosen router
  // ---------------------------------------------------------------------------

  function Lift<R>(st: Step<R>, wrap: R -> Reply): Step<Reply> {
    Step(st.session, st.db, wrap(st.reply))
  }

  /** The task router: only the task table and its id counter can change. */
  function RunTasks(s: Session, db: Store.Db, u: Update, env: Env): (r: Step<Reply>)
    ensures r.db.(tasks := db.tasks, nextTaskId := db.nextTaskId) == db
    ensures u.LocationMessage? ==> r.session == s && r.db == db
  {
    var wrap := (r: TaskHandlers.Reply) => FromTasks(r);
    match u
    case Callback(p, messageId) =>
      (match TaskHandlers.Decode(p)
      case None => Stay(s, db, Unhandled)
      case Some(c) => Lift(TaskHandlers.HandleCallback(s, db, env.userId, env.now, messageId, c), wrap))
    case LocationMessage(_, _) => Stay(s, db, Raised)
    case TextMessage(t) =>
      if s.state == TaskTitle then Lift(TaskHandlers.ProcessTitle(s, db, t), wrap)
      else if s.state == TaskDescription then Lift(TaskHandlers.ProcessDescription(s, db, t), wrap)
      else if s.state == TaskDate then
        TaskHandlers.DateStepTouchesOnlyTasks(s, db, env.userId, t, env.parseDue, env.now);
        Lift(TaskHandlers.ProcessDate(s, db, env.userId, t, env.parseDue, env.now), wrap)
      else Stay(s, db, Unhandled)
  }

  /**
   * The birthday router, running the birth-date step as written: only the
   * birthday table and its id counter can change.
   */
  function RunBirthdays(s: Session, db: Store.Db, u: Update, env: Env): (r: Step<Reply>)
    requires EnvOk(env)
    ensures r.db.(birthdays := db.birthdays, nextBirthdayId := db.nextBirthdayId) == db
    ensures u.LocationMessage? ==> r.session == s && r.db == db
  {
    var wrap := (r: BirthdayHandlers.Reply) => FromBirthdays(r);
    match u
    case Callback(p, messageId) =>
      (match BirthdayHandlers.Decode(p)
      case None => Stay(s, db, Unhandled)
      case Some(c) =>
        BirthdayHandlers.CallbacksTouchOnlyBirthdays(s, db, env.userId, env.moment.date, messageId, c);
        Lift(BirthdayHandlers.HandleCallback(s, db, env.userId, env.moment.date, messageId, c), wrap))
    case LocationMessage(_, _) => Stay(s, db, Raised)
    case TextMessage(t) =>
      if s.state == BirthdayName then Lift(BirthdayHandlers.ProcessName(s, db, t), wrap)
      else if s.state == BirthdayDate then
        BirthdayHandlers.DateStepTouchesOnlyBirthdays(s, db, env.userId, t, env.parseBirthDate, env.moment);
        Lift(BirthdayHandlers.ProcessBirthDateAsWritten(s, db, env.userId, t, env.parseBirthDate, env.moment), wrap)
      else Stay(s, db, Unhandled)
  }

  /** handlers/weather.py: opening the weather screen ends any conversation; the forecast changes nothing. */
  function RunWeather(s: Session, db: Store.Db, u: Update): (r: Step<Reply>)
    ensures r.db == db
    ensures r.session == s || r.session == Cleared
    ensures u.Callback? && u.payload == "menu:weather" ==> r.session == Cleared
    ensures !(u.Callback? && u.payload == "menu:weather") ==> r.session == s
  {
    if u.Callback? && u.payload == "menu:weather" then Step(Cleared, db, FromWeather)
    else Stay(s, db, FromWeather)
  }

  /** The currency router never writes the database, and keeps the data bag or clears the session. */
  function RunCurrency(s: Session, db: Store.Db, u: Update, env: Env): (r: Step<Reply>)
    ensures r.db == db
    ensures r.session.data == s.data || r.session == Cleared
  {
    var wrap := (r: CurrencyHandlers.Reply) => FromCurrency(r);
    match u
    case Callback(p, _) =>
      if p == "menu:currency" then Lift(CurrencyHandlers.ShowRates(db, env.rates), wrap)
      else Lift(CurrencyHandlers.StartConversion(s, db), wrap)
    case LocationMessage(_, _) =>
      // `message.text` is None: the handler's own `except Exception` answers with the generic error.
      Stay(s, db, FromCurrency(CurrencyHandlers.Failed(Keyboards.CurrencyMenu())))
    case TextMessage(t) => Lift(CurrencyHandlers.ProcessConversion(s, db, t, env.parseFloat, env.rates), wrap)
  }

  /**
   * The places router, as written: it never writes the database, keeps the
   * drafts of the other conversations or clears the session, and a
   * location message ends in a cleared session.
   */
  function RunPlaces(s: Session, db: Store.Db, u: Update, env: Env): (r: Step<Reply>)
    ensures r.db == db
    ensures DraftsKept(s.data, r.session.data) || r.session == Cleared
    ensures u.LocationMessage? ==> r.session == Cleared
  {
    var wrap := (r: PlacesHandlers.Reply) => FromPlaces(r);
    match u
    case Callback(p, messageId) =>
      (match PlacesHandlers.Decode(p, env.parseFloat)
      case None => Stay(s, db, Raised)
      case Some(c) => Lift(PlacesHandlers.HandleCallback(s, db, messageId, c, env.fetch, env.dist), wrap))
    case LocationMessage(lat, lon) => Lift(PlacesHandlers.ProcessLocation(s, db, lat, lon), wrap)
    case TextMessage(t) => Lift(PlacesHandlers.ProcessAddress(s, db, env.userId, t, env.geocode), wrap)
  }

  /** The settings router: only the settings table can change. */
  function RunSettings(s: Session, db: Store.Db, u: Update, env: Env): (r: Step<Reply>)
    ensures r.db.(settings := db.settings) == db
  {
    var wrap := (r: SettingsHandlers.Reply) => FromSettings(r);
    match u
    case Callback(p, messageId) =>
      if p == "menu:settings" then Lift(SettingsHandlers.ShowSettings(s, db, env.userId), wrap)
      else Lift(SettingsHandlers.StartChangeCity(s, db, messageId), wrap)
    case LocationMessage(_, _) => Stay(s, db, Raised)
    case TextMessage(t) =>
      SettingsHandlers.ChangeKeepsEverythingElse(s, db, env.userId, t, env.cityFound, env.now);
      Lift(SettingsHandlers.ProcessCity(s, db, env.userId, t, env.cityFound, env.now), wrap)
  }

  /** Each table is written only by its own router, and no update touches the daily-message records. */
  function Run(router: Router, s: Session, db: Store.Db, u: Update, env: Env): (r: Step<Reply>)
    requires EnvOk(env)
    ensures router != TasksRouter ==> r.db.tasks == db.tasks && r.db.nextTaskId == db.nextTaskId
    ensures router != BirthdaysRouter ==> r.db.birthdays == db.birthdays && r.db.nextBirthdayId == db.nextBirthdayId
    ensures router != SettingsRouter ==> r.db.settings == db.settings
    ensures r.db.dailyMessages == db.dailyMessages
  {
    match router
    case StartRouter =>
      (match StartRequest(u, env.botName)
      case None => Stay(s, db, Unhandled)
      case Some(q) => Lift(StartHandlers.Handle(s, db, q), (r: StartHandlers.Reply) => FromStart(r)))
    case TasksRouter => RunTasks(s, db, u, env)
    case BirthdaysRouter => RunBirthdays(s, db, u, env)
    case WeatherRouter => RunWeather(s, db, u)
    case CurrencyRouter => RunCurrency(s, db, u, env)
    case PlacesRouter => RunPlaces(s, db, u, env)
    case SettingsRouter => RunSettings(s, db, u, env)
  }

  /** One update: the router chosen handles it; when none claims it nothing happens. */
  function Dispatch(s: Session, db: Store.Db, u: Update, env: Env): (r: Step<Reply>)
    requires EnvOk(env)
    ensures Chosen(s, u, env.botName).None? ==> r.session == s && r.db == db
    ensures r.db.tasks != db.tasks ==> Chosen(s, u, env.botName) == Some(TasksRouter)
    ensures r.db.birthdays != db.birthdays ==> Chosen(s, u, env.botName) == Some(BirthdaysRouter)
    ensures r.db.settings != db.settings ==> Chosen(s, u, env.botName) == Some(SettingsRouter)
    ensures r.db.dailyMessages == db.dailyMessages
  {
    match Chosen(s, u, env.botName)
    case None => Stay(s, db, Unhandled)
    case Some(router) => Run(router, s, db, u, env)
  }

  // ---------------------------------------------------------------------------
  // Routing
  // ---------------------------------------------------------------------------

  /** `/start` typed alone is the start command, whatever the bot is called. */
  lemma StartIsACommand(botName: string)
    ensures StartRequest(TextMessage("/start"), botName) == Some(StartHandlers.StartCommand)
  {
    WordsOfWord("/start");
  }

  /**
   * The handler filters: a callback is claimed on its payload alone, a
   * message outside the start router on the conversation state alone, and
   * outside a conversation only the start router takes messages.
   */
  lemma ClaimsFollowFilters(q: Router, s: Session, s': Session, u: Update, botName: string)
    ensures u.Callback? ==> (Claims(q, s, u, botName) <==> Claims(q, s', u, botName))
    ensures !u.Callback? && q != StartRouter && s.state == s'.state ==>
      (Claims(q, s, u, botName) <==> Claims(q, s', u, botName))
    ensures !u.Callback? && q != StartRouter && s.state == Idle ==> !Claims(q, s, u, botName)
  {
  }

  /** Outside a conversation, no router claims text that is not a start-router command. */
  lemma NoRouterClaimsIdleText(s: Session, t: string, botName: string)
    requires s.state == Idle && StartRequest(TextMessage(t), botName).None?
    ensures Chosen(s, TextMessage(t), botName).None?
  {
    forall q
      ensures !Claims(q, s, TextMessage(t), botName)
    {
    }
  }

  /** Every payload of the tasks router starts with `m` or `t`. */
  lemma NotForTasks(p: string)
    requires |p| > 0 && p[0] == 'p'
    ensures TaskHandlers.RouteOf(p).None?
  {
    NotPrefix(p, "task:page:", 0);
    NotPrefix(p, "task:actions:", 0);
    NotPrefix(p, "task:delete_confirm:", 0);
    NotPrefix(p, "task:complete:", 0);
    NotPrefix(p, "task:postpone_menu:", 0);
    NotPrefix(p, "task:postpone:", 0);
  }

  /** Every payload of the birthdays router starts with `m` or `b`. */
  lemma NotForBirthdays(p: string)
    requires |p| > 0 && p[0] == 'p'
    ensures BirthdayHandlers.RouteOf(p).None?
  {
    NotPrefix(p, "bd:page:", 0);
    NotPrefix(p, "bd:delete_confirm:", 0);
  }

  /** The places router handles none of the three kind buttons of its own menu. */
  lemma NotForPlaces(k: int)
    requires 0 <= k < 3
    ensures PlacesHandlers.RouteOf(Keyboards.PlacesMenu()[k].payload).None?
  {
    var p := Keyboards.PlacesMenu()[k].payload;
    assert |p| >= 10;
    if k == 0 {
      assert p == "places:pharmacies";
      NotPrefix(p, "places:search:", 7);
      NotPrefix(p, "places:page:", 8);
    } else if k == 1 {
      assert p == "places:vet";
      NotPrefix(p, "places:search:", 7);
      NotPrefix(p, "places:page:", 7);
    } else {
      assert p == "places:shops";
      NotPrefix(p, "places:search:", 8);
      NotPrefix(p, "places:page:", 7);
    }
    NotPrefix(p, "places:types:", 7);
  }

  /** No router claims the payloads of the pharmacies, vets and shops buttons of the places menu. */
  lemma NoRouterClaimsPlacesKinds(s: Session, k: int, messageId: int, botName: string)
    requires 0 <= k < 3
    ensures Chosen(s, Callback(Keyboards.PlacesMenu()[k].payload, messageId), botName).None?
  {
    var p := Keyboards.PlacesMenu()[k].payload;
    assert p[0] == 'p';
    NotForTasks(p);
    NotForBirthdays(p);
    NotForPlaces(k);
    assert p[..7] == "places:";
    forall q
      ensures !Claims(q, s, Callback(p, messageId), botName)
    {
      match q
      case StartRouter =>
        assert p != "menu:main" && p != "cancel" by { assert p[0] != "menu:main"[0] && p[0] != "cancel"[0]; }
      case WeatherRouter =>
        assert p[0] != "menu:weather"[0] && p[0] != "weather:forecast"[0];
      case CurrencyRouter =>
        assert p[0] != "menu:currency"[0] && p[0] != "currency:convert"[0];
      case SettingsRouter =>
        assert p[0] != "menu:settings"[0] && p[0] != "settings:change_city"[0];
      case _ =>
    }
  }

  // ---------------------------------------------------------------------------
  // Resets and ignored updates
  // ---------------------------------------------------------------------------

  /**
   * The start router comes first, so `/start`, `/menu`, `menu:main` and
   * `cancel` end any conversation and drop what it collected, whatever the
   * state; even a conversation waiting for text does not take `/start` as
   * its input.
   */
  lemma ResetsFromAnyState(s: Session, db: Store.Db, u: Update, env: Env)
    requires EnvOk(env)
    requires StartRequest(u, env.botName).Some? && StartRequest(u, env.botName) != Some(StartHandlers.HelpCommand)
    ensures Dispatch(s, db, u, env).session == Cleared
    ensures Dispatch(s, db, u, env).db == db
  {
  }

  /** `/help` answers from any state and changes nothing. */
  lemma HelpChangesNothing(s: Session, db: Store.Db, u: Update, env: Env)
    requires EnvOk(env)
    requires StartRequest(u, env.botName) == Some(StartHandlers.HelpCommand)
    ensures Dispatch(s, db, u, env).session == s
    ensures Dispatch(s, db, u, env).db == db
  {
  }

  /** Typing `/start` resets from any state. */
  lemma StartResets(s: Session, db: Store.Db, env: Env)
    requires EnvOk(env)
    ensures Dispatch(s, db, TextMessage("/start"), env).session == Cleared
  {
    StartIsACommand(env.botName);
    ResetsFromAnyState(s, db, TextMessage("/start"), env);
  }

  /** The cancel button under every prompt resets, whatever the conversation was waiting for. */
  lemma CancelResets(s: Session, db: Store.Db, messageId: int, env: Env)
    requires EnvOk(env)
    ensures Dispatch(s, db, Callback(Keyboards.CancelPayload, messageId), env).session == Cleared
  {
    ResetsFromAnyState(s, db, Callback(Keyboards.CancelPayload, messageId), env);
  }

  /** Outside a conversation, text that is not a command is not for anyone. */
  lemma IdleTextIsIgnored(s: Session, db: Store.Db, t: string, env: Env)
    requires EnvOk(env)
    requires s.state == Idle && StartRequest(TextMessage(t), env.botName).None?
    ensures Dispatch(s, db, TextMessage(t), env) == Stay(s, db, Unhandled)
  {
    NoRouterClaimsIdleText(s, t, env.botName);
  }

  /**
   * The pharmacies, vets and shops buttons of `get_places_menu` carry
   * payloads no router has a handler for, so pressing them does nothing.
   */
  lemma PlacesMenuKindsAreUnhandled(s: Session, db: Store.Db, messageId: int, env: Env, k: int)
    requires EnvOk(env)
    requires 0 <= k < 3
    ensures var u := Callback(Keyboards.PlacesMenu()[k].payload, messageId);
      Dispatch(s, db, u, env) == Stay(s, db, Unhandled)
  {
    NoRouterClaimsPlacesKinds(s, k, messageId, env.botName);
  }

  // ---------------------------------------------------------------------------
  // What every update keeps
  // ---------------------------------------------------------------------------

  /**
   * The database is consistent, and the drafts of the conversations and the
   * stored tasks and birthdays all respect the input limits.
   */
  predicate Inv(s: Session, db: Store.Db) {
    && Store.Valid(db)
    && TaskHandlers.DraftOk(s.data) && TaskHandlers.TaskTextsOk(db)
    && BirthdayHandlers.DraftOk(s.data) && BirthdayHandlers.BirthdaysOk(db)
  }

  lemma TaskCallbackKeepsInv(s: Session, db: Store.Db, userId: int, now: int, messageId: int, c: TaskHandlers.Command)
    requires Inv(s, db)
    ensures var r := TaskHandlers.HandleCallback(s, db, userId, now, messageId, c); Inv(r.session, r.db)
  {
    TaskHandlers.CallbacksKeepTextsOk(s, db, userId, now, messageId, c);
    var r := TaskHandlers.HandleCallback(s, db, userId, now, messageId, c);
    assert r.db.birthdays == db.birthdays;
  }

  lemma TitleStepKeepsInv(s: Session, db: Store.Db, t: string)
    requires Inv(s, db)
    ensures var r := TaskHandlers.ProcessTitle(s, db, t); Inv(r.session, r.db)
  {
    TaskHandlers.TextStepsKeepTextsOk(s, db, t);
  }

  lemma DescriptionStepKeepsInv(s: Session, db: Store.Db, t: string)
    requires Inv(s, db)
    ensures var r := TaskHandlers.ProcessDescription(s, db, t); Inv(r.session, r.db)
  {
    TaskHandlers.TextStepsKeepTextsOk(s, db, t);
  }

  lemma TaskDateStepKeepsInv(s: Session, db: Store.Db, userId: int, t: string, parse: string -> Option<int>, now: int)
    requires Inv(s, db)
    ensures var r := TaskHandlers.ProcessDate(s, db, userId, t, parse, now); Inv(r.session, r.db)
  {
    TaskHandlers.DateStepKeepsTextsOk(s, db, userId, t, parse, now);
    TaskHandlers.DateStepTouchesOnlyTasks(s, db, userId, t, parse, now);
    var r := TaskHandlers.ProcessDate(s, db, userId, t, parse, now);
    assert r.db.birthdays == db.birthdays;
  }

  lemma TasksKeepInv(s: Session, db: Store.Db, u: Update, env: Env)
    requires Inv(s, db)
    ensures var r := RunTasks(s, db, u, env); Inv(r.session, r.db)
  {
    match u
    case Callback(p, messageId) =>
      var c := TaskHandlers.Decode(p);
      if c.Some? {
        TaskCallbackKeepsInv(s, db, env.userId, env.now, messageId, c.value);
      }
    case LocationMessage(_, _) =>
    case TextMessage(t) =>
      if s.state == TaskTitle {
        TitleStepKeepsInv(s, db, t);
      } else if s.state == TaskDescription {
        DescriptionStepKeepsInv(s, db, t);
      } else if s.state == TaskDate {
        TaskDateStepKeepsInv(s, db, env.userId, t, env.parseDue, env.now);
      }
  }

  lemma BirthdayCallbackKeepsInv(s: Session, db: Store.Db, userId: int, today: Date, messageId: int,
                                 c: BirthdayHandlers.Command)
    requires Valid(today) && Inv(s, db)
    ensures var r := BirthdayHandlers.HandleCallback(s, db, userId, today, messageId, c); Inv(r.session, r.db)
  {
    BirthdayHandlers.CallbacksKeepBirthdaysOk(s, db, userId, today, messageId, c);
    BirthdayHandlers.CallbacksTouchOnlyBirthdays(s, db, userId, today, messageId, c);
    var r := BirthdayHandlers.HandleCallback(s, db, userId, today, messageId, c);
    assert r.db.tasks == db.tasks;
  }

  lemma NameStepKeepsInv(s: Session, db: Store.Db, t: string)
    requires Inv(s, db)
    ensures var r := BirthdayHandlers.ProcessName(s, db, t); Inv(r.session, r.db)
  {
    BirthdayHandlers.NameStepKeepsBirthdaysOk(s, db, t);
  }

  lemma BirthDateStepKeepsInv(s: Session, db: Store.Db, userId: int, t: string, parse: string -> Option<Date>,
                              now: BirthdayHandlers.Moment)
    requires BirthdayHandlers.ValidMoment(now) && Inv(s, db)
    ensures var r := BirthdayHandlers.ProcessBirthDateAsWritten(s, db, userId, t, parse, now); Inv(r.session, r.db)
  {
    BirthdayHandlers.DateStepKeepsBirthdaysOk(s, db, userId, t, parse, now);
    BirthdayHandlers.DateStepTouchesOnlyBirthdays(s, db, userId, t, parse, now);
    var fixed := BirthdayHandlers.ProcessBirthDate(s, db, userId, t, parse, now);
    var r := BirthdayHandlers.ProcessBirthDateAsWritten(s, db, userId, t, parse, now);
    assert r.session == fixed.session && r.db == fixed.db;
    assert r.db.tasks == db.tasks;
  }

  lemma BirthdaysKeepInv(s: Session, db: Store.Db, u: Update, env: Env)
    requires EnvOk(env) && Inv(s, db)
    ensures var r := RunBirthdays(s, db, u, env); Inv(r.session, r.db)
  {
    match u
    case Callback(p, messageId) =>
      var c := BirthdayHandlers.Decode(p);
      if c.Some? {
        BirthdayCallbackKeepsInv(s, db, env.userId, env.moment.date, messageId, c.value);
      }
    case LocationMessage(_, _) =>
    case TextMessage(t) =>
      if s.state == BirthdayName {
        NameStepKeepsInv(s, db, t);
      } else if s.state == BirthdayDate {
        BirthDateStepKeepsInv(s, db, env.userId, t, env.parseBirthDate, env.moment);
      }
  }

  /** The drafts of the task and birthday conversations are the same in both data bags. */
  predicate DraftsKept(d: Data, d': Data) {
    d'.title == d.title && d'.description == d.description && d'.name == d.name
  }

  /** A step that keeps the database and either keeps the drafts or clears the data keeps the invariant. */
  lemma DraftsKeptKeepInv(s: Session, db: Store.Db, s': Session)
    requires Inv(s, db)
    requires DraftsKept(s.data, s'.data) || s'.data == NoData
    ensures Inv(s', db)
  {
  }

  lemma CurrencyKeepsInv(s: Session, db: Store.Db, u: Update, env: Env)
    requires Inv(s, db)
    ensures var r := RunCurrency(s, db, u, env); Inv(r.session, r.db)
  {
    var r := RunCurrency(s, db, u, env);
    assert r.db == db;
    assert r.session.data == s.data || r.session.data == NoData;
    DraftsKeptKeepInv(s, db, r.session);
  }

  lemma PlacesKeepInv(s: Session, db: Store.Db, u: Update, env: Env)
    requires Inv(s, db)
    ensures var r := RunPlaces(s, db, u, env); Inv(r.session, r.db)
  {
    var r := RunPlaces(s, db, u, env);
    assert r.db == db;
    assert DraftsKept(s.data, r.session.data) || r.session.data == NoData;
    DraftsKeptKeepInv(s, db, r.session);
  }

  lemma SettingsKeepInv(s: Session, db: Store.Db, u: Update, env: Env)
    requires Inv(s, db)
    ensures var r := RunSettings(s, db, u, env); Inv(r.session, r.db)
  {
    if u.TextMessage? {
      SettingsHandlers.ChangeKeepsEverythingElse(s, db, env.userId, u.text, env.cityFound, env.now);
    }
  }

  lemma RunKeepsInv(router: Router, s: Session, db: Store.Db, u: Update, env: Env)
    requires EnvOk(env) && Inv(s, db)
    ensures var r := Run(router, s, db, u, env); Inv(r.session, r.db)
  {
    match router
    case StartRouter =>
    case TasksRouter => TasksKeepInv(s, db, u, env);
    case BirthdaysRouter => BirthdaysKeepInv(s, db, u, env);
    case WeatherRouter =>
    case CurrencyRouter => CurrencyKeepsInv(s, db, u, env);
    case PlacesRouter => PlacesKeepInv(s, db, u, env);
    case SettingsRouter => SettingsKeepInv(s, db, u, env);
  }

  /**
   * Whatever arrives, in whatever state: the database stays consistent, and
   * no stored task or birthday and no draft ever breaks an input limit.
   */
  lemma DispatchKeepsInv(s: Session, db: Store.Db, u: Update, env: Env)
    requires EnvOk(env) && Inv(s, db)
    ensures var r := Dispatch(s, db, u, env); Inv(r.session, r.db)
  {
    var router := Chosen(s, u, env.botName);
    if router.Some? {
      RunKeepsInv(router.value, s, db, u, env);
    }
  }
}

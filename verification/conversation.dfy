/**
 * The per-user conversation context of aiogram's FSM (states/user_states.py):
 * the current state, one of a closed set, and the data bag the handlers
 * fill with `update_data`. `state.clear()` empties both.
 */
module Conversation {
  import opened Basics
  import opened Store

  /** `None` (no state) and every `State()` declared in states/user_states.py. */
  datatype State =
    | Idle
    | TaskTitle | TaskDescription | TaskDate
    | BirthdayName | BirthdayDate
    | WeatherCity
    | SettingsCity
    | CurrencyConversion
    | PlacesLocation

  /**
   * The keys handlers store with `update_data`. Coordinates are kept as the
   * text of the float they hold (the text that goes into payloads).
   */
  datatype Data = Data(
    messageId: Option<int>,
    title: Option<string>,
    description: Option<string>,
    name: Option<string>,
    latitude: Option<string>,
    longitude: Option<string>)

  const NoData: Data := Data(None, None, None, None, None, None)

  datatype Session = Session(state: State, data: Data)

  /** What `state.clear()` leaves: no state and no data. */
  const Cleared: Session := Session(Idle, NoData)

  /** One handler run: the user's session and the database afterwards, and what was shown. */
  datatype Step<R> = Step(session: Session, db: Db, reply: R)

  /** A handler that changed nothing but may have shown something. */
  function Stay<R>(s: Session, db: Db, reply: R): (r: Step<R>)
    ensures r.session == s && r.db == db && r.reply == reply
  {
    Step(s, db, reply)
  }

  /**
   * The data each waiting state relies on: every input step edits the prompt
   * message it remembered, and the later task and birthday steps read the
   * fields the earlier ones stored.
   */
  predicate WellFormed(s: Session) {
    match s.state
    case Idle => true
    case TaskTitle => s.data.messageId.Some?
    case TaskDescription => s.data.messageId.Some? && s.data.title.Some?
    case TaskDate => s.data.messageId.Some? && s.data.title.Some? && s.data.description.Some?
    case BirthdayName => s.data.messageId.Some?
    case BirthdayDate => s.data.messageId.Some? && s.data.name.Some?
    case WeatherCity => true
    case SettingsCity => s.data.messageId.Some?
    case CurrencyConversion => true
    case PlacesLocation => s.data.messageId.Some?
  }
}

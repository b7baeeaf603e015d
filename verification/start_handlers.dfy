/**
 * The start router of handlers/start.py: the `/start`, `/help` and `/menu`
 * commands and the `menu:main` and `cancel` buttons. All of them show the
 * main menu; all but `/help` end whatever conversation was going on.
 */
module StartHandlers {
  import opened Conversation
  import Store
  import Keyboards

  datatype Request = StartCommand | HelpCommand | MenuCommand | MainMenuButton | CancelButton

  datatype Reply =
    | Welcome(buttons: seq<Keyboards.Button>)
    | Help(buttons: seq<Keyboards.Button>)
    | MainMenu(buttons: seq<Keyboards.Button>)
    | Cancelled(buttons: seq<Keyboards.Button>)

  /**
   * `cmd_start`, `cmd_help`, `cmd_menu`, `show_main_menu` and
   * `callback_cancel`: the conversation and everything collected in it are
   * dropped, except on `/help`, which changes nothing; the database is never
   * touched.
   */
  function Handle(s: Session, db: Store.Db, q: Request): (r: Step<Reply>)
    ensures r.db == db
    ensures q == HelpCommand ==> r.session == s
    ensures q != HelpCommand ==> r.session == Cleared && r.session.state == Idle && r.session.data == NoData
    ensures r.reply.buttons == Keyboards.MainMenu()
    ensures q == CancelButton <==> r.reply.Cancelled?
  {
    match q
    case StartCommand => Step(Cleared, db, Welcome(Keyboards.MainMenu()))
    case HelpCommand => Stay(s, db, Help(Keyboards.MainMenu()))
    case MenuCommand => Step(Cleared, db, MainMenu(Keyboards.MainMenu()))
    case MainMenuButton => Step(Cleared, db, MainMenu(Keyboards.MainMenu()))
    case CancelButton => Step(Cleared, db, Cancelled(Keyboards.MainMenu()))
  }

  /** Whatever state two users are in, a reset brings both to the same place. */
  lemma ResetForgetsTheConversation(s1: Session, s2: Session, db: Store.Db, q: Request)
    requires q != HelpCommand
    ensures Handle(s1, db, q) == Handle(s2, db, q)
  {
  }
}

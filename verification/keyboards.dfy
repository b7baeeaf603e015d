/**
 * The inline keyboards of keyboards/menu.py that carry the bot's callback
 * payloads. Button layout (`adjust`) is presentation only and is not part
 * of the model; what matters is which payload each button emits.
 */
module Keyboards {
  import opened Basics
  import opened Text
  import Paging

  datatype Button = Button(caption: string, payload: string)

  /** `get_main_menu`: one button per section, each with its own `menu:` payload. */
  function MainMenu(): (r: seq<Button>)
    ensures |r| == 6
    ensures forall i :: 0 <= i < |r| ==> |r[i].payload| > 5 && r[i].payload[..5] == "menu:"
    ensures forall i, j :: 0 <= i < j < |r| ==> r[i].payload != r[j].payload
    ensures forall i :: 0 <= i < |r| ==> r[i].payload != "menu:main"
  {
    [ Button("📋 Задачи", "menu:tasks"),
      Button("🎂 Дни рождения", "menu:birthdays"),
      Button("🌤 Погода", "menu:weather"),
      Button("💱 Валюты", "menu:currency"),
      Button("📍 Места рядом", "menu:places"),
      Button("⚙️ Настройки", "menu:settings") ]
  }

  /** `get_tasks_menu`: add a task, delete one, or back to the main menu. */
  function TasksMenu(): (r: seq<Button>)
    ensures |r| == 3
    ensures r[0].payload == "task:add" && r[1].payload == "task:delete" && r[2].payload == "menu:main"
  {
    [ Button("➕ Добавить задачу", "task:add"),
      Button("🗑 Удалить задачу", "task:delete"),
      Button("◀️ Назад", "menu:main") ]
  }

  /** `{prefix}{n}` for a page that exists, or the no-op `{prefix}current`. */
  function PagePayload(prefix: string, target: Option<nat>): (r: string)
    ensures StartsWith(r, prefix)
    ensures |prefix| > 0 && prefix[|prefix| - 1] == ':' ==>
      LastField(r, ':') == (if target.Some? then IntToString(target.value) else "current")
    ensures target.Some? && |prefix| > 0 && prefix[|prefix| - 1] == ':' ==>
      ParseInt(LastField(r, ':')) == Some(target.value)
    ensures target.None? && |prefix| > 0 && prefix[|prefix| - 1] == ':' ==>
      ParseInt(LastField(r, ':')) == None
  {
    match target
    case Some(p) =>
      IntToStringHasNo(p, ':');
      IntToStringRoundTrip(p);
      FieldAfterPrefix(prefix, IntToString(p));
      prefix + IntToString(p)
    case None =>
      FieldAfterPrefix(prefix, "current");
      prefix + "current"
  }

  /** A separator-free field after a prefix is the payload's last field. */
  lemma FieldAfterPrefix(prefix: string, d: string)
    requires ':' !in d
    ensures StartsWith(prefix + d, prefix)
    ensures |prefix| > 0 && prefix[|prefix| - 1] == ':' ==> LastField(prefix + d, ':') == d
  {
    assert (prefix + d)[..|prefix|] == prefix;
    if |prefix| > 0 && prefix[|prefix| - 1] == ':' {
      LastFieldAfterPrefix(prefix, ':', d);
    }
  }

  /**
   * The navigation row of the task and birthday lists, shown only when there
   * is more than one page: previous, the page counter, next. A neighbour that
   * does not exist and the counter emit the no-op payload.
   */
  function PageNav(prefix: string, page: nat, totalPages: nat): (r: seq<Button>)
    ensures totalPages <= 1 ==> r == []
    ensures totalPages > 1 ==> |r| == 3 && r[1].payload == prefix + "current"
  {
    if totalPages > 1 then
      [ Button("⬅️ Пред.", PagePayload(prefix, Paging.PrevPage(page))),
        Button("📄", prefix + "current"),
        Button("След. ➡️", PagePayload(prefix, Paging.NextPage(page, totalPages))) ]
    else []
  }

  /** `get_currency_menu`: start a conversion, or back to the main menu. */
  function CurrencyMenu(): (r: seq<Button>)
    ensures |r| == 2 && r[0].payload == "currency:convert" && r[1].payload == "menu:main"
  {
    [ Button("🔄 Конвертация", "currency:convert"),
      Button("◀️ Назад", "menu:main") ]
  }

  /** `get_places_menu`: the three kinds of place, setting the location, and back. */
  function PlacesMenu(): (r: seq<Button>)
    ensures |r| == 5
    ensures r[0].payload == "places:pharmacies" && r[1].payload == "places:vet" && r[2].payload == "places:shops"
    ensures r[3].payload == "places:location" && r[4].payload == "menu:main"
  {
    [ Button("💊 Аптеки", "places:pharmacies"),
      Button("🏥 Ветаптеки", "places:vet"),
      Button("🛒 Продукты", "places:shops"),
      Button("📍 Настроить местоположение", "places:location"),
      Button("◀️ Назад", "menu:main") ]
  }

  /** The payload of the cancel button offered at every input step. */
  const CancelPayload: string := "cancel"

  /** `get_cancel_button`: a single button, and it cancels. */
  function CancelKeyboard(): (r: seq<Button>)
    ensures |r| == 1 && r[0].payload == CancelPayload
  {
    [Button("❌ Отмена", CancelPayload)]
  }

  /** The delays offered by `get_postpone_keyboard`, in minutes. */
  const PostponeMinutes: seq<int> := [5, 10, 30, 60, 180, 1440]

  /** `f"task:postpone:{task_id}:{minutes}"`. */
  function PostponePayload(taskId: int, minutes: int): (r: string)
    ensures Split(r, ':') == ["task", "postpone", IntToString(taskId), IntToString(minutes)]
    ensures ParseInt(Split(r, ':')[2]) == Some(taskId)
    ensures ParseInt(Split(r, ':')[3]) == Some(minutes)
  {
    IntToStringHasNo(taskId, ':');
    IntToStringHasNo(minutes, ':');
    IntToStringRoundTrip(taskId);
    IntToStringRoundTrip(minutes);
    SplitFourFields("task", "postpone", IntToString(taskId), IntToString(minutes));
    "task" + [':'] + "postpone" + [':'] + IntToString(taskId) + [':'] + IntToString(minutes)
  }

  /** Four separator-free fields joined by the separator split back apart. */
  lemma SplitFourFields(w: string, x: string, a: string, b: string)
    requires ':' !in w && ':' !in x && ':' !in a && ':' !in b
    ensures Split(w + [':'] + x + [':'] + a + [':'] + b, ':') == [w, x, a, b]
  {
    var tail := a + [':'] + b;
    var rest := x + [':'] + tail;
    assert w + [':'] + x + [':'] + a + [':'] + b == w + [':'] + rest;
    SplitAppend(w, ':', rest);
    SplitAppend(x, ':', tail);
    SplitAppend(a, ':', b);
    SplitNoSeparator(b, ':');
  }

  /** The task actions reachable from a task's card or from a reminder. */
  datatype TaskAction = Complete | PostponeMenu | DeleteConfirm | ShowActions

  /** The fixed `task:{action}:` part of each action payload. */
  function ActionPrefix(a: TaskAction): (r: string)
    ensures |r| > 0 && r[|r| - 1] == ':'
  {
    match a
    case Complete => "task:complete:"
    case PostponeMenu => "task:postpone_menu:"
    case DeleteConfirm => "task:delete_confirm:"
    case ShowActions => "task:actions:"
  }

  /** `f"task:{action}:{task_id}"`. */
  function ActionPayload(a: TaskAction, taskId: int): (r: string)
    ensures StartsWith(r, ActionPrefix(a))
    ensures LastField(r, ':') == IntToString(taskId)
    ensures ParseInt(LastField(r, ':')) == Some(taskId)
  {
    IntToStringHasNo(taskId, ':');
    IntToStringRoundTrip(taskId);
    FieldAfterPrefix(ActionPrefix(a), IntToString(taskId));
    ActionPrefix(a) + IntToString(taskId)
  }

  /**
   * `get_postpone_keyboard`: one button per delay, all for the same task,
   * then the way back to the task's card.
   */
  function PostponeKeyboard(taskId: int): (r: seq<Button>)
    ensures |r| == |PostponeMinutes| + 1
    ensures forall i :: 0 <= i < |PostponeMinutes| ==> r[i].payload == PostponePayload(taskId, PostponeMinutes[i])
    ensures r[|PostponeMinutes|].payload == ActionPayload(ShowActions, taskId)
  {
    var captions := ["5 минут", "10 минут", "30 минут", "1 час", "3 часа", "1 день"];
    seq(|PostponeMinutes|, i requires 0 <= i < |PostponeMinutes| =>
        Button(captions[i], PostponePayload(taskId, PostponeMinutes[i])))
      + [Button("◀️ Назад", ActionPayload(ShowActions, taskId))]
  }

  /** `get_task_action_keyboard`: complete, postpone and delete this task, or back to the list. */
  function TaskActionKeyboard(taskId: int): (r: seq<Button>)
    ensures |r| == 4
    ensures r[0].payload == ActionPayload(Complete, taskId)
    ensures r[1].payload == ActionPayload(PostponeMenu, taskId)
    ensures r[2].payload == ActionPayload(DeleteConfirm, taskId)
    ensures r[3].payload == "menu:tasks"
  {
    [ Button("✅ Выполнено", ActionPayload(Complete, taskId)),
      Button("⏰ Отложить", ActionPayload(PostponeMenu, taskId)),
      Button("🗑 Удалить", ActionPayload(DeleteConfirm, taskId)),
      Button("◀️ К списку", "menu:tasks") ]
  }
}

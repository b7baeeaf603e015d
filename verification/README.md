# TG_Assistant, modelled in Dafny

TG_Assistant is a personal-assistant Telegram bot. It keeps a user's tasks and
reminds them when a task falls due. It keeps birthdays and announces them on the
day and the day before. It shows currency rates and converts amounts, finds
pharmacies, vets and shops near a location, shows the weather, and sends a
morning digest to its administrator. This project models the deterministic core
of that bot as immutable data and pure functions, and proves what the code
promises about it.

What the model covers:

- **The store** (`store.dfy`). The four SQLite tables become immutable
  collections:
  - tasks, in rowid order, with an AUTOINCREMENT counter that never reuses an id;
  - birthdays, unique per user and name;
  - one settings row per user;
  - one daily-message record per user.

  Every repository operation is a function on that store. Each one states what
  it changes and that nothing else changes. The schema constraints are a
  predicate, `Store.Valid`, that every operation preserves.
- **The conversations.** aiogram's finite-state machine becomes a `Session`: the
  current state (one of the closed set in `states/user_states.py`) and the data
  bag the handlers fill (`conversation.dfy`). Each handler is a function from
  session, store and input to the new session, the new store and what was
  shown.
  - An input step that rejects its input keeps the state and stores nothing.
  - One that accepts it either moves to the next state or writes the store and
    clears the session.
- **The dispatcher** (`dispatcher.dfy`). The seven routers are tried in the order
  `bot_main.py` includes them, and the first whose filter accepts the update
  gets it.
  - Because the start router comes first, `/start`, `/menu`, `menu:main` and
    `cancel` reset any conversation.
  - Whatever update arrives, the store stays consistent. No stored task or
    birthday, and no draft, ever breaks an input limit (`Dispatcher.DispatchKeepsInv`).
  - The dispatcher runs every handler as the code is written: the places steps
    that clear the location they store, and the birth-date step whose reply
    goes wrong on 29 February and on the day itself. The corrected versions
    listed under "Findings" stand beside them, with their intended properties
    proved. The store-level invariants are proved for the versions the
    dispatcher runs.
  - Each table is written only by its own router (`Dispatcher.Dispatch`).
- **Callback payloads.** Every button payload the bot builds is decoded the way
  its handler reads it: `startswith` filters in registration order, then
  `split(":")` and `int`. Each payload is proved to reach its own handler with
  the same task id, minutes, birthday name, page or location it was built
  from.
- **The lists.**
  - Tasks are sorted by urgency and shown with a status light.
  - Birthdays are sorted by the days until the next one and put in buckets.
  - Places are paged.
  - All three share one page clamp-and-slice rule and `escape_html`.
- **The scheduler** (`scheduler.dfy`):
  - the one-hour debounce on task reminders, stamped only after a successful
    send;
  - birthday matching for today and tomorrow, with the age rule;
  - digest bookkeeping and cleanup;
  - the fixed order of the digest's currencies.
- **The services:**
  - currency conversion over exact reals, and the ordering of rate listings;
  - Overpass element parsing, and de-duplication to the nearest entry per
    name and address;
  - weather icon emoji, and the grouping of forecast items by day.

Everything outside the process is a parameter:

- the clock;
- `strptime` and `float()`;
- the geocoder, the weather lookup and the Overpass fetch;
- the distance function;
- whether Telegram delivered or deleted a message.

One behaviour of the code surfaces only as a property of the whole dispatcher.
`get_places_menu` offers three buttons, `places:pharmacies`, `places:vet` and
`places:shops`, for which no router registers a handler, so pressing them does
nothing. `Dispatcher.PlacesMenuKindsAreUnhandled` proves this. The working
searches are the `places:search:` buttons that appear once a location is known.

## Model

| member | source | states |
|---|---|---|
| Basics.Filter | services/currency_service.py:97 | A list comprehension keeps exactly the elements that pass the test, and never adds copies |
| Basics.FilterCount | database/models.py:107-123 | The filtered list holds each kept value exactly as often as the input does, and a dropped value not at all |
| Basics.FilterPairwise | services/currency_service.py:89-95 | Filtering keeps the relative order of the elements it keeps, so the priority codes stay in priority order |
| Calendar.Tomorrow | utils/scheduler.py:153 | `today + timedelta(days=1)` is a valid date strictly after today |
| Calendar.TomorrowIsNextDay | utils/scheduler.py:153 | Tomorrow's ordinal is exactly one more than today's, across month and year ends |
| Calendar.WithYear | handlers/birthdays.py:249-251 | `replace(year=y)` fails exactly for 29 February in a common year; otherwise it gives the same month and day in year y |
| Calendar.DayNumberMonotone | handlers/birthdays.py:252 | The ordinal that `(a - b).days` subtracts grows strictly with the date |
| Calendar.DayNumberInjective | handlers/birthdays.py:252 | Distinct dates never share an ordinal, so a zero day difference means the same date |
| Paging.TotalPages | handlers/tasks.py:106 | The page count is the least number of ten-entry pages that holds every entry, and zero only for no entries |
| Paging.ClampPage | handlers/tasks.py:107 | The requested page is kept when it exists; otherwise it is pushed to the first or the last page |
| Paging.PageSlice | handlers/tasks.py:108-110 | The shown slice lies within the list, holds at most ten entries, and is non-empty whenever the list is |
| Paging.EntryOnItsPage | handlers/tasks.py:105-110 | Entry i is shown on page i / 10, at position i % 10 |
| Paging.PagesDisjoint | handlers/birthdays.py:270-276 | Different pages show different entries |
| Paging.PrevPage | handlers/tasks.py:168-171 | A "previous" target exists exactly after the first page |
| Paging.NextPage | handlers/tasks.py:175-178 | A "next" target exists exactly before the last page, and it names a page that exists |
| Sorting.SortBy | handlers/tasks.py:102 | `sort` returns a permutation of its input |
| Sorting.SortBySorted | handlers/tasks.py:102 | For any total preorder as the key comparison, the sorted list is ordered |
| Text.Strip | handlers/tasks.py:268 | `strip()` neither starts nor ends with whitespace, and is no longer than its input; whitespace is the ten ASCII characters `str.isspace` accepts, U+001C to U+001F included |
| Text.StripIsInfix | handlers/settings.py:86 | What `strip()` keeps is a contiguous piece of the text |
| Text.StripRemovesSpaces | handlers/birthdays.py:56 | Only whitespace is removed, and only at the two ends |
| Text.StripTrimmed | handlers/currency.py:74 | Text already trimmed at both ends is returned unchanged |
| Text.Split | handlers/birthdays.py:392 | `split(sep)` gives at least one part, and no part holds the separator |
| Text.SplitJoin | handlers/birthdays.py:392 | Splitting a join of separator-free parts gives back those parts |
| Text.JoinSplit | handlers/birthdays.py:392 | `sep.join(s.split(sep)) == s` for every text |
| Text.LastFieldAfterPrefix | handlers/tasks.py:461 | `split(":")[-1]` of a fixed prefix followed by a colon-free field is that field |
| Text.Words | handlers/currency.py:74 | `split()` gives whitespace-free, non-empty words which, put together, are the non-space characters of the text; U+001C to U+001F separate words as well |
| Text.WordsAppend | handlers/currency.py:74 | A word followed by a space and more text splits off as the first word |
| Text.Upper | handlers/currency.py:74 | `upper()` maps every character through the letter-case map and keeps the length |
| Text.UpperIdempotent | services/currency_service.py:122-123 | Upper-casing twice is upper-casing once |
| Text.Replace | handlers/currency.py:85 | `replace` with a character that does not occur changes nothing |
| Text.ReplaceAppend | handlers/currency.py:85 | Replacing in a concatenation replaces in each side |
| Text.Take | handlers/tasks.py:140 | `s[:n]` is the prefix of at most n characters, and the whole text when it is short enough |
| Text.IntToString | keyboards/menu.py:143-145 | `str(i)` is a sign and digits, so it never holds a colon |
| Text.IntToStringRoundTrip | handlers/tasks.py:461 | `int(str(i)) == i` for every integer |
| Text.ParseInt | handlers/tasks.py:451 | `int()` refuses the empty text and a text whose first character is not a sign or a digit |
| Text.LexLeTotal | services/currency_service.py:97 | String comparison orders any two codes |
| Text.LexLeTransitive | services/currency_service.py:97 | String comparison is transitive |
| Text.LexLeAntisymmetric | services/currency_service.py:97 | Codes that compare both ways are equal |
| Html.EscapeHtml | handlers/tasks.py:206-208 | `escape_html` is the identity on text without `&`, `<` or `>` |
| Html.EscapeHtmlIsOnePass | handlers/tasks.py:206-208 | Because `&` is replaced first, the three chained replacements act as one left-to-right pass |
| Html.EscapeHtmlNoTags | handlers/tasks.py:206-208 | The escaped text holds no `<` or `>`, so user text cannot open or close a tag |
| Html.UnescapeEscape | handlers/birthdays.py:23-26 | Rendering the escaped text gives back exactly what the user typed |
| Keyboards.MainMenu | keyboards/menu.py:7-27 | The main menu has six entries with distinct `menu:` payloads, none of them `menu:main` |
| Keyboards.TasksMenu | keyboards/menu.py:30-39 | The tasks menu offers add, delete and back to the main menu |
| Keyboards.PagePayload | handlers/tasks.py:167-178 | A page button's payload is the list's prefix followed by a last field that is the target page, which `int()` reads back, or the word `current`, which it does not |
| Keyboards.PageNav | handlers/tasks.py:167-178 | The navigation row appears only with more than one page, and its middle button is the no-op counter |
| Keyboards.CurrencyMenu | keyboards/menu.py:65-73 | The currency menu offers a conversion and back |
| Keyboards.PlacesMenu | keyboards/menu.py:76-87 | The places menu emits the three kind payloads, the location request, and back |
| Keyboards.CancelKeyboard | keyboards/menu.py:90-94 | The cancel keyboard is one button, and it emits `cancel` |
| Keyboards.ActionPrefix | keyboards/menu.py:143-145 | Every action payload's fixed part ends in the field separator |
| Keyboards.PostponeKeyboard | keyboards/menu.py:115-136 | One button per delay of 5, 10, 30, 60, 180 and 1440 minutes, all for the same task, then back to its card |
| Keyboards.PostponePayload | keyboards/menu.py:131 | `task:postpone:{id}:{minutes}` splits into exactly four fields whose third and fourth read back as the id and the minutes |
| Keyboards.ActionPayload | keyboards/menu.py:143-145 | An action payload starts with its action's prefix, and its last field is the task id, which `int()` reads back |
| Keyboards.TaskActionKeyboard | keyboards/menu.py:139-149 | Complete, postpone and delete for this task's id, then back to the list |
| Store.EmptyValid | database/models.py:27-79 | Fresh tables satisfy the schema constraints |
| Store.DueLeTotalPreorder | database/models.py:120 | `ORDER BY due_date` compares any two tasks consistently |
| Store.FindTask | database/models.py:125-132 | `get_task_by_id` returns a row with that id, or none exists |
| Store.FindTaskRow | database/models.py:33 | Under the primary-key constraint, every row is found by its id |
| Store.CreateTask | database/models.py:88-105 | One row is appended: fresh id, open, never reminded; every earlier row is kept; the new id differs from every existing one |
| Store.UserTasks | database/models.py:107-123 | Exactly that user's rows, without completed ones unless asked, each as often as in the table, ascending by due date |
| Store.UpdateTaskReminder | database/models.py:134-149 | Only `last_reminded_at` of the row with that id changes |
| Store.PostponeTask | database/models.py:151-166 | That row gets the new due date and forgets its last reminder; every other field and row stays |
| Store.CompleteTask | database/models.py:174-181 | Only `is_completed` of that row changes, to true |
| Store.DeleteTask | database/models.py:168-172 | Exactly the rows with other ids remain |
| Store.PendingTasks | database/models.py:183-194 | Exactly the open rows whose due date has passed, each once, ascending by due date |
| Store.CompletedNeverPending | database/models.py:174-194 | A completed task is never pending again |
| Store.BirthDateLeTotalPreorder | database/models.py:229 | `ORDER BY birth_date` compares any two birthdays consistently |
| Store.AddBirthday | database/models.py:203-219 | The upsert replaces the row with the same user and name by a fresh one, keeps the others, and keeps the table consistent |
| Store.AddBirthdayUnique | database/models.py:213-216 | Afterwards exactly one row holds the user and name, and it carries the new date |
| Store.UserBirthdays | database/models.py:221-232 | Exactly that user's rows, each as often as in the table, ascending by birth date |
| Store.DeleteBirthday | database/models.py:234-241 | Exactly the rows of another user or another name remain |
| Store.GetSettings | database/models.py:256-263 | The user's settings row, if there is one |
| Store.Override | database/models.py:282-304 | A field passed as None keeps its stored value |
| Store.UpdateSettings | database/models.py:265-315 | On an existing row only the fields passed change; otherwise exactly one row is inserted with the default language; other users are untouched |
| Store.SaveMessage | database/models.py:324-334 | At most one record per user, now holding the new message id; others are kept |
| Store.GetMessage | database/models.py:336-343 | The user's record, if there is one |
| Store.DeleteMessage | database/models.py:345-352 | The user's record is gone, and every other record stays |
| Store.SaveOverwritesThenDeleteRemoves | database/models.py:329-350 | A second save overwrites the first; a delete after a save leaves no record |
| TaskList.UrgencyLeTotalPreorder | handlers/tasks.py:102 | The tuple key `(time_left >= 0, abs(time_left))` orders any two tasks consistently |
| TaskList.ByUrgency | handlers/tasks.py:102 | A permutation with every overdue task first, and the nearest deadline first within each group |
| TaskList.RemainingOf | handlers/tasks.py:129-138 | Overdue exactly when time is up; otherwise whole days, hours or minutes left, rounded down, with bounds on each |
| TaskList.StatusOf | handlers/tasks.py:118-138 | Red exactly when overdue, yellow exactly when minutes are shown, green for hours or days |
| TaskList.RowButtons | handlers/tasks.py:147-162 | One button per row, opening that row's task |
| TaskList.RowsOf | handlers/tasks.py:117-145 | One row per task in order; red rows first when overdue tasks came first |
| TaskList.Ordered | handlers/tasks.py:77-102 | Exactly the user's open tasks, overdue first |
| TaskList.PageButtons | handlers/tasks.py:147-190 | The row buttons, then the navigation, then add, delete and back |
| TaskList.ListFooter | handlers/tasks.py:180-183 | The list's own add, delete and back buttons carry the tasks menu's three payloads |
| TaskList.ShowTasksPage | handlers/tasks.py:53-204 | No page exactly when the user has no open task; otherwise the page count of the user's open tasks, the requested page clamped to it, and the rows of exactly that page's tasks in urgency order |
| TaskList.ShownRowsAreOpenTasks | handlers/tasks.py:77-145 | Every row is one of the user's own open tasks, with its own escaped title |
| TaskList.EveryOpenTaskIsListed | handlers/tasks.py:102-110 | Every open task of the user appears on some page |
| TaskHandlers.RouteOfPrefixed | handlers/tasks.py:440-592 | The `startswith` filters do not shadow one another: a payload under a handler's prefix reaches that handler |
| TaskHandlers.RouteOf | handlers/tasks.py:30-592 | The fixed filters match their payload exactly and the others their prefix; only `menu:tasks` and payloads under `task:` reach a handler |
| TaskHandlers.Read | handlers/tasks.py:440-600 | A handler that does not fail yields a command of its own route, and the fixed-payload handlers never fail; the numbers it carries are the `int()` of the last field, or of the third and fourth fields for a postpone; `current` is the no-op |
| TaskHandlers.Decode | handlers/tasks.py:30-600 | A payload is decoded exactly when some filter matches it, into a command of the matching handler, and only within the task namespace |
| TaskHandlers.RouteOfActionPayload | handlers/tasks.py:455-583 | Each action payload reaches the handler of its action |
| TaskHandlers.ReadAction | handlers/tasks.py:461 | A payload whose last field is the number n reads as the action on task n |
| TaskHandlers.DecodeActionPayload | keyboards/menu.py:143-145 | Every action button reaches its handler, which reads back the same task id |
| TaskHandlers.RouteOfPostponePayload | handlers/tasks.py:592 | A postpone payload reaches the postpone handler, not the postpone menu |
| TaskHandlers.ReadPostpone | handlers/tasks.py:598-600 | Fields 2 and 3 are read back as the task id and the minutes |
| TaskHandlers.DecodePostponePayload | keyboards/menu.py:131 | `task:postpone:{id}:{minutes}` decodes to that id and those minutes |
| TaskHandlers.DecodePagePayload | handlers/tasks.py:440-453 | A page button reads back its page, and the counter is a no-op |
| TaskHandlers.ProcessTitle | handlers/tasks.py:265-318 | The step moves on exactly when the stripped title has 3 to 200 characters, and then the draft gains that title and nothing else; too short and too long are told apart; a refusal changes nothing; a checked draft stays checked; the store is never touched |
| TaskHandlers.ProcessDescription | handlers/tasks.py:320-363 | The step moves on exactly when the description has at most 1000 characters, a lone `-` always doing so with an empty description; a refusal changes nothing; a checked draft stays checked; the store is never touched |
| TaskHandlers.ProcessDate | handlers/tasks.py:365-438 | An unreadable date, or one not strictly after now, is refused with nothing changed; otherwise exactly one open, never-reminded row with the next id, the draft's title and description and that due time is appended, the other tables stay, the session clears, and a consistent store stays consistent |
| TaskHandlers.CreatedTaskNotYetPending | handlers/tasks.py:383-407 | A task just created is not pending, so no reminder goes out for it yet |
| TaskHandlers.Owned | handlers/tasks.py:464 | Found is the user's own task with that id; refused means, in a consistent store, that no row with that id belongs to the user |
| TaskHandlers.ShortTitle | handlers/tasks.py:516 | A shortened title has at most 33 characters |
| TaskHandlers.DeletionButtons | handlers/tasks.py:499-530 | One delete-confirm button per task, then back to the list |
| TaskHandlers.HandleCallback | handlers/tasks.py:440-623 | Only add changes the session; only delete, complete and postpone change the store, only the task table, and only for the owner; a refusal changes nothing (what each write does is stated by the three lemmas below) |
| TaskHandlers.DeleteRemovesOnlyThatTask | handlers/tasks.py:532-552 | The owner's delete removes exactly the rows with that id and keeps every other row, with the session untouched |
| TaskHandlers.CompleteMarksOnlyThatTask | handlers/tasks.py:556-576 | The owner's complete marks the rows with that id completed; the table keeps its length and order, and no other row or field changes |
| TaskHandlers.PostponeMovesOnlyThatTask | handlers/tasks.py:604-612 | Postponing by m minutes moves that task 60·m seconds later and lets it be reminded afresh; every other task stays |
| TaskHandlers.CardButtonsWork | handlers/tasks.py:455-497 | For the owner, each button on a task's card reaches its handler with the card's id and is not refused |
| TaskHandlers.PostponeButtonsDecode | handlers/tasks.py:580-590 | Every delay button decodes to a postpone of that task by one of the offered delays, and back reopens the card |
| TaskHandlers.NavButtonDecodes | handlers/tasks.py:167-178 | Each navigation button names an existing page or is the no-op |
| TaskHandlers.ListButtonsDecode | handlers/tasks.py:147-190 | Every button under the task list but the last reaches the task router with a readable command |
| TaskHandlers.TasksMenuDecodes | keyboards/menu.py:30-39 | Add and delete reach the task router; back does not |
| TaskHandlers.TextStepsKeepTextsOk | handlers/tasks.py:265-363 | The title and description steps only put checked fields into the draft |
| TaskHandlers.DateStepKeepsTextsOk | handlers/tasks.py:365-438 | The task the date step creates respects the title and description limits |
| TaskHandlers.CallbacksKeepTextsOk | handlers/tasks.py:440-623 | No callback writes a title or a description |
| TaskHandlers.DateStepTouchesOnlyTasks | handlers/tasks.py:400-407 | The date step writes only the task table and its id counter, and keeps the store consistent |
| BirthdayList.NextOccurrence | handlers/birthdays.py:249-251 | The next birthday is the first day from today on with its month and day, or none when `replace` fails |
| BirthdayList.DaysUntil | handlers/birthdays.py:248-252 | Days until the next birthday: never negative, and zero exactly on the day itself |
| BirthdayList.NextOccurrenceFacts | handlers/birthdays.py:249-252 | The next occurrence is not before today, and it is today exactly when month and day match |
| BirthdayList.EntryOf | handlers/birthdays.py:246-264 | A birthday gets an entry exactly when its date reads and can be placed, carrying its own id, name and date |
| BirthdayList.Upcoming | handlers/birthdays.py:245-264 | Every placeable birthday has an entry, and every entry comes from one |
| BirthdayList.DaysLeTotalPreorder | handlers/birthdays.py:266 | Sorting by days until compares any two entries consistently |
| BirthdayList.BySoonest | handlers/birthdays.py:266 | A permutation of the entries, soonest first |
| BirthdayList.Ordered | handlers/birthdays.py:240-266 | Exactly the user's placeable birthdays, soonest first |
| BirthdayList.LightThresholds | handlers/birthdays.py:289-303 | Red up to 3 days, yellow 4 to 7, green 8 to 30, white beyond; "today" exactly at 0 |
| BirthdayList.BucketMonotone | handlers/birthdays.py:289-303 | A later day is never in a more urgent bucket |
| BirthdayList.RowsOf | handlers/birthdays.py:283-309 | One line per entry in order, ascending in days when the entries were |
| BirthdayList.ListButtons | handlers/birthdays.py:312-333 | The navigation, then add, delete and back |
| BirthdayList.ShowBirthdaysPage | handlers/birthdays.py:220-352 | The "no birthdays" notice exactly when the user has none; otherwise the page count, the clamped page, and one line for each entry of exactly that page, at most ten, ascending in days |
| BirthdayList.LightsInOrder | handlers/birthdays.py:283-303 | Going down a page the lights never get less urgent |
| BirthdayList.PageRow | handlers/birthdays.py:274-276 | Line k of a page is the entry at the page start plus k |
| BirthdayList.ShownRowsAreBirthdays | handlers/birthdays.py:283-309 | Every line is one of the user's own birthdays, with its escaped name and its own day count |
| BirthdayList.EveryPlaceableBirthdayIsListed | handlers/birthdays.py:245-276 | Every placeable birthday of the user is on some page |
| BirthdayHandlers.ProcessName | handlers/birthdays.py:53-108 | The step moves on exactly when the stripped name has 2 to 100 characters, and then the draft gains that name and nothing else; too short and too long are told apart; a refusal changes nothing; the store is never touched |
| BirthdayHandlers.ProcessBirthDate | handlers/birthdays.py:110-202 | Unreadable, future or pre-1900 dates are refused with nothing stored; otherwise the birthday is upserted, the session clears, and the confirmation counts the days as the list does |
| BirthdayHandlers.AddedBirthdayIsStored | handlers/birthdays.py:158-164 | After a successful step the user's row of that name has the entered, checked date |
| BirthdayHandlers.ConfirmationDaysAsWritten | handlers/birthdays.py:168-171 | The confirmation's day count as the code computes it, comparing midnight with the current time; never negative |
| BirthdayHandlers.ProcessBirthDateAsWritten | handlers/birthdays.py:110-202 | The step as written leaves the same session and store as the corrected step, and differs from it only in the reply to a successful write |
| BirthdayHandlers.TodaysBirthdayAsWritten | handlers/birthdays.py:168-171 | A birthday entered on its own day after midnight is never announced as zero days away, though the list shows zero |
| BirthdayHandlers.TodaysBirthdayExample | handlers/birthdays.py:168-171 | 15 March entered at noon on 15 March is announced as 365 days away |
| BirthdayHandlers.LeapDayAsWritten | handlers/birthdays.py:158-201 | A 29 February date entered in a common year is stored and the session cleared, yet the user is told the format is wrong |
| BirthdayHandlers.NameFieldOfDeletePayload | handlers/birthdays.py:392 | `":".join(split(":")[2:])` of `bd:delete_confirm:{name}` is the name, colons included |
| BirthdayHandlers.AfterTwoFields | handlers/birthdays.py:392 | After two colon-free fields, the rest of the payload is split on its own |
| BirthdayHandlers.RouteOfDeletePayload | handlers/birthdays.py:386 | A delete payload reaches the delete-confirm handler |
| BirthdayHandlers.RouteOf | handlers/birthdays.py:28-392 | Only `menu:birthdays` and payloads under `bd:` are claimed; the page and delete-confirm handlers take exactly the payloads under their prefixes, add and delete menu exactly their own payload |
| BirthdayHandlers.Read | handlers/birthdays.py:204-392 | Only the page handler can fail; every other result is a command of the handler's own route; a page number is the `int()` of the last field, `current` is the no-op, and a delete carries everything after the second colon |
| BirthdayHandlers.Decode | handlers/birthdays.py:28-392 | A payload is decoded exactly when some filter matches it, into a command of the matching handler, and only within the birthday namespace |
| BirthdayHandlers.DecodeDeletePayload | handlers/birthdays.py:373-392 | Every delete button reaches the delete handler with exactly the name it was built from |
| BirthdayHandlers.DecodePagePayload | handlers/birthdays.py:204-217 | A page button reads back its page, and the counter is a no-op |
| BirthdayHandlers.NavButtonDecodes | handlers/birthdays.py:312-323 | Each navigation button names an existing page or is the no-op |
| BirthdayHandlers.ListButtonsDecode | handlers/birthdays.py:312-333 | Every button under the list but the last reaches the birthday router with a readable command |
| BirthdayHandlers.DeletionButtons | handlers/birthdays.py:354-384 | One delete button per birthday, in list order, then back to the list |
| BirthdayHandlers.HandleCallback | handlers/birthdays.py:204-403 | Only add changes the session and only a delete changes the store, removing exactly the user's row of that name |
| BirthdayHandlers.OnlyRowOfItsName | database/models.py:52 | Under `UNIQUE(user_id, name)`, the user's other rows have other names |
| BirthdayHandlers.DeletionButtonsDecode | handlers/birthdays.py:369-403 | Each deletion button asks to delete its own birthday; the last one goes back to the list |
| BirthdayHandlers.DeletingRemovesOnlyIt | handlers/birthdays.py:386-403 | Deleting one of the user's birthdays removes exactly that row |
| BirthdayHandlers.AddKeepsBirthdaysOk | database/models.py:203-219 | Upserting a checked name and date keeps every stored birthday checked |
| BirthdayHandlers.NameStepKeepsBirthdaysOk | handlers/birthdays.py:53-108 | The name step stores only a checked name, and only in the draft |
| BirthdayHandlers.DateStepKeepsBirthdaysOk | handlers/birthdays.py:110-202 | The date step stores only a checked date under the checked name |
| BirthdayHandlers.CallbacksKeepBirthdaysOk | handlers/birthdays.py:386-403 | Deleting only removes rows, so every remaining birthday is still checked |
| BirthdayHandlers.CallbacksTouchOnlyBirthdays | handlers/birthdays.py:204-403 | The birthday callbacks write only the birthday table and keep the store consistent |
| BirthdayHandlers.DateStepTouchesOnlyBirthdays | handlers/birthdays.py:158-164 | The date step writes only the birthday table and its id counter, and keeps the store consistent |
| SettingsHandlers.SettingsMenu | handlers/settings.py:19-28 | Change the city, or back to the main menu |
| SettingsHandlers.CityShown | handlers/settings.py:37-39 | The stored city, or "Не задан" when there is no row or the city is missing or empty |
| SettingsHandlers.ShowSettings | handlers/settings.py:30-52 | The settings screen reads only and leaves the conversation alone |
| SettingsHandlers.StartChangeCity | handlers/settings.py:54-77 | Waits for a city and remembers the prompt; the rest of the data stays |
| SettingsHandlers.ProcessCity | handlers/settings.py:79-139 | An unknown city keeps waiting with nothing stored; a known one is stored as the user's city and the session clears |
| SettingsHandlers.ChangeKeepsEverythingElse | handlers/settings.py:117-120 | Changing the city keeps country, region, timezone, language, other users, tasks, birthdays and messages |
| SettingsHandlers.ChangedCityIsShown | handlers/settings.py:37-39 | After a change the settings screen shows the new city |
| CurrencyHandlers.ShowRates | handlers/currency.py:17-47 | Opening the currency screen ends any conversation and never writes; no or empty rates say the rates are unavailable; a zero nominal raises after the session was cleared; otherwise every code in listing order priced at value/nominal |
| CurrencyHandlers.RatesShowEveryCodeOnce | services/currency_service.py:87-106 | With a table keyed by code and no zero nominal, every code of the table is shown exactly once, at value/nominal |
| CurrencyHandlers.StartConversion | handlers/currency.py:49-68 | Waits for a conversion line and keeps the data |
| CurrencyHandlers.ProcessConversion | handlers/currency.py:70-132 | Not three tokens, a bad number or an amount of at most zero each keep the state; only a successful conversion clears it, converting the amount typed between the codes typed |
| CurrencyHandlers.CommaIsDecimalPoint | handlers/currency.py:85 | "1,5" is read exactly as "1.5" |
| CurrencyHandlers.ThreeTokens | handlers/currency.py:74 | Three words with single spaces are the three tokens, upper-cased |
| CurrencyHandlers.Tokens | handlers/currency.py:74 | The tokens are non-empty, hold no whitespace and no lower-case letter, and together spell the upper-cased text without its spaces |
| CurrencyHandlers.ReadAmount | handlers/currency.py:85 | An amount without a comma is parsed unchanged |
| CurrencyHandlers.ConvertsWhatWasTyped | handlers/currency.py:74-101 | A well-formed line converts the typed amount between the typed codes in any letter case |
| CurrencyService.Codes | services/currency_service.py:97 | The codes of the table, in order |
| CurrencyService.Lookup | services/currency_service.py:128-137 | `rates[code]` is present exactly for the codes of the table |
| CurrencyService.RateOf | services/currency_service.py:126-138 | RUB is 1 without a lookup; a known code is value/nominal; an unknown code has no rate |
| CurrencyService.Convert | services/currency_service.py:110-148 | None exactly when there is no table, the table is empty, the source code is unknown, or the source is known and the target unknown; raises exactly when a zero nominal is hit on either side or the target rate is zero; otherwise amount · from rate / to rate |
| CurrencyService.ConvertIgnoresCase | services/currency_service.py:122-123 | The letter case of either code never changes the answer |
| CurrencyService.ConvertToSelf | services/currency_service.py:140-144 | Converting a currency into itself returns the amount |
| CurrencyService.ConvertRoundTrip | services/currency_service.py:140-144 | Converting there and back returns the amount, unless the first currency is worth nothing |
| CurrencyService.ConvertKnown | services/currency_service.py:140-144 | With both rates known and a nonzero target, the result is amount · from rate / to rate |
| CurrencyService.ConvertDivisionByZero | services/currency_service.py:140-148 | A zero target rate makes the division raise |
| CurrencyService.PriorityRank | services/currency_service.py:17 | A code's position in the priority list, and past its end exactly for the other codes |
| CurrencyService.PriorityExcludesRouble | services/currency_service.py:17 | RUB is not a priority code |
| CurrencyService.PresentPriority | services/currency_service.py:89-95 | The priority codes present in the table, in the fixed order |
| CurrencyService.OtherCodes | services/currency_service.py:97 | The remaining codes of the table, alphabetically |
| CurrencyService.RateListing | services/currency_service.py:68-108 | The present priority codes first in fixed order, then the rest alphabetically, covering exactly the table's codes |
| CurrencyService.PriceOf | services/currency_service.py:92 | `value / nominal` raises exactly when the nominal is zero, and otherwise agrees with the conversion rate of any code but RUB |
| CurrencyService.QuoteCodes | services/currency_service.py:87-106 | The codes of the printed lines, one per line and in order |
| CurrencyService.Quotes | services/currency_service.py:89-104 | One line per code in the given order with its price, or a failure exactly when some code's nominal is zero |
| CurrencyService.QuotesAreRates | utils/scheduler.py:270-275 | For codes other than RUB the printed price is the conversion rate |
| CurrencyService.FormatRates | services/currency_service.py:68-108 | `format_rates` prints every code in listing order with its price, and raises exactly when some nominal is zero |
| CurrencyService.RateListingUnique | services/currency_service.py:89-106 | In a table keyed by code, every code is listed exactly once |
| PlacesService.Queries | services/places_service.py:17-33 | Exactly the three place types have queries, at least one each |
| PlacesService.TagOr | services/places_service.py:121 | `tags.get(key, default)` |
| PlacesService.AddressOf | services/places_service.py:123-131 | "street, house", the street alone, or the placeholder; never empty |
| PlacesService.ParseElement | services/places_service.py:111-135 | `lat` and `lon` when both exist, else `center`, else skipped; the name defaults to "Без названия" |
| PlacesService.ParseResponse | services/places_service.py:104-141 | Exactly the locatable elements, parsed |
| PlacesService.Gather | services/places_service.py:49-52 | Results of every query of the type, concatenated |
| PlacesService.WithDistances | services/places_service.py:55-63 | Each result gets its distance from the origin, and nothing else changes |
| PlacesService.KeyIndex | services/places_service.py:65-69 | The dict lookup by `name_address` key finds the first entry with that key, or none has it |
| PlacesService.Keep | services/places_service.py:65-69 | One dedup step never drops an entry position |
| PlacesService.KeepAppends | services/places_service.py:65-69 | A new key is appended and the dedup invariant holds |
| PlacesService.KeepReplaces | services/places_service.py:65-69 | A strictly nearer entry replaces its key's entry and the invariant holds |
| PlacesService.KeepSkips | services/places_service.py:65-69 | An entry no nearer than its key's entry changes nothing and the invariant holds |
| PlacesService.Dedup | services/places_service.py:65-69 | One entry per key, every kept entry was seen, and each key keeps its nearest entry |
| PlacesService.NearestFirst | services/places_service.py:71-72 | Sorted by distance, same entries, keys still distinct |
| PlacesService.SearchPlaces | services/places_service.py:35-72 | Nothing for an unknown type; otherwise the found places, one per key and the nearest, ordered by distance |
| PlacesHandlers.PlaceTypeKeyboard | handlers/places.py:24-35 | A search per kind of place at this location, another location, and back |
| PlacesHandlers.PageKeyboard | handlers/places.py:38-67 | Previous only after the first page, the counter always, next only before the last, then two buttons back to the types |
| PlacesHandlers.ShowPlacesPage | handlers/places.py:339-383 | The clamped page of the results, numbered from its start, or nothing for an unknown type |
| PlacesHandlers.EveryResultIsShown | handlers/places.py:348-367 | Result i is shown on page i / 10 as entry i + 1 |
| PlacesHandlers.WithLocation | handlers/places.py:148 | `update_data` sets the two coordinates and keeps the state and the rest of the data |
| PlacesHandlers.StoredLocationAsWritten | handlers/places.py:148-149 | The location is stored and then wiped by `state.clear()` |
| PlacesHandlers.StoredLocation | handlers/places.py:148-149 | The waiting ends and the location stays for the next visit |
| PlacesHandlers.ShowPlacesMenu | handlers/places.py:70-104 | The place types for a remembered location, otherwise a request for one; nothing changes |
| PlacesHandlers.LocationForgottenAsWritten | handlers/places.py:70-104 | After the location step or a placed address, the places menu asks again for a location |
| PlacesHandlers.LocationIsRemembered | handlers/places.py:70-104 | With the location kept, the menu goes straight to the place types for it |
| PlacesHandlers.RequestLocation | handlers/places.py:107-129 | Waits for a location and remembers the prompt |
| PlacesHandlers.ProcessLocation | handlers/places.py:132-165 | A shared location is always accepted and offered the place types for it, and the session ends cleared, with no location kept |
| PlacesHandlers.BaseCity | handlers/places.py:192 | The user's city, or Moscow when none is stored |
| PlacesHandlers.FullAddress | handlers/places.py:190-194 | The geocoded query starts with the stripped address and ends in `, Russia`, with Moscow in between when the user has no stored city |
| PlacesHandlers.ProcessAddress | handlers/places.py:168-259 | Without a prompt nothing happens; an address the geocoder cannot place keeps waiting; a placed one is offered the place types for it, and the session ends cleared |
| PlacesHandlers.SplitPagePayload | handlers/places.py:296 | The page payload splits into its six fields |
| PlacesHandlers.SplitSearchPayload | handlers/places.py:265 | The search payload splits into its five fields |
| PlacesHandlers.SplitTypesPayload | handlers/places.py:320 | The types payload splits into its four fields |
| PlacesHandlers.PageRouteOf | handlers/places.py:293 | Whatever follows `places:page:` reaches the page handler |
| PlacesHandlers.RouteOf | handlers/places.py:70-326 | Only `menu:places` and payloads under `places:` are claimed; the search, page and types handlers take exactly the payloads under their prefixes |
| PlacesHandlers.Read | handlers/places.py:262-326 | The menu and location handlers always answer; search, page and types answer only when latitude and longitude read as numbers; a `current` page is the no-op |
| PlacesHandlers.Decode | handlers/places.py:70-326 | Every decoded command belongs to the handler whose filter matched, within the places namespace; the menu and location payloads always decode |
| PlacesHandlers.PagePayloadRoute | handlers/places.py:293 | A page button reaches the page handler |
| PlacesHandlers.DecodePagePayload | handlers/places.py:293-314 | A page button reads back its place type, location and page |
| PlacesHandlers.DecodeCounterPayload | handlers/places.py:299-300 | A page payload whose last field is `current` is a no-op |
| PlacesHandlers.DecodeCurrentPayload | handlers/places.py:54 | The counter button is a no-op |
| PlacesHandlers.DecodeSearchPayload | handlers/places.py:262-272 | A search button reads back its place type and location |
| PlacesHandlers.DecodeTypesPayload | handlers/places.py:317-326 | A types button reads back its location |
| PlacesHandlers.PageKeyboardDecodes | handlers/places.py:38-67 | Every button under a page leads to a page that exists, to the same page, or back to the types here |
| PlacesHandlers.PlaceTypeKeyboardDecodes | handlers/places.py:24-35 | Each type button searches for its own kind at the location it was made for |
| PlacesHandlers.HandleCallback | handlers/places.py:262-336 | Payload locations are stored first; an empty search says so and never renders a page; the store is never touched |
| PlacesHandlers.PageButtonsLandOnTheirPage | handlers/places.py:293-314 | Paging shows the page asked for, when it exists |
| WeatherService.IconCode | services/weather_service.py:157 | `icon[:2]` is a prefix of the icon of at most two characters |
| WeatherService.WeatherEmoji | services/weather_service.py:142-162 | The emoji of the condition code, and the fallback exactly for unknown codes |
| WeatherService.EmojiIgnoresSuffix | services/weather_service.py:157-158 | Only the first two characters matter: day and night icons share an emoji |
| WeatherService.CloudCodesShareEmoji | services/weather_service.py:148-149 | Codes 03 and 04 map to the same cloud emoji |
| WeatherService.ItemsOn | services/weather_service.py:111-121 | Exactly the items of one day, in arrival order |
| WeatherService.DayKeys | services/weather_service.py:111-121 | The distinct days in order of first appearance |
| WeatherService.GroupByDay | services/weather_service.py:111-121 | The grouping loop yields one group per day in first-appearance order, each holding all its items in order |
| WeatherService.Forecast | services/weather_service.py:103-140 | At most five days in first-appearance order, each shown by the item at index `len(items) // 2` of its group |
| WeatherService.DayKeysPrefix | services/weather_service.py:111-121 | Later items never reorder the days already seen |
| Scheduler.RemindedIds | utils/scheduler.py:81-118 | Exactly the tasks that were due and whose reminder went through |
| Scheduler.RemindStep | utils/scheduler.py:84-118 | Send exactly when due and not reminded within the hour and the message goes through; then every row with the task's id gets `now` as its last reminder, and no other row, field or table changes |
| Scheduler.RemindAll | utils/scheduler.py:81-118 | The loop stamps exactly the tasks reminded and changes nothing else |
| Scheduler.CheckTasks | utils/scheduler.py:74-121 | Over the pending tasks, the reminded ids are exactly those sent, each row is stamped with now exactly when its send succeeded, and nothing else in the store changes |
| Scheduler.Debounce | utils/scheduler.py:87-92 | A task stamped at t is quiet until t plus one hour and reminded again from then on while it stays due |
| Scheduler.ShouldRemind | utils/scheduler.py:85-92 | Never before the task is due; a task never reminded is reminded as soon as it is due, a reminded one only once an hour has passed since its stamp |
| Scheduler.CheckTasksStamp | utils/scheduler.py:107-118 | After the job a delivered reminder is stamped with now; a failed send keeps the old stamp |
| Scheduler.RowOfId | database/models.py:33 | The only row with a row's id is that row |
| Scheduler.NoticesFor | utils/scheduler.py:129-169 | Today's notice exactly when month and day are today's, the advance notice exactly when they are tomorrow's, with the age in that day's year |
| Scheduler.TodayIsNotTomorrow | utils/scheduler.py:153 | No birthday gets both notices on one run |
| Scheduler.CheckBirthdays | utils/scheduler.py:123-172 | The notices of every birthday, independent of the others' failures |
| Scheduler.NewYearAdvanceNotice | utils/scheduler.py:153-155 | A 1 January birthday scanned on 31 December is announced with next year's age |
| Scheduler.LeapDayBirthdayInCommonYear | utils/scheduler.py:133-155 | In a common year a 29 February birthday gets no notice on any day |
| Scheduler.KeptNoticesFor | utils/scheduler.py:129-169 | At most two notices; today's exactly when the birthday is kept today, the advance one exactly when it is kept tomorrow, a 29 February birthday being kept on 28 February in a common year |
| Scheduler.KeptDay | utils/scheduler.py:133-134 | A real day of the given year on which the birthday is kept |
| Scheduler.EveryBirthdayIsAnnounced | utils/scheduler.py:133-150 | With the correction every birthday, 29 February included, is announced on its kept day of every year with that year's age |
| Scheduler.KeptNoticesAgree | utils/scheduler.py:129-169 | For every other birth date the correction sends exactly what the job sends |
| Scheduler.MajorCurrencies | utils/scheduler.py:254-277 | The priority currencies present, in fixed order, each priced at value/nominal, or a failure on a zero nominal |
| Scheduler.PresentAreListedNonRouble | utils/scheduler.py:268-270 | Every priority code the digest prints is in the table and is not RUB |
| Scheduler.MorningDigest | utils/scheduler.py:174-225 | The digest's message id is recorded for the admin only when it was sent; other records stay |
| Scheduler.DeleteDailyMessages | utils/scheduler.py:227-252 | A record is removed exactly when its chat deletion succeeded, and one failure does not stop the others |
| StartHandlers.Handle | handlers/start.py:15-116 | Everything but `/help` clears the state and the data; `/help` changes nothing; the store is never touched |
| StartHandlers.ResetForgetsTheConversation | handlers/start.py:105-116 | After a reset two users in different states are in the same place |
| Dispatcher.Rank | bot_main.py:62-68 | Each of the seven routers has its own inclusion position |
| Dispatcher.StartRequest | handlers/start.py:15-116 | The start router's filters: `/start`, `/help` and `/menu` commands, the `menu:main` and `cancel` buttons, and nothing for a location |
| Dispatcher.ClaimsFollowFilters | bot_main.py:62-68 | Callbacks are claimed on their payload alone, messages by state alone, and outside a conversation only the start router takes a message |
| Dispatcher.Claims | bot_main.py:62-68 | The start router claims only `menu:main` and `cancel` among callbacks; every other router claims only its own `menu:` entry and payloads under its own prefix, and messages only during a conversation |
| Dispatcher.IsCommand | handlers/start.py:15-77 | A command's first word begins with `/name` and is either that or `/name@bot` |
| Dispatcher.CommandWithArguments | handlers/start.py:15-77 | `/name` alone or followed by arguments is the command |
| Dispatcher.RunTasks | handlers/tasks.py:30-623 | The task router writes only the task table and its counter; a location message changes nothing |
| Dispatcher.RunBirthdays | handlers/birthdays.py:28-403 | The birthday router, with the birth-date step as written, writes only the birthday table and its counter |
| Dispatcher.RunWeather | handlers/weather.py:18-87 | The weather screen never writes; the `menu:weather` button clears the session and the forecast keeps it |
| Dispatcher.RunCurrency | handlers/currency.py:17-132 | The currency router never writes, and keeps the data bag or clears the session |
| Dispatcher.RunPlaces | handlers/places.py:70-336 | The places router as written never writes, keeps the other drafts or clears the session, and a location always ends cleared |
| Dispatcher.RunSettings | handlers/settings.py:30-139 | The settings router writes only the settings table |
| Dispatcher.Run | bot_main.py:62-68 | Each table is written only by its own router, and no update touches the daily-message records |
| Dispatcher.Dispatch | bot_main.py:62-68 | An unclaimed update changes nothing; the task, birthday and settings tables change only when their own router was chosen; handlers run as written |
| Dispatcher.Chosen | bot_main.py:62-68 | The chosen router claims the update and no earlier router does; none is chosen exactly when none claims it |
| Dispatcher.StartIsACommand | handlers/start.py:15 | `/start` typed alone is the start command |
| Dispatcher.NoRouterClaimsIdleText | bot_main.py:62-68 | Outside a conversation no router claims text that is not a command |
| Dispatcher.NotForTasks | handlers/tasks.py:30-592 | No task filter accepts a payload starting with `p` |
| Dispatcher.NotForBirthdays | handlers/birthdays.py:28-386 | No birthday filter accepts a payload starting with `p` |
| Dispatcher.NotForPlaces | handlers/places.py:70-317 | The places router has no handler for its own menu's three kind buttons |
| Dispatcher.NoRouterClaimsPlacesKinds | keyboards/menu.py:76-87 | No router claims the pharmacies, vet and shops payloads |
| Dispatcher.ResetsFromAnyState | handlers/start.py:15-116 | `/start`, `/menu`, `menu:main` and `cancel` end any conversation without touching the store |
| Dispatcher.HelpChangesNothing | handlers/start.py:41-75 | `/help` changes neither the session nor the store, from any state |
| Dispatcher.StartResets | handlers/start.py:15-39 | Typing `/start` resets from any state, even one waiting for text |
| Dispatcher.CancelResets | handlers/start.py:105-116 | The cancel button resets whatever the conversation waited for |
| Dispatcher.IdleTextIsIgnored | bot_main.py:62-68 | Outside a conversation, plain text changes nothing |
| Dispatcher.PlacesMenuKindsAreUnhandled | keyboards/menu.py:76-87 | Pressing pharmacies, vet or shops in the places menu does nothing |
| Dispatcher.TaskCallbackKeepsInv | handlers/tasks.py:440-623 | The task callbacks keep the store consistent and every limit |
| Dispatcher.TitleStepKeepsInv | handlers/tasks.py:265-318 | The title step keeps the invariant |
| Dispatcher.DescriptionStepKeepsInv | handlers/tasks.py:320-363 | The description step keeps the invariant |
| Dispatcher.TaskDateStepKeepsInv | handlers/tasks.py:365-438 | The date step keeps the invariant |
| Dispatcher.TasksKeepInv | handlers/tasks.py:30-623 | Every update the task router takes keeps the invariant |
| Dispatcher.BirthdayCallbackKeepsInv | handlers/birthdays.py:204-403 | The birthday callbacks keep the invariant |
| Dispatcher.NameStepKeepsInv | handlers/birthdays.py:53-108 | The name step keeps the invariant |
| Dispatcher.BirthDateStepKeepsInv | handlers/birthdays.py:110-202 | The birth-date step keeps the invariant |
| Dispatcher.BirthdaysKeepInv | handlers/birthdays.py:28-403 | Every update the birthday router takes keeps the invariant |
| Dispatcher.CurrencyKeepsInv | handlers/currency.py:17-132 | The currency router keeps the invariant |
| Dispatcher.PlacesKeepInv | handlers/places.py:70-336 | The places router keeps the invariant |
| Dispatcher.SettingsKeepInv | handlers/settings.py:30-139 | The settings router keeps the invariant |
| Dispatcher.RunKeepsInv | bot_main.py:62-68 | Whichever router runs, the invariant holds afterwards |
| Dispatcher.DispatchKeepsInv | bot_main.py:62-68 | Whatever arrives in whatever state, the store stays consistent and no stored task or birthday or draft breaks an input limit |

## Left out

- Telegram I/O is not modelled: sending, editing, deleting and answering messages, `TelegramBadRequest` handling, and keyboard layout (`adjust`). Handlers are modelled by the session and store they leave behind and by the payloads of the buttons they show. Message texts are reduced to the facts they carry.
- Network services are parameters:
  - the weather lookup (`get_current_weather`, `get_forecast`);
  - the rate fetch and XML parsing (`get_rates`, `_parse_rates`);
  - the Overpass fetch (`_fetch_overpass`);
  - Nominatim geocoding;
  - geopy distances.
- Floating point is replaced by exact reals:
  - amounts, rates and distances are `real`;
  - coordinates are the text of their float, since that text is what travels in payloads;
  - `:.2f`, metre and kilometre formatting are not modelled (`format_place`, `get_map_url`, `format_current_weather`).
- `strptime`, `strftime`, `fromisoformat` and `ZoneInfo` are left out. Time is integer seconds and dates are (year, month, day) triples. `strptime` and `float()` are oracle parameters, and date and time texts in messages are not modelled.
- `Store.PendingTasks`: keeps the open tasks whose integer due time is at most now, which is what the query evidently intends. The query as written compares texts (database/models.py:186-193). The stored due date is `isoformat()` text, with a `T` between date and time and the local offset (database/models.py:102). `datetime('now')` is UTC text with a space there. A `T` sorts after a space, so a task is returned only once the current UTC date is later than the calendar date in its due text. The `due <= now` re-check in `check_tasks` (utils/scheduler.py:85) cannot restore rows the query did not return. So `Scheduler.CheckTasks` reminds as soon as a task is due, where the program waits for the next UTC date.
- `Text.ParseInt`: accepts an optional sign and decimal digits only. The whitespace, underscore and non-ASCII-digit forms that Python's `int()` also accepts never occur in the bot's own payloads.
- `Text.Strip`: the whitespace it removes is the ten ASCII characters `str.isspace` accepts (including U+001C to U+001F). Whitespace outside ASCII, such as U+00A0 or U+2000, is kept.
- `Text.Words`: words are separated by the same ten ASCII whitespace characters. Whitespace outside ASCII does not separate words.
- `Text.Upper`: maps the ASCII letters a to z only. Case mappings outside ASCII, such as Cyrillic letters, are not modelled.
- `Dispatcher.IsCommand`: a command is the first word being `/name` or `/name@bot`. aiogram's prefix and case options and its mention check are simplified to that.
- `TaskList.ShowTasksPage`: the time-left text is modelled, but the `strftime` date text of each row is not.
- `TaskHandlers.DeletionButtons`: the caption date text is not modelled.
- `TaskHandlers.HandleCallback`: the task card's time-status text (`show_task_actions`) is not modelled. The card carries the task and its buttons.
- `format_task_compact` (handlers/tasks.py) is defined but never called, so it is not modelled.
- `get_birthdays_menu`, `get_weather_menu`, `get_back_button` and `get_confirmation_keyboard` are not modelled: they only decorate replies, or are never called. Their payloads are all handled elsewhere in the model.
- handlers/weather.py is reduced to its one state effect: opening the weather screen ends any conversation. Its city default and provider calls are I/O.
- The 64-byte limit Telegram puts on callback data is not modelled. A long birthday name can exceed it, and Telegram then refuses the button.
- `BirthdayList.BySoonest`, `TaskList.ByUrgency` and `PlacesService.NearestFirst`: ties keep input order (a stable sort), which the contracts do not state.
- APScheduler wiring, `bot_main.py` start-up and shutdown, `middlewares/database.py`, `config.py`, `utils/logger.py` and the package `__init__` files are framework glue, and are not modelled.
- Async interleaving is not modelled: every handler and job is one atomic step.

## Findings

| source | as written | input that shows it | evidently intended | confidence | as-written member | corrected member |
|---|---|---|---|---|---|---|
| handlers/birthdays.py:168-171 | The confirmation compares this year's birthday at midnight with the current time, so on the day itself the birthday counts as past and moves to next year | Birth date 15.03.2000 entered at 12:00 on 15 March 2025: the reply says 365 days | Zero days on the birthday itself, as the list page computes with `.date()` | not executed | BirthdayHandlers.TodaysBirthdayAsWritten | BirthdayHandlers.ProcessBirthDate |
| handlers/birthdays.py:158-201 | `replace(year=now.year)` raises for 29 February in a common year, after the row was stored and the state cleared, and `except ValueError` answers "wrong date format" | Birth date 29.02.2000 entered during 2025 | The birthday is confirmed as stored, without a day count, as the list skips such dates | not executed | BirthdayHandlers.LeapDayAsWritten | BirthdayHandlers.ProcessBirthDate |
| handlers/places.py:148-149 | `update_data(latitude, longitude)` is followed immediately by `state.clear()`, which discards the location just stored (also at 223-224) | Share a location, then press the places button of an earlier main-menu message: the bot asks for the location again (the types keyboard's own back button goes through `menu:main`, which clears in any case) | The location stays in the data so the places menu offers the place types for it | not executed | PlacesHandlers.LocationForgottenAsWritten | PlacesHandlers.LocationIsRemembered |
| utils/scheduler.py:133-155 | The job matches day and month with today and with tomorrow only, so a 29 February birthday matches no day of a common year | Birth date 29.02.2000, any day of 2025: neither notice is ever sent | Announce the birthday on some day of every year; the model keeps it on 28 February in common years | not executed | Scheduler.LeapDayBirthdayInCommonYear | Scheduler.EveryBirthdayIsAnnounced |

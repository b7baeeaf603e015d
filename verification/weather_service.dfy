/**
 * The presentation rules of services/weather_service.py: the emoji chosen
 * for an OpenWeatherMap icon code, and the five-day forecast, which groups
 * the three-hourly items by calendar day and shows one item per day.
 *
 * The HTTP requests are not part of the model, and neither is the local
 * date of a timestamp: `fromtimestamp(...).strftime("%d.%m")` is the
 * parameter `dayKey`.
 */
module WeatherService {
  import opened Basics

  // ---------------------------------------------------------------------------
  // Icon emoji
  // ---------------------------------------------------------------------------

  /** `icon[:2]`: the condition part of an icon code such as "10d", without the day/night letter. */
  function IconCode(icon: string): (r: string)
    ensures |r| == (if |icon| < 2 then |icon| else 2)
    ensures r <= icon
  {
    if |icon| < 2 then icon else icon[..2]
  }

  /** The condition codes with an emoji of their own. */
  const KnownCodes: set<string> := {"01", "02", "03", "04", "09", "10", "11", "13", "50"}

  /** The emoji of an icon whose code has none. */
  const FallbackEmoji: string := "🌤"

  /** `_get_weather_emoji`: the emoji of the icon's condition code. */
  function WeatherEmoji(icon: string): (r: string)
    ensures r == FallbackEmoji <==> IconCode(icon) !in KnownCodes
    ensures |r| > 0
  {
    var code := IconCode(icon);
    if code == "01" then "☀️"
    else if code == "02" then "⛅"
    else if code == "03" || code == "04" then "☁️"
    else if code == "09" then "🌧"
    else if code == "10" then "🌦"
    else if code == "11" then "⛈"
    else if code == "13" then "❄️"
    else if code == "50" then "🌫"
    else FallbackEmoji
  }

  /** Only the code matters: the day and night variants of an icon share an emoji. */
  lemma EmojiIgnoresSuffix(icon: string, suffix: string)
    requires |icon| >= 2
    ensures WeatherEmoji(icon + suffix) == WeatherEmoji(icon)
  {
    assert (icon + suffix)[..2] == icon[..2];
  }

  /** Scattered ("03") and broken ("04") clouds share the cloud emoji, by day and by night. */
  lemma CloudCodesShareEmoji(suffix: string)
    ensures WeatherEmoji("03" + suffix) == WeatherEmoji("04" + suffix) == "☁️"
  {
    EmojiIgnoresSuffix("03", suffix);
    EmojiIgnoresSuffix("04", suffix);
  }

  // ---------------------------------------------------------------------------
  // Forecast grouping
  // ---------------------------------------------------------------------------

  /** One entry of the forecast `list`. */
  datatype Item = Item(dt: int, temp: real, description: string, icon: string)

  /** One entry of the `days` dict: a date key and its items in arrival order. */
  datatype Day = Day(key: string, items: seq<Item>)

  /** The items of `items` that fall on day `key`, in order. */
  function ItemsOn(items: seq<Item>, dayKey: int -> string, key: string): (r: seq<Item>)
    ensures forall i :: 0 <= i < |r| ==> dayKey(r[i].dt) == key
    ensures forall it :: it in r <==> it in items && dayKey(it.dt) == key
  {
    if |items| == 0 then []
    else
      var prefix := items[..|items| - 1];
      var it := items[|items| - 1];
      assert items == prefix + [it];
      ItemsOn(prefix, dayKey, key) + (if dayKey(it.dt) == key then [it] else [])
  }

  predicate Differ(a: string, b: string) {
    a != b
  }

  /** The distinct date keys of `items` in order of first appearance (the dict's key order). */
  function DayKeys(items: seq<Item>, dayKey: int -> string): (r: seq<string>)
    ensures Pairwise(r, Differ)
    ensures forall k :: k in r <==> exists i :: 0 <= i < |items| && dayKey(items[i].dt) == k
    ensures |r| <= |items|
  {
    if |items| == 0 then []
    else
      var prefix := items[..|items| - 1];
      var k := dayKey(items[|items| - 1].dt);
      var keys := DayKeys(prefix, dayKey);
      assert forall i :: 0 <= i < |prefix| ==> prefix[i] == items[i];
      if k in keys then keys else keys + [k]
  }

  /** Where day `key` sits among the groups, if it has one yet. */
  function DayIndex(days: seq<Day>, key: string): (r: Option<nat>)
    ensures r.Some? ==> r.value < |days| && days[r.value].key == key
    ensures r.None? ==> forall d :: 0 <= d < |days| ==> days[d].key != key
  {
    if |days| == 0 then None
    else if days[0].key == key then Some(0)
    else match DayIndex(days[1..], key)
      case None => None
      case Some(d) => Some(d + 1)
  }

  /** One iteration of the grouping loop: append to the item's day, opening it if new. */
  function AddItem(days: seq<Day>, it: Item, dayKey: int -> string): seq<Day> {
    var key := dayKey(it.dt);
    match DayIndex(days, key)
    case None => days + [Day(key, [it])]
    case Some(d) => days[d := Day(key, days[d].items + [it])]
  }

  /**
   * The `days` dict built by the grouping loop of `format_forecast`: one group
   * per day in order of first appearance, each holding all of that day's items
   * in order.
   */
  function GroupByDay(items: seq<Item>, dayKey: int -> string): (r: seq<Day>)
    ensures GroupsOf(r, items, dayKey)
  {
    if |items| == 0 then []
    else
      var prefix := items[..|items| - 1];
      var it := items[|items| - 1];
      var days := GroupByDay(prefix, dayKey);
      assert prefix + [it] == items;
      AddItemKeepsGroups(days, prefix, it, dayKey);
      AddItem(days, it, dayKey)
  }

  /** One iteration of the loop keeps the groups exact. */
  lemma AddItemKeepsGroups(days: seq<Day>, prefix: seq<Item>, it: Item, dayKey: int -> string)
    requires GroupsOf(days, prefix, dayKey)
    ensures GroupsOf(AddItem(days, it, dayKey), prefix + [it], dayKey)
  {
    match DayIndex(days, dayKey(it.dt))
    case None => GroupsAddNew(days, prefix, it, dayKey);
    case Some(d) => GroupsAddExisting(days, prefix, it, dayKey, d);
  }

  /** The groups are exactly the days in first-appearance order, each holding all of its items in order. */
  predicate GroupsOf(days: seq<Day>, items: seq<Item>, dayKey: int -> string) {
    var keys := DayKeys(items, dayKey);
    && |days| == |keys|
    && forall d :: 0 <= d < |days| ==> days[d].key == keys[d] && days[d].items == ItemsOn(items, dayKey, keys[d])
  }

  lemma ItemsOnAppend(prefix: seq<Item>, it: Item, dayKey: int -> string, key: string)
    ensures ItemsOn(prefix + [it], dayKey, key) == ItemsOn(prefix, dayKey, key) + (if dayKey(it.dt) == key then [it] else [])
  {
    assert (prefix + [it])[..|prefix|] == prefix;
  }

  lemma DayKeysAppend(prefix: seq<Item>, it: Item, dayKey: int -> string)
    ensures var keys := DayKeys(prefix, dayKey);
      DayKeys(prefix + [it], dayKey) == if dayKey(it.dt) in keys then keys else keys + [dayKey(it.dt)]
  {
    assert (prefix + [it])[..|prefix|] == prefix;
  }

  /** A day with no key among the seen ones has no items. */
  lemma NoItemsOnUnseenDay(items: seq<Item>, dayKey: int -> string, key: string)
    requires key !in DayKeys(items, dayKey)
    ensures ItemsOn(items, dayKey, key) == []
  {
  }

  /** An item of a day not seen yet opens a new group at the end. */
  lemma GroupsAddNew(days: seq<Day>, prefix: seq<Item>, it: Item, dayKey: int -> string)
    requires GroupsOf(days, prefix, dayKey) && DayIndex(days, dayKey(it.dt)).None?
    ensures GroupsOf(days + [Day(dayKey(it.dt), [it])], prefix + [it], dayKey)
  {
    var key := dayKey(it.dt);
    var keys := DayKeys(prefix, dayKey);
    var keys' := keys + [key];
    var r := days + [Day(key, [it])];
    assert key !in keys;
    DayKeysAppend(prefix, it, dayKey);
    forall e | 0 <= e < |r|
      ensures r[e].key == keys'[e] && r[e].items == ItemsOn(prefix + [it], dayKey, keys'[e])
    {
      ItemsOnAppend(prefix, it, dayKey, keys'[e]);
      if e == |days| {
        NoItemsOnUnseenDay(prefix, dayKey, key);
      } else {
        assert keys'[e] == keys[e] && keys[e] != key;
        assert r[e] == days[e];
      }
    }
  }

  /** An item of a day already seen goes to the end of that day's group. */
  lemma GroupsAddExisting(days: seq<Day>, prefix: seq<Item>, it: Item, dayKey: int -> string, d: nat)
    requires GroupsOf(days, prefix, dayKey) && DayIndex(days, dayKey(it.dt)) == Some(d)
    ensures GroupsOf(days[d := Day(dayKey(it.dt), days[d].items + [it])], prefix + [it], dayKey)
  {
    var key := dayKey(it.dt);
    var keys := DayKeys(prefix, dayKey);
    var r := days[d := Day(key, days[d].items + [it])];
    assert keys[d] == key;
    assert key in keys;
    DayKeysAppend(prefix, it, dayKey);
    forall e | 0 <= e < |r|
      ensures r[e].key == keys[e] && r[e].items == ItemsOn(prefix + [it], dayKey, keys[e])
    {
      ItemsOnAppend(prefix, it, dayKey, keys[e]);
      if e == d {
        assert r[e].items == ItemsOn(prefix, dayKey, key) + [it];
      } else {
        assert keys[e] != key by {
          if e < d {
            assert Differ(keys[e], keys[d]);
          } else {
            assert Differ(keys[d], keys[e]);
          }
        }
        assert r[e] == days[e];
      }
    }
  }

  /** At most five days are shown. */
  const ForecastDays: nat := 5

  /** One shown line: the date key and the item at the middle of that day's group. */
  datatype Shown = Shown(key: string, item: Item, emoji: string)

  /**
   * `format_forecast`: for each of the first five days in order of first
   * appearance, the item at index `len(items) // 2` of the day's items.
   */
  function Forecast(items: seq<Item>, dayKey: int -> string): (r: seq<Shown>)
    ensures var keys := DayKeys(items, dayKey);
      && |r| == (if |keys| < ForecastDays then |keys| else ForecastDays)
      && forall d :: 0 <= d < |r| ==>
           var group := ItemsOn(items, dayKey, keys[d]);
           && r[d].key == keys[d]
           && |group| > 0
           && r[d].item == group[|group| / 2]
           && r[d].emoji == WeatherEmoji(r[d].item.icon)
  {
    var days := GroupByDay(items, dayKey);
    GroupsNonEmpty(days, items, dayKey);
    var n := if |days| < ForecastDays then |days| else ForecastDays;
    seq(n, d requires 0 <= d < n =>
      var group := days[d].items;
      Shown(days[d].key, group[|group| / 2], WeatherEmoji(group[|group| / 2].icon)))
  }

  /** Every group holds at least the item that opened it. */
  lemma GroupsNonEmpty(days: seq<Day>, items: seq<Item>, dayKey: int -> string)
    requires GroupsOf(days, items, dayKey)
    ensures forall d :: 0 <= d < |days| ==> |days[d].items| > 0
  {
    var keys := DayKeys(items, dayKey);
    forall d | 0 <= d < |days|
      ensures |days[d].items| > 0
    {
      assert keys[d] in keys;
      var i :| 0 <= i < |items| && dayKey(items[i].dt) == keys[d];
      assert items[i] in days[d].items;
    }
  }

  /** Items that arrive later never reorder the days already seen: the key order only grows at the end. */
  lemma {:induction false} DayKeysPrefix(items: seq<Item>, more: seq<Item>, dayKey: int -> string)
    ensures DayKeys(items, dayKey) <= DayKeys(items + more, dayKey)
  {
    if |more| > 0 {
      var all := items + more;
      assert all[..|all| - 1] == items + more[..|more| - 1];
      DayKeysPrefix(items, more[..|more| - 1], dayKey);
    } else {
      assert items + more == items;
    }
  }
}

/**
 * The pagination rule shared by the task list (handlers/tasks.py), the
 * birthday list (handlers/birthdays.py) and the places list
 * (handlers/places.py): ten entries per page, a requested page clamped into
 * range, and the neighbouring pages offered by the navigation buttons.
 */
module Paging {
  import opened Basics

  /** `TASKS_PER_PAGE`, `BIRTHDAYS_PER_PAGE` and `RESULTS_PER_PAGE` are all 10. */
  const PageSize: nat := 10

  /** `(n + PER_PAGE - 1) // PER_PAGE`: the least page count that holds `n` entries. */
  function TotalPages(n: nat): (t: nat)
    ensures t * PageSize >= n
    ensures t > 0 ==> (t - 1) * PageSize < n
    ensures t == 0 <==> n == 0
  {
    (n + PageSize - 1) / PageSize
  }

  /** `max(0, min(page, total_pages - 1))`. */
  function ClampPage(page: int, totalPages: nat): (p: nat)
    ensures totalPages > 0 ==> p < totalPages
    ensures totalPages == 0 ==> p == 0
    ensures 0 <= page < totalPages ==> p == page
    ensures page < 0 ==> p == 0
    ensures totalPages > 0 && page >= totalPages ==> p == totalPages - 1
  {
    if page < 0 || totalPages == 0 then 0
    else if page >= totalPages then totalPages - 1
    else page
  }

  /** `start_idx` of a clamped page. */
  function PageStart(n: nat, page: int): nat {
    ClampPage(page, TotalPages(n)) * PageSize
  }

  /** `min(start_idx + PER_PAGE, n)`. */
  function PageEnd(n: nat, page: int): nat {
    var start := PageStart(n, page);
    if start + PageSize < n then start + PageSize else n
  }

  /** `items[start_idx:end_idx]` for the clamped page. */
  function PageSlice<T>(items: seq<T>, page: int): (r: seq<T>)
    ensures PageStart(|items|, page) <= PageEnd(|items|, page) <= |items|
    ensures r == items[PageStart(|items|, page)..PageEnd(|items|, page)]
    ensures |r| <= PageSize
    ensures |items| > 0 ==> |r| > 0
  {
    var n := |items|;
    var start := PageStart(n, page);
    assert n > 0 ==> start < n by {
      if n > 0 {
        var t := TotalPages(n);
        assert ClampPage(page, t) <= t - 1;
        assert start <= (t - 1) * PageSize;
      }
    }
    items[start..PageEnd(n, page)]
  }

  /** Entry `i` is shown on page `i / PER_PAGE`, at position `i % PER_PAGE`. */
  lemma EntryOnItsPage<T>(items: seq<T>, i: nat)
    requires i < |items|
    ensures var p := i / PageSize;
      && p < TotalPages(|items|)
      && i % PageSize < |PageSlice(items, p)|
      && PageSlice(items, p)[i % PageSize] == items[i]
  {
    var p := i / PageSize;
    var t := TotalPages(|items|);
    assert p * PageSize <= i;
    assert p < t;
    assert ClampPage(p, t) == p;
  }

  /** A page shows only entries that belong to it: slices of different pages do not overlap. */
  lemma PagesDisjoint(n: nat, p: nat, q: nat)
    requires p < q < TotalPages(n)
    ensures PageEnd(n, p) <= PageStart(n, q)
  {
  }

  /** Target of the "previous" button: only when there is an earlier page. */
  function PrevPage(page: nat): (r: Option<nat>)
    ensures r.Some? <==> page > 0
    ensures r.Some? ==> r.value == page - 1
  {
    if page > 0 then Some(page - 1) else None
  }

  /** Target of the "next" button: only when there is a later page. */
  function NextPage(page: nat, totalPages: nat): (r: Option<nat>)
    ensures r.Some? <==> page + 1 < totalPages
    ensures r.Some? ==> r.value == page + 1 && r.value < totalPages
  {
    if page < totalPages - 1 then Some(page + 1) else None
  }
}

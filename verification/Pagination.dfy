/** Cursor pagination of a directory listing: the loop of the workspace endpoint and the loop of the MCP tool. */
module Pagination {
  import opened Common
  import opened FilterMaps

  /** `path` is the path relative to the worktree; `hidden` is a name that starts with a dot; `escapes` is an item that
      resolves outside the worktree or not at all. */
  datatype Item<P> = Item(path: P, hidden: bool, escapes: bool)

  datatype Page<P> = Page(items: seq<Item<P>>, cursor: Option<P>, hasMore: bool)

  datatype Api = Rest | Mcp

  const MAX_LIMIT := 200

  // ---- What a page should hold ----

  /** Both skip hidden items; the MCP tool also skips items that escape. */
  function Shown<P>(api: Api): Item<P> -> Option<Item<P>> {
    (x: Item<P>) => if x.hidden || (api.Mcp? && x.escapes) then None else Some(x)
  }

  function Visible<P>(api: Api, items: seq<Item<P>>): seq<Item<P>> { FilterMap(items, Shown(api)) }

  predicate HasPath<P(==)>(items: seq<Item<P>>, c: P) {
    exists i :: 0 <= i < |items| && items[i].path == c
  }

  /** The items after the first one that the cursor names; none if it names none. */
  function After<P(==)>(items: seq<Item<P>>, cursor: Option<P>): seq<Item<P>> {
    if cursor.None? then items
    else if items == [] then []
    else
      var n := |items| - 1;
      if HasPath(items[..n], cursor.value) then After(items[..n], cursor) + [items[n]] else []
  }

  /** The REST loop applies the cursor to the listing, the MCP loop to the visible part of it. */
  function Remaining<P(==)>(api: Api, items: seq<Item<P>>, cursor: Option<P>): seq<Item<P>> {
    match api
    case Rest => Visible(Rest, After(items, cursor))
    case Mcp => After(Visible(Mcp, items), cursor)
  }

  function Take<T>(s: seq<T>, n: nat): seq<T> { if n <= |s| then s[..n] else s }

  /** A full page is taken to have a successor, whose cursor is its last path. */
  function Close<P>(entries: seq<Item<P>>, limit: nat): Page<P>
    requires limit >= 1
  {
    var hasMore := |entries| == limit;
    Page(entries, if hasMore then Some(entries[|entries| - 1].path) else None, hasMore)
  }

  function PageOf<P(==)>(api: Api, items: seq<Item<P>>, cursor: Option<P>, limit: nat): Page<P>
    requires limit >= 1
  {
    Close(Take(Remaining(api, items, cursor), limit), limit)
  }

  // ---- Growing the listing by one item ----

  lemma AfterMore<P>(items: seq<Item<P>>, x: Item<P>, cursor: Option<P>)
    ensures After(items + [x], cursor)
         == if cursor.None? || HasPath(items, cursor.value) then After(items, cursor) + [x] else []
    ensures cursor.Some? && !HasPath(items, cursor.value) ==> After(items, cursor) == []
  {
    AppendLast(items, x);
    if cursor.Some? && !HasPath(items, cursor.value) { NothingAfter(items, cursor.value); }
  }

  lemma NothingAfter<P>(items: seq<Item<P>>, c: P)
    requires !HasPath(items, c)
    ensures After(items, Some(c)) == []
  {
    if items != [] {
      var n := |items| - 1;
      assert forall i | 0 <= i < n :: items[..n][i] == items[i];
    }
  }

  lemma HasPathMore<P>(items: seq<Item<P>>, x: Item<P>, c: P)
    ensures HasPath(items + [x], c) <==> HasPath(items, c) || x.path == c
  {
    var all := items + [x];
    assert all[|items|] == x;
    if i :| 0 <= i < |items| && items[i].path == c { assert all[i] == items[i]; }
  }

  /** What one more item adds to what remains. */
  lemma RemainingMore<P>(api: Api, items: seq<Item<P>>, x: Item<P>, cursor: Option<P>)
    ensures Remaining(Rest, items + [x], cursor)
         == if (cursor.Some? && !HasPath(items, cursor.value)) || x.hidden then Remaining(Rest, items, cursor)
            else Remaining(Rest, items, cursor) + [x]
    ensures Remaining(Mcp, items + [x], cursor)
         == if x.hidden || x.escapes || (cursor.Some? && !HasPath(Visible(Mcp, items), cursor.value))
             then Remaining(Mcp, items, cursor)
            else Remaining(Mcp, items, cursor) + [x]
  {
    AfterMore(items, x, cursor);
    FilterMapMore(After(items, cursor), x, Shown(Rest));
    FilterMapMore(items, x, Shown(Mcp));
    AfterMore(Visible(Mcp, items), x, cursor);
  }

  lemma NothingRemains<P>(api: Api, cursor: Option<P>)
    ensures Remaining(api, [], cursor) == []
  {
  }

  lemma {:induction false} RemainingGrows<P>(api: Api, items: seq<Item<P>>, n: nat, cursor: Option<P>)
    requires n <= |items|
    ensures Remaining(api, items[..n], cursor) <= Remaining(api, items, cursor)
    decreases |items|
  {
    if n == |items| {
      assert items[..n] == items;
    } else {
      var init, last := items[..|items| - 1], items[|items| - 1];
      RemainingGrows(api, init, n, cursor);
      assert init[..n] == items[..n] && items == init + [last];
      RemainingMore(api, init, last, cursor);
    }
  }

  lemma FullPage<P>(api: Api, items: seq<Item<P>>, n: nat, cursor: Option<P>, limit: nat)
    requires n <= |items|
    requires |Remaining(api, items[..n], cursor)| == limit
    ensures Take(Remaining(api, items, cursor), limit) == Remaining(api, items[..n], cursor)
  {
    RemainingGrows(api, items, n, cursor);
  }

  // ---- The two loops ----

  /** `list_workspace`: the cursor test comes before the hidden filter. */
  method ListWorkspace<P(==)>(items: seq<Item<P>>, cursor: Option<P>, limit: nat) returns (page: Page<P>)
    requires 1 <= limit <= MAX_LIMIT
    ensures page == PageOf(Rest, items, cursor, limit)
  {
    hide Remaining;
    assert Remaining(Rest, [], cursor) == [] by { NothingRemains(Rest, cursor); }
    var entries, skip, i := [], cursor.Some?, 0;
    while i < |items|
      invariant i <= |items| && |entries| < limit
      invariant entries == Remaining(Rest, items[..i], cursor)
      invariant skip <==> cursor.Some? && !HasPath(items[..i], cursor.value)
    {
      var item := items[i];
      TakeOneMore(items, i);
      RemainingMore(Rest, items[..i], item, cursor);
      if cursor.Some? { HasPathMore(items[..i], item, cursor.value); }
      i := i + 1;
      if skip {
        if item.path == cursor.value { skip := false; }
        continue;
      }
      if item.hidden { continue; }
      entries := entries + [item];
      if |entries| >= limit {
        FullPage(Rest, items, i, cursor, limit);
        return Close(entries, limit);
      }
    }
    assert items[..|items|] == items;
    return Close(entries, limit);
  }

  function Clamp(limit: int): (r: nat)
    ensures 1 <= limit <= 200 ==> r == limit
    ensures limit < 1 ==> r == 1
    ensures limit > 200 ==> r == 200
  {
    if limit < 1 then 1 else if limit > MAX_LIMIT then MAX_LIMIT else limit
  }

  /** The list action of `codeplane_workspace`: hidden and escaping items are dropped before the cursor test. */
  method ListForMcp<P(==)>(items: seq<Item<P>>, cursor: Option<P>, limit: int) returns (page: Page<P>)
    ensures page == PageOf(Mcp, items, cursor, Clamp(limit))
  {
    var clamped := Clamp(limit);
    hide Remaining;
    assert Remaining(Mcp, [], cursor) == [] by { NothingRemains<P>(Mcp, cursor); }
    var entries, pastCursor, i := [], cursor.None?, 0;
    while i < |items|
      invariant i <= |items| && |entries| < clamped
      invariant entries == Remaining(Mcp, items[..i], cursor)
      invariant pastCursor <==> cursor.None? || HasPath(Visible(Mcp, items[..i]), cursor.value)
    {
      var item := items[i];
      TakeOneMore(items, i);
      RemainingMore(Mcp, items[..i], item, cursor);
      FilterMapMore(items[..i], item, Shown(Mcp));
      if cursor.Some? { HasPathMore(Visible(Mcp, items[..i]), item, cursor.value); }
      i := i + 1;
      if item.hidden || item.escapes { continue; }
      if !pastCursor {
        if item.path == cursor.value { pastCursor := true; }
        continue;
      }
      entries := entries + [item];
      if |entries| >= clamped {
        FullPage(Mcp, items, i, cursor, clamped);
        return Close(entries, clamped);
      }
    }
    assert items[..|items|] == items;
    return Close(entries, clamped);
  }

  // ---- Following the cursor ----

  /** Names are unique in a directory. */
  ghost predicate DistinctPaths<P>(items: seq<Item<P>>) {
    forall i, j | 0 <= i < j < |items| :: items[i].path != items[j].path
  }

  /** The page that the k-th request of a client receives; it stops at a page without a cursor. */
  function NthPage<P(==)>(api: Api, items: seq<Item<P>>, limit: nat, k: nat): Option<Page<P>>
    requires limit >= 1
  {
    if k == 0 then Some(PageOf(api, items, None, limit))
    else
      match NthPage(api, items, limit, k - 1)
      case None => None
      case Some(previous) => if previous.hasMore then Some(PageOf(api, items, previous.cursor, limit)) else None
  }

  lemma {:induction false} AfterPosition<P>(visible: seq<Item<P>>, m: nat)
    requires DistinctPaths(visible) && 1 <= m <= |visible|
    ensures After(visible, Some(visible[m - 1].path)) == visible[m..]
    decreases |visible|
  {
    var n := |visible| - 1;
    var c := visible[m - 1].path;
    if m == |visible| {
      assert forall i | 0 <= i < n :: visible[..n][i] == visible[i];
    } else {
      assert visible[..n][m - 1] == visible[m - 1];
      AfterPosition(visible[..n], m);
      assert visible[..n][m..] + [visible[n]] == visible[m..];
    }
  }

  lemma HasPathVisible<P>(api: Api, items: seq<Item<P>>, c: P)
    ensures HasPath(Visible(api, items), c) <==> exists i ::
      0 <= i < |items| && items[i].path == c && Shown(api)(items[i]).Some?
  {
    if items != [] {
      var init, last := items[..|items| - 1], items[|items| - 1];
      HasPathVisible(api, init, c);
      HasPathMore(Visible(api, init), last, c);
      assert forall i | 0 <= i < |init| :: init[i] == items[i];
    }
  }

  /** A cursor that names no skipped item cuts the visible part where it cuts the listing. */
  lemma {:induction false} CutCommutes<P>(api: Api, items: seq<Item<P>>, c: P)
    requires forall i | 0 <= i < |items| && items[i].path == c :: Shown(api)(items[i]).Some?
    ensures Visible(api, After(items, Some(c))) == After(Visible(api, items), Some(c))
  {
    if items != [] {
      var init, last := items[..|items| - 1], items[|items| - 1];
      assert forall i | 0 <= i < |init| :: init[i] == items[i];
      CutCommutes(api, init, c);
      HasPathVisible(api, init, c);
      assert items == init + [last];
      CutCommutesMore(api, init, last, c);
    }
  }

  lemma CutCommutesMore<P>(api: Api, init: seq<Item<P>>, last: Item<P>, c: P)
    requires Visible(api, After(init, Some(c))) == After(Visible(api, init), Some(c))
    requires HasPath(Visible(api, init), c) <==> HasPath(init, c)
    ensures Visible(api, After(init + [last], Some(c))) == After(Visible(api, init + [last]), Some(c))
  {
    hide After, HasPath;
    AfterMore(init, last, Some(c));
    FilterMapMore(After(init, Some(c)), last, Shown(api));
    FilterMapMore(init, last, Shown(api));
    AfterMore(Visible(api, init), last, Some(c));
  }

  lemma VisibleIsDistinct<P>(api: Api, items: seq<Item<P>>)
    requires DistinctPaths(items)
    ensures DistinctPaths(Visible(api, items))
  {
    if items != [] {
      var init, last := items[..|items| - 1], items[|items| - 1];
      assert forall i | 0 <= i < |init| :: init[i] == items[i];
      VisibleIsDistinct(api, init);
      HasPathVisible(api, init, last.path);
      assert !HasPath(Visible(api, init), last.path);
    }
  }

  /** The cursor of the m-th visible item leaves the visible items from there on, in either loop. */
  lemma RemainingFromCursor<P>(api: Api, items: seq<Item<P>>, m: nat)
    requires DistinctPaths(items) && 1 <= m <= |Visible(api, items)|
    ensures Remaining(api, items, Some(Visible(api, items)[m - 1].path)) == Visible(api, items)[m..]
  {
    hide After;
    var visible := Visible(api, items);
    var c := visible[m - 1].path;
    VisibleIsDistinct(api, items);
    AfterPosition(visible, m);
    if api.Rest? {
      FilterMapImage(items, Shown<P>(Rest));
      assert visible[m - 1] in visible;
      var i :| 0 <= i < |items| && Shown(Rest)(items[i]) == Some(visible[m - 1]);
      assert forall k | 0 <= k < |items| && items[k].path == c :: k == i;
      CutCommutes(Rest, items, c);
    }
  }

  /** The page that starts at the m-th visible item. */
  function PageAt<P>(visible: seq<Item<P>>, m: nat, limit: nat): Page<P>
    requires m <= |visible| && limit >= 1
  {
    Close(Take(visible[m..], limit), limit)
  }

  lemma NextStart(limit: nat, k: nat)
    requires limit >= 1 && k >= 1
    ensures k * limit == (k - 1) * limit + limit
  {
  }

  /** The k-th request gets the k-th run of `limit` visible items, as long as that start is within them. */
  lemma {:induction false} NthPageIsKthRun<P>(api: Api, items: seq<Item<P>>, limit: nat, k: nat)
    requires DistinctPaths(items) && limit >= 1
    ensures NthPage(api, items, limit, k)
         == if k * limit <= |Visible(api, items)| then Some(PageAt(Visible(api, items), k * limit, limit)) else None
  {
    hide Remaining, Visible, Take;
    var visible := Visible(api, items);
    if k == 0 {
      assert Remaining(api, items, None) == visible by { RemainingFromStart(api, items); }
      assert visible[0..] == visible;
    } else {
      NthPageIsKthRun(api, items, limit, k - 1);
      NextStart(limit, k);
      if (k - 1) * limit <= |visible| { PageAfter(api, items, (k - 1) * limit, limit); }
    }
  }

  lemma RemainingFromStart<P>(api: Api, items: seq<Item<P>>)
    ensures Remaining(api, items, None) == Visible(api, items)
  {
  }

  lemma PageAfter<P>(api: Api, items: seq<Item<P>>, m: nat, limit: nat)
    requires DistinctPaths(items) && limit >= 1 && m <= |Visible(api, items)|
    ensures var visible, page := Visible(api, items), PageAt(Visible(api, items), m, limit);
      && (page.hasMore <==> m + limit <= |visible|)
      && (page.hasMore ==> PageOf(api, items, page.cursor, limit) == PageAt(visible, m + limit, limit))
  {
    hide Remaining;
    var visible := Visible(api, items);
    if m + limit <= |visible| {
      RemainingFromCursor(api, items, m + limit);
      assert visible[m..][..limit][limit - 1] == visible[m + limit - 1];
    }
  }

  /** What the first `k` requests have returned. */
  function Collected<P(==)>(api: Api, items: seq<Item<P>>, limit: nat, k: nat): seq<Item<P>>
    requires limit >= 1
  {
    if k == 0 then []
    else
      match NthPage(api, items, limit, k - 1)
      case None => Collected(api, items, limit, k - 1)
      case Some(page) => Collected(api, items, limit, k - 1) + page.items
  }

  lemma {:induction false} CollectedSoFar<P>(api: Api, items: seq<Item<P>>, limit: nat, k: nat)
    requires DistinctPaths(items) && limit >= 1
    ensures Collected(api, items, limit, k) == Take(Visible(api, items), k * limit)
  {
    hide PageOf, Take, Visible;
    var visible := Visible(api, items);
    if k == 0 {
      TakeNothing(visible);
    } else {
      CollectedSoFar(api, items, limit, k - 1);
      NthPageIsKthRun(api, items, limit, k - 1);
      NextStart(limit, k);
      TakeRun(visible, (k - 1) * limit, limit);
    }
  }

  lemma TakeNothing<T>(s: seq<T>)
    ensures Take(s, 0) == []
  {
  }

  lemma TakeRun<T>(s: seq<T>, m: nat, n: nat)
    ensures Take(s, m + n) == if m <= |s| then Take(s, m) + Take(s[m..], n) else Take(s, m)
  {
  }

  /** From the start, the cursors lead through all visible items, each once and in order, in exactly n / limit + 1
      requests: a last full page is followed by an empty one. */
  lemma CursorsVisitEverything<P>(api: Api, items: seq<Item<P>>, limit: nat)
    requires DistinctPaths(items) && limit >= 1
    ensures var requests := |Visible(api, items)| / limit + 1;
      && Collected(api, items, limit, requests) == Visible(api, items)
      && (forall k | 0 <= k < requests :: NthPage(api, items, limit, k).Some?)
      && (forall k | requests <= k :: NthPage(api, items, limit, k).None?)
  {
    hide NthPage, Collected, Visible;
    var n := |Visible(api, items)|;
    var requests := n / limit + 1;
    CollectedSoFar(api, items, limit, requests);
    Division(n, limit, requests);
    forall k: nat ensures NthPage(api, items, limit, k).Some? <==> k < requests {
      NthPageIsKthRun(api, items, limit, k);
      Division(n, limit, k);
    }
  }

  lemma Division(n: nat, limit: nat, k: nat)
    requires limit >= 1
    ensures k * limit <= n <==> k <= n / limit
  {
    var q := n / limit;
    assert q * limit <= n < q * limit + limit;
    if k <= q {
      assert k * limit <= q * limit;
    } else {
      assert k * limit >= (q + 1) * limit == q * limit + limit;
    }
  }

  // ---- When the two loops agree ----

  /** The cursor names an item that the MCP tool skips, and an item that the endpoint shows comes after it. */
  ghost predicate NamesSkippedBeforeVisible<P>(items: seq<Item<P>>, c: P) {
    exists i, j :: 0 <= i < j < |items| && items[i].path == c && (items[i].hidden || items[i].escapes)
        && !items[j].hidden
  }

  ghost predicate NoneEscapes<P>(items: seq<Item<P>>) {
    forall i | 0 <= i < |items| :: !items[i].escapes
  }

  lemma {:induction false} NoneVisible<P>(items: seq<Item<P>>)
    ensures Visible(Rest, items) == [] <==> forall i | 0 <= i < |items| :: items[i].hidden
  {
    if items != [] {
      var n := |items| - 1;
      NoneVisible(items[..n]);
      assert forall i | 0 <= i < n :: items[..n][i] == items[i];
    }
  }

  /** Past an item that the MCP tool skips, the REST loop goes on, while the MCP loop never finds the cursor. */
  lemma SkippedCursor<P>(items: seq<Item<P>>, i: nat)
    requires DistinctPaths(items) && i < |items| && (items[i].hidden || items[i].escapes)
    ensures Remaining(Rest, items, Some(items[i].path)) == Visible(Rest, items[i + 1..])
    ensures Remaining(Mcp, items, Some(items[i].path)) == []
  {
    AfterPosition(items, i + 1);
    HasPathVisible(Mcp, items, items[i].path);
    NothingAfter(Visible(Mcp, items), items[i].path);
  }

  function Unescaped<P>(): Item<P> -> Option<Item<P>> {
    (x: Item<P>) => if x.escapes then None else Some(x)
  }

  lemma McpDropsEscaping<P>(items: seq<Item<P>>)
    ensures Visible(Mcp, items) == FilterMap(Visible(Rest, items), Unescaped())
  {
    FilterMapCompose(items, Shown<P>(Rest), Unescaped<P>());
    FilterMapSame(items, items, Shown<P>(Mcp), Then(Shown<P>(Rest), Unescaped<P>()));
  }

  /** Dropping the escaping items leaves a page alone exactly when none is on it. */
  lemma SamePageIff<P>(shown: seq<Item<P>>, limit: nat)
    ensures Take(shown, limit) == Take(FilterMap(shown, Unescaped()), limit) <==> NoneEscapes(Take(shown, limit))
  {
    var page, rest := Take(shown, limit), FilterMap(shown, Unescaped());
    if NoneEscapes(page) {
      FilterMapAll(page, Unescaped());
      if limit < |shown| {
        FilterMapPrefix(shown, limit, Unescaped<P>());
      } else {
        assert page == shown;
        assert Take(rest, limit) == rest;
      }
    }
    if page == Take(rest, limit) {
      FilterMapImage(shown, Unescaped<P>());
      forall i | 0 <= i < |page| ensures !page[i].escapes { assert page[i] == rest[i] && rest[i] in rest; }
    }
  }

  /** The two loops give the same page for exactly those cursors that do not name an item skipped by the MCP tool with a
      shown one after it, as long as no item on the endpoint's page escapes the worktree. */
  lemma LoopsAgreeIff<P>(items: seq<Item<P>>, cursor: Option<P>, limit: nat)
    requires DistinctPaths(items) && limit >= 1
    ensures PageOf(Rest, items, cursor, limit) == PageOf(Mcp, items, cursor, limit) <==>
      && (cursor.None? || !NamesSkippedBeforeVisible(items, cursor.value))
      && NoneEscapes(PageOf(Rest, items, cursor, limit).items)
  {
    hide NamesSkippedBeforeVisible, NoneEscapes, After, Visible;
    if i: nat :| cursor.Some? && i < |items| && items[i].path == cursor.value && (items[i].hidden || items[i].escapes) {
      SkippedCursorDisagrees(items, i, limit);
    } else {
      UnskippedCursor(items, cursor);
      SamePageIff(Remaining(Rest, items, cursor), limit);
    }
  }

  lemma UnskippedCursor<P>(items: seq<Item<P>>, cursor: Option<P>)
    requires cursor.Some? ==>
      forall i: nat | i < |items| && items[i].path == cursor.value :: !items[i].hidden && !items[i].escapes
    ensures Remaining(Mcp, items, cursor) == FilterMap(Remaining(Rest, items, cursor), Unescaped())
    ensures cursor.Some? ==> !NamesSkippedBeforeVisible(items, cursor.value)
  {
    McpDropsEscaping(After(items, cursor));
    if cursor.Some? { CutCommutes(Mcp, items, cursor.value); }
  }

  lemma SkippedCursorDisagrees<P>(items: seq<Item<P>>, i: nat, limit: nat)
    requires DistinctPaths(items) && i < |items| && (items[i].hidden || items[i].escapes) && limit >= 1
    ensures var page := PageOf(Rest, items, Some(items[i].path), limit);
      && (page == PageOf(Mcp, items, Some(items[i].path), limit) <==> !NamesSkippedBeforeVisible(items, items[i].path))
      && (!NamesSkippedBeforeVisible(items, items[i].path) ==> NoneEscapes(page.items))
  {
    SkippedCursor(items, i);
    var rest := items[i + 1..];
    NoneVisible(rest);
    if k :| 0 <= k < |rest| && !rest[k].hidden { assert !items[i + 1 + k].hidden; }
    if NamesSkippedBeforeVisible(items, items[i].path) {
      var h, j :| 0 <= h < j < |items| && items[h].path == items[i].path && !items[j].hidden;
      assert h == i && rest[j - i - 1] == items[j];
    }
  }
}

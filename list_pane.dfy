/**
 * What the list pane shows for a view: the items whose name contains the filter
 * (ignoring case), sorted newest first for chats and by name for teams, split into a
 * Pinned and a Recent section, or one of two placeholders when nothing matches.
 */
module ListPane {
  import opened Wrappers
  import opened JsText
  import opened Sorting
  import opened Records

  /** One line of the list: a section header, an item (marked when active) or a placeholder. */
  datatype Row = SectionHeader(title: string) | ItemRow(item: Item, active: bool) | Placeholder(text: string)

  /** `item.name.toLowerCase().includes(filter.toLowerCase())`. */
  predicate Matches(filter: string, it: Item) {
    Contains(Lower(it.ItemName()), Lower(filter))
  }

  /** The chat comparator `(b.timestamp || 0) - (a.timestamp || 0)`: newest first. */
  function NewerFirst(a: Item, b: Item): bool {
    b.SortTime() <= a.SortTime()
  }

  /** The team comparator `a.name.localeCompare(b.name)`, read as code order. */
  function NameOrder(a: Item, b: Item): bool {
    LexLe(a.ItemName(), b.ItemName())
  }

  lemma NewerFirstIsTotalPreorder()
    ensures TotalPreorder(NewerFirst)
  {
  }

  lemma NameOrderIsTotalPreorder()
    ensures TotalPreorder(NameOrder)
  {
    forall a, b ensures NameOrder(a, b) || NameOrder(b, a) {
      LexLeTotal(a.ItemName(), b.ItemName());
    }
    forall a, b, c | NameOrder(a, b) && NameOrder(b, c) ensures NameOrder(a, c) {
      LexLeTransitive(a.ItemName(), b.ItemName(), c.ItemName());
    }
  }

  /** The items that pass the filter, in the order the view sorts them. */
  function ShownItems(view: string, filter: string, chats: seq<Chat>, teams: seq<Team>): seq<Item> {
    var items := Filter(ItemsOf(view, chats, teams), it => Matches(filter, it));
    if view == ChatView then SortBy(items, NewerFirst)
    else if view == TeamsView then SortBy(items, NameOrder)
    else items
  }

  /** `view === "chat" && item.isPinned`. */
  function PinnedItems(view: string, shown: seq<Item>): seq<Item> {
    Filter(shown, (it: Item) => view == ChatView && it.ItemPinned())
  }

  /** `view !== "chat" || !item.isPinned`. */
  function RecentItems(view: string, shown: seq<Item>): seq<Item> {
    Filter(shown, (it: Item) => view != ChatView || !it.ItemPinned())
  }

  /** One row per item, marked when its id is the active id, as `createListItemElement` does. */
  function ItemRows(items: seq<Item>, active: Option<Id>): (r: seq<Row>)
    ensures |r| == |items|
    ensures forall i :: 0 <= i < |r| ==> r[i] == ItemRow(items[i], active == Some(items[i].ItemId()))
  {
    seq(|items|, i requires 0 <= i < |items| => ItemRow(items[i], active == Some(items[i].ItemId())))
  }

  /** A section of the list: its header rows and its item rows, or nothing when it has no items. */
  function Section(header: seq<Row>, items: seq<Item>, active: Option<Id>): seq<Row> {
    if |items| > 0 then header + ItemRows(items, active) else []
  }

  function NoMatchText(view: string, filter: string): string {
    "No " + view + "s found matching \"" + filter + "\"."
  }

  function NoItemsText(view: string): string {
    "No " + view + "s found."
  }

  /** The items of the item rows, in row order. */
  function RowItems(rows: seq<Row>): seq<Item> {
    if rows == [] then [] else (if rows[0].ItemRow? then [rows[0].item] else []) + RowItems(rows[1..])
  }

  lemma {:induction false} RowItemsAppend(a: seq<Row>, b: seq<Row>)
    ensures RowItems(a + b) == RowItems(a) + RowItems(b)
  {
    if a != [] {
      assert (a + b)[0] == a[0] && (a + b)[1..] == a[1..] + b;
      RowItemsAppend(a[1..], b);
      var h := if a[0].ItemRow? then [a[0].item] else [];
      assert RowItems(a + b) == h + (RowItems(a[1..]) + RowItems(b));
    } else {
      assert a + b == b;
    }
  }

  /** An item is among the row items exactly when some item row carries it. */
  lemma {:induction false} RowItemsMembers(rows: seq<Row>, it: Item)
    ensures it in RowItems(rows) <==> exists row :: row in rows && row.ItemRow? && row.item == it
  {
    if rows != [] {
      RowItemsMembers(rows[1..], it);
      assert forall row :: row in rows <==> row == rows[0] || row in rows[1..];
    }
  }

  lemma {:induction false} HeaderHasNoItems(header: seq<Row>)
    requires forall row :: row in header ==> row.SectionHeader?
    ensures RowItems(header) == []
  {
    if header != [] {
      assert header[0] in header;
      assert forall row :: row in header[1..] ==> row in header;
      HeaderHasNoItems(header[1..]);
    }
  }

  lemma {:induction false} ItemRowsItems(items: seq<Item>, active: Option<Id>)
    ensures RowItems(ItemRows(items, active)) == items
  {
    if items != [] {
      assert ItemRows(items, active)[1..] == ItemRows(items[1..], active);
      ItemRowsItems(items[1..], active);
    }
  }

  /** A section's item rows carry exactly its items, each marked when it is active, and no placeholder. */
  lemma SectionRows(header: seq<Row>, items: seq<Item>, active: Option<Id>)
    requires forall row :: row in header ==> row.SectionHeader?
    ensures RowItems(Section(header, items, active)) == items
    ensures forall row :: row in Section(header, items, active) ==> !row.Placeholder?
    ensures forall row :: row in Section(header, items, active) && row.ItemRow? ==>
      (row.active <==> active == Some(row.item.ItemId()))
    ensures forall title :: SectionHeader(title) in Section(header, items, active) <==>
      |items| > 0 && SectionHeader(title) in header
  {
    if |items| > 0 {
      assert forall title :: SectionHeader(title) !in ItemRows(items, active);
      RowItemsAppend(header, ItemRows(items, active));
      HeaderHasNoItems(header);
      ItemRowsItems(items, active);
    }
  }

  /**
   * The rows of the list pane: "Pinned" and its items when any are pinned; then, when
   * any are recent, a "Recent" header (chat view only) and those items; a placeholder
   * instead when no item passes the filter. When items are shown, the item rows are the
   * pinned items followed by the recent ones, so each shown item has one row, and an
   * item row is marked exactly when its id is the active id. The "Pinned" header is
   * there exactly when a pinned item is shown, the "Recent" one exactly when the chat
   * view shows an unpinned item.
   */
  function ListRows(view: string, filter: string, active: Option<Id>, chats: seq<Chat>, teams: seq<Team>): (r: seq<Row>)
    ensures var shown := ShownItems(view, filter, chats, teams);
      shown != [] ==> RowItems(r) == PinnedItems(view, shown) + RecentItems(view, shown)
    ensures var shown := ShownItems(view, filter, chats, teams);
      SectionHeader("Pinned") in r <==> PinnedItems(view, shown) != []
    ensures var shown := ShownItems(view, filter, chats, teams);
      SectionHeader("Recent") in r <==> view == ChatView && RecentItems(view, shown) != []
    ensures forall row :: row in r && row.ItemRow? ==> (row.active <==> active == Some(row.item.ItemId()))
  {
    var shown := ShownItems(view, filter, chats, teams);
    var pinned := PinnedItems(view, shown);
    var recent := RecentItems(view, shown);
    if |shown| == 0 && filter != "" then [Placeholder(NoMatchText(view, filter))]
    else if |shown| == 0 then [Placeholder(NoItemsText(view))]
    else
      var pinnedRows := Section([SectionHeader("Pinned")], pinned, active);
      var recentRows := Section(if view == ChatView then [SectionHeader("Recent")] else [], recent, active);
      SectionRows([SectionHeader("Pinned")], pinned, active);
      SectionRows(if view == ChatView then [SectionHeader("Recent")] else [], recent, active);
      RowItemsAppend(pinnedRows, recentRows);
      assert "Pinned"[0] != "Recent"[0];
      pinnedRows + recentRows
  }

  /** Every item of the view has its own id. */
  predicate UniqueIds(items: seq<Item>) {
    forall i, j :: 0 <= i < j < |items| ==> items[i].ItemId() != items[j].ItemId()
  }

  /** Two positions of `t` hold elements found at two different positions of `s`. */
  lemma TwoPositions(s: seq<Item>, t: seq<Item>, i: nat, j: nat) returns (a: nat, b: nat)
    requires multiset(t) <= multiset(s) && i < j < |t|
    ensures a < |s| && b < |s| && a != b && s[a] == t[i] && s[b] == t[j]
  {
    assert t[i] in multiset(t) && t[j] in multiset(t);
    a :| a < |s| && s[a] == t[i];
    if t[i] != t[j] {
      b :| b < |s| && s[b] == t[j];
    } else {
      var x := t[i];
      assert t == t[..j] + t[j..];
      assert t[..j][i] == x && t[j..][0] == x;
      assert multiset(t)[x] == multiset(t[..j])[x] + multiset(t[j..])[x];
      var rest := s[..a] + s[a + 1..];
      assert s == s[..a] + [x] + s[a + 1..];
      assert multiset(s)[x] == multiset(rest)[x] + 1;
      assert x in multiset(rest);
      var m :| 0 <= m < |rest| && rest[m] == x;
      b := if m < a then m else m + 1;
    }
  }

  /** A list drawn from a list with unique ids, each element at most as often, has unique ids. */
  lemma UniqueIdsSub(s: seq<Item>, t: seq<Item>)
    requires UniqueIds(s) && multiset(t) <= multiset(s)
    ensures UniqueIds(t)
  {
    forall i, j | 0 <= i < j < |t| ensures t[i].ItemId() != t[j].ItemId() {
      var a, b := TwoPositions(s, t, i, j);
      if a < b {
        assert s[a].ItemId() != s[b].ItemId();
      } else {
        assert s[b].ItemId() != s[a].ItemId();
      }
    }
  }

  /** Item rows whose items have unique ids carry different ids. */
  lemma {:induction false} RowIdsUnique(rows: seq<Row>)
    requires UniqueIds(RowItems(rows))
    ensures forall i, j :: 0 <= i < j < |rows| && rows[i].ItemRow? && rows[j].ItemRow? ==>
      rows[i].item.ItemId() != rows[j].item.ItemId()
  {
    if rows != [] {
      var rest := rows[1..];
      var all, tail := RowItems(rows), RowItems(rest);
      assert forall k :: 0 <= k < |tail| ==> tail[k] == all[k + |all| - |tail|];
      RowIdsUnique(rest);
      forall i, j | 0 <= i < j < |rows| && rows[i].ItemRow? && rows[j].ItemRow?
        ensures rows[i].item.ItemId() != rows[j].item.ItemId()
      {
        if i == 0 {
          assert rows[j] in rest;
          RowItemsMembers(rest, rows[j].item);
          var k :| 0 <= k < |tail| && tail[k] == rows[j].item;
          assert all[0] == rows[0].item && all[k + 1] == rows[j].item;
        } else {
          assert rows[i] == rest[i - 1] && rows[j] == rest[j - 1];
        }
      }
    }
  }

  /** When the items of the view have unique ids, at most one row of the list is marked active. */
  lemma OneActiveRow(view: string, filter: string, active: Option<Id>, chats: seq<Chat>, teams: seq<Team>)
    requires UniqueIds(ItemsOf(view, chats, teams))
    ensures var rows := ListRows(view, filter, active, chats, teams);
      forall i, j :: 0 <= i < j < |rows| && rows[i].ItemRow? && rows[j].ItemRow? ==> !(rows[i].active && rows[j].active)
  {
    var rows := ListRows(view, filter, active, chats, teams);
    var shown := ShownItems(view, filter, chats, teams);
    if shown != [] {
      var items := ItemsOf(view, chats, teams);
      var m := (it: Item) => Matches(filter, it);
      SectionsPartition(view, filter, chats, teams);
      ShownAreMatching(view, filter, chats, teams);
      FilterPartition(items, m, (it: Item) => !m(it));
      assert multiset(RowItems(rows)) <= multiset(items);
      UniqueIdsSub(items, RowItems(rows));
      RowIdsUnique(rows);
    }
  }

  /** Some row is marked active exactly when the active id names a shown item. */
  lemma ActiveRowShown(view: string, filter: string, active: Option<Id>, chats: seq<Chat>, teams: seq<Team>)
    ensures var rows := ListRows(view, filter, active, chats, teams);
      (exists row :: row in rows && row.ItemRow? && row.active)
      <==> exists it :: it in ShownItems(view, filter, chats, teams) && active == Some(it.ItemId())
  {
    var rows := ListRows(view, filter, active, chats, teams);
    var shown := ShownItems(view, filter, chats, teams);
    if shown != [] {
      SectionsPartition(view, filter, chats, teams);
      assert multiset(RowItems(rows)) == multiset(shown);
      forall row | row in rows && row.ItemRow? && row.active
        ensures row.item in shown && active == Some(row.item.ItemId())
      {
        RowItemsMembers(rows, row.item);
        assert row.item in multiset(RowItems(rows));
      }
      forall it | it in shown && active == Some(it.ItemId())
        ensures exists row :: row in rows && row.ItemRow? && row.active
      {
        assert it in multiset(RowItems(rows));
        RowItemsMembers(rows, it);
      }
    }
  }

  /**
   * The items shown are exactly the items of the view whose lower-cased name contains
   * the lower-cased filter, each as often as the view holds it.
   */
  lemma ShownAreMatching(view: string, filter: string, chats: seq<Chat>, teams: seq<Team>)
    ensures multiset(ShownItems(view, filter, chats, teams))
         == multiset(Filter(ItemsOf(view, chats, teams), it => Matches(filter, it)))
    ensures forall it :: it in ShownItems(view, filter, chats, teams)
                         <==> it in ItemsOf(view, chats, teams) && Matches(filter, it)
  {
    var items := Filter(ItemsOf(view, chats, teams), it => Matches(filter, it));
    SortByPermutes(items, NewerFirst);
    SortByPermutes(items, NameOrder);
    var shown := ShownItems(view, filter, chats, teams);
    forall it ensures it in shown <==> it in ItemsOf(view, chats, teams) && Matches(filter, it) {
      FilterMembers(ItemsOf(view, chats, teams), it => Matches(filter, it), it);
      assert it in shown <==> it in multiset(shown);
      assert it in items <==> it in multiset(items);
    }
  }

  /** An empty filter shows every item of the view. */
  lemma EmptyFilterShowsAll(view: string, chats: seq<Chat>, teams: seq<Team>)
    ensures multiset(ShownItems(view, "", chats, teams)) == multiset(ItemsOf(view, chats, teams))
  {
    assert Lower("") == "";
    FilterAll(ItemsOf(view, chats, teams), it => Matches("", it));
    ShownAreMatching(view, "", chats, teams);
  }

  /** Chats are listed newest first, a missing timestamp counting as 0; teams by name. */
  lemma ShownOrder(view: string, filter: string, chats: seq<Chat>, teams: seq<Team>)
    ensures view == ChatView ==> Sorted(ShownItems(view, filter, chats, teams), NewerFirst)
    ensures view == TeamsView ==> Sorted(ShownItems(view, filter, chats, teams), NameOrder)
  {
    var items := Filter(ItemsOf(view, chats, teams), it => Matches(filter, it));
    NewerFirstIsTotalPreorder();
    NameOrderIsTotalPreorder();
    SortBySorted(items, NewerFirst);
    SortBySorted(items, NameOrder);
  }

  /** Chats with the same timestamp keep the order they have in the chat list. */
  lemma SameTimeKeepsListOrder(filter: string, chats: seq<Chat>, teams: seq<Team>, t: int)
    ensures Filter(ShownItems(ChatView, filter, chats, teams), (it: Item) => it.SortTime() == t)
         == Filter(Filter(ChatItems(chats), it => Matches(filter, it)), (it: Item) => it.SortTime() == t)
  {
    var items := Filter(ItemsOf(ChatView, chats, teams), it => Matches(filter, it));
    SortByStable(items, NewerFirst, (it: Item) => it.SortTime() == t);
  }

  /**
   * Pinned and Recent split the shown items: together they hold each shown item once,
   * both keep the shown order, Pinned holds only pinned chats, Recent only unpinned ones,
   * and outside the chat view everything is Recent.
   */
  lemma SectionsPartition(view: string, filter: string, chats: seq<Chat>, teams: seq<Team>)
    ensures var shown := ShownItems(view, filter, chats, teams);
      multiset(PinnedItems(view, shown)) + multiset(RecentItems(view, shown)) == multiset(shown)
    ensures var shown := ShownItems(view, filter, chats, teams);
      forall it :: it in PinnedItems(view, shown) ==> view == ChatView && it.ItemPinned()
    ensures var shown := ShownItems(view, filter, chats, teams);
      forall it :: it in RecentItems(view, shown) ==> view != ChatView || !it.ItemPinned()
    ensures var shown := ShownItems(view, filter, chats, teams);
      view == ChatView ==> Sorted(PinnedItems(view, shown), NewerFirst) && Sorted(RecentItems(view, shown), NewerFirst)
    ensures var shown := ShownItems(view, filter, chats, teams);
      view != ChatView ==> PinnedItems(view, shown) == [] && RecentItems(view, shown) == shown
  {
    var shown := ShownItems(view, filter, chats, teams);
    var p := (it: Item) => view == ChatView && it.ItemPinned();
    var q := (it: Item) => view != ChatView || !it.ItemPinned();
    FilterPartition(shown, p, q);
    forall it ensures it in PinnedItems(view, shown) ==> p(it) {
      FilterMembers(shown, p, it);
    }
    forall it ensures it in RecentItems(view, shown) ==> q(it) {
      FilterMembers(shown, q, it);
    }
    ShownOrder(view, filter, chats, teams);
    if view == ChatView {
      FilterSorted(shown, p, NewerFirst);
      FilterSorted(shown, q, NewerFirst);
    } else {
      FilterAll(shown, q);
      assert multiset(PinnedItems(view, shown)) == multiset{};
    }
  }

  /**
   * The placeholder appears exactly when nothing passes the filter; it is the
   * "matching" text exactly when the filter is not empty, and the two texts differ.
   */
  lemma EmptyStates(view: string, filter: string, active: Option<Id>, chats: seq<Chat>, teams: seq<Team>)
    ensures var rows := ListRows(view, filter, active, chats, teams);
      ShownItems(view, filter, chats, teams) == [] <==> exists r :: r in rows && r.Placeholder?
    ensures var rows := ListRows(view, filter, active, chats, teams);
      ShownItems(view, filter, chats, teams) == []
      ==> rows == [Placeholder(if filter != "" then NoMatchText(view, filter) else NoItemsText(view))]
    ensures NoMatchText(view, filter) != NoItemsText(view)
  {
    var shown := ShownItems(view, filter, chats, teams);
    var rows := ListRows(view, filter, active, chats, teams);
    if shown != [] {
      var pinned := PinnedItems(view, shown);
      var recent := RecentItems(view, shown);
      var pinnedRows := Section([SectionHeader("Pinned")], pinned, active);
      var recentRows := Section(if view == ChatView then [SectionHeader("Recent")] else [], recent, active);
      SectionRows([SectionHeader("Pinned")], pinned, active);
      SectionRows(if view == ChatView then [SectionHeader("Recent")] else [], recent, active);
      assert rows == pinnedRows + recentRows;
    } else {
      assert rows[0] in rows;
    }
    PlaceholdersDiffer(view, filter);
  }

  /** The two placeholder texts part at the character after "found". */
  lemma PlaceholdersDiffer(view: string, filter: string)
    ensures NoMatchText(view, filter) != NoItemsText(view)
  {
    var n := |"No " + view + "s found"|;
    assert NoMatchText(view, filter)[n] == ' ' && NoItemsText(view)[n] == '.';
  }
}

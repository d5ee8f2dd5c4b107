/**
 * Start-up: the saved view state is merged over the defaults, the saved data is
 * backfilled (or the seed data is used when nothing was saved), and an active item is
 * chosen when the saved one does not resolve. Storage and decoding are outside the
 * model: each loader takes the record already decoded, or `None` when nothing was stored.
 */
module Loading {
  import opened Wrappers
  import opened Records
  import opened Store
  import opened Engine

  /** The saved view state; a field that was absent or `null` is `None`. */
  datatype SavedState = SavedState(currentView: Option<string>, activeItemId: Option<Id>, listFilter: Option<string>)

  /** The saved data; a collection that was absent is `None`. */
  datatype StoredData = StoredData(
    chats: Option<seq<StoredChat>>,
    teams: Option<seq<Team>>,
    messages: Option<map<Id, seq<StoredMessage>>>)

  /** The chats, teams and message lists as values; the seed data used when nothing was saved is one. */
  datatype Contents = Contents(chats: seq<Chat>, teams: seq<Team>, messages: Messages)

  /**
   * `loadState`: the saved fields replace the defaults, and an empty or missing view
   * falls back to the chat view.
   */
  method LoadState(saved: Option<SavedState>) returns (st: AppState)
    ensures fresh(st)
    ensures saved.None? ==> st.currentView == ChatView && st.activeItemId == None && st.listFilter == ""
    ensures saved.Some? ==>
      && st.currentView == (if saved.value.currentView.GetOr("") == "" then ChatView else saved.value.currentView.value)
      && st.activeItemId == saved.value.activeItemId
      && st.listFilter == saved.value.listFilter.GetOr("")
    ensures st.currentView == LoadedView(saved) && st.activeItemId == LoadedActive(saved)
    ensures st.listFilter == LoadedFilter(saved)
    ensures st.currentView != ""
  {
    st := new AppState();
    if saved.Some? {
      if saved.value.currentView.Some? {
        st.currentView := saved.value.currentView.value;
      }
      st.activeItemId := saved.value.activeItemId;
      if saved.value.listFilter.Some? {
        st.listFilter := saved.value.listFilter.value;
      }
    }
    if st.currentView == "" {
      st.currentView := ChatView;
    }
  }

  /** The view state start-up reads from the saved fields, over the defaults. */
  function LoadedView(saved: Option<SavedState>): string {
    if saved.None? || saved.value.currentView.GetOr("") == "" then ChatView else saved.value.currentView.value
  }

  function LoadedActive(saved: Option<SavedState>): Option<Id> {
    if saved.Some? then saved.value.activeItemId else None
  }

  function LoadedFilter(saved: Option<SavedState>): string {
    if saved.Some? then saved.value.listFilter.GetOr("") else ""
  }

  /** The saved chats, each backfilled, in the same order. */
  function BackfilledChats(stored: seq<StoredChat>): (r: seq<Chat>)
    ensures |r| == |stored| && forall i :: 0 <= i < |r| ==> r[i] == BackfillChat(stored[i])
  {
    seq(|stored|, i requires 0 <= i < |stored| => BackfillChat(stored[i]))
  }

  /** One saved message list, each message backfilled, in the same order. */
  function BackfilledMessages(stored: seq<StoredMessage>): (r: seq<Message>)
    ensures |r| == |stored| && forall i :: 0 <= i < |r| ==> r[i] == BackfillMessage(stored[i])
  {
    seq(|stored|, i requires 0 <= i < |stored| => BackfillMessage(stored[i]))
  }

  /** Every saved message list backfilled, under the same keys. */
  function BackfilledLists(stored: map<Id, seq<StoredMessage>>): (r: Messages)
    ensures r.Keys == stored.Keys && forall k :: k in r ==> r[k] == BackfilledMessages(stored[k])
  {
    map k | k in stored :: BackfilledMessages(stored[k])
  }

  /** The data start-up loads: the saved collections backfilled, missing ones empty, or the seed. */
  function LoadedContents(stored: Option<StoredData>, seed: Contents): Contents {
    if stored.None? then seed
    else Contents(BackfilledChats(stored.value.chats.GetOr([])), stored.value.teams.GetOr([]),
                  BackfilledLists(stored.value.messages.GetOr(map[])))
  }

  /** The active id after loading: kept when it resolves, else the first selectable item's. */
  function ResolvedActive(view: string, active: Option<Id>, chats: seq<Chat>, teams: seq<Team>): Option<Id> {
    if FindActiveItem(view, active, chats, teams).Some? then active else FirstSelectable(ItemsOf(view, chats, teams))
  }

  /** The loop over the saved chats that fills in their missing fields. */
  method BackfillChats(stored: seq<StoredChat>) returns (r: seq<Chat>)
    ensures r == BackfilledChats(stored)
  {
    r := [];
    var i := 0;
    while i < |stored|
      invariant 0 <= i <= |stored|
      invariant r == BackfilledChats(stored[..i])
    {
      r := r + [BackfillChat(stored[i])];
      i := i + 1;
    }
    assert stored[..i] == stored;
  }

  /** The inner loop over one saved message list. */
  method BackfillMessageList(stored: seq<StoredMessage>) returns (r: seq<Message>)
    ensures r == BackfilledMessages(stored)
  {
    r := [];
    var i := 0;
    while i < |stored|
      invariant 0 <= i <= |stored|
      invariant r == BackfilledMessages(stored[..i])
    {
      r := r + [BackfillMessage(stored[i])];
      i := i + 1;
    }
    assert stored[..i] == stored;
  }

  /** The outer loop over every saved message list, in any key order. */
  method BackfillMessageLists(stored: map<Id, seq<StoredMessage>>) returns (r: Messages)
    ensures r == BackfilledLists(stored)
  {
    r := map[];
    var pending := stored.Keys;
    while pending != {}
      invariant pending <= stored.Keys
      invariant r.Keys == stored.Keys - pending
      invariant forall k :: k in r ==> r[k] == BackfilledMessages(stored[k])
      decreases |pending|
    {
      var k :| k in pending;
      var list := BackfillMessageList(stored[k]);
      r := r[k := list];
      pending := pending - {k};
    }
    assert r.Keys == BackfilledLists(stored).Keys;
  }

  /**
   * `loadData`: saved data is backfilled (missing collections become empty), otherwise
   * the seed is used; then, when the active id does not resolve in the current view,
   * the first selectable item becomes active.
   */
  method LoadData(st: AppState, stored: Option<StoredData>, seed: Contents) returns (d: Data)
    modifies st
    ensures fresh(d)
    ensures Contents(d.chats, d.teams, d.messages) == LoadedContents(stored, seed)
    ensures stored.Some? ==>
      && d.chats == BackfilledChats(stored.value.chats.GetOr([]))
      && d.teams == stored.value.teams.GetOr([])
      && d.messages == BackfilledLists(stored.value.messages.GetOr(map[]))
    ensures stored.None? ==> d.chats == seed.chats && d.teams == seed.teams && d.messages == seed.messages
    ensures st.currentView == old(st.currentView) && st.listFilter == old(st.listFilter)
    ensures st.activeItemId == ResolvedActive(st.currentView, old(st.activeItemId), d.chats, d.teams)
    ensures FindActiveItem(st.currentView, old(st.activeItemId), d.chats, d.teams).Some? ==>
      st.activeItemId == old(st.activeItemId)
    ensures FindActiveItem(st.currentView, old(st.activeItemId), d.chats, d.teams).None? ==>
      st.activeItemId == FirstSelectable(ItemsOf(st.currentView, d.chats, d.teams))
  {
    if stored.Some? {
      var chats := BackfillChats(stored.value.chats.GetOr([]));
      var messages := BackfillMessageLists(stored.value.messages.GetOr(map[]));
      d := new Data(chats, stored.value.teams.GetOr([]), messages);
    } else {
      d := new Data(seed.chats, seed.teams, seed.messages);
    }
    if FindActiveItem(st.currentView, st.activeItemId, d.chats, d.teams).None? {
      st.activeItemId := FirstSelectable(ItemsOf(st.currentView, d.chats, d.teams));
    }
  }

  /**
   * After loading, the active id resolves in the current view unless the view has no
   * items or the chosen item's id is the empty string, which is falsy.
   */
  lemma SelectionResolves(view: string, active: Option<Id>, chats: seq<Chat>, teams: seq<Team>)
    ensures var chosen := ResolvedActive(view, active, chats, teams);
      ItemsOf(view, chats, teams) != [] && chosen != Some("") ==> FindActiveItem(view, chosen, chats, teams).Some?
  {
    var items := ItemsOf(view, chats, teams);
    if FindActiveItem(view, active, chats, teams).None? && items != [] {
      var chosen := FirstSelectable(items);
      var k := FirstUnpinnedIndex(items);
      var it := if k >= 0 then items[k] else items[0];
      assert chosen == Some(it.ItemId()) && it in items;
    }
  }

  /**
   * `initApp`: load the view state, load the data, then render, which sorts and sweeps
   * the open chat's list. The view and filter are the saved ones over the defaults, the
   * active id is the saved one when it resolves and the selection rule's pick otherwise,
   * the chats and teams are the loaded ones, and the message lists are the loaded lists
   * as the first render leaves them.
   */
  method InitApp(saved: Option<SavedState>, stored: Option<StoredData>, seed: Contents) returns (st: AppState, d: Data)
    ensures fresh(st) && fresh(d)
    ensures st.currentView == LoadedView(saved) && st.listFilter == LoadedFilter(saved)
    ensures var loaded := LoadedContents(stored, seed);
      && d.chats == loaded.chats && d.teams == loaded.teams
      && st.activeItemId == ResolvedActive(st.currentView, LoadedActive(saved), d.chats, d.teams)
      && d.messages == Rendered(st.currentView, st.activeItemId, d.chats, d.teams, loaded.messages)
    ensures st.currentView != ""
    ensures var items := ItemsOf(st.currentView, d.chats, d.teams);
      items != [] && st.activeItemId != Some("") ==> FindActiveItem(st.currentView, st.activeItemId, d.chats, d.teams).Some?
  {
    st := LoadState(saved);
    d := LoadData(st, stored, seed);
    SelectionResolves(st.currentView, LoadedActive(saved), d.chats, d.teams);
    RenderContentArea(st, d);
  }
}

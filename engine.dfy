/**
 * The `appState` record and the event handlers that change it and the stored data:
 * view switching, item selection, the read-receipt sweep, sending, creating a chat or
 * a team, the simulated reply and the list filter. Each handler runs to completion;
 * rendering is kept only for what it changes in the stored data.
 */
module Engine {
  import opened Wrappers
  import opened JsText
  import opened Sorting
  import opened Records
  import opened Store
  import opened ListPane

  /** The view, the active item and the list filter. */
  class AppState {
    var currentView: string
    var activeItemId: Option<Id>
    var listFilter: string

    /** The defaults: the chat view, nothing active, no filter. */
    constructor ()
      ensures currentView == ChatView && activeItemId == None && listFilter == ""
    {
      currentView := ChatView;
      activeItemId := None;
      listFilter := "";
    }
  }

  // ---------------------------------------------------------------------------
  // Rendering and the sweep

  /**
   * What `renderContentArea` does to the stored data: in the chat view with an active
   * chat, that chat's stored list is sorted in place by timestamp and, when not empty,
   * swept for read receipts.
   */
  method RenderContentArea(st: AppState, d: Data)
    modifies d
    ensures d.messages == Rendered(st.currentView, st.activeItemId, d.chats, d.teams, old(d.messages))
    ensures d.chats == old(d.chats) && d.teams == old(d.teams)
  {
    var activeItem := FindActiveItem(st.currentView, st.activeItemId, d.chats, d.teams);
    if activeItem.Some? && st.currentView == ChatView {
      var id := activeItem.value.ItemId();
      assert OpenChat(st.currentView, st.activeItemId, d.chats, d.teams) == Some(id);
      ShowChat(d, id);
    } else {
      assert OpenChat(st.currentView, st.activeItemId, d.chats, d.teams) == None;
    }
  }

  /**
   * The open-chat branch of `renderContentArea`: the stored list of `id` is sorted
   * by timestamp and, when not empty, swept, which leaves it as `Shown` says.
   */
  method ShowChat(d: Data, id: Id)
    modifies d
    ensures d.messages == if id in old(d.messages) then old(d.messages)[id := Shown(old(d.messages)[id])]
                          else old(d.messages)
    ensures d.chats == old(d.chats) && d.teams == old(d.teams)
  {
    d.SortList(id);
    if |ListAt(d.messages, id)| > 0 {
      var changed := d.SweepList(id);
    } else if id in old(d.messages) {
      assert old(d.messages)[id] == [] && Shown([]) == [];
    }
  }

  /**
   * `markMessagesAsRead`: sweeps the list stored under the chat id and, when that
   * changed something and the chat is the active item, renders the content area.
   */
  method MarkMessagesAsRead(st: AppState, d: Data, chatId: Option<Id>) returns (changed: bool)
    modifies d
    ensures changed <==> HasUnreadSent(ListAt(old(d.messages), MessageKey(chatId)))
    ensures var swept := SweptAt(old(d.messages), MessageKey(chatId));
      d.messages == if changed && st.activeItemId == chatId
                    then Rendered(st.currentView, st.activeItemId, d.chats, d.teams, swept)
                    else swept
    ensures d.chats == old(d.chats) && d.teams == old(d.teams)
  {
    changed := d.SweepList(MessageKey(chatId));
    if changed && st.activeItemId == chatId {
      RenderContentArea(st, d);
    }
  }

  // ---------------------------------------------------------------------------
  // View switching and selection

  /** The rail's test: an unpinned item in the chat view, any item elsewhere. */
  predicate RailAllows(view: string, it: Item) {
    view != ChatView || !it.ItemPinned()
  }

  /**
   * `items.find(...)` with the rail's test: the first item that passes it, or nothing
   * exactly when no item does.
   */
  function FirstAllowed(view: string, items: seq<Item>): (r: Option<Item>)
    ensures r.Some? ==> exists k :: 0 <= k < |items| && items[k] == r.value
                         && RailAllows(view, r.value)
                         && forall j :: 0 <= j < k ==> !RailAllows(view, items[j])
    ensures r.None? <==> forall j :: 0 <= j < |items| ==> !RailAllows(view, items[j])
  {
    if items == [] then None
    else if RailAllows(view, items[0]) then
      // k = 0 witnesses the first ensures.
      assert RailAllows(view, items[0]);
      Some(items[0])
    else
      var r := FirstAllowed(view, items[1..]);
      assert forall j :: 1 <= j < |items| ==> items[j] == items[1..][j - 1];
      r
  }

  /**
   * `items.find(...) || items[0]`: the item the rail selects after a view change. It is
   * the first item that passes the rail's test when one does, else the first item, and
   * nothing only for an empty list.
   */
  function RailPick(view: string, items: seq<Item>): (r: Option<Item>)
    ensures r.None? <==> items == []
    ensures r.Some? ==> r.value in items
    ensures (exists it :: it in items && RailAllows(view, it)) ==> r == FirstAllowed(view, items)
    ensures (forall it :: it in items ==> !RailAllows(view, it)) && items != [] ==> r == Some(items[0])
  {
    var f := FirstAllowed(view, items);
    if f.Some? then f else if items != [] then Some(items[0]) else None
  }

  lemma {:induction false} FirstAllowedInChatView(items: seq<Item>)
    ensures var k := FirstUnpinnedIndex(items);
      FirstAllowed(ChatView, items) == if k >= 0 then Some(items[k]) else None
  {
    if items != [] && items[0].ItemPinned() {
      FirstAllowedInChatView(items[1..]);
      assert forall j :: 1 <= j < |items| ==> items[j] == items[1..][j - 1];
    }
  }

  /**
   * The rail's choice after a view change is the selection rule used on load: the
   * first unpinned item, else the first item, else nothing.
   */
  lemma RailPickIsSelectionRule(view: string, chats: seq<Chat>, teams: seq<Team>)
    ensures var items := ItemsOf(view, chats, teams);
      var r := RailPick(view, items);
      (if r.Some? then Some(r.value.ItemId()) else None) == FirstSelectable(items)
  {
    var items := ItemsOf(view, chats, teams);
    if view == ChatView {
      FirstAllowedInChatView(items);
    } else if items != [] {
      assert !items[0].ItemPinned();
    }
  }

  /**
   * `handleRailClick`: a click on the current view does nothing; any other view becomes
   * current with its first selectable item active and the filter cleared.
   */
  method HandleRailClick(st: AppState, d: Data, view: string)
    modifies st, d
    ensures old(st.currentView) == view ==> unchanged(st) && d.messages == old(d.messages)
    ensures old(st.currentView) != view ==>
      && st.currentView == view
      && st.activeItemId == FirstSelectable(ItemsOf(view, d.chats, d.teams))
      && st.listFilter == ""
      && d.messages == Rendered(view, st.activeItemId, d.chats, d.teams, old(d.messages))
    ensures d.chats == old(d.chats) && d.teams == old(d.teams)
  {
    if st.currentView != view {
      st.currentView := view;
      var items := ItemsOf(view, d.chats, d.teams);
      var firstItem := RailPick(view, items);
      RailPickIsSelectionRule(view, d.chats, d.teams);
      st.activeItemId := if firstItem.Some? then Some(firstItem.value.ItemId()) else None;
      st.listFilter := "";
      RenderContentArea(st, d);
    }
  }

  /**
   * The chats after a click on `itemId` in the chat view: the first chat with that id
   * loses a positive unread count, so it shows no badge; a count of zero or below is
   * left as it is, and nothing else changes.
   */
  function ClearUnread(chats: seq<Chat>, itemId: Id): (r: seq<Chat>)
    ensures |r| == |chats|
    ensures var i := ChatIndex(chats, Some(itemId));
      forall j :: 0 <= j < |r| && j != i ==> r[j] == chats[j]
    ensures var i := ChatIndex(chats, Some(itemId));
      0 <= i ==> && r[i] == chats[i].(unreadCount := r[i].unreadCount)
                 && BadgeLabel(r[i].unreadCount).None?
                 && (chats[i].unreadCount >= 0 ==> r[i].unreadCount == 0)
                 && (chats[i].unreadCount <= 0 ==> r[i] == chats[i])
  {
    var i := ChatIndex(chats, Some(itemId));
    if i > -1 && chats[i].unreadCount > 0 then chats[i := chats[i].(unreadCount := 0)] else chats
  }

  /**
   * `handleListItemClick`: a click on the active item does nothing. Otherwise the item
   * becomes active; in the chat view its unread count is cleared and its list is
   * swept, then the content area is rendered.
   */
  method HandleListItemClick(st: AppState, d: Data, itemId: Id)
    modifies st, d
    ensures old(st.activeItemId) == Some(itemId) ==>
      unchanged(st) && d.chats == old(d.chats) && d.messages == old(d.messages)
    ensures old(st.activeItemId) != Some(itemId) ==>
      && st.activeItemId == Some(itemId)
      && st.currentView == old(st.currentView) && st.listFilter == old(st.listFilter)
    ensures old(st.activeItemId) != Some(itemId) && st.currentView == ChatView ==>
      && d.chats == ClearUnread(old(d.chats), itemId)
      && d.messages == Rendered(ChatView, Some(itemId), d.chats, d.teams, SweptAt(old(d.messages), itemId))
    ensures old(st.activeItemId) != Some(itemId) && st.currentView != ChatView ==>
      d.chats == old(d.chats) && d.messages == old(d.messages)
    ensures d.teams == old(d.teams)
  {
    if st.activeItemId != Some(itemId) {
      st.activeItemId := Some(itemId);
      if st.currentView == ChatView {
        var chatIndex := ChatIndex(d.chats, Some(itemId));
        if chatIndex > -1 && d.chats[chatIndex].unreadCount > 0 {
          d.chats := d.chats[chatIndex := d.chats[chatIndex].(unreadCount := 0)];
        }
        var _ := MarkMessagesAsRead(st, d, Some(itemId));
        RenderedIdempotent(ChatView, Some(itemId), d.chats, d.teams, SweptAt(old(d.messages), itemId));
      }
      RenderContentArea(st, d);
    }
  }

  // ---------------------------------------------------------------------------
  // Sending

  /**
   * The message the send handler builds: sent by "You" to the given chat, with no
   * reactions, and unread, so that it is exactly what a later sweep marks read.
   */
  function SentMessage(id: Id, chatId: Option<Id>, text: string, now: int): (m: Message)
    ensures UnreadSent(m) && ReadReceipt(m) == m.(isRead := true)
    ensures m.sender == LocalSender && m.reactions == []
    ensures m.id == id && m.chatId == chatId && m.text == text && m.timestamp == now
  {
    Message(id, chatId, LocalSender, text, now, Sent, false, [])
  }

  /**
   * `handleSendMessage`: refuses an input that trims to nothing, a falsy active id and
   * any view but chat. Otherwise it adds one sent message with the trimmed text to the
   * active chat and renders the content area.
   */
  method HandleSendMessage(st: AppState, d: Data, input: string, msgId: Id, now: int)
    modifies d
    ensures SendRefused(st.currentView, st.activeItemId, input) ==>
      d.chats == old(d.chats) && d.messages == old(d.messages)
    ensures !SendRefused(st.currentView, st.activeItemId, input) ==>
      var m := SentMessage(msgId, st.activeItemId, Trim(input), now);
      && d.chats == WithMessage(old(d.chats), m)
      && d.messages == Rendered(ChatView, st.activeItemId, d.chats, d.teams, Appended(old(d.messages), m))
    ensures d.teams == old(d.teams)
  {
    var text := Trim(input);
    if text == "" || !Truthy(st.activeItemId) || st.currentView != ChatView {
      return;
    }
    var newMessage := SentMessage(msgId, st.activeItemId, text, now);
    d.AddMessage(newMessage);
    RenderContentArea(st, d);
  }

  /** Adding a message never changes which chat ids exist. */
  lemma WithMessageKeepsIds(chats: seq<Chat>, m: Message, id: Id)
    ensures (exists c :: c in WithMessage(chats, m) && c.id == id) <==> (exists c :: c in chats && c.id == id)
  {
    var r := WithMessage(chats, m);
    if exists c :: c in chats && c.id == id {
      var c :| c in chats && c.id == id;
      var j :| 0 <= j < |chats| && chats[j] == c;
      assert r[j].id == id && r[j] in r;
    }
    if exists c :: c in r && c.id == id {
      var c :| c in r && c.id == id;
      var j :| 0 <= j < |r| && r[j] == c;
      assert chats[j].id == id && chats[j] in chats;
    }
  }

  /**
   * What a send that is not refused leaves in the active chat's list: one more message
   * than before. When the active id names a chat, the render pass has swept the list, so
   * the new message is stored already read, in time order with the others; when it names
   * no chat, the message stays unread at the end.
   */
  lemma SendOutcome(active: Id, chats: seq<Chat>, teams: seq<Team>, msgs: Messages, m: Message)
    requires active != "" && m.chatId == Some(active) && m.kind == Sent
    ensures var r := Rendered(ChatView, Some(active), WithMessage(chats, m), teams, Appended(msgs, m));
      && active in r && |r[active]| == |ListAt(msgs, active)| + 1
      && (forall k :: k in msgs && k != active ==> r[k] == msgs[k])
    ensures var r := Rendered(ChatView, Some(active), WithMessage(chats, m), teams, Appended(msgs, m));
      (exists c :: c in chats && c.id == active) ==>
        && multiset(r[active]) == multiset(Swept(ListAt(msgs, active) + [m]))
        && m.(isRead := true) in r[active]
        && Sorted(r[active], ByTime)
    ensures var r := Rendered(ChatView, Some(active), WithMessage(chats, m), teams, Appended(msgs, m));
      !(exists c :: c in chats && c.id == active) ==> r[active] == ListAt(msgs, active) + [m]
  {
    var chats' := WithMessage(chats, m);
    var appended := Appended(msgs, m);
    var l := ListAt(msgs, active) + [m];
    assert appended[active] == l;
    WithMessageKeepsIds(chats, m, active);
    if exists c :: c in chats && c.id == active {
      assert OpenChat(ChatView, Some(active), chats', teams) == Some(active);
      ShownProperties(l);
      assert Swept(l)[|l| - 1] == m.(isRead := true);
      assert m.(isRead := true) in multiset(Swept(l));
    }
  }

  // ---------------------------------------------------------------------------
  // Creating a chat or a team

  /** The placeholder avatar of a new item: a colour and the name's first letter in capitals. */
  function AvatarUrl(colour: string, name: string): (r: string)
    requires name != ""
    ensures StartsWith(r, "https://via.placeholder.com/40/" + colour + "/fff?text=")
    ensures |r| == |"https://via.placeholder.com/40/" + colour + "/fff?text="| + 1
    ensures r[|r| - 1] == UpperChar(name[0]) && !('a' <= r[|r| - 1] <= 'z')
  {
    "https://via.placeholder.com/40/" + colour + "/fff?text=" + [UpperChar(name[0])]
  }

  /**
   * The chat the new-item handler creates: not pinned, offline, without a badge, with
   * the creation note as its preview, and sorted as of its creation time.
   */
  function NewChat(id: Id, name: string, avatar: string, now: int): (c: Chat)
    ensures c.id == id && c.name == name && c.avatar == avatar
    ensures !ChatItem(c).ItemPinned() && ChatItem(c).SortTime() == now
    ensures BadgeLabel(c.unreadCount).None? && c.unreadCount == 0
    ensures c.status == "offline" && c.lastMessagePreview == "Chat created."
  {
    Chat(id, name, avatar, "Chat created.", Some(now), false, "offline", 0)
  }

  /**
   * The effect of creating an item named `name`: a new chat with an empty list (chat
   * view), a new team (teams view) or nothing at all (any other view); the new id
   * becomes active in every case, and the render that follows changes nothing.
   */
  method CreateItem(st: AppState, d: Data, name: string, newId: Id, avatar: string, now: int)
    modifies st, d
    ensures st.activeItemId == Some(newId)
    ensures st.currentView == old(st.currentView) && st.listFilter == old(st.listFilter)
    ensures st.currentView == ChatView ==>
      && d.chats == old(d.chats) + [NewChat(newId, name, avatar, now)]
      && d.messages == old(d.messages)[newId := []]
      && d.teams == old(d.teams)
    ensures st.currentView == TeamsView ==>
      d.teams == old(d.teams) + [Team(newId, name, avatar)]
      && d.chats == old(d.chats) && d.messages == old(d.messages)
    ensures st.currentView != ChatView && st.currentView != TeamsView ==>
      d.chats == old(d.chats) && d.teams == old(d.teams) && d.messages == old(d.messages)
  {
    if st.currentView == ChatView {
      d.chats := d.chats + [NewChat(newId, name, avatar, now)];
      d.messages := d.messages[newId := []];
    } else if st.currentView == TeamsView {
      d.teams := d.teams + [Team(newId, name, avatar)];
    }
    st.activeItemId := Some(newId);
    ghost var before := d.messages;
    if st.currentView == ChatView {
      RenderedEmptyList(st.currentView, st.activeItemId, d.chats, d.teams, d.messages, newId);
    } else {
      assert OpenChat(st.currentView, st.activeItemId, d.chats, d.teams) == None;
    }
    RenderContentArea(st, d);
    assert d.messages == before;
  }

  /**
   * `handleNewItem`: a cancelled or blank answer does nothing; otherwise the trimmed
   * answer names the new item.
   */
  method HandleNewItem(st: AppState, d: Data, answer: Option<string>, newId: Id, colour: string, now: int)
    modifies st, d
    ensures answer.None? || Trim(answer.value) == "" ==>
      unchanged(st) && d.chats == old(d.chats) && d.teams == old(d.teams) && d.messages == old(d.messages)
    ensures answer.Some? && Trim(answer.value) != "" ==>
      var name := Trim(answer.value);
      var avatar := AvatarUrl(colour, name);
      && st.activeItemId == Some(newId)
      && st.currentView == old(st.currentView) && st.listFilter == old(st.listFilter)
      && (st.currentView == ChatView ==>
            && d.chats == old(d.chats) + [NewChat(newId, name, avatar, now)]
            && d.messages == old(d.messages)[newId := []]
            && d.teams == old(d.teams))
      && (st.currentView == TeamsView ==>
            d.teams == old(d.teams) + [Team(newId, name, avatar)]
            && d.chats == old(d.chats) && d.messages == old(d.messages))
      && (st.currentView != ChatView && st.currentView != TeamsView ==>
            d.chats == old(d.chats) && d.teams == old(d.teams) && d.messages == old(d.messages))
  {
    if answer.Some? && answer.value != "" {
      var newItemName := Trim(answer.value);
      if newItemName == "" {
        return;
      }
      var avatar := AvatarUrl(colour, newItemName);
      CreateItem(st, d, newItemName, newId, avatar, now);
    } else if answer.Some? {
      assert Trim(answer.value) == "";
    }
  }

  /**
   * A new chat whose id no chat had before is the active item right after it is
   * created, and it is listed under Recent whenever its name passes the filter.
   */
  lemma NewChatIsSelectedAndRecent(filter: string, chats: seq<Chat>, teams: seq<Team>, c: Chat)
    requires c.id != "" && !c.isPinned
    requires forall j :: 0 <= j < |chats| ==> chats[j].id != c.id
    requires Matches(filter, ChatItem(c))
    ensures FindActiveItem(ChatView, Some(c.id), chats + [c], teams) == Some(ChatItem(c))
    ensures ChatItem(c) in RecentItems(ChatView, ShownItems(ChatView, filter, chats + [c], teams))
  {
    var all := chats + [c];
    var items := ChatItems(all);
    assert items[|chats|] == ChatItem(c);
    assert forall j :: 0 <= j < |chats| ==> items[j].ItemId() != c.id;
    ShownAreMatching(ChatView, filter, all, teams);
    var shown := ShownItems(ChatView, filter, all, teams);
    assert ChatItem(c) in shown;
    FilterMembers(shown, (it: Item) => ChatView != ChatView || !it.ItemPinned(), ChatItem(c));
  }

  // ---------------------------------------------------------------------------
  // The simulated reply

  /** What the simulate button captures at click time: the active chat. */
  datatype PendingReply = PendingReply(chat: Chat)

  /**
   * `handleSimulateReceive` up to its timer: with a truthy active id in the chat view
   * that resolves to a chat, it captures the chat `find` returns, the first with that
   * id; otherwise nothing happens.
   */
  method HandleSimulateReceive(st: AppState, d: Data) returns (pending: Option<PendingReply>)
    ensures pending.Some? <==>
      Truthy(st.activeItemId) && st.currentView == ChatView
      && FindActiveItem(st.currentView, st.activeItemId, d.chats, d.teams).Some?
    ensures pending.Some? ==>
      pending.value.chat in d.chats && Some(pending.value.chat.id) == st.activeItemId
    ensures pending.Some? ==>
      FindActiveItem(st.currentView, st.activeItemId, d.chats, d.teams) == Some(ChatItem(pending.value.chat))
  {
    if !Truthy(st.activeItemId) || st.currentView != ChatView {
      return None;
    }
    var activeChat := FindActiveItem(st.currentView, st.activeItemId, d.chats, d.teams);
    if activeChat.None? {
      return None;
    }
    pending := Some(PendingReply(activeChat.value.chat));
  }

  function ReplyText(timeLabel: string): string {
    "Simulated reply at " + timeLabel + ". *Sometimes* using markdown!"
  }

  /**
   * The message built when the reply arrives: its chat id is the id active at arrival,
   * and it counts as read when that id is the captured chat's.
   */
  function ArrivedMessage(p: PendingReply, activeNow: Option<Id>, id: Id, now: int, timeLabel: string): (m: Message)
    ensures m.chatId == activeNow
    ensures m.isRead <==> activeNow == Some(p.chat.id)
    ensures m.kind == Received && m.sender == p.chat.name
  {
    Message(id, activeNow, p.chat.name, ReplyText(timeLabel), now, Received, activeNow == Some(p.chat.id), [])
  }

  /**
   * The body of the reply timer, as written: the reply is filed under whatever id is
   * active when it arrives, so the test "not the active chat" that would raise an
   * unread count can never hold and no unread count changes; the sweep and the
   * render run instead.
   */
  method ReplyArrives(st: AppState, d: Data, p: PendingReply, msgId: Id, now: int, timeLabel: string)
    modifies d
    ensures var m := ArrivedMessage(p, st.activeItemId, msgId, now, timeLabel);
      && d.chats == WithMessage(old(d.chats), m)
      && d.messages == Rendered(st.currentView, st.activeItemId, d.chats, d.teams,
                                SweptAt(Appended(old(d.messages), m), MessageKey(st.activeItemId)))
    ensures |d.chats| == |old(d.chats)|
    ensures forall j :: 0 <= j < |d.chats| ==> d.chats[j].unreadCount == old(d.chats)[j].unreadCount
    ensures d.teams == old(d.teams)
  {
    var simulatedMessage := ArrivedMessage(p, st.activeItemId, msgId, now, timeLabel);
    d.AddMessage(simulatedMessage);
    if st.activeItemId != simulatedMessage.chatId {
      assert false;
    } else {
      var _ := MarkMessagesAsRead(st, d, simulatedMessage.chatId);
      RenderedIdempotent(st.currentView, st.activeItemId, d.chats, d.teams,
                         SweptAt(Appended(old(d.messages), simulatedMessage), MessageKey(st.activeItemId)));
    }
    RenderContentArea(st, d);
  }

  /** The chats after the unread count of the captured chat is raised by one. */
  function BumpUnread(chats: seq<Chat>, chatId: Id): (r: seq<Chat>)
    ensures |r| == |chats|
    ensures var i := ChatIndex(chats, Some(chatId));
      forall j :: 0 <= j < |r| && j != i ==> r[j] == chats[j]
    ensures var i := ChatIndex(chats, Some(chatId));
      0 <= i ==> r[i] == chats[i].(unreadCount := chats[i].unreadCount + 1)
  {
    var i := ChatIndex(chats, Some(chatId));
    if i > -1 then chats[i := chats[i].(unreadCount := chats[i].unreadCount + 1)] else chats
  }

  /** The unread-count step of the intended reply timer, on the stored chats. */
  method RaiseUnread(d: Data, chatId: Id)
    modifies d
    ensures d.chats == BumpUnread(old(d.chats), chatId)
    ensures d.messages == old(d.messages) && d.teams == old(d.teams)
  {
    var chatIndex := ChatIndex(d.chats, Some(chatId));
    if chatIndex > -1 {
      d.chats := d.chats[chatIndex := d.chats[chatIndex].(unreadCount := d.chats[chatIndex].unreadCount + 1)];
    }
  }

  /**
   * The reply timer as evidently intended: the reply is filed under the chat captured at
   * click time, and when that chat is no longer active its unread count rises by one.
   */
  method IntendedReplyArrives(st: AppState, d: Data, p: PendingReply, msgId: Id, now: int, timeLabel: string)
    modifies d
    ensures var m := ArrivedMessage(p, st.activeItemId, msgId, now, timeLabel).(chatId := Some(p.chat.id));
      var added := Appended(old(d.messages), m);
      && (st.activeItemId != Some(p.chat.id) ==>
            d.chats == BumpUnread(WithMessage(old(d.chats), m), p.chat.id)
            && d.messages == Rendered(st.currentView, st.activeItemId, d.chats, d.teams, added))
      && (st.activeItemId == Some(p.chat.id) ==>
            d.chats == WithMessage(old(d.chats), m)
            && d.messages == Rendered(st.currentView, st.activeItemId, d.chats, d.teams, SweptAt(added, p.chat.id)))
    ensures d.teams == old(d.teams)
  {
    var simulatedMessage := ArrivedMessage(p, st.activeItemId, msgId, now, timeLabel).(chatId := Some(p.chat.id));
    d.AddMessage(simulatedMessage);
    ghost var added := d.messages;
    assert added == Appended(old(d.messages), simulatedMessage);
    if st.activeItemId != simulatedMessage.chatId {
      RaiseUnread(d, p.chat.id);
    } else {
      var _ := MarkMessagesAsRead(st, d, simulatedMessage.chatId);
      RenderedIdempotent(st.currentView, st.activeItemId, d.chats, d.teams, SweptAt(added, p.chat.id));
    }
    RenderContentArea(st, d);
  }

  // ---------------------------------------------------------------------------
  // The list filter

  /** `handleListFilterChange`: the filter becomes the search box's text. */
  method HandleListFilterChange(st: AppState, value: string)
    modifies st
    ensures st.listFilter == value
    ensures st.currentView == old(st.currentView) && st.activeItemId == old(st.activeItemId)
  {
    st.listFilter := value;
  }

  /** `clearListFilter`: empties the search box and applies the empty filter. */
  method ClearListFilter(st: AppState)
    modifies st
    ensures st.listFilter == ""
    ensures st.currentView == old(st.currentView) && st.activeItemId == old(st.activeItemId)
  {
    HandleListFilterChange(st, "");
  }
}

/**
 * The `data` record: the chats, the teams and the message lists keyed by chat id,
 * with the functions that specify how a message is added, how a chat's list is swept
 * for read receipts and what rendering the chat view does to the stored lists.
 */
module Store {
  import opened Wrappers
  import opened Sorting
  import opened Records

  /** The message lists, keyed by the chat id they belong to. */
  type Messages = map<Id, seq<Message>>

  /** The object key a chat id is stored under: JavaScript turns a `null` key into "null". */
  function MessageKey(chatId: Option<Id>): Id {
    chatId.GetOr("null")
  }

  /** `data.messages[key] || []`. */
  function ListAt(msgs: Messages, key: Id): seq<Message> {
    if key in msgs then msgs[key] else []
  }

  /**
   * The message table after `m` is added: the list of its chat, created empty when
   * absent, ends with `m` after everything it held before; no other list changes.
   */
  function Appended(msgs: Messages, m: Message): (r: Messages)
    ensures r.Keys == msgs.Keys + {MessageKey(m.chatId)}
    ensures var l := r[MessageKey(m.chatId)];
      |l| == |ListAt(msgs, MessageKey(m.chatId))| + 1
      && l[|l| - 1] == m && l[..|l| - 1] == ListAt(msgs, MessageKey(m.chatId))
    ensures forall k :: k in msgs && k != MessageKey(m.chatId) ==> r[k] == msgs[k]
  {
    var key := MessageKey(m.chatId);
    var l := ListAt(msgs, key) + [m];
    assert l[..|l| - 1] == ListAt(msgs, key);
    msgs[key := l]
  }

  /**
   * The chats after `m` is added: the first chat whose id is the message's chat id
   * gets the preview of `m` and the timestamp of `m`; its unread count and every
   * other chat stay as they were. A message whose chat id matches no chat changes nothing.
   */
  function WithMessage(chats: seq<Chat>, m: Message): (r: seq<Chat>)
    ensures |r| == |chats|
    ensures var i := ChatIndex(chats, m.chatId);
      forall j :: 0 <= j < |r| && j != i ==> r[j] == chats[j]
    ensures var i := ChatIndex(chats, m.chatId);
      0 <= i ==> && r[i].lastMessagePreview == Preview(m.sender, m.text)
                 && r[i].timestamp == Some(m.timestamp)
                 && r[i] == chats[i].(lastMessagePreview := r[i].lastMessagePreview,
                                      timestamp := r[i].timestamp)
    ensures forall j :: 0 <= j < |r| ==> r[j].unreadCount == chats[j].unreadCount
  {
    var i := ChatIndex(chats, m.chatId);
    if i < 0 then chats
    else chats[i := chats[i].(lastMessagePreview := Preview(m.sender, m.text),
                              timestamp := Some(m.timestamp))]
  }

  /** The message table after the read-receipt sweep of one key; an absent list stays absent. */
  function SweptAt(msgs: Messages, key: Id): (r: Messages)
    ensures r.Keys == msgs.Keys
    ensures forall k :: k in msgs && k != key ==> r[k] == msgs[k]
    ensures key in msgs ==> r[key] == Swept(msgs[key])
  {
    if key in msgs then msgs[key := Swept(msgs[key])] else msgs
  }

  /** The list the chat view shows for the active chat: sorted by time, then swept. */
  function Shown(ms: seq<Message>): seq<Message> {
    Swept(SortBy(ms, ByTime))
  }

  /** The id of the chat the content area shows, when the chat view has an active chat. */
  function OpenChat(view: string, active: Option<Id>, chats: seq<Chat>, teams: seq<Team>): (r: Option<Id>)
    ensures r.Some? ==> view == ChatView && active == Some(r.value) && Truthy(active)
                        && exists c :: c in chats && c.id == r.value
    ensures view == ChatView && Truthy(active) && (exists c :: c in chats && c.id == active.value)
            ==> r == active
  {
    var it := FindActiveItem(view, active, chats, teams);
    if view == ChatView && it.Some? then
      assert it.value.ChatItem?;
      Some(it.value.ItemId())
    else
      None
  }

  /**
   * The message table after the content area is rendered: in the chat view, the
   * active chat's stored list is sorted in place by timestamp and then swept; no
   * other list changes.
   */
  function Rendered(view: string, active: Option<Id>, chats: seq<Chat>, teams: seq<Team>, msgs: Messages): (r: Messages)
    ensures r.Keys == msgs.Keys
    ensures forall k :: k in msgs && OpenChat(view, active, chats, teams) != Some(k) ==> r[k] == msgs[k]
    ensures forall k :: k in msgs && OpenChat(view, active, chats, teams) == Some(k) ==> r[k] == Shown(msgs[k])
  {
    var open := OpenChat(view, active, chats, teams);
    if open.Some? && open.value in msgs then msgs[open.value := Shown(msgs[open.value])] else msgs
  }

  lemma SweptCons(x: Message, s: seq<Message>)
    ensures Swept([x] + s) == [ReadReceipt(x)] + Swept(s)
  {
  }

  lemma {:induction false} InsertCommutesWithSweep(x: Message, s: seq<Message>)
    ensures Swept(Insert(x, s, ByTime)) == Insert(ReadReceipt(x), Swept(s), ByTime)
  {
    if s != [] && !ByTime(x, s[0]) {
      InsertCommutesWithSweep(x, s[1..]);
      SweptCons(s[0], Insert(x, s[1..], ByTime));
      assert Swept(s)[1..] == Swept(s[1..]);
    }
  }

  /** Sweeping and the time sort commute, because the sweep never moves a timestamp. */
  lemma {:induction false} SortCommutesWithSweep(s: seq<Message>)
    ensures Swept(SortBy(s, ByTime)) == SortBy(Swept(s), ByTime)
  {
    if s != [] {
      SortCommutesWithSweep(s[1..]);
      InsertCommutesWithSweep(s[0], SortBy(s[1..], ByTime));
      assert Swept(s)[1..] == Swept(s[1..]);
    }
  }

  /**
   * The shown list is in time order, holds the swept messages (each as often as
   * before), has every sent message read, and is the stable time sort of the swept list.
   */
  lemma ShownProperties(ms: seq<Message>)
    ensures var r := Shown(ms);
      && Sorted(r, ByTime)
      && multiset(r) == multiset(Swept(ms))
      && r == SortBy(Swept(ms), ByTime)
      && forall i :: 0 <= i < |r| && r[i].kind == Sent ==> r[i].isRead
  {
    ByTimeIsTotalPreorder();
    SortCommutesWithSweep(ms);
    SortBySorted(Swept(ms), ByTime);
    SortByPermutes(Swept(ms), ByTime);
  }

  /** Showing a shown list again changes nothing. */
  lemma ShownIdempotent(ms: seq<Message>)
    ensures Shown(Shown(ms)) == Shown(ms)
  {
    var r := Shown(ms);
    ShownProperties(ms);
    SortBySortedIsIdentity(r, ByTime);
    SweptIdempotent(SortBy(ms, ByTime));
  }

  /**
   * Rendering twice is rendering once: the re-render that the sweep triggers when it
   * changed something finds the list sorted and nothing left to mark.
   */
  lemma RenderedIdempotent(view: string, active: Option<Id>, chats: seq<Chat>, teams: seq<Team>, msgs: Messages)
    ensures Rendered(view, active, chats, teams, Rendered(view, active, chats, teams, msgs))
         == Rendered(view, active, chats, teams, msgs)
  {
    var open := OpenChat(view, active, chats, teams);
    if open.Some? && open.value in msgs {
      ShownIdempotent(msgs[open.value]);
    }
  }

  /** Rendering leaves an open chat whose list is empty as it is. */
  lemma RenderedEmptyList(view: string, active: Option<Id>, chats: seq<Chat>, teams: seq<Team>, msgs: Messages, key: Id)
    requires key in msgs && msgs[key] == []
    requires forall k :: k in msgs && k != key ==> OpenChat(view, active, chats, teams) != Some(k)
    ensures Rendered(view, active, chats, teams, msgs) == msgs
  {
  }

  /**
   * The stored record: the chats in list order, the teams, and the message lists.
   * Handlers change it in place.
   */
  class Data {
    var chats: seq<Chat>
    var teams: seq<Team>
    var messages: Messages

    constructor (chats: seq<Chat>, teams: seq<Team>, messages: Messages)
      ensures this.chats == chats && this.teams == teams && this.messages == messages
    {
      this.chats := chats;
      this.teams := teams;
      this.messages := messages;
    }

    /** `addMessageToData`: appends the message and refreshes its chat's preview and timestamp. */
    method AddMessage(m: Message)
      modifies this
      ensures messages == Appended(old(messages), m)
      ensures chats == WithMessage(old(chats), m)
      ensures teams == old(teams)
    {
      var key := MessageKey(m.chatId);
      if key !in messages {
        messages := messages[key := []];
      }
      messages := messages[key := messages[key] + [m]];
      var i := ChatIndex(chats, m.chatId);
      if i > -1 {
        var preview := Preview(m.sender, m.text);
        chats := chats[i := chats[i].(lastMessagePreview := preview, timestamp := Some(m.timestamp))];
      }
    }

    /**
     * The sweep loop of `markMessagesAsRead`: marks every unread sent message of one
     * list read and reports whether it marked any.
     */
    method SweepList(key: Id) returns (changed: bool)
      modifies this
      ensures messages == SweptAt(old(messages), key)
      ensures changed <==> HasUnreadSent(ListAt(old(messages), key))
      ensures chats == old(chats) && teams == old(teams)
    {
      var ms := ListAt(messages, key);
      var out := ms;
      changed := false;
      var i := 0;
      while i < |ms|
        invariant 0 <= i <= |ms| && |out| == |ms|
        invariant forall j :: 0 <= j < i ==> out[j] == ReadReceipt(ms[j])
        invariant forall j :: i <= j < |ms| ==> out[j] == ms[j]
        invariant changed <==> exists j :: 0 <= j < i && UnreadSent(ms[j])
      {
        if ms[i].kind == Sent && !ms[i].isRead {
          out := out[i := ms[i].(isRead := true)];
          changed := true;
        }
        i := i + 1;
      }
      assert out == Swept(ms);
      if key in messages {
        messages := messages[key := out];
      }
    }

    /** The in-place `sort` by timestamp of one stored list; an absent list stays absent. */
    method SortList(key: Id)
      modifies this
      ensures key in old(messages) ==> messages == old(messages)[key := SortBy(old(messages)[key], ByTime)]
      ensures key !in old(messages) ==> messages == old(messages)
      ensures chats == old(chats) && teams == old(teams)
    {
      if key in messages {
        messages := messages[key := SortBy(messages[key], ByTime)];
      }
    }
  }
}

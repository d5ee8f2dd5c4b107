/**
 * The records the chat/teams engine keeps (chats, teams, messages) and the pure
 * functions over them: the load-time backfill of missing fields, the preview derived
 * from a message, the read-receipt sweep, item lookup, the selection rule, the
 * unread badge and the send-enabled test.
 */
module Records {
  import opened Wrappers
  import opened JsText
  import opened Sorting

  type Id = string

  const ChatView: string := "chat"
  const TeamsView: string := "teams"
  /** The sender name of every message the local user writes. */
  const LocalSender: string := "You"
  /** How many characters of a message the chat-list preview quotes. */
  const PreviewLength: nat := 40

  datatype MessageType = Sent | Received

  datatype Reaction = Reaction(kind: string, count: int, users: seq<string>)

  /** A message; `chatId` is `None` for a JavaScript `null`. */
  datatype Message = Message(
    id: Id,
    chatId: Option<Id>,
    sender: string,
    text: string,
    timestamp: int,
    kind: MessageType,
    isRead: bool,
    reactions: seq<Reaction>)

  /** A chat; `timestamp` is `None` when the stored record has none. */
  datatype Chat = Chat(
    id: Id,
    name: string,
    avatar: string,
    lastMessagePreview: string,
    timestamp: Option<int>,
    isPinned: bool,
    status: string,
    unreadCount: int)

  datatype Team = Team(id: Id, name: string, avatar: string)

  /** An entry of the list pane: a chat in the chat view, a team in every other view. */
  datatype Item = ChatItem(chat: Chat) | TeamItem(team: Team) {

    function ItemId(): Id {
      match this
      case ChatItem(c) => c.id
      case TeamItem(t) => t.id
    }

    function ItemName(): string {
      match this
      case ChatItem(c) => c.name
      case TeamItem(t) => t.name
    }

    /** `item.isPinned`; a team has no such field, which reads as false. */
    predicate ItemPinned() {
      ChatItem? && chat.isPinned
    }

    /** `item.timestamp || 0`. */
    function SortTime(): int {
      if ChatItem? && chat.timestamp.Some? then chat.timestamp.value else 0
    }
  }

  // ---------------------------------------------------------------------------
  // Stored records and the load-time backfill

  /** A chat as decoded from storage: the fields added in later versions may be missing. */
  datatype StoredChat = StoredChat(
    id: Id,
    name: string,
    avatar: string,
    lastMessagePreview: string,
    timestamp: Option<int>,
    isPinned: Option<bool>,
    status: Option<string>,
    unreadCount: Option<int>)

  /** A message as decoded from storage. */
  datatype StoredMessage = StoredMessage(
    id: Id,
    chatId: Option<Id>,
    sender: string,
    text: string,
    timestamp: int,
    kind: MessageType,
    isRead: Option<bool>,
    reactions: Option<seq<Reaction>>)

  /**
   * Fills a stored chat's missing fields: `isPinned` defaults to false, `status` to
   * "available" and `unreadCount` to 0; every other field is kept as stored.
   */
  function BackfillChat(c: StoredChat): (r: Chat)
    ensures r == Chat(c.id, c.name, c.avatar, c.lastMessagePreview, c.timestamp, r.isPinned, r.status, r.unreadCount)
    ensures c.isPinned.None? ==> !r.isPinned
    ensures c.status.None? ==> r.status == "available"
    ensures c.unreadCount.None? ==> r.unreadCount == 0
    ensures c.isPinned.Some? ==> r.isPinned == c.isPinned.value
    ensures c.status.Some? ==> r.status == c.status.value
    ensures c.unreadCount.Some? ==> r.unreadCount == c.unreadCount.value
  {
    Chat(c.id, c.name, c.avatar, c.lastMessagePreview, c.timestamp,
         c.isPinned.GetOr(false), c.status.GetOr("available"), c.unreadCount.GetOr(0))
  }

  /**
   * Fills a stored message's missing fields: a missing read flag is true exactly for a
   * received message, and missing reactions are none; every other field is kept.
   */
  function BackfillMessage(m: StoredMessage): (r: Message)
    ensures r == Message(m.id, m.chatId, m.sender, m.text, m.timestamp, m.kind, r.isRead, r.reactions)
    ensures m.isRead.None? ==> (r.isRead <==> m.kind == Received)
    ensures m.reactions.None? ==> r.reactions == []
    ensures m.isRead.Some? ==> r.isRead == m.isRead.value
    ensures m.reactions.Some? ==> r.reactions == m.reactions.value
  {
    Message(m.id, m.chatId, m.sender, m.text, m.timestamp, m.kind,
            m.isRead.GetOr(m.kind == Received), m.reactions.GetOr([]))
  }

  /** What saving writes for a chat; loading it back gives the same chat. */
  function StoreChat(c: Chat): (r: StoredChat)
    ensures BackfillChat(r) == c
  {
    StoredChat(c.id, c.name, c.avatar, c.lastMessagePreview, c.timestamp,
               Some(c.isPinned), Some(c.status), Some(c.unreadCount))
  }

  /** What saving writes for a message; loading it back gives the same message. */
  function StoreMessage(m: Message): (r: StoredMessage)
    ensures BackfillMessage(r) == m
  {
    StoredMessage(m.id, m.chatId, m.sender, m.text, m.timestamp, m.kind,
                  Some(m.isRead), Some(m.reactions))
  }

  // ---------------------------------------------------------------------------
  // The chat-list preview

  /**
   * The preview stored on a chat when a message is added: the sender, then the
   * first 40 characters of the text with each "<br>" turned into a space, then
   * "..." when the original text is longer than 40 characters. So it starts with
   * "sender: " and is bounded in length; the quoted part is a prefix of the text
   * with "<br>" replaced: whole for a text of at most 40 characters; for a longer
   * one, cut at 40 (or whole when the replacing left fewer) and followed by "...";
   * and no "<br>" is left in it.
   */
  function Preview(sender: string, text: string): (p: string)
    ensures StartsWith(p, sender + ": ")
    ensures |p| <= |sender| + 2 + PreviewLength + 3
    ensures |text| <= PreviewLength ==> p == sender + ": " + ReplaceAll(text, "<br>", " ")
    ensures |text| > PreviewLength ==>
      && |p| >= |sender| + 2 + 3 && p[|p| - 3..] == "..."
      && StartsWith(ReplaceAll(text, "<br>", " "), p[|sender| + 2..|p| - 3])
      && (|ReplaceAll(text, "<br>", " ")| >= PreviewLength ==> |p| == |sender| + 2 + PreviewLength + 3)
      && (|ReplaceAll(text, "<br>", " ")| < PreviewLength ==> p[|sender| + 2..|p| - 3] == ReplaceAll(text, "<br>", " "))
    ensures !Contains(p[|sender| + 2..], "<br>")
    ensures |text| <= PreviewLength && !Contains(text, "<br>") ==> p == sender + ": " + text
    ensures |text| > PreviewLength && !Contains(text, "<br>") ==> p == sender + ": " + text[..PreviewLength] + "..."
  {
    var head := sender + ": ";
    var replaced := ReplaceAll(text, "<br>", " ");
    var body := Take(replaced, PreviewLength);
    var tail := if |text| > PreviewLength then "..." else "";
    var p := head + (body + tail);
    assert p[..|head|] == head && p[|head|..] == body + tail;
    assert p[|head|..|p| - |tail|] == body && p[|p| - |tail|..] == tail;
    assert |replaced| < PreviewLength ==> body == replaced;
    QuotedHasNoBreak(text, tail);
    p
  }

  /** The quoted part of a preview, with or without its "...", holds no "<br>". */
  lemma QuotedHasNoBreak(text: string, tail: string)
    requires tail == "..." || tail == ""
    ensures !Contains(Take(ReplaceAll(text, "<br>", " "), PreviewLength) + tail, "<br>")
  {
    var replaced := ReplaceAll(text, "<br>", " ");
    var body := Take(replaced, PreviewLength);
    ReplaceAllRemoves(text, "<br>", " ");
    if Contains(body, "<br>") {
      ContainsPrefix(replaced, |body|, "<br>");
    }
    if Contains(body + tail, "<br>") {
      ContainsBeforeDisjoint(body, tail, "<br>");
    }
  }

  // ---------------------------------------------------------------------------
  // The read-receipt sweep

  predicate UnreadSent(m: Message) {
    m.kind == Sent && !m.isRead
  }

  /** One step of the sweep: a sent message that is not yet read becomes read. */
  function ReadReceipt(m: Message): Message {
    if UnreadSent(m) then m.(isRead := true) else m
  }

  /**
   * A chat's messages after the read-receipt sweep: every sent message is read,
   * received messages are untouched, and nothing but the read flag changes.
   */
  function Swept(ms: seq<Message>): (r: seq<Message>)
    ensures |r| == |ms|
    ensures forall i :: 0 <= i < |r| ==> r[i] == ms[i].(isRead := r[i].isRead)
    ensures forall i :: 0 <= i < |r| && r[i].kind == Sent ==> r[i].isRead
    ensures forall i :: 0 <= i < |r| && ms[i].kind == Received ==> r[i] == ms[i]
    ensures forall i :: 0 <= i < |r| && ms[i].isRead ==> r[i].isRead
  {
    seq(|ms|, i requires 0 <= i < |ms| => ReadReceipt(ms[i]))
  }

  ghost predicate HasUnreadSent(ms: seq<Message>) {
    exists i :: 0 <= i < |ms| && UnreadSent(ms[i])
  }

  /** The sweep changes the list exactly when some sent message was unread. */
  lemma SweptChangesIff(ms: seq<Message>)
    ensures Swept(ms) != ms <==> HasUnreadSent(ms)
  {
    if HasUnreadSent(ms) {
      var i :| 0 <= i < |ms| && UnreadSent(ms[i]);
      assert Swept(ms)[i] != ms[i];
    } else {
      assert forall i :: 0 <= i < |ms| ==> Swept(ms)[i] == ms[i];
    }
  }

  /** A second sweep finds nothing to do. */
  lemma SweptIdempotent(ms: seq<Message>)
    ensures !HasUnreadSent(Swept(ms))
    ensures Swept(Swept(ms)) == Swept(ms)
  {
    SweptChangesIff(Swept(ms));
  }

  /** `(a, b) => a.timestamp - b.timestamp`, as "a may stay before b". */
  function ByTime(a: Message, b: Message): bool {
    a.timestamp <= b.timestamp
  }

  lemma ByTimeIsTotalPreorder()
    ensures TotalPreorder(ByTime)
  {
  }

  /** The sweep leaves every timestamp in place, so a list in time order stays in time order. */
  lemma SweptKeepsTimeOrder(ms: seq<Message>)
    requires Sorted(ms, ByTime)
    ensures Sorted(Swept(ms), ByTime)
  {
    var r := Swept(ms);
    forall i, j | 0 <= i < j < |r| ensures ByTime(r[i], r[j]) {
      assert r[i].timestamp == ms[i].timestamp && r[j].timestamp == ms[j].timestamp;
    }
  }

  // ---------------------------------------------------------------------------
  // Item lookup and selection

  function ChatItems(chats: seq<Chat>): (r: seq<Item>)
    ensures |r| == |chats| && forall i :: 0 <= i < |r| ==> r[i] == ChatItem(chats[i])
  {
    seq(|chats|, i requires 0 <= i < |chats| => ChatItem(chats[i]))
  }

  function TeamItems(teams: seq<Team>): (r: seq<Item>)
    ensures |r| == |teams| && forall i :: 0 <= i < |r| ==> r[i] == TeamItem(teams[i])
  {
    seq(|teams|, i requires 0 <= i < |teams| => TeamItem(teams[i]))
  }

  /** `view === "chat" ? data.chats : data.teams`: every view but "chat" lists the teams. */
  function ItemsOf(view: string, chats: seq<Chat>, teams: seq<Team>): seq<Item> {
    if view == ChatView then ChatItems(chats) else TeamItems(teams)
  }

  /** JavaScript truthiness of an id: `null` and the empty string are false. */
  predicate Truthy(id: Option<Id>) {
    id.Some? && id.value != ""
  }

  /** `items.find((item) => item.id === id)`: the first item with that id. */
  function FindById(items: seq<Item>, id: Id): (r: Option<Item>)
    ensures r.Some? ==> exists k :: 0 <= k < |items| && items[k] == r.value
                         && r.value.ItemId() == id
                         && forall j :: 0 <= j < k ==> items[j].ItemId() != id
    ensures r.None? <==> forall j :: 0 <= j < |items| ==> items[j].ItemId() != id
  {
    if items == [] then None
    else if items[0].ItemId() == id then
      // k = 0 witnesses the first ensures.
      assert items[0].ItemId() == id;
      Some(items[0])
    else
      var r := FindById(items[1..], id);
      assert forall j :: 1 <= j < |items| ==> items[j] == items[1..][j - 1];
      r
  }

  /**
   * The item the active id selects in the current view, if any: the first item of
   * the view that carries it, as `find` returns; none when the id is falsy or no
   * item of the view carries it.
   */
  function FindActiveItem(view: string, active: Option<Id>, chats: seq<Chat>, teams: seq<Team>): (r: Option<Item>)
    ensures r.Some? ==> Truthy(active) && r.value in ItemsOf(view, chats, teams)
                        && r.value.ItemId() == active.value
    ensures var items := ItemsOf(view, chats, teams);
      r.Some? ==> exists k :: 0 <= k < |items| && items[k] == r.value
                             && forall j :: 0 <= j < k ==> items[j].ItemId() != active.value
    ensures r.Some? && view == ChatView ==> r.value.ChatItem? && r.value.chat in chats
    ensures r.None? <==> !Truthy(active) || forall it :: it in ItemsOf(view, chats, teams) ==> it.ItemId() != active.value
  {
    if !Truthy(active) then None else FindById(ItemsOf(view, chats, teams), active.value)
  }

  /** `chats.findIndex((chat) => chat.id === id)`: the first matching position, or -1. */
  function ChatIndex(chats: seq<Chat>, id: Option<Id>): (r: int)
    ensures -1 <= r < |chats|
    ensures 0 <= r ==> Some(chats[r].id) == id && forall j :: 0 <= j < r ==> Some(chats[j].id) != id
    ensures r == -1 <==> forall j :: 0 <= j < |chats| ==> Some(chats[j].id) != id
  {
    if chats == [] then -1
    else if Some(chats[0].id) == id then 0
    else
      var k := ChatIndex(chats[1..], id);
      assert forall j :: 1 <= j < |chats| ==> chats[j] == chats[1..][j - 1];
      if k < 0 then -1 else k + 1
  }

  /** The position of the first unpinned item, or -1. */
  function FirstUnpinnedIndex(items: seq<Item>): (r: int)
    ensures -1 <= r < |items|
    ensures 0 <= r ==> !items[r].ItemPinned() && forall j :: 0 <= j < r ==> items[j].ItemPinned()
    ensures r == -1 <==> forall j :: 0 <= j < |items| ==> items[j].ItemPinned()
  {
    if items == [] then -1
    else if !items[0].ItemPinned() then 0
    else
      var k := FirstUnpinnedIndex(items[1..]);
      assert forall j :: 1 <= j < |items| ==> items[j] == items[1..][j - 1];
      if k < 0 then -1 else k + 1
  }

  /**
   * The selection rule used on load and on a view change: the first unpinned item,
   * else the first item, else nothing. Teams are never pinned, so for them it is
   * the first team.
   */
  function FirstSelectable(items: seq<Item>): (r: Option<Id>)
    ensures r.None? <==> items == []
    ensures forall k :: 0 <= k < |items| && !items[k].ItemPinned()
                        && (forall j :: 0 <= j < k ==> items[j].ItemPinned())
                        ==> r == Some(items[k].ItemId())
    ensures items != [] && (forall j :: 0 <= j < |items| ==> items[j].ItemPinned())
            ==> r == Some(items[0].ItemId())
  {
    var k := FirstUnpinnedIndex(items);
    if k >= 0 then Some(items[k].ItemId())
    else if items != [] then Some(items[0].ItemId())
    else None
  }

  // ---------------------------------------------------------------------------
  // Small derived values

  /**
   * The unread badge of a chat: none unless the count is positive, the count as a
   * single digit up to 9, and "9+" above.
   */
  function BadgeLabel(unread: int): (r: Option<string>)
    ensures r.None? <==> unread <= 0
    ensures unread > 9 ==> r == Some("9+")
    ensures 0 < unread <= 9 ==> r.Some? && |r.value| == 1 && r.value[0] as int - '0' as int == unread
  {
    if unread <= 0 then None
    else if unread > 9 then Some("9+")
    else Some([('0' as int + unread) as char])
  }

  /** Whether the message input is enabled: the chat view with an active id that is not null. */
  predicate CanSendMessage(view: string, active: Option<Id>) {
    view == ChatView && active.Some?
  }

  /** Whether the send button is enabled for the current input text. */
  predicate SendButtonEnabled(view: string, active: Option<Id>, input: string) {
    CanSendMessage(view, active) && Trim(input) != ""
  }

  /** The guard of sending: the send handler returns early when this holds. */
  predicate SendRefused(view: string, active: Option<Id>, input: string) {
    Trim(input) == "" || !Truthy(active) || view != ChatView
  }

  /**
   * An enabled send button and the send handler agree, except for an active id that
   * is the empty string: the button enables it (it tests against null) and the
   * handler refuses it (it tests truthiness).
   */
  lemma SendButtonMatchesHandler(view: string, active: Option<Id>, input: string)
    ensures SendButtonEnabled(view, active, input) && active != Some("")
            ==> !SendRefused(view, active, input)
    ensures !SendRefused(view, active, input) ==> SendButtonEnabled(view, active, input)
    ensures Trim(input) != ""
            ==> SendButtonEnabled(ChatView, Some(""), input) && SendRefused(ChatView, Some(""), input)
  {
  }
}

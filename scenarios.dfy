/**
 * Concrete runs of the handlers on a two-chat store: the simulated reply when the
 * user switches chats before it arrives, as written and as evidently intended.
 */
module Scenarios {
  import opened Wrappers
  import opened Records
  import opened Store
  import opened Engine

  function Alice(): Chat {
    Chat("a", "Alice", "", "", Some(1), false, "available", 0)
  }

  function Bob(): Chat {
    Chat("b", "Bob", "", "", Some(2), false, "available", 0)
  }

  function TwoChats(): seq<Chat> {
    [Alice(), Bob()]
  }

  function EmptyLists(): Messages {
    map["a" := [], "b" := []]
  }

  lemma TwoChatsIndex()
    ensures ChatIndex(TwoChats(), Some("a")) == 0
    ensures ChatIndex(TwoChats(), Some("b")) == 1
  {
    assert TwoChats()[1..] == [Bob()];
  }

  lemma TwoChatsOpen(id: Id)
    requires id == "a" || id == "b"
    ensures OpenChat(ChatView, Some(id), TwoChats(), []) == Some(id)
  {
    var c := if id == "a" then Alice() else Bob();
    assert c in TwoChats();
  }

  /** Clicking either chat of the fresh store changes no stored data. */
  lemma ClickChangesNothing(id: Id)
    requires id == "a" || id == "b"
    ensures ClearUnread(TwoChats(), id) == TwoChats()
    ensures Rendered(ChatView, Some(id), TwoChats(), [], SweptAt(EmptyLists(), id)) == EmptyLists()
  {
    TwoChatsIndex();
    TwoChatsOpen(id);
    assert Swept([]) == [];
    assert SweptAt(EmptyLists(), id) == EmptyLists();
    assert Shown([]) == [];
  }

  lemma ShownLength(ms: seq<Message>)
    ensures |Shown(ms)| == |ms|
  {
    ShownProperties(ms);
    assert |multiset(Shown(ms))| == |multiset(Swept(ms))|;
  }

  /**
   * Alice's chat is opened, a reply is requested, and Bob's chat is opened before the
   * reply arrives.
   */
  method OpenAliceAskThenOpenBob() returns (st: AppState, d: Data, pending: PendingReply)
    ensures fresh(st) && fresh(d)
    ensures d.chats == TwoChats() && d.teams == [] && d.messages == EmptyLists()
    ensures st.currentView == ChatView && st.activeItemId == Some("b")
    ensures pending == PendingReply(Alice())
  {
    d := new Data(TwoChats(), [], EmptyLists());
    st := new AppState();
    HandleListItemClick(st, d, "a");
    ClickChangesNothing("a");
    var p := HandleSimulateReceive(st, d);
    TwoChatsOpen("a");
    assert p.Some?;
    pending := p.value;
    HandleListItemClick(st, d, "b");
    ClickChangesNothing("b");
  }

  lemma LandsInBob(m: Message, chats: seq<Chat>)
    requires m.chatId == Some("b")
    ensures var r := Rendered(ChatView, Some("b"), chats, [], SweptAt(Appended(EmptyLists(), m), "b"));
      ListAt(r, "a") == [] && |ListAt(r, "b")| == 1
  {
    var msgs := SweptAt(Appended(EmptyLists(), m), "b");
    assert msgs["a"] == [] && |msgs["b"]| == 1;
    ShownLength(msgs["b"]);
  }

  /**
   * As written: the reply meant for Alice is filed under Bob's chat, Alice's list stays
   * empty and her unread count stays 0.
   */
  method SwitchBeforeReply() returns (unreadAlice: int, inAlice: nat, inBob: nat)
    ensures unreadAlice == 0 && inAlice == 0 && inBob == 1
  {
    var st, d, pending := OpenAliceAskThenOpenBob();
    ReplyArrives(st, d, pending, "r1", 10, "10:00");
    LandsInBob(ArrivedMessage(pending, Some("b"), "r1", 10, "10:00"), d.chats);
    unreadAlice := d.chats[0].unreadCount;
    inAlice := |ListAt(d.messages, "a")|;
    inBob := |ListAt(d.messages, "b")|;
  }

  lemma LandsInAlice(m: Message)
    requires m.chatId == Some("a")
    ensures var chats := BumpUnread(WithMessage(TwoChats(), m), "a");
      && chats[0].unreadCount == 1
      && var r := Rendered(ChatView, Some("b"), chats, [], Appended(EmptyLists(), m));
         |ListAt(r, "a")| == 1 && ListAt(r, "b") == []
  {
    TwoChatsIndex();
    var withM := WithMessage(TwoChats(), m);
    assert withM[0].id == "a" && withM[0].unreadCount == 0;
    assert ChatIndex(withM, Some("a")) == 0;
    var msgs := Appended(EmptyLists(), m);
    assert |msgs["a"]| == 1 && msgs["b"] == [];
    assert Shown([]) == [];
  }

  /**
   * As intended: the reply is filed under Alice's chat, her unread count becomes 1 and
   * Bob's list stays empty.
   */
  method IntendedSwitchBeforeReply() returns (unreadAlice: int, inAlice: nat, inBob: nat)
    ensures unreadAlice == 1 && inAlice == 1 && inBob == 0
  {
    var st, d, pending := OpenAliceAskThenOpenBob();
    IntendedReplyArrives(st, d, pending, "r1", 10, "10:00");
    LandsInAlice(ArrivedMessage(pending, Some("b"), "r1", 10, "10:00").(chatId := Some("a")));
    unreadAlice := d.chats[0].unreadCount;
    inAlice := |ListAt(d.messages, "a")|;
    inBob := |ListAt(d.messages, "b")|;
  }
}

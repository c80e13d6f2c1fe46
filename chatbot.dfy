/**
 * The patient–provider chat screen. The store holds the chat table
 * (`MaternalHealthSystem/chats`) and one message log per chat id
 * (`MaternalHealthSystem/chatMessages/<chatId>`); the component holds the
 * visible chat list, the active chat, the message view, the input box and
 * the hospital picked in the "new chat" dialog.
 */
module ChatBot {
  import opened Wrappers
  import opened Text
  import opened Lists
  import Keys

  /** A timestamp field: the `serverTimestamp()` placeholder while it is only
      held by the component, or the milliseconds the store wrote for it. */
  datatype Stamp = ServerNow | Millis(ms: int)

  /** The value the store keeps for a timestamp field written at server time `now`. */
  function Resolve(t: Stamp, now: int): Stamp {
    if t.ServerNow? then Millis(now) else t
  }

  /** A chat record. `id` is present only on records written back from a
      component's copy of a chat. */
  datatype Chat = Chat(
    id: Option<string>,
    userId: string,
    hospitalId: string,
    userName: string,
    hospitalName: string,
    createdAt: Stamp,
    lastMessage: string,
    lastMessageTimestamp: Stamp,
    lastMessageSenderId: string)

  datatype Message = Message(senderId: string, text: string, timestamp: int, read: bool)

  /** The signed-in user as the component receives it; the session record
      built at login has no `userType`. */
  datatype User = User(phone: string, name: string, userType: Option<string>)

  /** A hospital of the "new chat" dialog: its user key and name. */
  datatype Hospital = Hospital(id: string, name: string)

  predicate Resolved(c: Chat) {
    c.createdAt.Millis? && c.lastMessageTimestamp.Millis?
  }

  /** The record the store keeps when `c` is written at server time `now`. */
  function Stored(c: Chat, now: int): (r: Chat)
    ensures Resolved(r)
  {
    c.(createdAt := Resolve(c.createdAt, now), lastMessageTimestamp := Resolve(c.lastMessageTimestamp, now))
  }

  /** Every stored chat has resolved timestamps, and a stored `id` names the
      key the chat is stored under. */
  ghost predicate ChatTableOk(chats: map<string, Chat>) {
    forall k :: k in chats ==> Resolved(chats[k]) && (chats[k].id.Some? ==> chats[k].id.value == k)
  }

  /** Writing a chat with resolved timestamps under its own id keeps the
      table well formed. */
  lemma WriteKeepsTableOk(chats: map<string, Chat>, k: string, c: Chat)
    requires ChatTableOk(chats) && Resolved(c) && (c.id.Some? ==> c.id.value == k)
    ensures ChatTableOk(chats[k := c])
  {
  }

  predicate Involves(c: Chat, phone: string) {
    c.userId == phone || c.hospitalId == phone
  }

  /** `{ id: key, ...record }`: a stored `id` field overrides the key. */
  function WithKey(key: string, c: Chat): Chat {
    if c.id.Some? then c else c.(id := Some(key))
  }

  /** The listener on the chat table: the chats in which `phone` takes part,
      in snapshot order, each tagged with its key. */
  function VisibleChats(entries: seq<(string, Chat)>, phone: string): (r: seq<Chat>)
    ensures forall c :: c in r ==> c.id.Some? && Involves(c, phone)
  {
    SelectTaggedMembers(entries, InvolvesUser(phone), WithKey);
    SelectTagged(entries, InvolvesUser(phone), WithKey)
  }

  /** The listener's filter as a predicate on chats. */
  function InvolvesUser(phone: string): Chat -> bool {
    c => Involves(c, phone)
  }

  /** The visible list follows the snapshot, one chat per involving entry:
      listing two runs of entries lists each in turn, and one entry lists as
      its chat exactly when it involves the user. */
  lemma VisibleChatsInOrder(a: seq<(string, Chat)>, b: seq<(string, Chat)>, phone: string)
    ensures VisibleChats(a + b, phone) == VisibleChats(a, phone) + VisibleChats(b, phone)
    ensures |a| == 1 ==> VisibleChats(a, phone) == if Involves(a[0].1, phone) then [WithKey(a[0].0, a[0].1)] else []
  {
    SelectTaggedAppend(a, b, InvolvesUser(phone), WithKey);
  }

  /** The chat the listener auto-selects, the head of the visible list, is
      the one of the first entry in the snapshot that involves the user. */
  lemma FirstVisibleChat(entries: seq<(string, Chat)>, phone: string, i: int)
    requires 0 <= i < |entries| && Involves(entries[i].1, phone)
    requires forall j :: 0 <= j < i ==> !Involves(entries[j].1, phone)
    ensures |VisibleChats(entries, phone)| > 0
    ensures VisibleChats(entries, phone)[0] == WithKey(entries[i].0, entries[i].1)
  {
    SelectTaggedFirst(entries, InvolvesUser(phone), WithKey, i);
  }

  /** Over a snapshot of a well-formed chat table, the visible list holds,
      under its own key as `id`, exactly the stored chats involving the user. */
  lemma VisibleChatsOfTable(entries: seq<(string, Chat)>, chats: map<string, Chat>, phone: string)
    requires Enumerates(entries, chats)
    requires ChatTableOk(chats)
    ensures forall c :: c in VisibleChats(entries, phone) ==>
      c.id.Some? && c.id.value in chats && c == WithKey(c.id.value, chats[c.id.value])
    ensures forall k :: k in chats && Involves(chats[k], phone) ==> WithKey(k, chats[k]) in VisibleChats(entries, phone)
  {
    SelectTaggedMembers(entries, InvolvesUser(phone), WithKey);
    forall c | c in VisibleChats(entries, phone)
      ensures c.id.Some? && c.id.value in chats && c == WithKey(c.id.value, chats[c.id.value])
    {
      var i :| 0 <= i < |entries| && Involves(entries[i].1, phone) && c == WithKey(entries[i].0, entries[i].1);
      assert entries[i].0 in chats && chats[entries[i].0] == entries[i].1;
    }
    forall k | k in chats && Involves(chats[k], phone)
      ensures WithKey(k, chats[k]) in VisibleChats(entries, phone)
    {
      var i :| 0 <= i < |entries| && entries[i].0 == k;
    }
  }

  /** The auto-selection of the chat listener: the first listed chat when the
      listener saw no active chat, else the current active chat. */
  function AutoSelect(list: seq<Chat>, seen: Option<Chat>, current: Option<Chat>): (r: Option<Chat>)
    ensures |list| > 0 && seen.None? ==> r == Some(list[0])
    ensures |list| == 0 || seen.Some? ==> r == current
  {
    if |list| > 0 && seen.None? then Some(list[0]) else current
  }

  predicate EarlierOrSame(a: (string, Message), b: (string, Message)) {
    a.1.timestamp <= b.1.timestamp
  }

  /** The listener on a message log: the messages sorted by timestamp. */
  function MessageView(entries: seq<(string, Message)>): seq<(string, Message)> {
    SortBy(entries, EarlierOrSame)
  }

  /** The message view is a permutation of the log's entries in ascending
      timestamp order, and empty for an empty log. */
  lemma MessageViewOrdered(entries: seq<(string, Message)>)
    ensures multiset(MessageView(entries)) == multiset(entries)
    ensures forall i, j :: 0 <= i < j < |MessageView(entries)| ==>
      MessageView(entries)[i].1.timestamp <= MessageView(entries)[j].1.timestamp
    ensures entries == [] <==> MessageView(entries) == []
  {
    assert TotalPreorder(EarlierOrSame);
    SortBySorted(entries, EarlierOrSame);
    if MessageView(entries) == [] {
      assert |multiset(entries)| == 0;
    }
  }

  /** The chat in either orientation between `phone` and hospital `hid`. */
  predicate Pairs(c: Chat, phone: string, hid: string) {
    (c.userId == phone && c.hospitalId == hid) || (c.hospitalId == phone && c.userId == hid)
  }

  /** `chats.find(...)`: the first listed chat pairing the two parties. */
  function FindChat(chats: seq<Chat>, phone: string, hid: string): (r: Option<Chat>)
    ensures r.None? <==> forall c :: c in chats ==> !Pairs(c, phone, hid)
    ensures r.Some? ==> exists i :: 0 <= i < |chats| && chats[i] == r.value && Pairs(r.value, phone, hid) &&
                                    (forall j :: 0 <= j < i ==> !Pairs(chats[j], phone, hid))
  {
    if chats == [] then None
    else if Pairs(chats[0], phone, hid) then Some(chats[0])
    else
      var r := FindChat(chats[1..], phone, hid);
      assert forall c :: c in chats ==> c == chats[0] || c in chats[1..];
      if r.Some? then
        var i :| 0 <= i < |chats[1..]| && chats[1..][i] == r.value && Pairs(r.value, phone, hid) &&
          forall j :: 0 <= j < i ==> !Pairs(chats[1..][j], phone, hid);
        assert chats[i + 1] == r.value;
        assert forall j :: 1 <= j < i + 1 ==> chats[j] == chats[1..][j - 1];
        r
      else r
  }

  /** The chat record `createNewChat` builds, before it gets its key. Its
      participants depend on the user's role; a user whose role is neither
      'user' nor 'hospital' gets the hospital on both sides. */
  function NewChat(u: User, h: Hospital): (c: Chat)
    ensures c.id.None? && c.lastMessage == [] && c.lastMessageSenderId == []
    ensures c.createdAt.ServerNow? && c.lastMessageTimestamp.ServerNow?
    ensures u.userType == Some("user") ==> c.userId == u.phone && c.hospitalId == h.id
    ensures u.userType == Some("hospital") ==> c.hospitalId == u.phone && c.userId == h.id
    ensures Pairs(c, u.phone, h.id) <==>
      u.userType == Some("user") || u.userType == Some("hospital") || u.phone == h.id
    ensures Involves(c, u.phone) <==>
      u.userType == Some("user") || u.userType == Some("hospital") || u.phone == h.id
  {
    Chat(
      id := None,
      userId := if u.userType == Some("user") then u.phone else h.id,
      hospitalId := if u.userType == Some("hospital") then u.phone else h.id,
      userName := if u.userType == Some("user") then u.name else h.name,
      hospitalName := if u.userType == Some("hospital") then u.name else h.name,
      createdAt := ServerNow,
      lastMessage := "",
      lastMessageTimestamp := ServerNow,
      lastMessageSenderId := "")
  }

  /** A chat created by a user without a role (the login session record) does
      not appear in that user's own chat list, so a later "new chat" with the
      same hospital does not find it. */
  lemma RolelessChatInvisible(entries: seq<(string, Chat)>, chats: map<string, Chat>, u: User, h: Hospital, key: string, now: int)
    requires u.userType != Some("user") && u.userType != Some("hospital") && u.phone != h.id
    requires Enumerates(entries, chats[key := Stored(NewChat(u, h), now)])
    requires ChatTableOk(chats)
    ensures forall c :: c in VisibleChats(entries, u.phone) ==> c.id != Some(key)
    ensures FindChat(VisibleChats(entries, u.phone), u.phone, h.id) != Some(WithKey(key, Stored(NewChat(u, h), now)))
  {
    var table := chats[key := Stored(NewChat(u, h), now)];
    assert ChatTableOk(table);
    VisibleChatsOfTable(entries, table, u.phone);
  }

  /** The summary record `sendMessage` writes over the chat: the component's
      copy of the chat with the last-message fields replaced. */
  function Summary(c: Chat, text: string, phone: string, now: int): (r: Chat)
    ensures Resolved(r) && r.id == c.id && r.lastMessage == text && r.lastMessageSenderId == phone
    ensures r.lastMessageTimestamp == Millis(now)
    ensures r.userId == c.userId && r.hospitalId == c.hospitalId
  {
    Stored(c.(lastMessage := text, lastMessageTimestamp := ServerNow, lastMessageSenderId := phone), now)
  }

  /** The store: the chat table and the message logs. */
  class ChatStore {
    var chats: map<string, Chat>
    var chatMessages: map<string, map<string, Message>>

    ghost predicate Valid()
      reads this
    {
      ChatTableOk(chats)
    }

    /** The message log of a chat; a chat nobody wrote to has none. */
    function Log(chatId: string): map<string, Message>
      reads this
    {
      if chatId in chatMessages then chatMessages[chatId] else map[]
    }

    constructor (chats: map<string, Chat>, chatMessages: map<string, map<string, Message>>)
      requires ChatTableOk(chats)
      ensures Valid() && this.chats == chats && this.chatMessages == chatMessages
    {
      this.chats := chats;
      this.chatMessages := chatMessages;
    }
  }

  /** The chat component of one signed-in user. */
  class ChatBot {
    const currentUser: User
    const store: ChatStore
    var chats: seq<Chat>
    var activeChat: Option<Chat>
    var chatMessages: seq<(string, Message)>
    var messageInput: string
    var selectedHospital: Option<Hospital>
    var showNewChatModal: bool
    var loading: bool
    /** The `activeChat` the chat-table listener closed over when it was registered. */
    var listenerActive: Option<Chat>

    ghost predicate Valid()
      reads this, store
    {
      && store.Valid()
      && (activeChat.Some? ==> activeChat.value.id.Some?)
      && (forall c :: c in chats ==> c.id.Some?)
    }

    constructor (user: User, store: ChatStore)
      requires store.Valid()
      ensures Valid() && currentUser == user && this.store == store
      ensures chats == [] && activeChat.None? && chatMessages == [] && messageInput == []
      ensures selectedHospital.None? && !showNewChatModal && loading && listenerActive.None?
    {
      currentUser := user;
      this.store := store;
      chats := [];
      activeChat := None;
      chatMessages := [];
      messageInput := "";
      selectedHospital := None;
      showNewChatModal := false;
      loading := true;
      listenerActive := None;
    }

    /** `fetchChats`: registers the chat-table listener, which keeps seeing the
        active chat of this moment. */
    method FetchChats()
      modifies this`loading, this`listenerActive
      ensures loading && listenerActive == activeChat
    {
      loading := true;
      listenerActive := activeChat;
    }

    /** The chat-table listener run on a snapshot of the table. */
    method OnChatsSnapshot(entries: seq<(string, Chat)>)
      requires Valid()
      modifies this`chats, this`activeChat, this`loading
      ensures Valid()
      ensures chats == VisibleChats(entries, currentUser.phone)
      ensures activeChat == AutoSelect(chats, listenerActive, old(activeChat))
      ensures !loading
    {
      chats := VisibleChats(entries, currentUser.phone);
      if |chats| > 0 && listenerActive.None? {
        activeChat := Some(chats[0]);
      }
      loading := false;
    }

    /** The listener as its comment ("set active chat if none is selected
        yet") intends: it reads the active chat of this moment, so a chat
        already selected stays selected. */
    method OnChatsSnapshotKeepingPick(entries: seq<(string, Chat)>)
      requires Valid()
      modifies this`chats, this`activeChat, this`loading
      ensures Valid()
      ensures chats == VisibleChats(entries, currentUser.phone)
      ensures old(activeChat).Some? ==> activeChat == old(activeChat)
      ensures old(activeChat).None? ==> activeChat == if |chats| > 0 then Some(chats[0]) else None
      ensures !loading
    {
      chats := VisibleChats(entries, currentUser.phone);
      if |chats| > 0 && activeChat.None? {
        activeChat := Some(chats[0]);
      }
      loading := false;
    }

    /** Clicking a chat of the list makes it the active chat. */
    method SelectChat(c: Chat)
      requires Valid() && c in chats
      modifies this`activeChat
      ensures Valid() && activeChat == Some(c)
    {
      activeChat := Some(c);
    }

    /** The message-log listener run on a snapshot of the active chat's log. */
    method OnMessagesSnapshot(entries: seq<(string, Message)>)
      modifies this`chatMessages
      ensures chatMessages == MessageView(entries)
    {
      chatMessages := MessageView(entries);
    }

    /** Typing in the message box. */
    method SetMessageInput(text: string)
      modifies this`messageInput
      ensures messageInput == text
    {
      messageInput := text;
    }

    /** Picking a hospital in the "new chat" dialog. */
    method SelectHospital(h: Option<Hospital>)
      modifies this`selectedHospital
      ensures selectedHospital == h
    {
      selectedHospital := h;
    }

    /** `sendMessage`. A blank input or no active chat writes nothing. Otherwise
        the message is pushed under a fresh key of the active chat's log, then
        the component's copy of the chat, with the new summary, replaces the
        stored chat; the input is cleared only when both writes succeed. */
    method SendMessage(now: int, messageWriteOk: bool, chatWriteOk: bool) returns (key: Option<string>)
      requires Valid()
      modifies this`messageInput, store
      ensures Valid()
      ensures key.Some? <==> old(!IsBlank(messageInput) && activeChat.Some?) && messageWriteOk
      ensures key.None? ==> unchanged(this, store)
      ensures key.Some? ==>
        var id := activeChat.value.id.value;
        && key.value !in old(store.Log(id))
        && store.chatMessages == old(store.chatMessages)[id := old(store.Log(id))[key.value := Message(currentUser.phone, old(messageInput), now, false)]]
        && store.chats == (if chatWriteOk then old(store.chats)[id := Summary(activeChat.value, old(messageInput), currentUser.phone, now)] else old(store.chats))
        && messageInput == (if chatWriteOk then [] else old(messageInput))
    {
      if IsBlank(messageInput) || activeChat.None? {
        return None;
      }
      if !messageWriteOk {
        return None;
      }
      var chat := activeChat.value;
      var id := chat.id.value;
      var log := store.Log(id);
      var k := Keys.FreshKey(log);
      store.chatMessages := store.chatMessages[id := log[k := Message(currentUser.phone, messageInput, now, false)]];
      key := Some(k);
      if chatWriteOk {
        WriteKeepsTableOk(store.chats, id, Summary(chat, messageInput, currentUser.phone, now));
        store.chats := store.chats[id := Summary(chat, messageInput, currentUser.phone, now)];
        messageInput := "";
      }
    }

    /** `createNewChat`. Without a selected hospital nothing happens. A listed
        chat pairing the two parties becomes active and nothing is written.
        Otherwise a new chat is written under a fresh key and becomes active
        (with its timestamps still placeholders), and the dialog closes. */
    method CreateNewChat(now: int, writeOk: bool) returns (created: Option<string>)
      requires Valid()
      modifies this`activeChat, this`selectedHospital, this`showNewChatModal, store`chats
      ensures Valid()
      ensures old(selectedHospital).None? ==> created.None? && unchanged(this, store)
      ensures old(selectedHospital).Some? && FindChat(chats, currentUser.phone, old(selectedHospital).value.id).Some? ==>
        && created.None?
        && activeChat == FindChat(chats, currentUser.phone, old(selectedHospital).value.id)
        && !showNewChatModal && selectedHospital == old(selectedHospital)
        && store.chats == old(store.chats)
      ensures old(selectedHospital).Some? && FindChat(chats, currentUser.phone, old(selectedHospital).value.id).None? ==>
        var c := NewChat(currentUser, old(selectedHospital).value);
        && (created.Some? <==> writeOk)
        && (created.None? ==> unchanged(this, store))
        && (created.Some? ==>
              && created.value !in old(store.chats)
              && store.chats == old(store.chats)[created.value := Stored(c, now)]
              && activeChat == Some(c.(id := created))
              && selectedHospital.None? && !showNewChatModal)
    {
      if selectedHospital.None? {
        return None;
      }
      var h := selectedHospital.value;
      var existing := FindChat(chats, currentUser.phone, h.id);
      if existing.Some? {
        activeChat := existing;
        showNewChatModal := false;
        return None;
      }
      var k := Keys.FreshKey(store.chats);
      var c := NewChat(currentUser, h);
      if !writeOk {
        return None;
      }
      store.chats := store.chats[k := Stored(c, now)];
      activeChat := Some(c.(id := Some(k)));
      selectedHospital := None;
      showNewChatModal := false;
      created := Some(k);
    }
  }

  /** The component as written: mounted, listener registered, a first
      snapshot shown, then the user clicks the chat at `pick`. The next
      snapshot of the chat table (any later change, such as a message sent)
      makes the first listed chat active again, whatever was picked. */
  method PickLostOnSnapshot(user: User, store: ChatStore, first: seq<(string, Chat)>, pick: nat, next: seq<(string, Chat)>)
    returns (picked: Option<Chat>, shown: Option<Chat>)
    requires store.Valid()
    requires pick < |VisibleChats(first, user.phone)|
    requires |VisibleChats(next, user.phone)| > 0
    ensures picked == Some(VisibleChats(first, user.phone)[pick])
    ensures shown == Some(VisibleChats(next, user.phone)[0])
  {
    var bot := new ChatBot(user, store);
    bot.FetchChats();
    bot.OnChatsSnapshot(first);
    bot.SelectChat(bot.chats[pick]);
    picked := bot.activeChat;
    bot.OnChatsSnapshot(next);
    shown := bot.activeChat;
  }

  /** The same sequence with the intended listener: the picked chat is
      still active after the next snapshot. */
  method PickKeptOnSnapshot(user: User, store: ChatStore, first: seq<(string, Chat)>, pick: nat, next: seq<(string, Chat)>)
    returns (picked: Option<Chat>, shown: Option<Chat>)
    requires store.Valid()
    requires pick < |VisibleChats(first, user.phone)|
    ensures picked == Some(VisibleChats(first, user.phone)[pick])
    ensures shown == picked
  {
    var bot := new ChatBot(user, store);
    bot.FetchChats();
    bot.OnChatsSnapshotKeepingPick(first);
    bot.SelectChat(bot.chats[pick]);
    picked := bot.activeChat;
    bot.OnChatsSnapshotKeepingPick(next);
    shown := bot.activeChat;
  }
}

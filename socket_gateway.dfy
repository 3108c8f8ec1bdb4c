/**
 * The chat gateway: admitting a socket connection, sending a message
 * (finding or creating the chat of two users, the one-greeting rule,
 * the receiver's unread counter) and revoking a message within the
 * revocation window.
 *
 * Chats and messages are sequences whose positions are their ids; the
 * per-member unread counters are a map keyed by (chat, user). Emitted
 * socket events are returned as results; rooms and delivery are not
 * modelled. Time is in milliseconds.
 */
module SocketGateway {
  import opened Common

  type UserId = string

  // ---------------------------------------------------------------------
  // handleConnection

  datatype Admission = Joined(room: string) | Disconnected

  /** A connection joins `user_<id>` when its handshake names a non-empty user id; otherwise it is dropped. */
  function Admit(userId: Option<string>): (a: Admission)
    ensures a.Disconnected? <==> userId.None? || userId.value == ""
    ensures a.Joined? ==> a.room == "user_" + userId.value
  {
    if userId.Some? && userId.value != "" then Joined("user_" + userId.value) else Disconnected
  }

  /** Distinct users join distinct rooms. */
  lemma RoomsAreDistinct(a: string, b: string)
    requires Admit(Some(a)).Joined? && Admit(Some(b)).Joined?
    ensures Admit(Some(a)) == Admit(Some(b)) ==> a == b
  {
    if Admit(Some(a)) == Admit(Some(b)) {
      assert ("user_" + a)[5..] == a;
      assert ("user_" + b)[5..] == b;
    }
  }

  // ---------------------------------------------------------------------
  // Chats and messages

  datatype Chat = Chat(user1: UserId, user2: UserId)

  datatype Message = Message(chatId: nat, userId: UserId, content: string, isRevoked: bool, createdAt: int)

  /** The chat between two users, in either orientation. */
  predicate Between(c: Chat, a: UserId, b: UserId) {
    (c.user1 == a && c.user2 == b) || (c.user1 == b && c.user2 == a)
  }

  /** The chat `findFirst` returns: the first chat between the two users. */
  function FindChat(chats: seq<Chat>, a: UserId, b: UserId): (r: Option<nat>)
    ensures r.Some? ==> r.value < |chats| && Between(chats[r.value], a, b)
    ensures r.Some? ==> forall j :: 0 <= j < r.value ==> !Between(chats[j], a, b)
    ensures r.None? <==> forall j :: 0 <= j < |chats| ==> !Between(chats[j], a, b)
  {
    if chats == [] then None
    else
      match FindChat(chats[..|chats| - 1], a, b)
      case Some(i) => Some(i)
      case None => if Between(chats[|chats| - 1], a, b) then Some(|chats| - 1) else None
  }

  /** The lookup does not depend on who is the sender. */
  lemma FindChatSymmetric(chats: seq<Chat>, a: UserId, b: UserId)
    ensures FindChat(chats, a, b) == FindChat(chats, b, a)
  {
    var r, s := FindChat(chats, a, b), FindChat(chats, b, a);
    if r.Some? && s.Some? {
      assert !(r.value < s.value) && !(s.value < r.value);
    }
  }

  /** The messages of one chat, in creation order. */
  function MessagesOf(messages: seq<Message>, chatId: nat): seq<Message> {
    if messages == [] then []
    else
      var last := messages[|messages| - 1];
      MessagesOf(messages[..|messages| - 1], chatId) + (if last.chatId == chatId then [last] else [])
  }

  /** A chat's history holds exactly the messages of that chat. */
  lemma {:induction false} MessagesOfMembers(messages: seq<Message>, chatId: nat)
    ensures |MessagesOf(messages, chatId)| <= |messages|
    ensures forall m :: m in MessagesOf(messages, chatId) <==> m in messages && m.chatId == chatId
  {
    if messages != [] {
      var init := messages[..|messages| - 1];
      MessagesOfMembers(init, chatId);
      assert messages == init + [messages[|messages| - 1]];
    }
  }

  /** Whether the receiver has a message in the chat that was not revoked. */
  predicate ValidReplyExists(messages: seq<Message>, chatId: nat, receiverId: UserId) {
    exists i :: 0 <= i < |messages| && messages[i].chatId == chatId && messages[i].userId == receiverId &&
      !messages[i].isRevoked
  }

  /**
   * The greeting rule: a chat holding exactly one message, written by the
   * sender, with no unrevoked message from the receiver, takes no further
   * message from the sender.
   */
  predicate GreetingBlocked(messages: seq<Message>, chatId: nat, senderId: UserId, receiverId: UserId) {
    var ms := MessagesOf(messages, chatId);
    |ms| == 1 && ms[0].userId == senderId && !ValidReplyExists(messages, chatId, receiverId)
  }

  datatype GatewayError = GreetingLimit | MessageNotFound | AlreadyRevoked | NotAuthor | RevokeWindowClosed

  datatype ChatState = ChatState(chats: seq<Chat>, messages: seq<Message>, unread: map<(nat, UserId), nat>)

  /** The chat a send goes to: the existing one, or a new chat with user1 = sender. */
  function ChatFor(chats: seq<Chat>, senderId: UserId, receiverId: UserId): (out: (nat, seq<Chat>))
    ensures out.0 < |out.1|
    ensures FindChat(chats, senderId, receiverId).Some? ==>
      out == (FindChat(chats, senderId, receiverId).value, chats)
    ensures FindChat(chats, senderId, receiverId).None? ==>
      out == (|chats|, chats + [Chat(senderId, receiverId)])
  {
    match FindChat(chats, senderId, receiverId)
    case Some(i) => (i, chats)
    case None => (|chats|, chats + [Chat(senderId, receiverId)])
  }

  /**
   * `handleSendMessage`. The chat is created even when the greeting rule
   * then refuses the message; on success one message is stored and the
   * receiver's counter, when the receiver has a membership row, goes up by one.
   */
  function SendNext(s: ChatState, senderId: UserId, receiverId: UserId, content: string, now: int)
    : (out: (Result<nat, GatewayError>, ChatState))
    ensures out.1.chats == ChatFor(s.chats, senderId, receiverId).1
    ensures var chatId := ChatFor(s.chats, senderId, receiverId).0;
      && (out.0.Err? <==> GreetingBlocked(s.messages, chatId, senderId, receiverId))
      && (out.0.Err? ==> out.0.error == GreetingLimit && out.1.messages == s.messages && out.1.unread == s.unread)
      && (out.0.Ok? ==>
          && out.0.value == |s.messages|
          && out.1.messages == s.messages + [Message(chatId, senderId, content, false, now)]
          && out.1.unread == if (chatId, receiverId) in s.unread
                             then s.unread[(chatId, receiverId) := s.unread[(chatId, receiverId)] + 1]
                             else s.unread)
  {
    var (chatId, chats) := ChatFor(s.chats, senderId, receiverId);
    if GreetingBlocked(s.messages, chatId, senderId, receiverId) then
      (Err(GreetingLimit), s.(chats := chats))
    else
      var messages := s.messages + [Message(chatId, senderId, content, false, now)];
      var unread := if (chatId, receiverId) in s.unread
                    then s.unread[(chatId, receiverId) := s.unread[(chatId, receiverId)] + 1]
                    else s.unread;
      (Ok(|s.messages|), ChatState(chats, messages, unread))
  }

  /** Every message belongs to a chat that exists. */
  ghost predicate Linked(s: ChatState) {
    forall i :: 0 <= i < |s.messages| ==> s.messages[i].chatId < |s.chats|
  }

  /** At most one chat per pair of users, whichever way round. */
  ghost predicate OneChatPerPair(chats: seq<Chat>) {
    forall i, j :: 0 <= i < j < |chats| ==> !Between(chats[i], chats[j].user1, chats[j].user2)
  }

  lemma SendKeepsInvariants(s: ChatState, senderId: UserId, receiverId: UserId, content: string, now: int)
    requires Linked(s) && OneChatPerPair(s.chats)
    ensures Linked(SendNext(s, senderId, receiverId, content, now).1)
    ensures OneChatPerPair(SendNext(s, senderId, receiverId, content, now).1.chats)
  {
    var chats := SendNext(s, senderId, receiverId, content, now).1.chats;
    if FindChat(s.chats, senderId, receiverId).None? {
      forall i, j | 0 <= i < j < |chats|
        ensures !Between(chats[i], chats[j].user1, chats[j].user2)
      {
        if j == |s.chats| {
          assert !Between(s.chats[i], senderId, receiverId);
        }
      }
    }
  }

  /** Appending a message extends its own chat's history by that message and leaves the others alone. */
  lemma MessagesOfAppend(messages: seq<Message>, m: Message, chatId: nat)
    ensures MessagesOf(messages + [m], chatId) == MessagesOf(messages, chatId) + (if m.chatId == chatId then [m] else [])
  {
    assert (messages + [m])[..|messages|] == messages;
  }

  /** A chat none of whose messages exist has an empty history. */
  lemma NoMessagesOf(messages: seq<Message>, chatId: nat)
    requires forall i :: 0 <= i < |messages| ==> messages[i].chatId != chatId
    ensures MessagesOf(messages, chatId) == []
  {
    if messages != [] {
      NoMessagesOf(messages[..|messages| - 1], chatId);
    }
  }

  /** A chat that does not exist yet has no messages. */
  lemma NewChatIsEmpty(s: ChatState)
    requires Linked(s)
    ensures MessagesOf(s.messages, |s.chats|) == []
  {
    NoMessagesOf(s.messages, |s.chats|);
  }

  /** The first message of a new chat is always accepted. */
  lemma FirstMessageAccepted(s: ChatState, senderId: UserId, receiverId: UserId, content: string, now: int)
    requires Linked(s) && FindChat(s.chats, senderId, receiverId).None?
    ensures SendNext(s, senderId, receiverId, content, now).0.Ok?
  {
    NewChatIsEmpty(s);
  }

  /** A chat appended for a pair that had none is the one either user finds. */
  lemma FindChatAppended(chats: seq<Chat>, a: UserId, b: UserId)
    requires FindChat(chats, a, b).None?
    ensures FindChat(chats + [Chat(a, b)], a, b) == Some(|chats|)
    ensures FindChat(chats + [Chat(a, b)], b, a) == Some(|chats|)
  {
    assert (chats + [Chat(a, b)])[..|chats|] == chats;
    FindChatSymmetric(chats, a, b);
  }

  /** After a greeting opens a new chat, the chat holds that greeting alone and either user finds it. */
  lemma AfterGreeting(s: ChatState, a: UserId, b: UserId, c1: string, t1: int)
    requires Linked(s) && FindChat(s.chats, a, b).None?
    ensures var s1 := SendNext(s, a, b, c1, t1).1;
      && FindChat(s1.chats, a, b) == Some(|s.chats|) && FindChat(s1.chats, b, a) == Some(|s.chats|)
      && MessagesOf(s1.messages, |s.chats|) == [Message(|s.chats|, a, c1, false, t1)]
      && s1.messages == s.messages + [Message(|s.chats|, a, c1, false, t1)]
  {
    FirstMessageAccepted(s, a, b, c1, t1);
    NewChatIsEmpty(s);
    var s1 := SendNext(s, a, b, c1, t1).1;
    assert s1.chats == s.chats + [Chat(a, b)];
    FindChatAppended(s.chats, a, b);
    MessagesOfAppend(s.messages, Message(|s.chats|, a, c1, false, t1), |s.chats|);
  }

  /** A greeting in a new chat blocks a second message from the sender ... */
  lemma GreetingBlocksSecond(s: ChatState, a: UserId, b: UserId, c1: string, c2: string, t1: int, t2: int)
    requires Linked(s) && a != b && FindChat(s.chats, a, b).None?
    ensures SendNext(SendNext(s, a, b, c1, t1).1, a, b, c2, t2).0 == Err(GreetingLimit)
  {
    AfterGreeting(s, a, b, c1, t1);
    var chatId := |s.chats|;
    var s1 := SendNext(s, a, b, c1, t1).1;
    assert !ValidReplyExists(s1.messages, chatId, b);
    assert GreetingBlocked(s1.messages, chatId, a, b);
  }

  /** ... but not the receiver's reply ... */
  lemma ReplyAccepted(s: ChatState, a: UserId, b: UserId, c1: string, c2: string, t1: int, t2: int)
    requires Linked(s) && a != b && FindChat(s.chats, a, b).None?
    ensures SendNext(SendNext(s, a, b, c1, t1).1, b, a, c2, t2).0.Ok?
    ensures SendNext(SendNext(s, a, b, c1, t1).1, b, a, c2, t2).1.messages ==
      s.messages + [Message(|s.chats|, a, c1, false, t1), Message(|s.chats|, b, c2, false, t2)]
    ensures SendNext(SendNext(s, a, b, c1, t1).1, b, a, c2, t2).1.chats == SendNext(s, a, b, c1, t1).1.chats
  {
    AfterGreeting(s, a, b, c1, t1);
    var s1 := SendNext(s, a, b, c1, t1).1;
    assert !GreetingBlocked(s1.messages, |s.chats|, b, a);
  }

  /** ... and after that reply the sender may write again. */
  lemma GreetingWaitsForReply(s: ChatState, a: UserId, b: UserId, c1: string, c2: string, c3: string,
                              t1: int, t2: int, t3: int)
    requires Linked(s) && a != b && FindChat(s.chats, a, b).None?
    ensures SendNext(SendNext(SendNext(s, a, b, c1, t1).1, b, a, c2, t2).1, a, b, c3, t3).0.Ok?
  {
    AfterGreeting(s, a, b, c1, t1);
    ReplyAccepted(s, a, b, c1, c2, t1, t2);
    var chatId := |s.chats|;
    var s1 := SendNext(s, a, b, c1, t1).1;
    var s2 := SendNext(s1, b, a, c2, t2).1;
    MessagesOfAppend(s1.messages, Message(chatId, b, c2, false, t2), chatId);
    assert s2.messages == s1.messages + [Message(chatId, b, c2, false, t2)];
    assert |MessagesOf(s2.messages, chatId)| == 2;
    assert !GreetingBlocked(s2.messages, chatId, a, b);
  }

  // ---------------------------------------------------------------------
  // handleRevokeMessage

  /** Whole minutes between two instants, truncated toward zero (`differenceInMinutes`). */
  function MinutesBetween(later: int, earlier: int): (m: int)
    ensures later >= earlier ==> m * 60000 <= later - earlier < (m + 1) * 60000
    ensures later < earlier ==> m <= 0
  {
    var d := later - earlier;
    if d >= 0 then d / 60000 else -((-d) / 60000)
  }

  /** The window as written: revocable until four whole minutes have passed. */
  lemma RevokeWindowExact(later: int, earlier: int)
    ensures MinutesBetween(later, earlier) > 3 <==> later - earlier >= 4 * 60000
  {
  }

  function RevokeNext(messages: seq<Message>, messageId: int, senderId: UserId, now: int)
    : (out: (Result<nat, GatewayError>, seq<Message>))
    ensures !(0 <= messageId < |messages|) ==> out == (Err(MessageNotFound), messages)
    ensures 0 <= messageId < |messages| ==>
      var m := messages[messageId];
      && (m.isRevoked ==> out == (Err(AlreadyRevoked), messages))
      && (!m.isRevoked && m.userId != senderId ==> out == (Err(NotAuthor), messages))
      && (!m.isRevoked && m.userId == senderId && now - m.createdAt >= 4 * 60000 ==>
          out == (Err(RevokeWindowClosed), messages))
      && (out.0.Ok? <==> !m.isRevoked && m.userId == senderId && now - m.createdAt < 4 * 60000)
      && (out.0.Ok? ==> out == (Ok(m.chatId), messages[messageId := m.(isRevoked := true)]))
  {
    if !(0 <= messageId < |messages|) then (Err(MessageNotFound), messages)
    else
      var m := messages[messageId];
      if m.isRevoked then (Err(AlreadyRevoked), messages)
      else if m.userId != senderId then (Err(NotAuthor), messages)
      else if MinutesBetween(now, m.createdAt) > 3 then (Err(RevokeWindowClosed), messages)
      else (Ok(m.chatId), messages[messageId := m.(isRevoked := true)])
  }

  /** Revocation is one-way: no later send or revoke makes a revoked message unrevoked. */
  lemma RevocationIsFinal(s: ChatState, k: nat, senderId: UserId, receiverId: UserId, content: string,
                          messageId: int, revoker: UserId, now: int)
    requires k < |s.messages| && s.messages[k].isRevoked
    ensures k < |SendNext(s, senderId, receiverId, content, now).1.messages|
    ensures SendNext(s, senderId, receiverId, content, now).1.messages[k].isRevoked
    ensures RevokeNext(s.messages, messageId, revoker, now).1[k].isRevoked
    ensures RevokeNext(s.messages, k, revoker, now) == (Err(AlreadyRevoked), s.messages)
  {
  }

  /** A revoked message cannot be revoked a second time, by anyone, at any time. */
  lemma RevokeTwiceFails(messages: seq<Message>, messageId: int, senderId: UserId, now: int,
                         anyone: UserId, later: int)
    requires RevokeNext(messages, messageId, senderId, now).0.Ok?
    ensures var after := RevokeNext(messages, messageId, senderId, now).1;
      RevokeNext(after, messageId, anyone, later) == (Err(AlreadyRevoked), after)
  {
  }

  // ---------------------------------------------------------------------
  // The chat tables the gateway works on.

  class ChatStore {
    var chats: seq<Chat>
    var messages: seq<Message>
    var unread: map<(nat, UserId), nat>

    constructor()
      ensures chats == [] && messages == [] && unread == map[]
    {
      chats, messages, unread := [], [], map[];
    }

    method HandleSendMessage(senderId: UserId, receiverId: UserId, content: string, now: int)
      returns (r: Result<nat, GatewayError>)
      modifies this
      ensures (r, ChatState(chats, messages, unread)) ==
        SendNext(ChatState(old(chats), old(messages), old(unread)), senderId, receiverId, content, now)
    {
      var found := FindChat(chats, senderId, receiverId);
      var chatId: nat;
      if found.Some? {
        chatId := found.value;
      } else {
        chatId := |chats|;
        chats := chats + [Chat(senderId, receiverId)];
      }
      if GreetingBlocked(messages, chatId, senderId, receiverId) {
        return Err(GreetingLimit);
      }
      r := Ok(|messages|);
      messages := messages + [Message(chatId, senderId, content, false, now)];
      if (chatId, receiverId) in unread {
        unread := unread[(chatId, receiverId) := unread[(chatId, receiverId)] + 1];
      }
    }

    method HandleRevokeMessage(messageId: int, senderId: UserId, now: int) returns (r: Result<nat, GatewayError>)
      modifies this
      ensures (r, messages) == RevokeNext(old(messages), messageId, senderId, now)
      ensures chats == old(chats) && unread == old(unread)
    {
      if !(0 <= messageId < |messages|) {
        return Err(MessageNotFound);
      }
      var m := messages[messageId];
      if m.isRevoked {
        return Err(AlreadyRevoked);
      }
      if m.userId != senderId {
        return Err(NotAuthor);
      }
      if MinutesBetween(now, m.createdAt) > 3 {
        return Err(RevokeWindowClosed);
      }
      messages := messages[messageId := m.(isRevoked := true)];
      return Ok(m.chatId);
    }
  }
}

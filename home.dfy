/**
 * The community chat panel of the home page (`app/page.jsx`): a list of
 * messages seeded with four entries, the text being typed, and the message
 * being replied to. Messages are sent and liked locally; nothing reaches
 * the server.
 */
module Home {
  import opened Optional
  import opened JsString

  /** One entry of the chat list. */
  datatype ChatItem = ChatItem(id: int, text: string, sender: string, timestamp: string,
                               likes: int, isLiked: bool, replies: seq<ChatItem>)

  /** What the like button keeps true: the count is never negative, and a liked message counts its own like. */
  predicate Sane(m: ChatItem)
  {
    m.likes >= 0 && (m.isLiked ==> m.likes >= 1)
  }

  predicate AllSane(ms: seq<ChatItem>)
  {
    forall i :: 0 <= i < |ms| ==> Sane(ms[i])
  }

  /** `{ ...msg, likes: msg.isLiked ? msg.likes - 1 : msg.likes + 1, isLiked: !msg.isLiked }` */
  function Toggled(m: ChatItem): (r: ChatItem)
    ensures r.isLiked == !m.isLiked
    ensures r.likes == if m.isLiked then m.likes - 1 else m.likes + 1
    ensures r.(likes := m.likes, isLiked := m.isLiked) == m
    ensures Sane(m) ==> Sane(r)
  {
    m.(likes := if m.isLiked then m.likes - 1 else m.likes + 1, isLiked := !m.isLiked)
  }

  /** `messages.map(msg => msg.id === messageId ? toggled : msg)` */
  function ToggleLikes(ms: seq<ChatItem>, messageId: int): (r: seq<ChatItem>)
    ensures |r| == |ms|
    ensures forall i :: 0 <= i < |ms| ==> r[i] == if ms[i].id == messageId then Toggled(ms[i]) else ms[i]
  {
    seq(|ms|, i requires 0 <= i < |ms| => if ms[i].id == messageId then Toggled(ms[i]) else ms[i])
  }

  /** Liking twice restores the message. */
  lemma ToggledTwice(m: ChatItem)
    ensures Toggled(Toggled(m)) == m
  {
  }

  /** Toggling the same id twice restores the list. */
  lemma ToggleLikesTwice(ms: seq<ChatItem>, messageId: int)
    ensures ToggleLikes(ToggleLikes(ms, messageId), messageId) == ms
  {
    var once := ToggleLikes(ms, messageId);
    var twice := ToggleLikes(once, messageId);
    forall i | 0 <= i < |ms|
      ensures twice[i] == ms[i]
    {
      if ms[i].id == messageId {
        ToggledTwice(ms[i]);
      }
    }
  }

  /** The like invariant survives every toggle. */
  lemma ToggleLikesSane(ms: seq<ChatItem>, messageId: int)
    requires AllSane(ms)
    ensures AllSane(ToggleLikes(ms, messageId))
  {
  }

  /** The four messages the panel starts with. */
  function Seed(): (ms: seq<ChatItem>)
    ensures |ms| == 4 && AllSane(ms)
    ensures forall i, j :: 0 <= i < j < |ms| ==> ms[i].id != ms[j].id
  {
    [ ChatItem(1, "Hey everyone! How's your day going? \U{1F49B}", "Sarah", "2:30 PM", 3, false, []),
      ChatItem(2, "Feeling a bit overwhelmed today, but trying to stay positive!", "Mike", "2:32 PM", 5, true, []),
      ChatItem(3, "You're doing great, Mike! Remember to take deep breaths \U{1F338}", "Emma", "2:35 PM", 2, false, []),
      ChatItem(4, "Thanks Emma! That really helps \U{2764}\U{FE0F}", "Mike", "2:36 PM", 4, false, []) ]
  }

  /** The message `sendMessage` appends; `now` is `Date.now()` and `clock` the formatted local time. */
  function Outgoing(text: string, now: int, clock: string): (m: ChatItem)
    ensures m.sender == "You" && m.text == text && m.likes == 0 && !m.isLiked && m.replies == []
    ensures Sane(m)
  {
    ChatItem(now, text, "You", clock, 0, false, [])
  }

  /** The state cells of the home page that the chat panel reads and sets. */
  class ChatView {
    var messages: seq<ChatItem>
    var newMessage: string
    var replyTo: Option<ChatItem>

    ghost predicate Valid()
      reads this
    {
      AllSane(messages)
    }

    constructor ()
      ensures messages == Seed() && newMessage == "" && replyTo == None
      ensures Valid()
    {
      messages := Seed();
      newMessage := "";
      replyTo := None;
    }

    /** The input box's `onChange`. */
    method Type(text: string)
      modifies this
      ensures newMessage == text && messages == old(messages) && replyTo == old(replyTo)
    {
      newMessage := text;
    }

    /**
     * `sendMessage`: a blank input changes nothing; otherwise the untrimmed
     * input is appended as a message from "You", and the input and the
     * reply target are cleared.
     */
    method SendMessage(now: int, clock: string)
      requires Valid()
      modifies this
      ensures Valid()
      ensures Trim(old(newMessage)) == "" ==>
        messages == old(messages) && newMessage == old(newMessage) && replyTo == old(replyTo)
      ensures Trim(old(newMessage)) != "" ==>
        messages == old(messages) + [Outgoing(old(newMessage), now, clock)] && newMessage == "" && replyTo == None
    {
      if Trim(newMessage) != "" {
        var message := Outgoing(newMessage, now, clock);
        messages := messages + [message];
        newMessage := "";
        replyTo := None;
      }
    }

    /** `toggleLike(messageId)` */
    method ToggleLike(messageId: int)
      requires Valid()
      modifies this
      ensures Valid()
      ensures messages == ToggleLikes(old(messages), messageId)
      ensures newMessage == old(newMessage) && replyTo == old(replyTo)
    {
      ToggleLikesSane(messages, messageId);
      messages := ToggleLikes(messages, messageId);
    }

    /** `handleDoubleClick(message)`: choose the message to reply to. */
    method HandleDoubleClick(message: ChatItem)
      modifies this
      ensures replyTo == Some(message) && messages == old(messages) && newMessage == old(newMessage)
    {
      replyTo := Some(message);
    }

    /** `handleKeyPress`: Enter without Shift sends; every other key does nothing. */
    method HandleKeyPress(key: string, shiftKey: bool, now: int, clock: string)
      requires Valid()
      modifies this
      ensures Valid()
      ensures key == "Enter" && !shiftKey && Trim(old(newMessage)) != "" ==>
        messages == old(messages) + [Outgoing(old(newMessage), now, clock)] && newMessage == "" && replyTo == None
      ensures !(key == "Enter" && !shiftKey && Trim(old(newMessage)) != "") ==>
        messages == old(messages) && newMessage == old(newMessage) && replyTo == old(replyTo)
    {
      if key == "Enter" && !shiftKey {
        SendMessage(now, clock);
      }
    }
  }
}

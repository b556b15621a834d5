/**
 * The chat server's store (code/chat-server.js): a process-wide array of chats,
 * each chat an append-only array of `{id, author, body}` message objects.
 * `chat()` and `message()` push onto those arrays in place; `messages()` reads
 * a copy.
 */
module ChatStore {
  import JsRuntime

  /** A message object. Its id is its index in the chat it belongs to. */
  datatype Message = Message(id: nat, author: string, body: string)

  /** The message at index `i` of a chat has id `i`: ids are dense and start at 0. */
  predicate DenseIds(log: seq<Message>) {
    forall i :: 0 <= i < |log| ==> log[i].id == i
  }

  /** Every chat in `before` is still there in `after`, with its messages as a prefix. */
  ghost predicate AppendOnly(before: seq<seq<Message>>, after: seq<seq<Message>>) {
    |before| <= |after| && forall c :: 0 <= c < |before| ==> before[c] <= after[c]
  }

  /** `chats[chat_id].slice(since + 1).reverse()`, on one chat's log. */
  function MessagesAfter(log: seq<Message>, since: int): seq<Message> {
    JsRuntime.Reverse(JsRuntime.Slice(log, since + 1))
  }

  /** With a cursor of -1 or more, the listing is the chat from `since + 1` on, newest first. */
  lemma MessagesAfterLayout(log: seq<Message>, since: int)
    requires since >= -1
    ensures var r := MessagesAfter(log, since);
      var k := if since + 1 <= |log| then since + 1 else |log|;
      && |r| == |log| - k
      && forall i :: 0 <= i < |r| ==> r[i] == log[|log| - 1 - i]
  {
  }

  /**
   * With a cursor of -1 or more, `messages()` returns exactly the messages
   * whose id is greater than the cursor, newest first, and nothing once the
   * cursor reaches the last id.
   */
  lemma MessagesAfterCursor(log: seq<Message>, since: int)
    requires DenseIds(log)
    requires since >= -1
    ensures var r := MessagesAfter(log, since);
      && (forall m :: m in r <==> m in log && m.id > since)
      && (forall i :: 0 <= i < |r| ==> r[i].id == |log| - 1 - i)
      && (since + 1 <= |log| ==> |r| == |log| - (since + 1))
      && (since >= |log| - 1 ==> r == [])
  {
    var r := MessagesAfter(log, since);
    MessagesAfterLayout(log, since);
    forall m | m in log && m.id > since
      ensures m in r
    {
      var j :| 0 <= j < |log| && log[j] == m;
      assert r[|log| - 1 - j] == m;
    }
    forall m | m in r
      ensures m in log && m.id > since
    {
      var i :| 0 <= i < |r| && r[i] == m;
      assert m == log[|log| - 1 - i];
    }
  }

  /**
   * A cursor below -1 is a negative start for `slice`, counted back from the
   * end: it returns what the cursor `max(-1, |log| + since)` returns, that is
   * only the newest `-(since + 1)` messages, not all of them.
   */
  lemma MessagesAfterNegativeCursor(log: seq<Message>, since: int)
    requires since < -1
    ensures var start := if |log| + since < -1 then -1 else |log| + since;
      MessagesAfter(log, since) == MessagesAfter(log, start)
    ensures |log| + since + 1 > 0 ==> |MessagesAfter(log, since)| == -(since + 1) < |log|
  {
  }

  /**
   * Which messages are listed, for any cursor: those with an id above the
   * cursor, or, for a cursor below -1, above the chat's length plus the cursor.
   */
  lemma MessagesAfterIds(log: seq<Message>, since: int)
    requires DenseIds(log)
    ensures since >= -1 ==> forall m :: m in MessagesAfter(log, since) <==> m in log && m.id > since
    ensures since < -1 ==> forall m :: m in MessagesAfter(log, since) <==> m in log && m.id > |log| + since
  {
    if since >= -1 {
      MessagesAfterCursor(log, since);
    } else {
      var start := if |log| + since < -1 then -1 else |log| + since;
      MessagesAfterNegativeCursor(log, since);
      MessagesAfterCursor(log, start);
      forall m | m in log
        ensures m.id > start <==> m.id > |log| + since
      {
        var j :| 0 <= j < |log| && log[j] == m;
      }
    }
  }

  /** `messages(c, -1)` is the whole chat, newest first. */
  lemma MessagesAfterStartIsAll(log: seq<Message>)
    ensures var r := MessagesAfter(log, -1);
      |r| == |log| && forall i :: 0 <= i < |r| ==> r[i] == log[|log| - 1 - i]
  {
  }

  /** The store: the array of chats, mutated in place. */
  class Store {
    var chats: seq<seq<Message>>

    /** In every chat, the message at index `i` has id `i`. */
    ghost predicate Valid()
      reads this
    {
      forall c :: 0 <= c < |chats| ==> DenseIds(chats[c])
    }

    /** `var chats = []` */
    constructor ()
      ensures Valid() && chats == []
    {
      chats := [];
    }

    /**
     * `chat()`: pushes an empty chat and returns its index, the number of
     * chats there were before.
     */
    method Chat() returns (id: nat)
      requires Valid()
      modifies this
      ensures Valid()
      ensures id == |old(chats)|
      ensures chats == old(chats) + [[]]
      ensures AppendOnly(old(chats), chats)
    {
      chats := chats + [[]];
      id := |chats| - 1;
    }

    /**
     * `message(chat_id, author, body)`: pushes a message whose id is the
     * chat's length before the push, and returns that id. The source does not
     * check `chat_id`, so an id out of range is excluded here.
     */
    method AddMessage(chatId: nat, author: string, body: string) returns (id: nat)
      requires Valid()
      requires chatId < |chats|
      modifies this
      ensures Valid()
      ensures id == |old(chats[chatId])|
      ensures chats == old(chats)[chatId := old(chats[chatId]) + [Message(id, author, body)]]
      ensures AppendOnly(old(chats), chats)
    {
      var msg := Message(|chats[chatId]|, author, body);
      chats := chats[chatId := chats[chatId] + [msg]];
      id := msg.id;
    }

    /**
     * `messages(chat_id, since)`: the newest messages of the chat, newest
     * first, those whose id is above the cursor; a cursor below -1 counts back
     * from the end of the chat. It changes nothing.
     */
    function Messages(chatId: nat, since: int): (r: seq<Message>)
      reads this
      requires Valid()
      requires chatId < |chats|
      ensures |r| <= |chats[chatId]|
      ensures forall i :: 0 <= i < |r| ==> r[i] == chats[chatId][|chats[chatId]| - 1 - i]
      ensures since >= -1 ==> forall m :: m in r <==> m in chats[chatId] && m.id > since
      ensures since < -1 ==> forall m :: m in r <==> m in chats[chatId] && m.id > |chats[chatId]| + since
    {
      MessagesAfterIds(chats[chatId], since);
      MessagesAfter(chats[chatId], since)
    }
  }

  /**
   * The store in use: two chats, messages to each, and the listings of
   * chat 0 with the cursors -1 and 0.
   */
  method Scenario() {
    var store := new Store();
    var c0 := store.Chat();
    var c1 := store.Chat();
    assert c0 == 0 && c1 == 1;
    var m0 := store.AddMessage(c0, "alice", "hi");
    var m1 := store.AddMessage(c0, "bob", "hello");
    var n0 := store.AddMessage(c1, "carol", "elsewhere");
    assert m0 == 0 && m1 == 1 && n0 == 0;
    assert store.chats[0] == [Message(0, "alice", "hi"), Message(1, "bob", "hello")];
    var all := store.Messages(0, -1);
    assert all == [Message(1, "bob", "hello"), Message(0, "alice", "hi")];
    var newer := store.Messages(0, 0);
    assert newer == [Message(1, "bob", "hello")];
    var none := store.Messages(0, 1);
    assert none == [];
  }
}

/** The document store as an in-memory object: the three collections as
    sequences in natural (insertion) order, and the source of fresh
    ObjectIds. The handlers read the collections directly and write them only
    through `InsertUser` and `InsertConversation`, the models of `insertOne`. */
module Store {
  import opened Records

  /** Every id in `ids` is below `bound` and no id occurs twice. */
  predicate FreshBelow(ids: seq<ObjectId>, bound: nat)
  {
    (forall i | 0 <= i < |ids| :: ids[i] < bound) &&
    (forall i, j | 0 <= i < j < |ids| :: ids[i] != ids[j])
  }

  function UserIds(users: seq<User>): seq<ObjectId>
  {
    seq(|users|, i requires 0 <= i < |users| => users[i].id)
  }

  function ConversationIds(convs: seq<Conversation>): seq<ObjectId>
  {
    seq(|convs|, i requires 0 <= i < |convs| => convs[i].id)
  }

  class Database {
    var users: seq<User>
    var conversations: seq<Conversation>
    var messages: seq<Message>
    /** The next ObjectId the store hands out. */
    var nextId: nat

    /** Identifiers are unique within each collection and were all handed out
        before `nextId`. */
    predicate Valid()
      reads this
    {
      FreshBelow(UserIds(users), nextId) && FreshBelow(ConversationIds(conversations), nextId)
    }

    constructor ()
      ensures Valid()
      ensures users == [] && conversations == [] && messages == []
    {
      users, conversations, messages, nextId := [], [], [], 0;
    }

    /** `insertOne` on the users collection: the document gets a fresh id and
        is appended; nothing else changes. */
    method InsertUser(doc: User) returns (id: ObjectId)
      requires Valid()
      modifies this
      ensures Valid()
      ensures id == old(nextId) && nextId == id + 1
      ensures users == old(users) + [doc.(id := id)]
      ensures conversations == old(conversations) && messages == old(messages)
    {
      id := nextId;
      users := users + [doc.(id := id)];
      nextId := nextId + 1;
      assert UserIds(users) == UserIds(old(users)) + [id];
    }

    /** `insertOne` on the conversations collection. */
    method InsertConversation(participants: seq<Participant>, createdAt: Time, updatedAt: Time)
      returns (id: ObjectId)
      requires Valid()
      modifies this
      ensures Valid()
      ensures id == old(nextId) && nextId == id + 1
      ensures conversations == old(conversations) + [Conversation(id, participants, createdAt, updatedAt)]
      ensures users == old(users) && messages == old(messages)
    {
      id := nextId;
      conversations := conversations + [Conversation(id, participants, createdAt, updatedAt)];
      nextId := nextId + 1;
      assert ConversationIds(conversations) == ConversationIds(old(conversations)) + [id];
    }
  }
}

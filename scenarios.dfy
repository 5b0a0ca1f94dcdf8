/** A client of the handlers: what callers can conclude from the handlers'
    specifications alone, for the two-user flow the application is built
    around (register two users, then start a chat by short code, repeat it,
    and start it from the other side). */
module Scenarios {
  import opened Records
  import opened Store
  import opened ShortCode
  import RegisterRoute
  import StartChatRoute
  import ConversationsRoute
  import Dashboard

  /** The users collection after Alice and then Bob register with distinct
      draws: both are found by email and by code. */
  lemma TwoRegistered(users: seq<User>, codeA: string, codeB: string)
    requires |users| == 2 && codeA != codeB
    requires users[0].email == "alice@x.com" && users[0].shortCode == Some(codeA)
    requires users[1].email == "bob@x.com" && users[1].shortCode == Some(codeB)
    ensures FindByEmail(users, "alice@x.com") == Some(0) && FindByEmail(users, "bob@x.com") == Some(1)
    ensures FindByCode(users, codeA) == Some(0) && FindByCode(users, codeB) == Some(1)
  {
  }

  method TwoUsersChat(hash: string -> Digest, picksA: seq<nat>, picksB: seq<nat>, now: Time)
    returns (first: StartChatRoute.ChatReply, again: StartChatRoute.ChatReply, back: StartChatRoute.ChatReply)
    requires ValidPicks(picksA) && ValidPicks(picksB) && picksA != picksB
    ensures first.ChatOpened? && first.isNew
    ensures again == StartChatRoute.ChatOpened(first.conversationId, false)
    ensures back == again
  {
    var db := new Database();
    var alice := RegisterRoute.Request(Some("Alice"), Some("alice@x.com"), Some("pw123456"));
    var bob := RegisterRoute.Request(Some("Bob"), Some("bob@x.com"), Some("pw123456"));
    RegisterRoute.CreatesOneUser([], alice, hash, picksA, now, db.nextId);
    var created := RegisterRoute.Post(db, alice, hash, picksA, now);
    assert !EmailTaken(db.users, "bob@x.com");
    RegisterRoute.CreatesOneUser(db.users, bob, hash, picksB, now, db.nextId);
    created := RegisterRoute.Post(db, bob, hash, picksB, now);
    var users := db.users;
    if CodeFor(picksA) == CodeFor(picksB) {
      CodeForInjective(picksA, picksB);
    }
    var codeA, codeB := users[0].shortCode.value, users[1].shortCode.value;
    TwoRegistered(users, codeA, codeB);

    StartChatRoute.CreatesConversation(users, [], Some("alice@x.com"), Some(codeB), now, db.nextId, 0, 1);
    first := StartChatRoute.Post(db, Some("alice@x.com"), Some(codeB), now);
    var c := db.conversations[0];
    assert c.participants[0].userId == users[0].id && c.participants[1].userId == users[1].id;
    assert StartChatRoute.Links(c, users[0].id, users[1].id);
    assert StartChatRoute.Links(c, users[1].id, users[0].id);

    StartChatRoute.ReturnsExisting(users, [c], Some("alice@x.com"), Some(codeB), now, db.nextId, 0, 1, 0);
    again := StartChatRoute.Post(db, Some("alice@x.com"), Some(codeB), now);
    StartChatRoute.ReturnsExisting(users, [c], Some("bob@x.com"), Some(codeA), now, db.nextId, 1, 0, 0);
    back := StartChatRoute.Post(db, Some("bob@x.com"), Some(codeA), now);
  }

  /** The store hands out every conversation id once. */
  lemma StoredConversationIdsDistinct(db: Database)
    requires db.Valid()
    ensures DistinctConversationIds(db.conversations)
  {
    var ids := ConversationIds(db.conversations);
    forall i, j | 0 <= i < j < |db.conversations|
      ensures db.conversations[i].id != db.conversations[j].id
    {
      assert ids[i] == db.conversations[i].id && ids[j] == db.conversations[j].id;
    }
  }

  /** A poll step over the listing the store serves to a signed-in user
      records the time of every listed conversation that has a message. */
  lemma PollRecordsListing(db: Database, email: string, seen: map<ObjectId, Time>)
    requires db.Valid() && email != ""
    ensures var l := ConversationsRoute.List(db.users, db.conversations, db.messages, Some(email));
      && l.Listed?
      && var r := Dashboard.Stamp(seen, l.summaries);
      forall k | 0 <= k < |l.summaries| && l.summaries[k].lastMessage.Some? ::
        l.summaries[k].id in r && r[l.summaries[k].id] == l.summaries[k].lastMessage.value.createdAt
  {
    StoredConversationIdsDistinct(db);
    ConversationsRoute.ListedIdsDistinct(db.users, db.conversations, db.messages, email);
    var l := ConversationsRoute.List(db.users, db.conversations, db.messages, Some(email));
    Dashboard.StampTimesDistinct(seen, l.summaries);
  }
}

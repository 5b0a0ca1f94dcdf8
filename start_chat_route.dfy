/** `POST` of nextext/src/app/api/start-chat/route.ts: find or create the
    two-party conversation between the signed-in user and the user owning a
    short code. */
module StartChatRoute {
  import opened Records
  import opened Store

  datatype ChatReply =
    | ChatFailed(status: nat, error: string)
    /** Status 200 with `{ conversationId, isNew }`. */
    | ChatOpened(conversationId: ObjectId, isNew: bool)

  /** Some participant entry carries this user id (`$elemMatch: { userId }`). */
  predicate Includes(c: Conversation, userId: ObjectId)
  {
    exists k | 0 <= k < |c.participants| :: c.participants[k].userId == userId
  }

  /** The existing-conversation query: `$all` of two `$elemMatch`es, that is,
      the participant list contains both ids, in either order. This is
      containment, not equality of the participant set. */
  predicate Links(c: Conversation, a: ObjectId, b: ObjectId)
  {
    Includes(c, a) && Includes(c, b)
  }

  function FindConversation(convs: seq<Conversation>, a: ObjectId, b: ObjectId): (r: Option<nat>)
    ensures r.None? <==> forall k | 0 <= k < |convs| :: !Links(convs[k], a, b)
    ensures r.Some? ==> r.value < |convs| && Links(convs[r.value], a, b)
  {
    FirstIndex(convs, (c: Conversation) => Links(c, a, b))
  }

  /** The set of user ids taking part in a conversation. */
  function Members(c: Conversation): set<ObjectId>
  {
    set k | 0 <= k < |c.participants| :: c.participants[k].userId
  }

  /** No two conversations have the same set of participants. */
  predicate PairsUnique(convs: seq<Conversation>)
  {
    forall i, j | 0 <= i < j < |convs| :: Members(convs[i]) != Members(convs[j])
  }

  /** Every participant snapshot names a registered user by id and email. */
  predicate ParticipantsRegistered(users: seq<User>, convs: seq<Conversation>)
  {
    forall i, k | 0 <= i < |convs| && 0 <= k < |convs[i].participants| ::
      exists u | 0 <= u < |users| :: users[u].id == convs[i].participants[k].userId
                                    && users[u].email == convs[i].participants[k].email
  }

  /** The conversation the handler inserts for requester `a` and target `b`. */
  function NewConversation(id: ObjectId, a: User, b: User, now: Time): Conversation
  {
    Conversation(id, [Participant(a.id, a.email), Participant(b.id, b.email)], now, now)
  }

  /** The reply and the new conversations collection for one request, given
      the session email, the body's short code, the clock and the id the store
      hands out next. The users collection is only read. */
  function Outcome(users: seq<User>, convs: seq<Conversation>, session: Option<string>, code: Option<string>,
                   now: Time, id: ObjectId): (r: (ChatReply, seq<Conversation>))
    ensures r.1 == convs || (r.0 == ChatOpened(id, true) && |r.1| == |convs| + 1 && r.1[..|convs|] == convs)
  {
    if !Given(session) then (ChatFailed(401, "Unauthorized"), convs)
    else if !Given(code) then (ChatFailed(400, "Short code is required"), convs)
    else
      var i := FindByEmail(users, session.value);
      if i.None? then (ChatFailed(404, "User not found"), convs)
      else
        var j := FindByCode(users, code.value);
        if j.None? then (ChatFailed(404, "User not found"), convs)
        else
          var a, b := users[i.value], users[j.value];
          var k := FindConversation(convs, a.id, b.id);
          if k.Some? then (ChatOpened(convs[k.value].id, false), convs)
          else
            var c := NewConversation(id, a, b, now);
            assert (convs + [c])[..|convs|] == convs;
            (ChatOpened(id, true), convs + [c])
  }

  /** Without a signed-in email: 401, nothing created. */
  lemma RejectsAnonymous(users: seq<User>, convs: seq<Conversation>, session: Option<string>, code: Option<string>,
                         now: Time, id: ObjectId)
    requires !Given(session)
    ensures Outcome(users, convs, session, code, now, id) == (ChatFailed(401, "Unauthorized"), convs)
  {
  }

  /** Without a short code: 400, nothing created. */
  lemma RejectsMissingCode(users: seq<User>, convs: seq<Conversation>, session: Option<string>, code: Option<string>,
                           now: Time, id: ObjectId)
    requires Given(session) && !Given(code)
    ensures Outcome(users, convs, session, code, now, id) == (ChatFailed(400, "Short code is required"), convs)
  {
  }

  /** An unknown requester email or an unknown short code: 404, nothing
      created. */
  lemma RejectsUnknownUser(users: seq<User>, convs: seq<Conversation>, session: Option<string>, code: Option<string>,
                           now: Time, id: ObjectId)
    requires Given(session) && Given(code)
    requires !EmailTaken(users, session.value) || forall u | 0 <= u < |users| :: users[u].shortCode != Some(code.value)
    ensures Outcome(users, convs, session, code, now, id) == (ChatFailed(404, "User not found"), convs)
  {
  }

  /** Both users found and some conversation includes both ids: its id comes
      back with `isNew = false` and nothing is inserted. */
  lemma ReturnsExisting(users: seq<User>, convs: seq<Conversation>, session: Option<string>, code: Option<string>,
                        now: Time, id: ObjectId, a: nat, b: nat, k: nat)
    requires Given(session) && Given(code)
    requires FindByEmail(users, session.value) == Some(a) && FindByCode(users, code.value) == Some(b)
    requires k < |convs| && Links(convs[k], users[a].id, users[b].id)
    ensures var (reply, convs') := Outcome(users, convs, session, code, now, id);
      && convs' == convs
      && reply.ChatOpened? && !reply.isNew
      && exists m | 0 <= m < |convs| :: convs[m].id == reply.conversationId && Links(convs[m], users[a].id, users[b].id)
  {
    var m := FindConversation(convs, users[a].id, users[b].id);
    assert m.Some?;
  }

  /** Both users found and no conversation includes both: exactly one
      conversation is appended, with participants `[requester, target]` as
      (userId, email) snapshots, and its new id comes back with
      `isNew = true`. */
  lemma CreatesConversation(users: seq<User>, convs: seq<Conversation>, session: Option<string>, code: Option<string>,
                            now: Time, id: ObjectId, a: nat, b: nat)
    requires Given(session) && Given(code)
    requires FindByEmail(users, session.value) == Some(a) && FindByCode(users, code.value) == Some(b)
    requires forall k | 0 <= k < |convs| :: !Links(convs[k], users[a].id, users[b].id)
    ensures var (reply, convs') := Outcome(users, convs, session, code, now, id);
      && reply == ChatOpened(id, true)
      && convs' == convs + [Conversation(id, [Participant(users[a].id, users[a].email),
                                              Participant(users[b].id, users[b].email)], now, now)]
  {
  }

  /** Every call inserts at most one conversation, and a reported new one is
      the appended one. */
  lemma InsertsAtMostOne(users: seq<User>, convs: seq<Conversation>, session: Option<string>, code: Option<string>,
                         now: Time, id: ObjectId)
    ensures var (reply, convs') := Outcome(users, convs, session, code, now, id);
      || (convs' == convs && !(reply.ChatOpened? && reply.isNew))
      || (reply == ChatOpened(id, true) && |convs'| == |convs| + 1 && convs'[..|convs|] == convs
          && convs'[|convs|].id == id && |convs'[|convs|].participants| == 2)
  {
    var (reply, convs') := Outcome(users, convs, session, code, now, id);
    if convs' != convs {
      assert convs'[..|convs|] == convs;
    }
  }

  /** Repeating a successful call with the same session and code returns the
      same conversation, now with `isNew = false`, and inserts nothing. */
  lemma Idempotent(users: seq<User>, convs: seq<Conversation>, session: Option<string>,
                            code: Option<string>, now: Time, id: ObjectId, now2: Time, id2: ObjectId)
    requires Outcome(users, convs, session, code, now, id).0.ChatOpened?
    ensures var (reply, convs') := Outcome(users, convs, session, code, now, id);
      Outcome(users, convs', session, code, now2, id2) == (ChatOpened(reply.conversationId, false), convs')
  {
    var (reply, convs') := Outcome(users, convs, session, code, now, id);
    var a := users[FindByEmail(users, session.value).value];
    var b := users[FindByCode(users, code.value).value];
    var p := (c: Conversation) => Links(c, a.id, b.id);
    if reply.isNew {
      var c := NewConversation(id, a, b, now);
      assert c.participants[0].userId == a.id && c.participants[1].userId == b.id;
      FirstIndexAppend(convs, p, c);
      assert (convs + [c])[|convs|] == c;
    }
  }

  /** A requester who enters their own short code is sent to any existing
      conversation that merely includes them, whoever the other participant
      is; no self-conversation is created then. */
  lemma OwnCodeMatchesAnyConversation(users: seq<User>, convs: seq<Conversation>, session: Option<string>,
                                      code: Option<string>, now: Time, id: ObjectId, a: nat, k: nat)
    requires Given(session) && Given(code)
    requires FindByEmail(users, session.value) == Some(a) && FindByCode(users, code.value) == Some(a)
    requires k < |convs| && Includes(convs[k], users[a].id)
    ensures var (reply, convs') := Outcome(users, convs, session, code, now, id);
      && convs' == convs && reply.ChatOpened? && !reply.isNew
      && exists m | 0 <= m < |convs| :: convs[m].id == reply.conversationId && Includes(convs[m], users[a].id)
  {
    assert Links(convs[k], users[a].id, users[a].id);
    ReturnsExisting(users, convs, session, code, now, id, a, a, k);
  }

  /** Called one after another, the handler never creates a second
      conversation for the same set of participants. */
  lemma KeepsPairsUnique(users: seq<User>, convs: seq<Conversation>, session: Option<string>, code: Option<string>,
                         now: Time, id: ObjectId)
    requires PairsUnique(convs)
    ensures PairsUnique(Outcome(users, convs, session, code, now, id).1)
  {
    var (reply, convs') := Outcome(users, convs, session, code, now, id);
    if convs' != convs {
      var a := users[FindByEmail(users, session.value).value];
      var b := users[FindByCode(users, code.value).value];
      var c := NewConversation(id, a, b, now);
      assert convs' == convs + [c];
      assert c.participants[0].userId == a.id && c.participants[1].userId == b.id;
      assert Members(c) == {a.id, b.id};
      forall i | 0 <= i < |convs|
        ensures Members(convs[i]) != Members(c)
      {
        if Members(convs[i]) == Members(c) {
          assert a.id in Members(convs[i]) && b.id in Members(convs[i]);
          assert Links(convs[i], a.id, b.id);
          assert false;
        }
      }
    }
  }

  /** Participant snapshots always name registered users: the handler copies
      them from the users it has just found. */
  lemma KeepsParticipantsRegistered(users: seq<User>, convs: seq<Conversation>, session: Option<string>,
                                    code: Option<string>, now: Time, id: ObjectId)
    requires ParticipantsRegistered(users, convs)
    ensures ParticipantsRegistered(users, Outcome(users, convs, session, code, now, id).1)
  {
    var (reply, convs') := Outcome(users, convs, session, code, now, id);
    if convs' != convs {
      var ia := FindByEmail(users, session.value).value;
      var ib := FindByCode(users, code.value).value;
      var c := NewConversation(id, users[ia], users[ib], now);
      assert convs' == convs + [c];
      forall i, k | 0 <= i < |convs'| && 0 <= k < |convs'[i].participants|
        ensures exists u | 0 <= u < |users| :: users[u].id == convs'[i].participants[k].userId
                                              && users[u].email == convs'[i].participants[k].email
      {
        if i < |convs| {
          assert convs'[i] == convs[i];
        } else if k == 0 {
          assert convs'[i].participants[k] == Participant(users[ia].id, users[ia].email);
        } else {
          assert convs'[i].participants[k] == Participant(users[ib].id, users[ib].email);
        }
      }
    }
  }

  /** The handler: session and body checks, two user lookups, the
      existing-conversation query and, failing that, one `insertOne`. */
  method Post(db: Database, session: Option<string>, code: Option<string>, now: Time) returns (reply: ChatReply)
    requires db.Valid()
    modifies db
    ensures db.Valid()
    ensures (reply, db.conversations) == Outcome(old(db.users), old(db.conversations), session, code, now, old(db.nextId))
    ensures db.users == old(db.users) && db.messages == old(db.messages)
  {
    if !Given(session) {
      return ChatFailed(401, "Unauthorized");
    }
    if !Given(code) {
      return ChatFailed(400, "Short code is required");
    }
    var i := FindByEmail(db.users, session.value);
    if i.None? {
      return ChatFailed(404, "User not found");
    }
    var userA := db.users[i.value];
    var j := FindByCode(db.users, code.value);
    if j.None? {
      return ChatFailed(404, "User not found");
    }
    var userB := db.users[j.value];
    var existing := FindConversation(db.conversations, userA.id, userB.id);
    if existing.Some? {
      return ChatOpened(db.conversations[existing.value].id, false);
    }
    var id := db.InsertConversation([Participant(userA.id, userA.email), Participant(userB.id, userB.email)], now, now);
    return ChatOpened(id, true);
  }
}

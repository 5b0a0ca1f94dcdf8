/** `POST` of nextext/src/app/api/register/route.ts: validate the three
    required fields, refuse an email that is already registered, otherwise
    hash the password, generate a short code and insert one user. */
module RegisterRoute {
  import opened Records
  import opened Store
  import opened ShortCode

  const FieldsRequired := "Name, Email and Password Required"
  const UserExists := "User already exists"
  const UserCreated := "User created successfully"

  /** The JSON body's fields; `None` is a missing or null field. */
  datatype Request = Request(name: Option<string>, email: Option<string>, password: Option<string>)

  predicate Complete(req: Request)
  {
    Given(req.name) && Given(req.email) && Given(req.password)
  }

  /** The reply and the new users collection for one request, given the
      hasher, the six random draws, the clock and the id the store hands
      out next. */
  function Outcome(users: seq<User>, req: Request, hash: string -> Digest, picks: seq<nat>, now: Time, id: ObjectId)
    : (r: (Reply, seq<User>))
    requires ValidPicks(picks)
    ensures r.1 == users || (r.0 == Reply(201, UserCreated) && |r.1| == |users| + 1 && r.1[..|users|] == users)
  {
    if !Complete(req) then (Reply(400, FieldsRequired), users)
    else if FindByEmail(users, req.email.value).Some? then (Reply(400, UserExists), users)
    else
      var user := User(id, req.name, req.email.value, hash(req.password.value), Some(CodeFor(picks)), Some(now));
      assert (users + [user])[..|users|] == users;
      (Reply(201, UserCreated), users + [user])
  }

  /** A missing or empty name, email or password is refused with 400 and the
      collection is left as it was. */
  lemma RejectsIncomplete(users: seq<User>, req: Request, hash: string -> Digest, picks: seq<nat>, now: Time, id: ObjectId)
    requires ValidPicks(picks)
    requires !Given(req.name) || !Given(req.email) || !Given(req.password)
    ensures Outcome(users, req, hash, picks, now, id) == (Reply(400, FieldsRequired), users)
  {
  }

  /** An email that some user already has is refused with 400 and nothing is
      inserted. */
  lemma RejectsDuplicate(users: seq<User>, req: Request, hash: string -> Digest, picks: seq<nat>, now: Time, id: ObjectId)
    requires ValidPicks(picks) && Complete(req)
    requires EmailTaken(users, req.email.value)
    ensures Outcome(users, req, hash, picks, now, id) == (Reply(400, UserExists), users)
  {
  }

  /** A complete request with a new email is answered 201 and appends exactly
      one user: the given name and email, the hash of the password (never the
      password itself), a six-symbol code over A-Z0-9 and the creation time.
      Existing users are untouched. */
  lemma CreatesOneUser(users: seq<User>, req: Request, hash: string -> Digest, picks: seq<nat>, now: Time, id: ObjectId)
    requires ValidPicks(picks) && Complete(req)
    requires !EmailTaken(users, req.email.value)
    ensures var (reply, users') := Outcome(users, req, hash, picks, now, id);
      && reply == Reply(201, UserCreated)
      && |users'| == |users| + 1 && users'[..|users|] == users
      && var u := users'[|users|];
      && u.id == id && u.name == req.name && u.email == req.email.value
      && u.password == hash(req.password.value)
      && u.createdAt == Some(now)
      && u.shortCode == Some(CodeFor(picks)) && |u.shortCode.value| == CodeLength
      && (forall k | 0 <= k < CodeLength :: IsCodeChar(u.shortCode.value[k]))
  {
    CodeForShape(picks);
    var (_, users') := Outcome(users, req, hash, picks, now, id);
    assert users'[..|users|] == users;
  }

  /** The reply is 201 exactly when the request is complete and the email is
      new; every other reply leaves the collection unchanged. */
  lemma CreatedIff(users: seq<User>, req: Request, hash: string -> Digest, picks: seq<nat>, now: Time, id: ObjectId)
    requires ValidPicks(picks)
    ensures var (reply, users') := Outcome(users, req, hash, picks, now, id);
      && (reply.status == 201 <==> Complete(req) && !EmailTaken(users, req.email.value))
      && (reply.status != 201 ==> reply.status == 400 && users' == users)
  {
  }

  /** Registration keeps emails unique. */
  lemma KeepsEmailsUnique(users: seq<User>, req: Request, hash: string -> Digest, picks: seq<nat>, now: Time, id: ObjectId)
    requires ValidPicks(picks) && UniqueEmails(users)
    ensures UniqueEmails(Outcome(users, req, hash, picks, now, id).1)
  {
  }

  /** Registering the same email twice: the second request is refused and
      exactly one user with that email remains. */
  lemma SecondRegistrationRefused(users: seq<User>, req: Request, req2: Request, hash: string -> Digest,
                                  picks: seq<nat>, picks2: seq<nat>, now: Time, now2: Time, id: ObjectId, id2: ObjectId)
    requires ValidPicks(picks) && ValidPicks(picks2)
    requires Complete(req) && Complete(req2) && req2.email == req.email
    requires Outcome(users, req, hash, picks, now, id).0.status == 201
    ensures var users' := Outcome(users, req, hash, picks, now, id).1;
      && Outcome(users', req2, hash, picks2, now2, id2) == (Reply(400, UserExists), users')
      && forall i | 0 <= i < |users'| :: users'[i].email == req.email.value <==> i == |users|
  {
    CreatedIff(users, req, hash, picks, now, id);
    var users' := Outcome(users, req, hash, picks, now, id).1;
    assert users'[|users|].email == req.email.value;
    assert forall i | 0 <= i < |users| :: users'[i] == users[i];
  }

  /** The handler: guard checks, then one `insertOne`. */
  method Post(db: Database, req: Request, hash: string -> Digest, picks: seq<nat>, now: Time)
    returns (reply: Reply)
    requires db.Valid() && ValidPicks(picks)
    modifies db
    ensures db.Valid()
    ensures (reply, db.users) == Outcome(old(db.users), req, hash, picks, now, old(db.nextId))
    ensures db.conversations == old(db.conversations) && db.messages == old(db.messages)
  {
    if !Given(req.email) || !Given(req.password) || !Given(req.name) {
      return Reply(400, FieldsRequired);
    }
    var existing := FindByEmail(db.users, req.email.value);
    if existing.Some? {
      return Reply(400, UserExists);
    }
    var hashed := hash(req.password.value);
    var code := GenerateShortCode(picks);
    var _ := db.InsertUser(User(0, req.name, req.email.value, hashed, Some(code), Some(now)));
    return Reply(201, UserCreated);
  }
}

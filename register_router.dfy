/** `POST` of nextext/src/app/api/register/router.ts, the older registration
    revision: only email and password are required, and the inserted
    document holds nothing but the email and the password hash. */
module RegisterRouter {
  import opened Records
  import opened Store

  const FieldsRequired := "Email and Pasword Required"
  const UserExists := "User already exists"
  const UserCreated := "User created successfully"

  /** The fields this revision reads from the JSON body. */
  datatype Request = Request(email: Option<string>, password: Option<string>)

  function Outcome(users: seq<User>, req: Request, hash: string -> Digest, id: ObjectId): (r: (Reply, seq<User>))
    ensures r.1 == users || (r.0 == Reply(201, UserCreated) && |r.1| == |users| + 1 && r.1[..|users|] == users)
  {
    if !Given(req.email) || !Given(req.password) then (Reply(400, FieldsRequired), users)
    else if FindByEmail(users, req.email.value).Some? then (Reply(400, UserExists), users)
    else
      var user := User(id, None, req.email.value, hash(req.password.value), None, None);
      assert (users + [user])[..|users|] == users;
      (Reply(201, UserCreated), users + [user])
  }

  /** A missing email or password is refused with 400; a name is not needed. */
  lemma RejectsIncomplete(users: seq<User>, req: Request, hash: string -> Digest, id: ObjectId)
    requires !Given(req.email) || !Given(req.password)
    ensures Outcome(users, req, hash, id) == (Reply(400, FieldsRequired), users)
  {
  }

  /** An email already present is refused with 400 and nothing changes. */
  lemma RejectsDuplicate(users: seq<User>, req: Request, hash: string -> Digest, id: ObjectId)
    requires Given(req.email) && Given(req.password) && EmailTaken(users, req.email.value)
    ensures Outcome(users, req, hash, id) == (Reply(400, UserExists), users)
  {
  }

  /** Otherwise exactly one document is appended, holding only the email and
      the password hash: no name, no short code, no creation time. */
  lemma CreatesBareUser(users: seq<User>, req: Request, hash: string -> Digest, id: ObjectId)
    requires Given(req.email) && Given(req.password) && !EmailTaken(users, req.email.value)
    ensures var (reply, users') := Outcome(users, req, hash, id);
      && reply == Reply(201, UserCreated)
      && |users'| == |users| + 1 && users'[..|users|] == users
      && users'[|users|] == User(id, None, req.email.value, hash(req.password.value), None, None)
  {
    var (_, users') := Outcome(users, req, hash, id);
    assert users'[..|users|] == users;
  }

  /** This revision keeps emails unique as well. */
  lemma KeepsEmailsUnique(users: seq<User>, req: Request, hash: string -> Digest, id: ObjectId)
    requires UniqueEmails(users)
    ensures UniqueEmails(Outcome(users, req, hash, id).1)
  {
  }

  method Post(db: Database, req: Request, hash: string -> Digest) returns (reply: Reply)
    requires db.Valid()
    modifies db
    ensures db.Valid()
    ensures (reply, db.users) == Outcome(old(db.users), req, hash, old(db.nextId))
    ensures db.conversations == old(db.conversations) && db.messages == old(db.messages)
  {
    if !Given(req.email) || !Given(req.password) {
      return Reply(400, FieldsRequired);
    }
    var existing := FindByEmail(db.users, req.email.value);
    if existing.Some? {
      return Reply(400, UserExists);
    }
    var hashed := hash(req.password.value);
    var _ := db.InsertUser(User(0, None, req.email.value, hashed, None, None));
    return Reply(201, UserCreated);
  }
}

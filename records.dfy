/** The documents of the three collections (users, conversations, messages),
    the shapes the HTTP handlers return, and the query primitives of the
    document store (`findOne` as "first document in natural order that
    matches"). */
module Records {

  datatype Option<T> = None | Some(value: T)

  /** Database identifiers. A message's `conversationId` is kept as an
      ObjectId: distinct ids have distinct canonical strings, and a stored
      string that is no id's canonical form stands for an id that no
      conversation carries. */
  type ObjectId = nat

  /** Clock readings (JavaScript `Date`s) as integer milliseconds. */
  type Time = int

  /** Output of the password-hashing library, kept apart from plain strings
      so that a stored password can only be something the hasher produced. */
  datatype Digest = Digest(text: string)

  /** A user document. The older registration revision stores only the email
      and the hash, so name, short code and creation time are optional. */
  datatype User = User(
    id: ObjectId,
    name: Option<string>,
    email: string,
    password: Digest,
    shortCode: Option<string>,
    createdAt: Option<Time>)

  /** One entry of a conversation's participant list: a snapshot of the user
      id and email taken when the conversation was created. */
  datatype Participant = Participant(userId: ObjectId, email: string)

  datatype Conversation = Conversation(
    id: ObjectId,
    participants: seq<Participant>,
    createdAt: Time,
    updatedAt: Time)

  datatype Message = Message(
    id: ObjectId,
    conversationId: ObjectId,
    content: string,
    senderEmail: string,
    createdAt: Time)

  /** The public fields of a user that the conversation listing projects. */
  datatype Profile = Profile(name: Option<string>, email: string, shortCode: Option<string>)

  /** One element of the conversation listing, as the dashboard receives it. */
  datatype Summary = Summary(id: ObjectId, participants: seq<Profile>, lastMessage: Option<Message>)

  /** A plain-text HTTP response. */
  datatype Reply = Reply(status: nat, text: string)

  /** JavaScript truthiness of an optional string field: present and non-empty. */
  predicate Given(field: Option<string>)
  {
    field.Some? && field.value != ""
  }

  /** No two user documents share an email. */
  predicate UniqueEmails(users: seq<User>)
  {
    forall i, j | 0 <= i < j < |users| :: users[i].email != users[j].email
  }

  /** True iff some user document has the given email. */
  predicate EmailTaken(users: seq<User>, email: string)
  {
    exists i | 0 <= i < |users| :: users[i].email == email
  }

  /** No two conversations share an id. */
  predicate DistinctConversationIds(s: seq<Conversation>)
  {
    forall i, j | 0 <= i < j < |s| :: s[i].id != s[j].id
  }

  /** No two summaries share an id. */
  predicate DistinctSummaryIds(s: seq<Summary>)
  {
    forall i, j | 0 <= i < j < |s| :: s[i].id != s[j].id
  }

  /** The position of the first element satisfying `p`, if any: the model of
      `findOne`, which returns the first matching document in natural order. */
  function FirstIndex<T>(s: seq<T>, p: T -> bool): (r: Option<nat>)
    ensures r.None? <==> forall j | 0 <= j < |s| :: !p(s[j])
    ensures r.Some? ==> r.value < |s| && p(s[r.value])
    ensures r.Some? ==> forall j | 0 <= j < r.value :: !p(s[j])
  {
    if |s| == 0 then None
    else if p(s[0]) then Some(0)
    else match FirstIndex(s[1..], p)
      case None => None
      case Some(k) => Some(k + 1)
  }

  /** If nothing in `s` matches and `x` does, the first match in `s + [x]`
      is `x`. */
  lemma FirstIndexAppend<T>(s: seq<T>, p: T -> bool, x: T)
    requires forall j | 0 <= j < |s| :: !p(s[j])
    requires p(x)
    ensures FirstIndex(s + [x], p) == Some(|s|)
  {
    assert (s + [x])[|s|] == x;
    assert forall j | 0 <= j < |s| :: (s + [x])[j] == s[j];
  }

  /** `findOne({ email })` on the users collection. */
  function FindByEmail(users: seq<User>, email: string): (r: Option<nat>)
    ensures r.None? <==> !EmailTaken(users, email)
    ensures r.Some? ==> r.value < |users| && users[r.value].email == email
    ensures r.Some? ==> forall j | 0 <= j < r.value :: users[j].email != email
  {
    FirstIndex(users, (u: User) => u.email == email)
  }

  /** `findOne({ shortCode })` on the users collection; a document without a
      short code (as the older registration revision writes) never matches. */
  function FindByCode(users: seq<User>, code: string): (r: Option<nat>)
    ensures r.None? <==> forall i | 0 <= i < |users| :: users[i].shortCode != Some(code)
    ensures r.Some? ==> r.value < |users| && users[r.value].shortCode == Some(code)
    ensures r.Some? ==> forall j | 0 <= j < r.value :: users[j].shortCode != Some(code)
  {
    FirstIndex(users, (u: User) => u.shortCode == Some(code))
  }
}

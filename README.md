# NexText: a Dafny model of the registration, start-chat, listing and polling logic

NexText is a two-party messaging web application. Users register with a
name, email and password and receive a six-symbol short code; a user starts
a conversation with another by entering that person's code; the dashboard
lists the signed-in user's conversations and sets a two-second polling
interval to refresh it, raising a notification flag when a conversation has a newer
message from someone else.

This project models the decision-making of that application:

- the two registration handlers, `register/route.ts` and its older
  revision `register/router.ts`, with the short-code generator;
- the find-or-create handler `start-chat/route.ts`;
- the aggregation behind `GET /api/conversations`;
- the dashboard's poll step, notification clearing and single polling
  interval in `dashboard/page.tsx`.

The document store is an object of class `Store.Database`. It holds the
three collections (users, conversations, messages) as sequences in natural
order, plus a counter that hands out fresh ObjectIds. `findOne` is "the
first document in natural order that matches" (`Records.FirstIndex`), and
`insertOne` appends one document with a fresh id (`Database.InsertUser`,
`Database.InsertConversation`). Each mutating handler (the two
registrations and start-chat) is an imperative method that takes the
database. Its guards and inserts follow the source line by line. Its
postcondition ties the reply and the new collection to a pure `Outcome`
function of the old collections. The properties of each handler are then
lemmas about `Outcome`. The listing handler only reads, and is the pure
function `ConversationsRoute.List` of the three collections and the
session.

The handlers take these inputs:

- the session email, as `Option<string>`;
- the password hasher, as an opaque function `string -> Digest`;
- the clock, as an integer `Time`;
- the six random draws of the short-code generator, as six numbers below 36.

The dashboard is a class whose fields are the component's state:

- the displayed list, `loading` and `error`;
- the notification map and the last-seen-timestamp map;
- the polling-interval ref;
- the browser's set of running intervals, with its handle counter.

`Scenarios.TwoUsersChat` is a client of these specifications. In it, two
users register, then start a chat three times: twice from the first user's
side and once from the other side.

Three behaviours of the code that the model keeps as written:

- Start-chat matches an existing conversation by *containment*: the
  participant list includes both user ids (`$all` of two `$elemMatch`es).
  It does not require the participant set to equal the pair. So a user who
  enters their own short code is sent to any conversation that includes
  them (`StartChatRoute.OwnCodeMatchesAnyConversation`).
- A duplicate email at registration is answered with status 400, the same
  status as a missing field.
- The listing's `$sort` puts conversations without a message after all the
  others, because a missing field sorts as the smallest value. Ties between
  equal times are in no specified order.

## Model

| member | source | states |
|---|---|---|
| Records.FirstIndex | nextext/src/app/api/register/route.ts:38 | `findOne`: the result is the first position whose document matches, and it is absent exactly when none matches |
| Records.FindByEmail | nextext/src/app/api/register/route.ts:38 | `findOne({ email })`: absent exactly when no user has that email; otherwise the first user with it |
| Records.FindByCode | nextext/src/app/api/start-chat/route.ts:29 | `findOne({ shortCode })`: absent exactly when no user has that code (users without a code never match); otherwise the first user with it |
| Store.Database.InsertUser | nextext/src/app/api/register/route.ts:47-53 | `insertOne`: appends exactly the given document under a fresh id, keeps ids unique, changes no other collection |
| Store.Database.InsertConversation | nextext/src/app/api/start-chat/route.ts:52-59 | `insertOne`: appends exactly one conversation under a fresh id, keeps ids unique, changes no other collection |
| ShortCode.IndexOf | nextext/src/app/api/register/route.ts:8 | every symbol of A-Z0-9 sits at a position of the 36-symbol alphabet, and at no other position |
| ShortCode.CharactersAreCodeChars | nextext/src/app/api/register/route.ts:8 | the alphabet has 36 symbols, each an upper-case letter or a digit, each at its own position |
| ShortCode.CodeFor | nextext/src/app/api/register/route.ts:9-13 | the code six draws produce has six symbols, all from A-Z0-9; `CodeForShape`, `CodeForPicksOf` and `CodeForInjective` state that it is a bijection between draws and codes |
| ShortCode.CodeForShape | nextext/src/app/api/register/route.ts:9-13 | a generated code has length 6, every symbol is from A-Z0-9, and the six draws can be read back from it |
| ShortCode.CodeForPicksOf | nextext/src/app/api/register/route.ts:9-13 | every six-symbol code over A-Z0-9 is produced by the draws read back from it |
| ShortCode.CodeForInjective | nextext/src/app/api/register/route.ts:9-13 | different draws give different codes |
| ShortCode.GenerateShortCode | nextext/src/app/api/register/route.ts:7-14 | the loop builds a 6-symbol code whose k-th symbol is the alphabet symbol at the k-th draw |
| RegisterRoute.Outcome | nextext/src/app/api/register/route.ts:16-56 | one request either leaves the users unchanged or is answered 201 and appends exactly one user after the old ones; the lemmas below say which and what the user holds |
| RegisterRoute.RejectsIncomplete | nextext/src/app/api/register/route.ts:21-23 | a missing or empty name, email or password gives 400 "Name, Email and Password Required" and leaves the users unchanged |
| RegisterRoute.RejectsDuplicate | nextext/src/app/api/register/route.ts:38-42 | an email already present gives 400 "User already exists" and nothing is inserted |
| RegisterRoute.CreatesOneUser | nextext/src/app/api/register/route.ts:44-55 | otherwise 201, and exactly one user is appended: the given name and email, the password's hash, the code the six draws produce (six A-Z0-9 symbols), the creation time and the fresh id; existing users are untouched |
| RegisterRoute.CreatedIff | nextext/src/app/api/register/route.ts:21-55 | the reply is 201 exactly when all three fields are given and the email is new; any other reply is 400 and changes nothing |
| RegisterRoute.KeepsEmailsUnique | nextext/src/app/api/register/route.ts:38-53 | if emails are unique before a call they are unique after it |
| RegisterRoute.SecondRegistrationRefused | nextext/src/app/api/register/route.ts:38-42 | after a successful registration, a second one with the same email is refused and changes nothing, and the newly appended user is the only one with that email |
| RegisterRoute.Post | nextext/src/app/api/register/route.ts:16-56 | the handler's reply and new users collection are those of `Outcome`; conversations and messages are untouched |
| RegisterRouter.Outcome | nextext/src/app/api/register/router.ts:5-29 | one request either leaves the users unchanged or is answered 201 and appends exactly one user after the old ones |
| RegisterRouter.RejectsIncomplete | nextext/src/app/api/register/router.ts:10-12 | a missing or empty email or password gives 400 "Email and Pasword Required"; no name is needed |
| RegisterRouter.RejectsDuplicate | nextext/src/app/api/register/router.ts:17-21 | an existing email gives 400 and the users are unchanged |
| RegisterRouter.CreatesBareUser | nextext/src/app/api/register/router.ts:22-29 | otherwise 201, and exactly one document holding only the email and the password hash is appended (no name, short code or creation time) |
| RegisterRouter.KeepsEmailsUnique | nextext/src/app/api/register/router.ts:17-27 | email uniqueness is preserved |
| RegisterRouter.Post | nextext/src/app/api/register/router.ts:5-29 | the handler's reply and new users collection are those of `Outcome`; nothing else changes |
| StartChatRoute.FindConversation | nextext/src/app/api/start-chat/route.ts:35-42 | the query finds a conversation exactly when one includes both user ids, in either order |
| StartChatRoute.Outcome | nextext/src/app/api/start-chat/route.ts:7-64 | one request either leaves the conversations unchanged or reports a new conversation under the fresh id and appends exactly one after the old ones |
| StartChatRoute.RejectsAnonymous | nextext/src/app/api/start-chat/route.ts:10-12 | no session email gives 401 and no conversation is created |
| StartChatRoute.RejectsMissingCode | nextext/src/app/api/start-chat/route.ts:15-17 | a missing or empty short code gives 400 and no conversation is created |
| StartChatRoute.RejectsUnknownUser | nextext/src/app/api/start-chat/route.ts:23-32 | an unregistered requester email or an unknown short code gives 404 "User not found" and nothing is created |
| StartChatRoute.ReturnsExisting | nextext/src/app/api/start-chat/route.ts:35-49 | when some conversation includes both users, the id of such a conversation comes back with `isNew = false` and nothing is inserted |
| StartChatRoute.CreatesConversation | nextext/src/app/api/start-chat/route.ts:52-64 | otherwise exactly one conversation is appended, with participants `[requester, target]` as (userId, email) snapshots and equal creation and update times, and its new id comes back with `isNew = true` |
| StartChatRoute.InsertsAtMostOne | nextext/src/app/api/start-chat/route.ts:22-64 | every call either inserts nothing and reports no new conversation, or appends exactly one two-party conversation under the fresh id and reports it as new |
| StartChatRoute.Idempotent | nextext/src/app/api/start-chat/route.ts:35-64 | repeating a successful call with the same session and code returns the same conversation id with `isNew = false` and inserts nothing |
| StartChatRoute.OwnCodeMatchesAnyConversation | nextext/src/app/api/start-chat/route.ts:35-42 | a requester who enters their own code gets back an existing conversation that merely includes them, with whoever else |
| StartChatRoute.KeepsPairsUnique | nextext/src/app/api/start-chat/route.ts:35-59 | called one after another, the handler never creates a second conversation with the same participant set |
| StartChatRoute.KeepsParticipantsRegistered | nextext/src/app/api/start-chat/route.ts:52-56 | every participant snapshot names a registered user by id and email, before and after a call |
| StartChatRoute.Post | nextext/src/app/api/start-chat/route.ts:7-64 | the handler's reply and new conversations collection are those of `Outcome`; users and messages are untouched |
| ConversationsRoute.Involving | nextext/src/app/api/conversations/route.ts:22-26 | the `$match` stage keeps exactly the conversations with the caller's email among the participant emails |
| ConversationsRoute.Newest | nextext/src/app/api/conversations/route.ts:27-45 | the attached message belongs to the conversation and is at least as late as each of its messages; it is absent exactly when the conversation has none |
| ConversationsRoute.Emails | nextext/src/app/api/conversations/route.ts:50 | `$participants.email` holds exactly the emails of the participant snapshots |
| ConversationsRoute.Profiles | nextext/src/app/api/conversations/route.ts:47-67 | the profiles are exactly the `{ name, email, shortCode }` projections of the users whose email is in the list |
| ConversationsRoute.InsertKeepsOrder | nextext/src/app/api/conversations/route.ts:88-92 | inserting by last-message time into a newest-first sequence keeps it newest first |
| ConversationsRoute.SortNewestFirst | nextext/src/app/api/conversations/route.ts:88-92 | the `$sort` stage returns a permutation of its input ordered by last-message time, newest first |
| ConversationsRoute.SortKeepsElements | nextext/src/app/api/conversations/route.ts:88-92 | the `$sort` stage keeps the number of summaries and exactly the same summaries |
| ConversationsRoute.SummarizedInvolving | nextext/src/app/api/conversations/route.ts:22-86 | before sorting, the summaries are exactly the summaries of the conversations listing the caller's email |
| ConversationsRoute.SummarizeContents | nextext/src/app/api/conversations/route.ts:47-67 | the participants of a summary are the profiles of exactly the registered users whose email the conversation lists |
| ConversationsRoute.ListedSource | nextext/src/app/api/conversations/route.ts:19-94 | every listed summary is the summary of one of the caller's conversations |
| ConversationsRoute.List | nextext/src/app/api/conversations/route.ts:8-104 | the GET handler: a failure exactly without a session email, and then 401 "Unauthorized"; otherwise one summary per matched conversation, newest first (contents in `ListsExactlyCallersConversations` and `SummaryContents`) |
| ConversationsRoute.ListsExactlyCallersConversations | nextext/src/app/api/conversations/route.ts:19-94 | the listing has one summary per conversation that includes the caller's email, and nothing else |
| ConversationsRoute.ListsNewestFirst | nextext/src/app/api/conversations/route.ts:88-92 | later summaries never have a later last message, and summaries without a message come after all others |
| ConversationsRoute.SummaryContents | nextext/src/app/api/conversations/route.ts:27-86 | each summary is of one of the caller's conversations; its participants are the profiles of the users whose email that conversation lists, not the snapshot; its last message is one of the conversation's latest, absent exactly when it has none |
| ConversationsRoute.InvolvingIdsDistinct | nextext/src/app/api/conversations/route.ts:22-26 | the `$match` stage keeps conversation ids distinct |
| ConversationsRoute.ListedIdsDistinct | nextext/src/app/api/conversations/route.ts:19-94 | with unique conversation ids in the store, the listing's ids are distinct |
| Dashboard.Notify | nextext/src/app/dashboard/page.tsx:163-179 | the first pass of a poll step keeps every flag key and only ever writes `true`; `NotifyFlags` says exactly which ids it flags |
| Dashboard.Stamp | nextext/src/app/dashboard/page.tsx:181-187 | the second pass keeps every recorded id, and a new id is recorded only for a fetched conversation with a last message; `StampTimes` and `StampKeepsOthers` give the values |
| Dashboard.NotifyFlags | nextext/src/app/dashboard/page.tsx:164-179 | the poll step flags every fetched conversation that is visible, has a last message, is later than the recorded time (or has none recorded) and was sent by someone else; it flags nothing else and never clears a flag |
| Dashboard.StampTimes | nextext/src/app/dashboard/page.tsx:181-187 | after the step, each fetched conversation with a last message is recorded with that message's time (the last occurrence wins for a repeated id) |
| Dashboard.StampKeepsOthers | nextext/src/app/dashboard/page.tsx:181-187 | every entry whose id no fetched conversation with a last message carries keeps its old value, and no new entry appears for it |
| Dashboard.StampTimesDistinct | nextext/src/app/dashboard/page.tsx:181-187 | with distinct fetched ids, every fetched conversation with a last message is recorded with its time |
| Dashboard.OtherParticipant | nextext/src/app/dashboard/page.tsx:242-244 | the counterpart is the first participant whose email differs from the signed-in email, and absent exactly when every participant has that email |
| Dashboard.DisplayName | nextext/src/app/dashboard/page.tsx:256 | the heading is the counterpart's non-empty name, and "Unknown User" without a counterpart or name |
| Dashboard.PreviewPrefix | nextext/src/app/dashboard/page.tsx:260-262 | the preview prefix is "You: " for the signed-in user's own message, else the counterpart's name followed by ": ", and "undefined: " when the counterpart or its name is missing |
| Dashboard.DashboardPage.constructor | nextext/src/app/dashboard/page.tsx:89-99 | the initial state: empty list, loading, no error, no flags, no timestamps, no interval |
| Dashboard.DashboardPage.StopPolling | nextext/src/app/dashboard/page.tsx:128-133 | afterwards the ref is empty and no interval runs; without a held interval it changes nothing, so repeating it is a no-op |
| Dashboard.DashboardPage.StartPolling | nextext/src/app/dashboard/page.tsx:135-138 | afterwards exactly one interval runs, a fresh one, and the ref holds it |
| Dashboard.DashboardPage.ClearNotification | nextext/src/app/dashboard/page.tsx:208-214 | removes exactly the given flag and nothing else |
| Dashboard.DashboardPage.FetchData | nextext/src/app/dashboard/page.tsx:153-197 | without a session email nothing changes; otherwise `loading` ends false; a failure sets the error and leaves list, flags and timestamps alone; a fetched list is displayed unchanged, with flags by `Notify` and timestamps by `Stamp`, both judged against the timestamps recorded before the step |
| Scenarios.StoredConversationIdsDistinct | nextext/src/app/api/start-chat/route.ts:52-59 | the conversations the store holds have pairwise distinct ids |
| Scenarios.PollRecordsListing | nextext/src/app/dashboard/page.tsx:181-187 | a poll step over the listing served for a signed-in user records every listed conversation that has a message with that message's time |
| Scenarios.TwoUsersChat | nextext/src/app/api/start-chat/route.ts:22-64 | after two registrations, the first start-chat creates a conversation, repeating it gives the same id with `isNew = false`, and the other user's start-chat with the first's code gives the same |

## Left out

- The MongoDB driver, the connection pool and the environment checks (the
  500 replies of `register/route.ts` for a missing `MONGODB_URI` or a failed
  connection). All storage failures too: every handler's `catch` answers 500.
- JSON parsing of request bodies. Fields that are not strings are left out;
  a field is "given" when it is present and non-empty, as JavaScript
  truthiness reads a string.
- NextAuth sessions and bcrypt. The session is an optional email. The hash is
  an opaque function, so the salt and cost factor are not modelled.
- `Math.random` and its floating-point arithmetic. The six draws are inputs,
  each below 36.
- The string form of ObjectIds. A message's `conversationId` is a string in
  the source: the raw URL segment the message was posted under, compared
  with `$toString` of the conversation id. The model stores an `ObjectId`
  there. Distinct ids have distinct canonical strings, and a segment that is
  not the canonical string of any id is, in the model, an id that no
  conversation carries, so the lookups select the same messages.
- `Date` values are integer times. Start-chat calls `new Date()` twice for
  the creation and update times, and the model uses one clock reading for
  both. The dashboard keeps the times as ISO strings and compares them with
  `new Date`; the model compares the integers directly, and an empty
  recorded string reads as "no recorded time".
- Ties in MongoDB's sorts (the newest message, the listing order) come in
  no specified order. `ConversationsRoute.Newest` takes the earliest stored
  of equal-time messages, and `ConversationsRoute.SortNewestFirst` keeps ties
  in input order. The lemmas state only what holds for every tie order:
  maximal time, sorted, a permutation.
- Concurrency. Both find-or-create and the duplicate-email check are
  check-then-insert sequences with no transaction. The model runs requests
  one after another, and the uniqueness lemmas (`KeepsEmailsUnique`,
  `KeepsPairsUnique`) hold only under that sequential execution.
- React's scheduling: state-updater functions run at once and exactly once,
  in order. The closure semantics are not modelled either: `setInterval`
  captures the `fetchData` of an earlier render, which sees the session and
  the timestamps of that render. Nor is the effect that depends on
  `fetchData`: each successful step stores a new timestamps object, which
  gives `fetchData` a new identity, so the effect runs again and fetches
  once more at once. The poll step is modelled on the current state.
- Real timers, `document` visibility events, audio playback and `fetch`.
  `visible` and the result of the fetch are inputs to `FetchData`. The
  interval's callback and the 2-second period are not modelled.
- The unused refs `fetchInProgress` and `lastFetchTime`, which are declared
  but never read or written, and `fetchUserDetails`.
- `api/user/route.ts`, `api/messages/[id]/route.ts`, the chat page, the
  login, sign-up and home pages, the layout, `lib/auth.ts` and the
  NextAuth routes are not part of this model. They are either a single
  keyed lookup or the message exchange, which sits outside the modelled
  core, or they are rendering and framework glue.

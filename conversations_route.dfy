/** `GET` of nextext/src/app/api/conversations/route.ts: one read-only
    aggregation over the three collections. Stages: keep the conversations
    whose participant list has the caller's email; attach the newest message
    of each; replace the participants by the profiles of the users with those
    emails; sort by the last message's time, newest first. */
module ConversationsRoute {
  import opened Records

  datatype ListReply = ListFailed(status: nat, error: string) | Listed(summaries: seq<Summary>)

  /** The `$match` on `participants.email`. */
  predicate HasEmail(c: Conversation, email: string)
  {
    exists k | 0 <= k < |c.participants| :: c.participants[k].email == email
  }

  /** The conversations passing the `$match` stage, in natural order. */
  function Involving(convs: seq<Conversation>, email: string): (r: seq<Conversation>)
    ensures |r| <= |convs|
    ensures forall c :: c in r <==> c in convs && HasEmail(c, email)
  {
    if |convs| == 0 then []
    else (if HasEmail(convs[0], email) then [convs[0]] else []) + Involving(convs[1..], email)
  }

  /** The first `$lookup`: messages of the conversation sorted by `createdAt`
      descending, limited to one. Among messages with equal times the one
      stored first is taken (the store leaves that order unspecified). */
  function Newest(msgs: seq<Message>, id: ObjectId): (r: Option<Message>)
    ensures r.None? <==> forall i | 0 <= i < |msgs| :: msgs[i].conversationId != id
    ensures r.Some? ==> r.value in msgs && r.value.conversationId == id
    ensures r.Some? ==> forall i | 0 <= i < |msgs| && msgs[i].conversationId == id ::
                          msgs[i].createdAt <= r.value.createdAt
  {
    if |msgs| == 0 then None
    else
      var rest := Newest(msgs[1..], id);
      if msgs[0].conversationId != id then rest
      else if rest.Some? && rest.value.createdAt > msgs[0].createdAt then rest
      else Some(msgs[0])
  }

  /** `$participants.email`. */
  function Emails(c: Conversation): (r: seq<string>)
    ensures forall e :: e in r <==> HasEmail(c, e)
  {
    var r := seq(|c.participants|, k requires 0 <= k < |c.participants| => c.participants[k].email);
    assert forall k | 0 <= k < |r| :: r[k] == c.participants[k].email;
    r
  }

  /** The `$project` of a user to `{ name, email, shortCode }`. */
  function ProfileOf(u: User): Profile
  {
    Profile(u.name, u.email, u.shortCode)
  }

  /** The second `$lookup`: every user whose email is `$in` the list, in
      natural order, projected. */
  function Profiles(users: seq<User>, emails: seq<string>): (r: seq<Profile>)
    ensures |r| <= |users|
    ensures forall p :: p in r <==> exists i | 0 <= i < |users| :: users[i].email in emails && p == ProfileOf(users[i])
  {
    if |users| == 0 then []
    else
      var rest := Profiles(users[1..], emails);
      assert forall i | 1 <= i < |users| :: users[i] == users[1..][i - 1];
      assert forall i | 0 <= i < |users| - 1 :: users[1..][i] == users[i + 1];
      (if users[0].email in emails then [ProfileOf(users[0])] else []) + rest
  }

  /** One conversation after the lookup and project stages. */
  function Summarize(users: seq<User>, msgs: seq<Message>, c: Conversation): Summary
  {
    Summary(c.id, Profiles(users, Emails(c)), Newest(msgs, c.id))
  }

  function SummarizeAll(users: seq<User>, msgs: seq<Message>, convs: seq<Conversation>): seq<Summary>
  {
    seq(|convs|, i requires 0 <= i < |convs| => Summarize(users, msgs, convs[i]))
  }

  /** The `$sort` order on `lastMessage.createdAt`, descending; a summary
      without a last message sorts as the smallest value does, after all
      others. */
  predicate AtLeastAsNew(x: Summary, y: Summary)
  {
    y.lastMessage.None? || (x.lastMessage.Some? && x.lastMessage.value.createdAt >= y.lastMessage.value.createdAt)
  }

  predicate NewestFirst(s: seq<Summary>)
  {
    forall i, j | 0 <= i < j < |s| :: AtLeastAsNew(s[i], s[j])
  }

  function InsertByTime(x: Summary, s: seq<Summary>): (r: seq<Summary>)
    ensures multiset(r) == multiset(s) + multiset{x}
  {
    if |s| == 0 || AtLeastAsNew(x, s[0]) then [x] + s
    else
      assert s == [s[0]] + s[1..];
      [s[0]] + InsertByTime(x, s[1..])
  }

  /** Inserting into a newest-first sequence keeps it newest first. */
  lemma {:induction false} InsertKeepsOrder(x: Summary, s: seq<Summary>)
    requires NewestFirst(s)
    ensures NewestFirst(InsertByTime(x, s))
  {
    if |s| > 0 && !AtLeastAsNew(x, s[0]) {
      var tail := s[1..];
      assert NewestFirst(tail);
      InsertKeepsOrder(x, tail);
      var rest := InsertByTime(x, tail);
      forall k | 0 <= k < |rest|
        ensures AtLeastAsNew(s[0], rest[k])
      {
        assert rest[k] in multiset(rest);
        if rest[k] != x {
          assert rest[k] in multiset(tail);
          var j :| 0 <= j < |tail| && tail[j] == rest[k];
          assert s[j + 1] == tail[j];
        }
      }
    }
  }

  /** The `$sort` stage. Ties may come in any order; this one keeps them in
      input order. */
  function SortNewestFirst(s: seq<Summary>): (r: seq<Summary>)
    ensures NewestFirst(r)
    ensures multiset(r) == multiset(s)
  {
    if |s| == 0 then []
    else
      assert s == [s[0]] + s[1..];
      var sorted := SortNewestFirst(s[1..]);
      InsertKeepsOrder(s[0], sorted);
      InsertByTime(s[0], sorted)
  }

  /** The handler. It only reads the collections. */
  function List(users: seq<User>, convs: seq<Conversation>, msgs: seq<Message>, session: Option<string>): (r: ListReply)
    ensures r.ListFailed? <==> !Given(session)
    ensures r.ListFailed? ==> r == ListFailed(401, "Unauthorized")
    ensures r.Listed? ==> NewestFirst(r.summaries) && |r.summaries| == |Involving(convs, session.value)|
  {
    if !Given(session) then ListFailed(401, "Unauthorized")
    else
      var all := SummarizeAll(users, msgs, Involving(convs, session.value));
      assert |multiset(SortNewestFirst(all))| == |multiset(all)|;
      Listed(SortNewestFirst(all))
  }

  /** The listing holds one summary for each conversation that has the
      caller's email among its participants, and nothing else. */
  lemma ListsExactlyCallersConversations(users: seq<User>, convs: seq<Conversation>, msgs: seq<Message>, email: string)
    ensures var r := List(users, convs, msgs, Some(email));
      email != "" ==>
        && r.Listed?
        && |r.summaries| == |Involving(convs, email)|
        && forall s :: s in r.summaries <==>
             exists i | 0 <= i < |convs| :: HasEmail(convs[i], email) && s == Summarize(users, msgs, convs[i])
  {
    if email != "" {
      var all := SummarizeAll(users, msgs, Involving(convs, email));
      SortKeepsElements(all);
      SummarizedInvolving(users, convs, msgs, email);
    }
  }

  /** Sorting neither adds, drops nor duplicates summaries. */
  lemma SortKeepsElements(s: seq<Summary>)
    ensures |SortNewestFirst(s)| == |s|
    ensures forall x :: x in SortNewestFirst(s) <==> x in s
  {
    var r := SortNewestFirst(s);
    assert |multiset(r)| == |multiset(s)|;
    forall x
      ensures x in r <==> x in s
    {
      assert x in r <==> x in multiset(r);
      assert x in s <==> x in multiset(s);
    }
  }

  /** The summaries before sorting are those of the caller's conversations. */
  lemma SummarizedInvolving(users: seq<User>, convs: seq<Conversation>, msgs: seq<Message>, email: string)
    ensures forall s :: s in SummarizeAll(users, msgs, Involving(convs, email)) <==>
             exists i | 0 <= i < |convs| :: HasEmail(convs[i], email) && s == Summarize(users, msgs, convs[i])
  {
    SummarizedFromInvolving(users, convs, msgs, email);
    InvolvingSummarized(users, convs, msgs, email);
  }

  lemma SummarizedFromInvolving(users: seq<User>, convs: seq<Conversation>, msgs: seq<Message>, email: string)
    ensures forall s | s in SummarizeAll(users, msgs, Involving(convs, email)) ::
             exists i | 0 <= i < |convs| :: HasEmail(convs[i], email) && s == Summarize(users, msgs, convs[i])
  {
    var inv := Involving(convs, email);
    var all := SummarizeAll(users, msgs, inv);
    forall s | s in all
      ensures exists i | 0 <= i < |convs| :: HasEmail(convs[i], email) && s == Summarize(users, msgs, convs[i])
    {
      var k :| 0 <= k < |all| && all[k] == s;
      assert inv[k] in inv;
      var i :| 0 <= i < |convs| && convs[i] == inv[k];
      assert HasEmail(convs[i], email) && s == Summarize(users, msgs, convs[i]);
    }
  }

  lemma InvolvingSummarized(users: seq<User>, convs: seq<Conversation>, msgs: seq<Message>, email: string)
    ensures forall i | 0 <= i < |convs| && HasEmail(convs[i], email) ::
             Summarize(users, msgs, convs[i]) in SummarizeAll(users, msgs, Involving(convs, email))
  {
    var inv := Involving(convs, email);
    var all := SummarizeAll(users, msgs, inv);
    forall i | 0 <= i < |convs| && HasEmail(convs[i], email)
      ensures Summarize(users, msgs, convs[i]) in all
    {
      assert convs[i] in inv;
      var k :| 0 <= k < |inv| && inv[k] == convs[i];
      assert all[k] == Summarize(users, msgs, convs[i]);
    }
  }

  /** The listing is ordered by last-message time, newest first, with the
      conversations that have no message at the end. */
  lemma ListsNewestFirst(users: seq<User>, convs: seq<Conversation>, msgs: seq<Message>, email: string)
    requires email != ""
    ensures var r := List(users, convs, msgs, Some(email));
      && r.Listed?
      && (forall i, j | 0 <= i < j < |r.summaries| && r.summaries[j].lastMessage.Some? ::
            r.summaries[i].lastMessage.Some? &&
            r.summaries[i].lastMessage.value.createdAt >= r.summaries[j].lastMessage.value.createdAt)
  {
    var r := List(users, convs, msgs, Some(email)).summaries;
    assert NewestFirst(r);
  }

  /** Each summary's last message belongs to that conversation and is at
      least as late as every other message of it; it is absent exactly when
      the conversation has no message. The participants are the profiles of
      the registered users whose email the conversation lists, not the stored
      snapshot. */
  lemma SummaryContents(users: seq<User>, convs: seq<Conversation>, msgs: seq<Message>, email: string, s: Summary)
    requires email != ""
    requires s in List(users, convs, msgs, Some(email)).summaries
    ensures exists i | 0 <= i < |convs| :: convs[i].id == s.id && HasEmail(convs[i], email)
                                        && forall p :: p in s.participants <==>
                                             exists u | 0 <= u < |users| :: ProfileOf(users[u]) == p
                                                                        && HasEmail(convs[i], users[u].email)
    ensures s.lastMessage.None? <==> forall m | 0 <= m < |msgs| :: msgs[m].conversationId != s.id
    ensures s.lastMessage.Some? ==> s.lastMessage.value in msgs && s.lastMessage.value.conversationId == s.id
    ensures s.lastMessage.Some? ==> forall m | 0 <= m < |msgs| && msgs[m].conversationId == s.id ::
                                      msgs[m].createdAt <= s.lastMessage.value.createdAt
  {
    var i := ListedSource(users, convs, msgs, email, s);
    SummarizeContents(users, msgs, convs[i]);
    assert s.lastMessage == Newest(msgs, convs[i].id);
  }

  /** The conversation a listed summary was made from. */
  lemma ListedSource(users: seq<User>, convs: seq<Conversation>, msgs: seq<Message>, email: string, s: Summary)
    returns (i: nat)
    requires email != ""
    requires s in List(users, convs, msgs, Some(email)).summaries
    ensures i < |convs| && HasEmail(convs[i], email) && s == Summarize(users, msgs, convs[i])
  {
    var all := SummarizeAll(users, msgs, Involving(convs, email));
    assert s in SortNewestFirst(all);
    SortKeepsElements(all);
    SummarizedInvolving(users, convs, msgs, email);
    i :| 0 <= i < |convs| && HasEmail(convs[i], email) && s == Summarize(users, msgs, convs[i]);
  }

  /** The participants of a summary are the profiles of the registered users
      whose email the conversation lists. */
  lemma SummarizeContents(users: seq<User>, msgs: seq<Message>, c: Conversation)
    ensures var s := Summarize(users, msgs, c);
      forall p :: p in s.participants <==>
        exists u | 0 <= u < |users| :: ProfileOf(users[u]) == p && HasEmail(c, users[u].email)
  {
    var emails := Emails(c);
    assert forall u | 0 <= u < |users| :: users[u].email in emails <==> HasEmail(c, users[u].email);
  }

  /** Distinct conversation ids stay distinct through the `$match` stage. */
  lemma {:induction false} InvolvingIdsDistinct(convs: seq<Conversation>, email: string)
    requires DistinctConversationIds(convs)
    ensures DistinctConversationIds(Involving(convs, email))
  {
    if |convs| > 0 {
      var tail := convs[1..];
      assert DistinctConversationIds(tail) by {
        forall i, j | 0 <= i < j < |tail| ensures tail[i].id != tail[j].id {
          assert tail[i] == convs[i + 1] && tail[j] == convs[j + 1];
        }
      }
      InvolvingIdsDistinct(tail, email);
      var rest := Involving(tail, email);
      forall k | 0 <= k < |rest|
        ensures rest[k].id != convs[0].id
      {
        assert rest[k] in tail;
        var t :| 0 <= t < |tail| && tail[t] == rest[k];
        assert convs[t + 1] == tail[t];
      }
      var head := if HasEmail(convs[0], email) then [convs[0]] else [];
      var r := head + rest;
      assert Involving(convs, email) == r;
      forall i, j | 0 <= i < j < |r|
        ensures r[i].id != r[j].id
      {
        if |head| == 1 {
          assert r[j] == rest[j - 1];
          if i > 0 {
            assert r[i] == rest[i - 1];
          } else {
            assert r[i] == convs[0];
          }
        } else {
          assert r[i] == rest[i] && r[j] == rest[j];
        }
      }
    }
  }

  /** In a sequence with distinct ids every element occurs once. */
  lemma {:induction false} OccursOnce(s: seq<Summary>, x: Summary)
    requires DistinctSummaryIds(s)
    ensures multiset(s)[x] <= 1
  {
    if |s| > 0 {
      var tail := s[1..];
      assert s == [s[0]] + tail;
      OccursOnce(tail, x);
      if x == s[0] {
        forall k | 0 <= k < |tail| ensures tail[k] != x {
          assert tail[k] == s[k + 1];
        }
        assert x !in multiset(tail);
      }
    }
  }

  /** An element at two positions occurs at least twice. */
  lemma OccursTwice(r: seq<Summary>, i: nat, j: nat)
    requires i < j < |r| && r[i] == r[j]
    ensures multiset(r)[r[i]] >= 2
  {
    assert r == r[..i] + [r[i]] + r[i + 1..j] + [r[j]] + r[j + 1..];
  }

  /** A permutation of a sequence with distinct ids has distinct ids. */
  lemma PermutationIdsDistinct(s: seq<Summary>, r: seq<Summary>)
    requires multiset(r) == multiset(s)
    requires DistinctSummaryIds(s)
    ensures DistinctSummaryIds(r)
  {
    forall i, j | 0 <= i < j < |r|
      ensures r[i].id != r[j].id
    {
      if r[i] == r[j] {
        OccursTwice(r, i, j);
        OccursOnce(s, r[i]);
      } else {
        assert r[i] in multiset(s) && r[j] in multiset(s);
      }
    }
  }

  /** When conversation ids are unique in the store, the listing's ids are
      distinct (`Scenarios.PollRecordsListing` draws the consequence for the
      poll step). */
  lemma ListedIdsDistinct(users: seq<User>, convs: seq<Conversation>, msgs: seq<Message>, email: string)
    requires email != ""
    requires DistinctConversationIds(convs)
    ensures List(users, convs, msgs, Some(email)).Listed?
    ensures DistinctSummaryIds(List(users, convs, msgs, Some(email)).summaries)
  {
    var inv := Involving(convs, email);
    InvolvingIdsDistinct(convs, email);
    var all := SummarizeAll(users, msgs, inv);
    assert DistinctSummaryIds(all) by {
      forall i, j | 0 <= i < j < |all| ensures all[i].id != all[j].id {
        assert all[i].id == inv[i].id && all[j].id == inv[j].id;
      }
    }
    PermutationIdsDistinct(all, SortNewestFirst(all));
  }
}

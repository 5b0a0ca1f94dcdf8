/** The bookkeeping of nextext/src/app/dashboard/page.tsx: one poll step
    (`fetchData`) over the conversation list, the last-seen timestamps and
    the notification flags; `clearNotification`; the single polling interval
    (`startPolling` / `stopPolling`); and the expressions that pick the
    counterpart and label the last message. The fetch itself, the clock, the
    page's visibility and the browser's timers are inputs or fields. */
module Dashboard {
  import opened Records

  /** A handle returned by `setInterval`. */
  type TimerHandle = nat

  /** What one `fetch("/api/conversations")` yields: the parsed list, or a
      failure (network error, non-OK status, bad JSON). */
  datatype Fetch = Failed | Fetched(data: seq<Summary>)

  const LoadFailed := "Failed to load conversations"

  /** The notification condition of the poll step for one fetched
      conversation, judged against the timestamps recorded before the step. */
  predicate ShouldNotify(c: Summary, seen: map<ObjectId, Time>, me: string, visible: bool)
  {
    && c.lastMessage.Some?
    && visible
    && (c.id !in seen || c.lastMessage.value.createdAt > seen[c.id])
    && c.lastMessage.value.senderEmail != me
  }

  /** Some fetched conversation with this id meets the notification
      condition. */
  predicate Flagged(data: seq<Summary>, seen: map<ObjectId, Time>, me: string, visible: bool, id: ObjectId)
  {
    exists k | 0 <= k < |data| :: data[k].id == id && ShouldNotify(data[k], seen, me, visible)
  }

  /** The notification flags after the first pass over `data`. */
  function Notify(notes: map<ObjectId, bool>, data: seq<Summary>, seen: map<ObjectId, Time>, me: string, visible: bool)
    : (r: map<ObjectId, bool>)
    ensures notes.Keys <= r.Keys
    ensures forall id | id in r && (id !in notes || r[id] != notes[id]) :: r[id]
  {
    if |data| == 0 then notes
    else
      var before := Notify(notes, data[..|data| - 1], seen, me, visible);
      var c := data[|data| - 1];
      if ShouldNotify(c, seen, me, visible) then before[c.id := true] else before
  }

  /** The conversation carries this id and a last message. */
  predicate Stamps(c: Summary, id: ObjectId)
  {
    c.id == id && c.lastMessage.Some?
  }

  /** `data[k]` has a last message and no later element stamps its id. */
  predicate LastStamp(data: seq<Summary>, k: nat)
    requires k < |data|
  {
    data[k].lastMessage.Some? && forall j | k < j < |data| :: !Stamps(data[j], data[k].id)
  }

  /** No fetched conversation stamps this id. */
  predicate Unstamped(data: seq<Summary>, id: ObjectId)
  {
    forall k | 0 <= k < |data| :: !Stamps(data[k], id)
  }

  /** The timestamps after the second pass over `data`. */
  function Stamp(seen: map<ObjectId, Time>, data: seq<Summary>): (r: map<ObjectId, Time>)
    ensures seen.Keys <= r.Keys
    ensures forall id | id in r && id !in seen :: exists k | 0 <= k < |data| :: Stamps(data[k], id)
  {
    if |data| == 0 then seen
    else
      var before := Stamp(seen, data[..|data| - 1]);
      var c := data[|data| - 1];
      if c.lastMessage.Some? then before[c.id := c.lastMessage.value.createdAt] else before
  }

  /** A poll step sets the flag of every conversation meeting the condition
      and touches no other flag: flags are only ever added, never cleared,
      and a new flag implies the page was visible, the conversation has a
      last message, it is later than the recorded one (or none was recorded)
      and somebody else sent it. */
  lemma {:induction false} NotifyFlags(notes: map<ObjectId, bool>, data: seq<Summary>, seen: map<ObjectId, Time>,
                                       me: string, visible: bool)
    ensures var r := Notify(notes, data, seen, me, visible);
      && (forall id | Flagged(data, seen, me, visible, id) :: id in r && r[id])
      && (forall id | !Flagged(data, seen, me, visible, id) ::
            (id in r <==> id in notes) && (id in notes ==> r[id] == notes[id]))
  {
    if |data| > 0 {
      var init := data[..|data| - 1];
      var c := data[|data| - 1];
      NotifyFlags(notes, init, seen, me, visible);
      forall id | Flagged(init, seen, me, visible, id)
        ensures Flagged(data, seen, me, visible, id)
      {
        var k :| 0 <= k < |init| && init[k].id == id && ShouldNotify(init[k], seen, me, visible);
        assert data[k] == init[k];
      }
      forall id | Flagged(data, seen, me, visible, id) && !Flagged(init, seen, me, visible, id)
        ensures id == c.id && ShouldNotify(c, seen, me, visible)
      {
        var k :| 0 <= k < |data| && data[k].id == id && ShouldNotify(data[k], seen, me, visible);
      }
      if ShouldNotify(c, seen, me, visible) {
        assert Flagged(data, seen, me, visible, c.id);
      }
    }
  }

  /** After a poll step the recorded time of every fetched conversation with
      a last message is that message's time; if an id repeats, the last
      occurrence wins. */
  lemma {:induction false} StampTimes(seen: map<ObjectId, Time>, data: seq<Summary>)
    ensures var r := Stamp(seen, data);
      forall k | 0 <= k < |data| && LastStamp(data, k) ::
        data[k].id in r && r[data[k].id] == data[k].lastMessage.value.createdAt
  {
    if |data| > 0 {
      var init := data[..|data| - 1];
      var c := data[|data| - 1];
      StampTimes(seen, init);
      var r := Stamp(seen, data);
      forall k | 0 <= k < |data| && LastStamp(data, k)
        ensures data[k].id in r && r[data[k].id] == data[k].lastMessage.value.createdAt
      {
        if k < |init| {
          assert init[k] == data[k];
          assert !Stamps(c, data[k].id);
          assert LastStamp(init, k) by {
            forall j | k < j < |init| ensures !Stamps(init[j], init[k].id) {
              assert init[j] == data[j];
            }
          }
        }
      }
    }
  }

  /** Every entry whose id no fetched conversation with a last message
      carries keeps its old value (or stays absent). */
  lemma {:induction false} StampKeepsOthers(seen: map<ObjectId, Time>, data: seq<Summary>)
    ensures var r := Stamp(seen, data);
      forall id | Unstamped(data, id) :: (id in r <==> id in seen) && (id in seen ==> r[id] == seen[id])
  {
    if |data| > 0 {
      var init := data[..|data| - 1];
      StampKeepsOthers(seen, init);
      forall id | Unstamped(data, id)
        ensures Unstamped(init, id)
      {
        forall k | 0 <= k < |init| ensures !Stamps(init[k], id) {
          assert init[k] == data[k];
        }
      }
    }
  }

  /** When the fetched ids are distinct (as the listing's are), every
      fetched conversation with a last message ends up recorded with its
      time. */
  lemma StampTimesDistinct(seen: map<ObjectId, Time>, data: seq<Summary>)
    requires DistinctSummaryIds(data)
    ensures var r := Stamp(seen, data);
      forall k | 0 <= k < |data| && data[k].lastMessage.Some? ::
        data[k].id in r && r[data[k].id] == data[k].lastMessage.value.createdAt
  {
    StampTimes(seen, data);
    forall k | 0 <= k < |data| && data[k].lastMessage.Some? ensures LastStamp(data, k) {
    }
  }

  /** The counterpart shown for a conversation: the first participant whose
      email is not the signed-in email (`find`). */
  function OtherParticipant(ps: seq<Profile>, me: Option<string>): (r: Option<Profile>)
    ensures r.None? <==> forall k | 0 <= k < |ps| :: Some(ps[k].email) == me
    ensures r.Some? ==> r.value in ps && Some(r.value.email) != me
    ensures r.Some? ==> exists k | 0 <= k < |ps| :: ps[k] == r.value && forall j | 0 <= j < k :: Some(ps[j].email) == me
  {
    var k := FirstIndex(ps, (p: Profile) => Some(p.email) != me);
    if k.Some? then Some(ps[k.value]) else None
  }

  /** The heading: the counterpart's name, or "Unknown User" when there is no
      counterpart or its name is missing or empty. */
  function DisplayName(other: Option<Profile>): (r: string)
    ensures r == "Unknown User" <==> other.None? || !Given(other.value.name) || other.value.name.value == "Unknown User"
    ensures r != "Unknown User" ==> other.Some? && other.value.name == Some(r)
  {
    if other.Some? && Given(other.value.name) then other.value.name.value else "Unknown User"
  }

  /** The prefix of the last-message preview: "You: " for the signed-in
      user's own message, otherwise the counterpart's name as a template
      literal renders it ("undefined" when it is missing) and ": ". */
  function PreviewPrefix(m: Message, me: Option<string>, other: Option<Profile>): (r: string)
    ensures |r| >= 2 && r[|r| - 2..] == ": "
    ensures Some(m.senderEmail) == me ==> r == "You: "
    ensures Some(m.senderEmail) != me && other.Some? && other.value.name.Some? ==> r[..|r| - 2] == other.value.name.value
    ensures Some(m.senderEmail) != me && (other.None? || other.value.name.None?) ==> r == "undefined: "
  {
    if Some(m.senderEmail) == me then "You: "
    else
      var name := if other.Some? && other.value.name.Some? then other.value.name.value else "undefined";
      name + ": "
  }

  /** The dashboard component's state. */
  class DashboardPage {
    var conversations: seq<Summary>
    var loading: bool
    var error: Option<string>
    var notifications: map<ObjectId, bool>
    var lastMessageTimestamps: map<ObjectId, Time>
    /** `pollIntervalRef.current`. */
    var pollInterval: Option<TimerHandle>
    /** The browser's running intervals and the next handle it will return. */
    var activeIntervals: set<TimerHandle>
    var nextHandle: TimerHandle

    /** Flags are only ever set to true, and the only running interval is the
        one the ref holds. */
    predicate Valid()
      reads this
    {
      && (forall id | id in notifications :: notifications[id])
      && (pollInterval.None? ==> activeIntervals == {})
      && (pollInterval.Some? ==> activeIntervals == {pollInterval.value})
      && (forall h | h in activeIntervals :: h < nextHandle)
    }

    /** The initial `useState` / `useRef` values. */
    constructor ()
      ensures Valid()
      ensures conversations == [] && loading && error.None?
      ensures notifications == map[] && lastMessageTimestamps == map[]
      ensures pollInterval.None? && activeIntervals == {}
    {
      conversations, loading, error := [], true, None;
      notifications, lastMessageTimestamps := map[], map[];
      pollInterval, activeIntervals, nextHandle := None, {}, 1;
    }

    /** `setInterval`: a fresh handle starts running. */
    method SetInterval() returns (h: TimerHandle)
      modifies this`activeIntervals, this`nextHandle
      ensures h == old(nextHandle) && nextHandle == h + 1
      ensures activeIntervals == old(activeIntervals) + {h}
    {
      h := nextHandle;
      nextHandle := nextHandle + 1;
      activeIntervals := activeIntervals + {h};
    }

    /** `clearInterval`. */
    method ClearInterval(h: TimerHandle)
      modifies this`activeIntervals
      ensures activeIntervals == old(activeIntervals) - {h}
    {
      activeIntervals := activeIntervals - {h};
    }

    /** `stopPolling`: clear the held interval, if any, and empty the ref.
        Without a held interval it changes nothing. */
    method StopPolling()
      requires Valid()
      modifies this`activeIntervals, this`pollInterval
      ensures Valid()
      ensures pollInterval.None? && activeIntervals == {}
      ensures old(pollInterval).None? ==> activeIntervals == old(activeIntervals)
    {
      if pollInterval.Some? {
        ClearInterval(pollInterval.value);
        pollInterval := None;
      }
    }

    /** `startPolling`: stop first, then start one interval; afterwards
        exactly that interval runs and the ref holds it. */
    method StartPolling() returns (h: TimerHandle)
      requires Valid()
      modifies this`activeIntervals, this`pollInterval, this`nextHandle
      ensures Valid()
      ensures h == old(nextHandle) && h !in old(activeIntervals)
      ensures pollInterval == Some(h) && activeIntervals == {h}
    {
      StopPolling();
      h := SetInterval();
      pollInterval := Some(h);
    }

    /** `clearNotification`: drop exactly the given flag. */
    method ClearNotification(id: ObjectId)
      requires Valid()
      modifies this`notifications
      ensures Valid()
      ensures notifications == old(notifications) - {id}
    {
      notifications := notifications - {id};
    }

    /** One `fetchData` step, for the session email, the page's visibility
        and what the fetch yielded. Without a signed-in email nothing
        changes. Otherwise `loading` ends false; a failure records the error
        message and leaves the list, flags and timestamps alone; a fetched
        list is shown element for element, flags are set by `Notify` and
        timestamps are updated by `Stamp`, both judged against the
        timestamps recorded before the step. */
    method FetchData(session: Option<string>, visible: bool, response: Fetch)
      requires Valid()
      modifies this`conversations, this`loading, this`error, this`notifications, this`lastMessageTimestamps
      ensures Valid()
      ensures !Given(session) ==>
        && conversations == old(conversations) && loading == old(loading) && error == old(error)
        && notifications == old(notifications) && lastMessageTimestamps == old(lastMessageTimestamps)
      ensures Given(session) ==> !loading
      ensures Given(session) && response.Failed? ==>
        && error == Some(LoadFailed) && conversations == old(conversations)
        && notifications == old(notifications) && lastMessageTimestamps == old(lastMessageTimestamps)
      ensures Given(session) && response.Fetched? ==>
        && error == old(error)
        && conversations == response.data
        && notifications == Notify(old(notifications), response.data, old(lastMessageTimestamps), session.value, visible)
        && lastMessageTimestamps == Stamp(old(lastMessageTimestamps), response.data)
    {
      if !Given(session) {
        return;
      }
      var me := session.value;
      match response {
        case Failed =>
          error := Some(LoadFailed);
        case Fetched(data) =>
          var seen := lastMessageTimestamps;
          var notes0 := notifications;
          for i := 0 to |data|
            modifies this`notifications
            invariant notifications == Notify(notes0, data[..i], seen, me, visible)
          {
            assert data[..i + 1][..i] == data[..i];
            var conv := data[i];
            if conv.lastMessage.Some? && visible {
              if conv.id !in seen || conv.lastMessage.value.createdAt > seen[conv.id] {
                if conv.lastMessage.value.senderEmail != me {
                  notifications := notifications[conv.id := true];
                }
              }
            }
          }
          assert data[..|data|] == data;
          NotifyFlags(notes0, data, seen, me, visible);
          var newTimestamps := seen;
          for i := 0 to |data|
            modifies {}
            invariant newTimestamps == Stamp(seen, data[..i])
          {
            assert data[..i + 1][..i] == data[..i];
            if data[i].lastMessage.Some? {
              newTimestamps := newTimestamps[data[i].id := data[i].lastMessage.value.createdAt];
            }
          }
          lastMessageTimestamps := newTimestamps;
          conversations := data;
      }
      loading := false;
    }
  }
}

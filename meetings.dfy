/** Meeting proposals for a round: the list with availability tallies,
    proposing a meeting, answering availability, confirming (which
    notifies every member) and deleting. */
module Meetings {
  import opened Api
  import opened Text
  import opened Tables
  import opened Query
  import opened Notifications

  function ParseResponse(s: string): (r: Option<Response>)
    ensures r.Some? <==> s == "yes" || s == "maybe" || s == "no"
    ensures r == Some(Yes) <==> s == "yes"
    ensures r == Some(Maybe) <==> s == "maybe"
    ensures r == Some(No) <==> s == "no"
  {
    if s == "yes" then Some(Yes)
    else if s == "maybe" then Some(Maybe)
    else if s == "no" then Some(No)
    else None
  }

  // ---------------------------------------------------------------- listing

  predicate AnswersMeeting(meetingId: Id, response: Response, a: Availability) {
    a.meetingId == meetingId && a.response == response
  }

  predicate ForMeeting(meetingId: Id, a: Availability) {
    a.meetingId == meetingId
  }

  /** `COUNT(CASE WHEN a.response = ... THEN 1 END)` over the meeting's
      availability rows. */
  function ResponseCount(availability: seq<Availability>, meetingId: Id, response: Response): nat {
    Count(availability, (a: Availability) => AnswersMeeting(meetingId, response, a))
  }

  /** The yes, maybe and no tallies split the meeting's availability rows:
      together they count each of them once. */
  lemma {:induction false} ResponseCountsPartition(availability: seq<Availability>, meetingId: Id)
    ensures ResponseCount(availability, meetingId, Yes) + ResponseCount(availability, meetingId, Maybe)
            + ResponseCount(availability, meetingId, No)
         == Count(availability, (a: Availability) => ForMeeting(meetingId, a))
  {
    if availability != [] {
      ResponseCountsPartition(availability[1..], meetingId);
    }
  }

  predicate Keyed(meetingId: Id, userId: Id, a: Availability) {
    a.meetingId == meetingId && a.userId == userId
  }

  /** The `my_response` sub-select: the response of the first row of that
      member for that meeting, or null. */
  function MyResponse(availability: seq<Availability>, meetingId: Id, userId: Id): (r: Option<Response>)
    ensures r.None? <==> forall i :: 0 <= i < |availability| ==> !Keyed(meetingId, userId, availability[i])
    ensures r.Some? ==> exists i :: 0 <= i < |availability| && Keyed(meetingId, userId, availability[i])
                                    && availability[i].response == r.value
  {
    var k := FirstIndex(availability, (a: Availability) => Keyed(meetingId, userId, a));
    if k < 0 then None else Some(availability[k].response)
  }

  /** One row of `GET /api/rounds/:id/meetings`. */
  datatype MeetingSummary = MeetingSummary(
    meeting: Meeting, proposedByName: string, yesCount: nat, maybeCount: nat, noCount: nat,
    myResponse: Option<Response>)

  /** A meeting of the round whose proposer exists (the inner join). */
  predicate ListedMeeting(s: State, roundId: Id, m: Meeting) {
    m.roundId == roundId && UserIndex(s.users, m.proposedBy) >= 0
  }

  function Summary(s: State, userId: Id, m: Meeting): (row: MeetingSummary)
    requires UserIndex(s.users, m.proposedBy) >= 0
    ensures row.meeting == m
    ensures row.yesCount == ResponseCount(s.availability, m.id, Yes)
    ensures row.maybeCount == ResponseCount(s.availability, m.id, Maybe)
    ensures row.noCount == ResponseCount(s.availability, m.id, No)
    ensures row.myResponse == MyResponse(s.availability, m.id, userId)
  {
    MeetingSummary(m, s.users[UserIndex(s.users, m.proposedBy)].displayName,
                   ResponseCount(s.availability, m.id, Yes), ResponseCount(s.availability, m.id, Maybe),
                   ResponseCount(s.availability, m.id, No), MyResponse(s.availability, m.id, userId))
  }

  function DatetimeKey(row: MeetingSummary): (int, int) {
    (row.meeting.proposedDatetime, 0)
  }

  /** One listing row per meeting, in order, each about its own meeting. */
  function Summaries(s: State, userId: Id, ms: seq<Meeting>): (rows: seq<MeetingSummary>)
    requires forall i :: 0 <= i < |ms| ==> UserIndex(s.users, ms[i].proposedBy) >= 0
    ensures |rows| == |ms|
    ensures forall i :: 0 <= i < |ms| ==> rows[i].meeting == ms[i]
  {
    seq(|ms|, i requires 0 <= i < |ms| => Summary(s, userId, ms[i]))
  }

  /** The listing, earliest first. */
  function ListMeetings(s: State, caller: Caller, roundId: Id): (rows: seq<MeetingSummary>)
    ensures SortedBy(rows, DatetimeKey)
  {
    var ms := Filter(s.meetings, (m: Meeting) => ListedMeeting(s, roundId, m));
    SortBy(Summaries(s, caller.id, ms), DatetimeKey)
  }

  /** A listing row describes a listed meeting of the round: its
      yes/maybe/no tallies and the caller's own response. */
  predicate Describes(s: State, userId: Id, roundId: Id, row: MeetingSummary) {
    && row.meeting in s.meetings && ListedMeeting(s, roundId, row.meeting)
    && row.yesCount == ResponseCount(s.availability, row.meeting.id, Yes)
    && row.maybeCount == ResponseCount(s.availability, row.meeting.id, Maybe)
    && row.noCount == ResponseCount(s.availability, row.meeting.id, No)
    && row.myResponse == MyResponse(s.availability, row.meeting.id, userId)
  }

  /** Every row of the listing describes a listed meeting of the round. */
  lemma ListMeetingsSound(s: State, caller: Caller, roundId: Id)
    ensures forall i :: 0 <= i < |ListMeetings(s, caller, roundId)| ==>
      Describes(s, caller.id, roundId, ListMeetings(s, caller, roundId)[i])
  {
    var ms := Filter(s.meetings, (m: Meeting) => ListedMeeting(s, roundId, m));
    var unsorted := Summaries(s, caller.id, ms);
    var rows := ListMeetings(s, caller, roundId);
    assert rows == SortBy(unsorted, DatetimeKey);
    forall i | 0 <= i < |rows| ensures Describes(s, caller.id, roundId, rows[i]) {
      assert rows[i] in multiset(unsorted);
      var j :| 0 <= j < |unsorted| && unsorted[j] == rows[i];
      assert rows[i] == Summary(s, caller.id, ms[j]);
    }
  }

  /** Every listed meeting of the round appears in the listing. */
  lemma ListMeetingsComplete(s: State, caller: Caller, roundId: Id, j: nat)
    requires j < |s.meetings| && ListedMeeting(s, roundId, s.meetings[j])
    ensures exists i :: 0 <= i < |ListMeetings(s, caller, roundId)| && ListMeetings(s, caller, roundId)[i].meeting == s.meetings[j]
  {
    var ms := Filter(s.meetings, (m: Meeting) => ListedMeeting(s, roundId, m));
    var unsorted := Summaries(s, caller.id, ms);
    var rows := ListMeetings(s, caller, roundId);
    assert rows == SortBy(unsorted, DatetimeKey);
    var m := s.meetings[j];
    assert m in ms;
    var t :| 0 <= t < |ms| && ms[t] == m;
    var i := PermutedFrom(unsorted, rows, t);
    assert rows[i].meeting == m;
  }

  // ---------------------------------------------------------------- create

  /** A propose-meeting body; None is an absent field. */
  datatype MeetingBody = MeetingBody(
    proposedDatetime: Option<string>, location: Option<string>, virtualLink: Option<string>,
    notes: Option<string>)

  function CreateMeetingErrors(body: MeetingBody, iso: string -> Option<Timestamp>): (errs: seq<string>)
    ensures errs == [] <==> body.proposedDatetime.Some? && iso(body.proposedDatetime.value).Some?
  {
    if body.proposedDatetime.Some? && iso(body.proposedDatetime.value).Some? then [] else ["proposed_datetime"]
  }

  /** The row `INSERT INTO meetings ... RETURNING *` creates: the optional
      fields were trimmed by the validators and `x || null` nulls the
      blank ones; a new meeting is proposed, not confirmed. */
  function NewMeeting(id: Id, roundId: Id, caller: Caller, body: MeetingBody,
                      iso: string -> Option<Timestamp>, now: Timestamp): Meeting
    requires CreateMeetingErrors(body, iso) == []
  {
    Meeting(id, roundId, caller.id, iso(body.proposedDatetime.value).value, NullIfBlank(body.location),
            NullIfBlank(body.virtualLink), NullIfBlank(body.notes), Proposed, now, now)
  }

  /** `POST /api/rounds/:id/meetings`: any member; the round must exist,
      whatever its status. */
  function CreateMeetingStep(s: State, caller: Caller, roundId: Id, body: MeetingBody,
                             iso: string -> Option<Timestamp>, now: Timestamp): (r: Step<Meeting>)
    ensures r.result.Err? ==> r.after == s
    ensures r.result.Ok? <==> CreateMeetingErrors(body, iso) == [] && RoundIndex(s.rounds, roundId) >= 0
    ensures r.result.Ok? ==>
      && r.result.value.id == s.nextId && r.result.value.roundId == roundId
      && r.result.value.proposedBy == caller.id
      && r.after == s.(meetings := s.meetings + [r.result.value], nextId := s.nextId + 1)
  {
    var errs := CreateMeetingErrors(body, iso);
    if errs != [] then Step(Err(Invalid(errs)), s)
    else if RoundIndex(s.rounds, roundId) < 0 then Step(Err(RoundNotFound), s)
    else
      var row := NewMeeting(s.nextId, roundId, caller, body, iso, now);
      Step(Ok(row), s.(meetings := s.meetings + [row], nextId := s.nextId + 1))
  }

  /** A proposed meeting is recorded as proposed, for the parsed time, with
      blank optional fields stored as null, even in a closed round. */
  lemma CreatedMeeting(s: State, caller: Caller, roundId: Id, body: MeetingBody,
                       iso: string -> Option<Timestamp>, now: Timestamp)
    requires CreateMeetingErrors(body, iso) == [] && RoundIndex(s.rounds, roundId) >= 0
    ensures CreateMeetingStep(s, caller, roundId, body, iso, now).result.Ok?
    ensures Some(CreateMeetingStep(s, caller, roundId, body, iso, now).result.value.proposedDatetime)
            == iso(body.proposedDatetime.value)
    ensures CreateMeetingStep(s, caller, roundId, body, iso, now).result.value.status == Proposed
    ensures CreateMeetingStep(s, caller, roundId, body, iso, now).result.value.location.None?
            <==> body.location.None? || Trim(body.location.value) == []
  {
  }

  method CreateMeeting(db: Db, caller: Caller, roundId: Id, body: MeetingBody,
                       iso: string -> Option<Timestamp>, now: Timestamp) returns (r: Result<Meeting>)
    requires db.Valid()
    modifies db
    ensures db.Valid()
    ensures Step(r, db.Snapshot()) == CreateMeetingStep(old(db.Snapshot()), caller, roundId, body, iso, now)
  {
    var errs := CreateMeetingErrors(body, iso);
    if errs != [] {
      return Err(Invalid(errs));
    }
    var k := RoundIndex(db.rounds, roundId);
    if k < 0 {
      return Err(RoundNotFound);
    }
    var row := NewMeeting(db.nextId, roundId, caller, body, iso, now);
    db.InsertMeeting(row);
    r := Ok(row);
  }

  // ---------------------------------------------------------- availability

  /** `INSERT ... ON CONFLICT (meeting_id, user_id) DO UPDATE SET response`:
      the member's row for the meeting takes the new response, or the row
      is appended when there is none. */
  function UpsertResponse(availability: seq<Availability>, row: Availability): (r: seq<Availability>)
    ensures AvailabilityKeysUnique(availability) ==> AvailabilityKeysUnique(r)
    ensures |r| == |availability| || r == availability + [row]
    ensures forall i :: 0 <= i < |availability| && !Keyed(row.meetingId, row.userId, availability[i])
                        ==> r[i] == availability[i]
  {
    var k := FirstIndex(availability, (a: Availability) => Keyed(row.meetingId, row.userId, a));
    if k >= 0 then availability[k := availability[k].(response := row.response)]
    else availability + [row]
  }

  /** The row the upsert returns. */
  function Upserted(availability: seq<Availability>, row: Availability): Availability {
    var k := FirstIndex(availability, (a: Availability) => Keyed(row.meetingId, row.userId, a));
    if k >= 0 then availability[k].(response := row.response) else row
  }

  /** Resubmitting overwrites: after the upsert the member's response to
      the meeting is the new one. */
  lemma MyResponseAfterUpsert(availability: seq<Availability>, row: Availability)
    ensures MyResponse(UpsertResponse(availability, row), row.meetingId, row.userId) == Some(row.response)
  {
    var r := UpsertResponse(availability, row);
    var p := (a: Availability) => Keyed(row.meetingId, row.userId, a);
    var k := FirstIndex(availability, p);
    if k >= 0 {
      assert r == availability[k := availability[k].(response := row.response)];
      assert r[k].response == row.response && p(r[k]);
      assert forall i :: 0 <= i < k ==> r[i] == availability[i];
      assert FirstIndex(r, p) == k;
    } else {
      assert r == availability + [row];
      assert forall i :: 0 <= i < |availability| ==> r[i] == availability[i] && !p(r[i]);
      assert r[|availability|] == row && p(row);
      assert FirstIndex(r, p) == |availability|;
    }
  }

  /** The upsert leaves every other member's response, and the member's
      responses to other meetings, as they were. */
  lemma OtherResponsesAfterUpsert(availability: seq<Availability>, row: Availability, meetingId: Id, userId: Id)
    requires (meetingId, userId) != (row.meetingId, row.userId)
    ensures MyResponse(UpsertResponse(availability, row), meetingId, userId) == MyResponse(availability, meetingId, userId)
  {
    var r := UpsertResponse(availability, row);
    var p := (a: Availability) => Keyed(row.meetingId, row.userId, a);
    var k := FirstIndex(availability, p);
    var q := (a: Availability) => Keyed(meetingId, userId, a);
    assert forall i :: 0 <= i < |availability| ==> (q(r[i]) <==> q(availability[i])) && (q(r[i]) ==> r[i] == availability[i]);
    var j := FirstIndex(availability, q);
    if j >= 0 {
      assert FirstIndex(r, q) == j;
    } else if k < 0 {
      assert r == availability + [row];
      assert !q(r[|availability|]);
    }
  }

  /** `POST /api/meetings/:id/availability`: any member answers for
      themself; the id counter advances whether a row is inserted or
      updated. */
  function SubmitAvailabilityStep(s: State, caller: Caller, meetingId: Id, response: Option<string>,
                                  now: Timestamp): (r: Step<Availability>)
    ensures r.result.Err? ==> r.after == s
    ensures r.result.Ok? <==>
      response.Some? && ParseResponse(response.value).Some? && MeetingIndex(s.meetings, meetingId) >= 0
    ensures r.result.Ok? ==>
      && r.result.value.meetingId == meetingId && r.result.value.userId == caller.id
      && Some(r.result.value.response) == ParseResponse(response.value)
  {
    var parsed := if response.Some? then ParseResponse(response.value) else None;
    if parsed.None? then Step(Err(Invalid(["response"])), s)
    else if MeetingIndex(s.meetings, meetingId) < 0 then Step(Err(MeetingNotFound), s)
    else
      var row := Availability(s.nextId, meetingId, caller.id, parsed.value, now, now);
      Step(Ok(Upserted(s.availability, row)),
           s.(availability := UpsertResponse(s.availability, row), nextId := s.nextId + 1))
  }

  /** After answering, the caller's `my_response` in the meeting list is
      the answer just given. */
  lemma SubmitThenList(s: State, caller: Caller, meetingId: Id, response: Option<string>, now: Timestamp)
    requires SubmitAvailabilityStep(s, caller, meetingId, response, now).result.Ok?
    ensures MyResponse(SubmitAvailabilityStep(s, caller, meetingId, response, now).after.availability,
                       meetingId, caller.id) == ParseResponse(response.value)
  {
    var row := Availability(s.nextId, meetingId, caller.id, ParseResponse(response.value).value, now, now);
    MyResponseAfterUpsert(s.availability, row);
  }

  method SubmitAvailability(db: Db, caller: Caller, meetingId: Id, response: Option<string>, now: Timestamp)
    returns (r: Result<Availability>)
    requires db.Valid()
    modifies db
    ensures db.Valid()
    ensures Step(r, db.Snapshot()) == SubmitAvailabilityStep(old(db.Snapshot()), caller, meetingId, response, now)
  {
    var parsed := if response.Some? then ParseResponse(response.value) else None;
    if parsed.None? {
      return Err(Invalid(["response"]));
    }
    var k := MeetingIndex(db.meetings, meetingId);
    if k < 0 {
      return Err(MeetingNotFound);
    }
    var row := Availability(db.nextId, meetingId, caller.id, parsed.value, now, now);
    r := Ok(Upserted(db.availability, row));
    db.SetAvailability(UpsertResponse(db.availability, row));
  }

  // --------------------------------------------------------------- confirm

  /** The notification text; `local` is `Date.prototype.toLocaleString`. */
  function ConfirmText(m: Meeting, local: Timestamp -> string): string {
    "A meeting has been confirmed for " + local(m.proposedDatetime)
    + (if m.location.Some? && m.location.value != "" then " at " + m.location.value else "")
    + (if m.virtualLink.Some? && m.virtualLink.value != "" then ". Join: " + m.virtualLink.value else "")
    + "."
  }

  function ConfirmMessage(m: Meeting, local: Timestamp -> string): Message {
    Message(Some("Meeting Confirmed"), ConfirmText(m, local))
  }

  /** The tables after the confirm: the meeting confirmed, then one
      notification per member. */
  function AfterConfirm(s: State, k: nat, local: Timestamp -> string, now: Timestamp): State
    requires k < |s.meetings|
  {
    var m := s.meetings[k].(status := Confirmed);
    s.(meetings := s.meetings[k := m],
       notifications := s.notifications + Fanout(s.users, s.nextId, ConfirmMessage(m, local), now),
       nextId := s.nextId + |s.users|)
  }

  /** `PATCH /api/meetings/:id/confirm` (organizers only): no check of the
      meeting's current status. */
  function ConfirmMeetingStep(s: State, caller: Caller, id: Id, local: Timestamp -> string, now: Timestamp)
    : (r: Step<Meeting>)
    ensures r.result.Err? ==> r.after == s
    ensures r.result.Ok? <==> caller.role == Admin && MeetingIndex(s.meetings, id) >= 0
    ensures r.result.Ok? ==>
      && r.result.value == s.meetings[MeetingIndex(s.meetings, id)].(status := Confirmed)
      && r.after == AfterConfirm(s, MeetingIndex(s.meetings, id), local, now)
  {
    if RequireAdmin(caller).Some? then Step(Err(AdminRequired), s)
    else
      var k := MeetingIndex(s.meetings, id);
      if k < 0 then Step(Err(MeetingNotFound), s)
      else Step(Ok(s.meetings[k].(status := Confirmed)), AfterConfirm(s, k, local, now))
  }

  /** A confirm notifies every member exactly once, keeps every earlier
      notification, and changes only that meeting's status. */
  lemma ConfirmNotifiesEachMember(s: State, caller: Caller, id: Id, local: Timestamp -> string, now: Timestamp, userId: Id)
    requires ValidState(s)
    requires ConfirmMeetingStep(s, caller, id, local, now).result.Ok?
    ensures ConfirmMeetingStep(s, caller, id, local, now).after.notifications[..|s.notifications|] == s.notifications
    ensures Count(ConfirmMeetingStep(s, caller, id, local, now).after.notifications[|s.notifications|..],
                  (n: Notification) => Addressed(userId, n))
         == if UserIndex(s.users, userId) >= 0 then 1 else 0
    ensures ConfirmMeetingStep(s, caller, id, local, now).after.meetings[MeetingIndex(s.meetings, id)].status == Confirmed
    ensures forall i :: 0 <= i < |s.meetings| && i != MeetingIndex(s.meetings, id) ==>
      ConfirmMeetingStep(s, caller, id, local, now).after.meetings[i] == s.meetings[i]
  {
    var k := MeetingIndex(s.meetings, id);
    var m := s.meetings[k].(status := Confirmed);
    var after := ConfirmMeetingStep(s, caller, id, local, now).after;
    var ns := Fanout(s.users, s.nextId, ConfirmMessage(m, local), now);
    assert after.notifications == s.notifications + ns;
    assert after.notifications[|s.notifications|..] == ns;
    FanoutCount(s.users, s.nextId, ConfirmMessage(m, local), now, userId);
    UserIdCount(s.users, userId);
  }

  /** As written, confirming an already confirmed meeting succeeds again
      and notifies every member a second time. */
  lemma ConfirmTwiceNotifiesTwice(s: State, caller: Caller, id: Id, local: Timestamp -> string, now: Timestamp)
    requires ConfirmMeetingStep(s, caller, id, local, now).result.Ok?
    ensures var t := ConfirmMeetingStep(s, caller, id, local, now).after;
      && ConfirmMeetingStep(t, caller, id, local, now).result.Ok?
      && |ConfirmMeetingStep(t, caller, id, local, now).after.notifications| == |s.notifications| + 2 * |s.users|
  {
    var k := MeetingIndex(s.meetings, id);
    var t := ConfirmMeetingStep(s, caller, id, local, now).after;
    assert t.meetings[k].id == id;
  }

  method ConfirmMeeting(db: Db, caller: Caller, id: Id, local: Timestamp -> string, now: Timestamp)
    returns (r: Result<Meeting>)
    requires db.Valid()
    modifies db
    ensures db.Valid()
    ensures Step(r, db.Snapshot()) == ConfirmMeetingStep(old(db.Snapshot()), caller, id, local, now)
  {
    if caller.role != Admin {
      return Err(AdminRequired);
    }
    var k := MeetingIndex(db.meetings, id);
    if k < 0 {
      return Err(MeetingNotFound);
    }
    ghost var s0 := db.Snapshot();
    var meeting := db.meetings[k].(status := Confirmed);
    db.UpdateMeeting(k, meeting);
    var members := db.users;
    NotifyAll(db, members, ConfirmMessage(meeting, local), now);
    r := Ok(meeting);
    assert db.Snapshot() == AfterConfirm(s0, k, local, now);
  }

  // ---------------------------------------------------------------- delete

  /** `DELETE /api/meetings/:id`: the meeting must exist, must not be
      confirmed, and the caller must be an organizer or its proposer,
      checked in that order. */
  function DeleteMeetingStep(s: State, caller: Caller, id: Id): (r: Step<()>)
    ensures r.result.Err? ==> r.after == s
    ensures r.result == Err(MeetingNotFound) <==> MeetingIndex(s.meetings, id) < 0
    ensures r.result == Err(MeetingConfirmed) <==>
      MeetingIndex(s.meetings, id) >= 0 && s.meetings[MeetingIndex(s.meetings, id)].status == Confirmed
    ensures r.result.Ok? ==>
      var m := s.meetings[MeetingIndex(s.meetings, id)];
      && m.status != Confirmed && (caller.role == Admin || m.proposedBy == caller.id)
      && r.after == s.(meetings := WithoutMeeting(s.meetings, id))
  {
    var k := MeetingIndex(s.meetings, id);
    if k < 0 then Step(Err(MeetingNotFound), s)
    else
      var m := s.meetings[k];
      if m.status == Confirmed then Step(Err(MeetingConfirmed), s)
      else if caller.role != Admin && m.proposedBy != caller.id then Step(Err(NotMeetingOwner), s)
      else Step(Ok(()), s.(meetings := WithoutMeeting(s.meetings, id)))
  }

  /** A successful delete removes exactly that one meeting row. */
  lemma DeleteRemovesOneMeeting(s: State, caller: Caller, id: Id)
    requires ValidState(s)
    requires DeleteMeetingStep(s, caller, id).result.Ok?
    ensures DeleteMeetingStep(s, caller, id).after.meetings == RemoveAt(s.meetings, MeetingIndex(s.meetings, id))
    ensures MeetingIndex(DeleteMeetingStep(s, caller, id).after.meetings, id) < 0
  {
    var k := MeetingIndex(s.meetings, id);
    WithoutMeetingRemovesRow(s.meetings, id);
    var rest := RemoveAt(s.meetings, k);
    forall i | 0 <= i < |rest| ensures rest[i].id != id {
      if i < k {
        assert rest[i] == s.meetings[i];
      } else {
        assert rest[i] == s.meetings[i + 1];
      }
    }
  }

  /** Once confirmed, a meeting can no longer be deleted, not even by an
      organizer. */
  lemma ConfirmedMeetingStays(s: State, admin: Caller, caller: Caller, id: Id, local: Timestamp -> string, now: Timestamp)
    requires ConfirmMeetingStep(s, admin, id, local, now).result.Ok?
    ensures DeleteMeetingStep(ConfirmMeetingStep(s, admin, id, local, now).after, caller, id).result == Err(MeetingConfirmed)
  {
    var k := MeetingIndex(s.meetings, id);
    var t := ConfirmMeetingStep(s, admin, id, local, now).after;
    assert t.meetings[k].id == id;
  }

  method DeleteMeeting(db: Db, caller: Caller, id: Id) returns (r: Result<()>)
    requires db.Valid()
    modifies db
    ensures db.Valid()
    ensures Step(r, db.Snapshot()) == DeleteMeetingStep(old(db.Snapshot()), caller, id)
  {
    var k := MeetingIndex(db.meetings, id);
    if k < 0 {
      return Err(MeetingNotFound);
    }
    var m := db.meetings[k];
    if m.status == Confirmed {
      return Err(MeetingConfirmed);
    }
    if caller.role != Admin && m.proposedBy != caller.id {
      return Err(NotMeetingOwner);
    }
    db.DeleteMeeting(id);
    r := Ok(());
  }
}

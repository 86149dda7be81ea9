/** The book-club database: one row datatype per table and a `Db` object
    whose fields are the tables, updated in place by the request handlers.
    Timestamps are integers (the handlers receive the current time as a
    parameter); every SERIAL id is drawn from one counter, `nextId`. */
module Tables {
  import opened Api
  import opened Query

  type Id = nat
  type Timestamp = int

  datatype VotingMethod = RankedChoice | Approval
  datatype RoundStatus = Open | Closed | Archived
  datatype MeetingStatus = Proposed | Confirmed
  datatype Response = Yes | Maybe | No

  datatype User = User(
    id: Id, email: string, displayName: string, passwordHash: string, role: Role,
    contactChannel: Option<string>, contactAddress: Option<string>,
    notificationPrefs: Option<string>, createdAt: Timestamp, updatedAt: Timestamp)

  /** A user as the API answers with one: every column but the password
      hash. `updatedAt` is None where the query does not select
      `updated_at` (registration and login). */
  datatype PublicUser = PublicUser(
    id: Id, email: string, displayName: string, role: Role,
    contactChannel: Option<string>, contactAddress: Option<string>,
    notificationPrefs: Option<string>, createdAt: Timestamp, updatedAt: Option<Timestamp>)

  function Public(u: User, withUpdatedAt: bool): PublicUser {
    PublicUser(u.id, u.email, u.displayName, u.role, u.contactChannel, u.contactAddress,
               u.notificationPrefs, u.createdAt, if withUpdatedAt then Some(u.updatedAt) else None)
  }

  /** The projection drops the password hash and nothing else: two users
      look alike exactly when they differ at most in their hashes. */
  lemma PublicOmitsOnlyHash(u: User, v: User)
    ensures Public(u, true) == Public(v, true) <==> u.(passwordHash := v.passwordHash) == v
  {
    if Public(u, true) == Public(v, true) {
      assert Some(u.updatedAt) == Some(v.updatedAt);
    }
  }

  datatype InviteCode = InviteCode(
    id: Id, code: string, createdBy: Option<Id>, usedBy: Option<Id>,
    usedAt: Option<Timestamp>, createdAt: Timestamp)

  datatype Round = Round(
    id: Id, title: string, votingMethod: VotingMethod, status: RoundStatus,
    deadline: Option<Timestamp>, winningProposalId: Option<Id>, createdBy: Id,
    createdAt: Timestamp, updatedAt: Timestamp)

  datatype Proposal = Proposal(
    id: Id, roundId: Id, proposedBy: Id, title: string, author: Option<string>,
    description: Option<string>, coverUrl: Option<string>, voteScore: int,
    createdAt: Timestamp, updatedAt: Timestamp)

  datatype Vote = Vote(
    id: Id, roundId: Id, userId: Id, proposalId: Id, rank: int, createdAt: Timestamp)

  datatype Meeting = Meeting(
    id: Id, roundId: Id, proposedBy: Id, proposedDatetime: Timestamp,
    location: Option<string>, virtualLink: Option<string>, notes: Option<string>,
    status: MeetingStatus, createdAt: Timestamp, updatedAt: Timestamp)

  datatype Availability = Availability(
    id: Id, meetingId: Id, userId: Id, response: Response,
    createdAt: Timestamp, updatedAt: Timestamp)

  datatype Notification = Notification(
    id: Id, userId: Id, channel: string, subject: Option<string>, body: string,
    createdAt: Timestamp)

  /** Position of the first element of `s` satisfying `p`, or -1 when none
      does (the row a `SELECT ... WHERE` answers with first). */
  function FirstIndex<T>(s: seq<T>, p: T -> bool): (k: int)
    ensures -1 <= k < |s|
    ensures k >= 0 ==> p(s[k]) && forall i :: 0 <= i < k ==> !p(s[i])
    ensures k < 0 <==> forall i :: 0 <= i < |s| ==> !p(s[i])
  {
    if s == [] then -1
    else if p(s[0]) then 0
    else
      var k := FirstIndex(s[1..], p);
      if k < 0 then -1 else k + 1
  }

  function RoundIndex(rounds: seq<Round>, id: Id): (k: int)
    ensures -1 <= k < |rounds|
    ensures k >= 0 ==> rounds[k].id == id
    ensures k < 0 <==> forall i :: 0 <= i < |rounds| ==> rounds[i].id != id
  {
    FirstIndex(rounds, (r: Round) => r.id == id)
  }

  function ProposalIndex(proposals: seq<Proposal>, id: Id): (k: int)
    ensures -1 <= k < |proposals|
    ensures k >= 0 ==> proposals[k].id == id
    ensures k < 0 <==> forall i :: 0 <= i < |proposals| ==> proposals[i].id != id
  {
    FirstIndex(proposals, (p: Proposal) => p.id == id)
  }

  function MeetingIndex(meetings: seq<Meeting>, id: Id): (k: int)
    ensures -1 <= k < |meetings|
    ensures k >= 0 ==> meetings[k].id == id
    ensures k < 0 <==> forall i :: 0 <= i < |meetings| ==> meetings[i].id != id
  {
    FirstIndex(meetings, (m: Meeting) => m.id == id)
  }

  function UserIndex(users: seq<User>, id: Id): (k: int)
    ensures -1 <= k < |users|
    ensures k >= 0 ==> users[k].id == id
    ensures k < 0 <==> forall i :: 0 <= i < |users| ==> users[i].id != id
  {
    FirstIndex(users, (u: User) => u.id == id)
  }

  ghost predicate RoundIdsFresh(rounds: seq<Round>, next: nat) {
    && (forall i, j :: 0 <= i < j < |rounds| ==> rounds[i].id != rounds[j].id)
    && (forall i :: 0 <= i < |rounds| ==> rounds[i].id < next)
  }

  ghost predicate ProposalIdsFresh(proposals: seq<Proposal>, next: nat) {
    && (forall i, j :: 0 <= i < j < |proposals| ==> proposals[i].id != proposals[j].id)
    && (forall i :: 0 <= i < |proposals| ==> proposals[i].id < next)
  }

  ghost predicate MeetingIdsFresh(meetings: seq<Meeting>, next: nat) {
    && (forall i, j :: 0 <= i < j < |meetings| ==> meetings[i].id != meetings[j].id)
    && (forall i :: 0 <= i < |meetings| ==> meetings[i].id < next)
  }

  ghost predicate UserIdsFresh(users: seq<User>, next: nat) {
    && (forall i, j :: 0 <= i < j < |users| ==> users[i].id != users[j].id)
    && (forall i :: 0 <= i < |users| ==> users[i].id < next)
  }

  /** The unique key `(round_id, user_id, proposal_id)` of the votes table. */
  ghost predicate VoteKeysUnique(votes: seq<Vote>) {
    forall i, j :: 0 <= i < j < |votes| ==>
      (votes[i].roundId, votes[i].userId, votes[i].proposalId)
        != (votes[j].roundId, votes[j].userId, votes[j].proposalId)
  }

  /** The unique key `(meeting_id, user_id)` of the availability table. */
  ghost predicate AvailabilityKeysUnique(availability: seq<Availability>) {
    forall i, j :: 0 <= i < j < |availability| ==>
      (availability[i].meetingId, availability[i].userId)
        != (availability[j].meetingId, availability[j].userId)
  }

  /** The contents of every table at one moment. */
  datatype State = State(
    users: seq<User>, inviteCodes: seq<InviteCode>, rounds: seq<Round>,
    proposals: seq<Proposal>, votes: seq<Vote>, meetings: seq<Meeting>,
    availability: seq<Availability>, notifications: seq<Notification>, nextId: nat)

  /** The invite `seedData` inserts when the server starts. */
  function FounderInvite(now: Timestamp): InviteCode {
    InviteCode(1, "FOUNDER2026", None, None, None, now)
  }

  /** The tables right after startup: no members, no rounds, and one unused
      invite, `FOUNDER2026`. */
  function Seeded(now: Timestamp): (s: State)
    ensures s.users == [] && s.inviteCodes == [FounderInvite(now)]
    ensures s.rounds == [] && s.proposals == [] && s.votes == []
    ensures s.meetings == [] && s.availability == [] && s.notifications == []
    ensures s.inviteCodes[0].code == "FOUNDER2026" && s.inviteCodes[0].usedBy.None?
  {
    State([], [FounderInvite(now)], [], [], [], [], [], [], 2)
  }

  /** The table constraints the handlers rely on: primary keys are distinct
      and below the id counter, and the two composite unique keys hold. */
  ghost predicate ValidState(s: State) {
    && UserIdsFresh(s.users, s.nextId)
    && RoundIdsFresh(s.rounds, s.nextId)
    && ProposalIdsFresh(s.proposals, s.nextId)
    && MeetingIdsFresh(s.meetings, s.nextId)
    && VoteKeysUnique(s.votes)
    && AvailabilityKeysUnique(s.availability)
  }

  /** Drawing an id from the counter keeps every table valid. */
  lemma ValidWithLargerCounter(s: State, next: nat)
    requires ValidState(s) && s.nextId <= next
    ensures ValidState(s.(nextId := next))
  {
  }

  /** Appending a round whose id is the counter, then advancing it. */
  lemma ValidAfterNewRound(s: State, row: Round)
    requires ValidState(s) && row.id == s.nextId
    ensures ValidState(s.(rounds := s.rounds + [row], nextId := s.nextId + 1))
  {
  }

  lemma ValidAfterNewProposal(s: State, row: Proposal)
    requires ValidState(s) && row.id == s.nextId
    ensures ValidState(s.(proposals := s.proposals + [row], nextId := s.nextId + 1))
  {
  }

  lemma ValidAfterNewMeeting(s: State, row: Meeting)
    requires ValidState(s) && row.id == s.nextId
    ensures ValidState(s.(meetings := s.meetings + [row], nextId := s.nextId + 1))
  {
  }

  lemma ValidAfterNewUser(s: State, row: User)
    requires ValidState(s) && row.id == s.nextId
    ensures ValidState(s.(users := s.users + [row], nextId := s.nextId + 1))
  {
  }

  lemma ValidAfterMeetingUpdate(s: State, k: nat, row: Meeting)
    requires ValidState(s) && k < |s.meetings| && row.id == s.meetings[k].id
    ensures ValidState(s.(meetings := s.meetings[k := row]))
  {
  }

  /** A row appended under an id above every existing one is the row
      found under that id. */
  lemma AppendedProposalFound(proposals: seq<Proposal>, row: Proposal)
    requires forall i :: 0 <= i < |proposals| ==> proposals[i].id < row.id
    ensures ProposalIndex(proposals + [row], row.id) == |proposals|
  {
    var ps := proposals + [row];
    assert ps[|proposals|].id == row.id;
  }

  /** With distinct user ids, a user id is listed once or not at all. */
  lemma {:induction false} UserIdCount(users: seq<User>, userId: Id)
    requires forall i, j :: 0 <= i < j < |users| ==> users[i].id != users[j].id
    ensures Count(users, (u: User) => u.id == userId) == if UserIndex(users, userId) >= 0 then 1 else 0
  {
    if users != [] {
      var rest := users[1..];
      UserIdCount(rest, userId);
      if users[0].id == userId {
        FilterNone(rest, (u: User) => u.id == userId);
      } else {
        assert (UserIndex(users, userId) >= 0) == (UserIndex(rest, userId) >= 0) by {
          if UserIndex(users, userId) >= 0 {
            assert rest[UserIndex(users, userId) - 1].id == userId;
          }
          if UserIndex(rest, userId) >= 0 {
            assert users[UserIndex(rest, userId) + 1].id == userId;
          }
        }
      }
    }
  }

  /** Rewriting one user row in place, keeping its id. */
  lemma ValidAfterUserUpdate(s: State, k: nat, row: User)
    requires ValidState(s) && k < |s.users| && row.id == s.users[k].id
    ensures ValidState(s.(users := s.users[k := row]))
  {
  }

  /** Rewriting one round row in place, keeping its id. */
  lemma ValidAfterRoundUpdate(s: State, k: nat, row: Round)
    requires ValidState(s) && k < |s.rounds| && row.id == s.rounds[k].id
    ensures ValidState(s.(rounds := s.rounds[k := row]))
  {
  }

  /** `DELETE FROM proposals WHERE id = ...`. */
  function WithoutProposal(proposals: seq<Proposal>, id: Id): seq<Proposal> {
    Filter(proposals, (p: Proposal) => p.id != id)
  }

  /** `DELETE FROM meetings WHERE id = ...`. */
  function WithoutMeeting(meetings: seq<Meeting>, id: Id): seq<Meeting> {
    Filter(meetings, (m: Meeting) => m.id != id)
  }

  /** With distinct ids, deleting by id removes exactly the row at its index. */
  lemma WithoutProposalRemovesRow(proposals: seq<Proposal>, id: Id)
    requires forall i, j :: 0 <= i < j < |proposals| ==> proposals[i].id != proposals[j].id
    requires ProposalIndex(proposals, id) >= 0
    ensures WithoutProposal(proposals, id) == RemoveAt(proposals, ProposalIndex(proposals, id))
  {
    FilterDropsOne(proposals, ProposalIndex(proposals, id), (p: Proposal) => p.id != id);
  }

  lemma WithoutMeetingRemovesRow(meetings: seq<Meeting>, id: Id)
    requires forall i, j :: 0 <= i < j < |meetings| ==> meetings[i].id != meetings[j].id
    requires MeetingIndex(meetings, id) >= 0
    ensures WithoutMeeting(meetings, id) == RemoveAt(meetings, MeetingIndex(meetings, id))
  {
    FilterDropsOne(meetings, MeetingIndex(meetings, id), (m: Meeting) => m.id != id);
  }

  lemma ValidAfterProposalDelete(s: State, id: Id)
    requires ValidState(s)
    ensures ValidState(s.(proposals := WithoutProposal(s.proposals, id)))
  {
    FilterKeepsKeysDistinct(s.proposals, (p: Proposal) => p.id != id, (p: Proposal) => p.id);
  }

  lemma ValidAfterMeetingDelete(s: State, id: Id)
    requires ValidState(s)
    ensures ValidState(s.(meetings := WithoutMeeting(s.meetings, id)))
  {
    FilterKeepsKeysDistinct(s.meetings, (m: Meeting) => m.id != id, (m: Meeting) => m.id);
  }

  /** What one request handler answers and the tables it leaves behind. */
  datatype Step<T> = Step(result: Result<T>, after: State)

  class Db {
    var users: seq<User>
    var inviteCodes: seq<InviteCode>
    var rounds: seq<Round>
    var proposals: seq<Proposal>
    var votes: seq<Vote>
    var meetings: seq<Meeting>
    var availability: seq<Availability>
    var notifications: seq<Notification>
    var nextId: nat

    ghost function Snapshot(): State
      reads this
    {
      State(users, inviteCodes, rounds, proposals, votes, meetings, availability, notifications, nextId)
    }

    ghost predicate Valid()
      reads this
    {
      ValidState(Snapshot())
    }

    /** `INSERT INTO rounds ... RETURNING *` of a row carrying the next id. */
    method InsertRound(row: Round)
      requires Valid() && row.id == nextId
      modifies this
      ensures Valid()
      ensures Snapshot() == old(Snapshot()).(rounds := old(rounds) + [row], nextId := old(nextId) + 1)
    {
      ValidAfterNewRound(Snapshot(), row);
      rounds := rounds + [row];
      nextId := nextId + 1;
    }

    /** `UPDATE rounds SET ... WHERE id = ...` of the round at index `k`,
        keeping its id. */
    method UpdateRound(k: nat, row: Round)
      requires Valid() && k < |rounds| && row.id == rounds[k].id
      modifies this
      ensures Valid()
      ensures Snapshot() == old(Snapshot()).(rounds := old(rounds)[k := row])
    {
      ValidAfterRoundUpdate(Snapshot(), k, row);
      rounds := rounds[k := row];
    }

    method InsertProposal(row: Proposal)
      requires Valid() && row.id == nextId
      modifies this
      ensures Valid()
      ensures Snapshot() == old(Snapshot()).(proposals := old(proposals) + [row], nextId := old(nextId) + 1)
    {
      ValidAfterNewProposal(Snapshot(), row);
      proposals := proposals + [row];
      nextId := nextId + 1;
    }

    method DeleteProposal(id: Id)
      requires Valid()
      modifies this
      ensures Valid()
      ensures Snapshot() == old(Snapshot()).(proposals := WithoutProposal(old(proposals), id))
    {
      ValidAfterProposalDelete(Snapshot(), id);
      proposals := WithoutProposal(proposals, id);
    }

    method InsertMeeting(row: Meeting)
      requires Valid() && row.id == nextId
      modifies this
      ensures Valid()
      ensures Snapshot() == old(Snapshot()).(meetings := old(meetings) + [row], nextId := old(nextId) + 1)
    {
      ValidAfterNewMeeting(Snapshot(), row);
      meetings := meetings + [row];
      nextId := nextId + 1;
    }

    method DeleteMeeting(id: Id)
      requires Valid()
      modifies this
      ensures Valid()
      ensures Snapshot() == old(Snapshot()).(meetings := WithoutMeeting(old(meetings), id))
    {
      ValidAfterMeetingDelete(Snapshot(), id);
      meetings := WithoutMeeting(meetings, id);
    }

    /** `UPDATE meetings SET ... WHERE id = ...` of the meeting at index
        `k`, keeping its id. */
    method UpdateMeeting(k: nat, row: Meeting)
      requires Valid() && k < |meetings| && row.id == meetings[k].id
      modifies this
      ensures Valid()
      ensures Snapshot() == old(Snapshot()).(meetings := old(meetings)[k := row])
    {
      ValidAfterMeetingUpdate(Snapshot(), k, row);
      meetings := meetings[k := row];
    }

    /** An availability statement that draws one id from the counter and
        leaves the table with its unique key intact. */
    method SetAvailability(rows: seq<Availability>)
      requires Valid() && AvailabilityKeysUnique(rows)
      modifies this
      ensures Valid()
      ensures Snapshot() == old(Snapshot()).(availability := rows, nextId := old(nextId) + 1)
    {
      availability := rows;
      nextId := nextId + 1;
    }

    /** `INSERT INTO users ... RETURNING ...` of a row carrying the next id. */
    method InsertUser(row: User)
      requires Valid() && row.id == nextId
      modifies this
      ensures Valid()
      ensures Snapshot() == old(Snapshot()).(users := old(users) + [row], nextId := old(nextId) + 1)
    {
      ValidAfterNewUser(Snapshot(), row);
      users := users + [row];
      nextId := nextId + 1;
    }

    /** `UPDATE users SET ... WHERE id = $n` of the row at position `k`. */
    method UpdateUser(k: nat, row: User)
      requires Valid() && k < |users| && row.id == users[k].id
      modifies this
      ensures Valid()
      ensures Snapshot() == old(Snapshot()).(users := old(users)[k := row])
    {
      ValidAfterUserUpdate(Snapshot(), k, row);
      users := users[k := row];
    }

    /** `UPDATE invite_codes SET ... WHERE id = $n` of the row at position `k`. */
    method UpdateInviteCode(k: nat, row: InviteCode)
      requires Valid() && k < |inviteCodes|
      modifies this
      ensures Valid()
      ensures Snapshot() == old(Snapshot()).(inviteCodes := old(inviteCodes)[k := row])
    {
      inviteCodes := inviteCodes[k := row];
    }

    /** `INSERT INTO notifications ...` of a row carrying the next id. */
    method InsertNotification(row: Notification)
      requires Valid() && row.id == nextId
      modifies this
      ensures Valid()
      ensures Snapshot() == old(Snapshot()).(notifications := old(notifications) + [row], nextId := old(nextId) + 1)
    {
      notifications := notifications + [row];
      nextId := nextId + 1;
    }

    /** The database once `runMigrations` and `seedData` have run at
        startup time `now`: every table empty but for the unused invite
        `FOUNDER2026`, which took the first id. */
    constructor (now: Timestamp)
      ensures Valid()
      ensures Snapshot() == Seeded(now)
    {
      users, inviteCodes, rounds, proposals := [], [FounderInvite(now)], [], [];
      votes, meetings, availability, notifications := [], [], [], [];
      nextId := 2;
    }
  }
}

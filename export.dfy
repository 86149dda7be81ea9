/** The organizers' data export: the full dump, with proposals (and their
    votes) and meetings (and their availability) nested under their
    rounds, and the delta of rows created or changed after a timestamp. */
module Export {
  import opened Api
  import opened Tables
  import opened Query

  datatype NestedProposal = NestedProposal(proposal: Proposal, votes: seq<Vote>)
  datatype NestedMeeting = NestedMeeting(meeting: Meeting, availability: seq<Availability>)
  datatype NestedRound = NestedRound(round: Round, proposals: seq<NestedProposal>, meetings: seq<NestedMeeting>)

  /** The `GET /api/export/full` document; `exportedAt` is the clock. */
  datatype FullExport = FullExport(
    exportedAt: Timestamp, users: seq<PublicUser>, rounds: seq<NestedRound>,
    inviteCodes: seq<InviteCode>, notifications: seq<Notification>)

  // `ORDER BY created_at` of each table.
  function UserCreated(u: User): (int, int) { (u.createdAt, 0) }
  function RoundCreated(r: Round): (int, int) { (r.createdAt, 0) }
  function ProposalCreated(p: Proposal): (int, int) { (p.createdAt, 0) }
  function VoteCreated(v: Vote): (int, int) { (v.createdAt, 0) }
  function MeetingCreated(m: Meeting): (int, int) { (m.createdAt, 0) }
  function AvailabilityCreated(a: Availability): (int, int) { (a.createdAt, 0) }
  function InviteCreated(c: InviteCode): (int, int) { (c.createdAt, 0) }
  function NotificationCreated(n: Notification): (int, int) { (n.createdAt, 0) }

  function ProposalRound(p: Proposal): Id { p.roundId }
  function MeetingRound(m: Meeting): Id { m.roundId }
  function PublicRow(u: User): PublicUser { Public(u, true) }

  /** The rows whose parent key is `id`. */
  function ChildOf<T>(parent: T -> Id, id: Id): T -> bool {
    (x: T) => parent(x) == id
  }

  /** `{ ...p, votes: votes.filter(v => v.proposal_id === p.id) }` */
  function WithVotes(votes: seq<Vote>): Proposal -> NestedProposal {
    (p: Proposal) => NestedProposal(p, Filter(votes, (v: Vote) => v.proposalId == p.id))
  }

  /** `{ ...m, availability: availability.filter(a => a.meeting_id === m.id) }` */
  function WithAvailability(availability: seq<Availability>): Meeting -> NestedMeeting {
    (m: Meeting) => NestedMeeting(m, Filter(availability, (a: Availability) => a.meetingId == m.id))
  }

  /** The keys the grouping loop has created after its first `i` rows. */
  ghost predicate KeysGrouped<T, N>(rows: seq<T>, parent: T -> Id, i: nat, groups: map<Id, seq<N>>)
    requires i <= |rows|
  {
    forall id :: id in groups <==> exists j :: 0 <= j < i && parent(rows[j]) == id
  }

  /** The lists the grouping loop holds after its first `i` rows. */
  ghost predicate ListsGrouped<T, N>(rows: seq<T>, parent: T -> Id, nest: T -> N, i: nat, groups: map<Id, seq<N>>)
    requires i <= |rows|
  {
    forall id :: id in groups ==> groups[id] == Map(Filter(rows[..i], ChildOf(parent, id)), nest)
  }

  lemma KeysGroupedStep<T, N>(rows: seq<T>, parent: T -> Id, i: nat, groups: map<Id, seq<N>>, v: seq<N>)
    requires i < |rows| && KeysGrouped(rows, parent, i, groups)
    ensures KeysGrouped(rows, parent, i + 1, groups[parent(rows[i]) := v])
  {
    var g := groups[parent(rows[i]) := v];
    forall id ensures id in g <==> exists j :: 0 <= j < i + 1 && parent(rows[j]) == id {
      if id in g && id != parent(rows[i]) {
        var j :| 0 <= j < i && parent(rows[j]) == id;
      }
    }
  }

  lemma ListsGroupedStep<T, N>(rows: seq<T>, parent: T -> Id, nest: T -> N, i: nat, groups: map<Id, seq<N>>)
    requires i < |rows| && ListsGrouped(rows, parent, nest, i, groups)
    requires parent(rows[i]) !in groups ==> Filter(rows[..i], ChildOf(parent, parent(rows[i]))) == []
    ensures var key := parent(rows[i]);
      ListsGrouped(rows, parent, nest, i + 1, groups[key := Lookup(groups, key) + [nest(rows[i])]])
  {
    var row := rows[i];
    var key := parent(row);
    var g := groups[key := Lookup(groups, key) + [nest(row)]];
    assert rows[..i + 1] == rows[..i] + [row];
    forall id | id in g ensures g[id] == Map(Filter(rows[..i + 1], ChildOf(parent, id)), nest) {
      FilterSnoc(rows[..i], row, ChildOf(parent, id));
      if id == key {
        var f := Filter(rows[..i], ChildOf(parent, id));
        assert Map(f + [row], nest) == Map(f, nest) + [nest(row)];
      }
    }
  }

  /** The `proposalsByRound` / `meetingsByRound` loops: every row is pushed,
      nested, onto the list under its parent's key, the list being created
      on first use. A key is present exactly when some row names it, and
      its list holds that parent's rows in their original order. */
  method GroupBy<T, N>(rows: seq<T>, parent: T -> Id, nest: T -> N) returns (groups: map<Id, seq<N>>)
    ensures forall id :: id in groups <==> exists j :: 0 <= j < |rows| && parent(rows[j]) == id
    ensures forall id :: id in groups ==> groups[id] == Map(Filter(rows, ChildOf(parent, id)), nest)
  {
    groups := map[];
    var i := 0;
    while i < |rows|
      invariant 0 <= i <= |rows|
      invariant KeysGrouped(rows, parent, i, groups)
      invariant ListsGrouped(rows, parent, nest, i, groups)
    {
      var row := rows[i];
      var key := parent(row);
      if key !in groups {
        FilterNone(rows[..i], ChildOf(parent, key));
      }
      KeysGroupedStep(rows, parent, i, groups, Lookup(groups, key) + [nest(row)]);
      ListsGroupedStep(rows, parent, nest, i, groups);
      groups := groups[key := Lookup(groups, key) + [nest(row)]];
      i := i + 1;
    }
    assert rows[..i] == rows;
  }

  /** A row is among the children of its own parent. */
  lemma ChildFound<T>(rows: seq<T>, parent: T -> Id, x: T)
    requires x in rows
    ensures x in Filter(rows, ChildOf(parent, parent(x)))
  {
    var k :| 0 <= k < |rows| && rows[k] == x;
    assert ChildOf(parent, parent(x))(rows[k]);
  }

  /** A reordering of rows none of which names `id` has no children of `id`. */
  lemma NoChildren<T>(rows: seq<T>, orig: seq<T>, parent: T -> Id, id: Id)
    requires multiset(rows) == multiset(orig)
    requires forall x :: x in orig ==> parent(x) != id
    ensures Filter(rows, ChildOf(parent, id)) == []
  {
    forall k | 0 <= k < |rows| ensures !ChildOf(parent, id)(rows[k]) {
      assert rows[k] in multiset(orig);
    }
    FilterNone(rows, ChildOf(parent, id));
  }

  /** `map[id] || []` */
  function Lookup<N>(groups: map<Id, seq<N>>, id: Id): seq<N> {
    if id in groups then groups[id] else []
  }

  /** A round with its proposals and meetings, each list in the order of
      the given (sorted) tables. */
  function Nest(proposals: seq<Proposal>, votes: seq<Vote>, meetings: seq<Meeting>,
                availability: seq<Availability>): Round -> NestedRound {
    (r: Round) => NestedRound(r,
      Map(Filter(proposals, ChildOf(ProposalRound, r.id)), WithVotes(votes)),
      Map(Filter(meetings, ChildOf(MeetingRound, r.id)), WithAvailability(availability)))
  }

  /** The full dump: every table in `created_at` order, users without their
      hashes, and proposals and meetings nested under their rounds. */
  function FullExportOf(s: State, now: Timestamp): FullExport {
    var proposals := SortBy(s.proposals, ProposalCreated);
    var votes := SortBy(s.votes, VoteCreated);
    var meetings := SortBy(s.meetings, MeetingCreated);
    var availability := SortBy(s.availability, AvailabilityCreated);
    FullExport(now, Map(SortBy(s.users, UserCreated), PublicRow),
               Map(SortBy(s.rounds, RoundCreated), Nest(proposals, votes, meetings, availability)),
               SortBy(s.inviteCodes, InviteCreated), SortBy(s.notifications, NotificationCreated))
  }

  /** `GET /api/export/full` (organizers only). */
  function ExportFullStep(s: State, caller: Caller, now: Timestamp): (r: Result<FullExport>)
    ensures r.Ok? <==> caller.role == Admin
    ensures r.Err? ==> r.error == AdminRequired
  {
    if RequireAdmin(caller).Some? then Err(AdminRequired) else Ok(FullExportOf(s, now))
  }

  method ExportFull(db: Db, caller: Caller, now: Timestamp) returns (r: Result<FullExport>)
    ensures r == ExportFullStep(db.Snapshot(), caller, now)
  {
    if caller.role != Admin {
      return Err(AdminRequired);
    }
    var proposals := SortBy(db.proposals, ProposalCreated);
    var votes := SortBy(db.votes, VoteCreated);
    var meetings := SortBy(db.meetings, MeetingCreated);
    var availability := SortBy(db.availability, AvailabilityCreated);
    var proposalsByRound := GroupBy(proposals, ProposalRound, WithVotes(votes));
    var meetingsByRound := GroupBy(meetings, MeetingRound, WithAvailability(availability));
    var rounds := SortBy(db.rounds, RoundCreated);
    var nested := seq(|rounds|, i requires 0 <= i < |rounds| =>
      NestedRound(rounds[i], Lookup(proposalsByRound, rounds[i].id), Lookup(meetingsByRound, rounds[i].id)));
    forall i | 0 <= i < |rounds|
      ensures nested[i] == Nest(proposals, votes, meetings, availability)(rounds[i])
    {
      var id := rounds[i].id;
      if id !in proposalsByRound {
        FilterNone(proposals, ChildOf(ProposalRound, id));
      }
      if id !in meetingsByRound {
        FilterNone(meetings, ChildOf(MeetingRound, id));
      }
    }
    assert nested == Map(rounds, Nest(proposals, votes, meetings, availability));
    r := Ok(FullExport(now, Map(SortBy(db.users, UserCreated), PublicRow), nested,
                       SortBy(db.inviteCodes, InviteCreated), SortBy(db.notifications, NotificationCreated)));
  }

  /** Every proposal listed under a round belongs to that round, and carries
      exactly the votes cast for it. */
  lemma ProposalsUnderTheirRound(s: State, now: Timestamp, i: nat, j: nat)
    requires i < |FullExportOf(s, now).rounds|
    requires j < |FullExportOf(s, now).rounds[i].proposals|
    ensures var nr := FullExportOf(s, now).rounds[i];
      && nr.round in s.rounds
      && nr.proposals[j].proposal in s.proposals
      && nr.proposals[j].proposal.roundId == nr.round.id
      && forall v :: v in nr.proposals[j].votes <==> v in s.votes && v.proposalId == nr.proposals[j].proposal.id
  {
    var proposals := SortBy(s.proposals, ProposalCreated);
    var votes := SortBy(s.votes, VoteCreated);
    var rounds := SortBy(s.rounds, RoundCreated);
    var nr := FullExportOf(s, now).rounds[i];
    assert nr.round == rounds[i];
    assert rounds[i] in multiset(s.rounds);
    var f := Filter(proposals, ChildOf(ProposalRound, rounds[i].id));
    assert nr.proposals[j] == WithVotes(votes)(f[j]);
    assert f[j] in multiset(s.proposals);
    var p := f[j];
    forall v ensures v in nr.proposals[j].votes <==> v in s.votes && v.proposalId == p.id {
      var fv := Filter(votes, (v: Vote) => v.proposalId == p.id);
      assert nr.proposals[j].votes == fv;
      if v in fv {
        var k :| 0 <= k < |fv| && fv[k] == v;
        assert v in multiset(votes);
      }
      if v in s.votes && v.proposalId == p.id {
        assert v in multiset(votes);
        var k :| 0 <= k < |votes| && votes[k] == v;
      }
    }
  }

  /** Every meeting listed under a round belongs to that round, and carries
      exactly the availability answers given for it. */
  lemma MeetingsUnderTheirRound(s: State, now: Timestamp, i: nat, j: nat)
    requires i < |FullExportOf(s, now).rounds|
    requires j < |FullExportOf(s, now).rounds[i].meetings|
    ensures var nr := FullExportOf(s, now).rounds[i];
      && nr.round in s.rounds
      && nr.meetings[j].meeting in s.meetings
      && nr.meetings[j].meeting.roundId == nr.round.id
      && forall a :: a in nr.meetings[j].availability <==> a in s.availability && a.meetingId == nr.meetings[j].meeting.id
  {
    var meetings := SortBy(s.meetings, MeetingCreated);
    var availability := SortBy(s.availability, AvailabilityCreated);
    var rounds := SortBy(s.rounds, RoundCreated);
    var nr := FullExportOf(s, now).rounds[i];
    assert nr.round == rounds[i];
    assert rounds[i] in multiset(s.rounds);
    var f := Filter(meetings, ChildOf(MeetingRound, rounds[i].id));
    assert nr.meetings[j] == WithAvailability(availability)(f[j]);
    assert f[j] in multiset(s.meetings);
    var m := f[j];
    forall a ensures a in nr.meetings[j].availability <==> a in s.availability && a.meetingId == m.id {
      var fa := Filter(availability, (a: Availability) => a.meetingId == m.id);
      assert nr.meetings[j].availability == fa;
      if a in fa {
        var k :| 0 <= k < |fa| && fa[k] == a;
        assert a in multiset(availability);
      }
      if a in s.availability && a.meetingId == m.id {
        assert a in multiset(availability);
        var k :| 0 <= k < |availability| && availability[k] == a;
      }
    }
  }

  /** No proposal of an exported round is lost: each one is listed under
      its round. */
  lemma EveryProposalListed(s: State, now: Timestamp, i: nat, p: Proposal)
    requires i < |FullExportOf(s, now).rounds|
    requires p in s.proposals && p.roundId == FullExportOf(s, now).rounds[i].round.id
    ensures exists j :: 0 <= j < |FullExportOf(s, now).rounds[i].proposals|
                     && FullExportOf(s, now).rounds[i].proposals[j].proposal == p
  {
    var proposals := SortBy(s.proposals, ProposalCreated);
    var votes := SortBy(s.votes, VoteCreated);
    var nr := FullExportOf(s, now).rounds[i];
    var fp := Filter(proposals, ChildOf(ProposalRound, p.roundId));
    assert nr.proposals == Map(fp, WithVotes(votes));
    assert p in multiset(proposals);
    ChildFound(proposals, ProposalRound, p);
    var j :| 0 <= j < |fp| && fp[j] == p;
    assert nr.proposals[j].proposal == p;
  }

  /** No meeting of an exported round is lost: each one is listed under its
      round. */
  lemma EveryMeetingListed(s: State, now: Timestamp, i: nat, m: Meeting)
    requires i < |FullExportOf(s, now).rounds|
    requires m in s.meetings && m.roundId == FullExportOf(s, now).rounds[i].round.id
    ensures exists j :: 0 <= j < |FullExportOf(s, now).rounds[i].meetings|
                     && FullExportOf(s, now).rounds[i].meetings[j].meeting == m
  {
    var meetings := SortBy(s.meetings, MeetingCreated);
    var availability := SortBy(s.availability, AvailabilityCreated);
    var nr := FullExportOf(s, now).rounds[i];
    var fm := Filter(meetings, ChildOf(MeetingRound, m.roundId));
    assert nr.meetings == Map(fm, WithAvailability(availability));
    assert m in multiset(meetings);
    ChildFound(meetings, MeetingRound, m);
    var j :| 0 <= j < |fm| && fm[j] == m;
    assert nr.meetings[j].meeting == m;
  }

  /** A round nobody proposed for, or scheduled a meeting in, is exported
      with empty lists. */
  lemma ChildlessRoundHasEmptyLists(s: State, now: Timestamp, i: nat)
    requires i < |FullExportOf(s, now).rounds|
    requires forall p :: p in s.proposals ==> p.roundId != FullExportOf(s, now).rounds[i].round.id
    requires forall m :: m in s.meetings ==> m.roundId != FullExportOf(s, now).rounds[i].round.id
    ensures FullExportOf(s, now).rounds[i].proposals == []
    ensures FullExportOf(s, now).rounds[i].meetings == []
  {
    var proposals := SortBy(s.proposals, ProposalCreated);
    var meetings := SortBy(s.meetings, MeetingCreated);
    var id := FullExportOf(s, now).rounds[i].round.id;
    NoChildren(proposals, s.proposals, ProposalRound, id);
    NoChildren(meetings, s.meetings, MeetingRound, id);
  }

  /** The rounds are listed oldest first. */
  lemma RoundsInCreationOrder(s: State, now: Timestamp)
    ensures var rs := FullExportOf(s, now).rounds;
      forall a, b :: 0 <= a < b < |rs| ==> rs[a].round.createdAt <= rs[b].round.createdAt
  {
    var proposals := SortBy(s.proposals, ProposalCreated);
    var votes := SortBy(s.votes, VoteCreated);
    var meetings := SortBy(s.meetings, MeetingCreated);
    var availability := SortBy(s.availability, AvailabilityCreated);
    var rounds := SortBy(s.rounds, RoundCreated);
    var rs := FullExportOf(s, now).rounds;
    assert rs == Map(rounds, Nest(proposals, votes, meetings, availability));
    forall a, b | 0 <= a < b < |rs| ensures rs[a].round.createdAt <= rs[b].round.createdAt {
      assert KeyLeq(RoundCreated(rounds[a]), RoundCreated(rounds[b]));
    }
  }

  /** The proposals and the meetings of a round are listed oldest first. */
  lemma ChildrenInCreationOrder(s: State, now: Timestamp, i: nat)
    requires i < |FullExportOf(s, now).rounds|
    ensures var nr := FullExportOf(s, now).rounds[i];
      && (forall a, b :: 0 <= a < b < |nr.proposals| ==>
            nr.proposals[a].proposal.createdAt <= nr.proposals[b].proposal.createdAt)
      && (forall a, b :: 0 <= a < b < |nr.meetings| ==>
            nr.meetings[a].meeting.createdAt <= nr.meetings[b].meeting.createdAt)
  {
    var proposals := SortBy(s.proposals, ProposalCreated);
    var votes := SortBy(s.votes, VoteCreated);
    var meetings := SortBy(s.meetings, MeetingCreated);
    var availability := SortBy(s.availability, AvailabilityCreated);
    var rounds := SortBy(s.rounds, RoundCreated);
    var nr := FullExportOf(s, now).rounds[i];
    assert nr == Nest(proposals, votes, meetings, availability)(rounds[i]);
    var id := rounds[i].id;
    var fp := Filter(proposals, ChildOf(ProposalRound, id));
    var fm := Filter(meetings, ChildOf(MeetingRound, id));
    FilterSorted(proposals, ChildOf(ProposalRound, id), ProposalCreated);
    FilterSorted(meetings, ChildOf(MeetingRound, id), MeetingCreated);
    forall a, b | 0 <= a < b < |nr.proposals|
      ensures nr.proposals[a].proposal.createdAt <= nr.proposals[b].proposal.createdAt
    {
      assert nr.proposals[a].proposal == fp[a] && nr.proposals[b].proposal == fp[b];
      assert KeyLeq(ProposalCreated(fp[a]), ProposalCreated(fp[b]));
    }
    forall a, b | 0 <= a < b < |nr.meetings|
      ensures nr.meetings[a].meeting.createdAt <= nr.meetings[b].meeting.createdAt
    {
      assert nr.meetings[a].meeting == fm[a] && nr.meetings[b].meeting == fm[b];
      assert KeyLeq(MeetingCreated(fm[a]), MeetingCreated(fm[b]));
    }
  }

  /** The votes of a listed proposal are listed oldest first. */
  lemma VotesInCreationOrder(s: State, now: Timestamp, i: nat, j: nat)
    requires i < |FullExportOf(s, now).rounds|
    requires j < |FullExportOf(s, now).rounds[i].proposals|
    ensures var vs := FullExportOf(s, now).rounds[i].proposals[j].votes;
      forall a, b :: 0 <= a < b < |vs| ==> vs[a].createdAt <= vs[b].createdAt
  {
    var proposals := SortBy(s.proposals, ProposalCreated);
    var votes := SortBy(s.votes, VoteCreated);
    var meetings := SortBy(s.meetings, MeetingCreated);
    var availability := SortBy(s.availability, AvailabilityCreated);
    var rounds := SortBy(s.rounds, RoundCreated);
    var nr := FullExportOf(s, now).rounds[i];
    assert nr == Nest(proposals, votes, meetings, availability)(rounds[i]);
    var fp := Filter(proposals, ChildOf(ProposalRound, rounds[i].id));
    var p := fp[j];
    var fv := Filter(votes, (v: Vote) => v.proposalId == p.id);
    assert nr.proposals[j] == WithVotes(votes)(p);
    FilterSorted(votes, (v: Vote) => v.proposalId == p.id, VoteCreated);
    forall a, b | 0 <= a < b < |fv| ensures fv[a].createdAt <= fv[b].createdAt {
      assert KeyLeq(VoteCreated(fv[a]), VoteCreated(fv[b]));
    }
  }

  // ------------------------------------------------------------------ delta

  /** The `GET /api/export/since` document. */
  datatype Delta = Delta(
    exportedAt: Timestamp, since: string, users: seq<PublicUser>, rounds: seq<Round>,
    proposals: seq<Proposal>, votes: seq<Vote>, meetings: seq<Meeting>,
    availability: seq<Availability>, notifications: seq<Notification>)

  /** The rows of the delta for instant `t`: rows created or updated after
      it; votes and notifications, which have no `updated_at`, only when
      created after it. */
  function DeltaOf(s: State, ts: string, t: Timestamp, now: Timestamp): Delta {
    Delta(now, ts, Map(Filter(s.users, (u: User) => u.createdAt > t || u.updatedAt > t), PublicRow),
      Filter(s.rounds, (x: Round) => x.createdAt > t || x.updatedAt > t),
      Filter(s.proposals, (x: Proposal) => x.createdAt > t || x.updatedAt > t),
      Filter(s.votes, (x: Vote) => x.createdAt > t),
      Filter(s.meetings, (x: Meeting) => x.createdAt > t || x.updatedAt > t),
      Filter(s.availability, (x: Availability) => x.createdAt > t || x.updatedAt > t),
      Filter(s.notifications, (x: Notification) => x.createdAt > t))
  }

  /** `GET /api/export/since?ts=` (organizers only): `iso` is the ISO 8601
      check and parse of `ts`. */
  function ExportSinceStep(s: State, caller: Caller, ts: string, iso: string -> Option<Timestamp>,
                           now: Timestamp): (r: Result<Delta>)
    ensures r.Ok? <==> caller.role == Admin && iso(ts).Some?
    ensures r.Err? ==> r.error == (if caller.role != Admin then AdminRequired else Invalid(["ts"]))
    ensures r.Ok? ==> r.value == DeltaOf(s, ts, iso(ts).value, now)
    ensures r.Ok? ==> r.value.since == ts && r.value.exportedAt == now
  {
    if RequireAdmin(caller).Some? then Err(AdminRequired)
    else if iso(ts).None? then Err(Invalid(["ts"]))
    else Ok(DeltaOf(s, ts, iso(ts).value, now))
  }

  /** Every user created or changed after the instant is in the delta,
      without the password hash. */
  lemma DeltaUsersComplete(s: State, ts: string, t: Timestamp, now: Timestamp, u: User)
    requires u in s.users && (u.createdAt > t || u.updatedAt > t)
    ensures Public(u, true) in DeltaOf(s, ts, t, now).users
  {
    var users := Filter(s.users, (u: User) => u.createdAt > t || u.updatedAt > t);
    var k :| 0 <= k < |s.users| && s.users[k] == u;
    var m :| 0 <= m < |users| && users[m] == u;
    assert DeltaOf(s, ts, t, now).users[m] == Public(u, true);
  }

  /** Every user of the delta is a user created or changed after the
      instant, without the password hash. */
  lemma DeltaUsersSound(s: State, ts: string, t: Timestamp, now: Timestamp, k: nat)
    requires k < |DeltaOf(s, ts, t, now).users|
    ensures exists u :: u in s.users && (u.createdAt > t || u.updatedAt > t) && DeltaOf(s, ts, t, now).users[k] == Public(u, true)
  {
    var users := Filter(s.users, (u: User) => u.createdAt > t || u.updatedAt > t);
    assert DeltaOf(s, ts, t, now).users[k] == Public(users[k], true);
  }

  /** The other tables of the delta hold exactly their changed rows. */
  lemma DeltaTables(s: State, ts: string, t: Timestamp, now: Timestamp)
    ensures forall x :: x in DeltaOf(s, ts, t, now).rounds <==> x in s.rounds && (x.createdAt > t || x.updatedAt > t)
    ensures forall x :: x in DeltaOf(s, ts, t, now).proposals <==> x in s.proposals && (x.createdAt > t || x.updatedAt > t)
    ensures forall x :: x in DeltaOf(s, ts, t, now).votes <==> x in s.votes && x.createdAt > t
    ensures forall x :: x in DeltaOf(s, ts, t, now).meetings <==> x in s.meetings && (x.createdAt > t || x.updatedAt > t)
    ensures forall x :: x in DeltaOf(s, ts, t, now).availability <==> x in s.availability && (x.createdAt > t || x.updatedAt > t)
    ensures forall x :: x in DeltaOf(s, ts, t, now).notifications <==> x in s.notifications && x.createdAt > t
  {
    FilterMembers(s.rounds, (x: Round) => x.createdAt > t || x.updatedAt > t);
    FilterMembers(s.proposals, (x: Proposal) => x.createdAt > t || x.updatedAt > t);
    FilterMembers(s.votes, (x: Vote) => x.createdAt > t);
    FilterMembers(s.meetings, (x: Meeting) => x.createdAt > t || x.updatedAt > t);
    FilterMembers(s.availability, (x: Availability) => x.createdAt > t || x.updatedAt > t);
    FilterMembers(s.notifications, (x: Notification) => x.createdAt > t);
  }
}

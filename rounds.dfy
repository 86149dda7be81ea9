/** The round lifecycle (`routes/rounds.js`): creating a round, the PATCH
    handler with its SET-list builder, closing a round (final tally and
    winner), and the results listing with its `is_winner` flags. */
module Rounds {
  import opened Api
  import opened Text
  import opened Tables
  import opened Query
  import opened Scoring
  import opened SetClause

  /** `isIn(['ranked_choice', 'approval'])`. */
  function ParseMethod(s: string): (m: Option<VotingMethod>)
    ensures m == Some(RankedChoice) <==> s == "ranked_choice"
    ensures m == Some(Approval) <==> s == "approval"
  {
    if s == "ranked_choice" then Some(RankedChoice)
    else if s == "approval" then Some(Approval)
    else None
  }

  /** `isIn(['open', 'closed', 'archived'])`. */
  function ParseStatus(s: string): (st: Option<RoundStatus>)
    ensures st == Some(Open) <==> s == "open"
    ensures st == Some(Closed) <==> s == "closed"
    ensures st == Some(Archived) <==> s == "archived"
  {
    if s == "open" then Some(Open)
    else if s == "closed" then Some(Closed)
    else if s == "archived" then Some(Archived)
    else None
  }

  /** `trim().isLength({ min: 1, max: 255 })`. */
  predicate TitleOk(t: string) {
    1 <= |Trim(t)| <= 255
  }

  /** The fields of a create-round body; `deadline` is None when absent or
      null. A missing `title` is validated as the empty string. */
  datatype CreateRoundBody = CreateRoundBody(title: Option<string>, votingMethod: Option<string>, deadline: Option<string>)

  /** The failing fields of a create-round body, in validator order;
      `iso` is the ISO 8601 date parser. */
  function CreateRoundErrors(body: CreateRoundBody, iso: string -> Option<Timestamp>): (errs: seq<string>)
    ensures errs == [] <==>
      && TitleOk(OrEmpty(body.title))
      && body.votingMethod.Some? && ParseMethod(body.votingMethod.value).Some?
      && (body.deadline.Some? ==> iso(body.deadline.value).Some?)
  {
    (if TitleOk(OrEmpty(body.title)) then [] else ["title"])
    + (if body.votingMethod.Some? && ParseMethod(body.votingMethod.value).Some? then [] else ["voting_method"])
    + (if body.deadline.None? || iso(body.deadline.value).Some? then [] else ["deadline"])
  }

  /** `POST /api/rounds` (organizers only). */
  function CreateRoundStep(s: State, caller: Caller, body: CreateRoundBody, iso: string -> Option<Timestamp>, now: Timestamp): (r: Step<Round>)
    ensures r.result.Err? ==> r.after == s
    ensures r.result.Ok? <==> caller.role == Admin && CreateRoundErrors(body, iso) == []
    ensures r.result.Ok? ==>
      var row := r.result.value;
      && row.title == Trim(body.title.value) && 1 <= |row.title| <= 255
      && Some(row.votingMethod) == ParseMethod(body.votingMethod.value)
      && row.status == Open && row.winningProposalId.None?
      && row.createdBy == caller.id
      && r.after == s.(rounds := s.rounds + [row], nextId := s.nextId + 1)
  {
    if RequireAdmin(caller).Some? then Step(Err(AdminRequired), s)
    else
      var errs := CreateRoundErrors(body, iso);
      if errs != [] then Step(Err(Invalid(errs)), s)
      else
        var row := NewRound(s.nextId, caller, body, iso, now);
        Step(Ok(row), s.(rounds := s.rounds + [row], nextId := s.nextId + 1))
  }

  /** An organizer's valid body inserts the new round with the next id. */
  lemma CreateRoundAccepted(s: State, caller: Caller, body: CreateRoundBody, iso: string -> Option<Timestamp>, now: Timestamp)
    requires caller.role == Admin && CreateRoundErrors(body, iso) == []
    ensures CreateRoundStep(s, caller, body, iso, now)
         == Step(Ok(NewRound(s.nextId, caller, body, iso, now)),
                 s.(rounds := s.rounds + [NewRound(s.nextId, caller, body, iso, now)], nextId := s.nextId + 1))
  {
  }

  /** The row `INSERT INTO rounds ... RETURNING *` creates from a valid
      body: the title trimmed, the deadline null when absent, status open. */
  function NewRound(id: Id, caller: Caller, body: CreateRoundBody, iso: string -> Option<Timestamp>, now: Timestamp): Round
    requires CreateRoundErrors(body, iso) == []
  {
    var deadline := if body.deadline.Some? then iso(body.deadline.value) else None;
    Round(id, Trim(body.title.value), ParseMethod(body.votingMethod.value).value,
          Open, deadline, None, caller.id, now, now)
  }

  method CreateRound(db: Db, caller: Caller, body: CreateRoundBody, iso: string -> Option<Timestamp>, now: Timestamp)
    returns (r: Result<Round>)
    requires db.Valid()
    modifies db
    ensures db.Valid()
    ensures Step(r, db.Snapshot()) == CreateRoundStep(old(db.Snapshot()), caller, body, iso, now)
  {
    if caller.role != Admin {
      return Err(AdminRequired);
    }
    var errs := CreateRoundErrors(body, iso);
    if errs != [] {
      return Err(Invalid(errs));
    }
    ghost var s := db.Snapshot();
    var row := NewRound(db.nextId, caller, body, iso, now);
    CreateRoundAccepted(s, caller, body, iso, now);
    db.InsertRound(row);
    assert db.rounds == s.rounds + [row];
    assert db.nextId == s.nextId + 1;
    assert db.Snapshot() == s.(rounds := s.rounds + [row], nextId := s.nextId + 1);
    r := Ok(row);
    assert old(db.Snapshot()) == s;
    assert Step(r, db.Snapshot()) == CreateRoundStep(old(db.Snapshot()), caller, body, iso, now);
  }

  datatype RoundColumn = TitleColumn | DeadlineColumn | StatusColumn
  datatype RoundValue =
    | TitleValue(title: string)
    | DeadlineValue(deadline: Option<Timestamp>)
    | StatusValue(status: RoundStatus)

  /** The `if (x !== undefined) { updates.push(...); values.push(...) }`
      sequence of the PATCH handler, with its `idx` counter: each supplied
      field gets the next placeholder and is bound to its value; the
      title is trimmed once more. */
  method BuildRoundUpdate(title: Option<string>, deadline: Option<Option<Timestamp>>, status: Option<RoundStatus>)
    returns (updates: seq<Assignment<RoundColumn>>, values: seq<RoundValue>, idx: nat)
    ensures Numbered(updates) && |values| == |updates| && idx == |updates| + 1
    ensures updates == [] <==> title.None? && deadline.None? && status.None?
    ensures Assigned(updates, values, TitleColumn)
      == (if title.Some? then Some(TitleValue(Trim(title.value))) else None)
    ensures Assigned(updates, values, DeadlineColumn)
      == (if deadline.Some? then Some(DeadlineValue(deadline.value)) else None)
    ensures Assigned(updates, values, StatusColumn)
      == (if status.Some? then Some(StatusValue(status.value)) else None)
  {
    updates, values, idx := [], [], 1;
    if title.Some? {
      updates, values, idx := Push(updates, values, idx, TitleColumn, TitleValue(Trim(title.value)));
    }
    if deadline.Some? {
      updates, values, idx := Push(updates, values, idx, DeadlineColumn, DeadlineValue(deadline.value));
    }
    if status.Some? {
      updates, values, idx := Push(updates, values, idx, StatusColumn, StatusValue(status.value));
    }
  }

  /** The row an `UPDATE rounds SET <updates>` leaves: assigned columns
      take their bound values, every other column is kept. */
  function ApplyRoundUpdate(r: Round, updates: seq<Assignment<RoundColumn>>, values: seq<RoundValue>): Round {
    var t := Assigned(updates, values, TitleColumn);
    var d := Assigned(updates, values, DeadlineColumn);
    var st := Assigned(updates, values, StatusColumn);
    r.(title := if t.Some? && t.value.TitleValue? then t.value.title else r.title,
       deadline := if d.Some? && d.value.DeadlineValue? then d.value.deadline else r.deadline,
       status := if st.Some? && st.value.StatusValue? then st.value.status else r.status)
  }

  /** A SET list binding exactly the supplied fields of a valid body
      yields the patched row. */
  lemma UpdateIsPatched(r: Round, body: PatchRoundBody, iso: string -> Option<Timestamp>,
                        updates: seq<Assignment<RoundColumn>>, values: seq<RoundValue>)
    requires PatchRoundErrors(body, iso) == []
    requires Assigned(updates, values, TitleColumn)
      == (if body.title.Some? then Some(TitleValue(Trim(Trim(body.title.value)))) else None)
    requires Assigned(updates, values, DeadlineColumn)
      == (if body.deadline.None? then None
          else if body.deadline.value.None? then Some(DeadlineValue(None))
          else Some(DeadlineValue(iso(body.deadline.value.value))))
    requires Assigned(updates, values, StatusColumn)
      == (if body.status.Some? then Some(StatusValue(ParseStatus(body.status.value).value)) else None)
    ensures ApplyRoundUpdate(r, updates, values) == Patched(r, body, iso)
  {
  }

  /** A PATCH body: the outer None is an absent field, a `deadline` of
      `Some(None)` is an explicit null. */
  datatype PatchRoundBody = PatchRoundBody(title: Option<string>, deadline: Option<Option<string>>, status: Option<string>)

  function PatchRoundErrors(body: PatchRoundBody, iso: string -> Option<Timestamp>): (errs: seq<string>)
    ensures errs == [] <==>
      && (body.title.Some? ==> TitleOk(body.title.value))
      && (body.deadline.Some? && body.deadline.value.Some? ==> iso(body.deadline.value.value).Some?)
      && (body.status.Some? ==> ParseStatus(body.status.value).Some?)
  {
    (if body.title.None? || TitleOk(body.title.value) then [] else ["title"])
    + (if body.deadline.None? || body.deadline.value.None? || iso(body.deadline.value.value).Some? then [] else ["deadline"])
    + (if body.status.None? || ParseStatus(body.status.value).Some? then [] else ["status"])
  }

  /** The round a successful PATCH leaves: supplied fields replaced (the
      title trimmed by the validator and again by the handler), all other
      columns kept. */
  function Patched(r: Round, body: PatchRoundBody, iso: string -> Option<Timestamp>): Round
    requires PatchRoundErrors(body, iso) == []
  {
    r.(title := if body.title.Some? then Trim(Trim(body.title.value)) else r.title,
       deadline := if body.deadline.None? then r.deadline
                   else if body.deadline.value.None? then None
                   else iso(body.deadline.value.value),
       status := if body.status.Some? then ParseStatus(body.status.value).value else r.status)
  }

  /** `PATCH /api/rounds/:id` (organizers only): any listed status is
      accepted, whatever the round's current status. */
  function PatchRoundStep(s: State, caller: Caller, id: Id, body: PatchRoundBody, iso: string -> Option<Timestamp>): (r: Step<Round>)
    ensures r.result.Err? ==> r.after == s
    ensures r.result == Err(NoFieldsToUpdate) <==>
      caller.role == Admin && PatchRoundErrors(body, iso) == []
      && body.title.None? && body.deadline.None? && body.status.None?
    ensures r.result.Ok? <==>
      && caller.role == Admin && PatchRoundErrors(body, iso) == []
      && !(body.title.None? && body.deadline.None? && body.status.None?)
      && RoundIndex(s.rounds, id) >= 0
  {
    if RequireAdmin(caller).Some? then Step(Err(AdminRequired), s)
    else
      var errs := PatchRoundErrors(body, iso);
      if errs != [] then Step(Err(Invalid(errs)), s)
      else if body.title.None? && body.deadline.None? && body.status.None? then Step(Err(NoFieldsToUpdate), s)
      else
        var k := RoundIndex(s.rounds, id);
        if k < 0 then Step(Err(RoundNotFound), s)
        else
          var row := Patched(s.rounds[k], body, iso);
          Step(Ok(row), s.(rounds := s.rounds[k := row]))
  }

  /** A successful PATCH changes only the title, deadline and status of
      that one round: its winner, method, creator and id are kept and no
      other row of any table changes. */
  lemma PatchOnlyTouchesListedColumns(s: State, caller: Caller, id: Id, body: PatchRoundBody, iso: string -> Option<Timestamp>)
    requires PatchRoundStep(s, caller, id, body, iso).result.Ok?
    ensures var r := PatchRoundStep(s, caller, id, body, iso);
      var k := RoundIndex(s.rounds, id);
      && k >= 0
      && r.result.value.(title := s.rounds[k].title, deadline := s.rounds[k].deadline, status := s.rounds[k].status)
           == s.rounds[k]
      && r.after == s.(rounds := s.rounds[k := r.result.value])
      && (body.title.Some? ==> r.result.value.title == Trim(body.title.value))
  {
    var k := RoundIndex(s.rounds, id);
    PatchAccepted(s, caller, id, body, iso);
    if body.title.Some? {
      TrimIdempotent(body.title.value);
    }
  }

  /** A valid PATCH naming at least one field of an existing round
      replaces that round by its patched row. */
  lemma PatchAccepted(s: State, caller: Caller, id: Id, body: PatchRoundBody, iso: string -> Option<Timestamp>)
    requires caller.role == Admin && PatchRoundErrors(body, iso) == []
    requires !(body.title.None? && body.deadline.None? && body.status.None?)
    requires RoundIndex(s.rounds, id) >= 0
    ensures var k := RoundIndex(s.rounds, id);
      PatchRoundStep(s, caller, id, body, iso)
        == Step(Ok(Patched(s.rounds[k], body, iso)), s.(rounds := s.rounds[k := Patched(s.rounds[k], body, iso)]))
  {
  }

  /** As written, PATCH reopens a closed round: the status goes back to
      open and the recorded winner stays. */
  lemma PatchCanReopen(s: State, caller: Caller, id: Id, iso: string -> Option<Timestamp>)
    requires caller.role == Admin
    requires RoundIndex(s.rounds, id) >= 0 && s.rounds[RoundIndex(s.rounds, id)].status == Closed
    ensures var r := PatchRoundStep(s, caller, id, PatchRoundBody(None, None, Some("open")), iso);
      && r.result.Ok?
      && r.result.value.status == Open
      && r.result.value.winningProposalId == s.rounds[RoundIndex(s.rounds, id)].winningProposalId
  {
  }

  method PatchRound(db: Db, caller: Caller, id: Id, body: PatchRoundBody, iso: string -> Option<Timestamp>)
    returns (r: Result<Round>)
    requires db.Valid()
    modifies db
    ensures db.Valid()
    ensures Step(r, db.Snapshot()) == PatchRoundStep(old(db.Snapshot()), caller, id, body, iso)
  {
    if caller.role != Admin {
      return Err(AdminRequired);
    }
    var errs := PatchRoundErrors(body, iso);
    if errs != [] {
      return Err(Invalid(errs));
    }
    // the validator's sanitizer trims the title in place
    var title := if body.title.Some? then Some(Trim(body.title.value)) else None;
    var deadline := if body.deadline.None? then None
                    else if body.deadline.value.None? then Some(None)
                    else Some(iso(body.deadline.value.value));
    var status := if body.status.Some? then ParseStatus(body.status.value) else None;
    var updates, values, idx := BuildRoundUpdate(title, deadline, status);
    if |updates| == 0 {
      assert body.title.None? && body.deadline.None? && body.status.None?;
      return Err(NoFieldsToUpdate);
    }
    assert !(body.title.None? && body.deadline.None? && body.status.None?);
    // values.push(id); ... WHERE id = $idx
    ghost var s := db.Snapshot();
    var k := RoundIndex(db.rounds, id);
    if k < 0 {
      assert PatchRoundStep(s, caller, id, body, iso) == Step(Err(RoundNotFound), s);
      return Err(RoundNotFound);
    }
    var row := ApplyRoundUpdate(db.rounds[k], updates, values);
    UpdateIsPatched(db.rounds[k], body, iso, updates, values);
    PatchAccepted(s, caller, id, body, iso);
    db.UpdateRound(k, row);
    assert db.rounds == s.rounds[k := row];
    assert db.Snapshot() == s.(rounds := s.rounds[k := row]);
    r := Ok(row);
    assert old(db.Snapshot()) == s;
  }

  /** The tables after the two scoring passes and the closing UPDATE. */
  function AfterClose(s: State, k: nat, id: Id): State
    requires k < |s.rounds|
  {
    var t := s.(proposals := Rescore(s.rounds[k].votingMethod, s.votes, id, s.proposals));
    t.(rounds := t.rounds[k := t.rounds[k].(status := Closed,
                                            winningProposalId := DetermineWinner(t.rounds, t.proposals, t.votes, id))])
  }

  /** `POST /api/rounds/:id/close` (organizers only): read the round,
      recompute the scores, pick the winner, then close the round. */
  function CloseRoundStep(s: State, caller: Caller, id: Id): (r: Step<Round>)
    ensures r.result.Err? ==> r.after == s
    ensures r.result.Ok? <==>
      caller.role == Admin && RoundIndex(s.rounds, id) >= 0 && s.rounds[RoundIndex(s.rounds, id)].status == Open
  {
    if RequireAdmin(caller).Some? then Step(Err(AdminRequired), s)
    else
      var k := RoundIndex(s.rounds, id);
      if k < 0 then Step(Err(RoundNotFound), s)
      else if s.rounds[k].status != Open then Step(Err(RoundNotOpen), s)
      else
        var t := AfterClose(s, k, id);
        Step(Ok(t.rounds[k]), t)
  }

  /** The winner recorded by a close: none when the round has no
      proposals, else a proposal of the round whose recomputed score is
      the highest. */
  lemma ClosedWinner(s: State, k: nat, id: Id)
    requires k < |s.rounds| && RoundIndex(s.rounds, id) == k
    ensures var m := s.rounds[k].votingMethod;
      var w := AfterClose(s, k, id).rounds[k].winningProposalId;
      && (w.None? <==> forall i :: 0 <= i < |s.proposals| ==> s.proposals[i].roundId != id)
      && (w.Some? ==>
            exists j :: 0 <= j < |s.proposals| && s.proposals[j].roundId == id
              && s.proposals[j].id == w.value
              && forall i :: 0 <= i < |s.proposals| && s.proposals[i].roundId == id ==>
                   Score(m, s.votes, id, s.proposals[i].id) <= Score(m, s.votes, id, s.proposals[j].id))
  {
    var m := s.rounds[k].votingMethod;
    var ps := Rescore(m, s.votes, id, s.proposals);
    var w := AfterClose(s, k, id).rounds[k].winningProposalId;
    assert w == DetermineWinner(s.rounds, ps, s.votes, id);
    if exists i :: 0 <= i < |s.proposals| && s.proposals[i].roundId == id {
      WinnerAfterRecompute(m, s.votes, id, s.proposals);
      var p := Winner(m, ps, s.votes, id).value;
      var j :| 0 <= j < |ps| && ps[j] == p;
      assert s.proposals[j].id == p.id && s.proposals[j].roundId == id;
    } else {
      assert forall i :: 0 <= i < |ps| ==> ps[i].roundId != id;
    }
  }

  /** Closing an open round leaves it closed with the winner that
      `determineWinner` picks once the scores are recomputed (see
      `ClosedWinner`); the votes and every other round stay as they were. */
  lemma CloseRecordsWinner(s: State, caller: Caller, id: Id)
    requires CloseRoundStep(s, caller, id).result.Ok?
    ensures var r := CloseRoundStep(s, caller, id);
      var k := RoundIndex(s.rounds, id);
      var m := s.rounds[k].votingMethod;
      var row := r.result.value;
      && row == r.after.rounds[k]
      && row == s.rounds[k].(status := Closed,
                             winningProposalId := DetermineWinner(s.rounds, Rescore(m, s.votes, id, s.proposals), s.votes, id))
      && r.after.votes == s.votes
      && r.after.proposals == Rescore(m, s.votes, id, s.proposals)
      && (forall i :: 0 <= i < |s.rounds| && i != k ==> r.after.rounds[i] == s.rounds[i])
  {
    var k := RoundIndex(s.rounds, id);
    assert CloseRoundStep(s, caller, id) == Step(Ok(AfterClose(s, k, id).rounds[k]), AfterClose(s, k, id));
  }

  method CloseRound(db: Db, caller: Caller, id: Id) returns (r: Result<Round>)
    requires db.Valid()
    modifies db
    ensures db.Valid()
    ensures Step(r, db.Snapshot()) == CloseRoundStep(old(db.Snapshot()), caller, id)
  {
    if caller.role != Admin {
      return Err(AdminRequired);
    }
    var k := RoundIndex(db.rounds, id);
    if k < 0 {
      return Err(RoundNotFound);
    }
    if db.rounds[k].status != Open {
      return Err(RoundNotOpen);
    }
    var rescored := RecomputeScores(db, id);
    var winner := DetermineWinner(db.rounds, db.proposals, db.votes, id);
    var row := db.rounds[k].(status := Closed, winningProposalId := winner);
    db.UpdateRound(k, row);
    r := Ok(row);
  }

  /** One row of `GET /api/rounds/:id/results`. */
  datatype ResultRow = ResultRow(
    proposal: Proposal, proposedByName: string, voteCount: nat,
    firstPlaceVotes: nat, secondPlaceVotes: nat, thirdPlaceVotes: nat, isWinner: bool)

  /** A proposal of round `roundId` whose proposer exists (the inner
      join with `users`). */
  predicate Listed(s: State, roundId: Id, p: Proposal) {
    p.roundId == roundId && UserIndex(s.users, p.proposedBy) >= 0
  }

  /** A proposal's result row: its vote tallies and the `is_winner` flag. */
  function RowOf(s: State, round: Round, p: Proposal): (row: ResultRow)
    requires UserIndex(s.users, p.proposedBy) >= 0
    ensures row.proposal == p
    ensures row.isWinner <==> round.winningProposalId == Some(p.id)
    ensures row.voteCount == VoteCount(s.votes, round.id, p.id)
  {
    ResultRow(p, s.users[UserIndex(s.users, p.proposedBy)].displayName, VoteCount(s.votes, round.id, p.id),
              PlaceCount(s.votes, round.id, p.id, 1), PlaceCount(s.votes, round.id, p.id, 2),
              PlaceCount(s.votes, round.id, p.id, 3), round.winningProposalId == Some(p.id))
  }

  /** The proposals the results query joins: those of the round whose
      proposer exists, in table order. */
  function Candidates(s: State, roundId: Id): (cs: seq<Proposal>)
    ensures forall i :: 0 <= i < |cs| ==> cs[i] in s.proposals && Listed(s, roundId, cs[i])
  {
    Filter(s.proposals, (p: Proposal) => Listed(s, roundId, p))
  }

  /** The round's listed proposals in table order, one row each. */
  function Tally(s: State, round: Round): (rows: seq<ResultRow>)
  {
    var cands := Candidates(s, round.id);
    seq(|cands|, i requires 0 <= i < |cands| => RowOf(s, round, cands[i]))
  }

  /** Every proposal of the round whose proposer exists has a row. */
  lemma TallyComplete(s: State, round: Round, j: nat)
    requires j < |s.proposals| && Listed(s, round.id, s.proposals[j])
    ensures exists i :: 0 <= i < |Tally(s, round)| && Tally(s, round)[i].proposal == s.proposals[j]
  {
    var cands := Candidates(s, round.id);
    assert s.proposals[j] in cands;
    var i :| 0 <= i < |cands| && cands[i] == s.proposals[j];
    assert Tally(s, round)[i].proposal == cands[i];
  }

  /** Distinct proposal ids give rows with distinct proposal ids. */
  lemma TallyDistinct(s: State, round: Round)
    requires forall i, j :: 0 <= i < j < |s.proposals| ==> s.proposals[i].id != s.proposals[j].id
    ensures forall i, j :: 0 <= i < j < |Tally(s, round)| ==>
      Tally(s, round)[i].proposal.id != Tally(s, round)[j].proposal.id
  {
    var pred := (p: Proposal) => Listed(s, round.id, p);
    var key := (p: Proposal) => p.id;
    FilterKeepsKeysDistinct(s.proposals, pred, key);
    var cands := Filter(s.proposals, pred);
    assert cands == Candidates(s, round.id);
    var rows := Tally(s, round);
    forall i, j | 0 <= i < j < |rows| ensures rows[i].proposal.id != rows[j].proposal.id {
      assert rows[i].proposal == cands[i] && rows[j].proposal == cands[j];
      assert key(cands[i]) != key(cands[j]);
    }
  }

  /** `ORDER BY p.vote_score DESC, p.created_at ASC`. */
  function ResultKey(row: ResultRow): (int, int) {
    (-row.proposal.voteScore, row.proposal.createdAt)
  }

  /** `GET /api/rounds/:id/results`. */
  function Results(s: State, id: Id): Result<seq<ResultRow>> {
    var k := RoundIndex(s.rounds, id);
    if k < 0 then Err(RoundNotFound)
    else Ok(SortBy(Tally(s, s.rounds[k]), ResultKey))
  }

  function ProposalIdOf(row: ResultRow): int {
    row.proposal.id
  }

  /** One result row is flagged exactly when it is the round's winner. */
  lemma RowFlag(s: State, id: Id, i: nat)
    requires Results(s, id).Ok? && i < |Results(s, id).value|
    ensures Results(s, id).value[i].isWinner
        <==> s.rounds[RoundIndex(s.rounds, id)].winningProposalId == Some(Results(s, id).value[i].proposal.id)
  {
    var round := s.rounds[RoundIndex(s.rounds, id)];
    var tally := Tally(s, round);
    var rows := Results(s, id).value;
    assert rows == SortBy(tally, ResultKey);
    var t := PermutedFrom(rows, tally, i);
    assert tally[t] == RowOf(s, round, Candidates(s, round.id)[t]);
  }

  /** `is_winner` marks exactly the proposal whose id is the round's
      `winning_proposal_id`, so at most one row is flagged. */
  lemma ResultsFlagWinner(s: State, id: Id)
    requires ValidState(s)
    requires Results(s, id).Ok?
    ensures var rows := Results(s, id).value;
      var round := s.rounds[RoundIndex(s.rounds, id)];
      && (forall i :: 0 <= i < |rows| ==> (rows[i].isWinner <==> round.winningProposalId == Some(rows[i].proposal.id)))
      && (forall i, j :: 0 <= i < |rows| && 0 <= j < |rows| && rows[i].isWinner && rows[j].isWinner ==> i == j)
  {
    var round := s.rounds[RoundIndex(s.rounds, id)];
    var tally := Tally(s, round);
    var rows := Results(s, id).value;
    assert rows == SortBy(tally, ResultKey);
    forall i | 0 <= i < |rows|
      ensures rows[i].isWinner <==> round.winningProposalId == Some(rows[i].proposal.id)
    {
      RowFlag(s, id, i);
    }
    TallyDistinct(s, round);
    PermutationKeepsKeysDistinct(tally, rows, ProposalIdOf);
  }

  /** The rows are listed in descending score order. */
  lemma ResultsByScore(s: State, id: Id)
    requires Results(s, id).Ok?
    ensures var rows := Results(s, id).value;
      forall i, j :: 0 <= i < j < |rows| ==> rows[i].proposal.voteScore >= rows[j].proposal.voteScore
  {
    var round := s.rounds[RoundIndex(s.rounds, id)];
    var rows := Results(s, id).value;
    assert rows == SortBy(Tally(s, round), ResultKey);
    forall i, j | 0 <= i < j < |rows|
      ensures rows[i].proposal.voteScore >= rows[j].proposal.voteScore
    {
      assert KeyLeq(ResultKey(rows[i]), ResultKey(rows[j]));
    }
  }
}

/** Proposing a book for a round and withdrawing a proposal. */
module Proposals {
  import opened Api
  import opened Text
  import opened Tables
  import opened Query
  import opened Rounds

  /** A create-proposal body; None is an absent field. */
  datatype ProposalBody = ProposalBody(
    title: Option<string>, author: Option<string>, description: Option<string>, coverUrl: Option<string>)

  /** The failing fields of a create-proposal body, in validator order;
      `isUrl` is the URL check with a required protocol. An empty
      `cover_url` is skipped as falsy; a blank one is trimmed to "" and
      fails the URL check. */
  function CreateProposalErrors(body: ProposalBody, isUrl: string -> bool): (errs: seq<string>)
    ensures errs == [] <==>
      && TitleOk(OrEmpty(body.title))
      && (body.author.Some? ==> |Trim(body.author.value)| <= 255)
      && (body.coverUrl.Some? && body.coverUrl.value != "" ==> isUrl(Trim(body.coverUrl.value)))
  {
    (if TitleOk(OrEmpty(body.title)) then [] else ["title"])
    + (if body.author.None? || |Trim(body.author.value)| <= 255 then [] else ["author"])
    + (if body.coverUrl.None? || body.coverUrl.value == "" || isUrl(Trim(body.coverUrl.value)) then [] else ["cover_url"])
  }

  /** The row `INSERT INTO proposals ... RETURNING *` creates: the
      validators have trimmed the fields in place and the handler trims
      them again and nulls blank ones; by `NullIfBlankIdempotent` and
      `TrimIdempotent` one trim is what is stored. The score starts at 0. */
  function NewProposal(id: Id, roundId: Id, caller: Caller, body: ProposalBody, now: Timestamp): Proposal
    requires body.title.Some?
  {
    Proposal(id, roundId, caller.id, Trim(body.title.value), NullIfBlank(body.author),
             NullIfBlank(body.description), NullIfBlank(body.coverUrl), 0, now, now)
  }

  /** `POST /api/rounds/:id/proposals`: validate, then the round must
      exist and be open; any member may propose. */
  function CreateProposalStep(s: State, caller: Caller, roundId: Id, body: ProposalBody,
                              isUrl: string -> bool, now: Timestamp): (r: Step<Proposal>)
    ensures r.result.Err? ==> r.after == s
    ensures r.result.Ok? ==>
      && r.result.value.id == s.nextId && r.result.value.roundId == roundId
      && r.result.value.proposedBy == caller.id
      && r.after == s.(proposals := s.proposals + [r.result.value], nextId := s.nextId + 1)
    ensures r.result.Ok? <==>
      && CreateProposalErrors(body, isUrl) == []
      && RoundIndex(s.rounds, roundId) >= 0 && s.rounds[RoundIndex(s.rounds, roundId)].status == Open
    ensures r.result == Err(RoundNotFound) <==>
      CreateProposalErrors(body, isUrl) == [] && RoundIndex(s.rounds, roundId) < 0
    ensures r.result == Err(RoundNotOpenForProposals) <==>
      && CreateProposalErrors(body, isUrl) == []
      && RoundIndex(s.rounds, roundId) >= 0 && s.rounds[RoundIndex(s.rounds, roundId)].status != Open
  {
    var errs := CreateProposalErrors(body, isUrl);
    if errs != [] then Step(Err(Invalid(errs)), s)
    else
      var k := RoundIndex(s.rounds, roundId);
      if k < 0 then Step(Err(RoundNotFound), s)
      else if s.rounds[k].status != Open then Step(Err(RoundNotOpenForProposals), s)
      else
        var row := NewProposal(s.nextId, roundId, caller, body, now);
        Step(Ok(row), s.(proposals := s.proposals + [row], nextId := s.nextId + 1))
  }

  /** A body that passes validation, for an open round, appends exactly
      the new row under the next id. */
  lemma CreateProposalAccepted(s: State, caller: Caller, roundId: Id, body: ProposalBody, isUrl: string -> bool, now: Timestamp)
    requires CreateProposalErrors(body, isUrl) == []
    requires RoundIndex(s.rounds, roundId) >= 0 && s.rounds[RoundIndex(s.rounds, roundId)].status == Open
    ensures CreateProposalStep(s, caller, roundId, body, isUrl, now)
      == Step(Ok(NewProposal(s.nextId, roundId, caller, body, now)), s.(proposals := s.proposals + [NewProposal(s.nextId, roundId, caller, body, now)], nextId := s.nextId + 1))
  {
  }

  /** The created row keeps the validated limits: a title of 1 to 255
      characters, an author of at most 255, a cover URL only when it is a
      valid URL; and it is the one row found under its new id. */
  lemma CreatedProposal(s: State, caller: Caller, roundId: Id, body: ProposalBody, isUrl: string -> bool, now: Timestamp)
    requires ValidState(s)
    requires CreateProposalErrors(body, isUrl) == []
    ensures 1 <= |NewProposal(s.nextId, roundId, caller, body, now).title| <= 255
    ensures NewProposal(s.nextId, roundId, caller, body, now).author.Some? ==> |NewProposal(s.nextId, roundId, caller, body, now).author.value| <= 255
    ensures NewProposal(s.nextId, roundId, caller, body, now).coverUrl.Some? ==> isUrl(NewProposal(s.nextId, roundId, caller, body, now).coverUrl.value)
    ensures ProposalIndex(s.proposals + [NewProposal(s.nextId, roundId, caller, body, now)], s.nextId) == |s.proposals|
  {
    var row := NewProposal(s.nextId, roundId, caller, body, now);
    if row.coverUrl.Some? {
      assert row.coverUrl.value == Trim(body.coverUrl.value) != [];
      assert body.coverUrl.value != "";
      assert isUrl(Trim(body.coverUrl.value));
    }
    AppendedProposalFound(s.proposals, row);
  }

  method CreateProposal(db: Db, caller: Caller, roundId: Id, body: ProposalBody, isUrl: string -> bool, now: Timestamp)
    returns (r: Result<Proposal>)
    requires db.Valid()
    modifies db
    ensures db.Valid()
    ensures Step(r, db.Snapshot()) == CreateProposalStep(old(db.Snapshot()), caller, roundId, body, isUrl, now)
  {
    var errs := CreateProposalErrors(body, isUrl);
    if errs != [] {
      return Err(Invalid(errs));
    }
    var k := RoundIndex(db.rounds, roundId);
    if k < 0 {
      return Err(RoundNotFound);
    }
    if db.rounds[k].status != Open {
      return Err(RoundNotOpenForProposals);
    }
    var row := NewProposal(db.nextId, roundId, caller, body, now);
    CreateProposalAccepted(db.Snapshot(), caller, roundId, body, isUrl, now);
    db.InsertProposal(row);
    r := Ok(row);
  }

  /** `DELETE /api/proposals/:id`: the proposal (joined with its round)
      must exist, its round must be open, and the caller must be an
      organizer or the proposer, checked in that order. */
  function DeleteProposalStep(s: State, caller: Caller, id: Id): (r: Step<()>)
    ensures r.result.Err? ==> r.after == s
    ensures r.result == Err(ProposalNotFound) <==>
      ProposalIndex(s.proposals, id) < 0 || RoundIndex(s.rounds, s.proposals[ProposalIndex(s.proposals, id)].roundId) < 0
    ensures r.result == Err(NotProposalOwner) ==>
      caller.role != Admin && s.proposals[ProposalIndex(s.proposals, id)].proposedBy != caller.id
    ensures r.result.Ok? ==>
      var p := s.proposals[ProposalIndex(s.proposals, id)];
      && s.rounds[RoundIndex(s.rounds, p.roundId)].status == Open
      && (caller.role == Admin || p.proposedBy == caller.id)
      && r.after == s.(proposals := WithoutProposal(s.proposals, id))
  {
    var k := ProposalIndex(s.proposals, id);
    if k < 0 then Step(Err(ProposalNotFound), s)
    else
      var p := s.proposals[k];
      var rk := RoundIndex(s.rounds, p.roundId);
      if rk < 0 then Step(Err(ProposalNotFound), s)
      else if s.rounds[rk].status != Open then Step(Err(ProposalRoundNotOpen), s)
      else if caller.role != Admin && p.proposedBy != caller.id then Step(Err(NotProposalOwner), s)
      else Step(Ok(()), s.(proposals := WithoutProposal(s.proposals, id)))
  }

  /** The round-status check comes before the ownership check: in a round
      that is not open even the proposer or an organizer is refused, and
      a stranger is told the round is closed rather than forbidden. */
  lemma DeleteChecksRoundFirst(s: State, caller: Caller, id: Id)
    requires ProposalIndex(s.proposals, id) >= 0
    requires var p := s.proposals[ProposalIndex(s.proposals, id)];
      RoundIndex(s.rounds, p.roundId) >= 0 && s.rounds[RoundIndex(s.rounds, p.roundId)].status != Open
    ensures DeleteProposalStep(s, caller, id) == Step(Err(ProposalRoundNotOpen), s)
  {
  }

  /** A successful delete removes exactly that one proposal row. */
  lemma DeleteRemovesOneRow(s: State, caller: Caller, id: Id)
    requires ValidState(s)
    requires DeleteProposalStep(s, caller, id).result.Ok?
    ensures var after := DeleteProposalStep(s, caller, id).after;
      var k := ProposalIndex(s.proposals, id);
      && after.proposals == RemoveAt(s.proposals, k)
      && multiset(after.proposals) + multiset{s.proposals[k]} == multiset(s.proposals)
      && ProposalIndex(after.proposals, id) < 0
      && after == s.(proposals := after.proposals)
  {
    var k := ProposalIndex(s.proposals, id);
    WithoutProposalRemovesRow(s.proposals, id);
    var rest := RemoveAt(s.proposals, k);
    forall i | 0 <= i < |rest| ensures rest[i].id != id {
      if i < k {
        assert rest[i] == s.proposals[i];
      } else {
        assert rest[i] == s.proposals[i + 1];
      }
    }
  }

  /** An accepted withdrawal removes the proposal and changes nothing else. */
  lemma DeleteAccepted(s: State, caller: Caller, id: Id, k: nat, rk: nat)
    requires k == ProposalIndex(s.proposals, id)
    requires rk == RoundIndex(s.rounds, s.proposals[k].roundId) && s.rounds[rk].status == Open
    requires caller.role == Admin || s.proposals[k].proposedBy == caller.id
    ensures DeleteProposalStep(s, caller, id) == Step(Ok(()), s.(proposals := WithoutProposal(s.proposals, id)))
  {
  }

  /** Removing a row appended under a fresh id gives back the table. */
  lemma WithoutAppended(ps: seq<Proposal>, row: Proposal)
    requires forall i :: 0 <= i < |ps| ==> ps[i].id != row.id
    ensures WithoutProposal(ps + [row], row.id) == ps
  {
    FilterAppend(ps, [row], (p: Proposal) => p.id != row.id);
    FilterAll(ps, (p: Proposal) => p.id != row.id);
    assert Filter([row], (p: Proposal) => p.id != row.id) == [];
  }

  /** Withdrawing a proposal one has just made restores the proposals
      table (only the id counter has moved on). */
  lemma CreateThenDelete(s: State, caller: Caller, roundId: Id, body: ProposalBody, isUrl: string -> bool, now: Timestamp)
    requires ValidState(s)
    requires CreateProposalErrors(body, isUrl) == []
    requires RoundIndex(s.rounds, roundId) >= 0 && s.rounds[RoundIndex(s.rounds, roundId)].status == Open
    ensures DeleteProposalStep(CreateProposalStep(s, caller, roundId, body, isUrl, now).after, caller, s.nextId)
      == Step(Ok(()), s.(nextId := s.nextId + 1))
  {
    var row := NewProposal(s.nextId, roundId, caller, body, now);
    CreateProposalAccepted(s, caller, roundId, body, isUrl, now);
    CreatedProposal(s, caller, roundId, body, isUrl, now);
    var t := s.(proposals := s.proposals + [row], nextId := s.nextId + 1);
    assert t.proposals[|s.proposals|] == row;
    DeleteAccepted(t, caller, s.nextId, |s.proposals|, RoundIndex(s.rounds, roundId));
    WithoutAppended(s.proposals, row);
    assert t.(proposals := s.proposals) == s.(nextId := s.nextId + 1);
  }

  method DeleteProposal(db: Db, caller: Caller, id: Id) returns (r: Result<()>)
    requires db.Valid()
    modifies db
    ensures db.Valid()
    ensures Step(r, db.Snapshot()) == DeleteProposalStep(old(db.Snapshot()), caller, id)
  {
    var k := ProposalIndex(db.proposals, id);
    if k < 0 {
      return Err(ProposalNotFound);
    }
    var p := db.proposals[k];
    var rk := RoundIndex(db.rounds, p.roundId);
    if rk < 0 {
      return Err(ProposalNotFound);
    }
    if db.rounds[rk].status != Open {
      return Err(ProposalRoundNotOpen);
    }
    if caller.role != Admin && p.proposedBy != caller.id {
      return Err(NotProposalOwner);
    }
    db.DeleteProposal(id);
    r := Ok(());
  }
}

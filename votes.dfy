/** Ballot submission (`routes/votes.js`): the ordered validation of a
    member's ballot, the replacement of that member's votes in the round,
    the rescore that follows, and the member's own view of their votes. */
module Votes {
  import opened Api
  import opened Tables
  import opened Query
  import opened Scoring

  /** One element of the submitted `votes` array. A missing or falsy
      `proposal_id` is 0; a `rank` that is absent or not a number is None. */
  datatype BallotEntry = BallotEntry(proposalId: Id, rank: Option<int>)

  /** `[1, 2, 3].includes(v.rank)`. */
  predicate RankOk(rank: Option<int>) {
    rank.Some? && 1 <= rank.value <= 3
  }

  /** What the per-entry loop demands of an entry under method `m`. */
  predicate EntryOk(m: VotingMethod, e: BallotEntry) {
    e.proposalId != 0 && (m == RankedChoice ==> RankOk(e.rank))
  }

  function Ranks(entries: seq<BallotEntry>): (r: seq<int>)
    ensures |r| == |entries|
  {
    seq(|entries|, i requires 0 <= i < |entries| =>
      if entries[i].rank.Some? then entries[i].rank.value else 0)
  }

  /** The ids the ballot names, one per entry, in order. */
  function ProposalIds(entries: seq<BallotEntry>): (r: seq<Id>)
    ensures |r| == |entries|
    ensures forall i :: 0 <= i < |entries| ==> r[i] == entries[i].proposalId
  {
    seq(|entries|, i requires 0 <= i < |entries| => entries[i].proposalId)
  }

  predicate Names(ids: seq<Id>, roundId: Id, p: Proposal) {
    p.roundId == roundId && p.id in ids
  }

  /** The row count of `SELECT id FROM proposals WHERE id = ANY(ids) AND
      round_id = roundId`. */
  function MatchCount(ps: seq<Proposal>, roundId: Id, ids: seq<Id>): nat {
    Count(ps, (p: Proposal) => Names(ids, roundId, p))
  }

  ghost function MatchedIds(ps: seq<Proposal>, roundId: Id, ids: seq<Id>): set<Id> {
    set p | p in ps && Names(ids, roundId, p) :: p.id
  }

  /** The named ids of a table are those of its first row and of the rest. */
  lemma MatchedIdsCons(ps: seq<Proposal>, roundId: Id, ids: seq<Id>)
    requires ps != []
    ensures MatchedIds(ps, roundId, ids)
         == (if Names(ids, roundId, ps[0]) then {ps[0].id} else {}) + MatchedIds(ps[1..], roundId, ids)
  {
    assert ps == [ps[0]] + ps[1..];
  }

  /** Proposal ids are a primary key, so the query answers one row per
      distinct named id that is a proposal of the round. */
  lemma {:induction false} MatchCountIsSetSize(ps: seq<Proposal>, roundId: Id, ids: seq<Id>)
    requires forall i, j :: 0 <= i < j < |ps| ==> ps[i].id != ps[j].id
    ensures MatchCount(ps, roundId, ids) == |MatchedIds(ps, roundId, ids)|
  {
    if ps != [] {
      var t := ps[1..];
      assert forall i, j :: 0 <= i < j < |t| ==> t[i].id != t[j].id by {
        forall i, j | 0 <= i < j < |t| ensures t[i].id != t[j].id {
          assert t[i] == ps[i + 1] && t[j] == ps[j + 1];
        }
      }
      MatchCountIsSetSize(t, roundId, ids);
      MatchedIdsCons(ps, roundId, ids);
      forall q | q in t ensures q.id != ps[0].id {
        var j :| 0 <= j < |t| && t[j] == q;
        assert ps[j + 1] == q;
      }
    }
  }

  /** Some proposal of round `roundId` has id `id`. */
  ghost predicate InRoundId(ps: seq<Proposal>, roundId: Id, id: Id) {
    exists j :: 0 <= j < |ps| && ps[j].id == id && ps[j].roundId == roundId
  }

  /** The count check passes exactly when the named ids are pairwise
      distinct and every one of them is a proposal of the round: naming a
      proposal twice is rejected as well as naming a foreign one. */
  lemma ProposalCheckIff(ps: seq<Proposal>, roundId: Id, ids: seq<Id>)
    requires forall i, j :: 0 <= i < j < |ps| ==> ps[i].id != ps[j].id
    ensures MatchCount(ps, roundId, ids) == |ids|
        <==> Distinct(ids) && forall i :: 0 <= i < |ids| ==> InRoundId(ps, roundId, ids[i])
  {
    MatchCountIsSetSize(ps, roundId, ids);
    DistinctIffSetSize(ids);
    var matched := MatchedIds(ps, roundId, ids);
    var named := ElemSet(ids);
    SubsetSize(matched, named);
    if forall i :: 0 <= i < |ids| ==> InRoundId(ps, roundId, ids[i]) {
      assert named <= matched by {
        forall x | x in named ensures x in matched {
          var j :| 0 <= j < |ps| && ps[j].id == x && ps[j].roundId == roundId;
          assert ps[j] in ps && Names(ids, roundId, ps[j]);
        }
      }
      assert matched == named;
    }
    if MatchCount(ps, roundId, ids) == |ids| {
      assert |named| == |ids|;
      assert matched == named;
      forall i | 0 <= i < |ids| ensures InRoundId(ps, roundId, ids[i]) {
        assert ids[i] in matched;
        var q :| q in ps && Names(ids, roundId, q) && q.id == ids[i];
        var j :| 0 <= j < |ps| && ps[j] == q;
      }
    }
  }

  /** The validation pipeline of the handler, in the order it runs, once
      the round is known to exist and to be open: the ranked-choice size
      limit, the per-entry loop (proposal id first, then rank), the
      distinct-ranks test, and the count check on the named proposals. */
  function BallotVerdict(m: VotingMethod, ps: seq<Proposal>, roundId: Id, entries: seq<BallotEntry>): Option<Error> {
    if m == RankedChoice && |entries| > 3 then Some(RankedAtMostThree)
    else
      var k := FirstIndex(entries, (e: BallotEntry) => !EntryOk(m, e));
      if k >= 0 then Some(if entries[k].proposalId == 0 then ProposalIdRequired else RankOutOfRange)
      else if m == RankedChoice && |ElemSet(Ranks(entries))| != |Ranks(entries)| then Some(DuplicateRanks)
      else if |entries| > 0 && MatchCount(ps, roundId, ProposalIds(entries)) != |entries| then Some(ProposalNotInRound)
      else None
  }

  /** A ballot the round accepts: under ranked choice at most three entries
      with pairwise distinct ranks among 1, 2 and 3; under either method
      every entry names a proposal of the round, each at most once. */
  ghost predicate WellFormedBallot(m: VotingMethod, ps: seq<Proposal>, roundId: Id, entries: seq<BallotEntry>) {
    && (m == RankedChoice ==>
          && |entries| <= 3
          && (forall i :: 0 <= i < |entries| ==> RankOk(entries[i].rank))
          && Distinct(Ranks(entries)))
    && (forall i :: 0 <= i < |entries| ==> entries[i].proposalId != 0)
    && Distinct(ProposalIds(entries))
    && (forall i :: 0 <= i < |entries| ==> InRoundId(ps, roundId, entries[i].proposalId))
  }

  /** The pipeline accepts a ballot exactly when it is well formed. */
  lemma BallotAcceptedIff(m: VotingMethod, ps: seq<Proposal>, roundId: Id, entries: seq<BallotEntry>)
    requires forall i, j :: 0 <= i < j < |ps| ==> ps[i].id != ps[j].id
    ensures BallotVerdict(m, ps, roundId, entries).None? <==> WellFormedBallot(m, ps, roundId, entries)
  {
    var ids := ProposalIds(entries);
    ProposalCheckIff(ps, roundId, ids);
    DistinctIffSetSize(Ranks(entries));
    var k := FirstIndex(entries, (e: BallotEntry) => !EntryOk(m, e));
    if k >= 0 {
      assert !EntryOk(m, entries[k]);
    }
    if entries == [] {
      assert Distinct(ids) && Distinct(Ranks(entries));
    }
  }

  /** The handler's validation loops, run before any write. */
  method ValidateBallot(m: VotingMethod, ps: seq<Proposal>, roundId: Id, entries: seq<BallotEntry>)
    returns (err: Option<Error>)
    ensures err == BallotVerdict(m, ps, roundId, entries)
  {
    if m == RankedChoice && |entries| > 3 {
      return Some(RankedAtMostThree);
    }
    var i := 0;
    while i < |entries|
      invariant 0 <= i <= |entries|
      invariant forall j :: 0 <= j < i ==> EntryOk(m, entries[j])
    {
      var e := entries[i];
      if e.proposalId == 0 {
        return Some(ProposalIdRequired);
      }
      if m == RankedChoice && !RankOk(e.rank) {
        return Some(RankOutOfRange);
      }
      i := i + 1;
    }
    if m == RankedChoice {
      var ranks := Ranks(entries);
      if |ElemSet(ranks)| != |ranks| {
        return Some(DuplicateRanks);
      }
    }
    if |entries| > 0 {
      if MatchCount(ps, roundId, ProposalIds(entries)) != |entries| {
        return Some(ProposalNotInRound);
      }
    }
    return None;
  }

  /** The rank a ballot entry is stored with: approval votes always rank 1. */
  function StoredRank(m: VotingMethod, e: BallotEntry): int {
    if m == Approval then 1 else if e.rank.Some? then e.rank.value else 0
  }

  /** The rows the insert loop writes for the caller's ballot, drawing ids
      from `firstId` on. */
  function BallotRows(m: VotingMethod, roundId: Id, userId: Id, entries: seq<BallotEntry>, firstId: nat, now: Timestamp): (rows: seq<Vote>)
    ensures |rows| == |entries|
  {
    seq(|entries|, i requires 0 <= i < |entries| =>
      Vote(firstId + i, roundId, userId, entries[i].proposalId, StoredRank(m, entries[i]), now))
  }

  function Key(v: Vote): (Id, Id, Id) {
    (v.roundId, v.userId, v.proposalId)
  }

  /** `INSERT ... ON CONFLICT (round_id, user_id, proposal_id) DO UPDATE SET
      rank = EXCLUDED.rank`. */
  function Upsert(votes: seq<Vote>, row: Vote): (r: seq<Vote>)
    ensures VoteKeysUnique(votes) ==> VoteKeysUnique(r)
    ensures (forall i :: 0 <= i < |votes| ==> Key(votes[i]) != Key(row)) ==> r == votes + [row]
  {
    var k := FirstIndex(votes, (v: Vote) => Key(v) == Key(row));
    if k >= 0 then votes[k := votes[k].(rank := row.rank)] else votes + [row]
  }

  /** The insert loop: one upsert per row, in ballot order. */
  function InsertAll(votes: seq<Vote>, rows: seq<Vote>): seq<Vote> {
    if rows == [] then votes
    else Upsert(InsertAll(votes, rows[..|rows| - 1]), rows[|rows| - 1])
  }

  /** Rows whose keys are new and pairwise distinct are simply appended. */
  lemma {:induction false} InsertAllFresh(votes: seq<Vote>, rows: seq<Vote>)
    requires forall i, j :: 0 <= i < |votes| && 0 <= j < |rows| ==> Key(votes[i]) != Key(rows[j])
    requires forall i, j :: 0 <= i < j < |rows| ==> Key(rows[i]) != Key(rows[j])
    ensures InsertAll(votes, rows) == votes + rows
  {
    if rows != [] {
      var front := rows[..|rows| - 1];
      InsertAllFresh(votes, front);
      var acc := votes + front;
      forall i | 0 <= i < |acc| ensures Key(acc[i]) != Key(rows[|rows| - 1]) {
        if i >= |votes| {
          assert acc[i] == rows[i - |votes|];
        }
      }
      assert front + [rows[|rows| - 1]] == rows;
      assert acc + [rows[|rows| - 1]] == votes + rows;
    }
  }

  /** Every upsert keeps the composite key unique. */
  lemma {:induction false} InsertAllKeepsKeysUnique(votes: seq<Vote>, rows: seq<Vote>)
    requires VoteKeysUnique(votes)
    ensures VoteKeysUnique(InsertAll(votes, rows))
  {
    if rows != [] {
      InsertAllKeepsKeysUnique(votes, rows[..|rows| - 1]);
    }
  }

  predicate Mine(roundId: Id, userId: Id, v: Vote) {
    v.roundId == roundId && v.userId == userId
  }

  /** `DELETE FROM votes WHERE round_id = $1 AND user_id = $2`. */
  function DeleteMine(votes: seq<Vote>, roundId: Id, userId: Id): (r: seq<Vote>)
    ensures forall i :: 0 <= i < |r| ==> !Mine(roundId, userId, r[i])
    ensures VoteKeysUnique(votes) ==> VoteKeysUnique(r)
  {
    var r := Filter(votes, (v: Vote) => !Mine(roundId, userId, v));
    FilterKeepsKeysUnique(votes, (v: Vote) => !Mine(roundId, userId, v));
    r
  }

  lemma {:induction false} FilterKeepsKeysUnique(votes: seq<Vote>, p: Vote -> bool)
    ensures VoteKeysUnique(votes) ==> VoteKeysUnique(Filter(votes, p))
  {
    if votes != [] && VoteKeysUnique(votes) {
      var t := votes[1..];
      FilterKeepsKeysUnique(t, p);
      assert VoteKeysUnique(t) by {
        forall i, j | 0 <= i < j < |t| ensures Key(t[i]) != Key(t[j]) {
          assert t[i] == votes[i + 1] && t[j] == votes[j + 1];
        }
      }
      if p(votes[0]) {
        var ft := Filter(t, p);
        forall j | 0 <= j < |ft| ensures Key(votes[0]) != Key(ft[j]) {
          var k :| 0 <= k < |t| && t[k] == ft[j];
          assert votes[k + 1] == ft[j];
        }
      }
    }
  }

  /** `POST /api/rounds/:id/votes`, as a function of the tables: `votes`
      is None when the body's `votes` is not an array. */
  function SubmitVotesStep(s: State, caller: Caller, roundId: Id, votes: Option<seq<BallotEntry>>, now: Timestamp): (r: Step<()>)
    ensures r.result.Err? ==> r.after == s
    ensures r.result.Ok? ==>
      && votes.Some?
      && RoundIndex(s.rounds, roundId) >= 0
      && s.rounds[RoundIndex(s.rounds, roundId)].status == Open
      && BallotVerdict(s.rounds[RoundIndex(s.rounds, roundId)].votingMethod, s.proposals, roundId, votes.value).None?
  {
    if votes.None? then Step(Err(Invalid(["votes"])), s)
    else
      var k := RoundIndex(s.rounds, roundId);
      if k < 0 then Step(Err(RoundNotFound), s)
      else if s.rounds[k].status != Open then Step(Err(RoundNotOpenForVoting), s)
      else
        var m := s.rounds[k].votingMethod;
        match BallotVerdict(m, s.proposals, roundId, votes.value)
        case Some(e) => Step(Err(e), s)
        case None => Step(Ok(()), Accept(s, m, roundId, caller.id, votes.value, now))
  }

  /** The tables after the DELETE and the insert loop, before the rescore. */
  function Replace(s: State, m: VotingMethod, roundId: Id, userId: Id, entries: seq<BallotEntry>, now: Timestamp): State {
    var rows := BallotRows(m, roundId, userId, entries, s.nextId, now);
    s.(votes := InsertAll(DeleteMine(s.votes, roundId, userId), rows), nextId := s.nextId + |entries|)
  }

  /** The tables after an accepted ballot: the member's votes replaced,
      then the round rescored. */
  function Accept(s: State, m: VotingMethod, roundId: Id, userId: Id, entries: seq<BallotEntry>, now: Timestamp): State {
    var t := Replace(s, m, roundId, userId, entries, now);
    t.(proposals := Rescore(m, t.votes, roundId, t.proposals))
  }

  /** A missing round is not found and a round that is not open refuses
      the ballot; the tables stay as they were. */
  lemma SubmitNeedsOpenRound(s: State, caller: Caller, roundId: Id, votes: seq<BallotEntry>, now: Timestamp)
    ensures RoundIndex(s.rounds, roundId) < 0 ==>
      SubmitVotesStep(s, caller, roundId, Some(votes), now) == Step(Err(RoundNotFound), s)
    ensures RoundIndex(s.rounds, roundId) >= 0 && s.rounds[RoundIndex(s.rounds, roundId)].status != Open ==>
      SubmitVotesStep(s, caller, roundId, Some(votes), now) == Step(Err(RoundNotOpenForVoting), s)
  {
  }

  /** The ballot rows of a well-formed ballot carry pairwise distinct keys
      that no surviving row has, so the insert loop only appends. */
  lemma ReplaceAppends(s: State, m: VotingMethod, roundId: Id, userId: Id, entries: seq<BallotEntry>, now: Timestamp)
    requires WellFormedBallot(m, s.proposals, roundId, entries)
    ensures Replace(s, m, roundId, userId, entries, now).votes
      == DeleteMine(s.votes, roundId, userId) + BallotRows(m, roundId, userId, entries, s.nextId, now)
  {
    var rows := BallotRows(m, roundId, userId, entries, s.nextId, now);
    var ids := ProposalIds(entries);
    assert forall i, j :: 0 <= i < j < |rows| ==> Key(rows[i]) != Key(rows[j]) by {
      forall i, j | 0 <= i < j < |rows| ensures Key(rows[i]) != Key(rows[j]) {
        assert ids[i] != ids[j];
      }
    }
    InsertAllFresh(DeleteMine(s.votes, roundId, userId), rows);
  }

  /** Replacing a well-formed ballot: the caller's rows in the round are
      the ballot's rows and nobody else's rows change. */
  lemma ReplaceSplitsVotes(s: State, m: VotingMethod, roundId: Id, userId: Id, entries: seq<BallotEntry>, now: Timestamp)
    requires WellFormedBallot(m, s.proposals, roundId, entries)
    ensures var after := Replace(s, m, roundId, userId, entries, now);
      && Filter(after.votes, (v: Vote) => Mine(roundId, userId, v))
           == BallotRows(m, roundId, userId, entries, s.nextId, now)
      && Filter(after.votes, (v: Vote) => !Mine(roundId, userId, v))
           == Filter(s.votes, (v: Vote) => !Mine(roundId, userId, v))
  {
    var rows := BallotRows(m, roundId, userId, entries, s.nextId, now);
    var kept := DeleteMine(s.votes, roundId, userId);
    ReplaceAppends(s, m, roundId, userId, entries, now);
    var mine := (v: Vote) => Mine(roundId, userId, v);
    var others := (v: Vote) => !Mine(roundId, userId, v);
    FilterAppend(kept, rows, mine);
    FilterAppend(kept, rows, others);
    FilterNone(kept, mine);
    FilterAll(rows, mine);
    FilterNone(rows, others);
    FilterAll(kept, others);
    FilterTwice(s.votes, others);
  }

  /** After a successful submission the caller's votes in the round are
      exactly the ballot's rows (approval rows with rank 1); every other
      vote row is as it was, and the round's proposals carry the scores of
      the new votes table. */
  lemma SubmitReplacesBallot(s: State, caller: Caller, roundId: Id, votes: seq<BallotEntry>, now: Timestamp)
    requires ValidState(s)
    requires SubmitVotesStep(s, caller, roundId, Some(votes), now).result.Ok?
    ensures var m := s.rounds[RoundIndex(s.rounds, roundId)].votingMethod;
      var after := SubmitVotesStep(s, caller, roundId, Some(votes), now).after;
      && Filter(after.votes, (v: Vote) => Mine(roundId, caller.id, v))
           == BallotRows(m, roundId, caller.id, votes, s.nextId, now)
      && Filter(after.votes, (v: Vote) => !Mine(roundId, caller.id, v))
           == Filter(s.votes, (v: Vote) => !Mine(roundId, caller.id, v))
      && (forall i :: 0 <= i < |after.proposals| && after.proposals[i].roundId == roundId ==>
            after.proposals[i].voteScore == Score(m, after.votes, roundId, after.proposals[i].id))
  {
    var m := s.rounds[RoundIndex(s.rounds, roundId)].votingMethod;
    assert SubmitVotesStep(s, caller, roundId, Some(votes), now).after == Accept(s, m, roundId, caller.id, votes, now);
    BallotAcceptedIff(m, s.proposals, roundId, votes);
    ReplaceSplitsVotes(s, m, roundId, caller.id, votes, now);
  }

  lemma {:induction false} FilterTwice<T>(s: seq<T>, p: T -> bool)
    ensures Filter(Filter(s, p), p) == Filter(s, p)
  {
    if s != [] {
      FilterTwice(s[1..], p);
      FilterAppend(if p(s[0]) then [s[0]] else [], Filter(s[1..], p), p);
    }
  }

  /** The DELETE of the caller's votes in the round, then the insert loop;
      the SERIAL counter advances once per insert attempt. */
  method ReplaceBallot(db: Db, m: VotingMethod, roundId: Id, userId: Id, entries: seq<BallotEntry>, now: Timestamp)
    requires db.Valid()
    modifies db
    ensures db.Valid()
    ensures db.Snapshot() == Replace(old(db.Snapshot()), m, roundId, userId, entries, now)
  {
    db.votes := DeleteMine(db.votes, roundId, userId);
    ghost var kept := db.votes;
    ghost var rows := BallotRows(m, roundId, userId, entries, db.nextId, now);
    var i := 0;
    while i < |entries|
      invariant 0 <= i <= |entries|
      invariant db.nextId == old(db.nextId) + i
      invariant db.votes == InsertAll(kept, rows[..i])
      invariant db.Snapshot() == old(db.Snapshot()).(votes := db.votes, nextId := db.nextId)
      invariant db.Valid()
    {
      var row := Vote(db.nextId, roundId, userId, entries[i].proposalId, StoredRank(m, entries[i]), now);
      assert rows[..i + 1] == rows[..i] + [row];
      db.votes := Upsert(db.votes, row);
      db.nextId := db.nextId + 1;
      i := i + 1;
    }
    assert rows[..i] == rows;
  }

  /** The handler, step by step: guards, validation, the replacement of
      the caller's ballot, then the rescore. */
  method SubmitVotes(db: Db, caller: Caller, roundId: Id, votes: Option<seq<BallotEntry>>, now: Timestamp)
    returns (r: Result<()>)
    requires db.Valid()
    modifies db
    ensures db.Valid()
    ensures Step(r, db.Snapshot()) == SubmitVotesStep(old(db.Snapshot()), caller, roundId, votes, now)
  {
    if votes.None? {
      return Err(Invalid(["votes"]));
    }
    var entries := votes.value;
    var k := RoundIndex(db.rounds, roundId);
    if k < 0 {
      return Err(RoundNotFound);
    }
    if db.rounds[k].status != Open {
      return Err(RoundNotOpenForVoting);
    }
    var m := db.rounds[k].votingMethod;
    var err := ValidateBallot(m, db.proposals, roundId, entries);
    if err.Some? {
      return Err(err.value);
    }
    ReplaceBallot(db, m, roundId, caller.id, entries, now);
    var rescored := RecomputeScores(db, roundId);
    r := Ok(());
  }

  /** A row of `GET /api/rounds/:id/votes/mine`: the vote joined with the
      title of the proposal it is for. */
  datatype MyVote = MyVote(vote: Vote, proposalTitle: string)

  /** The caller's votes in the round joined with their proposals (a vote
      whose proposal no longer exists has no row), in table order. */
  function Joined(votes: seq<Vote>, ps: seq<Proposal>, roundId: Id, userId: Id): (r: seq<MyVote>)
    ensures |r| <= |votes|
    ensures forall i :: 0 <= i < |r| ==> r[i].vote in votes && Mine(roundId, userId, r[i].vote)
  {
    if votes == [] then []
    else
      var v := votes[0];
      var k := ProposalIndex(ps, v.proposalId);
      (if Mine(roundId, userId, v) && k >= 0 then [MyVote(v, ps[k].title)] else [])
        + Joined(votes[1..], ps, roundId, userId)
  }

  lemma {:induction false} JoinedAppend(a: seq<Vote>, b: seq<Vote>, ps: seq<Proposal>, roundId: Id, userId: Id)
    ensures Joined(a + b, ps, roundId, userId) == Joined(a, ps, roundId, userId) + Joined(b, ps, roundId, userId)
  {
    if a == [] {
      assert a + b == b;
    } else {
      assert (a + b)[1..] == a[1..] + b;
      JoinedAppend(a[1..], b, ps, roundId, userId);
    }
  }

  function RankKey(mv: MyVote): (int, int) {
    (mv.vote.rank, 0)
  }

  /** `GET mine`: the joined rows ordered by rank, ascending. */
  function MyVotes(s: State, caller: Caller, roundId: Id): seq<MyVote> {
    SortBy(Joined(s.votes, s.proposals, roundId, caller.id), RankKey)
  }

  /** Every row the caller's view shows is one of their votes in the
      round, and the view is ordered by rank. */
  lemma MyVotesAreMine(s: State, caller: Caller, roundId: Id)
    ensures var mine := MyVotes(s, caller, roundId);
      && (forall i :: 0 <= i < |mine| ==> mine[i].vote in s.votes && Mine(roundId, caller.id, mine[i].vote))
      && (forall i, j :: 0 <= i < j < |mine| ==> mine[i].vote.rank <= mine[j].vote.rank)
  {
    var joined := Joined(s.votes, s.proposals, roundId, caller.id);
    var mine := MyVotes(s, caller, roundId);
    forall i | 0 <= i < |mine| ensures mine[i].vote in s.votes && Mine(roundId, caller.id, mine[i].vote) {
      assert mine[i] in multiset(joined);
    }
    forall i, j | 0 <= i < j < |mine| ensures mine[i].vote.rank <= mine[j].vote.rank {
      assert KeyLeq(RankKey(mine[i]), RankKey(mine[j]));
    }
  }

  /** Every vote of the caller in the round whose proposal still exists
      has a row in the join, carrying that proposal's title. */
  lemma {:induction false} JoinedComplete(votes: seq<Vote>, ps: seq<Proposal>, roundId: Id, userId: Id, v: Vote)
    requires v in votes && Mine(roundId, userId, v) && ProposalIndex(ps, v.proposalId) >= 0
    ensures MyVote(v, ps[ProposalIndex(ps, v.proposalId)].title) in Joined(votes, ps, roundId, userId)
  {
    if votes[0] != v {
      JoinedComplete(votes[1..], ps, roundId, userId, v);
    }
  }

  /** In any state the caller's view holds exactly the joined rows, each as
      often as the join has it, so every vote of theirs in the round whose
      proposal exists is listed with its title. */
  lemma MyVotesListsAll(s: State, caller: Caller, roundId: Id, v: Vote)
    requires v in s.votes && Mine(roundId, caller.id, v) && ProposalIndex(s.proposals, v.proposalId) >= 0
    ensures multiset(MyVotes(s, caller, roundId)) == multiset(Joined(s.votes, s.proposals, roundId, caller.id))
    ensures MyVote(v, s.proposals[ProposalIndex(s.proposals, v.proposalId)].title) in MyVotes(s, caller, roundId)
  {
    var joined := Joined(s.votes, s.proposals, roundId, caller.id);
    JoinedComplete(s.votes, s.proposals, roundId, caller.id, v);
    assert MyVote(v, s.proposals[ProposalIndex(s.proposals, v.proposalId)].title) in multiset(joined);
  }

  /** Reading back after a successful submission shows exactly the ballot:
      one row per entry, each joined with its proposal. */
  lemma SubmitThenMine(s: State, caller: Caller, roundId: Id, votes: seq<BallotEntry>, now: Timestamp)
    requires ValidState(s)
    requires SubmitVotesStep(s, caller, roundId, Some(votes), now).result.Ok?
    ensures var m := s.rounds[RoundIndex(s.rounds, roundId)].votingMethod;
      var after := SubmitVotesStep(s, caller, roundId, Some(votes), now).after;
      var rows := BallotRows(m, roundId, caller.id, votes, s.nextId, now);
      var shown := Joined(rows, after.proposals, roundId, caller.id);
      && |shown| == |votes|
      && (forall i :: 0 <= i < |votes| ==> shown[i].vote == rows[i])
      && multiset(MyVotes(after, caller, roundId)) == multiset(shown)
  {
    var m := s.rounds[RoundIndex(s.rounds, roundId)].votingMethod;
    var after := Accept(s, m, roundId, caller.id, votes, now);
    assert SubmitVotesStep(s, caller, roundId, Some(votes), now).after == after;
    var rows := BallotRows(m, roundId, caller.id, votes, s.nextId, now);
    var kept := DeleteMine(s.votes, roundId, caller.id);
    BallotAcceptedIff(m, s.proposals, roundId, votes);
    ReplaceAppends(s, m, roundId, caller.id, votes, now);
    assert after.votes == kept + rows;
    JoinedAppend(kept, rows, after.proposals, roundId, caller.id);
    JoinedNone(kept, after.proposals, roundId, caller.id);
    var ids := ProposalIds(votes);
    forall i | 0 <= i < |rows| ensures ProposalIndex(after.proposals, rows[i].proposalId) >= 0 {
      assert InRoundId(s.proposals, roundId, ids[i]);
      var j :| 0 <= j < |s.proposals| && s.proposals[j].id == ids[i] && s.proposals[j].roundId == roundId;
      assert after.proposals[j].id == ids[i];
    }
    JoinedAll(rows, after.proposals, roundId, caller.id);
  }

  lemma {:induction false} JoinedNone(votes: seq<Vote>, ps: seq<Proposal>, roundId: Id, userId: Id)
    requires forall i :: 0 <= i < |votes| ==> !Mine(roundId, userId, votes[i])
    ensures Joined(votes, ps, roundId, userId) == []
  {
    if votes != [] {
      JoinedNone(votes[1..], ps, roundId, userId);
    }
  }

  lemma {:induction false} JoinedAll(votes: seq<Vote>, ps: seq<Proposal>, roundId: Id, userId: Id)
    requires forall i :: 0 <= i < |votes| ==> Mine(roundId, userId, votes[i])
    requires forall i :: 0 <= i < |votes| ==> ProposalIndex(ps, votes[i].proposalId) >= 0
    ensures |Joined(votes, ps, roundId, userId)| == |votes|
    ensures forall i :: 0 <= i < |votes| ==> Joined(votes, ps, roundId, userId)[i].vote == votes[i]
  {
    if votes != [] {
      JoinedAll(votes[1..], ps, roundId, userId);
    }
  }
}

/** The scoring engine (`lib/scoring.js`): recomputing the stored
    `vote_score` of every proposal in a round from the current votes, and
    choosing a round's winner from the stored scores. */
module Scoring {
  import opened Api
  import opened Tables

  /** Points one ranked-choice vote of rank `rank` is worth. */
  function Weight(rank: int): (w: nat)
    ensures w <= 3
    ensures w > 0 <==> 1 <= rank <= 3
    ensures 1 <= rank <= 3 ==> w == 4 - rank
  {
    if rank == 1 then 3 else if rank == 2 then 2 else if rank == 3 then 1 else 0
  }

  /** `v` is a vote cast in round `roundId` for proposal `pid`. */
  predicate For(v: Vote, roundId: Id, pid: Id) {
    v.roundId == roundId && v.proposalId == pid
  }

  predicate HasVote(votes: seq<Vote>, roundId: Id, pid: Id) {
    exists i :: 0 <= i < |votes| && For(votes[i], roundId, pid)
  }

  /** `SUM(CASE rank ...)` over the votes of round `roundId` for `pid`. */
  function RankedScore(votes: seq<Vote>, roundId: Id, pid: Id): nat {
    if votes == [] then 0
    else (if For(votes[0], roundId, pid) then Weight(votes[0].rank) else 0)
         + RankedScore(votes[1..], roundId, pid)
  }

  /** `COUNT(*)` of the votes of round `roundId` for `pid`. */
  function VoteCount(votes: seq<Vote>, roundId: Id, pid: Id): nat {
    if votes == [] then 0
    else (if For(votes[0], roundId, pid) then 1 else 0) + VoteCount(votes[1..], roundId, pid)
  }

  /** `COUNT(CASE WHEN v.rank = rank THEN 1 END)`: the votes for `pid` in
      round `roundId` that rank it at `rank`. */
  function PlaceCount(votes: seq<Vote>, roundId: Id, pid: Id, rank: int): nat {
    if votes == [] then 0
    else (if For(votes[0], roundId, pid) && votes[0].rank == rank then 1 else 0)
         + PlaceCount(votes[1..], roundId, pid, rank)
  }

  /** The score the round's voting method gives proposal `pid`. */
  function Score(m: VotingMethod, votes: seq<Vote>, roundId: Id, pid: Id): nat {
    match m
    case RankedChoice => RankedScore(votes, roundId, pid)
    case Approval => VoteCount(votes, roundId, pid)
  }

  /** A proposal nobody voted for scores 0 under either method. */
  lemma {:induction false} ScoreWithoutVotes(m: VotingMethod, votes: seq<Vote>, roundId: Id, pid: Id)
    requires !HasVote(votes, roundId, pid)
    ensures Score(m, votes, roundId, pid) == 0
    ensures PlaceCount(votes, roundId, pid, 1) == 0 && PlaceCount(votes, roundId, pid, 2) == 0
  {
    if votes != [] {
      assert !HasVote(votes[1..], roundId, pid) by {
        forall i | 0 <= i < |votes[1..]| ensures !For(votes[1..][i], roundId, pid) {
          assert votes[1..][i] == votes[i + 1];
        }
      }
      ScoreWithoutVotes(m, votes[1..], roundId, pid);
      assert !For(votes[0], roundId, pid);
    }
  }

  /** Under approval a proposal's score is zero exactly when nobody voted for it. */
  lemma {:induction false} ApprovalScoreZeroIff(votes: seq<Vote>, roundId: Id, pid: Id)
    ensures VoteCount(votes, roundId, pid) == 0 <==> !HasVote(votes, roundId, pid)
  {
    if votes != [] {
      ApprovalScoreZeroIff(votes[1..], roundId, pid);
      if !For(votes[0], roundId, pid) {
        if HasVote(votes, roundId, pid) {
          var i :| 0 <= i < |votes| && For(votes[i], roundId, pid);
          assert For(votes[1..][i - 1], roundId, pid);
        }
      } else {
        assert For(votes[0], roundId, pid);
      }
    }
  }

  /** The ranked score is 3 points per first place, 2 per second place and
      1 per third place; votes of any other rank add nothing. */
  lemma {:induction false} RankedScoreByPlaces(votes: seq<Vote>, roundId: Id, pid: Id)
    ensures RankedScore(votes, roundId, pid)
      == 3 * PlaceCount(votes, roundId, pid, 1) + 2 * PlaceCount(votes, roundId, pid, 2)
         + PlaceCount(votes, roundId, pid, 3)
  {
    if votes != [] {
      RankedScoreByPlaces(votes[1..], roundId, pid);
    }
  }

  /** No proposal scores more than 3 points per vote it received. */
  lemma {:induction false} RankedScoreBound(votes: seq<Vote>, roundId: Id, pid: Id)
    ensures RankedScore(votes, roundId, pid) <= 3 * VoteCount(votes, roundId, pid)
  {
    if votes != [] {
      RankedScoreBound(votes[1..], roundId, pid);
    }
  }

  /** Scores add up over any split of the votes table, so each vote row
      contributes on its own. */
  lemma {:induction false} ScoreAppend(m: VotingMethod, a: seq<Vote>, b: seq<Vote>, roundId: Id, pid: Id)
    ensures Score(m, a + b, roundId, pid) == Score(m, a, roundId, pid) + Score(m, b, roundId, pid)
    ensures PlaceCount(a + b, roundId, pid, 1) == PlaceCount(a, roundId, pid, 1) + PlaceCount(b, roundId, pid, 1)
    ensures PlaceCount(a + b, roundId, pid, 2) == PlaceCount(a, roundId, pid, 2) + PlaceCount(b, roundId, pid, 2)
  {
    if a == [] {
      assert a + b == b;
    } else {
      assert (a + b)[1..] == a[1..] + b;
      ScoreAppend(m, a[1..], b, roundId, pid);
    }
  }

  /** The proposals table after both `UPDATE` passes of `recomputeScores`:
      every proposal of round `roundId` carries its current score; rows of
      other rounds are as they were. */
  function Rescore(m: VotingMethod, votes: seq<Vote>, roundId: Id, ps: seq<Proposal>): (r: seq<Proposal>)
    ensures |r| == |ps|
    ensures forall i :: 0 <= i < |ps| ==> r[i].id == ps[i].id && r[i].roundId == ps[i].roundId
  {
    seq(|ps|, i requires 0 <= i < |ps| =>
      if ps[i].roundId == roundId then ps[i].(voteScore := Score(m, votes, roundId, ps[i].id)) else ps[i])
  }

  /** Recomputing depends only on the votes: two tables that differ only in
      their stored scores are rescored alike. */
  lemma RescoreForgetsOldScores(m: VotingMethod, votes: seq<Vote>, roundId: Id, ps: seq<Proposal>, qs: seq<Proposal>)
    requires |ps| == |qs|
    requires forall i :: 0 <= i < |ps| ==> ps[i].(voteScore := 0) == qs[i].(voteScore := 0)
    requires forall i :: 0 <= i < |ps| && ps[i].roundId != roundId ==> ps[i] == qs[i]
    ensures Rescore(m, votes, roundId, ps) == Rescore(m, votes, roundId, qs)
  {
    forall i | 0 <= i < |ps| && ps[i].roundId == roundId
      ensures ps[i].(voteScore := Score(m, votes, roundId, ps[i].id))
           == qs[i].(voteScore := Score(m, votes, roundId, qs[i].id))
    {
      assert ps[i].(voteScore := 0).id == qs[i].(voteScore := 0).id;
    }
  }

  /** Running the recomputation twice with no vote change in between
      leaves the same scores as running it once. */
  lemma RescoreIdempotent(m: VotingMethod, votes: seq<Vote>, roundId: Id, ps: seq<Proposal>)
    ensures Rescore(m, votes, roundId, Rescore(m, votes, roundId, ps)) == Rescore(m, votes, roundId, ps)
  {
    RescoreForgetsOldScores(m, votes, roundId, Rescore(m, votes, roundId, ps), ps);
  }

  /** `recomputeScores(roundId)`: a missing round throws (the callers answer
      500); otherwise the first `UPDATE` sets the score of every proposal of
      the round that has votes and the second zeroes the round's proposals
      without votes. Nothing but the proposals table changes. */
  method RecomputeScores(db: Db, roundId: Id) returns (r: Result<()>)
    requires db.Valid()
    modifies db
    ensures db.Valid()
    ensures RoundIndex(old(db.rounds), roundId) < 0 ==> r == Err(ServerError) && db.Snapshot() == old(db.Snapshot())
    ensures RoundIndex(old(db.rounds), roundId) >= 0 ==>
      var m := old(db.rounds)[RoundIndex(old(db.rounds), roundId)].votingMethod;
      && r == Ok(())
      && db.Snapshot() == old(db.Snapshot()).(proposals := Rescore(m, old(db.votes), roundId, old(db.proposals)))
  {
    var k := RoundIndex(db.rounds, roundId);
    if k < 0 {
      return Err(ServerError);
    }
    ghost var s := db.Snapshot();
    var m := db.rounds[k].votingMethod;
    var votes := db.votes;
    var ps := db.proposals;
    ghost var target := Rescore(m, votes, roundId, ps);

    // UPDATE proposals SET vote_score = sub.score ... for the proposals with votes
    var i := 0;
    while i < |ps|
      invariant 0 <= i <= |ps| == |s.proposals|
      invariant forall j :: 0 <= j < |ps| ==>
                  ps[j] == if j < i && HasVote(votes, roundId, s.proposals[j].id) then target[j] else s.proposals[j]
    {
      var p := ps[i];
      if p.roundId == roundId && HasVote(votes, roundId, p.id) {
        ps := ps[i := p.(voteScore := Score(m, votes, roundId, p.id))];
      }
      i := i + 1;
    }
    db.proposals := ps;
    assert db.Snapshot() == s.(proposals := ps);
    label FirstUpdate:

    // UPDATE proposals SET vote_score = 0 WHERE round_id = $1 AND id NOT IN (...)
    i := 0;
    while i < |ps|
      invariant 0 <= i <= |ps| == |s.proposals|
      invariant unchanged@FirstUpdate(db)
      invariant forall j :: 0 <= j < |ps| ==>
                  ps[j] == if j < i || HasVote(votes, roundId, s.proposals[j].id) then target[j] else s.proposals[j]
    {
      var p := ps[i];
      if p.roundId == roundId && !HasVote(votes, roundId, p.id) {
        ScoreWithoutVotes(m, votes, roundId, p.id);
        ps := ps[i := p.(voteScore := 0)];
      }
      i := i + 1;
    }
    assert ps == target;
    db.proposals := ps;
    assert db.Snapshot() == s.(proposals := target);
    r := Ok(());
  }

  /** What the winner query orders by, best first: score, then (ranked
      choice only) first-place and second-place votes, then earliest
      creation. */
  datatype Standing = Standing(score: int, firstPlaces: nat, secondPlaces: nat, createdAt: Timestamp)

  function StandingOf(m: VotingMethod, votes: seq<Vote>, roundId: Id, p: Proposal): Standing {
    match m
    case RankedChoice =>
      Standing(p.voteScore, PlaceCount(votes, roundId, p.id, 1), PlaceCount(votes, roundId, p.id, 2), p.createdAt)
    case Approval => Standing(p.voteScore, 0, 0, p.createdAt)
  }

  /** `a` comes strictly before `b` in the winner query's `ORDER BY`. */
  predicate Outranks(a: Standing, b: Standing) {
    || a.score > b.score
    || (a.score == b.score && a.firstPlaces > b.firstPlaces)
    || (a.score == b.score && a.firstPlaces == b.firstPlaces && a.secondPlaces > b.secondPlaces)
    || (a.score == b.score && a.firstPlaces == b.firstPlaces && a.secondPlaces == b.secondPlaces
        && a.createdAt < b.createdAt)
  }

  /** The first row of the winner query: no candidate outranks it, and it
      outranks every candidate before it (of rows that tie on every
      column, the earliest in the table). */
  function BestIndex(m: VotingMethod, votes: seq<Vote>, roundId: Id, cands: seq<Proposal>): (k: nat)
    requires |cands| > 0
    ensures k < |cands|
    ensures forall j :: 0 <= j < |cands| ==>
      !Outranks(StandingOf(m, votes, roundId, cands[j]), StandingOf(m, votes, roundId, cands[k]))
    ensures forall j :: 0 <= j < k ==>
      Outranks(StandingOf(m, votes, roundId, cands[k]), StandingOf(m, votes, roundId, cands[j]))
  {
    if |cands| == 1 then 0
    else
      var k := BestIndex(m, votes, roundId, cands[..|cands| - 1]);
      var last := |cands| - 1;
      assert forall j :: 0 <= j < last ==> cands[..last][j] == cands[j];
      if Outranks(StandingOf(m, votes, roundId, cands[last]), StandingOf(m, votes, roundId, cands[k])) then last
      else k
  }

  /** The proposals of round `roundId`, in table order. */
  function InRound(ps: seq<Proposal>, roundId: Id): (r: seq<Proposal>)
    ensures forall i :: 0 <= i < |r| ==> r[i] in ps && r[i].roundId == roundId
    ensures forall i :: 0 <= i < |ps| && ps[i].roundId == roundId ==> ps[i] in r
    ensures r == [] <==> forall i :: 0 <= i < |ps| ==> ps[i].roundId != roundId
  {
    if ps == [] then []
    else (if ps[0].roundId == roundId then [ps[0]] else []) + InRound(ps[1..], roundId)
  }

  /** The winning proposal among the round's proposals, by stored scores. */
  function Winner(m: VotingMethod, ps: seq<Proposal>, votes: seq<Vote>, roundId: Id): (w: Option<Proposal>)
    ensures w.None? <==> forall i :: 0 <= i < |ps| ==> ps[i].roundId != roundId
    ensures w.Some? ==> w.value in ps && w.value.roundId == roundId
    ensures w.Some? ==> forall i :: 0 <= i < |ps| && ps[i].roundId == roundId ==>
      !Outranks(StandingOf(m, votes, roundId, ps[i]), StandingOf(m, votes, roundId, w.value))
  {
    var cands := InRound(ps, roundId);
    if cands == [] then None
    else
      var k := BestIndex(m, votes, roundId, cands);
      assert forall i :: 0 <= i < |ps| && ps[i].roundId == roundId ==> exists j :: 0 <= j < |cands| && cands[j] == ps[i];
      Some(cands[k])
  }

  /** `determineWinner(roundId)`: null for a missing round or a round with
      no proposals; otherwise the id of a proposal of that round that no
      other proposal of the round outranks. */
  function DetermineWinner(rounds: seq<Round>, ps: seq<Proposal>, votes: seq<Vote>, roundId: Id): (w: Option<Id>)
    ensures w.None? <==>
      RoundIndex(rounds, roundId) < 0 || forall i :: 0 <= i < |ps| ==> ps[i].roundId != roundId
    ensures w.Some? ==> exists i :: 0 <= i < |ps| && ps[i].id == w.value && ps[i].roundId == roundId
  {
    var k := RoundIndex(rounds, roundId);
    if k < 0 then None
    else
      match Winner(rounds[k].votingMethod, ps, votes, roundId)
      case None => None
      case Some(p) => Some(p.id)
  }

  /** Approval: no proposal of the round has a higher score than the
      winner, and an equal score only with a creation time no earlier. */
  lemma ApprovalWinner(ps: seq<Proposal>, votes: seq<Vote>, roundId: Id)
    requires Winner(Approval, ps, votes, roundId).Some?
    ensures var w := Winner(Approval, ps, votes, roundId).value;
      forall i :: 0 <= i < |ps| && ps[i].roundId == roundId ==>
        ps[i].voteScore < w.voteScore
        || (ps[i].voteScore == w.voteScore && w.createdAt <= ps[i].createdAt)
  {
  }

  /** Ranked choice: the winner is the lexicographic maximum of (score,
      first places, second places, earliest creation). */
  lemma RankedWinner(ps: seq<Proposal>, votes: seq<Vote>, roundId: Id)
    requires Winner(RankedChoice, ps, votes, roundId).Some?
    ensures var w := Winner(RankedChoice, ps, votes, roundId).value;
      forall i :: 0 <= i < |ps| && ps[i].roundId == roundId ==>
        var q := ps[i];
        || q.voteScore < w.voteScore
        || (q.voteScore == w.voteScore
            && PlaceCount(votes, roundId, q.id, 1) < PlaceCount(votes, roundId, w.id, 1))
        || (q.voteScore == w.voteScore
            && PlaceCount(votes, roundId, q.id, 1) == PlaceCount(votes, roundId, w.id, 1)
            && PlaceCount(votes, roundId, q.id, 2) < PlaceCount(votes, roundId, w.id, 2))
        || (q.voteScore == w.voteScore
            && PlaceCount(votes, roundId, q.id, 1) == PlaceCount(votes, roundId, w.id, 1)
            && PlaceCount(votes, roundId, q.id, 2) == PlaceCount(votes, roundId, w.id, 2)
            && w.createdAt <= q.createdAt)
  {
  }

  /** Once the round's scores are recomputed, the winner has the highest
      current score of any proposal in the round. */
  lemma {:induction false} WinnerAfterRecompute(m: VotingMethod, votes: seq<Vote>, roundId: Id, ps: seq<Proposal>)
    requires exists i :: 0 <= i < |ps| && ps[i].roundId == roundId
    ensures var w := Winner(m, Rescore(m, votes, roundId, ps), votes, roundId);
      && w.Some?
      && w.value.voteScore == Score(m, votes, roundId, w.value.id)
      && forall i :: 0 <= i < |ps| && ps[i].roundId == roundId ==>
           Score(m, votes, roundId, ps[i].id) <= Score(m, votes, roundId, w.value.id)
  {
    var qs := Rescore(m, votes, roundId, ps);
    var i0 :| 0 <= i0 < |ps| && ps[i0].roundId == roundId;
    assert qs[i0].roundId == roundId;
    var w := Winner(m, qs, votes, roundId).value;
    var j :| 0 <= j < |qs| && qs[j] == w;
    assert w.voteScore == Score(m, votes, roundId, w.id);
    forall i | 0 <= i < |ps| && ps[i].roundId == roundId
      ensures Score(m, votes, roundId, ps[i].id) <= Score(m, votes, roundId, w.id)
    {
      assert qs[i].roundId == roundId && qs[i].voteScore == Score(m, votes, roundId, ps[i].id);
      assert !Outranks(StandingOf(m, votes, roundId, qs[i]), StandingOf(m, votes, roundId, w));
    }
  }
}

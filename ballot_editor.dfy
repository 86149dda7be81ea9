/** The ballot editor of the round page (`VotingPanel`): the ranked-choice
    selection (a map from proposal id to rank 1, 2 or 3, one proposal per
    rank), the approval selection (a set of proposal ids, which iterates in
    insertion order), and the ballot each one submits. */
module BallotEditor {
  import opened Api
  import opened Tables
  import opened Query
  import opened Votes

  // ---------------------------------------------------------------- ranking

  /** The smallest key of a non-empty set of ids, found by removing keys
      one at a time. */
  lemma {:induction false} Least(s: set<Id>) returns (k: Id)
    requires s != {}
    ensures k in s && forall j :: j in s ==> k <= j
    decreases |s|
  {
    var x :| x in s;
    if s == {x} {
      k := x;
    } else {
      var t := s - {x};
      var m := Least(t);
      k := if x < m then x else m;
      forall j | j in s ensures k <= j {
        if j != x { assert j in t; }
      }
    }
  }

  /** The smallest key of a non-empty set of ids exists. */
  lemma MinExists(s: set<Id>)
    requires s != {}
    ensures exists k :: k in s && forall j :: j in s ==> k <= j
  {
    var k := Least(s);
  }

  function MinKey(s: set<Id>): (k: Id)
    requires s != {}
    ensures k in s && forall j :: j in s ==> k <= j
  {
    MinExists(s);
    var k :| k in s && forall j :: j in s ==> k <= j;
    k
  }

  /** The ids of `s` in ascending order. */
  function Ascending(s: set<Id>): (ks: seq<Id>)
    ensures ElemSet(ks) == s
    ensures forall i, j :: 0 <= i < j < |ks| ==> ks[i] < ks[j]
    decreases s
  {
    if s == {} then []
    else
      var k := MinKey(s);
      var tail := Ascending(s - {k});
      PrependMin(k, tail, s);
      [k] + tail
  }

  /** Putting the least id in front of the others in ascending order gives
      the whole set in ascending order. */
  lemma PrependMin(k: Id, tail: seq<Id>, s: set<Id>)
    requires k in s && forall j :: j in s ==> k <= j
    requires ElemSet(tail) == s - {k}
    requires forall i, j :: 0 <= i < j < |tail| ==> tail[i] < tail[j]
    ensures ElemSet([k] + tail) == s
    ensures forall i, j :: 0 <= i < j < |[k] + tail| ==> ([k] + tail)[i] < ([k] + tail)[j]
  {
    forall i | 0 <= i < |tail| ensures k < tail[i] {
      assert tail[i] in ElemSet(tail);
    }
    assert ElemSet([k] + tail) == {k} + ElemSet(tail);
  }

  /** `Object.keys(m)`: a JavaScript object lists integer keys in ascending
      numeric order. */
  function AscendingKeys(m: map<Id, int>): (ks: seq<Id>)
    ensures ElemSet(ks) == m.Keys
    ensures forall i, j :: 0 <= i < j < |ks| ==> ks[i] < ks[j]
  {
    Ascending(m.Keys)
  }

  /** The entries of `prev` that do not hold `rank`. */
  function WithoutRank(prev: map<Id, int>, rank: int): map<Id, int> {
    map k | k in prev && prev[k] != rank :: prev[k]
  }

  /** The rank map after choosing `rank` for proposal `p`: every entry that
      held `rank` gives it up; then `p` takes `rank`, or, for the blank
      option 0, loses its rank. */
  function RankChanged(prev: map<Id, int>, p: Id, rank: int): (next: map<Id, int>)
    ensures rank != 0 ==> p in next && next[p] == rank
    ensures rank != 0 ==> forall k :: k in next && k != p ==> next[k] != rank
    ensures rank == 0 ==> p !in next
    ensures forall k :: k in prev && k != p && prev[k] != rank ==> k in next && next[k] == prev[k]
    ensures forall k :: k in next && k != p ==> k in prev && next[k] == prev[k]
  {
    var kept := WithoutRank(prev, rank);
    if rank == 0 then kept - {p} else kept[p := rank]
  }

  /** In a strictly ascending sequence an element occurs at one index only. */
  lemma OnlyAt(ks: seq<Id>, i: nat)
    requires i < |ks|
    requires forall a, b :: 0 <= a < b < |ks| ==> ks[a] < ks[b]
    ensures forall j :: 0 <= j < |ks| && j != i ==> ks[j] != ks[i]
  {
  }

  /** The deleting loop of `handleRankChange`: over a copy of the map, in
      key order, every entry holding `rank` is deleted. */
  method DropRank(prev: map<Id, int>, rank: int) returns (next: map<Id, int>)
    ensures next == WithoutRank(prev, rank)
  {
    next := prev;
    var keys := AscendingKeys(next);
    ghost var done: set<Id> := {};
    var i := 0;
    while i < |keys|
      invariant 0 <= i <= |keys|
      invariant forall k :: k in next <==> k in prev && (k in done ==> prev[k] != rank)
      invariant forall k :: k in next ==> next[k] == prev[k]
      invariant forall j :: 0 <= j < i ==> keys[j] in done
      invariant forall j :: i <= j < |keys| ==> keys[j] !in done
    {
      var k := keys[i];
      OnlyAt(keys, i);
      assert k in ElemSet(keys);
      if next[k] == rank {
        next := next - {k};
      }
      done := done + {k};
      i := i + 1;
    }
    forall k | k in prev ensures k in done {
      assert k in ElemSet(keys);
      var j :| 0 <= j < |keys| && keys[j] == k;
    }
  }

  /** `handleRankChange(proposalId, rank)`: copy the map, delete every entry
      holding `rank`, then set or delete `p`. */
  method RankChange(prev: map<Id, int>, p: Id, rank: int) returns (next: map<Id, int>)
    ensures next == RankChanged(prev, p, rank)
  {
    next := DropRank(prev, rank);
    if rank == 0 {
      next := next - {p};
    } else {
      next := next[p := rank];
    }
  }

  /** The state the rank selects keep: ranks among the options 1 to 3, and
      no rank held by two proposals. */
  ghost predicate WellRanked(m: map<Id, int>) {
    && (forall k :: k in m ==> 1 <= m[k] <= 3)
    && (forall a, b :: a in m && b in m && a != b ==> m[a] != m[b])
  }

  /** Choosing one of the options (0 for none, 1 to 3) keeps the map well
      ranked. */
  lemma RankChangeKeepsWellRanked(prev: map<Id, int>, p: Id, rank: int)
    requires WellRanked(prev)
    requires 0 <= rank <= 3
    ensures WellRanked(RankChanged(prev, p, rank))
  {
    var next := RankChanged(prev, p, rank);
    forall a, b | a in next && b in next && a != b ensures next[a] != next[b] {
      if a != p && b != p {
        assert next[a] == prev[a] && next[b] == prev[b];
      }
    }
  }

  /** The ballot `handleSubmit` sends under ranked choice: one entry per map
      entry, in key order. */
  function RankedPayload(m: map<Id, int>): (entries: seq<BallotEntry>)
    ensures |entries| == |AscendingKeys(m)|
  {
    var ks := AscendingKeys(m);
    seq(|ks|, i requires 0 <= i < |ks| => BallotEntry(ks[i], Some(m[ks[i]])))
  }

  /** The ranked ballot is exactly the map's entries, each once. */
  lemma RankedPayloadIsTheMap(m: map<Id, int>)
    ensures |RankedPayload(m)| == |m|
    ensures forall i :: 0 <= i < |RankedPayload(m)| ==>
      RankedPayload(m)[i].proposalId in m && RankedPayload(m)[i].rank == Some(m[RankedPayload(m)[i].proposalId])
    ensures forall k :: k in m ==> BallotEntry(k, Some(m[k])) in RankedPayload(m)
    ensures Distinct(ProposalIds(RankedPayload(m)))
  {
    var ks := AscendingKeys(m);
    var entries := RankedPayload(m);
    assert Distinct(ks);
    DistinctIffSetSize(ks);
    assert ProposalIds(entries) == ks;
    forall k | k in m ensures BallotEntry(k, Some(m[k])) in entries {
      assert k in ElemSet(ks);
      var i :| 0 <= i < |ks| && ks[i] == k;
      assert entries[i] == BallotEntry(k, Some(m[k]));
    }
  }

  /** The ranks of the ranked ballot are pairwise distinct, each 1, 2 or 3. */
  lemma RankedPayloadRanks(m: map<Id, int>)
    requires WellRanked(m)
    ensures Distinct(Ranks(RankedPayload(m)))
    ensures ElemSet(Ranks(RankedPayload(m))) <= {1, 2, 3}
  {
    var ks := AscendingKeys(m);
    var ranks := Ranks(RankedPayload(m));
    forall i | 0 <= i < |ranks| ensures ks[i] in m && ranks[i] == m[ks[i]] {
      assert ks[i] in ElemSet(ks);
    }
    forall i, j | 0 <= i < j < |ranks| ensures ranks[i] != ranks[j] {
      assert ks[i] < ks[j];
    }
    forall x | x in ElemSet(ranks) ensures x in {1, 2, 3} {
      var i :| 0 <= i < |ranks| && ranks[i] == x;
    }
  }

  /** A well-ranked selection never holds more than three proposals, and
      the ballot it submits passes every check the server makes of a
      ranked ballot short of the proposals' round: at most three entries,
      each with a proposal id and a rank from 1 to 3, no rank and no
      proposal twice. */
  lemma RankedPayloadAccepted(m: map<Id, int>)
    requires WellRanked(m)
    requires 0 !in m
    ensures |m| <= 3
    ensures |RankedPayload(m)| <= 3
    ensures forall i :: 0 <= i < |RankedPayload(m)| ==> EntryOk(RankedChoice, RankedPayload(m)[i])
    ensures Distinct(Ranks(RankedPayload(m)))
    ensures Distinct(ProposalIds(RankedPayload(m)))
  {
    var entries := RankedPayload(m);
    RankedPayloadIsTheMap(m);
    RankedPayloadRanks(m);
    var ranks := Ranks(entries);
    DistinctIffSetSize(ranks);
    SubsetSize(ElemSet(ranks), {1, 2, 3});
    forall i | 0 <= i < |entries| ensures EntryOk(RankedChoice, entries[i]) {
      assert entries[i].proposalId in m;
    }
  }

  // --------------------------------------------------------------- approval

  /** `handleApprovalToggle(p)` on the set of approved ids (kept in
      insertion order): remove `p` when present, else add it at the end. */
  function Toggle(prev: seq<Id>, p: Id): (next: seq<Id>)
    requires Distinct(prev)
    ensures Distinct(next)
    ensures p in next <==> p !in prev
    ensures forall q :: q != p ==> (q in next <==> q in prev)
  {
    if p in prev then
      var next := Filter(prev, (q: Id) => q != p);
      FilterKeepsKeysDistinct(prev, (q: Id) => q != p, (q: Id) => q);
      next
    else prev + [p]
  }

  /** Toggling twice restores the set of approved ids; when the id was not
      approved, it restores the very same sequence. */
  lemma {:induction false} ToggleTwice(approved: seq<Id>, p: Id)
    requires Distinct(approved)
    ensures ElemSet(Toggle(Toggle(approved, p), p)) == ElemSet(approved)
    ensures p !in approved ==> Toggle(Toggle(approved, p), p) == approved
  {
    if p !in approved {
      var once := approved + [p];
      assert Toggle(approved, p) == once;
      forall i | 0 <= i < |approved| ensures approved[i] != p {
        assert approved[i] in approved;
      }
      FilterDropsOne(once, |approved|, (q: Id) => q != p);
      assert RemoveAt(once, |approved|) == approved;
    }
  }

  /** The ballot `handleSubmit` sends under approval voting: one rank-less
      entry per approved id, in insertion order. */
  function ApprovalPayload(approved: seq<Id>): (entries: seq<BallotEntry>)
    ensures |entries| == |approved|
  {
    seq(|approved|, i requires 0 <= i < |approved| => BallotEntry(approved[i], None))
  }

  /** The approval ballot names each approved proposal once, with no rank,
      and so passes the server's per-entry check. */
  lemma ApprovalPayloadAccepted(approved: seq<Id>)
    requires Distinct(approved)
    requires 0 !in approved
    ensures ProposalIds(ApprovalPayload(approved)) == approved
    ensures forall i :: 0 <= i < |approved| ==> ApprovalPayload(approved)[i].rank.None?
    ensures forall i :: 0 <= i < |approved| ==> EntryOk(Approval, ApprovalPayload(approved)[i])
    ensures Distinct(ProposalIds(ApprovalPayload(approved)))
  {
    var entries := ApprovalPayload(approved);
    forall i | 0 <= i < |approved| ensures EntryOk(Approval, entries[i]) {
      assert approved[i] in approved;
    }
  }
}

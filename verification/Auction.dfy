/**
  The sealed-bid auctions of the fleet's contract net: bids are collected, opened together, ranked,
  and each is either awarded or rejected.
*/
module Auction {
  import opened Wrappers

  datatype Announcement = Announcement(
    taskId: string, instruction: string, requiredSkills: seq<string>, window: real, sealed: bool, createdAt: real,
    round: nat)

  /** An empty commitment or salt means that there is none. */
  datatype Bid = Bid(
    bidId: string, taskId: string, nodeId: string, cost: real, duration: real, capability: real,
    sealed: bool, commitment: string, salt: string)

  datatype Award = Award(
    taskId: string, nodeId: string, leaseId: string, leaseDuration: real, awardedAt: real, bidId: string, score: real)

  datatype Reason = NeverRevealed | CommitmentMismatch | BelowThreshold | RunnerUp(score: real, winning: real)

  datatype Rejection = Rejection(taskId: string, nodeId: string, reason: Reason, bidId: string)

  datatype Ranked = Ranked(bid: Bid, score: real)

  /** Bids are kept in the order in which their identifiers were first submitted. */
  datatype Record = Record(
    announcement: Announcement, bids: seq<Bid>, closed: bool, award: Option<Award>, rejections: seq<Rejection>,
    ranked: seq<Ranked>)

  function Fresh(a: Announcement): Record {
    Record(a, [], false, None, [], [])
  }

  // ---------------------------------------------------------------------
  // An ordered dictionary of bids
  // ---------------------------------------------------------------------

  function Ids(bids: seq<Bid>): (ids: seq<string>)
    ensures |ids| == |bids|
  {
    seq(|bids|, i requires 0 <= i < |bids| => bids[i].bidId)
  }

  ghost predicate Distinct(ids: seq<string>) {
    forall i, j :: 0 <= i < j < |ids| ==> ids[i] != ids[j]
  }

  function IndexOf(bids: seq<Bid>, id: string): (i: nat)
    ensures i <= |bids| && (i < |bids| ==> bids[i].bidId == id)
    ensures forall k :: 0 <= k < i ==> bids[k].bidId != id
  {
    if bids == [] || bids[0].bidId == id then 0 else 1 + IndexOf(bids[1..], id)
  }

  /** A bid takes the place of an earlier one with its identifier, or the last place. */
  function Put(bids: seq<Bid>, b: Bid): seq<Bid> {
    var i := IndexOf(bids, b.bidId);
    if i < |bids| then bids[i := b] else bids + [b]
  }

  lemma PutKeepsDistinct(bids: seq<Bid>, b: Bid)
    requires Distinct(Ids(bids))
    ensures Distinct(Ids(Put(bids, b)))
  {
    var i := IndexOf(bids, b.bidId);
    var ids := Ids(Put(bids, b));
    if i < |bids| {
      assert ids == Ids(bids);
    } else {
      forall j, k | 0 <= j < k < |ids|
        ensures ids[j] != ids[k]
      {
        assert j < |bids| ==> ids[j] == Ids(bids)[j];
        assert k < |bids| ==> ids[k] == Ids(bids)[k];
      }
    }
  }

  // ---------------------------------------------------------------------
  // Ranking: a stable sort, highest score first
  // ---------------------------------------------------------------------

  /** Behind everything that scores at least as high. */
  function Insert(r: Ranked, rs: seq<Ranked>): seq<Ranked> {
    if rs == [] || rs[0].score < r.score then [r] + rs else [rs[0]] + Insert(r, rs[1..])
  }

  function Rank(bids: seq<Bid>, score: Bid -> real): seq<Ranked> {
    if bids == [] then []
    else Insert(Ranked(bids[|bids| - 1], score(bids[|bids| - 1])), Rank(bids[..|bids| - 1], score))
  }

  predicate Descending(rs: seq<Ranked>) {
    |rs| <= 1 || (rs[0].score >= rs[1].score && Descending(rs[1..]))
  }

  lemma {:induction false} InsertDescends(r: Ranked, rs: seq<Ranked>)
    requires Descending(rs)
    ensures Descending(Insert(r, rs))
    decreases |rs|
  {
    if rs != [] && rs[0].score >= r.score {
      InsertDescends(r, rs[1..]);
      assert rs == [rs[0]] + rs[1..];
      assert Insert(r, rs)[1..] == Insert(r, rs[1..]);
    } else {
      assert ([r] + rs)[1..] == rs;
    }
  }

  /** The bids with their scores, in the order in which they came. */
  function Scored(bids: seq<Bid>, score: Bid -> real): seq<Ranked> {
    if bids == [] then [] else Scored(bids[..|bids| - 1], score) + [Ranked(bids[|bids| - 1], score(bids[|bids| - 1]))]
  }

  /** Higher scores come first. */
  lemma {:induction false} RankDescends(bids: seq<Bid>, score: Bid -> real)
    ensures Descending(Rank(bids, score))
    decreases |bids|
  {
    if bids != [] {
      var n := |bids| - 1;
      RankDescends(bids[..n], score);
      InsertDescends(Ranked(bids[n], score(bids[n])), Rank(bids[..n], score));
    }
  }

  lemma {:induction false} FirstOfInsert(r: Ranked, rs: seq<Ranked>)
    ensures Insert(r, rs) != []
    ensures Insert(r, rs)[0] == if rs == [] || rs[0].score < r.score then r else rs[0]
  {
  }

  /** Index i holds the earliest of the highest scores. */
  ghost predicate EarliestBest(bids: seq<Bid>, score: Bid -> real, i: nat) {
    && i < |bids|
    && (forall j :: 0 <= j < |bids| ==> score(bids[j]) <= score(bids[i]))
    && (forall j :: 0 <= j < i ==> score(bids[j]) < score(bids[i]))
  }

  /** The first in the ranking is the earliest bid of the highest score. */
  lemma {:induction false} FirstIsEarliestBest(bids: seq<Bid>, score: Bid -> real) returns (i: nat)
    requires bids != []
    ensures EarliestBest(bids, score, i)
    ensures Rank(bids, score) != [] && Rank(bids, score)[0] == Ranked(bids[i], score(bids[i]))
    decreases |bids|
  {
    var n := |bids| - 1;
    var last := Ranked(bids[n], score(bids[n]));
    FirstOfInsert(last, Rank(bids[..n], score));
    if n == 0 {
      i := 0;
    } else {
      i := FirstIsEarliestBest(bids[..n], score);
      if score(bids[i]) < last.score {
        i := n;
      }
    }
  }

  /** Ranking loses and invents nothing, and bids with equal scores keep their order. */
  lemma {:induction false} RankIsStable(bids: seq<Bid>, score: Bid -> real, s: real)
    ensures WithScore(Rank(bids, score), s) == WithScore(Scored(bids, score), s)
    decreases |bids|
  {
    if bids != [] {
      var n := |bids| - 1;
      var last := Ranked(bids[n], score(bids[n]));
      RankIsStable(bids[..n], score, s);
      RankDescends(bids[..n], score);
      InsertedScores(last, Rank(bids[..n], score), s);
      WithScoreAppends(Scored(bids[..n], score), last, s);
    }
  }

  function IfScore(r: Ranked, s: real): seq<Ranked> {
    if r.score == s then [r] else []
  }

  function WithScore(rs: seq<Ranked>, s: real): seq<Ranked> {
    if rs == [] then [] else IfScore(rs[0], s) + WithScore(rs[1..], s)
  }

  lemma {:induction false} WithScoreAppends(rs: seq<Ranked>, r: Ranked, s: real)
    ensures WithScore(rs + [r], s) == WithScore(rs, s) + IfScore(r, s)
    decreases |rs|
  {
    var all := rs + [r];
    if rs == [] {
      assert all[1..] == [];
    } else {
      assert all[0] == rs[0] && all[1..] == rs[1..] + [r];
      WithScoreAppends(rs[1..], r, s);
    }
  }

  lemma {:induction false} InsertedScores(r: Ranked, rs: seq<Ranked>, s: real)
    requires Descending(rs)
    ensures WithScore(Insert(r, rs), s) == WithScore(rs, s) + IfScore(r, s)
    decreases |rs|
  {
    if rs != [] && rs[0].score >= r.score {
      InsertedScores(r, rs[1..], s);
      assert ([rs[0]] + Insert(r, rs[1..]))[1..] == Insert(r, rs[1..]);
    } else {
      assert ([r] + rs)[1..] == rs;
      if r.score == s {
        NoneBelow(rs, s);
      }
    }
  }

  lemma {:induction false} NoneBelow(rs: seq<Ranked>, s: real)
    requires Descending(rs) && (rs == [] || rs[0].score < s)
    ensures WithScore(rs, s) == []
    decreases |rs|
  {
    if rs != [] {
      NoneBelow(rs[1..], s);
    }
  }

  // ---------------------------------------------------------------------
  // Closing
  // ---------------------------------------------------------------------

  /** The digest that a bid's commitment is compared with. */
  type Digest = (Bid, string) -> string

  /** A commitment, if there is one, was revealed and fits. */
  predicate Opens(digest: Digest, b: Bid) {
    b.commitment == "" || (b.salt != "" && digest(b, b.salt) == b.commitment)
  }

  function IfOpens(digest: Digest, b: Bid): seq<Bid> {
    if Opens(digest, b) then [b.(sealed := false)] else []
  }

  function Opened(digest: Digest, bids: seq<Bid>): seq<Bid> {
    if bids == [] then [] else Opened(digest, bids[..|bids| - 1]) + IfOpens(digest, bids[|bids| - 1])
  }

  function IfRefused(digest: Digest, b: Bid, task: string): seq<Rejection> {
    if Opens(digest, b) then []
    else [Rejection(task, b.nodeId, if b.salt == "" then NeverRevealed else CommitmentMismatch, b.bidId)]
  }

  function Refused(digest: Digest, bids: seq<Bid>, task: string): seq<Rejection> {
    if bids == [] then [] else Refused(digest, bids[..|bids| - 1], task) + IfRefused(digest, bids[|bids| - 1], task)
  }

  lemma OneMoreOpened(digest: Digest, bids: seq<Bid>, i: nat, task: string)
    requires i < |bids|
    ensures Opened(digest, bids[..i + 1]) == Opened(digest, bids[..i]) + IfOpens(digest, bids[i])
    ensures Refused(digest, bids[..i + 1], task) == Refused(digest, bids[..i], task) + IfRefused(digest, bids[i], task)
  {
    assert bids[..i + 1][..i] == bids[..i];
  }

  /** Opening a bid only clears its seal. */
  function Unsealed(digest: Digest, bids: seq<Bid>): (us: seq<Bid>)
    ensures |us| == |bids|
  {
    seq(|bids|, i requires 0 <= i < |bids| => if Opens(digest, bids[i]) then bids[i].(sealed := false) else bids[i])
  }

  function IfLost(r: Ranked, winner: Option<Ranked>, task: string): seq<Rejection> {
    if winner.None? then [Rejection(task, r.bid.nodeId, BelowThreshold, r.bid.bidId)]
    else if r.bid.bidId != winner.value.bid.bidId
      then [Rejection(task, r.bid.nodeId, RunnerUp(r.score, winner.value.score), r.bid.bidId)]
    else []
  }

  /** The losers of a ranking, in its order. */
  function Losers(rs: seq<Ranked>, winner: Option<Ranked>, task: string): seq<Rejection> {
    if rs == [] then [] else Losers(rs[..|rs| - 1], winner, task) + IfLost(rs[|rs| - 1], winner, task)
  }

  /** The first in the ranking wins if its score is positive. */
  function Winner(rs: seq<Ranked>): Option<Ranked> {
    if rs != [] && rs[0].score > 0.0 then Some(rs[0]) else None
  }

  /** How many rejections, bids or ranked bids carry an identifier. */
  function CountTags(rs: seq<Rejection>, id: string): nat {
    if rs == [] then 0 else CountTags(rs[..|rs| - 1], id) + if rs[|rs| - 1].bidId == id then 1 else 0
  }

  function CountBids(bids: seq<Bid>, id: string): nat {
    if bids == [] then 0 else CountBids(bids[..|bids| - 1], id) + if bids[|bids| - 1].bidId == id then 1 else 0
  }

  function CountRanked(rs: seq<Ranked>, id: string): nat {
    if rs == [] then 0 else CountRanked(rs[1..], id) + if rs[0].bid.bidId == id then 1 else 0
  }

  lemma OneTag(rs: seq<Rejection>, r: Rejection, id: string)
    ensures CountTags(rs + [r], id) == CountTags(rs, id) + if r.bidId == id then 1 else 0
  {
    assert (rs + [r])[..|rs|] == rs;
  }

  lemma OneBid(bids: seq<Bid>, b: Bid, id: string)
    ensures CountBids(bids + [b], id) == CountBids(bids, id) + if b.bidId == id then 1 else 0
  {
    assert (bids + [b])[..|bids|] == bids;
  }

  lemma {:induction false} TagsOfBoth(a: seq<Rejection>, b: seq<Rejection>, id: string)
    ensures CountTags(a + b, id) == CountTags(a, id) + CountTags(b, id)
    decreases |b|
  {
    if b == [] {
      assert a + b == a;
    } else {
      var n := |b| - 1;
      assert a + b == (a + b[..n]) + [b[n]];
      OneTag(a + b[..n], b[n], id);
      TagsOfBoth(a, b[..n], id);
    }
  }

  /** Each bid is refused or opened, not both. */
  lemma {:induction false} RefusedOrOpened(digest: Digest, bids: seq<Bid>, task: string, id: string)
    ensures CountTags(Refused(digest, bids, task), id) + CountBids(Opened(digest, bids), id) == CountBids(bids, id)
    decreases |bids|
  {
    if bids != [] {
      var n := |bids| - 1;
      var r, o := Refused(digest, bids[..n], task), Opened(digest, bids[..n]);
      RefusedOrOpened(digest, bids[..n], task, id);
      if Opens(digest, bids[n]) {
        assert r + [] == r;
        OneBid(o, bids[n].(sealed := false), id);
      } else {
        assert o + [] == o;
        OneTag(r, IfRefused(digest, bids[n], task)[0], id);
      }
    }
  }

  lemma {:induction false} InsertedOnce(r: Ranked, rs: seq<Ranked>, id: string)
    ensures CountRanked(Insert(r, rs), id) == CountRanked(rs, id) + if r.bid.bidId == id then 1 else 0
    decreases |rs|
  {
    if rs != [] && rs[0].score >= r.score {
      assert ([rs[0]] + Insert(r, rs[1..]))[1..] == Insert(r, rs[1..]);
      InsertedOnce(r, rs[1..], id);
    } else {
      assert ([r] + rs)[1..] == rs;
    }
  }

  lemma {:induction false} RankKeepsCount(bids: seq<Bid>, score: Bid -> real, id: string)
    ensures CountRanked(Rank(bids, score), id) == CountBids(bids, id)
    decreases |bids|
  {
    if bids != [] {
      var n := |bids| - 1;
      RankKeepsCount(bids[..n], score, id);
      InsertedOnce(Ranked(bids[n], score(bids[n])), Rank(bids[..n], score), id);
    }
  }

  lemma {:induction false} CountRankedAppends(rs: seq<Ranked>, r: Ranked, id: string)
    ensures CountRanked(rs + [r], id) == CountRanked(rs, id) + if r.bid.bidId == id then 1 else 0
    decreases |rs|
  {
    if rs == [] {
      assert ([] + [r])[1..] == [];
    } else {
      assert (rs + [r])[1..] == rs[1..] + [r];
      CountRankedAppends(rs[1..], r, id);
    }
  }

  lemma OneMoreLoser(l: seq<Rejection>, r: Ranked, winner: Option<Ranked>, task: string, id: string)
    ensures CountTags(l + IfLost(r, winner, task), id)
         == CountTags(l, id) + if r.bid.bidId == id && !(winner.Some? && winner.value.bid.bidId == id) then 1 else 0
  {
    if IfLost(r, winner, task) == [] {
      assert l + [] == l;
    } else {
      OneTag(l, IfLost(r, winner, task)[0], id);
    }
  }

  /** Every ranked bid is rejected but those with the winner's identifier. */
  lemma {:induction false} LosersCount(rs: seq<Ranked>, winner: Option<Ranked>, task: string, id: string)
    ensures CountTags(Losers(rs, winner, task), id)
         == if winner.Some? && winner.value.bid.bidId == id then 0 else CountRanked(rs, id)
    decreases |rs|
  {
    if rs != [] {
      var n := |rs| - 1;
      LosersCount(rs[..n], winner, task, id);
      assert rs == rs[..n] + [rs[n]];
      CountRankedAppends(rs[..n], rs[n], id);
      OneMoreLoser(Losers(rs[..n], winner, task), rs[n], winner, task, id);
    }
  }

  lemma DistinctPrefix(bids: seq<Bid>, n: nat)
    requires Distinct(Ids(bids)) && n <= |bids|
    ensures Distinct(Ids(bids[..n]))
  {
    assert Ids(bids[..n]) == Ids(bids)[..n];
  }

  /** With distinct identifiers, each of them counts once. */
  lemma {:induction false} CountsOnce(bids: seq<Bid>, k: nat)
    requires Distinct(Ids(bids)) && k < |bids|
    ensures CountBids(bids, bids[k].bidId) == 1
    decreases |bids|
  {
    var n := |bids| - 1;
    DistinctPrefix(bids, n);
    if k < n {
      assert Ids(bids)[k] != Ids(bids)[n];
      CountsOnce(bids[..n], k);
    } else {
      forall i | 0 <= i < n
        ensures bids[..n][i].bidId != bids[k].bidId
      {
        assert Ids(bids)[i] != Ids(bids)[n];
      }
      CountsNone(bids[..n], bids[k].bidId);
    }
  }

  lemma {:induction false} CountsNone(bids: seq<Bid>, id: string)
    requires forall i :: 0 <= i < |bids| ==> bids[i].bidId != id
    ensures CountBids(bids, id) == 0
    decreases |bids|
  {
    if bids != [] {
      CountsNone(bids[..|bids| - 1], id);
    }
  }

  lemma UnsealedIds(digest: Digest, bids: seq<Bid>)
    ensures Ids(Unsealed(digest, bids)) == Ids(bids)
  {
  }

  /** What closing decides. */
  datatype Outcome = Outcome(winner: Option<Ranked>, rejections: seq<Rejection>, ranked: seq<Ranked>)

  function Decide(digest: Digest, bids: seq<Bid>, score: Bid -> real, task: string): Outcome {
    var ranked := Rank(Opened(digest, bids), score);
    Outcome(Winner(ranked), Refused(digest, bids, task) + Losers(ranked, Winner(ranked), task), ranked)
  }

  lemma {:induction false} RankedBidIsOpened(bids: seq<Bid>, score: Bid -> real, digest: Digest, i: nat)
    requires i < |Opened(digest, bids)|
    ensures exists j :: OpensAs(digest, bids, j, Opened(digest, bids)[i])
    decreases |bids|
  {
    var n := |bids| - 1;
    if i < |Opened(digest, bids[..n])| {
      RankedBidIsOpened(bids[..n], score, digest, i);
      var j :| OpensAs(digest, bids[..n], j, Opened(digest, bids[..n])[i]);
      assert OpensAs(digest, bids, j, Opened(digest, bids)[i]);
    } else {
      assert OpensAs(digest, bids, n, Opened(digest, bids)[i]);
    }
  }

  /** The bid at index j opens, and this is what it looks like then. */
  ghost predicate OpensAs(digest: Digest, bids: seq<Bid>, j: int, b: Bid) {
    0 <= j < |bids| && Opens(digest, bids[j]) && b == bids[j].(sealed := false)
  }

  /** The winner is at index i of the opened bids, and is the bid at index j of all bids. */
  ghost predicate WinsAt(digest: Digest, bids: seq<Bid>, score: Bid -> real, winner: Ranked, i: int, j: int) {
    && i >= 0 && EarliestBest(Opened(digest, bids), score, i)
    && winner == Ranked(Opened(digest, bids)[i], score(Opened(digest, bids)[i]))
    && OpensAs(digest, bids, j, winner.bid)
  }

  /** The winner is the earliest bid of the highest score, which is positive, and its commitment opens. */
  lemma WinnerIsEarliestBest(digest: Digest, bids: seq<Bid>, score: Bid -> real, task: string)
    ensures var w := Decide(digest, bids, score, task).winner;
      && (w.Some? <==> exists i :: 0 <= i < |Opened(digest, bids)| && score(Opened(digest, bids)[i]) > 0.0)
      && (w.Some? ==> exists i, j :: WinsAt(digest, bids, score, w.value, i, j))
  {
    var valid := Opened(digest, bids);
    if valid != [] {
      var i := FirstIsEarliestBest(valid, score);
      RankedBidIsOpened(bids, score, digest, i);
      var j :| OpensAs(digest, bids, j, valid[i]);
      if score(valid[i]) > 0.0 {
        assert WinsAt(digest, bids, score, Ranked(valid[i], score(valid[i])), i, j);
      }
    }
  }

  /** Closing an auction gives each bid exactly one answer: the award or one rejection. */
  lemma ClosingPartitions(digest: Digest, bids: seq<Bid>, score: Bid -> real, task: string, k: nat)
    requires Distinct(Ids(bids)) && k < |bids|
    ensures var o := Decide(digest, bids, score, task);
      CountTags(o.rejections, bids[k].bidId)
        == if o.winner.Some? && o.winner.value.bid.bidId == bids[k].bidId then 0 else 1
  {
    var id := bids[k].bidId;
    CountsOnce(bids, k);
    AnswersCount(digest, bids, score, task, id);
    var o := Decide(digest, bids, score, task);
    if o.winner.Some? && o.winner.value.bid.bidId == id {
      WinnerIsOpened(digest, bids, score, task);
    }
  }

  /** Rejections, and the winner's ranked bids, are as many as there were bids. */
  lemma AnswersCount(digest: Digest, bids: seq<Bid>, score: Bid -> real, task: string, id: string)
    ensures var o := Decide(digest, bids, score, task);
      CountTags(o.rejections, id) == CountBids(bids, id)
        - if o.winner.Some? && o.winner.value.bid.bidId == id then CountBids(Opened(digest, bids), id) else 0
  {
    var o := Decide(digest, bids, score, task);
    TagsOfBoth(Refused(digest, bids, task), Losers(o.ranked, o.winner, task), id);
    RefusedOrOpened(digest, bids, task, id);
    RankKeepsCount(Opened(digest, bids), score, id);
    LosersCount(o.ranked, o.winner, task, id);
  }

  /** The reason fits the bid: never revealed, not as committed, not good enough, or not the best. */
  ghost predicate Just(digest: Digest, score: Bid -> real, winner: Option<Ranked>, task: string, b: Bid, x: Rejection) {
    var s := score(b.(sealed := false));
    && x.taskId == task && x.nodeId == b.nodeId && x.bidId == b.bidId
    && (if b.commitment != "" && b.salt == "" then x.reason == NeverRevealed
        else if b.commitment != "" && digest(b, b.salt) != b.commitment then x.reason == CommitmentMismatch
        else if winner.None? then x.reason == BelowThreshold && s <= 0.0
        else x.reason == RunnerUp(s, winner.value.score) && s <= winner.value.score)
  }

  ghost predicate JustFor(digest: Digest, bids: seq<Bid>, score: Bid -> real, winner: Option<Ranked>, task: string,
                          x: Rejection, k: int) {
    0 <= k < |bids| && Just(digest, score, winner, task, bids[k], x)
  }

  lemma {:induction false} RefusedIsJust(digest: Digest, bids: seq<Bid>, score: Bid -> real, winner: Option<Ranked>,
                                         task: string, i: nat) returns (k: nat)
    requires i < |Refused(digest, bids, task)|
    ensures JustFor(digest, bids, score, winner, task, Refused(digest, bids, task)[i], k)
    decreases |bids|
  {
    var n := |bids| - 1;
    if i < |Refused(digest, bids[..n], task)| {
      k := RefusedIsJust(digest, bids[..n], score, winner, task, i);
    } else {
      k := n;
    }
  }

  lemma {:induction false} LoserIsRanked(rs: seq<Ranked>, winner: Option<Ranked>, task: string, i: nat) returns (k: nat)
    requires i < |Losers(rs, winner, task)|
    ensures k < |rs| && IfLost(rs[k], winner, task) == [Losers(rs, winner, task)[i]]
    decreases |rs|
  {
    var n := |rs| - 1;
    if i < |Losers(rs[..n], winner, task)| {
      k := LoserIsRanked(rs[..n], winner, task, i);
    } else {
      k := n;
    }
  }

  lemma {:induction false} InsertedFrom(r: Ranked, rs: seq<Ranked>, k: nat)
    requires k < |Insert(r, rs)|
    ensures Insert(r, rs)[k] == r || Insert(r, rs)[k] in rs
    decreases |rs|
  {
    if rs != [] && rs[0].score >= r.score && k > 0 {
      InsertedFrom(r, rs[1..], k - 1);
    }
  }

  lemma {:induction false} RankedFrom(bids: seq<Bid>, score: Bid -> real, k: nat)
    requires k < |Rank(bids, score)|
    ensures var r := Rank(bids, score)[k]; r.bid in bids && r.score == score(r.bid)
    decreases |bids|
  {
    var n := |bids| - 1;
    var last, rest := Ranked(bids[n], score(bids[n])), Rank(bids[..n], score);
    InsertedFrom(last, rest, k);
    var r := Rank(bids, score)[k];
    if r != last {
      var j :| 0 <= j < |rest| && rest[j] == r;
      RankedFrom(bids[..n], score, j);
    }
  }

  lemma LoserIsJust(digest: Digest, bids: seq<Bid>, score: Bid -> real, task: string, i: nat) returns (k: nat)
    requires i < |Losers(Rank(Opened(digest, bids), score), Decide(digest, bids, score, task).winner, task)|
    ensures var o := Decide(digest, bids, score, task);
      JustFor(digest, bids, score, o.winner, task, Losers(o.ranked, o.winner, task)[i], k)
  {
    var o := Decide(digest, bids, score, task);
    var at := LoserIsRanked(o.ranked, o.winner, task, i);
    RankedFrom(Opened(digest, bids), score, at);
    var j :| 0 <= j < |Opened(digest, bids)| && Opened(digest, bids)[j] == o.ranked[at].bid;
    RankedBidIsOpened(bids, score, digest, j);
    k :| OpensAs(digest, bids, k, Opened(digest, bids)[j]);
    RankDescends(Opened(digest, bids), score);
    DescendingFrom(o.ranked, at);
  }

  /** Every rejection is addressed to a bid, and says what is true of it. */
  lemma RejectionsAreJust(digest: Digest, bids: seq<Bid>, score: Bid -> real, task: string, i: nat) returns (k: nat)
    requires i < |Decide(digest, bids, score, task).rejections|
    ensures var o := Decide(digest, bids, score, task);
      JustFor(digest, bids, score, o.winner, task, o.rejections[i], k)
  {
    var o := Decide(digest, bids, score, task);
    var n := |Refused(digest, bids, task)|;
    if i < n {
      k := RefusedIsJust(digest, bids, score, o.winner, task, i);
    } else {
      k := LoserIsJust(digest, bids, score, task, i - n);
    }
  }

  lemma WinnerIsOpened(digest: Digest, bids: seq<Bid>, score: Bid -> real, task: string)
    requires Decide(digest, bids, score, task).winner.Some?
    ensures CountBids(Opened(digest, bids), Decide(digest, bids, score, task).winner.value.bid.bidId) >= 1
  {
    var w := Decide(digest, bids, score, task).winner.value;
    RankKeepsCount(Opened(digest, bids), score, w.bid.bidId);
  }

  // ---------------------------------------------------------------------
  // The engine
  // ---------------------------------------------------------------------

  /** The first ranked bid of a node that is not excluded, if its score is positive. */
  function NextBest(ranked: seq<Ranked>, excluded: set<string>): Option<Ranked>
    decreases |ranked|
  {
    if ranked == [] then None
    else if ranked[0].bid.nodeId !in excluded && ranked[0].score > 0.0 then Some(ranked[0])
    else NextBest(ranked[1..], excluded)
  }

  /** In a ranking, that is the best of the bids that may win. */
  lemma {:induction false} NextBestIsHighest(ranked: seq<Ranked>, excluded: set<string>)
    requires Descending(ranked)
    ensures NextBest(ranked, excluded).None? ==>
      forall r <- ranked :: r.bid.nodeId in excluded || r.score <= 0.0
    ensures NextBest(ranked, excluded).Some? ==>
      var best := NextBest(ranked, excluded).value;
      && best in ranked && best.bid.nodeId !in excluded && best.score > 0.0
      && forall r <- ranked :: r.bid.nodeId in excluded || r.score <= best.score
    decreases |ranked|
  {
    if ranked != [] {
      if ranked[0].bid.nodeId !in excluded && ranked[0].score > 0.0 {
        forall i | 0 <= i < |ranked|
          ensures ranked[i].score <= ranked[0].score
        {
          DescendingFrom(ranked, i);
        }
      } else {
        NextBestIsHighest(ranked[1..], excluded);
        assert ranked == [ranked[0]] + ranked[1..];
      }
    }
  }

  /** An auction takes bids while it is not closed and its window is open. */
  predicate Takes(auctions: map<string, Record>, task: string, now: real) {
    && task in auctions && !auctions[task].closed
    && now <= auctions[task].announcement.createdAt + auctions[task].announcement.window
  }

  class SealedBidAuction {
    const digest: Digest
    const defaultLeaseDuration: real
    var auctions: map<string, Record>

    ghost predicate Valid()
      reads this
    {
      forall task :: task in auctions ==> Distinct(Ids(auctions[task].bids))
    }

    constructor (digest: Digest, defaultLeaseDuration: real)
      ensures Valid() && auctions == map[]
      ensures this.digest == digest && this.defaultLeaseDuration == defaultLeaseDuration
    {
      this.digest, this.defaultLeaseDuration, auctions := digest, defaultLeaseDuration, map[];
    }

    method CreateAuction(a: Announcement)
      requires Valid()
      modifies this
      ensures Valid() && auctions == old(auctions)[a.taskId := Fresh(a)]
    {
      auctions := auctions[a.taskId := Fresh(a)];
    }

    method SubmitBid(bid: Bid, now: real) returns (ok: bool)
      requires Valid()
      modifies this
      ensures Valid()
      ensures ok <==> Takes(old(auctions), bid.taskId, now)
      ensures !ok ==> auctions == old(auctions)
      ensures ok ==>
        var r := old(auctions)[bid.taskId];
        auctions == old(auctions)[bid.taskId := r.(bids := Put(r.bids,
          bid.(sealed := bid.sealed || (r.announcement.sealed && bid.commitment == ""))))]
    {
      if bid.taskId !in auctions {
        return false;
      }
      var record := auctions[bid.taskId];
      if record.closed {
        return false;
      }
      if now > record.announcement.createdAt + record.announcement.window {
        return false;
      }
      var submitted := bid;
      if record.announcement.sealed && !bid.sealed && bid.commitment == "" {
        submitted := bid.(sealed := true);
      }
      PutKeepsDistinct(record.bids, submitted);
      auctions := auctions[bid.taskId := record.(bids := Put(record.bids, submitted))];
      ok := true;
    }

    /** Revealed values are stored even when the commitment then does not fit. */
    method RevealBid(task: string, bidId: string, salt: string, cost: Option<real>, duration: Option<real>,
                     capability: Option<real>) returns (ok: bool)
      requires Valid()
      modifies this
      ensures Valid()
      ensures task !in old(auctions) || IndexOf(old(auctions)[task].bids, bidId) == |old(auctions)[task].bids| ==>
        !ok && auctions == old(auctions)
      ensures task in old(auctions) && IndexOf(old(auctions)[task].bids, bidId) < |old(auctions)[task].bids| ==>
        var r := old(auctions)[task];
        var i := IndexOf(r.bids, bidId);
        var b := Revealed(r.bids[i], salt, cost, duration, capability);
        && (ok <==> b.commitment == "" || digest(b, salt) == b.commitment)
        && auctions == old(auctions)[task := r.(bids := r.bids[i := if ok then b.(sealed := false) else b])]
    {
      if task !in auctions {
        return false;
      }
      var record := auctions[task];
      var i := IndexOf(record.bids, bidId);
      if i == |record.bids| {
        return false;
      }
      var b := Revealed(record.bids[i], salt, cost, duration, capability);
      ok := b.commitment == "" || digest(b, salt) == b.commitment;
      if ok {
        b := b.(sealed := false);
      }
      assert Ids(record.bids[i := b]) == Ids(record.bids);
      auctions := auctions[task := record.(bids := record.bids[i := b])];
    }

    /** Closes an auction; one that has been awarded keeps its result. */
    method CloseAuction(task: string, score: Bid -> real, leaseDuration: Option<real>, now: real, leaseId: string)
      returns (award: Option<Award>, rejections: seq<Rejection>)
      requires Valid()
      modifies this
      ensures Valid()
      ensures ClosesWith(old(auctions), digest, task, score, leaseId,
                         LeaseTime(leaseDuration, defaultLeaseDuration), now, award)
      ensures ClosesAuction(old(auctions), digest, task, score, award, auctions)
      ensures task !in old(auctions) ==> auctions == old(auctions) && award == None && rejections == []
      ensures task in old(auctions) && old(auctions)[task].closed && old(auctions)[task].award.Some? ==>
        auctions == old(auctions) && award == old(auctions)[task].award && rejections == old(auctions)[task].rejections
      ensures task in old(auctions) && !(old(auctions)[task].closed && old(auctions)[task].award.Some?) ==>
        var r := old(auctions)[task];
        var o := Decide(digest, r.bids, score, task);
        && rejections == o.rejections
        && award == AwardTo(o.winner, task, leaseId, LeaseTime(leaseDuration, defaultLeaseDuration), now)
        && auctions == old(auctions)[task := Closed(r, digest, o, award)]
    {
      if task !in auctions {
        return None, [];
      }
      var record := auctions[task];
      if record.closed && record.award.Some? {
        return record.award, record.rejections;
      }
      var o, any := Judge(record.bids, score, task);
      UnsealedIds(digest, record.bids);
      rejections := o.rejections;
      award := AwardTo(o.winner, task, leaseId, LeaseTime(leaseDuration, defaultLeaseDuration), now);
      var after := record.(closed := true, bids := Unsealed(digest, record.bids), rejections := rejections);
      if any {
        after := after.(ranked := o.ranked);
      }
      if award.Some? {
        after := after.(award := award);
      }
      auctions := auctions[task := after];
    }

    /** Opens, ranks and answers the bids; any tells whether one could be opened. */
    method Judge(bids: seq<Bid>, score: Bid -> real, task: string) returns (o: Outcome, any: bool)
      ensures o == Decide(digest, bids, score, task) && any == (Opened(digest, bids) != [])
    {
      var valid, rejections := OpenBids(bids, task);
      any := valid != [];
      var ranked := Rank(valid, score);
      var winner := Best(ranked);
      RankDescends(valid, score);
      FirstWins(ranked, winner);
      rejections := RejectOthers(ranked, winner, task, rejections);
      o := Outcome(winner, rejections, ranked);
    }

    /** Splits the bids into those that open and those that are refused. */
    method OpenBids(bids: seq<Bid>, task: string) returns (valid: seq<Bid>, rejections: seq<Rejection>)
      ensures valid == Opened(digest, bids) && rejections == Refused(digest, bids, task)
    {
      valid, rejections := [], [];
      for i := 0 to |bids|
        invariant valid == Opened(digest, bids[..i]) && rejections == Refused(digest, bids[..i], task)
      {
        var bid := bids[i];
        OneMoreOpened(digest, bids, i, task);
        if bid.commitment != "" {
          if bid.salt == "" {
            rejections := rejections + [Rejection(task, bid.nodeId, NeverRevealed, bid.bidId)];
            continue;
          }
          if digest(bid, bid.salt) != bid.commitment {
            rejections := rejections + [Rejection(task, bid.nodeId, CommitmentMismatch, bid.bidId)];
            continue;
          }
        }
        valid := valid + [bid.(sealed := false)];
      }
      assert bids[..|bids|] == bids;
    }

    /** The first bid of the ranking with a positive score. */
    method Best(ranked: seq<Ranked>) returns (winner: Option<Ranked>)
      ensures winner.None? ==> forall i :: 0 <= i < |ranked| ==> ranked[i].score <= 0.0
      ensures winner.Some? ==> exists i :: 0 <= i < |ranked| && winner.value == ranked[i] && ranked[i].score > 0.0
                                          && forall j :: 0 <= j < i ==> ranked[j].score <= 0.0
    {
      for i := 0 to |ranked|
        invariant forall j :: 0 <= j < i ==> ranked[j].score <= 0.0
      {
        if ranked[i].score > 0.0 {
          return Some(ranked[i]);
        }
      }
      winner := None;
    }

    method RejectOthers(ranked: seq<Ranked>, winner: Option<Ranked>, task: string, before: seq<Rejection>)
      returns (rejections: seq<Rejection>)
      ensures rejections == before + Losers(ranked, winner, task)
    {
      rejections := before;
      for i := 0 to |ranked|
        invariant rejections == before + Losers(ranked[..i], winner, task)
      {
        assert ranked[..i + 1][..i] == ranked[..i];
        var r := ranked[i];
        if winner.None? {
          rejections := rejections + [Rejection(task, r.bid.nodeId, BelowThreshold, r.bid.bidId)];
        } else if r.bid.bidId != winner.value.bid.bidId {
          rejections := rejections
            + [Rejection(task, r.bid.nodeId, RunnerUp(r.score, winner.value.score), r.bid.bidId)];
        }
      }
      assert ranked[..|ranked|] == ranked;
    }

    method GetRunnerUp(task: string, excluded: set<string>) returns (r: Option<Ranked>)
      ensures r == if task in auctions then NextBest(auctions[task].ranked, excluded) else None
    {
      if task !in auctions {
        return None;
      }
      var ranked := auctions[task].ranked;
      for i := 0 to |ranked|
        invariant NextBest(ranked, excluded) == NextBest(ranked[i..], excluded)
      {
        if ranked[i].bid.nodeId !in excluded && ranked[i].score > 0.0 {
          return Some(ranked[i]);
        }
      }
      r := None;
    }

    /** A task that moved to another node; nothing else about its auction changes. */
    method RecordAward(task: string, award: Award)
      requires Valid() && task in auctions
      modifies this
      ensures Valid() && auctions == old(auctions)[task := old(auctions)[task].(award := Some(award))]
    {
      auctions := auctions[task := auctions[task].(award := Some(award))];
    }
  }

  function Revealed(b: Bid, salt: string, cost: Option<real>, duration: Option<real>, capability: Option<real>): Bid {
    b.(salt := salt,
       cost := if cost.Some? then cost.value else b.cost,
       duration := if duration.Some? then duration.value else b.duration,
       capability := if capability.Some? then capability.value else b.capability)
  }

  /** Whatever values were sent in place of those of a bid, revealing its own brings the bid back. */
  lemma RevealRestores(b: Bid, salt: string, cost: real, duration: real, capability: real)
    ensures var hidden := b.(cost := cost, duration := duration, capability := capability);
      && Revealed(hidden, salt, Some(b.cost), Some(b.duration), Some(b.capability)) == b.(salt := salt)
      && Revealed(b, salt, None, None, None) == b.(salt := salt)
  {
  }

  /** So a bid that was committed to with a digest opens when it is revealed. */
  lemma CommittedBidOpens(digest: Digest, b: Bid, salt: string, cost: real, duration: real, capability: real)
    requires salt != "" && b.commitment == digest(b.(salt := salt), salt)
    ensures var hidden := b.(cost := cost, duration := duration, capability := capability);
      Opens(digest, Revealed(hidden, salt, Some(b.cost), Some(b.duration), Some(b.capability)))
  {
    RevealRestores(b, salt, cost, duration, capability);
  }

  /** A duration of zero counts as none. */
  function LeaseTime(d: Option<real>, default: real): real {
    if d.Some? && d.value != 0.0 then d.value else default
  }

  function AwardTo(winner: Option<Ranked>, task: string, leaseId: string, ttl: real, now: real): Option<Award> {
    if winner.None? then None
    else Some(Award(task, winner.value.bid.nodeId, leaseId, ttl, now, winner.value.bid.bidId, winner.value.score))
  }

  /** An award exactly when there is a winner, and then to its node, for its bid and at its score. */
  ghost predicate Awards(award: Option<Award>, winner: Option<Ranked>, task: string, leaseId: string, ttl: real,
                         now: real) {
    && (award.Some? <==> winner.Some?)
    && (award.Some? ==>
          var a, w := award.value, winner.value;
          && a.taskId == task && a.nodeId == w.bid.nodeId && a.bidId == w.bid.bidId && a.score == w.score
          && a.leaseId == leaseId && a.leaseDuration == ttl && a.awardedAt == now)
  }

  /** What closing gives: nothing for an unknown task, the old award if there is one, or that of the winner. */
  ghost predicate ClosesWith(before: map<string, Record>, digest: Digest, task: string, score: Bid -> real,
                             leaseId: string, ttl: real, now: real, award: Option<Award>) {
    if task !in before then award == None
    else if before[task].closed && before[task].award.Some? then award == before[task].award
    else Awards(award, Decide(digest, before[task].bids, score, task).winner, task, leaseId, ttl, now)
  }

  /** Opening a bid breaks its seal, and nothing else about it changes. */
  ghost predicate OnlyUnsealed(digest: Digest, before: seq<Bid>, after: seq<Bid>) {
    && |after| == |before|
    && forall i :: 0 <= i < |before| ==>
         after[i].(sealed := before[i].sealed) == before[i] && (Opens(digest, before[i]) ==> !after[i].sealed)
  }

  /** The auction is closed with its award, and all others stay; one that was awarded before is left alone. */
  ghost predicate ClosesAuction(before: map<string, Record>, digest: Digest, task: string, score: Bid -> real,
                                award: Option<Award>, after: map<string, Record>) {
    if task !in before || (before[task].closed && before[task].award.Some?) then after == before
    else
      var r, o := before[task], Decide(digest, before[task].bids, score, task);
      && after.Keys == before.Keys && (forall t :: t in before && t != task ==> after[t] == before[t])
      && after[task].announcement == r.announcement && after[task].closed && after[task].rejections == o.rejections
      && after[task].award == (if award.Some? then award else r.award) && OnlyUnsealed(digest, r.bids, after[task].bids)
      && (o.ranked != [] ==> after[task].ranked == o.ranked)
  }

  /** The record after closing; without valid bids the ranking is not touched. */
  function Closed(r: Record, digest: Digest, o: Outcome, award: Option<Award>): Record {
    Record(r.announcement, Unsealed(digest, r.bids), true, if award.Some? then award else r.award, o.rejections,
           if Opened(digest, r.bids) == [] then r.ranked else o.ranked)
  }

  lemma {:induction false} DescendingFrom(rs: seq<Ranked>, i: nat)
    requires Descending(rs) && i < |rs|
    ensures rs[i].score <= rs[0].score
    decreases i
  {
    if i > 0 {
      DescendingFrom(rs[1..], i - 1);
    }
  }

  lemma FirstWins(rs: seq<Ranked>, winner: Option<Ranked>)
    requires Descending(rs)
    requires winner.None? ==> forall i :: 0 <= i < |rs| ==> rs[i].score <= 0.0
    requires winner.Some? ==> exists i :: 0 <= i < |rs| && winner.value == rs[i] && rs[i].score > 0.0
                                        && forall j :: 0 <= j < i ==> rs[j].score <= 0.0
    ensures winner == Winner(rs)
  {
    if winner.Some? {
      var i :| && 0 <= i < |rs| && winner.value == rs[i] && rs[i].score > 0.0
               && forall j :: 0 <= j < i ==> rs[j].score <= 0.0;
      DescendingFrom(rs, i);
    }
  }
}

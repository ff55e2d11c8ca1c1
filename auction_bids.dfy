/**
 * The auction's bid table and the choice of its winner. The table is the
 * object `auctionBets` of the question view; its keys are team ids, which
 * `Object.entries` enumerates in ascending numeric order, so it is kept here
 * as a list of entries with strictly ascending team ids.
 */
module AuctionBids {
  import opened Wrappers
  import opened GameData

  /** One entry of the table: a team id and that team's bid. */
  datatype Bet = Bet(team: nat, amount: int)

  predicate KeysAscending(bets: seq<Bet>) {
    forall i, j :: 0 <= i < j < |bets| ==> bets[i].team < bets[j].team
  }

  predicate AllPositive(bets: seq<Bet>) {
    forall i :: 0 <= i < |bets| ==> bets[i].amount > 0
  }

  /** What every table built by accepted bids satisfies. */
  predicate WellFormed(bets: seq<Bet>) {
    KeysAscending(bets) && AllPositive(bets)
  }

  /** `auctionBets[team]` */
  function Lookup(bets: seq<Bet>, team: nat): (r: Option<int>)
    ensures r.None? <==> forall i :: 0 <= i < |bets| ==> bets[i].team != team
    ensures r.Some? ==> Bet(team, r.value) in bets
  {
    if bets == [] then None
    else if bets[0].team == team then Some(bets[0].amount)
    else Lookup(bets[1..], team)
  }

  /** `auctionBets[team] || 0`: the team's standing bid, 0 when it has none. */
  function PreviousBid(bets: seq<Bet>, team: nat): int {
    Lookup(bets, team).GetOr(0)
  }

  /** `{ ...prev, [team]: amount }`: replace the team's entry, or add it in key order. */
  function Put(bets: seq<Bet>, team: nat, amount: int): (r: seq<Bet>)
    requires KeysAscending(bets)
    ensures KeysAscending(r)
    ensures forall e :: e in r <==> e == Bet(team, amount) || (e in bets && e.team != team)
  {
    if bets == [] then [Bet(team, amount)]
    else if bets[0].team == team then
      assert forall e :: e in bets[1..] ==> e.team != team by {
        forall e | e in bets[1..] ensures e.team != team {
          var k :| 0 <= k < |bets[1..]| && bets[1..][k] == e;
          assert bets[k + 1] == e;
        }
      }
      [Bet(team, amount)] + bets[1..]
    else if bets[0].team > team then
      [Bet(team, amount)] + bets
    else
      var rest := Put(bets[1..], team, amount);
      assert forall k :: 0 <= k < |rest| ==> bets[0].team < rest[k].team by {
        forall k | 0 <= k < |rest| ensures bets[0].team < rest[k].team {
          assert rest[k] in rest;
          if rest[k] != Bet(team, amount) {
            var m :| 0 <= m < |bets[1..]| && bets[1..][m] == rest[k];
            assert bets[m + 1] == rest[k];
          }
        }
      }
      [bets[0]] + rest
  }

  /** In a table with distinct keys, an entry is what lookup finds. */
  lemma {:induction false} LookupMember(bets: seq<Bet>, team: nat, amount: int)
    requires KeysAscending(bets) && Bet(team, amount) in bets
    ensures Lookup(bets, team) == Some(amount)
  {
    if bets[0] != Bet(team, amount) {
      assert bets[0].team != team by {
        var k :| 0 <= k < |bets| && bets[k] == Bet(team, amount);
      }
      assert Bet(team, amount) in bets[1..];
      LookupMember(bets[1..], team, amount);
    }
  }

  /** Recording a bid changes the team's own entry and no other. */
  lemma PutLookup(bets: seq<Bet>, team: nat, amount: int, other: nat)
    requires KeysAscending(bets)
    ensures Lookup(Put(bets, team, amount), other) == if other == team then Some(amount) else Lookup(bets, other)
  {
    var r := Put(bets, team, amount);
    if other == team {
      LookupMember(r, team, amount);
    } else {
      match Lookup(bets, other)
      case Some(v) =>
        LookupMember(r, other, v);
      case None =>
        forall i | 0 <= i < |r| ensures r[i].team != other {
          assert r[i] in r;
        }
    }
  }

  lemma PreviousBidNonNegative(bets: seq<Bet>, team: nat)
    requires AllPositive(bets)
    ensures PreviousBid(bets, team) >= 0
  {
    if Lookup(bets, team).Some? {
      var k :| 0 <= k < |bets| && bets[k] == Bet(team, Lookup(bets, team).value);
    }
  }

  /** `bid <= team.score && bid > (auctionBets[teamId] || 0)` */
  predicate BidAcceptable(teamScore: int, bets: seq<Bet>, team: nat, bid: int) {
    bid <= teamScore && bid > PreviousBid(bets, team)
  }

  /**
   * An accepted bid is positive, becomes the team's standing bid, raises it
   * strictly, and leaves every other team's standing bid as it was.
   */
  lemma AcceptedBidRaises(teamScore: int, bets: seq<Bet>, team: nat, bid: int)
    requires WellFormed(bets)
    requires BidAcceptable(teamScore, bets, team, bid)
    ensures bid > 0
    ensures WellFormed(Put(bets, team, bid))
    ensures PreviousBid(Put(bets, team, bid), team) == bid > PreviousBid(bets, team)
    ensures forall other: nat :: other != team ==> PreviousBid(Put(bets, team, bid), other) == PreviousBid(bets, other)
  {
    var r := Put(bets, team, bid);
    PreviousBidNonNegative(bets, team);
    forall i | 0 <= i < |r| ensures r[i].amount > 0 {
      assert r[i] in r;
      if r[i] != Bet(team, bid) {
        var k :| 0 <= k < |bets| && bets[k] == r[i];
      }
    }
    PutLookup(bets, team, bid, team);
    forall other: nat | other != team
      ensures PreviousBid(r, other) == PreviousBid(bets, other)
    {
      PutLookup(bets, team, bid, other);
    }
  }

  // ---------------------------------------------------------------------
  // The winner: a fold that keeps the strictly larger bid
  // ---------------------------------------------------------------------

  /** The accumulator of the fold: `{ teamId, bid }`, starting from `{ null, 0 }`. */
  datatype Leader = Leader(teamId: Option<nat>, bid: int)

  const NoLeader := Leader(None, 0)

  /** `bid > max.bid ? { teamId, bid } : max` */
  function Step(max: Leader, e: Bet): Leader {
    if e.amount > max.bid then Leader(Some(e.team), e.amount) else max
  }

  function FoldLeader(bets: seq<Bet>, acc: Leader): Leader {
    if bets == [] then acc else FoldLeader(bets[1..], Step(acc, bets[0]))
  }

  /** `Object.entries(auctionBets).reduce(..., { teamId: null, bid: 0 })` */
  function AuctionWinner(bets: seq<Bet>): Leader {
    FoldLeader(bets, NoLeader)
  }

  /** `if (winner.teamId)`: a team was chosen, and its id is not the falsy 0. */
  predicate HasWinner(w: Leader) {
    IsTruthy(w.teamId)
  }

  /**
   * The fold ends on the start value when no bid beats it, and otherwise on the
   * first entry holding the largest bid.
   */
  lemma {:induction false} FoldLeaderFindsFirstMaximum(bets: seq<Bet>, acc: Leader)
    ensures FoldLeader(bets, acc).bid >= acc.bid
    ensures forall i :: 0 <= i < |bets| ==> bets[i].amount <= FoldLeader(bets, acc).bid
    ensures var r := FoldLeader(bets, acc);
            r == acc ||
            exists i :: 0 <= i < |bets| && r == Leader(Some(bets[i].team), bets[i].amount)
                        && acc.bid < r.bid && forall j :: 0 <= j < i ==> bets[j].amount < r.bid
  {
    if bets != [] {
      var next := Step(acc, bets[0]);
      var rest := bets[1..];
      FoldLeaderFindsFirstMaximum(rest, next);
      var r := FoldLeader(rest, next);
      assert r == FoldLeader(bets, acc);
      forall i | 0 <= i < |bets| ensures bets[i].amount <= r.bid {
        if i > 0 {
          assert bets[i] == rest[i - 1];
        }
      }
      if r == next {
        if next != acc {
          assert r == Leader(Some(bets[0].team), bets[0].amount);
        }
      } else {
        var i :| 0 <= i < |rest| && r == Leader(Some(rest[i].team), rest[i].amount)
                 && next.bid < r.bid && forall j :: 0 <= j < i ==> rest[j].amount < r.bid;
        assert bets[i + 1] == rest[i];
        forall j | 0 <= j < i + 1 ensures bets[j].amount < r.bid {
          if j > 0 {
            assert bets[j] == rest[j - 1];
          }
        }
      }
    }
  }

  /**
   * The winner holds the largest bid; it is the first entry with that bid;
   * there is one exactly when some bid is positive, and its bid is then positive.
   */
  lemma WinnerIsFirstHighestBid(bets: seq<Bet>)
    ensures var w := AuctionWinner(bets);
            w.bid >= 0 && forall i :: 0 <= i < |bets| ==> bets[i].amount <= w.bid
    ensures var w := AuctionWinner(bets);
            w.teamId.None? <==> w == NoLeader && forall i :: 0 <= i < |bets| ==> bets[i].amount <= 0
    ensures var w := AuctionWinner(bets);
            w.teamId.Some? ==>
              w.bid > 0 &&
              exists i :: 0 <= i < |bets| && bets[i] == Bet(w.teamId.value, w.bid)
                          && forall j :: 0 <= j < i ==> bets[j].amount < w.bid
  {
    FoldLeaderFindsFirstMaximum(bets, NoLeader);
  }

  /** On equal top bids the lowest team id wins, since the keys are enumerated in ascending order. */
  lemma TieGoesToLowestTeamId(bets: seq<Bet>)
    requires KeysAscending(bets)
    ensures var w := AuctionWinner(bets);
            w.teamId.Some? ==>
              forall i :: 0 <= i < |bets| && bets[i].amount == w.bid ==> w.teamId.value <= bets[i].team
  {
    WinnerIsFirstHighestBid(bets);
    var w := AuctionWinner(bets);
    if w.teamId.Some? {
      var k :| 0 <= k < |bets| && bets[k] == Bet(w.teamId.value, w.bid)
               && forall j :: 0 <= j < k ==> bets[j].amount < w.bid;
      forall i | 0 <= i < |bets| && bets[i].amount == w.bid ensures w.teamId.value <= bets[i].team {
        assert i >= k;
      }
    }
  }

  /**
   * `if (winner.teamId)` succeeds exactly when some bid is positive, provided no
   * team has the id 0; every team id in the game is at least 1.
   */
  lemma HasWinnerIffPositiveBid(bets: seq<Bet>)
    requires forall i :: 0 <= i < |bets| ==> bets[i].team != 0
    ensures HasWinner(AuctionWinner(bets)) <==> exists i :: 0 <= i < |bets| && bets[i].amount > 0
  {
    WinnerIsFirstHighestBid(bets);
  }

  /** In a table of accepted bids by teams with ids from 1, the auction has a winner exactly when anyone bid. */
  lemma HasWinnerIffAnyBid(bets: seq<Bet>)
    requires WellFormed(bets)
    requires forall i :: 0 <= i < |bets| ==> bets[i].team != 0
    ensures HasWinner(AuctionWinner(bets)) <==> bets != []
  {
    HasWinnerIffPositiveBid(bets);
    if bets != [] {
      assert bets[0].amount > 0;
    }
  }

  /** A bid by a team with the id 0 is chosen by the fold but fails the falsy test. */
  lemma ZeroTeamIdIsNoWinner()
    ensures AuctionWinner([Bet(0, 100)]) == Leader(Some(0), 100)
    ensures !HasWinner(AuctionWinner([Bet(0, 100)]))
  {
  }

  /** In a table of accepted bids, someone wins exactly when anyone bid. */
  lemma WinnerExistsIffAnyBid(bets: seq<Bet>)
    requires WellFormed(bets)
    ensures AuctionWinner(bets).teamId.Some? <==> bets != []
  {
    WinnerIsFirstHighestBid(bets);
    if bets != [] {
      assert bets[0].amount > 0;
    }
  }

  /** Bids 200 for team 1 and 150 for team 2: team 1 wins with stake 200. */
  lemma HigherBidWins()
    ensures AuctionWinner([Bet(1, 200), Bet(2, 150)]) == Leader(Some(1), 200)
  {
  }

  /** Equal bids of 200 from teams 1 and 2: team 1 wins. */
  lemma EqualBidsFavourFirstEntry()
    ensures AuctionWinner([Bet(1, 200), Bet(2, 200)]) == Leader(Some(1), 200)
  {
  }
}

/**
 * The question view: its countdown, the auction's bidding stage, the
 * answering stage, the payout it reports for a verdict, and closing.
 * The callbacks it fires on the session (`onClose`, `onAnswer`) are
 * returned as a `ModalEvent`; the one-second delays before a tick and
 * before reporting a verdict are taken as explicit steps.
 */
module QuestionModal {
  import opened Wrappers
  import opened GameData
  import opened AuctionBids

  /** `auctionStage`; the comment in the source also names a `result` stage, which is never entered. */
  datatype AuctionStage = Bidding | Answering

  /** The callbacks fired on the session, in order. */
  datatype ModalEvent =
    | NoEvent
    | Close
    | AnswerThenClose(question: Question, teamId: Option<nat>, correct: bool, payout: int)

  /** What became of a bid. `TeamMissing`: no team has that id, where `.score` of `undefined` throws. */
  datatype BidOutcome = Accepted | Rejected | TeamMissing

  const AuctionBiddingSeconds: nat := 60
  const QuestionSeconds: nat := 50
  const AuctionAnswerSeconds: nat := 30
  /**
   * `handleClose` resets the countdown to 30 for a question without an auction.
   * The reset is never shown: closing unmounts the view, and a reopened question
   * starts a fresh view at 50 (or 60).
   */
  const CloseResetSeconds: nat := 30

  /** The payout reported with a verdict, one case per modifier. */
  function Payout(special: Special, correct: bool, score: int, stake: int): int {
    match special
    case DoubleScore => 2 * score
    case Auction => if correct then 2 * stake else -stake
    case Final => if correct then 2 * score else 0
    case _ => score
  }

  // ---------------------------------------------------------------------
  // The countdown as a function of its ticks
  // ---------------------------------------------------------------------

  /** One tick: the value drops by one only while the timer runs and time remains. */
  function Ticked(active: bool, t: int): (r: int)
    ensures t >= 0 ==> r >= 0
    ensures r == t || (active && t > 0 && r == t - 1)
  {
    if active && t > 0 then t - 1 else t
  }

  function AfterTicks(active: bool, t: int, n: nat): int {
    if n == 0 then t else AfterTicks(active, Ticked(active, t), n - 1)
  }

  /** A running countdown loses one second per tick and stops at 0; a stopped one keeps its value. */
  lemma {:induction false} CountdownStopsAtZero(active: bool, t: nat, n: nat)
    ensures AfterTicks(active, t, n) == if active then (if t >= n then t - n else 0) else t
  {
    if n > 0 {
      CountdownStopsAtZero(active, Ticked(active, t), n - 1);
    }
  }

  // ---------------------------------------------------------------------
  // The view's state
  // ---------------------------------------------------------------------

  class Modal {
    const question: Question
    var showAnswer: bool
    var selectedTeam: Option<nat>
    var isCorrect: Option<bool>
    var timeLeft: int
    var timerActive: bool
    var auctionBets: seq<Bet>
    var currentBid: int
    var auctionStage: AuctionStage

    /**
     * The countdown is never negative, the bid table holds positive bids under
     * distinct ascending keys, and the answering stage belongs to an auction
     * and has its winner as the team and the winning bid as the stake (the bid
     * controls are gone by then, so the table no longer changes).
     */
    ghost predicate Valid()
      reads this
    {
      && timeLeft >= 0
      && WellFormed(auctionBets)
      && currentBid >= 0
      && (auctionStage == Answering ==> selectedTeam.Some? && currentBid > 0)
      && (auctionStage == Answering ==>
            && question.special == Auction
            && HasWinner(AuctionWinner(auctionBets))
            && selectedTeam == AuctionWinner(auctionBets).teamId
            && currentBid == AuctionWinner(auctionBets).bid)
    }

    /** Opening the view on a question. */
    constructor (q: Question)
      ensures Valid()
      ensures question == q
      ensures timeLeft == (if q.special == Auction then AuctionBiddingSeconds else QuestionSeconds)
      ensures timerActive && !showAnswer && selectedTeam == None && isCorrect == None
      ensures auctionBets == [] && currentBid == 0 && auctionStage == Bidding
    {
      question := q;
      showAnswer := false;
      selectedTeam := None;
      isCorrect := None;
      timeLeft := if q.special == Auction then AuctionBiddingSeconds else QuestionSeconds;
      timerActive := true;
      auctionBets := [];
      currentBid := 0;
      auctionStage := Bidding;
    }

    /** Whether the "correct" / "incorrect" buttons are on screen. */
    predicate VerdictButtonsShown()
      reads this
      ensures VerdictButtonsShown() ==> question.special == NoSpecial || question.special == Auction
      ensures VerdictButtonsShown() ==> showAnswer
    {
      && (question.special == NoSpecial || (question.special == Auction && auctionStage == Answering))
      && showAnswer
      && (IsTruthy(selectedTeam) || question.special == Auction)
    }

    /** The first effect, taken as one tick of the countdown. */
    method Tick()
      requires Valid()
      modifies this`timeLeft
      ensures Valid()
      ensures timeLeft == Ticked(timerActive, old(timeLeft))
      ensures old(timeLeft) > 0 && timerActive ==> timeLeft == old(timeLeft) - 1
    {
      if timerActive && timeLeft > 0 {
        timeLeft := timeLeft - 1;
      }
    }

    /**
     * `handleAuctionEnd`: hand the question to the highest bidder, or close when
     * nobody bid. Only the expiry effect calls it, and only for an auction in
     * its bidding stage.
     */
    method HandleAuctionEnd() returns (ev: ModalEvent)
      requires Valid()
      requires question.special == Auction && auctionStage == Bidding
      modifies this`selectedTeam, this`currentBid, this`auctionStage, this`timeLeft, this`timerActive
      ensures Valid()
      ensures var w := AuctionWinner(auctionBets);
              HasWinner(w) ==>
                && ev == NoEvent
                && selectedTeam == w.teamId && currentBid == w.bid && currentBid > 0
                && auctionStage == Answering && timeLeft == AuctionAnswerSeconds && timerActive
      ensures !HasWinner(AuctionWinner(auctionBets)) ==> ev == Close && unchanged(this)
    {
      var winner := AuctionWinner(auctionBets);
      WinnerIsFirstHighestBid(auctionBets);
      if HasWinner(winner) {
        selectedTeam := winner.teamId;
        currentBid := winner.bid;
        auctionStage := Answering;
        timeLeft := AuctionAnswerSeconds;
        timerActive := true;
        ev := NoEvent;
      } else {
        ev := Close;
      }
    }

    /**
     * The second effect: at 0 the timer stops; an auction still in its bidding
     * stage is ended, any other question has its answer revealed.
     */
    method SettleExpiry() returns (ev: ModalEvent)
      requires Valid()
      modifies this`selectedTeam, this`currentBid, this`auctionStage, this`timeLeft, this`timerActive, this`showAnswer
      ensures Valid()
      ensures old(timeLeft) != 0 ==> ev == NoEvent && unchanged(this)
      ensures old(timeLeft) == 0 && !(question.special == Auction && old(auctionStage) == Bidding) ==>
                && ev == NoEvent && !timerActive && showAnswer && timeLeft == 0
                && unchanged(this`selectedTeam, this`currentBid, this`auctionStage)
      ensures old(timeLeft) == 0 && question.special == Auction && old(auctionStage) == Bidding ==>
                var w := AuctionWinner(auctionBets);
                && unchanged(this`showAnswer)
                && (HasWinner(w) ==>
                      && ev == NoEvent
                      && selectedTeam == w.teamId && currentBid == w.bid
                      && auctionStage == Answering && timeLeft == AuctionAnswerSeconds && timerActive)
                && (!HasWinner(w) ==>
                      && ev == Close && !timerActive && timeLeft == 0
                      && unchanged(this`selectedTeam, this`currentBid, this`auctionStage))
    {
      ev := NoEvent;
      if timeLeft == 0 {
        timerActive := false;
        if question.special == Auction && auctionStage == Bidding {
          ev := HandleAuctionEnd();
        } else if !showAnswer {
          showAnswer := true;
        }
      }
    }

    /**
     * `handlePlaceBid`: recorded only when the bid is within the first
     * matching team's score and above that team's standing bid. The bid
     * buttons exist only in an auction's bidding stage.
     */
    method HandlePlaceBid(teams: seq<Team>, teamId: nat, bid: int) returns (outcome: BidOutcome)
      requires Valid()
      requires question.special == Auction && auctionStage == Bidding
      modifies this`auctionBets
      ensures Valid()
      ensures FindTeam(teams, teamId).None? ==> outcome == TeamMissing && auctionBets == old(auctionBets)
      ensures FindTeam(teams, teamId).Some? ==>
                var ok := BidAcceptable(FindTeam(teams, teamId).value.score, old(auctionBets), teamId, bid);
                && outcome == (if ok then Accepted else Rejected)
                && auctionBets == (if ok then Put(old(auctionBets), teamId, bid) else old(auctionBets))
    {
      var team := FindTeam(teams, teamId);
      if team.None? {
        outcome := TeamMissing;
      } else if bid <= team.value.score && bid > PreviousBid(auctionBets, teamId) {
        AcceptedBidRaises(team.value.score, auctionBets, teamId, bid);
        auctionBets := Put(auctionBets, teamId, bid);
        outcome := Accepted;
      } else {
        outcome := Rejected;
      }
    }

    /**
     * The custom bid field: the parsed number (0 when parsing fails) is passed on
     * only when it beats the team's standing bid. The field exists only in an
     * auction's bidding stage.
     */
    method HandleBidInput(teams: seq<Team>, teamId: nat, parsed: Option<int>) returns (outcome: Option<BidOutcome>)
      requires Valid()
      requires question.special == Auction && auctionStage == Bidding
      modifies this`auctionBets
      ensures Valid()
      ensures outcome.None? <==> parsed.GetOr(0) <= PreviousBid(old(auctionBets), teamId)
      ensures outcome.Some? ==> (outcome.value != TeamMissing <==> FindTeam(teams, teamId).Some?)
      ensures outcome == Some(Accepted) <==>
                outcome.Some? && FindTeam(teams, teamId).Some? && parsed.GetOr(0) <= FindTeam(teams, teamId).value.score
      ensures auctionBets == if outcome == Some(Accepted) then Put(old(auctionBets), teamId, parsed.GetOr(0)) else old(auctionBets)
    {
      var bid := parsed.GetOr(0);
      if bid > PreviousBid(auctionBets, teamId) {
        var o := HandlePlaceBid(teams, teamId, bid);
        outcome := Some(o);
      } else {
        outcome := None;
      }
    }

    /**
     * `handleTeamSelect`: choose who answers. The team buttons are shown only
     * once the answer is revealed, and only for a question without a modifier;
     * an auction's answering team is its winner and cannot be changed.
     */
    method HandleTeamSelect(teamId: nat)
      requires Valid()
      requires showAnswer && question.special == NoSpecial
      modifies this`selectedTeam
      ensures Valid() && selectedTeam == Some(teamId)
    {
      selectedTeam := Some(teamId);
    }

    /**
     * The "show answer" button, on screen only before the answer is shown, and
     * only for a question without a modifier or an auction in its answering
     * stage: reveal and stop the countdown; it is disabled once the time is up.
     */
    method RevealAnswer()
      requires Valid()
      requires !showAnswer
      requires question.special == NoSpecial || (question.special == Auction && auctionStage == Answering)
      modifies this`showAnswer, this`timerActive
      ensures Valid()
      ensures timeLeft != 0 ==> showAnswer && !timerActive
      ensures timeLeft == 0 ==> unchanged(this)
    {
      if timeLeft != 0 {
        showAnswer := true;
        timerActive := false;
      }
    }

    /**
     * `handleAnswer`: stop the countdown, record the verdict, and report the
     * question, the chosen team, the verdict and the payout for it. Only the
     * verdict buttons call it, so it runs only while they are on screen; the
     * double-score and final rows of the payout are never reached
     * (`JudgedPayoutIsPlainOrAuction`).
     */
    method HandleAnswer(correct: bool) returns (ev: ModalEvent)
      requires Valid() && VerdictButtonsShown()
      modifies this`timerActive, this`isCorrect
      ensures Valid() && !timerActive && isCorrect == Some(correct)
      ensures ev == AnswerThenClose(question, selectedTeam, correct,
                                    Payout(question.special, correct, question.score, currentBid))
      ensures question.special == Auction ==>
                var w := AuctionWinner(auctionBets);
                && HasWinner(w)
                && ev.teamId == w.teamId
                && ev.payout == (if correct then 2 * w.bid else -w.bid)
    {
      timerActive := false;
      isCorrect := Some(correct);
      var finalScore := question.score;
      if question.special == DoubleScore {
        finalScore := finalScore * 2;
      } else if question.special == Auction {
        finalScore := if correct then currentBid * 2 else -currentBid;
      } else if question.special == Final {
        finalScore := if correct then question.score * 2 else 0;
      }
      ev := AnswerThenClose(question, selectedTeam, correct, finalScore);
    }

    /** `handleClose`: reset the view's state, then ask the session to close it. */
    method HandleClose() returns (ev: ModalEvent)
      requires Valid()
      modifies this
      ensures Valid() && ev == Close
      ensures !showAnswer && selectedTeam == None && isCorrect == None
      ensures auctionBets == [] && currentBid == 0 && auctionStage == Bidding
      ensures timeLeft == (if question.special == Auction then AuctionBiddingSeconds else CloseResetSeconds)
      ensures timerActive
    {
      showAnswer := false;
      selectedTeam := None;
      isCorrect := None;
      auctionBets := [];
      currentBid := 0;
      auctionStage := Bidding;
      timeLeft := if question.special == Auction then AuctionBiddingSeconds else CloseResetSeconds;
      timerActive := true;
      ev := Close;
    }
  }

  // ---------------------------------------------------------------------
  // Properties of the payout
  // ---------------------------------------------------------------------

  /** Only an auction and a final question pay differently for a wrong answer. */
  lemma VerdictMattersOnlyForAuctionAndFinal(special: Special, score: int, stake: int)
    ensures Payout(special, true, score, stake) != Payout(special, false, score, stake) ==>
              special == Auction || special == Final
  {
  }

  /** Only an auction's payout depends on the stake; every other payout is a multiple of the question's value. */
  lemma StakeMattersOnlyForAuction(special: Special, correct: bool, score: int, stake: int, stake': int)
    ensures special != Auction ==> Payout(special, correct, score, stake) == Payout(special, correct, score, stake')
    ensures special != Auction ==> Payout(special, correct, score, stake) in {0, score, 2 * score}
  {
  }

  /**
   * With a positive value and stake, a right answer always pays a positive amount,
   * and a wrong one never pays more than a right one.
   */
  lemma RightAnswerPaysAtLeastWrong(special: Special, score: int, stake: int)
    requires score > 0 && stake > 0
    ensures Payout(special, true, score, stake) > 0
    ensures Payout(special, false, score, stake) <= Payout(special, true, score, stake)
  {
  }

  /**
   * Once the verdict buttons are on screen, only the plain and auction rows of
   * the payout can be reported: a double-score or final question cannot be judged
   * in the view at all.
   */
  lemma JudgedPayoutIsPlainOrAuction(m: Modal, correct: bool)
    requires m.VerdictButtonsShown()
    ensures Payout(m.question.special, correct, m.question.score, m.currentBid)
              == if m.question.special == Auction then (if correct then 2 * m.currentBid else -m.currentBid)
                 else m.question.score
  {
  }
}

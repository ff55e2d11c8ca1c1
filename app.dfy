/**
 * The game session: the question bank with its answered flags, the teams
 * and their scores, the current stage, the open question and whether the
 * game has started.
 */
module App {
  import opened Wrappers
  import opened GameData
  import opened QuestionModal

  // ---------------------------------------------------------------------
  // Marking a question answered across stages -> categories -> questions
  // ---------------------------------------------------------------------

  function MarkQuestion(q: Question, id: int): Question {
    if q.id == id then q.(isAnswered := true) else q
  }

  function MarkCategory(c: Category, id: int): Category {
    c.(questions := seq(|c.questions|, k requires 0 <= k < |c.questions| => MarkQuestion(c.questions[k], id)))
  }

  function MarkStage(st: Stage, id: int): Stage {
    st.(categories := seq(|st.categories|, k requires 0 <= k < |st.categories| => MarkCategory(st.categories[k], id)))
  }

  /** The new bank built by `handleAnswer`: every question carrying the id is flagged answered. */
  function MarkAnswered(stages: seq<Stage>, id: int): seq<Stage> {
    seq(|stages|, k requires 0 <= k < |stages| => MarkStage(stages[k], id))
  }

  /** The bank with every answered flag cleared: everything `handleAnswer` must leave alone. */
  function StripQuestion(q: Question): Question {
    q.(isAnswered := false)
  }

  function StripCategory(c: Category): Category {
    c.(questions := seq(|c.questions|, k requires 0 <= k < |c.questions| => StripQuestion(c.questions[k])))
  }

  function StripStage(st: Stage): Stage {
    st.(categories := seq(|st.categories|, k requires 0 <= k < |st.categories| => StripCategory(st.categories[k])))
  }

  function Strip(stages: seq<Stage>): seq<Stage> {
    seq(|stages|, k requires 0 <= k < |stages| => StripStage(stages[k]))
  }

  /** Stage `s`, category `c`, question `k` exists. */
  predicate IsPath(stages: seq<Stage>, s: int, c: int, k: int) {
    0 <= s < |stages| && 0 <= c < |stages[s].categories| && 0 <= k < |stages[s].categories[c].questions|
  }

  function At(stages: seq<Stage>, s: int, c: int, k: int): Question
    requires IsPath(stages, s, c, k)
  {
    stages[s].categories[c].questions[k]
  }

  /** Two banks of the same shape that agree on every question are equal. */
  lemma SameQuestionsSameBank(a: seq<Stage>, b: seq<Stage>)
    requires Strip(a) == Strip(b)
    requires forall s, c, k :: IsPath(a, s, c, k) ==> IsPath(b, s, c, k) && At(a, s, c, k).isAnswered == At(b, s, c, k).isAnswered
    ensures a == b
  {
    assert |a| == |Strip(a)| == |Strip(b)| == |b|;
    forall s | 0 <= s < |a| ensures a[s] == b[s] {
      assert StripStage(a[s]) == Strip(a)[s] == Strip(b)[s] == StripStage(b[s]);
      var ca, cb := a[s].categories, b[s].categories;
      assert |ca| == |StripStage(a[s]).categories| == |StripStage(b[s]).categories| == |cb|;
      forall c | 0 <= c < |ca| ensures ca[c] == cb[c] {
        assert StripCategory(ca[c]) == StripStage(a[s]).categories[c] == StripStage(b[s]).categories[c] == StripCategory(cb[c]);
        var qa, qb := ca[c].questions, cb[c].questions;
        assert |qa| == |StripCategory(ca[c]).questions| == |StripCategory(cb[c]).questions| == |qb|;
        forall k | 0 <= k < |qa| ensures qa[k] == qb[k] {
          assert IsPath(a, s, c, k);
          assert StripQuestion(qa[k]) == StripCategory(ca[c]).questions[k] == StripCategory(cb[c]).questions[k] == StripQuestion(qb[k]);
        }
        assert qa == qb;
      }
      assert ca == cb;
    }
  }

  /**
   * Answering changes nothing but answered flags: the bank keeps its shape
   * and every field, and a question ends up answered exactly when it already
   * was or carries the answered id, whatever its stage and category.
   */
  lemma MarkAnsweredFlags(stages: seq<Stage>, id: int)
    ensures Strip(MarkAnswered(stages, id)) == Strip(stages)
    ensures forall s, c, k :: IsPath(stages, s, c, k) <==> IsPath(MarkAnswered(stages, id), s, c, k)
    ensures forall s, c, k :: IsPath(stages, s, c, k) ==>
              At(MarkAnswered(stages, id), s, c, k).isAnswered == (At(stages, s, c, k).isAnswered || At(stages, s, c, k).id == id)
  {
    var r := MarkAnswered(stages, id);
    assert |Strip(r)| == |Strip(stages)|;
    forall s | 0 <= s < |stages| ensures Strip(r)[s] == Strip(stages)[s] {
      var ca, cb := r[s].categories, stages[s].categories;
      assert |StripStage(r[s]).categories| == |StripStage(stages[s]).categories|;
      forall c | 0 <= c < |cb| ensures StripCategory(ca[c]) == StripCategory(cb[c]) {
        assert |StripCategory(ca[c]).questions| == |StripCategory(cb[c]).questions|;
        forall k | 0 <= k < |cb[c].questions|
          ensures StripCategory(ca[c]).questions[k] == StripCategory(cb[c]).questions[k]
        {
          assert ca[c].questions[k] == MarkQuestion(cb[c].questions[k], id);
        }
      }
      assert StripStage(r[s]).categories == StripStage(stages[s]).categories;
    }
  }

  /** Answering the same id twice is answering it once. */
  lemma MarkAnsweredIdempotent(stages: seq<Stage>, id: int)
    ensures MarkAnswered(MarkAnswered(stages, id), id) == MarkAnswered(stages, id)
  {
    var once := MarkAnswered(stages, id);
    MarkAnsweredFlags(stages, id);
    MarkAnsweredFlags(once, id);
    SameQuestionsSameBank(MarkAnswered(once, id), once);
  }

  /** The order in which two questions are answered does not matter. */
  lemma MarkAnsweredCommutes(stages: seq<Stage>, a: int, b: int)
    ensures MarkAnswered(MarkAnswered(stages, a), b) == MarkAnswered(MarkAnswered(stages, b), a)
  {
    var ab, ba := MarkAnswered(stages, a), MarkAnswered(stages, b);
    MarkAnsweredFlags(stages, a);
    MarkAnsweredFlags(stages, b);
    MarkAnsweredFlags(ab, b);
    MarkAnsweredFlags(ba, a);
    SameQuestionsSameBank(MarkAnswered(ab, b), MarkAnswered(ba, a));
  }

  // ---------------------------------------------------------------------
  // Scores
  // ---------------------------------------------------------------------

  /** `teams.map(...)` of `handleScoreChange`: the matching teams' scores move by `change`, floored at 0. */
  function ChangeScore(teams: seq<Team>, id: nat, change: int): seq<Team> {
    seq(|teams|, i requires 0 <= i < |teams| =>
      if teams[i].id == id then teams[i].(score := Floor0(teams[i].score + change)) else teams[i])
  }

  /**
   * Only the matching teams change, and only in their score, which becomes
   * max(0, score + change); the list keeps its length and order.
   */
  lemma ChangeScoreFrame(teams: seq<Team>, id: nat, change: int)
    ensures |ChangeScore(teams, id, change)| == |teams|
    ensures forall i :: 0 <= i < |teams| ==> ChangeScore(teams, id, change)[i].(score := teams[i].score) == teams[i]
    ensures forall i :: 0 <= i < |teams| && teams[i].id != id ==> ChangeScore(teams, id, change)[i] == teams[i]
    ensures forall i :: 0 <= i < |teams| && teams[i].id == id ==>
              var s := ChangeScore(teams, id, change)[i].score;
              s >= 0 && s >= teams[i].score + change && (s == 0 || s == teams[i].score + change)
  {
  }

  /**
   * The teams after `handleAnswer`: the responding team gains the question's
   * value on a right answer and loses it on a wrong one. No team (`null`)
   * matches nothing.
   */
  function AnswerTeams(teams: seq<Team>, q: Question, teamId: Option<nat>, correct: bool): seq<Team> {
    match teamId
    case None => teams
    case Some(id) => ChangeScore(teams, id, if correct then q.score else -q.score)
  }

  /** The two ways a score moves during play. */
  datatype ScoreOp =
    | Answered(q: Question, teamId: Option<nat>, correct: bool)
    | Adjusted(team: nat, change: int)

  function ApplyOp(teams: seq<Team>, op: ScoreOp): seq<Team> {
    match op
    case Answered(q, t, c) => AnswerTeams(teams, q, t, c)
    case Adjusted(t, d) => ChangeScore(teams, t, d)
  }

  function ApplyOps(teams: seq<Team>, ops: seq<ScoreOp>): seq<Team>
    decreases ops
  {
    if ops == [] then teams else ApplyOps(ApplyOp(teams, ops[0]), ops[1..])
  }

  /** One score operation keeps every score non-negative and leaves the team list's ids in place. */
  lemma ApplyOpKeepsScores(teams: seq<Team>, op: ScoreOp)
    requires ScoresNonNegative(teams)
    ensures ScoresNonNegative(ApplyOp(teams, op))
    ensures |ApplyOp(teams, op)| == |teams|
    ensures forall i :: 0 <= i < |teams| ==> ApplyOp(teams, op)[i].id == teams[i].id
  {
    match op
    case Answered(q, t, c) =>
      if t.Some? {
        ChangeScoreFrame(teams, t.value, if c then q.score else -q.score);
      }
    case Adjusted(t, d) =>
      ChangeScoreFrame(teams, t, d);
  }

  /** Scores that start non-negative stay non-negative through any run of answers and adjustments. */
  lemma {:induction false} ScoresStayNonNegative(teams: seq<Team>, ops: seq<ScoreOp>)
    requires ScoresNonNegative(teams)
    ensures ScoresNonNegative(ApplyOps(teams, ops))
    ensures |ApplyOps(teams, ops)| == |teams|
    ensures forall i :: 0 <= i < |teams| ==> ApplyOps(teams, ops)[i].id == teams[i].id
    decreases ops
  {
    if ops != [] {
      ApplyOpKeepsScores(teams, ops[0]);
      ScoresStayNonNegative(ApplyOp(teams, ops[0]), ops[1..]);
    }
  }

  /**
   * The score a verdict applies is plus or minus the question's value, whatever
   * modifier the question carries and whatever payout the view reported.
   */
  lemma AnswerAppliesQuestionValue(teams: seq<Team>, q: Question, id: nat, correct: bool, i: int)
    requires 0 <= i < |teams| && teams[i].id == id
    ensures |AnswerTeams(teams, q, Some(id), correct)| == |teams|
    ensures AnswerTeams(teams, q, Some(id), correct)[i].score
              == Floor0(teams[i].score + (if correct then q.score else -q.score))
  {
  }

  /**
   * An auction won with a stake of 300 on a 100-point question: the view reports
   * a payout of 600 for a right answer, the session adds 100.
   */
  lemma AuctionPayoutIsNotApplied()
    ensures var q := Question(1, "", "", 100, Auction, false);
            && Payout(q.special, true, q.score, 300) == 600
            && AnswerTeams([Team(1, "A", 0, "c")], q, Some(1), true)[0].score == 100
  {
  }

  /** No team answered (`null`), or no team has the id: the teams are unchanged. */
  lemma AnswerWithoutTeam(teams: seq<Team>, q: Question, teamId: Option<nat>, correct: bool)
    requires teamId.None? || forall i :: 0 <= i < |teams| ==> teams[i].id != teamId.value
    ensures AnswerTeams(teams, q, teamId, correct) == teams
  {
  }

  // ---------------------------------------------------------------------
  // Stage navigation
  // ---------------------------------------------------------------------

  /** `nextStage` (forward) and `prevStage` (back) on an index among `count` stages. */
  function Navigate(current: int, count: nat, forward: bool): int {
    if forward then (if current < count - 1 then current + 1 else current)
    else (if current > 0 then current - 1 else current)
  }

  /** The first stage, or any stage of a non-empty bank. */
  predicate StageInRange(current: int, count: nat) {
    current == 0 || 0 <= current < count
  }

  function NavigateAll(current: int, count: nat, moves: seq<bool>): int
    decreases moves
  {
    if moves == [] then current else NavigateAll(Navigate(current, count, moves[0]), count, moves[1..])
  }

  /** Each move keeps the index in range and changes it by at most one. */
  lemma NavigateStaysInRange(current: int, count: nat, forward: bool)
    requires StageInRange(current, count)
    ensures StageInRange(Navigate(current, count, forward), count)
    ensures -1 <= Navigate(current, count, forward) - current <= 1
    ensures forward ==> Navigate(current, count, forward) >= current
    ensures !forward ==> Navigate(current, count, forward) <= current
  {
  }

  /** Any run of navigation keeps the index in range. */
  lemma {:induction false} NavigateAllStaysInRange(current: int, count: nat, moves: seq<bool>)
    requires StageInRange(current, count)
    ensures StageInRange(NavigateAll(current, count, moves), count)
    decreases moves
  {
    if moves != [] {
      NavigateStaysInRange(current, count, moves[0]);
      NavigateAllStaysInRange(Navigate(current, count, moves[0]), count, moves[1..]);
    }
  }

  /** Going forward `n` times from the first stage reaches stage `n`, or the last one. */
  lemma {:induction false} ForwardFromStart(count: nat, n: nat, current: nat)
    requires current < count
    ensures NavigateAll(current, count, seq(n, _ => true)) == if current + n < count then current + n else count - 1
  {
    if n > 0 {
      var moves := seq(n, _ => true);
      assert moves[1..] == seq(n - 1, _ => true);
      ForwardFromStart(count, n - 1, Navigate(current, count, true));
    }
  }

  // ---------------------------------------------------------------------
  // The session's state
  // ---------------------------------------------------------------------

  /** The three teams of the demo button. */
  const DemoTeams: seq<Team> := [
    Team(1, "Снеговики", 0, "#4ECDC4"),
    Team(2, "Олени", 0, "#FF6B6B"),
    Team(3, "Эльфы", 0, "#FFD166")
  ]

  class GameSession {
    /** The bank the game was loaded with. */
    const gameStages: seq<Stage>
    var currentStage: int
    var questions: seq<Stage>
    var teams: seq<Team>
    var selectedQuestion: Option<Question>
    var gameStarted: bool

    /** The bank differs from the loaded one only in answered flags, and the stage index is in range. */
    ghost predicate Valid()
      reads this
    {
      && Strip(questions) == Strip(gameStages)
      && StageInRange(currentStage, |questions|)
    }

    constructor (stages: seq<Stage>)
      ensures Valid()
      ensures gameStages == stages && questions == stages
      ensures currentStage == 0 && teams == [] && selectedQuestion == None && !gameStarted
    {
      gameStages := stages;
      currentStage := 0;
      questions := stages;
      teams := [];
      selectedQuestion := None;
      gameStarted := false;
    }

    /** `handleQuestionClick`: open a question. */
    method HandleQuestionClick(q: Question)
      requires Valid()
      modifies this`selectedQuestion
      ensures Valid() && selectedQuestion == Some(q)
    {
      selectedQuestion := Some(q);
    }

    /** `handleCloseModal`: close the open question, nothing else. */
    method HandleCloseModal()
      requires Valid()
      modifies this`selectedQuestion
      ensures Valid() && selectedQuestion == None
    {
      selectedQuestion := None;
    }

    /**
     * `handleAnswer`: flag the question answered everywhere, move the
     * responding team's score by the question's value, and close the
     * question. The payout argument is accepted and ignored.
     */
    method HandleAnswer(q: Question, teamId: Option<nat>, isCorrect: bool, payout: int)
      requires Valid()
      modifies this`questions, this`teams, this`selectedQuestion
      ensures Valid()
      ensures questions == MarkAnswered(old(questions), q.id)
      ensures teams == AnswerTeams(old(teams), q, teamId, isCorrect)
      ensures selectedQuestion == None
    {
      MarkAnsweredFlags(questions, q.id);
      questions := MarkAnswered(questions, q.id);
      teams := AnswerTeams(teams, q, teamId, isCorrect);
      selectedQuestion := None;
    }

    /** `handleScoreChange`: move one team's score, floored at 0. */
    method HandleScoreChange(teamId: nat, change: int)
      requires Valid()
      modifies this`teams
      ensures Valid() && teams == ChangeScore(old(teams), teamId, change)
    {
      teams := ChangeScore(teams, teamId, change);
    }

    /** `handleTeamsChange`: the registry hands over a new team list. */
    method HandleTeamsChange(newTeams: seq<Team>)
      requires Valid()
      modifies this`teams
      ensures Valid() && teams == newTeams
    {
      teams := newTeams;
    }

    /** The demo button: replace the teams with three fixed teams. */
    method LoadDemoTeams()
      requires Valid()
      modifies this`teams
      ensures Valid() && teams == DemoTeams
    {
      teams := DemoTeams;
    }

    /** `nextStage` */
    method NextStage()
      requires Valid()
      modifies this`currentStage
      ensures Valid()
      ensures currentStage == Navigate(old(currentStage), |questions|, true)
    {
      if currentStage < |questions| - 1 {
        currentStage := currentStage + 1;
      }
    }

    /** `prevStage` */
    method PrevStage()
      requires Valid()
      modifies this`currentStage
      ensures Valid()
      ensures currentStage == Navigate(old(currentStage), |questions|, false)
    {
      if currentStage > 0 {
        currentStage := currentStage - 1;
      }
    }

    /** `resetGame`: the loaded bank again, no teams, the first stage, the start screen. */
    method ResetGame()
      requires Valid()
      modifies this`questions, this`teams, this`currentStage, this`gameStarted
      ensures Valid()
      ensures questions == gameStages && teams == [] && currentStage == 0 && !gameStarted
    {
      questions := gameStages;
      teams := [];
      currentStage := 0;
      gameStarted := false;
    }

    /** `startGame`: start with two teams or more; otherwise warn and change nothing. */
    method StartGame() returns (warned: bool)
      requires Valid()
      modifies this`gameStarted
      ensures Valid()
      ensures warned <==> |teams| < 2
      ensures gameStarted == if |teams| >= 2 then true else old(gameStarted)
    {
      if |teams| >= 2 {
        gameStarted := true;
        warned := false;
      } else {
        warned := true;
      }
    }

    /** Run the callbacks the question view fired: a verdict, then closing. */
    method ResolveModalEvent(ev: ModalEvent)
      requires Valid()
      modifies this`questions, this`teams, this`selectedQuestion
      ensures Valid()
      ensures ev.NoEvent? ==> unchanged(this)
      ensures ev.Close? ==> selectedQuestion == None && unchanged(this`questions, this`teams)
      ensures ev.AnswerThenClose? ==>
                && questions == MarkAnswered(old(questions), ev.question.id)
                && teams == AnswerTeams(old(teams), ev.question, ev.teamId, ev.correct)
                && selectedQuestion == None
    {
      match ev
      case NoEvent =>
      case Close =>
        HandleCloseModal();
      case AnswerThenClose(q, t, c, p) =>
        HandleAnswer(q, t, c, p);
        HandleCloseModal();
    }
  }
}

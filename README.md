# A New Year quiz game, modelled in Dafny

The game is a Jeopardy-style quiz played in the browser. Teams are
registered on a scoreboard. A host picks questions from a bank of stages,
categories and questions. The question view runs a countdown, shows the
answer and takes a verdict. The session then flags the question answered
and moves the responding team's score. A question may carry a modifier:

- "cat in a bag"
- "double score"
- "auction", where teams first bid for the right to answer
- "final"

This project models three parts of the game as Dafny modules.

- The question view (`QuestionModal`, with `AuctionBids` and `TimeFormat`).
  - Its component state becomes the class `Modal`, and each handler becomes a method.
  - The one-second countdown is taken as an explicit `Tick` and a `SettleExpiry` step.
  - The bid table is a list of entries with ascending team ids, the order in which the game enumerates it.
  - The winner of an auction is a left fold that keeps the strictly larger bid.
  - The payout reported with a verdict is the function `Payout`.
  - `formatTime` is a function with its inverse `ParseTime`.
- The session (`App`).
  - Its state becomes the class `GameSession`.
  - The new question bank and the new team list built by `handleAnswer` and `handleScoreChange` are pure functions (`MarkAnswered`, `ChangeScore`, `AnswerTeams`), with lemmas saying what they change and what they keep.
  - The callbacks the question view fires are returned as a `ModalEvent`, which `GameSession.ResolveModalEvent` runs.
- The team registry (`ScoreBoard`).
  - Add, remove and update build new team lists and are functions.
  - The rank shown on each card sorts the team array in place. It is an in-place stable insertion sort on an `array<Team>`, proved to produce the functional `SortByScore`. That function is proved to be a stable, descending permutation of its input, and any stable, descending permutation of the input equals it (`ScoreBoard.StableDescendingSortIsSortByScore`).
  - The panel's own two state variables form the class `ScoreBoardState`.

Two behaviours of the game are kept as they are:

- The question view computes a payout per modifier: double score, twice the stake or minus the stake for an auction, twice the value or nothing for a final. The session drops it and always applies plus or minus the question's value (`App.AuctionPayoutIsNotApplied`).
- The verdict buttons appear only for a question without a modifier, or for an auction in its answering stage (`QuestionModal.Modal.VerdictButtonsShown`).

`GameData` holds the records the parts share. `Wrappers` holds `Option`.

## Model

| member | source | states |
|---|---|---|
| GameData.Floor0 | src/App.js:47 | `Math.max(0, x)`: the result is non-negative, at least `x`, and is either `x` or 0 |
| GameData.IndexOfId | src/components/ScoreBoard/ScoreBoard.jsx:131 | `findIndex` by id: -1 exactly when no team has the id, otherwise the first index holding it |
| GameData.FindTeam | src/components/QuestionModal/QuestionModal.jsx:57 | `find` by id: none exactly when no team has the id, otherwise the first team in the list with that id (the one at `IndexOfId`) |
| GameData.FindTeamTakesFirst | src/components/QuestionModal/QuestionModal.jsx:57 | of two teams sharing id 2, the lookup returns the earlier one |
| AuctionBids.PreviousBid | src/components/QuestionModal/QuestionModal.jsx:57 | `auctionBets[id] \|\| 0`: the team's standing bid, 0 without an entry; never negative in a table of positive bids (`PreviousBidNonNegative`), and the new bid after an accepted bid (`PutLookup`, `AcceptedBidRaises`) |
| AuctionBids.BidAcceptable | src/components/QuestionModal/QuestionModal.jsx:57 | a bid is accepted when it is at most the team's score and above its standing bid; an accepted bid raises the standing bid and keeps the others (`AcceptedBidRaises`), and `Modal.HandlePlaceBid` records exactly the accepted bids |
| AuctionBids.Lookup | src/components/QuestionModal/QuestionModal.jsx:57 | a team's entry in the bid table: absent exactly when no entry has that team, otherwise an entry of the table |
| AuctionBids.Put | src/components/QuestionModal/QuestionModal.jsx:58-61 | recording a bid keeps the keys ascending; the entries are the new one plus every old entry of other teams |
| AuctionBids.LookupMember | src/components/QuestionModal/QuestionModal.jsx:57 | in a table with distinct keys, lookup finds each entry's amount |
| AuctionBids.PutLookup | src/components/QuestionModal/QuestionModal.jsx:58-61 | after recording, the team's entry is the new bid and every other team's entry is as before |
| AuctionBids.PreviousBidNonNegative | src/components/QuestionModal/QuestionModal.jsx:57 | the standing bid (`auctionBets[id] \|\| 0`) of a table of positive bids is never negative |
| AuctionBids.AcceptedBidRaises | src/components/QuestionModal/QuestionModal.jsx:56-63 | an accepted bid is positive, keeps the table well formed, becomes the team's standing bid, strictly raises it, and leaves every other team's standing bid unchanged |
| AuctionBids.Step | src/components/QuestionModal/QuestionModal.jsx:38-39 | one step of the `reduce`: an entry replaces the leader only with a strictly larger bid; its effect over a whole table is `FoldLeaderFindsFirstMaximum` |
| AuctionBids.FoldLeader | src/components/QuestionModal/QuestionModal.jsx:38-41 | the `reduce` over the entries in ascending team order; the fold ends on the first largest bid above the start value (`FoldLeaderFindsFirstMaximum`) |
| AuctionBids.AuctionWinner | src/components/QuestionModal/QuestionModal.jsx:38-41 | the fold from `{ teamId: null, bid: 0 }`; its result is the first highest positive bid (`WinnerIsFirstHighestBid`, `TieGoesToLowestTeamId`, `HigherBidWins`, `EqualBidsFavourFirstEntry`) |
| AuctionBids.HasWinner | src/components/QuestionModal/QuestionModal.jsx:43 | the truthiness test on `teamId`, which fails for the id 0; with team ids from 1 it holds exactly when some bid is positive (`HasWinnerIffPositiveBid`), and for accepted bids exactly when anyone bid (`HasWinnerIffAnyBid`) |
| AuctionBids.HasWinnerIffPositiveBid | src/components/QuestionModal/QuestionModal.jsx:38-43 | when no bidding team has the id 0, `if (winner.teamId)` succeeds exactly when some bid is positive |
| AuctionBids.HasWinnerIffAnyBid | src/components/QuestionModal/QuestionModal.jsx:38-43 | in a table of accepted bids by teams with ids from 1, the auction goes to the answering stage exactly when anyone bid |
| AuctionBids.ZeroTeamIdIsNoWinner | src/components/QuestionModal/QuestionModal.jsx:38-43 | a lone bid of 100 by team 0 is chosen by the fold but fails the falsy test |
| AuctionBids.FoldLeaderFindsFirstMaximum | src/components/QuestionModal/QuestionModal.jsx:39-42 | the fold never lowers the start bid, ends at or above every bid, and ends on the start value or on the first entry holding the largest bid |
| AuctionBids.WinnerIsFirstHighestBid | src/components/QuestionModal/QuestionModal.jsx:39-42 | the winner holds the largest bid, is the first entry with it, exists exactly when some bid is positive, and then has a positive bid |
| AuctionBids.TieGoesToLowestTeamId | src/components/QuestionModal/QuestionModal.jsx:39-42 | on equal top bids the lowest team id wins |
| AuctionBids.WinnerExistsIffAnyBid | src/components/QuestionModal/QuestionModal.jsx:38-41 | in a table built from accepted bids, the fold picks a team exactly when the table is non-empty |
| AuctionBids.HigherBidWins | src/components/QuestionModal/QuestionModal.jsx:39-42 | bids {1: 200, 2: 150} give team 1 with stake 200 |
| AuctionBids.EqualBidsFavourFirstEntry | src/components/QuestionModal/QuestionModal.jsx:39-42 | bids {1: 200, 2: 200} give team 1 |
| TimeFormat.DigitChar | src/components/QuestionModal/QuestionModal.jsx:103 | a digit below 10 becomes the character of that value |
| TimeFormat.Decimal | src/components/QuestionModal/QuestionModal.jsx:103 | a number is written as at least one digit, with no leading zero, one digit exactly below 10 |
| TimeFormat.DecimalRoundTrip | src/components/QuestionModal/QuestionModal.jsx:103 | reading the decimal text back gives the number |
| TimeFormat.SecondsField | src/components/QuestionModal/QuestionModal.jsx:103 | the seconds field is two digits that read back as the seconds |
| TimeFormat.FormatTime | src/components/QuestionModal/QuestionModal.jsx:100-104 | `formatTime`: minutes, a colon and two-digit seconds; its fields (`FormatTimeFields`), its inverse `ParseTime` (`FormatTimeRoundTrip`), injectivity (`FormatTimeInjective`) and the starting displays (`StartingDisplays`) are proved |
| TimeFormat.FormatTimeFields | src/components/QuestionModal/QuestionModal.jsx:100-104 | the text is decimal minutes, a colon, two digits; minutes = s div 60, seconds = s mod 60 < 60, and minutes * 60 + seconds = s |
| TimeFormat.FormatTimeRoundTrip | src/components/QuestionModal/QuestionModal.jsx:100-104 | parsing the formatted text gives back the number of seconds |
| TimeFormat.FormatTimeInjective | src/components/QuestionModal/QuestionModal.jsx:100-104 | different counts are shown as different texts |
| TimeFormat.StartingDisplays | src/components/QuestionModal/QuestionModal.jsx:100-104 | 60, 50 and 30 seconds show as "1:00", "0:50" and "0:30" |
| QuestionModal.Ticked | src/components/QuestionModal/QuestionModal.jsx:16-24 | one tick: the countdown drops by exactly 1 when the timer runs and time remains, and otherwise stays; it never goes below 0; its repetition is `CountdownStopsAtZero` |
| QuestionModal.Payout | src/components/QuestionModal/QuestionModal.jsx:73-80 | the points reported with a verdict, per modifier; its properties are `VerdictMattersOnlyForAuctionAndFinal`, `StakeMattersOnlyForAuction`, `RightAnswerPaysAtLeastWrong` and `JudgedPayoutIsPlainOrAuction` |
| QuestionModal.CountdownStopsAtZero | src/components/QuestionModal/QuestionModal.jsx:16-24 | after n ticks a running countdown from t shows t - n, or 0 once n >= t; a stopped one keeps its value |
| QuestionModal.Modal.constructor | src/components/QuestionModal/QuestionModal.jsx:5-14 | the countdown starts at 60 for an auction and 50 otherwise, running; no answer shown, no team, no verdict, no bids, stake 0, bidding stage |
| QuestionModal.Modal.VerdictButtonsShown | src/components/QuestionModal/QuestionModal.jsx:246-322 | the verdict buttons show only once the answer is revealed, and only for a question without a modifier or an auction |
| QuestionModal.Modal.Tick | src/components/QuestionModal/QuestionModal.jsx:16-24 | a tick lowers the countdown by exactly 1 while the timer runs and time remains, and otherwise keeps it; it never goes below 0 |
| QuestionModal.Modal.HandleAuctionEnd | src/components/QuestionModal/QuestionModal.jsx:26-54 | called only by the expiry effect, for an auction still bidding (lines 29-30); with a winner, that team answers with the winning bid as stake, the stage becomes answering, and the countdown restarts at 30; without one the view asks to close and nothing else changes |
| QuestionModal.Modal.SettleExpiry | src/components/QuestionModal/QuestionModal.jsx:26-35 | before 0 nothing happens; at 0 the timer stops, an auction still bidding is ended as by `HandleAuctionEnd`, and any other question has its answer shown |
| QuestionModal.Modal.HandlePlaceBid | src/components/QuestionModal/QuestionModal.jsx:56-63 | called only from the bid controls, shown for an auction in its bidding stage (line 176); a bid is recorded exactly when it is at most the team's score and above its standing bid; a rejected bid leaves the table unchanged; no such team records nothing |
| QuestionModal.Modal.HandleBidInput | src/components/QuestionModal/QuestionModal.jsx:213-218 | the bid field exists only for an auction in its bidding stage (line 176); the typed bid (0 when unparsable) reaches the bid handler only when it beats the standing bid, and is recorded exactly when it is also within the team's score |
| QuestionModal.Modal.HandleTeamSelect | src/components/QuestionModal/QuestionModal.jsx:65-67 | the team buttons are shown only after the answer is revealed and only for a question without a modifier (lines 246-259 and 300); the chosen team becomes the responding team. An auction's responding team is its winner and cannot be changed (`Modal.Valid`) |
| QuestionModal.Modal.RevealAnswer | src/components/QuestionModal/QuestionModal.jsx:246-256 | the button exists only before the answer is shown, for a question without a modifier or an auction in its answering stage; it reveals the answer and stops the countdown, and does nothing once the time is up |
| QuestionModal.Modal.HandleAnswer | src/components/QuestionModal/QuestionModal.jsx:69-86 | called only while the verdict buttons are shown (lines 246 and 322); a verdict stops the countdown, records the verdict, and reports the question, the responding team, the verdict and `Payout` for its modifier; for an auction the team is the winner of the bids and the payout is twice the winning bid or minus it |
| QuestionModal.Modal.HandleClose | src/components/QuestionModal/QuestionModal.jsx:88-98 | closing clears the view's state, resets the countdown to 60 for an auction and 30 otherwise, and asks to close |
| QuestionModal.VerdictMattersOnlyForAuctionAndFinal | src/components/QuestionModal/QuestionModal.jsx:73-80 | only an auction and a final question pay differently for a wrong answer |
| QuestionModal.StakeMattersOnlyForAuction | src/components/QuestionModal/QuestionModal.jsx:73-80 | outside an auction the payout ignores the stake and is 0, the value, or twice the value |
| QuestionModal.RightAnswerPaysAtLeastWrong | src/components/QuestionModal/QuestionModal.jsx:73-80 | with a positive value and stake, a right answer pays a positive amount and at least what a wrong one does |
| QuestionModal.JudgedPayoutIsPlainOrAuction | src/components/QuestionModal/QuestionModal.jsx:246 | when the verdict buttons are shown, the payout is the question's value, or twice or minus the stake for an auction |
| App.MarkAnswered | src/App.js:33-41 | the new bank with the answered question flagged; what it changes and keeps is `MarkAnsweredFlags`, with `MarkAnsweredIdempotent` and `MarkAnsweredCommutes` |
| App.SameQuestionsSameBank | src/App.js:33-41 | two banks that agree apart from answered flags, and agree on every flag, are equal |
| App.MarkAnsweredFlags | src/App.js:33-41 | answering changes only answered flags: the same stages, categories, questions and fields, and a question ends answered exactly when it was already answered or carries the id |
| App.MarkAnsweredIdempotent | src/App.js:33-41 | answering the same id twice is answering it once |
| App.MarkAnsweredCommutes | src/App.js:33-41 | answering two ids in either order gives the same bank |
| App.ChangeScore | src/App.js:57-63 | the new team list after a score button; `ChangeScoreFrame` says only the matching teams' scores change, to max(0, score + change) |
| App.AnswerTeams | src/App.js:44-50 | the new team list after a verdict; `AnswerAppliesQuestionValue` and `AnswerWithoutTeam` say what it changes |
| App.ChangeScoreFrame | src/App.js:57-63 | only the matching teams change, and only in score, which becomes max(0, score + change); length and order are kept |
| App.ApplyOpKeepsScores | src/App.js:44-63 | one answer or adjustment keeps every score non-negative and every team in its place |
| App.ScoresStayNonNegative | src/App.js:44-63 | scores that start non-negative stay non-negative through any run of answers and adjustments |
| App.AnswerAppliesQuestionValue | src/App.js:44-50 | the responding team's score becomes max(0, score plus or minus the question's value), whatever the modifier |
| App.AuctionPayoutIsNotApplied | src/App.js:31-47 | a won auction on a 100-point question with stake 300 is reported as 600 but adds 100 |
| App.AnswerWithoutTeam | src/App.js:44-50 | with no responding team, or none with that id, the teams are unchanged |
| App.Navigate | src/App.js:69-79 | one step of the stage arrows; `NavigateStaysInRange`, `NavigateAllStaysInRange` and `ForwardFromStart` bound it |
| App.NavigateStaysInRange | src/App.js:69-79 | one move keeps the stage index in range, changes it by at most one, forward never lowers it and back never raises it |
| App.NavigateAllStaysInRange | src/App.js:69-79 | any run of moves keeps the stage index in range |
| App.ForwardFromStart | src/App.js:69-73 | n moves forward from stage c reach c + n, or the last stage |
| App.GameSession.constructor | src/App.js:9-13 | the session starts at the first stage with the loaded bank, no teams, no open question, not started |
| App.GameSession.HandleQuestionClick | src/App.js:23-25 | clicking a question opens it |
| App.GameSession.HandleCloseModal | src/App.js:27-29 | closing clears the open question and touches nothing else |
| App.GameSession.HandleAnswer | src/App.js:31-55 | the bank becomes `MarkAnswered` of the question's id, the teams become `AnswerTeams`, the question is closed; the payout argument plays no part |
| App.GameSession.HandleScoreChange | src/App.js:57-63 | the teams become `ChangeScore` of the id and change |
| App.GameSession.HandleTeamsChange | src/App.js:65-67 | the registry's new list replaces the teams |
| App.GameSession.LoadDemoTeams | src/App.js:143-149 | the demo button sets the three fixed teams |
| App.GameSession.NextStage | src/App.js:69-73 | the index moves forward only below the last stage |
| App.GameSession.PrevStage | src/App.js:75-79 | the index moves back only above the first stage |
| App.GameSession.ResetGame | src/App.js:81-86 | the loaded bank, no teams, the first stage, not started |
| App.GameSession.StartGame | src/App.js:88-94 | starts exactly when there are two teams or more; otherwise warns and changes nothing |
| App.GameSession.ResolveModalEvent | src/App.js:212-218 | a verdict event answers and closes, a close event only closes, no event changes nothing |
| ScoreBoard.TrimStart | src/components/ScoreBoard/ScoreBoard.jsx:9 | the result is a suffix, only whitespace was dropped, and it does not start with whitespace |
| ScoreBoard.TrimEnd | src/components/ScoreBoard/ScoreBoard.jsx:9 | the result is a prefix, only whitespace was dropped, and it does not end with whitespace |
| ScoreBoard.Trim | src/components/ScoreBoard/ScoreBoard.jsx:9 | `trim`: no longer than the name, and no whitespace left at either end; it is empty exactly for a blank name (`TrimIsEmptyIffBlank`) |
| ScoreBoard.TrimIsEmptyIffBlank | src/components/ScoreBoard/ScoreBoard.jsx:9 | the trimmed name is empty exactly when the name is empty or all whitespace |
| ScoreBoard.AddTeam | src/components/ScoreBoard/ScoreBoard.jsx:8-19 | a blank name (one `trim` empties) changes nothing; otherwise the old teams are kept in order and one team is appended with the untrimmed name, score 0, the colour, and id = old length + 1 |
| ScoreBoard.RemoveTeam | src/components/ScoreBoard/ScoreBoard.jsx:21-23 | the result holds exactly the teams whose id differs, and is no longer than the input |
| ScoreBoard.RemoveTeamAppend | src/components/ScoreBoard/ScoreBoard.jsx:21-23 | removal distributes over concatenation, so the kept teams keep their order |
| ScoreBoard.RemoveTeamAbsent | src/components/ScoreBoard/ScoreBoard.jsx:21-23 | removing an id no team holds changes nothing |
| ScoreBoard.RemoveTeamIdempotent | src/components/ScoreBoard/ScoreBoard.jsx:21-23 | removing twice is removing once |
| ScoreBoard.RemoveUndoesAdd | src/components/ScoreBoard/ScoreBoard.jsx:8-23 | removing a just-added team with a fresh id gives the old list back |
| ScoreBoard.Merge | src/components/ScoreBoard/ScoreBoard.jsx:27 | `{ ...team, ...updates }` for name and colour: the given fields replace the team's, id and score are kept |
| ScoreBoard.UpdateTeam | src/components/ScoreBoard/ScoreBoard.jsx:25-28 | the matching teams take the given name and colour, keeping id and score; other teams are unchanged |
| ScoreBoard.UpdateTeamThen | src/components/ScoreBoard/ScoreBoard.jsx:25-28 | two successive edits equal one edit whose later fields win |
| ScoreBoard.RegistryKeepsScoresNonNegative | src/components/ScoreBoard/ScoreBoard.jsx:8-28 | adding, removing and editing never make a score negative |
| ScoreBoard.AddKeepsIdsDense | src/components/ScoreBoard/ScoreBoard.jsx:11 | without removals, ids stay distinct and within 1..length |
| ScoreBoard.AddAfterRemoveRepeatsId | src/components/ScoreBoard/ScoreBoard.jsx:8-23 | for any three non-blank names: add, add, remove id 1, add leaves two teams that both have id 2 |
| ScoreBoard.QuickScoreChange | src/components/ScoreBoard/ScoreBoard.jsx:32-97 | a quick button sends one of ±100, ±200, ±300, ±500 for its team, positive exactly for the first four |
| ScoreBoard.CustomScoreChange | src/components/ScoreBoard/ScoreBoard.jsx:113-116 | the custom button sends the parsed value, or 0 when parsing fails |
| ScoreBoard.InsertByScore | src/components/ScoreBoard/ScoreBoard.jsx:130 | one insertion of the stable sort; `InsertByScorePermutes`, `InsertByScoreDescending` and `InsertByScoreStable` state its effect |
| ScoreBoard.SortByScore | src/components/ScoreBoard/ScoreBoard.jsx:130 | the order of `sort((a, b) => b.score - a.score)`, a stable sort; `SortByScorePermutes`, `SortByScoreDescending`, `SortByScoreStable` and `StableDescendingSortIsSortByScore` characterise it |
| ScoreBoard.InsertByScorePermutes | src/components/ScoreBoard/ScoreBoard.jsx:130 | inserting adds exactly the one team |
| ScoreBoard.SortByScorePermutes | src/components/ScoreBoard/ScoreBoard.jsx:130 | the rank sort is a permutation |
| ScoreBoard.InsertByScoreDescending | src/components/ScoreBoard/ScoreBoard.jsx:130 | inserting into a descending list keeps it descending |
| ScoreBoard.SortByScoreDescending | src/components/ScoreBoard/ScoreBoard.jsx:130 | the rank sort orders by descending score |
| ScoreBoard.WithScoreAppend | src/components/ScoreBoard/ScoreBoard.jsx:130 | the teams with one score, taken from a concatenation, are those of each part in turn |
| ScoreBoard.InsertByScoreStable | src/components/ScoreBoard/ScoreBoard.jsx:130 | inserting puts the new team after every team with its score |
| ScoreBoard.SortByScoreStable | src/components/ScoreBoard/ScoreBoard.jsx:130 | the rank sort is stable: teams with equal scores keep their relative order |
| ScoreBoard.SortByScoreOfDescending | src/components/ScoreBoard/ScoreBoard.jsx:130 | sorting a list already in descending order changes nothing |
| ScoreBoard.WithScoreMembers | src/components/ScoreBoard/ScoreBoard.jsx:130 | a team is among those with score v exactly when it is listed and scores v |
| ScoreBoard.LastTeamsAgree | src/components/ScoreBoard/ScoreBoard.jsx:130 | two descending lists with the same teams per score end on the same team |
| ScoreBoard.InitGroupsAgree | src/components/ScoreBoard/ScoreBoard.jsx:130 | dropping the same last team keeps the teams per score equal |
| ScoreBoard.DescendingDeterminedByScoreGroups | src/components/ScoreBoard/ScoreBoard.jsx:130 | two descending lists of equal length with the same teams, in the same order, per score are equal |
| ScoreBoard.StableDescendingSortIsSortByScore | src/components/ScoreBoard/ScoreBoard.jsx:130 | any permutation that is descending and keeps the order of equal scores is `SortByScore`: the stable sort's order is unique |
| ScoreBoard.RankOf | src/components/ScoreBoard/ScoreBoard.jsx:129-131 | `findIndex` in the sorted copy plus one; `RankInRange`, `DistinctIdsSameTeam` and `HigherScoreRanksFirst` state its range and order |
| ScoreBoard.RankInRange | src/components/ScoreBoard/ScoreBoard.jsx:129-131 | a listed team's rank lies in 1..length, exactly when it is listed; an unlisted id shows 0 |
| ScoreBoard.DistinctIdsSameTeam | src/components/ScoreBoard/ScoreBoard.jsx:131 | with distinct ids, the id picks one team |
| ScoreBoard.HigherScoreRanksFirst | src/components/ScoreBoard/ScoreBoard.jsx:129-131 | with distinct ids, a strictly higher score gives a strictly smaller rank |
| ScoreBoard.SharedIdSharesRank | src/components/ScoreBoard/ScoreBoard.jsx:129-131 | two teams with the same id both show rank 1, whatever their scores, so the ranking fails for repeated ids |
| ScoreBoard.InsertInPlace | src/components/ScoreBoard/ScoreBoard.jsx:130 | one in-place step leaves the first i + 1 cells as `InsertByScore` of the sorted prefix and the cell at i, and the rest unchanged |
| ScoreBoard.InsertAt | src/components/ScoreBoard/ScoreBoard.jsx:130 | the element placed right after the last team scoring at least as much is where the stable insertion puts it |
| ScoreBoard.SortByScorePrefix | src/components/ScoreBoard/ScoreBoard.jsx:130 | sorting a prefix one element longer is one more stable insertion |
| ScoreBoard.SortTeamsInPlace | src/components/ScoreBoard/ScoreBoard.jsx:130 | the array is sorted in place into `SortByScore` of its old contents |
| ScoreBoard.Rank | src/components/ScoreBoard/ScoreBoard.jsx:129-131 | the array is sorted in place and the result is `RankOf` of the old contents |
| ScoreBoard.ScoreBoardState.constructor | src/components/ScoreBoard/ScoreBoard.jsx:5-6 | the panel starts with an empty name field and no team being renamed |
| ScoreBoard.ScoreBoardState.SetNewTeamName | src/components/ScoreBoard/ScoreBoard.jsx:47 | typing sets the name field |
| ScoreBoard.ScoreBoardState.HandleAddTeam | src/components/ScoreBoard/ScoreBoard.jsx:8-19 | a blank name hands over nothing and keeps the field; otherwise it hands over `AddTeam` and clears the field |
| ScoreBoard.ScoreBoardState.BeginEdit | src/components/ScoreBoard/ScoreBoard.jsx:72 | clicking a name opens that team's rename field |
| ScoreBoard.ScoreBoardState.HandleUpdateTeam | src/components/ScoreBoard/ScoreBoard.jsx:25-30 | an edit hands over `UpdateTeam` and closes the rename field |

## Left out

- Rendering, CSS classes, emoji and the progress styling are not modelled, and neither are the question's `type` and `media` fields.
- Scheduling is not modelled. The one-second `setTimeout` of the countdown is one `Tick`, and the expiry effect is `SettleExpiry`. The one-second delay before a verdict reaches the session is not modelled: `HandleAnswer` returns the callbacks as a `ModalEvent`, which `GameSession.ResolveModalEvent` runs. Real time and interleavings are not modelled.
- React's batching of state updates and stale closures are not modelled. Each handler is one atomic, sequential update.
- The random colour of a new team is a parameter of `AddTeam`.
- DOM lookups, `alert` and `console.log` are left out. `StartGame` returns whether it would warn.
- `parseInt` is not modelled. Its result is an `Option<int>`, and a failed parse becomes 0, as `|| 0` makes it.
- The question bank in `src/data/questions` is not part of this model. It is the parameter of `GameSession`'s constructor.
- `src/components/GameBoard/GameBoard.jsx` is not part of this model. It is a view whose only logic mirrors `isAnswered`.
- Team ids are naturals in the model. In the game every id is at least 1: the registry assigns `length + 1` (src/components/ScoreBoard/ScoreBoard.jsx:11) and the demo teams have ids 1 to 3 (src/App.js:145-147). The auction lemmas about `HasWinner` assume it, since `if (winner.teamId)` treats the id 0 as no winner (`AuctionBids.ZeroTeamIdIsNoWinner`).
- JavaScript numbers are unbounded integers here. Fractions, `NaN` and rounding of large doubles are not modelled.
- `handleClose` (src/components/QuestionModal/QuestionModal.jsx:88-98) resets the countdown to 30 (60 for an auction), but the reset is never shown: `onClose` clears the open question (src/App.js:27-29), which removes the view (src/App.js:212-219), and a reopened question gets a fresh view at 50 or 60. `Modal.HandleClose` models the reset as written.
- GameData.Special: `Other(tag)` stands for any non-empty tag the game does not act on. The type does not exclude `Other("")` or `Other` of a known tag such as `"auction"`; the bank is expected to spell those as `NoSpecial` and `Auction`.
- TimeFormat.FormatTime: takes only non-negative seconds, since the countdown never goes below 0 (`Modal.Valid`). Negative input is not modelled.
- ScoreBoard.Rank: sorts an array of its own. In the game, `teams.sort` reorders the session's team array in place during rendering. That aliasing, and the new order of the session's `teams`, are not modelled. Nor is its effect on the card list: the sort runs inside the `teams.map` callback (src/components/ScoreBoard/ScoreBoard.jsx:58 with :129-131), so the cards after the first are read from the already sorted array, one team can be drawn twice and another skipped until the next render, and with duplicate ids `teams.find` in the bid handler searches the sorted order.
- ScoreBoard.HigherScoreRanksFirst: holds only for distinct ids. A repeated id is reachable (`AddAfterRemoveRepeatsId`), and then every team with that id shows the rank of the first sorted team with it, since `findIndex` looks up the id (src/components/ScoreBoard/ScoreBoard.jsx:131; `SharedIdSharesRank`).
- The quick bid buttons (100, 200, 500, 1000) are left out. They are disabled exactly when `BidAcceptable` is false, and `HandlePlaceBid` checks the same condition anyway.
- QuestionModal.Modal.HandlePlaceBid: a missing team yields `TeamMissing` where the game would throw on `.score` of `undefined`. Every bid control belongs to a listed team.
- The `stage` property of the question view is never passed and never read, so it is left out.
- The auction stage `result`, named in a comment, is never entered, so it is left out.
- The rules listed on the start screen (src/App.js:115-120) differ from the code in places, and the model follows the code:
  - The rules promise 30 seconds per answer. A question opens with 50 seconds, or 60 for an auction.
  - The rules say a wrong answer costs points. The view's code would report twice the value of a double-score question for either verdict (src/components/QuestionModal/QuestionModal.jsx:74-75), but that code is unreachable: no verdict buttons are shown for a double-score question (line 246, `JudgedPayoutIsPlainOrAuction`). The session itself subtracts the value on a wrong answer (src/App.js:46).

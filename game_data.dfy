/**
 * The records the game works on: the nested question bank
 * (stages -> categories -> questions) and the teams.
 */
module GameData {
  import opened Wrappers

  /**
   * The `special` tag of a question. NoSpecial stands for a missing tag
   * (every falsy value, the empty string among them); Other for a non-empty
   * tag the game does not act on. The type itself does not exclude
   * `Other("")` or `Other` of a known tag such as `Other("auction")`; the bank
   * is expected to spell those as `NoSpecial` and `Auction`.
   */
  datatype Special = NoSpecial | CatInBag | DoubleScore | Auction | Final | Other(tag: string)

  datatype Question = Question(
    id: int,
    text: string,
    answer: string,
    score: int,
    special: Special,
    isAnswered: bool)

  datatype Category = Category(id: int, name: string, questions: seq<Question>)

  datatype Stage = Stage(id: int, name: string, baseScore: int, categories: seq<Category>)

  /** A team; ids come from the registry (`length + 1`), so they are never negative. */
  datatype Team = Team(id: nat, name: string, score: int, color: string)

  /** `!!id` for a team id: an id is set and is not the falsy 0. */
  predicate IsTruthy(id: Option<nat>) {
    id.Some? && id.value != 0
  }

  predicate ScoresNonNegative(teams: seq<Team>) {
    forall i :: 0 <= i < |teams| ==> teams[i].score >= 0
  }

  /** `Math.max(0, x)` */
  function Floor0(x: int): (r: int)
    ensures r >= 0 && r >= x
    ensures r == x || r == 0
  {
    if x < 0 then 0 else x
  }

  /** `teams.findIndex(t => t.id === id)`: the first index holding that id, or -1. */
  function IndexOfId(teams: seq<Team>, id: nat): (k: int)
    ensures -1 <= k < |teams|
    ensures k >= 0 ==> teams[k].id == id && forall j :: 0 <= j < k ==> teams[j].id != id
    ensures k == -1 <==> forall j :: 0 <= j < |teams| ==> teams[j].id != id
  {
    if teams == [] then -1
    else if teams[0].id == id then 0
    else
      var k := IndexOfId(teams[1..], id);
      if k == -1 then -1 else k + 1
  }

  /** `teams.find(t => t.id === id)`: the first team holding that id. */
  function FindTeam(teams: seq<Team>, id: nat): (r: Option<Team>)
    ensures r.None? <==> forall j :: 0 <= j < |teams| ==> teams[j].id != id
    ensures r.Some? ==> r.value in teams && r.value.id == id
    ensures r.Some? ==> 0 <= IndexOfId(teams, id) && r.value == teams[IndexOfId(teams, id)]
  {
    var k := IndexOfId(teams, id);
    if k < 0 then None else Some(teams[k])
  }

  /** With two teams under one id, `find` returns the earlier one. */
  lemma FindTeamTakesFirst()
    ensures FindTeam([Team(2, "A", 0, "c"), Team(2, "B", 500, "c")], 2) == Some(Team(2, "A", 0, "c"))
  {
  }
}

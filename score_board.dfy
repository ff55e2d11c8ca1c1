/**
 * The team registry of the scoreboard panel: adding, removing and editing
 * teams (each builds a new team list that is handed to the session), the
 * score buttons, and the rank shown on every team card, which sorts the
 * team array in place by descending score.
 */
module ScoreBoard {
  import opened Wrappers
  import opened GameData

  // ---------------------------------------------------------------------
  // Blank names: `String.prototype.trim`
  // ---------------------------------------------------------------------

  /** The characters `trim` removes: ECMAScript WhiteSpace and LineTerminator. */
  predicate IsJsWhitespace(c: char) {
    || c == '\t' || c == '\n' || c == '\U{000B}' || c == '\U{000C}' || c == '\r'
    || c == ' ' || c == '\U{00A0}' || c == '\U{1680}' || ('\U{2000}' <= c <= '\U{200A}')
    || c == '\U{2028}' || c == '\U{2029}' || c == '\U{202F}' || c == '\U{205F}'
    || c == '\U{3000}' || c == '\U{FEFF}'
  }

  predicate IsBlank(s: string) {
    forall i :: 0 <= i < |s| ==> IsJsWhitespace(s[i])
  }

  function TrimStart(s: string): (r: string)
    ensures |r| <= |s| && r == s[|s| - |r|..]
    ensures forall i :: 0 <= i < |s| - |r| ==> IsJsWhitespace(s[i])
    ensures r != [] ==> !IsJsWhitespace(r[0])
  {
    if s != [] && IsJsWhitespace(s[0]) then
      var r := TrimStart(s[1..]);
      assert s[1..][|s| - 1 - |r|..] == s[|s| - |r|..];
      assert forall i :: 1 <= i < |s| - |r| ==> s[i] == s[1..][i - 1];
      r
    else s
  }

  function TrimEnd(s: string): (r: string)
    ensures |r| <= |s| && r == s[..|r|]
    ensures forall i :: |r| <= i < |s| ==> IsJsWhitespace(s[i])
    ensures r != [] ==> !IsJsWhitespace(r[|r| - 1])
  {
    if s != [] && IsJsWhitespace(s[|s| - 1]) then
      var r := TrimEnd(s[..|s| - 1]);
      assert s[..|s| - 1][..|r|] == s[..|r|];
      r
    else s
  }

  /** `trim`: no whitespace is left at either end. */
  function Trim(s: string): (r: string)
    ensures |r| <= |s|
    ensures r != [] ==> !IsJsWhitespace(r[0]) && !IsJsWhitespace(r[|r| - 1])
  {
    var t := TrimStart(s);
    var r := TrimEnd(t);
    assert r != [] ==> r[0] == t[0];
    r
  }

  /** `name.trim()` is falsy exactly when the name is empty or all whitespace. */
  lemma TrimIsEmptyIffBlank(s: string)
    ensures Trim(s) == [] <==> IsBlank(s)
  {
    if Trim(s) == [] {
      assert TrimStart(s) == [];
    }
  }

  // ---------------------------------------------------------------------
  // Adding, removing and editing teams
  // ---------------------------------------------------------------------

  /**
   * `handleAddTeam`: a name that `trim` empties is ignored (those are the blank
   * names, `TrimIsEmptyIffBlank`); otherwise one team is appended.
   */
  function AddTeam(teams: seq<Team>, name: string, color: string): (r: seq<Team>)
    ensures IsBlank(name) ==> r == teams
    ensures !IsBlank(name) ==> r == teams + [Team(|teams| + 1, name, 0, color)]
  {
    if !IsBlank(name) then teams + [Team(|teams| + 1, name, 0, color)] else teams
  }

  /** `handleRemoveTeam`: `teams.filter(team => team.id !== id)`. */
  function RemoveTeam(teams: seq<Team>, id: nat): (r: seq<Team>)
    ensures |r| <= |teams|
    ensures forall t :: t in r <==> t in teams && t.id != id
  {
    if teams == [] then []
    else if teams[0].id == id then RemoveTeam(teams[1..], id)
    else [teams[0]] + RemoveTeam(teams[1..], id)
  }

  /** The fields an edit may carry: the call sites pass `{ name }` or `{ color }`. */
  datatype TeamUpdate = TeamUpdate(name: Option<string>, color: Option<string>)

  /** `{ ...team, ...updates }` */
  function Merge(t: Team, u: TeamUpdate): (r: Team)
    ensures r.id == t.id && r.score == t.score
    ensures r.name == (if u.name.Some? then u.name.value else t.name)
    ensures r.color == (if u.color.Some? then u.color.value else t.color)
  {
    t.(name := u.name.GetOr(t.name), color := u.color.GetOr(t.color))
  }

  /** Two successive edits, as one edit whose later fields win. */
  function Then(first: TeamUpdate, second: TeamUpdate): TeamUpdate {
    TeamUpdate(if second.name.Some? then second.name else first.name,
               if second.color.Some? then second.color else first.color)
  }

  /** `handleUpdateTeam`: merge the edit into every team with that id. */
  function UpdateTeam(teams: seq<Team>, id: nat, u: TeamUpdate): (r: seq<Team>)
    ensures |r| == |teams|
    ensures forall i :: 0 <= i < |teams| ==> r[i].id == teams[i].id && r[i].score == teams[i].score
    ensures forall i :: 0 <= i < |teams| && teams[i].id != id ==> r[i] == teams[i]
    ensures forall i :: 0 <= i < |teams| && teams[i].id == id ==>
              r[i].name == u.name.GetOr(teams[i].name) && r[i].color == u.color.GetOr(teams[i].color)
  {
    seq(|teams|, i requires 0 <= i < |teams| => if teams[i].id == id then Merge(teams[i], u) else teams[i])
  }

  /** Removal keeps the relative order: it distributes over concatenation. */
  lemma {:induction false} RemoveTeamAppend(a: seq<Team>, b: seq<Team>, id: nat)
    ensures RemoveTeam(a + b, id) == RemoveTeam(a, id) + RemoveTeam(b, id)
  {
    if a != [] {
      assert (a + b)[0] == a[0];
      assert (a + b)[1..] == a[1..] + b;
      RemoveTeamAppend(a[1..], b, id);
    } else {
      assert a + b == b;
    }
  }

  /** Removing an id nobody holds changes nothing. */
  lemma {:induction false} RemoveTeamAbsent(teams: seq<Team>, id: nat)
    requires forall i :: 0 <= i < |teams| ==> teams[i].id != id
    ensures RemoveTeam(teams, id) == teams
  {
    if teams != [] {
      RemoveTeamAbsent(teams[1..], id);
    }
  }

  lemma RemoveTeamIdempotent(teams: seq<Team>, id: nat)
    ensures RemoveTeam(RemoveTeam(teams, id), id) == RemoveTeam(teams, id)
  {
    var r := RemoveTeam(teams, id);
    forall i | 0 <= i < |r| ensures r[i].id != id {
      assert r[i] in r;
    }
    RemoveTeamAbsent(r, id);
  }

  /** Removing the team just added gives back the old list, when its id was fresh. */
  lemma RemoveUndoesAdd(teams: seq<Team>, name: string, color: string)
    requires !IsBlank(name)
    requires forall i :: 0 <= i < |teams| ==> teams[i].id != |teams| + 1
    ensures RemoveTeam(AddTeam(teams, name, color), |teams| + 1) == teams
  {
    var added := Team(|teams| + 1, name, 0, color);
    assert AddTeam(teams, name, color) == teams + [added];
    RemoveTeamAppend(teams, [added], |teams| + 1);
    RemoveTeamAbsent(teams, |teams| + 1);
    assert RemoveTeam([added], |teams| + 1) == [];
  }

  /** Later fields of two successive edits win. */
  lemma UpdateTeamThen(teams: seq<Team>, id: nat, first: TeamUpdate, second: TeamUpdate)
    ensures UpdateTeam(UpdateTeam(teams, id, first), id, second) == UpdateTeam(teams, id, Then(first, second))
  {
    var lhs := UpdateTeam(UpdateTeam(teams, id, first), id, second);
    var rhs := UpdateTeam(teams, id, Then(first, second));
    forall i | 0 <= i < |teams| ensures lhs[i] == rhs[i] {
    }
  }

  /** None of the registry operations can make a score negative. */
  lemma RegistryKeepsScoresNonNegative(teams: seq<Team>, name: string, color: string, id: nat, u: TeamUpdate)
    requires ScoresNonNegative(teams)
    ensures ScoresNonNegative(AddTeam(teams, name, color))
    ensures ScoresNonNegative(RemoveTeam(teams, id))
    ensures ScoresNonNegative(UpdateTeam(teams, id, u))
  {
    var a := AddTeam(teams, name, color);
    if !IsBlank(name) {
      var t := Team(|teams| + 1, name, 0, color);
      assert a == teams + [t];
      forall i | 0 <= i < |a| ensures a[i].score >= 0 {
        if i < |teams| {
          assert a[i] == teams[i];
        } else {
          assert a[i] == t;
        }
      }
    }
    var r := RemoveTeam(teams, id);
    forall i | 0 <= i < |r| ensures r[i].score >= 0 {
      assert r[i] in r;
    }
  }

  // ---------------------------------------------------------------------
  // Team ids
  // ---------------------------------------------------------------------

  predicate IdsDistinct(teams: seq<Team>) {
    forall i, j :: 0 <= i < j < |teams| ==> teams[i].id != teams[j].id
  }

  /** The ids a registry without removals holds: distinct, and within 1..length. */
  predicate IdsDense(teams: seq<Team>) {
    IdsDistinct(teams) && forall i :: 0 <= i < |teams| ==> 1 <= teams[i].id <= |teams|
  }

  /** As long as no team was removed, `id = length + 1` is a fresh id. */
  lemma AddKeepsIdsDense(teams: seq<Team>, name: string, color: string)
    requires IdsDense(teams)
    ensures IdsDense(AddTeam(teams, name, color))
  {
    var a := AddTeam(teams, name, color);
    if IsBlank(name) {
      assert a == teams;
    } else {
      var t := Team(|teams| + 1, name, 0, color);
      assert a == teams + [t];
      forall i, j | 0 <= i < j < |a| ensures a[i].id != a[j].id {
        assert a[i] == teams[i];
        if j < |teams| {
          assert a[j] == teams[j];
        } else {
          assert a[j] == t;
        }
      }
      forall i | 0 <= i < |a| ensures 1 <= a[i].id <= |a| {
        if i < |teams| {
          assert a[i] == teams[i];
        } else {
          assert a[i] == t;
        }
      }
    }
  }

  /**
   * After a removal, `id = length + 1` can repeat an id still in use:
   * two teams added, the first removed, a third added; both remaining teams have id 2.
   */
  lemma AddAfterRemoveRepeatsId(n1: string, n2: string, n3: string, c1: string, c2: string, c3: string)
    requires !IsBlank(n1) && !IsBlank(n2) && !IsBlank(n3)
    ensures AddTeam(RemoveTeam(AddTeam(AddTeam([], n1, c1), n2, c2), 1), n3, c3)
         == [Team(2, n2, 0, c2), Team(2, n3, 0, c3)]
  {
    var a, b := Team(1, n1, 0, c1), Team(2, n2, 0, c2);
    assert AddTeam([], n1, c1) == [a];
    assert AddTeam([a], n2, c2) == [a, b];
    RemoveFirstOfTwo(a, b, 1);
  }

  /** Removing the id of the first of two teams keeps the second. */
  lemma RemoveFirstOfTwo(t: Team, u: Team, id: nat)
    requires t.id == id && u.id != id
    ensures RemoveTeam([t, u], id) == [u]
  {
    assert [t, u][1..] == [u];
    assert [u][1..] == [];
  }


  // ---------------------------------------------------------------------
  // Score buttons
  // ---------------------------------------------------------------------

  /** An `onScoreChange(teamId, change)` call. */
  datatype ScoreChange = ScoreChange(teamId: nat, change: int)

  const ScoreButtons: seq<int> := [100, 200, 300, 500, -100, -200, -300, -500]

  /** One of the quick buttons on a team card. */
  function QuickScoreChange(teamId: nat, button: nat): (ev: ScoreChange)
    requires button < |ScoreButtons|
    ensures ev.teamId == teamId
    ensures ev.change in {100, 200, 300, 500, -100, -200, -300, -500}
    ensures ev.change > 0 <==> button < 4
  {
    ScoreChange(teamId, ScoreButtons[button])
  }

  /** The custom value: the parsed integer, or 0 when parsing fails (`parseInt(v) || 0`). */
  function CustomScoreChange(teamId: nat, parsed: Option<int>): (ev: ScoreChange)
    ensures ev.teamId == teamId
    ensures parsed.None? ==> ev.change == 0
    ensures parsed.Some? ==> ev.change == parsed.value
  {
    ScoreChange(teamId, parsed.GetOr(0))
  }

  // ---------------------------------------------------------------------
  // Ranking: `teams.sort((a, b) => b.score - a.score).findIndex(...) + 1`
  // ---------------------------------------------------------------------

  predicate DescendingByScore(s: seq<Team>) {
    forall i, j :: 0 <= i < j < |s| ==> s[i].score >= s[j].score
  }

  /** Place `x` after every element whose score is at least its own (a stable insertion). */
  function InsertByScore(sorted: seq<Team>, x: Team): seq<Team>
  {
    if sorted == [] || sorted[|sorted| - 1].score >= x.score then sorted + [x]
    else InsertByScore(sorted[..|sorted| - 1], x) + [sorted[|sorted| - 1]]
  }

  /** The order a stable sort by descending score produces. */
  function SortByScore(s: seq<Team>): seq<Team>
  {
    if s == [] then [] else InsertByScore(SortByScore(s[..|s| - 1]), s[|s| - 1])
  }

  /** The subsequence of teams holding score `v`, in their order. */
  function WithScore(s: seq<Team>, v: int): seq<Team>
  {
    if s == [] then []
    else WithScore(s[..|s| - 1], v) + (if s[|s| - 1].score == v then [s[|s| - 1]] else [])
  }

  lemma {:induction false} InsertByScorePermutes(sorted: seq<Team>, x: Team)
    ensures multiset(InsertByScore(sorted, x)) == multiset(sorted) + multiset{x}
  {
    if !(sorted == [] || sorted[|sorted| - 1].score >= x.score) {
      var init, last := sorted[..|sorted| - 1], sorted[|sorted| - 1];
      InsertByScorePermutes(init, x);
      assert sorted == init + [last];
    }
  }

  /** The ranking sort is a permutation of the teams. */
  lemma {:induction false} SortByScorePermutes(s: seq<Team>)
    ensures multiset(SortByScore(s)) == multiset(s)
  {
    if s != [] {
      var init, last := s[..|s| - 1], s[|s| - 1];
      SortByScorePermutes(init);
      InsertByScorePermutes(SortByScore(init), last);
      assert s == init + [last];
    }
  }

  lemma {:induction false} InsertByScoreDescending(sorted: seq<Team>, x: Team)
    requires DescendingByScore(sorted)
    ensures DescendingByScore(InsertByScore(sorted, x))
  {
    if !(sorted == [] || sorted[|sorted| - 1].score >= x.score) {
      var init, last := sorted[..|sorted| - 1], sorted[|sorted| - 1];
      InsertByScoreDescending(init, x);
      InsertByScorePermutes(init, x);
      var ins := InsertByScore(init, x);
      forall i | 0 <= i < |ins| ensures ins[i].score >= last.score {
        assert ins[i] in multiset(ins);
        if ins[i] != x {
          assert ins[i] in multiset(init);
          var k :| 0 <= k < |init| && init[k] == ins[i];
          assert sorted[k] == init[k];
        }
      }
    }
  }

  /** The ranking sort orders the teams by descending score. */
  lemma {:induction false} SortByScoreDescending(s: seq<Team>)
    ensures DescendingByScore(SortByScore(s))
  {
    if s != [] {
      SortByScoreDescending(s[..|s| - 1]);
      InsertByScoreDescending(SortByScore(s[..|s| - 1]), s[|s| - 1]);
    }
  }

  lemma {:induction false} WithScoreAppend(a: seq<Team>, b: seq<Team>, v: int)
    ensures WithScore(a + b, v) == WithScore(a, v) + WithScore(b, v)
  {
    if b != [] {
      var init := b[..|b| - 1];
      assert (a + b)[..|a + b| - 1] == a + init;
      WithScoreAppend(a, init, v);
    } else {
      assert a + b == a;
    }
  }

  lemma {:induction false} InsertByScoreStable(sorted: seq<Team>, x: Team, v: int)
    ensures WithScore(InsertByScore(sorted, x), v) == WithScore(sorted, v) + (if x.score == v then [x] else [])
  {
    var xs := if x.score == v then [x] else [];
    if sorted == [] || sorted[|sorted| - 1].score >= x.score {
      assert (sorted + [x])[..|sorted|] == sorted;
    } else {
      var init, last := sorted[..|sorted| - 1], sorted[|sorted| - 1];
      var ls := if last.score == v then [last] else [];
      var q := InsertByScore(init, x);
      assert WithScore(InsertByScore(sorted, x), v) == WithScore(q, v) + ls by {
        assert InsertByScore(sorted, x) == q + [last];
        assert (q + [last])[..|q|] == q;
      }
      InsertByScoreStable(init, x, v);
      SwapDisjointGroups(WithScore(init, v), xs, ls);
    }
  }

  /** Two appended groups of which one is empty can be appended in either order. */
  lemma SwapDisjointGroups(w: seq<Team>, xs: seq<Team>, ls: seq<Team>)
    requires xs == [] || ls == []
    ensures (w + xs) + ls == (w + ls) + xs
  {
    if xs == [] {
      assert w + xs == w && ls + xs == ls;
    } else {
      assert w + ls == w && xs + ls == xs;
    }
  }

  /** The ranking sort is stable: teams with equal scores keep their relative order. */
  lemma {:induction false} SortByScoreStable(s: seq<Team>, v: int)
    ensures WithScore(SortByScore(s), v) == WithScore(s, v)
  {
    if s != [] {
      SortByScoreStable(s[..|s| - 1], v);
      InsertByScoreStable(SortByScore(s[..|s| - 1]), s[|s| - 1], v);
    }
  }

  /** Sorting an already sorted list changes nothing, so repeated renders keep the order. */
  lemma {:induction false} SortByScoreOfDescending(s: seq<Team>)
    requires DescendingByScore(s)
    ensures SortByScore(s) == s
  {
    if s != [] {
      DescendingInit(s);
      SortByScoreOfDescending(s[..|s| - 1]);
      LastFitsAfter(s);
    }
  }

  /** In a descending list, inserting the last team after the others puts it back last. */
  lemma LastFitsAfter(s: seq<Team>)
    requires s != [] && DescendingByScore(s)
    ensures InsertByScore(s[..|s| - 1], s[|s| - 1]) == s
  {
    var init, last := s[..|s| - 1], s[|s| - 1];
    if init != [] {
      assert init[|init| - 1] == s[|s| - 2];
    }
    assert s == init + [last];
  }

  /** Dropping the last team keeps a list descending. */
  lemma DescendingInit(s: seq<Team>)
    requires s != [] && DescendingByScore(s)
    ensures DescendingByScore(s[..|s| - 1])
  {
    var init := s[..|s| - 1];
    forall i, j | 0 <= i < j < |init| ensures init[i].score >= init[j].score {
      assert init[i] == s[i] && init[j] == s[j];
    }
  }


  /** A team is in the teams holding score `v` exactly when it is listed and scores `v`. */
  lemma {:induction false} WithScoreMembers(s: seq<Team>, v: int)
    ensures forall x :: x in WithScore(s, v) <==> x in s && x.score == v
  {
    if s != [] {
      var init := s[..|s| - 1];
      WithScoreMembers(init, v);
      assert s == init + [s[|s| - 1]];
    }
  }

  /** In a descending list, the last team has the lowest score. */
  lemma LastScoresLowest(a: seq<Team>, x: Team)
    requires DescendingByScore(a) && x in a
    ensures x.score >= a[|a| - 1].score
  {
    var k :| 0 <= k < |a| && a[k] == x;
  }

  /** A common suffix cancels. */
  lemma SnocCancel(p: seq<Team>, q: seq<Team>, t: seq<Team>)
    requires p + t == q + t
    ensures p == q
  {
    assert |p| == |q|;
    assert p == (p + t)[..|p|];
    assert q == (q + t)[..|q|];
  }

  /** A team of `a` is among the teams of `b` with its score, so it scores at least `b`'s last. */
  lemma LastScoreAtMost(a: seq<Team>, b: seq<Team>)
    requires a != [] && b != [] && DescendingByScore(b)
    requires WithScore(a, a[|a| - 1].score) == WithScore(b, a[|a| - 1].score)
    ensures a[|a| - 1].score >= b[|b| - 1].score
  {
    var x := a[|a| - 1];
    WithScoreMembers(a, x.score);
    WithScoreMembers(b, x.score);
    assert x in WithScore(a, x.score);
    LastScoresLowest(b, x);
  }

  /** The last team of a list is the last of the teams with its score. */
  lemma GroupOfLastEndsWithIt(a: seq<Team>)
    requires a != []
    ensures var g := WithScore(a, a[|a| - 1].score); g != [] && g[|g| - 1] == a[|a| - 1]
  {
    var x := a[|a| - 1];
    var g := WithScore(a[..|a| - 1], x.score);
    assert WithScore(a, x.score) == g + [x];
  }

  /** Two non-empty descending lists with the same score groups end on the same team. */
  lemma LastTeamsAgree(a: seq<Team>, b: seq<Team>)
    requires a != [] && b != []
    requires DescendingByScore(a) && DescendingByScore(b)
    requires forall v :: WithScore(a, v) == WithScore(b, v)
    ensures a[|a| - 1] == b[|b| - 1]
  {
    var x, y := a[|a| - 1], b[|b| - 1];
    assert WithScore(a, x.score) == WithScore(b, x.score);
    LastScoreAtMost(a, b);
    assert WithScore(b, y.score) == WithScore(a, y.score);
    LastScoreAtMost(b, a);
    GroupOfLastEndsWithIt(a);
    GroupOfLastEndsWithIt(b);
  }

  /** Dropping the same last team from two lists with the same score groups keeps them the same. */
  lemma InitGroupsAgree(a: seq<Team>, b: seq<Team>, v: int)
    requires a != [] && b != [] && a[|a| - 1] == b[|b| - 1]
    requires WithScore(a, v) == WithScore(b, v)
    ensures WithScore(a[..|a| - 1], v) == WithScore(b[..|b| - 1], v)
  {
    var x := a[|a| - 1];
    var t := if x.score == v then [x] else [];
    assert WithScore(a, v) == WithScore(a[..|a| - 1], v) + t;
    assert WithScore(b, v) == WithScore(b[..|b| - 1], v) + t;
    SnocCancel(WithScore(a[..|a| - 1], v), WithScore(b[..|b| - 1], v), t);
  }

  /**
   * Two descending lists of the same length that hold, score by score, the
   * same teams in the same order are equal.
   */
  lemma {:induction false} DescendingDeterminedByScoreGroups(a: seq<Team>, b: seq<Team>)
    requires |a| == |b|
    requires DescendingByScore(a) && DescendingByScore(b)
    requires forall v :: WithScore(a, v) == WithScore(b, v)
    ensures a == b
    decreases |a|
  {
    if a != [] {
      LastTeamsAgree(a, b);
      var ia, ib := a[..|a| - 1], b[..|b| - 1];
      forall v ensures WithScore(ia, v) == WithScore(ib, v) {
        InitGroupsAgree(a, b, v);
      }
      DescendingDeterminedByScoreGroups(ia, ib);
      assert a == ia + [a[|a| - 1]] && b == ib + [b[|b| - 1]];
    }
  }

  /**
   * The order of a stable sort by descending score is unique: any descending
   * permutation of `s` that keeps teams of equal score in their order is
   * `SortByScore(s)`, so the engine's own stable sort gives that order too.
   */
  lemma StableDescendingSortIsSortByScore(s: seq<Team>, t: seq<Team>)
    requires multiset(t) == multiset(s)
    requires DescendingByScore(t)
    requires forall v :: WithScore(t, v) == WithScore(s, v)
    ensures t == SortByScore(s)
  {
    SortByScorePermutes(s);
    SortByScoreDescending(s);
    forall v ensures WithScore(t, v) == WithScore(SortByScore(s), v) {
      SortByScoreStable(s, v);
    }
    assert |t| == |multiset(t)| == |multiset(SortByScore(s))| == |SortByScore(s)|;
    DescendingDeterminedByScoreGroups(t, SortByScore(s));
  }

  /** The rank shown for team `id`: one more than its index after the sort (0 if absent). */
  function RankOf(teams: seq<Team>, id: nat): int {
    IndexOfId(SortByScore(teams), id) + 1
  }

  lemma RankInRange(teams: seq<Team>, id: nat)
    ensures (exists i :: 0 <= i < |teams| && teams[i].id == id) <==> 1 <= RankOf(teams, id) <= |teams|
    ensures (forall i :: 0 <= i < |teams| ==> teams[i].id != id) ==> RankOf(teams, id) == 0
  {
    var sorted := SortByScore(teams);
    SortByScorePermutes(teams);
    assert |sorted| == |multiset(sorted)| == |teams|;
    if exists i :: 0 <= i < |teams| && teams[i].id == id {
      var i :| 0 <= i < |teams| && teams[i].id == id;
      assert teams[i] in multiset(sorted);
    } else {
      forall k | 0 <= k < |sorted| ensures sorted[k].id != id {
        assert sorted[k] in multiset(teams);
      }
    }
  }

  lemma DistinctIdsSameTeam(teams: seq<Team>, a: Team, b: Team)
    requires IdsDistinct(teams) && a in teams && b in teams && a.id == b.id
    ensures a == b
  {
  }

  /** With distinct ids, a strictly higher score gives a strictly better (smaller) rank. */
  lemma HigherScoreRanksFirst(teams: seq<Team>, a: Team, b: Team)
    requires IdsDistinct(teams) && a in teams && b in teams
    requires a.score > b.score
    ensures RankOf(teams, a.id) < RankOf(teams, b.id)
  {
    var sorted := SortByScore(teams);
    SortByScorePermutes(teams);
    SortByScoreDescending(teams);
    assert a in multiset(sorted) && b in multiset(sorted);
    var ka, kb := IndexOfId(sorted, a.id), IndexOfId(sorted, b.id);
    assert ka >= 0 && kb >= 0;
    assert sorted[ka] in multiset(teams) && sorted[kb] in multiset(teams);
    DistinctIdsSameTeam(teams, sorted[ka], a);
    DistinctIdsSameTeam(teams, sorted[kb], b);
  }
  /**
   * Without distinct ids the ranking above fails: two teams that share an id
   * both show the rank of the one sorted first, whatever their scores. A repeated
   * id is reachable (`AddAfterRemoveRepeatsId`).
   */
  lemma SharedIdSharesRank(a: Team, b: Team)
    requires a.id == b.id
    ensures RankOf([a, b], a.id) == 1 && RankOf([a, b], b.id) == 1
  {
    assert [a, b][..1] == [a];
    assert SortByScore([a]) == [a] by {
      assert [a][..0] == [];
    }
    var sorted := SortByScore([a, b]);
    assert sorted == InsertByScore([a], b);
    assert sorted == (if a.score >= b.score then [a, b] else [b, a]) by {
      assert [a][..0] == [];
    }
  }


  /**
   * One step of the in-place sort: the element at `i` is shifted left past every
   * element of the sorted prefix with a lower score.
   */
  method InsertInPlace(a: array<Team>, i: nat)
    requires i < a.Length
    modifies a
    ensures a[..i + 1] == InsertByScore(old(a[..i]), old(a[i]))
    ensures a[i + 1..] == old(a[i + 1..])
  {
    ghost var orig := a[..];
    ghost var sorted := a[..i];
    var x := a[i];
    var j := i;
    while j > 0 && a[j - 1].score < x.score
      invariant 0 <= j <= i
      invariant forall k :: 0 <= k < j ==> a[k] == sorted[k]
      invariant forall k :: j < k <= i ==> a[k] == sorted[k - 1]
      invariant forall k :: i < k < a.Length ==> a[k] == orig[k]
      invariant forall k :: j <= k < i ==> sorted[k].score < x.score
    {
      a[j] := a[j - 1];
      j := j - 1;
    }
    a[j] := x;
    ghost var now := a[..i + 1];
    assert forall k :: 0 <= k < j ==> now[k] == sorted[k];
    assert forall k :: j < k <= i ==> now[k] == sorted[k - 1];
    InsertAt(sorted, x, j, now);
    assert a[i + 1..] == orig[i + 1..];
  }

  /**
   * The stable insertion puts `x` right after the last element whose score is at
   * least its own: here at `j`, when everything from `j` on scores lower.
   */
  lemma {:induction false} InsertAt(sorted: seq<Team>, x: Team, j: nat, now: seq<Team>)
    requires j <= |sorted| && |now| == |sorted| + 1
    requires j == 0 || sorted[j - 1].score >= x.score
    requires forall k :: j <= k < |sorted| ==> sorted[k].score < x.score
    requires forall k :: 0 <= k < j ==> now[k] == sorted[k]
    requires now[j] == x
    requires forall k :: j < k < |now| ==> now[k] == sorted[k - 1]
    ensures now == InsertByScore(sorted, x)
  {
    if j == |sorted| {
      assert now == sorted + [x];
    } else {
      var init, last := sorted[..|sorted| - 1], sorted[|sorted| - 1];
      InsertAt(init, x, j, now[..|now| - 1]);
      assert now == now[..|now| - 1] + [last];
    }
  }

  /** Sorting one more element of a prefix is one more stable insertion. */
  lemma SortByScorePrefix(s: seq<Team>, i: nat)
    requires i < |s|
    ensures SortByScore(s[..i + 1]) == InsertByScore(SortByScore(s[..i]), s[i])
  {
    assert s[..i + 1][..i] == s[..i];
  }

  /** The in-place sort of the rank column, proved to produce `SortByScore`. */
  method SortTeamsInPlace(a: array<Team>)
    modifies a
    ensures a[..] == SortByScore(old(a[..]))
  {
    ghost var orig := a[..];
    var i := 0;
    while i < a.Length
      invariant 0 <= i <= a.Length
      invariant a[..i] == SortByScore(orig[..i])
      invariant a[i..] == orig[i..]
    {
      assert a[i] == orig[i];
      assert a[i + 1..] == orig[i + 1..];
      InsertInPlace(a, i);
      SortByScorePrefix(orig, i);
      i := i + 1;
    }
    assert orig[..a.Length] == orig;
  }

  /** The rank column: sort the shared array, then `findIndex(...) + 1`. */
  method Rank(a: array<Team>, id: nat) returns (rank: int)
    modifies a
    ensures a[..] == SortByScore(old(a[..]))
    ensures rank == RankOf(old(a[..]), id)
  {
    SortTeamsInPlace(a);
    rank := IndexOfId(a[..], id) + 1;
  }

  // ---------------------------------------------------------------------
  // The panel's own state
  // ---------------------------------------------------------------------

  /** The scoreboard's local state: the name typed for a new team, and the team being renamed. */
  class ScoreBoardState {
    var newTeamName: string
    var editingTeam: Option<nat>

    constructor ()
      ensures newTeamName == [] && editingTeam == None
    {
      newTeamName := [];
      editingTeam := None;
    }

    method SetNewTeamName(name: string)
      modifies this`newTeamName
      ensures newTeamName == name
    {
      newTeamName := name;
    }

    /** The "add team" button: returns the list handed to `onTeamsChange`, if any. */
    method HandleAddTeam(teams: seq<Team>, color: string) returns (change: Option<seq<Team>>)
      modifies this`newTeamName
      ensures IsBlank(old(newTeamName)) ==> change == None && newTeamName == old(newTeamName)
      ensures !IsBlank(old(newTeamName)) ==> change == Some(AddTeam(teams, old(newTeamName), color)) && newTeamName == []
    {
      TrimIsEmptyIffBlank(newTeamName);
      if Trim(newTeamName) != [] {
        change := Some(AddTeam(teams, newTeamName, color));
        newTeamName := [];
      } else {
        change := None;
      }
    }

    /** Clicking a team's name opens its rename field. */
    method BeginEdit(id: nat)
      modifies this`editingTeam
      ensures editingTeam == Some(id)
    {
      editingTeam := Some(id);
    }

    /** A rename or recolour: returns the list handed to `onTeamsChange` and closes the editor. */
    method HandleUpdateTeam(teams: seq<Team>, id: nat, u: TeamUpdate) returns (change: seq<Team>)
      modifies this`editingTeam
      ensures change == UpdateTeam(teams, id, u)
      ensures editingTeam == None
    {
      change := UpdateTeam(teams, id, u);
      editingTeam := None;
    }
  }
}

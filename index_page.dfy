/** The dashboard page's own logic: the set of selected teams, which a click
    on a team toggles, and the player list filtered by the selected teams and
    the search box. */
module IndexPage {
  import opened StableSort
  import opened Text
  import opened MockData

  // ------------------------------------------------------------ team toggle

  /** `selectedTeams.filter(t => t !== team)` */
  function Without(s: seq<Team>, team: Team): (r: seq<Team>)
    ensures |r| <= |s|
    ensures forall t :: t in r <==> t in s && t != team
  {
    if s == [] then []
    else (if s[0] != team then [s[0]] else []) + Without(s[1..], team)
  }

  /** The selection after a click on `team`: a selected team is dropped unless
      it is the only one; an unselected team is appended. */
  function Toggled(sel: seq<Team>, team: Team): seq<Team>
  {
    if team in sel then (if |sel| > 1 then Without(sel, team) else sel)
    else sel + [team]
  }

  /** The page's selection state. */
  class Dashboard {
    var selectedTeams: seq<Team>

    /** At least one team is selected, and none twice. */
    ghost predicate Valid()
      reads this
    {
      selectedTeams != [] && NoDup(selectedTeams)
    }

    /** The page opens with all six teams selected, in the source's order. */
    constructor ()
      ensures Valid() && selectedTeams == AllTeams
    {
      selectedTeams := AllTeams;
      new;
      assert NoDup(AllTeams) by {
        forall i, j | 0 <= i < j < 6 ensures AllTeams[i] != AllTeams[j] {
        }
      }
    }

    /** `handleToggleTeam(team)` */
    method ToggleTeam(team: Team)
      requires Valid()
      modifies this
      ensures Valid()
      ensures selectedTeams == Toggled(old(selectedTeams), team)
    {
      ToggledValid(selectedTeams, team);
      if team in selectedTeams {
        if |selectedTeams| > 1 {
          selectedTeams := Without(selectedTeams, team);
        }
      } else {
        selectedTeams := selectedTeams + [team];
      }
    }
  }

  /** Dropping a team that occurs once removes that one position: the other
      teams stay, in their order. */
  lemma {:induction false} WithoutRemovesOne(s: seq<Team>, team: Team, i: int)
    requires 0 <= i < |s| && s[i] == team
    requires forall j :: 0 <= j < |s| && j != i ==> s[j] != team
    ensures Without(s, team) == s[..i] + s[i + 1..]
  {
    if i > 0 {
      WithoutRemovesOne(s[1..], team, i - 1);
      assert s[1..][..i - 1] == s[1..i];
      assert s[1..][i..] == s[i + 1..];
      assert s[..i] == [s[0]] + s[1..i];
    } else {
      WithoutKeepsAbsent(s[1..], team);
    }
  }

  /** Dropping a team that is not there changes nothing. */
  lemma {:induction false} WithoutKeepsAbsent(s: seq<Team>, team: Team)
    requires team !in s
    ensures Without(s, team) == s
  {
    if s != [] {
      WithoutKeepsAbsent(s[1..], team);
      assert s == [s[0]] + s[1..];
    }
  }

  lemma {:induction false} WithoutNoDup(s: seq<Team>, team: Team)
    requires NoDup(s)
    ensures NoDup(Without(s, team))
  {
    if s != [] {
      assert NoDup(s[1..]) by {
        forall i, j | 0 <= i < j < |s[1..]| ensures s[1..][i] != s[1..][j] {
          assert s[1..][i] == s[i + 1] && s[1..][j] == s[j + 1];
        }
      }
      WithoutNoDup(s[1..], team);
      var rest := Without(s[1..], team);
      if s[0] != team {
        assert s[0] !in s[1..] by {
          forall j | 0 <= j < |s[1..]| ensures s[1..][j] != s[0] {
            assert s[1..][j] == s[j + 1];
          }
        }
        var r := [s[0]] + rest;
        forall i, j | 0 <= i < j < |r| ensures r[i] != r[j] {
          assert r[j] == rest[j - 1];
          if i > 0 {
            assert r[i] == rest[i - 1];
          }
        }
      }
    }
  }

  /** Every click keeps the selection non-empty and free of duplicates. */
  lemma ToggledValid(sel: seq<Team>, team: Team)
    requires sel != [] && NoDup(sel)
    ensures Toggled(sel, team) != [] && NoDup(Toggled(sel, team))
  {
    if team in sel {
      if |sel| > 1 {
        WithoutNoDup(sel, team);
        var j := if sel[0] == team then 1 else 0;
        assert sel[j] != team by {
          if sel[0] == team {
            assert sel[0] != sel[1];
          }
        }
        assert sel[j] in Without(sel, team);
      }
    } else {
      var r := sel + [team];
      forall i, j | 0 <= i < j < |r| ensures r[i] != r[j] {
        if j < |sel| {
          assert r[i] == sel[i] && r[j] == sel[j];
        } else {
          assert r[i] == sel[i];
        }
      }
    }
  }

  /** Clicking a selected team while others are selected removes exactly that
      team and keeps the others in order. */
  lemma ToggleRemovesSelected(sel: seq<Team>, team: Team)
    requires NoDup(sel) && team in sel && |sel| > 1
    ensures team !in Toggled(sel, team)
    ensures exists i :: 0 <= i < |sel| && sel[i] == team && Toggled(sel, team) == sel[..i] + sel[i + 1..]
  {
    var i :| 0 <= i < |sel| && sel[i] == team;
    WithoutRemovesOne(sel, team, i);
  }

  /** Clicking the only selected team leaves the selection as it is. */
  lemma ToggleKeepsLastTeam(team: Team)
    ensures Toggled([team], team) == [team]
  {
  }

  /** Clicking an unselected team appends it; clicking it again restores the
      selection. */
  lemma ToggleTwiceRestores(sel: seq<Team>, team: Team)
    requires sel != [] && team !in sel
    ensures Toggled(sel, team) == sel + [team]
    ensures Toggled(Toggled(sel, team), team) == sel
  {
    var r := sel + [team];
    assert r[|sel|] == team;
    forall j | 0 <= j < |r| && j != |sel| ensures r[j] != team {
      assert r[j] == sel[j];
    }
    WithoutRemovesOne(r, team, |sel|);
    assert r[..|sel|] == sel;
  }

  /** A click changes the membership of the clicked team only, and of that one
      exactly when it is not the last team selected. */
  lemma ToggleMembership(sel: seq<Team>, team: Team, t: Team)
    ensures t != team ==> (t in Toggled(sel, team) <==> t in sel)
    ensures team in Toggled(sel, team) <==> team !in sel || sel == [team]
  {
    if team in sel && |sel| == 1 {
      assert sel[0] == team;
      assert sel == [team];
    }
  }

  // ---------------------------------------------------------- player filter

  /** A player is listed when its team is selected and the lower-cased search
      term occurs in its lower-cased name or position. */
  predicate Matches(p: Player, selected: seq<Team>, term: string)
  {
    && p.team in selected
    && (Contains(Lower(p.name), Lower(term)) || Contains(Lower(p.position), Lower(term)))
  }

  /** `filteredPlayers` */
  function FilterPlayers(players: seq<Player>, selected: seq<Team>, term: string): (r: seq<Player>)
    ensures forall p :: p in r <==> p in players && Matches(p, selected, term)
    ensures forall p :: multiset(r)[p] == if Matches(p, selected, term) then multiset(players)[p] else 0
    ensures Subseq(r, players)
  {
    if players == [] then []
    else
      var rest := FilterPlayers(players[1..], selected, term);
      assert players == [players[0]] + players[1..];
      if Matches(players[0], selected, term) then [players[0]] + rest else rest
  }

  /** With an empty search box only the team selection counts. */
  lemma EmptyTermFiltersByTeam(players: seq<Player>, selected: seq<Team>)
    ensures forall p :: p in FilterPlayers(players, selected, "") <==> p in players && p.team in selected
  {
    forall p: Player ensures Matches(p, selected, "") <==> p.team in selected {
      ContainsEmpty(Lower(p.name));
    }
  }

  /** With all teams selected and an empty search box every player is listed,
      in order. */
  lemma {:induction false} InitialFilterListsEveryone(players: seq<Player>)
    ensures FilterPlayers(players, AllTeams, "") == players
  {
    if players != [] {
      EveryTeamListed(players[0].team);
      ContainsEmpty(Lower(players[0].name));
      InitialFilterListsEveryone(players[1..]);
      assert players == [players[0]] + players[1..];
    }
  }

  /** The search ignores case: two terms that lower-case alike list the same
      players. */
  lemma {:induction false} SearchIgnoresCase(players: seq<Player>, selected: seq<Team>, a: string, b: string)
    requires Lower(a) == Lower(b)
    ensures FilterPlayers(players, selected, a) == FilterPlayers(players, selected, b)
  {
    if players != [] {
      SearchIgnoresCase(players[1..], selected, a, b);
    }
  }

  /** Typing the term in lower case lists the same players. */
  lemma LowerCaseTermAlike(players: seq<Player>, selected: seq<Team>, term: string)
    ensures FilterPlayers(players, selected, Lower(term)) == FilterPlayers(players, selected, term)
  {
    LowerIdempotent(term);
    SearchIgnoresCase(players, selected, Lower(term), term);
  }
}

/** The data and query layer of the dashboard (src/utils/mockData.ts): teams,
    games, players and per-game statistics, the synthesis of those statistics
    from the seed data, and the five read-only queries over them.

    Costs and cost changes are whole tenths (10.2 is 102); dates are the
    integer YYYYMMDD (2024-02-02 is 20240202), which orders like the
    timestamps the source compares. The module-level arrays become values
    passed to each query, so no query can change them. */
module MockData {
  import opened Options
  import opened StableSort

  // ---------------------------------------------------------------- entities

  datatype Team = England | France | Ireland | Italy | Scotland | Wales

  /** The keys of the per-team record, in insertion order; also the initial
      team selection of the page. */
  const AllTeams: seq<Team> := [England, France, Ireland, Italy, Scotland, Wales]

  /** An optional score: left out of the object (`undefined`), written as
      `null`, or a number. */
  datatype ScoreField = Omitted | Null | Score(n: int)

  datatype Game = Game(
    id: int, round: int, date: int,
    homeTeam: Team, awayTeam: Team,
    homeScore: ScoreField, awayScore: ScoreField)

  datatype Player = Player(
    id: int, name: string, position: string, team: Team,
    cost: int, points: int, costChange: int, pointsChange: int,
    form: seq<int>)

  datatype PlayerGameStats = PlayerGameStats(
    playerId: int, gameId: int, points: int, cost: int,
    minutesPlayed: int, tries: int, assists: int, tackles: int, linebreaks: int)

  ghost predicate DistinctPlayerIds(ps: seq<Player>)
  {
    forall i, j :: 0 <= i < j < |ps| ==> ps[i].id != ps[j].id
  }

  ghost predicate DistinctGameIds(gs: seq<Game>)
  {
    forall i, j :: 0 <= i < j < |gs| ==> gs[i].id != gs[j].id
  }

  /** Home and away are different teams in every game. */
  ghost predicate TwoSidedGames(gs: seq<Game>)
  {
    forall g :: g in gs ==> g.homeTeam != g.awayTeam
  }

  predicate Involves(g: Game, t: Team)
  {
    g.homeTeam == t || g.awayTeam == t
  }

  // --------------------------------------------------------------- seed data

  const SeedGames: seq<Game> := [
    Game(1, 1, 20240202, France, Ireland, Score(17), Score(38)),
    Game(2, 1, 20240203, Italy, England, Score(24), Score(27)),
    Game(3, 1, 20240203, Wales, Scotland, Score(26), Score(27)),
    Game(4, 2, 20240210, Scotland, France, Score(16), Score(20)),
    Game(5, 2, 20240210, England, Wales, Score(16), Score(14)),
    Game(6, 2, 20240211, Ireland, Italy, Score(36), Score(0)),
    Game(7, 3, 20240224, Ireland, Wales, Score(31), Score(7)),
    Game(8, 3, 20240224, Scotland, England, Score(30), Score(21)),
    Game(9, 3, 20240225, France, Italy, Score(13), Score(13)),
    Game(10, 4, 20240309, Italy, Scotland, Null, Null),
    Game(11, 4, 20240309, England, Ireland, Null, Null),
    Game(12, 4, 20240310, Wales, France, Null, Null),
    Game(13, 5, 20240316, Wales, Italy, Null, Null),
    Game(14, 5, 20240316, Ireland, Scotland, Null, Null),
    Game(15, 5, 20240316, France, England, Null, Null)
  ]

  const SeedPlayers: seq<Player> := [
    Player(1, "James Lowe", "Wing", Ireland, 102, 63, 8, 15, [12, 18, 20, 13]),
    Player(2, "Damian Penaud", "Wing", France, 105, 48, 3, -5, [15, 10, 8, 15]),
    Player(3, "Duhan van der Merwe", "Wing", Scotland, 98, 69, 12, 22, [25, 8, 28, 8]),
    Player(4, "Tommaso Allan", "Fly-half", Italy, 85, 32, -1, -2, [12, 6, 14, 0]),
    Player(5, "Ben Earl", "Number 8", England, 91, 42, 5, 8, [10, 15, 9, 8]),
    Player(6, "Aaron Wainwright", "Flanker", Wales, 83, 36, -2, -3, [14, 10, 6, 6]),
    Player(7, "Bundee Aki", "Center", Ireland, 97, 52, 6, 12, [15, 14, 12, 11]),
    Player(8, "Ellis Genge", "Prop", England, 88, 28, 1, 4, [6, 8, 7, 7]),
    Player(9, "Finn Russell", "Fly-half", Scotland, 100, 45, 4, 7, [12, 10, 18, 5]),
    Player(10, "Antoine Dupont", "Scrum-half", France, 110, 38, -3, -4, [18, 10, 5, 5]),
    Player(11, "Caelan Doris", "Number 8", Ireland, 95, 44, 5, 10, [10, 12, 10, 12]),
    Player(12, "Ange Capuozzo", "Fullback", Italy, 87, 30, 2, 5, [8, 6, 10, 6])
  ]

  // ------------------------------------------------------- stat synthesis

  /** The random numbers one statistics record consumes, already scaled:
      `pointsRoll` is `Math.floor(Math.random() * 15)`, `costRoll` the rounded
      `Math.random() * 15` inside the cost jitter, `minutesRoll` is
      `Math.floor(Math.random() * 40)`, the three booleans are the
      `Math.random() > 0.7` / `> 0.8` tests, `tacklesRoll` is
      `Math.floor(Math.random() * 12)` and `linebreakExtra` is
      `Math.floor(Math.random() * 3)`. */
  datatype Draw = Draw(
    pointsRoll: int, costRoll: int, minutesRoll: int,
    tryRoll: bool, assistRoll: bool, tacklesRoll: int,
    linebreakRoll: bool, linebreakExtra: int)

  predicate InRange(d: Draw)
  {
    && 0 <= d.pointsRoll < 15
    && 0 <= d.costRoll <= 15
    && 0 <= d.minutesRoll < 40
    && 0 <= d.tacklesRoll < 12
    && 0 <= d.linebreakExtra < 3
  }

  type RandomDraw = d: Draw | InRange(d) witness Draw(0, 0, 0, false, false, 0, false, 0)

  /** The bounds every synthesized record keeps. */
  predicate PlausibleStat(s: PlayerGameStats)
  {
    && 5 <= s.points <= 19
    && 40 <= s.minutesPlayed <= 79
    && 1 <= s.tackles <= 12
    && 0 <= s.tries <= 1
    && 0 <= s.assists <= 1
    && 0 <= s.linebreaks <= 3
  }

  /** The filter `game.homeScore !== null` as the source writes it: a game
      whose score is left out of the object passes it. */
  predicate CompletedAsWritten(g: Game)
  {
    g.homeScore != Null
  }

  /** A game is completed when it has a recorded home score. */
  predicate IsCompleted(g: Game)
  {
    g.homeScore.Score?
  }

  lemma OmittedScoreCountsAsCompleted()
    ensures var g := Game(16, 6, 20240323, England, Wales, Omitted, Omitted);
      CompletedAsWritten(g) && !IsCompleted(g)
  {
  }

  /** Every seed game writes its score out, so on the seed data the filter as
      written and the corrected one agree. */
  lemma SeedScoresWrittenOut()
    ensures forall g :: g in SeedGames ==> (CompletedAsWritten(g) <==> IsCompleted(g))
  {
  }

  /** Dropping the first game keeps the ids distinct. */
  lemma DistinctGameIdsTail(games: seq<Game>)
    requires games != [] && DistinctGameIds(games)
    ensures DistinctGameIds(games[1..])
  {
    forall i, j | 0 <= i < j < |games[1..]| ensures games[1..][i].id != games[1..][j].id {
      assert games[1..][i] == games[i + 1] && games[1..][j] == games[j + 1];
    }
  }

  /** A game put in front of some of the games that followed it keeps the ids
      distinct. */
  lemma DistinctGameIdsCons(g: Game, rest: seq<Game>, tail: seq<Game>)
    requires DistinctGameIds([g] + tail) && DistinctGameIds(rest)
    requires forall x :: x in rest ==> x in tail
    ensures DistinctGameIds([g] + rest)
  {
    var r := [g] + rest;
    forall k | 0 <= k < |rest| ensures rest[k].id != g.id {
      assert rest[k] in tail;
      var i :| 0 <= i < |tail| && tail[i] == rest[k];
      assert ([g] + tail)[0] == g && ([g] + tail)[i + 1] == rest[k];
    }
    forall i, j | 0 <= i < j < |r| ensures r[i].id != r[j].id {
      assert r[j] == rest[j - 1];
      if i > 0 {
        assert r[i] == rest[i - 1];
      }
    }
  }

  /** `games.filter(game => game.homeScore !== null)`, with the corrected test. */
  function CompletedGames(games: seq<Game>): (r: seq<Game>)
    ensures forall g :: g in r <==> g in games && IsCompleted(g)
    ensures forall g {:trigger multiset(r)[g]} :: multiset(r)[g] == if IsCompleted(g) then multiset(games)[g] else 0
    ensures Subseq(r, games)
    ensures DistinctGameIds(games) ==> DistinctGameIds(r)
  {
    if games == [] then []
    else
      var rest := CompletedGames(games[1..]);
      assert games == [games[0]] + games[1..];
      if IsCompleted(games[0]) then
        var r := [games[0]] + rest;
        assert r[1..] == rest;
        assert DistinctGameIds(games) ==> DistinctGameIds(r) by {
          if DistinctGameIds(games) {
            DistinctGameIdsTail(games);
            DistinctGameIdsCons(games[0], rest, games[1..]);
          }
        }
        r
      else
        assert Subseq(rest, games) by {
          if rest != [] {
            assert rest[0] in rest;
          }
        }
        assert DistinctGameIds(games) ==> DistinctGameIds(rest) by {
          if DistinctGameIds(games) {
            DistinctGameIdsTail(games);
          }
        }
        rest
  }

  /** The (player, game) pairs the inner loop visits for one player, over the
      completed games `gs`: those the player's team plays in, in game order. */
  function PlayerPairs(p: Player, gs: seq<Game>): seq<(Player, Game)>
  {
    if gs == [] then []
    else
      var last := gs[|gs| - 1];
      PlayerPairs(p, gs[..|gs| - 1]) + (if Involves(last, p.team) then [(p, last)] else [])
  }

  /** The (player, game) pair behind each synthesized record, players outer
      and completed games inner. */
  function StatPairs(players: seq<Player>, games: seq<Game>): seq<(Player, Game)>
  {
    if players == [] then []
    else StatPairs(players[..|players| - 1], games) + PlayerPairs(players[|players| - 1], CompletedGames(games))
  }

  /** The record pushed for player `p` and game `g`, from the draw `d`. */
  function MakeStat(p: Player, g: Game, d: RandomDraw): (s: PlayerGameStats)
    ensures s.playerId == p.id && s.gameId == g.id
    ensures PlausibleStat(s)
    ensures p.cost - 8 <= s.cost <= p.cost + 7
  {
    PlayerGameStats(
      p.id, g.id,
      d.pointsRoll + 5,
      p.cost + 7 - d.costRoll,
      d.minutesRoll + 40,
      if d.tryRoll then 1 else 0,
      if d.assistRoll then 1 else 0,
      d.tacklesRoll + 1,
      if d.linebreakRoll then d.linebreakExtra + 1 else 0)
  }

  /** `stats` holds one record per pair of `pairs`, the k-th made from the
      k-th draw of `rng`. */
  ghost predicate RecordsOf(stats: seq<PlayerGameStats>, pairs: seq<(Player, Game)>, rng: nat -> RandomDraw)
  {
    && |stats| == |pairs|
    && forall k :: 0 <= k < |stats| ==> stats[k] == MakeStat(pairs[k].0, pairs[k].1, rng(k))
  }

  ghost predicate Synthesized(stats: seq<PlayerGameStats>, players: seq<Player>, games: seq<Game>, rng: nat -> RandomDraw)
  {
    RecordsOf(stats, StatPairs(players, games), rng)
  }

  /** Pushing the record of the next pair keeps the records in step with the
      pairs. */
  lemma RecordsPush(stats: seq<PlayerGameStats>, pairs: seq<(Player, Game)>, p: Player, g: Game, rng: nat -> RandomDraw)
    requires RecordsOf(stats, pairs, rng)
    ensures RecordsOf(stats + [MakeStat(p, g, rng(|stats|))], pairs + [(p, g)], rng)
  {
  }

  /** The load-time loop that fills `playerGameStats`: for each player, for
      each completed game, push a record when the player's team plays in it.
      The random source is the parameter `rng`; the k-th record pushed takes
      the k-th draw. */
  method SynthesizeStats(players: seq<Player>, games: seq<Game>, rng: nat -> RandomDraw)
    returns (stats: seq<PlayerGameStats>)
    ensures Synthesized(stats, players, games, rng)
  {
    stats := [];
    var i := 0;
    while i < |players|
      invariant 0 <= i <= |players|
      invariant RecordsOf(stats, StatPairs(players[..i], games), rng)
    {
      var player := players[i];
      var completed := CompletedGames(games);
      ghost var done := StatPairs(players[..i], games);
      var j := 0;
      while j < |completed|
        invariant 0 <= j <= |completed|
        invariant RecordsOf(stats, done + PlayerPairs(player, completed[..j]), rng)
      {
        var game := completed[j];
        ghost var before := done + PlayerPairs(player, completed[..j]);
        assert completed[..j + 1][..j] == completed[..j];
        if game.homeTeam == player.team || game.awayTeam == player.team {
          RecordsPush(stats, before, player, game, rng);
          stats := stats + [MakeStat(player, game, rng(|stats|))];
          assert before + [(player, game)] == done + PlayerPairs(player, completed[..j + 1]);
        } else {
          assert before == done + PlayerPairs(player, completed[..j + 1]);
        }
        j := j + 1;
      }
      assert completed[..j] == completed;
      assert players[..i + 1][..i] == players[..i];
      assert StatPairs(players[..i + 1], games) == done + PlayerPairs(player, completed);
      i := i + 1;
    }
    assert players[..i] == players;
  }

  lemma {:induction false} PlayerPairsMembers(p: Player, gs: seq<Game>, q: Player, g: Game)
    ensures (q, g) in PlayerPairs(p, gs) <==> q == p && g in gs && Involves(g, p.team)
  {
    if gs != [] {
      PlayerPairsMembers(p, gs[..|gs| - 1], q, g);
      assert gs == gs[..|gs| - 1] + [gs[|gs| - 1]];
    }
  }

  /** A pair is visited exactly when the player is listed, the game is
      completed, and the player's team plays in it. */
  lemma {:induction false} StatPairsMembers(players: seq<Player>, games: seq<Game>, p: Player, g: Game)
    ensures (p, g) in StatPairs(players, games)
      <==> p in players && g in games && IsCompleted(g) && Involves(g, p.team)
  {
    if players != [] {
      var init, last := players[..|players| - 1], players[|players| - 1];
      StatPairsMembers(init, games, p, g);
      PlayerPairsMembers(last, CompletedGames(games), p, g);
      assert players == init + [last];
    }
  }

  ghost predicate DistinctPairGames(pr: seq<(Player, Game)>)
  {
    forall i, j :: 0 <= i < j < |pr| ==> pr[i].1.id != pr[j].1.id
  }

  /** No two pairs share both the player id and the game id. */
  ghost predicate DistinctPairKeys(pr: seq<(Player, Game)>)
  {
    forall i, j :: 0 <= i < j < |pr| ==> pr[i].0.id != pr[j].0.id || pr[i].1.id != pr[j].1.id
  }

  lemma {:induction false} PlayerPairsUnique(p: Player, gs: seq<Game>)
    requires DistinctGameIds(gs)
    ensures DistinctPairGames(PlayerPairs(p, gs))
  {
    if gs != [] {
      var init, last := gs[..|gs| - 1], gs[|gs| - 1];
      PlayerPairsUnique(p, init);
      var pr := PlayerPairs(p, init);
      forall k | 0 <= k < |pr| ensures pr[k].1.id != last.id {
        assert pr[k] in pr;
        PlayerPairsMembers(p, init, pr[k].0, pr[k].1);
        var m :| 0 <= m < |init| && init[m] == pr[k].1;
      }
    }
  }

  /** With distinct player ids and distinct game ids, no (player id, game id)
      pair is visited twice. */
  lemma {:induction false} StatPairsUnique(players: seq<Player>, games: seq<Game>)
    requires DistinctPlayerIds(players) && DistinctGameIds(games)
    ensures DistinctPairKeys(StatPairs(players, games))
  {
    if players != [] {
      var init, last := players[..|players| - 1], players[|players| - 1];
      assert DistinctPlayerIds(init);
      StatPairsUnique(init, games);
      var completed := CompletedGames(games);
      PlayerPairsUnique(last, completed);
      var a, b := StatPairs(init, games), PlayerPairs(last, completed);
      var pr := a + b;
      assert pr == StatPairs(players, games);
      forall i, j | 0 <= i < j < |pr| ensures pr[i].0.id != pr[j].0.id || pr[i].1.id != pr[j].1.id {
        if i < |a| && j >= |a| {
          assert pr[i] == a[i] && pr[j] == b[j - |a|];
          assert a[i] in a && b[j - |a|] in b;
          StatPairsMembers(init, games, a[i].0, a[i].1);
          PlayerPairsMembers(last, completed, b[j - |a|].0, b[j - |a|].1);
          var m :| 0 <= m < |init| && init[m] == a[i].0;
          assert init[m] == players[m] && last == players[|players| - 1];
          assert a[i].0.id != b[j - |a|].0.id;
        } else if i >= |a| {
          assert pr[i] == b[i - |a|] && pr[j] == b[j - |a|];
          assert b[i - |a|].1.id != b[j - |a|].1.id;
        } else {
          assert pr[i] == a[i] && pr[j] == a[j];
          assert a[i].0.id != a[j].0.id || a[i].1.id != a[j].1.id;
        }
      }
    }
  }

  /** Every record comes from a listed player and a completed game that the
      player's team played, and carries their ids and the stated bounds. */
  lemma SynthesizedRecordsSound(stats: seq<PlayerGameStats>, players: seq<Player>, games: seq<Game>, rng: nat -> RandomDraw, k: int)
    requires Synthesized(stats, players, games, rng) && 0 <= k < |stats|
    ensures PlausibleStat(stats[k])
    ensures exists p, g :: (p in players && g in games && IsCompleted(g) && Involves(g, p.team)
      && stats[k].playerId == p.id && stats[k].gameId == g.id)
  {
    var pr := StatPairs(players, games)[k];
    assert pr in StatPairs(players, games);
    StatPairsMembers(players, games, pr.0, pr.1);
  }

  /** Every listed player gets a record for every completed game of its team. */
  lemma SynthesizedRecordsComplete(stats: seq<PlayerGameStats>, players: seq<Player>, games: seq<Game>, rng: nat -> RandomDraw, p: Player, g: Game)
    requires Synthesized(stats, players, games, rng)
    requires p in players && g in games && IsCompleted(g) && Involves(g, p.team)
    ensures exists k :: 0 <= k < |stats| && stats[k].playerId == p.id && stats[k].gameId == g.id
  {
    StatPairsMembers(players, games, p, g);
    var pr := StatPairs(players, games);
    var k :| 0 <= k < |pr| && pr[k] == (p, g);
    assert stats[k] == MakeStat(p, g, rng(k));
  }

  /** With distinct ids, each (player, game) pair has at most one record. */
  lemma SynthesizedRecordsUnique(stats: seq<PlayerGameStats>, players: seq<Player>, games: seq<Game>, rng: nat -> RandomDraw)
    requires Synthesized(stats, players, games, rng)
    requires DistinctPlayerIds(players) && DistinctGameIds(games)
    ensures forall i, j :: 0 <= i < j < |stats| ==>
      stats[i].playerId != stats[j].playerId || stats[i].gameId != stats[j].gameId
  {
    StatPairsUnique(players, games);
    var pr := StatPairs(players, games);
    forall i, j | 0 <= i < j < |stats|
      ensures stats[i].playerId != stats[j].playerId || stats[i].gameId != stats[j].gameId
    {
      assert stats[i] == MakeStat(pr[i].0, pr[i].1, rng(i));
      assert stats[j] == MakeStat(pr[j].0, pr[j].1, rng(j));
    }
  }

  /** A game that has not been played has no records. */
  lemma NoRecordsForUnplayedGame(stats: seq<PlayerGameStats>, players: seq<Player>, games: seq<Game>, rng: nat -> RandomDraw, g: Game)
    requires Synthesized(stats, players, games, rng)
    requires DistinctGameIds(games) && g in games && !IsCompleted(g)
    ensures forall k :: 0 <= k < |stats| ==> stats[k].gameId != g.id
  {
    forall k | 0 <= k < |stats| ensures stats[k].gameId != g.id {
      var pr := StatPairs(players, games)[k];
      assert pr in StatPairs(players, games);
      StatPairsMembers(players, games, pr.0, pr.1);
      var a :| 0 <= a < |games| && games[a] == pr.1;
      var b :| 0 <= b < |games| && games[b] == g;
    }
  }

  // ------------------------------------------------------------------ lookups

  /** `games.find(g => g.id === id)`: the first game with that id. */
  function FindGame(games: seq<Game>, id: int): (r: Option<Game>)
    ensures r.Some? ==> r.value in games && r.value.id == id
    ensures r.Some? ==> exists i :: 0 <= i < |games| && games[i] == r.value && forall j :: 0 <= j < i ==> games[j].id != id
    ensures r.None? <==> forall g :: g in games ==> g.id != id
  {
    if games == [] then None
    else if games[0].id == id then Some(games[0])
    else
      assert games == [games[0]] + games[1..];
      var rest := FindGame(games[1..], id);
      assert rest.Some? ==> exists i :: 0 <= i < |games| && games[i] == rest.value && forall j :: 0 <= j < i ==> games[j].id != id by {
        if rest.Some? {
          var i :| 0 <= i < |games[1..]| && games[1..][i] == rest.value && forall j :: 0 <= j < i ==> games[1..][j].id != id;
          assert games[i + 1] == rest.value;
          forall j | 0 <= j < i + 1 ensures games[j].id != id {
            if j > 0 {
              assert games[j] == games[1..][j - 1];
            }
          }
        }
      }
      rest
  }

  /** `players.find(p => p.id === id)`: the first player with that id. */
  function FindPlayer(players: seq<Player>, id: int): (r: Option<Player>)
    ensures r.Some? ==> r.value in players && r.value.id == id
    ensures r.Some? ==> exists i :: 0 <= i < |players| && players[i] == r.value && forall j :: 0 <= j < i ==> players[j].id != id
    ensures r.None? <==> forall p :: p in players ==> p.id != id
  {
    if players == [] then None
    else if players[0].id == id then Some(players[0])
    else
      assert players == [players[0]] + players[1..];
      var rest := FindPlayer(players[1..], id);
      assert rest.Some? ==> exists i :: 0 <= i < |players| && players[i] == rest.value && forall j :: 0 <= j < i ==> players[j].id != id by {
        if rest.Some? {
          var i :| 0 <= i < |players[1..]| && players[1..][i] == rest.value && forall j :: 0 <= j < i ==> players[1..][j].id != id;
          assert players[i + 1] == rest.value;
          forall j | 0 <= j < i + 1 ensures players[j].id != id {
            if j > 0 {
              assert players[j] == players[1..][j - 1];
            }
          }
        }
      }
      rest
  }

  lemma {:induction false} FindGameDistinct(games: seq<Game>, g: Game)
    requires DistinctGameIds(games) && g in games
    ensures FindGame(games, g.id) == Some(g)
  {
    if games[0] != g {
      assert g in games[1..];
      var i :| 0 <= i < |games[1..]| && games[1..][i] == g;
      assert games[i + 1] == g;
      assert DistinctGameIds(games[1..]);
      FindGameDistinct(games[1..], g);
    }
  }

  lemma {:induction false} FindPlayerDistinct(players: seq<Player>, p: Player)
    requires DistinctPlayerIds(players) && p in players
    ensures FindPlayer(players, p.id) == Some(p)
  {
    if players[0] != p {
      assert p in players[1..];
      var i :| 0 <= i < |players[1..]| && players[1..][i] == p;
      assert players[i + 1] == p;
      assert DistinctPlayerIds(players[1..]);
      FindPlayerDistinct(players[1..], p);
    }
  }

  // ------------------------------------------------- getPlayerPerformanceData

  /** `playerGameStats.filter(stat => stat.playerId === playerId)` */
  function PlayerStats(stats: seq<PlayerGameStats>, playerId: int): (r: seq<PlayerGameStats>)
    ensures forall s :: s in r <==> s in stats && s.playerId == playerId
    ensures forall s {:trigger multiset(r)[s]} :: multiset(r)[s] == if s.playerId == playerId then multiset(stats)[s] else 0
    ensures Subseq(r, stats)
    ensures |r| <= |stats|
  {
    if stats == [] then []
    else
      var rest := PlayerStats(stats[1..], playerId);
      assert stats == [stats[0]] + stats[1..];
      var r := (if stats[0].playerId == playerId then [stats[0]] else []) + rest;
      assert Subseq(r, stats) by {
        if stats[0].playerId == playerId {
          assert r[1..] == rest;
        } else {
          assert r == rest;
          if rest != [] {
            assert rest[0] in rest;
          }
        }
      }
      r
  }

  /** The date the sort compares: that of the record's game. A record whose
      game is missing makes the source throw; such records are excluded by the
      precondition of PerformanceData. */
  function GameDate(games: seq<Game>, s: PlayerGameStats): int
  {
    match FindGame(games, s.gameId)
    case Some(g) => g.date
    case None => 0
  }

  /** The sort key of the timeline, as one term wherever it is used. */
  function DateKey(games: seq<Game>): PlayerGameStats -> int
  {
    s => GameDate(games, s)
  }

  /** `playerStats.sort((a, b) => date(a) - date(b))`: a player's records by
      ascending game date, records of the same date in their stored order. */
  function SortedPlayerStats(games: seq<Game>, stats: seq<PlayerGameStats>, playerId: int): (r: seq<PlayerGameStats>)
    ensures multiset(r) == multiset(PlayerStats(stats, playerId))
    ensures forall i, j :: 0 <= i < j < |r| ==> GameDate(games, r[i]) <= GameDate(games, r[j])
    ensures forall d :: WithKey(r, DateKey(games), d) == WithKey(PlayerStats(stats, playerId), DateKey(games), d)
  {
    SortBy(PlayerStats(stats, playerId), DateKey(games))
  }

  /** One point of a player's timeline. */
  datatype PerformancePoint = PerformancePoint(round: int, date: int, points: int, cost: int, opponent: Team)

  /** `game.homeTeam === players.find(p => p.id === playerId)?.team ?
      game.awayTeam : game.homeTeam`; an unknown player compares `undefined`
      and gets the home team. */
  function Opponent(players: seq<Player>, playerId: int, g: Game): (t: Team)
    ensures Involves(g, t)
    ensures forall p :: (FindPlayer(players, playerId) == Some(p) && Involves(g, p.team) && g.homeTeam != g.awayTeam
      ==> t != p.team)
  {
    var found := FindPlayer(players, playerId);
    if found.Some? && g.homeTeam == found.value.team then g.awayTeam else g.homeTeam
  }

  /** Every record of `playerId` names a game that `find` locates. */
  ghost predicate GamesKnown(games: seq<Game>, stats: seq<PlayerGameStats>, playerId: int)
  {
    forall s :: s in stats && s.playerId == playerId ==> FindGame(games, s.gameId).Some?
  }

  /** Every sorted record of a player whose games are known has its game
      found, and sorts by that game's date. */
  lemma SortedStatsKnown(games: seq<Game>, stats: seq<PlayerGameStats>, playerId: int)
    requires GamesKnown(games, stats, playerId)
    ensures var ss := SortedPlayerStats(games, stats, playerId);
      && |ss| == |PlayerStats(stats, playerId)|
      && (|ss| == 0 <==> forall s :: s in stats ==> s.playerId != playerId)
      && forall k :: 0 <= k < |ss| ==>
        FindGame(games, ss[k].gameId).Some? && GameDate(games, ss[k]) == FindGame(games, ss[k].gameId).value.date
  {
    var ps := PlayerStats(stats, playerId);
    var ss := SortedPlayerStats(games, stats, playerId);
    assert |multiset(ss)| == |multiset(ps)|;
    forall k | 0 <= k < |ss|
      ensures FindGame(games, ss[k].gameId).Some? && GameDate(games, ss[k]) == FindGame(games, ss[k].gameId).value.date
    {
      assert ss[k] in multiset(ps);
    }
    if |ps| > 0 {
      assert ps[0] in ps;
    }
  }

  /** The timeline point of record `s`, whose game `find` locates. */
  function PointOf(players: seq<Player>, games: seq<Game>, playerId: int, s: PlayerGameStats): (pt: PerformancePoint)
    requires FindGame(games, s.gameId).Some?
    ensures pt.date == GameDate(games, s)
  {
    var g := FindGame(games, s.gameId).value;
    PerformancePoint(g.round, g.date, s.points, s.cost, Opponent(players, playerId, g))
  }

  /** The timeline points of records whose games `find` locates, in order. */
  function PointsOf(players: seq<Player>, games: seq<Game>, playerId: int, ss: seq<PlayerGameStats>): (r: seq<PerformancePoint>)
    requires forall k :: 0 <= k < |ss| ==> FindGame(games, ss[k].gameId).Some?
    ensures |r| == |ss|
    ensures forall k :: 0 <= k < |ss| ==> r[k] == PointOf(players, games, playerId, ss[k])
  {
    seq(|ss|, k requires 0 <= k < |ss| => PointOf(players, games, playerId, ss[k]))
  }

  /** `getPlayerPerformanceData(playerId)`: the player's records by game date,
      each with its game's round and date and the opposing team. */
  function PerformanceData(players: seq<Player>, games: seq<Game>, stats: seq<PlayerGameStats>, playerId: int)
    : (r: seq<PerformancePoint>)
    requires GamesKnown(games, stats, playerId)
    ensures |r| == |PlayerStats(stats, playerId)|
    ensures r == [] <==> forall s :: s in stats ==> s.playerId != playerId
    ensures forall i, j :: 0 <= i < j < |r| ==> r[i].date <= r[j].date
    ensures forall k :: 0 <= k < |r| ==>
      var s := SortedPlayerStats(games, stats, playerId)[k];
      && FindGame(games, s.gameId).Some?
      && var g := FindGame(games, s.gameId).value;
      && r[k] == PerformancePoint(g.round, g.date, s.points, s.cost, Opponent(players, playerId, g))
  {
    var ss := SortedPlayerStats(games, stats, playerId);
    SortedStatsKnown(games, stats, playerId);
    PointsOf(players, games, playerId, ss)
  }

  /** Synthesized records only name games of the game list. */
  lemma SynthesizedGamesKnown(stats: seq<PlayerGameStats>, players: seq<Player>, games: seq<Game>, rng: nat -> RandomDraw, playerId: int)
    requires Synthesized(stats, players, games, rng)
    ensures GamesKnown(games, stats, playerId)
  {
    forall s | s in stats && s.playerId == playerId ensures FindGame(games, s.gameId).Some? {
      var k :| 0 <= k < |stats| && stats[k] == s;
      SynthesizedRecordsSound(stats, players, games, rng, k);
    }
  }

  /** An id that belongs to no player has no records, hence an empty timeline. */
  lemma UnknownPlayerHasEmptyTimeline(stats: seq<PlayerGameStats>, players: seq<Player>, games: seq<Game>, rng: nat -> RandomDraw, playerId: int)
    requires Synthesized(stats, players, games, rng)
    requires forall p :: p in players ==> p.id != playerId
    ensures GamesKnown(games, stats, playerId)
    ensures PerformanceData(players, games, stats, playerId) == []
  {
    SynthesizedGamesKnown(stats, players, games, rng, playerId);
    forall s | s in stats ensures s.playerId != playerId {
      var k :| 0 <= k < |stats| && stats[k] == s;
      SynthesizedRecordsSound(stats, players, games, rng, k);
    }
  }

  /** Under distinct ids, `find` locates the game of each synthesized record
      of player `p`, and `p`'s team plays in it. */
  lemma RecordGameOfPlayer(stats: seq<PlayerGameStats>, players: seq<Player>, games: seq<Game>, rng: nat -> RandomDraw, p: Player, n: int)
    requires Synthesized(stats, players, games, rng)
    requires DistinctPlayerIds(players) && DistinctGameIds(games)
    requires p in players && 0 <= n < |stats| && stats[n].playerId == p.id
    ensures FindGame(games, stats[n].gameId).Some? && Involves(FindGame(games, stats[n].gameId).value, p.team)
  {
    var pr := StatPairs(players, games)[n];
    assert pr in StatPairs(players, games);
    StatPairsMembers(players, games, pr.0, pr.1);
    var a :| 0 <= a < |players| && players[a] == pr.0;
    var b :| 0 <= b < |players| && players[b] == p;
    assert pr.0 == p;
    FindGameDistinct(games, pr.1);
  }

  /** On synthesized records, with distinct ids and two-sided games, every
      timeline point's opponent is a team of that game other than the
      player's own. */
  lemma TimelineOpponents(stats: seq<PlayerGameStats>, players: seq<Player>, games: seq<Game>, rng: nat -> RandomDraw, p: Player)
    requires Synthesized(stats, players, games, rng)
    requires DistinctPlayerIds(players) && DistinctGameIds(games) && TwoSidedGames(games)
    requires p in players
    ensures GamesKnown(games, stats, p.id)
    ensures var r := PerformanceData(players, games, stats, p.id);
      forall k :: 0 <= k < |r| ==> r[k].opponent != p.team
  {
    SynthesizedGamesKnown(stats, players, games, rng, p.id);
    var r := PerformanceData(players, games, stats, p.id);
    var ss := SortedPlayerStats(games, stats, p.id);
    FindPlayerDistinct(players, p);
    forall k | 0 <= k < |r| ensures r[k].opponent != p.team {
      assert ss[k] in multiset(PlayerStats(stats, p.id));
      var n :| 0 <= n < |stats| && stats[n] == ss[k];
      RecordGameOfPlayer(stats, players, games, rng, p, n);
    }
  }

  // ----------------------------------------------------- top-five rankings

  function NegatedPoints(p: Player): int { -p.points }
  function NegatedCostChange(p: Player): int { -p.costChange }
  function CostChange(p: Player): int { p.costChange }

  /** `getTopPerformers()`: `[...players].sort((a, b) => b.points - a.points).slice(0, 5)` */
  function TopPerformers(players: seq<Player>): (r: seq<Player>)
    ensures |r| == Min(5, |players|)
    ensures forall i, j :: 0 <= i < j < |r| ==> r[i].points >= r[j].points
    ensures multiset(r) <= multiset(players)
    ensures forall p :: p in multiset(players) - multiset(r) ==> p.points <= r[|r| - 1].points
    ensures forall k :: var t := WithKey(r, NegatedPoints, k);
      |t| <= |WithKey(players, NegatedPoints, k)| && WithKey(players, NegatedPoints, k)[..|t|] == t
  {
    TopFive(players, NegatedPoints)
  }

  /** `getBiggestRisers()`: by `costChange` descending. */
  function BiggestRisers(players: seq<Player>): (r: seq<Player>)
    ensures |r| == Min(5, |players|)
    ensures forall i, j :: 0 <= i < j < |r| ==> r[i].costChange >= r[j].costChange
    ensures multiset(r) <= multiset(players)
    ensures forall p :: p in multiset(players) - multiset(r) ==> p.costChange <= r[|r| - 1].costChange
    ensures forall k :: var t := WithKey(r, NegatedCostChange, k);
      |t| <= |WithKey(players, NegatedCostChange, k)| && WithKey(players, NegatedCostChange, k)[..|t|] == t
  {
    TopFive(players, NegatedCostChange)
  }

  /** `getBiggestFallers()`: by `costChange` ascending. */
  function BiggestFallers(players: seq<Player>): (r: seq<Player>)
    ensures |r| == Min(5, |players|)
    ensures forall i, j :: 0 <= i < j < |r| ==> r[i].costChange <= r[j].costChange
    ensures multiset(r) <= multiset(players)
    ensures forall p :: p in multiset(players) - multiset(r) ==> p.costChange >= r[|r| - 1].costChange
    ensures forall k :: var t := WithKey(r, CostChange, k);
      |t| <= |WithKey(players, CostChange, k)| && WithKey(players, CostChange, k)[..|t|] == t
  {
    TopFive(players, CostChange)
  }

  /** A sub-multiset of players with distinct ids has distinct ids: no
      ranking lists a player twice. */
  lemma DistinctIdsSubMultiset(r: seq<Player>, players: seq<Player>)
    requires DistinctPlayerIds(players) && multiset(r) <= multiset(players)
    ensures DistinctPlayerIds(r)
  {
    assert NoDup(players);
    NoDupSubMultiset(r, players);
    forall i, j | 0 <= i < j < |r| ensures r[i].id != r[j].id {
      assert r[i] in multiset(players) && r[j] in multiset(players);
      var a :| 0 <= a < |players| && players[a] == r[i];
      var b :| 0 <= b < |players| && players[b] == r[j];
    }
  }

  lemma RankingsListPlayersOnce(players: seq<Player>)
    requires DistinctPlayerIds(players)
    ensures DistinctPlayerIds(TopPerformers(players))
    ensures DistinctPlayerIds(BiggestRisers(players))
    ensures DistinctPlayerIds(BiggestFallers(players))
  {
    DistinctIdsSubMultiset(TopPerformers(players), players);
    DistinctIdsSubMultiset(BiggestRisers(players), players);
    DistinctIdsSubMultiset(BiggestFallers(players), players);
  }

  // ------------------------------------------------------ getTeamPerformance

  datatype TeamTotals = TeamTotals(totalPoints: int, averagePoints: int, playerCount: int)

  /** Sum of `points` over the players of team `t`. */
  function TotalPoints(players: seq<Player>, t: Team): int
  {
    if players == [] then 0
    else
      var last := players[|players| - 1];
      TotalPoints(players[..|players| - 1], t) + (if last.team == t then last.points else 0)
  }

  /** Number of players of team `t`. */
  function PlayerCount(players: seq<Player>, t: Team): nat
  {
    if players == [] then 0
    else
      var last := players[|players| - 1];
      PlayerCount(players[..|players| - 1], t) + (if last.team == t then 1 else 0)
  }

  /** `Math.round(n / d)`: the nearest integer, halves rounded up. */
  function RoundHalfUp(n: int, d: int): (r: int)
    requires d > 0
    ensures 2 * d * r - d <= 2 * n < 2 * d * r + d
  {
    (2 * n + d) / (2 * d)
  }

  function AveragePoints(total: int, count: int): int
  {
    if count > 0 then RoundHalfUp(total, count) else 0
  }

  /** The entry the source computes for team `t`. */
  function TeamTotalsOf(players: seq<Player>, t: Team): TeamTotals
  {
    var total, count := TotalPoints(players, t), PlayerCount(players, t);
    TeamTotals(total, AveragePoints(total, count), count)
  }

  /** A team's entry after the first loop, before its average is set. */
  function Accumulated(players: seq<Player>, t: Team): TeamTotals
  {
    TeamTotals(TotalPoints(players, t), 0, PlayerCount(players, t))
  }

  /** `getTeamPerformance()`: start every team at zero, add each player's
      points and one to its count, then set each average. */
  method TeamPerformance(players: seq<Player>) returns (teamData: map<Team, TeamTotals>)
    ensures forall t: Team :: t in teamData && teamData[t] == TeamTotalsOf(players, t)
  {
    var zero := TeamTotals(0, 0, 0);
    teamData := map[England := zero, France := zero, Ireland := zero,
                    Italy := zero, Scotland := zero, Wales := zero];
    forall t: Team ensures t in teamData && teamData[t] == zero {
      match t
      case England => case France => case Ireland =>
      case Italy => case Scotland => case Wales =>
    }
    var i := 0;
    assert players[..i] == [];
    while i < |players|
      invariant 0 <= i <= |players|
      invariant forall t: Team :: (t in teamData
        && teamData[t] == Accumulated(players[..i], t))
    {
      var player := players[i];
      var entry := teamData[player.team];
      teamData := teamData[player.team := entry.(totalPoints := entry.totalPoints + player.points,
                                                  playerCount := entry.playerCount + 1)];
      assert players[..i + 1][..i] == players[..i];
      i := i + 1;
    }
    assert players[..i] == players;
    var k := 0;
    while k < |AllTeams|
      invariant 0 <= k <= |AllTeams|
      invariant forall t: Team :: t in teamData
      invariant forall j :: 0 <= j < k ==> teamData[AllTeams[j]] == TeamTotalsOf(players, AllTeams[j])
      invariant forall j :: k <= j < |AllTeams| ==> teamData[AllTeams[j]] == Accumulated(players, AllTeams[j])
    {
      var team := AllTeams[k];
      var entry := teamData[team];
      teamData := teamData[team := entry.(averagePoints :=
        if entry.playerCount > 0 then RoundHalfUp(entry.totalPoints, entry.playerCount) else 0)];
      k := k + 1;
    }
    forall t: Team ensures teamData[t] == TeamTotalsOf(players, t) {
      EveryTeamListed(t);
      var j :| 0 <= j < |AllTeams| && AllTeams[j] == t;
    }
  }

  /** Sum over the teams `ts` of their player counts. */
  function CountSum(players: seq<Player>, ts: seq<Team>): int
  {
    if ts == [] then 0 else PlayerCount(players, ts[0]) + CountSum(players, ts[1..])
  }

  /** Sum over the teams `ts` of their total points. */
  function PointsSum(players: seq<Player>, ts: seq<Team>): int
  {
    if ts == [] then 0 else TotalPoints(players, ts[0]) + PointsSum(players, ts[1..])
  }

  /** Sum of `points` over all players. */
  function AllPoints(players: seq<Player>): int
  {
    if players == [] then 0 else AllPoints(players[..|players| - 1]) + players[|players| - 1].points
  }

  /** Adding a player adds to the sums over distinct teams only through its
      own team. */
  lemma {:induction false} SumsStep(players: seq<Player>, p: Player, ts: seq<Team>)
    requires NoDup(ts)
    ensures CountSum(players + [p], ts) == CountSum(players, ts) + (if p.team in ts then 1 else 0)
    ensures PointsSum(players + [p], ts) == PointsSum(players, ts) + (if p.team in ts then p.points else 0)
  {
    var ps := players + [p];
    assert ps[..|ps| - 1] == players;
    if ts != [] {
      assert NoDup(ts[1..]) by {
        forall i, j | 0 <= i < j < |ts[1..]| ensures ts[1..][i] != ts[1..][j] {
          assert ts[1..][i] == ts[i + 1] && ts[1..][j] == ts[j + 1];
        }
      }
      SumsStep(players, p, ts[1..]);
      assert ts == [ts[0]] + ts[1..];
      if p.team == ts[0] {
        assert p.team !in ts[1..] by {
          forall i | 0 <= i < |ts[1..]| ensures ts[1..][i] != p.team {
            assert ts[1..][i] == ts[i + 1];
          }
        }
      }
    }
  }

  lemma {:induction false} NoPlayersSumToZero(ts: seq<Team>)
    ensures CountSum([], ts) == 0 && PointsSum([], ts) == 0
  {
    if ts != [] {
      NoPlayersSumToZero(ts[1..]);
    }
  }

  /** `AllTeams` lists each of the six teams exactly once. */
  lemma EveryTeamListed(t: Team)
    ensures t in AllTeams && NoDup(AllTeams)
  {
    match t
    case England => assert AllTeams[0] == t;
    case France => assert AllTeams[1] == t;
    case Ireland => assert AllTeams[2] == t;
    case Italy => assert AllTeams[3] == t;
    case Scotland => assert AllTeams[4] == t;
    case Wales => assert AllTeams[5] == t;
  }

  /** Every player is counted under exactly one team: the counts add up to
      the number of players, and the totals to the sum of all points. */
  lemma {:induction false} TeamCountsCoverPlayers(players: seq<Player>)
    ensures CountSum(players, AllTeams) == |players|
    ensures PointsSum(players, AllTeams) == AllPoints(players)
  {
    if players == [] {
      NoPlayersSumToZero(AllTeams);
    } else {
      var init, last := players[..|players| - 1], players[|players| - 1];
      TeamCountsCoverPlayers(init);
      EveryTeamListed(last.team);
      SumsStep(init, last, AllTeams);
      assert init + [last] == players;
    }
  }

  /** A team without players has zero points and a zero average. */
  lemma {:induction false} EmptyTeamIsZero(players: seq<Player>, t: Team)
    requires PlayerCount(players, t) == 0
    ensures TeamTotalsOf(players, t) == TeamTotals(0, 0, 0)
  {
    if players != [] {
      EmptyTeamIsZero(players[..|players| - 1], t);
    }
  }

  // ------------------------------------------------------ facts of the seed

  /** The first top performer has the most points of all players. */
  lemma TopPerformerHasMostPoints(players: seq<Player>, p: Player)
    requires p in players
    ensures TopPerformers(players) != [] && p.points <= TopPerformers(players)[0].points
  {
    var r := TopPerformers(players);
    if p in multiset(r) {
      var j :| 0 <= j < |r| && r[j] == p;
    } else {
      assert p in multiset(players) - multiset(r);
    }
  }

  /** The first biggest faller has the lowest cost change of all players. */
  lemma FirstFallerHasLowestChange(players: seq<Player>, p: Player)
    requires p in players
    ensures BiggestFallers(players) != [] && BiggestFallers(players)[0].costChange <= p.costChange
  {
    var r := BiggestFallers(players);
    if p in multiset(r) {
      var j :| 0 <= j < |r| && r[j] == p;
    } else {
      assert p in multiset(players) - multiset(r);
    }
  }

  function PlayerId(p: Player): int { p.id }
  function GameId(g: Game): int { g.id }

  /** Ids that increase from each element to the next increase throughout. */
  lemma {:induction false} IncreasingIds<T>(s: seq<T>, id: T -> int)
    requires forall i :: 0 <= i < |s| - 1 ==> id(s[i]) < id(s[i + 1])
    ensures forall i, j :: 0 <= i < j < |s| ==> id(s[i]) < id(s[j])
  {
    if |s| > 1 {
      IncreasingIds(s[1..], id);
      forall i, j | 0 <= i < j < |s| ensures id(s[i]) < id(s[j]) {
        assert s[1..][j - 1] == s[j];
        if i > 0 {
          assert s[1..][i - 1] == s[i];
        } else if j > 1 {
          assert id(s[1..][0]) < id(s[1..][j - 1]);
        }
      }
    }
  }

  /** The seed has distinct player ids, distinct game ids, and no game of a
      team against itself. */
  lemma SeedWellFormed()
    ensures DistinctPlayerIds(SeedPlayers) && DistinctGameIds(SeedGames) && TwoSidedGames(SeedGames)
  {
    IncreasingIds(SeedPlayers, PlayerId);
    IncreasingIds(SeedGames, GameId);
  }

  /** A player who outscores every other player heads the top performers. */
  lemma SoleLeaderTops(players: seq<Player>, i: int)
    requires 0 <= i < |players|
    requires forall j :: 0 <= j < |players| && j != i ==> players[j].points < players[i].points
    ensures TopPerformers(players)[0] == players[i]
  {
    TopPerformerHasMostPoints(players, players[i]);
    var top := TopPerformers(players)[0];
    assert top in multiset(players);
    var j :| 0 <= j < |players| && players[j] == top;
  }

  /** A player whose cost fell further than anyone else's heads the fallers. */
  lemma SoleFallerLeads(players: seq<Player>, i: int)
    requires 0 <= i < |players|
    requires forall j :: 0 <= j < |players| && j != i ==> players[j].costChange > players[i].costChange
    ensures BiggestFallers(players)[0] == players[i]
  {
    FirstFallerHasLowestChange(players, players[i]);
    var first := BiggestFallers(players)[0];
    assert first in multiset(players);
    var j :| 0 <= j < |players| && players[j] == first;
  }

  /** Duhan van der Merwe (id 3, 69 points) tops the points table. */
  lemma SeedTopPerformer()
    ensures TopPerformers(SeedPlayers)[0] == SeedPlayers[2]
    ensures SeedPlayers[2].id == 3 && SeedPlayers[2].points == 69 && SeedPlayers[2].name == "Duhan van der Merwe"
  {
    SoleLeaderTops(SeedPlayers, 2);
  }

  /** Antoine Dupont (id 10, cost change -0.3) has fallen the most. */
  lemma SeedBiggestFaller()
    ensures BiggestFallers(SeedPlayers)[0] == SeedPlayers[9]
    ensures SeedPlayers[9].id == 10 && SeedPlayers[9].costChange == -3 && SeedPlayers[9].name == "Antoine Dupont"
  {
    SoleFallerLeads(SeedPlayers, 9);
  }

  /** The Irish players of the seed are ids 1, 7 and 11. */
  lemma SeedIrishIds()
    ensures forall i :: 0 <= i < |SeedPlayers| ==> (SeedPlayers[i].team == Ireland <==> SeedPlayers[i].id in {1, 7, 11})
  {
  }

  /** The seed's team table: total points, rounded average and player count. */
  function SeedTable(t: Team): TeamTotals
  {
    match t
    case England => TeamTotals(70, 35, 2)
    case France => TeamTotals(86, 43, 2)
    case Ireland => TeamTotals(159, 53, 3)
    case Italy => TeamTotals(62, 31, 2)
    case Scotland => TeamTotals(114, 57, 2)
    case Wales => TeamTotals(36, 36, 1)
  }

  /** The sums over the first k + 1 players add player k to those over the
      first k. */
  lemma SumsPrefixStep(ps: seq<Player>, k: int, t: Team)
    requires 0 <= k < |ps|
    ensures TotalPoints(ps[..k + 1], t) == TotalPoints(ps[..k], t) + (if ps[k].team == t then ps[k].points else 0)
    ensures PlayerCount(ps[..k + 1], t) == PlayerCount(ps[..k], t) + (if ps[k].team == t then 1 else 0)
  {
    assert ps[..k + 1][..k] == ps[..k];
  }

  /** Each team's entry for the seed players is the one SeedTable lists. */
  lemma SeedTeamTotals(t: Team)
    ensures TeamTotalsOf(SeedPlayers, t) == SeedTable(t)
  {
    var ps := SeedPlayers;
    assert ps[..0] == [];
    SumsPrefixStep(ps, 0, t);
    SumsPrefixStep(ps, 1, t);
    SumsPrefixStep(ps, 2, t);
    SumsPrefixStep(ps, 3, t);
    SumsPrefixStep(ps, 4, t);
    SumsPrefixStep(ps, 5, t);
    SumsPrefixStep(ps, 6, t);
    SumsPrefixStep(ps, 7, t);
    SumsPrefixStep(ps, 8, t);
    SumsPrefixStep(ps, 9, t);
    SumsPrefixStep(ps, 10, t);
    SumsPrefixStep(ps, 11, t);
    assert ps[..12] == ps;
  }
}

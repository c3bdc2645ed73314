/** The tournament controller: it owns the registered players and games and
    the growing list of matches, schedules matches, records outcomes and
    derives the scoreboard. */
module Tournament {
  import opened Sequences
  import opened Entities
  import opened Scoring

  /** The filter condition of `get_matches_by_player_id`: the looked-up
      player (None for an unknown id) is the match's main player or, unless
      only the main player counts, one of its opponents. */
  function Involves(player: Option<Player>, onlyMainPlayer: bool): Match -> bool {
    if onlyMainPlayer then (m: Match) => player == Some(m.player)
    else (m: Match) => player == Some(m.player) || (player.Some? && player.value in m.opponents)
  }

  class TournamentController {
    const players: seq<Player>
    const games: seq<Game>
    var matches: seq<Match>

    /** Players and games are numbered 1..N in registration order, match k
        (0-based) has id k + 1, and every match refers to registered entities
        and carries a prize consistent with its number of slots. */
    ghost predicate Valid()
      reads this
    {
      && PlayersNumbered()
      && GamesNumbered()
      && MatchesNumbered()
      && (forall k | 0 <= k < |matches| :: WellFormed(matches[k]))
    }

    ghost predicate PlayersNumbered() {
      forall k | 0 <= k < |players| :: players[k].id == k + 1
    }

    ghost predicate GamesNumbered() {
      forall k | 0 <= k < |games| :: games[k].id == k + 1
    }

    ghost predicate MatchesNumbered()
      reads this
    {
      forall k | 0 <= k < |matches| :: matches[k].id == k + 1
    }

    ghost predicate WellFormed(m: Match) {
      && m.player in players
      && m.game in games
      && (forall o | o in m.opponents :: o in players)
      && |m.opponents| + 1 <= m.prizeScore <= 3 * (|m.opponents| + 1)
    }

    constructor (playerNames: seq<string>, gameNames: seq<string>)
      ensures Valid()
      ensures |players| == |playerNames|
      ensures forall k | 0 <= k < |players| :: players[k] == Player(k + 1, playerNames[k])
      ensures |games| == |gameNames|
      ensures forall k | 0 <= k < |games| :: games[k] == Game(k + 1, gameNames[k])
      ensures matches == []
    {
      games := seq(|gameNames|, k requires 0 <= k < |gameNames| => Game(k + 1, gameNames[k]));
      players := seq(|playerNames|, k requires 0 <= k < |playerNames| => Player(k + 1, playerNames[k]));
      matches := [];
    }

    /** `get_game_by_id`: the first game with that id, or None. */
    function GetGameById(gameId: int): (r: Option<Game>)
      reads this
      ensures r.Some? ==> r.value in games && r.value.id == gameId
      ensures r.None? ==> forall k | 0 <= k < |games| :: games[k].id != gameId
      ensures GamesNumbered() ==> r == if 1 <= gameId <= |games| then Some(games[gameId - 1]) else None
    {
      match FirstWithId(games, (g: Game) => g.id, gameId)
      case None => None
      case Some(k) => Some(games[k])
    }

    /** `get_player_by_id`: the first player with that id, or None. */
    function GetPlayerById(playerId: int): (r: Option<Player>)
      reads this
      ensures r.Some? ==> r.value in players && r.value.id == playerId
      ensures r.None? ==> forall k | 0 <= k < |players| :: players[k].id != playerId
      ensures PlayersNumbered() ==> r == if 1 <= playerId <= |players| then Some(players[playerId - 1]) else None
    {
      match FirstWithId(players, (p: Player) => p.id, playerId)
      case None => None
      case Some(k) => Some(players[k])
    }

    /** `get_match_by_id`: the first match with that id, or None. */
    function GetMatchById(matchId: int): (r: Option<Match>)
      reads this
      ensures r.Some? ==> r.value in matches && r.value.id == matchId
      ensures r.None? ==> forall k | 0 <= k < |matches| :: matches[k].id != matchId
      ensures MatchesNumbered() ==> r == if 1 <= matchId <= |matches| then Some(matches[matchId - 1]) else None
    {
      match FirstWithId(matches, (m: Match) => m.id, matchId)
      case None => None
      case Some(k) => Some(matches[k])
    }

    lemma SameIdSamePlayer(x: Player, y: Player)
      requires Valid() && x in players && y in players && x.id == y.id
      ensures x == y
    {
    }

    /** Player `playerId` takes part in `m`: as its main player, or, unless
        only the main player counts, in one of its opponent slots. */
    ghost predicate TakesPart(m: Match, playerId: int, onlyMainPlayer: bool) {
      m.player.id == playerId
      || (!onlyMainPlayer && exists k | 0 <= k < |m.opponents| :: m.opponents[k].id == playerId)
    }

    /** `get_matches_by_player_id`: the matches the player takes part in, in
        creation order. An unregistered id finds no player and so no match. */
    function GetMatchesByPlayerId(playerId: int, onlyMainPlayer: bool): (r: seq<Match>)
      reads this
      ensures IsSubsequence(r, matches)
      ensures Valid() ==> forall m :: m in r <==> m in matches && TakesPart(m, playerId, onlyMainPlayer)
      ensures Valid() ==> IdsIncreasing(r)
    {
      var player := GetPlayerById(playerId);
      MatchesByPlayerIdMeaning(playerId, onlyMainPlayer);
      Filter(matches, Involves(player, onlyMainPlayer))
    }

    lemma MatchesByPlayerIdMeaning(playerId: int, onlyMainPlayer: bool)
      ensures var keep := Involves(GetPlayerById(playerId), onlyMainPlayer);
              Valid() ==> forall m :: m in Filter(matches, keep) <==> m in matches && TakesPart(m, playerId, onlyMainPlayer)
      ensures Valid() ==> IdsIncreasing(Filter(matches, Involves(GetPlayerById(playerId), onlyMainPlayer)))
    {
      var player := GetPlayerById(playerId);
      var keep := Involves(player, onlyMainPlayer);
      if Valid() {
        forall m | m in matches
          ensures keep(m) <==> TakesPart(m, playerId, onlyMainPlayer)
        {
          var k :| 0 <= k < |matches| && matches[k] == m;
          assert WellFormed(matches[k]);
          if m.player.id == playerId {
            SameIdSamePlayer(m.player, player.value);
          }
          if !onlyMainPlayer {
            if exists k | 0 <= k < |m.opponents| :: m.opponents[k].id == playerId {
              var j :| 0 <= j < |m.opponents| && m.opponents[j].id == playerId;
              assert m.opponents[j] in players;
              SameIdSamePlayer(m.opponents[j], player.value);
            }
          }
        }
        FilterKeepsIdOrder(matches, keep);
      }
    }

    /** The main-player-only query result is a subsequence of the full one. */
    lemma MainOnlyWithinAll(playerId: int)
      ensures IsSubsequence(GetMatchesByPlayerId(playerId, true), GetMatchesByPlayerId(playerId, false))
    {
      var player := GetPlayerById(playerId);
      FilterMonotone(matches, Involves(player, true), Involves(player, false));
    }

    /** An id that names no registered player yields an empty list, not an error. */
    lemma UnknownPlayerHasNoMatches(playerId: int, onlyMainPlayer: bool)
      requires Valid() && GetPlayerById(playerId).None?
      ensures GetMatchesByPlayerId(playerId, onlyMainPlayer) == []
    {
      var r := GetMatchesByPlayerId(playerId, onlyMainPlayer);
      forall m | m in matches
        ensures !TakesPart(m, playerId, onlyMainPlayer)
      {
        var k :| 0 <= k < |matches| && matches[k] == m;
        assert WellFormed(matches[k]);
        assert forall j | 0 <= j < |m.opponents| :: m.opponents[j] in players;
      }
      assert forall i | 0 <= i < |r| :: r[i] in r;
    }

    /** `get_players_by_match_id`: the main player followed by the opponents. */
    function GetPlayersByMatchId(matchId: int): (r: seq<Player>)
      reads this
      requires GetMatchById(matchId).Some?
      ensures var m := GetMatchById(matchId).value;
              |r| == |m.opponents| + 1 && r[0] == m.player && r[1..] == m.opponents
      ensures Valid() ==> forall p | p in r :: p in players
    {
      var m := GetMatchById(matchId).value;
      assert Valid() ==> WellFormed(matches[matchId - 1]);
      [m.player] + m.opponents
    }

    /** The two queries agree: a registered player is among the players of a
        match exactly when that match is among the player's matches. */
    lemma PlayersAndMatchesAgree(matchId: int, p: Player)
      requires Valid() && 1 <= matchId <= |matches| && p in players
      ensures p in GetPlayersByMatchId(matchId) <==> matches[matchId - 1] in GetMatchesByPlayerId(p.id, false)
    {
      var m := matches[matchId - 1];
      assert WellFormed(m);
      var r := GetPlayersByMatchId(matchId);
      assert r == [m.player] + m.opponents;
      if TakesPart(m, p.id, false) {
        if m.player.id == p.id {
          SameIdSamePlayer(m.player, p);
        } else {
          var j :| 0 <= j < |m.opponents| && m.opponents[j].id == p.id;
          SameIdSamePlayer(m.opponents[j], p);
          assert r[j + 1] == p;
        }
      }
      if p in r {
        var j :| 0 <= j < |r| && r[j] == p;
        if j > 0 {
          assert m.opponents[j - 1] == p;
        }
      }
    }

    /** `randomize_game`: any registered game, or None when there is none. */
    method RandomizeGame() returns (r: Option<Game>)
      ensures r.Some? <==> |games| > 0
      ensures r.Some? ==> r.value in games
    {
      if |games| == 0 {
        return None;
      }
      var k :| 0 <= k < |games|;
      r := Some(games[k]);
    }

    /** `randomize_player`: any registered player whose id is not excluded,
        or None when every player is excluded. */
    method RandomizePlayer(excludedIds: seq<int>) returns (r: Option<Player>)
      ensures r.Some? ==> r.value in players && r.value.id !in excludedIds
      ensures r.None? <==> forall p | p in players :: p.id in excludedIds
    {
      var candidates := Filter(players, (p: Player) => p.id !in excludedIds);
      if |candidates| == 0 {
        return None;
      }
      var k :| 0 <= k < |candidates|;
      r := Some(candidates[k]);
    }

    /** Every registered player is the main player or one of the ids in `ids`. */
    ghost predicate RegistryCovered(playerId: int, ids: seq<int>) {
      forall p | p in players :: p.id == playerId || p.id in ids
    }

    /** The opponents `add_match` picks, one per slot: for a truthy id the
        player with that id (not checked against the main player or the other
        opponents); for a falsy id a registered player who is neither the main
        player nor an earlier opponent of this match. */
    ghost predicate OpponentsFor(opponents: seq<Player>, playerId: int, opponentIds: seq<int>) {
      && |opponents| == |opponentIds|
      && (forall k | 0 <= k < |opponents| :: opponents[k] in players)
      && (forall k | 0 <= k < |opponentIds| && opponentIds[k] != 0 :: opponents[k].id == opponentIds[k])
      && (forall k | 0 <= k < |opponentIds| && opponentIds[k] == 0 ::
            opponents[k].id != playerId && forall j | 0 <= j < k :: opponents[j].id != opponents[k].id)
    }

    /** The match `add_match` appends: the next id, not played yet, the main
        player, the opponents of `OpponentsFor`, the named or a random game,
        and the prize the slots determine. */
    ghost predicate Scheduled(m: Match, matchId: int, playerId: int, opponentIds: seq<int>, gameId: int)
      reads this
    {
      && m.id == matchId
      && m.state == NotPlayedYet
      && Some(m.player) == GetPlayerById(playerId)
      && OpponentsFor(m.opponents, playerId, opponentIds)
      && (gameId != 0 ==> Some(m.game) == GetGameById(gameId))
      && m.game in games
      && m.prizeScore == PrizeScore(opponentIds, gameId)
    }

    /** What the opponent loop has built after `i` slots: the opponents for
        the first `i` ids, the ids it excludes from random picks (the main
        player first, then every opponent so far), and the fact that no
        random slot so far found the registry covered. */
    ghost predicate PickedSoFar(playerId: int, opponentIds: seq<int>, i: nat, chosen: seq<Player>, excluded: seq<int>)
      requires i <= |opponentIds|
    {
      && OpponentsFor(chosen, playerId, opponentIds[..i])
      && |excluded| == i + 1 && excluded[0] == playerId
      && (forall k | 0 <= k < i :: excluded[k + 1] == chosen[k].id)
      && (forall k | 0 <= k < i && opponentIds[k] == 0 :: !RegistryCovered(playerId, opponentIds[..k]))
    }

    /** Fewer excluded ids than players 1..n leave some id in 1..n free: at
        random slot i the exclusion list holds only i + 1 ids. */
    lemma {:induction false} IdNotExcluded(n: nat, excluded: seq<int>) returns (v: int)
      requires |excluded| < n
      ensures 1 <= v <= n && v !in excluded
      decreases n
    {
      if n !in excluded {
        return n;
      }
      var k :| 0 <= k < |excluded| && excluded[k] == n;
      var rest := excluded[..k] + excluded[k + 1..];
      assert excluded == excluded[..k] + [n] + excluded[k + 1..];
      v := IdNotExcluded(n - 1, rest);
    }

    /** A successful random pick at slot i shows that the main player and the
        ids before slot i do not cover the registry. */
    lemma PoolNotCovered(playerId: int, opponentIds: seq<int>, i: nat, chosen: seq<Player>,
                         excluded: seq<int>, opponent: Player)
      requires PlayersNumbered()
      requires i < |opponentIds| && PickedSoFar(playerId, opponentIds, i, chosen, excluded)
      requires opponent in players && opponent.id !in excluded
      ensures !RegistryCovered(playerId, opponentIds[..i])
    {
      assert opponent.id != playerId;
      forall k | 0 <= k < i
        ensures opponentIds[k] != opponent.id
      {
        assert excluded[k + 1] == chosen[k].id;
        assert opponentIds[..i][k] == opponentIds[k];
      }
    }

    /** One more slot filled: the opponent picked for slot i extends what
        the loop has built. */
    lemma PickedOneMore(playerId: int, opponentIds: seq<int>, i: nat, chosen: seq<Player>,
                        excluded: seq<int>, opponent: Player)
      requires i < |opponentIds| && PickedSoFar(playerId, opponentIds, i, chosen, excluded)
      requires opponent in players
      requires opponentIds[i] != 0 ==> opponent.id == opponentIds[i]
      requires opponentIds[i] == 0 ==> opponent.id !in excluded && !RegistryCovered(playerId, opponentIds[..i])
      ensures PickedSoFar(playerId, opponentIds, i + 1, chosen + [opponent], excluded + [opponent.id])
    {
      var ids, ids' := opponentIds[..i], opponentIds[..i + 1];
      assert ids' == ids + [opponentIds[i]];
      var chosen' := chosen + [opponent];
      assert forall k | 0 <= k < i :: chosen'[k] == chosen[k] && ids'[k] == ids[k];
      if opponentIds[i] == 0 {
        assert forall j | 0 <= j < i :: excluded[j + 1] == chosen[j].id;
      }
    }

    /** The loop of `add_match` over the opponent slots: it collects the
        opponents and their part of the prize. It fails (None) only at a random
        slot whose candidates are exhausted, and it always fails at a random
        slot where the main player and the ids before it cover the registry. */
    method PickOpponents(playerId: int, opponentIds: seq<int>) returns (opponents: Option<seq<Player>>, prizeScore: int)
      requires PlayersNumbered()
      requires forall k | 0 <= k < |opponentIds| && opponentIds[k] != 0 :: GetPlayerById(opponentIds[k]).Some?
      ensures opponents.Some? ==> OpponentsFor(opponents.value, playerId, opponentIds)
      ensures opponents.Some? ==> prizeScore == OpponentsPrize(opponentIds)
      ensures (forall k | 0 <= k < |opponentIds| && opponentIds[k] == 0 :: k + 1 < |players|) ==> opponents.Some?
      ensures forall k | 0 <= k < |opponentIds| && opponentIds[k] == 0 ::
                RegistryCovered(playerId, opponentIds[..k]) ==> opponents.None?
    {
      prizeScore := 0;
      var chosen: seq<Player> := [];
      var excludedOpponentIds := [playerId];

      for i := 0 to |opponentIds|
        invariant prizeScore == OpponentsPrize(opponentIds[..i])
        invariant PickedSoFar(playerId, opponentIds, i, chosen, excludedOpponentIds)
      {
        var opponentId := opponentIds[i];
        var opponent: Player;
        if opponentId != 0 {
          opponent := GetPlayerById(opponentId).value;
          prizeScore := prizeScore + ScorePickedOpponent;
        } else {
          if i + 1 < |players| {
            var v := IdNotExcluded(|players|, excludedOpponentIds);
            assert players[v - 1].id == v;
          }
          var pick := RandomizePlayer(excludedOpponentIds);
          if pick.None? {
            return None, prizeScore;
          }
          opponent := pick.value;
          prizeScore := prizeScore + ScoreRandomOpponent;
          PoolNotCovered(playerId, opponentIds, i, chosen, excludedOpponentIds, opponent);
        }
        assert opponentIds[..i + 1][..i] == opponentIds[..i];
        PickedOneMore(playerId, opponentIds, i, chosen, excludedOpponentIds, opponent);
        excludedOpponentIds := excludedOpponentIds + [opponent.id];
        chosen := chosen + [opponent];
      }
      assert opponentIds[..|opponentIds|] == opponentIds;
      opponents := Some(chosen);
    }

    /** `add_match`: appends one match and leaves the earlier ones alone. It
        fails, changing nothing, only when a random slot finds no candidate. */
    method AddMatch(playerId: int, opponentIds: seq<int>, gameId: int) returns (ok: bool)
      requires Valid()
      requires GetPlayerById(playerId).Some?
      requires forall k | 0 <= k < |opponentIds| && opponentIds[k] != 0 :: GetPlayerById(opponentIds[k]).Some?
      requires gameId != 0 ==> GetGameById(gameId).Some?
      modifies this
      ensures Valid()
      ensures ok ==> |matches| == |old(matches)| + 1 && matches[..|old(matches)|] == old(matches)
      ensures ok ==> Scheduled(matches[|old(matches)|], |old(matches)| + 1, playerId, opponentIds, gameId)
      ensures !ok ==> matches == old(matches)
      ensures (forall k | 0 <= k < |opponentIds| && opponentIds[k] == 0 :: k + 1 < |players|) && (gameId != 0 || |games| > 0) ==> ok
      ensures gameId == 0 && |games| == 0 ==> !ok
      ensures forall k | 0 <= k < |opponentIds| && opponentIds[k] == 0 ::
                RegistryCovered(playerId, opponentIds[..k]) ==> !ok
    {
      var matchId := |matches| + 1;
      var player := GetPlayerById(playerId).value;
      var opponents, prizeScore := PickOpponents(playerId, opponentIds);
      if opponents.None? {
        return false;
      }

      var game: Game;
      if gameId != 0 {
        game := GetGameById(gameId).value;
        prizeScore := prizeScore + ScorePickedGame;
      } else {
        var pick := RandomizeGame();
        if pick.None? {
          return false;
        }
        game := pick.value;
        prizeScore := prizeScore + ScoreRandomGame;
      }

      PrizeScoreBounds(opponentIds, gameId);
      var m := Match(matchId, player, game, opponents.value, prizeScore, NotPlayedYet);
      assert WellFormed(m);
      matches := matches + [m];
      ok := true;
    }

    /** `finalize_match`: records the outcome of one match in place and returns
        it; every other match is unchanged. */
    method FinalizeMatch(matchId: int, mainPlayerWon: bool) returns (m: Match)
      requires Valid()
      requires GetMatchById(matchId).Some?
      modifies this
      ensures Valid()
      ensures matches == old(matches)[matchId - 1 := Finalized(old(matches)[matchId - 1], mainPlayerWon)]
      ensures m == matches[matchId - 1]
    {
      var k := FirstWithId(matches, (m: Match) => m.id, matchId).value;
      m := Finalized(matches[k], mainPlayerWon);
      matches := matches[k := m];
    }

    /** `get_player_scores`: every registered player, with their score over the
        finished matches. */
    method GetPlayerScores() returns (playerScores: map<Player, int>)
      requires Valid()
      ensures playerScores.Keys == set p | p in players
      ensures forall p | p in players :: playerScores[p] == TotalScore(p, matches)
    {
      var completedMatches := Filter(matches, IsCompleted);
      playerScores := map p | p in players :: 0;

      for i := 0 to |completedMatches|
        invariant playerScores.Keys == set p | p in players
        invariant forall p | p in players :: playerScores[p] == TotalScore(p, completedMatches[..i])
      {
        var m := completedMatches[i];
        forall p | p in players
          ensures TotalScore(p, completedMatches[..i + 1]) == TotalScore(p, completedMatches[..i]) + Award(p, m)
        {
          TotalScoreStep(p, completedMatches, i);
        }
        assert m in matches;
        var mk :| 0 <= mk < |matches| && matches[mk] == m;
        assert WellFormed(matches[mk]);
        if m.state == MainPlayerWon {
          playerScores := playerScores[m.player := playerScores[m.player] + m.prizeScore];
        } else {
          playerScores := ShareAmongOpponents(playerScores, m);
        }
      }

      assert completedMatches[..|completedMatches|] == completedMatches;
      forall p | p in players
        ensures playerScores[p] == TotalScore(p, matches)
      {
        CompletedMatchesDecideScore(p, matches);
      }
    }

    /** The inner loop of `get_player_scores` for a match the opponents won:
        every opponent slot adds the rounded-up share to that player. */
    method ShareAmongOpponents(playerScores: map<Player, int>, m: Match) returns (updated: map<Player, int>)
      requires forall o | o in m.opponents :: o in playerScores
      ensures updated.Keys == playerScores.Keys
      ensures forall p | p in playerScores :: updated[p] == playerScores[p] + multiset(m.opponents)[p] * Share(m)
    {
      updated := playerScores;
      ghost var share := Share(m);
      for j := 0 to |m.opponents|
        invariant updated.Keys == playerScores.Keys
        invariant forall p | p in playerScores ::
                    updated[p] == playerScores[p] + multiset(m.opponents[..j])[p] * share
      {
        var opponent := m.opponents[j];
        assert m.opponents[..j + 1] == m.opponents[..j] + [opponent];
        ghost var before := updated;
        updated := updated[opponent := updated[opponent] + CeilDiv(m.prizeScore, |m.opponents|)];
        forall p | p in playerScores
          ensures updated[p] == playerScores[p] + multiset(m.opponents[..j + 1])[p] * share
        {
          var c := multiset(m.opponents[..j])[p];
          if p == opponent {
            assert multiset(m.opponents[..j + 1])[p] == c + 1;
            OneMoreShare(c, share);
          } else {
            assert multiset(m.opponents[..j + 1])[p] == c;
          }
        }
      }
      assert m.opponents[..|m.opponents|] == m.opponents;
    }

    /** The points one finished match hands out across the scoreboard: exactly
        its prize when the main player won, at least the prize and less than the
        prize plus the number of opponent slots when the opponents won. */
    lemma MatchHandsOut(k: nat)
      requires Valid() && k < |matches|
      ensures matches[k].state == MainPlayerWon ==> SumAwards(players, matches[k]) == matches[k].prizeScore
      ensures matches[k].state == OpponentsWon && |matches[k].opponents| > 0 ==>
                matches[k].prizeScore <= SumAwards(players, matches[k]) < matches[k].prizeScore + |matches[k].opponents|
    {
      assert WellFormed(matches[k]);
      assert NoDuplicates(players) by {
        forall i, j | 0 <= i < j < |players| ensures players[i] != players[j] {
          assert players[i].id != players[j].id;
        }
      }
      HandedOut(players, matches[k]);
    }
  }
}

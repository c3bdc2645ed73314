# LAN tournament helper — a Dafny model of its tournament logic

The program runs small LAN tournaments. A `TournamentController` owns the
registered players and games, numbered from 1 in registration order. It
schedules matches: a main player against a list of opponent slots on one
game. Each slot names an opponent or, with a falsy id (0 or None), asks
for a random one. It records who won each match and derives a scoreboard.

A match is worth a prize fixed when it is scheduled:
- a picked opponent or game is worth 1 point;
- a random opponent or game is worth 3 points.

When the main player wins, they get the whole prize. When the opponents win,
every opponent slot gets the prize divided by the number of slots, rounded
up. Before the lists of names are split, a separate check rejects a
comma-separated list in which a comma is followed by an entry of one or
more spaces or tabs. A blank first entry has no comma before it and is not flagged.

The model is split into six modules:
- `Sequences`: the list comprehension `[x for x in s if keep(x)]` as
  `Filter`, and the subsequence order it preserves.
- `Entities`: players, games and matches; the first-match-by-id lookup; and
  how a match is finalised.
- `Validation`: `chk_is_whitespace`, proved equivalent to a declarative
  description of what its regular expression matches.
- `Scoring`: the prize formula, the rounded-up share, the score of a player
  over a list of matches, and lemmas about all three.
- `Tournament`: the controller as a class.
  - Players and games are `const` sequences; the list of matches is a
    `seq<Match>` field that `AddMatch` and `FinalizeMatch` reassign.
  - `Valid()` is the invariant every method keeps: ids are numbered, every
    match refers to registered players and a registered game, and every
    prize fits its number of slots.
  - The loops of `add_match` and `get_player_scores` are methods with loop
    invariants, proved against the specification functions in `Scoring`.
  - Random choice is a nondeterministic pick (`:|`) from the same candidate
    list the source builds.
- `Scenarios`: scenarios on small concrete registries, proved about the
  model.

Some facts about the code in `logic.py` that shape the model:
- `add_match` takes any number of opponent slots. The console passes one or
  two (console_interface.py:116-120).
- `add_match` does not reject the main player as their own opponent, nor an
  opponent named twice.
- With two opponent slots the prize lies in 3..9.
- `get_matches_by_player_id` returns an empty list for an unknown id.

## Model

| member | source | states |
|---|---|---|
| `Validation.ChkIsWhitespace` | logic.py:6-12 | true exactly when some comma is followed by one or more spaces or tabs and then by another comma, the end of the string, or a final newline |
| `Validation.ScanFrom` | logic.py:7 | the left-to-right search finds a match starting at or after position i exactly when one exists |
| `Validation.RunEnd` | logic.py:7 | the run of blanks `[ \t]+` from position k ends at the first non-blank or at the end of the string |
| `Entities.Finalized` | logic.py:140-143 | the match is no longer unplayed, its state is "main player won" exactly when that was reported, and no other field changes |
| `Entities.RefinalizeOverwrites` | logic.py:137-145 | finalising twice keeps only the second outcome, as nothing guards against re-finalising |
| `Entities.FirstWithId` | logic.py:79-86 | None means no element has the id; otherwise the index holds the id and no earlier element does |
| `Entities.FilterKeepsIdOrder` | logic.py:88-94 | a query over matches keeps them in creation order |
| `Entities.OrderedByIdIsUnique` | logic.py:88-94 | two lists in increasing id order with the same members are equal, so membership and order determine a query result |
| `Sequences.Filter` | logic.py:92-94 | an element is kept exactly when it is in the list and meets the condition, and the result is a subsequence |
| `Sequences.FilterKeepsEveryOccurrence` | logic.py:92-94 | each value occurs in the result as often as in the list when it meets the condition, and not at all otherwise |
| `Sequences.FilterMonotone` | logic.py:91-94 | filtering with a narrower condition gives a subsequence of filtering with a wider one |
| `Scoring.OpponentsPrizeCounts` | logic.py:117-123 | the opponents' part of the prize is 1 per truthy id plus 3 per falsy id |
| `Scoring.PrizeScoreBounds` | logic.py:113-133 | with n slots the prize lies in n+1..3(n+1): the minimum exactly when every slot and the game were picked, the maximum exactly when all were random |
| `Scoring.TwoOpponentPrizeRange` | logic.py:113-133 | with two opponent slots the prize lies in 3..9 |
| `Scoring.CeilDiv` | logic.py:156 | the smallest q with n·q at least p: `math.ceil(p / n)` |
| `Scoring.CompletedMatchesDecideScore` | logic.py:147-153 | summing only the completed matches gives the same score as summing over all matches |
| `Scoring.ScoreAfterFinalize` | logic.py:137-156 | recording an outcome changes each player's score by that match's new award minus its old award |
| `Scoring.MainPlayerWinScores` | logic.py:140-153 | a main-player win on an unplayed match adds its prize to the main player and nothing to anyone else |
| `Scoring.HandedOut` | logic.py:151-156 | over distinct players a finished match hands out exactly its prize when the main player won; when the opponents won, at least the prize and less than the prize plus the number of slots |
| `Tournament.TournamentController.constructor` | logic.py:73-77 | player k and game k get id k+1 and the k-th name, and there are no matches yet |
| `Tournament.TournamentController.GetGameById` | logic.py:79-80 | the result is a registered game with that id, or None when there is none; with 1..N numbering it is game id-1 |
| `Tournament.TournamentController.GetPlayerById` | logic.py:82-83 | the result is a registered player with that id, or None when there is none; with 1..N numbering it is player id-1 |
| `Tournament.TournamentController.GetMatchById` | logic.py:85-86 | the result is a stored match with that id, or None when there is none; with 1..N numbering it is match id-1 |
| `Tournament.TournamentController.GetMatchesByPlayerId` | logic.py:88-94 | a subsequence of the matches, in creation order, holding exactly the matches the player takes part in (as main player only, or in any slot) |
| `Tournament.TournamentController.MainOnlyWithinAll` | logic.py:88-94 | the main-player-only result is a subsequence of the full result |
| `Tournament.TournamentController.UnknownPlayerHasNoMatches` | logic.py:88-94 | an id of no registered player gives the empty list |
| `Tournament.TournamentController.GetPlayersByMatchId` | logic.py:96-98 | the main player followed by the opponents in slot order, all of them registered |
| `Tournament.TournamentController.PlayersAndMatchesAgree` | logic.py:88-98 | a registered player is among a match's players exactly when that match is among the player's matches |
| `Tournament.TournamentController.RandomizeGame` | logic.py:100-101 | a registered game, and None exactly when there are no games |
| `Tournament.TournamentController.RandomizePlayer` | logic.py:103-107 | a registered player whose id is not excluded, and None exactly when every player is excluded |
| `Tournament.TournamentController.PoolNotCovered` | logic.py:115-125 | a successful random pick at a slot shows that the main player and the ids before that slot leave some player uncovered |
| `Tournament.TournamentController.PickOpponents` | logic.py:113-126 | one opponent per slot: the named player, or a random player who is neither the main player nor an earlier opponent; the prize is the slot formula; it succeeds when every random slot at position k (counting from 0) has k + 1 < the number of players, which covers every slot being named and more players than slots; it fails when a random slot finds the registry covered |
| `Tournament.TournamentController.IdNotExcluded` | logic.py:107-125 | fewer excluded ids than players numbered 1..n leave some id in 1..n free, so a random slot at position k always has a candidate when k + 1 < the number of players |
| `Tournament.TournamentController.AddMatch` | logic.py:109-135 | on success it appends one unplayed match with the next id, the main player, the opponents, the named or a random game and the formula prize; on failure nothing changes; it succeeds when a game is available and every random slot at position k (counting from 0) has k + 1 < the number of players; it fails when no game exists for a random game or a random slot finds the registry covered; the invariant is kept |
| `Tournament.TournamentController.FinalizeMatch` | logic.py:137-145 | only the state of the match with that id changes, and that updated match is returned |
| `Tournament.TournamentController.GetPlayerScores` | logic.py:147-158 | one entry per registered player, equal to that player's total award over all matches |
| `Tournament.TournamentController.ShareAmongOpponents` | logic.py:155-156 | every player's score grows by the rounded-up share times the number of slots they fill |
| `Tournament.TournamentController.MatchHandsOut` | logic.py:147-156 | in a valid controller a main-player win hands out exactly its prize; an opponents' win hands out at least the prize and less than the prize plus the number of slots |
| `Scenarios.ScheduleAgainstTwoNamed` | logic.py:109-135 | A against named B and C on a named game is stored as match 1, unplayed, with prize 3 |
| `Scenarios.MainPlayerTakesThePrize` | logic.py:109-158 | A against named B and C on a named game is worth 3; after A wins, A has 3 and B and C have 0 |
| `Scenarios.ScheduleSameOpponentTwice` | logic.py:109-135 | B named in both slots on a random game, with one game registered, is stored as match 1, unplayed, with prize 5 |
| `Scenarios.OpponentsShareThePrize` | logic.py:109-158 | two slots both naming B on a random game are worth 5; after the opponents win, B is credited 3 twice and A gets nothing |
| `Scenarios.RandomPoolRunsDry` | logic.py:103-135 | with two players, a random second slot after naming the other player fails |
| `Scenarios.RandomOpponentsFound` | logic.py:103-135 | with three players, two random slots on a random game always yield a match |
| `Scenarios.RandomBeforeNamedFound` | logic.py:103-135 | with three players, a random slot followed by two slots naming the same player always yields a match |
| `Scenarios.BlankEntriesFlagged` | logic.py:6-12 | lists with a blank entry after a comma, including blanks before a trailing newline, are flagged |
| `Scenarios.BlankEntriesNotFlagged` | logic.py:6-12 | a comma followed directly by a name or a comma, or by blanks and then a name, is not flagged |
| `Scenarios.LeadingBlanksNotFlagged` | logic.py:6-12 | a blank first entry and a list of blanks only are not flagged, as no comma precedes the blanks |

## Left out

- `console_interface.py` is not part of this model. It covers reading names
  and commands, printing, and the loop that drives the controller.
- `__str__` and `__repr__` of Player, Game and Match are left out, because
  they only format text for display.
- `Player.score` is left out, because the source sets it to 0 and never uses it.
- The distribution of `random.choice` is left out. A random pick is any
  element of the same candidate list; uniformity is not modelled.
- A failing `random.choice` on an empty list raises IndexError, which
  propagates to the caller. Here `RandomizeGame` and `RandomizePlayer` return
  None instead, and `AddMatch` returns false with the matches unchanged,
  which is the state the exception leaves behind.
- `math.ceil(prize / n)` uses float division. It is modelled as exact integer
  ceiling division, which agrees for every prize a match can carry.
- The source's dictionaries are keyed by player objects, compared by identity.
  The model keys them by player values; registered players have distinct ids,
  so the two agree.
- Tournament.TournamentController.GetPlayerScores: returns an unordered map.
  The source returns a dict in registration order, and the console's stable
  sort (console_interface.py:51-52) keeps that order among equal scores.
- Aliasing is not modelled. `finalize_match` returns the stored Match object
  itself, so a later change made through that object would also change the
  stored match. `FinalizeMatch` returns a copy of the updated value.
- Tournament.TournamentController.AddMatch: requires a registered main
  player. For an unknown main id, the source stores a match whose player is
  None. `get_player_scores` then fails only if that match is finalised as a
  main-player win. Until then the match stays, and `get_matches_by_player_id`
  with any unknown id returns it, because `None == None`. So
  `UnknownPlayerHasNoMatches` holds only in the states the model reaches.
- Tournament.TournamentController.AddMatch: requires that a truthy game id
  names a registered game. For an unknown game id, the source stores a match
  whose game is None. The console does pass such ids: it accepts any integer
  as a game id (console_interface.py:107-110) and hands it to `add_match`
  (console_interface.py:134). Leaving this case out loses nothing the model
  tracks: no operation of the controller reads a match's game; only the
  display text does (logic.py:64).
- Tournament.TournamentController.AddMatch: success is not decided in every
  case. The contract promises success when a game is available and every
  random slot at position k (counting from 0) has k + 1 < the number of
  players: such a slot excludes at most k + 1 ids, so a candidate is left.
  It promises failure when a random slot finds the main player and the ids
  before it covering the registry, or when no game exists for a random
  game. Between the two it says nothing. Some of those inputs always
  succeed: with three players, slots 2, 2, 0 exclude only two distinct ids.
  For others the outcome depends on which players earlier random slots
  picked, because a random pick can land on a player a later slot names.
- Tournament.TournamentController.PickOpponents: success is decided in the
  same cases as for AddMatch, and left open in the same remaining cases.
- Tournament.TournamentController.PickOpponents: requires every truthy
  opponent id to name a registered player. The source raises AttributeError
  on such an id (`None.id`).
- Tournament.TournamentController.GetPlayersByMatchId: requires a stored
  match id. The source raises AttributeError on an unknown one.
- Tournament.TournamentController.FinalizeMatch: requires a stored match id.
  The source raises AttributeError on an unknown one.
- An opponent or game id of None is modelled as 0. The source tests only
  truthiness, and None and 0 are its only falsy ids.

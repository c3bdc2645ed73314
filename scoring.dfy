/** Prize scores fixed when a match is scheduled, and the points a finished
    match awards to each player. */
module Scoring {
  import opened Sequences
  import opened Entities

  const ScorePickedGame := 1
  const ScoreRandomGame := 3
  const ScorePickedOpponent := 1
  const ScoreRandomOpponent := 3

  /** An opponent slot holding a truthy id was picked; 0 (or None) asks for a random opponent. */
  function SlotScore(opponentId: int): int {
    if opponentId != 0 then ScorePickedOpponent else ScoreRandomOpponent
  }

  function GameScore(gameId: int): int {
    if gameId != 0 then ScorePickedGame else ScoreRandomGame
  }

  /** The opponents' part of the prize, accumulated slot by slot. */
  function OpponentsPrize(opponentIds: seq<int>): int
    decreases |opponentIds|
  {
    if |opponentIds| == 0 then 0
    else OpponentsPrize(opponentIds[..|opponentIds| - 1]) + SlotScore(opponentIds[|opponentIds| - 1])
  }

  /** Counted instead of accumulated: the random slots are the zeros among
      the ids, and every other slot was picked. */
  lemma {:induction false} OpponentsPrizeCounts(opponentIds: seq<int>)
    ensures OpponentsPrize(opponentIds)
            == ScorePickedOpponent * (|opponentIds| - multiset(opponentIds)[0])
               + ScoreRandomOpponent * multiset(opponentIds)[0]
    decreases |opponentIds|
  {
    if |opponentIds| > 0 {
      var init := opponentIds[..|opponentIds| - 1];
      OpponentsPrizeCounts(init);
      assert opponentIds == init + [opponentIds[|opponentIds| - 1]];
    }
  }

  /** The prize score `add_match` computes from the way each slot was filled. */
  function PrizeScore(opponentIds: seq<int>, gameId: int): int {
    OpponentsPrize(opponentIds) + GameScore(gameId)
  }

  lemma {:induction false} CountIsLength(s: seq<int>, x: int)
    ensures multiset(s)[x] == |s| <==> forall k | 0 <= k < |s| :: s[k] == x
    ensures multiset(s)[x] <= |s|
    decreases |s|
  {
    if |s| > 0 {
      var init := s[..|s| - 1];
      CountIsLength(init, x);
      assert s == init + [s[|s| - 1]];
    }
  }

  /** Every slot scores between 1 and 3, so with n opponents the prize lies in
      n+1 .. 3(n+1): the lower end exactly when every slot was picked, the
      upper end exactly when every slot was random. */
  lemma PrizeScoreBounds(opponentIds: seq<int>, gameId: int)
    ensures |opponentIds| + 1 <= PrizeScore(opponentIds, gameId) <= 3 * (|opponentIds| + 1)
    ensures PrizeScore(opponentIds, gameId) == |opponentIds| + 1
            <==> gameId != 0 && forall k | 0 <= k < |opponentIds| :: opponentIds[k] != 0
    ensures PrizeScore(opponentIds, gameId) == 3 * (|opponentIds| + 1)
            <==> gameId == 0 && forall k | 0 <= k < |opponentIds| :: opponentIds[k] == 0
  {
    OpponentsPrizeCounts(opponentIds);
    CountIsLength(opponentIds, 0);
    assert multiset(opponentIds)[0] == 0 <==> 0 !in opponentIds;
  }

  /** With the console's two opponents the prize lies in 3 .. 9. */
  lemma TwoOpponentPrizeRange(opponentIds: seq<int>, gameId: int)
    requires |opponentIds| == 2
    ensures 3 <= PrizeScore(opponentIds, gameId) <= 9
  {
    PrizeScoreBounds(opponentIds, gameId);
  }

  /** `math.ceil(p / n)`, written as integer division. */
  function CeilDiv(p: int, n: int): (q: int)
    requires n > 0
    ensures n * q >= p && n * q < p + n
  {
    (p + n - 1) / n
  }

  lemma OneMoreShare(c: int, share: int)
    ensures (c + 1) * share == c * share + share
  {
  }

  lemma Distributes(c: int, d: int, x: int)
    ensures c * x + d * x == (c + d) * x
  {
  }

  /** What each opponent of a match receives when the opponents win. */
  function Share(m: Match): int {
    if |m.opponents| == 0 then 0 else CeilDiv(m.prizeScore, |m.opponents|)
  }

  /** The points match `m` gives player `p`: nothing while it is unplayed,
      the whole prize to the main player when they won, and a rounded-up share
      to every opponent slot `p` fills when the opponents won. */
  function Award(p: Player, m: Match): int {
    match m.state
    case NotPlayedYet => 0
    case MainPlayerWon => if m.player == p then m.prizeScore else 0
    case OpponentsWon => multiset(m.opponents)[p] * Share(m)
  }

  /** The score of `p` summed over `ms`, in order. */
  function TotalScore(p: Player, ms: seq<Match>): int
    decreases |ms|
  {
    if |ms| == 0 then 0 else TotalScore(p, ms[..|ms| - 1]) + Award(p, ms[|ms| - 1])
  }

  /** Extending a prefix of `ms` by its next match adds that match's award. */
  lemma TotalScoreStep(p: Player, ms: seq<Match>, i: nat)
    requires i < |ms|
    ensures TotalScore(p, ms[..i + 1]) == TotalScore(p, ms[..i]) + Award(p, ms[i])
  {
    assert ms[..i + 1][..i] == ms[..i];
  }

  predicate IsCompleted(m: Match) {
    m.state != NotPlayedYet
  }

  lemma {:induction false} TotalScoreAppend(p: Player, a: seq<Match>, b: seq<Match>)
    ensures TotalScore(p, a + b) == TotalScore(p, a) + TotalScore(p, b)
    decreases |b|
  {
    if |b| > 0 {
      var init := b[..|b| - 1];
      TotalScoreAppend(p, a, init);
      assert (a + b)[..|a + b| - 1] == a + init;
    } else {
      assert a + b == a;
    }
  }

  /** Summing over only the completed matches, as the source does, gives the
      same score as summing over all of them: unplayed matches award nothing. */
  lemma {:induction false} CompletedMatchesDecideScore(p: Player, ms: seq<Match>)
    ensures TotalScore(p, Filter(ms, IsCompleted)) == TotalScore(p, ms)
    decreases |ms|
  {
    if |ms| > 0 {
      var init := ms[..|ms| - 1];
      CompletedMatchesDecideScore(p, init);
      if IsCompleted(ms[|ms| - 1]) {
        TotalScoreAppend(p, Filter(init, IsCompleted), [ms[|ms| - 1]]);
        assert [ms[|ms| - 1]][..0] == [];
      }
    }
  }

  /** Recording an outcome for match k changes each score by exactly the
      difference between the new and the old award of that match. */
  lemma ScoreAfterFinalize(p: Player, ms: seq<Match>, k: nat, mainPlayerWon: bool)
    requires k < |ms|
    ensures TotalScore(p, ms[k := Finalized(ms[k], mainPlayerWon)])
            == TotalScore(p, ms) - Award(p, ms[k]) + Award(p, Finalized(ms[k], mainPlayerWon))
  {
    var m' := Finalized(ms[k], mainPlayerWon);
    var before, after := ms[..k], ms[k + 1..];
    assert ms == before + [ms[k]] + after;
    assert ms[k := m'] == before + [m'] + after;
    TotalScoreAppend(p, before + [ms[k]], after);
    TotalScoreAppend(p, before + [m'], after);
    TotalScoreAppend(p, before, [ms[k]]);
    TotalScoreAppend(p, before, [m']);
    assert [ms[k]][..0] == [] && [m'][..0] == [];
  }

  /** Finalising an unplayed match as won by its main player adds the prize
      to the main player and nothing to anyone else. */
  lemma MainPlayerWinScores(p: Player, ms: seq<Match>, k: nat)
    requires k < |ms| && ms[k].state == NotPlayedYet
    ensures TotalScore(p, ms[k := Finalized(ms[k], true)])
            == TotalScore(p, ms) + (if p == ms[k].player then ms[k].prizeScore else 0)
  {
    ScoreAfterFinalize(p, ms, k, true);
  }

  // Sums over a list of distinct players, for the total a match hands out.

  function SumAwards(ps: seq<Player>, m: Match): int
    decreases |ps|
  {
    if |ps| == 0 then 0 else SumAwards(ps[..|ps| - 1], m) + Award(ps[|ps| - 1], m)
  }

  function SumCounts(ps: seq<Player>, opponents: seq<Player>): int
    decreases |ps|
  {
    if |ps| == 0 then 0 else SumCounts(ps[..|ps| - 1], opponents) + multiset(opponents)[ps[|ps| - 1]]
  }

  /** A player listed once among distinct players is counted once. */
  lemma {:induction false} OccursOnce(ps: seq<Player>, x: Player)
    requires NoDuplicates(ps) && x in ps
    ensures multiset(ps)[x] == 1
    decreases |ps|
  {
    var init := ps[..|ps| - 1];
    assert ps == init + [ps[|ps| - 1]];
    if ps[|ps| - 1] == x {
      assert x !in init;
    } else {
      assert x in init;
      OccursOnce(init, x);
    }
  }

  lemma {:induction false} SumCountsAppend(ps: seq<Player>, opponents: seq<Player>, x: Player)
    ensures SumCounts(ps, opponents + [x]) == SumCounts(ps, opponents) + multiset(ps)[x]
    decreases |ps|
  {
    if |ps| > 0 {
      SumCountsAppend(ps[..|ps| - 1], opponents, x);
      assert ps == ps[..|ps| - 1] + [ps[|ps| - 1]];
    }
  }

  /** Counting, over distinct players who include every opponent, how many
      slots each fills gives the number of slots. */
  lemma {:induction false} SumCountsIsLength(ps: seq<Player>, opponents: seq<Player>)
    requires NoDuplicates(ps)
    requires forall o | o in opponents :: o in ps
    ensures SumCounts(ps, opponents) == |opponents|
    decreases |opponents|
  {
    if |opponents| == 0 {
      SumCountsEmpty(ps);
    } else {
      var init, x := opponents[..|opponents| - 1], opponents[|opponents| - 1];
      assert opponents == init + [x];
      SumCountsIsLength(ps, init);
      SumCountsAppend(ps, init, x);
      OccursOnce(ps, x);
    }
  }

  lemma {:induction false} SumCountsEmpty(ps: seq<Player>)
    ensures SumCounts(ps, []) == 0
    decreases |ps|
  {
    if |ps| > 0 {
      SumCountsEmpty(ps[..|ps| - 1]);
    }
  }

  lemma {:induction false} SumAwardsByState(ps: seq<Player>, m: Match)
    ensures m.state == NotPlayedYet ==> SumAwards(ps, m) == 0
    ensures m.state == MainPlayerWon ==> SumAwards(ps, m) == multiset(ps)[m.player] * m.prizeScore
    ensures m.state == OpponentsWon ==> SumAwards(ps, m) == SumCounts(ps, m.opponents) * Share(m)
    decreases |ps|
  {
    if |ps| > 0 {
      var init, last := ps[..|ps| - 1], ps[|ps| - 1];
      SumAwardsByState(init, m);
      match m.state
      case NotPlayedYet =>
      case MainPlayerWon =>
        var c := multiset(init)[m.player];
        assert ps == init + [last];
        var d := if last == m.player then 1 else 0;
        assert Award(last, m) == d * m.prizeScore;
        Distributes(c, d, m.prizeScore);
      case OpponentsWon =>
        var c := SumCounts(init, m.opponents);
        var d := multiset(m.opponents)[last];
        Distributes(c, d, Share(m));
    }
  }

  /** The points one finished match hands out to a registry of distinct
      players who include all its participants: exactly the prize when the
      main player won; when the opponents won, at least the prize and less
      than the prize plus the number of opponent slots, because each share is
      rounded up (a prize of 5 split two ways hands out 3 + 3). */
  lemma HandedOut(ps: seq<Player>, m: Match)
    requires NoDuplicates(ps)
    requires m.player in ps && forall o | o in m.opponents :: o in ps
    ensures m.state == NotPlayedYet ==> SumAwards(ps, m) == 0
    ensures m.state == MainPlayerWon ==> SumAwards(ps, m) == m.prizeScore
    ensures m.state == OpponentsWon && |m.opponents| > 0 ==>
              m.prizeScore <= SumAwards(ps, m) < m.prizeScore + |m.opponents|
  {
    SumAwardsByState(ps, m);
    OccursOnce(ps, m.player);
    SumCountsIsLength(ps, m.opponents);
  }
}

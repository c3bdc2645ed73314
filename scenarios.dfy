/** Scenarios: the controller on small concrete registries. */
module Scenarios {
  import opened Entities
  import opened Scoring
  import opened Validation
  import opened Tournament

  /** Three players and one game: A against B and C on the named game is
      scheduled as match 1, worth 1 + 1 + 1. */
  method ScheduleAgainstTwoNamed() returns (c: TournamentController)
    ensures fresh(c) && c.Valid()
    ensures c.players == [Player(1, "A"), Player(2, "B"), Player(3, "C")]
    ensures c.matches == [Match(1, Player(1, "A"), Game(1, "Chess"), [Player(2, "B"), Player(3, "C")], 3, NotPlayedYet)]
  {
    c := new TournamentController(["A", "B", "C"], ["Chess"]);
    var a, b, d := Player(1, "A"), Player(2, "B"), Player(3, "C");
    assert c.players == [a, b, d];
    var ok := c.AddMatch(1, [2, 3], 1);
    assert ok;
    var m := c.matches[0];
    assert m.player == a && m.opponents == [b, d] && m.game == Game(1, "Chess");
    assert m.prizeScore == 3 by {
      assert [2, 3][..1] == [2];
      assert [2][..0] == [];
    }
  }

  /** Once A wins that match, A holds the whole prize and B and C hold nothing. */
  method MainPlayerTakesThePrize() returns (scores: map<Player, int>)
    ensures scores.Keys == {Player(1, "A"), Player(2, "B"), Player(3, "C")}
    ensures scores[Player(1, "A")] == 3
    ensures scores[Player(2, "B")] == 0 && scores[Player(3, "C")] == 0
  {
    var c := ScheduleAgainstTwoNamed();
    var a, b, d := Player(1, "A"), Player(2, "B"), Player(3, "C");
    var finished := c.FinalizeMatch(1, true);
    assert c.matches == [finished] && finished.state == MainPlayerWon;
    assert finished.player == a && finished.prizeScore == 3;
    scores := c.GetPlayerScores();
    assert c.matches[..0] == [];
    assert TotalScore(a, c.matches) == Award(a, finished) == 3;
    assert TotalScore(b, c.matches) == Award(b, finished) == 0;
    assert TotalScore(d, c.matches) == Award(d, finished) == 0;
    assert scores[a] == TotalScore(a, c.matches);
    assert scores[b] == TotalScore(b, c.matches) && scores[d] == TotalScore(d, c.matches);
  }

  /** Two players and one game: B named in both slots on a random game is
      scheduled as match 1, worth 1 + 1 + 3. */
  method ScheduleSameOpponentTwice() returns (c: TournamentController)
    ensures fresh(c) && c.Valid()
    ensures c.players == [Player(1, "A"), Player(2, "B")]
    ensures c.matches == [Match(1, Player(1, "A"), Game(1, "Go"), [Player(2, "B"), Player(2, "B")], 5, NotPlayedYet)]
  {
    c := new TournamentController(["A", "B"], ["Go"]);
    var a, b := Player(1, "A"), Player(2, "B");
    assert c.players == [a, b];
    var ok := c.AddMatch(1, [2, 2], 0);
    assert ok;
    var m := c.matches[0];
    assert m.player == a && m.opponents == [b, b] && m.game == Game(1, "Go");
    assert m.prizeScore == 5 by {
      assert [2, 2][..1] == [2];
      assert [2][..0] == [];
    }
  }

  /** When the opponents of that match win, each slot is credited the prize
      divided among the slots, rounded up: B is credited ceil(5 / 2) twice. */
  method OpponentsShareThePrize() returns (scores: map<Player, int>)
    ensures scores.Keys == {Player(1, "A"), Player(2, "B")}
    ensures scores[Player(1, "A")] == 0
    ensures scores[Player(2, "B")] == 6
  {
    var c := ScheduleSameOpponentTwice();
    var a, b := Player(1, "A"), Player(2, "B");
    var finished := c.FinalizeMatch(1, false);
    assert c.matches == [finished];
    scores := c.GetPlayerScores();
    assert c.matches[..0] == [];
    assert finished.opponents == [b, b] && finished.prizeScore == 5;
    assert multiset(finished.opponents)[a] == 0;
    assert multiset(finished.opponents)[b] == 2;
    assert TotalScore(a, c.matches) == Award(a, finished) == 0;
    assert scores[a] == TotalScore(a, c.matches);
    assert Share(finished) == 3;
    assert TotalScore(b, c.matches) == Award(b, finished) == 6;
    assert scores[b] == TotalScore(b, c.matches);
  }

  /** Two players: a second random opponent slot finds every player excluded
      (the main player and the first opponent), so nothing is scheduled. */
  method RandomPoolRunsDry() returns (ok: bool)
    ensures !ok
  {
    var c := new TournamentController(["A", "B"], ["Go"]);
    assert c.players == [Player(1, "A"), Player(2, "B")];
    ok := c.AddMatch(1, [2, 0], 1);
    assert [2, 0][..1] == [2];
    assert c.RegistryCovered(1, [2]);
  }

  /** Three players: two random opponent slots always find candidates, since
      each slot excludes only the main player and the opponents before it. */
  method RandomOpponentsFound() returns (ok: bool)
    ensures ok
  {
    var c := new TournamentController(["A", "B", "C"], ["Go"]);
    ok := c.AddMatch(1, [0, 0], 0);
  }

  /** Three players: a random first slot followed by two slots naming B
      always finds a candidate, since only the main player is excluded
      when it is drawn. */
  method RandomBeforeNamedFound() returns (ok: bool)
    ensures ok
  {
    var c := new TournamentController(["A", "B", "C"], ["Go"]);
    ok := c.AddMatch(1, [0, 2, 2], 1);
  }

  /** Name lists with a blank entry after a comma are flagged, including
      one that ends in blanks before a trailing newline. */
  lemma BlankEntriesFlagged()
    ensures ChkIsWhitespace("Ann, \t,Bob")
    ensures ChkIsWhitespace("Ann,  ")
    ensures ChkIsWhitespace("Ann, \n")
  {
    assert BlankEntryAt("Ann, \t,Bob", 3, 6);
    assert BlankEntryAt("Ann,  ", 3, 6);
    assert BlankEntryAt("Ann, \n", 3, 5);
  }

  /** Name lists without a blank entry after a comma are not flagged: a
      comma followed directly by a name or by another comma, or blanks
      followed by a name. */
  lemma BlankEntriesNotFlagged()
    ensures !ChkIsWhitespace("Ann,Bob")
    ensures !ChkIsWhitespace("Ann,,Bob")
    ensures !ChkIsWhitespace("Ann, Bob")
  {
    var s, t, u := "Ann,Bob", "Ann,,Bob", "Ann, Bob";
    forall i, j
      ensures !BlankEntryAt(s, i, j) && !BlankEntryAt(t, i, j) && !BlankEntryAt(u, i, j)
    {
      if 0 <= i < |s| - 1 && s[i] == ',' {
        assert !IsBlank(s[i + 1]);
      }
      if 0 <= i < |t| - 1 && t[i] == ',' {
        assert !IsBlank(t[i + 1]);
      }
      if 0 <= i < |u| - 2 && u[i] == ',' && i + 1 < j <= |u| {
        assert i == 3 && !IsBlank(u[5]);
      }
    }
  }

  /** A blank first entry, or a list of blanks only, has no comma before the
      blanks and is not flagged. */
  lemma LeadingBlanksNotFlagged()
    ensures !ChkIsWhitespace("  ,Bob")
    ensures !ChkIsWhitespace("   ")
  {
  }
}

/** The records the tournament controller owns: players, games and matches,
    and the lookup of an entity by its id. */
module Entities {
  import opened Sequences

  datatype Option<+T> = None | Some(value: T)

  /** A registered player. Ids are 1-based and follow registration order. */
  datatype Player = Player(id: int, name: string)

  /** A registered game. Ids are 1-based and follow registration order. */
  datatype Game = Game(id: int, name: string)

  /** The three match states; the source encodes them as 0, 1 and 2. */
  datatype MatchState = NotPlayedYet | MainPlayerWon | OpponentsWon

  /** One scheduled contest: a main player against a list of opponents on one game. */
  datatype Match = Match(
    id: int,
    player: Player,
    game: Game,
    opponents: seq<Player>,
    prizeScore: int,
    state: MatchState)

  /** The match after its outcome has been recorded. Only the state changes;
      a match that was already finalised is simply overwritten. */
  function Finalized(m: Match, mainPlayerWon: bool): (r: Match)
    ensures r.state != NotPlayedYet
    ensures r.state == MainPlayerWon <==> mainPlayerWon
    ensures r.id == m.id && r.player == m.player && r.game == m.game
    ensures r.opponents == m.opponents && r.prizeScore == m.prizeScore
  {
    m.(state := if mainPlayerWon then MainPlayerWon else OpponentsWon)
  }

  /** Finalising twice keeps only the second outcome: there is no guard
      against re-finalising. */
  lemma RefinalizeOverwrites(m: Match, first: bool, second: bool)
    ensures Finalized(Finalized(m, first), second) == Finalized(m, second)
  {
  }

  /** The position of the first element of `s` whose id is `id`, as the
      source's `next(generator, None)` lookups find it. */
  function FirstWithId<T>(s: seq<T>, idOf: T -> int, id: int): (r: Option<nat>)
    ensures r.None? ==> forall k | 0 <= k < |s| :: idOf(s[k]) != id
    ensures r.Some? ==> r.value < |s| && idOf(s[r.value]) == id
    ensures r.Some? ==> forall k | 0 <= k < r.value :: idOf(s[k]) != id
    decreases |s|
  {
    if |s| == 0 then None
    else if idOf(s[0]) == id then Some(0)
    else
      match FirstWithId(s[1..], idOf, id)
      case None => None
      case Some(k) => Some(k + 1)
  }

  /** Match ids increase strictly along the sequence. */
  ghost predicate IdsIncreasing(ms: seq<Match>) {
    forall i, j | 0 <= i < j < |ms| :: ms[i].id < ms[j].id
  }

  /** Filtering matches keeps them in creation order. */
  lemma {:induction false} FilterKeepsIdOrder(ms: seq<Match>, keep: Match -> bool)
    requires IdsIncreasing(ms)
    ensures IdsIncreasing(Filter(ms, keep))
    decreases |ms|
  {
    if |ms| > 0 {
      var init, last := ms[..|ms| - 1], ms[|ms| - 1];
      FilterKeepsIdOrder(init, keep);
      var r := Filter(init, keep);
      assert Filter(ms, keep) == if keep(last) then r + [last] else r;
      if keep(last) {
        forall k | 0 <= k < |init|
          ensures init[k].id < last.id
        {
          assert ms[k] == init[k];
        }
        FilterBelowBound(init, keep, last.id);
        var r' := r + [last];
        forall i, j | 0 <= i < j < |r'|
          ensures r'[i].id < r'[j].id
        {
          if j == |r| {
            assert r[i] in r;
          }
        }
      }
    }
  }

  /** Filtering keeps every id below a bound that all the ids were below. */
  lemma FilterBelowBound(ms: seq<Match>, keep: Match -> bool, bound: int)
    requires forall k | 0 <= k < |ms| :: ms[k].id < bound
    ensures forall m | m in Filter(ms, keep) :: m.id < bound
  {
    forall m | m in Filter(ms, keep)
      ensures m.id < bound
    {
      assert m in ms;
    }
  }

  /** Two sequences with the same members, both in strictly increasing id
      order, start with the same element. */
  lemma SameHead(a: seq<Match>, b: seq<Match>)
    requires IdsIncreasing(a) && IdsIncreasing(b)
    requires |a| > 0 && |b| > 0
    requires a[0] in b && b[0] in a
    ensures a[0] == b[0]
  {
    var i :| 0 <= i < |a| && a[i] == b[0];
    var j :| 0 <= j < |b| && b[j] == a[0];
    assert i > 0 ==> a[0].id < a[i].id;
    assert j > 0 ==> b[0].id < b[j].id;
  }

  /** Two sequences with the same members, both in strictly increasing id
      order, are equal: membership and creation order determine a query result. */
  lemma {:induction false} OrderedByIdIsUnique(a: seq<Match>, b: seq<Match>)
    requires IdsIncreasing(a) && IdsIncreasing(b)
    requires forall m :: m in a <==> m in b
    ensures a == b
    decreases |a|
  {
    assert |b| > 0 ==> b[0] in b;
    if |a| > 0 {
      assert a[0] in b;
      SameHead(a, b);
      var a', b' := a[1..], b[1..];
      forall m | m in a'
        ensures m in b'
      {
        var k :| 0 <= k < |a'| && a'[k] == m;
        assert a[0].id < a[k + 1].id;
        assert m in b;
        var k2 :| 0 <= k2 < |b| && b[k2] == m;
        assert b'[k2 - 1] == m;
      }
      forall m | m in b'
        ensures m in a'
      {
        var k :| 0 <= k < |b'| && b'[k] == m;
        assert b[0].id < b[k + 1].id;
        assert m in a;
        var k2 :| 0 <= k2 < |a| && a[k2] == m;
        assert a'[k2 - 1] == m;
      }
      OrderedByIdIsUnique(a', b');
      assert a == [a[0]] + a';
      assert b == [b[0]] + b';
    }
  }
}

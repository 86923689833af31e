/** Day 2 answers: which games the bag of 12 red, 13 green and 14 blue
    cubes allows, and the sum over games of the product of the fewest cubes
    of each colour that would allow each game. Products and sums are `u32`
    with overflow checking, so a result too large is an `Overflow` error. */
module CubeStats {
  import opened Wrappers
  import opened Text
  import opened Cubes
  import Checked

  /** The bag the puzzle asks about. */
  const Bag := Round(12, 13, 14)

  /** A round that draws no more cubes of any colour than `bag` holds. */
  predicate Fits(r: Round, bag: Round) {
    forall c :: r.Count(c) <= bag.Count(c)
  }

  /** `Round::is_possible`: the round could be drawn from the 12/13/14 bag. */
  function RoundPossible(r: Round): (b: bool)
    ensures b <==> Fits(r, Bag)
  {
    assert Bag.Count(Red) == 12 && Bag.Count(Green) == 13 && Bag.Count(Blue) == 14;
    r.red <= 12 && r.green <= 13 && r.blue <= 14
  }

  /** `Game::is_possible`: the rounds in order, returning `false` at the
      first one that could not be drawn. */
  function AllRoundsPossible(rounds: seq<Round>): (b: bool)
    ensures b <==> forall k :: 0 <= k < |rounds| ==> Fits(rounds[k], Bag)
  {
    if |rounds| == 0 then true
    else if !RoundPossible(rounds[0]) then false
    else AllRoundsPossible(rounds[1..])
  }

  function IsPossible(g: Game): (b: bool)
    ensures b <==> forall k :: 0 <= k < |g.rounds| ==> Fits(g.rounds[k], Bag)
  {
    AllRoundsPossible(g.rounds)
  }

  /** `max_of_rounds`, as its loop runs: starting from no cubes, each
      colour's running maximum rises to any larger count. Every colour's
      result is at least that colour's count in every round, and is either 0
      or some round's count. */
  function MaxOfRounds(rounds: seq<Round>): (m: Round)
    ensures forall k :: 0 <= k < |rounds| ==> Fits(rounds[k], m)
    ensures forall c :: m.Count(c) == 0 || exists k :: 0 <= k < |rounds| && rounds[k].Count(c) == m.Count(c)
    decreases |rounds|
  {
    if |rounds| == 0 then NoCubes
    else
      var n := |rounds| - 1;
      var acc := MaxOfRounds(rounds[..n]);
      var r := rounds[n];
      assert forall k :: 0 <= k < n ==> rounds[..n][k] == rounds[k];
      Round(if r.red > acc.red then r.red else acc.red,
            if r.green > acc.green then r.green else acc.green,
            if r.blue > acc.blue then r.blue else acc.blue)
  }

  /** The maximum is the least bag every round fits: the rounds all fit a
      bag exactly when the maximum does. */
  lemma MaxIsLeastBag(rounds: seq<Round>, bag: Round)
    ensures (forall k :: 0 <= k < |rounds| ==> Fits(rounds[k], bag)) <==> Fits(MaxOfRounds(rounds), bag)
  {
    var m := MaxOfRounds(rounds);
    if forall k :: 0 <= k < |rounds| ==> Fits(rounds[k], bag) {
      forall c
        ensures m.Count(c) <= bag.Count(c)
      {
        if m.Count(c) != 0 {
          var k :| 0 <= k < |rounds| && rounds[k].Count(c) == m.Count(c);
          assert Fits(rounds[k], bag);
        }
      }
    }
  }

  /** A game is possible exactly when its maximum round fits the bag. */
  lemma PossibleIffMaxFits(g: Game)
    ensures IsPossible(g) <==> Fits(MaxOfRounds(g.rounds), Bag)
  {
    MaxIsLeastBag(g.rounds, Bag);
  }

  /** The panic of an overflowing `u32` operation in a checked build. */
  datatype Panic = Overflow

  /** The product of a round's three counts. */
  function Product(r: Round): nat {
    r.red * r.green * r.blue
  }

  /** `power_of_max`: `blue * red` and then `* green` in `u32`, each step
      checked. The first step never overflows, since two `u16` counts
      multiply to at most 65535 * 65535 < 2^32, so the power is an error
      exactly when the full product passes the `u32` range. */
  function PowerOfMax(g: Game): (r: Result<nat, Panic>)
    ensures r.Ok? <==> Product(MaxOfRounds(g.rounds)) <= U32Max
    ensures r.Ok? ==> r.value == Product(MaxOfRounds(g.rounds))
  {
    var m := MaxOfRounds(g.rounds);
    U16Product(m.blue, m.red);
    var power := m.blue * m.red * m.green;
    assert power == Product(m);
    if power > U32Max then Err(Overflow) else Ok(power)
  }

  /** Two `u16` values multiply within the `u32` range. */
  lemma U16Product(a: U16, b: U16)
    ensures a * b <= U32Max
  {
    assert a * b <= 0xFFFF * b;
    assert 0xFFFF * b <= 0xFFFF * 0xFFFF;
  }

  /** The power is the product of the smallest bag the game fits: no bag
      that allows the game has a smaller product. */
  lemma PowerIsLeastBagProduct(g: Game, bag: Round)
    requires IsAllowedBy(g, bag)
    requires PowerOfMax(g).Ok?
    ensures PowerOfMax(g).value <= Product(bag)
  {
    var m := MaxOfRounds(g.rounds);
    MaxIsLeastBag(g.rounds, bag);
    assert m.Count(Red) <= bag.Count(Red) && m.Count(Green) <= bag.Count(Green) && m.Count(Blue) <= bag.Count(Blue);
    ProductMonotone(m, bag);
  }

  lemma ProductMonotone(a: Round, b: Round)
    requires a.red <= b.red && a.green <= b.green && a.blue <= b.blue
    ensures Product(a) <= Product(b)
  {
    MulMonotone(a.red, a.green, b.red, b.green);
    MulMonotone(a.red * a.green, a.blue, b.red * b.green, b.blue);
  }

  lemma MulMonotone(x: nat, y: nat, x': nat, y': nat)
    requires x <= x' && y <= y'
    ensures x * y <= x' * y'
  {
    assert x * y <= x' * y;
  }

  /** Every round of the game fits `bag`. */
  predicate IsAllowedBy(g: Game, bag: Round) {
    forall k :: 0 <= k < |g.rounds| ==> Fits(g.rounds[k], bag)
  }

  /** `find_possible_game_ids`: the ids of the possible games, in input
      order, once per possible game. */
  function FindPossibleGameIds(games: seq<Game>): (ids: seq<nat>)
    ensures |ids| <= |games|
    ensures forall j :: 0 <= j < |ids| ==> exists k :: 0 <= k < |games| && IsPossible(games[k]) && games[k].id == ids[j]
    ensures forall k :: 0 <= k < |games| && IsPossible(games[k]) ==> games[k].id in ids
    decreases |games|
  {
    if |games| == 0 then []
    else
      var rest := FindPossibleGameIds(games[1..]);
      assert forall k :: 1 <= k < |games| ==> games[1..][k - 1] == games[k];
      if IsPossible(games[0]) then [games[0].id] + rest else rest
  }

  /** The ids of two runs of games are the ids of each, one after the other. */
  lemma {:induction false} FindPossibleGameIdsAppend(a: seq<Game>, b: seq<Game>)
    ensures FindPossibleGameIds(a + b) == FindPossibleGameIds(a) + FindPossibleGameIds(b)
    decreases |a|
  {
    if |a| == 0 {
      assert a + b == b;
    } else {
      var head: seq<nat> := if IsPossible(a[0]) then [a[0].id] else [];
      assert FindPossibleGameIds(a + b) == head + FindPossibleGameIds(a[1..] + b) by {
        IdsCons(a + b);
        assert (a + b)[0] == a[0] && (a + b)[1..] == a[1..] + b;
      }
      assert FindPossibleGameIds(a) == head + FindPossibleGameIds(a[1..]) by {
        IdsCons(a);
      }
      FindPossibleGameIdsAppend(a[1..], b);
      ConcatAssoc(head, FindPossibleGameIds(a[1..]), FindPossibleGameIds(b));
    }
  }

  /** The ids of a non-empty run: the first game's id if it is possible,
      then the ids of the rest. */
  lemma IdsCons(games: seq<Game>)
    requires |games| > 0
    ensures FindPossibleGameIds(games) == (if IsPossible(games[0]) then [games[0].id] else []) + FindPossibleGameIds(games[1..])
  {
  }

  /** Each game's power, in order. */
  function Powers(games: seq<Game>): (r: seq<Result<nat, Panic>>)
    ensures |r| == |games| && forall k :: 0 <= k < |games| ==> r[k] == PowerOfMax(games[k])
  {
    seq(|games|, k requires 0 <= k < |games| => PowerOfMax(games[k]))
  }

  /** `get_total_power`: the `u32` sum of every game's power. It succeeds
      exactly when no power overflows and the unbounded total of the powers
      fits a `u32`, and then it is that total. */
  function TotalPower(games: seq<Game>): (r: Result<nat, Panic>)
    ensures r.Ok? <==> Checked.AllOk(Powers(games)) && Checked.PlainSum(Powers(games)) <= U32Max
    ensures r.Ok? ==> r.value == Checked.PlainSum(Powers(games))
  {
    Checked.CheckedSumIsPlainSum(Powers(games), U32Max, Overflow, 0);
    Checked.CheckedSum(Powers(games), U32Max, Overflow, 0)
  }
}

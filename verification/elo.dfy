/** The pairwise rating update that `record_click` applies to a winner and a
    loser: the logistic expected score and the K = 32 adjustment. Ratings are
    exact reals here; the floating-point rounding of app.py is not
    modelled. */
module Elo {

  /** The sensitivity constant `k` of the update. */
  const K: real := 32.0

  /** The logistic scale: a rating gap of 400 means tenfold odds. */
  const Scale: real := 400.0

  /** What every use of `10 ** x` relies on: it is positive and equals 1 at 0. */
  ghost predicate PowerOfTenLike(f: real -> real)
  {
    f(0.0) == 1.0 && forall x :: f(x) > 0.0
  }

  /** Any function with those two properties of `10 ** x`. */
  type Pow10 = f: real -> real | PowerOfTenLike(f) ghost witness (x: real) => 1.0

  /** `10 ** x` is strictly increasing; only the lemmas that compare unequal
      ratings need it. */
  ghost predicate Increasing(f: real -> real)
  {
    forall x, y :: x < y ==> f(x) < f(y)
  }

  /** `10 ** -x` is the reciprocal of `10 ** x`. */
  ghost predicate Reciprocal(f: real -> real)
  {
    forall x, y :: x + y == 0.0 ==> f(x) * f(y) == 1.0
  }

  /** The expected score of a player rated `rating` against one rated
      `opponent`: `1 / (1 + 10 ** ((opponent - rating) / 400))`. */
  function Expected(rating: real, opponent: real, pow10: Pow10): (e: real)
    ensures 0.0 < e < 1.0
    ensures rating == opponent ==> e == 0.5
  {
    1.0 / (1.0 + pow10((opponent - rating) / Scale))
  }

  /** The two new ratings after the player rated `winnerElo` beats the one
      rated `loserElo`; the loser's expected score is one minus the winner's.
      The winner gains and the loser loses the same amount, strictly between
      0 and K; from equal ratings that amount is K / 2. */
  function Rated(winnerElo: real, loserElo: real, pow10: Pow10): (r: (real, real))
    ensures winnerElo < r.0 < winnerElo + K
    ensures loserElo - K < r.1 < loserElo
    ensures r.0 - winnerElo == loserElo - r.1
    ensures winnerElo == loserElo ==> r == (winnerElo + K / 2.0, loserElo - K / 2.0)
  {
    var expectedWinner := Expected(winnerElo, loserElo, pow10);
    var expectedLoser := 1.0 - expectedWinner;
    (winnerElo + K * (1.0 - expectedWinner), loserElo + K * (0.0 - expectedLoser))
  }

  /** The higher-rated side is expected to win: its expected score is above
      one half exactly when its rating is above its opponent's. */
  lemma FavouriteExpected(rating: real, opponent: real, pow10: Pow10)
    requires Increasing(pow10)
    ensures rating > opponent <==> Expected(rating, opponent, pow10) > 0.5
  {
    var d := (opponent - rating) / Scale;
    if rating > opponent {
      assert d < 0.0;
      assert pow10(d) < pow10(0.0);
    } else if rating < opponent {
      assert 0.0 < d;
      assert pow10(0.0) < pow10(d);
    }
  }

  /** A favourite that wins gains less than K / 2, an underdog that wins
      gains more, and equal ratings move by exactly K / 2. */
  lemma UpsetGainsMore(winnerElo: real, loserElo: real, pow10: Pow10)
    requires Increasing(pow10)
    ensures winnerElo > loserElo <==> Rated(winnerElo, loserElo, pow10).0 - winnerElo < K / 2.0
    ensures winnerElo < loserElo <==> Rated(winnerElo, loserElo, pow10).0 - winnerElo > K / 2.0
  {
    FavouriteExpected(winnerElo, loserElo, pow10);
    FavouriteExpected(loserElo, winnerElo, pow10);
    if winnerElo < loserElo {
      ExpectedBelowHalf(winnerElo, loserElo, pow10);
    }
  }

  /** The underdog's expected score is below one half. */
  lemma ExpectedBelowHalf(rating: real, opponent: real, pow10: Pow10)
    requires Increasing(pow10)
    requires rating < opponent
    ensures Expected(rating, opponent, pow10) < 0.5
  {
    var d := (opponent - rating) / Scale;
    assert 0.0 < d;
    assert pow10(0.0) < pow10(d);
  }

  /** The loser's expected score as the update computes it, one minus the
      winner's, is the same logistic formula seen from the loser's side. */
  lemma ExpectedComplement(a: real, b: real, pow10: Pow10)
    requires Reciprocal(pow10)
    ensures Expected(a, b, pow10) + Expected(b, a, pow10) == 1.0
  {
    var p := pow10((b - a) / Scale);
    var q := pow10((a - b) / Scale);
    assert (b - a) / Scale + (a - b) / Scale == 0.0;
    assert p * q == 1.0;
    assert 1.0 / (1.0 + q) == p / (p + 1.0) by {
      assert (1.0 + q) * p == p + 1.0;
    }
  }

  /** What a player gains by beating an opponent plus what the opponent would
      gain by beating that player is exactly K. */
  lemma RatedSymmetric(a: real, b: real, pow10: Pow10)
    requires Reciprocal(pow10)
    ensures (Rated(a, b, pow10).0 - a) + (Rated(b, a, pow10).0 - b) == K
  {
    ExpectedComplement(a, b, pow10);
  }
}

/**
 * The Bulls & Cows game state machine (useGameLogic.ts): a secret of three
 * distinct digits 1-9, a guess being typed, the scored guesses made so far,
 * the attempts left out of nine and the game status.
 *
 * The state transitions return new state values, as the React hook does;
 * the scoring loop and the random secret generation are methods.
 */
module BullsCows {

  const MaxAttempts: int := 9

  datatype Status = Playing | Won | Lost

  datatype Guess = Guess(digits: seq<int>, bulls: int, cows: int)

  datatype GameState = GameState(
    targetNumber: seq<int>,
    guesses: seq<Guess>,
    currentGuess: seq<int>,
    gameStatus: Status,
    attemptsLeft: int)

  predicate Distinct(s: seq<int>) {
    forall i, j :: 0 <= i < j < |s| ==> s[i] != s[j]
  }

  /** A secret the game can hold: three distinct digits from 1 to 9. */
  predicate IsSecret(s: seq<int>) {
    |s| == 3 && Distinct(s) && forall i :: 0 <= i < 3 ==> 1 <= s[i] <= 9
  }

  // ---------------------------------------------------------------------
  // Scoring
  // ---------------------------------------------------------------------

  function Eq(a: int, b: int): nat { if a == b then 1 else 0 }

  /** Positions where the guess has the secret's digit. */
  function Bulls(t: seq<int>, g: seq<int>): nat
    requires |t| == 3 && |g| == 3
  {
    Eq(t[0], g[0]) + Eq(t[1], g[1]) + Eq(t[2], g[2])
  }

  /** Pairs of different positions i, j with the secret's digit i equal to
      the guess's digit j. */
  function Cows(t: seq<int>, g: seq<int>): nat
    requires |t| == 3 && |g| == 3
  {
    Eq(t[0], g[1]) + Eq(t[0], g[2]) + Eq(t[1], g[0]) + Eq(t[1], g[2]) + Eq(t[2], g[0]) + Eq(t[2], g[1])
  }

  /** The `p`-th (i, j) comparison of the nested loops compares position
      Row(p) of the secret with position Col(p) of the guess. */
  function Row(p: nat): (i: nat)
    requires p < 9
    ensures i < 3
  {
    if p < 3 then 0 else if p < 6 then 1 else 2
  }

  function Col(p: nat): (j: nat)
    requires p < 9
    ensures j < 3 && p == 3 * Row(p) + j
  {
    p - 3 * Row(p)
  }

  /** The bull and the cow that comparison contributes. */
  function PairBull(t: seq<int>, g: seq<int>, p: nat): nat
    requires |t| == 3 && |g| == 3 && p < 9
  {
    if Row(p) == Col(p) then Eq(t[Row(p)], g[Col(p)]) else 0
  }

  function PairCow(t: seq<int>, g: seq<int>, p: nat): nat
    requires |t| == 3 && |g| == 3 && p < 9
  {
    if Row(p) != Col(p) then Eq(t[Row(p)], g[Col(p)]) else 0
  }

  /** The bulls and the cows counted by the first `n` comparisons. */
  function BullsUpTo(t: seq<int>, g: seq<int>, n: nat): nat
    requires |t| == 3 && |g| == 3 && n <= 9
  {
    if n == 0 then 0 else BullsUpTo(t, g, n - 1) + PairBull(t, g, n - 1)
  }

  function CowsUpTo(t: seq<int>, g: seq<int>, n: nat): nat
    requires |t| == 3 && |g| == 3 && n <= 9
  {
    if n == 0 then 0 else CowsUpTo(t, g, n - 1) + PairCow(t, g, n - 1)
  }

  /** All nine comparisons count the bulls and the cows. */
  lemma AllPairsScore(t: seq<int>, g: seq<int>)
    requires |t| == 3 && |g| == 3
    ensures BullsUpTo(t, g, 9) == Bulls(t, g) && CowsUpTo(t, g, 9) == Cows(t, g)
  {
    assert BullsUpTo(t, g, 1) == Eq(t[0], g[0]);
    assert CowsUpTo(t, g, 1) == 0;
    assert BullsUpTo(t, g, 2) == Eq(t[0], g[0]);
    assert CowsUpTo(t, g, 2) == Eq(t[0], g[1]);
    assert BullsUpTo(t, g, 3) == Eq(t[0], g[0]);
    assert CowsUpTo(t, g, 3) == Eq(t[0], g[1]) + Eq(t[0], g[2]);
    assert BullsUpTo(t, g, 4) == Eq(t[0], g[0]);
    assert CowsUpTo(t, g, 4) == Eq(t[0], g[1]) + Eq(t[0], g[2]) + Eq(t[1], g[0]);
    assert BullsUpTo(t, g, 5) == Eq(t[0], g[0]) + Eq(t[1], g[1]);
    assert CowsUpTo(t, g, 5) == Eq(t[0], g[1]) + Eq(t[0], g[2]) + Eq(t[1], g[0]);
    assert BullsUpTo(t, g, 6) == Eq(t[0], g[0]) + Eq(t[1], g[1]);
    assert CowsUpTo(t, g, 6) == Eq(t[0], g[1]) + Eq(t[0], g[2]) + Eq(t[1], g[0]) + Eq(t[1], g[2]);
    assert BullsUpTo(t, g, 7) == Eq(t[0], g[0]) + Eq(t[1], g[1]);
    assert CowsUpTo(t, g, 7) == Eq(t[0], g[1]) + Eq(t[0], g[2]) + Eq(t[1], g[0]) + Eq(t[1], g[2]) + Eq(t[2], g[0]);
    assert BullsUpTo(t, g, 8) == Eq(t[0], g[0]) + Eq(t[1], g[1]);
    assert CowsUpTo(t, g, 8) == Eq(t[0], g[1]) + Eq(t[0], g[2]) + Eq(t[1], g[0]) + Eq(t[1], g[2]) + Eq(t[2], g[0]) + Eq(t[2], g[1]);
  }

  /** calculateBullsAndCows: every (i, j) pair of positions is compared; an
      equal pair is a bull on the diagonal and a cow elsewhere. */
  method CalculateBullsAndCows(target: seq<int>, guess: seq<int>) returns (bulls: int, cows: int)
    requires |target| == 3 && |guess| == 3
    ensures bulls == Bulls(target, guess) && cows == Cows(target, guess)
  {
    bulls := 0;
    cows := 0;
    for i := 0 to 3
      invariant bulls == BullsUpTo(target, guess, 3 * i) && cows == CowsUpTo(target, guess, 3 * i)
    {
      for j := 0 to 3
        invariant bulls == BullsUpTo(target, guess, 3 * i + j) && cows == CowsUpTo(target, guess, 3 * i + j)
      {
        if target[i] == guess[j] {
          if i == j {
            bulls := bulls + 1;
          } else {
            cows := cows + 1;
          }
        }
      }
    }
    AllPairsScore(target, guess);
  }

  /** How many of the secret's digits occur somewhere in the guess. */
  function SharedDigits(t: seq<int>, g: seq<int>): nat
    requires |t| == 3 && |g| == 3
  {
    (if t[0] in g then 1 else 0) + (if t[1] in g then 1 else 0) + (if t[2] in g then 1 else 0)
  }

  /** With a guess of distinct digits, bulls plus cows is the number of
      secret digits the guess contains, so it is at most 3. */
  lemma ScoreCountsSharedDigits(t: seq<int>, g: seq<int>)
    requires |t| == 3 && |g| == 3 && Distinct(g)
    ensures Bulls(t, g) + Cows(t, g) == SharedDigits(t, g)
    ensures Bulls(t, g) + Cows(t, g) <= 3
  {
    forall k | 0 <= k < 3
      ensures Eq(t[k], g[0]) + Eq(t[k], g[1]) + Eq(t[k], g[2]) == (if t[k] in g then 1 else 0)
    {
      assert g == [g[0], g[1], g[2]];
    }
  }

  /** Three bulls exactly when the guess is the secret. */
  lemma ThreeBullsIffEqual(t: seq<int>, g: seq<int>)
    requires |t| == 3 && |g| == 3
    ensures Bulls(t, g) == 3 <==> t == g
  {
    if Bulls(t, g) == 3 {
      assert t == [t[0], t[1], t[2]] && g == [g[0], g[1], g[2]];
    }
  }

  /** A correct guess of distinct digits scores no cows. */
  lemma CorrectGuessHasNoCows(t: seq<int>)
    requires |t| == 3 && Distinct(t)
    ensures Bulls(t, t) == 3 && Cows(t, t) == 0
  {
    assert t[0] != t[1] && t[0] != t[2] && t[1] != t[2];
  }

  // ---------------------------------------------------------------------
  // Secret generation
  // ---------------------------------------------------------------------

  /** A digit 1-3 that a sequence of fewer than three digits misses. */
  function MissingDigit(digits: seq<int>): (d: int)
    requires |digits| < 3
    ensures 1 <= d <= 3 && d !in digits
  {
    if 1 !in digits then 1
    else if 2 !in digits then 2
    else
      assert digits == [digits[0], digits[1]];
      3
  }

  /** generateUniqueDigits: draw digits 1-9 until three distinct ones are
      collected. The draw is a nondeterministic choice; a draw that repeats
      a collected digit changes nothing, so only the draws that are kept are
      modelled. */
  method GenerateUniqueDigits() returns (digits: seq<int>)
    ensures IsSecret(digits)
  {
    digits := [];
    while |digits| < 3
      invariant |digits| <= 3 && Distinct(digits)
      invariant forall i :: 0 <= i < |digits| ==> 1 <= digits[i] <= 9
      decreases 3 - |digits|
    {
      assert MissingDigit(digits) !in digits;
      var digit :| 1 <= digit <= 9 && digit !in digits;
      digits := digits + [digit];
    }
  }

  // ---------------------------------------------------------------------
  // Transitions
  // ---------------------------------------------------------------------

  /** The state of a new game (and of resetGame) for a freshly generated
      secret. */
  function NewGame(target: seq<int>): (s: GameState)
    ensures s.targetNumber == target && s.guesses == [] && s.currentGuess == []
    ensures s.gameStatus == Playing && s.attemptsLeft == MaxAttempts
  {
    GameState(target, [], [], Playing, MaxAttempts)
  }

  /** addDigit: append the digit unless the guess is full, the game is over
      or the digit is already in the guess. */
  function AddDigit(s: GameState, digit: int): (r: GameState)
    ensures |s.currentGuess| >= 3 || s.gameStatus != Playing || digit in s.currentGuess ==> r == s
    ensures |s.currentGuess| < 3 && s.gameStatus == Playing && digit !in s.currentGuess ==>
      r == s.(currentGuess := s.currentGuess + [digit])
  {
    if |s.currentGuess| >= 3 || s.gameStatus != Playing then s
    else if digit in s.currentGuess then s
    else s.(currentGuess := s.currentGuess + [digit])
  }

  /** removeDigit: drop the last digit unless the guess is empty or the game
      is over. */
  function RemoveDigit(s: GameState): (r: GameState)
    ensures |s.currentGuess| == 0 || s.gameStatus != Playing ==> r == s
    ensures |s.currentGuess| > 0 && s.gameStatus == Playing ==>
      r == s.(currentGuess := s.currentGuess[..|s.currentGuess| - 1])
  {
    if |s.currentGuess| == 0 || s.gameStatus != Playing then s
    else s.(currentGuess := s.currentGuess[..|s.currentGuess| - 1])
  }

  /** submitGuess: with a full guess while playing, score it against the
      secret, record it, clear the guess and use up one attempt; three bulls
      win (even on the last attempt), otherwise running out of attempts
      loses. Anything else leaves the state as it is. */
  function SubmitGuess(s: GameState): (r: GameState)
    requires |s.targetNumber| == 3
    ensures |s.currentGuess| != 3 || s.gameStatus != Playing ==> r == s
    ensures |s.currentGuess| == 3 && s.gameStatus == Playing ==>
      && r.targetNumber == s.targetNumber
      && r.guesses == s.guesses + [Guess(s.currentGuess, Bulls(s.targetNumber, s.currentGuess), Cows(s.targetNumber, s.currentGuess))]
      && r.currentGuess == []
      && r.attemptsLeft == s.attemptsLeft - 1
      && (r.gameStatus == Won <==> s.currentGuess == s.targetNumber)
      && (r.gameStatus == Lost <==> s.currentGuess != s.targetNumber && s.attemptsLeft == 1)
  {
    if |s.currentGuess| != 3 || s.gameStatus != Playing then s
    else
      var bulls := Bulls(s.targetNumber, s.currentGuess);
      var cows := Cows(s.targetNumber, s.currentGuess);
      var newGuess := Guess(s.currentGuess, bulls, cows);
      var newAttemptsLeft := s.attemptsLeft - 1;
      var newStatus := if bulls == 3 then Won else if newAttemptsLeft == 0 then Lost else Playing;
      ThreeBullsIffEqual(s.targetNumber, s.currentGuess);
      s.(guesses := s.guesses + [newGuess], currentGuess := [], gameStatus := newStatus, attemptsLeft := newAttemptsLeft)
  }

  // ---------------------------------------------------------------------
  // The game invariant
  // ---------------------------------------------------------------------

  /** A recorded guess: three distinct digits scored against the secret. */
  predicate ScoredAgainst(g: Guess, target: seq<int>)
    requires |target| == 3
  {
    |g.digits| == 3 && Distinct(g.digits) &&
    g.bulls == Bulls(target, g.digits) && g.cows == Cows(target, g.digits)
  }

  /** The states the game can reach: guesses made plus attempts left is
      nine; the typed guess is short and duplicate-free; every guess is
      scored against the secret; the game is playing while attempts remain
      and nobody has won, won exactly when the last guess had three bulls,
      and lost only when the attempts ran out without a win. */
  predicate Valid(s: GameState) {
    && IsSecret(s.targetNumber)
    && |s.guesses| + s.attemptsLeft == MaxAttempts
    && s.attemptsLeft >= 0
    && |s.currentGuess| <= 3 && Distinct(s.currentGuess)
    && (forall k :: 0 <= k < |s.guesses| ==> ScoredAgainst(s.guesses[k], s.targetNumber))
    && (forall k :: 0 <= k < |s.guesses| - 1 ==> s.guesses[k].bulls < 3)
    && (s.gameStatus == Playing ==> s.attemptsLeft > 0 && forall k :: 0 <= k < |s.guesses| ==> s.guesses[k].bulls < 3)
    && (s.gameStatus == Won ==> |s.guesses| > 0 && s.guesses[|s.guesses| - 1].bulls == 3)
    && (s.gameStatus == Lost ==> s.attemptsLeft == 0 && forall k :: 0 <= k < |s.guesses| ==> s.guesses[k].bulls < 3)
  }

  lemma NewGameValid(target: seq<int>)
    requires IsSecret(target)
    ensures Valid(NewGame(target))
  {
  }

  lemma {:induction false} AddDigitPreservesValid(s: GameState, digit: int)
    requires Valid(s)
    ensures Valid(AddDigit(s, digit))
  {
    var r := AddDigit(s, digit);
    if r != s {
      assert r.currentGuess == s.currentGuess + [digit];
      assert forall i :: 0 <= i < |s.currentGuess| ==> r.currentGuess[i] == s.currentGuess[i];
    }
  }

  lemma RemoveDigitPreservesValid(s: GameState)
    requires Valid(s)
    ensures Valid(RemoveDigit(s))
  {
  }

  lemma SubmitGuessPreservesValid(s: GameState)
    requires Valid(s)
    ensures Valid(SubmitGuess(s))
  {
    var r := SubmitGuess(s);
    if |s.currentGuess| == 3 && s.gameStatus == Playing {
      var g := r.guesses[|r.guesses| - 1];
      assert forall k :: 0 <= k < |s.guesses| ==> r.guesses[k] == s.guesses[k];
      assert g.bulls == 3 <==> r.gameStatus == Won by {
        ThreeBullsIffEqual(s.targetNumber, s.currentGuess);
      }
    }
  }

  /** Once the game is won or lost, typing, deleting and submitting change
      nothing. */
  lemma FinishedGameIsFrozen(s: GameState, digit: int)
    requires |s.targetNumber| == 3 && s.gameStatus != Playing
    ensures AddDigit(s, digit) == s && RemoveDigit(s) == s && SubmitGuess(s) == s
  {
  }

  /** In a reachable state the attempts used, as the game-over dialog shows
      them (nine minus the attempts left), are the guesses made, and a
      finished game has at least one guess. */
  lemma AttemptsUsedAreGuesses(s: GameState)
    requires Valid(s)
    ensures MaxAttempts - s.attemptsLeft == |s.guesses|
    ensures s.gameStatus != Playing ==> |s.guesses| > 0
  {
  }

  /** At most nine guesses are ever recorded, and a tenth submission is
      impossible: a game with no attempts left is over. */
  lemma NoAttemptsMeansOver(s: GameState)
    requires Valid(s) && s.attemptsLeft == 0
    ensures s.gameStatus != Playing && |s.guesses| == MaxAttempts
  {
  }
}

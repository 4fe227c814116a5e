/** The plain-DOM variant (script.js). The page itself is the state: the guesses grid,
    the four input boxes, the timer text, the overlay and the stored statistics. The
    session class keeps each of them as a field and each event handler as a method. */
module ScriptGame {
  import opened Common
  import opened SecretGen
  import opened Feedback
  import opened Clock
  import opened GuessInput

  /** One row of the guesses grid: the guess shown in four boxes and the feedback string
      that gave each box its class. */
  datatype Row = Row(guess: string, feedback: string)

  /** The object kept under `'gameStats'` in local storage. */
  datatype Stats = Stats(wins: nat, losses: nat, totalTime: nat, totalAttempts: nat, games: nat)

  /** What the result overlay shows once a game ends: win or loss, the time (the seconds
      whose timer text it shows), the attempts figure (`None` for the `'-'` shown in easy
      mode) and the accuracy. */
  datatype Outcome = Outcome(won: bool, seconds: nat, attempts: Option<int>, accuracy: int)

  /** The statistics `updateStats` starts from when nothing is stored. */
  const NoStats := Stats(0, 0, 0, 0, 0)

  /** Every finished game counted once, as a win or as a loss. */
  predicate StatsConsistent(s: Stats) {
    s.wins + s.losses == s.games
  }

  /** `setDifficulty`'s chain of tests: easy is unlimited, medium allows 5 guesses, hard
      3, and any other level keeps the current limit. */
  function MaxAttemptsFor(difficulty: string, current: Bound): (r: Bound)
    ensures difficulty == "easy" ==> r == Infinite
    ensures difficulty == "medium" ==> r == Finite(5)
    ensures difficulty == "hard" ==> r == Finite(3)
    ensures difficulty != "easy" && difficulty != "medium" && difficulty != "hard" ==> r == current
    ensures (current.Finite? ==> current.n >= 1) ==> (r.Finite? ==> r.n >= 1)
  {
    if difficulty == "easy" then Infinite
    else if difficulty == "medium" then Finite(5)
    else if difficulty == "hard" then Finite(3)
    else current
  }

  /** A row every box of which got the class `'correct'`: the four boxes look at the
      first four feedback characters, and a missing character marks its box incorrect. */
  predicate Perfect(row: Row) {
    forall i :: 0 <= i < 4 ==> i < |row.feedback| && row.feedback[i] == '+'
  }

  /** For a four-character feedback, a perfect row is exactly one whose feedback is
      `'++++'`, the test `handleGuessSubmit` uses for a win. */
  lemma PerfectIffAllPlus(row: Row)
    requires |row.feedback| == 4
    ensures Perfect(row) <==> row.feedback == "++++"
  {
    if Perfect(row) {
      assert row.feedback == [row.feedback[0], row.feedback[1], row.feedback[2], row.feedback[3]];
    }
  }

  /** The number of perfect rows in the grid. */
  function CountPerfect(rows: seq<Row>): (n: nat)
    ensures n <= |rows|
    ensures n == 0 <==> forall i :: 0 <= i < |rows| ==> !Perfect(rows[i])
    ensures n == |rows| <==> forall i :: 0 <= i < |rows| ==> Perfect(rows[i])
  {
    if rows == [] then 0
    else
      var rest := CountPerfect(rows[1..]);
      assert forall i :: 1 <= i < |rows| ==> rows[i] == rows[1..][i - 1];
      (if Perfect(rows[0]) then 1 else 0) + rest
  }

  /** `calculateAccuracy`: the share of perfect rows in the grid as a rounded percentage,
      and 0 for an empty grid. */
  function CalculateAccuracy(rows: seq<Row>): (r: int)
    ensures 0 <= r <= 100
    ensures |rows| == 0 ==> r == 0
    ensures |rows| > 0 && (forall i :: 0 <= i < |rows| ==> Perfect(rows[i])) ==> r == 100
    ensures (forall i :: 0 <= i < |rows| ==> !Perfect(rows[i])) ==> r == 0
  {
    if |rows| == 0 then 0
    else
      PercentBounds(CountPerfect(rows), |rows|);
      RoundPercent(CountPerfect(rows), |rows|)
  }

  /** The accuracy is the integer nearest to the percentage of perfect rows. */
  lemma AccuracyNearest(rows: seq<Row>)
    requires |rows| > 0
    ensures NearestPercent(CalculateAccuracy(rows), CountPerfect(rows), |rows|)
  {
    assert CalculateAccuracy(rows) == RoundPercent(CountPerfect(rows), |rows|);
    RoundPercentNearest(CountPerfect(rows), |rows|);
  }

  /** A grid whose newest row is the only perfect one, as at a win, has exactly one
      perfect row, so its accuracy is 100 divided by the number of rows, rounded. */
  lemma {:induction false} WinAccuracy(rows: seq<Row>)
    requires |rows| > 0 && Perfect(rows[0])
    requires forall i :: 1 <= i < |rows| ==> !Perfect(rows[i])
    ensures CountPerfect(rows) == 1
    ensures CalculateAccuracy(rows) == RoundPercent(1, |rows|)
    ensures |rows| == 1 ==> CalculateAccuracy(rows) == 100
  {
    assert forall i :: 0 <= i < |rows| - 1 ==> rows[1..][i] == rows[i + 1];
    assert CountPerfect(rows[1..]) == 0;
  }

  /** The statistics `updateStats` stores after a game: the stored ones, or zeros when
      nothing is stored, with one more win or one more loss, one more game, the game's
      seconds and its attempts added. */
  function UpdatedStats(stored: Option<Stats>, win: bool, seconds: nat, attemptsUsed: nat): (s: Stats)
    ensures var base := if stored.Some? then stored.value else NoStats;
      && s.games == base.games + 1
      && (win ==> s.wins == base.wins + 1 && s.losses == base.losses)
      && (!win ==> s.losses == base.losses + 1 && s.wins == base.wins)
      && s.totalTime == base.totalTime + seconds
      && s.totalAttempts == base.totalAttempts + attemptsUsed
  {
    var stats := if stored.Some? then stored.value else NoStats;
    var counted := if win then stats.(wins := stats.wins + 1) else stats.(losses := stats.losses + 1);
    counted.(totalTime := counted.totalTime + seconds,
             totalAttempts := counted.totalAttempts + attemptsUsed,
             games := counted.games + 1)
  }

  /** The win rate `updateStats` writes: the rounded percentage of games won, 0% before
      any game. */
  function WinRatePercent(stats: Stats): (r: int)
    ensures stats.games == 0 ==> r == 0
    ensures stats.wins <= stats.games ==> 0 <= r <= 100
    ensures stats.games > 0 && stats.wins == stats.games ==> r == 100
  {
    if stats.games == 0 then 0
    else
      var r := RoundPercent(stats.wins, stats.games);
      assert stats.wins <= stats.games ==> 0 <= r <= 100 && (stats.wins == stats.games ==> r == 100) by {
        if stats.wins <= stats.games {
          PercentBounds(stats.wins, stats.games);
        }
      }
      r
  }

  /** Updating consistent statistics (or none) keeps them consistent, so the win rate
      shown afterwards is a percentage. */
  lemma UpdatedStatsConsistent(stored: Option<Stats>, win: bool, seconds: nat, attemptsUsed: nat)
    requires stored.Some? ==> StatsConsistent(stored.value)
    ensures StatsConsistent(UpdatedStats(stored, win, seconds, attemptsUsed))
    ensures 0 <= WinRatePercent(UpdatedStats(stored, win, seconds, attemptsUsed)) <= 100
  {
  }

  /** The attempts counter agrees with the limit and the rows in the grid: unlimited in
      both or in neither, and when limited the counter is the limit less one per row. */
  predicate BudgetMatches(maxAttempts: Bound, attempts: Bound, guesses: nat) {
    && (maxAttempts.Infinite? <==> attempts.Infinite?)
    && (maxAttempts.Finite? ==>
          maxAttempts.n >= 1 && guesses <= maxAttempts.n && attempts.n == maxAttempts.n - guesses)
  }

  /** Every row shows a guess of four different digits and the feedback on it against
      the secret. */
  predicate RowsAgainst(rows: seq<Row>, secret: string) {
    forall i :: 0 <= i < |rows| ==>
      IsSecret(rows[i].guess) && rows[i].feedback == Symbols(CompareGuess(rows[i].guess, secret))
  }

  /** Digit-only text in each of the four input boxes. */
  predicate BoxesWellFormed(inputs: seq<string>) {
    |inputs| == 4 && forall i :: 0 <= i < 4 ==> AllDigits(inputs[i])
  }

  /** Whether `handleGuessSubmit` takes the boxes' contents as a guess. */
  predicate Submits(active: bool, inputs: seq<string>) {
    active && AcceptsGuess(Join(inputs))
  }

  class Session {
    var secretNumber: string
    var maxAttempts: Bound
    /** The attempts counter: guesses left, or `'∞'`, written `Infinite`. */
    var attempts: Bound
    var currentDifficulty: string
    var gameActive: bool
    /** The values of the four input boxes. */
    var inputs: seq<string>
    /** The guesses grid, newest row first (`prepend`). */
    var rows: seq<Row>
    var overlayHidden: bool
    /** `Date.now()` at the last reset, in milliseconds. */
    var startTime: int
    /** The whole seconds the timer display shows; the display text is
        `ClockText(shownSeconds)`. */
    var shownSeconds: nat
    /** `'gameStats'` in local storage, `None` when absent. */
    var storedStats: Option<Stats>
    /** The win-rate text; `None` until `updateStats` first writes it. */
    var winRateText: Option<int>
    /** What the result overlay shows; `None` before the first game ends. */
    var result: Option<Outcome>

    /** What holds between handlers and also inside `handleGuessSubmit` right after a
        row has been added: only the newest row can be perfect. */
    ghost predicate Core()
      reads this`secretNumber, this`inputs, this`maxAttempts, this`attempts, this`rows
    {
      && IsSecret(secretNumber)
      && BoxesWellFormed(inputs)
      && BudgetMatches(maxAttempts, attempts, |rows|)
      && RowsAgainst(rows, secretNumber)
      && (forall i :: 1 <= i < |rows| ==> !Perfect(rows[i]))
    }

    /** Between handlers: the overlay is shown exactly when the game is over, and a game
        in progress has no perfect row and at least one guess left. */
    ghost predicate Valid()
      reads this`secretNumber, this`inputs, this`maxAttempts, this`attempts, this`rows
      reads this`gameActive, this`overlayHidden
    {
      && Core()
      && (gameActive <==> overlayHidden)
      && (gameActive ==> (forall i :: 0 <= i < |rows| ==> !Perfect(rows[i])))
      && (gameActive && maxAttempts.Finite? ==> attempts.n >= 1)
    }

    /** Page load: the first secret (overwritten at once), medium difficulty, then
        `initializeGame`, whose game part is `resetGame`. */
    constructor (firstDraws: seq<DigitDraw>, resetDraws: seq<DigitDraw>, stored: Option<Stats>, now: int)
      requires |Elements(firstDraws)| >= 4 && |Elements(resetDraws)| >= 4
      ensures Valid()
      ensures secretNumber <= Dedup(DrawChars(resetDraws))
      ensures maxAttempts == Finite(5) && attempts == Finite(5) && currentDifficulty == "medium"
      ensures gameActive && rows == [] && inputs == EmptySlots && shownSeconds == 0
      ensures startTime == now && storedStats == stored && winRateText == None && result == None
    {
      var first := GenerateSecretNumber(firstDraws);
      secretNumber := first;
      maxAttempts, attempts, currentDifficulty := Finite(5), Finite(5), "medium";
      gameActive, inputs, rows, overlayHidden := true, EmptySlots, [], true;
      startTime, shownSeconds := now, 0;
      storedStats, winRateText, result := stored, None, None;
      new;
      ResetGame(resetDraws, now);
    }

    /** `resetGame`: a new secret, a full attempts counter, an empty grid and empty
        boxes, the overlay hidden and the timer restarted from `now`. */
    method ResetGame(draws: seq<DigitDraw>, now: int)
      requires |Elements(draws)| >= 4
      requires maxAttempts.Finite? ==> maxAttempts.n >= 1
      modifies this`secretNumber, this`attempts, this`gameActive, this`rows, this`inputs
      modifies this`overlayHidden, this`shownSeconds, this`startTime
      ensures Valid()
      ensures IsSecret(secretNumber) && secretNumber <= Dedup(DrawChars(draws))
      ensures attempts == maxAttempts && gameActive && overlayHidden
      ensures rows == [] && inputs == EmptySlots
      ensures shownSeconds == 0 && startTime == now
    {
      var secret := GenerateSecretNumber(draws);
      ClearInputs();
      secretNumber, attempts, gameActive, rows, overlayHidden, shownSeconds, startTime :=
        secret, maxAttempts, true, [], true, 0, now;
    }

    /** `setDifficulty`: record the level, set the limit for it, and start a new game. */
    method SetDifficulty(difficulty: string, draws: seq<DigitDraw>, now: int)
      requires Valid() && |Elements(draws)| >= 4
      modifies this`currentDifficulty, this`maxAttempts
      modifies this`secretNumber, this`attempts, this`gameActive, this`rows, this`inputs
      modifies this`overlayHidden, this`shownSeconds, this`startTime
      ensures Valid()
      ensures currentDifficulty == difficulty
      ensures maxAttempts == MaxAttemptsFor(difficulty, old(maxAttempts)) && attempts == maxAttempts
      ensures IsSecret(secretNumber) && secretNumber <= Dedup(DrawChars(draws))
      ensures gameActive && rows == [] && inputs == EmptySlots
      ensures shownSeconds == 0 && startTime == now
    {
      currentDifficulty := difficulty;
      maxAttempts := MaxAttemptsFor(difficulty, maxAttempts);
      ResetGame(draws, now);
    }

    /** `clearInputs`: every box emptied. */
    method ClearInputs()
      modifies this`inputs
      ensures inputs == EmptySlots && BoxesWellFormed(inputs)
      ensures Join(inputs) == "" && !AcceptsGuess(Join(inputs))
    {
      inputs := EmptySlots;
      JoinAllDigits(inputs);
    }

    /** The `'input'` handler of box `index`: the box keeps only the digits typed into
        it. */
    method InputDigit(index: nat, raw: string)
      requires Valid() && index < 4
      modifies this`inputs
      ensures Valid()
      ensures inputs == old(inputs)[index := Sanitize(raw)]
    {
      inputs := inputs[index := Sanitize(raw)];
    }

    /** `updateTimer` at time `now` (milliseconds, not before the last reset): while the
        game runs, the text shows the whole seconds since the reset; afterwards nothing
        changes. */
    method UpdateTimer(now: int)
      requires Valid() && now >= startTime
      modifies this`shownSeconds
      ensures Valid()
      ensures old(gameActive) ==> shownSeconds == (now - startTime) / 1000
      ensures !old(gameActive) ==> shownSeconds == old(shownSeconds)
    {
      if !gameActive {
        return;
      }
      var elapsed := (now - startTime) / 1000;
      shownSeconds := elapsed;
    }

    /** `stopTimer`: the text on the timer display, which `updateTimer` (or `resetGame`)
        wrote from the shown seconds, so that `parseTimeToSeconds` reads it back as the
        shown seconds. */
    method StopTimer() returns (finalTime: string)
      ensures finalTime == ClockText(shownSeconds)
      ensures ParseTimeToSeconds(finalTime) == Some(shownSeconds)
    {
      finalTime := ClockText(shownSeconds);
      ParseClockText(shownSeconds);
    }

    /** `updateStats`: count the game in the stored statistics, adding the `seconds`
        the time text is read as, and show the new win rate. The accuracy the source
        also passes in is not used there. */
    method UpdateStats(win: bool, time: string, attemptsUsed: nat, ghost seconds: nat)
      requires ParseTimeToSeconds(time) == Some(seconds)
      modifies this`storedStats, this`winRateText
      ensures storedStats == Some(UpdatedStats(old(storedStats), win, seconds, attemptsUsed))
      ensures winRateText == Some(WinRatePercent(storedStats.value))
    {
      var stats := if storedStats.Some? then storedStats.value else NoStats;
      if win {
        stats := stats.(wins := stats.wins + 1);
      } else {
        stats := stats.(losses := stats.losses + 1);
      }
      stats := stats.(totalTime := stats.totalTime + ParseTimeToSeconds(time).value);
      stats := stats.(totalAttempts := stats.totalAttempts + attemptsUsed);
      stats := stats.(games := stats.games + 1);
      storedStats := Some(stats);
      winRateText := Some(WinRatePercent(stats));
    }

    /** `gameWon`, reached when the newest row is perfect: the game stops, the overlay
        shows the time, the guesses used and the accuracy, and the win is counted. */
    method GameWon()
      requires Core() && |rows| > 0 && Perfect(rows[0])
      modifies this`gameActive, this`overlayHidden, this`result, this`storedStats, this`winRateText
      ensures Valid() && !gameActive
      ensures var used := if maxAttempts.Finite? then Some(|rows|) else None;
        result == Some(Outcome(true, shownSeconds, used, CalculateAccuracy(rows)))
      ensures var used := if maxAttempts.Finite? then |rows| else 0;
        storedStats == Some(UpdatedStats(old(storedStats), true, shownSeconds, used))
      ensures winRateText == Some(WinRatePercent(storedStats.value))
    {
      var shownAttempts := if maxAttempts.Infinite? then None else Some(maxAttempts.n - attempts.n);
      var used := if maxAttempts.Infinite? then 0 else maxAttempts.n - attempts.n;
      assert used == if maxAttempts.Finite? then |rows| else 0;
      gameActive, overlayHidden, result :=
        false, false, Some(Outcome(true, shownSeconds, shownAttempts, CalculateAccuracy(rows)));
      CountGame(true, used);
    }

    /** `gameLost`, reached when a limited game has no guess left and no perfect row:
        the overlay shows the time, the whole limit as attempts and an accuracy of 0,
        and the loss is counted with the whole limit as its attempts. */
    method GameLost()
      requires Core() && maxAttempts.Finite? && attempts.n <= 0
      requires |rows| > 0 && !Perfect(rows[0])
      modifies this`gameActive, this`overlayHidden, this`result, this`storedStats, this`winRateText
      ensures Valid() && !gameActive && |rows| == maxAttempts.n
      ensures result == Some(Outcome(false, shownSeconds, Some(maxAttempts.n), 0))
      ensures storedStats == Some(UpdatedStats(old(storedStats), false, shownSeconds, maxAttempts.n))
      ensures winRateText == Some(WinRatePercent(storedStats.value))
    {
      gameActive, overlayHidden, result :=
        false, false, Some(Outcome(false, shownSeconds, Some(maxAttempts.n), CalculateAccuracy(rows)));
      CountGame(false, maxAttempts.n);
    }

    /** How `gameWon` and `gameLost` count the game: the text `stopTimer` returns goes to
        `updateStats`, which reads it back as the seconds the timer showed. */
    method CountGame(win: bool, attemptsUsed: nat)
      modifies this`storedStats, this`winRateText
      ensures storedStats == Some(UpdatedStats(old(storedStats), win, shownSeconds, attemptsUsed))
      ensures winRateText == Some(WinRatePercent(storedStats.value))
    {
      var finalTime := StopTimer();
      UpdateStats(win, finalTime, attemptsUsed, shownSeconds);
    }

    /** The part of `handleGuessSubmit` after its checks: one guess spent on a limited
        counter, the boxes emptied, and the row with the feedback on `guess` put at the
        top of the grid. The new row is perfect, and the feedback `'++++'`, exactly when
        the guess is the secret. */
    method SpendGuess(guess: string) returns (feedback: string)
      requires Valid() && gameActive && IsSecret(guess)
      modifies this`attempts, this`inputs, this`rows
      ensures Core()
      ensures feedback == Symbols(CompareGuess(guess, secretNumber))
      ensures rows == [Row(guess, feedback)] + old(rows)
      ensures feedback == "++++" <==> guess == secretNumber
      ensures Perfect(rows[0]) <==> guess == secretNumber
      ensures inputs == EmptySlots
      ensures attempts == (if maxAttempts.Finite? then Finite(old(attempts).n - 1) else Infinite)
    {
      ClearInputs();
      feedback := CompareGuessSymbols(guess, secretNumber);
      PerfectIffAllPlus(Row(guess, feedback));
      attempts, rows := if maxAttempts.Finite? then Finite(attempts.n - 1) else Infinite, [Row(guess, feedback)] + rows;
    }

    /** `handleGuessSubmit`. Outside a game, or unless the boxes hold four different
        characters, nothing happens. Otherwise one guess is spent, the boxes are emptied,
        the row with the feedback on the guess is put at the top of the grid, and the
        game is won when the guess is the secret, lost when a limited game has no guess
        left, and goes on otherwise. */
    method HandleGuessSubmit()
      requires Valid()
      modifies this`attempts, this`inputs, this`rows
      modifies this`gameActive, this`overlayHidden, this`result, this`storedStats, this`winRateText
      ensures Valid()
      ensures !Submits(old(gameActive), old(inputs)) ==> unchanged(this)
      ensures Submits(old(gameActive), old(inputs)) ==>
        var guess := Join(old(inputs));
        && IsSecret(guess)
        && rows == [Row(guess, Symbols(CompareGuess(guess, secretNumber)))] + old(rows)
        && inputs == EmptySlots
        && attempts == (if maxAttempts.Finite? then Finite(old(attempts).n - 1) else Infinite)
        && (gameActive <==> guess != secretNumber && !(maxAttempts.Finite? && attempts.n == 0))
      ensures Submits(old(gameActive), old(inputs)) && Join(old(inputs)) == secretNumber ==>
        var used := if maxAttempts.Finite? then |rows| else 0;
        && Perfect(rows[0])
        && result == Some(Outcome(true, shownSeconds, if maxAttempts.Finite? then Some(used) else None, CalculateAccuracy(rows)))
        && storedStats == Some(UpdatedStats(old(storedStats), true, shownSeconds, used))
        && winRateText == Some(WinRatePercent(storedStats.value))
      ensures Submits(old(gameActive), old(inputs)) && Join(old(inputs)) != secretNumber && !gameActive ==>
        && maxAttempts.Finite? && |rows| == maxAttempts.n
        && result == Some(Outcome(false, shownSeconds, Some(maxAttempts.n), 0))
        && storedStats == Some(UpdatedStats(old(storedStats), false, shownSeconds, maxAttempts.n))
        && winRateText == Some(WinRatePercent(storedStats.value))
      ensures gameActive ==>
        result == old(result) && storedStats == old(storedStats) && winRateText == old(winRateText)
    {
      if !gameActive {
        return;
      }
      var guess := Join(inputs);
      if !AcceptsGuess(guess) {
        return;
      }
      JoinAllDigits(inputs);
      var feedback := SpendGuess(guess);
      if feedback == "++++" {
        GameWon();
      } else if maxAttempts.Finite? && attempts.n <= 0 {
        GameLost();
      }
    }
  }
}

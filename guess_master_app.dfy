/** The game session of idk.js (the `GuessMasterApp` React component). Each piece of
    React state is a field and each handler a method that updates the fields in order;
    every read inside a handler sees the values from before the handler ran, as the
    component's closures do. */
module GuessMasterApp {
  import opened Common
  import opened SecretGen
  import opened Feedback
  import opened GuessInput

  /** One entry of `guessHistory`. */
  datatype GuessRecord = GuessRecord(digits: seq<string>, feedback: seq<Mark>, correct: bool)

  /** `gameStats`. */
  datatype GameStats = GameStats(totalGames: nat, wins: nat)

  /** `getMaxAttempts`: hard allows 3 guesses, medium 5, and every other level
      `Infinity`, written `None` as the component stores `null` for it. */
  function GetMaxAttempts(difficulty: string): (r: Option<nat>)
    ensures r.Some? <==> difficulty == "hard" || difficulty == "medium"
    ensures difficulty == "hard" ==> r == Some(3)
    ensures difficulty == "medium" ==> r == Some(5)
  {
    match difficulty
    case "hard" => Some(3)
    case "medium" => Some(5)
    case "easy" => None
    case _ => None
  }

  /** `Math.round((wins / totalGames) * 100)` once a game has been counted. */
  function WinRate(stats: GameStats): (r: int)
    requires stats.totalGames > 0 && stats.wins <= stats.totalGames
    ensures 0 <= r <= 100
    ensures stats.wins == stats.totalGames ==> r == 100
    ensures stats.wins == 0 ==> r == 0
  {
    PercentBounds(stats.wins, stats.totalGames);
    RoundPercent(stats.wins, stats.totalGames)
  }

  /** The record `submitGuess` builds for valid slots: the slots, the feedback on the
      joined guess, and whether every position is correct, which for these slots is
      whether the guess is the secret. */
  function MakeRecord(digits: seq<string>, secret: string): (r: GuessRecord)
    requires SlotsWellFormed(digits) && IsInputValid(digits) && |secret| == 4
    ensures IsSecret(Join(digits))
    ensures r == GuessRecord(digits, CompareGuess(Join(digits), secret), Join(digits) == secret)
  {
    var guess := Join(digits);
    ValidSlotsJoin(digits);
    var feedback := CompareGuess(guess, secret);
    WinIffEqual(guess, secret);
    GuessRecord(digits, feedback, AllCorrect(feedback))
  }

  class Session {
    var secretNumber: string
    var digits: seq<string>
    var guessHistory: seq<GuessRecord>   // most recent first
    var attempts: nat
    var remainingAttempts: Option<int>   // None is `null`: no limit
    var gameStats: GameStats
    var winRate: int
    var showGameOver: bool
    var gameWon: bool
    var difficulty: string
    var timer: nat
    var isTimerRunning: bool

    /** While no overlay is shown, a limited game has at least one attempt left. */
    ghost predicate Valid()
      reads this`secretNumber, this`digits, this`gameStats, this`winRate, this`gameWon
      reads this`showGameOver, this`remainingAttempts, this`difficulty
    {
      && Settled()
      && (remainingAttempts.Some? && !showGameOver ==> remainingAttempts.value >= 1)
    }

    ghost predicate Settled()
      reads this`secretNumber, this`digits, this`gameStats, this`winRate, this`gameWon
      reads this`showGameOver, this`remainingAttempts, this`difficulty
    {
      && IsSecret(secretNumber)
      && SlotsWellFormed(digits)
      && gameStats.wins <= gameStats.totalGames
      && 0 <= winRate <= 100
      && (gameWon ==> showGameOver)
      && (remainingAttempts.None? <==> GetMaxAttempts(difficulty).None?)
    }

    /** Attempts used and attempts remaining add up to the difficulty's limit. A new game
        establishes this; a level change in mid-game does not reset `attempts`. */
    ghost predicate BudgetConsistent()
      reads this`remainingAttempts, this`difficulty, this`attempts
    {
      remainingAttempts.Some? ==>
        GetMaxAttempts(difficulty).Some? &&
        attempts + remainingAttempts.value == GetMaxAttempts(difficulty).value
    }

    /** The first render: the initial state, then the difficulty effect for `'easy'`
        draws the first secret and sets the limit to `null`. */
    constructor (draws: seq<DigitDraw>)
      requires |Elements(draws)| >= 4
      ensures Valid() && BudgetConsistent()
      ensures secretNumber <= Dedup(DrawChars(draws))
      ensures difficulty == "easy" && remainingAttempts == None
      ensures digits == EmptySlots && guessHistory == [] && attempts == 0
      ensures gameStats == GameStats(0, 0) && winRate == 0
      ensures !showGameOver && !gameWon && timer == 0 && !isTimerRunning
    {
      var secret := GenerateSecretNumber(draws);
      digits := EmptySlots;
      guessHistory := [];
      attempts := 0;
      gameStats := GameStats(0, 0);
      winRate := 0;
      showGameOver := false;
      gameWon := false;
      difficulty := "easy";
      timer := 0;
      isTimerRunning := false;
      secretNumber := secret;
      remainingAttempts := None;
      EmptySlotsWellFormed();
    }

    /** A difficulty button. The effect keyed on `difficulty` runs only when the level
        changes: it draws a new secret and sets the remaining attempts to the new limit,
        leaving the history and `attempts` as they were. */
    method SetDifficulty(level: string, draws: seq<DigitDraw>)
      requires Valid() && |Elements(draws)| >= 4
      modifies this`difficulty, this`secretNumber, this`remainingAttempts
      ensures Valid()
      ensures level == old(difficulty) ==> unchanged(this)
      ensures level != old(difficulty) ==>
        && difficulty == level
        && secretNumber <= Dedup(DrawChars(draws))
        && remainingAttempts == (if GetMaxAttempts(level).Some? then Some(GetMaxAttempts(level).value as int) else None)
    {
      if level != difficulty {
        difficulty := level;
        secretNumber := GenerateSecretNumber(draws);
        var maxAttempts := GetMaxAttempts(difficulty);
        remainingAttempts := if maxAttempts.Some? then Some(maxAttempts.value as int) else None;
      }
    }

    /** The interval callback: one second more while the timer runs, nothing otherwise. */
    method Tick()
      requires Valid()
      modifies this`timer
      ensures Valid()
      ensures timer == if isTimerRunning then old(timer) + 1 else old(timer)
    {
      if isTimerRunning {
        timer := timer + 1;
      }
    }

    /** `handleDigitChange`: slot `index` takes the empty value or a digit no slot holds
        yet; any other value is ignored. The first digit entered starts the timer. */
    method HandleDigitChange(index: nat, value: string)
      requires Valid() && index < 4
      modifies this`digits, this`isTimerRunning
      ensures Valid()
      ensures AcceptsDigit(old(digits), value) ==>
        digits == old(digits)[index := value] &&
        isTimerRunning == (old(isTimerRunning) || value != "")
      ensures !AcceptsDigit(old(digits), value) ==> unchanged(this)
    {
      if AcceptsDigit(digits, value) {
        AcceptKeepsSlotsWellFormed(digits, index, value);
        digits := digits[index := value];
        if !isTimerRunning && value != "" {
          isTimerRunning := true;
        }
      }
    }

    /** `clearInput`: all four slots emptied. */
    method ClearInput()
      modifies this`digits
      ensures digits == EmptySlots && SlotsWellFormed(digits) && !IsInputValid(digits)
    {
      EmptySlotsWellFormed();
      digits := EmptySlots;
    }

    /** `handleWin`: stops the timer, shows the winning overlay and counts one more game
        and one more win. */
    method HandleWin()
      requires Settled()
      modifies this`isTimerRunning, this`gameWon, this`showGameOver, this`gameStats, this`winRate
      ensures Valid()
      ensures !isTimerRunning && gameWon && showGameOver
      ensures gameStats == GameStats(old(gameStats).totalGames + 1, old(gameStats).wins + 1)
      ensures winRate == WinRate(gameStats)
    {
      isTimerRunning := false;
      gameWon := true;
      showGameOver := true;
      var newStats := GameStats(gameStats.totalGames + 1, gameStats.wins + 1);
      gameStats := newStats;
      winRate := WinRate(newStats);
    }

    /** `handleGameOver`: stops the timer, shows the losing overlay and counts one more
        game, with the wins as they were. */
    method HandleGameOver()
      requires Settled()
      modifies this`isTimerRunning, this`gameWon, this`showGameOver, this`gameStats, this`winRate
      ensures Valid()
      ensures !isTimerRunning && !gameWon && showGameOver
      ensures gameStats == GameStats(old(gameStats).totalGames + 1, old(gameStats).wins)
      ensures winRate == WinRate(gameStats)
    {
      isTimerRunning := false;
      gameWon := false;
      showGameOver := true;
      var newStats := GameStats(gameStats.totalGames + 1, gameStats.wins);
      gameStats := newStats;
      winRate := WinRate(newStats);
    }

    /** The bookkeeping part of `submitGuess`: the record goes first in the history, one
        more attempt is counted and, under a limit, one fewer remains. */
    method RecordGuess(record: GuessRecord)
      requires Valid()
      modifies this`guessHistory, this`attempts, this`remainingAttempts
      ensures Settled()
      ensures guessHistory == [record] + old(guessHistory) && attempts == old(attempts) + 1
      ensures remainingAttempts == (if old(remainingAttempts).Some? then Some(old(remainingAttempts).value - 1) else None)
      ensures old(BudgetConsistent()) ==> BudgetConsistent()
      ensures old(BudgetConsistent()) && old(remainingAttempts).Some? ==>
        (old(remainingAttempts).value <= 1 <==> attempts >= GetMaxAttempts(difficulty).value)
    {
      guessHistory := [record] + guessHistory;
      attempts := attempts + 1;
      if remainingAttempts.Some? {
        remainingAttempts := Some(remainingAttempts.value - 1);
      }
    }

    /** `submitGuess`. Invalid slots change nothing. A valid guess is recorded first in
        the history with its feedback and whether it is the secret, uses one attempt
        and, under a limit, one remaining attempt. Then the game is won if the guess is
        the secret; lost if it is not and at most one attempt remained before it; and
        otherwise goes on with the slots cleared. */
    method SubmitGuess()
      requires Valid()
      modifies this`guessHistory, this`attempts, this`remainingAttempts, this`digits
      modifies this`isTimerRunning, this`gameWon, this`showGameOver, this`gameStats, this`winRate
      ensures Valid()
      ensures !IsInputValid(old(digits)) ==> unchanged(this)
      ensures IsInputValid(old(digits)) ==>
        var guess := Join(old(digits));
        && IsSecret(guess)
        && guessHistory == [GuessRecord(old(digits), CompareGuess(guess, secretNumber), guess == secretNumber)] + old(guessHistory)
        && attempts == old(attempts) + 1
        && remainingAttempts == (if old(remainingAttempts).Some? then Some(old(remainingAttempts).value - 1) else None)
      ensures old(BudgetConsistent()) ==> BudgetConsistent()
      // won
      ensures IsInputValid(old(digits)) && Join(old(digits)) == secretNumber ==>
        && gameWon && showGameOver && !isTimerRunning && digits == old(digits)
        && gameStats == GameStats(old(gameStats).totalGames + 1, old(gameStats).wins + 1)
        && winRate == WinRate(gameStats)
      // lost: a wrong guess with at most one attempt left before it
      ensures IsInputValid(old(digits)) && Join(old(digits)) != secretNumber &&
              old(remainingAttempts).Some? && old(remainingAttempts).value <= 1 ==>
        && !gameWon && showGameOver && !isTimerRunning && digits == old(digits)
        && gameStats == GameStats(old(gameStats).totalGames + 1, old(gameStats).wins)
        && winRate == WinRate(gameStats)
      // play goes on: no change to the outcome, the timer or the statistics
      ensures IsInputValid(old(digits)) && Join(old(digits)) != secretNumber &&
              !(old(remainingAttempts).Some? && old(remainingAttempts).value <= 1) ==>
        && digits == EmptySlots
        && gameWon == old(gameWon) && showGameOver == old(showGameOver)
        && isTimerRunning == old(isTimerRunning)
        && gameStats == old(gameStats) && winRate == old(winRate)
    {
      if !IsInputValid(digits) {
        return;
      }
      var newGuess := MakeRecord(digits, secretNumber);
      var before := remainingAttempts;
      RecordGuess(newGuess);

      if newGuess.correct {
        HandleWin();
      } else if before.Some? && before.value <= 1 {
        HandleGameOver();
      } else {
        ClearInput();
      }
    }

    /** `startNewGame`: a fresh secret, an empty history, the timer and `attempts` back
        to 0 and stopped, no overlay, and the remaining attempts set to the current
        level's limit. The statistics are kept. */
    method StartNewGame(draws: seq<DigitDraw>)
      requires Valid() && |Elements(draws)| >= 4
      modifies this`digits, this`guessHistory, this`timer, this`attempts, this`showGameOver
      modifies this`gameWon, this`isTimerRunning, this`secretNumber, this`remainingAttempts
      ensures Valid() && BudgetConsistent()
      ensures secretNumber <= Dedup(DrawChars(draws))
      ensures digits == EmptySlots && guessHistory == [] && timer == 0 && attempts == 0
      ensures !showGameOver && !gameWon && !isTimerRunning
      ensures remainingAttempts == (if GetMaxAttempts(difficulty).Some? then Some(GetMaxAttempts(difficulty).value as int) else None)
    {
      var secret := GenerateSecretNumber(draws);
      ResetRound(secret, GetMaxAttempts(difficulty));
    }

    /** The state updates of `startNewGame` once the new secret is drawn. */
    method ResetRound(secret: string, limit: Option<nat>)
      requires Valid() && IsSecret(secret) && limit == GetMaxAttempts(difficulty)
      modifies this`digits, this`guessHistory, this`timer, this`attempts, this`showGameOver
      modifies this`gameWon, this`isTimerRunning, this`secretNumber, this`remainingAttempts
      ensures Valid() && BudgetConsistent() && secretNumber == secret
      ensures digits == EmptySlots && guessHistory == [] && timer == 0 && attempts == 0
      ensures !showGameOver && !gameWon && !isTimerRunning
      ensures remainingAttempts == (if GetMaxAttempts(difficulty).Some? then Some(GetMaxAttempts(difficulty).value as int) else None)
    {
      ClearInput();
      guessHistory, timer, attempts, showGameOver, gameWon, isTimerRunning, secretNumber, remainingAttempts :=
        [], 0, 0, false, false, false, secret, if limit.Some? then Some(limit.value as int) else None;
    }
  }
}

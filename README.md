# Guess-the-number game: a verified model of its logic

The repository is a number-guessing game. The player has to find a secret of four
different decimal digits. After each guess the game says, position by position, whether
the digit is in the right place, in the secret but elsewhere, or not in the secret at
all. The same game exists twice:

- `idk.js` is a React component, `GuessMasterApp`.
- `script.js` is a plain-DOM page script.

This project models the game logic of both variants in Dafny and proves properties of
that model. It does not model the rendering.

Modules:

- `Common` (`common.dfy`): shared pieces.
  - Digits and distinctness.
  - Decimal text and zero padding.
  - `Math.round` of a percentage, done in integers. `RoundPercent(num, den)` is
    `(200 * num + den) / (2 * den)` in Euclidean division (`RoundPercentDiv`).
- `SecretGen` (`secret.dfy`): `generateSecretNumber`, the same function in both
  variants.
  - It is a rejection loop over an injected sequence of random digits.
  - Its result is the first four different digits drawn, in the order drawn.
- `Feedback` (`feedback.dfy`): `compareGuess`.
  - In `idk.js` it gives one word per position (`Mark`).
  - In `script.js` it gives a string over `'+'`, `'-'` and `' '`. This is a loop,
    `CompareGuessSymbols`, proved equal position by position to the word form.
- `Clock` (`clock.dfy`): the timer texts and `parseTimeToSeconds`.
  - `idk.js` uses `formatTime` (`MM:SS`).
  - `script.js` uses the `M:SS` display of `updateTimer`.
  - `parseTimeToSeconds` reads both formats back into the same seconds.
- `GuessInput` (`guess_input.dfy`): what each variant accepts as a guess.
  - `idk.js`: `isInputValid` and the accept rule of `handleDigitChange`.
  - `script.js`: the digit sanitiser of the input boxes, the submit-button rule of
    `updateSubmitState`, and the length/uniqueness gate of `handleGuessSubmit`.
- `GuessMasterApp` (`guess_master_app.dfy`): the React session as a class.
  - Each piece of game state is a field and each handler a method.
  - The invariant `Valid` says the secret is four different digits and the slots are
    well formed. It also says a limited game with no overlay has at least one attempt
    left.
  - `BudgetConsistent` says attempts used plus attempts remaining equal the level's
    limit.
- `ScriptGame` (`script_game.dfy`): the DOM page as a class.
  - The fields are the guesses grid, the input boxes, the attempts counter, the timer,
    the overlay and the stored statistics.
  - The invariant `Valid` says several things:
    - the counter equals the limit less one per row;
    - every row shows the feedback on its guess against the secret;
    - only the newest row can be perfect;
    - the overlay is shown exactly when the game is over.

Inputs from the environment are parameters:

- The random digits are a `seq<DigitDraw>` of values 0..9.
- `Date.now()` is a millisecond count `now`.
- The statistics stored in local storage are an `Option<Stats>`.

## Model

| member | source | states |
|---|---|---|
| SecretGen.GenerateSecretNumber | idk.js:39-46 | The result is four pairwise different digits: the first four different digits the source supplies, in order. The loop ends whenever the source holds four different digits (the same function is at script.js:174-181). |
| SecretGen.DedupKeepsEachOnce | idk.js:43 | Keeping a drawn digit only when it is not yet in the number keeps every digit drawn, exactly once. |
| SecretGen.DedupPrefix | idk.js:41-44 | Reading further draws only extends the number built so far, so the result is a prefix of all the different digits drawn. |
| SecretGen.DrawCharsCount | idk.js:42 | `String(digit)` loses nothing: the draws and their characters hold the same number of different values. |
| Feedback.CompareGuess | idk.js:52-58 | One mark per guess position. Correct exactly where guess and secret agree. Misplaced exactly where they differ but the secret holds the digit. Incorrect exactly where the secret does not hold it. |
| Feedback.WinIffEqual | idk.js:165 | For a guess as long as the secret, every mark is correct exactly when the guess is the secret. |
| Feedback.CompareGuessSymbols | script.js:208-216 | The `'+'/'-'/' '` string agrees position by position with the `idk.js` marks. It is `'++++'` exactly when the guess is the secret. |
| Feedback.SymbolsInjective | script.js:211-213 | The string form determines the marks: two mark sequences written the same way are equal. |
| GuessInput.IsInputValid | idk.js:61-69 | On four slots: true exactly when no slot is empty and no two slots are equal. |
| GuessInput.AcceptKeepsSlotsWellFormed | idk.js:129-132 | Writing an accepted value (empty, or a digit no slot holds) into one slot keeps the filled slots pairwise different. |
| GuessInput.ValidSlotsJoin | idk.js:163 | Well-formed slots that pass `isInputValid` join into four different digits, slot by slot. |
| GuessInput.EmptySlotsWellFormed | idk.js:151 | The cleared slots are well formed and not a valid guess. |
| GuessInput.Sanitize | script.js:157 | The sanitised text holds only digits and is no longer than the input. |
| GuessInput.SanitizeKeepsEveryDigit | script.js:157 | A character survives sanitising exactly when it is a digit of the input. |
| GuessInput.SanitizeKeepsDigits | script.js:157 | Text that is already all digits is left as it is. |
| GuessInput.SanitizeAppend | script.js:157 | Sanitising works piece by piece, so digits keep their order. |
| GuessInput.SanitizeIdempotent | script.js:157 | Sanitising twice is sanitising once. |
| GuessInput.AcceptsGuess | script.js:234 | The joined boxes are taken exactly when they are four different characters. |
| GuessInput.SubmitEnabled | script.js:140-152 | The button is enabled only for at least four characters. For four characters it is enabled exactly when they are all different. |
| GuessInput.EnabledMatchesAccepted | script.js:140-152 | Every guess the submit handler takes has the button enabled. Up to four characters, the button rule and the handler's gate agree. |
| GuessInput.JoinSingles | idk.js:163 | `join('')` of one-character slots has one character per slot, and character `i` is the character of slot `i` (the same join is at script.js:133). |
| GuessInput.JoinAllDigits | script.js:133 | Joining digit-only boxes gives digit-only text. Joining empty boxes gives the empty text. |
| Clock.FormatTime | idk.js:86-90 | The text ends in `:` and a two-digit seconds field below 60 whose value is the total seconds mod 60. |
| Clock.ClockText | script.js:199-202 | The same for the unpadded-minutes display of `updateTimer`. |
| Clock.ParseClockText | script.js:320-323 | `parseTimeToSeconds` inverts the `updateTimer` display: it reads `ClockText(e)` back as `e`. |
| Clock.ParseFormatTime | script.js:320-323 | `parseTimeToSeconds` also reads the `idk.js` `MM:SS` text back as the same seconds. |
| Clock.ClockTextInjective | script.js:202 | Different elapsed times are displayed differently. |
| Clock.ClockTextZero | script.js:192 | The display a reset writes, `0:00`, is the display of zero seconds. |
| Clock.Split | script.js:321 | `split(':')` gives at least one piece, and no piece holds a colon. Text without a colon gives itself as the only piece. Text with a colon gives at least two pieces, the first being everything before the first colon. |
| Clock.NumberOf | script.js:321 | `Number` of a piece is a number exactly when the piece is a digit string. The empty piece reads as 0. |
| Clock.ParseTimeToSeconds | script.js:320-323 | A text without a colon gives no number. A text that gives a number has a colon, and only digits before its first colon. |
| Clock.SplitTwo | script.js:321 | `split(':')` of a text with one colon gives the two sides. |
| Common.RoundPercentNearest | idk.js:202 | The integer rounding is the integer nearest to `100 * num / den`, with a half rounded up as `Math.round` rounds it. |
| Common.PercentBounds | idk.js:202 | For `0 <= num <= den` the rounded percentage lies in 0..100. It is 100 when `num == den` and 0 when `num == 0`. |
| Common.Decimal | idk.js:89 | `toString` of a whole number is a non-empty digit string. It is one character exactly below 10, and it starts with `'0'` exactly for the number 0, so there is no leading zero. |
| Common.DecimalRoundTrip | idk.js:89 | Reading back the digits `toString` gives yields the number. |
| Common.PadStart2 | idk.js:89 | `padStart(2, '0')` of a digit string keeps it a digit string of the same value. The result has length 2 for shorter input, and longer input is unchanged. |
| Common.QuotIsDiv | idk.js:202 | The repeated-subtraction quotient used for rounding equals Euclidean division. |
| Common.RoundPercentDiv | idk.js:202 | The integer form of `Math.round(100 * num / den)` is `(200 * num + den) / (2 * den)` (the same rounding is at script.js:261 and 317). |
| Common.DistinctIffCardinality | idk.js:65 | `new Set(xs).size` equals the length exactly when the values are pairwise different (the same test is at script.js:146 and 234). |
| GuessMasterApp.GetMaxAttempts | idk.js:72-83 | Hard allows 3 guesses and medium 5. Every other level, easy included, has no limit (`null`). |
| GuessMasterApp.WinRate | idk.js:202 | The win rate is a percentage in 0..100. It is 100 when every game was won and 0 when none was. |
| GuessMasterApp.MakeRecord | idk.js:163-172 | The history record holds the slots, the feedback on the joined guess, and whether the guess is the secret. |
| GuessMasterApp.Session.SetDifficulty | idk.js:94-98 | Choosing the current level changes nothing. Choosing another level draws a new secret and sets the remaining attempts to the new limit, keeping the invariant. |
| GuessMasterApp.Session.Tick | idk.js:101-105 | One second more while the timer runs, nothing otherwise. |
| GuessMasterApp.Session.HandleDigitChange | idk.js:127-147 | An accepted value is written into that slot only, and a digit starts the timer. Any other value changes nothing. The slots stay well formed. |
| GuessMasterApp.Session.ClearInput | idk.js:150-154 | All four slots are empty. |
| GuessMasterApp.Session.HandleWin | idk.js:192-203 | Timer stopped, win overlay shown. One more game and one more win are counted, and the win rate is the rounded percentage of them. |
| GuessMasterApp.Session.HandleGameOver | idk.js:206-217 | Timer stopped, loss overlay shown. One more game is counted with the wins unchanged, and the win rate is recomputed. |
| GuessMasterApp.Session.RecordGuess | idk.js:173-180 | The record goes first in the history and `attempts` grows by one. Under a limit, one fewer attempt remains, so attempts used plus remaining still make the limit. The losing test (at most one attempt left before the guess) holds exactly on the guess that uses up the limit. |
| GuessMasterApp.Session.SubmitGuess | idk.js:158-189 | Invalid slots change nothing. A valid guess is recorded with its feedback. Then exactly one of three things happens: won if it is the secret; lost if it is not and at most one attempt was left; otherwise the game goes on with the slots cleared. Statistics change only in the first two cases. |
| GuessMasterApp.Session.StartNewGame | idk.js:220-231 | New secret from the draws, empty history and slots, timer and attempts at 0 and stopped, no overlay, remaining attempts at the level's limit. The statistics are kept, and attempts used plus remaining make the limit again. |
| GuessMasterApp.Session.ResetRound | idk.js:221-230 | The state updates of `startNewGame` for a given new secret, keeping the invariant. |
| GuessMasterApp.Session.constructor | idk.js:7-28 | The initial state, then the difficulty effect for `'easy'` draws a secret with no attempt limit. |
| ScriptGame.MaxAttemptsFor | script.js:118-120 | Easy is unlimited, medium allows 5 guesses and hard 3. Any other level keeps the current limit. The limit is never below one guess. |
| ScriptGame.PerfectIffAllPlus | script.js:224 | For a four-character feedback, a row whose boxes are all `'correct'` is exactly a `'++++'` row. |
| ScriptGame.CountPerfect | script.js:258-260 | The count of perfect rows is at most the row count. It is 0 exactly when no row is perfect, and the row count exactly when all are. |
| ScriptGame.CalculateAccuracy | script.js:256-262 | The accuracy is in 0..100. It is 0 for an empty grid, 100 when every row is perfect, and 0 when none is. |
| ScriptGame.AccuracyNearest | script.js:261 | The accuracy is the integer nearest to the percentage of perfect rows. |
| ScriptGame.WinAccuracy | script.js:276 | At a win only the newest row is perfect. The accuracy shown is therefore 100 divided by the number of rows, rounded, and 100 for a first-guess win. |
| ScriptGame.UpdatedStats | script.js:307-314 | Starting from the stored statistics, or zeros: exactly one of wins and losses goes up by one, games goes up by one, and the time and attempts are added. |
| ScriptGame.UpdatedStatsConsistent | script.js:310-314 | Wins plus losses equal games before the update and after it, so the win rate stays a percentage. |
| ScriptGame.WinRatePercent | script.js:316-318 | 0% before any game. Otherwise a percentage in 0..100, and 100 when every game was won. |
| ScriptGame.Session.constructor | script.js:39-53 | The first secret, medium (5 guesses), then `initializeGame`'s `resetGame`. The result is a game in progress with an empty grid, a full counter and the timer at 0. |
| ScriptGame.Session.ResetGame | script.js:182-196 | New secret from the draws, counter back to the limit, game active, grid and boxes empty, overlay hidden, timer at 0 from `now`. |
| ScriptGame.Session.SetDifficulty | script.js:115-122 | The level is recorded, the limit is set by `MaxAttemptsFor`, and a new game starts. |
| ScriptGame.Session.ClearInputs | script.js:135-139 | All boxes empty, which the submit gate rejects. |
| ScriptGame.Session.InputDigit | script.js:155-162 | Only the typed box changes, to the digits of what was typed. |
| ScriptGame.Session.UpdateTimer | script.js:197-203 | While the game runs the display shows the whole seconds since the reset. After the game nothing changes. |
| ScriptGame.Session.StopTimer | script.js:204-207 | The returned text is the timer display, `ClockText(shownSeconds)`, and `parseTimeToSeconds` reads it back as the seconds shown. |
| ScriptGame.Session.UpdateStats | script.js:306-319 | The stored statistics become `UpdatedStats` with the seconds the time text is read as. The win rate shown is recomputed from them. |
| ScriptGame.Session.CountGame | script.js:265-282 | The time `stopTimer` returns goes to `updateStats`, so the game's seconds are counted exactly. |
| ScriptGame.Session.GameWon | script.js:263-283 | Game stopped, overlay shown with the time, the guesses used (`'-'` in easy mode) and the accuracy. The win is counted once with the guesses used. |
| ScriptGame.Session.GameLost | script.js:284-305 | Game stopped after exactly the limit's number of guesses. Overlay shown with the whole limit and an accuracy of 0. The loss is counted once with the whole limit. |
| ScriptGame.Session.SpendGuess | script.js:235-241 | Under a limit the counter goes down by one. The boxes are emptied and the row with the feedback goes on top. The row is perfect and the feedback is `'++++'` exactly when the guess is the secret. |
| ScriptGame.Session.HandleGuessSubmit | script.js:231-255 | No effect outside a game or unless the boxes hold four different characters. Otherwise one guess is spent and its row added. Then the game is won if it is the secret, lost if a limited game has no guess left, and goes on otherwise. The game stays active exactly in the last case. Outcome and statistics change only when the game ends. |

## Left out

- Rendering: JSX, DOM construction, CSS, focus moves, confetti, the animated background and the tutorial.
- Sound, vibration, theme, language, and the translated texts with their messages (`handleFeedbackMessage`, the `updateSubmitState` message).
- `Math.random` is replaced by the injected draws. The secret loop terminates only if the draws hold four different digits, which `GenerateSecretNumber` requires.
- Timers and intervals are not modelled.
  - `idk.js`: each interval callback is one `Tick`.
  - `script.js`: `updateTimer` takes `now` in place of `Date.now()` and requires that it is not earlier than the last reset's time.
- Local storage and `JSON.parse`/`JSON.stringify`: the stored statistics are a field holding `Option<Stats>`.
- Floating point: `Math.round(100 * a / b)` is modelled exactly in integers. Ties round up as `Math.round` rounds them. Floating-point error in `a / b * 100` is not modelled.
- `Number()` of the time fields accepts only digit strings. JavaScript would also accept whitespace, signs and other numeric forms, and would give `NaN` for anything else.
- ScriptGame.Session.UpdateStats: requires that the time text parses. A `NaN` total time, which JavaScript would store, is not modelled. `gameWon`/`gameLost` only ever pass the timer text, which always parses (`StopTimer`).
- ScriptGame.Session.UpdateStats: the `accuracy` argument is not a parameter, because `updateStats` never reads it.
- ScriptGame.Outcome: the time on the overlay is stored as the seconds it displays, not as the text; `StopTimer` and `ParseClockText` relate the two.
- ScriptGame.Session.constructor: the secret drawn when the script loads is overwritten at once by `resetGame`. Only the second draw is kept in the result.
- The script.js Enter-key shortcut (script.js:368-372) submits through the same `handleGuessSubmit`. It is not modelled separately.
- GuessMasterApp.Session.SubmitGuess: `idk.js` has no game-over guard. The overlay covers the submit button, and the model keeps the handler as written, with no guard.
- GuessMasterApp.Session.SetDifficulty: a level change in mid-game does not reset `attempts` or the history. So attempts used plus remaining equal the limit (`BudgetConsistent`) only from the next `StartNewGame` on, and SetDifficulty does not promise it.
- GuessMasterApp.Session.HandleDigitChange: only the digits and the timer flag are modelled, not the focus move or the feedback message.
- The `idk.js` digit inputs and their `maxLength` attribute are not modelled. `handleDigitChange` receives the value as a parameter.
- GuessMasterApp.Session.Tick: the timer counts in whole ticks of one second. Interval drift is not modelled.
- The "hard mode is lost on the third wrong guess" scenario is not a single lemma. It follows from three contracts:
  - `GetMaxAttempts("hard") == Some(3)`;
  - `StartNewGame` sets the remaining attempts to that limit;
  - `RecordGuess`: the losing test holds exactly on the guess that uses up the limit.

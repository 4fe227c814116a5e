/** Per-position feedback on a guess. idk.js answers with one word per position
    (`'correct'`, `'misplaced'`, `'incorrect'`); script.js answers with a four-character
    string over `'+'`, `'-'` and `' '`. Both apply the same rule at every position. */
module Feedback {
  import opened Common

  /** The three words of idk.js's `compareGuess`. */
  datatype Mark = Correct | Misplaced | Incorrect

  /** idk.js `compareGuess`: position `i` is correct when the secret has the same
      character there, misplaced when the secret holds that character elsewhere, and
      incorrect when the secret does not hold it at all. A position past the end of the
      secret (`secret[index]` is `undefined`) is never correct. */
  function CompareGuess(guess: string, secret: string): (r: seq<Mark>)
    ensures |r| == |guess|
    ensures forall i :: 0 <= i < |guess| ==>
      (r[i] == Correct <==> i < |secret| && guess[i] == secret[i])
    ensures forall i :: 0 <= i < |guess| ==>
      (r[i] == Misplaced <==> guess[i] in secret && !(i < |secret| && guess[i] == secret[i]))
    ensures forall i :: 0 <= i < |guess| ==> (r[i] == Incorrect <==> guess[i] !in secret)
  {
    seq(|guess|, i requires 0 <= i < |guess| =>
      if i < |secret| && guess[i] == secret[i] then Correct
      else if guess[i] in secret then Misplaced
      else Incorrect)
  }

  /** `feedback.every((f) => f === 'correct')`. */
  predicate AllCorrect(r: seq<Mark>) {
    forall i :: 0 <= i < |r| ==> r[i] == Correct
  }

  /** A guess as long as the secret is a win exactly when it is the secret. */
  lemma WinIffEqual(guess: string, secret: string)
    requires |guess| == |secret|
    ensures AllCorrect(CompareGuess(guess, secret)) <==> guess == secret
  {
    if AllCorrect(CompareGuess(guess, secret)) {
      forall i | 0 <= i < |guess| ensures guess[i] == secret[i] {
        assert CompareGuess(guess, secret)[i] == Correct;
      }
    }
  }

  /** The character script.js writes for each mark. */
  function Symbol(m: Mark): char {
    match m
    case Correct => '+'
    case Misplaced => '-'
    case Incorrect => ' '
  }

  /** The marks written as script.js writes them. */
  function Symbols(r: seq<Mark>): (s: string)
    ensures |s| == |r|
  {
    seq(|r|, i requires 0 <= i < |r| => Symbol(r[i]))
  }

  /** No two different mark sequences are written the same way: the string form loses
      nothing. */
  lemma {:induction false} SymbolsInjective(a: seq<Mark>, b: seq<Mark>)
    requires Symbols(a) == Symbols(b)
    ensures a == b
  {
    forall i | 0 <= i < |a| ensures a[i] == b[i] {
      assert Symbols(a)[i] == Symbols(b)[i];
    }
  }

  /** script.js `compareGuess`: builds the feedback string one position at a time. It
      agrees position by position with idk.js's words, and it is `'++++'` exactly when
      the guess is the secret. */
  method CompareGuessSymbols(guess: string, secret: string) returns (feedback: string)
    requires |guess| == 4 && |secret| == 4
    ensures feedback == Symbols(CompareGuess(guess, secret))
    ensures feedback == "++++" <==> guess == secret
  {
    feedback := "";
    for i := 0 to 4
      invariant |feedback| == i
      invariant forall k :: 0 <= k < i ==> feedback[k] == Symbol(CompareGuess(guess, secret)[k])
    {
      if guess[i] == secret[i] {
        feedback := feedback + "+";
      } else if guess[i] in secret {
        feedback := feedback + "-";
      } else {
        feedback := feedback + " ";
      }
    }
    WinIffEqual(guess, secret);
    if feedback == "++++" {
      assert forall k :: 0 <= k < 4 ==> CompareGuess(guess, secret)[k] == Correct by {
        forall k | 0 <= k < 4 ensures CompareGuess(guess, secret)[k] == Correct {
          assert feedback[k] == '+';
        }
      }
    }
    if guess == secret {
      assert feedback == "++++";
    }
  }
}

/** What the two variants accept as a guess. idk.js keeps four slots of one character
    each and gates them with `isInputValid`; a slot takes a keystroke only through the
    `handleDigitChange` rule. script.js strips non-digits from each input box and gates
    the joined text on its length and on the number of different characters in it. */
module GuessInput {
  import opened Common
  import opened SecretGen

  /** `['', '', '', '']`. */
  const EmptySlots: seq<string> := ["", "", "", ""]

  /** `array.join('')`. */
  function Join(slots: seq<string>): (s: string)
    ensures |slots| == 0 ==> s == ""
  {
    if slots == [] then "" else Join(slots[..|slots| - 1]) + slots[|slots| - 1]
  }

  /** Joining one-character slots gives their characters, slot by slot. */
  lemma {:induction false} JoinSingles(slots: seq<string>)
    requires forall i :: 0 <= i < |slots| ==> |slots[i]| == 1
    ensures |Join(slots)| == |slots|
    ensures forall i :: 0 <= i < |slots| ==> Join(slots)[i] == slots[i][0]
  {
    if slots != [] {
      var init := slots[..|slots| - 1];
      JoinSingles(init);
      assert Join(slots) == Join(init) + slots[|slots| - 1];
    }
  }

  /** idk.js `isInputValid`: no slot is empty and the slots hold four different values.
      On the game's four slots this is: every slot filled and no two slots equal. */
  function IsInputValid(slots: seq<string>): (r: bool)
    ensures |slots| == 4 ==>
      (r <==> (forall i :: 0 <= i < 4 ==> slots[i] != "") && Distinct(slots))
  {
    DistinctIffCardinality(slots);
    if exists i :: 0 <= i < |slots| && slots[i] == "" then false
    else |Elements(slots)| == 4
  }

  /** The shape idk.js keeps its slots in: four slots, each empty or one digit, and no
      digit in two slots. */
  predicate SlotsWellFormed(slots: seq<string>) {
    && |slots| == 4
    && (forall i :: 0 <= i < 4 ==> slots[i] == "" || (|slots[i]| == 1 && IsDigitChar(slots[i][0])))
    && (forall i, j :: 0 <= i < j < 4 && slots[i] != "" ==> slots[i] != slots[j])
  }

  /** idk.js `handleDigitChange` accept rule: the empty value, or a single digit
      (`/^\d$/`) that no slot already holds. */
  predicate AcceptsDigit(slots: seq<string>, value: string) {
    value == "" || (|value| == 1 && IsDigitChar(value[0]) && value !in slots)
  }

  /** Writing an accepted value into one slot keeps the slots well formed: filled slots
      stay pairwise different. */
  lemma AcceptKeepsSlotsWellFormed(slots: seq<string>, index: nat, value: string)
    requires SlotsWellFormed(slots) && index < 4 && AcceptsDigit(slots, value)
    ensures SlotsWellFormed(slots[index := value])
  {
  }

  /** The empty slots are well formed and not a valid guess. */
  lemma EmptySlotsWellFormed()
    ensures SlotsWellFormed(EmptySlots) && !IsInputValid(EmptySlots)
  {
    assert EmptySlots[0] == "";
  }

  /** Four well-formed slots that pass `isInputValid` join into a string of the same
      shape as a secret: four different digits, one from each slot in order. */
  lemma ValidSlotsJoin(slots: seq<string>)
    requires SlotsWellFormed(slots) && IsInputValid(slots)
    ensures Join(slots) == [slots[0][0], slots[1][0], slots[2][0], slots[3][0]]
    ensures IsSecret(Join(slots))
  {
    assert slots[..1] == [slots[0]];
    assert slots[..2][..1] == slots[..1];
    assert slots[..3][..2] == slots[..2];
    assert slots[..4][..3] == slots[..3];
    assert slots[..4] == slots;
    assert Join(slots[..1]) == slots[0];
    assert Join(slots[..2]) == slots[0] + slots[1];
    assert Join(slots[..3]) == slots[0] + slots[1] + slots[2];
    var g := Join(slots);
    forall i, j | 0 <= i < j < 4 ensures g[i] != g[j] {
      assert slots[i] != slots[j];
      assert slots[i] == [g[i]] && slots[j] == [g[j]];
    }
  }

  /** Joining digit-only boxes gives digit-only text, and joining empty boxes gives the
      empty text. */
  lemma {:induction false} JoinAllDigits(slots: seq<string>)
    requires forall i :: 0 <= i < |slots| ==> AllDigits(slots[i])
    ensures AllDigits(Join(slots))
    ensures (forall i :: 0 <= i < |slots| ==> slots[i] == "") ==> Join(slots) == ""
  {
    if slots != [] {
      JoinAllDigits(slots[..|slots| - 1]);
    }
  }

  /** script.js input handler: `value.replace(/\D/g, '')`. */
  function Sanitize(s: string): (r: string)
    ensures AllDigits(r) && |r| <= |s|
  {
    if s == [] then ""
    else if IsDigitChar(s[0]) then [s[0]] + Sanitize(s[1..])
    else Sanitize(s[1..])
  }

  /** Sanitising a concatenation sanitises each part in place: digits keep their order. */
  lemma {:induction false} SanitizeAppend(a: string, b: string)
    ensures Sanitize(a + b) == Sanitize(a) + Sanitize(b)
  {
    if a != [] {
      assert (a + b)[0] == a[0] && (a + b)[1..] == a[1..] + b;
      SanitizeAppend(a[1..], b);
    } else {
      assert a + b == b;
    }
  }

  /** Text made only of digits is left as it is, so sanitising twice is sanitising once. */
  lemma {:induction false} SanitizeKeepsDigits(s: string)
    requires AllDigits(s)
    ensures Sanitize(s) == s
  {
    if s != [] {
      SanitizeKeepsDigits(s[1..]);
    }
  }

  /** The sanitiser is idempotent. */
  lemma SanitizeIdempotent(s: string)
    ensures Sanitize(Sanitize(s)) == Sanitize(s)
  {
    SanitizeKeepsDigits(Sanitize(s));
  }

  /** Every digit of the input survives sanitising, and nothing else does. */
  lemma {:induction false} SanitizeKeepsEveryDigit(s: string, c: char)
    ensures c in Sanitize(s) <==> c in s && IsDigitChar(c)
  {
    if s != [] {
      SanitizeKeepsEveryDigit(s[1..], c);
      assert c in s <==> c == s[0] || c in s[1..];
    }
  }

  /** script.js `handleGuessSubmit` gate: the joined input is taken only when it is four
      characters long and `new Set(guess)` has four members, i.e. four different
      characters. */
  function AcceptsGuess(guess: string): (r: bool)
    ensures r <==> |guess| == 4 && Distinct(guess)
  {
    DistinctIffCardinality(guess);
    !(|guess| != 4 || |Elements(guess)| < 4)
  }

  /** script.js `updateSubmitState`: the submit button is enabled unless the joined input
      is shorter than four characters or holds fewer than four different ones. */
  function SubmitEnabled(guess: string): (r: bool)
    ensures r ==> |guess| >= 4
    ensures |guess| == 4 ==> (r <==> Distinct(guess))
  {
    DistinctIffCardinality(guess);
    if |guess| < 4 then false
    else if |Elements(guess)| < 4 then false
    else true
  }

  /** The button is enabled for every guess the submit handler takes, and the handler
      takes every four-character input for which the button is enabled. */
  lemma EnabledMatchesAccepted(guess: string)
    ensures AcceptsGuess(guess) ==> SubmitEnabled(guess)
    ensures |guess| <= 4 ==> (SubmitEnabled(guess) <==> AcceptsGuess(guess))
  {
  }
}

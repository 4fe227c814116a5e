/** Secret generation (`generateSecretNumber`, identical in idk.js and script.js): a
    rejection loop that draws random digits and keeps each one not drawn before, until
    four are kept. The random source is a sequence of draws handed in by the caller. */
module SecretGen {
  import opened Common

  /** A secret, and any guess the game accepts: four pairwise distinct decimal digits. */
  predicate IsSecret(s: string) {
    |s| == 4 && AllDigits(s) && Distinct(s)
  }

  /** The characters `String(d)` of a sequence of draws. */
  function DrawChars(draws: seq<DigitDraw>): (s: string)
    ensures |s| == |draws| && AllDigits(s)
    ensures forall i :: 0 <= i < |draws| ==> s[i] == DigitChar(draws[i])
  {
    seq(|draws|, i requires 0 <= i < |draws| => DigitChar(draws[i]))
  }

  /** The characters of `s` in order of first appearance, each kept once: what the loop
      has built after reading `s`. */
  function Dedup(s: string): string {
    if s == [] then []
    else
      var p, c := Dedup(s[..|s| - 1]), s[|s| - 1];
      if c in p then p else p + [c]
  }

  /** `Dedup` keeps every character of its input exactly once. */
  lemma {:induction false} DedupKeepsEachOnce(s: string)
    ensures Distinct(Dedup(s)) && Elements(Dedup(s)) == Elements(s)
  {
    if s != [] {
      DedupKeepsEachOnce(s[..|s| - 1]);
      var c := s[|s| - 1];
      assert s == s[..|s| - 1] + [c];
      assert Elements(s) == Elements(s[..|s| - 1]) + {c};
    }
  }

  /** Reading more draws only extends what has been kept so far. */
  lemma {:induction false} DedupPrefix(s: string, k: nat)
    requires k <= |s|
    ensures Dedup(s[..k]) <= Dedup(s)
    decreases |s| - k
  {
    if k < |s| {
      var t := s[..|s| - 1];
      assert t[..k] == s[..k];
      DedupPrefix(t, k);
      var a, b, c := Dedup(s[..k]), Dedup(t), Dedup(s);
      assert b == c[..|b|];
      assert a == b[..|a|];
      assert a == c[..|a|];
    } else {
      assert s[..k] == s;
    }
  }

  /** Different draws give different characters, so the draws and their characters hold
      the same number of different values. */
  lemma {:induction false} DrawCharsCount(draws: seq<DigitDraw>)
    ensures |Elements(DrawChars(draws))| == |Elements(draws)|
  {
    if draws != [] {
      var init, d := draws[..|draws| - 1], draws[|draws| - 1];
      DrawCharsCount(init);
      assert draws == init + [d];
      assert DrawChars(draws) == DrawChars(init) + [DigitChar(d)];
      ElementsSnoc(init, d);
      ElementsSnoc(DrawChars(init), DigitChar(d));
      DrawCharIn(init, d);
      var a, b := Elements(init), Elements(DrawChars(init));
      if d in a {
        assert a + {d} == a && b + {DigitChar(d)} == b;
      } else {
        assert |a + {d}| == |a| + 1 && |b + {DigitChar(d)}| == |b| + 1;
      }
    }
  }

  /** A draw's character was drawn before exactly when the draw itself was. */
  lemma DrawCharIn(init: seq<DigitDraw>, d: DigitDraw)
    ensures DigitChar(d) in Elements(DrawChars(init)) <==> d in Elements(init)
  {
    if DigitChar(d) in Elements(DrawChars(init)) {
      var i :| 0 <= i < |init| && DrawChars(init)[i] == DigitChar(d);
      assert init[i] == d;
    }
  }

  /** Draws until four different digits have been kept. The loop ends only if the source
      supplies at least four different digits; the result is then the first four
      different digits drawn, in the order drawn (a prefix of all the different digits). */
  method GenerateSecretNumber(draws: seq<DigitDraw>) returns (number: string)
    requires |Elements(draws)| >= 4
    ensures IsSecret(number)
    ensures number <= Dedup(DrawChars(draws))
  {
    ghost var chars := DrawChars(draws);
    DrawCharsCount(draws);
    DedupKeepsEachOnce(chars);
    DistinctIffCardinality(Dedup(chars));
    DistinctIffCardinality(draws);
    assert chars[..|draws|] == chars;
    number := "";
    var used := 0;
    while |number| < 4
      invariant used <= |draws|
      invariant |number| <= 4 && AllDigits(number)
      invariant number == Dedup(chars[..used])
      invariant |number| < 4 ==> used < |draws|
      decreases |draws| - used
    {
      var digit := DigitChar(draws[used]);
      assert chars[..used + 1] == chars[..used] + [digit];
      if digit !in number {
        number := number + [digit];
      }
      used := used + 1;
    }
    DedupKeepsEachOnce(chars[..used]);
    DedupPrefix(chars, used);
  }
}

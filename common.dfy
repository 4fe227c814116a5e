/** Values and helpers shared by both variants of the game: optional values, digit
    characters, distinctness, decimal text of numbers and the rounding of percentages. */
module Common {

  datatype Option<T> = None | Some(value: T)

  /** A JavaScript number that is either `Infinity` or a finite count. */
  datatype Bound = Infinite | Finite(n: int)

  predicate IsDigitChar(c: char) {
    '0' <= c <= '9'
  }

  predicate AllDigits(s: string) {
    forall i :: 0 <= i < |s| ==> IsDigitChar(s[i])
  }

  /** One draw of `Math.floor(Math.random() * 10)`. */
  type DigitDraw = d: int | 0 <= d <= 9

  /** `String(d)` for a single digit. */
  function DigitChar(d: DigitDraw): (c: char)
    ensures IsDigitChar(c)
  {
    (48 + d) as char
  }

  function DigitValue(c: char): (v: DigitDraw)
    requires IsDigitChar(c)
    ensures DigitChar(v) == c
  {
    c as int - 48
  }

  predicate Distinct<T(==)>(s: seq<T>) {
    forall i, j :: 0 <= i < j < |s| ==> s[i] != s[j]
  }

  /** The contents of `new Set(s)`. */
  function Elements<T>(s: seq<T>): set<T> {
    set x | x in s
  }

  /** Appending a value adds it to the values held. */
  lemma ElementsSnoc<T>(s: seq<T>, x: T)
    ensures Elements(s + [x]) == Elements(s) + {x}
  {
  }

  /** The size of `new Set(s)` never exceeds the length of `s`, and equals it exactly
      when the elements of `s` are pairwise distinct. */
  lemma {:induction false} DistinctIffCardinality<T>(s: seq<T>)
    ensures |Elements(s)| <= |s|
    ensures |Elements(s)| == |s| <==> Distinct(s)
  {
    if s != [] {
      var t := s[1..];
      DistinctIffCardinality(t);
      assert Elements(s) == {s[0]} + Elements(t);
      if s[0] in Elements(t) {
        assert Elements(s) == Elements(t);
        var k :| 0 <= k < |t| && t[k] == s[0];
        assert s[0] == s[k + 1];
      } else {
        assert |Elements(s)| == |Elements(t)| + 1;
        if Distinct(t) {
          forall i, j | 0 <= i < j < |s| ensures s[i] != s[j] {
            if i == 0 {
              assert s[j] == t[j - 1];
            } else {
              assert s[i] == t[i - 1] && s[j] == t[j - 1];
            }
          }
        }
        if Distinct(s) {
          forall i, j | 0 <= i < j < |t| ensures t[i] != t[j] {
            assert t[i] == s[i + 1] && t[j] == s[j + 1];
          }
        }
      }
    }
  }

  /** `n.toString()` for a non-negative integer. */
  function Decimal(n: nat): (s: string)
    ensures |s| >= 1 && AllDigits(s)
    ensures n < 10 <==> |s| == 1
    ensures s[0] == '0' <==> n == 0
    decreases n
  {
    if n < 10 then [DigitChar(n)] else Decimal(n / 10) + [DigitChar(n % 10)]
  }

  /** `Number(s)` for a string of decimal digits (the empty string reads as 0). */
  function DecimalValue(s: string): nat
    requires AllDigits(s)
  {
    if s == [] then 0 else DecimalValue(s[..|s| - 1]) * 10 + DigitValue(s[|s| - 1])
  }

  /** Reading back the decimal text of a number gives the number. */
  lemma {:induction false} DecimalRoundTrip(n: nat)
    ensures DecimalValue(Decimal(n)) == n
    decreases n
  {
    if n >= 10 {
      DecimalRoundTrip(n / 10);
      var s := Decimal(n);
      assert s[..|s| - 1] == Decimal(n / 10);
    }
  }

  /** A leading zero does not change the value of a digit string. */
  lemma {:induction false} LeadingZero(s: string)
    requires AllDigits(s)
    ensures AllDigits("0" + s) && DecimalValue("0" + s) == DecimalValue(s)
  {
    if s != [] {
      var z := "0" + s;
      assert z[..|z| - 1] == "0" + s[..|s| - 1];
      LeadingZero(s[..|s| - 1]);
    }
  }

  /** `s.padStart(2, '0')`. */
  function PadStart2(s: string): (r: string)
    requires AllDigits(s)
    ensures AllDigits(r) && DecimalValue(r) == DecimalValue(s)
    ensures |r| == if |s| < 2 then 2 else |s|
    ensures |s| >= 2 ==> r == s
  {
    if |s| >= 2 then s
    else
      LeadingZero(s);
      if |s| == 1 then "0" + s
      else
        LeadingZero("0");
        "00"
  }

  /** `a / b` rounded down, for `a >= 0` and `b > 0`, as repeated subtraction. */
  function Quot(a: nat, b: nat): nat
    requires b > 0
    decreases a
  {
    if a < b then 0 else 1 + Quot(a - b, b)
  }

  /** The quotient is the number of whole times `b` fits into `a`. */
  lemma {:induction false} QuotBounds(a: nat, b: nat)
    requires b > 0
    ensures b * Quot(a, b) <= a < b * Quot(a, b) + b
    decreases a
  {
    if a >= b {
      QuotBounds(a - b, b);
      assert b * Quot(a, b) == b + b * Quot(a - b, b);
    }
  }

  /** The repeated subtraction is Euclidean division. */
  lemma QuotIsDiv(a: nat, b: nat)
    requires b > 0
    ensures Quot(a, b) == a / b
  {
    var q, d := Quot(a, b), a / b;
    QuotBounds(a, b);
    if q < d {
      MulStep(b, q, d);
    } else if d < q {
      MulStep(b, d, q);
    }
  }

  /** A larger multiplier gives a product larger by at least one more `b`. */
  lemma {:induction false} MulStep(b: nat, x: int, y: int)
    requires b > 0 && x < y
    ensures b * x + b <= b * y
    decreases y - x
  {
    assert b * y == b * (y - 1) + b;
    if x < y - 1 {
      MulStep(b, x, y - 1);
    }
  }

  /** `Math.round(100 * num / den)` for a count `num` and a positive `den`, computed on
      integers (see `RoundPercentNearest`). */
  function RoundPercent(num: nat, den: nat): nat
    requires den > 0
  {
    Quot(200 * num + den, 2 * den)
  }

  /** The rounding is `(200 * num + den) / (2 * den)` in Euclidean division. */
  lemma RoundPercentDiv(num: nat, den: nat)
    requires den > 0
    ensures RoundPercent(num, den) == (200 * num + den) / (2 * den)
  {
    QuotIsDiv(200 * num + den, 2 * den);
  }

  /** `r` is the integer nearest to `100 * num / den`, a half counting as nearer to the
      integer above it: `r - 1/2 <= 100 * num / den < r + 1/2`. */
  predicate NearestPercent(r: int, num: nat, den: nat) {
    (2 * r - 1) * den <= 200 * num < (2 * r + 1) * den
  }

  /** `RoundPercent` is the integer nearest to `100 * num / den`, halves rounded up as
      `Math.round` rounds them. */
  lemma RoundPercentNearest(num: nat, den: nat)
    requires den > 0
    ensures NearestPercent(RoundPercent(num, den), num, den)
  {
    var r := RoundPercent(num, den);
    QuotBounds(200 * num + den, 2 * den);
    assert 2 * den * r <= 200 * num + den < 2 * den * r + 2 * den;
    assert (2 * r - 1) * den == 2 * den * r - den;
    assert (2 * r + 1) * den == 2 * den * r + den;
  }

  /** A share of at most the whole rounds to a percentage between 0 and 100, the whole
      rounds to exactly 100 and nothing rounds to 0. */
  lemma PercentBounds(num: nat, den: nat)
    requires den > 0 && 0 <= num <= den
    ensures 0 <= RoundPercent(num, den) <= 100
    ensures num == den ==> RoundPercent(num, den) == 100
    ensures num == 0 ==> RoundPercent(num, den) == 0
  {
    var r := RoundPercent(num, den);
    RoundPercentNearest(num, den);
    assert 200 * num <= 200 * den;
    assert (2 * r - 1) * den <= 200 * den;
    CancelLe(2 * r - 1, 200, den);
    assert 0 * den < (2 * r + 1) * den;
    CancelLt(0, 2 * r + 1, den);
    if num == den {
      assert 199 * den < (2 * r + 1) * den;
      CancelLt(199, 2 * r + 1, den);
    }
    if num == 0 {
      assert (2 * r - 1) * den <= 0 * den;
      CancelLe(2 * r - 1, 0, den);
    }
  }

  lemma CancelLe(x: int, y: int, d: int)
    requires d > 0 && x * d <= y * d
    ensures x <= y
  {
  }

  lemma CancelLt(x: int, y: int, d: int)
    requires d > 0 && x * d < y * d
    ensures x < y
  {
  }
}

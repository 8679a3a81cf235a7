/** Decimal numbers as text: their parts, the number they denote, and how numbers are printed. */
module Numbers {
  import opened Common

  datatype Exponent = NoExponent | Exponent(mark: char, sign: string, digits: string)

  /** A number token split into its parts. */
  datatype Numeral = Numeral(negative: bool, whole: string, fraction: Option<string>, exponent: Exponent)

  predicate IsDigit(c: char) { '0' <= c <= '9' }

  predicate AllDigits(s: string) { forall i :: 0 <= i < |s| ==> IsDigit(s[i]) }

  function OrEmpty(o: Option<string>): string { if o.Some? then o.value else [] }

  function ExponentText(e: Exponent): string {
    if e.NoExponent? then [] else [e.mark] + e.sign + e.digits
  }

  function FractionText(f: Option<string>): string { if f.Some? then "." + f.value else [] }

  /** The token. */
  function NumeralText(n: Numeral): string {
    (if n.negative then "-" else []) + n.whole + FractionText(n.fraction) + ExponentText(n.exponent)
  }

  /** What the standard f64 reader accepts of such a token: a mantissa digit, and a digit in any exponent. */
  predicate Accepted(n: Numeral) {
    |n.whole| + |OrEmpty(n.fraction)| >= 1 && (n.exponent.Exponent? ==> n.exponent.digits != [])
  }

  predicate IsExponent(e: Exponent) {
    e.Exponent? ==>
      (e.mark == 'e' || e.mark == 'E') && e.sign in ["", "+", "-"] && AllDigits(e.digits) && e.digits != []
  }

  /** A token the JSON reader takes whole: the first character decides that a number starts. */
  predicate IsNumeral(n: Numeral) {
    && Accepted(n) && AllDigits(n.whole) && AllDigits(OrEmpty(n.fraction))
    && (n.negative || n.whole != [])
    && IsExponent(n.exponent)
  }

  // ---------------------------------------------------------------- the number a token denotes

  function DigitsNat(d: string): nat
    requires AllDigits(d)
  {
    if d == [] then 0 else 10 * DigitsNat(d[..|d| - 1]) + (d[|d| - 1] as int - '0' as int)
  }

  function Pow10(k: nat): real { if k == 0 then 1.0 else 10.0 * Pow10(k - 1) }

  lemma Pow10Positive(k: nat)
    ensures Pow10(k) >= 1.0
  {
  }

  /** The decimal point moved e places, to the left if left. */
  function MovePoint(x: real, left: bool, e: nat): real {
    Pow10Positive(e);
    if left then x / Pow10(e) else x * Pow10(e)
  }

  function DigitsOrZero(d: string): nat { if AllDigits(d) then DigitsNat(d) else 0 }

  /** The number a token denotes, exactly. */
  function NumeralValue(n: Numeral): real {
    var x := if n.exponent.NoExponent? then Mantissa(n)
             else MovePoint(Mantissa(n), n.exponent.sign == "-", DigitsOrZero(n.exponent.digits));
    if n.negative then -x else x
  }

  /** The digits around the point. */
  function Mantissa(n: Numeral): real {
    var f := OrEmpty(n.fraction);
    MovePoint(DigitsOrZero(n.whole + f) as real, true, |f|)
  }

  /** 2^240. */
  const TWO_TO_240 := 1766847064778384329583297500742918515827483896875618958121606201292619776.0

  /** 2^1024 - 2^970, that is 2^970 times 2^54 - 1: from here on the nearest f64 is infinite. */
  const F64_LIMIT := TWO_TO_240 * TWO_TO_240 * TWO_TO_240 * TWO_TO_240 * 1024.0 * 18014398509481983.0

  /** Read as an f64, the token is infinite. */
  predicate Overflows(n: Numeral) { Abs(NumeralValue(n)) >= F64_LIMIT }

  function TwoTo(k: nat): real { if k == 0 then 1.0 else 2.0 * TwoTo(k - 1) }

  lemma {:induction false} TwoAdds(a: nat, b: nat)
    ensures TwoTo(a + b) == TwoTo(a) * TwoTo(b)
  {
    if a > 0 { TwoAdds(a - 1, b); }
  }

  lemma TwoDoubles(a: nat, x: real)
    requires TwoTo(a) == x
    ensures TwoTo(2 * a) == x * x
  {
    TwoAdds(a, a);
  }

  lemma TwoTo240()
    ensures TwoTo(240) == TWO_TO_240
  {
    assert TwoTo(5) == 32.0 && TwoTo(10) == 1024.0 && TwoTo(15) == 32768.0;
    TwoDoubles(15, 32768.0);
    TwoDoubles(30, 1073741824.0);
    TwoDoubles(60, 1152921504606846976.0);
    TwoDoubles(120, 1329227995784915872903807060280344576.0);
  }

  lemma TwoTo970(t: real)
    requires t == TwoTo(240)
    ensures TwoTo(970) == t * t * t * t * 1024.0
  {
    TwoDoubles(240, t);
    TwoDoubles(480, t * t);
    TwoAdds(960, 10);
    assert TwoTo(10) == 1024.0;
  }

  /** The limit is 2^1024 - 2^970: half way between the largest f64 and the next power of two. */
  lemma LimitIsHalfWay()
    ensures F64_LIMIT == TwoTo(1024) - TwoTo(970)
  {
    TwoTo240();
    TwoTo970(TWO_TO_240);
    TwoTo54();
    TwoAdds(970, 54);
    LessOne(TwoTo(970), TwoTo(54), F64_LIMIT);
  }

  lemma LessOne(x: real, y: real, l: real)
    requires l == x * (y - 1.0)
    ensures l == x * y - x
  {
  }

  lemma TwoTo54()
    ensures TwoTo(54) == 18014398509481984.0
  {
    assert TwoTo(12) == 4096.0 && TwoTo(15) == 32768.0;
    TwoAdds(12, 15);
    TwoDoubles(27, 134217728.0);
  }

  /** An exponent moves the point: to the left if negative, to the right otherwise. */
  lemma ExponentMeans(n: Numeral)
    requires IsNumeral(n) && n.exponent.Exponent? && !n.negative
    ensures var x, p := NumeralValue(n.(exponent := NoExponent)), Pow10(DigitsNat(n.exponent.digits));
            if n.exponent.sign == "-" then NumeralValue(n) * p == x else NumeralValue(n) == x * p
    ensures NumeralValue(n.(negative := true)) == -NumeralValue(n)
  {
    MovePointMeans(Mantissa(n), DigitsNat(n.exponent.digits));
  }

  lemma MovePointMeans(x: real, e: nat)
    ensures MovePoint(x, true, e) * Pow10(e) == x && MovePoint(x, false, e) == x * Pow10(e)
  {
    Pow10Positive(e);
    Undivided(x, Pow10(e));
  }

  lemma Undivided(x: real, p: real)
    requires p > 0.0
    ensures x / p * p == x
  {
  }

  /** A fraction counts in tenths, hundredths and so on: the digits of the token are the value times that power. */
  lemma FractionMeans(n: Numeral)
    requires IsNumeral(n) && n.exponent.NoExponent? && !n.negative
    ensures var f := OrEmpty(n.fraction);
            AllDigits(n.whole + f) && NumeralValue(n) * Pow10(|f|) == DigitsNat(n.whole + f) as real
    ensures NumeralValue(n.(negative := true)) == -NumeralValue(n)
  {
    var f := OrEmpty(n.fraction);
    MovePointMeans(DigitsNat(n.whole + f) as real, |f|);
  }

  // ---------------------------------------------------------------- powers of ten

  lemma {:induction false} Pow10Adds(a: nat, b: nat)
    ensures Pow10(a + b) == Pow10(a) * Pow10(b)
  {
    if a > 0 { Pow10Adds(a - 1, b); }
  }

  lemma Pow10Doubles(a: nat, x: real)
    requires Pow10(a) >= x >= 1.0
    ensures Pow10(a + a) >= x * x
  {
    Pow10Adds(a, a);
  }

  lemma {:induction false} Pow10Grows(a: nat, b: nat)
    requires a <= b
    ensures Pow10(a) <= Pow10(b)
  {
    if a < b {
      Pow10Grows(a, b - 1);
      Pow10Positive(b - 1);
    }
  }

  lemma TenTo320Overflows()
    ensures Pow10(320) > F64_LIMIT
  {
    assert Pow10(5) == 100000.0;
    Pow10Doubles(5, 100000.0);
    Pow10Doubles(10, 10000000000.0);
    var p := 100000000000000000000.0;
    Pow10Doubles(20, p);
    Pow10Doubles(40, p * p);
    Pow10Doubles(80, p * p * (p * p));
    Pow10Doubles(160, p * p * (p * p) * (p * p * (p * p)));
  }

  /** 1e999. */
  const HUGE := Numeral(false, "1", None, Exponent('e', "", "999"))

  lemma HugeOverflows()
    ensures IsNumeral(HUGE) && NumeralText(HUGE) == "1e999" && Overflows(HUGE)
  {
    assert "1" + [] == "1" && DigitsNat("1") == 1;
    assert "999"[..2] == "99" && "99"[..1] == "9";
    assert DigitsNat("999") == 999;
    HugeValue(999);
  }

  lemma HugeValue(e: nat)
    requires e >= 320
    ensures MovePoint(MovePoint(1.0, true, 0), false, e) >= F64_LIMIT
  {
    TenTo320Overflows();
    Pow10Grows(320, e);
  }

  // ---------------------------------------------------------------- printing natural numbers

  function Decimal(n: nat): string {
    if n < 10 then [(n + '0' as int) as char] else Decimal(n / 10) + [(n % 10 + '0' as int) as char]
  }

  function NatNumeral(n: nat): Numeral { Numeral(false, Decimal(n), None, NoExponent) }

  lemma {:induction false} DecimalIsDigits(n: nat)
    ensures AllDigits(Decimal(n)) && Decimal(n) != [] && DigitsNat(Decimal(n)) == n
  {
    if n >= 10 {
      DecimalIsDigits(n / 10);
      assert Decimal(n)[..|Decimal(n)| - 1] == Decimal(n / 10);
    }
  }

  /** A natural number is printed as a token that denotes it. */
  lemma NatNumeralValue(n: nat)
    ensures IsNumeral(NatNumeral(n)) && NumeralValue(NatNumeral(n)) == n as real
  {
    DecimalIsDigits(n);
    assert Decimal(n) + [] == Decimal(n);
  }

  // ---------------------------------------------------------------- printing with a fixed number of decimals

  /** q is the integer nearest to y, the even one in the middle. */
  predicate IsNearest(q: int, y: real) {
    -0.5 <= y - q as real <= 0.5 && (Abs(y - q as real) == 0.5 ==> q % 2 == 0)
  }

  function Nearest(x: real): (q: nat)
    requires x >= 0.0
    ensures IsNearest(q, x)
  {
    var f := x.Floor;
    var rest := x - f as real;
    if rest < 0.5 || (rest == 0.5 && f % 2 == 0) then f else f + 1
  }

  /** The last n digits of k, zeros in front. */
  function Padded(k: nat, n: nat): (d: string)
    ensures |d| == n && AllDigits(d)
  {
    if n == 0 then [] else Padded(k / 10, n - 1) + [(k % 10 + '0' as int) as char]
  }

  /** The number without its last n digits. */
  function Dropped(k: nat, n: nat): nat { if n == 0 then k else Dropped(k / 10, n - 1) }

  /** The token for q with the point moved prec places to the left. */
  function FixedToken(negative: bool, q: nat, prec: nat): Numeral {
    Numeral(negative, Decimal(Dropped(q, prec)), if prec == 0 then None else Some(Padded(q, prec)), NoExponent)
  }

  function Scaled(x: real, p: real): nat
    requires p >= 1.0
  {
    ScaledIsNatural(Abs(x), p);
    Nearest(Abs(x) * p)
  }

  lemma ScaledIsNatural(x: real, p: real)
    requires x >= 0.0 && p >= 1.0
    ensures x * p >= 0.0
  {
  }

  /** A finite number with prec decimals. */
  function Fixed(x: real, prec: nat): Numeral {
    Pow10Positive(prec);
    FixedToken(x < 0.0, Scaled(x, Pow10(prec)), prec)
  }

  lemma FixedIsNumeral(negative: bool, q: nat, prec: nat)
    ensures IsNumeral(FixedToken(negative, q, prec))
  {
    DecimalIsDigits(Dropped(q, prec));
  }

  /** The digits before and after the point together are those of q. */
  lemma {:induction false} FixedDigits(q: nat, prec: nat)
    ensures AllDigits(Decimal(Dropped(q, prec)) + Padded(q, prec))
    ensures DigitsNat(Decimal(Dropped(q, prec)) + Padded(q, prec)) == q
  {
    DecimalIsDigits(Dropped(q, prec));
    var w := Decimal(Dropped(q, prec));
    if prec == 0 {
      assert w + Padded(q, prec) == w;
    } else {
      FixedDigits(q / 10, prec - 1);
      LastDigit(w, Padded(q / 10, prec - 1), q % 10, q / 10);
    }
  }

  lemma LastDigit(w: string, p: string, d: nat, k: nat)
    requires d < 10 && AllDigits(w + p) && DigitsNat(w + p) == k
    ensures var s := w + (p + [(d + '0' as int) as char]); AllDigits(s) && DigitsNat(s) == 10 * k + d
  {
    var c := (d + '0' as int) as char;
    var s := w + (p + [c]);
    assert s == (w + p) + [c];
    DigitsSnoc(w + p, c);
  }

  lemma DigitsSnoc(s: string, c: char)
    requires AllDigits(s) && IsDigit(c)
    ensures AllDigits(s + [c]) && DigitsNat(s + [c]) == 10 * DigitsNat(s) + (c as int - '0' as int)
  {
    assert (s + [c])[..|s|] == s;
  }

  /** The token denotes q / 10^prec. */
  lemma FixedDenotes(negative: bool, q: nat, prec: nat)
    ensures Pow10(prec) > 0.0
    ensures NumeralValue(FixedToken(negative, q, prec)) ==
              if negative then -(q as real / Pow10(prec)) else q as real / Pow10(prec)
  {
    Pow10Positive(prec);
    FixedDigits(q, prec);
    if prec == 0 { assert Decimal(q) + [] == Decimal(q) + Padded(q, 0); }
  }

  // ---------------------------------------------------------------- rounding

  /** v is q/scale, and q is nearest to x*scale. */
  predicate RoundsBy(q: int, v: real, x: real, scale: real) { IsNearest(q, x * scale) && v * scale == q as real }

  /** v is x rounded to a multiple of 1/scale. */
  ghost predicate RoundsTo(v: real, x: real, scale: real) { exists q: int :: RoundsBy(q, v, x, scale) }

  lemma ScaledIsNearest(x: real, p: real)
    requires p >= 1.0
    ensures IsNearest(Scaled(x, p), Abs(x) * p)
  {
    ScaledIsNatural(Abs(x), p);
  }

  lemma MinusNearest(q: int, y: real, z: real)
    requires IsNearest(q, y) && z == -y
    ensures IsNearest(-q, z)
  {
  }

  /** A number printed with prec decimals denotes that number rounded to them. */
  lemma FixedRounds(x: real, prec: nat)
    ensures IsNumeral(Fixed(x, prec)) && RoundsTo(NumeralValue(Fixed(x, prec)), x, Pow10(prec))
  {
    var p := Pow10(prec);
    Pow10Positive(prec);
    ScaledIsNearest(x, p);
    FixedIsNumeral(x < 0.0, Scaled(x, p), prec);
    FixedDenotes(x < 0.0, Scaled(x, p), prec);
    SignedRounds(x, p, Scaled(x, p), NumeralValue(Fixed(x, prec)));
  }

  lemma SignedRounds(x: real, p: real, q: int, v: real)
    requires p >= 1.0 && IsNearest(q, Abs(x) * p) && v == if x < 0.0 then -(q as real / p) else q as real / p
    ensures RoundsTo(v, x, p)
  {
    assert q as real / p * p == q as real;
    if x < 0.0 {
      assert v * p == -(q as real);
      MinusNearest(q, Abs(x) * p, x * p);
      assert RoundsBy(-q, v, x, p);
    } else {
      assert RoundsBy(q, v, x, p);
    }
  }

  lemma SmallPowers()
    ensures Pow10(0) == 1.0 && Pow10(1) == 10.0 && Pow10(3) == 1000.0 && Pow10(4) == 10000.0
  {
    assert Pow10(2) == 100.0;
  }

  /** How the formatter spells what is not a finite number; none of these is JSON. */
  function Odd(word: string, negative: bool): Numeral { Numeral(negative, word, None, NoExponent) }

  predicate IsOdd(n: Numeral) { n in [Odd("inf", false), Odd("inf", true), Odd("NaN", false)] }
}

/** Decimal digits and the rendering of integers as text: the `%d` used for
    line numbers in diagnostics and for arity counts in call errors, and the
    digit runs the scanner reads back as number literals. */
module Decimal {

  predicate IsDigit(c: char) {
    '0' <= c <= '9'
  }

  predicate AllDigits(s: string) {
    forall k :: 0 <= k < |s| ==> IsDigit(s[k])
  }

  function DigitChar(d: nat): (c: char)
    requires d < 10
    ensures IsDigit(c)
    ensures DigitValue(c) == d
  {
    "0123456789"[d]
  }

  function DigitValue(c: char): (d: nat)
    requires IsDigit(c)
    ensures d < 10
  {
    (c as int - '0' as int) as nat
  }

  /** The decimal text of `n`, most significant digit first, no leading zeros. */
  function NatText(n: nat): (s: string)
    ensures |s| >= 1
    ensures AllDigits(s)
    ensures |s| > 1 ==> s[0] != '0'
    decreases n
  {
    if n < 10 then [DigitChar(n)] else NatText(n / 10) + [DigitChar(n % 10)]
  }

  /** The value of a run of decimal digits; the empty run is 0. */
  function DigitsValue(s: string): nat
    requires AllDigits(s)
    decreases |s|
  {
    if s == [] then 0 else DigitsValue(s[..|s| - 1]) * 10 + DigitValue(s[|s| - 1])
  }

  /** `%d` of a Go int: a minus sign for negative values. */
  function IntText(i: int): (s: string)
    ensures |s| >= 1
    ensures i >= 0 ==> s == NatText(i)
    ensures i < 0 ==> s[0] == '-' && s[1..] == NatText(-i)
  {
    if i < 0 then "-" + NatText(-i) else NatText(i)
  }

  /** Reading the text of a natural number back gives the number. */
  lemma {:induction false} NatTextRoundTrip(n: nat)
    ensures DigitsValue(NatText(n)) == n
    decreases n
  {
    if n >= 10 {
      var s := NatText(n);
      assert s[..|s| - 1] == NatText(n / 10);
      NatTextRoundTrip(n / 10);
    }
  }

  /** Distinct numbers have distinct texts. */
  lemma NatTextInjective(m: nat, n: nat)
    requires NatText(m) == NatText(n)
    ensures m == n
  {
    NatTextRoundTrip(m);
    NatTextRoundTrip(n);
  }

  /** Reading an integer text back: the partner of `IntText`. */
  function ReadInt(s: string): (r: int)
    requires |s| >= 1
    requires s[0] == '-' ==> AllDigits(s[1..])
    requires s[0] != '-' ==> AllDigits(s)
  {
    if s[0] == '-' then -(DigitsValue(s[1..]) as int) else DigitsValue(s)
  }

  lemma IntTextRoundTrip(i: int)
    ensures ReadInt(IntText(i)) == i
  {
    if i < 0 {
      NatTextRoundTrip(-i);
    } else {
      NatTextRoundTrip(i);
    }
  }

  function Pow10(n: nat): (p: nat)
    ensures p >= 1
  {
    if n == 0 then 1 else 10 * Pow10(n - 1)
  }

  /** The value `strconv.ParseFloat` gives a lexeme `whole` or `whole.frac`,
      computed exactly. */
  function DecimalValue(whole: string, frac: string): (r: real)
    requires AllDigits(whole) && AllDigits(frac)
    ensures r >= DigitsValue(whole) as real
    ensures frac == [] ==> r == DigitsValue(whole) as real
  {
    DigitsValue(whole) as real + DigitsValue(frac) as real / Pow10(|frac|) as real
  }

  /** The most fraction digits the number renderer writes. */
  const MaxPlaces: nat := 17

  predicate IsWhole(x: real) {
    x.Floor as real == x
  }

  /** `r` has at most `k` decimal places. */
  predicate WholeAt(r: real, k: nat) {
    IsWhole(r * Pow10(k) as real)
  }

  /** A value with at most `MaxPlaces` decimal places, which the renderer
      writes exactly. */
  predicate Terminating(r: real) {
    WholeAt(r, MaxPlaces)
  }

  /** The fewest decimal places, from `k` up, that write `r` exactly
      (`MaxPlaces` when none do). */
  function Places(r: real, k: nat): (p: nat)
    requires k <= MaxPlaces
    ensures k <= p <= MaxPlaces
    ensures p < MaxPlaces ==> WholeAt(r, p)
    ensures forall q :: k <= q < p ==> !WholeAt(r, q)
    decreases MaxPlaces - k
  {
    if k == MaxPlaces || WholeAt(r, k) then k else Places(r, k + 1)
  }

  /** `s` left-padded with zeros to at least `k` characters. */
  function ZeroPad(s: string, k: nat): (t: string)
    ensures |s| >= k ==> t == s
    ensures |s| < k ==> |t| == k
    decreases k - |s|
  {
    if |s| >= k then s else ZeroPad("0" + s, k)
  }

  /** A leading zero does not change the value of a digit run. */
  lemma {:induction false} LeadingZero(s: string)
    requires AllDigits(s)
    ensures AllDigits("0" + s) && DigitsValue("0" + s) == DigitsValue(s)
    decreases |s|
  {
    var t := "0" + s;
    assert AllDigits(t) by {
      forall k | 0 <= k < |t| ensures IsDigit(t[k]) {
        if k > 0 { assert t[k] == s[k - 1]; }
      }
    }
    if s != [] {
      assert t[..|t| - 1] == "0" + s[..|s| - 1];
      assert t[|t| - 1] == s[|s| - 1];
      LeadingZero(s[..|s| - 1]);
    }
  }

  /** Zero padding keeps a digit run's value. */
  lemma {:induction false} ZeroPadValue(s: string, k: nat)
    requires AllDigits(s)
    ensures AllDigits(ZeroPad(s, k)) && DigitsValue(ZeroPad(s, k)) == DigitsValue(s)
    decreases k - |s|
  {
    if |s| < k {
      LeadingZero(s);
      ZeroPadValue("0" + s, k);
    }
  }

  /** The whole part and the fraction digits the renderer writes for `r >= 0`:
      `r` scaled by `10^places`, cut after `places` digits from the right. */
  function Scaled(r: real, places: nat): (n: nat)
    requires r >= 0.0
  {
    var x := r * Pow10(places) as real;
    assert x >= 0.0;
    x.Floor
  }

  /** The fixed-point text of `n / 10^p`: the digits of `n`, zero-padded to
      more than `p` digits, with a `.` before the last `p` of them when
      `p > 0`. */
  function FixedText(n: nat, p: nat): (s: string)
    ensures |s| >= 1 && IsDigit(s[0])
  {
    var digits := FixedDigits(n, p);
    var cut := |digits| - p;
    if p == 0 then digits else digits[..cut] + "." + digits[cut..]
  }

  /** The text of a non-negative number: its whole part, then, unless it is
      whole, a `.` and the fewest fraction digits that write it. */
  function UnsignedText(r: real): (s: string)
    requires r >= 0.0
    ensures |s| >= 1 && IsDigit(s[0])
  {
    var p := Places(r, 0);
    FixedText(Scaled(r, p), p)
  }

  /** The `%v` text of a number: a minus sign for a negative value. */
  function NumberText(r: real): (s: string)
    ensures |s| >= 1
    ensures r >= 0.0 ==> IsDigit(s[0])
    ensures r < 0.0 ==> s[0] == '-' && s[1..] == UnsignedText(-r)
  {
    if r < 0.0 then "-" + UnsignedText(-r) else UnsignedText(r)
  }

  lemma RealDivAdd(q: real, m: real, d: real)
    requires d > 0.0
    ensures q + m / d == (d * q + m) / d
  {
  }

  lemma MulDiv(x: real, d: real)
    requires d > 0.0
    ensures (x * d) / d == x
  {
  }

  /** `n = w * d + f` read as a whole part and a fraction over `d`. */
  lemma Shifted(n: nat, w: nat, f: nat, d: nat)
    requires d >= 1 && n == w * d + f
    ensures w as real + f as real / d as real == n as real / d as real
  {
    assert n as real == w as real * d as real + f as real;
    RealDivAdd(w as real, f as real, d as real);
  }

  lemma AllDigitsConcat(x: string, y: string)
    requires AllDigits(x) && AllDigits(y)
    ensures AllDigits(x + y)
  {
    var xy := x + y;
    forall k | 0 <= k < |xy| ensures IsDigit(xy[k]) {
      if k < |x| { assert xy[k] == x[k]; } else { assert xy[k] == y[k - |x|]; }
    }
  }

  lemma ShiftArith(v: int, p: int, w: int, c: int)
    ensures (v * p + w) * 10 + c == v * (10 * p) + (w * 10 + c)
  {
  }

  /** Appending digits shifts the value left by their count. */
  lemma {:induction false} DigitsConcat(x: string, y: string)
    requires AllDigits(x) && AllDigits(y)
    ensures AllDigits(x + y)
    ensures DigitsValue(x + y) == DigitsValue(x) * Pow10(|y|) + DigitsValue(y)
    decreases |y|
  {
    AllDigitsConcat(x, y);
    var xy := x + y;
    if y == [] {
      assert xy == x;
    } else {
      var y' := y[..|y| - 1];
      var c := y[|y| - 1];
      AllDigitsConcat(x, y');
      assert xy[..|xy| - 1] == x + y';
      assert xy[|xy| - 1] == c;
      DigitsConcat(x, y');
      assert DigitsValue(xy) == DigitsValue(x + y') * 10 + DigitValue(c);
      assert DigitsValue(y) == DigitsValue(y') * 10 + DigitValue(c);
      assert Pow10(|y|) == 10 * Pow10(|y'|);
      ShiftArith(DigitsValue(x), Pow10(|y'|), DigitsValue(y'), DigitValue(c));
    }
  }

  /** Cutting the last `p` digits off a digit run: the value of the front,
      shifted by `p` places, plus the value of the back. */
  lemma DigitsSplit(s: string, p: nat)
    requires AllDigits(s) && p <= |s|
    ensures AllDigits(s[..|s| - p]) && AllDigits(s[|s| - p..]) && |s[|s| - p..]| == p
    ensures DigitsValue(s) == DigitsValue(s[..|s| - p]) * Pow10(p) + DigitsValue(s[|s| - p..])
  {
    var cut := |s| - p;
    var a, b := s[..cut], s[cut..];
    assert AllDigits(a) by {
      forall k | 0 <= k < |a| ensures IsDigit(a[k]) { assert a[k] == s[k]; }
    }
    assert AllDigits(b) by {
      forall k | 0 <= k < |b| ensures IsDigit(b[k]) { assert b[k] == s[cut + k]; }
    }
    assert a + b == s;
    DigitsConcat(a, b);
  }

  /** The digits a fixed-point text is cut from: `n`, zero-padded to more
      than `p` digits. */
  function FixedDigits(n: nat, p: nat): (digits: string)
    ensures |digits| > p && AllDigits(digits) && DigitsValue(digits) == n
  {
    ZeroPadValue(NatText(n), p + 1);
    NatTextRoundTrip(n);
    ZeroPad(NatText(n), p + 1)
  }

  /** The digit runs on each side of the `.` of a fixed-point text read back,
      as a lexeme `whole.frac`, to `n / 10^p`. */
  lemma FixedValue(n: nat, p: nat)
    requires p >= 1
    ensures var digits := FixedDigits(n, p);
            var cut := |digits| - p;
            && AllDigits(digits[..cut]) && AllDigits(digits[cut..]) && |digits[cut..]| == p
            && DecimalValue(digits[..cut], digits[cut..]) == n as real / Pow10(p) as real
  {
    var digits := FixedDigits(n, p);
    DigitsSplit(digits, p);
    Shifted(n, DigitsValue(digits[..|digits| - p]), DigitsValue(digits[|digits| - p..]), Pow10(p));
  }

  /** A value with at most `p` places is its scaled value over `10^p`. */
  lemma ScaledAt(r: real, p: nat)
    requires r >= 0.0 && WholeAt(r, p)
    ensures Scaled(r, p) as real / Pow10(p) as real == r
  {
    var d := Pow10(p) as real;
    var x := r * d;
    assert Scaled(r, p) == x.Floor;
    assert x.Floor as real == x;
    MulDiv(r, d);
  }

  /** When `r` terminates, its scaled value over `10^places` is `r` itself. */
  lemma ScaledExact(r: real)
    requires r >= 0.0 && Terminating(r)
    ensures var p := Places(r, 0);
            Scaled(r, p) as real / Pow10(p) as real == r
  {
    ScaledAt(r, Places(r, 0));
  }

  /** A whole number is written as its digits alone. */
  lemma WholeText(n: nat)
    ensures NumberText(n as real) == NatText(n)
  {
    var r := n as real;
    assert WholeAt(r, 0);
    assert Places(r, 0) == 0;
    assert Scaled(r, 0) == n;
  }

  /** A number with exactly two decimal places `r = n / 100` is written
      with two fraction digits. */
  lemma TwoPlacesText(r: real, n: nat)
    requires r >= 0.0 && r * 100.0 == n as real
    requires !IsWhole(r) && !IsWhole(r * 10.0)
    ensures NumberText(r) == FixedText(n, 2)
  {
    assert Pow10(0) == 1 && Pow10(1) == 10 && Pow10(2) == 100;
    assert !WholeAt(r, 0) && !WholeAt(r, 1) && WholeAt(r, 2);
    assert Places(r, 2) == 2;
    assert Places(r, 0) == 2;
    assert Scaled(r, 2) == n;
  }

  /** The fixed-point text of `4567` with two places is `45.67`. */
  lemma FixedTwoPlaces(n: nat)
    requires n == 4567
    ensures FixedText(n, 2) == "45.67"
  {
    assert NatText(n) == "4567";
    assert FixedDigits(n, 2) == "4567";
  }
}

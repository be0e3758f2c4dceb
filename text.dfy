/** The two string primitives the normaliser relies on: Python's `str.lower()` and
    Python's `float(text)` on the numerals the feed carries. Floats are modelled as
    exact reals. */
module Text {
  import opened Wrappers

  const KelvinSign: char := '\U{212A}'

  /** A character that `str.lower()` changes: ASCII and Latin-1 capitals (the
      multiplication sign U+00D7 sits among them and is not a letter), and the
      Kelvin sign, which lowers to an ASCII 'k'. */
  predicate IsUpper(c: char) {
    || 'A' <= c <= 'Z'
    || ('\U{00C0}' <= c <= '\U{00DE}' && c != '\U{00D7}')
    || c == KelvinSign
  }

  function LowerChar(c: char): (r: char)
    ensures !IsUpper(r)
    ensures !IsUpper(c) ==> r == c
    ensures IsUpper(c) && c != KelvinSign ==> r as int == c as int + 32
    ensures c == KelvinSign ==> r == 'k'
  {
    if 'A' <= c <= 'Z' || ('\U{00C0}' <= c <= '\U{00DE}' && c != '\U{00D7}') then
      (c as int + 32) as char
    else if c == KelvinSign then
      'k'
    else
      c
  }

  /** `s.lower()`: every capital becomes its small letter and nothing else changes. */
  function Lower(s: string): (r: string)
    ensures |r| == |s|
    ensures forall i :: 0 <= i < |r| ==> !IsUpper(r[i])
    ensures forall i :: 0 <= i < |s| && !IsUpper(s[i]) ==> r[i] == s[i]
    ensures forall i :: 0 <= i < |s| && IsUpper(s[i]) && s[i] != KelvinSign ==> r[i] as int == s[i] as int + 32
    ensures forall i :: 0 <= i < |s| && s[i] == KelvinSign ==> r[i] == 'k'
  {
    seq(|s|, i requires 0 <= i < |s| => LowerChar(s[i]))
  }

  lemma LowerIdempotent(s: string)
    ensures Lower(Lower(s)) == Lower(s)
  {
  }

  predicate IsDigit(c: char) {
    '0' <= c <= '9'
  }

  predicate AllDigits(s: string) {
    forall i :: 0 <= i < |s| ==> IsDigit(s[i])
  }

  /** The natural number a string of decimal digits denotes, read left to right. */
  function DigitsValue(s: string): nat
    requires AllDigits(s)
    decreases |s|
  {
    if s == [] then 0 else 10 * DigitsValue(s[..|s| - 1]) + (s[|s| - 1] as int - '0' as int)
  }

  function Pow10(n: nat): (r: nat)
    ensures r >= 1
  {
    if n == 0 then 1 else 10 * Pow10(n - 1)
  }

  /** The position of the first '.' in `s`, if any. */
  function DotIndex(s: string): (r: Option<nat>)
    ensures r.Some? ==> r.value < |s| && s[r.value] == '.'
    ensures r.Some? ==> forall i :: 0 <= i < r.value ==> s[i] != '.'
    ensures r.None? ==> forall i :: 0 <= i < |s| ==> s[i] != '.'
  {
    if s == [] then None
    else if s[0] == '.' then Some(0)
    else match DotIndex(s[1..])
      case None => None
      case Some(k) => Some(k + 1)
  }

  /** An unsigned numeral: `digits`, `digits.digits`, `digits.` or `.digits`. */
  function ParseUnsigned(s: string): (r: Option<real>)
    ensures r.Some? ==> r.value >= 0.0
  {
    match DotIndex(s)
    case None =>
      if s != [] && AllDigits(s) then Some(DigitsValue(s) as real) else None
    case Some(k) =>
      var whole, frac := s[..k], s[k + 1..];
      if AllDigits(whole) && AllDigits(frac) && |whole| + |frac| > 0 then
        var fraction := DigitsValue(frac) as real / Pow10(|frac|) as real;
        QuotientNonnegative(DigitsValue(frac) as real, Pow10(|frac|) as real);
        Some(DigitsValue(whole) as real + fraction)
      else
        None
  }

  lemma QuotientNonnegative(a: real, b: real)
    requires a >= 0.0 && b > 0.0
    ensures a / b >= 0.0
  {
    assert (a / b) * b == a;
  }

  predicate IsNumeralChar(c: char) {
    IsDigit(c) || c == '.' || c == '+' || c == '-'
  }

  /** `float(s)` on a plain decimal numeral with an optional sign. The empty string
      and any text with a letter, a space or a second '.' are rejected, as
      `float` rejects them with `ValueError`. */
  function ParseNumber(s: string): (r: Option<real>)
    ensures r.Some? ==> |s| > 0 && forall i :: 0 <= i < |s| ==> IsNumeralChar(s[i])
    ensures s == [] ==> r.None?
    ensures |s| > 0 && s[0] == '-' ==>
      && (r.Some? <==> ParseUnsigned(s[1..]).Some?)
      && (r.Some? ==> r.value == -ParseUnsigned(s[1..]).value)
    ensures |s| > 0 && s[0] == '+' ==> r == ParseUnsigned(s[1..])
    ensures r.Some? && r.value < 0.0 ==> s[0] == '-'
  {
    if s != [] && s[0] == '-' then
      match ParseUnsigned(s[1..])
      case Some(x) => Some(-x)
      case None => None
    else if s != [] && s[0] == '+' then
      ParseUnsigned(s[1..])
    else
      ParseUnsigned(s)
  }

  function DigitChar(d: nat): (c: char)
    requires d < 10
    ensures IsDigit(c) && c as int - '0' as int == d
  {
    ('0' as int + d) as char
  }

  /** The decimal numeral of `n` without leading zeros, as `str(n)` renders it. */
  function Decimal(n: nat): string
    decreases n
  {
    if n < 10 then [DigitChar(n)] else Decimal(n / 10) + [DigitChar(n % 10)]
  }

  lemma {:induction false} DecimalDigits(n: nat)
    ensures Decimal(n) != [] && AllDigits(Decimal(n))
    ensures DigitsValue(Decimal(n)) == n
    decreases n
  {
    if n >= 10 {
      DecimalDigits(n / 10);
      var s := Decimal(n);
      assert s[..|s| - 1] == Decimal(n / 10);
    }
  }

  /** Reading back the numeral of a natural number gives that number. */
  lemma ParseDecimal(n: nat)
    ensures ParseNumber(Decimal(n)) == Some(n as real)
  {
    DecimalDigits(n);
    assert DotIndex(Decimal(n)).None?;
  }

  /** A minus sign in front negates the value. */
  lemma ParseNegativeDecimal(n: nat)
    ensures ParseNumber("-" + Decimal(n)) == Some(-(n as real))
  {
    DecimalDigits(n);
    var s := "-" + Decimal(n);
    assert s[1..] == Decimal(n);
    assert DotIndex(Decimal(n)).None?;
  }

  lemma AllDigitsConcat(a: string, b: string)
    requires AllDigits(a) && AllDigits(b)
    ensures AllDigits(a + b)
  {
    var ab := a + b;
    forall i | 0 <= i < |ab| ensures IsDigit(ab[i]) {
      if i < |a| { assert ab[i] == a[i]; } else { assert ab[i] == b[i - |a|]; }
    }
  }

  lemma AllDigitsSplit(s: string, m: nat)
    requires AllDigits(s) && m <= |s|
    ensures AllDigits(s[..m]) && AllDigits(s[m..]) && s[..m] + s[m..] == s
  {
    var w, f := s[..m], s[m..];
    forall i | 0 <= i < |w| ensures IsDigit(w[i]) { assert w[i] == s[i]; }
    forall i | 0 <= i < |f| ensures IsDigit(f[i]) { assert f[i] == s[m + i]; }
  }

  /** One more digit `d` after `a` and `i`: the shift by a further place. */
  lemma ShiftDigit(a: nat, i: nat, p: nat, d: int)
    ensures 10 * (a * p + i) + d == a * (10 * p) + (10 * i + d)
  {
  }

  /** Digits written after digits: the left part counts `|b|` places higher. */
  lemma {:induction false} DigitsConcat(a: string, b: string)
    requires AllDigits(a) && AllDigits(b)
    ensures AllDigits(a + b)
    ensures DigitsValue(a + b) == DigitsValue(a) * Pow10(|b|) + DigitsValue(b)
    decreases |b|
  {
    AllDigitsConcat(a, b);
    var ab := a + b;
    if b == [] {
      assert ab == a;
    } else {
      var init := b[..|b| - 1];
      assert AllDigits(init) by {
        forall i | 0 <= i < |init| ensures IsDigit(init[i]) { assert init[i] == b[i]; }
      }
      DigitsConcat(a, init);
      assert ab[..|ab| - 1] == a + init;
      var d := b[|b| - 1] as int - '0' as int;
      assert ab[|ab| - 1] == b[|b| - 1];
      assert DigitsValue(ab) == 10 * DigitsValue(a + init) + d;
      assert DigitsValue(b) == 10 * DigitsValue(init) + d;
      ShiftDigit(DigitsValue(a), DigitsValue(init), Pow10(|init|), d);
    }
  }

  /** With only digits before it, the point put after `w` is the first one. */
  lemma DotAfterDigits(w: string, f: string)
    requires AllDigits(w)
    ensures DotIndex(w + "." + f) == Some(|w|)
  {
    var s := w + "." + f;
    assert s[|w|] == '.';
    forall i | 0 <= i < |w| ensures s[i] != '.' {
      assert s[i] == w[i];
    }
  }

  /** An unsigned numeral whose first point is at `k` reads as its whole part plus
      its fraction. */
  lemma ParseUnsignedAt(s: string, k: nat)
    requires DotIndex(s) == Some(k)
    requires AllDigits(s[..k]) && AllDigits(s[k + 1..]) && |s| > 1
    ensures ParseUnsigned(s).Some?
    ensures ParseUnsigned(s).value
         == DigitsValue(s[..k]) as real + DigitsValue(s[k + 1..]) as real / Pow10(|s| - k - 1) as real
  {
    var whole, frac := s[..k], s[k + 1..];
    assert |whole| + |frac| == |s| - 1 && |frac| == |s| - k - 1;
  }

  /** The digits `w`, a point, then the digits `f`, read as an unsigned numeral. */
  lemma ParseUnsignedPoint(w: string, f: string)
    requires AllDigits(w) && AllDigits(f) && |w| + |f| > 0
    ensures ParseUnsigned(w + "." + f).Some?
    ensures ParseUnsigned(w + "." + f).value
         == DigitsValue(w) as real + DigitsValue(f) as real / Pow10(|f|) as real
  {
    var s := w + "." + f;
    DotAfterDigits(w, f);
    assert s[..|w|] == w;
    assert s[|w| + 1..] == f;
    assert |s| - |w| - 1 == |f|;
    ParseUnsignedAt(s, |w|);
  }

  /** Dividing `w * p + f` by `p` splits into `w` and `f / p`. */
  lemma SplitQuotient(n: nat, w: nat, f: nat, p: nat)
    requires p > 0 && n == w * p + f
    ensures n as real / p as real == w as real + f as real / p as real
  {
    var q := w as real + f as real / p as real;
    assert (f as real / p as real) * p as real == f as real;
    assert q * p as real == n as real;
  }

  /** Putting a point between two runs of digits divides their value by `10^|f|`. */
  lemma ParsePointed(w: string, f: string)
    requires AllDigits(w) && AllDigits(f) && |w| + |f| > 0
    ensures AllDigits(w + f)
    ensures ParseNumber(w + "." + f).Some?
    ensures ParseNumber(w + "." + f).value == DigitsValue(w + f) as real / Pow10(|f|) as real
  {
    DigitsConcat(w, f);
    ParseUnsignedPoint(w, f);
    var t := w + "." + f;
    assert t[0] != '-' && t[0] != '+' by {
      if |w| > 0 { assert t[0] == w[0]; } else { assert t[0] == '.'; }
    }
    assert ParseNumber(t) == ParseUnsigned(t);
    SplitQuotient(DigitsValue(w + f), DigitsValue(w), DigitsValue(f), Pow10(|f|));
  }

  /** A point put `k` digits from the end of a run of digits that denotes `n`. */
  lemma ParseSplit(s: string, n: nat, k: nat)
    requires AllDigits(s) && s != [] && DigitsValue(s) == n && k <= |s|
    ensures ParseNumber(s[..|s| - k] + "." + s[|s| - k..]).Some?
    ensures ParseNumber(s[..|s| - k] + "." + s[|s| - k..]).value == n as real / Pow10(k) as real
  {
    var w, f := s[..|s| - k], s[|s| - k..];
    AllDigitsSplit(s, |s| - k);
    assert w + f == s && |f| == k;
    ParsePointed(w, f);
  }

  /** The numeral `s` of a natural `n` with a point put `k` digits from its end
      reads back as `n` divided by `10^k`, as `float` reads a price written in
      hundredths or thousandths. */
  lemma ParseScaled(n: nat, s: string, k: nat)
    requires s == Decimal(n) && k <= |s|
    ensures ParseNumber(s[..|s| - k] + "." + s[|s| - k..]).Some?
    ensures ParseNumber(s[..|s| - k] + "." + s[|s| - k..]).value == n as real / Pow10(k) as real
  {
    DecimalDigits(n);
    ParseSplit(s, n, k);
  }
}

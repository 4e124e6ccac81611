/** Amounts of an asset as text: a whole part, and a fraction of as many digits as the asset's precision. */
module AmountTexts {
  import opened Wrappers
  import opened ModularArithmetic

  const MAX_SHARE_SUPPLY: nat := 7319777577456890
  const INT64: int := 0x8000_0000_0000_0000
  /** Scaling by 10^19 does not fit in 64 bits. */
  const PRECISIONS: nat := 19

  // ---- digits ----

  predicate IsDigit(c: char) { '0' <= c <= '9' }

  function DigitValue(c: char): nat {
    if IsDigit(c) then c as int - '0' as int else 0
  }

  function DigitChar(d: nat): (c: char)
    requires d < 10
    ensures IsDigit(c) && DigitValue(c) == d
  {
    '0' + d as char
  }

  predicate AllDigits(s: string) { forall i :: 0 <= i < |s| ==> IsDigit(s[i]) }

  function Value(s: string): nat { ValueTo(s, |s|) }

  /** The value of the first `n` digits. */
  function ValueTo(s: string, n: nat): nat
    requires n <= |s|
  {
    if n == 0 then 0 else 10 * ValueTo(s, n - 1) + DigitValue(s[n - 1])
  }

  /** The decimal digits of a number, without leading zeros. */
  function Digits(n: nat): (s: string)
    ensures |s| > 0
  {
    if n < 10 then [DigitChar(n)] else Digits(n / 10) + [DigitChar(n % 10)]
  }

  lemma {:induction false} DigitsValue(n: nat)
    ensures AllDigits(Digits(n)) && Value(Digits(n)) == n
  {
    if n < 10 {
      ValueSnoc("", DigitChar(n));
      assert "" + [DigitChar(n)] == [DigitChar(n)];
    } else {
      DigitsValue(n / 10);
      ValueSnoc(Digits(n / 10), DigitChar(n % 10));
    }
  }

  function Exp10(n: nat): (r: nat)
    ensures r >= 1
  {
    if n == 0 then 1 else 10 * Exp10(n - 1)
  }

  /** A number times a power of ten. */
  function Scaled(n: int, precision: nat): int {
    if precision == 0 then n else 10 * Scaled(n, precision - 1)
  }

  lemma {:induction false} ScaledSign(n: nat, precision: nat)
    ensures Scaled(n, precision) >= 0
  {
    if precision > 0 { ScaledSign(n, precision - 1); }
  }

  lemma {:induction false} ScaledIs(n: int, precision: nat)
    ensures Scaled(n, precision) == n * Exp10(precision)
  {
    if precision > 0 { ScaledIs(n, precision - 1); }
  }

  function ToString(n: int): string {
    if n < 0 then "-" + Digits(-n) else Digits(n)
  }

  lemma ValueSnoc(s: string, c: char)
    ensures Value(s + [c]) == 10 * Value(s) + DigitValue(c)
    ensures AllDigits(s) && IsDigit(c) ==> AllDigits(s + [c])
  {
    ValueSame(s + [c], s, |s|);
  }

  lemma {:induction false} ValueSame(s: string, t: string, n: nat)
    requires n <= |s| && n <= |t| && forall i :: 0 <= i < n ==> s[i] == t[i]
    ensures ValueTo(s, n) == ValueTo(t, n)
  {
    if n > 0 { ValueSame(s, t, n - 1); }
  }

  lemma TenTimesPlus(e: nat, d: nat)
    requires e >= 1
    ensures (10 * e + d) / 10 == e + d / 10 && (10 * e + d) % 10 == d % 10 && 10 * e + d >= 10
  {
  }

  lemma DigitsSnoc(n: nat)
    requires n >= 10
    ensures Digits(n) == Digits(n / 10) + [DigitChar(n % 10)]
  {
  }

  /** The digits of 10^p + d are a 1 and the digits of d, padded to p of them. */
  lemma {:induction false} PaddedDigits(p: nat, d: nat)
    requires d < Exp10(p)
    ensures var s := Digits(Exp10(p) + d);
            |s| == p + 1 && s[0] == '1' && AllDigits(s[1..]) && Value(s[1..]) == d
  {
    if p == 0 {
      assert Digits(1) == [DigitChar(1)];
    } else {
      PaddedDigits(p - 1, d / 10);
      TenTimesPlus(Exp10(p - 1), d);
      DigitsSnoc(Exp10(p) + d);
      PaddedSnoc(Digits(Exp10(p - 1) + d / 10), d);
    }
  }

  lemma PaddedSnoc(front: string, d: nat)
    requires |front| > 0 && AllDigits(front[1..]) && Value(front[1..]) == d / 10
    ensures var s := front + [DigitChar(d % 10)];
            |s| == |front| + 1 && s[0] == front[0] && AllDigits(s[1..]) && Value(s[1..]) == d
  {
    ValueSnoc(front[1..], DigitChar(d % 10));
    assert (front + [DigitChar(d % 10)])[1..] == front[1..] + [DigitChar(d % 10)];
  }

  // ---- printing ----

  /** Division as the machine does it, towards zero. */
  function Quotient(a: int, b: nat): int
    requires b > 0
  {
    if a >= 0 then a / b else -(-a / b)
  }

  function Remainder(a: int, b: nat): int
    requires b > 0
  {
    if a >= 0 then a % b else -(-a % b)
  }

  function AmountToString(amount: int, precision: nat): string {
    Printed(Quotient(amount, Exp10(precision)), Remainder(amount, Exp10(precision)), Exp10(precision))
  }

  function Printed(whole: int, decimals: int, scale: nat): string {
    ToString(whole) + if decimals != 0 then "." + ToString(scale + decimals)[1..] else ""
  }

  method PrintAmount(amount: int, precision: nat) returns (result: string)
    requires precision < PRECISIONS
    ensures result == AmountToString(amount, precision)
  {
    var scale: nat := 1;
    for i := 0 to precision
      invariant scale == Exp10(i)
    {
      scale := 10 * scale;
    }
    result := ToString(Quotient(amount, scale));
    var decimals := Remainder(amount, scale);
    if decimals != 0 {
      result := result + "." + ToString(scale + decimals)[1..];
    }
  }

  // ---- parsing ----

  /** The place of a character, or the length of the string. */
  function Find(s: string, c: char): (k: nat)
    ensures k <= |s|
  {
    FindFrom(s, c, 0)
  }

  function FindFrom(s: string, c: char, i: nat): (k: nat)
    requires i <= |s|
    ensures i <= k <= |s|
    decreases |s| - i
  {
    if i == |s| || s[i] == c then i else FindFrom(s, c, i + 1)
  }

  lemma FindIs(s: string, c: char, k: nat)
    requires k <= |s| && (k < |s| ==> s[k] == c) && forall i :: 0 <= i < k ==> s[i] != c
    ensures Find(s, c) == k
  {
    FindFromIs(s, c, 0, k);
  }

  lemma {:induction false} FindFromIs(s: string, c: char, i: nat, k: nat)
    requires i <= k <= |s| && (k < |s| ==> s[k] == c) && forall j :: i <= j < k ==> s[j] != c
    ensures FindFrom(s, c, i) == k
    decreases k - i
  {
    if i < k { FindFromIs(s, c, i + 1, k); }
  }

  lemma FindMember(s: string, c: char)
    ensures c in s <==> Find(s, c) < |s|
  {
    FindFromMember(s, c, 0);
  }

  lemma {:induction false} FindFromMember(s: string, c: char, i: nat)
    requires i <= |s|
    ensures FindFrom(s, c, i) < |s| ==> s[FindFrom(s, c, i)] == c
    ensures FindFrom(s, c, i) == |s| ==> forall j :: i <= j < |s| ==> s[j] != c
    decreases |s| - i
  {
    if i < |s| && s[i] != c { FindFromMember(s, c, i + 1); }
  }

  /** The number of characters up to the last one that is not a zero. */
  function WithoutZeros(s: string): (k: nat)
    ensures k <= |s|
  {
    WithoutZerosTo(s, |s|)
  }

  function WithoutZerosTo(s: string, n: nat): (k: nat)
    requires n <= |s|
    ensures k <= n
  {
    if n == 0 || s[n - 1] != '0' then n else WithoutZerosTo(s, n - 1)
  }

  lemma WithoutZerosIs(s: string, k: nat)
    requires k <= |s| && (k > 0 ==> s[k - 1] != '0') && forall i :: k <= i < |s| ==> s[i] == '0'
    ensures WithoutZeros(s) == k
  {
    WithoutZerosToIs(s, |s|, k);
  }

  lemma {:induction false} WithoutZerosToIs(s: string, n: nat, k: nat)
    requires k <= n <= |s| && (k > 0 ==> s[k - 1] != '0') && forall i :: k <= i < n ==> s[i] == '0'
    ensures WithoutZerosTo(s, n) == k
  {
    if k < n { WithoutZerosToIs(s, n - 1, k); }
  }

  /** In a number with a point, zeros at its end, and a point at its end, are dropped. */
  function RemoveTrailingZeros(s: string): string {
    var point := Find(s, '.');
    if point == |s| then s
    else
      var k := WithoutZeros(s);
      if k == point + 1 then s[..point] else s[..k]
  }

  /** Digits, and at most one sign and one point besides those already seen, wherever they stand. */
  predicate Allowed(s: string, i: nat, negative: bool, decimal: bool)
    requires i <= |s|
    decreases |s| - i
  {
    i == |s|
    || if IsDigit(s[i]) then Allowed(s, i + 1, negative, decimal)
       else if s[i] == '-' && !negative then Allowed(s, i + 1, true, decimal)
       else s[i] == '.' && !decimal && Allowed(s, i + 1, negative, true)
  }

  predicate Negative(s: string) { Find(s, '-') < |s| }

  /** Where the digits end that stand at a place. */
  function DigitsEnd(s: string, i: nat): (end: nat)
    requires i <= |s|
    ensures i <= end <= |s|
    decreases |s| - i
  {
    if i == |s| || !IsDigit(s[i]) then i else DigitsEnd(s, i + 1)
  }

  /** stoll: a sign and leading digits; what follows is ignored. Fails without digits or beyond 64 bits. */
  function Stoll(s: string): Option<int> {
    var negative := |s| > 0 && s[0] == '-';
    var from := if negative then 1 else 0;
    var end := DigitsEnd(s, from);
    if end == from then None
    else
      var v := Value(s[from..end]);
      if negative then (if v <= INT64 then Some(0 - v) else None) else if v < INT64 then Some(v) else None
  }

  /** Arithmetic on shares throws beyond 64 bits. */
  function Safe(n: int): Option<int> {
    if -INT64 <= n < INT64 then Some(n) else None
  }

  function Zeros(n: nat): (s: string)
    ensures |s| == n
  {
    if n == 0 then "" else Zeros(n - 1) + "0"
  }

  function WholePart(s: string, precision: nat): Option<int> {
    var from := if Negative(s) then 1 else 0;
    var point := Find(s, '.');
    var lhs := if from + point <= |s| then s[from..from + point] else if from <= |s| then s[from..] else "";
    if |lhs| == 0 then Some(0)
    else
      var v :- Stoll(lhs);
      Safe(Scaled(v, precision))
  }

  function FractionPart(s: string, precision: nat): Option<int> {
    var point := Find(s, '.');
    if point == |s| then Some(0)
    else Fraction(s[point + 1..if point + 1 + precision <= |s| then point + 1 + precision else |s|], precision)
  }

  /** The digits after the point, with zeros up to the precision. */
  function Fraction(rhs: string, precision: nat): Option<int>
    requires |rhs| <= precision
  {
    if precision == 0 then Some(0) else Stoll(rhs + Zeros(precision - |rhs|))
  }

  function Total(whole: int, fraction: int, negative: bool): Option<int> {
    var satoshis :- Safe(whole + fraction);
    if satoshis > MAX_SHARE_SUPPLY then None else Some(if negative then -satoshis else satoshis)
  }

  function AmountFromString(text: string, precision: nat): Option<int> {
    var s := RemoveTrailingZeros(text);
    if !Allowed(s, 0, false, false) || precision >= PRECISIONS then None
    else
      var whole :- WholePart(s, precision);
      var fraction :- FractionPart(s, precision);
      Total(whole, fraction, Negative(s))
  }

  method StripZeros(text: string) returns (s: string)
    ensures s == RemoveTrailingZeros(text)
  {
    FindMember(text, '.');
    if '.' !in text {
      return text;
    }
    var k := |text|;
    while k > 0 && text[k - 1] == '0'
      invariant 0 <= k <= |text|
      invariant forall i :: k <= i < |text| ==> text[i] == '0'
    {
      k := k - 1;
    }
    WithoutZerosIs(text, k);
    s := if k == Find(text, '.') + 1 then text[..k - 1] else text[..k];
  }

  method Scan(s: string) returns (allowed: bool, negative: bool, decimal: bool)
    ensures allowed <==> Allowed(s, 0, false, false)
    ensures allowed ==> (negative <==> Negative(s)) && (decimal <==> Find(s, '.') < |s|)
  {
    negative, decimal := false, false;
    for i := 0 to |s|
      invariant Allowed(s, 0, false, false) == Allowed(s, i, negative, decimal)
      invariant negative <==> '-' in s[..i]
      invariant decimal <==> '.' in s[..i]
    {
      assert s[..i + 1] == s[..i] + [s[i]];
      if IsDigit(s[i]) {
      } else if s[i] == '-' && !negative {
        negative := true;
      } else if s[i] == '.' && !decimal {
        decimal := true;
      } else {
        return false, negative, decimal;
      }
    }
    assert s[..|s|] == s;
    FindMember(s, '-');
    FindMember(s, '.');
    allowed := true;
  }

  method ParseFraction(text: string, precision: nat) returns (fraction: Option<int>)
    requires |text| <= precision
    ensures fraction == Fraction(text, precision)
  {
    var rhs := text;
    while |rhs| < precision
      invariant |text| <= |rhs| <= precision
      invariant rhs == text + Zeros(|rhs| - |text|)
    {
      rhs := rhs + "0";
    }
    if |rhs| == 0 { return Some(0); }
    fraction := Stoll(rhs);
  }

  method ParseAmount(text: string, precision: nat) returns (result: Option<int>)
    ensures result == AmountFromString(text, precision)
  {
    var s := StripZeros(text);
    var allowed, negative, decimal := Scan(s);
    if !allowed || precision >= PRECISIONS { return None; }
    var whole := WholePart(s, precision);
    if whole.None? { return None; }
    var fraction := Some(0);
    if decimal {
      var point := Find(s, '.');
      fraction := ParseFraction(s[point + 1..if point + 1 + precision <= |s| then point + 1 + precision else |s|], precision);
      if fraction.None? { return None; }
    }
    result := Total(whole.value, fraction.value, negative);
  }

  // ---- the round trip ----

  lemma NoSign(s: string)
    requires AllDigits(s)
    ensures !Negative(s) && Find(s, '.') == |s| && Allowed(s, 0, false, false)
  {
    FindIs(s, '.', |s|);
    FindIs(s, '-', |s|);
    PlainAllowed(s, 0, false, false);
  }

  lemma {:induction false} PlainAllowed(s: string, i: nat, negative: bool, decimal: bool)
    requires i <= |s| && forall j :: i <= j < |s| ==> IsDigit(s[j])
    ensures Allowed(s, i, negative, decimal)
    decreases |s| - i
  {
    if i < |s| { PlainAllowed(s, i + 1, negative, decimal); }
  }

  lemma {:induction false} PointAllowed(s: string, i: nat, point: nat, negative: bool)
    requires i <= point < |s| && s[point] == '.' && forall j :: i <= j < |s| && j != point ==> IsDigit(s[j])
    ensures Allowed(s, i, negative, false)
    decreases point - i
  {
    if i < point { PointAllowed(s, i + 1, point, negative); } else { PlainAllowed(s, i + 1, negative, true); }
  }

  lemma {:induction false} DigitsEndIs(s: string, i: nat, end: nat)
    requires i <= end <= |s| && (end < |s| ==> !IsDigit(s[end])) && forall j :: i <= j < end ==> IsDigit(s[j])
    ensures DigitsEnd(s, i) == end
    decreases end - i
  {
    if i < end { DigitsEndIs(s, i + 1, end); }
  }

  lemma StollDigits(s: string)
    requires AllDigits(s) && |s| > 0 && Value(s) < INT64
    ensures Stoll(s) == Some(Value(s))
  {
    DigitsEndIs(s, 0, |s|);
    assert s[0..|s|] == s;
  }

  /** Whole amounts are printed without a point. */
  lemma WholeRoundTrip(q: nat, precision: nat, whole: nat)
    requires precision < PRECISIONS && whole == Scaled(q, precision) && whole <= MAX_SHARE_SUPPLY && q <= MAX_SHARE_SUPPLY
    ensures AmountFromString(Digits(q), precision) == Some(whole)
  {
    var s := Digits(q);
    DigitsValue(q);
    NoSign(s);
    StollDigits(s);
    assert s[0..0 + |s|] == s;
  }

  /** A fraction without the zeros at its end, and those zeros, is the fraction. */
  lemma Restored(d: string)
    ensures d == d[..WithoutZeros(d)] + Zeros(|d| - WithoutZeros(d))
  {
    RestoredTo(d, |d|);
    assert d[..|d|] == d;
  }

  lemma {:induction false} RestoredTo(d: string, n: nat)
    requires n <= |d|
    ensures d[..n] == d[..WithoutZerosTo(d, n)] + Zeros(n - WithoutZerosTo(d, n))
  {
    var k := WithoutZerosTo(d, n);
    if k == n {
      NoZeros(d[..k]);
    } else {
      RestoredTo(d, n - 1);
      ZerosSnoc(d[..k], n - k);
      assert d[..n] == d[..n - 1] + ['0'];
    }
  }

  lemma AllZerosValue(d: string)
    requires forall i :: 0 <= i < |d| ==> d[i] == '0'
    ensures Value(d) == 0
  {
    AllZerosTo(d, |d|);
  }

  lemma {:induction false} AllZerosTo(d: string, n: nat)
    requires n <= |d| && forall i :: 0 <= i < n ==> d[i] == '0'
    ensures ValueTo(d, n) == 0
  {
    if n > 0 { AllZerosTo(d, n - 1); }
  }

  lemma PointFound(w: string, f: string)
    requires AllDigits(w)
    ensures Find(w + "." + f, '.') == |w|
  {
    var s := w + "." + f;
    assert s[|w|] == '.' && s[..|w|] == w;
    assert forall i :: 0 <= i < |w| ==> s[i] == w[i];
    FindIs(s, '.', |w|);
  }

  lemma ZerosAtEnd(s: string)
    ensures var k := WithoutZeros(s); (k > 0 ==> s[k - 1] != '0') && forall i :: k <= i < |s| ==> s[i] == '0'
  {
    ZerosAtEndTo(s, |s|);
  }

  lemma {:induction false} ZerosAtEndTo(s: string, n: nat)
    requires n <= |s|
    ensures var k := WithoutZerosTo(s, n); (k > 0 ==> s[k - 1] != '0') && forall i :: k <= i < n ==> s[i] == '0'
  {
    if n > 0 && s[n - 1] == '0' { ZerosAtEndTo(s, n - 1); }
  }

  /** Stripping cuts the zeros at the end of the fraction, and leaves its digits. */
  lemma Stripped(w: string, d: string)
    requires AllDigits(w) && AllDigits(d) && Value(d) > 0
    ensures var k := WithoutZeros(d);
            k > 0 && RemoveTrailingZeros(w + "." + d) == w + "." + d[..k]
  {
    var s := w + "." + d;
    var k := WithoutZeros(d);
    ZerosAtEnd(d);
    if k == 0 { AllZerosValue(d); }
    PointFound(w, d);
    var n := |w| + 1 + k;
    assert s[n - 1] == d[k - 1];
    forall i | n <= i < |s| ensures s[i] == '0' { assert s[i] == d[i - |w| - 1]; }
    WithoutZerosIs(s, n);
    assert s[..n] == w + "." + d[..k];
  }

  lemma AllowedNumber(w: string, f: string)
    requires AllDigits(w) && AllDigits(f)
    ensures Allowed(w + "." + f, 0, false, false)
  {
    var s := w + "." + f;
    forall j | 0 <= j < |s| && j != |w| ensures IsDigit(s[j]) {
      if j < |w| { assert s[j] == w[j]; } else { assert s[j] == f[j - |w| - 1]; }
    }
    PointAllowed(s, 0, |w|, false);
  }

  lemma UnsignedNumber(w: string, f: string)
    requires AllDigits(w) && AllDigits(f)
    ensures !Negative(w + "." + f)
  {
    var s := w + "." + f;
    forall i | 0 <= i < |s| ensures s[i] != '-' {
      if i < |w| { assert s[i] == w[i]; } else if i > |w| { assert s[i] == f[i - |w| - 1]; }
    }
    FindIs(s, '-', |s|);
  }

  lemma Slices(w: string, f: string)
    ensures var s := w + "." + f; |s| == |w| + 1 + |f| && s[0..0 + |w|] == w && s[|w| + 1..|s|] == f
  {
  }

  lemma WholeOf(w: string, f: string, precision: nat, whole: nat)
    requires AllDigits(w) && AllDigits(f) && |w| > 0 && Value(w) < INT64 && whole == Scaled(Value(w), precision) && whole < INT64
    ensures WholePart(w + "." + f, precision) == Some(whole)
  {
    UnsignedNumber(w, f);
    PointFound(w, f);
    Slices(w, f);
    StollDigits(w);
  }

  lemma FractionIs(f: string, d: string, precision: nat)
    requires AllDigits(d) && 0 < |f| <= precision && d == f + Zeros(precision - |f|) && Value(d) < INT64
    ensures Fraction(f, precision) == Some(Value(d))
  {
    StollDigits(d);
  }

  lemma FractionOf(w: string, f: string, precision: nat)
    requires AllDigits(w) && |f| <= precision
    ensures FractionPart(w + "." + f, precision) == Fraction(f, precision)
  {
    var s := w + "." + f;
    PointFound(w, f);
    Slices(w, f);
    assert |s| <= |w| + 1 + precision;
  }

  /** The steps of parsing, one by one. */
  lemma Assembled(text: string, s: string, precision: nat, whole: nat, fraction: nat)
    requires precision < PRECISIONS && RemoveTrailingZeros(text) == s && Allowed(s, 0, false, false) && !Negative(s)
    requires WholePart(s, precision) == Some(whole) && FractionPart(s, precision) == Some(fraction)
    requires whole + fraction <= MAX_SHARE_SUPPLY
    ensures AmountFromString(text, precision) == Some(whole + fraction)
  {
  }

  /** A number without zeros at its end parses into its parts. */
  lemma StrippedParses(w: string, f: string, d: string, precision: nat, whole: nat)
    requires AllDigits(w) && |w| > 0 && AllDigits(f) && AllDigits(d) && 0 < |f| <= precision < PRECISIONS
    requires d == f + Zeros(precision - |f|) && Value(w) < INT64 && whole == Scaled(Value(w), precision)
    requires whole + Value(d) <= MAX_SHARE_SUPPLY
    ensures var s := w + "." + f;
            && Allowed(s, 0, false, false) && !Negative(s)
            && WholePart(s, precision) == Some(whole) && FractionPart(s, precision) == Some(Value(d))
  {
    AllowedNumber(w, f);
    UnsignedNumber(w, f);
    WholeOf(w, f, precision, whole);
    FractionOf(w, f, precision);
    FractionIs(f, d, precision);
  }

  lemma FractionRoundTrip(w: string, f: string, precision: nat, whole: nat)
    requires AllDigits(w) && |w| > 0 && AllDigits(f) && |f| == precision && precision < PRECISIONS && Value(f) > 0
    requires Value(w) < INT64 && whole == Scaled(Value(w), precision) && whole + Value(f) <= MAX_SHARE_SUPPLY
    ensures AmountFromString(w + "." + f, precision) == Some(whole + Value(f))
  {
    var k := WithoutZeros(f);
    Stripped(w, f);
    Restored(f);
    StrippedParses(w, f[..k], f, precision, whole);
    Assembled(w + "." + f, w + "." + f[..k], precision, whole, Value(f));
  }

  lemma Joined(w: string, f: string)
    ensures w + ("." + f) == w + "." + f && w + "" == w
  {
  }

  lemma SplitAmount(amount: nat, scale: nat) returns (q: nat, d: nat, whole: nat)
    requires scale > 0
    ensures q == Quotient(amount, scale) && d == Remainder(amount, scale)
    ensures whole == q * scale && amount == whole + d && d < scale && q <= amount
  {
    QuotientBelow(amount, scale);
    q, d := amount / scale, amount % scale;
    whole := q * scale;
  }

  /** A number with a fraction is printed as digits, a point, and as many digits as the precision. */
  lemma PrintedPoint(q: nat, d: nat, scale: nat)
    requires d > 0
    ensures Printed(q, d, scale) == Digits(q) + "." + Digits(scale + d)[1..]
  {
    Joined(Digits(q), Digits(scale + d)[1..]);
  }

  lemma PrintedWhole(q: nat, scale: nat)
    ensures Printed(q, 0, scale) == Digits(q)
  {
    Joined(Digits(q), "");
  }

  lemma PrintedRoundTrip(q: nat, d: nat, precision: nat, whole: nat)
    requires precision < PRECISIONS && d < Exp10(precision) && whole == Scaled(q, precision)
    requires whole + d <= MAX_SHARE_SUPPLY && q <= MAX_SHARE_SUPPLY
    ensures AmountFromString(Printed(q, d, Exp10(precision)), precision) == Some(whole + d)
  {
    if d == 0 {
      WholePrinted(q, precision, whole);
    } else {
      FractionPrinted(q, d, precision, whole);
    }
  }

  lemma WholePrinted(q: nat, precision: nat, whole: nat)
    requires precision < PRECISIONS && whole == Scaled(q, precision) && whole <= MAX_SHARE_SUPPLY && q <= MAX_SHARE_SUPPLY
    ensures AmountFromString(Printed(q, 0, Exp10(precision)), precision) == Some(whole)
  {
    PrintedWhole(q, Exp10(precision));
    WholeRoundTrip(q, precision, whole);
  }

  lemma FractionPrinted(q: nat, d: nat, precision: nat, whole: nat)
    requires precision < PRECISIONS && 0 < d < Exp10(precision) && whole == Scaled(q, precision)
    requires whole + d <= MAX_SHARE_SUPPLY && q <= MAX_SHARE_SUPPLY
    ensures AmountFromString(Printed(q, d, Exp10(precision)), precision) == Some(whole + d)
  {
    PrintedPoint(q, d, Exp10(precision));
    FractionParsed(q, d, precision, whole);
  }

  lemma PaddedFraction(precision: nat, d: nat)
    requires d < Exp10(precision)
    ensures var f := Digits(Exp10(precision) + d)[1..]; |f| == precision && AllDigits(f) && Value(f) == d
  {
    PaddedDigits(precision, d);
  }

  lemma FractionParsed(q: nat, d: nat, precision: nat, whole: nat)
    requires precision < PRECISIONS && 0 < d < Exp10(precision) && whole == Scaled(q, precision)
    requires whole + d <= MAX_SHARE_SUPPLY && q <= MAX_SHARE_SUPPLY
    ensures AmountFromString(Digits(q) + "." + Digits(Exp10(precision) + d)[1..], precision) == Some(whole + d)
  {
    PaddedFraction(precision, d);
    DigitsValue(q);
    FractionRoundTrip(Digits(q), Digits(Exp10(precision) + d)[1..], precision, whole);
  }

  lemma AmountParts(amount: nat, precision: nat) returns (q: nat, d: nat)
    ensures q == Quotient(amount, Exp10(precision)) && d == Remainder(amount, Exp10(precision))
    ensures d < Exp10(precision) && q <= amount && amount == Scaled(q, precision) + d
  {
    var whole;
    q, d, whole := SplitAmount(amount, Exp10(precision));
    ScaledIs(q, precision);
  }

  /** Every amount up to the maximum supply, printed in any precision, is parsed back. */
  lemma RoundTrip(amount: nat, precision: nat)
    requires amount <= MAX_SHARE_SUPPLY && precision < PRECISIONS
    ensures AmountFromString(AmountToString(amount, precision), precision) == Some(amount)
  {
    var q, d := AmountParts(amount, precision);
    PrintedRoundTrip(q, d, precision, amount - d);
  }

  // ---- negative amounts ----

  /** The exponent of a power of ten can be split. */
  lemma {:induction false} Exp10Sum(a: nat, b: nat)
    ensures Exp10(a + b) == Exp10(a) * Exp10(b)
  {
    if a > 0 { Exp10Sum(a - 1, b); }
  }

  lemma ValueHead(s: string)
    requires |s| > 0
    ensures Value(s) == DigitValue(s[0]) * Exp10(|s| - 1) + Value(s[1..])
  {
    ValueHeadTo(s, |s|);
  }

  lemma {:induction false} ValueHeadTo(s: string, n: nat)
    requires 0 < n <= |s|
    ensures ValueTo(s, n) == DigitValue(s[0]) * Exp10(n - 1) + ValueTo(s[1..], n - 1)
  {
    if n > 1 {
      ValueHeadTo(s, n - 1);
      ProductShift(DigitValue(s[0]), Exp10(n - 2));
    }
  }

  lemma ProductShift(c: nat, e: nat)
    ensures 10 * (c * e) == c * (10 * e)
  {
  }

  lemma {:induction false} LeadingDigit(n: nat)
    requires n > 0
    ensures 1 <= DigitValue(Digits(n)[0]) <= 9
  {
    if n >= 10 { LeadingDigit(n / 10); }
  }

  lemma {:induction false} ValueZeros(s: string, k: nat)
    ensures Value(s + Zeros(k)) == Scaled(Value(s), k)
  {
    if k == 0 {
      NoZeros(s);
    } else {
      ValueZeros(s, k - 1);
      ZerosSnoc(s, k);
      ValueSnoc(s + Zeros(k - 1), '0');
    }
  }

  lemma NoZeros(s: string)
    ensures s + Zeros(0) == s
  {
  }

  lemma ZerosSnoc(s: string, k: nat)
    requires k > 0
    ensures s + Zeros(k) == (s + Zeros(k - 1)) + ['0']
  {
  }

  lemma {:induction false} ScaledTwice(n: int, a: nat, b: nat)
    ensures Scaled(Scaled(n, a), b) == Scaled(n, a + b)
    decreases b
  {
    if b > 0 { ScaledTwice(n, a, b - 1); }
  }

  /** One more than a multiple of ten shares no factor with a power of ten. */
  lemma {:induction false} DividesPastTens(v: int, a: int, k: nat, x: int) returns (u: int)
    requires v * (10 * a + 1) == Exp10(k) * x
    ensures x == u * (10 * a + 1)
    decreases k
  {
    if k == 0 {
      u := v;
    } else {
      var y := Exp10(k - 1) * x;
      SameTens(v, a, Exp10(k - 1), x);
      var w := TenOf(v, v * a, y);
      OneTenth(v, w, 10 * a + 1, y);
      u := DividesPastTens(w, a, k - 1, x);
    }
  }

  lemma SameTens(v: int, a: int, e: nat, x: int)
    ensures v * (10 * a + 1) == 10 * (v * a) + v && (10 * e) * x == 10 * (e * x)
  {
  }

  lemma OneTenth(v: int, w: int, b: int, y: int)
    requires v == 10 * w && v * b == 10 * y
    ensures w * b == y
  {
    assert (10 * w) * b == 10 * (w * b);
  }

  lemma TenOf(v: int, m: int, y: int) returns (w: int)
    requires 10 * m + v == 10 * y
    ensures v == 10 * w
  {
    w := y - m;
  }

  /** The cut digits with zeros appended are never the fraction that was meant. */
  lemma WrongFraction(p: nat, k: nat, c: nat, v: nat, d: nat)
    requires k < p && 1 <= c <= 9 && d > 0 && Exp10(p) - d == c * Exp10(k) + v
    ensures v * Exp10(p - k) != d
  {
    if v * Exp10(p - k) == d {
      var a, b := Exp10(p - k - 1), Exp10(k);
      Exp10Sum(p - k, k);
      TailEquation(a, b, c, v, d);
      var u := DividesPastTens(v, a, k, 10 * a - c);
      NoMultipleBetween(u, 10 * a + 1, 10 * a - c);
    }
  }

  lemma TailEquation(a: nat, b: nat, c: nat, v: nat, d: nat)
    requires (10 * a) * b - d == c * b + v && v * (10 * a) == d
    ensures v * (10 * a + 1) == b * (10 * a - c)
  {
    Distribute(10 * a, 1, v);
    Distribute(10 * a, 0 - c, b);
  }

  lemma NoMultipleBetween(u: int, m: nat, x: int)
    requires 0 < x < m
    ensures x != u * m
  {
    if u >= 1 { ProductOrder(1, u, m); }
    if u <= 0 { ProductOrder(u, 0, m); }
  }

  /** What is left of the digits of a number below a power of ten when the first one is erased. */
  lemma CutDigits(n: nat, p: nat) returns (c: nat, x: string)
    requires 0 < n < Exp10(p)
    ensures x == Digits(n)[1..] && AllDigits(x) && |x| < p
    ensures 1 <= c <= 9 && n == c * Exp10(|x|) + Value(x)
  {
    var s := Digits(n);
    DigitsValue(n);
    LeadingDigit(n);
    ValueHead(s);
    c, x := DigitValue(s[0]), s[1..];
    ProductOrder(1, c, Exp10(|x|));
    if |x| >= p {
      Exp10Sum(p, |x| - p);
      ProductOrder(1, Exp10(|x| - p), Exp10(p));
    }
  }

  /** Digits after a sign. */
  lemma MinusAt(s: string, w: string)
    requires s == "-" + w && AllDigits(w)
    ensures Negative(s) && Find(s, '.') == |s| && Allowed(s, 0, false, false)
  {
    forall j | 1 <= j < |s| ensures IsDigit(s[j]) && s[j] != '.' {
      assert s[j] == w[j - 1];
    }
    FindIs(s, '-', 0);
    FindIs(s, '.', |s|);
    PlainAllowed(s, 1, true, false);
  }

  /** Digits with a point after a sign. */
  lemma MinusPointAt(s: string, w: string, f: string)
    requires s == "-" + (w + "." + f) && AllDigits(w) && AllDigits(f)
    ensures Negative(s) && Find(s, '.') == |w| + 1 && Allowed(s, 0, false, false)
  {
    forall j | 1 <= j < |s| && j != |w| + 1 ensures IsDigit(s[j]) && s[j] != '.' {
      if j < |w| + 1 { assert s[j] == w[j - 1]; } else { assert s[j] == f[j - |w| - 2]; }
    }
    FindIs(s, '-', 0);
    FindIs(s, '.', |w| + 1);
    PointAllowed(s, 1, |w| + 1, true);
  }

  /** The point after the digits is ignored. */
  lemma StollPoint(w: string)
    requires AllDigits(w) && |w| > 0 && Value(w) < INT64
    ensures Stoll(w + ".") == Some(Value(w))
  {
    var s := w + ".";
    forall j | 0 <= j < |w| ensures IsDigit(s[j]) { assert s[j] == w[j]; }
    DigitsEndIs(s, 0, |w|);
    assert s[0..|w|] == w;
  }

  /** A whole number after a sign. */
  lemma MinusWhole(w: string, precision: nat)
    requires AllDigits(w) && |w| > 0 && Value(w) < INT64
    ensures var s := "-" + w;
            && RemoveTrailingZeros(s) == s && Allowed(s, 0, false, false) && Negative(s)
            && WholePart(s, precision) == Safe(Scaled(Value(w), precision)) && FractionPart(s, precision) == Some(0)
  {
    MinusAt("-" + w, w);
    StollDigits(w);
    assert ("-" + w)[1..] == w;
  }

  /** A number with a fraction after a sign: the whole part is read with the point, which is ignored. */
  lemma MinusPoint(w: string, f: string, precision: nat)
    requires AllDigits(w) && AllDigits(f) && 0 < |f| <= precision && |w| > 0 && Value(w) < INT64
    ensures var s := "-" + (w + "." + f);
            && Allowed(s, 0, false, false) && Negative(s)
            && WholePart(s, precision) == Safe(Scaled(Value(w), precision)) && FractionPart(s, precision) == Fraction(f, precision)
  {
    var s := "-" + (w + "." + f);
    MinusPointAt(s, w, f);
    StollPoint(w);
    MinusSlices(s, w, f);
    assert |s| <= |w| + 2 + precision;
  }

  lemma MinusSlices(s: string, w: string, f: string)
    requires s == "-" + (w + "." + f)
    ensures |s| == |w| + 2 + |f| && s[1..1 + (|w| + 1)] == w + "." && s[|w| + 2..|s|] == f
  {
  }

  lemma MinusStripped(w: string, x: string)
    requires AllDigits(w) && AllDigits(x)
    ensures var k := WithoutZeros(x);
            RemoveTrailingZeros("-" + (w + "." + x)) == if k == 0 then "-" + w else "-" + (w + "." + x[..k])
  {
    var s := "-" + (w + "." + x);
    var k := WithoutZeros(x);
    ZerosAtEnd(x);
    MinusPointAt(s, w, x);
    var n := |w| + 2 + k;
    assert s[n - 1] == if k == 0 then '.' else x[k - 1];
    forall i | n <= i < |s| ensures s[i] == '0' { assert s[i] == x[i - |w| - 2]; }
    WithoutZerosIs(s, n);
    MinusPrefix(s, w, x, k);
  }

  lemma MinusPrefix(s: string, w: string, x: string, k: nat)
    requires s == "-" + (w + "." + x) && k <= |x|
    ensures s[..|w| + 2 + k] == "-" + (w + "." + x[..k]) && s[..|w| + 1] == "-" + w
  {
  }

  lemma {:induction false} ZerosAreDigits(n: nat)
    ensures AllDigits(Zeros(n))
  {
    if n > 0 { ZerosAreDigits(n - 1); }
  }

  /** What cut digits mean as a fraction. */
  function Tail(x: string, precision: nat): nat
    requires |x| <= precision
  {
    ScaledSign(Value(x), precision - |x|);
    Scaled(Value(x), precision - |x|)
  }

  /** The digits without the zeros at their end mean the same as a fraction. */
  lemma TailOf(x: string, precision: nat)
    requires |x| <= precision
    ensures Tail(x, precision) == Scaled(Value(x[..WithoutZeros(x)]), precision - WithoutZeros(x))
  {
    var k := WithoutZeros(x);
    Restored(x);
    ValueZeros(x[..k], |x| - k);
    ScaledTwice(Value(x[..k]), |x| - k, precision - |x|);
  }

  lemma FractionValue(f: string, precision: nat)
    requires AllDigits(f) && 0 < |f| <= precision
    ensures Fraction(f, precision).Some? ==> Fraction(f, precision).value == Scaled(Value(f), precision - |f|)
  {
    ZerosAreDigits(precision - |f|);
    StollMeans(f + Zeros(precision - |f|));
    ValueZeros(f, precision - |f|);
  }

  lemma StollMeans(s: string)
    requires AllDigits(s) && |s| > 0
    ensures Stoll(s).Some? ==> Stoll(s).value == Value(s)
  {
    DigitsEndIs(s, 0, |s|);
    assert s[0..|s|] == s;
  }

  /** A negative amount with a fraction, of at least one whole unit, is never parsed back. */
  lemma MinusFractionLost(q: nat, d: nat, precision: nat)
    requires 0 < q < INT64 && 0 < d < Exp10(precision)
    ensures AmountFromString("-" + (Digits(q) + "." + Digits(Exp10(precision) - d)[1..]), precision) != Some(0 - (Scaled(q, precision) + d))
  {
    var x := WrongTail(d, precision);
    DigitsValue(q);
    MinusFractionParsed(Digits(q), x, precision);
  }

  lemma WrongTail(d: nat, precision: nat) returns (x: string)
    requires 0 < d < Exp10(precision)
    ensures x == Digits(Exp10(precision) - d)[1..] && AllDigits(x) && |x| < precision && Tail(x, precision) != d
  {
    var c;
    c, x := CutDigits(Exp10(precision) - d, precision);
    ScaledIs(Value(x), precision - |x|);
    WrongFraction(precision, |x|, c, Value(x), d);
  }

  lemma MinusFractionParsed(w: string, x: string, precision: nat)
    requires AllDigits(w) && |w| > 0 && Value(w) < INT64 && AllDigits(x) && |x| < precision
    ensures var r := AmountFromString("-" + (w + "." + x), precision);
            r.Some? ==> r.value == 0 - (Scaled(Value(w), precision) + Tail(x, precision))
  {
    if WithoutZeros(x) == 0 {
      MinusWithoutTail(w, x, precision);
    } else {
      MinusWithTail(w, x, precision);
    }
  }

  lemma MinusWithoutTail(w: string, x: string, precision: nat)
    requires AllDigits(w) && |w| > 0 && Value(w) < INT64 && AllDigits(x) && |x| < precision && WithoutZeros(x) == 0
    ensures var r := AmountFromString("-" + (w + "." + x), precision);
            r.Some? ==> r.value == 0 - (Scaled(Value(w), precision) + Tail(x, precision))
  {
    MinusStripped(w, x);
    MinusWhole(w, precision);
    NoTail(x, precision);
    MinusAssembled("-" + (w + "." + x), "-" + w, precision, Scaled(Value(w), precision), 0);
  }

  lemma MinusWithTail(w: string, x: string, precision: nat)
    requires AllDigits(w) && |w| > 0 && Value(w) < INT64 && AllDigits(x) && |x| < precision && WithoutZeros(x) > 0
    ensures var r := AmountFromString("-" + (w + "." + x), precision);
            r.Some? ==> r.value == 0 - (Scaled(Value(w), precision) + Tail(x, precision))
  {
    var f := x[..WithoutZeros(x)];
    MinusStripped(w, x);
    MinusPoint(w, f, precision);
    TailOf(x, precision);
    FractionValue(f, precision);
    MinusAssembled("-" + (w + "." + x), "-" + (w + "." + f), precision, Scaled(Value(w), precision), Tail(x, precision));
  }

  lemma NoTail(x: string, precision: nat)
    requires |x| <= precision && WithoutZeros(x) == 0
    ensures Tail(x, precision) == 0
  {
    ZerosAtEnd(x);
    AllZerosValue(x);
    ScaledIs(0, precision - |x|);
  }

  /** The steps of parsing a negative amount, one by one. */
  lemma MinusAssembled(text: string, s: string, precision: nat, whole: int, fraction: int)
    requires RemoveTrailingZeros(text) == s && Negative(s)
    requires WholePart(s, precision).Some? ==> WholePart(s, precision).value == whole
    requires FractionPart(s, precision).Some? ==> FractionPart(s, precision).value == fraction
    ensures var r := AmountFromString(text, precision); r.Some? ==> r.value == 0 - (whole + fraction)
  {
  }

  lemma UnsignedStoll(s: string)
    requires '-' !in s
    ensures Stoll(s).Some? ==> Stoll(s).value >= 0
  {
  }

  /** Without a sign nothing negative is parsed. */
  lemma UnsignedParse(text: string, precision: nat)
    requires '-' !in text
    ensures AmountFromString(text, precision).Some? ==> AmountFromString(text, precision).value >= 0
  {
    var s := RemoveTrailingZeros(text);
    FindMember(s, '-');
    UnsignedWhole(s, precision);
    UnsignedFraction(s, precision);
  }

  lemma UnsignedWhole(s: string, precision: nat)
    requires '-' !in s
    ensures WholePart(s, precision).Some? ==> WholePart(s, precision).value >= 0
  {
    FindMember(s, '-');
    var lhs := s[..Find(s, '.')];
    assert s[0..0 + Find(s, '.')] == lhs;
    UnsignedStoll(lhs);
    if Stoll(lhs).Some? { ScaledSign(Stoll(lhs).value, precision); }
  }

  lemma UnsignedFraction(s: string, precision: nat)
    requires '-' !in s
    ensures FractionPart(s, precision).Some? ==> FractionPart(s, precision).value >= 0
  {
    var point := Find(s, '.');
    if point < |s| {
      var rhs := s[point + 1..if point + 1 + precision <= |s| then point + 1 + precision else |s|];
      ZerosAreDigits(precision - |rhs|);
      UnsignedStoll(rhs + Zeros(precision - |rhs|));
    }
  }

  /** The sign is lost where the whole part is zero. */
  lemma SignLost(d: nat, precision: nat)
    requires 0 < d < Exp10(precision)
    ensures AmountFromString(Digits(0) + "." + Digits(Exp10(precision) - d)[1..], precision) != Some(-(d as int))
  {
    var c, x := CutDigits(Exp10(precision) - d, precision);
    UnsignedParse(Digits(0) + "." + x, precision);
  }

  lemma MinusWholeRoundTrip(q: nat, precision: nat, whole: nat)
    requires precision < PRECISIONS && whole == Scaled(q, precision) && whole <= MAX_SHARE_SUPPLY && q <= MAX_SHARE_SUPPLY
    ensures AmountFromString("-" + Digits(q), precision) == Some(0 - whole)
  {
    DigitsValue(q);
    MinusWhole(Digits(q), precision);
  }

  lemma PrintedMinusWhole(q: nat, scale: nat)
    requires q > 0
    ensures Printed(0 - q, 0, scale) == "-" + Digits(q)
  {
    assert "-" + Digits(q) + "" == "-" + Digits(q);
  }

  lemma PrintedMinusNothing(d: nat, scale: nat)
    requires 0 < d < scale
    ensures Printed(0, 0 - d, scale) == Digits(0) + "." + Digits(scale - d)[1..]
  {
    Joined(Digits(0), Digits(scale - d)[1..]);
  }

  lemma PrintedMinusPoint(q: nat, d: nat, scale: nat)
    requires q > 0 && 0 < d < scale
    ensures Printed(0 - q, 0 - d, scale) == "-" + (Digits(q) + "." + Digits(scale - d)[1..])
  {
    assert "-" + Digits(q) + ("." + Digits(scale - d)[1..]) == "-" + (Digits(q) + "." + Digits(scale - d)[1..]);
  }

  /**
   * Which amounts are parsed back from what is printed for them, in any precision: those that are not negative, and the
   * negative ones without a fraction.
   */
  lemma RoundTripExactly(amount: int, precision: nat)
    requires 0 - MAX_SHARE_SUPPLY <= amount <= MAX_SHARE_SUPPLY && precision < PRECISIONS
    ensures AmountFromString(AmountToString(amount, precision), precision) == Some(amount)
            <==> amount >= 0 || amount % Exp10(precision) == 0
  {
    if amount >= 0 {
      RoundTrip(amount, precision);
    } else {
      var q, d := NegativeParts(amount, precision);
      NegativeExactly(amount, precision, q, d);
    }
  }

  lemma NegativeExactly(amount: int, precision: nat, q: nat, d: nat)
    requires 0 - MAX_SHARE_SUPPLY <= amount < 0 && precision < PRECISIONS
    requires d < Exp10(precision) && q <= 0 - amount && amount == 0 - (Scaled(q, precision) + d) && q + d > 0
    requires Quotient(amount, Exp10(precision)) == 0 - q && Remainder(amount, Exp10(precision)) == 0 - d
    ensures AmountFromString(AmountToString(amount, precision), precision) == Some(amount) <==> d == 0
  {
    PrintedExactly(q, d, precision);
  }

  lemma NegativeParts(amount: int, precision: nat) returns (q: nat, d: nat)
    requires amount < 0
    ensures d < Exp10(precision) && q <= 0 - amount && amount == 0 - (Scaled(q, precision) + d) && q + d > 0
    ensures Quotient(amount, Exp10(precision)) == 0 - q && Remainder(amount, Exp10(precision)) == 0 - d
    ensures amount % Exp10(precision) == 0 <==> d == 0
  {
    q, d := AmountParts(0 - amount, precision);
    ScaledIs(q, precision);
    NegatedMod(0 - amount, q, d, Exp10(precision));
  }

  lemma PrintedExactly(q: nat, d: nat, precision: nat)
    requires precision < PRECISIONS && d < Exp10(precision) && q + d > 0
    requires Scaled(q, precision) + d <= MAX_SHARE_SUPPLY && q <= MAX_SHARE_SUPPLY
    ensures AmountFromString(Printed(0 - q, 0 - d, Exp10(precision)), precision) == Some(0 - (Scaled(q, precision) + d)) <==> d == 0
  {
    ScaledSign(q, precision);
    if d == 0 {
      MinusWholePrinted(q, precision, Scaled(q, precision));
    } else if q == 0 {
      NothingPrinted(d, precision);
      ScaledIs(0, precision);
    } else {
      MinusPointPrinted(q, d, precision);
    }
  }

  lemma MinusWholePrinted(q: nat, precision: nat, whole: nat)
    requires q > 0 && precision < PRECISIONS && whole == Scaled(q, precision) && whole <= MAX_SHARE_SUPPLY && q <= MAX_SHARE_SUPPLY
    ensures AmountFromString(Printed(0 - q, 0, Exp10(precision)), precision) == Some(0 - whole)
  {
    PrintedMinusWhole(q, Exp10(precision));
    MinusWholeRoundTrip(q, precision, whole);
  }

  lemma NothingPrinted(d: nat, precision: nat)
    requires 0 < d < Exp10(precision)
    ensures AmountFromString(Printed(0, 0 - d, Exp10(precision)), precision) != Some(0 - d)
  {
    PrintedMinusNothing(d, Exp10(precision));
    SignLost(d, precision);
  }

  lemma MinusPointPrinted(q: nat, d: nat, precision: nat)
    requires 0 < q < INT64 && 0 < d < Exp10(precision)
    ensures AmountFromString(Printed(0 - q, 0 - d, Exp10(precision)), precision) != Some(0 - (Scaled(q, precision) + d))
  {
    PrintedMinusPoint(q, d, Exp10(precision));
    MinusFractionLost(q, d, precision);
  }

  lemma NegatedMod(n: nat, q: nat, d: nat, m: nat)
    requires d < m && n == q * m + d
    ensures (0 - n) % m == 0 <==> d == 0
  {
    var k := (0 - n) / m;
    assert 0 - n == k * m + (0 - n) % m;
    Distribute(q, k, m);
    if d == 0 {
      MulBoundZero(q + k, m, (0 - n) % m);
    } else if (0 - n) % m == 0 {
      NoMultipleBetween(0 - (q + k), m, d);
    }
  }

  lemma MulBoundZero(t: int, m: nat, r: nat)
    requires r < m && t * m + r == 0
    ensures r == 0
  {
    if r > 0 { NoMultipleBetween(-t, m, r); }
  }
}

/** Converting amounts between ISO 8583 (twelve digits of minor units, numeric currency)
    and ISO 20022 (a decimal, alphabetic currency). */
module Amount {
  import opened Common
  import opened Decimal

  datatype Currency = Currency(alpha: string, numeric: string, exponent: nat)

  const CURRENCY_COUNT := 32

  function RowsAtoC(i: nat): Currency {
    match i
    case 0 => Currency("ARS", "032", 2) case 1 => Currency("AUD", "036", 2)
    case 2 => Currency("BHD", "048", 3) case 3 => Currency("BRL", "986", 2)
    case 4 => Currency("CAD", "124", 2) case 5 => Currency("CHF", "756", 2)
    case 6 => Currency("CLP", "152", 0) case _ => Currency("CNY", "156", 2)
  }

  function RowsCtoJ(i: nat): Currency {
    match i
    case 0 => Currency("COP", "170", 2) case 1 => Currency("CZK", "203", 2)
    case 2 => Currency("DKK", "208", 2) case 3 => Currency("EUR", "978", 2)
    case 4 => Currency("GBP", "826", 2) case 5 => Currency("HKD", "344", 2)
    case 6 => Currency("INR", "356", 2) case _ => Currency("JOD", "400", 3)
  }

  function RowsJtoP(i: nat): Currency {
    match i
    case 0 => Currency("JPY", "392", 0) case 1 => Currency("KRW", "410", 0)
    case 2 => Currency("KWD", "414", 3) case 3 => Currency("MXN", "484", 2)
    case 4 => Currency("NOK", "578", 2) case 5 => Currency("NZD", "554", 2)
    case 6 => Currency("OMR", "512", 3) case _ => Currency("PEN", "604", 2)
  }

  function RowsPtoZ(i: nat): Currency {
    match i
    case 0 => Currency("PLN", "985", 2) case 1 => Currency("PYG", "600", 0)
    case 2 => Currency("SEK", "752", 2) case 3 => Currency("SGD", "702", 2)
    case 4 => Currency("TND", "788", 3) case 5 => Currency("USD", "840", 2)
    case 6 => Currency("UYU", "858", 2) case _ => Currency("ZAR", "710", 2)
  }

  /** The i-th row of the currency table. */
  function CurrencyAt(i: nat): Currency
    requires i < CURRENCY_COUNT
  {
    if i < 8 then RowsAtoC(i)
    else if i < 16 then RowsCtoJ(i - 8)
    else if i < 24 then RowsJtoP(i - 16)
    else RowsPtoZ(i - 24)
  }

  // ------------------------------------------------------------- strings

  /** The white space TrimSpace strips. */
  predicate IsSpace(c: char) {
    || '\t' <= c <= '\r' || c == ' ' || c == '\U{85}' || c == '\U{A0}' || c == '\U{1680}'
    || '\U{2000}' <= c <= '\U{200A}' || c == '\U{2028}' || c == '\U{2029}' || c == '\U{202F}'
    || c == '\U{205F}' || c == '\U{3000}'
  }

  function TrimSpace(s: string): string {
    if s == "" then s
    else if IsSpace(s[0]) then TrimSpace(s[1..])
    else if IsSpace(s[|s| - 1]) then TrimSpace(s[..|s| - 1])
    else s
  }

  /** The upper case of a character as far as an ASCII code can tell: besides a to z, only
      dotless i and long s have an ASCII upper case. */
  function Upper(c: char): char {
    if 'a' <= c <= 'z' then (c as int - 32) as char
    else if c == '\U{131}' then 'I'
    else if c == '\U{17F}' then 'S'
    else c
  }

  function ToUpper(s: string): (r: string)
    ensures |r| == |s| && forall i :: 0 <= i < |s| ==> r[i] == Upper(s[i])
  {
    if s == "" then "" else [Upper(s[0])] + ToUpper(s[1..])
  }

  function Zeros(n: nat): (s: string)
    ensures |s| == n && forall i :: 0 <= i < n ==> s[i] == '0'
  {
    if n == 0 then "" else "0" + Zeros(n - 1)
  }

  function TrimLeftZeros(s: string): (r: string)
    ensures |r| <= |s| && s[|s| - |r|..] == r && forall i :: 0 <= i < |s| - |r| ==> s[i] == '0'
    ensures r != "" ==> r[0] != '0'
  {
    if s != "" && s[0] == '0' then TrimLeftZeros(s[1..]) else s
  }

  function TrimRightZeros(s: string): (r: string)
    ensures |r| <= |s| && s[..|r|] == r && forall i :: |r| <= i < |s| ==> s[i] == '0'
    ensures r != "" ==> r[|r| - 1] != '0'
  {
    if s != "" && s[|s| - 1] == '0' then TrimRightZeros(s[..|s| - 1]) else s
  }

  function Whole(dec: string): string {
    dec[..IndexOf(dec, '.')]
  }

  function Frac(dec: string): string {
    if IndexOf(dec, '.') == |dec| then "" else dec[IndexOf(dec, '.') + 1..]
  }

  // ------------------------------------------------------------- the conversion

  predicate HasCode(c: Currency, code: string) {
    c.alpha == code || c.numeric == code
  }

  /** The first row from `i` on with the code. */
  function FindFrom(i: nat, code: string): Option<Currency>
    requires i <= CURRENCY_COUNT
    decreases CURRENCY_COUNT - i
  {
    if i == CURRENCY_COUNT then None
    else if HasCode(CurrencyAt(i), code) then Some(CurrencyAt(i))
    else FindFrom(i + 1, code)
  }

  function FindCurrency(code: string): Option<Currency> {
    FindFrom(0, ToUpper(TrimSpace(code)))
  }

  predicate DigitsOnly(s: string) {
    s != "" && AllDigits(s)
  }

  /** The minor units without leading zeros, but with a digit before the point. */
  function Significant(minor: string, exp: nat): (m: string)
    ensures |m| > exp
  {
    var t := TrimLeftZeros(minor);
    if |t| <= exp then Zeros(exp - |t| + 1) + t else t
  }

  function MinorToDecimal(minor: string, exp: nat): string {
    var m := Significant(minor, exp);
    if exp == 0 then m else m[..|m| - exp] + "." + m[|m| - exp..]
  }

  function DecimalToMinor(dec: string, exp: nat): Option<string> {
    var whole := if Whole(dec) == "" then "0" else Whole(dec);
    var frac := Frac(dec);
    if !DigitsOnly(whole) || (frac != "" && !DigitsOnly(frac)) then None
    else if |TrimRightZeros(frac)| > exp then None
    else
      var minor := TrimLeftZeros(whole + (frac + Zeros(exp))[..exp]);
      Some(if minor == "" then "0" else minor)
  }

  const ISO8583_AMOUNT_DIGITS := 12

  datatype Converted = Converted(amount: string, currency: string)

  function ConvertAmount(amount: string, cur: string, targetKind: string): Option<Converted> {
    match FindCurrency(cur)
    case None => None
    case Some(c) =>
      var amt := TrimSpace(amount);
      if targetKind == "iso20022" then
        if !DigitsOnly(amt) then None else Some(Converted(MinorToDecimal(amt, c.exponent), c.alpha))
      else match DecimalToMinor(amt, c.exponent)
        case None => None
        case Some(minor) =>
          if |minor| > ISO8583_AMOUNT_DIGITS then None
          else Some(Converted(Zeros(ISO8583_AMOUNT_DIGITS - |minor|) + minor, c.numeric))
  }

  // ------------------------------------------------------------- what a decimal is worth

  /** Digits, a point, digits; either side may be empty. */
  predicate WellFormed(dec: string) {
    AllDigits(Whole(dec)) && AllDigits(Frac(dec))
  }

  /** A decimal is worth Scaled(dec) / 10^Places(dec). */
  function Places(dec: string): nat {
    |Frac(dec)|
  }

  function Scaled(dec: string): nat
    requires WellFormed(dec)
  {
    Value(Whole(dec)) * Pow10(Places(dec)) + Value(Frac(dec))
  }

  /** `minor` counts exactly the units of 10^-exp the decimal is worth. */
  predicate Worth(minor: nat, dec: string, exp: nat)
    requires WellFormed(dec)
  {
    minor * Pow10(Places(dec)) == Scaled(dec) * Pow10(exp)
  }

  /** The decimal is worth a whole number of units of 10^-exp. */
  ghost predicate Representable(dec: string, exp: nat)
    requires WellFormed(dec)
  {
    exists minor: nat :: Worth(minor, dec, exp)
  }

  // ------------------------------------------------------------- digit strings

  lemma {:induction false} ValueZeros(n: nat)
    ensures AllDigits(Zeros(n)) && Value(Zeros(n)) == 0
  {
    if n > 0 {
      ValueZeros(n - 1);
      assert Zeros(n)[..n - 1] == Zeros(n - 1);
    }
  }

  lemma ValuePadded(n: nat, s: string)
    requires AllDigits(s)
    ensures AllDigits(Zeros(n) + s) && Value(Zeros(n) + s) == Value(s)
  {
    ValueZeros(n);
    ValueConcat(Zeros(n), s);
  }

  lemma ValueTrimmed(s: string)
    requires AllDigits(s)
    ensures AllDigits(TrimLeftZeros(s)) && Value(TrimLeftZeros(s)) == Value(s)
  {
    hide Value, Zeros, TrimLeftZeros;
    var r := TrimLeftZeros(s);
    var n := |s| - |r|;
    forall i | 0 <= i < |r| ensures IsDigit(r[i]) { assert r[i] == s[n + i]; }
    assert s == Zeros(n) + r;
    ValuePadded(n, r);
  }

  /** A number that does not start with a zero has as many digits as its value needs. */
  lemma LeadingDigit(s: string)
    requires AllDigits(s) && s != "" && s[0] != '0'
    ensures Value(s) >= Pow10(|s| - 1)
  {
    assert s == [s[0]] + s[1..];
    ValueConcat([s[0]], s[1..]);
    ValueOne(s[0]);
    hide Value, Pow10;
    AtLeast(Value([s[0]]), Pow10(|s| - 1));
  }

  lemma ValueOne(c: char)
    requires IsDigit(c)
    ensures Value([c]) == DigitValue(c)
  {
    assert [c][..0] == "";
  }

  lemma AtLeast(a: nat, b: nat)
    requires a >= 1
    ensures a * b >= b
  {
  }

  lemma {:induction false} Pow10Monotone(a: nat, b: nat)
    requires a <= b
    ensures Pow10(a) <= Pow10(b)
  {
    if a < b {
      Pow10Monotone(a, b - 1);
    }
  }

  predicate Canonical(s: string) {
    DigitsOnly(s) && (s == "0" || s[0] != '0')
  }

  lemma CanonicalLength(s: string, n: nat)
    requires Canonical(s) && 0 < n
    ensures |s| <= n <==> Value(s) < Pow10(n)
  {
    if |s| <= n {
      ValueBound(s);
      Pow10Monotone(|s|, n);
    } else {
      LeadingDigit(s);
      Pow10Monotone(n, |s| - 1);
    }
  }

  lemma {:induction false} SameValueSameDigits(a: string, b: string)
    requires AllDigits(a) && AllDigits(b) && |a| == |b| && Value(a) == Value(b)
    ensures a == b
  {
    hide Value;
    if a != "" {
      var n := |a| - 1;
      ValueSnoc(a[..n], a[n]);
      ValueSnoc(b[..n], b[n]);
      assert a == a[..n] + [a[n]] && b == b[..n] + [b[n]];
      SameValueSameDigits(a[..n], b[..n]);
    }
  }

  // ------------------------------------------------------------- minor units to a decimal

  lemma PointAt(whole: string, frac: string)
    requires AllDigits(whole)
    ensures Whole(whole + "." + frac) == whole && Frac(whole + "." + frac) == frac
    ensures Whole(whole) == whole && Frac(whole) == ""
  {
    var dec := whole + "." + frac;
    assert dec[|whole|] == '.' && forall j :: 0 <= j < |whole| ==> dec[j] == whole[j];
    assert IndexOf(dec, '.') == |whole|;
  }

  /** The decimal is well formed, has exactly the currency's decimals, a point only before
      them and no leading zero but one before the point, and is worth exactly the minor
      units it came from. */
  lemma MinorToDecimalIsExact(minor: string, exp: nat)
    requires AllDigits(minor)
    ensures var dec := MinorToDecimal(minor, exp);
            && WellFormed(dec) && Places(dec) == exp && Scaled(dec) == Value(minor)
            && Canonical(Whole(dec)) && ('.' in dec <==> exp > 0)
  {
    hide Value, Significant, WellFormed, Places, Scaled, Whole, Canonical, AllDigits;
    SignificantValue(minor, exp);
    SignificantWhole(minor, exp);
    SplitDecimal(Significant(minor, exp), exp);
    PointIff(Significant(minor, exp), exp);
  }

  /** What comes before the decimals starts with no needless zero. */
  lemma SignificantWhole(minor: string, exp: nat)
    requires AllDigits(minor)
    ensures var m := Significant(minor, exp); Canonical(m[..|m| - exp])
  {
    hide Value, TrimLeftZeros, Zeros;
    SignificantValue(minor, exp);
    var t, m := TrimLeftZeros(minor), Significant(minor, exp);
    if |t| <= exp {
      assert m[0] == '0' && |m| - exp == 1;
      assert m[..1] == "0";
    } else {
      assert m == t && t[0] != '0';
    }
  }

  lemma SplitDecimal(m: string, exp: nat)
    requires AllDigits(m) && |m| > exp
    ensures var dec := if exp == 0 then m else m[..|m| - exp] + "." + m[|m| - exp..];
            && WellFormed(dec) && Places(dec) == exp && Scaled(dec) == Value(m)
            && Whole(dec) == m[..|m| - exp]
  {
    hide Value, Pow10, IndexOf, Whole, Frac;
    var whole, frac := m[..|m| - exp], m[|m| - exp..];
    assert m == whole + frac;
    ValueConcat(whole, frac);
    PointAt(whole, frac);
    if exp == 0 {
      assert m == whole && frac == "";
    }
  }

  lemma PointIff(m: string, exp: nat)
    requires AllDigits(m) && |m| > exp
    ensures var dec := if exp == 0 then m else m[..|m| - exp] + "." + m[|m| - exp..];
            '.' in dec <==> exp > 0
  {
    if exp == 0 {
      forall i | 0 <= i < |m| ensures m[i] != '.' { assert IsDigit(m[i]); }
    } else {
      assert (m[..|m| - exp] + "." + m[|m| - exp..])[|m| - exp] == '.';
    }
  }

  lemma SignificantValue(minor: string, exp: nat)
    requires AllDigits(minor)
    ensures AllDigits(Significant(minor, exp)) && Value(Significant(minor, exp)) == Value(minor)
  {
    hide Value, TrimLeftZeros, Zeros;
    ValueTrimmed(minor);
    var t := TrimLeftZeros(minor);
    if |t| <= exp {
      ValuePadded(exp - |t| + 1, t);
    }
  }

  // ------------------------------------------------------------- a decimal to minor units

  lemma {:induction false} TrailingZeros(s: string, n: nat)
    requires AllDigits(s) && n <= |s| && forall i :: n <= i < |s| ==> s[i] == '0'
    ensures AllDigits(s[..n]) && Value(s) == Value(s[..n]) * Pow10(|s| - n)
  {
    hide Value, Pow10;
    if n < |s| {
      var r := s[..|s| - 1];
      TrailingZeros(r, n);
      assert r[..n] == s[..n] && s == r + "0";
      ValueSnoc(r, '0');
      Pow10Next(|r| - n);
      Tenfold(Value(s[..n]), Pow10(|r| - n));
    } else {
      assert s[..n] == s;
      NothingIsZero();
    }
  }

  lemma LastDigit(s: string)
    requires AllDigits(s) && s != "" && s[|s| - 1] != '0'
    ensures Value(s) % 10 != 0
  {
    var v, d := Value(s[..|s| - 1]), DigitValue(s[|s| - 1]);
    assert Value(s) == 10 * v + d;
    hide Value;
  }

  /** The digits a decimal is written with, without the point. */
  lemma ScaledIsValue(dec: string)
    requires WellFormed(dec)
    ensures AllDigits(Whole(dec) + Frac(dec)) && Scaled(dec) == Value(Whole(dec) + Frac(dec))
  {
    ValueConcat(Whole(dec), Frac(dec));
  }

  /** More decimals than the exponent, the last of them not zero, cannot be expressed. */
  lemma TooLongIsNotWorth(dec: string, exp: nat, minor: nat)
    requires WellFormed(dec) && |TrimRightZeros(Frac(dec))| > exp
    ensures !Worth(minor, dec, exp)
  {
    var frac := Frac(dec);
    var t := TrimRightZeros(frac);
    var digits, n := Whole(dec) + frac, |Whole(dec)| + |t|;
    ScaledIsValue(dec);
    TrailingZeros(digits, n);
    var head := digits[..n];
    assert head[n - 1] == t[|t| - 1];
    LastDigit(head);
    hide Value, Scaled;
    var m, z, k := Value(head), |frac| - |t|, |frac|;
    Pow10Add(z, exp);
    Regroup(m, Pow10(z), Pow10(exp));
    NotDivisible(m, z + exp, k, minor);
  }

  lemma Regroup(a: nat, b: nat, c: nat)
    ensures a * b * c == a * (b * c)
  {
  }

  /** 10^k does not divide m * 10^j when k > j and 10 does not divide m. */
  lemma NotDivisible(m: nat, j: nat, k: nat, q: nat)
    requires j < k && m % 10 != 0
    ensures q * Pow10(k) != m * Pow10(j)
  {
    Pow10Add(k - j, j);
    var p, r := Pow10(j), Pow10(k - j - 1);
    assert Pow10(k - j) == 10 * r;
    hide Pow10;
    if q * Pow10(k) == m * p {
      Regroup(q, 10 * r, p);
      Regroup(q, 10, r);
      Cancel(p, m, q * (10 * r));
      Tenfold(q, r);
    }
  }

  lemma Tenfold(q: nat, r: nat)
    ensures q * (10 * r) == 10 * (q * r)
  {
  }

  lemma Cancel(p: nat, a: nat, b: nat)
    requires p > 0 && a * p == b * p
    ensures a == b
  {
  }

  /** The minor units cut out of the digits are worth what the decimal is. */
  lemma CutIsWorth(dec: string, exp: nat)
    requires WellFormed(dec) && |TrimRightZeros(Frac(dec))| <= exp
    ensures var cut := Whole(dec) + (Frac(dec) + Zeros(exp))[..exp];
            AllDigits(cut) && Worth(Value(cut), dec, exp)
  {
    var whole, frac := Whole(dec), Frac(dec);
    var k := |frac|;
    var cut := whole + (frac + Zeros(exp))[..exp];
    var all := whole + (frac + Zeros(exp));
    ValueZeros(exp);
    ScaledIsValue(dec);
    assert all == (whole + frac) + Zeros(exp);
    ValueConcat(whole + frac, Zeros(exp));
    assert Value(all) == Scaled(dec) * Pow10(exp);
    var n := |whole| + exp;
    assert cut == all[..n];
    TrailingZeros(all, n);
    assert |all| - n == k;
  }

  /** A decimal is converted exactly when it is well formed and exactly representable at
      the currency's exponent; the result is then worth exactly the decimal and carries
      no leading zero. */
  lemma DecimalToMinorIsExact(dec: string, exp: nat)
    ensures DecimalToMinor(dec, exp).Some? <==> WellFormed(dec) && Representable(dec, exp)
    ensures DecimalToMinor(dec, exp).Some? ==>
              Canonical(DecimalToMinor(dec, exp).value) && Worth(Value(DecimalToMinor(dec, exp).value), dec, exp)
  {
    hide Value, Pow10, Scaled, Worth, TrimLeftZeros, TrimRightZeros;
    if WellFormed(dec) {
      if |TrimRightZeros(Frac(dec))| > exp {
        forall minor: nat ensures !Worth(minor, dec, exp) { TooLongIsNotWorth(dec, exp, minor); }
      } else {
        CutIsWorth(dec, exp);
        var tail := (Frac(dec) + Zeros(exp))[..exp];
        WithoutLeadingZeros(Whole(dec), tail);
      }
    }
  }

  lemma WithoutLeadingZeros(whole: string, tail: string)
    requires AllDigits(whole + tail)
    ensures var minor := TrimLeftZeros((if whole == "" then "0" else whole) + tail);
            var r := if minor == "" then "0" else minor;
            Canonical(r) && Value(r) == Value(whole + tail)
  {
    hide Value, TrimLeftZeros;
    ValueTrimmed(whole + tail);
    Zero();
    if whole == "" {
      assert whole + tail == tail;
      LeadingZero(tail);
    }
  }

  lemma LeadingZero(s: string)
    ensures TrimLeftZeros("0" + s) == TrimLeftZeros(s)
  {
    assert ("0" + s)[1..] == s;
  }

  lemma Zero()
    ensures Value("") == 0 && Value("0") == 0
  {
    ValueOne('0');
  }

  // ------------------------------------------------------------- the currency table

  /** A code read as a number in base 256. */
  function Key(code: string): nat
    requires |code| == 3
  {
    (code[0] as nat * 256 + code[1] as nat) * 256 + code[2] as nat
  }

  function LowNumeric(key: nat): nat {
    match key
    case 3158834 => 0 case 3158838 => 1 case 3159096 => 2 case 3224116 => 4
    case 3224882 => 6 case 3224886 => 7 case 3225392 => 8 case 3289139 => 9
    case 3289144 => 10 case 3355700 => 13 case 3355958 => 14 case 3356978 => 16
    case 3420208 => 15 case 3420464 => 17 case 3420468 => 18 case 3422260 => 19
    case _ => CURRENCY_COUNT
  }

  function HighNumeric(key: nat): nat {
    match key
    case 3486002 => 22 case 3487028 => 21 case 3487544 => 20 case 3551280 => 25
    case 3551284 => 23 case 3616818 => 27 case 3617072 => 31 case 3618098 => 26
    case 3618102 => 5 case 3618872 => 28 case 3682870 => 12 case 3683376 => 29
    case 3683640 => 30 case 3749688 => 11 case 3749941 => 24 case 3749942 => 3
    case _ => CURRENCY_COUNT
  }

  function LowAlpha(key: nat): nat {
    match key
    case 4280915 => 0 case 4281668 => 1 case 4343876 => 2 case 4346444 => 3
    case 4407620 => 4 case 4409414 => 5 case 4410448 => 6 case 4410969 => 7
    case 4411216 => 8 case 4414027 => 9 case 4475723 => 10 case 4543826 => 11
    case 4670032 => 12 case 4737860 => 13 case 4804178 => 14 case 4869956 => 15
    case _ => CURRENCY_COUNT
  }

  function HighAlpha(key: nat): nat {
    match key
    case 4870233 => 16 case 4936279 => 17 case 4937540 => 18 case 5068878 => 19
    case 5132107 => 20 case 5134916 => 21 case 5197138 => 22 case 5260622 => 23
    case 5262414 => 24 case 5265735 => 25 case 5457227 => 26 case 5457732 => 27
    case 5525060 => 28 case 5591876 => 29 case 5593429 => 30 case 5914962 => 31
    case _ => CURRENCY_COUNT
  }

  /** The row a code belongs to, by its key. */
  function RowOf(key: nat): nat {
    if key < 3486002 then LowNumeric(key)
    else if key < 4280915 then HighNumeric(key)
    else if key < 4870233 then LowAlpha(key)
    else HighAlpha(key)
  }

  predicate UpperOrDigit(c: char) {
    'A' <= c <= 'Z' || IsDigit(c)
  }

  predicate CodeOf(code: string, row: nat) {
    |code| == 3 && UpperOrDigit(code[0]) && UpperOrDigit(code[1]) && UpperOrDigit(code[2]) && RowOf(Key(code)) == row
  }

  /** Both codes of a row are three capitals or digits, and lead back to the row. */
  predicate Sound(i: nat)
    requires i < CURRENCY_COUNT
  {
    CodeOf(CurrencyAt(i).alpha, i) && CodeOf(CurrencyAt(i).numeric, i)
  }

  lemma SoundRowsAtoC(i: nat)
    requires 0 <= i < 8
    ensures Sound(i)
  {
    match i case 0 => case 1 => case 2 => case 3 => case 4 => case 5 => case 6 => case _ =>
  }

  lemma SoundRowsCtoJ(i: nat)
    requires 8 <= i < 16
    ensures Sound(i)
  {
    match i case 8 => case 9 => case 10 => case 11 => case 12 => case 13 => case 14 => case _ =>
  }

  lemma SoundRowsJtoP(i: nat)
    requires 16 <= i < 24
    ensures Sound(i)
  {
    match i case 16 => case 17 => case 18 => case 19 => case 20 => case 21 => case 22 => case _ =>
  }

  lemma SoundRowsPtoZ(i: nat)
    requires 24 <= i < 32
    ensures Sound(i)
  {
    match i case 24 => case 25 => case 26 => case 27 => case 28 => case 29 => case 30 => case _ =>
  }

  lemma RowIsSound(i: nat)
    requires i < CURRENCY_COUNT
    ensures Sound(i)
  {
    hide Sound;
    if i < 8 {
      SoundRowsAtoC(i);
    } else if i < 16 {
      SoundRowsCtoJ(i);
    } else if i < 24 {
      SoundRowsJtoP(i);
    } else {
      SoundRowsPtoZ(i);
    }
  }

  /** The minor units of ISO 4217: two decimals, but none for four of the currencies and three
      for five. */
  function MinorUnits(alpha: string): nat {
    if alpha in {"CLP", "JPY", "KRW", "PYG"} then 0
    else if alpha in {"BHD", "JOD", "KWD", "OMR", "TND"} then 3
    else 2
  }

  lemma ExponentsAtoC(i: nat)
    requires i < 8
    ensures RowsAtoC(i).exponent == MinorUnits(RowsAtoC(i).alpha)
  {
    match i case 0 => case 1 => case 2 => case 3 => case 4 => case 5 => case 6 => case _ =>
  }

  lemma ExponentsCtoJ(i: nat)
    requires i < 8
    ensures RowsCtoJ(i).exponent == MinorUnits(RowsCtoJ(i).alpha)
  {
    match i case 0 => case 1 => case 2 => case 3 => case 4 => case 5 => case 6 => case _ =>
  }

  lemma ExponentsJtoP(i: nat)
    requires i < 8
    ensures RowsJtoP(i).exponent == MinorUnits(RowsJtoP(i).alpha)
  {
    match i case 0 => case 1 => case 2 => case 3 => case 4 => case 5 => case 6 => case _ =>
  }

  lemma ExponentsPtoZ(i: nat)
    requires i < 8
    ensures RowsPtoZ(i).exponent == MinorUnits(RowsPtoZ(i).alpha)
  {
    match i case 0 => case 1 => case 2 => case 3 => case 4 => case 5 => case 6 => case _ =>
  }

  /** Every row has the decimals of its currency. */
  lemma RowHasItsMinorUnits(i: nat)
    requires i < CURRENCY_COUNT
    ensures CurrencyAt(i).exponent == MinorUnits(CurrencyAt(i).alpha)
  {
    hide RowsAtoC, RowsCtoJ, RowsJtoP, RowsPtoZ, MinorUnits;
    if i < 8 {
      ExponentsAtoC(i);
    } else if i < 16 {
      ExponentsCtoJ(i - 8);
    } else if i < 24 {
      ExponentsJtoP(i - 16);
    } else {
      ExponentsPtoZ(i - 24);
    }
  }

  /** No two rows share a code, so a search ends at the row the code belongs to. */
  lemma {:induction false} FindRow(from: nat, i: nat, code: string)
    requires from <= i < CURRENCY_COUNT && HasCode(CurrencyAt(i), code)
    ensures FindFrom(from, code) == Some(CurrencyAt(i))
    decreases i - from
  {
    RowIsSound(i);
    RowIsSound(from);
    hide CurrencyAt, Key, RowOf;
    if from < i {
      assert !HasCode(CurrencyAt(from), code);
      FindRow(from + 1, i, code);
    }
  }

  lemma {:induction false} FindFromIs(from: nat, code: string)
    requires from <= CURRENCY_COUNT
    ensures FindFrom(from, code).None? <==> forall i :: from <= i < CURRENCY_COUNT ==> !HasCode(CurrencyAt(i), code)
    ensures FindFrom(from, code).Some? ==>
              HasCode(FindFrom(from, code).value, code) &&
              exists i :: from <= i < CURRENCY_COUNT && FindFrom(from, code).value == CurrencyAt(i)
    decreases CURRENCY_COUNT - from
  {
    hide CurrencyAt, HasCode;
    if from < CURRENCY_COUNT {
      FindFromIs(from + 1, code);
    }
  }

  /** A currency is known exactly when some row has the code, trimmed and in upper case, and
      what is found is such a row. */
  lemma KnownIff(code: string)
    ensures var c, upper := FindCurrency(code), ToUpper(TrimSpace(code));
            && (c.None? <==> forall i :: 0 <= i < CURRENCY_COUNT ==> !HasCode(CurrencyAt(i), upper))
            && (c.Some? ==>
                  && (c.value.alpha == upper || c.value.numeric == upper)
                  && exists i :: 0 <= i < CURRENCY_COUNT && c.value == CurrencyAt(i))
  {
    hide CurrencyAt;
    FindFromIs(0, ToUpper(TrimSpace(code)));
  }

  predicate AllSpace(s: string) {
    forall i :: 0 <= i < |s| ==> IsSpace(s[i])
  }

  /** Only white space is stripped, all of it and at both ends. */
  lemma {:induction false} TrimSpaceIs(before: string, s: string, after: string)
    requires AllSpace(before) && AllSpace(after) && (s != "" ==> !IsSpace(s[0]) && !IsSpace(s[|s| - 1]))
    ensures TrimSpace(before + s + after) == s
    decreases |before|, |after|
  {
    var all := before + s + after;
    if before != "" {
      assert all[1..] == before[1..] + s + after && all[0] == before[0];
      TrimSpaceIs(before[1..], s, after);
    } else if after != "" {
      var fewer := after[..|after| - 1];
      assert all[..|all| - 1] == before + s + fewer && all[|all| - 1] == after[|after| - 1];
      TrimSpaceIs(before, s, fewer);
      if s == "" {
        AllSpaceTrims(all);
      }
    } else {
      assert all == s;
      NothingToTrim(s);
    }
  }

  lemma {:induction false} AllSpaceTrims(s: string)
    requires AllSpace(s)
    ensures TrimSpace(s) == ""
  {
    if s != "" {
      AllSpaceTrims(s[1..]);
    }
  }

  /** The code of a row in any mix of cases, with white space around it. */
  predicate Spells(code: string, row: string) {
    |code| == |row| && forall i :: 0 <= i < |row| ==>
                                     code[i] == row[i] || ('A' <= row[i] <= 'Z' && code[i] as int == row[i] as int + 32)
  }

  lemma FoundInAnyCase(i: nat, before: string, code: string, after: string)
    requires i < CURRENCY_COUNT && AllSpace(before) && AllSpace(after)
    requires Spells(code, CurrencyAt(i).alpha) || code == CurrencyAt(i).numeric
    ensures FindCurrency(before + code + after) == Some(CurrencyAt(i))
  {
    var row := if Spells(code, CurrencyAt(i).alpha) then CurrencyAt(i).alpha else CurrencyAt(i).numeric;
    RowIsSound(i);
    hide CurrencyAt, RowOf, Key;
    assert |row| == 3 && UpperOrDigit(row[0]) && UpperOrDigit(row[1]) && UpperOrDigit(row[2]);
    assert Spells(code, row);
    SpelledUpper(code, row);
    TrimSpaceIs(before, code, after);
    FindRow(0, i, row);
  }

  lemma SpelledUpper(code: string, row: string)
    requires Spells(code, row) && |row| == 3 && UpperOrDigit(row[0]) && UpperOrDigit(row[1]) && UpperOrDigit(row[2])
    ensures ToUpper(code) == row && !IsSpace(code[0]) && !IsSpace(code[2])
  {
    forall i | 0 <= i < 3 ensures Upper(code[i]) == row[i] && !IsSpace(code[i]) {}
  }

  lemma {:induction false} NothingToTrim(s: string)
    requires s != "" ==> !IsSpace(s[0]) && !IsSpace(s[|s| - 1])
    ensures TrimSpace(s) == s
  {
  }

  lemma PlainCode(code: string)
    requires |code| == 3 && UpperOrDigit(code[0]) && UpperOrDigit(code[1]) && UpperOrDigit(code[2])
    ensures TrimSpace(code) == code && ToUpper(code) == code
  {
    NothingToTrim(code);
    hide TrimSpace, ToUpper;
    assert ToUpper(code)[0] == code[0] && ToUpper(code)[1] == code[1] && ToUpper(code)[2] == code[2];
    assert ToUpper(code) == code;
  }

  /** Each row of the table is found by either of its codes. */
  lemma FindByEitherCode(i: nat, code: string)
    requires i < CURRENCY_COUNT && HasCode(CurrencyAt(i), code)
    ensures FindCurrency(code) == Some(CurrencyAt(i))
  {
    RowIsSound(i);
    hide CurrencyAt, Key, RowOf, FindFrom, TrimSpace, ToUpper;
    PlainCode(code);
    FindRow(0, i, code);
  }

  // ------------------------------------------------------------- the conversion as a whole

  lemma NoSpaceAround(s: string)
    requires DigitsOnly(s)
    ensures TrimSpace(s) == s
  {
    NothingToTrim(s);
  }

  lemma NoSpaceAroundDecimal(dec: string)
    requires WellFormed(dec)
    ensures TrimSpace(dec) == dec
  {
    if dec != "" {
      var p := IndexOf(dec, '.');
      assert forall j :: 0 <= j < |dec| ==> dec[j] == '.' || IsDigit(dec[j]) by {
        forall j | 0 <= j < |dec| && j != p
          ensures IsDigit(dec[j])
        {
          assert j < p ==> dec[j] == Whole(dec)[j];
          assert j > p ==> dec[j] == Frac(dec)[j - p - 1];
        }
      }
    }
    NothingToTrim(dec);
  }

  /** An amount goes to ISO 20022 exactly when its currency is known and it is written in
      digits alone. The decimal is worth exactly the minor units and is written the one way:
      the currency's decimals, no needless zero, no point without decimals. */
  lemma ToIso20022(amount: string, cur: string)
    ensures var minor := TrimSpace(amount);
            var c := FindCurrency(cur);
            var r := ConvertAmount(amount, cur, "iso20022");
            && (r.Some? <==> c.Some? && minor != "" && AllDigits(minor))
            && (r.Some? ==>
                  && r.value.currency == c.value.alpha && WellFormed(r.value.amount)
                  && Places(r.value.amount) == c.value.exponent && Scaled(r.value.amount) == Value(minor)
                  && Canonical(Whole(r.value.amount)) && ('.' in r.value.amount <==> c.value.exponent > 0))
  {
    hide MinorToDecimal, WellFormed, Scaled, Places, Canonical, Whole, TrimSpace, FindCurrency, Value;
    var minor, c := TrimSpace(amount), FindCurrency(cur);
    if c.Some? && DigitsOnly(minor) {
      MinorToDecimalIsExact(minor, c.value.exponent);
    }
  }

  /** An amount goes to ISO 8583 exactly when its currency is known, its decimal is well
      formed, it is a whole number of minor units, and twelve digits hold it. The result
      is twelve digits worth exactly the decimal, with the numeric code. */
  lemma ToIso8583(amount: string, cur: string, kind: string)
    requires kind != "iso20022"
    ensures var dec := TrimSpace(amount);
            var c := FindCurrency(cur);
            var r := ConvertAmount(amount, cur, kind);
            && (r.Some? <==>
                  && c.Some? && WellFormed(dec)
                  && exists minor: nat :: Worth(minor, dec, c.value.exponent) && minor < Pow10(ISO8583_AMOUNT_DIGITS))
            && (r.Some? ==>
                  && |r.value.amount| == ISO8583_AMOUNT_DIGITS && AllDigits(r.value.amount)
                  && Worth(Value(r.value.amount), dec, c.value.exponent) && r.value.currency == c.value.numeric)
  {
    hide Value, Pow10, Scaled, TrimSpace, FindCurrency, DecimalToMinor, Worth, WellFormed, Zeros;
    var c := FindCurrency(cur);
    if c.Some? {
      var dec, exp := TrimSpace(amount), c.value.exponent;
      DecimalToMinorIsExact(dec, exp);
      var m := DecimalToMinor(dec, exp);
      if m.Some? {
        CanonicalLength(m.value, ISO8583_AMOUNT_DIGITS);
        if |m.value| <= ISO8583_AMOUNT_DIGITS {
          ValuePadded(ISO8583_AMOUNT_DIGITS - |m.value|, m.value);
        }
        forall minor: nat | Worth(minor, dec, exp) ensures minor == Value(m.value) {
          WorthIsUnique(dec, exp, minor, Value(m.value));
        }
      }
    }
  }

  lemma WorthIsUnique(dec: string, exp: nat, a: nat, b: nat)
    requires WellFormed(dec) && Worth(a, dec, exp) && Worth(b, dec, exp)
    ensures a == b
  {
    Cancel(Pow10(Places(dec)), a, b);
  }

  /** To ISO 20022 and back: for every amount in minor units and every currency of the
      table, under either of its codes, the decimal converts back exactly when twelve
      digits hold the amount, to the same amount and the numeric code. Twelve digits come
      back as the same twelve digits. */
  lemma RoundTrip(amount: string, i: nat, code: string, kind: string)
    requires DigitsOnly(amount) && i < CURRENCY_COUNT && HasCode(CurrencyAt(i), code) && kind != "iso20022"
    ensures var out := ConvertAmount(amount, code, "iso20022");
            && out.Some? && out.value.currency == CurrencyAt(i).alpha
            && var back := ConvertAmount(out.value.amount, out.value.currency, kind);
            && (back.Some? <==> Value(amount) < Pow10(ISO8583_AMOUNT_DIGITS))
            && (back.Some? ==> AllDigits(back.value.amount) && Value(back.value.amount) == Value(amount)
                               && back.value.currency == CurrencyAt(i).numeric)
            && (|amount| == ISO8583_AMOUNT_DIGITS ==> back.Some? && back.value.amount == amount)
  {
    var c := CurrencyAt(i);
    var exp := c.exponent;
    FindByEitherCode(i, code);
    FindByEitherCode(i, c.alpha);
    hide CurrencyAt, FindCurrency;
    NoSpaceAround(amount);
    var dec := MinorToDecimal(amount, exp);
    MinorToDecimalIsExact(amount, exp);
    NoSpaceAroundDecimal(dec);
    hide Value, Pow10, Scaled, TrimLeftZeros, TrimRightZeros, TrimSpace, DecimalToMinor, MinorToDecimal;
    assert Worth(Value(amount), dec, exp);
    ToIso8583(dec, c.alpha, kind);
    var back := ConvertAmount(dec, c.alpha, kind);
    forall minor: nat | Worth(minor, dec, exp) ensures minor == Value(amount) {
      WorthIsUnique(dec, exp, minor, Value(amount));
    }
    hide Worth, ConvertAmount;
    if |amount| == ISO8583_AMOUNT_DIGITS {
      ValueBound(amount);
      SameValueSameDigits(back.value.amount, amount);
    }
  }
}

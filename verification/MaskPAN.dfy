/** Masking card numbers in log payloads. A char stands for one byte. */
module MaskPAN {
  import opened Decimal

  const MIN_PAN_LEN := 13
  const MAX_PAN_LEN := 19
  const MASK_KEEP_FIRST := 6
  const MASK_KEEP_LAST := 4

  /** The Luhn formula: from the right, every second digit is doubled and the digits of
      the product are added up. */
  function LuhnTerm(c: char, doubled: bool): nat
    requires IsDigit(c)
  {
    var d := DigitValue(c);
    if doubled then 2 * d / 10 + 2 * d % 10 else d
  }

  function LuhnSum(s: string): nat
    requires AllDigits(s)
  {
    if s == "" then 0 else LuhnTerm(s[0], |s| % 2 == 0) + LuhnSum(s[1..])
  }

  predicate Luhn(s: string) {
    AllDigits(s) && LuhnSum(s) % 10 == 0
  }

  /** A card number of 13 to 19 digits, l of them, written at index i. */
  predicate Window(b: string, i: int, l: int) {
    && 13 <= l <= 19 && 0 <= i && i + l <= |b|
    && '2' <= b[i] <= '6'
    && Luhn(b[i..i + l])
  }

  /** Index k lies between the first six and the last four digits of some card number. */
  ghost predicate Hidden(b: string, k: int) {
    exists i, l :: Window(b, i, l) && i + 6 <= k < i + l - 4
  }

  /** What masking means: the length stays, and byte k is masked exactly when it lies in
      the middle of some card number of 13 to 19 digits. */
  ghost predicate IsMask(b: string, m: string) {
    |m| == |b| && forall k :: 0 <= k < |b| ==> m[k] == if Hidden(b, k) then '*' else b[k]
  }

  method CheckAllDigits(s: string) returns (ok: bool)
    ensures ok == AllDigits(s)
  {
    for i := 0 to |s|
      invariant AllDigits(s[..i])
    {
      if s[i] < '0' || s[i] > '9' {
        return false;
      }
    }
    return true;
  }

  /** Adding up the digits of a doubled digit is taking nine off when it has two. */
  lemma TwiceADigit(c: char)
    requires IsDigit(c)
    ensures LuhnTerm(c, true) == if 2 * DigitValue(c) > 9 then 2 * DigitValue(c) - 9 else 2 * DigitValue(c)
    ensures LuhnTerm(c, false) == DigitValue(c)
  {
  }

  lemma LuhnSumNext(digits: string, i: nat)
    requires AllDigits(digits) && i < |digits|
    ensures LuhnSum(digits[i..]) == LuhnTerm(digits[i], (|digits| - i) % 2 == 0) + LuhnSum(digits[i + 1..])
  {
    assert digits[i..][1..] == digits[i + 1..];
  }

  method LuhnValid(digits: string) returns (ok: bool)
    requires AllDigits(digits)
    ensures ok == Luhn(digits)
  {
    var sum, double := 0, false;
    var i := |digits|;
    assert LuhnSum(digits[i..]) == 0;
    hide LuhnSum, LuhnTerm;
    while i > 0
      invariant 0 <= i <= |digits|
      invariant double == ((|digits| - i) % 2 == 1)
      invariant sum == LuhnSum(digits[i..])
    {
      i := i - 1;
      LuhnSumNext(digits, i);
      TwiceADigit(digits[i]);
      var d: int := DigitValue(digits[i]);
      if double {
        d := d * 2;
        if d > 9 {
          d := d - 9;
        }
      }
      sum := sum + d;
      double := !double;
    }
    assert digits[0..] == digits;
    return sum % 10 == 0;
  }

  /** Some card number that starts before i, or at i and is longer than l, hides k. */
  ghost predicate HiddenBefore(b: string, i: int, l: int, k: int) {
    exists j, m :: Window(b, j, m) && (j < i || (j == i && m > l)) && j + MASK_KEEP_FIRST <= k < j + m - MASK_KEEP_LAST
  }

  /** What the buffer holds once the windows up to (i, l) are masked. */
  ghost predicate MaskedUpTo(b: string, out: string, i: int, l: int) {
    |out| == |b| && forall k :: 0 <= k < |b| ==> out[k] == if HiddenBefore(b, i, l, k) then '*' else b[k]
  }

  method Overwrite(out: array<char>, from: nat, to: nat)
    requires from <= to <= out.Length
    modifies out
    ensures forall k :: 0 <= k < out.Length ==> out[k] == if from <= k < to then '*' else old(out[k])
  {
    for k := from to to
      invariant forall j :: 0 <= j < out.Length ==> out[j] == if from <= j < k then '*' else old(out[j])
    {
      out[k] := '*';
    }
  }

  /** Past the shortest length, the next start begins with the longest. */
  lemma NextStart(b: string, out: string, i: int)
    requires MaskedUpTo(b, out, i, MIN_PAN_LEN - 1)
    ensures MaskedUpTo(b, out, i + 1, MAX_PAN_LEN)
  {
    var next := i + 1;
    forall k | 0 <= k < |b|
      ensures HiddenBefore(b, i, MIN_PAN_LEN - 1, k) <==> HiddenBefore(b, next, MAX_PAN_LEN, k)
    {
    }
  }

  /** Masking the middle of the window at (i, l), if there is one, does that length. */
  lemma NextLength(b: string, was: string, out: string, i: int, l: int)
    requires MaskedUpTo(b, was, i, l) && |out| == |b|
    requires forall k :: 0 <= k < |b| ==>
                           var hidden := Window(b, i, l) && i + MASK_KEEP_FIRST <= k < i + l - MASK_KEEP_LAST;
                           out[k] == if hidden then '*' else was[k]
    ensures MaskedUpTo(b, out, i, l - 1)
  {
    var next := l - 1;
    forall k | 0 <= k < |b|
      ensures HiddenBefore(b, i, next, k) <==>
              HiddenBefore(b, i, l, k) || (Window(b, i, l) && i + MASK_KEEP_FIRST <= k < i + l - MASK_KEEP_LAST)
    {
    }
  }

  /** No card number starts with a digit outside 2 to 6. */
  lemma NoStart(b: string, out: string, i: int)
    requires 0 <= i < |b| && !('2' <= b[i] <= '6') && MaskedUpTo(b, out, i, MAX_PAN_LEN)
    ensures MaskedUpTo(b, out, i, MIN_PAN_LEN - 1)
  {
    forall k | 0 <= k < |b|
      ensures HiddenBefore(b, i, MIN_PAN_LEN - 1, k) <==> HiddenBefore(b, i, MAX_PAN_LEN, k)
    {
    }
  }

  method MaskWindow(b: string, out: array<char>, i: nat, l: nat)
    requires i < |b| && '2' <= b[i] <= '6' && MIN_PAN_LEN <= l <= MAX_PAN_LEN
    requires MaskedUpTo(b, out[..], i, l)
    modifies out
    ensures MaskedUpTo(b, out[..], i, l - 1)
  {
    ghost var was := out[..];
    if i + l <= |b| {
      var w := b[i..i + l];
      var digits := CheckAllDigits(w);
      if digits {
        var luhn := LuhnValid(w);
        if luhn {
          Overwrite(out, i + MASK_KEEP_FIRST, i + l - MASK_KEEP_LAST);
        }
      }
    }
    NextLength(b, was, out[..], i, l);
  }

  method MaskPAN(b: string) returns (masked: string)
    ensures IsMask(b, masked)
  {
    var out := new char[|b|](i requires 0 <= i < |b| => b[i]);
    for i := 0 to |b|
      invariant MaskedUpTo(b, out[..], i, MAX_PAN_LEN)
    {
      if '2' <= b[i] <= '6' {
        var l := MAX_PAN_LEN;
        while l >= MIN_PAN_LEN
          invariant MIN_PAN_LEN - 1 <= l <= MAX_PAN_LEN
          invariant MaskedUpTo(b, out[..], i, l)
        {
          MaskWindow(b, out, i, l);
          l := l - 1;
        }
        NextStart(b, out[..], i);
      } else {
        NextStart(b, out[..], i) by { NoStart(b, out[..], i); }
      }
    }
    masked := out[..];
    forall k | 0 <= k < |b|
      ensures Hidden(b, k) <==> HiddenBefore(b, |b|, MAX_PAN_LEN, k)
    {
    }
  }

  lemma SameWindow(b: string, m: string, i: int, l: int)
    requires |m| == |b| && Window(m, i, l)
    requires forall k :: i <= k < i + l ==> m[k] == b[k]
    ensures Window(b, i, l)
  {
    assert m[i..i + l] == b[i..i + l];
  }

  /** Masked output holds no card number at all. */
  lemma MaskLeavesNoCardNumber(b: string, m: string, i: int, l: int)
    requires IsMask(b, m)
    ensures !Window(m, i, l)
  {
    if Window(b, i, l) {
      var k := i + MASK_KEEP_FIRST;
      assert Hidden(b, k);
      assert m[k] == m[i..i + l][MASK_KEEP_FIRST] == '*';
    } else if Window(m, i, l) {
      forall k | i <= k < i + l
        ensures m[k] == b[k]
      {
        assert m[k] == m[i..i + l][k - i];
      }
      SameWindow(b, m, i, l);
    }
  }

  /** Masking twice is masking once. */
  lemma MaskIsIdempotent(b: string, m: string, mm: string)
    requires IsMask(b, m) && IsMask(m, mm)
    ensures mm == m
  {
    forall k | 0 <= k < |m|
      ensures !Hidden(m, k)
    {
      forall i, l ensures !Window(m, i, l) { MaskLeavesNoCardNumber(b, m, i, l); }
    }
  }

  // ------------------------------------------------------------- the Luhn formula

  /** Changing one digit changes one term. */
  lemma {:induction false} LuhnSumChange(s: string, i: nat, c: char)
    requires AllDigits(s) && i < |s| && IsDigit(c)
    ensures var doubled := (|s| - i) % 2 == 0;
            LuhnSum(s[i := c]) == LuhnSum(s) - LuhnTerm(s[i], doubled) + LuhnTerm(c, doubled)
  {
    hide LuhnTerm;
    if i > 0 {
      LuhnSumChange(s[1..], i - 1, c);
      assert s[i := c][1..] == s[1..][i - 1 := c];
    } else {
      assert s[i := c][1..] == s[1..];
    }
  }

  /** Different digits never have the same term, and terms are single digits. */
  lemma TermsDiffer(a: char, b: char, doubled: bool)
    requires IsDigit(a) && IsDigit(b)
    ensures LuhnTerm(a, doubled) <= 9
    ensures LuhnTerm(a, doubled) == LuhnTerm(b, doubled) <==> a == b
  {
    TwiceADigit(a);
    TwiceADigit(b);
    hide LuhnTerm;
  }

  lemma StillDivides(sum: int, change: int)
    requires sum % 10 == 0
    ensures (sum + change) % 10 == 0 <==> change % 10 == 0
  {
  }

  lemma StillDigits(s: string, i: nat, c: char)
    requires AllDigits(s) && i < |s| && IsDigit(c)
    ensures AllDigits(s[i := c])
  {
  }

  /** One wrong digit is always noticed. */
  lemma LuhnNoticesOneDigit(s: string, i: nat, c: char)
    requires Luhn(s) && i < |s| && IsDigit(c) && c != s[i]
    ensures !Luhn(s[i := c])
  {
    hide LuhnSum, LuhnTerm;
    var doubled := (|s| - i) % 2 == 0;
    StillDigits(s, i, c);
    LuhnSumChange(s, i, c);
    TermsDiffer(s[i], c, doubled);
    TermsDiffer(c, s[i], doubled);
    StillDivides(LuhnSum(s), LuhnTerm(c, doubled) - LuhnTerm(s[i], doubled));
  }

  /** Two neighbouring digits that changed places are noticed exactly unless they are equal,
      or a zero and a nine. */
  lemma LuhnNoticesASwap(s: string, i: nat)
    requires Luhn(s) && i + 1 < |s|
    ensures var swapped := s[i := s[i + 1]][i + 1 := s[i]];
            Luhn(swapped) <==> s[i] == s[i + 1] || {s[i], s[i + 1]} == {'0', '9'}
  {
    hide LuhnSum, LuhnTerm;
    var a, b := s[i], s[i + 1];
    var doubled := (|s| - i) % 2 == 0;
    StillDigits(s, i, b);
    StillDigits(s[i := b], i + 1, a);
    LuhnSumChange(s, i, b);
    LuhnSumChange(s[i := b], i + 1, a);
    SwapDifference(a, b, doubled);
    StillDivides(LuhnSum(s),
                 LuhnTerm(b, doubled) - LuhnTerm(a, doubled) + LuhnTerm(a, !doubled) - LuhnTerm(b, !doubled));
    assert ((|s| - (i + 1)) % 2 == 0) == !doubled;
  }

  /** What a digit loses when it is doubled. */
  lemma SwapDifference(a: char, b: char, doubled: bool)
    requires IsDigit(a) && IsDigit(b)
    ensures var change := LuhnTerm(b, doubled) - LuhnTerm(a, doubled) + LuhnTerm(a, !doubled) - LuhnTerm(b, !doubled);
            change % 10 == 0 <==> a == b || {a, b} == {'0', '9'}
  {
    TwiceADigit(a);
    TwiceADigit(b);
    hide LuhnTerm;
    var x, y := DigitValue(a), DigitValue(b);
    assert {a, b} == {'0', '9'} <==> (x == 0 && y == 9) || (x == 9 && y == 0) by { ZeroAndNine(a, b); }
  }

  lemma ZeroAndNine(a: char, b: char)
    requires IsDigit(a) && IsDigit(b)
    ensures {a, b} == {'0', '9'} <==>
            (DigitValue(a) == 0 && DigitValue(b) == 9) || (DigitValue(a) == 9 && DigitValue(b) == 0)
  {
    if {a, b} == {'0', '9'} {
      assert a in {'0', '9'} && b in {'0', '9'} && '0' in {a, b} && '9' in {a, b};
    }
  }

  /** The check digit itself counts as it is and the digit before it twice, whatever the
      length. */
  lemma {:induction false} LuhnEnds(s: string, c: char, d: char)
    requires AllDigits(s) && IsDigit(c) && IsDigit(d) && forall i :: 0 <= i < |s| ==> s[i] == '0'
    ensures AllDigits(s + [c] + [d]) && LuhnSum(s + [c] + [d]) == LuhnTerm(c, true) + DigitValue(d)
  {
    var all := s + [c] + [d];
    if s != "" {
      LuhnEnds(s[1..], c, d);
      assert all[1..] == s[1..] + [c] + [d];
      TwiceADigit('0');
      assert LuhnTerm(all[0], |all| % 2 == 0) == 0;
      hide LuhnTerm;
    } else {
      TwiceADigit(d);
      assert all[1..] == [d] && [d][1..] == "";
      assert LuhnSum([d]) == LuhnTerm(d, false);
      hide LuhnTerm;
    }
  }
}

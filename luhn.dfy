// The Luhn mod-10 checksum of ISO/IEC 7812-1, Annex B, as luhn.py computes it.
// A number is handled as Python's str(num): a string of decimal digits
// (str of an int has no leading zeros; a string argument may have some).
// digits_rtl is a loop that peels off the last digit; the rest is expressions.

module Luhn {

  predicate IsDigit(c: char)
  {
    '0' <= c <= '9'
  }

  predicate IsDigitString(s: string)
  {
    forall i :: 0 <= i < |s| ==> IsDigit(s[i])
  }

  /** int(c) for one digit character; also ord(c) - ord('0'). */
  function DigitValue(c: char): (d: nat)
    requires IsDigit(c)
    ensures d < 10
  {
    (c as int) - ('0' as int)
  }

  function DigitChar(d: nat): (c: char)
    requires d < 10
    ensures IsDigit(c) && DigitValue(c) == d
  {
    (('0' as int) + d) as char
  }

  /** int(s) for a string of decimal digits, leading zeros allowed. */
  function IntOf(s: string): nat
    requires IsDigitString(s)
  {
    if s == [] then 0 else 10 * IntOf(s[..|s| - 1]) + DigitValue(s[|s| - 1])
  }

  /** str(n) for a natural number: its decimal digits, without leading zeros. */
  function Str(n: nat): (s: string)
    ensures IsDigitString(s) && |s| > 0
    ensures DigitValue(s[|s| - 1]) == n % 10
  {
    if n < 10 then [DigitChar(n)] else Str(n / 10) + [DigitChar(n % 10)]
  }

  /** str is a right inverse of int: int(str(n)) == n, and str(n) starts with
      '0' only for n == 0. */
  lemma {:induction false} StrRoundTrip(n: nat)
    ensures IntOf(Str(n)) == n
    ensures Str(n)[0] == '0' ==> n == 0
  {
    if n >= 10 {
      StrRoundTrip(n / 10);
      var s := Str(n);
      assert s[..|s| - 1] == Str(n / 10);
    }
  }

  // ---------------------------------------------------------------------
  // The digits, right to left

  /** The value of digits given least significant first. */
  function ValueRtl(ds: seq<nat>): nat
  {
    if ds == [] then 0 else ds[0] + 10 * ValueRtl(ds[1..])
  }

  /** What digits_rtl yields for a value, least significant digit first;
      nothing for 0. */
  function DigitsRtlOf(n: nat): seq<nat>
  {
    if n == 0 then [] else [n % 10] + DigitsRtlOf(n / 10)
  }

  /** digits_rtl yields decimal digits, the last one (the most significant)
      non-zero, and they are the digits of n: read back, they give n. */
  lemma {:induction false} DigitsRtlOfSpec(n: nat)
    ensures forall i :: 0 <= i < |DigitsRtlOf(n)| ==> DigitsRtlOf(n)[i] < 10
    ensures DigitsRtlOf(n) != [] ==> DigitsRtlOf(n)[|DigitsRtlOf(n)| - 1] != 0
    ensures ValueRtl(DigitsRtlOf(n)) == n
    ensures DigitsRtlOf(n) == [] <==> n == 0
  {
    if n > 0 {
      DigitsRtlOfSpec(n / 10);
      assert DigitsRtlOf(n)[1..] == DigitsRtlOf(n / 10);
    }
  }

  /** digits_rtl(num): peels off the last decimal digit of int(num) until nothing is left. */
  method DigitsRtl(num: string) returns (ds: seq<nat>)
    requires IsDigitString(num) && |num| > 0
    ensures ds == DigitsRtlOf(IntOf(num))
  {
    var val := IntOf(num);
    ds := [];
    while val != 0
      invariant ds + DigitsRtlOf(val) == DigitsRtlOf(IntOf(num))
      decreases val
    {
      assert DigitsRtlOf(val) == [val % 10] + DigitsRtlOf(val / 10);
      ds := ds + [val % 10];
      val := val / 10;
    }
  }

  /** digits_rtl_2(num): map(int, str(num)[::-1]), every character, leading zeros included. */
  function DigitsRtl2(num: string): (ds: seq<int>)
    requires IsDigitString(num)
    ensures |ds| == |num|
    ensures forall i :: 0 <= i < |ds| ==> ds[i] == DigitValue(num[|num| - 1 - i])
  {
    if num == [] then []
    else [DigitValue(num[|num| - 1])] + DigitsRtl2(num[..|num| - 1])
  }

  /** digits_rtl_3(num): ord(c) - ord('0') for every character of str(num)[::-1];
      defined for any string, a digit only for digit characters. */
  function DigitsRtl3(num: string): (ds: seq<int>)
    ensures |ds| == |num|
    ensures forall i :: 0 <= i < |ds| ==> ds[i] == (num[|num| - 1 - i] as int) - ('0' as int)
  {
    if num == [] then []
    else [(num[|num| - 1] as int) - ('0' as int)] + DigitsRtl3(num[..|num| - 1])
  }

  // ---------------------------------------------------------------------
  // The weighted sum

  predicate IsEven(num: int)
  {
    num % 2 == 0
  }

  /** luhnize(digit, index): keep the digit at an even index; at an odd index
      double it and, from 5 on, subtract 9. For a decimal digit the result is
      again a decimal digit: the digit at an even index, and the sum of the
      digits of its double at an odd index, as Annex B of ISO/IEC 7812-1 states it. */
  function Luhnize(digit: int, index: int): (r: int)
    ensures 0 <= digit <= 9 ==> 0 <= r <= 9
    ensures 0 <= digit <= 9 && IsEven(index) ==> r == digit
    ensures 0 <= digit <= 9 && !IsEven(index) ==> r == (2 * digit) / 10 + (2 * digit) % 10
  {
    if IsEven(index) then digit
    else if digit < 5 then digit * 2
    else digit * 2 - 9
  }

  /** sum(luhnize(digit, ind) for ind, digit in enumerate(ds)), the enumeration starting at index. */
  function WeightedSum(ds: seq<int>, index: int): int
  {
    if ds == [] then 0 else Luhnize(ds[0], index) + WeightedSum(ds[1..], index + 1)
  }

  /** luhn_sum(val) for an int argument: the digits_rtl loop runs on the value itself. */
  function LuhnSumInt(val: nat): int
  {
    WeightedSum(DigitsRtlOf(val), 0)
  }

  /** luhn_sum(num) for a string argument; int(num) raises on the empty string,
      so num is not empty. */
  function LuhnSum(num: string): int
    requires IsDigitString(num) && |num| > 0
  {
    LuhnSumInt(IntOf(num))
  }

  /** luhn_sum2(num). */
  function LuhnSum2(num: string): int
    requires IsDigitString(num)
  {
    WeightedSum(DigitsRtl2(num), 0)
  }

  /** luhn_sum3(num). */
  function LuhnSum3(num: string): int
  {
    WeightedSum(DigitsRtl3(num), 0)
  }

  // ---------------------------------------------------------------------
  // Validators and the check digit

  /** luhn(num): the empty string, or a weighted sum that is a multiple of 10. */
  predicate Luhn(num: string)
    requires IsDigitString(num)
  {
    |num| == 0 || LuhnSum(num) % 10 == 0
  }

  /** luhn_checkdigit(num): the last character of str(luhn_sum(num + '0')),
      subtracted from 10 unless it is '0'. It is the one digit that, put
      after num, makes the weighted sum a multiple of 10. */
  function CheckDigit(num: string): (d: nat)
    requires IsDigitString(num)
    ensures d < 10
    ensures (LuhnSum(num + "0") + d) % 10 == 0
  {
    var s := LuhnSum(num + "0");
    assert s >= 0 by {
      DigitsRtlOfSpec(IntOf(num + "0"));
      WeightedSumNonNegative(DigitsRtlOf(IntOf(num + "0")), 0);
    }
    var sumStr := Str(s);
    var sumDigit := sumStr[|sumStr| - 1];
    if sumDigit == '0' then 0 else 10 - DigitValue(sumDigit)
  }

  /** luhn2(num): the empty string, or a last digit equal to the check digit of the rest. */
  predicate Luhn2(num: string)
    requires IsDigitString(num)
  {
    |num| == 0 || CheckDigit(num[..|num| - 1]) == DigitValue(num[|num| - 1])
  }

  // ---------------------------------------------------------------------
  // Lemmas

  lemma {:induction false} WeightedSumNonNegative(ds: seq<nat>, index: int)
    requires forall i :: 0 <= i < |ds| ==> ds[i] < 10
    ensures WeightedSum(ds, index) >= 0
  {
    if ds != [] {
      WeightedSumNonNegative(ds[1..], index + 1);
    }
  }

  /** is_even(num) for every integer, negatives included (Python's % floors, so -3 % 2 == 1):
      0 is even, and evenness alternates from each integer to the next. */
  lemma IsEvenAlternates(num: int)
    ensures IsEven(0)
    ensures IsEven(num) != IsEven(num + 1)
    ensures IsEven(-num) == IsEven(num)
  {
  }

  /** The cases of test_is_even and test_is_not_even (sys.maxsize is 2^63 - 1). */
  lemma IsEvenExamples()
    ensures IsEven(-4) && IsEven(0) && IsEven(2) && IsEven(0x1_0000_0000_0000_0000) && IsEven(1432523045198)
    ensures !IsEven(-3) && !IsEven(1) && !IsEven(20398457) && !IsEven(0x7FFF_FFFF_FFFF_FFFF)
  {
  }

  /** The cases of test_luhnize. */
  lemma LuhnizeExamples()
    ensures Luhnize(0, 1) == 0 && Luhnize(0, 0) == 0 && Luhnize(1, 5) == 2 && Luhnize(1, 10) == 1
    ensures Luhnize(4, 3) == 8 && Luhnize(4, 2) == 4 && Luhnize(5, 9) == 1 && Luhnize(5, 4) == 5
    ensures Luhnize(8, 1) == 7 && Luhnize(8, 8) == 8
  {
  }

  /** digits_rtl_2 and digits_rtl_3 read the same digits off a digit string. */
  lemma DigitsRtl3IsDigitsRtl2(num: string)
    requires IsDigitString(num)
    ensures DigitsRtl3(num) == DigitsRtl2(num)
  {
  }

  lemma DivModTen(m: nat, v: nat)
    requires v < 10
    ensures (10 * m + v) % 10 == v && (10 * m + v) / 10 == m
  {
  }

  /** Reading every character right to left gives the digits of int(num) followed by
      zeros for the leading zeros, and zeros add nothing to the weighted sum. */
  lemma {:induction false} WeightedSumDigitsRtl2(num: string, index: int)
    requires IsDigitString(num)
    ensures WeightedSum(DigitsRtl2(num), index) == WeightedSum(DigitsRtlOf(IntOf(num)), index)
    decreases |num|
  {
    if num != [] {
      var init, v := num[..|num| - 1], DigitValue(num[|num| - 1]);
      WeightedSumDigitsRtl2(init, index + 1);
      var m, n := IntOf(init), IntOf(num);
      assert n == 10 * m + v;
      var ds := DigitsRtl2(num);
      assert ds[0] == v && ds[1..] == DigitsRtl2(init);
      assert WeightedSum(ds, index) == Luhnize(v, index) + WeightedSum(DigitsRtlOf(m), index + 1);
      if n == 0 {
        assert m == 0 && v == 0;
      } else {
        DivModTen(m, v);
        assert DigitsRtlOf(n) == [v] + DigitsRtlOf(m);
        assert DigitsRtlOf(n)[1..] == DigitsRtlOf(m);
      }
    }
  }

  /** luhn_sum2 and luhn_sum3 agree with luhn_sum on every digit string: the
      leading zeros they also read contribute nothing. */
  lemma LuhnSumsAgree(num: string)
    requires IsDigitString(num) && |num| > 0
    ensures LuhnSum2(num) == LuhnSum(num)
    ensures LuhnSum3(num) == LuhnSum(num)
  {
    WeightedSumDigitsRtl2(num, 0);
    DigitsRtl3IsDigitsRtl2(num);
  }

  /** A digit appended to p is weighted 1, and shifts p's digits by one place:
      the sum is that digit plus the sum of p + '0'. */
  lemma LuhnSumAppend(p: string, c: char)
    requires IsDigitString(p) && IsDigit(c)
    ensures LuhnSum(p + [c]) == DigitValue(c) + LuhnSum(p + "0")
  {
    var s, z := p + [c], p + "0";
    LuhnSumsAgree(s);
    LuhnSumsAgree(z);
    assert s[..|s| - 1] == p && z[..|z| - 1] == p;
    assert DigitsRtl2(s)[1..] == DigitsRtl2(p) == DigitsRtl2(z)[1..];
  }

  /** Two digits that each complete s to a multiple of 10 are equal. */
  lemma CompletingDigitUnique(s: int, v: int, d: int)
    requires 0 <= v < 10 && 0 <= d < 10 && (s + d) % 10 == 0
    ensures (s + v) % 10 == 0 <==> v == d
  {
    var q, r := s / 10, s % 10;
    assert s == 10 * q + r && 0 <= r < 10;
    assert (s + d) % 10 == (r + d) % 10;
    assert (s + v) % 10 == (r + v) % 10;
  }

  /** The check digit is the only digit that completes p to a number luhn accepts. */
  lemma CheckDigitUnique(p: string, c: char)
    requires IsDigitString(p) && IsDigit(c)
    ensures Luhn(p + [c]) <==> DigitValue(c) == CheckDigit(p)
  {
    var s := p + [c];
    assert IsDigitString(s) && |s| > 0;
    LuhnSumAppend(p, c);
    var base, v, d := LuhnSum(p + "0"), DigitValue(c), CheckDigit(p);
    assert Luhn(s) == ((base + v) % 10 == 0);
    CompletingDigitUnique(base, v, d);
  }

  /** Round trip: appending luhn_checkdigit(p) to p gives a number luhn accepts. */
  lemma CheckDigitRoundTrip(p: string)
    requires IsDigitString(p)
    ensures Luhn(p + [DigitChar(CheckDigit(p))])
  {
    CheckDigitUnique(p, DigitChar(CheckDigit(p)));
  }

  /** Of every number luhn accepts, the last digit is the check digit of the rest. */
  lemma CheckDigitOfValid(num: string)
    requires IsDigitString(num) && |num| > 0 && Luhn(num)
    ensures CheckDigit(num[..|num| - 1]) == DigitValue(num[|num| - 1])
  {
    assert num == num[..|num| - 1] + [num[|num| - 1]];
    CheckDigitUnique(num[..|num| - 1], num[|num| - 1]);
  }

  /** luhn and luhn2 give the same verdict on every digit string. */
  lemma LuhnAgreesWithLuhn2(num: string)
    requires IsDigitString(num)
    ensures Luhn(num) == Luhn2(num)
  {
    if |num| > 0 {
      assert num == num[..|num| - 1] + [num[|num| - 1]];
      CheckDigitUnique(num[..|num| - 1], num[|num| - 1]);
    }
  }

  /** luhn(n) for an int n works on str(n), whose int is n again: the verdict
      is the weighted sum of n's own digits, modulo 10. */
  lemma LuhnOfInt(n: nat)
    ensures Luhn(Str(n)) <==> LuhnSumInt(n) % 10 == 0
  {
    StrRoundTrip(n);
  }

  /** A last digit d after the value m has weight 1 and moves m's digits one place up. */
  lemma LuhnSumShift(m: nat, d: nat)
    requires d < 10
    ensures LuhnSumInt(10 * m + d) == d + WeightedSum(DigitsRtlOf(m), 1)
  {
    DivModTen(m, d);
    if 10 * m + d == 0 {
      assert m == 0;
    } else {
      assert DigitsRtlOf(10 * m + d)[1..] == DigitsRtlOf(m);
    }
  }

  // ---------------------------------------------------------------------
  // The cases of the unit tests

  /** The short integer cases of test_luhn_sum. */
  lemma LuhnSumExamples()
    ensures LuhnSumInt(1) == 1 && LuhnSumInt(11) == 3 && LuhnSumInt(45) == 13 && LuhnSumInt(0) == 0
    ensures LuhnSumInt(5555) == 12
  {
  }

  /** The nine-digit case of test_luhn_sum. */
  lemma NineDigitLuhnSumExample()
    ensures LuhnSumInt(123456789) == 47
  {
    assert DigitsRtlOf(123456789) == [9, 8, 7, 6, 5, 4, 3, 2, 1];
  }

  /** The ten-digit case of test_luhn_sum. */
  lemma TenDigitLuhnSumExample()
    ensures LuhnSumInt(1234567890) == 43
  {
    assert DigitsRtlOf(1234567890) == [0, 9, 8, 7, 6, 5, 4, 3, 2, 1];
  }

  /** The string case '0000000002' of test_luhn_sum, read by every character:
      the leading zeros add nothing. */
  lemma PaddedLuhnSumExample()
    ensures LuhnSum2("0000000002") == 2 && LuhnSum3("0000000002") == 2
  {
    var z := "0000000002";
    assert DigitsRtl2(z) == [2, 0, 0, 0, 0, 0, 0, 0, 0, 0];
    assert DigitsRtl3(z) == [2, 0, 0, 0, 0, 0, 0, 0, 0, 0];
  }

  lemma PrefixWeightedSum()
    ensures WeightedSum(DigitsRtlOf(7992739871), 1) == 67
  {
    assert DigitsRtlOf(7992739871) == [1, 7, 8, 9, 3, 7, 2, 9, 9, 7];
  }

  lemma CompletesSixtySeven(d: nat)
    requires d < 10
    ensures (67 + d) % 10 == 0 <==> d == 3
  {
  }

  /** 79927398710 through 79927398719, of which test_valid_luhn and
      test_invalid_luhn list every one: the sum is 67 plus the last digit
      (so luhn_sum(79927398710) == 67), and only the last digit 3 is accepted. */
  lemma LastDigitExamples(d: nat)
    requires d < 10
    ensures LuhnSumInt(79927398710 + d) == 67 + d
    ensures LuhnSumInt(79927398710 + d) % 10 == 0 <==> d == 3
  {
    PrefixWeightedSum();
    LuhnSumShift(7992739871, d);
    CompletesSixtySeven(d);
  }

  /** The short integers of INVALID_NUMBERS and VALID_NUMBERS. */
  lemma ShortNumberExamples()
    ensures LuhnSumInt(4) % 10 != 0 && LuhnSumInt(27) % 10 != 0
    ensures LuhnSumInt(0) % 10 == 0 && LuhnSumInt(18) % 10 == 0 && LuhnSumInt(356) % 10 == 0
  {
  }

  /** The zero-padded strings '0002' (invalid) and '00026' (valid). */
  lemma PaddedNumberExamples()
    ensures LuhnSum2("0002") % 10 != 0 && LuhnSum2("00026") % 10 == 0
  {
    assert DigitsRtl2("0002") == [2, 0, 0, 0];
    assert DigitsRtl2("00026") == [6, 2, 0, 0, 0];
  }
}

# Tilings and Luhn checksums, modelled in Dafny

This project models two small Python modules of the Check-This-Out repository
and proves what they compute.

**Tilings** (`python/tilings.py`; the top-level `tilings.py` is the same file)
counts the ways to tile a 1 x N strip with tiles of length one and two.
- A tiling is written as a sequence over {1, 2, 3}. A 1 is a unit tile, and a 2
  immediately followed by a 3 is one length-two tile.
- `is_valid` checks such a sequence, optionally with an expected number of 2s.
- The brute-force side enumerates `itertools.product([1, 2, 3], repeat=cols)`
  and filters it by `is_valid`. It yields `brute_all_tilings`,
  `brute_num_tilings` and `brute_partial_num_tilings`.
- The fast side is the recurrence `partial_num_tilings(twos, cols)`. Its base
  case is `scipy.special.comb(cols - 1, twos)`. `num_tilings` sums it over
  `range(cols // 2 + 1)`.
- Both `brute_all_tilings` and `partial_num_tilings` are wrapped in
  `lru_cache`. The cache is modelled as a class whose two maps are the memo
  tables.

Modules:
- `TilingValidator` models the scan with its early returns. It gives a
  declarative reading of what the scan accepts and the ways a valid tiling
  can start.
- `TilingEnumerator` models the product, the filter and the brute counts.
- `TilingRecurrence` models the binomial base case with scipy's zero
  convention, the recurrence, the sum, and the proofs that the two sides agree.
  - Away from the empty strip both sides equal C(cols - twos, twos), and the totals are Fib(cols + 1).
  - The 2 x 14 question of the module docstring therefore has the answer 610.
- `TilingMemo` holds the cache class and one column count of the validation
  that `main` prints.

The recurrence and the brute force disagree in exactly one place, the empty
strip.
- `partial_num_tilings(0, 0)` is `comb(-1, 0)`, which is 0, so
  `num_tilings(0)` is 0.
- The brute force counts the empty tiling, so `brute_num_tilings(0)` is 1.
- The model follows the code here: `EmptyStrip` proves both values.
- The agreement lemmas are stated for `cols >= 1`. That is also the range
  `main` compares (lines 138-153).
- One might expect `num_tilings(0) == 1`, counting the empty tiling as the brute force does; the code returns 0 (`EmptyStrip`).

**Luhn** (`python/luhn.py`) computes and checks the Luhn mod-10 check digit of
ISO/IEC 7812-1, Annex B.
- A number is handled as `str(num)`: a string of decimal digits, which may
  carry leading zeros when it was given as a string. An int n enters as
  `Str(n)`.
- There are three ways to read the digits from right to left:
  - `digits_rtl` is a loop over the value, modelled as a method;
  - `digits_rtl_2` reads every character with `int`;
  - `digits_rtl_3` reads every character with `ord`.
- The weighted sum, the two validators `luhn` and `luhn2`, and
  `luhn_checkdigit` are functions.
- The proofs cover:
  - all three sums agree, because leading zeros add nothing;
  - the check digit completes any prefix;
  - it is the only digit that does;
  - `luhn` and `luhn2` agree on every digit string.
- The cases of the unit tests that fit the verifier's literal evaluation are
  restated as lemmas.

`test_luhn_sum` (line 192) loops over the three sum functions, but it calls
`luhn_sum` every time. So the test never exercises `luhn_sum2` and
`luhn_sum3`. `Luhn.LuhnSumsAgree` proves for every digit string what that
test meant to check.

## Model

| member | source | states |
|---|---|---|
| TilingValidator.CountTwos | python/tilings.py:36 | `tiling.count(2)` never exceeds the length of the tiling |
| TilingValidator.CountTwosIsMultiplicity | python/tilings.py:36 | `tiling.count(2)` is the number of occurrences of 2 in the tiling, its multiplicity in the multiset of symbols |
| TilingValidator.IsValidIff | python/tilings.py:23-54 | `is_valid` accepts exactly the sequences over {1, 2, 3} in which every 2 is directly followed by a 3 and every 3 directly preceded by a 2, with exactly `twos` 2s when a count is given (both directions) |
| TilingValidator.ValidPairing | python/tilings.py:39-53 | at every position of an accepted tiling: the symbol is 1, 2 or 3; a 2 has a 3 after it; a 3 has a 2 before it |
| TilingValidator.ValidRejects | python/tilings.py:36-37 | a wrong count of 2s is rejected; any symbol outside {1, 2, 3} is rejected; the empty tiling is accepted exactly when no count or the count 0 is asked for |
| TilingValidator.ScanShift | python/tilings.py:39-54 | behind a prefix not ending in 2, the scan of the rest behaves as the scan of the rest alone |
| TilingValidator.ValidConsUnit | python/tilings.py:40-41 | a unit tile in front changes neither validity nor the count of 2s |
| TilingValidator.ValidConsDomino | python/tilings.py:36-37 | a length-two tile in front is valid exactly when the rest is valid with one 2 fewer |
| TilingValidator.InvalidConsTail | python/tilings.py:47-51 | no tiling starts with a 3 |
| TilingValidator.InvalidConsLoneHead | python/tilings.py:42-46 | a 2 not followed by a 3 is rejected |
| TilingValidator.ValidUncons | python/tilings.py:39-54 | every non-empty valid tiling starts with a unit tile or a length-two tile followed by a valid tiling |
| TilingValidator.TwosBound | python/tilings.py:39-54 | a valid tiling of length n has at most n / 2 length-two tiles |
| TilingEnumerator.PrefixMember | python/tilings.py:69 | the members of a block of the product with a fixed first symbol are that symbol in front of the shorter product's members |
| TilingEnumerator.ProductMembers | python/tilings.py:69 | `product([1, 2, 3], repeat=cols)` holds exactly the length-cols sequences over {1, 2, 3} |
| TilingEnumerator.ProductDistinct | python/tilings.py:69 | the product yields each sequence once, 3^cols of them |
| TilingEnumerator.PrefixDistinct | python/tilings.py:69 | one symbol put in front of a duplicate-free list keeps it duplicate-free |
| TilingEnumerator.NoDuplicatesAppend | python/tilings.py:69 | the three blocks of the product concatenate without duplicates |
| TilingEnumerator.FilterAppend | python/tilings.py:69 | `filter` distributes over concatenation |
| TilingEnumerator.FilterExactly | python/tilings.py:69 | `filter` keeps exactly the valid members and adds no duplicates |
| TilingEnumerator.FilterTwice | python/tilings.py:97 | filtering the valid tilings by a count equals filtering all candidates by that count |
| TilingEnumerator.CountPrefixUnit | python/tilings.py:69 | candidates starting with a unit tile are counted as the shorter candidates |
| TilingEnumerator.CountPrefixDomino | python/tilings.py:69 | candidates starting with a length-two tile are counted as the shorter ones with one 2 fewer |
| TilingEnumerator.CountPrefixNone | python/tilings.py:69 | candidates starting with 3, 2 1, 2 2 or a final lone 2 contribute nothing |
| TilingEnumerator.PrefixAppend | python/tilings.py:69 | putting a prefix in front distributes over concatenation |
| TilingEnumerator.PrefixPrefix | python/tilings.py:69 | two prefixes put in front one after the other are their concatenation put in front |
| TilingEnumerator.BruteRecurrence | python/tilings.py:69 | the number of valid candidates of length cols >= 2 is that of length cols - 1 plus that of length cols - 2 with one 2 fewer |
| TilingEnumerator.BruteBase | python/tilings.py:69 | a strip of zero or one column has one tiling, with no 2s |
| TilingEnumerator.BruteAllTilingsExactly | python/tilings.py:56-69 | `brute_all_tilings(cols)` holds exactly the valid length-cols tilings, each once |
| TilingEnumerator.BrutePartialIsFilterCount | python/tilings.py:85-97 | `brute_partial_num_tilings` counts the candidates valid with that many 2s |
| TilingEnumerator.BruteNumTilingsSmall | python/tilings.py:71-83 | `brute_num_tilings` is 1, 1, 2, 3 for 0 to 3 columns |
| TilingEnumerator.ValidThreeColumns | python/tilings.py:66-67 | every valid three-column tiling is (1, 1, 1), (1, 2, 3) or (2, 3, 1) |
| TilingEnumerator.ThreeColumnsValid | python/tilings.py:66-67 | (1, 1, 1), (1, 2, 3) and (2, 3, 1) are valid |
| TilingEnumerator.BruteAllTilingsThree | python/tilings.py:66-69 | `brute_all_tilings(3)` is the three tilings of its docstring, each once |
| TilingRecurrence.Fact | python/tilings.py:113 | factorials are positive |
| TilingRecurrence.CombFactorial | python/tilings.py:113 | `comb(n, k)` is n! / (k! (n - k)!) for 0 <= k <= n |
| TilingRecurrence.CombSmall | python/tilings.py:112-113 | `comb(n, 0)` is 1 and `comb(n, 1)` is n for n >= 1, and both are 0 below their range |
| TilingRecurrence.Pascal | python/tilings.py:113 | Pascal's rule holds for `comb` everywhere except at (0, 0) |
| TilingRecurrence.PartialBase | python/tilings.py:112-113 | `partial_num_tilings(0, cols)` is 1 and `partial_num_tilings(1, cols)` is cols - 1 for cols >= 1; a negative count gives 0; `partial_num_tilings(0, 0)` is 0 |
| TilingRecurrence.PartialIsBinomial | python/tilings.py:99-119 | away from (0, 0), `partial_num_tilings(twos, cols)` is C(cols - twos, twos) |
| TilingRecurrence.BruteIsBinomial | python/tilings.py:85-97 | the brute count with that many 2s is C(cols - twos, twos) for every cols >= 0 |
| TilingRecurrence.PartialMatchesBrute | python/tilings.py:99-119 | `partial_num_tilings` equals `brute_partial_num_tilings` for every count of 2s once cols >= 1 |
| TilingRecurrence.PartialTooManyTwos | python/tilings.py:99-119 | more length-two tiles than fit give no tilings |
| TilingRecurrence.EmptyStrip | python/tilings.py:112-113 | for the empty strip the recurrence gives 0 where the brute force gives 1, for the partial count and for the total |
| TilingRecurrence.SumCountsUncons | python/tilings.py:132 | summing the per-count numbers of valid candidates splits off the first candidate |
| TilingRecurrence.FilterNoneIsSum | python/tilings.py:132 | counting all valid candidates is summing their counts per number of 2s over a range that covers them |
| TilingRecurrence.ZeroSum | python/tilings.py:132 | no candidates give a sum of 0 |
| TilingRecurrence.SumPartialsMatchesBrute | python/tilings.py:132 | summing `partial_num_tilings` over range(m) equals summing the brute counts over range(m) |
| TilingRecurrence.NumTilingsMatchesBrute | python/tilings.py:121-132 | `num_tilings` equals `brute_num_tilings` once cols >= 1 |
| TilingRecurrence.BruteNumIsFib | python/tilings.py:71-83 | `brute_num_tilings(cols)` is the (cols + 1)-th Fibonacci number |
| TilingRecurrence.NumTilingsIsFib | python/tilings.py:121-132 | `num_tilings(cols)` is the (cols + 1)-th Fibonacci number once cols >= 1 |
| TilingRecurrence.NumTilingsKnownValues | python/tilings.py:3-4 | `num_tilings` is 1, 2, 3, 5 for 1 to 4 columns, and 610 (more than 500) for 14 |
| TilingMemo.Memo.constructor | python/tilings.py:56 | both caches start empty and consistent |
| TilingMemo.Memo.PartialNumTilings | python/tilings.py:99-119 | the cached `partial_num_tilings` returns the recurrence's value on a hit or a miss, stores it, keeps every cached entry correct and evicts nothing |
| TilingMemo.Memo.NumTilings | python/tilings.py:121-132 | the sum loop through the cache returns `num_tilings(cols)` and keeps the cache correct |
| TilingMemo.Memo.BruteAllTilings | python/tilings.py:56-69 | the cached `brute_all_tilings` returns the uncached list and stores it |
| TilingMemo.Memo.BruteNumTilings | python/tilings.py:71-83 | the length of the cached list is `brute_num_tilings(cols)` |
| TilingMemo.Memo.BrutePartialNumTilings | python/tilings.py:85-97 | filtering the cached list gives `brute_partial_num_tilings(twos, cols)` |
| TilingMemo.ValidateColumns | python/tilings.py:138-153 | for one column count >= 1, every per-count comparison and the total comparison agree |
| Luhn.DigitValue | python/luhn.py:58 | `int` of a digit character is a decimal digit |
| Luhn.DigitChar | python/luhn.py:58 | the character of a decimal digit is a digit character with that value |
| Luhn.Str | python/luhn.py:20 | `str(n)` is a non-empty digit string whose last digit is n % 10 |
| Luhn.StrRoundTrip | python/luhn.py:20 | `int(str(n)) == n`, and `str(n)` starts with '0' only for n == 0 |
| Luhn.DigitsRtlOfSpec | python/luhn.py:48-53 | the digits of n are decimal digits, the most significant is non-zero, they read back to n, and there are none exactly for n == 0 |
| Luhn.DigitsRtl | python/luhn.py:48-53 | the loop yields the digits of `int(num)` from least significant on |
| Luhn.DigitsRtl2 | python/luhn.py:55-58 | one digit per character, the i-th from the right first |
| Luhn.DigitsRtl3 | python/luhn.py:60-64 | one value `ord(c) - ord('0')` per character, the i-th from the right first |
| Luhn.DigitsRtl3IsDigitsRtl2 | python/luhn.py:55-64 | on digit strings, `digits_rtl_3` and `digits_rtl_2` yield the same digits |
| Luhn.Luhnize | python/luhn.py:66-77 | a digit at an even index is kept; at an odd index the result is the digit sum of its double; the result is again a digit |
| Luhn.WeightedSumNonNegative | python/luhn.py:38 | a weighted sum of decimal digits is never negative |
| Luhn.IsEvenAlternates | python/luhn.py:79-80 | 0 is even, evenness alternates between neighbours, and a number and its negation agree |
| Luhn.IsEvenExamples | python/luhn.py:141-149 | the even and odd cases of `test_is_even` and `test_is_not_even`, 2^64 and `sys.maxsize` included |
| Luhn.LuhnizeExamples | python/luhn.py:162-176 | the cases of `test_luhnize` |
| Luhn.WeightedSumDigitsRtl2 | python/luhn.py:36-58 | the weighted sum over every character equals the weighted sum over the digits of the value |
| Luhn.LuhnSumsAgree | python/luhn.py:36-46 | `luhn_sum2` and `luhn_sum3` equal `luhn_sum` on every non-empty digit string |
| Luhn.LuhnSumAppend | python/luhn.py:33 | the sum of p followed by digit c is c plus the sum of p + '0' |
| Luhn.CheckDigit | python/luhn.py:31-34 | `luhn_checkdigit(p)` is a digit that makes the sum of p + '0' plus it a multiple of 10 |
| Luhn.CompletingDigitUnique | python/luhn.py:34 | at most one decimal digit completes a sum to a multiple of 10 |
| Luhn.CheckDigitUnique | python/luhn.py:18-34 | `luhn(p + c)` holds exactly when c is `luhn_checkdigit(p)` |
| Luhn.CheckDigitRoundTrip | python/luhn.py:18-34 | appending `luhn_checkdigit(p)` to p gives a number `luhn` accepts |
| Luhn.CheckDigitOfValid | python/luhn.py:194-197 | the last digit of every number `luhn` accepts is the check digit of the rest |
| Luhn.LuhnAgreesWithLuhn2 | python/luhn.py:18-29 | `luhn` and `luhn2` give the same verdict on every digit string |
| Luhn.LuhnOfInt | python/luhn.py:18-21 | `luhn(n)` for an int holds exactly when the weighted sum of n's digits is a multiple of 10 |
| Luhn.LuhnSumShift | python/luhn.py:36-53 | a last digit d after the value m adds d and moves m's digits to the next index |
| Luhn.LuhnSumExamples | python/luhn.py:178-184 | `luhn_sum` of 1, 11, 45, 0 and 5555 is 1, 3, 13, 0 and 12 |
| Luhn.NineDigitLuhnSumExample | python/luhn.py:186 | `luhn_sum(123456789)` is 47 |
| Luhn.TenDigitLuhnSumExample | python/luhn.py:185 | `luhn_sum(1234567890)` is 43 |
| Luhn.PaddedLuhnSumExample | python/luhn.py:187 | `luhn_sum2('0000000002')` and `luhn_sum3('0000000002')` are 2 |
| Luhn.PrefixWeightedSum | python/luhn.py:88 | the digits of 7992739871, weighted from index 1, sum to 67 |
| Luhn.CompletesSixtySeven | python/luhn.py:88-96 | only the last digit 3 completes 67 to a multiple of 10 |
| Luhn.LastDigitExamples | python/luhn.py:88-103 | of 79927398710 to 79927398719 the sum is 67 plus the last digit, and only 79927398713 is valid |
| Luhn.ShortNumberExamples | python/luhn.py:85-101 | 4 and 27 are invalid; 0, 18 and 356 are valid |
| Luhn.PaddedNumberExamples | python/luhn.py:87-102 | '0002' is invalid and '00026' is valid, with their leading zeros read |

## Left out

- Printing, terminal colours and timing: `overprint`, `timeit_setup`, `timeit_func`, `time_tests` and `pandas` (python/luhn.py:199-252). None of them computes a checksum.
- The command-line entry points `test` and `main` (python/luhn.py:254-271). `main` is `luhn(arg)` followed by a print.
- The printing in the tilings `main` (python/tilings.py:134-156). Its comparisons are `TilingMemo.ValidateColumns`.
  - The mismatch branch at line 149 names an undefined `horizpairs` and would raise. `ValidateColumns` shows that for 1 to 14 columns this branch is never reached.
- `scipy.special.comb` returns a float, which the code truncates with `int`. The model uses the exact integer binomial with scipy's zero convention for negative or out-of-range arguments. Floating-point rounding of large binomials is not modelled.
- `lru_cache`'s locking and its bookkeeping. The cache is unbounded (`maxsize=None`), so it never evicts. The model keeps the two tables as maps.
- TilingMemo.Memo.BrutePartialNumTilings: the brute functions are stated for `cols >= 0`. For a negative `cols`, `itertools.product` raises, and that path is not modelled.
- Luhn: negative ints, non-digit strings, and the `repr` branch of `digits_rtl_2`/`digits_rtl_3` for arguments that are neither int nor str are not modelled. Numbers are digit strings, and ints enter through `Str`.
- Luhn.LuhnSum: requires a non-empty string, because `int('')` raises in `digits_rtl`. `Luhn` and `Luhn2` return true on the empty string before summing, as the code does.
- Luhn.LuhnSum: the card-network numbers of `VALID_NUMBERS` (python/luhn.py:104-137) are not restated one by one. Evaluating 14- to 19-digit literals exceeds the verifier's budget. `CheckDigitUnique`, `CheckDigitOfValid` and `LuhnAgreesWithLuhn2` state for every number what `test_valid_luhn` and `test_luhn_checkdigit` check on them.
- The performance remarks in the docstrings ("less efficient", "very fast") are not modelled.

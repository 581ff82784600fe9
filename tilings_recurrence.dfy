// The counting engine: partial_num_tilings (a three-term recurrence with a
// binomial base case) and num_tilings (its sum over the possible numbers of
// length-two tiles), proved equal to the brute-force oracle.
//
// The route: for every (twos, cols) except (0, 0) the recurrence equals
// Comb(cols - twos, twos), and so does the oracle for every cols >= 0.

module TilingRecurrence {
  import opened TilingValidator
  import opened TilingEnumerator

  /** scipy.special.comb(n, k) as an exact integer, with its convention that
      the result is 0 when n < 0, k < 0 or k > n. */
  function Comb(n: int, k: int): nat
    decreases n
  {
    if n < 0 || k < 0 || k > n then 0
    else if k == 0 then 1
    else Comb(n - 1, k - 1) + Comb(n - 1, k)
  }

  function Fact(n: nat): (r: nat)
    ensures r >= 1
  {
    if n == 0 then 1 else n * Fact(n - 1)
  }

  /** partial_num_tilings(twos, cols). */
  function PartialNumTilings(twos: int, cols: int): nat
    decreases cols
  {
    if twos <= 1 || cols <= 1 then Comb(cols - 1, twos)
    else
      PartialNumTilings(twos - 1, cols - 2) +
      PartialNumTilings(twos, cols - 2) +
      PartialNumTilings(twos - 1, cols - 3)
  }

  /** sum(partial_num_tilings(twos, cols) for twos in range(m)). */
  function SumPartials(cols: int, m: int): nat
    decreases m
  {
    if m <= 0 then 0 else SumPartials(cols, m - 1) + PartialNumTilings(m - 1, cols)
  }

  /** num_tilings(cols): Python's cols // 2 floors, as Dafny's / does for a positive divisor. */
  function NumTilings(cols: int): nat
  {
    SumPartials(cols, cols / 2 + 1)
  }

  function Fib(n: nat): nat
  {
    if n <= 1 then n else Fib(n - 1) + Fib(n - 2)
  }

  // ---------------------------------------------------------------------
  // The binomial coefficient

  lemma FactorialStep(a: int, b: int, k: int, n: int, fk1: int, fnk1: int, f: int)
    requires a * fk1 * ((n - k) * fnk1) == f
    requires b * (k * fk1) * fnk1 == f
    ensures (a + b) * (k * fk1) * ((n - k) * fnk1) == n * f
  {
    calc {
      (a + b) * (k * fk1) * ((n - k) * fnk1);
      k * (a * fk1 * ((n - k) * fnk1)) + (n - k) * (b * (k * fk1) * fnk1);
      k * f + (n - k) * f;
    }
  }

  /** Comb is the binomial coefficient: n! / (k! (n - k)!) for 0 <= k <= n. */
  lemma {:induction false} CombFactorial(n: nat, k: nat)
    requires k <= n
    ensures Comb(n, k) * Fact(k) * Fact(n - k) == Fact(n)
  {
    if k == 0 {
    } else if k == n {
      CombFactorial(n - 1, k - 1);
      assert Comb(n - 1, n - 1) * Fact(n - 1) == Fact(n - 1);
      assert Comb(n, n) == 1;
    } else {
      CombFactorial(n - 1, k - 1);
      CombFactorial(n - 1, k);
      assert Fact(k) == k * Fact(k - 1);
      assert Fact(n - k) == (n - k) * Fact(n - k - 1);
      FactorialStep(Comb(n - 1, k - 1), Comb(n - 1, k), k, n, Fact(k - 1), Fact(n - k - 1), Fact(n - 1));
    }
  }

  /** comb(n, 0) and comb(n, 1), the two values the base case uses when cols >= 1. */
  lemma {:induction false} CombSmall(n: int)
    ensures Comb(n, 0) == if n >= 0 then 1 else 0
    ensures Comb(n, 1) == if n >= 1 then n else 0
    decreases if n < 0 then 0 else n
  {
    if n >= 1 {
      CombSmall(n - 1);
    }
  }

  /** Pascal's rule, which holds everywhere except at (0, 0). */
  lemma Pascal(n: int, k: int)
    requires n != 0 || k != 0
    ensures Comb(n, k) == Comb(n - 1, k - 1) + Comb(n - 1, k)
  {
  }

  // ---------------------------------------------------------------------
  // The recurrence in closed form

  /** The base case of partial_num_tilings, with comb's zero convention:
      one tiling without 2s once cols >= 1, cols - 1 with one 2, none for a
      negative count, and comb(-1, 0) = 0 for the empty strip. */
  lemma PartialBase(cols: int)
    ensures cols >= 1 ==> PartialNumTilings(0, cols) == 1
    ensures cols >= 1 ==> PartialNumTilings(1, cols) == cols - 1
    ensures forall twos :: twos < 0 ==> PartialNumTilings(twos, cols) == 0
    ensures PartialNumTilings(0, 0) == 0
  {
    CombSmall(cols - 1);
  }

  /** Away from (0, 0), partial_num_tilings(twos, cols) is C(cols - twos, twos):
      the number of ways to place twos length-two tiles among cols - twos tiles. */
  lemma {:induction false} PartialIsBinomial(twos: int, cols: int)
    requires twos != 0 || cols != 0
    ensures PartialNumTilings(twos, cols) == Comb(cols - twos, twos)
    decreases cols
  {
    if twos <= 1 || cols <= 1 {
      if twos == 0 {
        assert Comb(cols - 1, 0) == Comb(cols, 0);
      } else if twos >= 2 {
        assert Comb(cols - 1, twos) == 0 && Comb(cols - twos, twos) == 0;
      }
    } else {
      PartialIsBinomial(twos - 1, cols - 2);
      PartialIsBinomial(twos, cols - 2);
      PartialIsBinomial(twos - 1, cols - 3);
      var n := cols - twos;
      if n >= twos {
        Pascal(n, twos);
        Pascal(n - 1, twos);
      } else {
        assert Comb(n - 1, twos - 1) == 0 && Comb(n - 2, twos) == 0 && Comb(n - 2, twos - 1) == 0;
      }
    }
  }

  /** The oracle's count for (twos, cols) is C(cols - twos, twos), cols = 0 included. */
  lemma {:induction false} BruteIsBinomial(cols: nat, twos: int)
    ensures |Filter(Product(cols), Some(twos))| == Comb(cols - twos, twos)
  {
    if cols <= 1 {
      BruteBase(cols, Some(twos));
      if twos >= 1 {
        assert Comb(cols - twos, twos) == 0;
      }
    } else {
      BruteRecurrence(cols, Some(twos));
      BruteIsBinomial(cols - 1, twos);
      BruteIsBinomial(cols - 2, twos - 1);
      Pascal(cols - twos, twos);
    }
  }

  /** The recurrence agrees with the oracle for every count of 2s once cols >= 1,
      the range main compares. */
  lemma PartialMatchesBrute(twos: int, cols: int)
    requires cols >= 1
    ensures PartialNumTilings(twos, cols) == BrutePartialNumTilings(twos, cols)
  {
    PartialIsBinomial(twos, cols);
    BruteIsBinomial(cols, twos);
    BrutePartialIsFilterCount(twos, cols);
  }

  /** More length-two tiles than fit give no tiling, the empty strip and negative cols included. */
  lemma PartialTooManyTwos(twos: int, cols: int)
    requires 2 * twos > cols
    ensures PartialNumTilings(twos, cols) == 0
  {
    PartialIsBinomial(twos, cols);
  }

  /** For the empty strip the recurrence gives comb(-1, 0) = 0 while the oracle
      counts the empty tiling; so num_tilings(0) is 0 and brute_num_tilings(0) is 1. */
  lemma EmptyStrip()
    ensures PartialNumTilings(0, 0) == 0 && BrutePartialNumTilings(0, 0) == 1
    ensures NumTilings(0) == 0 && BruteNumTilings(0) == 1
  {
    BruteIsBinomial(0, 0);
    BrutePartialIsFilterCount(0, 0);
    BruteNumTilingsSmall();
  }

  // ---------------------------------------------------------------------
  // The total

  /** sum over k in range(m) of the number of candidates in ts valid with k 2s. */
  function SumCounts(ts: seq<seq<int>>, m: nat): nat
  {
    if m == 0 then 0 else SumCounts(ts, m - 1) + |Filter(ts, Some(m - 1))|
  }

  lemma {:induction false} SumCountsUncons(ts: seq<seq<int>>, m: nat)
    requires ts != []
    ensures SumCounts(ts, m)
            == (if IsValid(ts[0], None) && CountTwos(ts[0]) < m then 1 else 0) + SumCounts(ts[1..], m)
  {
    if m > 0 {
      SumCountsUncons(ts, m - 1);
      IsValidIff(ts[0], None);
      IsValidIff(ts[0], Some(m - 1));
    }
  }

  /** Counting valid candidates whatever their 2s is summing the counts per
      number of 2s, when every valid candidate has fewer than m of them. */
  lemma {:induction false} FilterNoneIsSum(ts: seq<seq<int>>, m: nat)
    requires forall i :: 0 <= i < |ts| && IsValid(ts[i], None) ==> CountTwos(ts[i]) < m
    ensures |Filter(ts, None)| == SumCounts(ts, m)
  {
    if ts == [] {
      ZeroSum(m);
    } else {
      SumCountsUncons(ts, m);
      FilterNoneIsSum(ts[1..], m);
    }
  }

  lemma {:induction false} ZeroSum(m: nat)
    ensures SumCounts([], m) == 0
  {
    if m > 0 {
      ZeroSum(m - 1);
    }
  }

  lemma {:induction false} SumPartialsMatchesBrute(cols: int, m: nat)
    requires cols >= 1
    ensures SumPartials(cols, m) == SumCounts(Product(cols), m)
  {
    if m > 0 {
      SumPartialsMatchesBrute(cols, m - 1);
      PartialIsBinomial(m - 1, cols);
      BruteIsBinomial(cols, m - 1);
    }
  }

  /** num_tilings agrees with brute_num_tilings once cols >= 1. */
  lemma NumTilingsMatchesBrute(cols: int)
    requires cols >= 1
    ensures NumTilings(cols) == BruteNumTilings(cols)
  {
    var m := cols / 2 + 1;
    forall i | 0 <= i < |Product(cols)| && IsValid(Product(cols)[i], None)
      ensures CountTwos(Product(cols)[i]) < m
    {
      ProductMembers(cols, Product(cols)[i]);
      TwosBound(Product(cols)[i], None);
    }
    FilterNoneIsSum(Product(cols), m);
    SumPartialsMatchesBrute(cols, m);
  }

  /** The oracle's totals are Fibonacci numbers: a strip ends in a unit tile or a length-two tile. */
  lemma {:induction false} BruteNumIsFib(cols: nat)
    ensures BruteNumTilings(cols) == Fib(cols + 1)
  {
    if cols <= 1 {
      BruteBase(cols, None);
    } else {
      BruteRecurrence(cols, None);
      BruteNumIsFib(cols - 1);
      BruteNumIsFib(cols - 2);
    }
  }

  lemma FibValues()
    ensures Fib(2) == 1 && Fib(3) == 2 && Fib(4) == 3 && Fib(5) == 5 && Fib(15) == 610
  {
    assert Fib(2) == 1;
    assert Fib(3) == 2;
    assert Fib(4) == 3;
    assert Fib(5) == 5;
    assert Fib(6) == 8;
    assert Fib(7) == 13;
    assert Fib(8) == 21;
    assert Fib(9) == 34;
    assert Fib(10) == 55;
    assert Fib(11) == 89;
    assert Fib(12) == 144;
    assert Fib(13) == 233;
    assert Fib(14) == 377;
  }

  /** num_tilings(cols) is the (cols + 1)-th Fibonacci number once cols >= 1. */
  lemma NumTilingsIsFib(cols: int)
    requires cols >= 1
    ensures NumTilings(cols) == Fib(cols + 1)
  {
    NumTilingsMatchesBrute(cols);
    BruteNumIsFib(cols);
  }

  /** The totals main prints for the first columns, and for the 2 x 14 grid of
      the module docstring: 610, more than 500. */
  lemma NumTilingsKnownValues()
    ensures NumTilings(1) == 1 && NumTilings(2) == 2 && NumTilings(3) == 3 && NumTilings(4) == 5
    ensures NumTilings(14) == 610
  {
    NumTilingsIsFib(1);
    NumTilingsIsFib(2);
    NumTilingsIsFib(3);
    NumTilingsIsFib(4);
    NumTilingsIsFib(14);
    FibValues();
  }
}

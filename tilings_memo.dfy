// The two lru_cache memo tables of the tilings module, kept as explicit state:
// one for partial_num_tilings keyed by (twos, cols), one for
// brute_all_tilings keyed by cols. Every entry is the value of the uncached
// function, so a cached call returns what the plain recurrence returns.

module TilingMemo {
  import TilingValidator
  import TilingEnumerator
  import TilingRecurrence

  class Memo {
    var partials: map<(int, int), nat>
    var tilings: map<nat, seq<seq<int>>>

    /** Every cached entry is the uncached value for its key. */
    ghost predicate Valid()
      reads this
    {
      (forall key :: key in partials ==> partials[key] == TilingRecurrence.PartialNumTilings(key.0, key.1)) &&
      (forall cols :: cols in tilings ==> tilings[cols] == TilingEnumerator.BruteAllTilings(cols))
    }

    constructor ()
      ensures Valid() && partials == map[] && tilings == map[]
    {
      partials := map[];
      tilings := map[];
    }

    /** partial_num_tilings through its cache: a hit returns the stored value,
        a miss computes the recurrence (through the cache) and stores it. */
    method PartialNumTilings(twos: int, cols: int) returns (r: nat)
      requires Valid()
      modifies this
      ensures Valid()
      ensures r == TilingRecurrence.PartialNumTilings(twos, cols)
      ensures (twos, cols) in partials && partials[(twos, cols)] == r
      ensures old(partials).Keys <= partials.Keys && tilings == old(tilings)
      decreases cols
    {
      if (twos, cols) in partials {
        r := partials[(twos, cols)];
        return;
      }
      if twos <= 1 || cols <= 1 {
        r := TilingRecurrence.Comb(cols - 1, twos);
      } else {
        var a := PartialNumTilings(twos - 1, cols - 2);
        var b := PartialNumTilings(twos, cols - 2);
        var c := PartialNumTilings(twos - 1, cols - 3);
        r := a + b + c;
      }
      partials := partials[(twos, cols) := r];
    }

    /** num_tilings: the sum over twos in range(cols // 2 + 1), each term through the cache. */
    method NumTilings(cols: int) returns (r: nat)
      requires Valid()
      modifies this
      ensures Valid()
      ensures r == TilingRecurrence.NumTilings(cols)
      ensures old(partials).Keys <= partials.Keys && tilings == old(tilings)
    {
      r := 0;
      var twos := 0;
      while twos < cols / 2 + 1
        invariant Valid()
        invariant 0 <= twos && (twos <= cols / 2 + 1 || twos == 0)
        invariant r == TilingRecurrence.SumPartials(cols, twos)
        invariant old(partials).Keys <= partials.Keys && tilings == old(tilings)
      {
        var p := PartialNumTilings(twos, cols);
        r := r + p;
        twos := twos + 1;
      }
    }

    /** brute_all_tilings through its cache. */
    method BruteAllTilings(cols: nat) returns (r: seq<seq<int>>)
      requires Valid()
      modifies this
      ensures Valid()
      ensures r == TilingEnumerator.BruteAllTilings(cols)
      ensures cols in tilings && old(tilings).Keys <= tilings.Keys && partials == old(partials)
    {
      if cols in tilings {
        r := tilings[cols];
        return;
      }
      r := TilingEnumerator.BruteAllTilings(cols);
      tilings := tilings[cols := r];
    }

    /** brute_num_tilings: the length of the cached list. */
    method BruteNumTilings(cols: nat) returns (n: nat)
      requires Valid()
      modifies this
      ensures Valid()
      ensures n == TilingEnumerator.BruteNumTilings(cols)
      ensures old(tilings).Keys <= tilings.Keys && partials == old(partials)
    {
      var all := BruteAllTilings(cols);
      n := |all|;
    }

    /** brute_partial_num_tilings: the cached list filtered by the count of 2s. */
    method BrutePartialNumTilings(twos: int, cols: nat) returns (n: nat)
      requires Valid()
      modifies this
      ensures Valid()
      ensures n == TilingEnumerator.BrutePartialNumTilings(twos, cols)
      ensures old(tilings).Keys <= tilings.Keys && partials == old(partials)
    {
      var all := BruteAllTilings(cols);
      n := |TilingEnumerator.Filter(all, TilingValidator.Some(twos))|;
    }
  }

  /** One column count of main: for every number of length-two tiles in
      range(cols // 2 + 1) the cached recurrence is compared with the brute
      count and added up, and the total is compared with the brute total.
      Both comparisons always succeed, so main only ever takes its matching
      branches (printing is left out). */
  method ValidateColumns(cols: nat) returns (partialsAgree: bool, totalAgrees: bool)
    requires cols >= 1
    ensures partialsAgree && totalAgrees
  {
    var memo := new Memo();
    var bruteTot := memo.BruteNumTilings(cols);
    var tot := 0;
    partialsAgree := true;
    var twos := 0;
    while twos < cols / 2 + 1
      invariant memo.Valid()
      invariant 0 <= twos <= cols / 2 + 1
      invariant tot == TilingRecurrence.SumPartials(cols, twos)
      invariant partialsAgree
    {
      var brutePartial := memo.BrutePartialNumTilings(twos, cols);
      var partial := memo.PartialNumTilings(twos, cols);
      TilingRecurrence.PartialMatchesBrute(twos, cols);
      tot := tot + partial;
      partialsAgree := partialsAgree && partial == brutePartial;
      twos := twos + 1;
    }
    TilingRecurrence.NumTilingsMatchesBrute(cols);
    totalAgrees := tot == bruteTot;
  }
}

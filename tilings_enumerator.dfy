// The brute-force oracle: itertools.product([1, 2, 3], repeat=cols) filtered
// through is_valid (brute_all_tilings), its length (brute_num_tilings) and a
// second filter on the count of 2s (brute_partial_num_tilings).

module TilingEnumerator {
  import opened TilingValidator

  /** Every sequence of ts with p put in front, in the same order. */
  function Prefix(p: seq<int>, ts: seq<seq<int>>): seq<seq<int>>
  {
    seq(|ts|, i requires 0 <= i < |ts| => p + ts[i])
  }

  /** itertools.product([1, 2, 3], repeat=cols), in its order: the first
      position varies slowest. */
  function Product(cols: nat): seq<seq<int>>
  {
    if cols == 0 then [[]]
    else
      var rest := Product(cols - 1);
      Prefix([1], rest) + Prefix([2], rest) + Prefix([3], rest)
  }

  /** filter(lambda x: is_valid(x, twos), ts), keeping the order. */
  function Filter(ts: seq<seq<int>>, twos: Option<int>): seq<seq<int>>
  {
    if ts == [] then []
    else (if IsValid(ts[0], twos) then [ts[0]] else []) + Filter(ts[1..], twos)
  }

  function BruteAllTilings(cols: nat): seq<seq<int>>
  {
    Filter(Product(cols), None)
  }

  function BruteNumTilings(cols: nat): nat
  {
    |BruteAllTilings(cols)|
  }

  function BrutePartialNumTilings(twos: int, cols: nat): nat
  {
    |Filter(BruteAllTilings(cols), Some(twos))|
  }

  predicate NoDuplicates(ts: seq<seq<int>>)
  {
    forall i, j :: 0 <= i < j < |ts| ==> ts[i] != ts[j]
  }

  /** A sequence over the alphabet of product([1, 2, 3], ...). */
  predicate OverAlphabet(t: seq<int>)
  {
    forall i :: 0 <= i < |t| ==> t[i] == 1 || t[i] == 2 || t[i] == 3
  }

  function Pow3(n: nat): nat
  {
    if n == 0 then 1 else 3 * Pow3(n - 1)
  }

  // ---------------------------------------------------------------------
  // The product

  /** Membership in Prefix(p, ts): p in front of a member of ts. */
  lemma PrefixMember(p: seq<int>, ts: seq<seq<int>>, t: seq<int>)
    ensures t in Prefix(p, ts) <==> |p| <= |t| && t[..|p|] == p && t[|p|..] in ts
  {
    if |p| <= |t| && t[..|p|] == p && t[|p|..] in ts {
      var j :| 0 <= j < |ts| && ts[j] == t[|p|..];
      assert Prefix(p, ts)[j] == t;
    }
  }

  /** product([1, 2, 3], repeat=cols) holds exactly the length-cols sequences over {1, 2, 3}. */
  lemma {:induction false} ProductMembers(cols: nat, t: seq<int>)
    ensures t in Product(cols) <==> |t| == cols && OverAlphabet(t)
  {
    if cols > 0 {
      var rest := Product(cols - 1);
      PrefixMember([1], rest, t);
      PrefixMember([2], rest, t);
      PrefixMember([3], rest, t);
      if |t| > 0 {
        ProductMembers(cols - 1, t[1..]);
        assert OverAlphabet(t) <==> (t[0] == 1 || t[0] == 2 || t[0] == 3) && OverAlphabet(t[1..]) by {
          if (t[0] == 1 || t[0] == 2 || t[0] == 3) && OverAlphabet(t[1..]) {
            forall i | 0 <= i < |t| ensures t[i] == 1 || t[i] == 2 || t[i] == 3 {
              if i > 0 { assert t[i] == t[1..][i - 1]; }
            }
          }
        }
      }
    }
  }

  /** Prefixing a distinct list with one symbol keeps it distinct. */
  lemma PrefixDistinct(d: int, ts: seq<seq<int>>)
    requires NoDuplicates(ts)
    ensures NoDuplicates(Prefix([d], ts))
  {
    forall i, j | 0 <= i < j < |ts| ensures Prefix([d], ts)[i] != Prefix([d], ts)[j] {
      assert Prefix([d], ts)[i][1..] == ts[i];
      assert Prefix([d], ts)[j][1..] == ts[j];
    }
  }

  /** Two distinct lists with no member in common concatenate to a distinct list. */
  lemma NoDuplicatesAppend(a: seq<seq<int>>, b: seq<seq<int>>)
    requires NoDuplicates(a) && NoDuplicates(b)
    requires forall i, j :: 0 <= i < |a| && 0 <= j < |b| ==> a[i] != b[j]
    ensures NoDuplicates(a + b)
  {
    var s := a + b;
    forall i, j | 0 <= i < j < |s| ensures s[i] != s[j] {
      if j < |a| {
        assert s[i] == a[i] && s[j] == a[j];
      } else if i < |a| {
        assert s[i] == a[i] && s[j] == b[j - |a|];
      } else {
        assert s[i] == b[i - |a|] && s[j] == b[j - |a|];
      }
    }
  }

  /** product([1, 2, 3], repeat=cols) yields each sequence once, 3^cols of them. */
  lemma {:induction false} ProductDistinct(cols: nat)
    ensures NoDuplicates(Product(cols))
    ensures |Product(cols)| == Pow3(cols)
  {
    if cols > 0 {
      var rest := Product(cols - 1);
      ProductDistinct(cols - 1);
      var a, b, c := Prefix([1], rest), Prefix([2], rest), Prefix([3], rest);
      PrefixDistinct(1, rest);
      PrefixDistinct(2, rest);
      PrefixDistinct(3, rest);
      assert forall i :: 0 <= i < |a| ==> a[i][0] == 1;
      assert forall i :: 0 <= i < |b| ==> b[i][0] == 2;
      assert forall i :: 0 <= i < |c| ==> c[i][0] == 3;
      NoDuplicatesAppend(a, b);
      forall i, j | 0 <= i < |a + b| && 0 <= j < |c| ensures (a + b)[i] != c[j] {
        assert (a + b)[i][0] != 3;
      }
      NoDuplicatesAppend(a + b, c);
    }
  }

  // ---------------------------------------------------------------------
  // The filter

  lemma {:induction false} FilterAppend(a: seq<seq<int>>, b: seq<seq<int>>, twos: Option<int>)
    ensures Filter(a + b, twos) == Filter(a, twos) + Filter(b, twos)
  {
    if a != [] {
      assert (a + b)[0] == a[0];
      assert (a + b)[1..] == a[1..] + b;
      FilterAppend(a[1..], b, twos);
    } else {
      assert a + b == b;
    }
  }

  /** filter keeps exactly the valid members, in order, without adding duplicates. */
  lemma {:induction false} FilterExactly(ts: seq<seq<int>>, twos: Option<int>)
    ensures forall t :: t in Filter(ts, twos) <==> t in ts && IsValid(t, twos)
    ensures NoDuplicates(ts) ==> NoDuplicates(Filter(ts, twos))
  {
    if ts != [] {
      FilterExactly(ts[1..], twos);
      assert ts == [ts[0]] + ts[1..];
      if NoDuplicates(ts) {
        assert ts[0] !in ts[1..];
      }
    }
  }

  /** Filtering valid tilings by a count is filtering all candidates by it. */
  lemma {:induction false} FilterTwice(ts: seq<seq<int>>, twos: int)
    ensures Filter(Filter(ts, None), Some(twos)) == Filter(ts, Some(twos))
  {
    if ts != [] {
      FilterTwice(ts[1..], twos);
      IsValidIff(ts[0], None);
      IsValidIff(ts[0], Some(twos));
      var head := if IsValid(ts[0], None) then [ts[0]] else [];
      FilterAppend(head, Filter(ts[1..], None), Some(twos));
    }
  }

  // ---------------------------------------------------------------------
  // Counting valid tilings by the first tile

  lemma {:induction false} CountPrefixUnit(ts: seq<seq<int>>, twos: Option<int>)
    ensures |Filter(Prefix([1], ts), twos)| == |Filter(ts, twos)|
  {
    if ts != [] {
      assert Prefix([1], ts)[1..] == Prefix([1], ts[1..]);
      ValidConsUnit(ts[0], twos);
      CountPrefixUnit(ts[1..], twos);
    }
  }

  lemma {:induction false} CountPrefixDomino(ts: seq<seq<int>>, twos: Option<int>)
    ensures |Filter(Prefix([2, 3], ts), twos)| == |Filter(ts, Fewer(twos))|
  {
    if ts != [] {
      assert Prefix([2, 3], ts)[1..] == Prefix([2, 3], ts[1..]);
      ValidConsDomino(ts[0], twos);
      CountPrefixDomino(ts[1..], twos);
    }
  }

  /** No member of ts with p in front is valid, when p cannot start a tiling. */
  lemma {:induction false} CountPrefixNone(p: seq<int>, ts: seq<seq<int>>, twos: Option<int>)
    requires p == [3] || p == [2, 1] || p == [2, 2] || (p == [2] && forall i :: 0 <= i < |ts| ==> ts[i] == [])
    ensures |Filter(Prefix(p, ts), twos)| == 0
  {
    if ts != [] {
      assert Prefix(p, ts)[1..] == Prefix(p, ts[1..]);
      var t := p + ts[0];
      assert Prefix(p, ts)[0] == t;
      if p == [3] {
        InvalidConsTail(ts[0], twos);
      } else {
        assert t == [2] + t[1..];
        InvalidConsLoneHead(t[1..], twos);
      }
      CountPrefixNone(p, ts[1..], twos);
    }
  }

  lemma PrefixAppend(p: seq<int>, a: seq<seq<int>>, b: seq<seq<int>>)
    ensures Prefix(p, a + b) == Prefix(p, a) + Prefix(p, b)
  {
  }

  lemma PrefixPrefix(p: seq<int>, q: seq<int>, ts: seq<seq<int>>)
    ensures Prefix(p, Prefix(q, ts)) == Prefix(p + q, ts)
  {
    forall i | 0 <= i < |ts| ensures Prefix(p, Prefix(q, ts))[i] == Prefix(p + q, ts)[i] {
      assert p + (q + ts[i]) == (p + q) + ts[i];
    }
  }

  /** The count of valid candidates of length cols splits by the first tile:
      a unit tile before cols - 1 columns or a length-two tile before cols - 2. */
  lemma BruteRecurrence(cols: nat, twos: Option<int>)
    requires cols >= 2
    ensures |Filter(Product(cols), twos)|
            == |Filter(Product(cols - 1), twos)| + |Filter(Product(cols - 2), Fewer(twos))|
  {
    var r1, r2 := Product(cols - 1), Product(cols - 2);
    assert Product(cols) == Prefix([1], r1) + Prefix([2], r1) + Prefix([3], r1);
    FilterAppend(Prefix([1], r1) + Prefix([2], r1), Prefix([3], r1), twos);
    FilterAppend(Prefix([1], r1), Prefix([2], r1), twos);
    CountPrefixUnit(r1, twos);
    CountPrefixNone([3], r1, twos);
    assert |Filter(Product(cols), twos)| == |Filter(r1, twos)| + |Filter(Prefix([2], r1), twos)|;
    // the candidates that start with a 2
    assert r1 == Prefix([1], r2) + Prefix([2], r2) + Prefix([3], r2);
    PrefixAppend([2], Prefix([1], r2) + Prefix([2], r2), Prefix([3], r2));
    PrefixAppend([2], Prefix([1], r2), Prefix([2], r2));
    PrefixPrefix([2], [1], r2);
    PrefixPrefix([2], [2], r2);
    PrefixPrefix([2], [3], r2);
    assert [2] + [1] == [2, 1] && [2] + [2] == [2, 2] && [2] + [3] == [2, 3];
    assert Prefix([2], r1) == Prefix([2, 1], r2) + Prefix([2, 2], r2) + Prefix([2, 3], r2);
    FilterAppend(Prefix([2, 1], r2) + Prefix([2, 2], r2), Prefix([2, 3], r2), twos);
    FilterAppend(Prefix([2, 1], r2), Prefix([2, 2], r2), twos);
    CountPrefixNone([2, 1], r2, twos);
    CountPrefixNone([2, 2], r2, twos);
    CountPrefixDomino(r2, twos);
  }

  /** The empty strip has one tiling (with no 2s); a strip of one column has
      one tiling (the unit tile, no 2s). */
  lemma BruteBase(cols: nat, twos: Option<int>)
    requires cols <= 1
    ensures |Filter(Product(cols), twos)| == if twos.None? || twos.value == 0 then 1 else 0
  {
    if cols == 0 {
      assert Product(0) == [[]];
      ValidRejects([], twos);
    } else {
      var r := Product(0);
      assert r == [[]];
      FilterAppend(Prefix([1], r) + Prefix([2], r), Prefix([3], r), twos);
      FilterAppend(Prefix([1], r), Prefix([2], r), twos);
      CountPrefixUnit(r, twos);
      CountPrefixNone([2], r, twos);
      CountPrefixNone([3], r, twos);
      ValidRejects([], twos);
      assert Filter(r, twos) == if IsValid([], twos) then [[]] else [];
    }
  }

  // ---------------------------------------------------------------------
  // What brute_all_tilings returns

  /** brute_all_tilings(cols) holds exactly the valid length-cols tilings, each once. */
  lemma BruteAllTilingsExactly(cols: nat)
    ensures forall t :: t in BruteAllTilings(cols) <==> |t| == cols && IsValid(t, None)
    ensures NoDuplicates(BruteAllTilings(cols))
  {
    ProductDistinct(cols);
    FilterExactly(Product(cols), None);
    forall t ensures t in BruteAllTilings(cols) <==> |t| == cols && IsValid(t, None) {
      ProductMembers(cols, t);
      IsValidIff(t, None);
    }
  }

  /** brute_partial_num_tilings counts the valid candidates with that many 2s. */
  lemma BrutePartialIsFilterCount(twos: int, cols: nat)
    ensures BrutePartialNumTilings(twos, cols) == |Filter(Product(cols), Some(twos))|
  {
    FilterTwice(Product(cols), twos);
  }

  /** The first four totals of the oracle, for 0 to 3 columns. */
  lemma BruteNumTilingsSmall()
    ensures BruteNumTilings(0) == 1 && BruteNumTilings(1) == 1
    ensures BruteNumTilings(2) == 2 && BruteNumTilings(3) == 3
  {
    BruteBase(0, None);
    BruteBase(1, None);
    BruteRecurrence(2, None);
    BruteRecurrence(3, None);
  }

  /** A valid tiling of three columns is one of three. */
  lemma ValidThreeColumns(t: seq<int>)
    requires |t| == 3 && IsValid(t, None)
    ensures t == [1, 1, 1] || t == [1, 2, 3] || t == [2, 3, 1]
  {
    ValidUncons(t, None);
    if t[0] == 1 {
      ValidUncons(t[1..], None);
      if t[1] == 1 {
        ValidUncons(t[2..], None);
      }
    } else {
      ValidUncons(t[2..], None);
    }
  }

  lemma ThreeColumnsValid()
    ensures IsValid([1, 1, 1], None) && IsValid([1, 2, 3], None) && IsValid([2, 3, 1], None)
  {
    ValidRejects([], None);
    ValidConsUnit([], None);
    ValidConsUnit([1], None);
    ValidConsUnit([1, 1], None);
    ValidConsDomino([], None);
    ValidConsUnit([2, 3], None);
    ValidConsDomino([1], None);
    assert [1] + ([1] + [1]) == [1, 1, 1];
    assert [1] + ([2, 3] + []) == [1, 2, 3];
    assert [2, 3] + [1] == [2, 3, 1];
  }

  /** The tilings of three columns: the three of the docstring of brute_all_tilings. */
  lemma BruteAllTilingsThree()
    ensures forall t :: t in BruteAllTilings(3) <==> t == [1, 1, 1] || t == [1, 2, 3] || t == [2, 3, 1]
    ensures |BruteAllTilings(3)| == 3
  {
    BruteAllTilingsExactly(3);
    forall t | |t| == 3 && IsValid(t, None)
      ensures t == [1, 1, 1] || t == [1, 2, 3] || t == [2, 3, 1]
    {
      ValidThreeColumns(t);
    }
    ThreeColumnsValid();
    BruteNumTilingsSmall();
  }
}

// A tiling of a 1 x N strip is a sequence over {1, 2, 3}: 1 is a unit tile,
// and a 2 immediately followed by a 3 is one length-two tile.
// This module models is_valid: the left-to-right scan with early returns,
// a declarative characterisation of what it accepts, and the ways a valid
// tiling can start, on which the counting proofs rest.

module TilingValidator {

  /** Python's Optional[int] argument: None means "any number of 2s". */
  datatype Option<T> = None | Some(value: T)

  /** The expected count of 2s once a leading length-two tile is removed. */
  function Fewer(twos: Option<int>): Option<int>
  {
    match twos
    case None => None
    case Some(k) => Some(k - 1)
  }

  /** tiling.count(2) */
  function CountTwos(t: seq<int>): (n: nat)
    ensures n <= |t|
  {
    if t == [] then 0 else (if t[0] == 2 then 1 else 0) + CountTwos(t[1..])
  }

  /** CountTwos counts exactly the occurrences of 2: the multiplicity of 2 in
      the multiset of the tiling's symbols. */
  lemma {:induction false} CountTwosIsMultiplicity(t: seq<int>)
    ensures CountTwos(t) == multiset(t)[2]
  {
    if t != [] {
      CountTwosIsMultiplicity(t[1..]);
      assert t == [t[0]] + t[1..];
      assert multiset(t) == multiset([t[0]]) + multiset(t[1..]);
    }
  }

  /** The check one iteration of the scan makes at position i. */
  predicate TileOk(t: seq<int>, i: nat)
    requires i < |t|
  {
    if t[i] == 1 then true
    else if t[i] == 2 then i < |t| - 1 && t[i + 1] == 3
    else if t[i] == 3 then i > 0 && t[i - 1] == 2
    else false
  }

  /** The scan loop of is_valid from position i on; false as soon as one position fails. */
  predicate ScanFrom(t: seq<int>, i: nat)
    requires i <= |t|
    decreases |t| - i
  {
    if i == |t| then true
    else if !TileOk(t, i) then false
    else ScanFrom(t, i + 1)
  }

  /** is_valid(tiling, twos): the count pre-check, then the positional scan. */
  predicate IsValid(t: seq<int>, twos: Option<int>)
  {
    if twos.Some? && CountTwos(t) != twos.value then false
    else ScanFrom(t, 0)
  }

  /** Declarative reading of a legal tiling: only the symbols 1, 2, 3; every 2
      is immediately followed by a 3; every 3 is immediately preceded by a 2. */
  ghost predicate WellPaired(t: seq<int>)
  {
    (forall i :: 0 <= i < |t| ==> t[i] == 1 || t[i] == 2 || t[i] == 3) &&
    (forall i :: 0 <= i < |t| && t[i] == 2 ==> i + 1 < |t| && t[i + 1] == 3) &&
    (forall i :: 0 <= i < |t| && t[i] == 3 ==> 0 < i && t[i - 1] == 2)
  }

  lemma {:induction false} ScanFromAll(t: seq<int>, i: nat)
    requires i <= |t|
    ensures ScanFrom(t, i) <==> forall j :: i <= j < |t| ==> TileOk(t, j)
    decreases |t| - i
  {
    if i < |t| {
      ScanFromAll(t, i + 1);
    }
  }

  /** What is_valid accepts, in both directions: exactly the well-paired
      sequences, and, when a count is given, only those with that many 2s. */
  lemma IsValidIff(t: seq<int>, twos: Option<int>)
    ensures IsValid(t, twos) <==>
              WellPaired(t) && (twos.Some? ==> CountTwos(t) == twos.value)
  {
    ScanFromAll(t, 0);
    assert WellPaired(t) <==> forall j :: 0 <= j < |t| ==> TileOk(t, j) by {
      if WellPaired(t) {
        forall j | 0 <= j < |t| ensures TileOk(t, j) {
          assert t[j] == 1 || t[j] == 2 || t[j] == 3;
        }
      }
      if forall j :: 0 <= j < |t| ==> TileOk(t, j) {
        forall i | 0 <= i < |t| ensures t[i] == 1 || t[i] == 2 || t[i] == 3 {
          assert TileOk(t, i);
        }
        forall i | 0 <= i < |t| && t[i] == 2 ensures i + 1 < |t| && t[i + 1] == 3 {
          assert TileOk(t, i);
        }
        forall i | 0 <= i < |t| && t[i] == 3 ensures 0 < i && t[i - 1] == 2 {
          assert TileOk(t, i);
        }
      }
    }
  }

  /** The pairing rule, read off a valid tiling position by position. */
  lemma ValidPairing(t: seq<int>, twos: Option<int>, i: int)
    requires IsValid(t, twos) && 0 <= i < |t|
    ensures t[i] == 1 || t[i] == 2 || t[i] == 3
    ensures t[i] == 2 ==> i + 1 < |t| && t[i + 1] == 3
    ensures t[i] == 3 ==> 0 < i && t[i - 1] == 2
  {
    IsValidIff(t, twos);
  }

  /** A wrong number of 2s, or any symbol outside {1, 2, 3}, is rejected;
      the empty tiling is valid when no count, or the count 0, is asked for. */
  lemma ValidRejects(t: seq<int>, twos: Option<int>)
    ensures twos.Some? && CountTwos(t) != twos.value ==> !IsValid(t, twos)
    ensures (exists i :: 0 <= i < |t| && t[i] != 1 && t[i] != 2 && t[i] != 3) ==> !IsValid(t, twos)
    ensures IsValid([], twos) <==> (twos.None? || twos.value == 0)
  {
    IsValidIff(t, twos);
  }

  /** Behind a prefix that does not end in a 2, the scan of the rest does
      exactly what the scan of the rest alone does. */
  lemma {:induction false} ScanShift(p: seq<int>, t: seq<int>, i: nat)
    requires p == [] || p[|p| - 1] != 2
    requires i <= |t|
    ensures ScanFrom(p + t, |p| + i) == ScanFrom(t, i)
    decreases |t| - i
  {
    if i < |t| {
      var u := p + t;
      assert u[|p| + i] == t[i];
      assert |p| + i < |u| - 1 ==> u[|p| + i + 1] == t[i + 1];
      assert 0 < i ==> u[|p| + i - 1] == t[i - 1];
      assert TileOk(u, |p| + i) == TileOk(t, i);
      ScanShift(p, t, i + 1);
    }
  }

  /** A unit tile in front changes neither validity nor the count of 2s. */
  lemma ValidConsUnit(t: seq<int>, twos: Option<int>)
    ensures IsValid([1] + t, twos) == IsValid(t, twos)
  {
    var u := [1] + t;
    assert u[1..] == t;
    ScanShift([1], t, 0);
  }

  /** A length-two tile in front adds one 2 and otherwise changes nothing. */
  lemma ValidConsDomino(t: seq<int>, twos: Option<int>)
    ensures IsValid([2, 3] + t, twos) == IsValid(t, Fewer(twos))
  {
    var u := [2, 3] + t;
    assert u[1..] == [3] + t && ([3] + t)[1..] == t;
    assert CountTwos(u) == 1 + CountTwos(t);
    ScanShift([2, 3], t, 0);
    assert ScanFrom(u, 0) == ScanFrom(u, 2);
  }

  /** A sequence cannot start with the second half of a length-two tile. */
  lemma InvalidConsTail(t: seq<int>, twos: Option<int>)
    ensures !IsValid([3] + t, twos)
  {
  }

  /** A 2 that is not followed by a 3 makes the sequence invalid. */
  lemma InvalidConsLoneHead(t: seq<int>, twos: Option<int>)
    requires t == [] || t[0] != 3
    ensures !IsValid([2] + t, twos)
  {
  }

  /** How a non-empty valid tiling starts: a unit tile or a length-two tile,
      followed by a valid tiling. */
  lemma ValidUncons(t: seq<int>, twos: Option<int>)
    requires t != [] && IsValid(t, twos)
    ensures (t[0] == 1 && IsValid(t[1..], twos)) ||
            (|t| >= 2 && t[0] == 2 && t[1] == 3 && IsValid(t[2..], Fewer(twos)))
  {
    if t[0] == 1 {
      assert t == [1] + t[1..];
      ValidConsUnit(t[1..], twos);
    } else {
      assert t[0] == 2 && |t| >= 2 && t[1] == 3;
      assert t == [2, 3] + t[2..];
      ValidConsDomino(t[2..], twos);
    }
  }

  /** A valid tiling of length n holds at most n / 2 length-two tiles. */
  lemma {:induction false} TwosBound(t: seq<int>, twos: Option<int>)
    requires IsValid(t, twos)
    ensures 2 * CountTwos(t) <= |t|
    decreases |t|
  {
    if t != [] {
      ValidUncons(t, twos);
      if t[0] == 1 {
        TwosBound(t[1..], twos);
      } else {
        assert t == [2, 3] + t[2..];
        ValidConsDomino(t[2..], None);
        TwosBound(t[2..], Fewer(twos));
        assert CountTwos(t) == 1 + CountTwos(t[2..]) by {
          assert t[1..] == [3] + t[2..] && t[1..][1..] == t[2..];
        }
      }
    }
  }
}

/**
 * The table's melds: a list of meld objects, in the order they were put
 * down. The list is edited in place, and so are the melds it refers to.
 */
module Boards {
  import opened Tiles
  import opened Melds
  import opened RummiSets

  /** The first position of s in ss. */
  function FirstIndexOf(ss: seq<RummiSet>, s: RummiSet): (i: nat)
    requires s in ss
    ensures i < |ss| && ss[i] == s && s !in ss[..i]
  {
    if ss[0] == s then 0 else FirstIndexOf(ss[1..], s) + 1
  }

  class Board {
    var sets: seq<RummiSet>

    /** No meld object is on the board twice. */
    ghost predicate Valid()
      reads this
    {
      forall i, j :: 0 <= i < j < |sets| ==> sets[i] != sets[j]
    }

    /** The tiles of each meld, in board order. */
    ghost function Melds(): (ms: seq<seq<Tile>>)
      reads this, sets
      ensures |ms| == |sets| && forall i :: 0 <= i < |sets| ==> ms[i] == sets[i].tiles
    {
      seq(|sets|, i reads this, sets requires 0 <= i < |sets| => sets[i].tiles)
    }

    /** An empty board. */
    constructor ()
      ensures sets == [] && Valid()
    {
      sets := [];
    }

    /** A board with a fresh copy of each of other's melds, in the same order. */
    constructor Copy(other: Board)
      ensures Valid() && Melds() == other.Melds()
      ensures forall i :: 0 <= i < |sets| ==> fresh(sets[i])
    {
      var copies: seq<RummiSet> := [];
      for k := 0 to |other.sets|
        invariant |copies| == k
        invariant forall i :: 0 <= i < k ==> fresh(copies[i]) && copies[i].tiles == other.sets[i].tiles
        invariant forall i, j :: 0 <= i < j < k ==> copies[i] != copies[j]
      {
        var c := new RummiSet.Copy(other.sets[k]);
        copies := copies + [c];
      }
      sets := copies;
    }

    /** Puts a meld down after the others. */
    method AddSet(s: RummiSet)
      modifies this
      ensures sets == old(sets) + [s]
      ensures Melds() == old(Melds()) + [s.tiles]
      ensures old(Valid()) && s !in old(sets) ==> Valid()
    {
      sets := sets + [s];
      assert Melds() == old(Melds()) + [s.tiles];
    }

    /** Takes the meld object s off the board, if it is there, and reports whether it was. */
    method RemoveSet(s: RummiSet) returns (removed: bool)
      modifies this
      ensures removed == (s in old(sets))
      ensures removed ==> var i := FirstIndexOf(old(sets), s); sets == old(sets)[..i] + old(sets)[i + 1..]
      ensures removed ==> var i := FirstIndexOf(old(sets), s); Melds() == old(Melds())[..i] + old(Melds())[i + 1..]
      ensures !removed ==> sets == old(sets)
      ensures forall r :: r in sets ==> r in old(sets)
      ensures old(Valid()) ==> Valid() && s !in sets
    {
      removed := s in sets;
      if removed {
        var i := FirstIndexOf(sets, s);
        ghost var melds := Melds();
        sets := sets[..i] + sets[i + 1..];
        assert Melds() == melds[..i] + melds[i + 1..];
      }
    }

    /** The number of melds. */
    method GetSetsCount() returns (n: nat)
      ensures n == |sets|
    {
      n := |sets|;
    }

    /** Whether every meld on the board is valid. */
    method IsValid() returns (b: bool)
      ensures b == AllMelds(Melds())
    {
      for k := 0 to |sets|
        invariant AllMelds(Melds()[..k])
      {
        var valid := sets[k].IsValid();
        if !valid {
          assert !FormsMeld(Melds()[k]);
          return false;
        }
        assert Melds()[..k + 1] == Melds()[..k] + [sets[k].tiles];
      }
      assert Melds()[..|sets|] == Melds();
      return true;
    }
  }
}

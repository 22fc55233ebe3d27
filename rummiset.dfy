/**
 * A meld on the table (or a candidate meld): a list of tiles that the solver
 * edits in place, with the validity check, the classification and the
 * extension queries run over it.
 */
module RummiSets {
  import opened Tiles
  import opened Sorting
  import opened Melds

  class RummiSet {
    var tiles: seq<Tile>

    /** An empty meld. */
    constructor Empty()
      ensures tiles == []
    {
      tiles := [];
    }

    /** A meld holding a copy of the given list. */
    constructor (initial: seq<Tile>)
      ensures tiles == initial
    {
      tiles := initial;
    }

    /** A meld holding a copy of another meld's list. */
    constructor Copy(other: RummiSet)
      ensures tiles == other.tiles
    {
      tiles := other.tiles;
    }

    /** Appends a tile. */
    method AddTile(t: Tile)
      modifies this
      ensures tiles == old(tiles) + [t]
    {
      tiles := tiles + [t];
    }

    /** Inserts a tile before position index; an index outside 0..size changes nothing. */
    method AddTileAt(index: int, t: Tile)
      modifies this
      ensures 0 <= index <= |old(tiles)| ==> tiles == old(tiles)[..index] + [t] + old(tiles)[index..]
      ensures !(0 <= index <= |old(tiles)|) ==> tiles == old(tiles)
    {
      if 0 <= index <= |tiles| {
        tiles := tiles[..index] + [t] + tiles[index..];
      }
    }

    /** Removes the first tile equal to t (same id); reports whether there was one. */
    method RemoveTile(t: Tile) returns (removed: bool)
      modifies this
      ensures removed == Holds(old(tiles), t)
      ensures tiles == RemoveFirst(old(tiles), t)
      ensures removed ==> |tiles| == |old(tiles)| - 1
    {
      IdBagHolds(tiles, t);
      RemoveFirstIds(tiles, t);
      removed := Holds(tiles, t);
      tiles := RemoveFirst(tiles, t);
    }

    /** Removes and returns the tile at index; None, and no change, when index is out of range. */
    method RemoveTileAt(index: int) returns (r: Option<Tile>)
      modifies this
      ensures 0 <= index < |old(tiles)| ==>
        r == Some(old(tiles)[index]) && tiles == old(tiles)[..index] + old(tiles)[index + 1..]
      ensures !(0 <= index < |old(tiles)|) ==> r == None && tiles == old(tiles)
    {
      if 0 <= index < |tiles| {
        r := Some(tiles[index]);
        tiles := tiles[..index] + tiles[index + 1..];
      } else {
        r := None;
      }
    }

    /** Whether the tiles form a meld: at least three, and a group or a run. */
    method IsValid() returns (b: bool)
      ensures b == FormsMeld(tiles)
    {
      if |tiles| < 3 {
        return false;
      }
      var sortedTiles := tiles;
      var group := IsGroup(sortedTiles);
      if group {
        return true;
      }
      b := IsRun(sortedTiles);
    }

    /**
     * The group check of checkList (the size limit is read from this meld,
     * whose copy checkList is): jokers skipped, the first number becomes the
     * target, a different number or a repeated colour fails.
     */
    method IsGroup(checkList: seq<Tile>) returns (b: bool)
      ensures b == (|tiles| <= 4 && SameNumberDistinctHues(checkList))
    {
      if |tiles| > 4 {
        return false;
      }
      var targetValue: int := -1;
      var colorsSeen: seq<Color> := [];
      for k := 0 to |checkList|
        invariant SameNumberDistinctHues(checkList[..k])
        invariant targetValue == -1 ==> forall i :: 0 <= i < k ==> checkList[i].Joker?
        invariant targetValue != -1 ==> exists i :: 0 <= i < k && checkList[i].Regular? && checkList[i].number == targetValue
        invariant targetValue != -1 ==> forall i :: 0 <= i < k && checkList[i].Regular? ==> checkList[i].number == targetValue
        invariant forall c :: c in colorsSeen <==> HasHue(checkList[..k], c)
      {
        var t := checkList[k];
        HasHueAppend(checkList[..k], t, if t.Regular? then t.hue else Red);
        assert checkList[..k + 1] == checkList[..k] + [t];
        if !t.IsJoker() {
          if targetValue == -1 {
            targetValue := t.Value();
          } else if t.Value() != targetValue {
            var i :| 0 <= i < k && checkList[i].Regular? && checkList[i].number == targetValue;
            assert !SameNumberDistinctHues(checkList) by {
              assert checkList[i].number != checkList[k].number;
            }
            return false;
          }
          if t.hue in colorsSeen {
            var i :| 0 <= i < k && checkList[..k][i].Regular? && checkList[..k][i].hue == t.hue;
            assert !SameNumberDistinctHues(checkList) by {
              assert checkList[i] == checkList[..k][i];
            }
            return false;
          }
          colorsSeen := colorsSeen + [t.hue];
        }
        forall c ensures c in colorsSeen <==> HasHue(checkList[..k + 1], c) {
          HasHueAppend(checkList[..k], t, c);
        }
      }
      assert checkList[..|checkList|] == checkList;
      return true;
    }

    /**
     * The run check of checkList: one colour among the numbered tiles, then,
     * walking their values in ascending order, one joker is spent on each
     * missing value and every value must be the one expected next.
     */
    method IsRun(checkList: seq<Tile>) returns (b: bool)
      ensures b == FormsRun(checkList)
    {
      var numbersOnly: seq<Tile> := [];
      var jokerCount := 0;
      var targetColor: Option<Color> := None;
      for k := 0 to |checkList|
        invariant numbersOnly == Numbered(checkList[..k])
        invariant jokerCount == JokerCount(checkList[..k])
        invariant targetColor.None? ==> forall i :: 0 <= i < k ==> checkList[i].Joker?
        invariant targetColor.Some? ==> exists i :: 0 <= i < k && checkList[i].Regular? && checkList[i].hue == targetColor.value
        invariant targetColor.Some? ==> forall i :: 0 <= i < k && checkList[i].Regular? ==> checkList[i].hue == targetColor.value
      {
        var t := checkList[k];
        assert checkList[..k + 1][..k] == checkList[..k];
        if t.IsJoker() {
          jokerCount := jokerCount + 1;
        } else {
          numbersOnly := numbersOnly + [t];
          if targetColor.None? {
            targetColor := t.Hue();
          } else if targetColor != t.Hue() {
            var i :| 0 <= i < k && checkList[i].Regular? && checkList[i].hue == targetColor.value;
            assert !OneHue(checkList) by {
              assert checkList[i].hue != checkList[k].hue;
            }
            return false;
          }
        }
      }
      assert checkList[..|checkList|] == checkList;
      assert OneHue(checkList);
      var sorted := SortBy(ByValue, numbersOnly);
      assert |sorted| + jokerCount == |checkList|;
      if |sorted| == 0 {
        return false;
      }
      b := JokersFillGaps(sorted, jokerCount);
    }

    /**
     * The second half of the run check: walking values sorted ascending, each
     * missing value costs a joker; a repeated value, or a gap with no joker
     * left, fails.
     */
    method JokersFillGaps(sorted: seq<Tile>, jokerCount: nat) returns (b: bool)
      requires |sorted| > 0
      ensures b == (Ascending(sorted) && sorted[|sorted| - 1].Value() - sorted[0].Value() < |sorted| + jokerCount)
    {
      var expectedValue: int := sorted[0].Value();
      var jokers: int := jokerCount;
      var k := 0;
      while k < |sorted|
        invariant 0 <= k <= |sorted|
        invariant Ascending(sorted[..k])
        invariant k == 0 ==> expectedValue == sorted[0].Value() && jokers == jokerCount
        invariant k > 0 ==> expectedValue == sorted[k - 1].Value() + 1
        invariant k > 0 ==> jokers == jokerCount - (sorted[k - 1].Value() - sorted[0].Value() - (k - 1))
        invariant jokers >= 0
      {
        var currentValue := sorted[k].Value();
        ghost var expected0, jokers0 := expectedValue, jokers;
        while expectedValue < currentValue
          invariant expected0 <= expectedValue
          invariant expected0 <= currentValue ==> expectedValue <= currentValue
          invariant jokers + expectedValue == jokers0 + expected0
          invariant jokers >= 0
          decreases currentValue - expectedValue
        {
          if jokers > 0 {
            jokers := jokers - 1;
            expectedValue := expectedValue + 1;
          } else {
            GapsTooWide(sorted, jokerCount, k);
            return false;
          }
        }
        if currentValue == expectedValue {
          expectedValue := expectedValue + 1;
        } else {
          assert !Ascending(sorted) by {
            assert sorted[k - 1].Value() >= sorted[k].Value();
          }
          return false;
        }
        assert sorted[..k + 1] == sorted[..k] + [sorted[k]];
        k := k + 1;
      }
      assert sorted[..k] == sorted;
      return true;
    }

    /** GROUP, RUN or INVALID. */
    method GetSetType() returns (kind: SetType)
      ensures kind == Classify(tiles)
      ensures kind == Invalid <==> !FormsMeld(tiles)
      ensures kind == Group <==> FormsMeld(tiles) && FormsGroup(tiles)
      ensures kind == Run <==> FormsMeld(tiles) && !FormsGroup(tiles)
    {
      var valid := IsValid();
      if !valid {
        return Invalid;
      }
      var copy := tiles;
      var group := IsGroup(copy);
      if group {
        return Group;
      }
      return Run;
    }

    /** For a group, the colours it lacks (red, blue, black, yellow order); otherwise empty. */
    method GetGroupMissingColors() returns (missing: seq<Color>)
      ensures missing == MissingHues(tiles)
      ensures Classify(tiles) == Group ==> forall c :: c in missing <==> !HasHue(tiles, c)
      ensures Classify(tiles) != Group ==> missing == []
    {
      var kind := GetSetType();
      if kind != Group {
        return [];
      }
      AllColorsListed(Red);
      missing := [Red, Blue, Black, Yellow];
      AbsentFromNone(AllColors);
      assert tiles[..0] == [];
      for k := 0 to |tiles|
        invariant missing == Absent(AllColors, tiles[..k])
      {
        var t := tiles[k];
        assert tiles[..k + 1] == tiles[..k] + [t];
        if !t.IsJoker() {
          AbsentStep(AllColors, tiles[..k], t);
          missing := DropColor(missing, t.hue);
        } else {
          AbsentOtherHue(AllColors, tiles[..k], t);
        }
      }
      assert tiles[..|tiles|] == tiles;
      forall c ensures c in missing <==> !HasHue(tiles, c) {
        AbsentMembers(AllColors, tiles, c);
        AllColorsListed(c);
      }
    }

    /**
     * The scan both run-extension queries share: in a copy sorted by value,
     * count the jokers before the first numbered tile and take its value;
     * the run starts that many values below it.
     */
    method FindLogicalStart() returns (start: int)
      ensures start == LogicalStart(tiles)
    {
      var sorted := SortBy(ByValue, tiles);
      var lowestReal: int := -1;
      var jokersBefore := 0;
      var k := 0;
      while k < |sorted|
        invariant 0 <= k <= |sorted|
        invariant jokersBefore == k
        invariant LeadingJokers(sorted) == k + LeadingJokers(sorted[k..])
        invariant FirstNumber(sorted) == FirstNumber(sorted[k..])
      {
        assert sorted[k..][1..] == sorted[k + 1..];
        if sorted[k].IsJoker() {
          jokersBefore := jokersBefore + 1;
        } else {
          lowestReal := sorted[k].Value();
          break;
        }
        k := k + 1;
      }
      start := lowestReal - jokersBefore;
    }

    /** The value that extends this run at its end, or -1. */
    method GetRunNextValue() returns (v: int)
      ensures v == RunNextValue(tiles)
    {
      var kind := GetSetType();
      if kind != Run {
        return -1;
      }
      var logicalStart := FindLogicalStart();
      var logicalEnd := logicalStart + |tiles| - 1;
      if logicalEnd >= 13 {
        return -1;
      }
      return logicalEnd + 1;
    }

    /** The value that extends this run at its start, or -1. */
    method GetRunPrecedingValue() returns (v: int)
      ensures v == RunPrecedingValue(tiles)
    {
      var kind := GetSetType();
      if kind != Run {
        return -1;
      }
      var logicalStart := FindLogicalStart();
      if logicalStart <= 1 {
        return -1;
      }
      return logicalStart - 1;
    }

    /** The run's colour (that of its first numbered tile); None when it is not a run. */
    method GetRunColor() returns (c: Option<Color>)
      ensures c == RunHue(tiles)
    {
      var kind := GetSetType();
      if kind != Run {
        return None;
      }
      var k := 0;
      while k < |tiles|
        invariant 0 <= k <= |tiles|
        invariant FirstHue(tiles) == FirstHue(tiles[k..])
      {
        assert tiles[k..][1..] == tiles[k + 1..];
        if !tiles[k].IsJoker() {
          return tiles[k].Hue();
        }
        k := k + 1;
      }
      return None;
    }
  }
}

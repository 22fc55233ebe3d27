/** The player's hand: a list of tiles the solver takes tiles out of. */
module Hands {
  import opened Tiles

  class Hand {
    var tiles: seq<Tile>

    /** An empty hand. */
    constructor ()
      ensures tiles == []
    {
      tiles := [];
    }

    /** A hand holding the same tiles as another, in the same order. */
    constructor Copy(other: Hand)
      ensures tiles == other.tiles
    {
      tiles := other.tiles;
    }

    /** Adds a tile at the end. */
    method AddTile(t: Tile)
      modifies this
      ensures tiles == old(tiles) + [t]
    {
      tiles := tiles + [t];
    }

    /**
     * Takes out the first tile equal to t (same id), if there is one, and
     * reports whether there was: the hand then holds one id fewer, t's.
     */
    method RemoveTile(t: Tile) returns (removed: bool)
      modifies this
      ensures removed == Holds(old(tiles), t)
      ensures tiles == RemoveFirst(old(tiles), t)
      ensures removed ==> |tiles| == |old(tiles)| - 1 && IdBag(tiles) == IdBag(old(tiles)) - multiset{t.id}
      ensures !removed ==> tiles == old(tiles)
    {
      IdBagHolds(tiles, t);
      RemoveFirstIds(tiles, t);
      removed := Holds(tiles, t);
      tiles := RemoveFirst(tiles, t);
    }

    /** The number of tiles. */
    method GetSize() returns (n: nat)
      ensures n == |tiles|
    {
      n := |tiles|;
    }

    /** Whether the hand holds no tile. */
    method IsEmpty() returns (b: bool)
      ensures b <==> |tiles| == 0
    {
      b := tiles == [];
    }
  }
}

/**
 * The move-maker on the mutable board and hand. Each method is proved to
 * leave the table (the tiles of the board's melds and of the hand) exactly
 * as the corresponding function of the Strategy module says.
 */
module Solver {
  import opened Tiles
  import opened Sorting
  import opened Melds
  import opened RummiSets
  import opened Hands
  import opened Boards
  import opened Strategy
  import opened StrategyFacts
  import opened Moves

  /** What the solver's rules look at: the tiles of each meld, in board order, and the hand. */
  ghost function TableOf(board: Board, hand: Hand): Table
    reads board, board.sets, hand
  {
    Table(board.Melds(), hand.tiles)
  }

  // =============================================================== helpers

  /** Whether some tile of list has the given colour (no colour: a joker). */
  method HasColor(list: seq<Tile>, color: Option<Color>) returns (b: bool)
    ensures b == ListsColor(list, color)
  {
    for k := 0 to |list|
      invariant forall i :: 0 <= i < k ==> list[i].Hue() != color
    {
      if list[k].Hue() == color {
        return true;
      }
    }
    return false;
  }

  /**
   * Whether two tiles are worth trying as a pair: the same value and
   * different colours, or the same colour and values 1 or 2 apart.
   */
  method IsPotentiallyValidPair(t1: Tile, t2: Tile) returns (b: bool)
    ensures b == PotentialPair(t1, t2)
  {
    if t1.Value() == t2.Value() && t1.Hue() != t2.Hue() {
      return true;
    }
    if t1.Hue() == t2.Hue() {
      var diff := if t1.Value() - t2.Value() < 0 then t2.Value() - t1.Value() else t1.Value() - t2.Value();
      if diff == 1 || diff == 2 {
        return true;
      }
    }
    return false;
  }

  /** Puts a new meld on the board and takes each of the listed tiles out of the hand. */
  method PlaceNewSet(board: Board, hand: Hand, newSet: RummiSet, tilesToRemove: seq<Tile>)
    modifies board, hand
    ensures board.sets == old(board.sets) + [newSet]
    ensures board.Melds() == old(board.Melds()) + [newSet.tiles]
    ensures hand.tiles == RemoveEach(old(hand.tiles), tilesToRemove)
    ensures old(board.Valid()) && newSet !in old(board.sets) ==> board.Valid()
  {
    board.AddSet(newSet);
    assert board.Melds() == old(board.Melds()) + [newSet.tiles];
    RemoveAll(hand, tilesToRemove);
  }

  /** Takes each of the listed tiles, in order, out of the hand. */
  method RemoveAll(hand: Hand, tilesToRemove: seq<Tile>)
    modifies hand
    ensures hand.tiles == RemoveEach(old(hand.tiles), tilesToRemove)
  {
    for k := 0 to |tilesToRemove|
      invariant hand.tiles == RemoveEach(old(hand.tiles), tilesToRemove[..k])
    {
      assert tilesToRemove[..k + 1][..k] == tilesToRemove[..k];
      var _ := hand.RemoveTile(tilesToRemove[k]);
    }
    assert tilesToRemove[..|tilesToRemove|] == tilesToRemove;
  }

  // ======================================== stage 1: new melds from the hand

  /**
   * Plays the first run found in the hand sorted by (colour, value): from
   * each numbered tile, collect the next values of its colour; the first
   * candidate of three or more tiles that is a meld is put down.
   */
  method FindAndPlayRun(board: Board, hand: Hand) returns (played: bool)
    requires ColourSortable(hand.tiles) && board.Valid()
    modifies board, hand
    ensures played == RunToPlay(old(hand.tiles)).Some?
    ensures played ==> TableOf(board, hand) == PlaceNew(old(TableOf(board, hand)), RunToPlay(old(hand.tiles)).value)
    ensures !played ==> TableOf(board, hand) == old(TableOf(board, hand))
    ensures board.Valid() && forall r :: r in board.sets ==> r in old(board.sets) || fresh(r)
  {
    var tiles := SortBy(ByHueValue, hand.tiles);
    for i := 0 to |tiles|
      invariant FindRunFrom(tiles, 0) == FindRunFrom(tiles, i)
      invariant board.sets == old(board.sets) && hand.tiles == old(hand.tiles)
      invariant board.Melds() == old(board.Melds())
    {
      var startTile := tiles[i];
      if startTile.IsJoker() {
        continue;
      }
      var potentialRun := CollectRun(tiles, i);
      played := TryPlace(board, hand, potentialRun);
      if played {
        return;
      }
    }
    return false;
  }

  /**
   * The run candidate that starts at tiles[i]: the scan goes on while the
   * colour stays the same, and each tile of the next needed value joins it.
   */
  method CollectRun(tiles: seq<Tile>, i: nat) returns (potentialRun: seq<Tile>)
    requires i < |tiles| && tiles[i].Regular?
    ensures potentialRun == RunCandidate(tiles, i)
  {
    var startTile := tiles[i];
    potentialRun := [startTile];
    var nextNeededValue := startTile.Value() + 1;
    var runColor := startTile.Hue();
    var j := i + 1;
    while j < |tiles|
      invariant i + 1 <= j <= |tiles|
      invariant RunCandidate(tiles, i) == ExtendRun(tiles, j, startTile.hue, nextNeededValue, potentialRun)
    {
      var current := tiles[j];
      if current.Hue() != runColor {
        break;
      }
      if current.Value() == nextNeededValue {
        potentialRun := potentialRun + [current];
        nextNeededValue := nextNeededValue + 1;
      }
      j := j + 1;
    }
  }

  /**
   * Puts a candidate of three or more tiles down as a new meld when it is
   * valid, taking its tiles out of the hand.
   */
  method TryPlace(board: Board, hand: Hand, candidate: seq<Tile>) returns (played: bool)
    requires board.Valid()
    modifies board, hand
    ensures played == (|candidate| >= 3 && FormsMeld(candidate))
    ensures played ==> TableOf(board, hand) == PlaceNew(old(TableOf(board, hand)), candidate)
    ensures !played ==> board.sets == old(board.sets) && hand.tiles == old(hand.tiles)
    ensures board.Valid() && forall r :: r in board.sets ==> r in old(board.sets) || fresh(r)
  {
    if |candidate| < 3 {
      return false;
    }
    var newSet := new RummiSet(candidate);
    played := newSet.IsValid();
    if played {
      PlaceNewSet(board, hand, newSet, candidate);
    }
  }

  /**
   * Plays the first group found in the hand sorted by value: from each
   * numbered tile, collect the later tiles of its value whose colour the
   * candidate lacks; the first candidate of three or more tiles that is a
   * meld is put down.
   */
  method FindAndPlayGroup(board: Board, hand: Hand) returns (played: bool)
    requires board.Valid()
    modifies board, hand
    ensures played == GroupToPlay(old(hand.tiles)).Some?
    ensures played ==> TableOf(board, hand) == PlaceNew(old(TableOf(board, hand)), GroupToPlay(old(hand.tiles)).value)
    ensures !played ==> TableOf(board, hand) == old(TableOf(board, hand))
    ensures board.Valid() && forall r :: r in board.sets ==> r in old(board.sets) || fresh(r)
  {
    var tiles := SortBy(ByValue, hand.tiles);
    for i := 0 to |tiles|
      invariant FindGroupFrom(tiles, 0) == FindGroupFrom(tiles, i)
      invariant board.sets == old(board.sets) && hand.tiles == old(hand.tiles)
      invariant board.Melds() == old(board.Melds())
    {
      var t1 := tiles[i];
      if t1.IsJoker() {
        continue;
      }
      var potentialGroup := CollectGroup(tiles, i);
      played := TryPlace(board, hand, potentialGroup);
      if played {
        return;
      }
    }
    return false;
  }

  /**
   * The group candidate that starts at tiles[i]: each later tile of the same
   * value whose colour the candidate does not have yet joins it.
   */
  method CollectGroup(tiles: seq<Tile>, i: nat) returns (potentialGroup: seq<Tile>)
    requires i < |tiles| && tiles[i].Regular?
    ensures potentialGroup == GroupCandidate(tiles, i)
  {
    var t1 := tiles[i];
    potentialGroup := [t1];
    for j := i + 1 to |tiles|
      invariant GroupCandidate(tiles, i) == ExtendGroup(tiles, j, t1.number, potentialGroup)
    {
      var t2 := tiles[j];
      var seen := HasColor(potentialGroup, t2.Hue());
      if t2.Value() == t1.Value() && !seen {
        potentialGroup := potentialGroup + [t2];
      }
    }
  }

  /** Stage 1, once: a run if the hand has one, else a group. */
  method PlayNewSetFromHand(board: Board, hand: Hand) returns (played: bool)
    requires ColourSortable(hand.tiles) && board.Valid()
    modifies board, hand
    ensures played == NewSetStep(old(TableOf(board, hand))).Some?
    ensures played ==> TableOf(board, hand) == NewSetStep(old(TableOf(board, hand))).value
    ensures !played ==> TableOf(board, hand) == old(TableOf(board, hand))
    ensures board.Valid() && forall r :: r in board.sets ==> r in old(board.sets) || fresh(r)
  {
    played := FindAndPlayRun(board, hand);
    if played {
      return;
    }
    played := FindAndPlayGroup(board, hand);
  }

  // ==================================================== stage 2: pair theft

  /** Takes the tile at tileIndex out of meld k, in place, and puts the new meld down. */
  method StealInPlace(board: Board, sourceSet: RummiSet, tileIndex: nat, newSet: RummiSet, ghost k: nat)
    requires board.Valid() && k < |board.sets| && board.sets[k] == sourceSet && tileIndex < |sourceSet.tiles|
    requires newSet !in board.sets
    modifies board, sourceSet
    ensures var src := old(sourceSet.tiles);
      board.Melds() == old(board.Melds())[k := src[..tileIndex] + src[tileIndex + 1..]] + [newSet.tiles]
    ensures board.sets == old(board.sets) + [newSet] && board.Valid()
  {
    ghost var melds := board.Melds();
    var _ := sourceSet.RemoveTileAt(tileIndex);
    assert board.Melds() == melds[k := sourceSet.tiles];
    board.AddSet(newSet);
  }

  /**
   * Replaces meld k by the parts before and after tileIndex, followed by
   * the new meld, when both parts are melds; otherwise changes nothing.
   */
  method SplitAround(board: Board, sourceSet: RummiSet, tileIndex: nat, newSet: RummiSet, ghost k: nat) returns (ok: bool)
    requires board.Valid() && k < |board.sets| && board.sets[k] == sourceSet && tileIndex < |sourceSet.tiles|
    requires newSet !in board.sets
    modifies board
    ensures var src := sourceSet.tiles;
      ok == (FormsMeld(src[..tileIndex]) && FormsMeld(src[tileIndex + 1..]))
    ensures ok ==> var src, melds := sourceSet.tiles, old(board.Melds());
      board.Melds() == melds[..k] + melds[k + 1..] + [src[..tileIndex], src[tileIndex + 1..], newSet.tiles]
    ensures !ok ==> board.sets == old(board.sets)
    ensures board.Valid() && forall r :: r in board.sets ==> r in old(board.sets) || fresh(r) || r == newSet
  {
    ghost var melds := board.Melds();
    var originalTiles := sourceSet.tiles;
    var leftSet := new RummiSet(originalTiles[..tileIndex]);
    var rightSet := new RummiSet(originalTiles[tileIndex + 1..]);
    var leftValid := leftSet.IsValid();
    if !leftValid {
      return false;
    }
    var rightValid := rightSet.IsValid();
    if !rightValid {
      return false;
    }
    ReplaceWithParts(board, sourceSet, leftSet, rightSet, newSet, k);
    return true;
  }

  /** Takes meld k off the board and puts the two parts and the new meld down after the others. */
  method ReplaceWithParts(board: Board, sourceSet: RummiSet, leftSet: RummiSet, rightSet: RummiSet, newSet: RummiSet,
                          ghost k: nat)
    requires board.Valid() && k < |board.sets| && board.sets[k] == sourceSet
    requires leftSet !in board.sets && rightSet !in board.sets && newSet !in board.sets
    requires leftSet != rightSet && leftSet != newSet && rightSet != newSet
    modifies board
    ensures var melds := old(board.Melds());
      board.Melds() == melds[..k] + melds[k + 1..] + [leftSet.tiles, rightSet.tiles, newSet.tiles]
    ensures board.Valid() && forall r :: r in board.sets ==> r in old(board.sets) || r in {leftSet, rightSet, newSet}
  {
    ghost var melds := board.Melds();
    ghost var rest := melds[..k] + melds[k + 1..];
    assert FirstIndexOf(board.sets, sourceSet) == k;
    var _ := board.RemoveSet(sourceSet);
    board.AddSet(leftSet);
    board.AddSet(rightSet);
    board.AddSet(newSet);
    AppendThree(rest, leftSet.tiles, rightSet.tiles, newSet.tiles);
  }

  lemma AppendThree(rest: seq<seq<Tile>>, a: seq<Tile>, b: seq<Tile>, c: seq<Tile>)
    ensures rest + [a] + [b] + [c] == rest + [a, b, c]
  {
  }

  /**
   * Carries out a steal whose new meld is already built: from a group or an
   * end of the source meld the tile is taken out in place; from inside a run
   * the source is replaced by its two parts, unless one of them is no meld,
   * in which case nothing happens. Then the pair leaves the hand.
   */
  method ExecuteSteal(board: Board, hand: Hand, sourceSet: RummiSet, tileIndex: nat, newSet: RummiSet,
                      t1: Tile, t2: Tile, ghost k: nat) returns (done: bool)
    requires board.Valid() && k < |board.sets| && board.sets[k] == sourceSet && tileIndex < |sourceSet.tiles|
    requires newSet !in board.sets && newSet != sourceSet
    modifies board, hand, sourceSet
    ensures var src, t := old(sourceSet.tiles), old(TableOf(board, hand));
      var hand' := RemoveEach(t.hand, [t1, t2]);
      if Classify(src) == Group || tileIndex == 0 || tileIndex == |src| - 1 then
        done && TableOf(board, hand) == Table(t.melds[k := src[..tileIndex] + src[tileIndex + 1..]] + [newSet.tiles], hand')
      else if !FormsMeld(src[..tileIndex]) || !FormsMeld(src[tileIndex + 1..]) then
        !done && TableOf(board, hand) == t
      else
        done && TableOf(board, hand) == Table(t.melds[..k] + t.melds[k + 1..] + [src[..tileIndex], src[tileIndex + 1..], newSet.tiles], hand')
    ensures newSet.tiles == old(newSet.tiles)
    ensures !done ==> board.sets == old(board.sets)
    ensures board.Valid() && forall r :: r in board.sets ==> r in old(board.sets) || fresh(r) || r == newSet
  {
    ghost var melds, src := board.Melds(), sourceSet.tiles;
    var kind := sourceSet.GetSetType();
    var isGroup := kind == Group;
    var isEdge := tileIndex == 0 || tileIndex == |sourceSet.tiles| - 1;
    ghost var melds': seq<seq<Tile>>;
    if isGroup || isEdge {
      StealInPlace(board, sourceSet, tileIndex, newSet, k);
      melds' := melds[k := src[..tileIndex] + src[tileIndex + 1..]] + [newSet.tiles];
    } else {
      var ok := SplitAround(board, sourceSet, tileIndex, newSet, k);
      if !ok {
        return false;
      }
      melds' := melds[..k] + melds[k + 1..] + [src[..tileIndex], src[tileIndex + 1..], newSet.tiles];
    }
    assert board.Melds() == melds';
    RemovePair(hand, t1, t2);
    assert board.Melds() == melds';
    return true;
  }

  /** Takes a pair out of the hand, one tile after the other. */
  method RemovePair(hand: Hand, t1: Tile, t2: Tile)
    modifies hand
    ensures hand.tiles == RemoveEach(old(hand.tiles), [t1, t2])
  {
    RemoveEachPair(hand.tiles, t1, t2);
    var _ := hand.RemoveTile(t1);
    var _ := hand.RemoveTile(t2);
  }

  /**
   * Tries to steal the tile at tileIndex of the k-th meld: a joker is never
   * stolen; the hand pairs are scanned in order, and the first potential
   * pair that makes a meld with the stolen tile is played -- or, when the
   * split it needs leaves a part that is no meld, the attempt ends there.
   */
  method TryToMatchAndExecute(board: Board, hand: Hand, sourceSet: RummiSet, tileIndex: nat, ghost k: nat)
    returns (done: bool)
    requires board.Valid() && k < |board.sets| && board.sets[k] == sourceSet && tileIndex < |sourceSet.tiles|
    modifies board, hand, sourceSet
    ensures var t := old(TableOf(board, hand));
      done == TryAt(t, k, tileIndex).Some? &&
      TableOf(board, hand) == (if done then TryAt(t, k, tileIndex).value else t)
    ensures !done ==> board.sets == old(board.sets)
    ensures board.Valid() && forall r :: r in board.sets ==> r in old(board.sets) || fresh(r)
  {
    var stolenTile := sourceSet.tiles[tileIndex];
    if stolenTile.IsJoker() {
      return false;
    }
    var pair, newSet := FindStealPair(hand.tiles, stolenTile);
    if pair.None? {
      return false;
    }
    var (i, j) := pair.value;
    done := ExecuteSteal(board, hand, sourceSet, tileIndex, newSet, hand.tiles[i], hand.tiles[j], k);
  }

  /**
   * The pair scan of a steal: the first hand pair (i, j), i < j, that is
   * worth trying and makes a meld with the stolen tile, and that meld.
   */
  method FindStealPair(handTiles: seq<Tile>, stolenTile: Tile) returns (pair: Option<(nat, nat)>, newSet: RummiSet?)
    ensures pair == PairFrom(handTiles, stolenTile, 0, 1)
    ensures pair.Some? ==> pair.value.0 < pair.value.1 < |handTiles| && newSet != null && fresh(newSet)
    ensures pair.Some? && newSet != null ==>
      newSet.tiles == Triple(stolenTile, handTiles[pair.value.0], handTiles[pair.value.1])
  {
    for i := 0 to |handTiles|
      invariant PairFrom(handTiles, stolenTile, 0, 1) == PairFrom(handTiles, stolenTile, i, i + 1)
    {
      var partner;
      partner, newSet := FindPartner(handTiles, stolenTile, i);
      if partner.Some? {
        return Some((i, partner.value)), newSet;
      }
      PairFromRowEnd(handTiles, stolenTile, i);
    }
    return None, null;
  }

  /** The inner pair scan: the first j after i such that (i, j) is worth trying and makes a meld with the stolen tile. */
  method FindPartner(handTiles: seq<Tile>, stolenTile: Tile, i: nat) returns (partner: Option<nat>, newSet: RummiSet?)
    requires i < |handTiles|
    ensures partner.None? ==> PairFrom(handTiles, stolenTile, i, i + 1) == PairFrom(handTiles, stolenTile, i, |handTiles|)
    ensures partner.Some? ==> PairFrom(handTiles, stolenTile, i, i + 1) == Some((i, partner.value))
    ensures partner.Some? ==> i < partner.value < |handTiles| && newSet != null && fresh(newSet)
    ensures partner.Some? && newSet != null ==> newSet.tiles == Triple(stolenTile, handTiles[i], handTiles[partner.value])
  {
    var j := i + 1;
    while j < |handTiles|
      invariant i < j <= |handTiles|
      invariant forall q :: i < q < j ==>
        !(PotentialPair(handTiles[i], handTiles[q]) && FormsMeld(Triple(stolenTile, handTiles[i], handTiles[q])))
    {
      var valid;
      valid, newSet := TryPair(stolenTile, handTiles[i], handTiles[j]);
      if valid {
        PairFromSkipped(handTiles, stolenTile, i, j);
        PairFromStep(handTiles, stolenTile, i, j);
        return Some(j), newSet;
      }
      j := j + 1;
    }
    PairFromSkipped(handTiles, stolenTile, i, j);
    return None, null;
  }

  /** One pair of the scan: worth trying, and then the sorted candidate of the stolen tile and the pair is a meld. */
  method TryPair(stolenTile: Tile, t1: Tile, t2: Tile) returns (valid: bool, newSet: RummiSet?)
    ensures valid == (PotentialPair(t1, t2) && FormsMeld(Triple(stolenTile, t1, t2)))
    ensures valid ==> newSet != null && fresh(newSet) && newSet.tiles == Triple(stolenTile, t1, t2)
  {
    var worthTrying := IsPotentiallyValidPair(t1, t2);
    if !worthTrying {
      return false, null;
    }
    newSet := new RummiSet(SortBy(ByHueValue, [stolenTile, t1, t2]));
    valid := newSet.IsValid();
  }

  /** Tries to steal each tile of the k-th meld from index lo up to (not including) hi, in order, until one steal is played. */
  method TryRange(board: Board, hand: Hand, sourceSet: RummiSet, lo: nat, hi: nat, ghost k: nat) returns (done: bool)
    requires board.Valid() && k < |board.sets| && board.sets[k] == sourceSet && lo <= hi <= |sourceSet.tiles|
    modifies board, hand, sourceSet
    ensures var t := old(TableOf(board, hand));
      done == TryIndices(t, k, Range(lo, hi)).Some? &&
      TableOf(board, hand) == (if done then TryIndices(t, k, Range(lo, hi)).value else t)
    ensures !done ==> board.sets == old(board.sets)
    ensures board.Valid() && forall r :: r in board.sets ==> r in old(board.sets) || fresh(r)
  {
    ghost var t := TableOf(board, hand);
    TryIndicesNone(t, k, lo);
    for i := lo to hi
      invariant TryIndices(t, k, Range(lo, i)).None?
      invariant TableOf(board, hand) == t && board.sets == old(board.sets)
    {
      done := TryToMatchAndExecute(board, hand, sourceSet, i, k);
      if done {
        TryRangeSplit(t, k, lo, i, hi);
        TryRangeStep(t, k, i, hi);
        return;
      }
      TryRangeMissed(t, k, lo, i);
    }
    return false;
  }

  /**
   * Theft from one meld: any tile of a group of more than three; for
   * anything else, the two ends when it has more than three tiles, then,
   * when it has seven or more, each tile leaving three on either side.
   */
  method StealFromSet(board: Board, hand: Hand, boardSet: RummiSet, ghost k: nat) returns (done: bool)
    requires board.Valid() && k < |board.sets| && board.sets[k] == boardSet
    modifies board, hand, boardSet
    ensures var t := old(TableOf(board, hand));
      var tried := TryIndices(t, k, StealIndices(t.melds[k]));
      done == tried.Some? && TableOf(board, hand) == (if done then tried.value else t)
    ensures !done ==> board.sets == old(board.sets)
    ensures board.Valid() && forall r :: r in board.sets ==> r in old(board.sets) || fresh(r)
  {
    var kind := boardSet.GetSetType();
    if kind == Group {
      done := StealFromGroup(board, hand, boardSet, k);
    } else {
      done := StealFromRun(board, hand, boardSet, k);
    }
  }

  /** Theft from a group: any of its tiles, in order, when it has more than three. */
  method StealFromGroup(board: Board, hand: Hand, boardSet: RummiSet, ghost k: nat) returns (done: bool)
    requires board.Valid() && k < |board.sets| && board.sets[k] == boardSet && Classify(boardSet.tiles) == Group
    modifies board, hand, boardSet
    ensures var t := old(TableOf(board, hand));
      var tried := TryIndices(t, k, StealIndices(t.melds[k]));
      done == tried.Some? && TableOf(board, hand) == (if done then tried.value else t)
    ensures !done ==> board.sets == old(board.sets)
    ensures board.Valid() && forall r :: r in board.sets ==> r in old(board.sets) || fresh(r)
  {
    TryStealIndicesGroup(TableOf(board, hand), k);
    var size := |boardSet.tiles|;
    if size > 3 {
      done := TryRange(board, hand, boardSet, 0, size, k);
    } else {
      done := false;
    }
  }

  /** Theft from a run (or anything but a group): its two ends, then the tiles leaving three on either side. */
  method StealFromRun(board: Board, hand: Hand, boardSet: RummiSet, ghost k: nat) returns (done: bool)
    requires board.Valid() && k < |board.sets| && board.sets[k] == boardSet && Classify(boardSet.tiles) != Group
    modifies board, hand, boardSet
    ensures var t := old(TableOf(board, hand));
      var tried := TryIndices(t, k, StealIndices(t.melds[k]));
      done == tried.Some? && TableOf(board, hand) == (if done then tried.value else t)
    ensures !done ==> board.sets == old(board.sets)
    ensures board.Valid() && forall r :: r in board.sets ==> r in old(board.sets) || fresh(r)
  {
    TryStealIndicesRun(TableOf(board, hand), k);
    var size := |boardSet.tiles|;
    if size > 3 {
      done := TryEnds(board, hand, boardSet, k);
      if done {
        return;
      }
    }
    if size >= 7 {
      done := TryRange(board, hand, boardSet, 3, size - 3, k);
    } else {
      done := false;
    }
  }

  /** Tries to steal the first tile of the k-th meld, then its last. */
  method TryEnds(board: Board, hand: Hand, sourceSet: RummiSet, ghost k: nat) returns (done: bool)
    requires board.Valid() && k < |board.sets| && board.sets[k] == sourceSet && |sourceSet.tiles| > 0
    modifies board, hand, sourceSet
    ensures var t, ends := old(TableOf(board, hand)), [0, old(|sourceSet.tiles|) - 1];
      done == TryIndices(t, k, ends).Some? &&
      TableOf(board, hand) == (if done then TryIndices(t, k, ends).value else t)
    ensures !done ==> board.sets == old(board.sets)
    ensures board.Valid() && forall r :: r in board.sets ==> r in old(board.sets) || fresh(r)
  {
    ghost var t := TableOf(board, hand);
    var last := |sourceSet.tiles| - 1;
    TryTwoIndices(t, k, 0, last);
    done := TryToMatchAndExecute(board, hand, sourceSet, 0, k);
    if done {
      return;
    }
    done := TryToMatchAndExecute(board, hand, sourceSet, last, k);
  }

  /**
   * Stage 2, one step: the melds on the board when the step starts are
   * visited in board order, and the first steal that succeeds is played.
   */
  method PlaySmartPairTheft(board: Board, hand: Hand) returns (stole: bool)
    requires board.Valid() && ColourSortable(hand.tiles)
    modifies board, hand, set r | r in board.sets
    ensures var t := old(TableOf(board, hand));
      stole == TheftStep(t).Some? && TableOf(board, hand) == (if stole then TheftStep(t).value else t)
    ensures board.Valid() && forall r :: r in board.sets ==> r in old(board.sets) || fresh(r)
  {
    ghost var t := TableOf(board, hand);
    var setsCopy := board.sets;
    for k := 0 to |setsCopy|
      invariant TheftFrom(t, 0) == TheftFrom(t, k)
      invariant TableOf(board, hand) == t && board.sets == setsCopy
    {
      stole := StealFromSet(board, hand, setsCopy[k], k);
      if stole {
        return;
      }
    }
    return false;
  }

  // ================================== stage 3: single tiles onto melds

  /**
   * Where a tile joins a meld: at the end of a group that lacks its colour
   * and has its value; at the end of a run of its colour when it has the
   * run's next value, else at the start when it has the preceding value.
   */
  method FitSlot(meld: RummiSet, tile: Tile) returns (slot: Slot)
    ensures slot == Fit(meld.tiles, tile)
  {
    var kind := meld.GetSetType();
    if kind == Group {
      var missing := meld.GetGroupMissingColors();
      if tile.Hue().Some? && tile.Hue().value in missing && tile.Value() == meld.tiles[0].Value() {
        return AtEnd;
      }
    }
    if kind == Run {
      var runColor := meld.GetRunColor();
      if runColor.Some? && tile.Hue() == runColor {
        var next := meld.GetRunNextValue();
        if tile.Value() == next {
          return AtEnd;
        }
        var preceding := meld.GetRunPrecedingValue();
        if tile.Value() == preceding {
          return AtStart;
        }
      }
    }
    return NoSlot;
  }

  /**
   * Scans the hand, in order, for the first tile that fits the k-th meld and
   * moves it there; when none fits, the scan goes on with the next meld.
   */
  method AppendToSet(board: Board, hand: Hand, meld: RummiSet, ghost k: nat) returns (added: bool)
    requires board.Valid() && k < |board.sets| && board.sets[k] == meld
    modifies hand, meld
    ensures var t := old(TableOf(board, hand));
      if added then AppendFrom(t, k, 0).Some? && TableOf(board, hand) == AppendFrom(t, k, 0).value
      else AppendFrom(t, k, 0) == AppendFrom(t, k + 1, 0) && TableOf(board, hand) == t
  {
    ghost var t := TableOf(board, hand);
    var i, slot := FirstFit(meld, hand.tiles);
    if i < |hand.tiles| {
      assert meld.tiles == t.melds[k] && hand.tiles == t.hand;
      AppendFromSkipped(t, k, i);
      AppendFromHit(t, k, i);
      PutTile(board, hand, meld, hand.tiles[i], slot == AtEnd, k);
      return true;
    }
    AppendFromSkipped(t, k, i);
    AppendFromRowEnd(t, k);
    return false;
  }

  /** The hand scan of stage 3: the index of the first tile that fits an end of the meld, or the hand size when none does. */
  method FirstFit(meld: RummiSet, handTiles: seq<Tile>) returns (i: nat, slot: Slot)
    ensures i <= |handTiles| && forall q :: 0 <= q < i ==> Fit(meld.tiles, handTiles[q]) == NoSlot
    ensures i < |handTiles| ==> slot == Fit(meld.tiles, handTiles[i]) != NoSlot
  {
    i, slot := 0, NoSlot;
    while i < |handTiles|
      invariant i <= |handTiles| && forall q :: 0 <= q < i ==> Fit(meld.tiles, handTiles[q]) == NoSlot
    {
      slot := FitSlot(meld, handTiles[i]);
      if slot != NoSlot {
        return;
      }
      i := i + 1;
    }
  }

  /** Moves a hand tile to the end (or the start) of the k-th meld. */
  method PutTile(board: Board, hand: Hand, meld: RummiSet, tile: Tile, atEnd: bool, ghost k: nat)
    requires board.Valid() && k < |board.sets| && board.sets[k] == meld
    modifies hand, meld
    ensures var t := old(TableOf(board, hand));
      TableOf(board, hand) == Table(t.melds[k := if atEnd then t.melds[k] + [tile] else [tile] + t.melds[k]], RemoveFirst(t.hand, tile))
  {
    GrowMeld(board, meld, tile, atEnd, k);
    var _ := hand.RemoveTile(tile);
  }

  /** Adds a tile to the end (or the start) of the k-th meld, in place. */
  method GrowMeld(board: Board, meld: RummiSet, tile: Tile, atEnd: bool, ghost k: nat)
    requires board.Valid() && k < |board.sets| && board.sets[k] == meld
    modifies meld
    ensures var melds := old(board.Melds());
      board.Melds() == melds[k := if atEnd then melds[k] + [tile] else [tile] + melds[k]]
  {
    ghost var melds := board.Melds();
    if atEnd {
      meld.AddTile(tile);
    } else {
      meld.AddTileAt(0, tile);
      assert melds[k][..0] + [tile] + melds[k][0..] == [tile] + melds[k];
    }
    assert board.Melds() == melds[k := meld.tiles];
  }

  /** Stage 3, one step: the melds in board order, each with the hand tiles in order. */
  method AddSingleTileToExistingSet(board: Board, hand: Hand) returns (added: bool)
    requires board.Valid()
    modifies hand, set r | r in board.sets
    ensures var t := old(TableOf(board, hand));
      added == AppendStep(t).Some? && TableOf(board, hand) == (if added then AppendStep(t).value else t)
  {
    ghost var t := TableOf(board, hand);
    for k := 0 to |board.sets|
      invariant AppendFrom(t, 0, 0) == AppendFrom(t, k, 0)
      invariant TableOf(board, hand) == t
    {
      added := AppendToSet(board, hand, board.sets[k], k);
      if added {
        return;
      }
    }
    return false;
  }

  // ============================================================ the move

  /** Stage 1: plays new melds from the hand for as long as one can be played. */
  method PlayNewSets(board: Board, hand: Hand) returns (progress: bool)
    requires board.Valid() && ColourSortable(hand.tiles)
    modifies board, hand, set r | r in board.sets
    ensures var t := old(TableOf(board, hand));
      TableOf(board, hand) == RepeatNew(t) && progress == NewSetStep(t).Some?
    ensures board.Valid() && forall r :: r in board.sets ==> r in old(board.sets) || fresh(r)
  {
    ghost var t := TableOf(board, hand);
    progress := false;
    while true
      invariant board.Valid() && ColourSortable(hand.tiles)
      invariant forall r :: r in board.sets ==> r in old(board.sets) || fresh(r)
      invariant RepeatNew(t) == RepeatNew(TableOf(board, hand))
      invariant if progress then NewSetStep(t).Some? else TableOf(board, hand) == t
      decreases |hand.tiles|
    {
      ghost var current := TableOf(board, hand);
      var played := PlayNewSetFromHand(board, hand);
      if !played {
        break;
      }
      NewSetProgress(current);
      progress := true;
    }
  }

  /** Stage 2: steals for as long as a steal can be played. */
  method PlayThefts(board: Board, hand: Hand) returns (progress: bool)
    requires board.Valid() && ColourSortable(hand.tiles)
    modifies board, hand, set r | r in board.sets
    ensures var t := old(TableOf(board, hand));
      TableOf(board, hand) == RepeatTheft(t) && progress == TheftStep(t).Some?
    ensures board.Valid() && forall r :: r in board.sets ==> r in old(board.sets) || fresh(r)
  {
    ghost var t := TableOf(board, hand);
    progress := false;
    while true
      invariant board.Valid() && ColourSortable(hand.tiles)
      invariant forall r :: r in board.sets ==> r in old(board.sets) || fresh(r)
      invariant RepeatTheft(t) == RepeatTheft(TableOf(board, hand))
      invariant if progress then TheftStep(t).Some? else TableOf(board, hand) == t
      decreases |hand.tiles|
    {
      ghost var current := TableOf(board, hand);
      var stole := PlaySmartPairTheft(board, hand);
      if !stole {
        break;
      }
      TheftProgress(current);
      progress := true;
    }
  }

  /** Stage 3: puts single tiles onto melds for as long as one fits. */
  method PlaySingleTiles(board: Board, hand: Hand) returns (progress: bool)
    requires board.Valid()
    modifies hand, set r | r in board.sets
    ensures var t := old(TableOf(board, hand));
      TableOf(board, hand) == RepeatAppend(t) && progress == AppendStep(t).Some?
  {
    ghost var t := TableOf(board, hand);
    progress := false;
    while true
      invariant RepeatAppend(t) == RepeatAppend(TableOf(board, hand))
      invariant if progress then AppendStep(t).Some? else TableOf(board, hand) == t
      decreases |hand.tiles|
    {
      ghost var current := TableOf(board, hand);
      var added := AddSingleTileToExistingSet(board, hand);
      if !added {
        break;
      }
      AppendProgress(current);
      progress := true;
    }
  }

  /**
   * One move: stage 1 while it succeeds, then stage 2 while it succeeds,
   * then stage 3 while it succeeds; the result tells whether any step did.
   */
  method MakeMove(board: Board, hand: Hand) returns (madeProgress: bool)
    requires board.Valid() && ColourSortable(hand.tiles)
    modifies board, hand, set r | r in board.sets
    ensures (TableOf(board, hand), madeProgress) == Move(old(TableOf(board, hand)))
    ensures board.Valid()
  {
    var newSets := PlayNewSets(board, hand);
    var thefts := PlayThefts(board, hand);
    var singles := PlaySingleTiles(board, hand);
    madeProgress := newSets || thefts || singles;
  }
}

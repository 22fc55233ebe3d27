/**
 * The greedy move-maker as functions on values: the table (the melds on the
 * board, in board order, and the hand), one step of each of the three stages,
 * each stage repeated until it fails, and the whole move. The solver's
 * methods are proved to compute exactly these.
 */
module Strategy {
  import opened Tiles
  import opened Sorting
  import opened Melds

  /** What the solver sees and changes: the tiles of each meld on the board, and the hand. */
  datatype Table = Table(melds: seq<seq<Tile>>, hand: seq<Tile>)

  /**
   * Sorting by colour fails on a joker (it has no colour) as soon as two
   * tiles are compared, so a hand that stage 1 sorts by colour must hold
   * fewer than two tiles or no joker.
   */
  predicate ColourSortable(h: seq<Tile>)
  {
    |h| < 2 || NoJokers(h)
  }

  function Range(a: nat, b: nat): (r: seq<nat>)
    requires a <= b
    ensures |r| == b - a && forall i :: 0 <= i < |r| ==> r[i] == a + i
  {
    seq(b - a, i => a + i)
  }

  // ============================================ stage 1: new melds from the hand

  /**
   * The run scan from position j of the colour-sorted hand: stop at the first
   * tile of another colour, take a tile whose value is the one needed next,
   * skip any other.
   */
  function ExtendRun(q: seq<Tile>, j: nat, hue: Color, next: int, acc: seq<Tile>): seq<Tile>
    requires j <= |q|
    decreases |q| - j
  {
    if j == |q| || q[j].Hue() != Some(hue) then acc
    else if q[j].Value() == next then ExtendRun(q, j + 1, hue, next + 1, acc + [q[j]])
    else ExtendRun(q, j + 1, hue, next, acc)
  }

  /** The run candidate that starts at the numbered tile q[i]. */
  function RunCandidate(q: seq<Tile>, i: nat): seq<Tile>
    requires i < |q| && q[i].Regular?
  {
    ExtendRun(q, i + 1, q[i].hue, q[i].number + 1, [q[i]])
  }

  /** The first run candidate, from position i on, of three or more tiles that forms a meld. */
  function FindRunFrom(q: seq<Tile>, i: nat): (r: Option<seq<Tile>>)
    requires i <= |q|
    ensures r.Some? ==> |r.value| >= 3 && FormsMeld(r.value)
    decreases |q| - i
  {
    if i == |q| then None
    else if q[i].Regular? && |RunCandidate(q, i)| >= 3 && FormsMeld(RunCandidate(q, i)) then Some(RunCandidate(q, i))
    else FindRunFrom(q, i + 1)
  }

  /** The run stage 1 plays from a hand: scanned in (colour, value) order. */
  function RunToPlay(h: seq<Tile>): Option<seq<Tile>>
  {
    FindRunFrom(SortBy(ByHueValue, h), 0)
  }

  /** Some tile of s has colour c (no colour, for c = None: a joker). */
  predicate ListsColor(s: seq<Tile>, c: Option<Color>)
  {
    exists i :: 0 <= i < |s| && s[i].Hue() == c
  }

  /**
   * The group scan from position j of the value-sorted hand: take every tile
   * of the value sought whose colour the candidate does not have yet.
   */
  function ExtendGroup(q: seq<Tile>, j: nat, value: nat, acc: seq<Tile>): seq<Tile>
    requires j <= |q|
    decreases |q| - j
  {
    if j == |q| then acc
    else if q[j].Value() == value && !ListsColor(acc, q[j].Hue()) then ExtendGroup(q, j + 1, value, acc + [q[j]])
    else ExtendGroup(q, j + 1, value, acc)
  }

  /** The group candidate that starts at the numbered tile q[i]. */
  function GroupCandidate(q: seq<Tile>, i: nat): seq<Tile>
    requires i < |q| && q[i].Regular?
  {
    ExtendGroup(q, i + 1, q[i].number, [q[i]])
  }

  /** The first group candidate, from position i on, of three or more tiles that forms a meld. */
  function FindGroupFrom(q: seq<Tile>, i: nat): (r: Option<seq<Tile>>)
    requires i <= |q|
    ensures r.Some? ==> |r.value| >= 3 && FormsMeld(r.value)
    decreases |q| - i
  {
    if i == |q| then None
    else if q[i].Regular? && |GroupCandidate(q, i)| >= 3 && FormsMeld(GroupCandidate(q, i)) then Some(GroupCandidate(q, i))
    else FindGroupFrom(q, i + 1)
  }

  /** The group stage 1 plays from a hand: scanned in value order. */
  function GroupToPlay(h: seq<Tile>): Option<seq<Tile>>
  {
    FindGroupFrom(SortBy(ByValue, h), 0)
  }

  /** A new meld goes on the board after the others, and its tiles leave the hand. */
  function PlaceNew(t: Table, c: seq<Tile>): Table
  {
    Table(t.melds + [c], RemoveEach(t.hand, c))
  }

  /** One step of stage 1: a run if there is one, else a group, else nothing. */
  function NewSetStep(t: Table): Option<Table>
    requires ColourSortable(t.hand)
  {
    match RunToPlay(t.hand)
    case Some(c) => Some(PlaceNew(t, c))
    case None =>
      match GroupToPlay(t.hand)
      case Some(c) => Some(PlaceNew(t, c))
      case None => None
  }

  // ================================================ stage 2: pair theft

  function Abs(x: int): nat
  {
    if x < 0 then -x else x
  }

  /**
   * Two hand tiles are worth trying with a stolen tile when they share a
   * value but not a colour, or share a colour and differ in value by 1 or 2.
   */
  predicate PotentialPair(a: Tile, b: Tile)
  {
    (a.Value() == b.Value() && a.Hue() != b.Hue())
    || (a.Hue() == b.Hue() && (Abs(a.Value() - b.Value()) == 1 || Abs(a.Value() - b.Value()) == 2))
  }

  /** The candidate meld of a stolen tile and a hand pair, sorted by (colour, value). */
  function Triple(stolen: Tile, a: Tile, b: Tile): seq<Tile>
  {
    SortBy(ByHueValue, [stolen, a, b])
  }

  /**
   * The first hand pair (i, j), i < j, from (i, j) on in the order the
   * nested scan visits them, that is a potential pair and forms a meld with
   * the stolen tile.
   */
  function PairFrom(h: seq<Tile>, stolen: Tile, i: nat, j: nat): (r: Option<(nat, nat)>)
    requires i < j <= |h| + 1
    ensures r.Some? ==> var (p, q) := r.value; i <= p < q < |h| && PotentialPair(h[p], h[q]) && FormsMeld(Triple(stolen, h[p], h[q]))
    decreases |h| - i, |h| + 1 - j
  {
    if i >= |h| then None
    else if j >= |h| then PairFrom(h, stolen, i + 1, i + 2)
    else if PotentialPair(h[i], h[j]) && FormsMeld(Triple(stolen, h[i], h[j])) then Some((i, j))
    else PairFrom(h, stolen, i, j + 1)
  }

  /**
   * Trying to steal the tile at idx of meld k: a joker is never stolen; with
   * no pair that completes it, nothing happens. Otherwise, from a group or an
   * end of the meld the tile is simply taken out; from inside a run the meld
   * is split around it, but only when both remainders are melds -- if one is
   * not, the attempt fails at once (later pairs are not tried). On success
   * the new meld goes last on the board and the pair leaves the hand.
   */
  function TryAt(t: Table, k: nat, idx: nat): Option<Table>
    requires k < |t.melds| && idx < |t.melds[k]|
  {
    var src := t.melds[k];
    var stolen := src[idx];
    if stolen.Joker? then None
    else
      match PairFrom(t.hand, stolen, 0, 1)
      case None => None
      case Some((i, j)) =>
        var newSet := Triple(stolen, t.hand[i], t.hand[j]);
        var hand := RemoveEach(t.hand, [t.hand[i], t.hand[j]]);
        if Classify(src) == Group || idx == 0 || idx == |src| - 1 then
          Some(Table(t.melds[k := src[..idx] + src[idx + 1..]] + [newSet], hand))
        else if !FormsMeld(src[..idx]) || !FormsMeld(src[idx + 1..]) then
          None
        else
          Some(Table(t.melds[..k] + t.melds[k + 1..] + [src[..idx], src[idx + 1..], newSet], hand))
  }

  /**
   * The indices theft tries in a meld, in order: every index of a group of
   * more than three tiles; for anything else, the two ends when it has more
   * than three tiles, then, when it has seven or more, each index that
   * leaves at least three tiles on either side.
   */
  function StealIndices(m: seq<Tile>): (ids: seq<nat>)
    ensures forall p :: 0 <= p < |ids| ==> ids[p] < |m|
  {
    if Classify(m) == Group then
      (if |m| > 3 then Range(0, |m|) else [])
    else
      (if |m| > 3 then [0, |m| - 1] else []) + (if |m| >= 7 then Range(3, |m| - 3) else [])
  }

  function TryIndices(t: Table, k: nat, ids: seq<nat>): Option<Table>
    requires k < |t.melds| && forall p :: 0 <= p < |ids| ==> ids[p] < |t.melds[k]|
    decreases |ids|
  {
    if ids == [] then None
    else if TryAt(t, k, ids[0]).Some? then TryAt(t, k, ids[0])
    else
      assert forall p :: 0 <= p < |ids| - 1 ==> ids[1..][p] == ids[p + 1];
      TryIndices(t, k, ids[1..])
  }

  /** Theft over the melds from k on, in board order. */
  function TheftFrom(t: Table, k: nat): Option<Table>
    requires k <= |t.melds|
    decreases |t.melds| - k
  {
    if k == |t.melds| then None
    else
      var tried := TryIndices(t, k, StealIndices(t.melds[k]));
      if tried.Some? then tried else TheftFrom(t, k + 1)
  }

  /** One step of stage 2. */
  function TheftStep(t: Table): Option<Table>
    requires ColourSortable(t.hand)
  {
    TheftFrom(t, 0)
  }

  // ======================================= stage 3: single tiles onto melds

  datatype Slot = AtEnd | AtStart | NoSlot

  /**
   * Where a hand tile joins a meld: the end of a group lacking its colour
   * whose first tile has its value; the end of a run of its colour when it
   * has the run's next value, else the start when it has the preceding value.
   */
  function Fit(m: seq<Tile>, t: Tile): Slot
  {
    if Classify(m) == Group && t.Regular? && t.hue in MissingHues(m) && t.Value() == m[0].Value() then AtEnd
    else if Classify(m) == Run && RunHue(m).Some? && t.Hue() == RunHue(m) then
      if t.Value() == RunNextValue(m) then AtEnd
      else if t.Value() == RunPrecedingValue(m) then AtStart
      else NoSlot
    else NoSlot
  }

  /** The first (meld, hand tile) pair, melds in board order then tiles in hand order, that fits. */
  function AppendFrom(t: Table, k: nat, i: nat): Option<Table>
    requires k <= |t.melds| && i <= |t.hand|
    decreases |t.melds| - k, |t.hand| - i
  {
    if k == |t.melds| then None
    else if i == |t.hand| then AppendFrom(t, k + 1, 0)
    else
      var m, x := t.melds[k], t.hand[i];
      match Fit(m, x)
      case AtEnd => Some(Table(t.melds[k := m + [x]], RemoveFirst(t.hand, x)))
      case AtStart => Some(Table(t.melds[k := [x] + m], RemoveFirst(t.hand, x)))
      case NoSlot => AppendFrom(t, k, i + 1)
  }

  /** One step of stage 3. */
  function AppendStep(t: Table): Option<Table>
  {
    AppendFrom(t, 0, 0)
  }
}

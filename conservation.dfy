/**
 * No step of the move-maker creates or loses a tile: the ids on the table
 * (the hand's and those of every meld on the board) are the same bag
 * before and after each step.
 */
module Conservation {
  import opened Tiles
  import opened Melds
  import opened Strategy
  import opened StrategyFacts

  /** The ids of all tiles on the board, meld by meld. */
  function BoardIds(ms: seq<seq<Tile>>): (b: multiset<int>)
    ensures |ms| == 1 ==> b == IdBag(ms[0])
  {
    if ms == [] then multiset{} else BoardIds(ms[..|ms| - 1]) + IdBag(ms[|ms| - 1])
  }

  /** The ids of every tile of the game that the solver sees. */
  function TableIds(t: Table): multiset<int>
  {
    IdBag(t.hand) + BoardIds(t.melds)
  }

  lemma {:induction false} BoardIdsAppend(a: seq<seq<Tile>>, b: seq<seq<Tile>>)
    ensures BoardIds(a + b) == BoardIds(a) + BoardIds(b)
    decreases |b|
  {
    if b == [] {
      assert a + b == a;
    } else {
      var init := b[..|b| - 1];
      assert (a + b)[..|a + b| - 1] == a + init;
      assert (a + b)[|a + b| - 1] == b[|b| - 1];
      BoardIdsAppend(a, init);
    }
  }

  /** Replacing one meld swaps its ids for the new meld's. */
  lemma BoardIdsUpdate(ms: seq<seq<Tile>>, k: nat, m: seq<Tile>)
    requires k < |ms|
    ensures BoardIds(ms[k := m]) + IdBag(ms[k]) == BoardIds(ms) + IdBag(m)
  {
    var before, after := ms[..k], ms[k + 1..];
    SplitMelds(ms, k);
    SplitMelds(ms[k := m], k);
    assert ms[k := m][..k] == before && ms[k := m][k + 1..] == after;
    BoardIdsAround(before, ms[k], after);
    BoardIdsAround(before, m, after);
  }

  /** Taking meld k out of the board takes out its ids. */
  lemma BoardIdsWithout(ms: seq<seq<Tile>>, k: nat)
    requires k < |ms|
    ensures BoardIds(ms[..k] + ms[k + 1..]) + IdBag(ms[k]) == BoardIds(ms)
  {
    var before, after := ms[..k], ms[k + 1..];
    SplitMelds(ms, k);
    BoardIdsAround(before, ms[k], after);
    BoardIdsAppend(before, after);
    SwapLast(BoardIds(before), IdBag(ms[k]), BoardIds(after));
  }

  lemma SplitMelds(ms: seq<seq<Tile>>, k: nat)
    requires k < |ms|
    ensures ms == ms[..k] + [ms[k]] + ms[k + 1..]
  {
    assert ms[k..] == [ms[k]] + ms[k + 1..];
    assert ms == ms[..k] + ms[k..];
  }

  /** The ids of a board with one meld between two parts. */
  lemma BoardIdsAround(before: seq<seq<Tile>>, m: seq<Tile>, after: seq<seq<Tile>>)
    ensures BoardIds(before + [m] + after) == BoardIds(before) + IdBag(m) + BoardIds(after)
  {
    BoardIdsAppend(before + [m], after);
    BoardIdsAppend(before, [m]);
  }

  lemma SwapLast(a: multiset<int>, b: multiset<int>, c: multiset<int>)
    ensures a + c + b == a + b + c
  {
  }

  /** Lists holding the same tiles hold the same ids. */
  lemma IdBagPermuted(a: seq<Tile>, b: seq<Tile>)
    requires multiset(a) == multiset(b)
    ensures IdBag(a) == IdBag(b)
  {
    IdBagMonotone(a, b);
    IdBagMonotone(b, a);
  }

  lemma IdBagOfThree(a: Tile, b: Tile, c: Tile)
    ensures IdBag([a, b, c]) == multiset{a.id} + multiset{b.id, c.id}
  {
    assert [a, b, c][1..] == [b, c];
    IdBagOfTwo(b, c);
  }

  /** Splitting a meld around index x keeps every id but the one at x. */
  lemma SplitIds(m: seq<Tile>, x: nat)
    requires x < |m|
    ensures IdBag(m[..x]) + IdBag(m[x + 1..]) + multiset{m[x].id} == IdBag(m)
  {
    RemoveAtIds(m, x);
    IdBagAppend(m[..x], m[x + 1..]);
  }

  /** Stage 1 moves the new meld's tiles from the hand to the board. */
  lemma NewSetStepConserves(t: Table)
    requires ColourSortable(t.hand) && NewSetStep(t).Some?
    ensures TableIds(NewSetStep(t).value) == TableIds(t)
  {
    var c := NewSetStepEffect(t);
    BoardIdsAppend(t.melds, [c]);
  }

  /** Bookkeeping for one move of ids between hand and board. */
  lemma Rebalance(hand: multiset<int>, hand': multiset<int>, board: multiset<int>, board': multiset<int>, moved: multiset<int>)
    requires hand' + moved == hand && board' == board + moved
    ensures hand' + board' == hand + board
  {
  }

  /** Cancelling a common part of two sums of bags. */
  lemma Cancel(u: multiset<int>, b: multiset<int>, s: multiset<int>, x: multiset<int>)
    requires u + s == b + s + x
    ensures u == b + x
  {
    forall y ensures u[y] == (b + x)[y] {
      assert (u + s)[y] == (b + s + x)[y];
    }
  }

  /** Stage 2 moves the pair from the hand into the new meld with the stolen tile. */
  lemma TryAtConserves(t: Table, k: nat, idx: nat)
    requires k < |t.melds| && idx < |t.melds[k]| && TryAt(t, k, idx).Some?
    ensures TableIds(TryAt(t, k, idx).value) == TableIds(t)
  {
    var r, src := TryAt(t, k, idx).value, t.melds[k];
    var i, j := TryAtPair(t, k, idx);
    PairRemoved(t.hand, i, j);
    TryAtMelds(t, k, idx, i, j);
    var pair := multiset{t.hand[i].id, t.hand[j].id};
    var newIds := TripleIds(src[idx], t.hand[i], t.hand[j]);
    assert BoardIds(r.melds) == BoardIds(t.melds) + pair by {
      if Classify(src) == Group || idx == 0 || idx == |src| - 1 {
        EdgeTheftIds(t.melds, k, idx, Triple(src[idx], t.hand[i], t.hand[j]), pair);
      } else {
        SplitTheftIds(t.melds, k, idx, Triple(src[idx], t.hand[i], t.hand[j]), pair);
      }
    }
    Rebalance(IdBag(t.hand), IdBag(r.hand), BoardIds(t.melds), BoardIds(r.melds), pair);
  }

  /** The new meld of a steal holds the ids of the stolen tile and the pair. */
  lemma TripleIds(stolen: Tile, a: Tile, b: Tile) returns (ids: multiset<int>)
    ensures ids == IdBag(Triple(stolen, a, b)) && ids == multiset{stolen.id} + multiset{a.id, b.id}
  {
    TripleHolds(stolen, a, b);
    assert multiset(Triple(stolen, a, b)) == multiset([stolen, a, b]);
    IdBagPermuted(Triple(stolen, a, b), [stolen, a, b]);
    IdBagOfThree(stolen, a, b);
    ids := IdBag(Triple(stolen, a, b));
  }

  /** Taking the tile at idx out of meld k and adding a meld of it and a pair adds the pair's ids. */
  lemma EdgeTheftIds(ms: seq<seq<Tile>>, k: nat, idx: nat, newSet: seq<Tile>, pair: multiset<int>)
    requires k < |ms| && idx < |ms[k]| && IdBag(newSet) == multiset{ms[k][idx].id} + pair
    ensures BoardIds(ms[k := ms[k][..idx] + ms[k][idx + 1..]] + [newSet]) == BoardIds(ms) + pair
  {
    var src := ms[k];
    var rest := src[..idx] + src[idx + 1..];
    RemoveAtIds(src, idx);
    BoardIdsUpdate(ms, k, rest);
    BoardIdsAppend(ms[k := rest], [newSet]);
    var u, r, st := BoardIds(ms[k := rest]), IdBag(rest), multiset{src[idx].id};
    assert u + (r + st) == BoardIds(ms) + r;
    assert BoardIds(ms[k := rest] + [newSet]) == u + (st + pair);
    forall y ensures BoardIds(ms[k := rest] + [newSet])[y] == (BoardIds(ms) + pair)[y] {
      assert (u + (r + st))[y] == (BoardIds(ms) + r)[y];
    }
  }

  /** Replacing meld k by its two parts around idx, then adding a meld of the tile at idx and a pair, adds the pair's ids. */
  lemma SplitTheftIds(ms: seq<seq<Tile>>, k: nat, idx: nat, newSet: seq<Tile>, pair: multiset<int>)
    requires k < |ms| && idx < |ms[k]| && IdBag(newSet) == multiset{ms[k][idx].id} + pair
    ensures BoardIds(ms[..k] + ms[k + 1..] + [ms[k][..idx], ms[k][idx + 1..], newSet]) == BoardIds(ms) + pair
  {
    var src := ms[k];
    var left, right := src[..idx], src[idx + 1..];
    var rest := ms[..k] + ms[k + 1..];
    SplitIds(src, idx);
    BoardIdsWithout(ms, k);
    BoardIdsAppend(rest, [left, right, newSet]);
    BoardIdsOfThree(left, right, newSet);
    Regroup(BoardIds(rest), IdBag(left), IdBag(right), multiset{src[idx].id}, pair);
  }

  lemma BoardIdsOfThree(a: seq<Tile>, b: seq<Tile>, c: seq<Tile>)
    ensures BoardIds([a, b, c]) == IdBag(a) + IdBag(b) + IdBag(c)
  {
    assert [a, b, c][..2] == [a, b];
    assert [a, b][..1] == [a];
  }

  lemma Regroup(w: multiset<int>, l: multiset<int>, r: multiset<int>, st: multiset<int>, p: multiset<int>)
    ensures w + (l + r + (st + p)) == w + (l + r + st) + p
  {
  }

  lemma TheftStepConserves(t: Table)
    requires ColourSortable(t.hand) && TheftStep(t).Some?
    ensures TableIds(TheftStep(t).value) == TableIds(t)
  {
    var k, idx, i, j := TheftStepEffect(t);
    TryAtConserves(t, k, idx);
  }

  /** Stage 3 moves one tile from the hand onto a meld. */
  lemma AppendStepConserves(t: Table)
    requires AppendStep(t).Some?
    ensures TableIds(AppendStep(t).value) == TableIds(t)
  {
    var r := AppendStep(t).value;
    var k, i := AppendStepEffect(t);
    var m, x := t.melds[k], t.hand[i];
    GrowIds(t.melds, k, if Fit(m, x) == AtEnd then m + [x] else [x] + m, x);
    Rebalance(IdBag(t.hand), IdBag(r.hand), BoardIds(t.melds), BoardIds(r.melds), multiset{x.id});
  }

  /** Putting one tile at an end of meld k adds its id to the board. */
  lemma GrowIds(ms: seq<seq<Tile>>, k: nat, m': seq<Tile>, x: Tile)
    requires k < |ms| && (m' == ms[k] + [x] || m' == [x] + ms[k])
    ensures BoardIds(ms[k := m']) == BoardIds(ms) + multiset{x.id}
  {
    BoardIdsUpdate(ms, k, m');
    GrownBag(ms[k], m', x);
    Cancel(BoardIds(ms[k := m']), BoardIds(ms), IdBag(ms[k]), multiset{x.id});
  }

  /** A meld with one more tile at either end has one more id. */
  lemma GrownBag(m: seq<Tile>, m': seq<Tile>, x: Tile)
    requires m' == m + [x] || m' == [x] + m
    ensures IdBag(m') == IdBag(m) + multiset{x.id}
  {
    assert IdBag([x]) == multiset{x.id} by {
      assert [x][1..] == [];
    }
    if m' == m + [x] {
      IdBagAppend(m, [x]);
    } else {
      IdBagAppend([x], m);
    }
  }
}

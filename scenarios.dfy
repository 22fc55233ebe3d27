/**
 * Whole moves on small tables, worked out step by step: a hand that plays a
 * run and then a group onto an empty board, and a pair that completes a
 * tile stolen from the middle of a long run.
 */
module Scenarios {
  import opened Tiles
  import opened Sorting
  import opened Melds
  import opened MeldFacts
  import opened Strategy
  import opened StrategyFacts
  import opened Moves

  // --------------------------------------------------------------- helpers

  /** A list in which every element is in order with the one before it is in order. */
  lemma SortedByNeighbours(o: Order, s: seq<Tile>)
    requires forall i :: 0 < i < |s| ==> !Before(o, s[i], s[i - 1])
    ensures Sorted(o, s)
  {
    forall i, j | 0 <= i < j < |s| ensures !Before(o, s[j], s[i]) {
      NeighboursChain(o, s, i, j);
    }
  }

  lemma {:induction false} NeighboursChain(o: Order, s: seq<Tile>, i: nat, j: nat)
    requires forall i :: 0 < i < |s| ==> !Before(o, s[i], s[i - 1])
    requires i <= j < |s|
    ensures !Before(o, s[j], s[i])
    decreases j - i
  {
    if i < j {
      NeighboursChain(o, s, i, j - 1);
    }
  }

  /** Taking out, one after another, the first k tiles of a list leaves the rest of it. */
  lemma {:induction false} RemoveLeading(p: seq<Tile>, rest: seq<Tile>, k: nat)
    requires k <= |p|
    ensures RemoveEach(p + rest, p[..k]) == p[k..] + rest
    decreases k
  {
    if k > 0 {
      var ts := p[..k];
      assert ts[..k - 1] == p[..k - 1] && ts[k - 1] == p[k - 1];
      assert RemoveEach(p + rest, ts) == RemoveFirst(RemoveEach(p + rest, p[..k - 1]), p[k - 1]);
      RemoveLeading(p, rest, k - 1);
      RemoveHead(p, rest, k - 1);
    }
  }

  lemma RemoveHead(p: seq<Tile>, rest: seq<Tile>, k: nat)
    requires k < |p|
    ensures RemoveFirst(p[k..] + rest, p[k]) == p[k + 1..] + rest
  {
    var s := p[k..] + rest;
    assert s[0] == p[k] && s[1..] == p[k + 1..] + rest;
  }

  /** Stage 1 plays at least three tiles, so it needs at least three in the hand. */
  lemma NewSetNeedsThree(t: Table)
    requires ColourSortable(t.hand) && NewSetStep(t).Some?
    ensures |t.hand| >= 3
  {
    var c := NewSetStepEffect(t);
  }

  /** From an empty hand no step of any stage succeeds, and every stage leaves the table as it is. */
  lemma EmptyHandStalls(t: Table)
    requires t.hand == []
    ensures ColourSortable(t.hand)
    ensures RepeatNew(t) == t && RepeatTheft(t) == t && RepeatAppend(t) == t
  {
    if NewSetStep(t).Some? {
      NewSetNeedsThree(t);
      assert false;
    }
    if TheftStep(t).Some? {
      TheftProgress(t);
      assert false;
    }
    if AppendStep(t).Some? {
      AppendProgress(t);
      assert false;
    }
  }

  // ------------------------------------------ a run, then a group, from the hand

  /**
   * Red 1, 2, 3 and blue, black, yellow 7 onto an empty board: stage 1 plays
   * the run, then the group, the hand is empty, and the move reports
   * progress.
   */
  lemma ScenarioA(t: Table)
    requires t.melds == []
    requires t.hand == [Regular(1, 1, Red), Regular(2, 2, Red), Regular(3, 3, Red),
                        Regular(4, 7, Blue), Regular(5, 7, Black), Regular(6, 7, Yellow)]
    ensures ColourSortable(t.hand)
    ensures Move(t) == (Table([t.hand[..3], t.hand[3..]], []), true)
    ensures Classify(t.hand[..3]) == Run && Classify(t.hand[3..]) == Group
  {
    var h := t.hand;
    assert ScenarioAHand(h);
    var t1 := RunFirst(t);
    SevensFollow(h);
    var t2 := GroupNext(t1);
    PairOfMelds(h[..3], h[3..]);
    EmptyHandStalls(t2);
    assert RepeatNew(t) == RepeatNew(t1) == RepeatNew(t2) == t2;
    assert Move(t) == (RepeatAppend(RepeatTheft(t2)), true);
  }

  lemma PairOfMelds(a: seq<Tile>, b: seq<Tile>)
    ensures [a] + [b] == [a, b]
  {
  }

  /** Red 1, 2, 3, then blue, black, yellow 7: a hand already in (colour, value) order. */
  predicate ScenarioAHand(h: seq<Tile>)
  {
    |h| == 6 && NoJokers(h)
    && h[0].hue == h[1].hue == h[2].hue == Red
    && h[0].number == 1 && h[1].number == 2 && h[2].number == 3
    && h[3].hue == Blue && h[4].hue == Black && h[5].hue == Yellow
    && h[3].number == h[4].number == h[5].number == 7
  }

  lemma RunFirst(t: Table) returns (t1: Table)
    requires t.melds == [] && ScenarioAHand(t.hand)
    ensures ColourSortable(t.hand) && Classify(t.hand[..3]) == Run
    ensures NewSetStep(t) == Some(t1) && t1 == Table([t.hand[..3]], t.hand[3..])
  {
    var h := t.hand;
    var run := h[..3];
    assert h == run + h[3..] && run[..3] == run && run[3..] + h[3..] == h[3..];
    RemoveLeading(run, h[3..], 3);
    assert t.melds + [run] == [run];
    RunOfHand(h);
    assert NewSetStep(t) == Some(PlaceNew(t, run));
    t1 := Table([run], h[3..]);
  }

  /** The run stage 1 finds in that hand is its first three tiles. */
  lemma RunOfHand(h: seq<Tile>)
    requires ScenarioAHand(h)
    ensures RunToPlay(h) == Some(h[..3]) && Classify(h[..3]) == Run
  {
    InColourOrder(h);
    RunCandidateOfHand(h);
    var run := h[..3];
    assert Consecutive(run) && OneHue(run) by {
      assert forall i :: 0 <= i < 3 ==> run[i] == h[i];
    }
    ConsecutiveIsRun(run);
  }

  lemma InColourOrder(h: seq<Tile>)
    requires ScenarioAHand(h)
    ensures SortBy(ByHueValue, h) == h
  {
    forall i | 0 < i < |h| ensures !Before(ByHueValue, h[i], h[i - 1]) {
      assert h[i].Regular? && h[i - 1].Regular?;
    }
    SortedByNeighbours(ByHueValue, h);
    SortKeepsSorted(ByHueValue, h);
  }

  lemma RunCandidateOfHand(h: seq<Tile>)
    requires ScenarioAHand(h)
    ensures RunCandidate(h, 0) == h[..3]
  {
    assert h[0].Regular? && h[1].Regular? && h[2].Regular? && h[3].Regular?;
    var a1, a2, a3 := [h[0]], [h[0], h[1]], h[..3];
    assert a1 + [h[1]] == a2 && a2 + [h[2]] == a3;
    assert ExtendRun(h, 1, Red, 2, a1) == ExtendRun(h, 2, Red, 3, a2);
    assert ExtendRun(h, 2, Red, 3, a2) == ExtendRun(h, 3, Red, 4, a3) == a3;
  }

  /** Blue, black, yellow 7. */
  predicate ThreeSevens(q: seq<Tile>)
  {
    |q| == 3 && NoJokers(q)
    && q[0].hue == Blue && q[1].hue == Black && q[2].hue == Yellow
    && q[0].number == q[1].number == q[2].number == 7
  }

  lemma SevensFollow(h: seq<Tile>)
    requires ScenarioAHand(h)
    ensures ThreeSevens(h[3..])
  {
    var q := h[3..];
    assert q[0] == h[3] && q[1] == h[4] && q[2] == h[5];
    assert NoJokers(q) by {
      forall i | 0 <= i < 3 ensures q[i].Regular? {
        assert q[i] == h[i + 3];
      }
    }
  }

  lemma GroupNext(t: Table) returns (t2: Table)
    requires ThreeSevens(t.hand)
    ensures ColourSortable(t.hand) && Classify(t.hand) == Group
    ensures NewSetStep(t) == Some(t2) && t2 == Table(t.melds + [t.hand], [])
  {
    var q := t.hand;
    assert q[0].Regular? && q[1].Regular? && q[2].Regular?;
    NoRunOfThreeHues(q);
    GroupOfHand(q);
    RemoveLeading(q, [], 3);
    assert q + [] == q && q[..3] == q && q[3..] == [];
    t2 := Table(t.melds + [q], []);
  }

  /** Three tiles of one number and three colours: the group stage 1 finds is all of them. */
  lemma GroupOfHand(q: seq<Tile>)
    requires |q| == 3 && q[0].Regular? && q[1].Regular? && q[2].Regular?
    requires q[0].number == q[1].number == q[2].number
    requires q[0].hue != q[1].hue && q[0].hue != q[2].hue && q[1].hue != q[2].hue
    ensures GroupToPlay(q) == Some(q) && Classify(q) == Group
  {
    SortedByNeighbours(ByValue, q);
    SortKeepsSorted(ByValue, q);
    GroupOfThree(q);
    GroupCandidateOfThree(q);
    assert FindGroupFrom(q, 0) == Some(q);
  }

  lemma GroupCandidateOfThree(q: seq<Tile>)
    requires |q| == 3 && q[0].Regular? && q[1].Regular? && q[2].Regular?
    requires q[0].number == q[1].number == q[2].number
    requires q[0].hue != q[1].hue && q[0].hue != q[2].hue && q[1].hue != q[2].hue
    ensures GroupCandidate(q, 0) == q
  {
    var a1, a2 := [q[0]], [q[0], q[1]];
    assert !ListsColor(a1, q[1].Hue());
    assert !ListsColor(a2, q[2].Hue()) by {
      forall i | 0 <= i < 2 ensures a2[i].Hue() != q[2].Hue() {
      }
    }
    assert a1 + [q[1]] == a2 && a2 + [q[2]] == q;
    var n := q[0].number;
    assert ExtendGroup(q, 1, n, a1) == ExtendGroup(q, 2, n, a2);
    assert ExtendGroup(q, 2, n, a2) == ExtendGroup(q, 3, n, q) == q;
  }

  /** Three tiles of three colours, listed by colour, hold no run. */
  lemma NoRunOfThreeHues(q: seq<Tile>)
    requires |q| == 3 && forall i :: 0 <= i < 3 ==> q[i].Regular?
    requires ColorRank(q[0].hue) < ColorRank(q[1].hue) < ColorRank(q[2].hue)
    ensures RunToPlay(q).None?
  {
    SortedByNeighbours(ByHueValue, q);
    SortKeepsSorted(ByHueValue, q);
    assert RunCandidate(q, 0) == [q[0]] && RunCandidate(q, 1) == [q[1]] && RunCandidate(q, 2) == [q[2]];
    assert FindRunFrom(q, 2) == FindRunFrom(q, 3) == None;
    assert FindRunFrom(q, 0) == FindRunFrom(q, 1) == FindRunFrom(q, 2);
  }

  // ------------------------------------------------- a steal inside a long run

  /**
   * Red 1 to red 7 on the board, blue 4 and black 4 in the hand: stage 1
   * finds nothing (two tiles), stage 2 fails at both ends of the run (red 1
   * and red 7 make no meld with the pair) and succeeds at index 3, splitting
   * the run into red 1-3 and red 5-7 and playing red 4, blue 4, black 4; the
   * hand is empty, and the move reports progress.
   */
  lemma ScenarioC(t: Table)
    requires t.melds == [[Regular(1, 1, Red), Regular(2, 2, Red), Regular(3, 3, Red), Regular(4, 4, Red),
                          Regular(5, 5, Red), Regular(6, 6, Red), Regular(7, 7, Red)]]
    requires t.hand == [Regular(8, 4, Blue), Regular(9, 4, Black)]
    ensures ColourSortable(t.hand)
    ensures var m := t.melds[0];
      Move(t) == (Table([m[..3], m[4..], [m[3], t.hand[0], t.hand[1]]], []), true)
  {
    var m, h := t.melds[0], t.hand;
    assert SevenReds(m) by {
      assert NoJokers(m);
    }
    assert BlueBlackFour(h);
    var t1 := Table([m[..3], m[4..], [m[3], h[0], h[1]]], []);
    MiddleSteal(t);
    if NewSetStep(t).Some? {
      NewSetNeedsThree(t);
      assert false;
    }
    EmptyHandStalls(t1);
    assert RepeatTheft(t) == RepeatTheft(t1) == t1;
  }

  /** Red 1 to red 7, in that order. */
  predicate SevenReds(m: seq<Tile>)
  {
    |m| == 7 && NoJokers(m) && forall i :: 0 <= i < 7 ==> m[i].hue == Red && m[i].number == i + 1
  }

  /** Blue 4, then black 4. */
  predicate BlueBlackFour(h: seq<Tile>)
  {
    |h| == 2 && h[0].Regular? && h[1].Regular? && h[0].number == h[1].number == 4
    && h[0].hue == Blue && h[1].hue == Black
  }

  /** The steal from red 1 to red 7 with blue 4 and black 4 in hand. */
  lemma MiddleSteal(t: Table)
    requires |t.melds| == 1 && SevenReds(t.melds[0]) && BlueBlackFour(t.hand)
    ensures ColourSortable(t.hand)
    ensures var m := t.melds[0];
      TheftStep(t) == Some(Table([m[..3], m[4..], [m[3], t.hand[0], t.hand[1]]], []))
  {
    var m, h := t.melds[0], t.hand;
    assert ColourSortable(h) by {
      forall i | 0 <= i < 2 ensures h[i].Regular? {
      }
    }
    assert StealIndices(m) == [0, 6, 3] by {
      SevenRedsRun(m);
      assert Range(3, 4) == [3];
    }
    assert TryAt(t, 0, 0).None? && TryAt(t, 0, 6).None? by {
      EndsMissed(t);
    }
    TriedInOrder(t);
    FourSplits(m);
    SplitAtFour(t);
  }

  /** Red 1 to red 7 is a run, and so are red 1-3 and red 5-7. */
  lemma SevenRedsRun(m: seq<Tile>)
    requires SevenReds(m)
    ensures Classify(m) == Run && Classify(m[..3]) == Run && Classify(m[4..]) == Run
  {
    ConsecutiveIsRun(m);
    var lo, hi := m[..3], m[4..];
    assert Consecutive(lo) && OneHue(lo) by {
      assert forall i :: 0 <= i < 3 ==> lo[i] == m[i];
    }
    ConsecutiveIsRun(lo);
    assert Consecutive(hi) && OneHue(hi) by {
      assert forall i :: 0 <= i < 3 ==> hi[i] == m[i + 4];
    }
    ConsecutiveIsRun(hi);
  }

  /** Neither end of red 1 to red 7 makes a meld with blue 4 and black 4. */
  lemma EndsMissed(t: Table)
    requires |t.melds| == 1 && SevenReds(t.melds[0]) && BlueBlackFour(t.hand)
    ensures TryAt(t, 0, 0).None? && TryAt(t, 0, 6).None?
  {
    var m, h := t.melds[0], t.hand;
    OffNumberNoMeld(m[0], h[0], h[1]);
    NoPair(h, m[0]);
    OffNumberNoMeld(m[6], h[0], h[1]);
    NoPair(h, m[6]);
  }

  /** A red tile of another number makes no meld with a blue and a black tile of one number. */
  lemma OffNumberNoMeld(x: Tile, b: Tile, k: Tile)
    requires x.Regular? && x.hue == Red && b.Regular? && b.hue == Blue && k.Regular? && k.hue == Black
    requires b.number == k.number != x.number
    ensures !FormsMeld(Triple(x, b, k))
  {
    var s := [x, b, k];
    SortedByNeighbours(ByHueValue, s);
    SortKeepsSorted(ByHueValue, s);
    GroupNeedsOneNumber(s, 0, 1);
    RunNeedsOneColor(s, 0, 1);
  }

  /** A hand of two tiles that make no meld with the stolen tile has no pair for it. */
  lemma NoPair(h: seq<Tile>, stolen: Tile)
    requires |h| == 2 && !FormsMeld(Triple(stolen, h[0], h[1]))
    ensures PairFrom(h, stolen, 0, 1) == None
  {
    assert PairFrom(h, stolen, 0, 1) == PairFrom(h, stolen, 0, 2) == PairFrom(h, stolen, 1, 2);
    assert PairFrom(h, stolen, 1, 2) == PairFrom(h, stolen, 2, 3) == None;
  }

  /** Red 4, at index 3, is stolen: the run splits into red 1-3 and red 5-7. */
  lemma SplitAtFour(t: Table)
    requires |t.melds| == 1 && |t.melds[0]| == 7 && BlueBlackFour(t.hand)
    requires var m := t.melds[0];
      m[3].Regular? && m[3].number == 4 && m[3].hue == Red
      && Classify(m) != Group && FormsMeld(m[..3]) && FormsMeld(m[4..])
    ensures var m := t.melds[0];
      TryAt(t, 0, 3) == Some(Table([m[..3], m[4..], [m[3], t.hand[0], t.hand[1]]], []))
  {
    var m, h := t.melds[0], t.hand;
    FourJoinsPair(m[3], h);
    SplitOfOnlyMeld(t, 3, 0, 1);
  }

  /** The split of the only meld of a board leaves just the two parts and the new meld. */
  lemma SplitOfOnlyMeld(t: Table, idx: nat, i: nat, j: nat)
    requires |t.melds| == 1 && idx < |t.melds[0]| && t.melds[0][idx].Regular?
    requires i < j < |t.hand| && PairFrom(t.hand, t.melds[0][idx], 0, 1) == Some((i, j))
    requires var src := t.melds[0];
      Classify(src) != Group && idx != 0 && idx != |src| - 1 && FormsMeld(src[..idx]) && FormsMeld(src[idx + 1..])
    ensures var src := t.melds[0];
      TryAt(t, 0, idx) == Some(Table([src[..idx], src[idx + 1..], Triple(src[idx], t.hand[i], t.hand[j])],
                                     RemoveEach(t.hand, [t.hand[i], t.hand[j]])))
  {
    var src := t.melds[0];
    var parts := [src[..idx], src[idx + 1..], Triple(src[idx], t.hand[i], t.hand[j])];
    assert t.melds[..0] + t.melds[1..] + parts == parts;
    TryAtSplit(t, 0, idx, i, j);
  }

  /** Without red 4, red 1 to red 7 leaves two runs. */
  lemma FourSplits(m: seq<Tile>)
    requires SevenReds(m)
    ensures Classify(m) != Group && FormsMeld(m[..3]) && FormsMeld(m[4..])
  {
    SevenRedsRun(m);
  }

  /** Blue 4 and black 4 are the first pair for red 4, and they leave the hand empty. */
  lemma FourJoinsPair(x: Tile, h: seq<Tile>)
    requires x.Regular? && x.number == 4 && x.hue == Red && BlueBlackFour(h)
    ensures Triple(x, h[0], h[1]) == [x, h[0], h[1]] && PairFrom(h, x, 0, 1) == Some((0, 1))
    ensures RemoveEach(h, [h[0], h[1]]) == []
  {
    PairCompletesGroup(x, h[0], h[1]);
    PairFromStep(h, x, 0, 1);
    PairEmptiesHand(h);
  }

  /** Theft tries index 0, then 6, then 3 of the only meld. */
  lemma TriedInOrder(t: Table)
    requires ColourSortable(t.hand) && |t.melds| == 1 && |t.melds[0]| == 7
    requires StealIndices(t.melds[0]) == [0, 6, 3]
    requires TryAt(t, 0, 0).None? && TryAt(t, 0, 6).None?
    ensures TheftStep(t) == TryAt(t, 0, 3)
  {
    var ids := [0, 6, 3];
    assert ids[1..] == [6, 3] && ids[1..][1..] == [3] && ids[1..][1..][1..] == [];
    assert TryIndices(t, 0, ids) == TryIndices(t, 0, [6, 3]) == TryIndices(t, 0, [3]);
    assert TryIndices(t, 0, [3]) == TryAt(t, 0, 3);
    assert TheftFrom(t, 1) == None;
    assert TheftStep(t) == TheftFrom(t, 0);
  }
}

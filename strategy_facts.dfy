/**
 * What each stage of the move-maker guarantees: the melds stage 1 plays are
 * valid runs and groups made of hand tiles; theft never takes a joker, tries
 * only the indices the rules allow, and commits a split only when both parts
 * are melds; every successful step takes tiles out of the hand and none
 * into it.
 */
module StrategyFacts {
  import opened Tiles
  import opened Sorting
  import opened Melds
  import opened MeldFacts
  import opened Strategy

  // ------------------------------------------------------- hand bookkeeping

  /** Taking tiles out of a hand keeps it sortable by colour. */
  lemma SortableAfterRemoval(h: seq<Tile>, r: seq<Tile>)
    requires ColourSortable(h) && multiset(r) <= multiset(h)
    ensures ColourSortable(r)
  {
    if |r| >= 2 {
      assert r[0] in multiset(h) && r[1] in multiset(h);
      assert |h| >= 2 by {
        assert r == [r[0], r[1]] + r[2..];
        assert multiset{r[0], r[1]} <= multiset(h);
      }
      forall i | 0 <= i < |r| ensures r[i].Regular? {
        assert r[i] in multiset(h);
      }
    }
  }

  /**
   * Removing a list of tiles whose ids the hand holds shrinks it by exactly
   * their number and takes out exactly their ids.
   */
  lemma RemoveDrawn(h: seq<Tile>, c: seq<Tile>)
    requires multiset(c) <= multiset(h)
    ensures |RemoveEach(h, c)| == |h| - |c|
    ensures IdBag(RemoveEach(h, c)) == IdBag(h) - IdBag(c)
    ensures IdBag(RemoveEach(h, c)) + IdBag(c) == IdBag(h)
  {
    IdBagMonotone(c, h);
    RemoveEachIds(h, c);
  }

  // ------------------------------------------------------------ stage 1: runs

  /** Numbered tiles of colour hue with consecutive values. */
  predicate RunShaped(acc: seq<Tile>, hue: Color)
  {
    acc != [] && Consecutive(acc) && forall p :: 0 <= p < |acc| ==> acc[p].Regular? && acc[p].hue == hue
  }

  lemma {:induction false} ExtendRunShape(q: seq<Tile>, j: nat, hue: Color, next: int, acc: seq<Tile>)
    requires j <= |q| && RunShaped(acc, hue) && next == acc[0].number + |acc|
    ensures RunShaped(ExtendRun(q, j, hue, next, acc), hue)
    ensures ExtendRun(q, j, hue, next, acc)[0] == acc[0]
    decreases |q| - j
  {
    if j < |q| && q[j].Hue() == Some(hue) && q[j].Value() == next {
      var acc' := acc + [q[j]];
      assert RunShaped(acc', hue);
      ExtendRunShape(q, j + 1, hue, next + 1, acc');
    } else if j < |q| && q[j].Hue() == Some(hue) {
      ExtendRunShape(q, j + 1, hue, next, acc);
    }
  }

  /** The scans take each tile at most once, so a candidate is drawn from the list scanned. */
  lemma {:induction false} ExtendRunDrawn(q: seq<Tile>, j: nat, hue: Color, next: int, acc: seq<Tile>)
    requires j <= |q| && multiset(acc) <= multiset(q[..j])
    ensures multiset(ExtendRun(q, j, hue, next, acc)) <= multiset(q)
    decreases |q| - j
  {
    assert q == q[..j] + q[j..];
    if j < |q| && q[j].Hue() == Some(hue) {
      assert q[..j + 1] == q[..j] + [q[j]];
      if q[j].Value() == next {
        ExtendRunDrawn(q, j + 1, hue, next + 1, acc + [q[j]]);
      } else {
        ExtendRunDrawn(q, j + 1, hue, next, acc);
      }
    }
  }

  lemma {:induction false} FindRunFromIndex(q: seq<Tile>, i0: nat) returns (i: nat)
    requires i0 <= |q| && FindRunFrom(q, i0).Some?
    ensures i0 <= i < |q| && q[i].Regular? && FindRunFrom(q, i0).value == RunCandidate(q, i)
    decreases |q| - i0
  {
    if q[i0].Regular? && |RunCandidate(q, i0)| >= 3 && FormsMeld(RunCandidate(q, i0)) {
      i := i0;
    } else {
      i := FindRunFromIndex(q, i0 + 1);
    }
  }

  /**
   * The run stage 1 plays is a run of three or more numbered tiles of one
   * colour with consecutive values, starting at a numbered tile and made of
   * tiles of the hand.
   */
  lemma RunToPlayIsRun(h: seq<Tile>)
    requires RunToPlay(h).Some?
    ensures var c := RunToPlay(h).value;
      |c| >= 3 && Classify(c) == Run && Consecutive(c) && OneHue(c) && multiset(c) <= multiset(h)
  {
    var q := SortBy(ByHueValue, h);
    var i := FindRunFromIndex(q, 0);
    var c := RunCandidate(q, i);
    RunCandidateShape(q, i);
    assert OneHue(c);
    ConsecutiveIsRun(c);
  }

  lemma RunCandidateShape(q: seq<Tile>, i: nat)
    requires i < |q| && q[i].Regular?
    ensures RunShaped(RunCandidate(q, i), q[i].hue) && multiset(RunCandidate(q, i)) <= multiset(q)
  {
    assert RunShaped([q[i]], q[i].hue);
    ExtendRunShape(q, i + 1, q[i].hue, q[i].number + 1, [q[i]]);
    SingleDrawn(q, i);
    ExtendRunDrawn(q, i + 1, q[i].hue, q[i].number + 1, [q[i]]);
  }

  /** The tile at i, alone, is drawn from the list up to and including i. */
  lemma SingleDrawn(q: seq<Tile>, i: nat)
    requires i < |q|
    ensures multiset([q[i]]) <= multiset(q[..i + 1])
  {
    assert q[..i + 1] == q[..i] + [q[i]];
  }

  // ---------------------------------------------------------- stage 1: groups

  /** Tiles of one value whose colours (no colour for a joker) differ pairwise. */
  predicate GroupShaped(acc: seq<Tile>, value: nat)
  {
    (forall p :: 0 <= p < |acc| ==> acc[p].Value() == value)
    && forall p, p' :: 0 <= p < p' < |acc| ==> acc[p].Hue() != acc[p'].Hue()
  }

  lemma {:induction false} ExtendGroupShape(q: seq<Tile>, j: nat, value: nat, acc: seq<Tile>)
    requires j <= |q| && GroupShaped(acc, value)
    ensures GroupShaped(ExtendGroup(q, j, value, acc), value)
    ensures |ExtendGroup(q, j, value, acc)| >= |acc| && ExtendGroup(q, j, value, acc)[..|acc|] == acc
    decreases |q| - j
  {
    if j < |q| {
      if q[j].Value() == value && !ListsColor(acc, q[j].Hue()) {
        var acc' := acc + [q[j]];
        forall p, p' | 0 <= p < p' < |acc'| ensures acc'[p].Hue() != acc'[p'].Hue() {
          if p' == |acc| {
            assert acc'[p] == acc[p];
          }
        }
        ExtendGroupShape(q, j + 1, value, acc');
        assert acc'[..|acc|] == acc;
      } else {
        ExtendGroupShape(q, j + 1, value, acc);
      }
    } else {
      assert acc[..|acc|] == acc;
    }
  }

  lemma {:induction false} ExtendGroupDrawn(q: seq<Tile>, j: nat, value: nat, acc: seq<Tile>)
    requires j <= |q| && multiset(acc) <= multiset(q[..j])
    ensures multiset(ExtendGroup(q, j, value, acc)) <= multiset(q)
    decreases |q| - j
  {
    assert q == q[..j] + q[j..];
    if j < |q| {
      assert q[..j + 1] == q[..j] + [q[j]];
      if q[j].Value() == value && !ListsColor(acc, q[j].Hue()) {
        ExtendGroupDrawn(q, j + 1, value, acc + [q[j]]);
      } else {
        ExtendGroupDrawn(q, j + 1, value, acc);
      }
    }
  }

  /** Among any five colours two are the same. */
  lemma FiveColorsRepeat(a: Color, b: Color, c: Color, d: Color, e: Color)
    ensures a == b || a == c || a == d || a == e || b == c || b == d || b == e || c == d || c == e || d == e
  {
  }

  /** Five tiles of pairwise different colours cannot all be numbered: there are four colours. */
  lemma DistinctHuesAtMostFour(c: seq<Tile>)
    requires NoJokers(c) && forall p, p' :: 0 <= p < p' < |c| ==> c[p].Hue() != c[p'].Hue()
    ensures |c| <= 4
  {
    if |c| > 4 {
      FiveColorsRepeat(c[0].hue, c[1].hue, c[2].hue, c[3].hue, c[4].hue);
      assert false;
    }
  }

  lemma {:induction false} FindGroupFromIndex(q: seq<Tile>, i0: nat) returns (i: nat)
    requires i0 <= |q| && FindGroupFrom(q, i0).Some?
    ensures i0 <= i < |q| && q[i].Regular? && FindGroupFrom(q, i0).value == GroupCandidate(q, i)
    decreases |q| - i0
  {
    if q[i0].Regular? && |GroupCandidate(q, i0)| >= 3 && FormsMeld(GroupCandidate(q, i0)) {
      i := i0;
    } else {
      i := FindGroupFromIndex(q, i0 + 1);
    }
  }

  /**
   * The group stage 1 plays is a meld of three or more hand tiles that starts
   * at a numbered tile; when the tiles are well formed it is a group: one
   * number, no joker, distinct colours, at most four tiles.
   */
  lemma GroupToPlayIsGroup(h: seq<Tile>)
    requires GroupToPlay(h).Some?
    ensures var c := GroupToPlay(h).value;
      |c| >= 3 && FormsMeld(c) && c[0].Regular? && multiset(c) <= multiset(h)
      && (AllWellFormed(h) ==> Classify(c) == Group && NoJokers(c) && |c| <= 4)
  {
    var q := SortBy(ByValue, h);
    var i := FindGroupFromIndex(q, 0);
    var c := GroupCandidate(q, i);
    GroupCandidateShape(q, i);
    if AllWellFormed(h) {
      GroupCandidateIsGroup(h, c);
    }
  }

  lemma GroupCandidateShape(q: seq<Tile>, i: nat)
    requires i < |q| && q[i].Regular?
    ensures var c := GroupCandidate(q, i);
      GroupShaped(c, q[i].number) && |c| >= 1 && c[0] == q[i] && multiset(c) <= multiset(q)
  {
    assert GroupShaped([q[i]], q[i].number);
    ExtendGroupShape(q, i + 1, q[i].number, [q[i]]);
    SingleDrawn(q, i);
    ExtendGroupDrawn(q, i + 1, q[i].number, [q[i]]);
  }

  /** Well-formed tiles of one number and pairwise different colours, the first numbered, form a group. */
  lemma GroupCandidateIsGroup(h: seq<Tile>, c: seq<Tile>)
    requires AllWellFormed(h) && multiset(c) <= multiset(h) && |c| >= 1 && c[0].Regular?
    requires GroupShaped(c, c[0].number) && FormsMeld(c)
    ensures Classify(c) == Group && NoJokers(c) && |c| <= 4
  {
    assert c[0] in multiset(h);
    assert c[0].number >= 1;
    forall p | 0 <= p < |c| ensures c[p].Regular? {
      assert c[p].Value() >= 1;
    }
    DistinctHuesAtMostFour(c);
    assert SameNumberDistinctHues(c);
  }

  // ----------------------------------------------------- stage 1: the step

  /**
   * A stage-1 step puts one new meld of three or more tiles after the others
   * -- a run when the hand has one, else a group -- and takes exactly its
   * tiles out of the hand; it fails only when the hand has neither.
   */
  lemma NewSetStepEffect(t: Table) returns (c: seq<Tile>)
    requires ColourSortable(t.hand) && NewSetStep(t).Some?
    ensures var r := NewSetStep(t).value;
      |c| >= 3 && FormsMeld(c) && multiset(c) <= multiset(t.hand)
      && r.melds == t.melds + [c]
      && |r.hand| == |t.hand| - |c|
      && IdBag(r.hand) + IdBag(c) == IdBag(t.hand)
      && ColourSortable(r.hand)
      && (RunToPlay(t.hand).Some? ==> c == RunToPlay(t.hand).value && Classify(c) == Run)
      && (RunToPlay(t.hand).None? ==> c == GroupToPlay(t.hand).value)
  {
    if RunToPlay(t.hand).Some? {
      c := RunToPlay(t.hand).value;
      RunToPlayIsRun(t.hand);
    } else {
      c := GroupToPlay(t.hand).value;
      GroupToPlayIsGroup(t.hand);
    }
    RemoveDrawn(t.hand, c);
    SortableAfterRemoval(t.hand, RemoveEach(t.hand, c));
  }

  // ---------------------------------------------------------- stage 2: theft

  /** Whether a pair is worth trying does not depend on the order of the two tiles. */
  lemma PotentialPairSymmetric(a: Tile, b: Tile)
    ensures PotentialPair(a, b) == PotentialPair(b, a)
  {
  }

  /** A joker never pairs: not with another joker, not with a well-formed numbered tile. */
  lemma PotentialPairExcludesJokers(a: Tile, b: Tile)
    requires WellFormed(a) && WellFormed(b) && (a.Joker? || b.Joker?)
    ensures !PotentialPair(a, b)
  {
  }

  /**
   * The indices theft tries: any index of a group of more than three tiles;
   * of anything else only the two ends, when it has more than three tiles,
   * and the indices that leave three tiles or more on either side, when it
   * has seven or more.
   */
  lemma StealIndicesMeaning(m: seq<Tile>, x: nat)
    ensures x in StealIndices(m) <==>
      if Classify(m) == Group then |m| > 3 && x < |m|
      else (|m| > 3 && (x == 0 || x == |m| - 1)) || (|m| >= 7 && 3 <= x <= |m| - 4)
  {
    if Classify(m) == Group {
      if |m| > 3 && x < |m| {
        assert Range(0, |m|)[x] == x;
      }
    } else {
      var ends := if |m| > 3 then [0, |m| - 1] else [];
      var middle := if |m| >= 7 then Range(3, |m| - 3) else [];
      assert StealIndices(m) == ends + middle;
      if |m| >= 7 && 3 <= x <= |m| - 4 {
        assert middle[x - 3] == x;
      }
    }
  }

  /** An index tried inside a run leaves at least three tiles on each side of it. */
  lemma MiddleLeavesThree(m: seq<Tile>, x: nat)
    requires x in StealIndices(m) && Classify(m) != Group && x != 0 && x != |m| - 1
    ensures |m[..x]| >= 3 && |m[x + 1..]| >= 3
  {
    StealIndicesMeaning(m, x);
  }

  /** A group of four that loses one tile is still a group. */
  lemma GroupLosesOne(m: seq<Tile>, x: nat)
    requires Classify(m) == Group && |m| > 3 && x < |m|
    ensures Classify(m[..x] + m[x + 1..]) == Group
  {
    var r := m[..x] + m[x + 1..];
    forall i, j | 0 <= i < j < |r| && r[i].Regular? && r[j].Regular?
      ensures r[i].number == r[j].number && r[i].hue != r[j].hue
    {
      var i' := if i < x then i else i + 1;
      var j' := if j < x then j else j + 1;
      assert r[i] == m[i'] && r[j] == m[j'];
    }
  }

  /** Two tiles at different positions of a hand are drawn from it. */
  lemma PairDrawn(h: seq<Tile>, i: nat, j: nat)
    requires i < j < |h|
    ensures multiset([h[i], h[j]]) <= multiset(h)
  {
    SplitAt(h, i);
    var rest := h[i + 1..];
    assert rest[j - i - 1] == h[j];
    assert multiset(h) == multiset(h[..i]) + multiset{h[i]} + multiset(rest);
    assert multiset([h[i], h[j]]) == multiset{h[i]} + multiset{h[j]};
  }

  /** The candidate meld of a steal holds exactly the stolen tile and the pair. */
  lemma TripleHolds(stolen: Tile, a: Tile, b: Tile)
    ensures |Triple(stolen, a, b)| == 3
    ensures multiset(Triple(stolen, a, b)) == multiset{stolen, a, b}
  {
    assert multiset([stolen, a, b]) == multiset{stolen, a, b};
  }

  /**
   * A successful steal takes a numbered tile (never a joker) and the first
   * hand pair (i, j), i < j, that is a potential pair and makes a meld of
   * three with it.
   */
  lemma TryAtPair(t: Table, k: nat, idx: nat) returns (i: nat, j: nat)
    requires k < |t.melds| && idx < |t.melds[k]| && TryAt(t, k, idx).Some?
    ensures i < j < |t.hand| && t.melds[k][idx].Regular?
    ensures PairFrom(t.hand, t.melds[k][idx], 0, 1) == Some((i, j))
    ensures PotentialPair(t.hand[i], t.hand[j]) && FormsMeld(Triple(t.melds[k][idx], t.hand[i], t.hand[j]))
    ensures TryAt(t, k, idx).value.hand == RemoveEach(t.hand, [t.hand[i], t.hand[j]])
  {
    var p := PairFrom(t.hand, t.melds[k][idx], 0, 1).value;
    i, j := p.0, p.1;
  }

  /** Taking a pair of a hand out of it removes exactly those two tiles. */
  lemma PairRemoved(h: seq<Tile>, i: nat, j: nat)
    requires i < j < |h|
    ensures var r := RemoveEach(h, [h[i], h[j]]);
      |r| == |h| - 2
      && IdBag(r) + multiset{h[i].id, h[j].id} == IdBag(h)
      && multiset(r) <= multiset(h)
  {
    PairDrawn(h, i, j);
    RemoveDrawn(h, [h[i], h[j]]);
    IdBagOfTwo(h[i], h[j]);
  }

  lemma IdBagOfTwo(a: Tile, b: Tile)
    ensures IdBag([a, b]) == multiset{a.id, b.id}
  {
    assert [a, b][1..] == [b];
    assert [b][1..] == [];
  }

  /**
   * Where the new meld goes: from a group or an end of the source meld the
   * tile is just taken out; from inside a run the source is replaced by its
   * two parts, and only when both are melds. The new meld goes last.
   */
  lemma TryAtMelds(t: Table, k: nat, idx: nat, i: nat, j: nat)
    requires k < |t.melds| && idx < |t.melds[k]| && TryAt(t, k, idx).Some?
    requires i < j < |t.hand| && PairFrom(t.hand, t.melds[k][idx], 0, 1) == Some((i, j))
    ensures var r, src := TryAt(t, k, idx).value, t.melds[k];
      var newSet := Triple(src[idx], t.hand[i], t.hand[j]);
      (Classify(src) == Group || idx == 0 || idx == |src| - 1 ==>
          r.melds == t.melds[k := src[..idx] + src[idx + 1..]] + [newSet])
      && (Classify(src) != Group && idx != 0 && idx != |src| - 1 ==>
          FormsMeld(src[..idx]) && FormsMeld(src[idx + 1..])
          && r.melds == t.melds[..k] + t.melds[k + 1..] + [src[..idx], src[idx + 1..], newSet])
  {
  }

  lemma {:induction false} TryIndicesIndex(t: Table, k: nat, ids: seq<nat>) returns (p: nat)
    requires k < |t.melds| && forall p :: 0 <= p < |ids| ==> ids[p] < |t.melds[k]|
    requires TryIndices(t, k, ids).Some?
    ensures p < |ids| && TryAt(t, k, ids[p]).Some? && TryIndices(t, k, ids) == TryAt(t, k, ids[p])
    decreases |ids|
  {
    if TryAt(t, k, ids[0]).Some? {
      p := 0;
    } else {
      assert forall p :: 0 <= p < |ids| - 1 ==> ids[1..][p] == ids[p + 1];
      var p' := TryIndicesIndex(t, k, ids[1..]);
      p := p' + 1;
    }
  }

  /** The pair scan moves on to the next partner of h[i] when (i, j) does not work. */
  lemma PairFromStep(h: seq<Tile>, stolen: Tile, i: nat, j: nat)
    requires i < j < |h|
    ensures PairFrom(h, stolen, i, j) ==
      if PotentialPair(h[i], h[j]) && FormsMeld(Triple(stolen, h[i], h[j])) then Some((i, j))
      else PairFrom(h, stolen, i, j + 1)
  {
  }

  /** The pair scan skips the partners of h[i] that do not work. */
  lemma {:induction false} PairFromSkipped(h: seq<Tile>, stolen: Tile, i: nat, j: nat)
    requires i < j <= |h|
    requires forall q :: i < q < j ==> !(PotentialPair(h[i], h[q]) && FormsMeld(Triple(stolen, h[i], h[q])))
    ensures PairFrom(h, stolen, i, i + 1) == PairFrom(h, stolen, i, j)
    decreases j
  {
    if j > i + 1 {
      PairFromSkipped(h, stolen, i, j - 1);
      PairFromSkipOne(h, stolen, i, j - 1);
    }
  }

  lemma PairFromSkipOne(h: seq<Tile>, stolen: Tile, i: nat, j: nat)
    requires i < j < |h| && !(PotentialPair(h[i], h[j]) && FormsMeld(Triple(stolen, h[i], h[j])))
    ensures PairFrom(h, stolen, i, j) == PairFrom(h, stolen, i, j + 1)
  {
    PairFromStep(h, stolen, i, j);
  }

  /** With no partner left for h[i], the pair scan moves on to h[i + 1]. */
  lemma PairFromRowEnd(h: seq<Tile>, stolen: Tile, i: nat)
    requires i < |h|
    ensures PairFrom(h, stolen, i, |h|) == PairFrom(h, stolen, i + 1, i + 2)
  {
  }

  /** Trying the indices lo up to hi is trying those up to i first, then the rest. */
  lemma TryRangeSplit(t: Table, k: nat, lo: nat, i: nat, hi: nat)
    requires k < |t.melds| && lo <= i <= hi <= |t.melds[k]|
    ensures TryIndices(t, k, Range(lo, hi)) ==
      if TryIndices(t, k, Range(lo, i)).Some? then TryIndices(t, k, Range(lo, i)) else TryIndices(t, k, Range(i, hi))
  {
    RangeSplit(lo, i, hi);
    TryIndicesAppend(t, k, Range(lo, i), Range(i, hi));
  }

  lemma RangeSplit(lo: nat, i: nat, hi: nat)
    requires lo <= i <= hi
    ensures Range(lo, hi) == Range(lo, i) + Range(i, hi)
  {
    var a, b := Range(lo, i), Range(i, hi);
    forall p | 0 <= p < hi - lo ensures Range(lo, hi)[p] == (a + b)[p] {
      if p >= i - lo {
        assert (a + b)[p] == b[p - (i - lo)];
      }
    }
  }

  /** One more failed steal keeps a scan from lo without result. */
  lemma TryRangeMissed(t: Table, k: nat, lo: nat, i: nat)
    requires k < |t.melds| && lo <= i < |t.melds[k]|
    requires TryIndices(t, k, Range(lo, i)).None? && TryAt(t, k, i).None?
    ensures TryIndices(t, k, Range(lo, i + 1)).None?
  {
    TryRangeSplit(t, k, lo, i, i + 1);
    TryRangeStep(t, k, i, i + 1);
    TryIndicesNone(t, k, i + 1);
  }

  /** Trying two indices: the first, and the second only when the first fails. */
  lemma TryTwoIndices(t: Table, k: nat, a: nat, b: nat)
    requires k < |t.melds| && a < |t.melds[k]| && b < |t.melds[k]|
    ensures TryIndices(t, k, [a, b]) == if TryAt(t, k, a).Some? then TryAt(t, k, a) else TryAt(t, k, b)
  {
    assert [a, b][1..] == [b] && [b][1..] == [];
    assert TryIndices(t, k, [b]) == TryAt(t, k, b);
  }

  lemma TryIndicesNone(t: Table, k: nat, hi: nat)
    requires k < |t.melds| && hi <= |t.melds[k]|
    ensures TryIndices(t, k, Range(hi, hi)) == None
  {
  }

  /** Theft from a group tries every index when it has more than three tiles, none otherwise. */
  lemma TryStealIndicesGroup(t: Table, k: nat)
    requires k < |t.melds| && Classify(t.melds[k]) == Group
    ensures var m := t.melds[k];
      TryIndices(t, k, StealIndices(m)) == if |m| > 3 then TryIndices(t, k, Range(0, |m|)) else None
  {
  }

  /** Theft from anything but a group tries the two ends first, then the middle indices. */
  lemma TryStealIndicesRun(t: Table, k: nat)
    requires k < |t.melds| && Classify(t.melds[k]) != Group
    ensures var m := t.melds[k];
      var atEnds := if |m| > 3 then TryIndices(t, k, [0, |m| - 1]) else None;
      TryIndices(t, k, StealIndices(m)) ==
        if atEnds.Some? then atEnds else if |m| >= 7 then TryIndices(t, k, Range(3, |m| - 3)) else None
  {
    var m := t.melds[k];
    var ends: seq<nat> := if |m| > 3 then [0, |m| - 1] else [];
    var middle: seq<nat> := if |m| >= 7 then Range(3, |m| - 3) else [];
    TryIndicesAppend(t, k, ends, middle);
    assert StealIndices(m) == ends + middle;
  }

  /** Trying the indices i up to hi is trying i, then, when that fails, i + 1 up to hi. */
  lemma TryRangeStep(t: Table, k: nat, i: nat, hi: nat)
    requires k < |t.melds| && i < hi <= |t.melds[k]|
    ensures TryIndices(t, k, Range(i, hi)) ==
      if TryAt(t, k, i).Some? then TryAt(t, k, i) else TryIndices(t, k, Range(i + 1, hi))
  {
    var r := Range(i, hi);
    assert r[0] == i;
    RangeTail(i, hi);
  }

  lemma RangeTail(i: nat, hi: nat)
    requires i < hi
    ensures Range(i, hi)[1..] == Range(i + 1, hi)
  {
    var r, r' := Range(i, hi)[1..], Range(i + 1, hi);
    assert |r| == |r'|;
    forall p | 0 <= p < |r| ensures r[p] == r'[p] {
      assert r[p] == Range(i, hi)[p + 1];
    }
  }

  /** Trying the indices of a + b is trying those of a, and those of b only when a yields nothing. */
  lemma {:induction false} TryIndicesAppend(t: Table, k: nat, a: seq<nat>, b: seq<nat>)
    requires k < |t.melds|
    requires forall p :: 0 <= p < |a| ==> a[p] < |t.melds[k]|
    requires forall p :: 0 <= p < |b| ==> b[p] < |t.melds[k]|
    ensures forall p :: 0 <= p < |a + b| ==> (a + b)[p] < |t.melds[k]|
    ensures TryIndices(t, k, a + b) == if TryIndices(t, k, a).Some? then TryIndices(t, k, a) else TryIndices(t, k, b)
    decreases |a|
  {
    if a == [] {
      assert a + b == b;
    } else {
      assert (a + b)[1..] == a[1..] + b;
      assert forall p :: 0 <= p < |a| - 1 ==> a[1..][p] == a[p + 1];
      TryIndicesAppend(t, k, a[1..], b);
    }
  }

  lemma {:induction false} TheftFromIndex(t: Table, k0: nat) returns (k: nat, idx: nat)
    requires k0 <= |t.melds| && TheftFrom(t, k0).Some?
    ensures k0 <= k < |t.melds| && idx in StealIndices(t.melds[k]) && idx < |t.melds[k]|
    ensures TryAt(t, k, idx).Some? && TheftFrom(t, k0) == TryAt(t, k, idx)
    decreases |t.melds| - k0
  {
    var ids := StealIndices(t.melds[k0]);
    if TryIndices(t, k0, ids).Some? {
      k := k0;
      var p := TryIndicesIndex(t, k0, ids);
      idx := ids[p];
    } else {
      k, idx := TheftFromIndex(t, k0 + 1);
    }
  }

  /**
   * A stage-2 step steals a numbered tile at an index the rules allow and
   * plays it with a hand pair: the three tiles form a new meld that goes
   * last; the source meld loses the tile in place (group or end of a run) or
   * is replaced by its two parts, both melds (inside a run); the hand
   * shrinks by exactly two tiles, the pair's, and stays sortable by colour.
   */
  lemma TheftStepEffect(t: Table) returns (k: nat, idx: nat, i: nat, j: nat)
    requires ColourSortable(t.hand) && TheftStep(t).Some?
    ensures k < |t.melds| && idx in StealIndices(t.melds[k]) && idx < |t.melds[k]|
    ensures TheftStep(t) == TryAt(t, k, idx)
    ensures t.melds[k][idx].Regular? && i < j < |t.hand|
    ensures var newSet := Triple(t.melds[k][idx], t.hand[i], t.hand[j]);
      |newSet| == 3 && FormsMeld(newSet)
      && multiset(newSet) == multiset{t.melds[k][idx], t.hand[i], t.hand[j]}
    ensures var r, src := TheftStep(t).value, t.melds[k];
      var newSet := Triple(src[idx], t.hand[i], t.hand[j]);
      (Classify(src) == Group || idx == 0 || idx == |src| - 1 ==>
          r.melds == t.melds[k := src[..idx] + src[idx + 1..]] + [newSet])
      && (Classify(src) != Group && idx != 0 && idx != |src| - 1 ==>
          FormsMeld(src[..idx]) && FormsMeld(src[idx + 1..])
          && r.melds == t.melds[..k] + t.melds[k + 1..] + [src[..idx], src[idx + 1..], newSet])
    ensures var r := TheftStep(t).value;
      |r.hand| == |t.hand| - 2
      && IdBag(r.hand) + multiset{t.hand[i].id, t.hand[j].id} == IdBag(t.hand)
      && ColourSortable(r.hand)
  {
    k, idx := TheftFromIndex(t, 0);
    i, j := TryAtPair(t, k, idx);
    TryAtMelds(t, k, idx, i, j);
    TripleHolds(t.melds[k][idx], t.hand[i], t.hand[j]);
    PairRemoved(t.hand, i, j);
    var r := TheftStep(t).value;
    SortableAfterRemoval(t.hand, r.hand);
  }

  /**
   * A meld theft can take an end tile from without breaking it: a group, or
   * a run whose numbered tiles are listed in ascending order and which keeps
   * a numbered tile, or at most four jokers, once one is gone.
   */
  predicate EndStealSafe(m: seq<Tile>)
  {
    Classify(m) != Run || (Ascending(Numbered(m)) && (|Numbered(m)| >= 2 || |m| <= 5))
  }

  /**
   * On a board of melds, a steal leaves a board of melds when it splits a
   * run or when the meld it takes from is safe to lose an end tile.
   */
  lemma StealKeepsMelds(t: Table, k: nat, idx: nat)
    requires AllMelds(t.melds) && k < |t.melds| && idx in StealIndices(t.melds[k])
    requires idx < |t.melds[k]| && TryAt(t, k, idx).Some?
    requires EndStealSafe(t.melds[k]) || (Classify(t.melds[k]) != Group && idx != 0 && idx != |t.melds[k]| - 1)
    ensures AllMelds(TryAt(t, k, idx).value.melds)
  {
    var src := t.melds[k];
    var i, j := TryAtPair(t, k, idx);
    TryAtMelds(t, k, idx, i, j);
    var newSet := Triple(src[idx], t.hand[i], t.hand[j]);
    if Classify(src) == Group || idx == 0 || idx == |src| - 1 {
      var rest := src[..idx] + src[idx + 1..];
      StealIndicesMeaning(src, idx);
      if Classify(src) == Group {
        GroupLosesOne(src, idx);
      } else {
        assert FormsMeld(src);
        RunLosesEnd(src, idx);
      }
      MeldsAfterReplace(t.melds, k, rest, newSet);
    } else {
      MeldsAfterSplit(t.melds, k, src[..idx], src[idx + 1..], newSet);
    }
  }

  lemma MeldsAfterReplace(ms: seq<seq<Tile>>, k: nat, m: seq<Tile>, c: seq<Tile>)
    requires AllMelds(ms) && k < |ms| && FormsMeld(m) && FormsMeld(c)
    ensures AllMelds(ms[k := m] + [c])
  {
    var r := ms[k := m] + [c];
    forall p | 0 <= p < |r| ensures FormsMeld(r[p]) {
      if p < |ms| && p != k {
        assert r[p] == ms[p];
      }
    }
  }

  lemma MeldsAfterSplit(ms: seq<seq<Tile>>, k: nat, a: seq<Tile>, b: seq<Tile>, c: seq<Tile>)
    requires AllMelds(ms) && k < |ms| && FormsMeld(a) && FormsMeld(b) && FormsMeld(c)
    ensures AllMelds(ms[..k] + ms[k + 1..] + [a, b, c])
  {
    var r := ms[..k] + ms[k + 1..] + [a, b, c];
    forall p | 0 <= p < |r| ensures FormsMeld(r[p]) {
      if p < k {
        assert r[p] == ms[p];
      } else if p < |ms| - 1 {
        assert r[p] == ms[p + 1];
      }
    }
  }

  /**
   * A stage-2 step keeps a board of melds a board of melds when every run on
   * it is safe to lose an end tile.
   */
  lemma TheftKeepsMelds(t: Table)
    requires ColourSortable(t.hand) && TheftStep(t).Some? && AllMelds(t.melds)
    requires forall k :: 0 <= k < |t.melds| ==> EndStealSafe(t.melds[k])
    ensures AllMelds(TheftStep(t).value.melds)
  {
    var k, idx, i, j := TheftStepEffect(t);
    StealKeepsMelds(t, k, idx);
  }

  // ------------------------------------------------------- stage 3: append

  /** Stage 3's scan of meld k skips the hand tiles that fit neither end. */
  lemma {:induction false} AppendFromSkipped(t: Table, k: nat, i: nat)
    requires k < |t.melds| && i <= |t.hand|
    requires forall q :: 0 <= q < i ==> Fit(t.melds[k], t.hand[q]) == NoSlot
    ensures AppendFrom(t, k, 0) == AppendFrom(t, k, i)
    decreases i
  {
    if i > 0 {
      AppendFromSkipped(t, k, i - 1);
      AppendFromSkipOne(t, k, i - 1);
    }
  }

  lemma AppendFromSkipOne(t: Table, k: nat, i: nat)
    requires k < |t.melds| && i < |t.hand| && Fit(t.melds[k], t.hand[i]) == NoSlot
    ensures AppendFrom(t, k, i) == AppendFrom(t, k, i + 1)
  {
  }

  /** The first hand tile that fits an end of meld k goes there. */
  lemma AppendFromHit(t: Table, k: nat, i: nat)
    requires k < |t.melds| && i < |t.hand| && Fit(t.melds[k], t.hand[i]) != NoSlot
    ensures var m, x := t.melds[k], t.hand[i];
      AppendFrom(t, k, i) == Some(Table(t.melds[k := if Fit(m, x) == AtEnd then m + [x] else [x] + m], RemoveFirst(t.hand, x)))
  {
  }

  /** When no hand tile fits meld k, the scan goes on with the next meld. */
  lemma AppendFromRowEnd(t: Table, k: nat)
    requires k < |t.melds|
    ensures AppendFrom(t, k, |t.hand|) == AppendFrom(t, k + 1, 0)
  {
  }

  lemma {:induction false} AppendFromIndex(t: Table, k0: nat, i0: nat) returns (k: nat, i: nat)
    requires k0 <= |t.melds| && i0 <= |t.hand| && AppendFrom(t, k0, i0).Some?
    ensures k0 <= k < |t.melds| && i < |t.hand| && Fit(t.melds[k], t.hand[i]) != NoSlot
    ensures var m, x := t.melds[k], t.hand[i];
      AppendFrom(t, k0, i0).value
        == Table(t.melds[k := if Fit(m, x) == AtEnd then m + [x] else [x] + m], RemoveFirst(t.hand, x))
    decreases |t.melds| - k0, |t.hand| - i0
  {
    if i0 == |t.hand| {
      k, i := AppendFromIndex(t, k0 + 1, 0);
    } else if Fit(t.melds[k0], t.hand[i0]) != NoSlot {
      k, i := k0, i0;
    } else {
      k, i := AppendFromIndex(t, k0, i0 + 1);
    }
  }

  /**
   * A stage-3 step puts one hand tile at the end or the start of one meld,
   * where Fit places it, and takes exactly that tile out of the hand.
   */
  lemma AppendStepEffect(t: Table) returns (k: nat, i: nat)
    requires AppendStep(t).Some?
    ensures k < |t.melds| && i < |t.hand|
    ensures var r, m, x := AppendStep(t).value, t.melds[k], t.hand[i];
      Fit(m, x) != NoSlot
      && r.melds == t.melds[k := if Fit(m, x) == AtEnd then m + [x] else [x] + m]
      && |r.hand| == |t.hand| - 1
      && IdBag(r.hand) + multiset{x.id} == IdBag(t.hand)
      && multiset(r.hand) <= multiset(t.hand)
  {
    k, i := AppendFromIndex(t, 0, 0);
    var x := t.hand[i];
    IdBagHolds(t.hand, x);
    RemoveFirstIds(t.hand, x);
  }

  // ------------------------------------------- what the greedy rules allow

  /**
   * Stage 3 can break a valid run: red 5, joker, red 7 reports 7 as the value
   * that extends it at its end (every joker is counted below the lowest
   * number), so a second red 7 is appended, and the result is no meld.
   */
  lemma AppendCanBreakRun(m: seq<Tile>, x: Tile, a: int, b: int, c: int, d: int)
    requires m == [Regular(a, 5, Red), Joker(b), Regular(c, 7, Red)] && x == Regular(d, 7, Red) && c != d
    ensures FormsMeld(m) && Fit(m, x) == AtEnd && !FormsMeld(m + [x])
  {
    InnerJokerCountedBelow(m, a, b, c);
    assert FirstHue(m) == Some(Red);
    FitsAtEndOfRun(m, x);
    var m' := m + [x];
    assert m'[2] == Regular(c, 7, Red) && m'[3] == x && m'[0] == Regular(a, 5, Red);
    NotMeld(m', 2, 3, 0);
  }

  /**
   * Stage 2 can break a valid run: red 4, red 3, red 5, red 6 is a run (its
   * values are sorted before they are checked), and blue 4 and black 4 in
   * the hand complete red 4 into a group, so the tile at its first index is
   * taken; red 3, red 5, red 6 is left, and that is no meld.
   */
  lemma StealCanBreakRun(t: Table)
    requires t.melds == [[Regular(1, 4, Red), Regular(2, 3, Red), Regular(3, 5, Red), Regular(4, 6, Red)]]
    requires t.hand == [Regular(5, 4, Blue), Regular(6, 4, Black)]
    ensures ColourSortable(t.hand) && AllMelds(t.melds) && Classify(t.melds[0]) == Run
    ensures !EndStealSafe(t.melds[0])
    ensures TheftStep(t) == Some(Table([t.melds[0][1..], [t.melds[0][0], t.hand[0], t.hand[1]]], []))
    ensures !FormsMeld(TheftStep(t).value.melds[0])
  {
    UnsortedRunLosesFirst(t.melds[0]);
    StealFromUnsortedRun(t);
  }

  lemma StealFromUnsortedRun(t: Table)
    requires |t.melds| == 1 && |t.hand| == 2 && Classify(t.melds[0]) == Run && |t.melds[0]| == 4
    requires var r4 := t.melds[0][0]; r4.Regular? && r4.number == 4 && r4.hue == Red
    requires var b4 := t.hand[0]; b4.Regular? && b4.number == 4 && b4.hue == Blue
    requires var k4 := t.hand[1]; k4.Regular? && k4.number == 4 && k4.hue == Black
    ensures ColourSortable(t.hand)
    ensures TheftStep(t) == Some(Table([t.melds[0][1..], [t.melds[0][0], t.hand[0], t.hand[1]]], []))
    ensures TheftStep(t).value.melds[0] == t.melds[0][1..]
  {
    var h := t.hand;
    assert ColourSortable(h) by {
      forall i | 0 <= i < 2 ensures h[i].Regular? {
      }
    }
    StealFirstOfRun(t);
    StealIndicesOfFour(t.melds[0]);
    TheftAtFirstIndex(t, [0, 3]);
  }

  /** Theft tries the two ends of a run of four tiles. */
  lemma StealIndicesOfFour(m: seq<Tile>)
    requires Classify(m) == Run && |m| == 4
    ensures StealIndices(m) == [0, 3]
  {
  }

  /** Red 4, red 3, red 5, red 6 is a run that loses validity with its first tile. */
  lemma UnsortedRunLosesFirst(m: seq<Tile>)
    requires |m| == 4 && forall i :: 0 <= i < 4 ==> m[i].Regular? && m[i].hue == Red
    requires m[0].number == 4 && m[1].number == 3 && m[2].number == 5 && m[3].number == 6
    ensures Classify(m) == Run && !EndStealSafe(m) && !FormsMeld(m[1..])
  {
    UnsortedRun(m);
    assert !EndStealSafe(m) by {
      assert Numbered(m)[0].Value() == 4 && Numbered(m)[1].Value() == 3;
    }
    SpreadTooWide(m[1..]);
  }

  lemma StealFirstOfRun(t: Table)
    requires |t.melds| == 1 && |t.hand| == 2 && Classify(t.melds[0]) == Run && |t.melds[0]| == 4
    requires var r4 := t.melds[0][0]; r4.Regular? && r4.number == 4 && r4.hue == Red
    requires var b4 := t.hand[0]; b4.Regular? && b4.number == 4 && b4.hue == Blue
    requires var k4 := t.hand[1]; k4.Regular? && k4.number == 4 && k4.hue == Black
    ensures TryAt(t, 0, 0) == Some(Table([t.melds[0][1..], [t.melds[0][0], t.hand[0], t.hand[1]]], []))
  {
    var m, h := t.melds[0], t.hand;
    var r4 := m[0];
    assert m[..0] + m[1..] == m[1..];
    OnlyMeldReplaced(t.melds, m[1..], [r4, h[0], h[1]]);
    PairCompletesGroup(r4, h[0], h[1]);
    PairFromStep(h, r4, 0, 1);
    TryAtInPlace(t, 0, 0, 0, 1);
    PairEmptiesHand(h);
  }

  lemma OnlyMeldReplaced(ms: seq<seq<Tile>>, a: seq<Tile>, b: seq<Tile>)
    requires |ms| == 1
    ensures ms[0 := a] + [b] == [a, b]
  {
  }

  /** Theft takes what the first meld's first tried index yields, when it yields something. */
  lemma TheftAtFirstIndex(t: Table, ids: seq<nat>)
    requires ColourSortable(t.hand) && |t.melds| > 0 && StealIndices(t.melds[0]) == ids
    requires |ids| > 0 && ids[0] < |t.melds[0]| && TryAt(t, 0, ids[0]).Some?
    ensures TheftStep(t) == TryAt(t, 0, ids[0])
  {
  }

  /** A steal from a group or an end of a meld takes the tile out of it in place. */
  lemma TryAtInPlace(t: Table, k: nat, idx: nat, i: nat, j: nat)
    requires k < |t.melds| && idx < |t.melds[k]| && t.melds[k][idx].Regular?
    requires i < j < |t.hand| && PairFrom(t.hand, t.melds[k][idx], 0, 1) == Some((i, j))
    requires Classify(t.melds[k]) == Group || idx == 0 || idx == |t.melds[k]| - 1
    ensures var src := t.melds[k];
      TryAt(t, k, idx) == Some(Table(t.melds[k := src[..idx] + src[idx + 1..]] + [Triple(src[idx], t.hand[i], t.hand[j])],
                                     RemoveEach(t.hand, [t.hand[i], t.hand[j]])))
  {
  }

  /** A steal from inside a run whose two parts are melds replaces the run by its parts. */
  lemma TryAtSplit(t: Table, k: nat, idx: nat, i: nat, j: nat)
    requires k < |t.melds| && idx < |t.melds[k]| && t.melds[k][idx].Regular?
    requires i < j < |t.hand| && PairFrom(t.hand, t.melds[k][idx], 0, 1) == Some((i, j))
    requires var src := t.melds[k];
      Classify(src) != Group && idx != 0 && idx != |src| - 1 && FormsMeld(src[..idx]) && FormsMeld(src[idx + 1..])
    ensures var src := t.melds[k];
      TryAt(t, k, idx) == Some(Table(t.melds[..k] + t.melds[k + 1..] + [src[..idx], src[idx + 1..], Triple(src[idx], t.hand[i], t.hand[j])],
                                     RemoveEach(t.hand, [t.hand[i], t.hand[j]])))
  {
  }

  /** Taking both tiles of a hand of two out of it, in order, leaves it empty. */
  lemma PairEmptiesHand(h: seq<Tile>)
    requires |h| == 2
    ensures RemoveEach(h, [h[0], h[1]]) == []
  {
    var ts := [h[0], h[1]];
    assert ts[..1] == [h[0]] && ts[..1][..0] == [];
    assert RemoveEach(h, ts[..1]) == RemoveFirst(h, h[0]);
    assert RemoveFirst(h, h[0]) == h[1..] == [h[1]];
    assert RemoveFirst([h[1]], h[1]) == [];
  }

  /** Red 4, red 3, red 5, red 6: a run, whose numbered tiles are not listed in order. */
  lemma UnsortedRun(m: seq<Tile>)
    requires |m| == 4 && forall i :: 0 <= i < 4 ==> m[i].Regular? && m[i].hue == Red
    requires m[0].number == 4 && m[1].number == 3 && m[2].number == 5 && m[3].number == 6
    ensures Classify(m) == Run && Numbered(m) == m
  {
    assert !FormsGroup(m) by {
      GroupNeedsOneNumber(m, 0, 1);
    }
    UnsortedRunForms(m);
  }

  /** Red 4, red 3, red 5, red 6 satisfies the run rule. */
  lemma UnsortedRunForms(m: seq<Tile>)
    requires |m| == 4 && forall i :: 0 <= i < 4 ==> m[i].Regular? && m[i].hue == Red
    requires m[0].number == 4 && m[1].number == 3 && m[2].number == 5 && m[3].number == 6
    ensures FormsRun(m) && Numbered(m) == m
  {
    var n := [m[1], m[0], m[2], m[3]];
    assert Ascending(n) by {
      forall i | 0 < i < 4 ensures n[i - 1].Value() < n[i].Value() {
      }
    }
    assert OneHue(m) by {
      forall i, j | 0 <= i < j < 4 ensures m[i].hue == m[j].hue {
      }
    }
    assert NoJokers(m);
    NumberedOfNoJokers(m);
    SortSwapsFirstTwo(m);
  }

  lemma SortSwapsFirstTwo(m: seq<Tile>)
    requires |m| == 4 && m[1].Value() < m[0].Value() < m[2].Value() < m[3].Value()
    ensures SortBy(ByValue, m) == [m[1], m[0], m[2], m[3]]
  {
    var tail := m[1..];
    assert Sorted(ByValue, tail) by {
      forall i, j | 0 <= i < j < 3 ensures !Before(ByValue, tail[j], tail[i]) {
        assert tail[i] == m[i + 1] && tail[j] == m[j + 1];
      }
    }
    SortKeepsSorted(ByValue, tail);
    InsertSecond(ByValue, m[0], tail);
  }

  /** A tile that sorts after the first element of a list but not after the second goes second. */
  lemma InsertSecond(o: Order, x: Tile, r: seq<Tile>)
    requires |r| >= 2 && Before(o, r[0], x) && !Before(o, r[1], x)
    ensures Insert(o, x, r) == [r[0], x] + r[1..]
  {
  }

  /** A stolen red 4 with a blue 4 and a black 4 forms the group red 4, blue 4, black 4. */
  lemma PairCompletesGroup(r4: Tile, b4: Tile, k4: Tile)
    requires r4.Regular? && r4.number == 4 && r4.hue == Red
    requires b4.Regular? && b4.number == 4 && b4.hue == Blue
    requires k4.Regular? && k4.number == 4 && k4.hue == Black
    ensures PotentialPair(b4, k4) && Triple(r4, b4, k4) == [r4, b4, k4]
    ensures Classify([r4, b4, k4]) == Group
  {
    var s := [r4, b4, k4];
    assert Sorted(ByHueValue, s) by {
      forall i, j | 0 <= i < j < 3 ensures !Before(ByHueValue, s[j], s[i]) {
        assert ColorRank(s[i].hue) < ColorRank(s[j].hue);
      }
    }
    SortKeepsSorted(ByHueValue, s);
    GroupOfThree(s);
  }

  /** Three numbered tiles of one number and three colours form a group. */
  lemma GroupOfThree(s: seq<Tile>)
    requires |s| == 3 && s[0].Regular? && s[1].Regular? && s[2].Regular?
    requires s[0].number == s[1].number == s[2].number
    requires s[0].hue != s[1].hue && s[0].hue != s[2].hue && s[1].hue != s[2].hue
    ensures Classify(s) == Group
  {
    assert FormsGroup(s);
  }

  /** Red 3, red 5, red 6 span four values with three tiles: no meld. */
  lemma SpreadTooWide(s: seq<Tile>)
    requires |s| == 3 && forall i :: 0 <= i < 3 ==> s[i].Regular? && s[i].hue == Red
    requires s[0].number == 3 && s[1].number == 5 && s[2].number == 6
    ensures !FormsMeld(s)
  {
    assert NoJokers(s);
    NumberedOfNoJokers(s);
    SortKeepsSorted(ByValue, s);
    GroupNeedsOneNumber(s, 0, 1);
  }

  /** A tile of a run's colour with the value after its end goes at the end. */
  lemma FitsAtEndOfRun(m: seq<Tile>, x: Tile)
    requires Classify(m) == Run && FirstHue(m).Some? && x.Hue() == FirstHue(m) && x.Value() == RunNextValue(m)
    ensures Fit(m, x) == AtEnd
  {
  }

  /** Tiles of one number at two positions and a third of another make neither a run nor a group. */
  lemma NotMeld(s: seq<Tile>, i: nat, j: nat, o: nat)
    requires i < |s| && j < |s| && o < |s| && s[i].Regular? && s[j].Regular? && s[o].Regular?
    requires i != j && s[i].number == s[j].number && s[o].number != s[i].number
    ensures !FormsMeld(s)
  {
    RunRejectsRepeatedNumber(s, i, j);
    GroupNeedsOneNumber(s, o, i);
  }

  /**
   * Stage 3 can overfill a group: a group of three colours and a joker lacks
   * the fourth colour, and the tile of that colour makes five tiles, which is
   * no meld.
   */
  lemma AppendCanOverfillGroup(m: seq<Tile>, x: Tile, a: int, b: int, c: int, d: int, e: int)
    requires m == [Regular(a, 5, Red), Regular(b, 5, Blue), Regular(c, 5, Black), Joker(d)]
    requires x == Regular(e, 5, Yellow)
    ensures Classify(m) == Group && Fit(m, x) == AtEnd && !FormsMeld(m + [x])
  {
    assert FormsGroup(m);
    assert MissingHues(m) == Absent(AllColors, m);
    AbsentMembers(AllColors, m, Yellow);
    assert !HasHue(m, Yellow);
    AllColorsListed(Yellow);
    RunNeedsOneColor(m + [x], 0, 1);
  }
}

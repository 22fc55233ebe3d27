/**
 * A whole move: stage 1 repeated until it fails, then stage 2, then stage 3
 * (each stage runs once, in that order, even when a later stage would let
 * an earlier one succeed again), and whether any step succeeded.
 */
module Moves {
  import opened Tiles
  import opened Melds
  import opened Strategy
  import opened StrategyFacts
  import opened Conservation

  lemma NewSetProgress(t: Table)
    requires ColourSortable(t.hand) && NewSetStep(t).Some?
    ensures |NewSetStep(t).value.hand| < |t.hand| && ColourSortable(NewSetStep(t).value.hand)
    ensures multiset(NewSetStep(t).value.hand) <= multiset(t.hand)
  {
    var c := NewSetStepEffect(t);
  }

  lemma TheftProgress(t: Table)
    requires ColourSortable(t.hand) && TheftStep(t).Some?
    ensures |TheftStep(t).value.hand| < |t.hand| && ColourSortable(TheftStep(t).value.hand)
    ensures multiset(TheftStep(t).value.hand) <= multiset(t.hand)
  {
    var k, idx, i, j := TheftStepEffect(t);
    i, j := TryAtPair(t, k, idx);
  }

  lemma AppendProgress(t: Table)
    requires AppendStep(t).Some?
    ensures |AppendStep(t).value.hand| < |t.hand| && multiset(AppendStep(t).value.hand) <= multiset(t.hand)
  {
    var k, i := AppendStepEffect(t);
  }

  /** Stage 1: play new melds from the hand while there is one; it stops only when none is left. */
  function RepeatNew(t: Table): (r: Table)
    requires ColourSortable(t.hand)
    ensures ColourSortable(r.hand) && |r.hand| <= |t.hand| && NewSetStep(r).None?
    decreases |t.hand|
  {
    if NewSetStep(t).None? then t
    else
      NewSetProgress(t);
      RepeatNew(NewSetStep(t).value)
  }

  /** Stage 2: steal while a steal succeeds; it stops only when none is left. */
  function RepeatTheft(t: Table): (r: Table)
    requires ColourSortable(t.hand)
    ensures ColourSortable(r.hand) && |r.hand| <= |t.hand| && TheftStep(r).None?
    decreases |t.hand|
  {
    if TheftStep(t).None? then t
    else
      TheftProgress(t);
      RepeatTheft(TheftStep(t).value)
  }

  /** Stage 3: put single tiles onto melds while one fits; it stops only when none does. */
  function RepeatAppend(t: Table): (r: Table)
    ensures |r.hand| <= |t.hand| && AppendStep(r).None?
    decreases |t.hand|
  {
    if AppendStep(t).None? then t
    else
      AppendProgress(t);
      RepeatAppend(AppendStep(t).value)
  }

  /**
   * The table after a move, and whether some step of some stage succeeded.
   * After the move no single tile fits any meld.
   */
  function Move(t: Table): (r: (Table, bool))
    requires ColourSortable(t.hand)
    ensures AppendStep(r.0).None? && |r.0.hand| <= |t.hand|
  {
    var t1 := RepeatNew(t);
    var t2 := RepeatTheft(t1);
    var t3 := RepeatAppend(t2);
    (t3, NewSetStep(t).Some? || TheftStep(t1).Some? || AppendStep(t2).Some?)
  }

  // ------------------------------------------------------------- each stage

  /**
   * Repeating stage 1 changes the table exactly when a first step succeeds,
   * then shrinks the hand; tiles only go from the hand to the board.
   */
  lemma {:induction false} RepeatNewEffect(t: Table)
    requires ColourSortable(t.hand)
    ensures NewSetStep(t).None? ==> RepeatNew(t) == t
    ensures NewSetStep(t).Some? ==> |RepeatNew(t).hand| < |t.hand|
    decreases |t.hand|
  {
    if NewSetStep(t).Some? {
      NewSetProgress(t);
      RepeatNewEffect(NewSetStep(t).value);
    }
  }

  lemma {:induction false} RepeatNewConserves(t: Table)
    requires ColourSortable(t.hand)
    ensures TableIds(RepeatNew(t)) == TableIds(t) && multiset(RepeatNew(t).hand) <= multiset(t.hand)
    decreases |t.hand|
  {
    if NewSetStep(t).Some? {
      var t' := NewSetStep(t).value;
      NewSetProgress(t);
      NewSetStepConserves(t);
      RepeatNewConserves(t');
      assert RepeatNew(t) == RepeatNew(t');
    }
  }

  lemma {:induction false} RepeatTheftEffect(t: Table)
    requires ColourSortable(t.hand)
    ensures TheftStep(t).None? ==> RepeatTheft(t) == t
    ensures TheftStep(t).Some? ==> |RepeatTheft(t).hand| < |t.hand|
    decreases |t.hand|
  {
    if TheftStep(t).Some? {
      TheftProgress(t);
      RepeatTheftEffect(TheftStep(t).value);
    }
  }

  lemma {:induction false} RepeatTheftConserves(t: Table)
    requires ColourSortable(t.hand)
    ensures TableIds(RepeatTheft(t)) == TableIds(t) && multiset(RepeatTheft(t).hand) <= multiset(t.hand)
    decreases |t.hand|
  {
    if TheftStep(t).Some? {
      var t' := TheftStep(t).value;
      TheftProgress(t);
      TheftStepConserves(t);
      RepeatTheftConserves(t');
      assert RepeatTheft(t) == RepeatTheft(t');
    }
  }

  lemma {:induction false} RepeatAppendEffect(t: Table)
    ensures AppendStep(t).None? ==> RepeatAppend(t) == t
    ensures AppendStep(t).Some? ==> |RepeatAppend(t).hand| < |t.hand|
    decreases |t.hand|
  {
    if AppendStep(t).Some? {
      AppendProgress(t);
      RepeatAppendEffect(AppendStep(t).value);
    }
  }

  lemma {:induction false} RepeatAppendConserves(t: Table)
    ensures TableIds(RepeatAppend(t)) == TableIds(t) && multiset(RepeatAppend(t).hand) <= multiset(t.hand)
    decreases |t.hand|
  {
    if AppendStep(t).Some? {
      var t' := AppendStep(t).value;
      AppendProgress(t);
      AppendStepConserves(t);
      RepeatAppendConserves(t');
      assert RepeatAppend(t) == RepeatAppend(t');
    }
  }

  // -------------------------------------------------------------- the move

  /**
   * A move reports progress exactly when the hand got smaller; without
   * progress the table is left as it was. Either way no tile is created or
   * lost, and the hand only loses tiles.
   */
  lemma MoveEffect(t: Table)
    requires ColourSortable(t.hand)
    ensures Move(t).1 <==> |Move(t).0.hand| < |t.hand|
    ensures !Move(t).1 ==> Move(t).0 == t
    ensures TableIds(Move(t).0) == TableIds(t)
    ensures multiset(Move(t).0.hand) <= multiset(t.hand)
  {
    var t1 := RepeatNew(t);
    var t2 := RepeatTheft(t1);
    RepeatNewEffect(t);
    RepeatTheftEffect(t1);
    RepeatAppendEffect(t2);
    RepeatNewConserves(t);
    RepeatTheftConserves(t1);
    RepeatAppendConserves(t2);
  }

  /** A move from an empty hand changes nothing and reports no progress. */
  lemma EmptyHandNoMove(t: Table)
    requires t.hand == []
    ensures Move(t) == (t, false)
  {
    MoveEffect(t);
  }

  /** One stage-1 step keeps the melds there were and adds a valid one. */
  lemma NewSetKeepsMelds(t: Table)
    requires ColourSortable(t.hand) && AllMelds(t.melds) && NewSetStep(t).Some?
    ensures var ms := NewSetStep(t).value.melds;
      |ms| == |t.melds| + 1 && ms[..|t.melds|] == t.melds && AllMelds(ms)
  {
    var c := NewSetStepEffect(t);
    AppendMeld(t.melds, c);
  }

  lemma AppendMeld(ms: seq<seq<Tile>>, c: seq<Tile>)
    requires AllMelds(ms) && FormsMeld(c)
    ensures AllMelds(ms + [c]) && (ms + [c])[..|ms|] == ms
  {
    var ms' := ms + [c];
    forall i | 0 <= i < |ms'| ensures FormsMeld(ms'[i]) {
      if i < |ms| {
        assert ms'[i] == ms[i];
      }
    }
  }

  lemma PrefixOfPrefix(ms: seq<seq<Tile>>, mid: seq<seq<Tile>>, pre: seq<seq<Tile>>)
    requires |ms| >= |mid| >= |pre| && ms[..|mid|] == mid && mid[..|pre|] == pre
    ensures ms[..|pre|] == pre
  {
    assert ms[..|pre|] == ms[..|mid|][..|pre|];
  }

  /** Stage 1 only adds melds, and only valid ones: a board of melds stays a board of melds. */
  lemma {:induction false} RepeatNewKeepsMelds(t: Table)
    requires ColourSortable(t.hand) && AllMelds(t.melds)
    ensures |RepeatNew(t).melds| >= |t.melds| && RepeatNew(t).melds[..|t.melds|] == t.melds
    ensures AllMelds(RepeatNew(t).melds)
    decreases |t.hand|
  {
    if NewSetStep(t).Some? {
      var t' := NewSetStep(t).value;
      NewSetKeepsMelds(t);
      NewSetProgress(t);
      RepeatNewKeepsMelds(t');
      assert RepeatNew(t) == RepeatNew(t');
      PrefixOfPrefix(RepeatNew(t').melds, t'.melds, t.melds);
    }
  }
}

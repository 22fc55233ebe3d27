/**
 * What the meld rules imply: the rejections the group and run checks make,
 * the meaning of the classification, where a run is taken to start, and
 * worked examples of the extension queries.
 */
module MeldFacts {
  import opened Tiles
  import opened Sorting
  import opened Melds

  /** Fewer than three tiles never form a meld. */
  lemma ShortListIsInvalid(s: seq<Tile>)
    requires |s| < 3
    ensures !FormsMeld(s) && Classify(s) == Invalid
  {
  }

  /** Three or four jokers alone pass the group check, and are no run. */
  lemma JokersAloneFormGroup(s: seq<Tile>)
    requires AllJokers(s) && 3 <= |s| <= 4
    ensures Classify(s) == Group && !FormsRun(s)
  {
    NumberedOfAllJokers(s);
  }

  /** The group check fails for more than four tiles. */
  lemma GroupTooLarge(s: seq<Tile>)
    requires |s| > 4
    ensures !FormsGroup(s)
  {
  }

  /** The group check fails for two numbered tiles of different numbers. */
  lemma GroupNeedsOneNumber(s: seq<Tile>, i: nat, j: nat)
    requires i < |s| && j < |s| && s[i].Regular? && s[j].Regular?
    requires s[i].number != s[j].number
    ensures !FormsGroup(s)
  {
    if i > j {
      assert !(s[j].number == s[i].number);
    }
  }

  /** The group check fails for a colour repeated among numbered tiles. */
  lemma GroupNeedsDistinctColors(s: seq<Tile>, i: nat, j: nat)
    requires i < j < |s| && s[i].Regular? && s[j].Regular?
    requires s[i].hue == s[j].hue
    ensures !FormsGroup(s)
  {
  }

  /** The run check fails when two numbered tiles differ in colour. */
  lemma RunNeedsOneColor(s: seq<Tile>, i: nat, j: nat)
    requires i < |s| && j < |s| && s[i].Regular? && s[j].Regular?
    requires s[i].hue != s[j].hue
    ensures !FormsRun(s)
  {
    if i > j {
      assert !(s[j].hue == s[i].hue);
    }
  }

  /** In an ascending list values never repeat. */
  lemma AscendingDistinct(n: seq<Tile>, p: nat, q: nat)
    requires Ascending(n) && p < q < |n|
    ensures n[p].Value() < n[q].Value()
  {
    AscendingSpread(n, p, q);
  }

  /** In an ascending list no tile occurs twice. */
  lemma {:induction false} AscendingOnce(n: seq<Tile>, x: Tile)
    requires Ascending(n)
    ensures multiset(n)[x] <= 1
    decreases |n|
  {
    if n != [] {
      var init := n[..|n| - 1];
      assert Ascending(init) by {
        forall i | 0 < i < |init| ensures init[i - 1].Value() < init[i].Value() {
          assert init[i - 1] == n[i - 1] && init[i] == n[i];
        }
      }
      AscendingOnce(init, x);
      assert n == init + [n[|n| - 1]];
      if n[|n| - 1] == x && x in init {
        var p :| 0 <= p < |init| && init[p] == x;
        AscendingDistinct(n, p, |n| - 1);
      }
    }
  }

  /** The numbered tiles at two positions of a list both occur among its numbered tiles. */
  lemma {:induction false} NumberedHoldsBoth(s: seq<Tile>, i: nat, j: nat)
    requires i < j < |s| && s[i].Regular? && s[j].Regular?
    ensures multiset{s[i], s[j]} <= multiset(Numbered(s))
    decreases |s|
  {
    var init := s[..|s| - 1];
    assert init[i] == s[i];
    if j < |s| - 1 {
      assert init[j] == s[j];
      NumberedHoldsBoth(init, i, j);
    } else {
      NumberedMembers(init);
      assert s[i] in Numbered(init);
      assert Numbered(s) == Numbered(init) + [s[j]];
    }
  }

  /**
   * The run check fails when the numbered tiles at two positions carry the
   * same number: the repeated value is never the one expected next. This
   * covers the same tile listed twice.
   */
  lemma RunRejectsRepeatedNumber(s: seq<Tile>, i: nat, j: nat)
    requires i < |s| && j < |s| && s[i].Regular? && s[j].Regular?
    requires i != j && s[i].number == s[j].number
    ensures !FormsRun(s)
  {
    var n := SortBy(ByValue, Numbered(s));
    if Ascending(n) {
      if i < j {
        NumberedHoldsBoth(s, i, j);
      } else {
        NumberedHoldsBoth(s, j, i);
      }
      assert multiset{s[i], s[j]} <= multiset(n);
      if s[i] == s[j] {
        AscendingOnce(n, s[i]);
      } else {
        assert s[i] in multiset(n) && s[j] in multiset(n);
        var p :| 0 <= p < |n| && n[p] == s[i];
        var q :| 0 <= q < |n| && n[q] == s[j];
        if p < q {
          AscendingDistinct(n, p, q);
        } else {
          AscendingDistinct(n, q, p);
        }
      }
    }
  }

  /**
   * GROUP exactly for melds that pass the group check, RUN exactly for the
   * other melds (those that pass the run check), INVALID for the rest.
   */
  lemma ClassifyMeaning(s: seq<Tile>)
    ensures Classify(s) == Group <==> |s| >= 3 && FormsGroup(s)
    ensures Classify(s) == Run <==> |s| >= 3 && !FormsGroup(s) && FormsRun(s)
    ensures Classify(s) == Invalid <==> !FormsMeld(s)
  {
  }

  // ------------------------------------------------- where a run starts

  lemma {:induction false} JokerCountAppend(a: seq<Tile>, b: seq<Tile>)
    ensures JokerCount(a + b) == JokerCount(a) + JokerCount(b)
    decreases |b|
  {
    if b == [] {
      assert a + b == a;
    } else {
      var init := b[..|b| - 1];
      assert a + b == (a + init) + [b[|b| - 1]];
      assert (a + b)[..|a + b| - 1] == a + init;
      JokerCountAppend(a, init);
    }
  }

  lemma {:induction false} JokerCountInsert(o: Order, x: Tile, r: seq<Tile>)
    ensures JokerCount(Insert(o, x, r)) == JokerCount([x]) + JokerCount(r)
    decreases |r|
  {
    if r == [] || !Before(o, r[0], x) {
      JokerCountAppend([x], r);
    } else {
      JokerCountInsert(o, x, r[1..]);
      JokerCountAppend([r[0]], Insert(o, x, r[1..]));
      JokerCountAppend([r[0]], r[1..]);
      assert r == [r[0]] + r[1..];
    }
  }

  /** Sorting keeps the number of jokers. */
  lemma {:induction false} JokerCountSorted(o: Order, s: seq<Tile>)
    ensures JokerCount(SortBy(o, s)) == JokerCount(s)
    decreases |s|
  {
    if s != [] {
      JokerCountSorted(o, s[1..]);
      JokerCountInsert(o, s[0], SortBy(o, s[1..]));
      JokerCountAppend([s[0]], s[1..]);
      assert s == [s[0]] + s[1..];
    }
  }

  /**
   * In a well-formed list sorted by value, every joker (value 0) precedes
   * every numbered tile (value 1 or more): the leading jokers are all of them.
   */
  lemma {:induction false} LeadingJokersAreAll(q: seq<Tile>)
    requires Sorted(ByValue, q) && AllWellFormed(q)
    ensures LeadingJokers(q) == JokerCount(q)
    decreases |q|
  {
    if q != [] {
      SortedTail(ByValue, q);
      assert AllWellFormed(q[1..]) by {
        forall i | 0 <= i < |q[1..]| ensures WellFormed(q[1..][i]) {
          assert q[1..][i] == q[i + 1];
        }
      }
      JokerCountAppend([q[0]], q[1..]);
      assert q == [q[0]] + q[1..];
      if q[0].Joker? {
        LeadingJokersAreAll(q[1..]);
      } else {
        assert NoJokers(q) by {
          forall i | 0 < i < |q| ensures q[i].Regular? {
            assert !Before(ByValue, q[i], q[0]);
          }
        }
        NumberedOfNoJokers(q);
      }
    }
  }

  /** v is the number of some numbered tile of s, and no numbered tile of s has a smaller one. */
  predicate LowestNumber(s: seq<Tile>, v: int)
  {
    (exists i :: 0 <= i < |s| && s[i].Regular? && s[i].number == v)
    && forall i :: 0 <= i < |s| && s[i].Regular? ==> v <= s[i].number
  }

  predicate HasNumbered(s: seq<Tile>)
  {
    exists i :: 0 <= i < |s| && s[i].Regular?
  }

  /** Reordering a list keeps its lowest number. */
  lemma LowestNumberPermuted(a: seq<Tile>, b: seq<Tile>, v: int)
    requires multiset(a) == multiset(b) && LowestNumber(a, v)
    ensures LowestNumber(b, v)
  {
    var k :| 0 <= k < |a| && a[k].Regular? && a[k].number == v;
    assert a[k] in multiset(b);
    var j :| 0 <= j < |b| && b[j] == a[k];
    forall i | 0 <= i < |b| && b[i].Regular? ensures v <= b[i].number {
      assert b[i] in multiset(a);
    }
  }

  /** Reordering a list keeps whether it has a numbered tile. */
  lemma HasNumberedPermuted(a: seq<Tile>, b: seq<Tile>)
    requires multiset(a) == multiset(b) && HasNumbered(a)
    ensures HasNumbered(b)
  {
    var k :| 0 <= k < |a| && a[k].Regular?;
    assert a[k] in multiset(b);
  }

  /**
   * The first numbered tile of a list sorted by value carries the lowest
   * number of the list.
   */
  lemma {:induction false} FirstNumberIsLowest(q: seq<Tile>)
    requires Sorted(ByValue, q) && HasNumbered(q)
    ensures LowestNumber(q, FirstNumber(q))
    decreases |q|
  {
    SortedTail(ByValue, q);
    if q[0].Regular? {
      assert q[0].number == FirstNumber(q);
      forall i | 0 <= i < |q| && q[i].Regular? ensures FirstNumber(q) <= q[i].number {
        if i > 0 {
          assert !Before(ByValue, q[i], q[0]);
        }
      }
    } else {
      var tail := q[1..];
      var i0 :| 0 <= i0 < |q| && q[i0].Regular?;
      assert tail[i0 - 1] == q[i0];
      FirstNumberIsLowest(tail);
      var k :| 0 <= k < |tail| && tail[k].Regular? && tail[k].number == FirstNumber(tail);
      assert q[k + 1] == tail[k];
      forall i | 0 <= i < |q| && q[i].Regular? ensures FirstNumber(q) <= q[i].number {
        assert q[i] == tail[i - 1];
      }
    }
  }

  /** Sorting by value keeps the tiles, hence their well-formedness and their jokers. */
  lemma SortedByValueKeeps(s: seq<Tile>)
    requires AllWellFormed(s)
    ensures AllWellFormed(SortBy(ByValue, s))
    ensures JokerCount(SortBy(ByValue, s)) == JokerCount(s)
  {
    var q := SortBy(ByValue, s);
    forall i | 0 <= i < |q| ensures WellFormed(q[i]) {
      assert q[i] in multiset(s);
    }
    JokerCountSorted(ByValue, s);
  }

  /**
   * Where a run is taken to start: its lowest number less the number of its
   * jokers, wherever the jokers stand in the run.
   */
  lemma LogicalStartIsLowestLessJokers(s: seq<Tile>)
    requires AllWellFormed(s) && HasNumbered(s)
    ensures LowestNumber(s, LogicalStart(s) + JokerCount(s))
  {
    var q := SortBy(ByValue, s);
    SortBySorted(ByValue, s);
    SortedByValueKeeps(s);
    LeadingJokersAreAll(q);
    HasNumberedPermuted(s, q);
    FirstNumberIsLowest(q);
    LowestNumberPermuted(q, s, FirstNumber(q));
  }

  // ------------------------------------------------------ worked examples

  /**
   * Numbered tiles of one colour whose values, in the order they stand,
   * ascend with gaps the jokers can fill, form a run.
   */
  lemma RunFromOrderedNumbers(s: seq<Tile>)
    requires OneHue(s)
    requires var n := Numbered(s);
      |n| > 0 && Ascending(n) && n[|n| - 1].Value() - n[0].Value() < |s|
    ensures FormsRun(s)
  {
    var n := Numbered(s);
    forall i, j | 0 <= i < j < |n| ensures !Before(ByValue, n[j], n[i]) {
      AscendingSpread(n, i, j);
    }
    SortKeepsSorted(ByValue, n);
  }

  /**
   * A run whose numbered tiles stand in ascending order: its numbered tiles
   * are those it sorts, so their span is below its length.
   */
  lemma OrderedRunSpread(s: seq<Tile>)
    requires FormsRun(s) && Ascending(Numbered(s))
    ensures var n := Numbered(s);
      |n| > 0 && OneHue(s) && n[|n| - 1].Value() - n[0].Value() < |s|
  {
    var n := Numbered(s);
    forall i, j | 0 <= i < j < |n| ensures !Before(ByValue, n[j], n[i]) {
      AscendingSpread(n, i, j);
    }
    SortKeepsSorted(ByValue, n);
  }

  /** The numbered tiles of a list with a numbered tile at one end dropped. */
  lemma NumberedWithoutEnd(s: seq<Tile>, x: nat)
    requires x < |s| && (x == 0 || x == |s| - 1) && s[x].Regular?
    ensures var n := Numbered(s);
      |n| > 0 && n[if x == 0 then 0 else |n| - 1] == s[x]
      && Numbered(s[..x] + s[x + 1..]) == if x == 0 then n[1..] else n[..|n| - 1]
  {
    if x == 0 {
      var rest := s[1..];
      assert s == [s[0]] + rest;
      NumberedAppend([s[0]], rest);
      assert Numbered([s[0]]) == [s[0]] by {
        assert [s[0]][..0] == [];
      }
      assert s[..x] + s[x + 1..] == rest;
    } else {
      assert s[..x] + s[x + 1..] == s[..|s| - 1];
    }
  }

  lemma {:induction false} NumberedAppend(a: seq<Tile>, b: seq<Tile>)
    ensures Numbered(a + b) == Numbered(a) + Numbered(b)
    decreases |b|
  {
    if b == [] {
      assert a + b == a;
    } else {
      var init := b[..|b| - 1];
      NumberedAppend(a, init);
      assert (a + b)[..|a + b| - 1] == a + init;
    }
  }

  /**
   * A run whose numbered tiles stand in ascending order stays a meld when a
   * numbered tile at one of its ends is taken away, as long as a numbered
   * tile remains or at most four jokers do.
   */
  lemma RunLosesEnd(s: seq<Tile>, x: nat)
    requires Classify(s) == Run && |s| > 3 && x < |s| && (x == 0 || x == |s| - 1) && s[x].Regular?
    requires Ascending(Numbered(s)) && (|Numbered(s)| >= 2 || |s| <= 5)
    ensures FormsMeld(s[..x] + s[x + 1..])
  {
    assert FormsRun(s);
    OrderedRunSpread(s);
    SpreadLosesEnd(s, x);
  }

  lemma SpreadLosesEnd(s: seq<Tile>, x: nat)
    requires |s| > 3 && x < |s| && (x == 0 || x == |s| - 1) && s[x].Regular? && OneHue(s)
    requires var n := Numbered(s);
      Ascending(n) && (|n| >= 2 || |s| <= 5) && |n| > 0 && n[|n| - 1].Value() - n[0].Value() < |s|
    ensures FormsMeld(s[..x] + s[x + 1..])
  {
    var r := s[..x] + s[x + 1..];
    NumberedWithoutEnd(s, x);
    OneHueWithoutEnd(s, x);
    if |Numbered(r)| == 0 {
      NoNumberedAllJokers(r);
      JokersAloneFormGroup(r);
    } else {
      OrderedWithoutEnd(Numbered(s), x == 0, |s|);
      RunFromOrderedNumbers(r);
    }
  }

  /** A list with no numbered tile is all jokers. */
  lemma NoNumberedAllJokers(s: seq<Tile>)
    requires Numbered(s) == []
    ensures AllJokers(s)
  {
    NumberedMembers(s);
    forall i | 0 <= i < |s| ensures s[i].Joker? {
      assert s[i] !in Numbered(s);
    }
  }

  lemma OneHueWithoutEnd(s: seq<Tile>, x: nat)
    requires OneHue(s) && x < |s| && (x == 0 || x == |s| - 1)
    ensures OneHue(s[..x] + s[x + 1..])
  {
    var r := s[..x] + s[x + 1..];
    forall i | 0 <= i < |r| ensures r[i] == s[if x == 0 then i + 1 else i] {
    }
  }

  /** Ascending numbers less their first or last still ascend, over a span at least one shorter. */
  lemma OrderedWithoutEnd(n: seq<Tile>, first: bool, len: int)
    requires Ascending(n) && |n| >= 2 && n[|n| - 1].Value() - n[0].Value() < len
    ensures var n' := if first then n[1..] else n[..|n| - 1];
      Ascending(n') && n'[|n'| - 1].Value() - n'[0].Value() < len - 1
  {
    assert n[0].Value() < n[1].Value() && n[|n| - 2].Value() < n[|n| - 1].Value();
    var n' := if first then n[1..] else n[..|n| - 1];
    forall i | 0 < i < |n'| ensures n'[i - 1].Value() < n'[i].Value() {
      if first {
        assert n'[i - 1] == n[i] && n'[i] == n[i + 1];
      }
    }
  }

  /** Numbered tiles with consecutive values, in that order. */
  predicate Consecutive(s: seq<Tile>)
  {
    NoJokers(s) && forall i :: 0 <= i < |s| ==> s[i].number == s[0].number + i
  }

  /** Three or more numbered tiles of one colour with consecutive values form a run. */
  lemma ConsecutiveIsRun(s: seq<Tile>)
    requires |s| >= 3 && Consecutive(s) && OneHue(s)
    ensures Classify(s) == Run
  {
    GroupNeedsOneNumber(s, 0, 1);
    NumberedOfNoJokers(s);
    RunFromOrderedNumbers(s);
  }

  /** Consecutive numbered tiles are taken to start at the first value. */
  lemma ConsecutiveStart(s: seq<Tile>)
    requires |s| > 0 && Consecutive(s)
    ensures LogicalStart(s) == s[0].number
  {
    assert Sorted(ByValue, s);
    SortKeepsSorted(ByValue, s);
  }

  /**
   * A run of consecutive numbered tiles without jokers has their colour and
   * extends by the value after the last (up to 13) and the value before the
   * first (down to 1).
   */
  lemma ConsecutiveRunExtensions(s: seq<Tile>)
    requires |s| >= 3 && Consecutive(s) && OneHue(s)
    ensures Classify(s) == Run && RunHue(s) == Some(s[0].hue) && MissingHues(s) == []
    ensures RunNextValue(s) == if s[0].number + |s| - 1 >= 13 then -1 else s[0].number + |s|
    ensures RunPrecedingValue(s) == if s[0].number <= 1 then -1 else s[0].number - 1
  {
    ConsecutiveIsRun(s);
    ConsecutiveStart(s);
  }

  /** Red 3, 4, 5: a run extended by 6 at its end and 2 at its start. */
  lemma PlainRunExtensions(s: seq<Tile>, a: int, b: int, c: int)
    requires s == [Regular(a, 3, Red), Regular(b, 4, Red), Regular(c, 5, Red)]
    ensures Classify(s) == Run && RunNextValue(s) == 6 && RunPrecedingValue(s) == 2
    ensures RunHue(s) == Some(Red) && MissingHues(s) == []
  {
    ConsecutiveRunExtensions(s);
  }

  /**
   * For well-formed tiles with one numbered tile of the lowest number and a
   * known number of jokers, where the run is taken to start.
   */
  lemma StartFromLowest(s: seq<Tile>, k: nat, jokers: nat)
    requires AllWellFormed(s) && k < |s| && s[k].Regular? && JokerCount(s) == jokers
    requires forall i :: 0 <= i < |s| && s[i].Regular? ==> s[k].number <= s[i].number
    ensures LogicalStart(s) == s[k].number - jokers
  {
    assert HasNumbered(s);
    LogicalStartIsLowestLessJokers(s);
  }

  /** The numbered tiles and the jokers of a list of three tiles. */
  lemma CountsOfThree(s: seq<Tile>)
    requires |s| == 3
    ensures Numbered(s) == (if s[0].Regular? then [s[0]] else []) + (if s[1].Regular? then [s[1]] else [])
      + (if s[2].Regular? then [s[2]] else [])
    ensures JokerCount(s) == (if s[0].Joker? then 1 else 0) + (if s[1].Joker? then 1 else 0) + (if s[2].Joker? then 1 else 0)
  {
    var s1, s2 := s[..1], s[..2];
    assert s2[..1] == s1 && s2[1] == s[1];
    assert s1[..0] == [] && s1[0] == s[0];
    assert Numbered(s1) == (if s[0].Regular? then [s[0]] else []);
    assert Numbered(s2) == Numbered(s1) + (if s[1].Regular? then [s[1]] else []);
    assert Numbered(s) == Numbered(s2) + (if s[2].Regular? then [s[2]] else []);
    assert JokerCount(s2) == JokerCount(s1) + (if s[1].Joker? then 1 else 0);
  }

  /** The extension values of a run, from where it is taken to start. */
  lemma RunExtensionsFromStart(s: seq<Tile>, start: int)
    requires Classify(s) == Run && LogicalStart(s) == start
    ensures RunNextValue(s) == if start + |s| - 1 >= 13 then -1 else start + |s|
    ensures RunPrecedingValue(s) == if start <= 1 then -1 else start - 1
  {
  }

  /**
   * Three tiles of which the numbered ones are red, ascending by at most two,
   * and k is the lowest: a run taken to start at the lowest number less the
   * jokers.
   */
  lemma ThreeTileRun(s: seq<Tile>, k: nat, first: nat, last: nat)
    requires |s| == 3 && AllWellFormed(s) && OneHue(s) && k < 3 && s[k].Regular?
    requires first < last < 3 && s[first].Regular? && s[last].Regular?
    requires Numbered(s) == [s[first], s[last]] && JokerCount(s) == 1
    requires s[first].number < s[last].number <= s[first].number + 2 && s[k] == s[first]
    ensures Classify(s) == Run && LogicalStart(s) == s[k].number - 1
  {
    NumberedMembers(s);
    forall i | 0 <= i < |s| && s[i].Regular?
      ensures s[k].number <= s[i].number
    {
      var n := Numbered(s);
      assert s[i] in n;
      assert s[i] == n[0] || s[i] == n[1];
    }
    StartFromLowest(s, k, 1);
    GroupNeedsOneNumber(s, first, last);
    RunFromOrderedNumbers(s);
  }

  /** Joker, red 5, 6: the joker is taken as 4, so 7 and 3 extend it. */
  lemma LeadingJokerRunExtensions(s: seq<Tile>, a: int, b: int, c: int)
    requires s == [Joker(a), Regular(b, 5, Red), Regular(c, 6, Red)]
    ensures Classify(s) == Run && RunNextValue(s) == 7 && RunPrecedingValue(s) == 3
  {
    CountsOfThree(s);
    ThreeTileRun(s, 1, 1, 2);
    RunExtensionsFromStart(s, 4);
  }

  /**
   * Red 5, joker, red 7: every joker is counted below the lowest number, so
   * the run is taken to start at 4, and 7 (already in it) is reported as the
   * value that extends it at its end.
   */
  lemma InnerJokerCountedBelow(s: seq<Tile>, a: int, b: int, c: int)
    requires s == [Regular(a, 5, Red), Joker(b), Regular(c, 7, Red)]
    ensures Classify(s) == Run && RunNextValue(s) == 7 && RunPrecedingValue(s) == 3
  {
    CountsOfThree(s);
    ThreeTileRun(s, 0, 0, 2);
    RunExtensionsFromStart(s, 4);
  }

  /** Red 3, red 3 (another tile), joker, red 5: neither a run nor a group. */
  lemma RepeatedNumberIsInvalid()
    ensures var s := [Regular(1, 3, Red), Regular(2, 3, Red), Joker(3), Regular(4, 5, Red)];
      !FormsRun(s) && Classify(s) == Invalid
  {
    var s := [Regular(1, 3, Red), Regular(2, 3, Red), Joker(3), Regular(4, 5, Red)];
    RunRejectsRepeatedNumber(s, 0, 1);
    GroupNeedsOneNumber(s, 0, 3);
  }
}

/**
 * What makes a list of tiles a meld: the group and run rules, the
 * classification into GROUP, RUN or INVALID, and the extension queries the
 * solver asks of a meld (missing group colours, run colour, the values that
 * would extend a run at either end).
 */
module Melds {
  import opened Tiles
  import opened Sorting

  datatype SetType = Group | Run | Invalid

  /** The numbered (non-joker) tiles of s, in their order in s. */
  function Numbered(s: seq<Tile>): (n: seq<Tile>)
    ensures |n| <= |s|
  {
    if s == [] then [] else Numbered(s[..|s| - 1]) + (if s[|s| - 1].Regular? then [s[|s| - 1]] else [])
  }

  /** Numbered keeps exactly the numbered tiles. */
  lemma {:induction false} NumberedMembers(s: seq<Tile>)
    ensures forall t :: t in Numbered(s) ==> t.Regular? && t in s
    ensures forall i :: 0 <= i < |s| && s[i].Regular? ==> s[i] in Numbered(s)
    decreases |s|
  {
    if s != [] {
      var init := s[..|s| - 1];
      NumberedMembers(init);
      assert forall t :: t in init ==> t in s;
      assert forall i :: 0 <= i < |init| ==> s[i] == init[i];
    }
  }

  /** The number of jokers in s. */
  function JokerCount(s: seq<Tile>): (c: nat)
    ensures c + |Numbered(s)| == |s|
  {
    if s == [] then 0 else JokerCount(s[..|s| - 1]) + (if s[|s| - 1].Joker? then 1 else 0)
  }

  predicate AllJokers(s: seq<Tile>)
  {
    forall i :: 0 <= i < |s| ==> s[i].Joker?
  }

  predicate NoJokers(s: seq<Tile>)
  {
    forall i :: 0 <= i < |s| ==> s[i].Regular?
  }

  lemma {:induction false} NumberedOfNoJokers(s: seq<Tile>)
    requires NoJokers(s)
    ensures Numbered(s) == s
    decreases |s|
  {
    if s != [] {
      var init := s[..|s| - 1];
      assert NoJokers(init) by {
        forall i | 0 <= i < |init| ensures init[i].Regular? {
          assert init[i] == s[i];
        }
      }
      NumberedOfNoJokers(init);
      assert s == init + [s[|s| - 1]];
    }
  }

  lemma {:induction false} NumberedOfAllJokers(s: seq<Tile>)
    requires AllJokers(s)
    ensures Numbered(s) == [] && JokerCount(s) == |s|
    decreases |s|
  {
    if s != [] {
      NumberedOfAllJokers(s[..|s| - 1]);
    }
  }

  // ---------------------------------------------------------------- groups

  /** The numbered tiles all carry one number, and no colour repeats among them. */
  predicate SameNumberDistinctHues(s: seq<Tile>)
  {
    forall i, j :: 0 <= i < j < |s| && s[i].Regular? && s[j].Regular? ==>
      s[i].number == s[j].number && s[i].hue != s[j].hue
  }

  /** The group rule: at most four tiles, jokers aside one number in distinct colours. */
  predicate FormsGroup(s: seq<Tile>)
  {
    |s| <= 4 && SameNumberDistinctHues(s)
  }

  // ------------------------------------------------------------------ runs

  /** The numbered tiles all have one colour. */
  predicate OneHue(s: seq<Tile>)
  {
    forall i, j :: 0 <= i < j < |s| && s[i].Regular? && s[j].Regular? ==> s[i].hue == s[j].hue
  }

  /** Values strictly ascend from each element to the next. */
  predicate Ascending(n: seq<Tile>)
  {
    forall i :: 0 < i < |n| ==> n[i - 1].Value() < n[i].Value()
  }

  /**
   * The run rule: there is a numbered tile, all numbered tiles share a colour,
   * their values sorted ascend strictly (no repeated value), and the values
   * they span, lowest to highest, are no more than the tiles of the list, so
   * that the jokers can fill every gap. A list without numbered tiles is not
   * a run (the source faults there instead).
   */
  predicate FormsRun(s: seq<Tile>)
  {
    var n := SortBy(ByValue, Numbered(s));
    |n| > 0 && OneHue(s) && Ascending(n) && n[|n| - 1].Value() - n[0].Value() < |s|
  }

  /** Meld validity: at least three tiles forming a group or a run. */
  predicate FormsMeld(s: seq<Tile>)
  {
    |s| >= 3 && (FormsGroup(s) || FormsRun(s))
  }

  /** Every list of a board is a meld. */
  predicate AllMelds(ms: seq<seq<Tile>>)
  {
    forall i :: 0 <= i < |ms| ==> FormsMeld(ms[i])
  }

  function Classify(s: seq<Tile>): SetType
  {
    if !FormsMeld(s) then Invalid else if FormsGroup(s) then Group else Run
  }

  lemma {:induction false} AscendingSpread(n: seq<Tile>, p: nat, q: nat)
    requires Ascending(n) && p <= q < |n|
    ensures n[q].Value() - n[p].Value() >= q - p
    decreases q - p
  {
    if p < q {
      AscendingSpread(n, p, q - 1);
    }
  }

  // ------------------------------------------------------------- extensions

  const AllColors: seq<Color> := [Red, Blue, Black, Yellow]

  /** Some numbered tile of s has colour c. */
  predicate HasHue(s: seq<Tile>, c: Color)
  {
    exists i :: 0 <= i < |s| && s[i].Regular? && s[i].hue == c
  }

  /** The colours of cs, in order, that no numbered tile of s has. */
  function Absent(cs: seq<Color>, s: seq<Tile>): (r: seq<Color>)
    ensures |r| <= |cs|
  {
    if cs == [] then [] else (if HasHue(s, cs[0]) then [] else [cs[0]]) + Absent(cs[1..], s)
  }

  /** A colour is reported absent exactly when it is listed and no numbered tile has it. */
  lemma {:induction false} AbsentMembers(cs: seq<Color>, s: seq<Tile>, c: Color)
    ensures c in Absent(cs, s) <==> c in cs && !HasHue(s, c)
    decreases |cs|
  {
    if cs != [] {
      AbsentMembers(cs[1..], s, c);
      assert cs == [cs[0]] + cs[1..];
    }
  }

  /** Every colour is listed in AllColors. */
  lemma AllColorsListed(c: Color)
    ensures c in AllColors && DistinctColors(AllColors)
  {
    match c
    case Red => assert AllColors[0] == c;
    case Blue => assert AllColors[1] == c;
    case Black => assert AllColors[2] == c;
    case Yellow => assert AllColors[3] == c;
  }

  /** With no tiles counted, every listed colour is absent. */
  lemma {:induction false} AbsentFromNone(cs: seq<Color>)
    ensures Absent(cs, []) == cs
    decreases |cs|
  {
    if cs != [] {
      AbsentFromNone(cs[1..]);
      assert !HasHue([], cs[0]);
      assert cs == [cs[0]] + cs[1..];
    }
  }

  /** The colours a group lacks, in the order red, blue, black, yellow; empty for a non-group. */
  function MissingHues(s: seq<Tile>): seq<Color>
  {
    if Classify(s) != Group then [] else Absent(AllColors, s)
  }

  /** The number of jokers before the first numbered tile of q. */
  function LeadingJokers(q: seq<Tile>): (c: nat)
    ensures c <= |q|
  {
    if q == [] || q[0].Regular? then 0 else 1 + LeadingJokers(q[1..])
  }

  /** The value of the first numbered tile of q, or -1 when there is none. */
  function FirstNumber(q: seq<Tile>): int
  {
    if q == [] then -1 else if q[0].Regular? then q[0].number else FirstNumber(q[1..])
  }

  /**
   * Where a run starts once its jokers are given values: the lowest value,
   * as found in a copy sorted by value, less the jokers that sort before it.
   */
  function LogicalStart(s: seq<Tile>): int
  {
    var q := SortBy(ByValue, s);
    FirstNumber(q) - LeadingJokers(q)
  }

  /** The value that extends a run at its end, or -1 (not a run, or the end is 13 or more). */
  function RunNextValue(s: seq<Tile>): int
  {
    if Classify(s) != Run then -1
    else
      var logicalEnd := LogicalStart(s) + |s| - 1;
      if logicalEnd >= 13 then -1 else logicalEnd + 1
  }

  /** The value that extends a run at its start, or -1 (not a run, or the start is 1 or less). */
  function RunPrecedingValue(s: seq<Tile>): int
  {
    if Classify(s) != Run then -1
    else
      var logicalStart := LogicalStart(s);
      if logicalStart <= 1 then -1 else logicalStart - 1
  }

  /** The colour of the first numbered tile of s, if any. */
  function FirstHue(s: seq<Tile>): (c: Option<Color>)
    ensures c.Some? <==> exists i :: 0 <= i < |s| && s[i].Regular?
    ensures c.Some? ==> HasHue(s, c.value)
  {
    if s == [] then None
    else if s[0].Regular? then Some(s[0].hue)
    else
      assert forall i :: 0 < i < |s| ==> s[1..][i - 1] == s[i];
      FirstHue(s[1..])
  }

  /** A run's colour; None for anything that is not a run. */
  function RunHue(s: seq<Tile>): Option<Color>
  {
    if Classify(s) != Run then None else FirstHue(s)
  }

  // ------------------------------------------- facts the meld queries use

  /**
   * Sorted values whose gaps up to position k need more jokers than there are
   * cannot span few enough values to form a run.
   */
  lemma GapsTooWide(n: seq<Tile>, jokers: nat, k: nat)
    requires k < |n| && n[k].Value() - n[0].Value() - k > jokers
    ensures !(Ascending(n) && n[|n| - 1].Value() - n[0].Value() < |n| + jokers)
  {
    if Ascending(n) {
      AscendingSpread(n, k, |n| - 1);
    }
  }

  lemma HasHueAppend(p: seq<Tile>, t: Tile, c: Color)
    ensures HasHue(p + [t], c) <==> HasHue(p, c) || (t.Regular? && t.hue == c)
  {
    var q := p + [t];
    if HasHue(p, c) {
      var i :| 0 <= i < |p| && p[i].Regular? && p[i].hue == c;
      assert q[i] == p[i];
    }
    if t.Regular? && t.hue == c {
      assert q[|p|] == t;
    }
    if HasHue(q, c) {
      var i :| 0 <= i < |q| && q[i].Regular? && q[i].hue == c;
      if i < |p| {
        assert q[i] == p[i];
      }
    }
  }

  /** `list.remove(c)` on a list of colours: drop the first c, if any. */
  function DropColor(cs: seq<Color>, c: Color): (r: seq<Color>)
    ensures c !in cs ==> r == cs
  {
    if cs == [] then [] else if cs[0] == c then cs[1..] else [cs[0]] + DropColor(cs[1..], c)
  }

  predicate DistinctColors(cs: seq<Color>)
  {
    forall i, j :: 0 <= i < j < |cs| ==> cs[i] != cs[j]
  }

  /** A tile of a colour cs does not list leaves Absent(cs, _) unchanged. */
  lemma {:induction false} AbsentOtherHue(cs: seq<Color>, p: seq<Tile>, t: Tile)
    requires t.Regular? ==> t.hue !in cs
    ensures Absent(cs, p + [t]) == Absent(cs, p)
    decreases |cs|
  {
    if cs != [] {
      HasHueAppend(p, t, cs[0]);
      AbsentOtherHue(cs[1..], p, t);
    }
  }

  /**
   * Removing a numbered tile's colour from the colours still absent gives the
   * colours absent once that tile is counted too.
   */
  lemma {:induction false} AbsentStep(cs: seq<Color>, p: seq<Tile>, t: Tile)
    requires DistinctColors(cs) && t.Regular?
    ensures Absent(cs, p + [t]) == DropColor(Absent(cs, p), t.hue)
    decreases |cs|
  {
    if cs != [] {
      var rest := cs[1..];
      assert DistinctColors(rest) by {
        forall i, j | 0 <= i < j < |rest| ensures rest[i] != rest[j] {
          assert rest[i] == cs[i + 1] && rest[j] == cs[j + 1];
        }
      }
      HasHueAppend(p, t, cs[0]);
      if cs[0] == t.hue {
        assert t.hue !in rest by {
          forall j | 0 <= j < |rest| ensures rest[j] != t.hue {
            assert rest[j] == cs[j + 1];
          }
        }
        AbsentOtherHue(rest, p, t);
        AbsentMembers(rest, p, t.hue);
      } else {
        AbsentStep(rest, p, t);
        var a := Absent(rest, p);
        assert HasHue(p + [t], cs[0]) == HasHue(p, cs[0]);
        assert Absent(cs, p) == (if HasHue(p, cs[0]) then [] else [cs[0]]) + a;
        assert Absent(cs, p + [t]) == (if HasHue(p, cs[0]) then [] else [cs[0]]) + DropColor(a, t.hue);
        if HasHue(p, cs[0]) {
          assert [] + a == a;
          assert [] + DropColor(a, t.hue) == DropColor(a, t.hue);
        } else {
          assert ([cs[0]] + a)[1..] == a;
          assert DropColor([cs[0]] + a, t.hue) == [cs[0]] + DropColor(a, t.hue);
        }
      }
    }
  }
}

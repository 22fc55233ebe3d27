/**
 * Tiles, and the id-based list operations (`contains`, `remove`) that the
 * hand and the melds perform on lists of tiles.
 */
module Tiles {

  datatype Option<+T> = None | Some(value: T)

  /** The four tile colours, in declaration order (the order `compareTo` uses). */
  datatype Color = Red | Blue | Black | Yellow

  /** Position of a colour in its declaration order. */
  function ColorRank(c: Color): (r: nat)
    ensures r < 4
  {
    match c
    case Red => 0
    case Blue => 1
    case Black => 2
    case Yellow => 3
  }

  /**
   * A tile is either a numbered tile of one colour or a joker. The joker has
   * value 0 and no colour. Only `id` takes part in equality: see SameTile.
   */
  datatype Tile =
    | Regular(id: int, number: nat, hue: Color)
    | Joker(id: int)
  {
    /** The tile's value: its number, or 0 for a joker. */
    function Value(): nat
    {
      if Regular? then number else 0
    }

    /** The tile's colour, or None for a joker. */
    function Hue(): Option<Color>
    {
      if Regular? then Some(hue) else None
    }

    predicate IsJoker()
    {
      Joker?
    }
  }

  /** A tile as the game deals it: a joker, or a number between 1 and 13. */
  predicate WellFormed(t: Tile)
  {
    t.Joker? || 1 <= t.number <= 13
  }

  predicate AllWellFormed(s: seq<Tile>)
  {
    forall i :: 0 <= i < |s| ==> WellFormed(s[i])
  }

  /** The regular-tile constructor keeps the value and colour it is given. */
  lemma RegularTileFields(id: int, value: nat, c: Color)
    ensures Regular(id, value, c).Value() == value
    ensures Regular(id, value, c).Hue() == Some(c)
    ensures !Regular(id, value, c).IsJoker()
    ensures 1 <= value <= 13 ==> WellFormed(Regular(id, value, c))
  {
  }

  /** The joker constructor gives value 0, no colour and the joker flag. */
  lemma JokerTileFields(id: int)
    ensures Joker(id).Value() == 0 && Joker(id).Hue() == None && Joker(id).IsJoker()
    ensures WellFormed(Joker(id))
  {
  }

  /** Tile equality: two tiles are equal exactly when their ids are. */
  predicate SameTile(a: Tile, b: Tile)
  {
    a.id == b.id
  }

  /** The hash code: a function of the id alone. */
  function HashCode(t: Tile): int
  {
    t.id
  }

  /** Equality ignores value, colour and the joker flag, and equal tiles hash alike. */
  lemma EqualityIsById(a: Tile, b: Tile)
    ensures SameTile(a, b) <==> a.id == b.id
    ensures SameTile(a, b) ==> HashCode(a) == HashCode(b)
    ensures SameTile(Regular(a.id, 5, Red), Joker(a.id))
  {
  }

  /** `list.contains(t)`: some element of the list is equal to t. */
  predicate Holds(s: seq<Tile>, t: Tile)
  {
    exists i :: 0 <= i < |s| && SameTile(s[i], t)
  }

  /** The multiset of the ids of a list of tiles. */
  function IdBag(s: seq<Tile>): (b: multiset<int>)
    ensures |b| == |s|
  {
    if s == [] then multiset{} else multiset{s[0].id} + IdBag(s[1..])
  }

  lemma {:induction false} IdBagAppend(a: seq<Tile>, b: seq<Tile>)
    ensures IdBag(a + b) == IdBag(a) + IdBag(b)
    decreases |a|
  {
    if a == [] {
      assert a + b == b;
    } else {
      assert (a + b)[1..] == a[1..] + b;
      IdBagAppend(a[1..], b);
    }
  }

  lemma {:induction false} IdBagHolds(s: seq<Tile>, t: Tile)
    ensures Holds(s, t) <==> t.id in IdBag(s)
    decreases |s|
  {
    if s != [] {
      var tail := s[1..];
      IdBagHolds(tail, t);
      assert IdBag(s) == multiset{s[0].id} + IdBag(tail);
      if Holds(tail, t) {
        var i :| 0 <= i < |tail| && SameTile(tail[i], t);
        assert s[i + 1] == tail[i];
      }
      if Holds(s, t) && !SameTile(s[0], t) {
        var i :| 0 <= i < |s| && SameTile(s[i], t);
        assert tail[i - 1] == s[i];
      }
    }
  }

  /**
   * `list.remove(t)`: drop the first element equal to t (same id); the list
   * is unchanged when there is none.
   */
  function RemoveFirst(s: seq<Tile>, t: Tile): (r: seq<Tile>)
    ensures multiset(r) <= multiset(s)
    ensures |r| == |s| || |r| == |s| - 1
  {
    if s == [] then []
    else if SameTile(s[0], t) then
      assert s == [s[0]] + s[1..];
      s[1..]
    else
      assert s == [s[0]] + s[1..];
      [s[0]] + RemoveFirst(s[1..], t)
  }

  /** Removing succeeds exactly when some element has the id, and then takes one copy of it. */
  lemma RemoveFirstIds(s: seq<Tile>, t: Tile)
    ensures t.id in IdBag(s) ==> |RemoveFirst(s, t)| == |s| - 1
    ensures t.id in IdBag(s) ==> IdBag(RemoveFirst(s, t)) == IdBag(s) - multiset{t.id}
    ensures t.id !in IdBag(s) ==> RemoveFirst(s, t) == s
  {
    if t.id in IdBag(s) {
      RemoveFirstHit(s, t);
    } else {
      RemoveFirstMiss(s, t);
    }
  }

  lemma {:induction false} RemoveFirstMiss(s: seq<Tile>, t: Tile)
    requires t.id !in IdBag(s)
    ensures RemoveFirst(s, t) == s
    decreases |s|
  {
    if s != [] {
      assert IdBag(s) == multiset{s[0].id} + IdBag(s[1..]);
      RemoveFirstMiss(s[1..], t);
      assert [s[0]] + s[1..] == s;
    }
  }

  lemma {:induction false} RemoveFirstHit(s: seq<Tile>, t: Tile)
    requires t.id in IdBag(s)
    ensures |RemoveFirst(s, t)| == |s| - 1
    ensures IdBag(RemoveFirst(s, t)) == IdBag(s) - multiset{t.id}
    decreases |s|
  {
    var tail := s[1..];
    assert IdBag(s) == multiset{s[0].id} + IdBag(tail);
    if !SameTile(s[0], t) {
      var r := RemoveFirst(tail, t);
      RemoveFirstHit(tail, t);
      assert RemoveFirst(s, t) == [s[0]] + r;
      assert ([s[0]] + r)[1..] == r;
      assert IdBag([s[0]] + r) == multiset{s[0].id} + IdBag(r);
      BagShift(s[0].id, IdBag(tail), t.id);
    }
  }

  /** Adding one id and removing another that was already there commute. */
  lemma BagShift(a: int, b: multiset<int>, x: int)
    requires x in b
    ensures multiset{a} + (b - multiset{x}) == (multiset{a} + b) - multiset{x}
  {
  }

  /** RemoveFirst removes exactly the element at the first index with an equal id. */
  lemma {:induction false} RemoveFirstAt(s: seq<Tile>, t: Tile, i: nat)
    requires i < |s| && SameTile(s[i], t)
    requires forall k :: 0 <= k < i ==> !SameTile(s[k], t)
    ensures RemoveFirst(s, t) == s[..i] + s[i + 1..]
    decreases i
  {
    if i == 0 {
      assert s[..0] + s[1..] == s[1..];
    } else {
      var tail := s[1..];
      assert !SameTile(s[0], t);
      forall k | 0 <= k < i - 1
        ensures !SameTile(tail[k], t)
      {
        assert tail[k] == s[k + 1];
      }
      RemoveFirstAt(tail, t, i - 1);
      calc {
        RemoveFirst(s, t);
        [s[0]] + RemoveFirst(tail, t);
        [s[0]] + (tail[..i - 1] + tail[i..]);
        { assert tail[..i - 1] == s[1..i] && tail[i..] == s[i + 1..]; }
        [s[0]] + (s[1..i] + s[i + 1..]);
        { assert [s[0]] + s[1..i] == s[..i]; }
        s[..i] + s[i + 1..];
      }
    }
  }

  /** Removes, one after another, the elements equal to each tile of ts. */
  function RemoveEach(s: seq<Tile>, ts: seq<Tile>): (r: seq<Tile>)
    ensures multiset(r) <= multiset(s)
    ensures |s| - |ts| <= |r| <= |s|
  {
    if ts == [] then s else RemoveFirst(RemoveEach(s, ts[..|ts| - 1]), ts[|ts| - 1])
  }

  /**
   * When the ids of ts are among those of s, every removal succeeds: the list
   * loses exactly |ts| elements, and exactly the ids of ts.
   */
  lemma {:induction false} RemoveEachIds(s: seq<Tile>, ts: seq<Tile>)
    requires IdBag(ts) <= IdBag(s)
    ensures |RemoveEach(s, ts)| == |s| - |ts|
    ensures IdBag(RemoveEach(s, ts)) == IdBag(s) - IdBag(ts)
    decreases |ts|
  {
    if ts != [] {
      var init := ts[..|ts| - 1];
      var last := ts[|ts| - 1];
      assert ts == init + [last];
      assert RemoveEach(s, ts) == RemoveFirst(RemoveEach(s, init), last);
      IdBagAppend(init, [last]);
      assert IdBag([last]) == multiset{last.id} by {
        assert [last][1..] == [];
      }
      BagTakeOneMore(IdBag(s), IdBag(init), last.id);
      RemoveEachIds(s, init);
      RemoveFirstHit(RemoveEach(s, init), last);
    }
  }

  /** Taking a bag and then one more id out is taking the bag with that id. */
  lemma BagTakeOneMore(b: multiset<int>, taken: multiset<int>, x: int)
    requires taken + multiset{x} <= b
    ensures taken <= b && x in b - taken
    ensures (b - taken) - multiset{x} == b - (taken + multiset{x})
  {
    assert (taken + multiset{x})[x] <= b[x];
  }

  /** Removing a pair is removing its first tile, then its second. */
  lemma RemoveEachPair(h: seq<Tile>, a: Tile, b: Tile)
    ensures RemoveEach(h, [a, b]) == RemoveFirst(RemoveFirst(h, a), b)
  {
    var ts := [a, b];
    assert ts[..|ts| - 1] == [a];
    assert ts[|ts| - 1] == b;
    assert RemoveEach(h, [a]) == RemoveFirst(RemoveEach(h, []), a) by {
      assert [a][..0] == [];
    }
  }

  /** Taking out the tile at p takes its id out of the id bag. */
  lemma RemoveAtIds(h: seq<Tile>, p: nat)
    requires p < |h|
    ensures multiset(h) == multiset(h[..p] + h[p + 1..]) + multiset{h[p]}
    ensures IdBag(h) == IdBag(h[..p] + h[p + 1..]) + multiset{h[p].id}
  {
    SplitAt(h, p);
    RemoveAtBag(h[..p], h[p], h[p + 1..]);
  }

  lemma SplitAt(h: seq<Tile>, p: nat)
    requires p < |h|
    ensures h == h[..p] + [h[p]] + h[p + 1..]
  {
    assert h[p..] == [h[p]] + h[p + 1..];
    assert h == h[..p] + h[p..];
  }

  lemma RemoveAtBag(before: seq<Tile>, x: Tile, after: seq<Tile>)
    ensures IdBag(before + [x] + after) == IdBag(before + after) + multiset{x.id}
  {
    IdBagAppend(before + [x], after);
    IdBagAppend(before, [x]);
    IdBagAppend(before, after);
    assert IdBag([x]) == multiset{x.id} by {
      assert [x][1..] == [];
    }
    var b, a := IdBag(before), IdBag(after);
    assert IdBag(before + [x] + after) == b + multiset{x.id} + a;
  }

  lemma DrawnTail(c: seq<Tile>, h: seq<Tile>, p: nat)
    requires c != [] && p < |h| && h[p] == c[0] && multiset(c) <= multiset(h)
    ensures multiset(c[1..]) <= multiset(h[..p] + h[p + 1..])
  {
    RemoveAtIds(h, p);
    assert c == [c[0]] + c[1..];
    TileBagCancel(multiset(c[1..]), multiset(h[..p] + h[p + 1..]), c[0]);
  }

  lemma TileBagCancel(a: multiset<Tile>, b: multiset<Tile>, x: Tile)
    requires a + multiset{x} <= b + multiset{x}
    ensures a <= b
  {
    forall y ensures a[y] <= b[y] {
      assert (a + multiset{x})[y] <= (b + multiset{x})[y];
    }
  }

  /** A list drawn from another (as a multiset) carries a sub-multiset of its ids. */
  lemma {:induction false} IdBagMonotone(c: seq<Tile>, h: seq<Tile>)
    requires multiset(c) <= multiset(h)
    ensures IdBag(c) <= IdBag(h)
    decreases |c|
  {
    if c != [] {
      assert c[0] in multiset(h);
      var p :| 0 <= p < |h| && h[p] == c[0];
      DrawnTail(c, h, p);
      IdBagMonotone(c[1..], h[..p] + h[p + 1..]);
      RemoveAtIds(h, p);
    }
  }
}

/**
 * The stable sort (`List.sort`) the solver and the meld queries apply to
 * copies of tile lists, for the two comparators the source uses.
 */
module Sorting {
  import opened Tiles

  /**
   * ByValue compares values only; ByHueValue compares colours (declaration
   * order) and then values. A joker has no colour: the source cannot compare
   * it by colour at all, and the solver only sorts by colour lists that hold
   * no joker or a single tile, so the major key a joker gets here never takes
   * part in a comparison.
   */
  datatype Order = ByValue | ByHueValue

  datatype Key = Key(major: int, minor: int)

  /** Lexicographic "strictly before" on keys. */
  predicate Below(a: Key, b: Key)
  {
    a.major < b.major || (a.major == b.major && a.minor < b.minor)
  }

  function KeyOf(o: Order, t: Tile): Key
  {
    match o
    case ByValue => Key(t.Value(), 0)
    case ByHueValue => Key(if t.Regular? then ColorRank(t.hue) else -1, t.Value())
  }

  /** a sorts strictly before b. */
  predicate Before(o: Order, a: Tile, b: Tile)
  {
    Below(KeyOf(o, a), KeyOf(o, b))
  }

  predicate Sorted(o: Order, s: seq<Tile>)
  {
    forall i, j :: 0 <= i < j < |s| ==> !Before(o, s[j], s[i])
  }

  lemma SortedTail(o: Order, s: seq<Tile>)
    requires Sorted(o, s) && s != []
    ensures Sorted(o, s[1..])
    ensures forall t :: t in s[1..] ==> !Before(o, t, s[0])
  {
    var tail := s[1..];
    forall i, j | 0 <= i < j < |tail|
      ensures !Before(o, tail[j], tail[i])
    {
      assert tail[j] == s[j + 1] && tail[i] == s[i + 1];
    }
    forall t | t in tail
      ensures !Before(o, t, s[0])
    {
      var j :| 0 <= j < |tail| && tail[j] == t;
      assert s[j + 1] == t;
    }
  }

  /** Puts x in front of the first element that is not strictly before it. */
  function Insert(o: Order, x: Tile, r: seq<Tile>): (q: seq<Tile>)
    ensures |q| == |r| + 1
    ensures multiset(q) == multiset(r) + multiset{x}
  {
    if r == [] || !Before(o, r[0], x) then
      [x] + r
    else
      assert r == [r[0]] + r[1..];
      [r[0]] + Insert(o, x, r[1..])
  }

  lemma {:induction false} InsertSorted(o: Order, x: Tile, r: seq<Tile>)
    requires Sorted(o, r)
    ensures Sorted(o, Insert(o, x, r))
    decreases |r|
  {
    if r != [] && Before(o, r[0], x) {
      var tail := r[1..];
      SortedTail(o, r);
      InsertSorted(o, x, tail);
      var rest := Insert(o, x, tail);
      assert Insert(o, x, r) == [r[0]] + rest;
      InsertMembers(o, x, tail, r[0]);
      ConsSorted(o, r[0], rest);
    }
  }

  /** If neither x nor any element of r sorts before y, no element of the insertion does. */
  lemma InsertMembers(o: Order, x: Tile, r: seq<Tile>, y: Tile)
    requires !Before(o, x, y) && forall t :: t in r ==> !Before(o, t, y)
    ensures forall t :: t in Insert(o, x, r) ==> !Before(o, t, y)
  {
    var q := Insert(o, x, r);
    forall t | t in q
      ensures !Before(o, t, y)
    {
      assert t in multiset(q);
      assert t == x || t in multiset(r);
    }
  }

  /** A sorted list stays sorted under a head that nothing in it sorts before. */
  lemma ConsSorted(o: Order, a: Tile, rest: seq<Tile>)
    requires Sorted(o, rest) && forall t :: t in rest ==> !Before(o, t, a)
    ensures Sorted(o, [a] + rest)
  {
    var q := [a] + rest;
    forall i, j | 0 <= i < j < |q|
      ensures !Before(o, q[j], q[i])
    {
      assert q[j] == rest[j - 1];
      if i > 0 {
        assert q[i] == rest[i - 1];
      }
    }
  }

  /** Insertion sort: a sorted permutation that keeps equal keys in input order. */
  function SortBy(o: Order, s: seq<Tile>): (q: seq<Tile>)
    ensures |q| == |s|
    ensures multiset(q) == multiset(s)
  {
    if s == [] then [] else
      assert s == [s[0]] + s[1..];
      Insert(o, s[0], SortBy(o, s[1..]))
  }

  /** The result of SortBy is in order. */
  lemma {:induction false} SortBySorted(o: Order, s: seq<Tile>)
    ensures Sorted(o, SortBy(o, s))
    decreases |s|
  {
    if s != [] {
      SortBySorted(o, s[1..]);
      InsertSorted(o, s[0], SortBy(o, s[1..]));
    }
  }

  /** The elements of s whose key is k, in their order in s. */
  function WithKey(o: Order, s: seq<Tile>, k: Key): (r: seq<Tile>)
    ensures |r| <= |s|
  {
    if s == [] then [] else (if KeyOf(o, s[0]) == k then [s[0]] else []) + WithKey(o, s[1..], k)
  }

  lemma {:induction false} InsertWithKey(o: Order, x: Tile, r: seq<Tile>, k: Key)
    ensures WithKey(o, Insert(o, x, r), k) == (if KeyOf(o, x) == k then [x] else []) + WithKey(o, r, k)
    decreases |r|
  {
    if r == [] || !Before(o, r[0], x) {
      assert Insert(o, x, r) == [x] + r;
      WithKeyCons(o, x, r, k);
    } else {
      InsertWithKey(o, x, r[1..], k);
      InsertWithKeyStep(o, x, r, k);
    }
  }

  /** The step of InsertWithKey past a head that sorts strictly before x. */
  lemma InsertWithKeyStep(o: Order, x: Tile, r: seq<Tile>, k: Key)
    requires r != [] && Before(o, r[0], x)
    requires WithKey(o, Insert(o, x, r[1..]), k) == (if KeyOf(o, x) == k then [x] else []) + WithKey(o, r[1..], k)
    ensures WithKey(o, Insert(o, x, r), k) == (if KeyOf(o, x) == k then [x] else []) + WithKey(o, r, k)
  {
    var mine := if KeyOf(o, x) == k then [x] else [];
    var tail := r[1..];
    var rest := Insert(o, x, tail);
    var head := if KeyOf(o, r[0]) == k then [r[0]] else [];
    var w := WithKey(o, tail, k);
    assert Insert(o, x, r) == [r[0]] + rest;
    WithKeyCons(o, r[0], rest, k);
    WithKeyCons(o, r[0], tail, k);
    assert [r[0]] + tail == r;
    // r[0] sorts strictly before x, so at most one of them has key k
    assert head == [] || mine == [] by {
      if head != [] {
        assert KeyOf(o, r[0]) == k;
      }
    }
    SwapEmpty(head, mine, w);
  }

  lemma SwapEmpty(a: seq<Tile>, b: seq<Tile>, w: seq<Tile>)
    requires a == [] || b == []
    ensures a + (b + w) == b + (a + w)
  {
    if a == [] {
      assert a + (b + w) == b + w;
    } else {
      assert b + (a + w) == a + w;
    }
  }

  lemma WithKeyCons(o: Order, a: Tile, s: seq<Tile>, k: Key)
    ensures WithKey(o, [a] + s, k) == (if KeyOf(o, a) == k then [a] else []) + WithKey(o, s, k)
  {
    assert ([a] + s)[1..] == s;
  }

  /**
   * Stability: for every key, the elements with that key appear in the sorted
   * list in the same order as in the input. With Sorted and the permutation
   * property this fixes the result to that of any stable sort.
   */
  lemma {:induction false} SortIsStable(o: Order, s: seq<Tile>, k: Key)
    ensures WithKey(o, SortBy(o, s), k) == WithKey(o, s, k)
    decreases |s|
  {
    if s != [] {
      SortIsStable(o, s[1..], k);
      InsertWithKey(o, s[0], SortBy(o, s[1..]), k);
    }
  }

  /** A list that is already in order is left as it is. */
  lemma {:induction false} SortKeepsSorted(o: Order, s: seq<Tile>)
    requires Sorted(o, s)
    ensures SortBy(o, s) == s
    decreases |s|
  {
    if s != [] {
      assert Sorted(o, s[1..]) by {
        forall i, j | 0 <= i < j < |s[1..]|
          ensures !Before(o, s[1..][j], s[1..][i])
        {
          assert s[1..][j] == s[j + 1] && s[1..][i] == s[i + 1];
        }
      }
      SortKeepsSorted(o, s[1..]);
      assert s == [s[0]] + s[1..];
      if s[1..] != [] {
        assert s[1..][0] == s[1];
      }
    }
  }
}

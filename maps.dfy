/**
 * The engine-independent values of MapGenerator: coordinates, map settings, the grid of cells,
 * 4-neighbour reachability, the x-outer/y-inner coordinate list and the rotating queues.
 */
module Maps {
  import opened Wrappers
  import Utility

  /** MapGenerator.Coord: an integer pair used as a grid index. */
  datatype Coord = Coord(x: int, y: int)

  /**
   * MapGenerator.Map, restricted to what placement reads. Sizes are naturals (a negative size
   * makes the C# array allocation throw); heights and colours are decoration only.
   */
  datatype MapSpec = MapSpec(width: nat, height: nat, obstaclePercent: real, seed: int)

  /** Coord's operator ==: componentwise, which is exactly value equality of the datatype. */
  function CoordEquals(c1: Coord, c2: Coord): (r: bool)
    ensures r <==> c1 == c2
  {
    c1.x == c2.x && c1.y == c2.y
  }

  /** Coord's operator !=. */
  function CoordNotEquals(c1: Coord, c2: Coord): (r: bool)
    ensures r <==> c1 != c2
  {
    !CoordEquals(c1, c2)
  }

  predicate InBounds(w: int, h: int, c: Coord)
  {
    0 <= c.x < w && 0 <= c.y < h
  }

  /** Map.mapCenter: half of each size, rounded down (C# integer division on non-negative sizes). */
  function MapCenter(m: MapSpec): (c: Coord)
    ensures 0 <= 2 * c.x <= m.width < 2 * c.x + 2
    ensures 0 <= 2 * c.y <= m.height < 2 * c.y + 2
    ensures m.width > 0 && m.height > 0 ==> InBounds(m.width, m.height, c)
  {
    Coord(m.width / 2, m.height / 2)
  }

  /** (int)(width * height * obstaclePercent): the C# cast truncates toward zero. */
  function ObstacleTarget(m: MapSpec): (n: int)
    ensures var v := (m.width * m.height) as real * m.obstaclePercent;
      (v >= 0.0 ==> n >= 0 && n as real <= v < n as real + 1.0) &&
      (v < 0.0 ==> n <= 0 && n as real - 1.0 < v <= n as real)
  {
    var v := (m.width * m.height) as real * m.obstaclePercent;
    if v >= 0.0 then v.Floor else -((-v).Floor)
  }

  /** The target never exceeds the number of cells while obstaclePercent <= 1, and is positive only on a non-empty map. */
  lemma ObstacleTargetBounds(m: MapSpec)
    ensures m.obstaclePercent <= 1.0 ==> ObstacleTarget(m) <= m.width * m.height
    ensures ObstacleTarget(m) > 0 ==> m.width > 0 && m.height > 0
  {
    var n := m.width * m.height;
    var v := n as real * m.obstaclePercent;
    if m.obstaclePercent <= 1.0 {
      var d := 1.0 - m.obstaclePercent;
      assert d >= 0.0 && n as real >= 0.0;
      assert n as real * d >= 0.0;
      assert v == n as real - n as real * d;
    }
    if ObstacleTarget(m) > 0 {
      assert v > 0.0;
      assert n != 0;
    }
  }

  /** Mathf.Clamp(value, min, max) on integers. */
  function Clamp(value: int, min: int, max: int): (r: int)
    ensures min <= max ==> min <= r <= max
    ensures min <= value <= max ==> r == value
    ensures min <= max ==> forall z :: min <= z <= max ==> Dist(r, value) <= Dist(z, value)
  {
    if value < min then min else if value > max then max else value
  }

  function Dist(a: int, b: int): nat
  {
    if a < b then b - a else a - b
  }

  /**
   * The index part of GetTileFromPosition: the rounded indices (rx, ry) are clamped into the
   * tile map, so the tile looked up exists and in-range indices are kept. On an empty tile map
   * the clamp's range is empty and the array access throws: None.
   */
  function TileIndexFromPosition(width: nat, height: nat, rx: int, ry: int): (r: Option<Coord>)
    ensures r.None? <==> width == 0 || height == 0
    ensures r.Some? ==> InBounds(width, height, r.value)
    ensures r.Some? && 0 <= rx < width ==> r.value.x == rx
    ensures r.Some? && 0 <= ry < height ==> r.value.y == ry
    ensures r.Some? && rx < 0 ==> r.value.x == 0
    ensures r.Some? && rx >= width ==> r.value.x == width - 1
    ensures r.Some? && ry < 0 ==> r.value.y == 0
    ensures r.Some? && ry >= height ==> r.value.y == height - 1
  {
    var c := Coord(Clamp(rx, 0, width - 1), Clamp(ry, 0, height - 1));
    if InBounds(width, height, c) then Some(c) else None
  }

  // ---------------------------------------------------------------- cells

  function AllCells(w: nat, h: nat): set<Coord>
  {
    set x, y | 0 <= x < w && 0 <= y < h :: Coord(x, y)
  }

  lemma AllCellsAt(w: nat, h: nat, c: Coord)
    ensures c in AllCells(w, h) <==> InBounds(w, h, c)
  {
    if InBounds(w, h, c) {
      assert c == Coord(c.x, c.y);
    }
  }

  lemma AllCellsMembers(w: nat, h: nat)
    ensures forall c :: c in AllCells(w, h) <==> InBounds(w, h, c)
  {
    forall c | InBounds(w, h, c) ensures c in AllCells(w, h) {
      assert c == Coord(c.x, c.y);
    }
  }

  // ---------------------------------------------------------------- reachability

  /** A cell the flood fill may enter: inside the grid and not an obstacle. */
  predicate Open(w: int, h: int, blocked: set<Coord>, c: Coord)
  {
    InBounds(w, h, c) && c !in blocked
  }

  /** The four neighbours; never a diagonal, never the cell itself. */
  predicate Adjacent(a: Coord, b: Coord)
  {
    (a.x == b.x && (a.y == b.y + 1 || b.y == a.y + 1)) ||
    (a.y == b.y && (a.x == b.x + 1 || b.x == a.x + 1))
  }

  /** A walk from `start` to `end` by 4-neighbour steps, every cell after the first open. */
  ghost predicate IsPath(w: int, h: int, blocked: set<Coord>, p: seq<Coord>, start: Coord, end: Coord)
  {
    |p| > 0 && p[0] == start && p[|p| - 1] == end &&
    forall k :: 1 <= k < |p| ==> Open(w, h, blocked, p[k]) && Adjacent(p[k - 1], p[k])
  }

  ghost predicate Reachable(w: int, h: int, blocked: set<Coord>, start: Coord, c: Coord)
  {
    exists p :: IsPath(w, h, blocked, p, start, c)
  }

  /** The cells a flood fill from `start` reaches (the start cell included). */
  ghost function ReachableSet(w: nat, h: nat, blocked: set<Coord>, start: Coord): set<Coord>
  {
    set c | c in AllCells(w, h) && Reachable(w, h, blocked, start, c)
  }

  /** Every free cell can be reached from `start`. */
  ghost predicate FullyConnected(w: nat, h: nat, blocked: set<Coord>, start: Coord)
  {
    ReachableSet(w, h, blocked, start) == AllCells(w, h) - blocked
  }

  /** Every open neighbour of `c` is in V. */
  ghost predicate Closed(w: int, h: int, blocked: set<Coord>, V: set<Coord>, c: Coord)
  {
    forall n :: Adjacent(c, n) && Open(w, h, blocked, n) ==> n in V
  }

  lemma PathExtend(w: int, h: int, blocked: set<Coord>, p: seq<Coord>, start: Coord, c: Coord, n: Coord)
    requires IsPath(w, h, blocked, p, start, c)
    requires Adjacent(c, n) && Open(w, h, blocked, n)
    ensures IsPath(w, h, blocked, p + [n], start, n)
  {
  }

  /** A walk that starts in a set closed under open-neighbour steps never leaves it. */
  lemma {:induction false} PathStaysIn(w: int, h: int, blocked: set<Coord>, V: set<Coord>, p: seq<Coord>, start: Coord, end: Coord)
    requires start in V
    requires forall c :: c in V ==> Closed(w, h, blocked, V, c)
    requires IsPath(w, h, blocked, p, start, end)
    ensures end in V
    decreases |p|
  {
    if |p| > 1 {
      var q := p[..|p| - 1];
      assert IsPath(w, h, blocked, q, start, q[|q| - 1]) by {
        forall k | 1 <= k < |q| ensures Open(w, h, blocked, q[k]) && Adjacent(q[k - 1], q[k]) {
          assert q[k] == p[k] && q[k - 1] == p[k - 1];
        }
      }
      PathStaysIn(w, h, blocked, V, q, start, q[|q| - 1]);
      assert Adjacent(p[|p| - 2], p[|p| - 1]) && Open(w, h, blocked, p[|p| - 1]);
    }
  }

  /**
   * The flood-fill argument: a set of in-grid cells that contains the start, has a walk to each
   * member and is closed under open-neighbour steps is exactly the reachable set.
   */
  lemma ClosedWitnessedIsReachable(w: nat, h: nat, blocked: set<Coord>, start: Coord, V: set<Coord>, paths: map<Coord, seq<Coord>>)
    requires start in V && V <= AllCells(w, h)
    requires forall c :: c in V ==> Closed(w, h, blocked, V, c)
    requires forall c :: c in V ==> c in paths && IsPath(w, h, blocked, paths[c], start, c)
    ensures ReachableSet(w, h, blocked, start) == V
  {
    forall c | c in ReachableSet(w, h, blocked, start) ensures c in V {
      var p :| IsPath(w, h, blocked, p, start, c);
      PathStaysIn(w, h, blocked, V, p, start, c);
    }
    forall c | c in V ensures c in ReachableSet(w, h, blocked, start) {
      assert IsPath(w, h, blocked, paths[c], start, c);
    }
  }

  /** Reachable cells are free cells when the start is free. */
  lemma ReachableAreFree(w: nat, h: nat, blocked: set<Coord>, start: Coord)
    requires start !in blocked
    ensures ReachableSet(w, h, blocked, start) <= AllCells(w, h) - blocked
  {
    forall c | c in ReachableSet(w, h, blocked, start) ensures c !in blocked {
      var p :| IsPath(w, h, blocked, p, start, c);
      if |p| > 1 {
        assert Open(w, h, blocked, p[|p| - 1]);
      }
    }
  }

  /** |AllCells(w, h)| == w * h: the coordinate list enumerates it without repetition. */
  lemma AllCellsCard(w: nat, h: nat)
    ensures |AllCells(w, h)| == w * h
  {
    TileCoordsLength(w, h);
    TileCoordsDistinct(w, h);
    TileCoordsCells(w, h);
    AllCellsMembers(w, h);
    assert Elems(TileCoords(w, h)) == AllCells(w, h);
    DistinctCard(TileCoords(w, h));
  }

  /**
   * MapIsFullyAccessible's comparison decides connectivity: with the start free and every
   * obstacle inside the grid, "reached cells == cells - obstacles" holds iff every free cell
   * is reached.
   */
  lemma ConnectedIffCount(w: nat, h: nat, blocked: set<Coord>, start: Coord)
    requires InBounds(w, h, start) && start !in blocked
    requires blocked <= AllCells(w, h)
    ensures |ReachableSet(w, h, blocked, start)| == w * h - |blocked| <==> FullyConnected(w, h, blocked, start)
  {
    var R := ReachableSet(w, h, blocked, start);
    var F := AllCells(w, h) - blocked;
    ReachableAreFree(w, h, blocked, start);
    AllCellsCard(w, h);
    assert |F| == w * h - |blocked| by {
      assert AllCells(w, h) == F + blocked;
      assert F !! blocked;
    }
    if |R| == |F| {
      assert F == R + (F - R);
      assert |F - R| == 0;
    }
  }

  /** Walk along x, then along y: on a grid without obstacles every cell is reachable. */
  lemma {:induction false} StraightPath(w: nat, h: nat, start: Coord, c: Coord) returns (p: seq<Coord>)
    requires InBounds(w, h, start) && InBounds(w, h, c)
    ensures IsPath(w, h, {}, p, start, c)
    decreases Dist(c.x, start.x) + Dist(c.y, start.y)
  {
    if c == start {
      p := [start];
    } else {
      var prev :=
        if c.x < start.x then Coord(c.x + 1, c.y)
        else if c.x > start.x then Coord(c.x - 1, c.y)
        else if c.y < start.y then Coord(c.x, c.y + 1)
        else Coord(c.x, c.y - 1);
      var q := StraightPath(w, h, start, prev);
      PathExtend(w, h, {}, q, start, prev, c);
      p := q + [c];
    }
  }

  /** The placement loop starts from a connected map. */
  lemma EmptyGridConnected(w: nat, h: nat, start: Coord)
    requires InBounds(w, h, start)
    ensures FullyConnected(w, h, {}, start)
  {
    AllCellsMembers(w, h);
    forall c | c in AllCells(w, h) ensures c in ReachableSet(w, h, {}, start) {
      var p := StraightPath(w, h, start, c);
    }
  }

  // ---------------------------------------------------------------- the coordinate list

  function Elems<T>(s: seq<T>): set<T>
  {
    set x | x in s
  }

  lemma {:induction false} DistinctCard<T>(s: seq<T>)
    requires Utility.Distinct(s)
    ensures |Elems(s)| == |s|
  {
    if |s| > 0 {
      var t := s[..|s| - 1];
      assert Utility.Distinct(t);
      DistinctCard(t);
      assert Elems(s) == Elems(t) + {s[|s| - 1]};
      assert s[|s| - 1] !in Elems(t);
    }
  }

  /** Column x, y = 0 .. n-1. */
  function Column(x: int, n: nat): seq<Coord>
  {
    seq(n, j => Coord(x, j))
  }

  /** allTileCoords: x outer, y inner. */
  function TileCoords(w: nat, h: nat): (r: seq<Coord>)
    ensures |r| == w * h
  {
    if w == 0 then [] else TileCoords(w - 1, h) + Column(w - 1, h)
  }

  lemma {:induction false} TileCoordsLength(w: nat, h: nat)
    ensures |TileCoords(w, h)| == w * h
  {
    if w > 0 {
      TileCoordsLength(w - 1, h);
      assert (w - 1) * h + h == w * h;
    }
  }

  /** Coordinate (x, y) sits at index x * height + y: x-outer, y-inner order. */
  lemma {:induction false} TileCoordsAt(w: nat, h: nat, x: int, y: int)
    requires 0 <= x < w && 0 <= y < h
    ensures x * h + y < |TileCoords(w, h)|
    ensures TileCoords(w, h)[x * h + y] == Coord(x, y)
  {
    var L := (w - 1) * h;
    TileCoordsLength(w, h);
    TileCoordsLength(w - 1, h);
    assert L + h == w * h;
    var prefix, column := TileCoords(w - 1, h), Column(w - 1, h);
    assert TileCoords(w, h) == prefix + column;
    if x < w - 1 {
      MulMono(x + 1, w - 1, h);
      assert x * h + y < L;
      TileCoordsAt(w - 1, h, x, y);
      assert (prefix + column)[x * h + y] == prefix[x * h + y];
    } else {
      assert x * h + y == L + y;
      assert (prefix + column)[L + y] == column[y];
    }
  }

  lemma MulMono(a: nat, b: nat, c: nat)
    requires a <= b
    ensures a * c <= b * c
  {
  }

  lemma {:induction false} TileCoordsCells(w: nat, h: nat)
    ensures forall c :: c in TileCoords(w, h) <==> InBounds(w, h, c)
  {
    if w > 0 {
      TileCoordsCells(w - 1, h);
      forall c ensures c in Column(w - 1, h) <==> (c.x == w - 1 && 0 <= c.y < h) {
        if c.x == w - 1 && 0 <= c.y < h {
          assert Column(w - 1, h)[c.y] == c;
        }
      }
    }
  }

  lemma {:induction false} TileCoordsDistinct(w: nat, h: nat)
    ensures Utility.Distinct(TileCoords(w, h))
  {
    if w > 0 {
      TileCoordsDistinct(w - 1, h);
      TileCoordsCells(w - 1, h);
      var a: seq<Coord>, b: seq<Coord> := TileCoords(w - 1, h), Column(w - 1, h);
      forall i, j | 0 <= i < j < |a + b| ensures (a + b)[i] != (a + b)[j] {
        if j < |a| {
        } else if i < |a| {
          assert (a + b)[i] in a;
        } else {
          assert (a + b)[i].y == i - |a| && (a + b)[j].y == j - |a|;
        }
      }
    }
  }

  // ---------------------------------------------------------------- rotating queues

  /** One draw from a rotating queue: the front goes to the back. */
  function Rotate<T>(q: seq<T>): (r: seq<T>)
    ensures |r| == |q|
    ensures q != [] ==> r[|r| - 1] == q[0] && r[..|r| - 1] == q[1..]
  {
    if q == [] then [] else q[1..] + [q[0]]
  }

  /** A draw keeps the queue's contents. */
  lemma RotatePermutes<T>(q: seq<T>)
    ensures multiset(Rotate(q)) == multiset(q)
  {
    if q != [] {
      assert q == [q[0]] + q[1..];
    }
  }

  /** The queue after n draws. */
  function RotateN<T>(q: seq<T>, n: nat): seq<T>
    decreases n
  {
    if n == 0 then q else RotateN(Rotate(q), n - 1)
  }

  lemma {:induction false} RotateNPermutes<T>(q: seq<T>, n: nat)
    ensures |RotateN(q, n)| == |q| && multiset(RotateN(q, n)) == multiset(q)
    decreases n
  {
    if n > 0 {
      RotatePermutes(q);
      RotateNPermutes(Rotate(q), n - 1);
    }
  }

  /** Drawing n + 1 times is drawing n times and then once more. */
  lemma {:induction false} RotateNSucc<T>(q: seq<T>, n: nat)
    ensures RotateN(q, n + 1) == Rotate(RotateN(q, n))
    decreases n
  {
    if n > 0 {
      var r := Rotate(q);
      RotateNSucc(r, n - 1);
      assert RotateN(q, n + 1) == RotateN(r, n);
      assert RotateN(q, n) == RotateN(r, n - 1);
    }
  }

  /** After n <= |q| draws the first n elements have moved, in order, to the back. */
  lemma {:induction false} RotateNSplit<T>(q: seq<T>, n: nat)
    requires n <= |q|
    ensures RotateN(q, n) == q[n..] + q[..n]
    decreases n
  {
    if n == 0 {
      assert q[0..] == q;
    } else {
      RotateNSplit(q, n - 1);
      RotateNSucc(q, n - 1);
      var r := q[n - 1..] + q[..n - 1];
      assert r[0] == q[n - 1] && r[1..] == q[n..] + q[..n - 1];
      assert q[..n] == q[..n - 1] + [q[n - 1]];
    }
  }

  /** N draws from an N-element queue bring it back to its original order. */
  lemma RotateNCycle<T>(q: seq<T>)
    ensures RotateN(q, |q|) == q
  {
    RotateNSplit(q, |q|);
    assert q[|q|..] == [];
  }

  /** The i-th draw yields q[i]; for a queue without repeats the first |q| draws are pairwise distinct. */
  lemma DrawsDistinct<T>(q: seq<T>, i: nat, j: nat)
    requires Utility.Distinct(q) && i < j < |q|
    ensures RotateN(q, i) != [] && RotateN(q, j) != []
    ensures RotateN(q, i)[0] == q[i] && RotateN(q, j)[0] == q[j]
    ensures RotateN(q, i)[0] != RotateN(q, j)[0]
  {
    RotateNSplit(q, i);
    RotateNSplit(q, j);
  }

  /** Draw N+1 from an N-element queue returns the first element again. */
  lemma DrawCycles<T>(q: seq<T>)
    requires q != []
    ensures RotateN(q, |q|) != [] && RotateN(q, |q|)[0] == q[0]
  {
    RotateNCycle(q);
  }

  /** List.Remove: drops the first occurrence of c, if any. */
  function RemoveFirst<T(==)>(s: seq<T>, c: T): (r: seq<T>)
    ensures c in s ==> |r| == |s| - 1 && multiset(r) == multiset(s) - multiset{c}
    ensures c !in s ==> r == s
  {
    if s == [] then []
    else if s[0] == c then
      assert s == [s[0]] + s[1..];
      s[1..]
    else
      assert s == [s[0]] + s[1..];
      [s[0]] + RemoveFirst(s[1..], c)
  }

  /** On a list without repeats, Remove takes out exactly c and keeps the list repeat-free. */
  lemma RemoveFirstDistinct<T>(s: seq<T>, c: T)
    requires Utility.Distinct(s)
    ensures Utility.Distinct(RemoveFirst(s, c))
    ensures forall d :: d in RemoveFirst(s, c) <==> d in s && d != c
  {
    var r := RemoveFirst(s, c);
    forall d ensures d in r <==> d in s && d != c {
      assert d in r <==> d in multiset(r);
      assert d in s <==> d in multiset(s);
      if c in s && d == c {
        MultiplicityDistinct(s, c);
      }
    }
    forall d ensures multiset(r)[d] <= 1 {
      MultiplicityDistinct(s, d);
    }
    DistinctFromMultiplicity(r);
  }

  lemma {:induction false} MultiplicityDistinct<T>(s: seq<T>, d: T)
    requires Utility.Distinct(s)
    ensures multiset(s)[d] <= 1
  {
    if s != [] {
      var t := s[1..];
      assert s == [s[0]] + t;
      assert Utility.Distinct(t);
      MultiplicityDistinct(t, d);
      if s[0] == d {
        assert d !in t;
      }
    }
  }

  lemma {:induction false} DistinctFromMultiplicity<T>(s: seq<T>)
    requires forall d :: multiset(s)[d] <= 1
    ensures Utility.Distinct(s)
  {
    if s != [] {
      var t := s[1..];
      assert s == [s[0]] + t;
      forall d ensures multiset(t)[d] <= 1 {
        assert multiset(s)[d] == multiset(t)[d] + (if d == s[0] then 1 else 0);
      }
      DistinctFromMultiplicity(t);
      assert multiset(s)[s[0]] == multiset(t)[s[0]] + 1;
      assert s[0] !in t;
      forall i, j | 0 <= i < j < |s| ensures s[i] != s[j] {
        if i == 0 {
          assert s[j] == t[j - 1];
        } else {
          assert s[i] == t[i - 1] && s[j] == t[j - 1];
        }
      }
    }
  }
}

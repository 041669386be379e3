/**
 * MapGenerator's state and the imperative parts of GenerateMap: the coordinate list, the seeded
 * rotating queues, obstacle placement with rollback and the breadth-first accessibility check.
 */
module MapGeneration {
  import opened Wrappers
  import opened Maps
  import Utility

  /** The cells of a bool[,] obstacle map that hold true. */
  ghost function Blocked(g: array2<bool>): set<Coord>
    reads g
  {
    set x, y | 0 <= x < g.Length0 && 0 <= y < g.Length1 && g[x, y] :: Coord(x, y)
  }

  lemma BlockedMembers(g: array2<bool>)
    ensures Blocked(g) <= AllCells(g.Length0, g.Length1)
    ensures forall x, y :: 0 <= x < g.Length0 && 0 <= y < g.Length1 ==> (g[x, y] <==> Coord(x, y) in Blocked(g))
  {
    forall x, y | 0 <= x < g.Length0 && 0 <= y < g.Length1 && g[x, y] ensures Coord(x, y) in Blocked(g) {
    }
  }

  lemma BlockedAt(g: array2<bool>, x: int, y: int)
    requires 0 <= x < g.Length0 && 0 <= y < g.Length1
    ensures g[x, y] <==> Coord(x, y) in Blocked(g)
  {
  }

  lemma BlockedIs(g: array2<bool>, S: set<Coord>)
    requires S <= AllCells(g.Length0, g.Length1)
    requires forall x, y :: 0 <= x < g.Length0 && 0 <= y < g.Length1 ==> (g[x, y] <==> Coord(x, y) in S)
    ensures Blocked(g) == S
  {
    BlockedMembers(g);
    AllCellsMembers(g.Length0, g.Length1);
    forall c | c in S ensures c in Blocked(g) {
      assert g[c.x, c.y];
    }
  }

  lemma SubsetCard<T>(A: set<T>, B: set<T>)
    requires A <= B
    ensures |A| <= |B|
  {
    assert B == A + (B - A);
  }

  /** The flood fill's bookkeeping: flags mirror `visited`, and each visited cell has a walk from the centre. */
  ghost predicate FloodState(W: nat, H: nat, B: set<Coord>, center: Coord, mapFlags: array2<bool>,
                             visited: set<Coord>, paths: map<Coord, seq<Coord>>)
    reads mapFlags
  {
    mapFlags.Length0 == W && mapFlags.Length1 == H &&
    center in visited && visited <= AllCells(W, H) &&
    (forall x, y :: 0 <= x < W && 0 <= y < H ==> (mapFlags[x, y] <==> Coord(x, y) in visited)) &&
    (forall c :: c in visited ==> c in paths && IsPath(W, H, B, paths[c], center, c))
  }

  /** The two queues: shuffledTileCoords and shuffledOpenTileCoords. */
  datatype Queues = Queues(tiles: seq<Coord>, openTiles: seq<Coord>)

  /** GetRandomOpenTile as written: pop the open queue, push the coordinate onto the full queue. */
  function OpenDrawAsWritten(qs: Queues): (r: Queues)
    ensures qs.openTiles == [] ==> r == qs
    ensures qs.openTiles != [] ==> |r.openTiles| == |qs.openTiles| - 1 && |r.tiles| == |qs.tiles| + 1
  {
    if qs.openTiles == [] then qs else Queues(qs.tiles + [qs.openTiles[0]], qs.openTiles[1..])
  }

  function OpenDrawsAsWritten(qs: Queues, n: nat): Queues
    decreases n
  {
    if n == 0 then qs else OpenDrawsAsWritten(OpenDrawAsWritten(qs), n - 1)
  }

  /** As written, n draws move the first n open tiles onto the full queue. */
  lemma {:induction false} OpenDrawsAsWrittenMove(qs: Queues, n: nat)
    requires n <= |qs.openTiles|
    ensures OpenDrawsAsWritten(qs, n) == Queues(qs.tiles + qs.openTiles[..n], qs.openTiles[n..])
    decreases n
  {
    if n > 0 {
      var q1 := OpenDrawAsWritten(qs);
      OpenDrawsAsWrittenMove(q1, n - 1);
      assert qs.openTiles[..n] == [qs.openTiles[0]] + qs.openTiles[1..][..n - 1];
      assert qs.openTiles[n..] == qs.openTiles[1..][n - 1..];
    }
  }

  /**
   * The discrepancy: after as many draws as there are open tiles the open queue is empty, so
   * the next GetRandomOpenTile dequeues from an empty queue (an exception in C#).
   */
  lemma AsWrittenOpenQueueRunsDry(qs: Queues)
    ensures OpenDrawsAsWritten(qs, |qs.openTiles|).openTiles == []
    ensures |OpenDrawsAsWritten(qs, |qs.openTiles|).tiles| == |qs.tiles| + |qs.openTiles|
  {
    OpenDrawsAsWrittenMove(qs, |qs.openTiles|);
  }

  /** The evidently intended GetRandomOpenTile: requeue the coordinate onto the open queue. */
  function OpenDrawRequeued(qs: Queues): Queues
  {
    qs.(openTiles := Rotate(qs.openTiles))
  }

  function OpenDrawsRequeued(qs: Queues, n: nat): Queues
    decreases n
  {
    if n == 0 then qs else OpenDrawsRequeued(OpenDrawRequeued(qs), n - 1)
  }

  /** Requeued draws leave the full queue alone, never empty the open queue and cycle it. */
  lemma {:induction false} OpenDrawsRequeuedRotate(qs: Queues, n: nat)
    ensures OpenDrawsRequeued(qs, n) == Queues(qs.tiles, RotateN(qs.openTiles, n))
    ensures multiset(OpenDrawsRequeued(qs, n).openTiles) == multiset(qs.openTiles)
    decreases n
  {
    if n > 0 {
      OpenDrawsRequeuedRotate(OpenDrawRequeued(qs), n - 1);
      RotatePermutes(qs.openTiles);
    }
    RotateNPermutes(qs.openTiles, n);
  }

  /** The number of placement attempts: the loop runs ObstacleTarget times, or not at all. */
  function Attempts(m: MapSpec): nat
  {
    if ObstacleTarget(m) > 0 then ObstacleTarget(m) else 0
  }

  /** allTileCoords without the given obstacles, order kept: what the Remove calls leave of allOpenCoords. */
  function Without(s: seq<Coord>, blocked: set<Coord>): (r: seq<Coord>)
    ensures forall c :: c in r <==> c in s && c !in blocked
  {
    if s == [] then []
    else if s[0] in blocked then Without(s[1..], blocked)
    else [s[0]] + Without(s[1..], blocked)
  }

  lemma {:induction false} WithoutAbsent(s: seq<Coord>, blocked: set<Coord>, c: Coord)
    requires c !in s
    ensures Without(s, blocked + {c}) == Without(s, blocked)
  {
    if s != [] {
      WithoutAbsent(s[1..], blocked, c);
    }
  }

  /** Removing a newly placed obstacle from the open list keeps it equal to the filtered tile list. */
  lemma {:induction false} RemoveFirstWithout(s: seq<Coord>, blocked: set<Coord>, c: Coord)
    requires Utility.Distinct(s) && c !in blocked
    ensures RemoveFirst(Without(s, blocked), c) == Without(s, blocked + {c})
  {
    if s != [] {
      assert Utility.Distinct(s[1..]);
      if s[0] in blocked {
        RemoveFirstWithout(s[1..], blocked, c);
      } else if s[0] == c {
        assert c !in s[1..];
        WithoutAbsent(s[1..], blocked, c);
      } else {
        RemoveFirstWithout(s[1..], blocked, c);
      }
    }
  }

  lemma {:induction false} WithoutDistinct(s: seq<Coord>, blocked: set<Coord>)
    requires Utility.Distinct(s)
    ensures Utility.Distinct(Without(s, blocked))
  {
    if s != [] {
      assert Utility.Distinct(s[1..]);
      WithoutDistinct(s[1..], blocked);
      var r := Without(s[1..], blocked);
      if s[0] !in blocked {
        assert s[0] !in r;
        forall i, j | 0 <= i < j < |[s[0]] + r| ensures ([s[0]] + r)[i] != ([s[0]] + r)[j] {
          if i == 0 {
            assert ([s[0]] + r)[j] in r;
          } else {
            assert ([s[0]] + r)[i] == r[i - 1] && ([s[0]] + r)[j] == r[j - 1];
          }
        }
      }
    }
  }

  lemma {:induction false} WithoutNone(s: seq<Coord>)
    ensures Without(s, {}) == s
  {
    if s != [] {
      WithoutNone(s[1..]);
      assert s == [s[0]] + s[1..];
    }
  }

  /** The queue the placement loop draws from: a permutation of the distinct coordinate list. */
  ghost predicate TileQueue(m: MapSpec, tiles: seq<Coord>, q0: seq<Coord>)
  {
    tiles == TileCoords(m.width, m.height) && Utility.Distinct(q0) && |q0| == m.width * m.height &&
    forall c :: c in q0 ==> InBounds(m.width, m.height, c)
  }

  lemma ShuffledTileQueue(m: MapSpec)
    ensures TileQueue(m, TileCoords(m.width, m.height), Utility.Shuffled(TileCoords(m.width, m.height), m.seed))
  {
    var tiles := TileCoords(m.width, m.height);
    var q0 := Utility.Shuffled(tiles, m.seed);
    TileCoordsLength(m.width, m.height);
    TileCoordsDistinct(m.width, m.height);
    TileCoordsCells(m.width, m.height);
    Utility.ShuffleFromPermutes(tiles, m.seed, 0);
    Utility.ShuffleFromDistinct(tiles, m.seed, 0);
    forall c | c in q0 ensures InBounds(m.width, m.height, c) {
      assert c in multiset(q0);
    }
  }

  /**
   * What the placement loop keeps after i attempts: the obstacles lie on the map, never on the
   * centre, and at most one per attempt. When the target fits the map (the draws are then distinct),
   * also: the counter is the number of obstacles, each came from one of the first i draws, the map
   * is fully connected, and the open list is the coordinate list without the obstacles.
   */
  ghost predicate Placement(m: MapSpec, tiles: seq<Coord>, q0: seq<Coord>, i: nat,
                            obstacles: set<Coord>, count: int, open: seq<Coord>)
  {
    obstacles <= AllCells(m.width, m.height) && MapCenter(m) !in obstacles && |obstacles| <= i &&
    (ObstacleTarget(m) <= m.width * m.height ==>
      i <= |q0| && count == |obstacles| && obstacles <= Elems(q0[..i]) &&
      FullyConnected(m.width, m.height, obstacles, MapCenter(m)) && open == Without(tiles, obstacles))
  }

  lemma PlacementStart(m: MapSpec, tiles: seq<Coord>, q0: seq<Coord>)
    requires TileQueue(m, tiles, q0)
    ensures Placement(m, tiles, q0, 0, {}, 0, tiles)
  {
    WithoutNone(tiles);
    AllCellsMembers(m.width, m.height);
    if m.width > 0 && m.height > 0 {
      EmptyGridConnected(m.width, m.height, MapCenter(m));
    }
  }

  /** The drawn coordinate: on the map, and when the target fits the map it is q0[i], not drawn before. */
  lemma PlacementDraw(m: MapSpec, tiles: seq<Coord>, q0: seq<Coord>, i: nat, c: Coord)
    requires TileQueue(m, tiles, q0)
    requires RotateN(q0, i) != [] && c == RotateN(q0, i)[0]
    requires i < Attempts(m)
    ensures InBounds(m.width, m.height, c)
    ensures ObstacleTarget(m) <= m.width * m.height ==> i < |q0| && c == q0[i] && c !in Elems(q0[..i])
  {
    RotateNPermutes(q0, i);
    assert c in multiset(q0);
    if ObstacleTarget(m) <= m.width * m.height {
      RotateNSplit(q0, i);
      assert c == q0[i];
      assert forall k :: 0 <= k < i ==> q0[..i][k] != q0[i];
    }
  }

  /** A kept obstacle keeps the invariant. */
  lemma PlacementKeep(m: MapSpec, tiles: seq<Coord>, q0: seq<Coord>, i: nat, obstacles: set<Coord>, count: int,
                      open: seq<Coord>, c: Coord)
    requires TileQueue(m, tiles, q0) && Placement(m, tiles, q0, i, obstacles, count, open)
    requires InBounds(m.width, m.height, c) && c != MapCenter(m)
    requires ObstacleTarget(m) <= m.width * m.height ==> i < |q0| && c == q0[i] && c !in Elems(q0[..i])
    requires |ReachableSet(m.width, m.height, obstacles + {c}, MapCenter(m))| == m.width * m.height - (count + 1)
    ensures Placement(m, tiles, q0, i + 1, obstacles + {c}, count + 1, RemoveFirst(open, c))
  {
    var W, H, center := m.width, m.height, MapCenter(m);
    AllCellsMembers(W, H);
    if ObstacleTarget(m) <= W * H {
      assert q0[..i + 1] == q0[..i] + [q0[i]];
      assert Elems(q0[..i + 1]) == Elems(q0[..i]) + {c};
      assert c !in obstacles;
      assert |obstacles + {c}| == count + 1;
      assert InBounds(W, H, center) by {
        ObstacleTargetBounds(m);
      }
      ConnectedIffCount(W, H, obstacles + {c}, center);
      TileCoordsDistinct(W, H);
      RemoveFirstWithout(tiles, obstacles, c);
    }
  }

  /** A rolled-back attempt keeps the invariant. */
  lemma PlacementRollback(m: MapSpec, tiles: seq<Coord>, q0: seq<Coord>, i: nat, obstacles: set<Coord>, count: int,
                          open: seq<Coord>, c: Coord)
    requires Placement(m, tiles, q0, i, obstacles, count, open)
    requires ObstacleTarget(m) <= m.width * m.height ==> i < |q0| && c == q0[i] && c !in Elems(q0[..i])
    ensures Placement(m, tiles, q0, i + 1, obstacles - {c}, count, open)
  {
    if ObstacleTarget(m) <= m.width * m.height {
      assert q0[..i + 1] == q0[..i] + [q0[i]];
      assert obstacles - {c} == obstacles;
    } else {
      assert |obstacles - {c}| <= |obstacles|;
    }
  }

  /**
   * What GenerateMap leaves behind for the map m: the coordinate list in column order, the tile
   * queue rotated once per attempt, the obstacles on the map, off the centre and at most one per
   * attempt; and when the obstacle percentage is at most 1, a fully connected map whose open-tile
   * queue is the seeded shuffle of the coordinate list without the obstacles.
   */
  ghost predicate GeneratedMap(m: MapSpec, tiles: seq<Coord>, queue: seq<Coord>, obstacles: set<Coord>, openQueue: seq<Coord>)
  {
    tiles == TileCoords(m.width, m.height) &&
    queue == RotateN(Utility.Shuffled(tiles, m.seed), Attempts(m)) &&
    obstacles <= AllCells(m.width, m.height) && MapCenter(m) !in obstacles && |obstacles| <= Attempts(m) &&
    (m.obstaclePercent <= 1.0 ==>
      FullyConnected(m.width, m.height, obstacles, MapCenter(m)) &&
      openQueue == Utility.Shuffled(Without(tiles, obstacles), m.seed))
  }

  /** The placement invariant after all attempts gives GeneratedMap. */
  lemma GeneratedMapHolds(m: MapSpec, tiles: seq<Coord>, q0: seq<Coord>, queue: seq<Coord>, obstacles: set<Coord>,
                          count: int, open: seq<Coord>, openQueue: seq<Coord>)
    requires tiles == TileCoords(m.width, m.height) && q0 == Utility.Shuffled(tiles, m.seed)
    requires queue == RotateN(q0, Attempts(m)) && openQueue == Utility.Shuffled(open, m.seed)
    requires Placement(m, tiles, q0, Attempts(m), obstacles, count, open)
    ensures GeneratedMap(m, tiles, queue, obstacles, openQueue)
  {
    ObstacleTargetBounds(m);
  }

  /** The flood fill's queue discipline: queued cells are visited, visited cells are queued or done, done cells are closed. */
  ghost predicate Frontier(W: nat, H: nat, B: set<Coord>, queue: seq<Coord>, visited: set<Coord>, done: set<Coord>, dequeues: nat)
  {
    (forall c :: c in queue ==> c in visited) &&
    (forall c :: c in visited ==> c in done || c in queue) &&
    (forall c :: c in done ==> Closed(W, H, B, visited, c)) &&
    dequeues + |queue| == |visited|
  }

  /** Progress of the neighbour scan of a tile whose dequeue left `rest` and the visited set `visited0`. */
  ghost predicate Scanning(visited0: set<Coord>, rest: seq<Coord>, dequeues: nat, queue: seq<Coord>, visited: set<Coord>)
  {
    visited0 <= visited && dequeues + |queue| == |visited| &&
    |rest| <= |queue| && queue[..|rest|] == rest &&
    (forall c :: c in queue ==> c in visited) &&
    (forall c :: c in visited ==> c in visited0 || c in queue)
  }

  /** Every open 4-neighbour of tile at an offset before (x, y) in the scan order is visited. */
  ghost predicate Processed(W: nat, H: nat, B: set<Coord>, tile: Coord, visited: set<Coord>, x: int, y: int)
  {
    forall n ::
      (Adjacent(tile, n) && (n.x - tile.x < x || (n.x - tile.x == x && n.y - tile.y < y)) && Open(W, H, B, n))
        ==> n in visited
  }

  lemma ProcessedNextColumn(W: nat, H: nat, B: set<Coord>, tile: Coord, visited: set<Coord>, x: int)
    requires Processed(W, H, B, tile, visited, x, 2)
    ensures Processed(W, H, B, tile, visited, x + 1, -1)
  {
  }

  lemma ProcessedAllClosed(W: nat, H: nat, B: set<Coord>, tile: Coord, visited: set<Coord>)
    requires Processed(W, H, B, tile, visited, 2, -1)
    ensures Closed(W, H, B, visited, tile)
  {
  }

  /** Dequeuing tile and scanning all its neighbours keeps the queue discipline, with tile now done. */
  lemma FrontierStep(W: nat, H: nat, B: set<Coord>, tile: Coord, rest: seq<Coord>, visited0: set<Coord>, done: set<Coord>,
                     dequeues: nat, queue: seq<Coord>, visited: set<Coord>)
    requires Frontier(W, H, B, [tile] + rest, visited0, done, dequeues)
    requires Scanning(visited0, rest, dequeues + 1, queue, visited)
    requires Closed(W, H, B, visited, tile)
    ensures Frontier(W, H, B, queue, visited, done + {tile}, dequeues + 1)
  {
    forall c | c in rest ensures c in queue {
      var k :| 0 <= k < |rest| && rest[k] == c;
      assert queue[k] == c;
    }
    forall c | c in visited ensures c in done + {tile} || c in queue {
      if c in visited0 && c !in done && c != tile {
        assert c in [tile] + rest;
        assert c in rest;
      }
    }
    ClosedGrows(W, H, B, done, visited0, visited);
  }

  /** Queuing the newly found neighbour n at offset (x, y) advances the scan. */
  lemma ScanAdd(W: nat, H: nat, B: set<Coord>, tile: Coord, x: int, y: int, visited0: set<Coord>, rest: seq<Coord>,
                dequeues: nat, queue: seq<Coord>, visited: set<Coord>, n: Coord)
    requires n == Coord(tile.x + x, tile.y + y) && n !in visited
    requires Scanning(visited0, rest, dequeues, queue, visited)
    requires Processed(W, H, B, tile, visited, x, y)
    ensures Scanning(visited0, rest, dequeues, queue + [n], visited + {n})
    ensures Processed(W, H, B, tile, visited + {n}, x, y + 1)
  {
    assert (queue + [n])[..|rest|] == queue[..|rest|];
  }

  /** Skipping offset (x, y) advances the scan when that neighbour is not an open 4-neighbour or is visited. */
  lemma ScanSkip(W: nat, H: nat, B: set<Coord>, tile: Coord, x: int, y: int, visited: set<Coord>)
    requires Processed(W, H, B, tile, visited, x, y)
    requires Adjacent(tile, Coord(tile.x + x, tile.y + y)) && Open(W, H, B, Coord(tile.x + x, tile.y + y))
      ==> Coord(tile.x + x, tile.y + y) in visited
    ensures Processed(W, H, B, tile, visited, x, y + 1)
  {
  }

  /**
   * The innermost branch of the flood fill for the offset (x, y) from tile: flag and queue the
   * neighbour when it is not a diagonal, lies on the map, is not flagged and is not an obstacle.
   */
  method VisitNeighbour(obstacleMap: array2<bool>, mapFlags: array2<bool>, tile: Coord, x: int, y: int,
                        queue: seq<Coord>, count: int, ghost center: Coord, ghost visited0: set<Coord>,
                        ghost rest: seq<Coord>, ghost dequeues: nat,
                        ghost visited: set<Coord>, ghost paths: map<Coord, seq<Coord>>)
    returns (queue': seq<Coord>, count': int, ghost visited': set<Coord>, ghost paths': map<Coord, seq<Coord>>)
    requires -1 <= x <= 1 && -1 <= y <= 1 && mapFlags != obstacleMap
    requires FloodState(obstacleMap.Length0, obstacleMap.Length1, Blocked(obstacleMap), center, mapFlags, visited, paths)
    requires tile in visited0 && count == |visited|
    requires Scanning(visited0, rest, dequeues, queue, visited)
    requires Processed(obstacleMap.Length0, obstacleMap.Length1, Blocked(obstacleMap), tile, visited, x, y)
    modifies mapFlags
    ensures FloodState(obstacleMap.Length0, obstacleMap.Length1, Blocked(obstacleMap), center, mapFlags, visited', paths')
    ensures count' == |visited'|
    ensures Scanning(visited0, rest, dequeues, queue', visited')
    ensures Processed(obstacleMap.Length0, obstacleMap.Length1, Blocked(obstacleMap), tile, visited', x, y + 1)
    ensures (queue' == queue && visited' == visited) ||
      (Coord(tile.x + x, tile.y + y) !in visited && queue' == queue + [Coord(tile.x + x, tile.y + y)] &&
       visited' == visited + {Coord(tile.x + x, tile.y + y)})
  {
    var W, H := obstacleMap.Length0, obstacleMap.Length1;
    ghost var B := Blocked(obstacleMap);
    AllCellsAt(W, H, tile);
    queue', count', visited', paths' := queue, count, visited, paths;
    var neighbourX := tile.x + x;
    var neighbourY := tile.y + y;
    if x == 0 || y == 0 {
      if neighbourX >= 0 && neighbourX < W && neighbourY >= 0 && neighbourY < H {
        BlockedAt(obstacleMap, neighbourX, neighbourY);
        AllCellsAt(W, H, Coord(neighbourX, neighbourY));
        if !mapFlags[neighbourX, neighbourY] && !obstacleMap[neighbourX, neighbourY] {
          var n := Coord(neighbourX, neighbourY);
          PathExtend(W, H, B, paths[tile], center, tile, n);
          mapFlags[neighbourX, neighbourY] := true;
          queue' := queue + [n];
          count' := count + 1;
          visited' := visited + {n};
          paths' := paths[n := paths[tile] + [n]];
          ScanAdd(W, H, B, tile, x, y, visited0, rest, dequeues, queue, visited, n);
          return;
        }
      }
    }
    ScanSkip(W, H, B, tile, x, y, visited);
  }

  lemma ClosedGrows(w: int, h: int, blocked: set<Coord>, D: set<Coord>, V: set<Coord>, V': set<Coord>)
    requires V <= V'
    requires forall c :: c in D ==> Closed(w, h, blocked, V, c)
    ensures forall c :: c in D ==> Closed(w, h, blocked, V', c)
  {
  }

  /** new Queue<Coord>(Utility.ShuffleArray(list.ToArray(), seed)): the front of the queue is index 0. */
  method ShuffledQueue(list: seq<Coord>, seed: int) returns (queue: seq<Coord>)
    ensures queue == Utility.Shuffled(list, seed)
  {
    var a := new Coord[|list|](k requires 0 <= k < |list| => list[k]);
    assert a[..] == list;
    var shuffled := Utility.ShuffleArray(a, seed);
    queue := shuffled[..];
  }

  class MapGenerator {
    /** The Map being generated (maps[mapIndex] in the source). */
    var currentMap: MapSpec
    var allTileCoords: seq<Coord>
    /** Queue<Coord>: the front is index 0. */
    var shuffledTileCoords: seq<Coord>
    var shuffledOpenTileCoords: seq<Coord>
    /** The cells GenerateMap instantiated an obstacle on. */
    ghost var placedObstacles: set<Coord>

    constructor ()
      ensures allTileCoords == [] && shuffledTileCoords == [] && shuffledOpenTileCoords == []
      ensures placedObstacles == {}
    {
      currentMap := MapSpec(0, 0, 0.0, 0);
      allTileCoords, shuffledTileCoords, shuffledOpenTileCoords := [], [], [];
      placedObstacles := {};
    }

    function CurrentQueues(): Queues
      reads this
    {
      Queues(shuffledTileCoords, shuffledOpenTileCoords)
    }

    /** Pop the front coordinate and requeue it at the back; None where C# would throw on an empty queue. */
    method GetRandomCoord() returns (r: Option<Coord>)
      modifies this`shuffledTileCoords
      ensures old(shuffledTileCoords) == [] ==> r == None && shuffledTileCoords == []
      ensures old(shuffledTileCoords) != [] ==>
        r == Some(old(shuffledTileCoords)[0]) && shuffledTileCoords == Rotate(old(shuffledTileCoords))
    {
      if shuffledTileCoords == [] {
        return None;
      }
      var randomCoord := shuffledTileCoords[0];
      shuffledTileCoords := shuffledTileCoords[1..];
      shuffledTileCoords := shuffledTileCoords + [randomCoord];
      r := Some(randomCoord);
    }

    /**
     * As written: pops the open-tile queue but requeues onto shuffledTileCoords. The tile
     * returned is the one at the popped coordinate.
     */
    method GetRandomOpenTile() returns (r: Option<Coord>)
      modifies this`shuffledTileCoords, this`shuffledOpenTileCoords
      ensures old(shuffledOpenTileCoords) == [] ==> r == None
      ensures old(shuffledOpenTileCoords) != [] ==> r == Some(old(shuffledOpenTileCoords)[0])
      ensures CurrentQueues() == OpenDrawAsWritten(old(CurrentQueues()))
    {
      if shuffledOpenTileCoords == [] {
        return None;
      }
      var randomCoord := shuffledOpenTileCoords[0];
      shuffledOpenTileCoords := shuffledOpenTileCoords[1..];
      shuffledTileCoords := shuffledTileCoords + [randomCoord];
      r := Some(randomCoord);
    }

    /** The intended GetRandomOpenTile: the open queue rotates and the full queue is untouched. */
    method GetRandomOpenTileRequeued() returns (r: Option<Coord>)
      modifies this`shuffledOpenTileCoords
      ensures old(shuffledOpenTileCoords) == [] ==> r == None
      ensures old(shuffledOpenTileCoords) != [] ==> r == Some(old(shuffledOpenTileCoords)[0])
      ensures CurrentQueues() == OpenDrawRequeued(old(CurrentQueues()))
    {
      if shuffledOpenTileCoords == [] {
        return None;
      }
      var randomCoord := shuffledOpenTileCoords[0];
      shuffledOpenTileCoords := shuffledOpenTileCoords[1..];
      shuffledOpenTileCoords := shuffledOpenTileCoords + [randomCoord];
      r := Some(randomCoord);
    }

    /**
     * Flood fill from the centre over 4-neighbours; true iff the number of cells reached
     * (the centre included) equals width * height - currentObstacleCount.
     */
    method MapIsFullyAccessible(obstacleMap: array2<bool>, currentObstacleCount: int) returns (accessible: bool, ghost dequeues: nat)
      requires InBounds(obstacleMap.Length0, obstacleMap.Length1, MapCenter(currentMap))
      ensures accessible <==>
        |ReachableSet(obstacleMap.Length0, obstacleMap.Length1, Blocked(obstacleMap), MapCenter(currentMap))|
          == currentMap.width * currentMap.height - currentObstacleCount
      ensures dequeues <= obstacleMap.Length0 * obstacleMap.Length1
    {
      var W, H := obstacleMap.Length0, obstacleMap.Length1;
      var center := MapCenter(currentMap);
      ghost var B := Blocked(obstacleMap);
      AllCellsMembers(W, H);
      AllCellsCard(W, H);
      var mapFlags := new bool[W, H]((i, j) => false);
      var queue := [center];
      mapFlags[center.x, center.y] := true;
      var accessibleTileCount := 1;
      ghost var visited := {center};
      ghost var done: set<Coord> := {};
      ghost var paths := map[center := [center]];
      dequeues := 0;
      while |queue| > 0
        invariant B == Blocked(obstacleMap)
        invariant FloodState(W, H, B, center, mapFlags, visited, paths)
        invariant accessibleTileCount == |visited|
        invariant Frontier(W, H, B, queue, visited, done, dequeues)
        decreases W * H - |visited|, |queue|
      {
        ghost var visited0 := visited;
        ghost var dequeues0 := dequeues;
        var tile := queue[0];
        assert queue == [tile] + queue[1..];
        queue := queue[1..];
        ghost var rest := queue;
        dequeues := dequeues + 1;
        for x := -1 to 2
          invariant B == Blocked(obstacleMap)
          invariant FloodState(W, H, B, center, mapFlags, visited, paths)
          invariant accessibleTileCount == |visited|
          invariant Scanning(visited0, rest, dequeues, queue, visited)
          invariant Processed(W, H, B, tile, visited, x, -1)
        {
          for y := -1 to 2
            invariant B == Blocked(obstacleMap)
            invariant FloodState(W, H, B, center, mapFlags, visited, paths)
            invariant accessibleTileCount == |visited|
            invariant Scanning(visited0, rest, dequeues, queue, visited)
            invariant Processed(W, H, B, tile, visited, x, y)
          {
            queue, accessibleTileCount, visited, paths := VisitNeighbour(obstacleMap, mapFlags, tile, x, y,
              queue, accessibleTileCount, center, visited0, rest, dequeues, visited, paths);
          }
          ProcessedNextColumn(W, H, B, tile, visited, x);
        }
        ProcessedAllClosed(W, H, B, tile, visited);
        FrontierStep(W, H, B, tile, rest, visited0, done, dequeues0, queue, visited);
        done := done + {tile};
        SubsetCard(visited, AllCells(W, H));
        SubsetCard(visited0, visited);
      }
      assert forall c :: c in visited ==> Closed(W, H, B, visited, c);
      ClosedWitnessedIsReachable(W, H, B, center, visited, paths);
      SubsetCard(visited, AllCells(W, H));
      var targetAccessibleTileCount := currentMap.width * currentMap.height - currentObstacleCount;
      accessible := targetAccessibleTileCount == accessibleTileCount;
    }

    /**
     * One iteration of the placement loop after the draw: set the cell, count it, and keep it
     * only if it is not the centre and the map stays fully accessible; otherwise roll back.
     */
    method TryPlaceObstacle(obstacleMap: array2<bool>, randomCoord: Coord, currentObstacleCount: int, ghost obstacles: set<Coord>)
      returns (kept: bool, newCount: int)
      requires InBounds(obstacleMap.Length0, obstacleMap.Length1, randomCoord)
      requires InBounds(obstacleMap.Length0, obstacleMap.Length1, MapCenter(currentMap))
      requires Blocked(obstacleMap) == obstacles
      modifies obstacleMap
      ensures kept <==>
        (randomCoord != MapCenter(currentMap) &&
         |ReachableSet(obstacleMap.Length0, obstacleMap.Length1, obstacles + {randomCoord}, MapCenter(currentMap))|
           == currentMap.width * currentMap.height - (currentObstacleCount + 1))
      ensures Blocked(obstacleMap) == if kept then obstacles + {randomCoord} else obstacles - {randomCoord}
      ensures newCount == if kept then currentObstacleCount + 1 else currentObstacleCount
      ensures obstacleMap[randomCoord.x, randomCoord.y] == kept
      ensures forall x, y ::
        (0 <= x < obstacleMap.Length0 && 0 <= y < obstacleMap.Length1 && (x != randomCoord.x || y != randomCoord.y))
          ==> obstacleMap[x, y] == old(obstacleMap[x, y])
    {
      BlockedMembers(obstacleMap);
      AllCellsMembers(obstacleMap.Length0, obstacleMap.Length1);
      obstacleMap[randomCoord.x, randomCoord.y] := true;
      newCount := currentObstacleCount + 1;
      BlockedIs(obstacleMap, obstacles + {randomCoord});
      kept := false;
      if CoordNotEquals(randomCoord, MapCenter(currentMap)) {
        ghost var dequeues;
        kept, dequeues := MapIsFullyAccessible(obstacleMap, newCount);
      }
      if !kept {
        obstacleMap[randomCoord.x, randomCoord.y] := false;
        newCount := newCount - 1;
        BlockedIs(obstacleMap, obstacles - {randomCoord});
      }
    }

    /** The first block of GenerateMap: every coordinate, column by column. */
    method GenerateTileCoords()
      modifies this`allTileCoords
      ensures allTileCoords == TileCoords(currentMap.width, currentMap.height)
    {
      allTileCoords := [];
      for x := 0 to currentMap.width
        invariant allTileCoords == TileCoords(x, currentMap.height)
      {
        for y := 0 to currentMap.height
          invariant allTileCoords == TileCoords(x, currentMap.height) + Column(x, y)
        {
          assert Column(x, y) + [Coord(x, y)] == Column(x, y + 1);
          allTileCoords := allTileCoords + [Coord(x, y)];
        }
      }
    }

    /** One pass of the obstacle loop: draw, place tentatively, keep or roll back. */
    method SpawnObstacle(obstacleMap: array2<bool>, ghost q0: seq<Coord>, ghost i: nat, currentObstacleCount: int,
                         allOpenCoords: seq<Coord>, ghost obstacles: set<Coord>)
      returns (count': int, allOpenCoords': seq<Coord>, ghost obstacles': set<Coord>)
      requires obstacleMap.Length0 == currentMap.width && obstacleMap.Length1 == currentMap.height
      requires TileQueue(currentMap, allTileCoords, q0) && i < Attempts(currentMap)
      requires shuffledTileCoords == RotateN(q0, i) && Blocked(obstacleMap) == obstacles
      requires Placement(currentMap, allTileCoords, q0, i, obstacles, currentObstacleCount, allOpenCoords)
      modifies this`shuffledTileCoords, obstacleMap
      ensures shuffledTileCoords == RotateN(q0, i + 1) && Blocked(obstacleMap) == obstacles'
      ensures Placement(currentMap, allTileCoords, q0, i + 1, obstacles', count', allOpenCoords')
    {
      RotateNPermutes(q0, i);
      var d := GetRandomCoord();
      var randomCoord := d.value;
      PlacementDraw(currentMap, allTileCoords, q0, i, randomCoord);
      var kept;
      kept, count' := TryPlaceObstacle(obstacleMap, randomCoord, currentObstacleCount, obstacles);
      if kept {
        PlacementKeep(currentMap, allTileCoords, q0, i, obstacles, currentObstacleCount, allOpenCoords, randomCoord);
        allOpenCoords' := RemoveFirst(allOpenCoords, randomCoord);
        obstacles' := obstacles + {randomCoord};
      } else {
        PlacementRollback(currentMap, allTileCoords, q0, i, obstacles, currentObstacleCount, allOpenCoords, randomCoord);
        allOpenCoords' := allOpenCoords;
        obstacles' := obstacles - {randomCoord};
      }
      RotateNSucc(q0, i);
    }

    /**
     * The obstacle loop of GenerateMap: ObstacleTarget draws from the rotating queue, each placed
     * tentatively and kept or rolled back; returns the open coordinates left.
     */
    method SpawnObstacles(obstacleMap: array2<bool>, ghost q0: seq<Coord>) returns (allOpenCoords: seq<Coord>, ghost obstacles: set<Coord>, ghost count: int)
      requires obstacleMap.Length0 == currentMap.width && obstacleMap.Length1 == currentMap.height
      requires Blocked(obstacleMap) == {}
      requires TileQueue(currentMap, allTileCoords, q0) && shuffledTileCoords == q0
      modifies this`shuffledTileCoords, obstacleMap
      ensures shuffledTileCoords == RotateN(q0, Attempts(currentMap))
      ensures Blocked(obstacleMap) == obstacles
      ensures Placement(currentMap, allTileCoords, q0, Attempts(currentMap), obstacles, count, allOpenCoords)
    {
      PlacementStart(currentMap, allTileCoords, q0);
      var obstacleCount := ObstacleTarget(currentMap);
      var currentObstacleCount := 0;
      allOpenCoords := allTileCoords;
      obstacles := {};
      var i := 0;
      while i < obstacleCount
        invariant 0 <= i <= Attempts(currentMap)
        invariant shuffledTileCoords == RotateN(q0, i)
        invariant Blocked(obstacleMap) == obstacles
        invariant Placement(currentMap, allTileCoords, q0, i, obstacles, currentObstacleCount, allOpenCoords)
      {
        currentObstacleCount, allOpenCoords, obstacles :=
          SpawnObstacle(obstacleMap, q0, i, currentObstacleCount, allOpenCoords, obstacles);
        i := i + 1;
      }
      count := currentObstacleCount;
    }

    /**
     * The logic of GenerateMap: build the coordinates, shuffle them into the rotating queue,
     * place obstacles with rollback, and shuffle the remaining open coordinates into the
     * open-tile queue.
     */
    method GenerateMap(m: MapSpec)
      modifies this
      ensures currentMap == m
      ensures GeneratedMap(m, allTileCoords, shuffledTileCoords, placedObstacles, shuffledOpenTileCoords)
    {
      currentMap := m;

      // Generating coordinates
      GenerateTileCoords();
      var tiles := allTileCoords;
      shuffledTileCoords := ShuffledQueue(tiles, m.seed);
      ghost var q0 := shuffledTileCoords;
      ShuffledTileQueue(m);

      // Spawning obstacles
      var obstacleMap := new bool[m.width, m.height]((i, j) => false);
      var allOpenCoords;
      ghost var obstacles, count;
      allOpenCoords, obstacles, count := SpawnObstacles(obstacleMap, q0);

      // The shuffled queue of open tiles
      shuffledOpenTileCoords := ShuffledQueue(allOpenCoords, m.seed);
      placedObstacles := obstacles;
      GeneratedMapHolds(m, allTileCoords, q0, shuffledTileCoords, placedObstacles, count, allOpenCoords, shuffledOpenTileCoords);
    }
  }
}

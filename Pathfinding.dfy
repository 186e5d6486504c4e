/**
 * Pathfinding.cs: the breadth-first flood fill that computes a unit's movement
 * range and the A* search for a shortest path between two tiles. Both work on
 * the `Board` view of the grid; a tile is named by its position.
 */
module Pathfinding {

  import opened Wrappers
  import opened Lists
  import opened Grid

  /** Pathfinding.Heuristic: the Manhattan distance between two tiles. */
  function Heuristic(a: Pos, b: Pos): (h: nat)
    ensures h == 0 <==> a == b
  {
    Manhattan(a, b)
  }

  /**
   * The heuristic never overestimates: every walk needs at least as many steps
   * as the heuristic says (which, with the triangle inequality, is what lets A*
   * stop at the first time it picks the goal).
   */
  lemma HeuristicIsAdmissible(b: Board, start: Pos, w: seq<Pos>)
    requires IsWalk(b, start, w)
    ensures Heuristic(start, Last(w)) <= |w| - 1
  {
    WalkDistanceBound(b, start, w, 0, |w| - 1);
  }

  /** A walk of at least one and at most `range` steps from `start` that ends on `v`. */
  ghost predicate ReachableWithin(b: Board, start: Pos, v: Pos, range: int)
  {
    exists w :: IsWalk(b, start, w) && 2 <= |w| <= range + 1 && Last(w) == v
  }

  /** Tiles the flood fill expands: the start tile, and every tile nobody stands on. */
  predicate Expandable(b: Board, start: Pos, p: Pos)
  {
    p == start || p !in b.occupied
  }

  // ---------------------------------------------------------------------------
  // GetTilesInRange
  // ---------------------------------------------------------------------------

  /**
   * What the `distances` dictionary of the flood fill holds: the start at 0, and
   * every other recorded tile one step further than the expandable tile it was
   * discovered from (`parent`, a ghost record of that tile), never beyond `range`.
   */
  ghost predicate Discovered(b: Board, start: Pos, range: int, dist: map<Pos, int>, parent: map<Pos, Pos>)
  {
    && start in dist && dist[start] == 0
    && (forall v :: v in dist && v != start ==> v in b.cells && 1 <= dist[v] <= range && v in parent)
    && (forall v {:trigger parent[v]} :: v in parent && v in dist && v != start ==>
          && parent[v] in dist && dist[v] == dist[parent[v]] + 1
          && Adjacent(parent[v], v) && Expandable(b, start, parent[v]))
  }

  /** The walk back along `parent` from v to the start, read forwards. */
  ghost function WalkTo(b: Board, start: Pos, range: int, dist: map<Pos, int>, parent: map<Pos, Pos>, v: Pos): seq<Pos>
    requires Discovered(b, start, range, dist, parent) && v in dist
    decreases dist[v]
  {
    if v == start then [start] else WalkTo(b, start, range, dist, parent, parent[v]) + [v]
  }

  /** The parent walk to v has dist[v] steps, is a walk, and passes only through expandable tiles. */
  lemma {:induction false} WalkToShape(b: Board, start: Pos, range: int, dist: map<Pos, int>, parent: map<Pos, Pos>, v: Pos)
    requires Discovered(b, start, range, dist, parent) && v in dist
    ensures var w := WalkTo(b, start, range, dist, parent, v);
      && |w| == dist[v] + 1 && w[0] == start && Last(w) == v
      && (forall i :: 1 <= i < |w| ==> Adjacent(w[i - 1], w[i]) && w[i] in b.cells)
      && (forall i :: 1 <= i < |w| - 1 ==> w[i] !in b.occupied)
    decreases dist[v]
  {
    if v != start {
      var p := parent[v];
      WalkToShape(b, start, range, dist, parent, p);
      var wp := WalkTo(b, start, range, dist, parent, p);
      assert p != start ==> p !in b.occupied;
      assert p != start ==> dist[p] >= 1;
      assert WalkTo(b, start, range, dist, parent, v) == wp + [v];
    }
  }

  /** Every recorded tile other than the start and nobody's tile is reachable within range. */
  lemma DiscoveredIsReachable(b: Board, start: Pos, range: int, dist: map<Pos, int>, parent: map<Pos, Pos>, v: Pos)
    requires Discovered(b, start, range, dist, parent) && v in dist
    requires v != start && v !in b.occupied
    ensures ReachableWithin(b, start, v, range)
  {
    WalkToShape(b, start, range, dist, parent, v);
    var w := WalkTo(b, start, range, dist, parent, v);
    assert IsWalk(b, start, w) && 2 <= |w| <= range + 1 && Last(w) == v;
  }

  /**
   * The state of the flood fill between two dequeues. `processed` are the tiles
   * already dequeued and `level` the distance of the last one; the queue holds
   * tiles of distance `level` or `level + 1` in non-decreasing order, which is
   * what makes the first recorded distance of a tile the shortest one.
   */
  ghost predicate FloodInv(b: Board, start: Pos, range: int, dist: map<Pos, int>, parent: map<Pos, Pos>,
                           queue: seq<Pos>, processed: set<Pos>, level: int, tiles: seq<Pos>)
  {
    && Discovered(b, start, range, dist, parent)
    && 0 <= level
    && (forall i :: 0 <= i < |queue| ==> queue[i] in dist && Expandable(b, start, queue[i]) && queue[i] !in processed)
    && NoDuplicates(queue)
    && (forall i :: 0 <= i < |queue| ==> level <= dist[queue[i]] <= level + 1)
    && (forall i, j :: 0 <= i < j < |queue| ==> dist[queue[i]] <= dist[queue[j]])
    && (forall v :: v in dist ==> dist[v] <= level + 1)
    && (forall v :: v in processed ==> v in dist && dist[v] <= level)
    && (forall v :: v in dist && Expandable(b, start, v) ==> v in processed || v in queue)
    && (forall u :: u in processed ==> Closed(b, range, dist, u))
    && (forall v :: v in tiles <==> v in dist && v != start && v !in b.occupied)
    && NoDuplicates(tiles)
  }

  /** A dequeued tile below the range has had all its neighbours recorded, at most one step further. */
  ghost predicate Closed(b: Board, range: int, dist: map<Pos, int>, u: Pos)
    requires u in dist
  {
    dist[u] < range ==> forall nb :: nb in b.cells && Adjacent(u, nb) ==> nb in dist && dist[nb] <= dist[u] + 1
  }

  /**
   * Once the queue is empty, every tile on a walk of at most `range` steps has
   * been recorded, no further than its index along the walk.
   */
  lemma {:induction false} FloodCovers(b: Board, start: Pos, range: int, dist: map<Pos, int>, parent: map<Pos, Pos>,
                                       processed: set<Pos>, level: int, tiles: seq<Pos>, w: seq<Pos>, i: nat)
    requires FloodInv(b, start, range, dist, parent, [], processed, level, tiles)
    requires IsWalk(b, start, w) && |w| <= range + 1 && i < |w|
    ensures w[i] in dist && dist[w[i]] <= i
  {
    if i > 0 {
      FloodCovers(b, start, range, dist, parent, processed, level, tiles, w, i - 1);
      assert Expandable(b, start, w[i - 1]);
      assert w[i - 1] in processed;
      assert Closed(b, range, dist, w[i - 1]);
    }
  }

  /**
   * The flood fill while it expands `current`: as FloodInv, except that
   * `current` has left the queue but is not yet processed.
   */
  ghost predicate Expanding(b: Board, start: Pos, range: int, dist: map<Pos, int>, parent: map<Pos, Pos>,
                            queue: seq<Pos>, processed: set<Pos>, level: int, tiles: seq<Pos>, current: Pos)
  {
    && Discovered(b, start, range, dist, parent)
    && 0 <= level
    && current in dist && dist[current] == level && Expandable(b, start, current) && current !in processed
    && current !in queue
    && (forall i :: 0 <= i < |queue| ==> queue[i] in dist && Expandable(b, start, queue[i]) && queue[i] !in processed)
    && NoDuplicates(queue)
    && (forall i :: 0 <= i < |queue| ==> level <= dist[queue[i]] <= level + 1)
    && (forall i, j :: 0 <= i < j < |queue| ==> dist[queue[i]] <= dist[queue[j]])
    && (forall v :: v in dist ==> dist[v] <= level + 1)
    && (forall v :: v in processed ==> v in dist && dist[v] <= level)
    && (forall v :: v in dist && Expandable(b, start, v) ==> v in processed || v in queue || v == current)
    && (forall u :: u in processed ==> Closed(b, range, dist, u))
    && (forall v :: v in tiles <==> v in dist && v != start && v !in b.occupied)
    && NoDuplicates(tiles)
  }

  /** Dequeuing the head of the queue starts its expansion at its own distance. */
  lemma Dequeue(b: Board, start: Pos, range: int, dist: map<Pos, int>, parent: map<Pos, Pos>,
                queue: seq<Pos>, processed: set<Pos>, level: int, tiles: seq<Pos>)
    requires FloodInv(b, start, range, dist, parent, queue, processed, level, tiles) && |queue| > 0
    ensures Expanding(b, start, range, dist, parent, queue[1..], processed, dist[queue[0]], tiles, queue[0])
  {
    var q := queue[1..];
    assert forall i :: 0 <= i < |q| ==> q[i] == queue[i + 1];
    forall v | v in dist && Expandable(b, start, v)
      ensures v in processed || v in q || v == queue[0]
    {
      if v !in processed && v != queue[0] {
        var i :| 0 <= i < |queue| && queue[i] == v;
        assert q[i - 1] == v;
      }
    }
  }

  /** Recording an unseen neighbour nobody stands on: one step further than `current`, queued and listed. */
  lemma RecordFree(b: Board, start: Pos, range: int, dist: map<Pos, int>, parent: map<Pos, Pos>,
                   queue: seq<Pos>, processed: set<Pos>, level: int, tiles: seq<Pos>, current: Pos, nb: Pos)
    requires Expanding(b, start, range, dist, parent, queue, processed, level, tiles, current)
    requires level < range && nb !in dist && nb in b.cells && Adjacent(current, nb) && nb !in b.occupied
    ensures Expanding(b, start, range, dist[nb := level + 1], parent[nb := current], queue + [nb], processed, level, tiles + [nb], current)
  {
    RecordKeepsDistances(b, start, range, dist, parent, processed, level, current, nb);
    assert nb !in queue && nb != start && nb != current && nb !in processed && nb !in tiles;
    Enqueue(b, start, dist, queue, processed, level, nb);
    AppendDistinct(tiles, nb);
  }

  /** Appending a tile of distance level + 1 keeps the queue ordered and free of repeats. */
  lemma Enqueue(b: Board, start: Pos, dist: map<Pos, int>, queue: seq<Pos>, processed: set<Pos>, level: int, nb: Pos)
    requires forall i :: 0 <= i < |queue| ==> queue[i] in dist && Expandable(b, start, queue[i]) && queue[i] !in processed
    requires NoDuplicates(queue)
    requires forall i :: 0 <= i < |queue| ==> level <= dist[queue[i]] <= level + 1
    requires forall i, j :: 0 <= i < j < |queue| ==> dist[queue[i]] <= dist[queue[j]]
    requires nb !in dist && nb !in queue && nb !in processed && nb !in b.occupied
    ensures var d', q' := dist[nb := level + 1], queue + [nb];
      && (forall i :: 0 <= i < |q'| ==> q'[i] in d' && Expandable(b, start, q'[i]) && q'[i] !in processed)
      && NoDuplicates(q')
      && (forall i :: 0 <= i < |q'| ==> level <= d'[q'[i]] <= level + 1)
      && (forall i, j :: 0 <= i < j < |q'| ==> d'[q'[i]] <= d'[q'[j]])
  {
    var q' := queue + [nb];
    assert forall i :: 0 <= i < |queue| ==> q'[i] == queue[i];
  }


  /** Recording an occupied neighbour: it gets a distance but is neither queued nor listed. */
  lemma RecordOccupied(b: Board, start: Pos, range: int, dist: map<Pos, int>, parent: map<Pos, Pos>,
                       queue: seq<Pos>, processed: set<Pos>, level: int, tiles: seq<Pos>, current: Pos, nb: Pos)
    requires Expanding(b, start, range, dist, parent, queue, processed, level, tiles, current)
    requires level < range && nb !in dist && nb in b.cells && Adjacent(current, nb) && nb in b.occupied
    ensures Expanding(b, start, range, dist[nb := level + 1], parent[nb := current], queue, processed, level, tiles, current)
  {
    RecordKeepsDistances(b, start, range, dist, parent, processed, level, current, nb);
    assert nb != start;
  }

  /** The part of Record about the distances alone: the start, the parents and the dequeued tiles stay as they were. */
  lemma RecordKeepsDistances(b: Board, start: Pos, range: int, dist: map<Pos, int>, parent: map<Pos, Pos>,
                             processed: set<Pos>, level: int, current: Pos, nb: Pos)
    requires Discovered(b, start, range, dist, parent)
    requires current in dist && dist[current] == level && Expandable(b, start, current)
    requires forall v :: v in processed ==> v in dist
    requires forall u :: u in processed ==> Closed(b, range, dist, u)
    requires level < range && nb !in dist && nb in b.cells && Adjacent(current, nb)
    ensures Discovered(b, start, range, dist[nb := level + 1], parent[nb := current])
    ensures forall u :: u in processed ==> Closed(b, range, dist[nb := level + 1], u)
  {
    var dist' := dist[nb := level + 1];
    forall u | u in processed
      ensures Closed(b, range, dist', u)
    {
      assert Closed(b, range, dist, u);
    }
  }

  /** After all neighbours of `current` are recorded, it joins the processed tiles. */
  lemma Processed(b: Board, start: Pos, range: int, dist: map<Pos, int>, parent: map<Pos, Pos>,
                  queue: seq<Pos>, processed: set<Pos>, level: int, tiles: seq<Pos>, current: Pos)
    requires Expanding(b, start, range, dist, parent, queue, processed, level, tiles, current)
    requires Closed(b, range, dist, current)
    ensures FloodInv(b, start, range, dist, parent, queue, processed + {current}, level, tiles)
  {
  }

  /** When the queue runs empty, the recorded unoccupied tiles are exactly those reachable within range. */
  lemma FloodResult(b: Board, start: Pos, range: int, dist: map<Pos, int>, parent: map<Pos, Pos>,
                    processed: set<Pos>, level: int, tiles: seq<Pos>)
    requires FloodInv(b, start, range, dist, parent, [], processed, level, tiles)
    ensures forall v :: v in tiles ==> ReachableWithin(b, start, v, range)
    ensures forall v :: ReachableWithin(b, start, v, range) && v != start ==> v in tiles
  {
    forall v | v in tiles
      ensures ReachableWithin(b, start, v, range)
    {
      DiscoveredIsReachable(b, start, range, dist, parent, v);
    }
    forall v | ReachableWithin(b, start, v, range) && v != start
      ensures v in tiles
    {
      var w :| IsWalk(b, start, w) && 2 <= |w| <= range + 1 && Last(w) == v;
      FloodCovers(b, start, range, dist, parent, processed, level, tiles, w, |w| - 1);
    }
  }

  /**
   * The termination measure of the flood fill: `unseen` are the tiles without
   * a recorded distance. Each dequeue shrinks the queue, and each enqueue
   * first records a tile, so |unseen| + |queue| only goes down.
   */
  ghost predicate Unseen(b: Board, dist: map<Pos, int>, unseen: set<Pos>)
  {
    forall v :: v in unseen <==> v in b.cells && v !in dist
  }

  /**
   * The progress of the foreach over the neighbours of `current` after its
   * first k neighbours: those are all recorded at most one step further, and
   * the measure has not grown since `unseen0`, `queue0`.
   */
  ghost predicate Scanned(b: Board, level: int, unseen0: set<Pos>, queue0: seq<Pos>, neighbors: seq<Pos>, k: int,
                          dist: map<Pos, int>, queue: seq<Pos>, unseen: set<Pos>)
  {
    && Unseen(b, dist, unseen)
    && 0 <= k <= |neighbors|
    && (forall m :: 0 <= m < k ==> neighbors[m] in dist && dist[neighbors[m]] <= level + 1)
    && |unseen| + |queue| <= |unseen0| + |queue0|
  }

  /**
   * One pass of the foreach of GetTilesInRange, for the neighbour
   * `neighbors[k]` of `current`: when it has no distance yet it is recorded one
   * step further, and queued and listed when nobody stands on it.
   */
  method RecordNeighbor(b: Board, start: Pos, range: int, current: Pos, currentDist: int,
                        neighbors: seq<Pos>, k: int, ghost unseen0: set<Pos>, ghost queue0: seq<Pos>,
                        distances: map<Pos, int>, queue: seq<Pos>, tiles: seq<Pos>,
                        ghost parent: map<Pos, Pos>, ghost processed: set<Pos>, ghost unseen: set<Pos>)
    returns (distances': map<Pos, int>, queue': seq<Pos>, tiles': seq<Pos>, ghost parent': map<Pos, Pos>, ghost unseen': set<Pos>)
    requires Expanding(b, start, range, distances, parent, queue, processed, currentDist, tiles, current)
    requires Scanned(b, currentDist, unseen0, queue0, neighbors, k, distances, queue, unseen) && k < |neighbors|
    requires currentDist < range && neighbors[k] in b.cells && Adjacent(current, neighbors[k])
    ensures Expanding(b, start, range, distances', parent', queue', processed, currentDist, tiles', current)
    ensures Scanned(b, currentDist, unseen0, queue0, neighbors, k + 1, distances', queue', unseen')
    ensures neighbors[k] in distances ==> distances' == distances && queue' == queue && tiles' == tiles
    ensures neighbors[k] !in distances ==> distances' == distances[neighbors[k] := currentDist + 1]
    ensures neighbors[k] !in distances && neighbors[k] !in b.occupied ==>
      queue' == queue + [neighbors[k]] && tiles' == tiles + [neighbors[k]]
    ensures neighbors[k] !in distances && neighbors[k] in b.occupied ==> queue' == queue && tiles' == tiles
  {
    distances', queue', tiles', parent', unseen' := distances, queue, tiles, parent, unseen;
    var neighbor := neighbors[k];
    if neighbor !in distances {
      if neighbor !in b.occupied {
        RecordFree(b, start, range, distances, parent, queue, processed, currentDist, tiles, current, neighbor);
        queue' := queue + [neighbor];
        tiles' := tiles + [neighbor];
      } else {
        RecordOccupied(b, start, range, distances, parent, queue, processed, currentDist, tiles, current, neighbor);
      }
      distances' := distances[neighbor := currentDist + 1];
      parent' := parent[neighbor := current];
      unseen' := unseen - {neighbor};
    }
  }

  /** The foreach of GetTilesInRange over the neighbours of `current`. */
  method RecordNeighbors(b: Board, start: Pos, range: int, current: Pos, currentDist: int,
                         distances: map<Pos, int>, queue: seq<Pos>, tiles: seq<Pos>,
                         ghost parent: map<Pos, Pos>, ghost processed: set<Pos>, ghost unseen: set<Pos>)
    returns (distances': map<Pos, int>, queue': seq<Pos>, tiles': seq<Pos>, ghost parent': map<Pos, Pos>, ghost unseen': set<Pos>)
    requires Expanding(b, start, range, distances, parent, queue, processed, currentDist, tiles, current)
    requires currentDist < range && Unseen(b, distances, unseen)
    ensures Expanding(b, start, range, distances', parent', queue', processed, currentDist, tiles', current)
    ensures Closed(b, range, distances', current)
    ensures Unseen(b, distances', unseen')
    ensures |unseen'| + |queue'| <= |unseen| + |queue|
  {
    distances', queue', tiles', parent', unseen' := distances, queue, tiles, parent, unseen;
    var neighbors := Neighbors(b, current);
    for k := 0 to |neighbors|
      invariant Expanding(b, start, range, distances', parent', queue', processed, currentDist, tiles', current)
      invariant Scanned(b, currentDist, unseen, queue, neighbors, k, distances', queue', unseen')
    {
      assert neighbors[k] in neighbors;
      distances', queue', tiles', parent', unseen' :=
        RecordNeighbor(b, start, range, current, currentDist, neighbors, k, unseen, queue,
                       distances', queue', tiles', parent', processed, unseen');
    }
    assert Closed(b, range, distances', current) by {
      forall nb | nb in b.cells && Adjacent(current, nb)
        ensures nb in distances' && distances'[nb] <= currentDist + 1
      {
        assert nb in neighbors;
      }
    }
  }

  /**
   * Pathfinding.GetTilesInRange: the unoccupied tiles other than the start that a
   * unit standing on `start` can reach in 1..range steps through unoccupied
   * tiles, each listed once. The start tile itself may be occupied (by the
   * moving unit); occupied tiles end a walk but are never part of the result.
   */
  method GetTilesInRange(b: Board, start: Pos, range: int) returns (tilesInRange: seq<Pos>)
    ensures NoDuplicates(tilesInRange)
    ensures forall v :: v in tilesInRange ==> v != start && Passable(b, v)
    ensures forall v :: v in tilesInRange ==> ReachableWithin(b, start, v, range)
    ensures forall v :: ReachableWithin(b, start, v, range) && v != start ==> v in tilesInRange
    ensures range <= 0 ==> tilesInRange == []
  {
    tilesInRange := [];
    var queue := [start];
    var distances := map[start := 0];
    ghost var parent: map<Pos, Pos> := map[];
    ghost var processed: set<Pos> := {};
    ghost var level := 0;
    ghost var unseen := b.cells - {start};

    while |queue| > 0
      invariant FloodInv(b, start, range, distances, parent, queue, processed, level, tilesInRange)
      invariant Unseen(b, distances, unseen)
      invariant range <= 0 ==> tilesInRange == []
      decreases |unseen| + |queue|
    {
      Dequeue(b, start, range, distances, parent, queue, processed, level, tilesInRange);
      var current := queue[0];
      queue := queue[1..];
      var currentDist := distances[current];
      level := currentDist;
      if currentDist < range {
        distances, queue, tilesInRange, parent, unseen :=
          RecordNeighbors(b, start, range, current, currentDist, distances, queue, tilesInRange, parent, processed, unseen);
      }
      Processed(b, start, range, distances, parent, queue, processed, level, tilesInRange, current);
      processed := processed + {current};
    }

    FloodResult(b, start, range, distances, parent, processed, level, tilesInRange);
  }

  // ---------------------------------------------------------------------------
  // FindPath
  // ---------------------------------------------------------------------------

  /** Some walk leads from s to t. */
  ghost predicate Connected(b: Board, s: Pos, t: Pos)
  {
    exists w :: IsWalk(b, s, w) && Last(w) == t
  }

  /** p is a walk from s to t and no walk from s to t is shorter. */
  ghost predicate ShortestWalk(b: Board, s: Pos, t: Pos, p: seq<Pos>)
  {
    && IsWalk(b, s, p) && Last(p) == t
    && forall w :: IsWalk(b, s, w) && Last(w) == t ==> |p| <= |w|
  }

  /** The sort key of the open set: the f-score, or int.MaxValue for a tile without one. */
  function FKey(fScore: map<Pos, int>, t: Pos): int
  {
    if t in fScore then fScore[t] else MaxInt
  }

  /**
   * openSet.OrderBy(key).First(): the first open tile with the lowest key
   * (OrderBy is a stable sort, so ties go to the earliest tile).
   */
  method LowestFScore(openSet: seq<Pos>, fScore: map<Pos, int>) returns (k: nat)
    requires |openSet| > 0
    ensures k < |openSet|
    ensures forall j :: 0 <= j < |openSet| ==> FKey(fScore, openSet[k]) <= FKey(fScore, openSet[j])
    ensures forall j :: 0 <= j < k ==> FKey(fScore, openSet[k]) < FKey(fScore, openSet[j])
  {
    k := 0;
    for i := 1 to |openSet|
      invariant k < i
      invariant forall j :: 0 <= j < i ==> FKey(fScore, openSet[k]) <= FKey(fScore, openSet[j])
      invariant forall j :: 0 <= j < k ==> FKey(fScore, openSet[k]) < FKey(fScore, openSet[j])
    {
      if FKey(fScore, openSet[i]) < FKey(fScore, openSet[k]) {
        k := i;
      }
    }
  }

  /** A back-pointer map whose every step goes one g-score down, so following it terminates. */
  ghost predicate Chained(cameFrom: map<Pos, Pos>, gScore: map<Pos, int>)
  {
    && (forall n :: n in gScore ==> 0 <= gScore[n])
    && (forall n {:trigger cameFrom[n]} :: n in cameFrom ==>
          n in gScore && cameFrom[n] in gScore && gScore[n] == gScore[cameFrom[n]] + 1)
  }

  /**
   * Pathfinding.ReconstructPath: follows `cameFrom` back from `current` to a
   * tile without a predecessor, then reverses, so the path runs forwards and
   * every tile is the recorded predecessor of the next.
   */
  method ReconstructPath(cameFrom: map<Pos, Pos>, current: Pos, ghost gScore: map<Pos, int>) returns (path: seq<Pos>)
    requires Chained(cameFrom, gScore) && current in gScore
    ensures |path| >= 1 && Last(path) == current
    ensures path[0] in gScore && path[0] !in cameFrom
    ensures forall i :: 1 <= i < |path| ==> path[i] in cameFrom && cameFrom[path[i]] == path[i - 1]
    ensures |path| == gScore[current] - gScore[path[0]] + 1
  {
    var node := current;
    var back := [current];
    while node in cameFrom
      invariant node in gScore && |back| >= 1 && back[0] == current && Last(back) == node
      invariant forall i :: 0 <= i < |back| - 1 ==> back[i] in cameFrom && cameFrom[back[i]] == back[i + 1]
      invariant |back| == gScore[current] - gScore[node] + 1
      decreases gScore[node]
    {
      node := cameFrom[node];
      back := back + [node];
    }
    path := Reversed(back);
    forall i | 1 <= i < |path|
      ensures path[i] in cameFrom && cameFrom[path[i]] == path[i - 1]
    {
      assert path[i] == back[|back| - 1 - i] && path[i - 1] == back[|back| - 1 - i + 1];
    }
  }

  /** The scores of the search: open and closed partition the scored tiles, and f = g + h. */
  ghost predicate Scores(b: Board, s: Pos, goal: Pos, openSet: seq<Pos>, closedSet: set<Pos>,
                         gScore: map<Pos, int>, fScore: map<Pos, int>)
  {
    && NoDuplicates(openSet)
    && (forall n :: n in openSet ==> n !in closedSet)
    && (forall n :: n in gScore <==> n in openSet || n in closedSet)
    && (forall n :: n in gScore ==>
          n in fScore && fScore[n] == gScore[n] + Heuristic(n, goal) && 0 <= gScore[n] && (n == s || n in b.cells))
  }

  /**
   * The search tree: every scored tile but the start came from a closed tile one
   * step away and one g-score lower, and is a tile a unit may step onto.
   */
  ghost predicate Tree(b: Board, s: Pos, closedSet: set<Pos>, cameFrom: map<Pos, Pos>, gScore: map<Pos, int>)
  {
    && s in gScore && gScore[s] == 0 && s !in cameFrom
    && (forall n :: n in gScore && n != s ==> n in cameFrom)
    && (forall n {:trigger cameFrom[n]} :: n in cameFrom ==>
          && n in gScore && n != s && Passable(b, n)
          && cameFrom[n] in closedSet && cameFrom[n] in gScore
          && Adjacent(cameFrom[n], n) && gScore[n] == gScore[cameFrom[n]] + 1)
  }

  /** A tile u next to the closed tile p is closed, blocked, or open with a g-score at most one above p's. */
  ghost predicate Handled(b: Board, openSet: seq<Pos>, closedSet: set<Pos>, gScore: map<Pos, int>, p: Pos, u: Pos)
    requires p in gScore
  {
    Passable(b, u) && u !in closedSet ==> u in openSet && u in gScore && gScore[u] <= gScore[p] + 1
  }

  /** Every tile next to the closed tile p is handled. */
  ghost predicate Frontier(b: Board, openSet: seq<Pos>, closedSet: set<Pos>, gScore: map<Pos, int>, p: Pos)
  {
    p in gScore && forall u :: Adjacent(p, u) ==> Handled(b, openSet, closedSet, gScore, p, u)
  }

  /** Closed tiles carry their true distance from the start: no walk to one is shorter than its g-score. */
  ghost predicate Settled(b: Board, s: Pos, closedSet: set<Pos>, gScore: map<Pos, int>)
  {
    forall w :: IsWalk(b, s, w) && Last(w) in closedSet ==> Last(w) in gScore && gScore[Last(w)] <= |w| - 1
  }

  /** The state of FindPath at the head of its while loop. */
  ghost predicate SearchInv(b: Board, s: Pos, goal: Pos, openSet: seq<Pos>, closedSet: set<Pos>,
                            cameFrom: map<Pos, Pos>, gScore: map<Pos, int>, fScore: map<Pos, int>)
  {
    && Scores(b, s, goal, openSet, closedSet, gScore, fScore)
    && Tree(b, s, closedSet, cameFrom, gScore)
    && (forall p :: p in closedSet ==> Frontier(b, openSet, closedSet, gScore, p))
    && Settled(b, s, closedSet, gScore)
    && goal !in closedSet && goal !in b.occupied
    && (s in closedSet || (closedSet == {} && openSet == [s]))
  }

  /** The state of FindPath while it relaxes the neighbours of the just-closed `current`. */
  ghost predicate Relaxing(b: Board, s: Pos, goal: Pos, openSet: seq<Pos>, closedSet: set<Pos>,
                           cameFrom: map<Pos, Pos>, gScore: map<Pos, int>, fScore: map<Pos, int>, current: Pos)
  {
    && Scores(b, s, goal, openSet, closedSet, gScore, fScore)
    && Tree(b, s, closedSet, cameFrom, gScore)
    && (forall p :: p in closedSet && p != current ==> Frontier(b, openSet, closedSet, gScore, p))
    && Settled(b, s, closedSet, gScore)
    && goal !in closedSet && goal !in b.occupied
    && s in closedSet && current in closedSet
  }

  /** The first tile of a walk that lies outside S. */
  ghost function FirstOutside(w: seq<Pos>, S: set<Pos>): (i: nat)
    requires |w| >= 1 && Last(w) !in S
    ensures i < |w| && w[i] !in S
    ensures forall j :: 0 <= j < i ==> w[j] in S
  {
    if w[0] !in S then 0 else 1 + FirstOutside(w[1..], S)
  }

  /**
   * The open tile with the lowest f-score is settled: with a consistent
   * heuristic, any walk to it must leave the closed set through an open tile
   * whose f-score is no lower, so no walk to it is shorter than its g-score.
   */
  lemma PopIsOptimal(b: Board, s: Pos, goal: Pos, openSet: seq<Pos>, closedSet: set<Pos>,
                     cameFrom: map<Pos, Pos>, gScore: map<Pos, int>, fScore: map<Pos, int>, current: Pos, w: seq<Pos>)
    requires Settled(b, s, closedSet, gScore)
    requires forall p :: p in closedSet ==> Frontier(b, openSet, closedSet, gScore, p)
    requires s in closedSet || (closedSet == {} && openSet == [s])
    requires s in gScore && gScore[s] == 0
    requires forall n :: n in openSet ==> n in gScore && n in fScore && fScore[n] == gScore[n] + Heuristic(n, goal)
    requires forall n :: n in openSet ==> n !in closedSet
    requires current in openSet
    requires forall n :: n in openSet ==> FKey(fScore, current) <= FKey(fScore, n)
    requires IsWalk(b, s, w) && Last(w) == current
    ensures current in gScore && gScore[current] <= |w| - 1
  {
    var i := FirstOutside(w, closedSet);
    if i > 0 {
      var p, u := w[i - 1], w[i];
      WalkPrefix(b, s, w, i);
      assert Last(w[..i]) == p;
      assert Frontier(b, openSet, closedSet, gScore, p);
      assert Handled(b, openSet, closedSet, gScore, p, u);
      WalkDistanceBound(b, s, w, i, |w| - 1);
      ManhattanIsMetric(u, current, goal);
      assert FKey(fScore, current) <= FKey(fScore, u);
    }
  }

  /** Every open tile at the minimum f-score is settled. */
  lemma PopIsSettled(b: Board, s: Pos, goal: Pos, openSet: seq<Pos>, closedSet: set<Pos>,
                     cameFrom: map<Pos, Pos>, gScore: map<Pos, int>, fScore: map<Pos, int>, current: Pos)
    requires SearchInv(b, s, goal, openSet, closedSet, cameFrom, gScore, fScore)
    requires current in openSet
    requires forall n :: n in openSet ==> FKey(fScore, current) <= FKey(fScore, n)
    ensures Settled(b, s, closedSet + {current}, gScore)
  {
    forall w | IsWalk(b, s, w) && Last(w) in closedSet + {current}
      ensures Last(w) in gScore && gScore[Last(w)] <= |w| - 1
    {
      if Last(w) == current {
        PopIsOptimal(b, s, goal, openSet, closedSet, cameFrom, gScore, fScore, current, w);
      }
    }
  }

  /** Moving the chosen tile from the open set to the closed set starts its relaxation. */
  lemma Close(b: Board, s: Pos, goal: Pos, openSet: seq<Pos>, closedSet: set<Pos>,
              cameFrom: map<Pos, Pos>, gScore: map<Pos, int>, fScore: map<Pos, int>, current: Pos)
    requires SearchInv(b, s, goal, openSet, closedSet, cameFrom, gScore, fScore)
    requires current in openSet && current != goal
    requires forall n :: n in openSet ==> FKey(fScore, current) <= FKey(fScore, n)
    ensures Relaxing(b, s, goal, Remove(openSet, current), closedSet + {current}, cameFrom, gScore, fScore, current)
  {
    PopIsSettled(b, s, goal, openSet, closedSet, cameFrom, gScore, fScore, current);
    CloseScores(b, s, goal, openSet, closedSet, gScore, fScore, current);
    CloseFrontier(b, openSet, closedSet, gScore, current);
  }

  /** Moving an open tile to the closed set keeps the scores partitioned. */
  lemma CloseScores(b: Board, s: Pos, goal: Pos, openSet: seq<Pos>, closedSet: set<Pos>,
                    gScore: map<Pos, int>, fScore: map<Pos, int>, current: Pos)
    requires Scores(b, s, goal, openSet, closedSet, gScore, fScore) && current in openSet
    ensures Scores(b, s, goal, Remove(openSet, current), closedSet + {current}, gScore, fScore)
  {
    RemoveFromDistinct(openSet, current);
  }

  /** Closing `current` leaves every other closed tile's neighbours handled. */
  lemma CloseFrontier(b: Board, openSet: seq<Pos>, closedSet: set<Pos>, gScore: map<Pos, int>, current: Pos)
    requires NoDuplicates(openSet)
    requires forall p :: p in closedSet ==> Frontier(b, openSet, closedSet, gScore, p)
    ensures var open', closed' := Remove(openSet, current), closedSet + {current};
      forall p :: p in closed' && p != current ==> Frontier(b, open', closed', gScore, p)
  {
    RemoveFromDistinct(openSet, current);
    var open', closed' := Remove(openSet, current), closedSet + {current};
    forall p | p in closed' && p != current
      ensures Frontier(b, open', closed', gScore, p)
    {
      assert Frontier(b, openSet, closedSet, gScore, p);
      forall u | Adjacent(p, u)
        ensures Handled(b, open', closed', gScore, p, u)
      {
        assert Handled(b, openSet, closedSet, gScore, p, u);
      }
    }
  }

  /** The neighbours of `current` before index k are handled. */
  ghost predicate HandledUpTo(b: Board, openSet: seq<Pos>, closedSet: set<Pos>, gScore: map<Pos, int>,
                              current: Pos, neighbors: seq<Pos>, k: int)
  {
    && current in gScore && 0 <= k <= |neighbors|
    && forall m :: 0 <= m < k ==> Handled(b, openSet, closedSet, gScore, current, neighbors[m])
  }

  /** Growing the open set and lowering g-scores keeps handled tiles handled. */
  lemma HandledGrows(b: Board, openSet: seq<Pos>, closedSet: set<Pos>, gScore: map<Pos, int>,
                     openSet': seq<Pos>, gScore': map<Pos, int>, current: Pos, neighbors: seq<Pos>, k: int)
    requires HandledUpTo(b, openSet, closedSet, gScore, current, neighbors, k)
    requires current in gScore' && gScore'[current] == gScore[current]
    requires forall u :: u in openSet ==> u in openSet'
    requires forall u :: u in gScore ==> u in gScore' && gScore'[u] <= gScore[u]
    ensures HandledUpTo(b, openSet', closedSet, gScore', current, neighbors, k)
  {
    forall m | 0 <= m < k
      ensures Handled(b, openSet', closedSet, gScore', current, neighbors[m])
    {
      assert Handled(b, openSet, closedSet, gScore, current, neighbors[m]);
    }
  }

  /**
   * The four parts of one relaxation of FindPath's foreach: `nb`, a tile a
   * unit may step onto next to the closed tile `current`, was new (and is
   * appended to the open set) or is open and reached more cheaply; it gets
   * g-score t = g(current) + 1 and comes from `current`.
   */
  ghost predicate Relaxable(b: Board, openSet: seq<Pos>, openSet': seq<Pos>, closedSet: set<Pos>,
                            gScore: map<Pos, int>, current: Pos, nb: Pos)
  {
    && current in closedSet && current in gScore
    && nb !in closedSet && Passable(b, nb) && Adjacent(current, nb)
    && ((nb !in openSet && openSet' == openSet + [nb]) ||
        (nb in openSet && openSet' == openSet && nb in gScore && gScore[current] + 1 < gScore[nb]))
  }

  lemma ScoresRelax(b: Board, s: Pos, goal: Pos, openSet: seq<Pos>, openSet': seq<Pos>, closedSet: set<Pos>,
                    gScore: map<Pos, int>, fScore: map<Pos, int>, current: Pos, nb: Pos)
    requires Scores(b, s, goal, openSet, closedSet, gScore, fScore)
    requires Relaxable(b, openSet, openSet', closedSet, gScore, current, nb)
    ensures var t := gScore[current] + 1;
      Scores(b, s, goal, openSet', closedSet, gScore[nb := t], fScore[nb := t + Heuristic(nb, goal)])
  {
    if nb !in openSet {
      assert forall i :: 0 <= i < |openSet| ==> openSet'[i] == openSet[i];
    }
  }

  lemma TreeRelax(b: Board, s: Pos, closedSet: set<Pos>, cameFrom: map<Pos, Pos>, gScore: map<Pos, int>,
                  current: Pos, nb: Pos)
    requires Tree(b, s, closedSet, cameFrom, gScore)
    requires s in closedSet && current in closedSet && current in gScore
    requires nb !in closedSet && Passable(b, nb) && Adjacent(current, nb)
    ensures Tree(b, s, closedSet, cameFrom[nb := current], gScore[nb := gScore[current] + 1])
  {
  }

  lemma FrontierRelax(b: Board, openSet: seq<Pos>, openSet': seq<Pos>, closedSet: set<Pos>,
                      gScore: map<Pos, int>, current: Pos, nb: Pos)
    requires forall n :: n in gScore <==> n in openSet || n in closedSet
    requires forall p :: p in closedSet && p != current ==> Frontier(b, openSet, closedSet, gScore, p)
    requires Relaxable(b, openSet, openSet', closedSet, gScore, current, nb)
    ensures var g' := gScore[nb := gScore[current] + 1];
      forall p :: p in closedSet && p != current ==> Frontier(b, openSet', closedSet, g', p)
  {
    var g' := gScore[nb := gScore[current] + 1];
    forall p | p in closedSet && p != current
      ensures Frontier(b, openSet', closedSet, g', p)
    {
      assert Frontier(b, openSet, closedSet, gScore, p);
      forall u | Adjacent(p, u)
        ensures Handled(b, openSet', closedSet, g', p, u)
      {
        assert Handled(b, openSet, closedSet, gScore, p, u);
      }
    }
  }

  lemma SettledRelax(b: Board, s: Pos, closedSet: set<Pos>, gScore: map<Pos, int>, nb: Pos, t: int)
    requires Settled(b, s, closedSet, gScore) && nb !in closedSet
    ensures Settled(b, s, closedSet, gScore[nb := t])
  {
  }

  /** One relaxation of FindPath's foreach keeps its invariant. */
  lemma Relax(b: Board, s: Pos, goal: Pos, openSet: seq<Pos>, openSet': seq<Pos>, closedSet: set<Pos>,
              cameFrom: map<Pos, Pos>, gScore: map<Pos, int>, fScore: map<Pos, int>, current: Pos, nb: Pos)
    requires Relaxing(b, s, goal, openSet, closedSet, cameFrom, gScore, fScore, current)
    requires Relaxable(b, openSet, openSet', closedSet, gScore, current, nb)
    ensures var t := gScore[current] + 1;
      Relaxing(b, s, goal, openSet', closedSet, cameFrom[nb := current], gScore[nb := t],
               fScore[nb := t + Heuristic(nb, goal)], current)
  {
    var t := gScore[current] + 1;
    ScoresRelax(b, s, goal, openSet, openSet', closedSet, gScore, fScore, current, nb);
    TreeRelax(b, s, closedSet, cameFrom, gScore, current, nb);
    FrontierRelax(b, openSet, openSet', closedSet, gScore, current, nb);
    SettledRelax(b, s, closedSet, gScore, nb, t);
  }

  /** After a relaxation the neighbours up to and including the relaxed one are handled. */
  lemma RelaxHandles(b: Board, openSet: seq<Pos>, openSet': seq<Pos>, closedSet: set<Pos>,
                     gScore: map<Pos, int>, current: Pos, neighbors: seq<Pos>, k: int)
    requires forall n :: n in gScore ==> n in openSet || n in closedSet
    requires HandledUpTo(b, openSet, closedSet, gScore, current, neighbors, k) && k < |neighbors|
    requires Relaxable(b, openSet, openSet', closedSet, gScore, current, neighbors[k])
    ensures HandledUpTo(b, openSet', closedSet, gScore[neighbors[k] := gScore[current] + 1], current, neighbors, k + 1)
  {
    var nb := neighbors[k];
    var g' := gScore[nb := gScore[current] + 1];
    assert forall u :: u in gScore ==> u in g' && g'[u] <= gScore[u];
    HandledGrows(b, openSet, closedSet, gScore, openSet', g', current, neighbors, k);
  }

  /** A neighbour that is skipped (blocked, closed, or not reached more cheaply) is handled already. */
  lemma Skip(b: Board, openSet: seq<Pos>, closedSet: set<Pos>, gScore: map<Pos, int>,
             current: Pos, neighbors: seq<Pos>, k: int)
    requires HandledUpTo(b, openSet, closedSet, gScore, current, neighbors, k) && k < |neighbors|
    requires Handled(b, openSet, closedSet, gScore, current, neighbors[k])
    ensures HandledUpTo(b, openSet, closedSet, gScore, current, neighbors, k + 1)
  {
  }

  /** With all its neighbours handled, the closed tile `current` restores the loop invariant. */
  lemma Relaxed(b: Board, s: Pos, goal: Pos, openSet: seq<Pos>, closedSet: set<Pos>,
                cameFrom: map<Pos, Pos>, gScore: map<Pos, int>, fScore: map<Pos, int>, current: Pos)
    requires Relaxing(b, s, goal, openSet, closedSet, cameFrom, gScore, fScore, current)
    requires var neighbors := Neighbors(b, current);
      HandledUpTo(b, openSet, closedSet, gScore, current, neighbors, |neighbors|)
    ensures SearchInv(b, s, goal, openSet, closedSet, cameFrom, gScore, fScore)
  {
    var neighbors := Neighbors(b, current);
    forall u | Adjacent(current, u)
      ensures Handled(b, openSet, closedSet, gScore, current, u)
    {
      if u in b.cells {
        assert u in neighbors;
        var m :| 0 <= m < |neighbors| && neighbors[m] == u;
      }
    }
  }

  /** Following cameFrom back from a scored tile yields a walk from the start. */
  lemma BackPathIsWalk(b: Board, s: Pos, closedSet: set<Pos>, cameFrom: map<Pos, Pos>, gScore: map<Pos, int>, path: seq<Pos>)
    requires Tree(b, s, closedSet, cameFrom, gScore)
    requires |path| >= 1 && path[0] in gScore && path[0] !in cameFrom
    requires forall i :: 1 <= i < |path| ==> path[i] in cameFrom && cameFrom[path[i]] == path[i - 1]
    ensures IsWalk(b, s, path) && gScore[path[0]] == 0
  {
  }

  /** When the open set runs empty, every walk from the start stays inside the closed set. */
  lemma {:induction false} WalkStaysClosed(b: Board, s: Pos, goal: Pos, closedSet: set<Pos>,
                                           cameFrom: map<Pos, Pos>, gScore: map<Pos, int>, fScore: map<Pos, int>,
                                           w: seq<Pos>, i: nat)
    requires SearchInv(b, s, goal, [], closedSet, cameFrom, gScore, fScore)
    requires IsWalk(b, s, w) && i < |w|
    ensures w[i] in closedSet
  {
    if i > 0 {
      WalkStaysClosed(b, s, goal, closedSet, cameFrom, gScore, fScore, w, i - 1);
      assert Frontier(b, [], closedSet, gScore, w[i - 1]);
      assert Handled(b, [], closedSet, gScore, w[i - 1], w[i]);
    }
  }

  /** So when the open set runs empty the goal, never closed, cannot be reached. */
  lemma Exhausted(b: Board, s: Pos, goal: Pos, closedSet: set<Pos>,
                  cameFrom: map<Pos, Pos>, gScore: map<Pos, int>, fScore: map<Pos, int>)
    requires SearchInv(b, s, goal, [], closedSet, cameFrom, gScore, fScore)
    ensures forall w :: IsWalk(b, s, w) ==> Last(w) != goal
  {
    forall w | IsWalk(b, s, w)
      ensures Last(w) != goal
    {
      WalkStaysClosed(b, s, goal, closedSet, cameFrom, gScore, fScore, w, |w| - 1);
    }
  }

  /** When the goal is the open tile of lowest f-score, the path back along cameFrom is a shortest walk to it. */
  lemma GoalPathIsShortest(b: Board, s: Pos, goal: Pos, openSet: seq<Pos>, closedSet: set<Pos>,
                           cameFrom: map<Pos, Pos>, gScore: map<Pos, int>, fScore: map<Pos, int>, path: seq<Pos>)
    requires SearchInv(b, s, goal, openSet, closedSet, cameFrom, gScore, fScore)
    requires goal in openSet
    requires forall n :: n in openSet ==> FKey(fScore, goal) <= FKey(fScore, n)
    requires |path| >= 1 && Last(path) == goal && path[0] in gScore && path[0] !in cameFrom
    requires forall i :: 1 <= i < |path| ==> path[i] in cameFrom && cameFrom[path[i]] == path[i - 1]
    requires |path| == gScore[goal] - gScore[path[0]] + 1
    ensures ShortestWalk(b, s, goal, path)
  {
    BackPathIsWalk(b, s, closedSet, cameFrom, gScore, path);
    forall w | IsWalk(b, s, w) && Last(w) == goal
      ensures |path| <= |w|
    {
      PopIsOptimal(b, s, goal, openSet, closedSet, cameFrom, gScore, fScore, goal, w);
    }
  }

  /** The tiles the search has not closed yet: the termination measure of FindPath. */
  ghost predicate Unvisited(b: Board, s: Pos, closedSet: set<Pos>, unvisited: set<Pos>)
  {
    forall v :: v in unvisited <==> (v == s || v in b.cells) && v !in closedSet
  }

  /**
   * One pass of the foreach of FindPath, for the neighbour `neighbors[j]` of
   * the just-closed `current`: a blocked tile other than the goal and a closed
   * tile are skipped; a tile seen for the first time is opened, and an open
   * one not reached more cheaply through `current` is skipped; otherwise the
   * tile now comes from `current` with g-score g(current) + 1.
   */
  method RelaxNeighbor(b: Board, s: Pos, t: Pos, current: Pos, neighbors: seq<Pos>, j: int,
                       openSet: seq<Pos>, closedSet: set<Pos>,
                       cameFrom: map<Pos, Pos>, gScore: map<Pos, int>, fScore: map<Pos, int>)
    returns (openSet': seq<Pos>, cameFrom': map<Pos, Pos>, gScore': map<Pos, int>, fScore': map<Pos, int>)
    requires Relaxing(b, s, t, openSet, closedSet, cameFrom, gScore, fScore, current)
    requires HandledUpTo(b, openSet, closedSet, gScore, current, neighbors, j) && j < |neighbors|
    requires neighbors[j] in b.cells && Adjacent(current, neighbors[j])
    ensures Relaxing(b, s, t, openSet', closedSet, cameFrom', gScore', fScore', current)
    ensures HandledUpTo(b, openSet', closedSet, gScore', current, neighbors, j + 1)
  {
    openSet', cameFrom', gScore', fScore' := openSet, cameFrom, gScore, fScore;
    var neighbor := neighbors[j];
    if neighbor in b.occupied && neighbor != t {
      Skip(b, openSet, closedSet, gScore, current, neighbors, j);
      return;
    }
    if neighbor in closedSet {
      Skip(b, openSet, closedSet, gScore, current, neighbors, j);
      return;
    }
    var tentativeGScore := gScore[current] + 1;
    if neighbor !in openSet {
      openSet' := openSet + [neighbor];
    } else if tentativeGScore >= (if neighbor in gScore then gScore[neighbor] else MaxInt) {
      Skip(b, openSet, closedSet, gScore, current, neighbors, j);
      return;
    }
    cameFrom', gScore', fScore' := Improve(b, s, t, current, neighbors, j, openSet, openSet', closedSet, cameFrom, gScore, fScore);
  }

  /**
   * The relaxing case of RelaxNeighbor: `neighbors[j]` now comes from
   * `current`, with g-score g(current) + 1 and the f-score that adds the
   * heuristic.
   */
  method Improve(b: Board, s: Pos, t: Pos, current: Pos, neighbors: seq<Pos>, j: int,
                 openSet: seq<Pos>, openSet': seq<Pos>, closedSet: set<Pos>,
                 cameFrom: map<Pos, Pos>, gScore: map<Pos, int>, fScore: map<Pos, int>)
    returns (cameFrom': map<Pos, Pos>, gScore': map<Pos, int>, fScore': map<Pos, int>)
    requires Relaxing(b, s, t, openSet, closedSet, cameFrom, gScore, fScore, current)
    requires HandledUpTo(b, openSet, closedSet, gScore, current, neighbors, j) && j < |neighbors|
    requires Relaxable(b, openSet, openSet', closedSet, gScore, current, neighbors[j])
    ensures Relaxing(b, s, t, openSet', closedSet, cameFrom', gScore', fScore', current)
    ensures HandledUpTo(b, openSet', closedSet, gScore', current, neighbors, j + 1)
    ensures gScore' == gScore[neighbors[j] := gScore[current] + 1] && cameFrom' == cameFrom[neighbors[j] := current]
  {
    var neighbor := neighbors[j];
    Relax(b, s, t, openSet, openSet', closedSet, cameFrom, gScore, fScore, current, neighbor);
    RelaxHandles(b, openSet, openSet', closedSet, gScore, current, neighbors, j);
    cameFrom' := cameFrom[neighbor := current];
    gScore' := gScore[neighbor := gScore[current] + 1];
    fScore' := fScore[neighbor := gScore'[neighbor] + Heuristic(neighbor, t)];
  }

  /** The foreach of FindPath over the neighbours of the just-closed `current`. */
  method RelaxNeighbors(b: Board, s: Pos, t: Pos, current: Pos, openSet: seq<Pos>, closedSet: set<Pos>,
                        cameFrom: map<Pos, Pos>, gScore: map<Pos, int>, fScore: map<Pos, int>)
    returns (openSet': seq<Pos>, cameFrom': map<Pos, Pos>, gScore': map<Pos, int>, fScore': map<Pos, int>)
    requires Relaxing(b, s, t, openSet, closedSet, cameFrom, gScore, fScore, current)
    ensures SearchInv(b, s, t, openSet', closedSet, cameFrom', gScore', fScore')
  {
    openSet', cameFrom', gScore', fScore' := openSet, cameFrom, gScore, fScore;
    var neighbors := Neighbors(b, current);
    for j := 0 to |neighbors|
      invariant Relaxing(b, s, t, openSet', closedSet, cameFrom', gScore', fScore', current)
      invariant HandledUpTo(b, openSet', closedSet, gScore', current, neighbors, j)
    {
      assert neighbors[j] in neighbors;
      openSet', cameFrom', gScore', fScore' :=
        RelaxNeighbor(b, s, t, current, neighbors, j, openSet', closedSet, cameFrom', gScore', fScore');
    }
    Relaxed(b, s, t, openSet', closedSet, cameFrom', gScore', fScore', current);
  }

  /**
   * Pathfinding.FindPath: A* from `start` to `goal` with the Manhattan
   * heuristic. There is no path when either tile is missing or somebody
   * stands on the goal; otherwise the result is a shortest walk from the
   * start to the goal through unoccupied tiles, and there is none exactly
   * when no such walk exists.
   */
  method FindPath(b: Board, start: Option<Pos>, goal: Option<Pos>) returns (path: Option<seq<Pos>>)
    ensures path.Some? <==> start.Some? && goal.Some? && goal.value !in b.occupied && Connected(b, start.value, goal.value)
    ensures path.Some? ==> start.Some? && goal.Some? && ShortestWalk(b, start.value, goal.value, path.value)
  {
    if start.None? || goal.None? {
      return None;
    }
    var s, t := start.value, goal.value;
    if t in b.occupied {
      return None;
    }

    var openSet := [s];
    var closedSet: set<Pos> := {};
    var cameFrom: map<Pos, Pos> := map[];
    var gScore := map[s := 0];
    var fScore := map[s := Heuristic(s, t)];
    ghost var unvisited := b.cells + {s};

    while |openSet| > 0
      invariant SearchInv(b, s, t, openSet, closedSet, cameFrom, gScore, fScore)
      invariant Unvisited(b, s, closedSet, unvisited)
      decreases |unvisited|
    {
      var k := LowestFScore(openSet, fScore);
      var current := openSet[k];

      if current == t {
        var p := ReconstructPath(cameFrom, current, gScore);
        GoalPathIsShortest(b, s, t, openSet, closedSet, cameFrom, gScore, fScore, p);
        return Some(p);
      }

      Close(b, s, t, openSet, closedSet, cameFrom, gScore, fScore, current);
      openSet := Remove(openSet, current);
      closedSet := closedSet + {current};
      unvisited := unvisited - {current};

      openSet, cameFrom, gScore, fScore := RelaxNeighbors(b, s, t, current, openSet, closedSet, cameFrom, gScore, fScore);
    }

    Exhausted(b, s, t, closedSet, cameFrom, gScore, fScore);
    return None;
  }
}

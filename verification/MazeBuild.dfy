/**
 Building the maze: a randomized depth-first carve over a grid of cells with all walls up.
 Random choices are nondeterministic.
 */
module MazeBuild {
  import opened Collections
  import opened MazeGrid

  /** Every cell can be reached from every other, in one way only, and every wall is shared. */
  ghost predicate SpanningTree(w: Walls, maxX: nat, maxY: nat) {
    && w.Keys == Cells(maxX, maxY)
    && Symmetric(w, Cells(maxX, maxY))
    && (forall a, b :: a in w && b in w ==> Connected(w, a, b))
    && (forall s :: !Cycle(w, s))
    && |Passages(w)| == maxX * maxY - 1
  }

  /** In-bounds neighbours of p are all in s. */
  ghost predicate Surrounded(cells: set<Point>, s: set<Point>, p: Point) {
    forall d: Direction :: p.Move(d) in cells ==> p.Move(d) in s
  }

  /** A set of cells that holds the corner and all neighbours of its own holds the whole grid. */
  lemma {:induction false} CornerReaches(maxX: nat, maxY: nat, s: set<Point>, x: nat, y: nat)
    requires Point(0, 0) in s && x < maxX && y < maxY
    requires forall p :: p in s ==> Surrounded(Cells(maxX, maxY), s, p)
    ensures Point(x, y) in s
  {
    if x > 0 {
      CornerReaches(maxX, maxY, s, x - 1, y);
      assert Point(x - 1, y).Move(East) == Point(x, y);
    } else if y > 0 {
      CornerReaches(maxX, maxY, s, x, y - 1);
      assert Point(x, y - 1).Move(North) == Point(x, y);
    }
  }

  lemma TreeOfAllIsSpanning(w: Walls, order: seq<Point>, maxX: nat, maxY: nat)
    requires Tree(w, order) && w.Keys == Cells(maxX, maxY) == Elements(order)
    ensures SpanningTree(w, maxX, maxY)
  {
    forall a, b | a in w && b in w
      ensures Connected(w, a, b)
    {
      assert a in Elements(order) && b in Elements(order);
      TreeConnected(w, order, a, b);
    }
    forall s
      ensures !Cycle(w, s)
    {
      TreeAcyclic(w, order, s);
    }
    DistinctCount(order);
    CellCount(maxX, maxY);
  }

  class Builder {
    const maxX: nat
    const maxY: nat
    var walls: Walls
    var visited: set<Point>
    /** The cells broken through to, in that order. */
    ghost var order: seq<Point>

    ghost predicate Core()
      reads this
    {
      walls.Keys == Cells(maxX, maxY) && Tree(walls, order)
    }

    /** MazeImpl(point, seed): all walls up, then carve from the corner. */
    constructor (x: nat, y: nat)
      requires x > 0 && y > 0
      ensures maxX == x && maxY == y && visited == Cells(x, y)
      ensures SpanningTree(walls, x, y)
    {
      maxX, maxY := x, y;
      walls, visited := map p | p in Cells(x, y) :: ALL, {};
      order := [Point(0, 0)];
      new;
      SolidTree(walls, Point(0, 0));
      BuildMaze(Point(0, 0));
      assert Elements(order) == Cells(x, y) by {
        assert forall p :: p in Elements(order) ==> p in walls;
        forall p | p in Cells(x, y)
          ensures p in Elements(order)
        {
          assert Elements(order) == visited;
          CornerReaches(x, y, visited, p.x, p.y);
        }
      }
      TreeOfAllIsSpanning(walls, order, x, y);
    }

    /** pickNeighbor: some unvisited neighbour in bounds, if there is one. */
    method PickNeighbor(point: Point) returns (r: Option<Direction>)
      ensures r.Some? ==> InBounds(maxX, maxY, point.Move(r.value)) && point.Move(r.value) !in visited
      ensures r.None? ==> Surrounded(Cells(maxX, maxY), visited, point)
    {
      var directions := [North, East, West, South];
      var options: seq<Direction> := [];
      for i := 0 to 4
        invariant forall k :: 0 <= k < |options| ==>
          InBounds(maxX, maxY, point.Move(options[k])) && point.Move(options[k]) !in visited
        invariant options == [] ==> forall k :: 0 <= k < i ==>
          (InBounds(maxX, maxY, point.Move(directions[k])) ==> point.Move(directions[k]) in visited)
      {
        var newPoint := point.Move(directions[i]);
        if InBounds(maxX, maxY, newPoint) && newPoint !in visited {
          options := options + [directions[i]];
        }
      }
      if options == [] {
        forall d: Direction | point.Move(d) in Cells(maxX, maxY)
          ensures point.Move(d) in visited
        {
          assert directions[match d case North => 0 case East => 1 case West => 2 case South => 3] == d;
        }
        return None;
      }
      var n :| 0 <= n < |options|;
      return Some(options[n]);
    }

    /** Cells left to break through to. */
    ghost function Left(): int
      reads this
    {
      |Cells(maxX, maxY)| - |order|
    }

    lemma LeftBound()
      requires Core()
      ensures Left() >= 0
    {
      DistinctCount(order);
      SubsetSize(Elements(order), Cells(maxX, maxY));
    }

    /** removeWall towards a cell not yet reached. */
    method BreakThrough(point: Point, d: Direction)
      requires Core() && visited == Elements(order) && point in order
      requires InBounds(maxX, maxY, point.Move(d)) && point.Move(d) !in visited
      modifies this`walls, this`order
      ensures Core() && walls == RemoveWall(old(walls), point, d) && order == old(order) + [point.Move(d)]
      ensures visited == Elements(order) - {point.Move(d)} && 0 <= Left() < old(Left())
    {
      CarvedTree(walls, order, point, d);
      walls := RemoveWall(walls, point, d);
      order := order + [point.Move(d)];
      LeftBound();
    }

    /**
     buildMaze. On entry point is the cell just broken through to. On return everything broken
     through to has been visited, and the cells reached by this call, point first, have no
     unvisited neighbours left.
     */
    method BuildMaze(point: Point)
      requires Core() && point == order[|order| - 1] && visited == Elements(order) - {point}
      modifies this`walls, this`visited, this`order
      ensures Core() && visited == Elements(order)
      ensures old(order) <= order
      ensures forall k :: |old(order)| - 1 <= k < |order| ==> Surrounded(Cells(maxX, maxY), visited, order[k])
      decreases Left()
    {
      LeftBound();
      visited := visited + {point};
      assert visited == Elements(order);
      var d := PickNeighbor(point);
      while d.Some?
        invariant Core() && visited == Elements(order) && old(order) <= order
        invariant d.Some? ==> InBounds(maxX, maxY, point.Move(d.value)) && point.Move(d.value) !in visited
        invariant d.None? ==> Surrounded(Cells(maxX, maxY), visited, point)
        invariant forall k :: |old(order)| <= k < |order| ==> Surrounded(Cells(maxX, maxY), visited, order[k])
        decreases Left()
      {
        ghost var before := visited;
        assert point == order[|old(order)| - 1];
        BreakThrough(point, d.value);
        var newPoint := point.Move(d.value);
        BuildMaze(newPoint);
        assert before <= visited;
        d := PickNeighbor(point);
      }
    }
  }
}

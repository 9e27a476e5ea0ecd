/**
 Cells, directions and walls of the maze, and what it means for the opened
 passages to form a spanning tree of the grid.
 */
module MazeGrid {
  import opened Collections

  datatype Direction = North | East | South | West {
    function Invert(): Direction {
      match this case North => South case East => West case South => North case West => East
    }
    function TurnLeft(): Direction {
      match this case North => West case East => North case South => East case West => South
    }
    function TurnRight(): Direction {
      match this case North => East case East => South case South => West case West => North
    }
  }

  datatype Point = Point(x: int, y: int) {
    function Move(d: Direction): Point {
      match d
      case North => Point(x, y + 1)
      case East => Point(x + 1, y)
      case South => Point(x, y - 1)
      case West => Point(x - 1, y)
    }
  }

  /** Stepping back, turning back, and the two ways of turning round. */
  lemma DirectionLaws(p: Point, d: Direction)
    ensures p.Move(d).Move(d.Invert()) == p && d.Invert().Invert() == d
    ensures d.TurnLeft().TurnRight() == d && d.TurnRight().TurnLeft() == d
    ensures d.TurnLeft().TurnLeft() == d.Invert() == d.TurnRight().TurnRight()
    ensures forall e :: p.Move(d) == p.Move(e) ==> d == e
  {
  }

  /** A quarter turn to the left is counter-clockwise, one to the right clockwise, with north up and east to the right. */
  lemma TurnsRotate(p: Point, d: Direction)
    ensures p.Move(North) == Point(p.x, p.y + 1) && p.Move(East) == Point(p.x + 1, p.y)
    ensures var dx, dy := p.Move(d).x - p.x, p.Move(d).y - p.y;
            && dx * dx + dy * dy == 1
            && p.Move(d.TurnLeft()) == Point(p.x - dy, p.y + dx)
            && p.Move(d.TurnRight()) == Point(p.x + dy, p.y - dx)
            && p.Move(d.Invert()) == Point(p.x - dx, p.y - dy)
  {
  }

  const ALL := {North, East, South, West}

  /** The walls still standing, cell by cell. */
  type Walls = map<Point, set<Direction>>

  predicate InBounds(maxX: nat, maxY: nat, p: Point) {
    0 <= p.x < maxX && 0 <= p.y < maxY
  }

  function Cells(maxX: nat, maxY: nat): set<Point> {
    set x, y | 0 <= x < maxX && 0 <= y < maxY :: Point(x, y)
  }

  ghost predicate Open(w: Walls, p: Point, d: Direction) {
    p in w && d !in w[p]
  }

  /** An open passage leads from a to b. */
  ghost predicate Link(w: Walls, a: Point, b: Point) {
    exists d: Direction :: Open(w, a, d) && a.Move(d) == b
  }

  /** Every opening is one on both sides and stays inside the given cells. */
  ghost predicate Symmetric(w: Walls, cells: set<Point>) {
    forall p: Point, d: Direction {:trigger Open(w, p, d), p.Move(d)} ::
      Open(w, p, d) ==> p in cells && p.Move(d) in cells && Open(w, p.Move(d), d.Invert())
  }

  lemma LinkSymmetric(w: Walls, cells: set<Point>, a: Point, b: Point)
    requires Symmetric(w, cells) && Link(w, a, b)
    ensures Link(w, b, a) && a in cells && b in cells
  {
    var d: Direction :| Open(w, a, d) && a.Move(d) == b;
    DirectionLaws(a, d);
    assert Open(w, b, d.Invert());
  }

  /** The passages, each taken once, from its southern or western cell. */
  ghost function Passages(w: Walls): set<(Point, Direction)> {
    set p, d | p in w && d in {North, East} && Open(w, p, d) :: (p, d)
  }

  // ---------------------------------------------------------------- trees in visiting order

  /** Cell k has exactly one passage to an earlier cell, namely to cell j. */
  ghost predicate HangsFrom(w: Walls, order: seq<Point>, k: nat, j: nat)
    requires k < |order|
  {
    j < k && Link(w, order[k], order[j]) && forall i :: 0 <= i < k && Link(w, order[k], order[i]) ==> i == j
  }

  ghost predicate Hangs(w: Walls, order: seq<Point>, k: nat)
    requires k < |order|
  {
    exists j: nat :: HangsFrom(w, order, k, j)
  }

  /** The cells in the order in which they were reached; every later cell hangs from exactly one earlier one. */
  ghost predicate Tree(w: Walls, order: seq<Point>) {
    && Distinct(order)
    && (forall p :: p in order ==> p in w)
    && Symmetric(w, Elements(order))
    && (forall k :: 0 < k < |order| ==> Hangs(w, order, k))
    && order != [] && |Passages(w)| == |order| - 1
  }

  ghost predicate Path(w: Walls, s: seq<Point>, a: Point, b: Point) {
    && s != [] && s[0] == a && s[|s| - 1] == b
    && forall i :: 0 <= i < |s| - 1 ==> Link(w, s[i], s[i + 1])
  }

  ghost predicate Connected(w: Walls, a: Point, b: Point) {
    exists s :: Path(w, s, a, b)
  }

  lemma PathAppend(w: Walls, s: seq<Point>, a: Point, b: Point, c: Point)
    requires Path(w, s, a, b) && Link(w, b, c)
    ensures Path(w, s + [c], a, c)
  {
    var t := s + [c];
    forall i | 0 <= i < |t| - 1
      ensures Link(w, t[i], t[i + 1])
    {
      if i < |s| - 1 { assert t[i] == s[i] && t[i + 1] == s[i + 1]; }
    }
  }

  lemma {:induction false} PathJoin(w: Walls, s: seq<Point>, t: seq<Point>, a: Point, b: Point, c: Point)
    requires Path(w, s, a, b) && Path(w, t, b, c)
    ensures Connected(w, a, c)
    decreases |t|
  {
    if |t| == 1 {
      assert b == c;
    } else {
      assert Link(w, t[0], t[1]);
      PathAppend(w, s, a, b, t[1]);
      var u := t[1..];
      forall i | 0 <= i < |u| - 1
        ensures Link(w, u[i], u[i + 1])
      {
        assert Link(w, t[i + 1], t[i + 2]);
      }
      PathJoin(w, s + [t[1]], u, a, t[1], c);
    }
  }

  /** Every reached cell is connected with the first one, both ways. */
  lemma {:induction false} ReachedFromRoot(w: Walls, order: seq<Point>, k: nat)
    requires Tree(w, order) && k < |order|
    ensures Connected(w, order[0], order[k]) && Connected(w, order[k], order[0])
  {
    if k == 0 {
      assert Path(w, [order[0]], order[0], order[0]);
    } else {
      assert Hangs(w, order, k);
      var j: nat :| HangsFrom(w, order, k, j);
      ReachedFromRoot(w, order, j);
      LinkSymmetric(w, Elements(order), order[k], order[j]);
      var s :| Path(w, s, order[0], order[j]);
      PathAppend(w, s, order[0], order[j], order[k]);
      var t :| Path(w, t, order[j], order[0]);
      var hop := [order[k], order[j]];
      assert Path(w, hop, order[k], order[j]);
      PathJoin(w, hop, t, order[k], order[j], order[0]);
    }
  }

  /** Any two reached cells are connected. */
  lemma TreeConnected(w: Walls, order: seq<Point>, a: Point, b: Point)
    requires Tree(w, order) && a in order && b in order
    ensures Connected(w, a, b)
  {
    var i :| 0 <= i < |order| && order[i] == a;
    var j :| 0 <= j < |order| && order[j] == b;
    ReachedFromRoot(w, order, i);
    ReachedFromRoot(w, order, j);
    var s :| Path(w, s, a, order[0]);
    var t :| Path(w, t, order[0], b);
    PathJoin(w, s, t, a, order[0], b);
  }

  /** A closed walk through at least three different cells. */
  ghost predicate Cycle(w: Walls, s: seq<Point>) {
    && |s| >= 3 && Distinct(s) && Link(w, s[|s| - 1], s[0])
    && forall i :: 0 <= i < |s| - 1 ==> Link(w, s[i], s[i + 1])
  }

  lemma IndexOf(order: seq<Point>, p: Point) returns (k: nat)
    requires p in order
    ensures k < |order| && order[k] == p
  {
    k :| 0 <= k < |order| && order[k] == p;
  }

  /** The cell of s reached last. */
  lemma {:induction false} LatestOf(order: seq<Point>, s: seq<Point>) returns (m: nat, k: nat)
    requires s != [] && Distinct(order) && forall i :: 0 <= i < |s| ==> s[i] in order
    ensures m < |s| && k < |order| && order[k] == s[m]
    ensures forall i :: 0 <= i < |s| ==> s[i] in order[..k + 1]
  {
    var last := |s| - 1;
    var kl := IndexOf(order, s[last]);
    if last == 0 {
      assert s[0] == order[..kl + 1][kl];
      return 0, kl;
    }
    var front := s[..last];
    assert forall i :: 0 <= i < |front| ==> front[i] == s[i];
    m, k := LatestOf(order, front);
    if kl > k {
      assert order[..k + 1] == order[..kl + 1][..k + 1];
      m, k := last, kl;
    }
    assert s[last] == order[..k + 1][kl];
  }

  lemma CycleInside(w: Walls, order: seq<Point>, s: seq<Point>)
    requires Tree(w, order) && Cycle(w, s)
    ensures forall i :: 0 <= i < |s| ==> s[i] in order
  {
    forall i | 0 <= i < |s|
      ensures s[i] in order
    {
      LinkSymmetric(w, Elements(order), s[i], if i < |s| - 1 then s[i + 1] else s[0]);
    }
  }

  /** The two neighbours of cell m on a cycle. */
  lemma CycleNeighbours(w: Walls, order: seq<Point>, s: seq<Point>, m: nat) returns (a: Point, b: Point)
    requires Tree(w, order) && Cycle(w, s) && m < |s|
    ensures a in s && b in s && a != b && a != s[m] && b != s[m]
    ensures Link(w, s[m], a) && Link(w, s[m], b)
  {
    var before := if m == 0 then |s| - 1 else m - 1;
    var after := if m == |s| - 1 then 0 else m + 1;
    a, b := s[before], s[after];
    assert before != after && before != m && after != m;
    if m > 0 { assert Link(w, s[m - 1], s[m - 1 + 1]); }
    LinkSymmetric(w, Elements(order), a, s[m]);
  }

  lemma TwoParents(w: Walls, order: seq<Point>, k: nat, i: nat, j: nat)
    requires Tree(w, order) && k < |order| && i < k && j < k
    requires Link(w, order[k], order[i]) && Link(w, order[k], order[j])
    ensures i == j
  {
    assert Hangs(w, order, k);
  }

  /** There is no way round: the passages of a tree contain no cycle. */
  lemma TreeAcyclic(w: Walls, order: seq<Point>, s: seq<Point>)
    requires Tree(w, order)
    ensures !Cycle(w, s)
  {
    if Cycle(w, s) {
      CycleInside(w, order, s);
      var m, k := LatestOf(order, s);
      var a, b := CycleNeighbours(w, order, s, m);
      var i := IndexOf(order[..k + 1], a);
      var j := IndexOf(order[..k + 1], b);
      TwoParents(w, order, k, i, j);
    }
  }

  // ---------------------------------------------------------------- carving

  /** The walls after those on both sides between p and its neighbour are removed. */
  function RemoveWall(w: Walls, p: Point, d: Direction): Walls
    requires p in w && p.Move(d) in w
  {
    var w' := w[p := w[p] - {d}];
    w'[p.Move(d) := w'[p.Move(d)] - {d.Invert()}]
  }

  lemma CarvedOpen(w: Walls, p: Point, d: Direction, x: Point, e: Direction)
    requires p in w && p.Move(d) in w
    ensures Open(RemoveWall(w, p, d), x, e) <==>
            Open(w, x, e) || (x == p && e == d) || (x == p.Move(d) && e == d.Invert())
  {
  }

  /** Nothing is open around a cell that has not been reached. */
  lemma Unreached(w: Walls, order: seq<Point>, q: Point, e: Direction)
    requires Tree(w, order) && q !in order
    ensures !Open(w, q, e) && !Open(w, q.Move(e), e.Invert())
  {
    DirectionLaws(q, e);
    assert q.Move(e).Move(e.Invert()) == q;
  }

  lemma CarvedSymmetric(w: Walls, order: seq<Point>, p: Point, d: Direction)
    requires Tree(w, order) && p in order && p.Move(d) in w && p.Move(d) !in order
    ensures Symmetric(RemoveWall(w, p, d), Elements(order + [p.Move(d)]))
  {
    var w', q := RemoveWall(w, p, d), p.Move(d);
    var cells := Elements(order + [q]);
    assert q == (order + [q])[|order|];
    forall x: Point, e: Direction | Open(w', x, e)
      ensures x in cells && x.Move(e) in cells && Open(w', x.Move(e), e.Invert())
    {
      DirectionLaws(p, d);
      CarvedOpen(w, p, d, x, e);
      CarvedOpen(w, p, d, x.Move(e), e.Invert());
      assert Open(w, x, e) ==> x in Elements(order) && x.Move(e) in Elements(order);
      assert forall y :: y in order ==> y in order + [q];
    }
  }

  /** Carving adds links only between p and the new cell. */
  lemma CarvedLink(w: Walls, order: seq<Point>, p: Point, d: Direction, a: Point, b: Point)
    requires Tree(w, order) && p in order && p.Move(d) in w && p.Move(d) !in order
    ensures var q := p.Move(d);
            Link(RemoveWall(w, p, d), a, b) <==> Link(w, a, b) || (a == p && b == q) || (a == q && b == p)
  {
    var w', q := RemoveWall(w, p, d), p.Move(d);
    DirectionLaws(p, d);
    CarvedOpen(w, p, d, p, d);
    CarvedOpen(w, p, d, q, d.Invert());
    if e: Direction :| Open(w, a, e) && a.Move(e) == b {
      CarvedOpen(w, p, d, a, e);
    }
    if e: Direction :| Open(w', a, e) && a.Move(e) == b {
      CarvedOpen(w, p, d, a, e);
    }
  }

  lemma CarvedHangs(w: Walls, order: seq<Point>, p: Point, d: Direction)
    requires Tree(w, order) && p in order && p.Move(d) in w && p.Move(d) !in order
    ensures var order' := order + [p.Move(d)];
            forall k :: 0 < k < |order'| ==> Hangs(RemoveWall(w, p, d), order', k)
  {
    var w', q := RemoveWall(w, p, d), p.Move(d);
    var order' := order + [q];
    forall k | 0 < k < |order'|
      ensures Hangs(w', order', k)
    {
      var j: nat;
      if k < |order| {
        assert Hangs(w, order, k);
        j :| HangsFrom(w, order, k, j);
      } else {
        j := IndexOf(order, p);
      }
      forall i | 0 <= i < k
        ensures Link(w', order'[k], order'[i]) <==> i == j
      {
        CarvedLink(w, order, p, d, order'[k], order'[i]);
        if k == |order| && Link(w, q, order[i]) {
          LinkSymmetric(w, Elements(order), q, order[i]);
        }
      }
      assert HangsFrom(w', order', k, j);
    }
  }

  /** One more passage. */
  lemma CarvedCount(w: Walls, order: seq<Point>, p: Point, d: Direction)
    requires Tree(w, order) && p in order && p.Move(d) in w && p.Move(d) !in order
    ensures |Passages(RemoveWall(w, p, d))| == |Passages(w)| + 1
  {
    var w', q := RemoveWall(w, p, d), p.Move(d);
    var added := if d in {North, East} then (p, d) else (q, d.Invert());
    Unreached(w, order, q, d.Invert());
    DirectionLaws(p, d);
    forall x, e
      ensures (x, e) in Passages(w') <==> (x, e) in Passages(w) || (x, e) == added
    {
      CarvedOpen(w, p, d, x, e);
    }
    assert Passages(w') == Passages(w) + {added};
    assert added !in Passages(w);
  }

  /** Breaking through to a cell not reached before extends the tree by that cell. */
  lemma CarvedTree(w: Walls, order: seq<Point>, p: Point, d: Direction)
    requires Tree(w, order) && p in order && p.Move(d) in w && p.Move(d) !in order
    ensures Tree(RemoveWall(w, p, d), order + [p.Move(d)])
  {
    CarvedSymmetric(w, order, p, d);
    CarvedHangs(w, order, p, d);
    CarvedCount(w, order, p, d);
  }

  /** With all walls standing, any single cell is a tree. */
  lemma SolidTree(w: Walls, p: Point)
    requires p in w && forall q :: q in w ==> w[q] == ALL
    ensures Tree(w, [p])
  {
    forall q: Point, e: Direction
      ensures !Open(w, q, e)
    {
      assert e == North || e == East || e == South || e == West;
    }
    assert Passages(w) == {};
  }

  // ---------------------------------------------------------------- counting cells

  lemma {:induction false} CellCount(maxX: nat, maxY: nat)
    ensures |Cells(maxX, maxY)| == maxX * maxY
  {
    if maxX == 0 {
      assert Cells(0, maxY) == {};
    } else {
      CellCount(maxX - 1, maxY);
      ColumnCount(maxX - 1, maxY);
      var column := Column(maxX - 1, maxY);
      assert Cells(maxX, maxY) == Cells(maxX - 1, maxY) + column;
      assert Cells(maxX - 1, maxY) !! column;
      assert maxX * maxY == (maxX - 1) * maxY + maxY;
    }
  }

  ghost function Column(x: int, maxY: nat): set<Point> {
    set y | 0 <= y < maxY :: Point(x, y)
  }

  lemma {:induction false} ColumnCount(x: int, maxY: nat)
    ensures |Column(x, maxY)| == maxY
  {
    if maxY == 0 {
      assert Column(x, 0) == {};
    } else {
      ColumnCount(x, maxY - 1);
      assert Column(x, maxY) == Column(x, maxY - 1) + {Point(x, maxY - 1)};
    }
  }

  lemma SubsetSize<T>(x: set<T>, y: set<T>)
    requires x <= y
    ensures |x| <= |y|
  {
    assert y == x + (y - x);
  }
}

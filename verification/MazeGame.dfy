/**
 Playing in the maze: clients and projectiles occupy cells, and the cell contents, the client
 map, the projectile map and the set of clients with a projectile in play are kept consistent
 by every step. Random choices are nondeterministic; listeners are not modelled.
 */
module MazeGame {
  import opened Collections
  import opened MazeGrid
  import MazeBuild

  type Client = nat

  /** A projectile object; the serial number stands for its identity. */
  datatype Projectile = Projectile(owner: Client, serial: nat)

  datatype DirectedPoint = DirectedPoint(at: Point, facing: Direction)

  /** What a cell that is not empty holds. */
  datatype Item = Player(client: Client) | Shot(prj: Projectile)

  type Contents = map<Point, Item>
  type Players = map<Client, DirectedPoint>
  type Shots = map<Projectile, DirectedPoint>

  // ---------------------------------------------------------------- walls

  /** A maze one can play in: walls shared, border closed, no cell walled in. */
  ghost predicate Playable(w: Walls, maxX: nat, maxY: nat) {
    && w.Keys == Cells(maxX, maxY)
    && Symmetric(w, Cells(maxX, maxY))
    && forall p :: p in w ==> exists d: Direction :: Open(w, p, d)
  }

  /** Every maze of at least two cells that buildMaze makes is one. */
  lemma BuiltIsPlayable(w: Walls, maxX: nat, maxY: nat)
    requires MazeBuild.SpanningTree(w, maxX, maxY) && maxX * maxY >= 2
    ensures Playable(w, maxX, maxY)
  {
    CellCount(maxX, maxY);
    forall p | p in w
      ensures exists d: Direction :: Open(w, p, d)
    {
      var q := Another(w.Keys, p);
      assert Connected(w, p, q);
      var s :| Path(w, s, p, q);
      assert Link(w, s[0], s[1]);
    }
  }

  lemma Another<T>(s: set<T>, x: T) returns (y: T)
    requires |s| >= 2
    ensures y in s && y != x
  {
    var t := s - {x};
    assert |t| >= 1;
    y := Pick(t);
  }

  /** Steps from a cell to the border it faces. */
  function Distance(maxX: nat, maxY: nat, p: Point, d: Direction): int {
    match d
    case North => maxY - 1 - p.y
    case East => maxX - 1 - p.x
    case South => p.y
    case West => p.x
  }

  function Longest(maxX: nat, maxY: nat): nat { if maxX < maxY then maxY else maxX }

  /** Every projectile in play is in a cell, and its moves so far and the steps left to the border are few. */
  ghost predicate InFlight(w: Walls, maxX: nat, maxY: nat, shots: Shots, moves: map<Projectile, nat>) {
    forall j :: j in shots ==>
      && j in moves && shots[j].at in w
      && moves[j] + Distance(maxX, maxY, shots[j].at, shots[j].facing) < Longest(maxX, maxY)
  }

  /** A projectile that has made all the moves the maze allows faces a wall: its next move is its end. */
  lemma FlightEnds(w: Walls, maxX: nat, maxY: nat, shots: Shots, moves: map<Projectile, nat>, j: Projectile)
    requires Playable(w, maxX, maxY) && InFlight(w, maxX, maxY, shots, moves) && j in shots
    ensures moves[j] < Longest(maxX, maxY)
    ensures moves[j] == Longest(maxX, maxY) - 1 ==> !Open(w, shots[j].at, shots[j].facing)
  {
    var dp := shots[j];
    DistanceBounds(w, maxX, maxY, dp.at, dp.facing);
    if Open(w, dp.at, dp.facing) { DistanceBounds(w, maxX, maxY, dp.at.Move(dp.facing), dp.facing); }
  }

  lemma DistanceBounds(w: Walls, maxX: nat, maxY: nat, p: Point, d: Direction)
    requires w.Keys == Cells(maxX, maxY) && p in w
    ensures InBounds(maxX, maxY, p) && 0 <= Distance(maxX, maxY, p, d) < Longest(maxX, maxY)
    ensures Distance(maxX, maxY, p.Move(d), d) == Distance(maxX, maxY, p, d) - 1
  {
    assert p in Cells(maxX, maxY);
  }

  lemma LaunchFlight(w: Walls, maxX: nat, maxY: nat, shots: Shots, moves: map<Projectile, nat>, j: Projectile, dp: DirectedPoint)
    requires w.Keys == Cells(maxX, maxY) && InFlight(w, maxX, maxY, shots, moves) && dp.at in w
    ensures InFlight(w, maxX, maxY, shots[j := dp], moves[j := 0])
  {
    DistanceBounds(w, maxX, maxY, dp.at, dp.facing);
  }

  lemma GlideFlight(w: Walls, maxX: nat, maxY: nat, shots: Shots, moves: map<Projectile, nat>, j: Projectile, dp: DirectedPoint)
    requires w.Keys == Cells(maxX, maxY) && InFlight(w, maxX, maxY, shots, moves) && j in shots && dp.at in w
    requires dp == DirectedPoint(shots[j].at.Move(shots[j].facing), shots[j].facing)
    ensures InFlight(w, maxX, maxY, shots[j := dp], moves[j := moves[j] + 1])
  {
    DistanceBounds(w, maxX, maxY, shots[j].at, dp.facing);
  }

  // ---------------------------------------------------------------- consistency

  /** Projectiles still flying: those in the map that the running tick has not destroyed. */
  ghost predicate Flying(shots: Shots, dead: set<Projectile>, j: Projectile) {
    j in shots && j !in dead
  }

  ghost predicate CellsMatch(w: Walls, cells: Contents, players: Players, shots: Shots, dead: set<Projectile>) {
    forall p :: p in cells ==> p in w && Placed(cells[p], p, players, shots, dead)
  }

  /** The maps put the item at p. */
  ghost predicate Placed(item: Item, p: Point, players: Players, shots: Shots, dead: set<Projectile>) {
    match item
    case Player(c) => c in players && players[c].at == p
    case Shot(j) => Flying(shots, dead, j) && shots[j].at == p
  }

  ghost predicate PlayersMatch(cells: Contents, players: Players) {
    forall c :: c in players ==> players[c].at in cells && cells[players[c].at] == Player(c)
  }

  ghost predicate ShotsMatch(cells: Contents, shots: Shots, dead: set<Projectile>) {
    forall j :: Flying(shots, dead, j) ==> shots[j].at in cells && cells[shots[j].at] == Shot(j)
  }

  /** A cell holds a client or flying projectile exactly when the matching map places it there. */
  ghost predicate Matches(w: Walls, cells: Contents, players: Players, shots: Shots, dead: set<Projectile>) {
    CellsMatch(w, cells, players, shots, dead) && PlayersMatch(cells, players) && ShotsMatch(cells, shots, dead)
  }

  lemma Vacate(w: Walls, cells: Contents, players: Players, shots: Shots, dead: set<Projectile>, c: Client)
    requires Matches(w, cells, players, shots, dead) && c in players
    ensures Matches(w, cells - {players[c].at}, players - {c}, shots, dead)
    ensures players[c].at in w && players[c].at in cells && cells[players[c].at] == Player(c)
  {
    assert cells[players[c].at] == Player(c);
  }

  lemma Place(w: Walls, cells: Contents, players: Players, shots: Shots, dead: set<Projectile>, c: Client, dp: DirectedPoint)
    requires Matches(w, cells, players, shots, dead) && c !in players && dp.at in w && dp.at !in cells
    ensures Matches(w, cells[dp.at := Player(c)], players[c := dp], shots, dead)
  {
    assert forall p :: p in cells ==> Placed(cells[p], p, players[c := dp], shots, dead);
  }

  /** A client taken from its cell and put into an empty one. */
  lemma Relocate(w: Walls, cells: Contents, players: Players, shots: Shots, dead: set<Projectile>, c: Client, dp: DirectedPoint)
    requires Matches(w, cells, players, shots, dead) && c in players && dp.at in w
    requires dp.at !in cells || dp.at == players[c].at
    ensures Matches(w, (cells - {players[c].at})[dp.at := Player(c)], players[c := dp], shots, dead)
    ensures dp.at != players[c].at ==>
              (cells - {players[c].at})[dp.at := Player(c)] == cells[dp.at := Player(c)] - {players[c].at}
  {
    Vacate(w, cells, players, shots, dead, c);
    Place(w, cells - {players[c].at}, players - {c}, shots, dead, c, dp);
    assert (players - {c})[c := dp] == players[c := dp];
  }

  lemma Launch(w: Walls, cells: Contents, players: Players, shots: Shots, dead: set<Projectile>, j: Projectile, dp: DirectedPoint)
    requires Matches(w, cells, players, shots, dead) && j !in shots && j !in dead && dp.at in w && dp.at !in cells
    ensures Matches(w, cells[dp.at := Shot(j)], players, shots[j := dp], dead)
  {
    assert forall p :: p in cells ==> Placed(cells[p], p, players, shots[j := dp], dead);
  }

  /** Client c has reappeared in a cell that was empty or its own, facing an open passage; nobody else has moved. */
  ghost predicate Respawned(w: Walls, cells: Contents, before: Players, after: Players, c: Client) {
    && c in before && c in after && after == before[c := after[c]]
    && (after[c].at == before[c].at || after[c].at !in cells) && Open(w, after[c].at, after[c].facing)
  }

  /** The projectiles destroyed when prj enters the cell at p. */
  ghost function Casualties(cells: Contents, p: Point, prj: Projectile): set<Projectile> {
    if p !in cells then {} else if cells[p].Shot? then {prj, cells[p].prj} else {prj}
  }

  /** What a projectile entering the cell at p does to the clients. */
  ghost predicate Struck(w: Walls, cells: Contents, p: Point, before: Players, after: Players) {
    if p in cells && cells[p].Player? then Respawned(w, cells, before, after, cells[p].client) else after == before
  }

  lemma Destroy(w: Walls, cells: Contents, players: Players, shots: Shots, dead: set<Projectile>, j: Projectile)
    requires Matches(w, cells, players, shots, dead) && Flying(shots, dead, j)
    ensures Matches(w, cells - {shots[j].at}, players, shots, dead + {j})
    ensures shots[j].at in w && shots[j].at in cells && cells[shots[j].at] == Shot(j)
  {
    assert cells[shots[j].at] == Shot(j);
    var cells' := cells - {shots[j].at};
    assert forall p :: p in cells' ==> Placed(cells[p], p, players, shots, dead);
  }

  lemma DestroyBoth(w: Walls, cells: Contents, players: Players, shots: Shots, dead: set<Projectile>, j: Projectile, k: Projectile)
    requires Matches(w, cells, players, shots, dead) && Flying(shots, dead, j) && Flying(shots, dead, k) && j != k
    ensures Matches(w, cells - {shots[k].at} - {shots[j].at}, players, shots, dead + {j} + {k})
  {
    Destroy(w, cells, players, shots, dead, j);
    Destroy(w, cells - {shots[j].at}, players, shots, dead + {j}, k);
    assert cells - {shots[k].at} - {shots[j].at} == cells - {shots[j].at} - {shots[k].at};
  }

  lemma Fly(w: Walls, cells: Contents, players: Players, shots: Shots, dead: set<Projectile>, j: Projectile, dp: DirectedPoint)
    requires Matches(w, cells, players, shots, dead) && Flying(shots, dead, j) && dp.at in w && dp.at !in cells
    ensures Matches(w, (cells - {shots[j].at})[dp.at := Shot(j)], players, shots[j := dp], dead)
  {
    var cells', shots' := (cells - {shots[j].at})[dp.at := Shot(j)], shots[j := dp];
    assert cells[shots[j].at] == Shot(j);
    forall p | p in cells'
      ensures p in w && Placed(cells'[p], p, players, shots', dead)
    {
      assert p != dp.at ==> p in cells && Placed(cells[p], p, players, shots, dead);
    }
  }

  // ---------------------------------------------------------------- one move of any projectile in the map

  datatype Board = Board(cells: Contents, players: Players, shots: Shots)

  ghost predicate BoardOk(w: Walls, b: Board, dead: set<Projectile>) {
    Matches(w, b.cells, b.players, b.shots, dead)
  }

  ghost function Ahead(b: Board, j: Projectile): Point
    requires j in b.shots
  {
    b.shots[j].at.Move(b.shots[j].facing)
  }

  /** The way ahead is open and a client is in it. */
  ghost predicate Hits(w: Walls, b: Board, j: Projectile)
    requires j in b.shots
  {
    Open(w, b.shots[j].at, b.shots[j].facing) && Ahead(b, j) in b.cells && b.cells[Ahead(b, j)].Player?
  }

  /** What moveProjectile does to the map of projectiles. */
  ghost function MovedShots(w: Walls, b: Board, j: Projectile): Shots
    requires j in b.shots
  {
    if Deaths(w, b, j) == {} then b.shots[j := DirectedPoint(Ahead(b, j), b.shots[j].facing)] else b.shots
  }

  /** A projectile that survives has moved once more. */
  ghost function MovedCount(w: Walls, b: Board, moves: map<Projectile, nat>, j: Projectile): map<Projectile, nat>
    requires j in b.shots && j in moves
  {
    if Deaths(w, b, j) == {} then moves[j := moves[j] + 1] else moves
  }

  /** What moveProjectile does to the board; respawn is where a killed client reappears. */
  ghost function Moved(w: Walls, b: Board, j: Projectile, respawn: DirectedPoint): Board
    requires j in b.shots
  {
    var dp, p := b.shots[j], Ahead(b, j);
    if !Open(w, dp.at, dp.facing) then b.(cells := b.cells - {dp.at})
    else if p !in b.cells then
      b.(cells := (b.cells - {dp.at})[p := Shot(j)], shots := MovedShots(w, b, j))
    else
      match b.cells[p]
      case Player(c) =>
        b.(cells := (b.cells - {p})[respawn.at := Player(c)] - {dp.at}, players := b.players[c := respawn])
      case Shot(_) => b.(cells := b.cells - {p} - {dp.at})
  }

  /** The projectiles it returns as destroyed. */
  ghost function Deaths(w: Walls, b: Board, j: Projectile): set<Projectile>
    requires j in b.shots
  {
    if Open(w, b.shots[j].at, b.shots[j].facing) then Casualties(b.cells, Ahead(b, j), j) else {j}
  }

  /** A killed client reappears in a cell that is empty, now that its own is. */
  ghost predicate RespawnOk(w: Walls, b: Board, j: Projectile, respawn: DirectedPoint)
    requires j in b.shots
  {
    Hits(w, b, j) ==> respawn.at in w && (respawn.at !in b.cells || respawn.at == Ahead(b, j))
  }

  /**
   When the move leaves cells and maps in step: always for a projectile still flying; for one destroyed
   earlier in the same tick, if nothing is in its old cell or comes there, and the way ahead is not free.
   */
  ghost predicate Orderly(w: Walls, b: Board, dead: set<Projectile>, j: Projectile, respawn: DirectedPoint)
    requires j in b.shots
  {
    var dp := b.shots[j];
    || j !in dead
    || (&& dp.at !in b.cells
        && (Open(w, dp.at, dp.facing) ==> Ahead(b, j) in b.cells)
        && (Hits(w, b, j) ==> respawn.at != dp.at))
  }

  /** Emptying a cell is right exactly when it was empty. */
  lemma Erase(w: Walls, b: Board, dead: set<Projectile>, p: Point)
    requires BoardOk(w, b, dead)
    ensures BoardOk(w, b.(cells := b.cells - {p}), dead) <==> p !in b.cells
  {
    if p in b.cells {
      assert Placed(b.cells[p], p, b.players, b.shots, dead);
    } else {
      assert b.cells - {p} == b.cells;
    }
  }

  ghost predicate Placeable(cells: Contents, players: Players, c: Client, p: Point) {
    if c in players then players[c].at == p else p !in cells
  }

  /** Putting a client into a cell, whatever is there and wherever the client was. */
  lemma PlaceIff(w: Walls, b: Board, dead: set<Projectile>, c: Client, dp: DirectedPoint)
    requires BoardOk(w, b, dead) && dp.at in w
    ensures BoardOk(w, b.(cells := b.cells[dp.at := Player(c)], players := b.players[c := dp]), dead)
            <==> Placeable(b.cells, b.players, c, dp.at)
  {
    var cells', players' := b.cells[dp.at := Player(c)], b.players[c := dp];
    if c in b.players {
      var was := b.players[c].at;
      assert was in cells' && (was != dp.at ==> !Placed(cells'[was], was, players', b.shots, dead));
      if was == dp.at {
        assert cells' == b.cells;
        SameCell(w, b, dead, c, dp);
      }
    } else if dp.at in b.cells {
      assert Placed(b.cells[dp.at], dp.at, b.players, b.shots, dead);
    } else {
      Place(w, b.cells, b.players, b.shots, dead, c, dp);
    }
  }

  lemma SameCell(w: Walls, b: Board, dead: set<Projectile>, c: Client, dp: DirectedPoint)
    requires BoardOk(w, b, dead) && c in b.players && b.players[c].at == dp.at
    ensures BoardOk(w, b.(players := b.players[c := dp]), dead)
  {
    assert forall p :: p in b.cells ==> Placed(b.cells[p], p, b.players, b.shots, dead);
  }

  lemma FlyingMoveKeeps(w: Walls, b: Board, dead: set<Projectile>, j: Projectile, respawn: DirectedPoint)
    requires BoardOk(w, b, dead) && Flying(b.shots, dead, j) && RespawnOk(w, b, j, respawn)
    requires Open(w, b.shots[j].at, b.shots[j].facing) ==> Ahead(b, j) in w
    ensures BoardOk(w, Moved(w, b, j, respawn), dead + Deaths(w, b, j))
  {
    var dp, p := b.shots[j], Ahead(b, j);
    Destroy(w, b.cells, b.players, b.shots, dead, j);
    if !Open(w, dp.at, dp.facing) {
    } else if p !in b.cells {
      Fly(w, b.cells, b.players, b.shots, dead, j, DirectedPoint(p, dp.facing));
      assert dead + {} == dead;
    } else {
      FlyingHitKeeps(w, b, dead, j, respawn);
    }
  }

  lemma FlyingHitKeeps(w: Walls, b: Board, dead: set<Projectile>, j: Projectile, respawn: DirectedPoint)
    requires BoardOk(w, b, dead) && Flying(b.shots, dead, j) && RespawnOk(w, b, j, respawn)
    requires Open(w, b.shots[j].at, b.shots[j].facing) && Ahead(b, j) in b.cells
    ensures BoardOk(w, Moved(w, b, j, respawn), dead + Deaths(w, b, j))
  {
    var dp, p := b.shots[j], Ahead(b, j);
    assert Placed(b.cells[p], p, b.players, b.shots, dead);
    match b.cells[p] {
      case Player(c) =>
        Relocate(w, b.cells, b.players, b.shots, dead, c, respawn);
        Destroy(w, (b.cells - {p})[respawn.at := Player(c)], b.players[c := respawn], b.shots, dead, j);
      case Shot(k) =>
        DestroyBoth(w, b.cells, b.players, b.shots, dead, j, k);
        assert dead + {j, k} == dead + {j} + {k};
    }
  }

  lemma StaleMove(w: Walls, b: Board, dead: set<Projectile>, j: Projectile, respawn: DirectedPoint)
    requires BoardOk(w, b, dead) && j in b.shots && j in dead && RespawnOk(w, b, j, respawn)
    ensures BoardOk(w, Moved(w, b, j, respawn), dead + Deaths(w, b, j)) <==> Orderly(w, b, dead, j, respawn)
  {
    var dp, p := b.shots[j], Ahead(b, j);
    assert dead + {j} == dead;
    if !Open(w, dp.at, dp.facing) {
      Erase(w, b, dead, dp.at);
    } else if p !in b.cells {
      var b' := Moved(w, b, j, respawn);
      assert p in b'.cells && !Placed(b'.cells[p], p, b'.players, b'.shots, dead + {});
    } else {
      StaleHit(w, b, dead, j, respawn);
    }
  }

  lemma StaleHit(w: Walls, b: Board, dead: set<Projectile>, j: Projectile, respawn: DirectedPoint)
    requires BoardOk(w, b, dead) && j in b.shots && j in dead && RespawnOk(w, b, j, respawn)
    requires Open(w, b.shots[j].at, b.shots[j].facing) && Ahead(b, j) in b.cells
    ensures BoardOk(w, Moved(w, b, j, respawn), dead + Deaths(w, b, j)) <==> Orderly(w, b, dead, j, respawn)
  {
    var dp, p := b.shots[j], Ahead(b, j);
    assert Placed(b.cells[p], p, b.players, b.shots, dead);
    assert dead + {j} == dead;
    match b.cells[p] {
      case Player(c) =>
        Relocate(w, b.cells, b.players, b.shots, dead, c, respawn);
        var b1 := b.(cells := (b.cells - {p})[respawn.at := Player(c)], players := b.players[c := respawn]);
        Erase(w, b1, dead, dp.at);
      case Shot(k) =>
        Destroy(w, b.cells, b.players, b.shots, dead, k);
        Erase(w, b.(cells := b.cells - {p}), dead + {k}, dp.at);
        assert dead + {j, k} == dead + {k};
    }
  }

  lemma DeathsInPlay(w: Walls, b: Board, dead: set<Projectile>, j: Projectile)
    requires BoardOk(w, b, dead) && j in b.shots
    ensures MovedShots(w, b, j).Keys == b.shots.Keys && Deaths(w, b, j) <= b.shots.Keys
  {
    if Ahead(b, j) in b.cells { assert Placed(b.cells[Ahead(b, j)], Ahead(b, j), b.players, b.shots, dead); }
  }

  /** Sweeping the destroyed projectiles out of the map afterwards neither mends nor breaks anything. */
  lemma SweptOk(w: Walls, b: Board, dead: set<Projectile>)
    ensures BoardOk(w, b, dead) <==> BoardOk(w, b.(shots := b.shots - dead), {})
  {
    var shots' := b.shots - dead;
    assert forall j :: Flying(b.shots, dead, j) <==> Flying(shots', {}, j);
    assert forall item, p :: Placed(item, p, b.players, b.shots, dead) <==> Placed(item, p, b.players, shots', {});
  }

  /**
   moveProjectile on any projectile in the map, in each of its four branches: once the destroyed
   projectiles are swept out, cells and maps agree if and only if the move was orderly.
   */
  lemma MoveKeepsIff(w: Walls, b: Board, dead: set<Projectile>, j: Projectile, respawn: DirectedPoint)
    requires BoardOk(w, b, dead) && j in b.shots && RespawnOk(w, b, j, respawn)
    requires Open(w, b.shots[j].at, b.shots[j].facing) ==> Ahead(b, j) in w
    ensures var b', dead' := Moved(w, b, j, respawn), dead + Deaths(w, b, j);
            && (BoardOk(w, b', dead') <==> Orderly(w, b, dead, j, respawn))
            && (BoardOk(w, b'.(shots := b'.shots - dead'), {}) <==> Orderly(w, b, dead, j, respawn))
  {
    if j in dead { StaleMove(w, b, dead, j, respawn); } else { FlyingMoveKeeps(w, b, dead, j, respawn); }
    SweptOk(w, Moved(w, b, j, respawn), dead + Deaths(w, b, j));
  }

  /** The clients that may not fire are exactly the owners of the projectiles in play, one each. */
  ghost predicate FiredMatch(shots: Shots, fired: set<Client>) {
    && (forall j :: j in shots ==> j.owner in fired)
    && (forall c :: c in fired ==> exists j :: j in shots && j.owner == c)
    && (forall j, k :: j in shots && k in shots && j.owner == k.owner ==> j == k)
  }

  /** The bookkeeping of projectiles. */
  ghost predicate Tracked(w: Walls, maxX: nat, maxY: nat, shots: Shots, fired: set<Client>, moves: map<Projectile, nat>,
                          dead: set<Projectile>, serial: nat)
  {
    && FiredMatch(shots, fired)
    && InFlight(w, maxX, maxY, shots, moves)
    && dead <= shots.Keys
    && forall j :: j in shots ==> j.serial < serial
  }

  lemma LaunchTracked(w: Walls, maxX: nat, maxY: nat, shots: Shots, fired: set<Client>, moves: map<Projectile, nat>,
                      dead: set<Projectile>, serial: nat, client: Client, dp: DirectedPoint)
    requires w.Keys == Cells(maxX, maxY) && Tracked(w, maxX, maxY, shots, fired, moves, dead, serial)
    requires client !in fired && dp.at in w
    ensures var j := Projectile(client, serial);
            j !in shots && Tracked(w, maxX, maxY, shots[j := dp], fired + {client}, moves[j := 0], dead, serial + 1)
  {
    var j := Projectile(client, serial);
    LaunchFired(shots, fired, j, dp);
    LaunchFlight(w, maxX, maxY, shots, moves, j, dp);
  }

  lemma GlideTracked(w: Walls, maxX: nat, maxY: nat, shots: Shots, fired: set<Client>, moves: map<Projectile, nat>,
                     dead: set<Projectile>, serial: nat, j: Projectile, dp: DirectedPoint)
    requires w.Keys == Cells(maxX, maxY) && Tracked(w, maxX, maxY, shots, fired, moves, dead, serial)
    requires j in shots && dp.at in w && dp == DirectedPoint(shots[j].at.Move(shots[j].facing), shots[j].facing)
    ensures Tracked(w, maxX, maxY, shots[j := dp], fired, moves[j := moves[j] + 1], dead, serial)
  {
    GlideFired(shots, fired, j, dp);
    GlideFlight(w, maxX, maxY, shots, moves, j, dp);
  }

  /** A move of any projectile keeps the books right. */
  lemma MovedTracked(w: Walls, maxX: nat, maxY: nat, b: Board, fired: set<Client>, moves: map<Projectile, nat>,
                     dead: set<Projectile>, serial: nat, j: Projectile)
    requires w.Keys == Cells(maxX, maxY) && Tracked(w, maxX, maxY, b.shots, fired, moves, dead, serial)
    requires BoardOk(w, b, dead) && j in b.shots && (Open(w, b.shots[j].at, b.shots[j].facing) ==> Ahead(b, j) in w)
    ensures j in moves
    ensures Tracked(w, maxX, maxY, MovedShots(w, b, j), fired, MovedCount(w, b, moves, j), dead + Deaths(w, b, j), serial)
  {
    var dp := b.shots[j];
    DeathsInPlay(w, b, dead, j);
    if Deaths(w, b, j) == {} {
      GlideTracked(w, maxX, maxY, b.shots, fired, moves, dead, serial, j, DirectedPoint(Ahead(b, j), dp.facing));
      assert dead + {} == dead;
    }
  }

  lemma ForgetTracked(w: Walls, maxX: nat, maxY: nat, shots: Shots, fired: set<Client>, moves: map<Projectile, nat>,
                      dead: set<Projectile>, serial: nat, j: Projectile)
    requires Tracked(w, maxX, maxY, shots, fired, moves, dead, serial) && j in dead
    ensures Tracked(w, maxX, maxY, shots - {j}, fired - {j.owner}, moves, dead - {j}, serial)
  {
    ForgetFired(shots, fired, j);
  }

  class Game {
    const maxX: nat
    const maxY: nat
    const walls: Walls
    var cells: Contents
    var clientMap: Players
    var projectileMap: Shots
    var clientFired: set<Client>
    var serial: nat
    /** Destroyed in the running tick and not yet swept out of the maps. */
    ghost var dead: set<Projectile>
    /** How often each projectile has moved. */
    ghost var moves: map<Projectile, nat>

    /** What holds whatever the cells say. */
    ghost predicate Sound()
      reads this`projectileMap, this`clientFired, this`moves, this`dead, this`serial
    {
      Playable(walls, maxX, maxY) && Tracked(walls, maxX, maxY, projectileMap, clientFired, moves, dead, serial)
    }

    ghost predicate Valid()
      reads this
    {
      Sound() && BoardOk(walls, Here(), dead)
    }

    ghost function Here(): Board
      reads this
    {
      Board(cells, clientMap, projectileMap)
    }

    constructor (w: Walls, x: nat, y: nat)
      requires Playable(w, x, y)
      ensures Valid() && cells == map[] && clientMap == map[] && projectileMap == map[] && dead == {}
      ensures maxX == x && maxY == y && walls == w && serial == 0 && clientFired == {}
    {
      maxX, maxY, walls := x, y, w;
      cells, clientMap, projectileMap, clientFired, serial := map[], map[], map[], {}, 0;
      dead, moves := {}, map[];
    }

    /** The target of an open passage is a cell: the bounds asserts cannot fail. */
    lemma OpenLeadsInside(p: Point, d: Direction)
      requires Sound() && Open(walls, p, d)
      ensures InBounds(maxX, maxY, p.Move(d)) && p.Move(d) in walls
    {
      assert p.Move(d) in Cells(maxX, maxY);
    }

    /** A random direction without a wall. */
    method RandomOpen(p: Point) returns (d: Direction)
      requires Valid() && p in walls
      ensures Open(walls, p, d)
    {
      d :| d !in walls[p];
    }

    /**
     The private addClient, on any cell. Cells and maps stay in step exactly when the cell is empty and the
     client is not in the maze yet, or the client is in that very cell already.
     */
    method AddClient(client: Client, point: Point)
      requires Valid() && InBounds(maxX, maxY, point)
      modifies this`cells, this`clientMap
      ensures cells == old(cells)[point := Player(client)]
      ensures client in clientMap && clientMap == old(clientMap)[client := clientMap[client]]
      ensures clientMap[client].at == point && Open(walls, point, clientMap[client].facing)
      ensures BoardOk(walls, Here(), dead) <==> Placeable(old(cells), old(clientMap), client, point)
      ensures Sound()
    {
      assert point in Cells(maxX, maxY);
      var d := RandomOpen(point);
      PlaceIff(walls, Here(), dead, client, DirectedPoint(point, d));
      cells := cells[point := Player(client)];
      clientMap := clientMap[client := DirectedPoint(point, d)];
    }

    /** removeClient */
    method RemoveClient(client: Client)
      requires Valid() && client in clientMap
      modifies this`cells, this`clientMap
      ensures Valid() && clientMap == old(clientMap) - {client}
      ensures cells == old(cells) - {old(clientMap)[client].at}
    {
      var point := clientMap[client].at;
      Vacate(walls, cells, clientMap, projectileMap, dead, client);
      clientMap := clientMap - {client};
      cells := cells - {point};
    }

    /** rotateClientLeft and rotateClientRight */
    method RotateClient(client: Client, left: bool)
      requires Valid() && client in clientMap
      modifies this`clientMap
      ensures Valid()
      ensures var dp := old(clientMap)[client];
              clientMap == old(clientMap)[client := DirectedPoint(dp.at, if left then dp.facing.TurnLeft() else dp.facing.TurnRight())]
    {
      var dp := clientMap[client];
      clientMap := clientMap[client := DirectedPoint(dp.at, if left then dp.facing.TurnLeft() else dp.facing.TurnRight())];
    }

    /** moveClient: one step through an open passage to an empty cell, or nothing. */
    method MoveClient(client: Client, d: Direction) returns (ok: bool)
      requires Valid() && client in clientMap
      modifies this`cells, this`clientMap
      ensures var dp := old(clientMap)[client];
              ok <==> Open(walls, dp.at, d) && dp.at.Move(d) !in old(cells)
      ensures !ok ==> clientMap == old(clientMap) && cells == old(cells)
      ensures ok ==> var dp := old(clientMap)[client];
                && clientMap == old(clientMap)[client := DirectedPoint(dp.at.Move(d), dp.facing)]
                && cells == old(cells)[dp.at.Move(d) := Player(client)] - {dp.at}
      ensures Valid()
    {
      var dp := clientMap[client];
      Vacate(walls, cells, clientMap, projectileMap, dead, client);
      if d in walls[dp.at] {
        return false;
      }
      OpenLeadsInside(dp.at, d);
      var newPoint := DirectedPoint(dp.at.Move(d), dp.facing);
      if newPoint.at in cells {
        return false;
      }
      Relocate(walls, cells, clientMap, projectileMap, dead, client, newPoint);
      clientMap := clientMap[client := newPoint];
      cells := cells[newPoint.at := Player(client)];
      cells := cells - {dp.at};
      return true;
    }

    /** killClient: the target reappears in some empty cell, facing an open passage. */
    method KillClient(target: Client)
      requires Valid() && target in clientMap
      modifies this`cells, this`clientMap
      ensures clientMap.Keys == old(clientMap).Keys
      ensures Respawned(walls, old(cells), old(clientMap), clientMap, target)
      ensures cells == (old(cells) - {old(clientMap)[target].at})[clientMap[target].at := Player(target)]
      ensures Valid()
    {
      var was := clientMap[target].at;
      Vacate(walls, cells, clientMap, projectileMap, dead, target);
      var point :| point in walls && (point !in cells || point == was);
      var d := RandomOpen(point);
      Relocate(walls, cells, clientMap, projectileMap, dead, target, DirectedPoint(point, d));
      cells := (cells - {was})[point := Player(target)];
      clientMap := clientMap[target := DirectedPoint(point, d)];
    }

    /** clientFire */
    method ClientFire(client: Client) returns (ok: bool)
      requires Valid() && client in clientMap
      modifies this`cells, this`clientMap, this`projectileMap, this`clientFired, this`serial, this`moves
      ensures Valid()
      ensures var dp := old(clientMap)[client]; var ahead := dp.at.Move(dp.facing);
              ok <==> client !in old(clientFired) && Open(walls, dp.at, dp.facing)
                      && (ahead in old(cells) ==> old(cells)[ahead].Player?)
      ensures !ok ==> cells == old(cells) && clientMap == old(clientMap)
      ensures ok ==> var dp := old(clientMap)[client];
                Struck(walls, old(cells), dp.at.Move(dp.facing), old(clientMap), clientMap)
      ensures var dp := old(clientMap)[client]; var ahead := dp.at.Move(dp.facing);
              if ok && ahead !in old(cells) then
                && clientFired == old(clientFired) + {client} && serial == old(serial) + 1
                && projectileMap == old(projectileMap)[Projectile(client, old(serial)) := DirectedPoint(ahead, dp.facing)]
                && cells == old(cells)[ahead := Shot(Projectile(client, old(serial)))]
              else projectileMap == old(projectileMap) && clientFired == old(clientFired)
    {
      if client in clientFired {
        return false;
      }
      var dp := clientMap[client];
      Vacate(walls, cells, clientMap, projectileMap, dead, client);
      var d := dp.facing;
      if d in walls[dp.at] {
        return false;
      }
      OpenLeadsInside(dp.at, d);
      var newPoint := DirectedPoint(dp.at.Move(d), d);
      if newPoint.at in cells {
        match cells[newPoint.at] {
          case Player(c) =>
            KillClient(c);
            return true;
          case Shot(_) =>
            return false;
        }
      }
      Shoot(client, newPoint);
      return true;
    }

    /** The part of clientFire that puts a new projectile into an empty cell. */
    method Shoot(client: Client, newPoint: DirectedPoint)
      requires Valid() && client !in clientFired && newPoint.at in walls && newPoint.at !in cells
      modifies this`cells, this`projectileMap, this`clientFired, this`serial, this`moves
      ensures serial == old(serial) + 1 && clientFired == old(clientFired) + {client}
      ensures projectileMap == old(projectileMap)[Projectile(client, old(serial)) := newPoint]
      ensures cells == old(cells)[newPoint.at := Shot(Projectile(client, old(serial)))]
      ensures moves == old(moves)[Projectile(client, old(serial)) := 0]
      ensures Valid()
    {
      var prj := Projectile(client, serial);
      assert prj !in projectileMap && prj !in dead;
      Launch(walls, cells, clientMap, projectileMap, dead, prj, newPoint);
      Enlist(client, newPoint);
      cells := cells[newPoint.at := Shot(prj)];
    }

    /** A new projectile, in the map and in the set of those who have fired. */
    method Enlist(client: Client, newPoint: DirectedPoint)
      requires Sound() && client !in clientFired && newPoint.at in walls
      modifies this`projectileMap, this`clientFired, this`serial, this`moves
      ensures serial == old(serial) + 1 && clientFired == old(clientFired) + {client}
      ensures projectileMap == old(projectileMap)[Projectile(client, old(serial)) := newPoint]
      ensures moves == old(moves)[Projectile(client, old(serial)) := 0]
      ensures Sound()
    {
      LaunchTracked(walls, maxX, maxY, projectileMap, clientFired, moves, dead, serial, client, newPoint);
      clientFired := clientFired + {client};
      var prj := Projectile(client, serial);
      serial := serial + 1;
      projectileMap := projectileMap[prj := newPoint];
      moves := moves[prj := 0];
    }

    /** The part of moveProjectile for an occupied cell ahead: a client dies, another projectile is destroyed too. */
    method Collide(prj: Projectile, ahead: Point) returns (deadPrj: set<Projectile>, ghost respawn: DirectedPoint)
      requires Valid() && prj in projectileMap && ahead in cells && ahead == Ahead(Here(), prj)
      requires Open(walls, projectileMap[prj].at, projectileMap[prj].facing)
      modifies this`cells, this`clientMap
      ensures deadPrj == Casualties(old(cells), ahead, prj)
      ensures RespawnOk(walls, old(Here()), prj, respawn) && Here() == Moved(walls, old(Here()), prj, respawn)
      ensures Hits(walls, old(Here()), prj) ==> Open(walls, respawn.at, respawn.facing)
    {
      var at := projectileMap[prj].at;
      respawn := projectileMap[prj];
      assert Placed(cells[ahead], ahead, clientMap, projectileMap, dead);
      match cells[ahead] {
        case Player(c) =>
          KillClient(c);
          respawn := clientMap[c];
          deadPrj := {prj};
        case Shot(other) =>
          cells := cells - {ahead};
          deadPrj := {prj, other};
      }
      cells := cells - {at};
    }

    /** The part of moveProjectile for an empty cell ahead. */
    method Glide(prj: Projectile, newPoint: DirectedPoint)
      requires prj in projectileMap && prj in moves
      modifies this`cells, this`projectileMap, this`moves
      ensures projectileMap == old(projectileMap)[prj := newPoint] && moves == old(moves)[prj := old(moves)[prj] + 1]
      ensures cells == (old(cells) - {old(projectileMap)[prj].at})[newPoint.at := Shot(prj)]
    {
      cells := cells - {projectileMap[prj].at};
      projectileMap := projectileMap[prj := newPoint];
      cells := cells[newPoint.at := Shot(prj)];
      moves := moves[prj := moves[prj] + 1];
    }

    /** The work of moveProjectile. */
    method Displace(prj: Projectile) returns (deadPrj: set<Projectile>, ghost respawn: DirectedPoint)
      requires Valid() && prj in projectileMap
      modifies this`cells, this`clientMap, this`projectileMap, this`moves
      ensures Here() == Moved(walls, old(Here()), prj, respawn) && deadPrj == Deaths(walls, old(Here()), prj)
      ensures projectileMap == MovedShots(walls, old(Here()), prj)
      ensures RespawnOk(walls, old(Here()), prj, respawn) && (Hits(walls, old(Here()), prj) ==> Open(walls, respawn.at, respawn.facing))
      ensures prj in old(moves) && moves == MovedCount(walls, old(Here()), old(moves), prj)
    {
      var dp := projectileMap[prj];
      var d := dp.facing;
      respawn := dp;
      if d in walls[dp.at] {
        cells := cells - {dp.at};
        deadPrj := {prj};
      } else {
        OpenLeadsInside(dp.at, d);
        var newPoint := DirectedPoint(dp.at.Move(d), d);
        if newPoint.at in cells {
          deadPrj, respawn := Collide(prj, newPoint.at);
        } else {
          Glide(prj, newPoint);
          deadPrj := {};
        }
      }
    }

    /** The cell ahead of a projectile that meets no wall. */
    lemma AheadInside(prj: Projectile)
      requires Sound() && prj in projectileMap && Open(walls, projectileMap[prj].at, projectileMap[prj].facing)
      ensures Ahead(Here(), prj) in walls
    {
      OpenLeadsInside(projectileMap[prj].at, projectileMap[prj].facing);
    }

    /** Note the destroyed projectiles. */
    ghost method Settle(deadPrj: set<Projectile>, shots: Shots, m: map<Projectile, nat>)
      requires Playable(walls, maxX, maxY) && projectileMap == shots && moves == m
      requires Tracked(walls, maxX, maxY, shots, clientFired, m, dead + deadPrj, serial)
      modifies this`dead
      ensures dead == old(dead) + deadPrj
      ensures Sound()
    {
      dead := dead + deadPrj;
    }

    /** The same, with the destroyed projectiles noted. */
    method Advance(prj: Projectile) returns (deadPrj: set<Projectile>, ghost respawn: DirectedPoint)
      requires Valid() && prj in projectileMap
      modifies this`cells, this`clientMap, this`projectileMap, this`dead, this`moves
      ensures Here() == Moved(walls, old(Here()), prj, respawn) && deadPrj == Deaths(walls, old(Here()), prj)
      ensures RespawnOk(walls, old(Here()), prj, respawn) && (Hits(walls, old(Here()), prj) ==> Open(walls, respawn.at, respawn.facing))
      ensures prj in old(moves) && moves == MovedCount(walls, old(Here()), old(moves), prj)
      ensures dead == old(dead) + deadPrj
      ensures Sound()
    {
      if Open(walls, projectileMap[prj].at, projectileMap[prj].facing) { AheadInside(prj); }
      MovedTracked(walls, maxX, maxY, Here(), clientFired, moves, dead, serial, prj);
      ghost var shots, m := MovedShots(walls, Here(), prj), MovedCount(walls, Here(), moves, prj);
      deadPrj, respawn := Displace(prj);
      Settle(deadPrj, shots, m);
    }

    /**
     moveProjectile, for any projectile in the map, destroyed in this tick or not. Returns those it destroys.
     The cells and the maps stay in step exactly when the move is orderly. A projectile that survives has
     moved once more, and the size of the maze bounds how often it can.
     */
    method MoveProjectile(prj: Projectile) returns (deadPrj: set<Projectile>, ghost respawn: DirectedPoint)
      requires Valid() && prj in projectileMap
      modifies this`cells, this`clientMap, this`projectileMap, this`dead, this`moves
      ensures Here() == Moved(walls, old(Here()), prj, respawn) && deadPrj == Deaths(walls, old(Here()), prj)
      ensures RespawnOk(walls, old(Here()), prj, respawn) && (Hits(walls, old(Here()), prj) ==> Open(walls, respawn.at, respawn.facing))
      ensures prj in old(moves) && moves == MovedCount(walls, old(Here()), old(moves), prj)
      ensures dead == old(dead) + deadPrj
      ensures BoardOk(walls, Here(), dead) <==> Orderly(walls, old(Here()), old(dead), prj, respawn)
      ensures Sound()
    {
      ghost var b, before := Here(), dead;
      if Open(walls, projectileMap[prj].at, projectileMap[prj].facing) { AheadInside(prj); }
      deadPrj, respawn := Advance(prj);
      MoveKeepsIff(walls, b, before, prj, respawn);
    }

    method ForgetAll(deadPrj: set<Projectile>)
      requires Sound() && dead == deadPrj
      modifies this`projectileMap, this`clientFired, this`dead
      ensures dead == {} && projectileMap == old(projectileMap) - deadPrj
      ensures Sound()
    {
      var rest := deadPrj;
      while rest != {}
        invariant dead == rest <= deadPrj
        invariant projectileMap - rest == old(projectileMap) - deadPrj
        invariant Sound()
        decreases |rest|
      {
        var prj :| prj in rest;
        DropOne(projectileMap, rest, prj);
        Forget(prj);
        rest := rest - {prj};
      }
      assert projectileMap - {} == projectileMap;
    }

    /** The second loop of run: destroyed projectiles leave the maps and their owners may fire again. */
    method Sweep(deadPrj: set<Projectile>)
      requires Sound() && dead == deadPrj
      modifies this`projectileMap, this`clientFired, this`dead
      ensures dead == {} && projectileMap == old(projectileMap) - deadPrj
      ensures Sound() && (old(Valid()) <==> Valid())
    {
      SweptOk(walls, Here(), deadPrj);
      ForgetAll(deadPrj);
    }

    /** Remove one destroyed projectile from the maps. */
    method Forget(prj: Projectile)
      requires Sound() && prj in dead
      modifies this`projectileMap, this`clientFired, this`dead
      ensures dead == old(dead) - {prj} && projectileMap == old(projectileMap) - {prj}
      ensures clientFired == old(clientFired) - {prj.owner}
      ensures Sound()
    {
      ForgetTracked(walls, maxX, maxY, projectileMap, clientFired, moves, dead, serial, prj);
      projectileMap := projectileMap - {prj};
      clientFired := clientFired - {prj.owner};
      dead := dead - {prj};
    }
  }

  lemma GlideFired(shots: Shots, fired: set<Client>, prj: Projectile, dp: DirectedPoint)
    requires FiredMatch(shots, fired) && prj in shots
    ensures FiredMatch(shots[prj := dp], fired)
  {
    var shots' := shots[prj := dp];
    assert forall j :: j in shots <==> j in shots';
    forall c | c in fired
      ensures exists j :: j in shots' && j.owner == c
    {
      var j :| j in shots && j.owner == c;
      assert j in shots';
    }
  }

  lemma ForgetFired(shots: Shots, fired: set<Client>, prj: Projectile)
    requires FiredMatch(shots, fired) && prj in shots
    ensures FiredMatch(shots - {prj}, fired - {prj.owner})
  {
    var shots' := shots - {prj};
    forall c | c in fired - {prj.owner}
      ensures exists j :: j in shots' && j.owner == c
    {
      var j :| j in shots && j.owner == c;
      assert j in shots';
    }
  }

  lemma DropOne(m: Shots, rest: set<Projectile>, j: Projectile)
    requires j in rest
    ensures (m - {j}) - (rest - {j}) == m - rest
  {
  }

  lemma LaunchFired(shots: Shots, fired: set<Client>, prj: Projectile, dp: DirectedPoint)
    requires FiredMatch(shots, fired) && prj.owner !in fired && prj !in shots
    ensures FiredMatch(shots[prj := dp], fired + {prj.owner})
  {
    var shots' := shots[prj := dp];
    forall c | c in fired + {prj.owner}
      ensures exists j :: j in shots' && j.owner == c
    {
      if c in fired {
        var j :| j in shots && j.owner == c;
        assert j in shots';
      } else {
        assert prj in shots' && prj.owner == c;
      }
    }
  }

  // ---------------------------------------------------------------- a tick that goes wrong

  /** A corridor of four cells. */
  function Corridor(): Walls {
    map p | p in Cells(4, 1) :: {North, South} + (if p.x == 0 then {West} else if p.x == 3 then {East} else {})
  }

  lemma CorridorOpen(p: Point, d: Direction)
    ensures Open(Corridor(), p, d) <==> p in Cells(4, 1) && ((d == East && p.x < 3) || (d == West && p.x > 0))
  {
  }

  lemma CorridorIsPlayable()
    ensures Playable(Corridor(), 4, 1)
  {
    var w := Corridor();
    forall p: Point, d: Direction
      ensures Open(w, p, d) <==> p in Cells(4, 1) && ((d == East && p.x < 3) || (d == West && p.x > 0))
    {
      CorridorOpen(p, d);
    }
    forall p | p in w
      ensures exists d: Direction :: Open(w, p, d)
    {
      assert if p.x == 3 then Open(w, p, West) else Open(w, p, East);
    }
  }

  const LEFT := DirectedPoint(Point(0, 0), East)
  const RIGHT := DirectedPoint(Point(3, 0), West)
  const SHOT0 := Projectile(0, 0)
  const SHOT1 := Projectile(1, 1)

  /** Two clients at the ends of the corridor; they can only face each other. */
  method TwoClients() returns (g: Game)
    ensures fresh(g) && g.Valid() && g.walls == Corridor() && g.dead == {} && g.serial == 0 && g.clientFired == {}
    ensures g.Here() == Board(ENDS, PLAYERS, map[])
  {
    CorridorIsPlayable();
    g := new Game(Corridor(), 4, 1);
    g.AddClient(0, Point(0, 0));
    CorridorOpen(Point(0, 0), g.clientMap[0].facing);
    g.AddClient(1, Point(3, 0));
    CorridorOpen(Point(3, 0), g.clientMap[1].facing);
  }

  const PLAYERS := map[0 := LEFT, 1 := RIGHT]
  const ENDS := map[Point(0, 0) := Player(0), Point(3, 0) := Player(1)]
  const MIDDLE0 := DirectedPoint(Point(1, 0), East)
  const MIDDLE1 := DirectedPoint(Point(2, 0), West)
  const FIRED := Board(ENDS[Point(1, 0) := Shot(SHOT0)][Point(2, 0) := Shot(SHOT1)], PLAYERS, map[SHOT0 := MIDDLE0][SHOT1 := MIDDLE1])
  const CRASHED := FIRED.(cells := ENDS)

  lemma LeftMayFire()
    ensures Open(Corridor(), Point(0, 0), East) && LEFT.at.Move(LEFT.facing) == Point(1, 0) && Point(1, 0) !in ENDS
  {
    CorridorOpen(Point(0, 0), East);
  }

  lemma RightMayFire()
    ensures Open(Corridor(), Point(3, 0), West) && RIGHT.at.Move(RIGHT.facing) == Point(2, 0)
    ensures Point(2, 0) !in ENDS[Point(1, 0) := Shot(SHOT0)]
  {
    CorridorOpen(Point(3, 0), West);
  }

  /** A client fires into an empty cell. */
  method FireInto(g: Game, client: Client, ahead: Point, d: Direction)
    requires g.Valid() && client in g.clientMap && client !in g.clientFired && g.clientMap[client].facing == d
    requires Open(g.walls, g.clientMap[client].at, d) && g.clientMap[client].at.Move(d) == ahead && ahead !in g.cells
    modifies g
    ensures var j := Projectile(client, old(g.serial));
            && g.Here() == Board(old(g.cells)[ahead := Shot(j)], old(g.clientMap), old(g.projectileMap)[j := DirectedPoint(ahead, d)])
            && g.clientFired == old(g.clientFired) + {client} && g.serial == old(g.serial) + 1 && g.dead == old(g.dead)
    ensures g.Valid()
  {
    var ok := g.ClientFire(client);
  }

  /** One of them fires. */
  method OneFires() returns (g: Game)
    ensures fresh(g) && g.Valid() && g.walls == Corridor() && g.dead == {} && g.clientFired == {0} && g.serial == 1
    ensures g.Here() == Board(ENDS[Point(1, 0) := Shot(SHOT0)], PLAYERS, map[SHOT0 := MIDDLE0])
  {
    g := TwoClients();
    LeftMayFire();
    FireInto(g, 0, Point(1, 0), East);
  }

  /** So does the other. */
  method BothFire() returns (g: Game)
    ensures fresh(g) && g.Valid() && g.walls == Corridor() && g.dead == {} && g.Here() == FIRED
  {
    g := OneFires();
    RightMayFire();
    FireInto(g, 1, Point(2, 0), West);
  }

  lemma CrashBoard(respawn: DirectedPoint)
    ensures Moved(Corridor(), FIRED, SHOT0, respawn) == CRASHED && Deaths(Corridor(), FIRED, SHOT0) == {SHOT0, SHOT1}
  {
    CorridorOpen(Point(1, 0), East);
  }

  lemma StaleBoard(respawn: DirectedPoint)
    ensures var b := Moved(Corridor(), CRASHED, SHOT1, respawn);
            && b.cells == ENDS[Point(1, 0) := Shot(SHOT1)] && b.shots.Keys == {SHOT0, SHOT1}
    ensures Deaths(Corridor(), CRASHED, SHOT1) == {} && !Orderly(Corridor(), CRASHED, {SHOT0, SHOT1}, SHOT1, respawn)
  {
    CorridorOpen(Point(2, 0), West);
  }

  /** The first loop of run: one projectile moves into the other, which destroys both. */
  method Crash() returns (g: Game, deadPrj: set<Projectile>)
    ensures fresh(g) && g.Valid() && g.walls == Corridor() && g.dead == deadPrj == {SHOT0, SHOT1} && g.Here() == CRASHED
  {
    g := BothFire();
    var crashed, respawn := g.MoveProjectile(SHOT0);
    CrashBoard(respawn);
    deadPrj := crashed;
  }

  /** The same loop goes on to the second projectile and moves it all the same. */
  method MoveOn(g: Game)
    requires g.Valid() && g.walls == Corridor() && g.dead == {SHOT0, SHOT1} && g.Here() == CRASHED
    modifies g
    ensures g.cells == ENDS[Point(1, 0) := Shot(SHOT1)] && g.projectileMap.Keys == {SHOT0, SHOT1}
    ensures g.dead == {SHOT0, SHOT1} && g.Sound()
  {
    var second, respawn := g.MoveProjectile(SHOT1);
    StaleBoard(respawn);
  }

  /**
   A run of the game that goes wrong: when the second loop of run has ended, no projectile is in play, and
   yet a cell holds one. Nothing can enter that cell any more.
   */
  method StaleShot() returns (g: Game)
    ensures g.projectileMap == map[] && g.cells == ENDS[Point(1, 0) := Shot(SHOT1)] && !g.Valid()
  {
    var game, deadPrj := Crash();
    g := game;
    MoveOn(g);
    g.Sweep(deadPrj);
    assert g.cells[Point(1, 0)] == Shot(SHOT1);
    assert !Placed(Shot(SHOT1), Point(1, 0), g.clientMap, g.projectileMap, g.dead);
  }
}

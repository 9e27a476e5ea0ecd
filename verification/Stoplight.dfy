/**
 Cars crossing an intersection of four quadrants under quadrant and approach locks. Each of the
 twelve routes is a small program over locks and "is locked" flags; every line carries the locks the
 car certainly holds, the locks it may hold, and the places it occupies, and these annotations are
 checked line by line against the code.
 */
module Stoplight {

  type Tid = nat

  datatype Direction = N | E | S | W

  datatype Turn = Straight | Left | Right

  /** Quadrant 1 is NW, 2 is NE, 3 is SW, 4 is SE. */
  datatype Place = NW | NE | SW | SE | Approach(d: Direction)

  /** The quadrant a car enters first. */
  function First(d: Direction): Place {
    match d case N => NW case E => NE case S => SE case W => SW
  }

  /** The next quadrant, against the clock. */
  function After(p: Place): Place {
    match p case NW => SW case SW => SE case SE => NE case NE => NW case Approach(_) => p
  }

  datatype Kind = Region1 | Region2 | Region3 | Leaving

  datatype Instr =
    | Test(p: Place, locked: nat, unlocked: nat)  // branch on the flag of p
    | Acquire(p: Place, next: nat)                // lock_acquire; also the end of cv_wait
    | Release(p: Place, next: nat)                // lock_release
    | Sleep(p: Place, next: nat)                  // cv_wait up to the sleep: releases the lock of p
    | Raise(p: Place, next: nat)                  // islocked = SQUARELOCKED
    | Lower(p: Place, next: nat)                  // islocked = SQUAREUNLOCKED
    | Report(p: Place, kind: Kind, next: nat)     // a message, printed while the car is in quadrant p
    | Halt

  datatype Line = Line(instr: Instr, must: set<Place>, may: set<Place>, occ: set<Place>)

  // ---------------------------------------------------------------- the routes

  /** approachintersection up to the call of the route. */
  function ApproachCode(a: Place, pc: nat): Line {
    match pc
    case 0 => Line(Test(a, 1, 3), {}, {a}, {})
    case 1 => Line(Sleep(a, 2), {}, {a}, {})
    case 2 => Line(Acquire(a, 0), {}, {}, {})
    case 3 => Line(Acquire(a, 4), {}, {a}, {})
    case _ => Line(Raise(a, 5), {a}, {a}, {})
  }

  /** The waiting loop, locking and first half of gostraight and turnleft. */
  function EnterTwo(a: Place, q1: Place, q2: Place, pc: nat): Line {
    match pc
    case 5 => Line(Test(q1, 7, 6), {a}, {a, q1, q2}, {a})
    case 6 => Line(Test(q2, 7, 15), {a}, {a, q1, q2}, {a})
    case 7 => Line(Test(q1, 8, 11), {a}, {a, q1, q2}, {a})
    case 8 => Line(Release(q2, 9), {a}, {a, q1, q2}, {a})
    case 9 => Line(Sleep(q1, 10), {a}, {a, q1}, {a})
    case 10 => Line(Acquire(q1, 11), {a}, {a}, {a})
    case 11 => Line(Test(q2, 12, 5), {a}, {a, q1, q2}, {a})
    case 12 => Line(Release(q1, 13), {a}, {a, q1, q2}, {a})
    case 13 => Line(Sleep(q2, 14), {a}, {a, q2}, {a})
    case 14 => Line(Acquire(q2, 5), {a}, {a}, {a})
    case 15 => Line(Acquire(q1, 16), {a}, {a, q1, q2}, {a})
    case 16 => Line(Acquire(q2, 17), {a, q1}, {a, q1, q2}, {a})
    case 17 => Line(Raise(q1, 18), {a, q1, q2}, {a, q1, q2}, {a})
    case 18 => Line(Raise(q2, 19), {a, q1, q2}, {a, q1, q2}, {a, q1})
    case 19 => Line(Report(q1, Region1, 20), {a, q1, q2}, {a, q1, q2}, {a, q1, q2})
    case 20 => Line(Lower(a, 21), {a, q1, q2}, {a, q1, q2}, {a, q1, q2})
    case 21 => Line(Release(a, 22), {a, q1, q2}, {a, q1, q2}, {q1, q2})
    case 22 => Line(Report(q2, Region2, 23), {q1, q2}, {q1, q2}, {q1, q2})
    case 23 => Line(Lower(q1, 24), {q1, q2}, {q1, q2}, {q1, q2})
    case _ => Line(Release(q1, 25), {q1, q2}, {q1, q2}, {q2})
  }

  function StraightCode(a: Place, q1: Place, q2: Place, pc: nat): Line {
    if pc < 5 then ApproachCode(a, pc)
    else if pc < 25 then EnterTwo(a, q1, q2, pc)
    else match pc
    case 25 => Line(Report(q2, Leaving, 26), {q2}, {q2}, {q2})
    case 26 => Line(Lower(q2, 27), {q2}, {q2}, {q2})
    case 27 => Line(Release(q2, 28), {q2}, {q2}, {})
    case _ => Line(Halt, {}, {}, {})
  }

  function LeftCode(a: Place, q1: Place, q2: Place, q3: Place, pc: nat): Line {
    if pc < 5 then ApproachCode(a, pc)
    else if pc < 25 then EnterTwo(a, q1, q2, pc)
    else match pc
    case 25 => Line(Test(q3, 26, 28), {q2}, {q2, q3}, {q2})
    case 26 => Line(Sleep(q3, 27), {q2}, {q2, q3}, {q2})
    case 27 => Line(Acquire(q3, 25), {q2}, {q2}, {q2})
    case 28 => Line(Acquire(q3, 29), {q2}, {q2, q3}, {q2})
    case 29 => Line(Raise(q3, 30), {q2, q3}, {q2, q3}, {q2})
    case 30 => Line(Report(q3, Region3, 31), {q2, q3}, {q2, q3}, {q2, q3})
    case 31 => Line(Lower(q2, 32), {q2, q3}, {q2, q3}, {q2, q3})
    case 32 => Line(Release(q2, 33), {q2, q3}, {q2, q3}, {q3})
    case 33 => Line(Report(q3, Leaving, 34), {q3}, {q3}, {q3})
    case 34 => Line(Lower(q3, 35), {q3}, {q3}, {q3})
    case 35 => Line(Release(q3, 36), {q3}, {q3}, {})
    case _ => Line(Halt, {}, {}, {})
  }

  function RightCode(a: Place, q1: Place, pc: nat): Line {
    if pc < 5 then ApproachCode(a, pc)
    else match pc
    case 5 => Line(Test(q1, 6, 8), {a}, {a, q1}, {a})
    case 6 => Line(Sleep(q1, 7), {a}, {a, q1}, {a})
    case 7 => Line(Acquire(q1, 5), {a}, {a}, {a})
    case 8 => Line(Acquire(q1, 9), {a}, {a, q1}, {a})
    case 9 => Line(Raise(q1, 10), {a, q1}, {a, q1}, {a})
    case 10 => Line(Report(q1, Region1, 11), {a, q1}, {a, q1}, {a, q1})
    case 11 => Line(Lower(a, 12), {a, q1}, {a, q1}, {a, q1})
    case 12 => Line(Release(a, 13), {a, q1}, {a, q1}, {q1})
    case 13 => Line(Report(q1, Leaving, 14), {q1}, {q1}, {q1})
    case 14 => Line(Lower(q1, 15), {q1}, {q1}, {q1})
    case 15 => Line(Release(q1, 16), {q1}, {q1}, {})
    case _ => Line(Halt, {}, {}, {})
  }

  /** A route: the turn, the approach, the quadrants on the way (the third only for a left turn), and the exit. */
  datatype Route = Route(turn: Turn, a: Place, q1: Place, q2: Place, q3: Place, to: Direction)

  function LeftOf(d: Direction): Direction {
    match d case N => E case E => S case S => W case W => N
  }

  function Destination(from: Direction, turn: Turn): Direction {
    match turn
    case Straight => LeftOf(LeftOf(from))
    case Left => LeftOf(from)
    case Right => LeftOf(LeftOf(LeftOf(from)))
  }

  function RouteOf(from: Direction, turn: Turn): Route {
    var q1 := First(from);
    Route(turn, Approach(from), q1, After(q1), After(After(q1)), Destination(from, turn))
  }

  ghost predicate Apart(r: Route) {
    r.a != r.q1 && r.a != r.q2 && r.a != r.q3 && r.q1 != r.q2 && r.q1 != r.q3 && r.q2 != r.q3
  }

  lemma RouteApart(from: Direction, turn: Turn)
    ensures Apart(RouteOf(from, turn))
  {
  }

  /** Line pc of a route. */
  function Code(r: Route, pc: nat): Line {
    match r.turn
    case Straight => StraightCode(r.a, r.q1, r.q2, pc)
    case Left => LeftCode(r.a, r.q1, r.q2, r.q3, pc)
    case Right => RightCode(r.a, r.q1, pc)
  }

  datatype Message = Message(kind: Kind, at: Place, to: Direction)

  /** History: said are the messages printed so far, been the places occupied so far. */
  datatype Car = Car(route: Route, pc: nat, said: seq<Message>, been: set<Place>)

  // ---------------------------------------------------------------- checking the annotations

  /** From a line with the given annotations control may pass to line l. */
  ghost predicate Flows(must: set<Place>, may: set<Place>, occ: set<Place>, l: Line) {
    l.must <= must && may <= l.may && l.occ == occ
  }

  /** A line is annotated right, given the lines it leads to. */
  ghost predicate LineOk(r: Route, pc: nat) {
    var l := Code(r, pc);
    && l.occ <= l.must <= l.may
    && match l.instr
       case Test(_, x, y) => Flows(l.must, l.may, l.occ, Code(r, x)) && Flows(l.must, l.may, l.occ, Code(r, y))
       case Acquire(p, n) => Flows(l.must + {p}, l.may + {p}, l.occ, Code(r, n))
       case Release(p, n) => p !in l.occ && Flows(l.must - {p}, l.may - {p}, l.occ, Code(r, n))
       case Sleep(p, n) => p !in l.occ && Flows(l.must - {p}, l.may - {p}, l.occ, Code(r, n))
       case Raise(p, n) => p in l.must && Flows(l.must, l.may, l.occ + {p}, Code(r, n))
       case Lower(p, n) => p in l.must && Flows(l.must, l.may, l.occ - {p}, Code(r, n))
       case Report(p, _, n) => p in l.occ && Flows(l.must, l.may, l.occ, Code(r, n))
       case Halt => l.may == {}
  }

  lemma ApproachOk(r: Route, pc: nat)
    requires Apart(r) && pc < 5
    ensures LineOk(r, pc)
  {
  }

  lemma LoopOk(r: Route, pc: nat)
    requires Apart(r) && r.turn != Right && 5 <= pc < 12
    ensures LineOk(r, pc)
  {
  }

  lemma LockOk(r: Route, pc: nat)
    requires Apart(r) && r.turn != Right && 12 <= pc < 18
    ensures LineOk(r, pc)
  {
  }

  lemma CrossOk(r: Route, pc: nat)
    requires Apart(r) && r.turn != Right && 18 <= pc < 25
    ensures LineOk(r, pc)
  {
  }

  lemma StraightEndOk(r: Route, pc: nat)
    requires Apart(r) && r.turn == Straight && 25 <= pc
    ensures LineOk(r, pc)
  {
  }

  lemma LeftEndOk(r: Route, pc: nat)
    requires Apart(r) && r.turn == Left && 25 <= pc
    ensures LineOk(r, pc)
  {
  }

  lemma RightOk(r: Route, pc: nat)
    requires Apart(r) && r.turn == Right && 5 <= pc
    ensures LineOk(r, pc)
  {
  }

  /** Every line of all twelve routes is annotated right. */
  lemma RoutesOk(r: Route, pc: nat)
    requires Apart(r)
    ensures LineOk(r, pc)
  {
    if pc < 5 { ApproachOk(r, pc); }
    else if r.turn == Right { RightOk(r, pc); }
    else if pc < 12 { LoopOk(r, pc); }
    else if pc < 18 { LockOk(r, pc); }
    else if pc < 25 { CrossOk(r, pc); }
    else if r.turn == Straight { StraightEndOk(r, pc); }
    else { LeftEndOk(r, pc); }
  }

  // ---------------------------------------------------------------- the intersection

  datatype State = State(cars: map<Tid, Car>, owner: map<Place, Tid>, flags: set<Place>)

  function At(s: State, t: Tid): Line
    requires t in s.cars
  {
    Code(s.cars[t].route, s.cars[t].pc)
  }

  /** A car can take its next step; acquiring needs the lock free or its own. */
  predicate Enabled(s: State, t: Tid) {
    && t in s.cars && !At(s, t).instr.Halt?
    && (At(s, t).instr.Acquire? ==> var p := At(s, t).instr.p; p in s.owner ==> s.owner[p] == t)
  }

  function Go(s: State, t: Tid, pc: nat): State
    requires t in s.cars
  {
    s.(cars := s.cars[t := s.cars[t].(pc := pc)])
  }

  function Unlock(owner: map<Place, Tid>, p: Place, t: Tid): map<Place, Tid> {
    if p in owner && owner[p] == t then owner - {p} else owner
  }

  function Apply(s: State, t: Tid): State
    requires Enabled(s, t)
  {
    match At(s, t).instr
    case Test(p, x, y) => Go(s, t, if p in s.flags then x else y)
    case Acquire(p, n) => Go(s, t, n).(owner := s.owner[p := t])
    case Release(p, n) => Go(s, t, n).(owner := Unlock(s.owner, p, t))
    case Sleep(p, n) => Go(s, t, n).(owner := Unlock(s.owner, p, t))
    case Raise(p, n) =>
      var car := s.cars[t];
      s.(cars := s.cars[t := car.(pc := n, been := car.been + {p})], flags := s.flags + {p})
    case Lower(p, n) => Go(s, t, n).(flags := s.flags - {p})
    case Report(p, kind, n) =>
      var car := s.cars[t];
      s.(cars := s.cars[t := car.(pc := n, said := car.said + [Message(kind, p, car.route.to)])])
  }

  /** The car holds what its line says it must and no more than it may. */
  ghost predicate CarOk(s: State, t: Tid)
    requires t in s.cars
  {
    && Apart(s.cars[t].route)
    && (forall p :: p in At(s, t).must ==> p in s.owner && s.owner[p] == t)
    && (forall p :: p in s.owner && s.owner[p] == t ==> p in At(s, t).may)
  }

  /** A flag is up exactly when some car occupies the place, and then that car holds its lock. */
  ghost predicate FlagOk(s: State, p: Place) {
    && (p in s.flags ==> p in s.owner && s.owner[p] in s.cars && p in At(s, s.owner[p]).occ)
    && (forall t :: t in s.cars && p in At(s, t).occ ==> p in s.flags)
  }

  ghost predicate Inv(s: State) {
    && (forall t :: t in s.cars ==> CarOk(s, t))
    && (forall p :: FlagOk(s, p))
    && (forall p :: p in s.owner ==> s.owner[p] in s.cars)
  }

  ghost predicate Init(s: State) {
    && s.owner == map[] && s.flags == {}
    && forall t :: t in s.cars ==> s.cars[t].pc == 0 && s.cars[t].said == [] && s.cars[t].been == {} && exists d: Direction, turn: Turn :: s.cars[t].route == RouteOf(d, turn)
  }

  lemma InitInv(s: State)
    requires Init(s)
    ensures Inv(s)
  {
    forall t | t in s.cars
      ensures CarOk(s, t)
    {
      var d: Direction, turn: Turn :| s.cars[t].route == RouteOf(d, turn);
      RouteApart(d, turn);
    }
  }

  lemma StepSelf(s: State, t: Tid)
    requires Enabled(s, t) && CarOk(s, t)
    ensures CarOk(Apply(s, t), t)
  {
    RoutesOk(s.cars[t].route, s.cars[t].pc);
  }

  lemma StepOther(s: State, t: Tid, u: Tid)
    requires Enabled(s, t) && u in s.cars && u != t && CarOk(s, u)
    ensures CarOk(Apply(s, t), u)
  {
    assert At(Apply(s, t), u) == At(s, u);
  }

  lemma StepOcc(s: State, t: Tid)
    requires Enabled(s, t) && Apart(s.cars[t].route)
    ensures var l := At(s, t);
            && l.occ <= l.must
            && At(Apply(s, t), t).occ == (if l.instr.Raise? then l.occ + {l.instr.p} else if l.instr.Lower? then l.occ - {l.instr.p} else l.occ)
            && (l.instr.Raise? || l.instr.Lower? ==> l.instr.p in l.must)
            && (l.instr.Release? || l.instr.Sleep? ==> l.instr.p !in l.occ)
  {
    RoutesOk(s.cars[t].route, s.cars[t].pc);
  }

  lemma StepFlag(s: State, t: Tid, p: Place)
    requires Inv(s) && Enabled(s, t)
    ensures FlagOk(Apply(s, t), p)
  {
    if p in Apply(s, t).flags { StepRaised(s, t, p); }
    StepOccupied(s, t, p);
  }

  lemma StepRaised(s: State, t: Tid, p: Place)
    requires Inv(s) && Enabled(s, t) && p in Apply(s, t).flags
    ensures var s' := Apply(s, t); p in s'.owner && s'.owner[p] in s'.cars && p in At(s', s'.owner[p]).occ
  {
    assert FlagOk(s, p) && CarOk(s, t);
    StepOcc(s, t);
    if p in s.flags {
      var o := s.owner[p];
      if o != t { assert At(Apply(s, t), o) == At(s, o); }
    } else {
      assert At(s, t).instr.Raise? && At(s, t).instr.p == p;
    }
  }

  lemma StepOccupied(s: State, t: Tid, p: Place)
    requires Inv(s) && Enabled(s, t)
    ensures var s' := Apply(s, t); forall u :: u in s'.cars && p in At(s', u).occ ==> p in s'.flags
  {
    var s' := Apply(s, t);
    assert FlagOk(s, p) && CarOk(s, t);
    StepOcc(s, t);
    forall u | u in s'.cars && p in At(s', u).occ
      ensures p in s'.flags
    {
      if u != t {
        assert At(s', u) == At(s, u);
        OccupantHolds(s, u, p);
      }
    }
  }

  /** Whoever occupies a place holds its lock. */
  lemma OccupantHolds(s: State, t: Tid, p: Place)
    requires t in s.cars && CarOk(s, t) && p in At(s, t).occ
    ensures p in s.owner && s.owner[p] == t
  {
    RoutesOk(s.cars[t].route, s.cars[t].pc);
  }

  lemma StepInv(s: State, t: Tid)
    requires Inv(s) && Enabled(s, t)
    ensures Inv(Apply(s, t))
  {
    var s' := Apply(s, t);
    forall u | u in s'.cars
      ensures CarOk(s', u)
    {
      if u == t { StepSelf(s, t); } else { StepOther(s, t, u); }
    }
    forall p
      ensures FlagOk(s', p)
    {
      StepFlag(s, t, p);
    }
  }

  ghost predicate CanRun(s: State, schedule: seq<Tid>)
    decreases |schedule|
  {
    schedule == [] || (Enabled(s, schedule[0]) && CanRun(Apply(s, schedule[0]), schedule[1..]))
  }

  ghost function Run(s: State, schedule: seq<Tid>): State
    requires CanRun(s, schedule)
    decreases |schedule|
  {
    if schedule == [] then s else Run(Apply(s, schedule[0]), schedule[1..])
  }

  lemma {:induction false} RunInv(s: State, schedule: seq<Tid>)
    requires Inv(s) && CanRun(s, schedule)
    ensures Inv(Run(s, schedule))
    decreases |schedule|
  {
    if schedule != [] {
      StepInv(s, schedule[0]);
      RunInv(Apply(s, schedule[0]), schedule[1..]);
    }
  }

  /** In every interleaving of every mix of routes no place ever holds two cars. */
  lemma NoCollision(s: State, schedule: seq<Tid>, t: Tid, u: Tid, p: Place)
    requires Init(s) && CanRun(s, schedule)
    requires var r := Run(s, schedule); t in r.cars && u in r.cars && p in At(r, t).occ && p in At(r, u).occ
    ensures t == u && p in Run(s, schedule).owner && Run(s, schedule).owner[p] == t
  {
    InitInv(s);
    RunInv(s, schedule);
    OccupantHolds(Run(s, schedule), t, p);
    OccupantHolds(Run(s, schedule), u, p);
  }

  /** Two cars never report themselves in the same quadrant at the same time. */
  lemma ReportsDiffer(s: State, schedule: seq<Tid>, t: Tid, u: Tid)
    requires Init(s) && CanRun(s, schedule) && t != u
    requires var r := Run(s, schedule);
             t in r.cars && u in r.cars && At(r, t).instr.Report? && At(r, u).instr.Report?
    ensures At(Run(s, schedule), t).instr.p != At(Run(s, schedule), u).instr.p
  {
    InitInv(s);
    RunInv(s, schedule);
    var r := Run(s, schedule);
    RoutesOk(r.cars[t].route, r.cars[t].pc);
    RoutesOk(r.cars[u].route, r.cars[u].pc);
    OccupantHolds(r, t, At(r, t).instr.p);
    OccupantHolds(r, u, At(r, u).instr.p);
  }

  /** A car that has finished holds no quadrant and no approach lock. */
  lemma FinishedHoldsNothing(s: State, schedule: seq<Tid>, t: Tid, p: Place)
    requires Init(s) && CanRun(s, schedule)
    requires var r := Run(s, schedule); t in r.cars && At(r, t).instr.Halt? && p in r.owner
    ensures Run(s, schedule).owner[p] != t
  {
    InitInv(s);
    RunInv(s, schedule);
    var r := Run(s, schedule);
    RoutesOk(r.cars[t].route, r.cars[t].pc);
    assert CarOk(r, t);
  }

  // ---------------------------------------------------------------- where the cars go

  /** The quadrants of each way through the intersection, in order. */
  function Path(from: Direction, turn: Turn): (path: seq<Place>)
    ensures 1 <= |path| <= 3
  {
    match (from, turn)
    case (N, Straight) => [NW, SW]
    case (N, Left) => [NW, SW, SE]
    case (N, Right) => [NW]
    case (E, Straight) => [NE, NW]
    case (E, Left) => [NE, NW, SW]
    case (E, Right) => [NE]
    case (S, Straight) => [SE, NE]
    case (S, Left) => [SE, NE, NW]
    case (S, Right) => [SE]
    case (W, Straight) => [SW, SE]
    case (W, Left) => [SW, SE, NE]
    case (W, Right) => [SW]
  }

  function Exit(from: Direction, turn: Turn): Direction {
    match (from, turn)
    case (N, Straight) => S
    case (N, Left) => E
    case (N, Right) => W
    case (E, Straight) => W
    case (E, Left) => S
    case (E, Right) => N
    case (S, Straight) => N
    case (S, Left) => W
    case (S, Right) => E
    case (W, Straight) => E
    case (W, Left) => N
    case (W, Right) => S
  }

  /** A quadrant lies on that side of the intersection. */
  predicate Borders(p: Place, d: Direction) {
    match d
    case N => p == NW || p == NE
    case E => p == NE || p == SE
    case S => p == SW || p == SE
    case W => p == NW || p == SW
  }

  /** Two different quadrants with a side in common. */
  predicate Adjacent(p: Place, q: Place) {
    p != q && exists d: Direction :: Borders(p, d) && Borders(q, d)
  }

  lemma AdjacentIf(p: Place, q: Place)
    requires p != q && !p.Approach? && !q.Approach? && !(p == NW && q == SE) && !(p == SE && q == NW) && !(p == NE && q == SW) && !(p == SW && q == NE)
    ensures Adjacent(p, q)
  {
    var d := if Borders(p, N) && Borders(q, N) then N else if Borders(p, E) && Borders(q, E) then E
             else if Borders(p, S) && Borders(q, S) then S else W;
    assert Borders(p, d) && Borders(q, d);
  }

  /** A path starts at the side the car comes from, goes from quadrant to neighbouring quadrant, and ends at its exit. */
  lemma PathLeadsThrough(from: Direction, turn: Turn)
    ensures var path := Path(from, turn);
            && Borders(path[0], from) && Borders(path[|path| - 1], Exit(from, turn)) && Exit(from, turn) != from
            && forall i :: 0 < i < |path| ==> Adjacent(path[i - 1], path[i])
  {
    var path := Path(from, turn);
    forall i | 0 < i < |path|
      ensures Adjacent(path[i - 1], path[i])
    {
      AdjacentIf(path[i - 1], path[i]);
    }
  }

  /** A message for each quadrant, and one on leaving the last. */
  function Script(path: seq<Place>, to: Direction): seq<Message>
    requires 1 <= |path| <= 3
  {
    var last := Message(Leaving, path[|path| - 1], to);
    if |path| == 1 then [Message(Region1, path[0], to), last]
    else if |path| == 2 then [Message(Region1, path[0], to), Message(Region2, path[1], to), last]
    else [Message(Region1, path[0], to), Message(Region2, path[1], to), Message(Region3, path[2], to), last]
  }

  /** The messages printed before line pc. */
  ghost function Said(r: Route, pc: nat): seq<Message> {
    var m1, m2, m3 := Message(Region1, r.q1, r.to), Message(Region2, r.q2, r.to), Message(Region3, r.q3, r.to);
    match r.turn
    case Straight => if pc < 20 then [] else if pc < 23 then [m1] else if pc < 26 then [m1, m2] else [m1, m2, Message(Leaving, r.q2, r.to)]
    case Left =>
      if pc < 20 then [] else if pc < 23 then [m1] else if pc < 31 then [m1, m2]
      else if pc < 34 then [m1, m2, m3] else [m1, m2, m3, Message(Leaving, r.q3, r.to)]
    case Right => if pc < 11 then [] else if pc < 14 then [m1] else [m1, Message(Leaving, r.q1, r.to)]
  }

  /** The places occupied before line pc. */
  ghost function Been(r: Route, pc: nat): set<Place> {
    if pc < 5 then {}
    else if r.turn == Right then (if pc < 10 then {r.a} else {r.a, r.q1})
    else if pc < 18 then {r.a}
    else if pc < 19 then {r.a, r.q1}
    else if r.turn == Straight || pc < 30 then {r.a, r.q1, r.q2}
    else {r.a, r.q1, r.q2, r.q3}
  }

  /** Line pc leads to line n, having printed and occupied that. */
  ghost predicate Continues(r: Route, pc: nat, n: nat, messages: seq<Message>, places: set<Place>) {
    Said(r, n) == Said(r, pc) + messages && Been(r, n) == Been(r, pc) + places
  }

  ghost predicate LineTells(r: Route, pc: nat) {
    match Code(r, pc).instr
    case Test(_, x, y) => Continues(r, pc, x, [], {}) && Continues(r, pc, y, [], {})
    case Acquire(_, n) => Continues(r, pc, n, [], {})
    case Release(_, n) => Continues(r, pc, n, [], {})
    case Sleep(_, n) => Continues(r, pc, n, [], {})
    case Raise(p, n) => Continues(r, pc, n, [], {p})
    case Lower(_, n) => Continues(r, pc, n, [], {})
    case Report(p, kind, n) => Continues(r, pc, n, [Message(kind, p, r.to)], {})
    case Halt => true
  }

  lemma StraightTells(r: Route, pc: nat)
    requires r.turn == Straight
    ensures LineTells(r, pc)
  {
  }

  lemma LeftTells(r: Route, pc: nat)
    requires r.turn == Left
    ensures LineTells(r, pc)
  {
  }

  lemma RightTells(r: Route, pc: nat)
    requires r.turn == Right
    ensures LineTells(r, pc)
  {
  }

  /** A car's history is that of its line. */
  ghost predicate HistoryOk(car: Car) {
    car.said == Said(car.route, car.pc) && car.been == Been(car.route, car.pc)
  }

  lemma StepHistory(s: State, t: Tid, u: Tid)
    requires Enabled(s, t) && u in s.cars && HistoryOk(s.cars[u])
    ensures u in Apply(s, t).cars && HistoryOk(Apply(s, t).cars[u]) && Apply(s, t).cars[u].route == s.cars[u].route
  {
    if t == u {
      var r, pc := s.cars[t].route, s.cars[t].pc;
      match r.turn {
        case Straight => StraightTells(r, pc);
        case Left => LeftTells(r, pc);
        case Right => RightTells(r, pc);
      }
    }
  }

  lemma {:induction false} RunHistory(s: State, schedule: seq<Tid>, u: Tid)
    requires CanRun(s, schedule) && u in s.cars && HistoryOk(s.cars[u])
    ensures var r := Run(s, schedule); u in r.cars && HistoryOk(r.cars[u]) && r.cars[u].route == s.cars[u].route
    decreases |schedule|
  {
    if schedule != [] {
      StepHistory(s, schedule[0], u);
      RunHistory(Apply(s, schedule[0]), schedule[1..], u);
    }
  }

  lemma RouteIsPath(from: Direction, turn: Turn)
    ensures var r, path := RouteOf(from, turn), Path(from, turn);
            && r.turn == turn && r.a == Approach(from) && r.to == Exit(from, turn)
            && r.q1 == path[0] && (|path| > 1 ==> r.q2 == path[1]) && (|path| > 2 ==> r.q3 == path[2])
            && |path| == (match turn case Straight => 2 case Left => 3 case Right => 1)
  {
  }

  /**
   In every interleaving, a car that has finished has driven exactly the way its direction and turn ask for:
   it has occupied the quadrants of its path and its own approach, no others, and has printed the messages for
   these quadrants in order, with its destination.
   */
  lemma RouteDriven(s: State, schedule: seq<Tid>, t: Tid, from: Direction, turn: Turn)
    requires Init(s) && CanRun(s, schedule) && t in s.cars && s.cars[t].route == RouteOf(from, turn)
    requires t in Run(s, schedule).cars && At(Run(s, schedule), t).instr.Halt?
    ensures var car, path := Run(s, schedule).cars[t], Path(from, turn);
            && car.said == Script(path, Exit(from, turn))
            && car.been == {Approach(from)} + set p | p in path
  {
    RunHistory(s, schedule, t);
    RouteIsPath(from, turn);
    FinishedHistory(RouteOf(from, turn), Run(s, schedule).cars[t].pc, Path(from, turn));
  }

  lemma FinishedHistory(r: Route, pc: nat, path: seq<Place>)
    requires Code(r, pc).instr.Halt? && |path| == (match r.turn case Straight => 2 case Left => 3 case Right => 1)
    requires r.q1 == path[0] && (|path| > 1 ==> r.q2 == path[1]) && (|path| > 2 ==> r.q3 == path[2])
    ensures Said(r, pc) == Script(path, r.to) && Been(r, pc) == {r.a} + set p | p in path
  {
  }
}

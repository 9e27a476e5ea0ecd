/**
 Cats and mice sharing two bowls, with locks and a condition variable: any number of animals,
 one step per access to shared state. Locks behave as the kernel's do: acquiring succeeds when the
 lock is free or already held by the same thread. Waking from the condition variable is allowed at
 any time.
 */
module CatMouse {
  import opened Collections

  type Tid = nat

  const TIMES_EATING := 4

  datatype Kind = Cat | Mouse {
    function Other(): Kind { if Cat? then Mouse else Cat }
  }

  datatype Bowl = One | Two {
    function Other(): Bowl { if One? then Two else One }
  }

  /** Where an animal is in catlock or mouselock. */
  datatype Pc =
    | Enter                   // at lock_acquire(openbowl_lock)
    | AllTaken(b: Bowl)       // first loop, about to look at bowl b
    | EnemyAt(b: Bowl)        // second loop, about to look at bowl b
    | Pick(b: Bowl)           // about to test whether bowl b is free
    | Wait(loop: nat)         // in cv_wait, at the release of the lock
    | Asleep(loop: nat)       // asleep, or at the reacquiring of the lock
    | LockBowl(b: Bowl)
    | Claim(b: Bowl)          // about to write who
    | LeaveDoor(b: Bowl)      // about to release openbowl_lock
    | Eat(b: Bowl)
    | Unclaim(b: Bowl)        // about to write FREE
    | Signal(b: Bowl)
    | UnlockBowl(b: Bowl)
    | Finished

  datatype Animal = Animal(kind: Kind, pc: Pc, round: nat, eaten: nat)

  /** who: None is FREE. */
  datatype State = State(
    animals: map<Tid, Animal>,
    door: Option<Tid>,
    lock1: Option<Tid>, lock2: Option<Tid>,
    who1: Option<Kind>, who2: Option<Kind>)

  function Lock(s: State, b: Bowl): Option<Tid> { if b == One then s.lock1 else s.lock2 }
  function Who(s: State, b: Bowl): Option<Kind> { if b == One then s.who1 else s.who2 }

  function SetLock(s: State, b: Bowl, o: Option<Tid>): State {
    if b == One then s.(lock1 := o) else s.(lock2 := o)
  }
  function SetWho(s: State, b: Bowl, k: Option<Kind>): State {
    if b == One then s.(who1 := k) else s.(who2 := k)
  }

  predicate Free(o: Option<Tid>, t: Tid) { o == None || o == Some(t) }

  /** The thread can take its next step. */
  predicate Enabled(s: State, t: Tid) {
    t in s.animals &&
    match s.animals[t].pc
    case Enter => Free(s.door, t)
    case Asleep(_) => Free(s.door, t)
    case LockBowl(b) => Free(Lock(s, b), t)
    case Finished => false
    case _ => true
  }

  function Go(s: State, t: Tid, pc: Pc): State
    requires t in s.animals
  {
    s.(animals := s.animals[t := s.animals[t].(pc := pc)])
  }

  /** lock_release: only the owner's release has an effect. */
  function Released(o: Option<Tid>, t: Tid): Option<Tid> { if o == Some(t) then None else o }

  /** The next step of animal t. */
  function Apply(s: State, t: Tid): State
    requires Enabled(s, t)
  {
    var a := s.animals[t];
    match a.pc
    case Enter => Go(s, t, AllTaken(One)).(door := Some(t))
    case AllTaken(b) =>
      if Who(s, b) == None then Go(s, t, EnemyAt(One))
      else if b == One then Go(s, t, AllTaken(Two)) else Go(s, t, Wait(1))
    case EnemyAt(b) =>
      if Who(s, b) == Some(a.kind.Other()) then Go(s, t, Wait(2))
      else if b == One then Go(s, t, EnemyAt(Two)) else Go(s, t, Pick(One))
    case Pick(b) =>
      if Who(s, b) == None then Go(s, t, LockBowl(b))
      else if b == One then Go(s, t, Pick(Two)) else Go(s, t, Enter)
    case Wait(n) => Go(s, t, Asleep(n)).(door := Released(s.door, t))
    case Asleep(n) => Go(s, t, if n == 1 then AllTaken(One) else EnemyAt(One)).(door := Some(t))
    case LockBowl(b) => SetLock(Go(s, t, Claim(b)), b, Some(t))
    case Claim(b) => SetWho(Go(s, t, LeaveDoor(b)), b, Some(a.kind))
    case LeaveDoor(b) => Go(s, t, Eat(b)).(door := Released(s.door, t))
    case Eat(b) => s.(animals := s.animals[t := a.(pc := Unclaim(b), eaten := a.eaten + 1)])
    case Unclaim(b) => SetWho(Go(s, t, Signal(b)), b, None)
    case Signal(b) => Go(s, t, UnlockBowl(b))
    case UnlockBowl(b) =>
      var pc := if a.round + 1 < TIMES_EATING then Enter else Finished;
      SetLock(s.(animals := s.animals[t := a.(pc := pc, round := a.round + 1)]), b, Released(Lock(s, b), t))
  }

  // ---------------------------------------------------------------- the invariant

  /** Code that runs with the door locked. */
  predicate InDoor(pc: Pc) {
    pc.AllTaken? || pc.EnemyAt? || pc.Pick? || pc.Wait? || pc.LockBowl? || pc.Claim? || pc.LeaveDoor?
  }

  /** Code that runs with bowl b locked. */
  predicate AtBowl(pc: Pc, b: Bowl) {
    (pc.Claim? || pc.LeaveDoor? || pc.Eat? || pc.Unclaim? || pc.Signal? || pc.UnlockBowl?) && pc.b == b
  }

  /** Code between writing who and writing FREE. */
  predicate Claims(pc: Pc, b: Bowl) {
    (pc.LeaveDoor? || pc.Eat? || pc.Unclaim?) && pc.b == b
  }

  /** A bowl not free has been claimed by the animal that locked it; a free one has not. */
  ghost predicate BowlOk(s: State, b: Bowl) {
    && (forall t :: t in s.animals && AtBowl(s.animals[t].pc, b) <==> Lock(s, b) == Some(t))
    && (forall t :: t in s.animals && Claims(s.animals[t].pc, b) ==> Who(s, b) == Some(s.animals[t].kind))
    && (Who(s, b) != None ==> Lock(s, b).Some? && Claims(s.animals[Lock(s, b).value].pc, b))
  }

  /** What an animal inside the door has found out stays true. */
  ghost predicate KnowledgeOk(s: State, a: Animal) {
    var enemy := Some(a.kind.Other());
    match a.pc
    case EnemyAt(b) => b == Two ==> s.who1 != enemy
    case Pick(_) => s.who1 != enemy && s.who2 != enemy
    case LockBowl(_) => s.who1 != enemy && s.who2 != enemy
    case Claim(_) => s.who1 != enemy && s.who2 != enemy
    case _ => true
  }

  ghost predicate AnimalOk(s: State, t: Tid)
    requires t in s.animals
  {
    var a := s.animals[t];
    && (InDoor(a.pc) ==> s.door == Some(t))
    && (s.door == Some(t) ==> InDoor(a.pc) || a.pc == Enter)
    && KnowledgeOk(s, a)
    && a.eaten == (if a.pc.Unclaim? || a.pc.Signal? || a.pc.UnlockBowl? then a.round + 1 else a.round)
    && (if a.pc.Finished? then a.round == TIMES_EATING else a.round < TIMES_EATING)
  }

  /** No cat's bowl beside a mouse's. */
  ghost predicate Peace(s: State) {
    s.who1 == None || s.who2 == None || s.who1 == s.who2
  }

  ghost predicate Inv(s: State) {
    && BowlOk(s, One) && BowlOk(s, Two) && Peace(s)
    && (forall t :: t in s.animals ==> AnimalOk(s, t))
  }

  /** All animals about to enter, bowls free, locks free. */
  ghost predicate Init(s: State) {
    && s.door == s.lock1 == s.lock2 == None && s.who1 == s.who2 == None
    && forall t :: t in s.animals ==> s.animals[t].pc == Enter && s.animals[t].round == s.animals[t].eaten == 0
  }

  /** Who only changes at the hands of the animal that holds the door, or to FREE. */
  lemma StepWho(s: State, t: Tid, b: Bowl)
    requires Enabled(s, t) && AnimalOk(s, t)
    ensures var s' := Apply(s, t);
            Who(s', b) == Who(s, b) || Who(s', b) == None || (s.door == Some(t) && s.animals[t].pc == Claim(b))
  {
  }

  /** The step is one of the four that change the lock or the owner of bowl b. */
  predicate Touches(pc: Pc, b: Bowl) {
    (pc.LockBowl? || pc.Claim? || pc.Unclaim? || pc.UnlockBowl?) && pc.b == b
  }

  lemma StepElsewhere(s: State, t: Tid, b: Bowl)
    requires BowlOk(s, b) && Enabled(s, t) && !Touches(s.animals[t].pc, b)
    ensures BowlOk(Apply(s, t), b)
  {
    StepOwnPart(s, t, b);
    StepOtherParts(s, t);
    BowlUntouched(s, Apply(s, t), t, b);
  }

  lemma StepOwnPart(s: State, t: Tid, b: Bowl)
    requires Enabled(s, t) && !Touches(s.animals[t].pc, b)
    ensures var s' := Apply(s, t);
            && t in s'.animals && Lock(s', b) == Lock(s, b) && Who(s', b) == Who(s, b)
            && var a, a' := s.animals[t], s'.animals[t];
               a'.kind == a.kind && (AtBowl(a'.pc, b) <==> AtBowl(a.pc, b)) && (Claims(a'.pc, b) <==> Claims(a.pc, b))
  {
  }

  lemma StepOtherParts(s: State, t: Tid)
    requires Enabled(s, t)
    ensures Apply(s, t).animals.Keys == s.animals.Keys
    ensures forall u :: u in s.animals && u != t ==> Apply(s, t).animals[u] == s.animals[u]
  {
  }

  lemma BowlUntouched(s: State, s': State, t: Tid, b: Bowl)
    requires BowlOk(s, b) && s'.animals.Keys == s.animals.Keys && t in s.animals
    requires forall u :: u in s.animals && u != t ==> s'.animals[u] == s.animals[u]
    requires Lock(s', b) == Lock(s, b) && Who(s', b) == Who(s, b)
    requires var a, a' := s.animals[t], s'.animals[t];
             a'.kind == a.kind && (AtBowl(a'.pc, b) <==> AtBowl(a.pc, b)) && (Claims(a'.pc, b) <==> Claims(a.pc, b))
    ensures BowlOk(s', b)
  {
  }

  lemma StepThere(s: State, t: Tid, b: Bowl)
    requires BowlOk(s, b) && Enabled(s, t) && Touches(s.animals[t].pc, b)
    ensures BowlOk(Apply(s, t), b)
  {
    assert forall u :: u in s.animals && u != t ==> Apply(s, t).animals[u] == s.animals[u];
  }

  lemma StepBowl(s: State, t: Tid, b: Bowl)
    requires BowlOk(s, b) && Enabled(s, t)
    ensures BowlOk(Apply(s, t), b)
  {
    if Touches(s.animals[t].pc, b) { StepThere(s, t, b); } else { StepElsewhere(s, t, b); }
  }

  lemma StepPeace(s: State, t: Tid)
    requires Inv(s) && Enabled(s, t)
    ensures Peace(Apply(s, t))
  {
    assert AnimalOk(s, t);
    var pc := s.animals[t].pc;
    if pc.Claim? && Who(s, pc.b.Other()).Some? {
      var k := Who(s, pc.b.Other()).value;
      assert k == Cat || k == Mouse;
    }
  }

  lemma StepSelf(s: State, t: Tid)
    requires Enabled(s, t) && AnimalOk(s, t)
    ensures AnimalOk(Apply(s, t), t)
  {
  }

  lemma StepOther(s: State, t: Tid, u: Tid)
    requires Inv(s) && Enabled(s, t) && u in s.animals && u != t
    ensures AnimalOk(Apply(s, t), u)
  {
    assert AnimalOk(s, t) && AnimalOk(s, u);
    assert Apply(s, t).animals[u] == s.animals[u];
    StepWho(s, t, One);
    StepWho(s, t, Two);
  }

  lemma StepInv(s: State, t: Tid)
    requires Inv(s) && Enabled(s, t)
    ensures Inv(Apply(s, t))
  {
    StepBowl(s, t, One);
    StepBowl(s, t, Two);
    StepPeace(s, t);
    StepAnimals(s, t);
  }

  lemma StepAnimals(s: State, t: Tid)
    requires Inv(s) && Enabled(s, t)
    ensures forall u :: u in Apply(s, t).animals ==> AnimalOk(Apply(s, t), u)
  {
    forall u | u in Apply(s, t).animals
      ensures AnimalOk(Apply(s, t), u)
    {
      if u == t { StepSelf(s, t); } else { StepOther(s, t, u); }
    }
  }

  ghost predicate CanRun(s: State, schedule: seq<Tid>)
    decreases |schedule|
  {
    schedule == [] || (Enabled(s, schedule[0]) && CanRun(Apply(s, schedule[0]), schedule[1..]))
  }

  ghost function Run(s: State, schedule: seq<Tid>): State
    requires CanRun(s, schedule)
    decreases |schedule|
  {
    if schedule == [] then s else Run(Apply(s, schedule[0]), schedule[1..])
  }

  lemma {:induction false} RunInv(s: State, schedule: seq<Tid>)
    requires Inv(s) && CanRun(s, schedule)
    ensures Inv(Run(s, schedule))
    decreases |schedule|
  {
    if schedule != [] {
      StepInv(s, schedule[0]);
      RunInv(Apply(s, schedule[0]), schedule[1..]);
    }
  }

  /** In every interleaving, two animals that eat use different bowls and are of the same kind. */
  lemma EatInPeace(s: State, schedule: seq<Tid>, t: Tid, u: Tid, b: Bowl, c: Bowl)
    requires Init(s) && CanRun(s, schedule) && t != u
    requires var r := Run(s, schedule);
             t in r.animals && u in r.animals && r.animals[t].pc == Eat(b) && r.animals[u].pc == Eat(c)
    ensures var r := Run(s, schedule); b != c && r.animals[t].kind == r.animals[u].kind
  {
    RunInv(s, schedule);
    var r := Run(s, schedule);
    assert BowlOk(r, b) && BowlOk(r, c) && Peace(r);
  }

  /** An animal that has finished has eaten its four meals and holds no lock. */
  lemma FinishedIsFed(s: State, schedule: seq<Tid>, t: Tid)
    requires Init(s) && CanRun(s, schedule)
    requires t in Run(s, schedule).animals && Run(s, schedule).animals[t].pc.Finished?
    ensures var r := Run(s, schedule);
            r.animals[t].eaten == 4 && r.door != Some(t) && r.lock1 != Some(t) && r.lock2 != Some(t)
  {
    RunInv(s, schedule);
    var r := Run(s, schedule);
    assert AnimalOk(r, t) && BowlOk(r, One) && BowlOk(r, Two);
  }
}

/** Whole runs of the thread step machine. */
module ThreadRuns {
  import opened Collections
  import opened ThreadModel
  import opened ThreadSafety

  /** What holds in every run, whoever holds which lock when. */
  ghost predicate Inv(k: Kernel) {
    Placement(k) && Waits(k) && CurrentRuns(k)
  }

  /** The kernel after thread_bootstrap, with some synchronization objects created. */
  ghost predicate Boot(k: Kernel) {
    && k.cur == Some(0) && k.ready == [] && k.sleepers == [] && k.zombies == [] && k.numthreads == 1
    && k.cont == map[0 := Plain]
    && (forall s :: s in k.sems ==> k.sems[s] >= 0)
    && (forall l :: l in k.owners ==> k.owners[l] == None)
    && (forall c :: c in k.queues ==> k.queues[c] == [])
  }

  /** Every condition variable has a lock that goes with it. */
  ghost predicate WellGuarded(k: Kernel) {
    forall c :: c in k.queues ==> Guarded(k, c)
  }

  lemma BootInv(k: Kernel)
    requires Boot(k)
    ensures Inv(k) && (WellGuarded(k) ==> Cvs(k))
  {
    assert forall c, h :: !QueuedOn(k, c, h);
  }

  lemma StepInv(k: Kernel, step: Step)
    requires Inv(k) && Enabled(k, step)
    ensures Inv(Apply(k, step))
  {
    StepPlacement(k, step);
    StepWaits(k, step);
  }

  ghost predicate CanRun(k: Kernel, steps: seq<Step>)
    decreases |steps|
  {
    steps == [] || (Enabled(k, steps[0]) && CanRun(Apply(k, steps[0]), steps[1..]))
  }

  ghost function Run(k: Kernel, steps: seq<Step>): Kernel
    requires CanRun(k, steps)
    decreases |steps|
  {
    if steps == [] then k else Run(Apply(k, steps[0]), steps[1..])
  }

  /** Every run keeps placement and waiting right, in every interleaving. */
  lemma {:induction false} RunInv(k: Kernel, steps: seq<Step>)
    requires Inv(k) && CanRun(k, steps)
    ensures Inv(Run(k, steps))
    decreases |steps|
  {
    if steps != [] {
      StepInv(k, steps[0]);
      RunInv(Apply(k, steps[0]), steps[1..]);
    }
  }

  /** Every step of the run keeps to the rules for condition variables. */
  ghost predicate FollowsRules(k: Kernel, steps: seq<Step>)
    requires CanRun(k, steps)
    decreases |steps|
  {
    steps == [] || (Disciplined(k, steps[0]) && FollowsRules(Apply(k, steps[0]), steps[1..]))
  }

  /** A run that keeps to the rules for condition variables also keeps their queues right. */
  lemma {:induction false} RunCvs(k: Kernel, steps: seq<Step>)
    requires Inv(k) && Cvs(k) && CanRun(k, steps) && FollowsRules(k, steps)
    ensures Cvs(Run(k, steps))
    decreases |steps|
  {
    if steps != [] {
      StepInv(k, steps[0]);
      StepCvs(k, steps[0]);
      RunCvs(Apply(k, steps[0]), steps[1..]);
    }
  }

  /** Each live thread is in exactly one place, and a zombie is nowhere else: it is never dispatched again. */
  lemma BootedPlacement(k: Kernel, steps: seq<Step>, t: Tid)
    requires Boot(k) && CanRun(k, steps)
    ensures var r := Run(k, steps);
            && (t in r.cont ==> (Current(r, t) && t !in r.ready && !Asleep(r.sleepers, t))
                                || (!Current(r, t) && t in r.ready && !Asleep(r.sleepers, t))
                                || (!Current(r, t) && t !in r.ready && Asleep(r.sleepers, t)))
            && (t in r.zombies ==> !Current(r, t) && t !in r.ready && !Asleep(r.sleepers, t))
            && r.numthreads == |r.cont|
  {
    BootInv(k);
    RunInv(k, steps);
    var r := Run(k, steps);
    LiveCount(r);
  }

  lemma AsleepTids(sl: seq<Sleeper>, t: Tid)
    ensures t in Elements(Tids(sl)) <==> Asleep(sl, t)
  {
    if x :| x in sl && x.t == t {
      var i :| 0 <= i < |sl| && sl[i] == x;
      assert Tids(sl)[i] == t;
    }
    if t in Tids(sl) {
      var i :| 0 <= i < |sl| && Tids(sl)[i] == t;
      assert sl[i] in sl;
    }
  }

  lemma DisjointCount(x: set<Tid>, y: set<Tid>, z: set<Tid>)
    requires x !! y && (x + y) !! z
    ensures |x + y + z| == |x| + |y| + |z|
  {
  }

  ghost function CurSet(k: Kernel): set<Tid> {
    if k.cur.Some? then {k.cur.value} else {}
  }

  lemma LivePlaces(k: Kernel)
    requires Placement(k)
    ensures var c, r, sl := CurSet(k), Elements(k.ready), Elements(Tids(k.sleepers));
            k.cont.Keys == c + r + sl && c !! r && (c + r) !! sl
  {
    forall t: Tid
      ensures t in Elements(Tids(k.sleepers)) <==> Asleep(k.sleepers, t)
    {
      AsleepTids(k.sleepers, t);
    }
    forall t: Tid | Asleep(k.sleepers, t)
      ensures !Current(k, t) && t !in k.ready
    {
      var x :| x in k.sleepers && x.t == t;
    }
  }

  /** numthreads is the number of live threads. */
  lemma LiveCount(k: Kernel)
    requires Placement(k)
    ensures k.numthreads == |k.cont|
  {
    LivePlaces(k);
    DistinctCount(k.ready);
    assert Distinct(Tids(k.sleepers));
    DistinctCount(Tids(k.sleepers));
    DisjointCount(CurSet(k), Elements(k.ready), Elements(Tids(k.sleepers)));
    assert |k.cont| == |k.cont.Keys|;
  }

  // ---------------------------------------------------------------- semaphores

  /** The step completes a P on s. */
  ghost predicate Takes(k: Kernel, step: Step, s: nat) {
    s in k.sems && k.sems[s] != 0 &&
    (step == P(s) || (step == Dispatch && k.ready != [] && k.ready[0] in k.cont && k.cont[k.ready[0]] == InP(s)))
  }

  ghost function Taken(k: Kernel, steps: seq<Step>, s: nat): nat
    requires CanRun(k, steps)
    decreases |steps|
  {
    if steps == [] then 0
    else (if Takes(k, steps[0], s) then 1 else 0) + Taken(Apply(k, steps[0]), steps[1..], s)
  }

  ghost function Given(steps: seq<Step>, s: nat): nat {
    if steps == [] then 0 else (if steps[0] == V(s) then 1 else 0) + Given(steps[1..], s)
  }

  lemma StepCount(k: Kernel, step: Step, s: nat)
    requires Enabled(k, step) && s in k.sems
    ensures var k' := Apply(k, step);
            s in k'.sems && k'.sems[s] == k.sems[s] + (if step == V(s) then 1 else 0) - (if Takes(k, step, s) then 1 else 0)
  {
    if step == Dispatch {
      ResumeCount(k.(cur := Some(k.ready[0]), ready := k.ready[1..]), k.ready[0], s);
    }
  }

  lemma ResumeCount(k: Kernel, t: Tid, s: nat)
    requires t in k.cont && ContKnown(k, k.cont[t]) && s in k.sems
    ensures var k' := Resume(k, t);
            s in k'.sems && k'.sems[s] == k.sems[s] - (if k.sems[s] != 0 && k.cont[t] == InP(s) then 1 else 0)
  {
  }

  /** A count is what it was plus the Vs minus the completed Ps, and it is never negative. */
  lemma {:induction false} SemaphoreCount(k: Kernel, steps: seq<Step>, s: nat)
    requires Inv(k) && CanRun(k, steps) && s in k.sems
    ensures var r := Run(k, steps);
            s in r.sems && r.sems[s] == k.sems[s] + Given(steps, s) - Taken(k, steps, s) && r.sems[s] >= 0
    decreases |steps|
  {
    if steps != [] {
      StepInv(k, steps[0]);
      StepCount(k, steps[0], s);
      SemaphoreCount(Apply(k, steps[0]), steps[1..], s);
    }
  }

  /** t is in P on s. */
  ghost predicate InSemaphore(k: Kernel, step: Step, t: Tid, s: nat) {
    t in k.cont && (k.cont[t] == InP(s) || (k.cur == Some(t) && step == P(s)))
  }

  /** Whoever comes back from P, at once or after waiting, has taken a unit that was there. */
  lemma PTakes(k: Kernel, step: Step, t: Tid, s: nat)
    requires Inv(k) && Enabled(k, step) && InSemaphore(k, step, t, s)
    requires var k' := Apply(k, step); t in k'.cont && k'.cont[t].Plain?
    ensures var k' := Apply(k, step);
            Current(k', t) && s in k.sems && k.sems[s] > 0 && s in k'.sems && k'.sems[s] == k.sems[s] - 1
  {
    if step == Dispatch {
      ResumeTakes(k.(cur := Some(k.ready[0]), ready := k.ready[1..]), k.ready[0], t, s);
    } else if step.Exit? || step.Yield? || step.Fork? {
      PlainAcquires(k, step, t);
    } else {
      SectionAcquires(k, step, t);
    }
  }

  lemma ResumeTakes(q: Kernel, u: Tid, t: Tid, s: nat)
    requires u in q.cont && ContKnown(q, q.cont[u]) && t in q.cont && Current(q, u) && CountsOk(q)
    requires q.cont[t] == InP(s) && t in Resume(q, u).cont && Resume(q, u).cont[t].Plain?
    ensures u == t && s in q.sems && q.sems[s] > 0 && s in Resume(q, u).sems && Resume(q, u).sems[s] == q.sems[s] - 1
    ensures Current(Resume(q, u), t)
  {
  }

  /** Nobody is asleep on a semaphore with a count or on a free lock. */
  lemma NoIdleWaiting(k: Kernel, steps: seq<Step>, x: Sleeper)
    requires Boot(k) && CanRun(k, steps) && x in Run(k, steps).sleepers
    ensures var r := Run(k, steps);
            match x.addr
            case Sem(s) => s in r.sems && r.sems[s] == 0
            case Lock(l) => l in r.owners && r.owners[l].Some? && r.owners[l] != Some(x.t)
            case Cv(c) => c in r.queues
  {
    BootInv(k);
    RunInv(k, steps);
    assert RightlyAsleep(Run(k, steps), x);
  }

  // ---------------------------------------------------------------- locks

  /** A lock passes from its owner only by the owner's own release, in lock_release or cv_wait. */
  lemma OnlyOwnerGivesUp(k: Kernel, step: Step, l: nat, t: Tid)
    requires Enabled(k, step) && l in k.owners && k.owners[l] == Some(t)
    ensures var k' := Apply(k, step);
            && l in k'.owners && (k'.owners[l] == Some(t) || k'.owners[l] == None)
            && (k'.owners[l] == None <==> k.cur == Some(t) && (step == Release(l) || (step.CvSleep? && step.l == l)))
  {
    if step == Dispatch {
      ResumeOwners(k.(cur := Some(k.ready[0]), ready := k.ready[1..]), k.ready[0], l);
    }
  }

  lemma ResumeOwners(k: Kernel, t: Tid, l: nat)
    requires t in k.cont && ContKnown(k, k.cont[t]) && l in k.owners && k.owners[l].Some?
    ensures l in Resume(k, t).owners && Resume(k, t).owners[l] == k.owners[l]
  {
  }

  /** A lock is taken only when it is free, by the thread that runs in that step. */
  lemma TakenWhenFree(k: Kernel, step: Step, l: nat, t: Tid)
    requires Enabled(k, step) && l in k.owners && k.owners[l] == None
    requires l in Apply(k, step).owners && Apply(k, step).owners[l] == Some(t)
    ensures Current(Apply(k, step), t)
  {
  }

  /** t is on its way to owning l: in lock_acquire, or in cv_wait past the sleep. */
  ghost predicate Acquiring(k: Kernel, step: Step, t: Tid, l: nat) {
    t in k.cont &&
    (k.cont[t] == InAcquire(l) || (k.cont[t].Waiting? && k.cont[t].l == l) || (k.cur == Some(t) && step == Acquire(l)))
  }

  /** The step takes t from there back to ordinary code. */
  ghost predicate Acquires(k: Kernel, step: Step, t: Tid, l: nat)
    requires Enabled(k, step)
  {
    Acquiring(k, step, t, l) && var k' := Apply(k, step); t in k'.cont && k'.cont[t].Plain?
  }

  /** Whoever comes back from lock_acquire, at once or after waiting, or from cv_wait, owns the lock. */
  lemma AcquireOwns(k: Kernel, step: Step, t: Tid, l: nat)
    requires Inv(k) && Enabled(k, step) && Acquires(k, step, t, l)
    ensures var k' := Apply(k, step); Current(k', t) && l in k'.owners && k'.owners[l] == Some(t)
  {
    if step == Dispatch {
      var q := k.(cur := Some(k.ready[0]), ready := k.ready[1..]);
      ResumeAcquires(q, k.ready[0], t, l);
    } else if step.Exit? || step.Yield? || step.Fork? {
      PlainAcquires(k, step, t);
    } else {
      SectionAcquires(k, step, t);
    }
  }

  lemma ResumeAcquires(q: Kernel, u: Tid, t: Tid, l: nat)
    requires u in q.cont && ContKnown(q, q.cont[u]) && t in q.cont && Current(q, u)
    requires q.cont[t] == InAcquire(l) || (q.cont[t].Waiting? && q.cont[t].l == l)
    requires t in Resume(q, u).cont && Resume(q, u).cont[t].Plain?
    ensures u == t && l in Resume(q, u).owners && Resume(q, u).owners[l] == Some(t) && Current(Resume(q, u), t)
  {
  }

  /** These steps change the place in the code of nobody but the running thread or a new one. */
  lemma PlainAcquires(k: Kernel, step: Step, t: Tid)
    requires Enabled(k, step) && (step.Exit? || step.Yield? || step.Fork?) && t in k.cont
    ensures t in Apply(k, step).cont ==> Apply(k, step).cont[t] == k.cont[t]
  {
  }

  lemma SectionAcquires(k: Kernel, step: Step, t: Tid)
    requires Enabled(k, step) && !(step.Exit? || step.Yield? || step.Fork? || step.Dispatch?) && t in k.cont
    ensures k.cur != Some(t) ==> t in Apply(k, step).cont && Apply(k, step).cont[t] == k.cont[t]
    ensures forall l :: step == Acquire(l) && k.cur == Some(t) && t in Apply(k, step).cont && Apply(k, step).cont[t].Plain? ==>
              l in Apply(k, step).owners && Apply(k, step).owners[l] == Some(t) && Current(Apply(k, step), t)
  {
  }

  /** The step is t's own release of l, in lock_release or cv_wait. */
  ghost predicate GivesUp(k: Kernel, step: Step, t: Tid, l: nat) {
    k.cur == Some(t) && (step == Release(l) || (step.CvSleep? && step.l == l))
  }

  ghost predicate NeverGivesUp(k: Kernel, steps: seq<Step>, t: Tid, l: nat)
    requires CanRun(k, steps)
    decreases |steps|
  {
    steps == [] || (!GivesUp(k, steps[0], t, l) && NeverGivesUp(Apply(k, steps[0]), steps[1..], t, l))
  }

  lemma {:induction false} OwnsUntilRelease(k: Kernel, steps: seq<Step>, t: Tid, l: nat)
    requires CanRun(k, steps) && NeverGivesUp(k, steps, t, l) && l in k.owners && k.owners[l] == Some(t)
    ensures l in Run(k, steps).owners && Run(k, steps).owners[l] == Some(t)
    decreases |steps|
  {
    if steps != [] {
      OnlyOwnerGivesUp(k, steps[0], l, t);
      OwnsUntilRelease(Apply(k, steps[0]), steps[1..], t, l);
    }
  }

  /**
   In every run, from the step in which its lock_acquire or cv_wait is completed until its own release,
   and whatever the other threads do, a thread owns the lock: nobody else can be in that stretch for the
   same lock.
   */
  lemma HeldThroughout(k: Kernel, before: seq<Step>, step: Step, after: seq<Step>, t: Tid, l: nat)
    requires Boot(k) && CanRun(k, before) && Enabled(Run(k, before), step) && Acquires(Run(k, before), step, t, l)
    requires var k' := Apply(Run(k, before), step); CanRun(k', after) && NeverGivesUp(k', after, t, l)
    ensures var r := Run(Apply(Run(k, before), step), after); l in r.owners && r.owners[l] == Some(t)
  {
    BootInv(k);
    RunInv(k, before);
    AcquireOwns(Run(k, before), step, t, l);
    OwnsUntilRelease(Apply(Run(k, before), step), after, t, l);
  }

  // ---------------------------------------------------------------- condition variables

  /**
   In a run that keeps to the rules, the queue of c is the list of threads asleep on c in the order
   of their arrival, but for one lock holder still inside cv_wait.
   */
  lemma QueueIsSleepers(k: Kernel, steps: seq<Step>, c: nat)
    requires Boot(k) && WellGuarded(k) && CanRun(k, steps) && FollowsRules(k, steps) && c in Run(k, steps).queues
    ensures var r := Run(k, steps); var asleep := On(r.sleepers, Cv(c));
            && Guarded(r, c)
            && (r.queues[c] == asleep || exists h: Tid :: QueuedOn(r, c, h) && r.owners[r.guards[c]] == Some(h) && r.queues[c] == asleep + [h])
  {
    BootInv(k);
    RunCvs(k, steps);
    var r := Run(k, steps);
    assert CvOk(r, c);
    if h: Tid :| QueuedOn(r, c, h) {
      assert r.queues[c] == On(r.sleepers, Cv(c)) + [h];
    }
  }

  /** cv_signal by a thread that holds the lock wakes exactly the thread that has waited longest, if any waits. */
  lemma SignalWakesLongest(k: Kernel, c: nat)
    requires Inv(k) && Cvs(k) && Enabled(k, CvSignal(c)) && Disciplined(k, CvSignal(c))
    ensures var k', asleep := Apply(k, CvSignal(c)), On(k.sleepers, Cv(c));
            && k.queues[c] == asleep
            && (asleep == [] ==> k' == k)
            && (asleep != [] ==> k'.ready == k.ready + [asleep[0]] && On(k'.sleepers, Cv(c)) == asleep[1..]
                                 && k'.queues[c] == asleep[1..] && k'.sleepers == Remove(k.sleepers, Sleeper(asleep[0], Cv(c))))
  {
    OnlyHolder(k, c, k.cur.value);
    OnMembers(k.sleepers, Cv(c));
    if On(k.sleepers, Cv(c)) != [] { RemoveHead(k.sleepers, Cv(c)); }
  }

  /**
   The first signal that breaks the rule, by a thread that does not hold the lock, still wakes exactly
   the longest waiter if and only if some thread is asleep on c. If none is but the queue is not empty,
   it wakes nobody and uses up the entry of the one thread that is still on its way to sleep.
   */
  lemma SignalWithoutLock(k: Kernel, c: nat)
    requires Inv(k) && Cvs(k) && Enabled(k, CvSignal(c))
    ensures var k', asleep := Apply(k, CvSignal(c)), On(k.sleepers, Cv(c));
            && (asleep != [] <==> k'.ready != k.ready)
            && (asleep != [] ==> k'.ready == k.ready + [asleep[0]] && k'.sleepers == Remove(k.sleepers, Sleeper(asleep[0], Cv(c)))
                                 && On(k'.sleepers, Cv(c)) == asleep[1..])
            && (asleep == [] && k.queues[c] != [] ==>
                exists h: Tid :: QueuedOn(k, c, h) && k.queues[c] == [h] && k' == k.(queues := k.queues[c := []]))
  {
    if On(k.sleepers, Cv(c)) != [] { WakesFirst(k, c); } else if k.queues[c] != [] { WakesNobody(k, c); }
  }

  lemma WakesFirst(k: Kernel, c: nat)
    requires Once(k.sleepers) && Guarded(k, c) && CvOk(k, c) && On(k.sleepers, Cv(c)) != []
    ensures var asleep := On(k.sleepers, Cv(c));
            && k.queues[c] != [] && k.queues[c][0] == asleep[0] && Sleeper(asleep[0], Cv(c)) in k.sleepers
            && On(Remove(k.sleepers, Sleeper(asleep[0], Cv(c))), Cv(c)) == asleep[1..]
  {
    OnMembers(k.sleepers, Cv(c));
    RemoveHead(k.sleepers, Cv(c));
  }

  lemma WakesNobody(k: Kernel, c: nat)
    requires Guarded(k, c) && CvOk(k, c) && On(k.sleepers, Cv(c)) == [] && k.queues[c] != []
    ensures WakeHead(k, c) == k.(queues := k.queues[c := []])
    ensures exists h: Tid :: QueuedOn(k, c, h) && k.queues[c] == [h]
  {
    OnMembers(k.sleepers, Cv(c));
    var h: Tid :| QueuedOn(k, c, h);
    assert k.queues[c] == [h];
    assert Sleeper(h, Cv(c)) !in k.sleepers;
  }

  /** A thread whose entry has been used up goes to sleep all the same, and signals then pass it by. */
  lemma AsleepUnqueued(k: Kernel, c: nat, l: nat)
    requires Enabled(k, CvSleep(c, l)) && k.cur.value !in k.queues[c]
    ensures var k', t := Apply(k, CvSleep(c, l)), k.cur.value;
            && Sleeper(t, Cv(c)) in k'.sleepers && t !in k'.queues[c]
            && (k'.queues[c] != [] ==> Sleeper(t, Cv(c)) in WakeHead(k', c).sleepers)
  {
    var k', x := Apply(k, CvSleep(c, l)), Sleeper(k.cur.value, Cv(c));
    assert x in k'.sleepers;
    if k'.queues[c] != [] { RemoveKeeps(k'.sleepers, Sleeper(k'.queues[c][0], Cv(c)), x); }
  }

  lemma {:induction false} RemoveKeeps(sl: seq<Sleeper>, x: Sleeper, y: Sleeper)
    requires y in sl && y != x
    ensures y in Remove(sl, x)
  {
    var last, front := sl[|sl| - 1], sl[..|sl| - 1];
    assert sl == front + [last];
    if y != last { RemoveKeeps(front, x, y); }
  }

  lemma {:induction false} NoneLeft(sl: seq<Sleeper>, a: Addr)
    ensures On(Off(sl, a), a) == []
  {
    if sl != [] {
      var x, front := sl[|sl| - 1], sl[..|sl| - 1];
      NoneLeft(front, a);
      OnAppend(Off(front, a), x, a);
    }
  }

  /** cv_broadcast makes everyone asleep on c ready, in the order of arrival, and nobody else. */
  lemma BroadcastWakesAll(k: Kernel, c: nat)
    requires Enabled(k, CvBroadcast(c))
    ensures var k' := Apply(k, CvBroadcast(c));
            && k'.ready == k.ready + On(k.sleepers, Cv(c)) && On(k'.sleepers, Cv(c)) == []
            && (forall d :: d != Cv(c) ==> On(k'.sleepers, d) == On(k.sleepers, d)) && k'.queues == k.queues
  {
    var k' := Apply(k, CvBroadcast(c));
    NoneLeft(k.sleepers, Cv(c));
    forall d | d != Cv(c)
      ensures On(k'.sleepers, d) == On(k.sleepers, d)
    {
      OffOn(k.sleepers, Cv(c), d);
    }
  }

  // A run in which a wakeup is lost: lock 0 goes with condition variable 0. Thread 0 takes the lock, joins
  // the queue and is preempted; thread 1 signals without the lock; thread 0 goes to sleep. A later signal
  // by thread 1, with the lock, finds the queue empty.

  const TO_QUEUE := [Fork(1), Acquire(0)] + [CvQueue(0, 0)]
  const STRAY_SIGNAL := [Yield, Dispatch] + [CvSignal(0), Yield, Dispatch] + [CvSleep(0, 0)]
  const SECOND_SIGNAL := [Dispatch, Acquire(0), CvSignal(0)]

  /** A kernel with live threads 0 and 1, one lock, and one condition variable. */
  ghost function Small(cur: Option<Tid>, ready: seq<Tid>, sleepers: seq<Sleeper>, zero: Cont, one: Cont, owner: Option<Tid>, queue: seq<Tid>): Kernel {
    Kernel(cur, ready, sleepers, [], 2, map[0 := zero, 1 := one], map[], map[0 := owner], map[0 := queue], map[0 := 0])
  }

  ghost function SmallBoot(): Kernel {
    Kernel(Some(0), [], [], [], 1, map[0 := Plain], map[], map[0 := None], map[0 := []], map[0 := 0])
  }

  ghost function AtSignal(): Kernel { Small(Some(1), [0], [], Queued(0, 0), Plain, Some(0), [0]) }

  ghost function Lost(): Kernel { Small(None, [1], [Sleeper(0, Cv(0))], Waiting(0, 0), Plain, None, []) }

  ghost function LostForGood(): Kernel { Small(Some(1), [], [Sleeper(0, Cv(0))], Waiting(0, 0), Plain, Some(1), []) }

  lemma Prepend(k: Kernel, step: Step, k': Kernel, steps: seq<Step>, r: Kernel)
    requires Enabled(k, step) && Apply(k, step) == k' && CanRun(k', steps) && Run(k', steps) == r
    ensures CanRun(k, [step] + steps) && Run(k, [step] + steps) == r
    ensures Disciplined(k, step) && FollowsRules(k', steps) ==> FollowsRules(k, [step] + steps)
  {
    assert ([step] + steps)[1..] == steps;
  }

  lemma SmallBoots()
    ensures Boot(SmallBoot()) && WellGuarded(SmallBoot())
  {
  }

  lemma ToAcquired()
    ensures var k := Small(Some(0), [1], [], Plain, Starting, Some(0), []);
            && CanRun(SmallBoot(), [Fork(1), Acquire(0)]) && Run(SmallBoot(), [Fork(1), Acquire(0)]) == k
            && FollowsRules(SmallBoot(), [Fork(1), Acquire(0)])
  {
    var k1 := Small(Some(0), [1], [], Plain, Starting, None, []);
    var k2 := Small(Some(0), [1], [], Plain, Starting, Some(0), []);
    Prepend(k1, Acquire(0), k2, [], k2);
    Prepend(SmallBoot(), Fork(1), k1, [Acquire(0)], k2);
    assert [Fork(1)] + [Acquire(0)] == [Fork(1), Acquire(0)];
  }

  lemma ToQueue()
    ensures var k, k' := Small(Some(0), [1], [], Plain, Starting, Some(0), []), Small(Some(0), [1], [], Queued(0, 0), Starting, Some(0), [0]);
            CanRun(k, [CvQueue(0, 0)]) && Run(k, [CvQueue(0, 0)]) == k' && FollowsRules(k, [CvQueue(0, 0)])
  {
    var k := Small(Some(0), [1], [], Plain, Starting, Some(0), []);
    var k' := Small(Some(0), [1], [], Queued(0, 0), Starting, Some(0), [0]);
    assert [] + [0] == [0];
    Prepend(k, CvQueue(0, 0), k', [], k');
    assert [CvQueue(0, 0)] + [] == [CvQueue(0, 0)];
  }

  lemma ToSignal()
    ensures var k := Small(Some(0), [1], [], Queued(0, 0), Starting, Some(0), [0]);
            CanRun(k, [Yield, Dispatch]) && Run(k, [Yield, Dispatch]) == AtSignal()
    ensures !Disciplined(AtSignal(), CvSignal(0))
  {
    var k := Small(Some(0), [1], [], Queued(0, 0), Starting, Some(0), [0]);
    var k1 := Small(None, [1, 0], [], Queued(0, 0), Starting, Some(0), [0]);
    assert [1, 0][1..] == [0];
    Prepend(k1, Dispatch, AtSignal(), [], AtSignal());
    Prepend(k, Yield, k1, [Dispatch], AtSignal());
    assert [Yield] + [Dispatch] == [Yield, Dispatch];
  }

  lemma ToWaiter()
    ensures var k := Small(Some(0), [1], [], Queued(0, 0), Plain, Some(0), []);
            CanRun(AtSignal(), [CvSignal(0), Yield, Dispatch]) && Run(AtSignal(), [CvSignal(0), Yield, Dispatch]) == k
  {
    var k1 := Small(Some(1), [0], [], Queued(0, 0), Plain, Some(0), []);
    var k3 := Small(Some(0), [1], [], Queued(0, 0), Plain, Some(0), []);
    StraySignal();
    BackToWaiter();
    Prepend(AtSignal(), CvSignal(0), k1, [Yield, Dispatch], k3);
    assert [CvSignal(0)] + [Yield, Dispatch] == [CvSignal(0), Yield, Dispatch];
  }

  lemma StraySignal()
    ensures Enabled(AtSignal(), CvSignal(0))
    ensures Apply(AtSignal(), CvSignal(0)) == Small(Some(1), [0], [], Queued(0, 0), Plain, Some(0), [])
  {
    assert [0][1..] == [];
  }

  lemma BackToWaiter()
    ensures var k, k' := Small(Some(1), [0], [], Queued(0, 0), Plain, Some(0), []), Small(Some(0), [1], [], Queued(0, 0), Plain, Some(0), []);
            CanRun(k, [Yield, Dispatch]) && Run(k, [Yield, Dispatch]) == k'
  {
    var k1 := Small(Some(1), [0], [], Queued(0, 0), Plain, Some(0), []);
    var k2 := Small(None, [0, 1], [], Queued(0, 0), Plain, Some(0), []);
    var k3 := Small(Some(0), [1], [], Queued(0, 0), Plain, Some(0), []);
    assert [0, 1][1..] == [1];
    Prepend(k2, Dispatch, k3, [], k3);
    Prepend(k1, Yield, k2, [Dispatch], k3);
    assert [Yield] + [Dispatch] == [Yield, Dispatch];
  }

  lemma ToSleep()
    ensures var k := Small(Some(0), [1], [], Queued(0, 0), Plain, Some(0), []);
            CanRun(k, [CvSleep(0, 0)]) && Run(k, [CvSleep(0, 0)]) == Lost()
  {
    var k := Small(Some(0), [1], [], Queued(0, 0), Plain, Some(0), []);
    Prepend(k, CvSleep(0, 0), Lost(), [], Lost());
    assert [CvSleep(0, 0)] + [] == [CvSleep(0, 0)];
  }

  lemma ToSecondSignal()
    ensures CanRun(Lost(), SECOND_SIGNAL) && Run(Lost(), SECOND_SIGNAL) == LostForGood()
    ensures FollowsRules(Lost(), SECOND_SIGNAL)
  {
    var k1 := Small(Some(1), [], [Sleeper(0, Cv(0))], Waiting(0, 0), Plain, None, []);
    var end := LostForGood();
    Prepend(end, CvSignal(0), end, [], end);
    Prepend(k1, Acquire(0), end, [CvSignal(0)], end);
    Prepend(Lost(), Dispatch, k1, [Acquire(0), CvSignal(0)], end);
    assert [Dispatch] + [Acquire(0), CvSignal(0)] == SECOND_SIGNAL;
  }

  lemma {:induction false} RunAppend(k: Kernel, xs: seq<Step>, ys: seq<Step>)
    requires CanRun(k, xs) && CanRun(Run(k, xs), ys)
    ensures CanRun(k, xs + ys) && Run(k, xs + ys) == Run(Run(k, xs), ys)
    decreases |xs|
  {
    if xs == [] {
      assert xs + ys == ys;
    } else {
      assert (xs + ys)[1..] == xs[1..] + ys;
      RunAppend(Apply(k, xs[0]), xs[1..], ys);
    }
  }

  /**
   The lost wakeup, from boot: after one signal without the lock, thread 0 is asleep on the condition
   variable and the queue is empty, and it is still asleep after a signal made by the rules.
   */
  lemma LostWakeup()
    ensures var k, steps := SmallBoot(), TO_QUEUE + STRAY_SIGNAL + SECOND_SIGNAL;
            && Boot(k) && WellGuarded(k) && CanRun(k, steps)
            && Sleeper(0, Cv(0)) in Run(k, steps).sleepers && Run(k, steps).queues == map[0 := []]
  {
    var k := Small(Some(0), [1], [], Queued(0, 0), Starting, Some(0), [0]);
    SmallBoots();
    ToAcquired();
    ToQueue();
    RunAppend(SmallBoot(), [Fork(1), Acquire(0)], [CvQueue(0, 0)]);
    ToSignal();
    ToWaiter();
    ToSleep();
    ToSecondSignal();
    RunAppend(k, [Yield, Dispatch], [CvSignal(0), Yield, Dispatch]);
    RunAppend(k, [Yield, Dispatch] + [CvSignal(0), Yield, Dispatch], [CvSleep(0, 0)]);
    RunAppend(SmallBoot(), TO_QUEUE, STRAY_SIGNAL);
    RunAppend(SmallBoot(), TO_QUEUE + STRAY_SIGNAL, SECOND_SIGNAL);
  }

  // ---------------------------------------------------------------- round robin

  ghost function Dispatches(steps: seq<Step>): nat {
    if steps == [] then 0 else (if steps[0] == Dispatch then 1 else 0) + Dispatches(steps[1..])
  }

  lemma StepReady(k: Kernel, step: Step)
    requires Enabled(k, step)
    ensures if step == Dispatch then Apply(k, step).ready == k.ready[1..] else k.ready <= Apply(k, step).ready
    ensures step == Dispatch && k.cont[k.ready[0]].Plain? ==> Apply(k, step).cur == Some(k.ready[0])
  {
  }

  /** A switch back to a thread buries the dead: only a thread that starts leaves zombies for later. */
  lemma SwitchBuries(k: Kernel)
    requires Inv(k) && Enabled(k, Dispatch)
    ensures Apply(k, Dispatch).zombies == if k.cont[k.ready[0]].Starting? then k.zombies else []
  {
  }

  /** A ready thread with i others ahead of it is at the head after exactly i dispatches, whatever else happens. */
  lemma {:induction false} RoundRobin(k: Kernel, steps: seq<Step>, i: nat)
    requires CanRun(k, steps) && i < |k.ready| && Dispatches(steps) <= i
    ensures var r := Run(k, steps);
            i - Dispatches(steps) < |r.ready| && r.ready[i - Dispatches(steps)] == k.ready[i]
    decreases |steps|
  {
    if steps != [] {
      StepReady(k, steps[0]);
      var k' := Apply(k, steps[0]);
      if steps[0] == Dispatch {
        RoundRobin(k', steps[1..], i - 1);
      } else {
        assert k'.ready[i] == k.ready[i];
        RoundRobin(k', steps[1..], i);
      }
    }
  }
}

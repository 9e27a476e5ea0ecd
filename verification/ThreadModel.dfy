/**
 The kernel's threads and synchronization as a step machine. Every section that runs with
 interrupts off is one step; a context switch ends the section of the thread that gives up
 the processor, and dispatching a thread runs the rest of the section it was in.
 */
module ThreadModel {
  import opened Collections

  type Tid = nat

  /** What a thread may sleep on. */
  datatype Addr = Sem(s: nat) | Lock(l: nat) | Cv(c: nat)

  /** Where a thread is in its code. */
  datatype Cont =
    | Starting                // forked, not dispatched yet
    | Plain                   // ordinary code
    | InP(s: nat)             // in the wait loop of P
    | InAcquire(l: nat)       // in the wait loop of lock_acquire
    | Queued(c: nat, l: nat)  // in cv_wait(c, l), on the queue of c but not yet asleep
    | Waiting(c: nat, l: nat) // in cv_wait(c, l), at or past the sleep

  /** What a thread at such a place may be asleep on. */
  function WaitAddr(cont: Cont): Option<Addr> {
    match cont
    case InP(s) => Some(Sem(s))
    case InAcquire(l) => Some(Lock(l))
    case Waiting(c, _) => Some(Cv(c))
    case _ => None
  }

  datatype Sleeper = Sleeper(t: Tid, addr: Addr)

  datatype Kernel = Kernel(
    cur: Option<Tid>,
    ready: seq<Tid>,
    sleepers: seq<Sleeper>,
    zombies: seq<Tid>,
    numthreads: int,
    cont: map<Tid, Cont>,
    sems: map<nat, int>,
    owners: map<nat, Option<Tid>>,
    queues: map<nat, seq<Tid>>,
    guards: map<nat, nat>)  // the lock meant to go with each condition variable

  // ---------------------------------------------------------------- lists of threads

  function Tids(sl: seq<Sleeper>): seq<Tid> {
    seq(|sl|, i requires 0 <= i < |sl| => sl[i].t)
  }

  /** Those asleep on a, in the order in which they went to sleep. */
  function On(sl: seq<Sleeper>, a: Addr): seq<Tid> {
    if sl == [] then []
    else
      var x, front := sl[|sl| - 1], sl[..|sl| - 1];
      if x.addr == a then On(front, a) + [x.t] else On(front, a)
  }

  /** The others. */
  function Off(sl: seq<Sleeper>, a: Addr): seq<Sleeper> {
    if sl == [] then []
    else
      var x, front := sl[|sl| - 1], sl[..|sl| - 1];
      if x.addr == a then Off(front, a) else Off(front, a) + [x]
  }

  lemma OnAppend(sl: seq<Sleeper>, x: Sleeper, a: Addr)
    ensures On(sl + [x], a) == if x.addr == a then On(sl, a) + [x.t] else On(sl, a)
    ensures Off(sl + [x], a) == if x.addr == a then Off(sl, a) else Off(sl, a) + [x]
  {
    assert (sl + [x])[..|sl|] == sl;
  }

  lemma {:induction false} OnMembers(sl: seq<Sleeper>, a: Addr)
    ensures forall t :: t in On(sl, a) <==> Sleeper(t, a) in sl
    ensures forall x :: x in Off(sl, a) <==> x in sl && x.addr != a
    ensures |On(sl, a)| + |Off(sl, a)| == |sl|
  {
    if sl != [] {
      var x, front := sl[|sl| - 1], sl[..|sl| - 1];
      OnMembers(front, a);
      assert sl == front + [x];
    }
  }

  /** No thread sleeps twice. */
  ghost predicate Once(sl: seq<Sleeper>) {
    forall i, j :: 0 <= i < j < |sl| ==> sl[i].t != sl[j].t
  }

  ghost predicate Asleep(sl: seq<Sleeper>, t: Tid) {
    exists x :: x in sl && x.t == t
  }

  lemma {:induction false} OnDistinct(sl: seq<Sleeper>, a: Addr)
    requires Once(sl)
    ensures Distinct(On(sl, a)) && Once(Off(sl, a))
  {
    if sl != [] {
      var x, front := sl[|sl| - 1], sl[..|sl| - 1];
      OnDistinct(front, a);
      OnMembers(front, a);
      assert x.t !in On(front, a);
      assert forall y :: y in Off(front, a) ==> y in front && y.t != x.t;
    }
  }

  lemma OnceMeans(sl: seq<Sleeper>, x: Sleeper, y: Sleeper)
    requires Once(sl) && x in sl && y in sl && x.t == y.t
    ensures x == y
  {
    var i :| 0 <= i < |sl| && sl[i] == x;
    var j :| 0 <= j < |sl| && sl[j] == y;
    assert i <= j && j <= i;
  }

  lemma {:induction false} OffOn(sl: seq<Sleeper>, a: Addr, b: Addr)
    requires a != b
    ensures On(Off(sl, a), b) == On(sl, b)
  {
    if sl != [] {
      var x, front := sl[|sl| - 1], sl[..|sl| - 1];
      OffOn(front, a, b);
      OnAppend(Off(front, a), x, b);
    }
  }

  /** The list without x. */
  function Remove(sl: seq<Sleeper>, x: Sleeper): seq<Sleeper> {
    if sl == [] then []
    else
      var y, front := sl[|sl| - 1], sl[..|sl| - 1];
      if y == x then Remove(front, x) else Remove(front, x) + [y]
  }

  lemma {:induction false} RemoveMembers(sl: seq<Sleeper>, x: Sleeper)
    requires Once(sl)
    ensures forall y :: y in Remove(sl, x) <==> y in sl && y != x
    ensures Once(Remove(sl, x)) && |Remove(sl, x)| == if x in sl then |sl| - 1 else |sl|
  {
    if sl != [] {
      var y, front := sl[|sl| - 1], sl[..|sl| - 1];
      assert sl == front + [y];
      RemoveMembers(front, x);
      assert forall z :: z in front ==> z.t != y.t;
    }
  }

  lemma {:induction false} RemoveOther(sl: seq<Sleeper>, x: Sleeper, a: Addr)
    requires x.addr != a || x !in sl
    ensures On(Remove(sl, x), a) == On(sl, a)
  {
    if sl != [] {
      var y, front := sl[|sl| - 1], sl[..|sl| - 1];
      assert sl == front + [y];
      RemoveOther(front, x, a);
      OnAppend(Remove(front, x), y, a);
    }
  }

  /** Removing the longest sleeper on a takes the head off those asleep on a. */
  lemma {:induction false} RemoveHead(sl: seq<Sleeper>, a: Addr)
    requires Once(sl) && On(sl, a) != []
    ensures On(Remove(sl, Sleeper(On(sl, a)[0], a)), a) == On(sl, a)[1..]
  {
    var y, front := sl[|sl| - 1], sl[..|sl| - 1];
    var x := Sleeper(On(sl, a)[0], a);
    assert sl == front + [y];
    OnMembers(front, a);
    if On(front, a) == [] {
      assert y == x;
      RemoveOther(front, x, a);
    } else {
      assert On(front, a)[0] == x.t;
      assert x in front && x.t != y.t;
      RemoveHead(front, a);
      OnAppend(Remove(front, x), y, a);
    }
  }

  // ---------------------------------------------------------------- sections

  /** thread_sleep, by a thread that is in the given place. */
  function Sleep(k: Kernel, t: Tid, cont: Cont): Kernel
    requires WaitAddr(cont).Some?
  {
    k.(cur := None, sleepers := k.sleepers + [Sleeper(t, WaitAddr(cont).value)], cont := k.cont[t := cont])
  }

  /** thread_wakeup */
  function Wake(k: Kernel, a: Addr): Kernel {
    k.(ready := k.ready + On(k.sleepers, a), sleepers := Off(k.sleepers, a))
  }

  /** thread_wakeup_head: take the head off the queue of c and wake it, if it is asleep on c. */
  function WakeHead(k: Kernel, c: nat): Kernel
    requires c in k.queues && k.queues[c] != []
  {
    var head := k.queues[c][0];
    var k' := k.(queues := k.queues[c := k.queues[c][1..]]);
    if Sleeper(head, Cv(c)) in k.sleepers
    then k'.(ready := k.ready + [head], sleepers := Remove(k.sleepers, Sleeper(head, Cv(c))))
    else k'
  }

  /** The loop of P, by the running thread t: take a unit or go to sleep. */
  function TryP(k: Kernel, t: Tid, s: nat): Kernel
    requires s in k.sems
  {
    if k.sems[s] == 0 then Sleep(k, t, InP(s))
    else k.(sems := k.sems[s := k.sems[s] - 1], cont := k.cont[t := Plain])
  }

  /** The loop of lock_acquire. */
  function TryAcquire(k: Kernel, t: Tid, l: nat): Kernel
    requires l in k.owners
  {
    if k.owners[l] != None && k.owners[l] != Some(t) then Sleep(k, t, InAcquire(l))
    else k.(owners := k.owners[l := Some(t)], cont := k.cont[t := Plain])
  }

  function DoRelease(k: Kernel, t: Tid, l: nat): Kernel
    requires l in k.owners
  {
    if k.owners[l] == Some(t) then Wake(k.(owners := k.owners[l := None]), Lock(l)) else k
  }

  ghost predicate Known(k: Kernel, a: Addr) {
    match a
    case Sem(s) => s in k.sems
    case Lock(l) => l in k.owners
    case Cv(c) => c in k.queues
  }

  /** The objects that a thread in the given place works on exist. */
  ghost predicate ContKnown(k: Kernel, cont: Cont) {
    match cont
    case InP(s) => s in k.sems
    case InAcquire(l) => l in k.owners
    case Queued(c, l) => c in k.queues && l in k.owners
    case Waiting(c, l) => c in k.queues && l in k.owners
    case _ => true
  }

  /** What a dispatched thread does before it turns interrupts on again. */
  function Resume(k: Kernel, t: Tid): Kernel
    requires t in k.cont && ContKnown(k, k.cont[t])
  {
    match k.cont[t]
    case Starting => k.(cont := k.cont[t := Plain])
    case Plain => k.(zombies := [])
    case Queued(_, _) => k.(zombies := [])
    case InP(s) => TryP(k.(zombies := []), t, s)
    case InAcquire(l) => TryAcquire(k.(zombies := []), t, l)
    case Waiting(_, l) => TryAcquire(k.(zombies := []), t, l)
  }

  datatype Step =
    | Fork(child: Tid)
    | Yield
    | Exit
    | P(s: nat)
    | V(s: nat)
    | Acquire(l: nat)
    | Release(l: nat)
    | CvQueue(c: nat, l: nat)  // the first line of cv_wait
    | CvSleep(c: nat, l: nat)  // the rest of cv_wait up to the sleep
    | CvSignal(c: nat)
    | CvBroadcast(c: nat)
    | Dispatch

  ghost predicate Running(k: Kernel, cont: Cont) {
    k.cur.Some? && k.cur.value in k.cont && k.cont[k.cur.value] == cont
  }

  /** When a step can happen. V may also come from an interrupt handler. Nobody need hold any lock. */
  ghost predicate Enabled(k: Kernel, step: Step) {
    match step
    case Fork(child) => Running(k, Plain) && child !in k.cont && child !in k.zombies
    case Yield => k.cur.Some?
    case Exit => Running(k, Plain)
    case P(s) => Running(k, Plain) && s in k.sems
    case V(s) => s in k.sems
    case Acquire(l) => Running(k, Plain) && l in k.owners
    case Release(l) => Running(k, Plain) && l in k.owners
    case CvQueue(c, l) => Running(k, Plain) && c in k.queues && l in k.owners
    case CvSleep(c, l) => Running(k, Queued(c, l)) && c in k.queues && l in k.owners
    case CvSignal(c) => Running(k, Plain) && c in k.queues
    case CvBroadcast(c) => Running(k, Plain) && c in k.queues
    case Dispatch => k.cur.None? && k.ready != [] && k.ready[0] in k.cont && ContKnown(k, k.cont[k.ready[0]])
  }

  function Apply(k: Kernel, step: Step): Kernel
    requires Enabled(k, step)
  {
    match step
    case Fork(child) => k.(ready := k.ready + [child], numthreads := k.numthreads + 1, cont := k.cont[child := Starting])
    case Yield => k.(cur := None, ready := k.ready + [k.cur.value])
    case Exit => k.(cur := None, zombies := k.zombies + [k.cur.value], numthreads := k.numthreads - 1,
                    cont := k.cont - {k.cur.value})
    case P(s) => TryP(k, k.cur.value, s)
    case V(s) => Wake(k.(sems := k.sems[s := k.sems[s] + 1]), Sem(s))
    case Acquire(l) => TryAcquire(k, k.cur.value, l)
    case Release(l) => DoRelease(k, k.cur.value, l)
    case CvQueue(c, l) => k.(queues := k.queues[c := k.queues[c] + [k.cur.value]], cont := k.cont[k.cur.value := Queued(c, l)])
    case CvSleep(c, l) => Sleep(DoRelease(k, k.cur.value, l), k.cur.value, Waiting(c, l))
    case CvSignal(c) => if k.queues[c] == [] then k else WakeHead(k, c)
    case CvBroadcast(c) => Wake(k, Cv(c))
    case Dispatch => Resume(k.(cur := Some(k.ready[0]), ready := k.ready[1..]), k.ready[0])
  }

  // ---------------------------------------------------------------- placement

  ghost predicate Current(k: Kernel, t: Tid) { k.cur == Some(t) }

  /**
   Each live thread is in exactly one of curthread, the run queue and the sleepers, numthreads
   counts them, and zombies are none of them.
   */
  ghost predicate Placement(k: Kernel) {
    && Distinct(k.ready) && Once(k.sleepers) && Distinct(k.zombies)
    && (forall t :: t in k.ready ==> !Current(k, t) && !Asleep(k.sleepers, t) && t !in k.zombies)
    && (forall x :: x in k.sleepers ==> !Current(k, x.t) && x.t !in k.zombies)
    && (forall t :: t in k.zombies ==> !Current(k, t))
    && (forall t :: t in k.cont <==> Current(k, t) || t in k.ready || Asleep(k.sleepers, t))
    && k.numthreads == (if k.cur.Some? then 1 else 0) + |k.ready| + |k.sleepers|
  }

  /** Placement does not look at counts, owners and queues. */
  lemma SamePlacement(k: Kernel, k': Kernel)
    requires Placement(k) && k'.cont.Keys == k.cont.Keys
    requires k' == k.(cont := k'.cont, sems := k'.sems, owners := k'.owners, queues := k'.queues)
    ensures Placement(k')
  {
  }

  lemma TryPPlacement(k: Kernel, t: Tid, s: nat)
    requires Placement(k) && Current(k, t) && s in k.sems
    ensures Placement(TryP(k, t, s))
  {
    if k.sems[s] == 0 { SleepPlacement(k, t, InP(s)); } else { SamePlacement(k, TryP(k, t, s)); }
  }

  lemma TryAcquirePlacement(k: Kernel, t: Tid, l: nat)
    requires Placement(k) && Current(k, t) && l in k.owners
    ensures Placement(TryAcquire(k, t, l))
  {
    if k.owners[l] != None && k.owners[l] != Some(t) {
      SleepPlacement(k, t, InAcquire(l));
    } else {
      SamePlacement(k, TryAcquire(k, t, l));
    }
  }

  lemma SleepPlacement(k: Kernel, t: Tid, cont: Cont)
    requires Placement(k) && Current(k, t) && WaitAddr(cont).Some?
    ensures Placement(Sleep(k, t, cont))
  {
    var k', a := Sleep(k, t, cont), WaitAddr(cont).value;
    assert forall x :: x in k'.sleepers <==> x in k.sleepers || x == Sleeper(t, a);
    assert Asleep(k'.sleepers, t) by { assert Sleeper(t, a) in k'.sleepers; }
    assert forall u :: Asleep(k'.sleepers, u) <==> Asleep(k.sleepers, u) || u == t;
    assert Once(k'.sleepers);
  }

  /** Waking splits those asleep into those now ready and those still asleep. */
  lemma WakeAsleep(sl: seq<Sleeper>, a: Addr, t: Tid)
    requires Once(sl)
    ensures Asleep(sl, t) <==> t in On(sl, a) || Asleep(Off(sl, a), t)
    ensures !(t in On(sl, a) && Asleep(Off(sl, a), t))
  {
    OnMembers(sl, a);
    if x :| x in sl && x.t == t {
      if x.addr == a { assert x == Sleeper(t, a); } else { assert x in Off(sl, a); }
    }
    if t in On(sl, a) {
      var x := Sleeper(t, a);
      assert x in sl && x.t == t;
      forall y | y in Off(sl, a)
        ensures y.t != t
      {
        if y.t == t { OnceMeans(sl, x, y); }
      }
    }
    if y :| y in Off(sl, a) && y.t == t {
      assert y in sl;
    }
  }

  lemma JoinDistinct<T>(xs: seq<T>, ys: seq<T>)
    requires Distinct(xs) && Distinct(ys) && forall x :: x in xs ==> x !in ys
    ensures Distinct(xs + ys)
  {
    var s := xs + ys;
    forall i, j | 0 <= i < j < |s|
      ensures s[i] != s[j]
    {
      assert i < |xs| ==> s[i] in xs;
      assert j >= |xs| ==> s[j] in ys;
    }
  }

  lemma WakePlacement(k: Kernel, a: Addr)
    requires Placement(k)
    ensures Placement(Wake(k, a))
  {
    var k' := Wake(k, a);
    OnDistinct(k.sleepers, a);
    OnMembers(k.sleepers, a);
    forall t
      ensures Asleep(k.sleepers, t) <==> t in On(k.sleepers, a) || Asleep(k'.sleepers, t)
      ensures !(t in On(k.sleepers, a) && Asleep(k'.sleepers, t))
    {
      WakeAsleep(k.sleepers, a, t);
    }
    JoinDistinct(k.ready, On(k.sleepers, a));
  }

  lemma RemoveAsleep(sl: seq<Sleeper>, x: Sleeper, t: Tid)
    requires Once(sl) && x in sl
    ensures Asleep(Remove(sl, x), t) <==> Asleep(sl, t) && t != x.t
  {
    RemoveMembers(sl, x);
    if y :| y in sl && y.t == t && t != x.t { assert y in Remove(sl, x); }
    if y :| y in Remove(sl, x) && y.t == t && t == x.t { OnceMeans(sl, x, y); }
  }

  lemma WakeHeadPlacement(k: Kernel, c: nat)
    requires Placement(k) && c in k.queues && k.queues[c] != []
    ensures Placement(WakeHead(k, c))
  {
    var k', head := WakeHead(k, c), k.queues[c][0];
    var x := Sleeper(head, Cv(c));
    if x in k.sleepers {
      RemoveMembers(k.sleepers, x);
      forall t
        ensures Asleep(k'.sleepers, t) <==> Asleep(k.sleepers, t) && t != head
      {
        RemoveAsleep(k.sleepers, x, t);
      }
      assert Asleep(k.sleepers, head);
      AppendDistinct(k.ready, head);
    }
  }

  lemma ReadyPlacement(k: Kernel, k': Kernel, t: Tid)
    requires Placement(k) && !Current(k, t) && t !in k.ready && !Asleep(k.sleepers, t) && t !in k.zombies
    requires k' == k.(ready := k.ready + [t], numthreads := k.numthreads + 1, cont := k'.cont)
    requires k'.cont.Keys == k.cont.Keys + {t}
    ensures Placement(k')
  {
    AppendDistinct(k.ready, t);
  }

  lemma YieldPlacement(k: Kernel)
    requires Placement(k) && k.cur.Some?
    ensures Placement(k.(cur := None, ready := k.ready + [k.cur.value]))
  {
    AppendDistinct(k.ready, k.cur.value);
  }

  lemma ExitPlacement(k: Kernel)
    requires Placement(k) && k.cur.Some?
    ensures Placement(k.(cur := None, zombies := k.zombies + [k.cur.value], numthreads := k.numthreads - 1, cont := k.cont - {k.cur.value}))
  {
    AppendDistinct(k.zombies, k.cur.value);
  }

  lemma PopPlacement(k: Kernel)
    requires Placement(k) && k.cur.None? && k.ready != []
    ensures Placement(k.(cur := Some(k.ready[0]), ready := k.ready[1..]))
    ensures Placement(k.(cur := Some(k.ready[0]), ready := k.ready[1..], zombies := []))
  {
    assert k.ready == [k.ready[0]] + k.ready[1..];
  }

  lemma ReleasePlacement(k: Kernel, t: Tid, l: nat)
    requires Placement(k) && l in k.owners
    ensures Placement(DoRelease(k, t, l))
  {
    if k.owners[l] == Some(t) { WakePlacement(k.(owners := k.owners[l := None]), Lock(l)); }
  }

  lemma ResumePlacement(k: Kernel, t: Tid)
    requires Placement(k) && Current(k, t) && t in k.cont && ContKnown(k, k.cont[t])
    ensures Placement(Resume(k, t))
  {
    var q := k.(zombies := []);
    assert Placement(q);
    match k.cont[t] {
      case Starting => SamePlacement(k, Resume(k, t));
      case Plain =>
      case Queued(_, _) =>
      case InP(s) => TryPPlacement(q, t, s);
      case InAcquire(l) => TryAcquirePlacement(q, t, l);
      case Waiting(_, l) => TryAcquirePlacement(q, t, l);
    }
  }

  lemma VPlacement(k: Kernel, s: nat)
    requires Placement(k) && Enabled(k, V(s))
    ensures Placement(Apply(k, V(s)))
  {
    SamePlacement(k, k.(sems := k.sems[s := k.sems[s] + 1]));
    WakePlacement(k.(sems := k.sems[s := k.sems[s] + 1]), Sem(s));
  }

  lemma CvSleepPlacement(k: Kernel, c: nat, l: nat)
    requires Placement(k) && Enabled(k, CvSleep(c, l))
    ensures Placement(Apply(k, CvSleep(c, l)))
  {
    ReleasePlacement(k, k.cur.value, l);
    SleepPlacement(DoRelease(k, k.cur.value, l), k.cur.value, Waiting(c, l));
  }

  lemma DispatchPlacement(k: Kernel)
    requires Placement(k) && Enabled(k, Dispatch)
    ensures Placement(Apply(k, Dispatch))
  {
    PopPlacement(k);
    ResumePlacement(k.(cur := Some(k.ready[0]), ready := k.ready[1..]), k.ready[0]);
  }

  /** Every step keeps the placement. */
  lemma StepPlacement(k: Kernel, step: Step)
    requires Placement(k) && Enabled(k, step)
    ensures Placement(Apply(k, step))
  {
    match step {
      case Fork(child) => ReadyPlacement(k, Apply(k, step), child);
      case Yield => YieldPlacement(k);
      case Exit => ExitPlacement(k);
      case P(s) => TryPPlacement(k, k.cur.value, s);
      case V(s) => VPlacement(k, s);
      case Acquire(l) => TryAcquirePlacement(k, k.cur.value, l);
      case Release(l) => ReleasePlacement(k, k.cur.value, l);
      case CvQueue(c, l) => SamePlacement(k, Apply(k, step));
      case CvSleep(c, l) => CvSleepPlacement(k, c, l);
      case CvSignal(c) => if k.queues[c] != [] { WakeHeadPlacement(k, c); }
      case CvBroadcast(c) => WakePlacement(k, Cv(c));
      case Dispatch => DispatchPlacement(k);
    }
  }
}

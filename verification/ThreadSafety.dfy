/**
 What every run of the thread step machine keeps: nobody sleeps on something that is
 available, condition variable queues list the sleepers in order, and the consequences for
 whole runs.
 */
module ThreadSafety {
  import opened Collections
  import opened ThreadModel

  // ---------------------------------------------------------------- waiting

  /** It is right for t to be asleep on a: the count is zero, or someone else holds the lock. */
  ghost predicate MustWait(k: Kernel, t: Tid, a: Addr) {
    Known(k, a) &&
    match a
    case Sem(s) => k.sems[s] == 0
    case Lock(l) => k.owners[l] != None && k.owners[l] != Some(t)
    case Cv(_) => true
  }

  ghost predicate RightlyAsleep(k: Kernel, x: Sleeper) {
    x.t in k.cont && WaitAddr(k.cont[x.t]) == Some(x.addr) && MustWait(k, x.t, x.addr)
  }

  ghost predicate SleepersWait(k: Kernel) {
    forall x :: x in k.sleepers ==> RightlyAsleep(k, x)
  }

  /** The same, but for those asleep on a. */
  ghost predicate OthersWait(k: Kernel, a: Addr) {
    forall x :: x in k.sleepers && x.addr != a ==> RightlyAsleep(k, x)
  }

  ghost predicate ContsKnown(k: Kernel) {
    forall t :: t in k.cont ==> ContKnown(k, k.cont[t])
  }

  ghost predicate CurrentRuns(k: Kernel) {
    k.cur.Some? ==> k.cur.value in k.cont && (k.cont[k.cur.value].Plain? || k.cont[k.cur.value].Queued?)
  }

  ghost predicate CountsOk(k: Kernel) {
    forall s :: s in k.sems ==> k.sems[s] >= 0
  }

  /** All that concerns semaphores and locks. */
  ghost predicate Waits(k: Kernel) {
    SleepersWait(k) && ContsKnown(k) && CountsOk(k)
  }

  lemma SleepWaits(k: Kernel, t: Tid, cont: Cont)
    requires Placement(k) && Waits(k) && Current(k, t) && ContKnown(k, cont)
    requires WaitAddr(cont).Some? && MustWait(k, t, WaitAddr(cont).value)
    ensures Waits(Sleep(k, t, cont)) && CurrentRuns(Sleep(k, t, cont))
  {
    var k', a := Sleep(k, t, cont), WaitAddr(cont).value;
    forall x | x in k'.sleepers
      ensures RightlyAsleep(k', x)
    {
      if x in k.sleepers { assert RightlyAsleep(k, x); } else { assert x == Sleeper(t, a); }
    }
  }

  lemma WakeWaits(k: Kernel, a: Addr)
    requires OthersWait(k, a) && ContsKnown(k) && CountsOk(k)
    ensures Waits(Wake(k, a))
  {
    OnMembers(k.sleepers, a);
    var k' := Wake(k, a);
    forall x | x in k'.sleepers
      ensures RightlyAsleep(k', x)
    {
      assert RightlyAsleep(k, x);
    }
  }

  lemma TryPWaits(k: Kernel, t: Tid, s: nat)
    requires Placement(k) && Waits(k) && Current(k, t) && s in k.sems
    ensures Waits(TryP(k, t, s)) && CurrentRuns(TryP(k, t, s))
  {
    var k' := TryP(k, t, s);
    if k.sems[s] == 0 {
      SleepWaits(k, t, InP(s));
    } else {
      forall x | x in k'.sleepers
        ensures RightlyAsleep(k', x)
      {
        assert RightlyAsleep(k, x);
      }
    }
  }

  lemma TryAcquireWaits(k: Kernel, t: Tid, l: nat)
    requires Placement(k) && Waits(k) && Current(k, t) && l in k.owners
    ensures Waits(TryAcquire(k, t, l)) && CurrentRuns(TryAcquire(k, t, l))
  {
    var k' := TryAcquire(k, t, l);
    if k.owners[l] != None && k.owners[l] != Some(t) {
      SleepWaits(k, t, InAcquire(l));
    } else {
      forall x | x in k'.sleepers
        ensures RightlyAsleep(k', x)
      {
        assert RightlyAsleep(k, x);
      }
    }
  }

  lemma ReleaseWaits(k: Kernel, t: Tid, l: nat)
    requires Waits(k) && l in k.owners
    ensures Waits(DoRelease(k, t, l))
  {
    if k.owners[l] == Some(t) {
      var q := k.(owners := k.owners[l := None]);
      forall x | x in q.sleepers && x.addr != Lock(l)
        ensures RightlyAsleep(q, x)
      {
        assert RightlyAsleep(k, x);
      }
      WakeWaits(q, Lock(l));
    }
  }

  lemma UpWaits(k: Kernel, s: nat)
    requires Waits(k) && s in k.sems
    ensures Waits(Wake(k.(sems := k.sems[s := k.sems[s] + 1]), Sem(s)))
  {
    var q := k.(sems := k.sems[s := k.sems[s] + 1]);
    forall x | x in q.sleepers && x.addr != Sem(s)
      ensures RightlyAsleep(q, x)
    {
      assert RightlyAsleep(k, x);
    }
    WakeWaits(q, Sem(s));
  }

  /** Moving threads between lists, and code positions of threads that are not asleep, do not matter. */
  lemma SameWaits(k: Kernel, k': Kernel)
    requires Waits(k) && ContsKnown(k') && (forall x :: x in k'.sleepers ==> x in k.sleepers)
    requires k'.sems == k.sems && k'.owners == k.owners && k'.guards == k.guards && k'.queues.Keys == k.queues.Keys
    requires forall x :: x in k'.sleepers ==> x.t in k'.cont && k'.cont[x.t] == k.cont[x.t]
    ensures Waits(k')
  {
    forall x | x in k'.sleepers
      ensures RightlyAsleep(k', x)
    {
      assert RightlyAsleep(k, x);
    }
  }

  lemma ResumeWaits(k: Kernel, t: Tid)
    requires Placement(k) && Waits(k) && Current(k, t) && t in k.cont
    ensures Waits(Resume(k, t)) && CurrentRuns(Resume(k, t))
  {
    var q := k.(zombies := []);
    SameWaits(k, q);
    match k.cont[t] {
      case Starting => SameWaits(k, Resume(k, t));
      case Plain =>
      case Queued(_, _) =>
      case InP(s) => TryPWaits(q, t, s);
      case InAcquire(l) => TryAcquireWaits(q, t, l);
      case Waiting(_, l) => TryAcquireWaits(q, t, l);
    }
  }

  lemma CvSleepWaits(k: Kernel, c: nat, l: nat)
    requires Placement(k) && Waits(k) && Enabled(k, CvSleep(c, l))
    ensures Waits(Apply(k, CvSleep(c, l))) && CurrentRuns(Apply(k, CvSleep(c, l)))
  {
    ReleasePlacement(k, k.cur.value, l);
    ReleaseWaits(k, k.cur.value, l);
    SleepWaits(DoRelease(k, k.cur.value, l), k.cur.value, Waiting(c, l));
  }

  lemma SignalWaits(k: Kernel, c: nat)
    requires Once(k.sleepers) && Waits(k) && c in k.queues && k.queues[c] != []
    ensures Waits(WakeHead(k, c))
  {
    var k' := WakeHead(k, c);
    assert forall x :: x in k'.sleepers ==> x in k.sleepers by {
      RemoveMembers(k.sleepers, Sleeper(k.queues[c][0], Cv(c)));
    }
    SameWaits(k, k');
  }

  lemma PoppedWaits(k: Kernel)
    requires Placement(k) && Waits(k) && k.cur.None? && k.ready != []
    ensures var q := k.(cur := Some(k.ready[0]), ready := k.ready[1..]); Placement(q) && Waits(q)
  {
    PopPlacement(k);
    SameWaits(k, k.(cur := Some(k.ready[0]), ready := k.ready[1..]));
  }

  lemma DispatchWaits(k: Kernel)
    requires Placement(k) && Waits(k) && Enabled(k, Dispatch)
    ensures Waits(Apply(k, Dispatch)) && CurrentRuns(Apply(k, Dispatch))
  {
    PoppedWaits(k);
    ResumeWaits(k.(cur := Some(k.ready[0]), ready := k.ready[1..]), k.ready[0]);
  }

  /** Steps that wake nobody and touch no count or owner. */
  lemma PlainWaits(k: Kernel, step: Step)
    requires Placement(k) && Waits(k) && Enabled(k, step) && (step.Fork? || step.Yield? || step.Exit? || step.CvQueue?)
    requires CurrentRuns(k)
    ensures Waits(Apply(k, step)) && CurrentRuns(Apply(k, step))
  {
    SameWaits(k, Apply(k, step));
  }

  lemma CvWaits(k: Kernel, step: Step)
    requires Placement(k) && Waits(k) && CurrentRuns(k) && Enabled(k, step)
    requires step.CvQueue? || step.CvSleep? || step.CvSignal? || step.CvBroadcast?
    ensures Waits(Apply(k, step)) && CurrentRuns(Apply(k, step))
  {
    match step {
      case CvQueue(_, _) => PlainWaits(k, step);
      case CvSleep(c, l) => CvSleepWaits(k, c, l);
      case CvSignal(c) => if k.queues[c] != [] { SignalWaits(k, c); }
      case CvBroadcast(c) => WakeWaits(k, Cv(c));
    }
  }

  lemma LockWaits(k: Kernel, step: Step)
    requires Placement(k) && Waits(k) && CurrentRuns(k) && Enabled(k, step)
    requires step.P? || step.V? || step.Acquire? || step.Release?
    ensures Waits(Apply(k, step)) && CurrentRuns(Apply(k, step))
  {
    match step {
      case P(s) => TryPWaits(k, k.cur.value, s);
      case V(s) => UpWaits(k, s);
      case Acquire(l) => TryAcquireWaits(k, k.cur.value, l);
      case Release(l) => ReleaseWaits(k, k.cur.value, l);
    }
  }

  /** Every step keeps sleepers waiting for good reason and counts from going negative. */
  lemma StepWaits(k: Kernel, step: Step)
    requires Placement(k) && Waits(k) && CurrentRuns(k) && Enabled(k, step)
    ensures Waits(Apply(k, step)) && CurrentRuns(Apply(k, step))
  {
    if step.Fork? || step.Yield? || step.Exit? {
      PlainWaits(k, step);
    } else if step.Dispatch? {
      DispatchWaits(k);
    } else if step.P? || step.V? || step.Acquire? || step.Release? {
      LockWaits(k, step);
    } else {
      CvWaits(k, step);
    }
  }

  // ---------------------------------------------------------------- condition variables

  ghost predicate QueuedOn(k: Kernel, c: nat, t: Tid) {
    t in k.cont && k.cont[t].Queued? && k.cont[t].c == c
  }

  /** c and its lock exist. */
  ghost predicate Guarded(k: Kernel, c: nat) {
    c in k.queues && c in k.guards && k.guards[c] in k.owners
  }

  ghost predicate Holds(k: Kernel, l: nat) {
    k.cur.Some? && l in k.owners && k.owners[l] == k.cur
  }

  /**
   The discipline under which condition variables work as meant: waiters and signallers hold the
   associated lock, and cv_broadcast, which leaves the queue behind, is not used.
   */
  ghost predicate Disciplined(k: Kernel, step: Step) {
    match step
    case CvQueue(c, l) => c in k.guards && l == k.guards[c] && Holds(k, l)
    case CvSignal(c) => c in k.guards && Holds(k, k.guards[c])
    case CvBroadcast(_) => false
    case _ => true
  }

  /**
   The queue of c lists the threads asleep on c in the order of their arrival, followed by the
   one thread that is still inside cv_wait, if there is one; that thread holds the lock.
   */
  ghost predicate CvOk(k: Kernel, c: nat)
    requires Guarded(k, c)
  {
    var asleep := On(k.sleepers, Cv(c));
    && (forall h :: QueuedOn(k, c, h) ==>
          k.cont[h].l == k.guards[c] && k.owners[k.guards[c]] == Some(h) && k.queues[c] == asleep + [h])
    && ((forall h :: !QueuedOn(k, c, h)) ==> k.queues[c] == asleep)
  }

  ghost predicate Cvs(k: Kernel) {
    forall c :: c in k.queues ==> Guarded(k, c) && CvOk(k, c)
  }

  /** Nothing that concerns c has changed. */
  ghost predicate Untouched(k: Kernel, k': Kernel, c: nat)
    requires Guarded(k, c)
  {
    && Guarded(k', c)
    && k'.queues[c] == k.queues[c] && k'.guards == k.guards && On(k'.sleepers, Cv(c)) == On(k.sleepers, Cv(c))
    && (forall h :: QueuedOn(k', c, h) <==> QueuedOn(k, c, h))
    && (forall h :: QueuedOn(k, c, h) ==> k'.cont[h] == k.cont[h])
    && (forall h :: QueuedOn(k, c, h) ==> k'.owners[k.guards[c]] == k.owners[k.guards[c]])
  }

  lemma UntouchedOk(k: Kernel, k': Kernel, c: nat)
    requires Guarded(k, c) && CvOk(k, c) && Untouched(k, k', c)
    ensures CvOk(k', c)
  {
  }

  /** No condition variable is touched. */
  ghost predicate AllUntouched(k: Kernel, k': Kernel)
    requires Cvs(k)
  {
    k'.queues == k.queues && forall c :: c in k.queues ==> Untouched(k, k', c)
  }

  lemma AllUntouchedOk(k: Kernel, k': Kernel)
    requires Cvs(k) && AllUntouched(k, k')
    ensures Cvs(k')
  {
    forall c | c in k'.queues
      ensures Guarded(k', c) && CvOk(k', c)
    {
      UntouchedOk(k, k', c);
    }
  }

  /** The holder of the lock of c is the only thread that can be on its way to sleep on c. */
  lemma OnlyHolder(k: Kernel, c: nat, t: Tid)
    requires Cvs(k) && c in k.queues && t in k.cont && k.cont[t].Plain? && k.owners[k.guards[c]] == Some(t)
    ensures k.queues[c] == On(k.sleepers, Cv(c)) && forall h :: !QueuedOn(k, c, h)
  {
    assert CvOk(k, c);
  }

  lemma WakeCvs(k: Kernel, k': Kernel, a: Addr)
    requires Cvs(k) && !a.Cv? && k'.sleepers == Off(k.sleepers, a) && k'.cont == k.cont
    requires k'.queues == k.queues && k'.guards == k.guards && k'.owners.Keys == k.owners.Keys
    requires forall c, h :: c in k.queues && QueuedOn(k, c, h) ==> k'.owners[k.guards[c]] == k.owners[k.guards[c]]
    ensures Cvs(k')
  {
    forall c | c in k.queues
      ensures Untouched(k, k', c)
    {
      assert Guarded(k, c);
      OffOn(k.sleepers, a, Cv(c));
    }
    AllUntouchedOk(k, k');
  }

  lemma SleepCvs(k: Kernel, t: Tid, cont: Cont)
    requires Cvs(k) && (cont.InP? || cont.InAcquire?) && t in k.cont && !k.cont[t].Queued?
    ensures Cvs(Sleep(k, t, cont))
  {
    var k', a := Sleep(k, t, cont), WaitAddr(cont).value;
    forall c | c in k.queues
      ensures Untouched(k, k', c)
    {
      assert Guarded(k, c);
      OnAppend(k.sleepers, Sleeper(t, a), Cv(c));
    }
    AllUntouchedOk(k, k');
  }

  /** Counts, lists of ready and dead threads, and code positions other than inside cv_wait do not matter. */
  lemma SameCvs(k: Kernel, k': Kernel)
    requires Cvs(k) && k'.sleepers == k.sleepers && k'.queues == k.queues && k'.guards == k.guards && k'.owners == k.owners
    requires forall c, h :: QueuedOn(k', c, h) <==> QueuedOn(k, c, h)
    requires forall c, h :: QueuedOn(k, c, h) ==> h in k'.cont && k'.cont[h] == k.cont[h]
    ensures Cvs(k')
  {
    forall c | c in k.queues
      ensures Untouched(k, k', c)
    {
      assert Guarded(k, c);
    }
    AllUntouchedOk(k, k');
  }

  lemma TryPCvs(k: Kernel, t: Tid, s: nat)
    requires Cvs(k) && t in k.cont && !k.cont[t].Queued? && s in k.sems
    ensures Cvs(TryP(k, t, s))
  {
    if k.sems[s] == 0 { SleepCvs(k, t, InP(s)); } else { SameCvs(k, TryP(k, t, s)); }
  }

  lemma TryAcquireCvs(k: Kernel, t: Tid, l: nat)
    requires Cvs(k) && t in k.cont && !k.cont[t].Queued? && l in k.owners
    ensures Cvs(TryAcquire(k, t, l))
  {
    var k' := TryAcquire(k, t, l);
    if k.owners[l] != None && k.owners[l] != Some(t) {
      SleepCvs(k, t, InAcquire(l));
    } else {
      forall c | c in k.queues
        ensures Untouched(k, k', c)
      {
        assert Guarded(k, c) && CvOk(k, c);
      }
      AllUntouchedOk(k, k');
    }
  }

  lemma ReleaseCvs(k: Kernel, t: Tid, l: nat)
    requires Cvs(k) && t in k.cont && k.cont[t].Plain? && l in k.owners
    ensures Cvs(DoRelease(k, t, l))
  {
    if k.owners[l] == Some(t) {
      var k' := DoRelease(k, t, l);
      forall c, h | c in k.queues && QueuedOn(k, c, h)
        ensures k'.owners[k.guards[c]] == k.owners[k.guards[c]]
      {
        assert CvOk(k, c);
      }
      WakeCvs(k, k', Lock(l));
    }
  }

  lemma QueueCvs(k: Kernel, c: nat, l: nat)
    requires Cvs(k) && Enabled(k, CvQueue(c, l)) && Disciplined(k, CvQueue(c, l))
    ensures Cvs(Apply(k, CvQueue(c, l)))
  {
    var k' := Apply(k, CvQueue(c, l));
    OnlyHolder(k, c, k.cur.value);
    forall d | d in k'.queues
      ensures Guarded(k', d) && CvOk(k', d)
    {
      assert Guarded(k, d) && CvOk(k, d);
      if d != c { UntouchedOk(k, k', d); } else { assert QueuedOn(k', c, k.cur.value); }
    }
  }

  lemma CvSleepCvs(k: Kernel, c: nat, l: nat)
    requires Placement(k) && Cvs(k) && Enabled(k, CvSleep(c, l))
    ensures Cvs(Apply(k, CvSleep(c, l)))
  {
    var k' := Apply(k, CvSleep(c, l));
    forall d | d in k'.queues
      ensures Guarded(k', d) && CvOk(k', d)
    {
      CvSleepSleepers(k, c, l, d);
      if d != c { UntouchedOk(k, k', d); } else { CvSleepOwn(k, c, l); }
    }
  }

  lemma CvSleepSleepers(k: Kernel, c: nat, l: nat, d: nat)
    requires Enabled(k, CvSleep(c, l)) && d in k.queues
    ensures On(Apply(k, CvSleep(c, l)).sleepers, Cv(d)) == On(k.sleepers, Cv(d)) + if d == c then [k.cur.value] else []
  {
    var t := k.cur.value;
    var q := DoRelease(k, t, l);
    assert On(q.sleepers, Cv(d)) == On(k.sleepers, Cv(d)) by { OffOn(k.sleepers, Lock(l), Cv(d)); }
    OnAppend(q.sleepers, Sleeper(t, Cv(c)), Cv(d));
    assert Apply(k, CvSleep(c, l)).sleepers == q.sleepers + [Sleeper(t, Cv(c))];
  }

  lemma CvSleepOwn(k: Kernel, c: nat, l: nat)
    requires Placement(k) && Cvs(k) && Enabled(k, CvSleep(c, l))
    ensures Guarded(Apply(k, CvSleep(c, l)), c) && CvOk(Apply(k, CvSleep(c, l)), c)
  {
    var k' := Apply(k, CvSleep(c, l));
    assert QueuedOn(k, c, k.cur.value) && CvOk(k, c);
    CvSleepSleepers(k, c, l, c);
    assert forall h :: !QueuedOn(k', c, h);
  }

  lemma SignalCvs(k: Kernel, c: nat)
    requires Placement(k) && Cvs(k) && Enabled(k, CvSignal(c)) && Disciplined(k, CvSignal(c)) && k.queues[c] != []
    ensures Cvs(WakeHead(k, c))
  {
    var k', x := WakeHead(k, c), Sleeper(k.queues[c][0], Cv(c));
    OnlyHolder(k, c, k.cur.value);
    OnMembers(k.sleepers, Cv(c));
    forall d | d in k'.queues
      ensures Guarded(k', d) && CvOk(k', d)
    {
      assert Guarded(k, d) && CvOk(k, d);
      if d != c {
        RemoveOther(k.sleepers, x, Cv(d));
        UntouchedOk(k, k', d);
      } else {
        RemoveHead(k.sleepers, Cv(c));
        assert forall h :: !QueuedOn(k', c, h);
      }
    }
  }

  lemma ResumeCvs(k: Kernel, t: Tid)
    requires Cvs(k) && t in k.cont && ContKnown(k, k.cont[t])
    ensures Cvs(Resume(k, t))
  {
    var q := k.(zombies := []);
    SameCvs(k, q);
    match k.cont[t] {
      case Starting => SameCvs(k, Resume(k, t));
      case Plain =>
      case Queued(_, _) =>
      case InP(s) => TryPCvs(q, t, s);
      case InAcquire(l) => TryAcquireCvs(q, t, l);
      case Waiting(_, l) => TryAcquireCvs(q, t, l);
    }
  }

  lemma DispatchCvs(k: Kernel)
    requires Cvs(k) && Enabled(k, Dispatch)
    ensures Cvs(Apply(k, Dispatch))
  {
    var q := k.(cur := Some(k.ready[0]), ready := k.ready[1..]);
    SameCvs(k, q);
    ResumeCvs(q, k.ready[0]);
  }

  lemma StepCvs(k: Kernel, step: Step)
    requires Placement(k) && Cvs(k) && Enabled(k, step) && Disciplined(k, step)
    ensures Cvs(Apply(k, step))
  {
    match step {
      case P(s) => TryPCvs(k, k.cur.value, s);
      case V(s) => WakeCvs(k, Apply(k, step), Sem(s));
      case Acquire(l) => TryAcquireCvs(k, k.cur.value, l);
      case Release(l) => ReleaseCvs(k, k.cur.value, l);
      case CvQueue(c, l) => QueueCvs(k, c, l);
      case CvSleep(c, l) => CvSleepCvs(k, c, l);
      case CvSignal(c) => if k.queues[c] != [] { SignalCvs(k, c); }
      case Dispatch => DispatchCvs(k);
      case CvBroadcast(_) => assert false;
      case Fork(_) => SameCvs(k, Apply(k, step));
      case Yield => SameCvs(k, Apply(k, step));
      case Exit => SameCvs(k, Apply(k, step));
    }
  }
}

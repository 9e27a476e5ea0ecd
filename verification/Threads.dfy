/**
 The thread system's global state and the sections of code that update it with interrupts off.
 Each method is one section, up to the point where the processor is given to another thread,
 and is proved to be the corresponding step of the thread step machine.
 */
module Threads {
  import opened Collections
  import opened ThreadModel
  import opened ThreadSafety
  import opened ThreadRuns

  datatype NextState = Ready | Asleep(addr: Addr) | Zombie

  class ThreadSystem {
    var curthread: Option<Tid>
    var runqueue: seq<Tid>
    var sleepers: seq<Sleeper>
    var zombies: seq<Tid>
    var numthreads: int
    /** Where each live thread is in its code; stands for the saved stacks. */
    var cont: map<Tid, Cont>
    var sems: map<nat, int>
    var owners: map<nat, Option<Tid>>
    var queues: map<nat, seq<Tid>>
    const guards: map<nat, nat>

    ghost function State(): Kernel
      reads this
    {
      Kernel(curthread, runqueue, sleepers, zombies, numthreads, cont, sems, owners, queues, guards)
    }

    ghost predicate Valid()
      reads this
    {
      Inv(State())
    }

    /** thread_bootstrap, with the given synchronization objects. */
    constructor (counts: map<nat, int>, locks: set<nat>, cvs: map<nat, nat>)
      requires forall s :: s in counts ==> counts[s] >= 0
      ensures Boot(State()) && Valid()
      ensures sems == counts && owners.Keys == locks && queues.Keys == cvs.Keys && guards == cvs
    {
      curthread, runqueue, sleepers, zombies, numthreads := Some(0), [], [], [], 1;
      cont := map[0 := Plain];
      sems := counts;
      owners := map l | l in locks :: None;
      queues := map c | c in cvs :: [];
      guards := cvs;
      new;
      BootInv(State());
    }

    /** Take one sleeper out of the array and make it runnable. */
    method MakeReady(i: nat)
      requires i < |sleepers|
      modifies this`runqueue, this`sleepers
      ensures sleepers == old(sleepers[..i] + sleepers[i + 1..]) && runqueue == old(runqueue + [sleepers[i].t])
    {
      var t := sleepers[i].t;
      sleepers := sleepers[..i] + sleepers[i + 1..];
      runqueue := runqueue + [t];
    }

    /** thread_wakeup: the loop that takes every sleeper on a out of the array. */
    method Wakeup(a: Addr)
      modifies this`runqueue, this`sleepers
      ensures State() == Wake(old(State()), a)
    {
      var i := 0;
      ghost var s0, n := sleepers, 0;
      WakeStart(s0, a, runqueue);
      while i < |sleepers|
        invariant Waking(s0, n, a, i, sleepers, old(runqueue), runqueue)
        decreases |s0| - n
      {
        WakeStep(s0, n, a, i, sleepers, old(runqueue), runqueue);
        var t := sleepers[i];
        if t.addr == a {
          MakeReady(i);
          i := i - 1;
        }
        i := i + 1;
        n := n + 1;
      }
      WakeEnd(s0, n, a, i, sleepers, old(runqueue), runqueue);
    }

    /** thread_wakeup_head: only the head of the queue of c, if it is asleep on c. */
    method WakeupHead(c: nat)
      requires Once(sleepers) && c in queues && queues[c] != []
      modifies this`runqueue, this`sleepers, this`queues
      ensures State() == WakeHead(old(State()), c)
    {
      var head := queues[c][0];
      queues := queues[c := queues[c][1..]];
      ghost var x := Sleeper(head, Cv(c));
      for i := 0 to |sleepers|
        invariant forall j :: 0 <= j < i ==> sleepers[j] != x
        invariant sleepers == old(sleepers) && runqueue == old(runqueue)
      {
        if sleepers[i].addr == Cv(c) && sleepers[i].t == head {
          RemoveAt(sleepers, i);
          MakeReady(i);
          break;
        }
      }
    }

    /** exorcise: none of the threads destroyed is the running one. */
    method Exorcise()
      requires forall t :: t in zombies ==> curthread != Some(t)
      modifies this`zombies
      ensures zombies == []
    {
      for i := 0 to |zombies| {
        assert zombies[i] in zombies && curthread != Some(zombies[i]);
      }
      zombies := [];
    }

    /** The first half of mi_switch: put the running thread on the list it belongs to. */
    method GiveUp(next: NextState)
      requires curthread.Some?
      modifies this`curthread, this`runqueue, this`sleepers, this`zombies
      ensures curthread == None
      ensures var t := old(curthread).value;
              match next
              case Ready => runqueue == old(runqueue) + [t] && sleepers == old(sleepers) && zombies == old(zombies)
              case Asleep(a) => sleepers == old(sleepers) + [Sleeper(t, a)] && runqueue == old(runqueue) && zombies == old(zombies)
              case Zombie => zombies == old(zombies) + [t] && runqueue == old(runqueue) && sleepers == old(sleepers)
    {
      var cur := curthread.value;
      curthread := None;
      match next {
        case Ready => runqueue := runqueue + [cur];
        case Asleep(a) => sleepers := sleepers + [Sleeper(cur, a)];
        case Zombie => zombies := zombies + [cur];
      }
    }

    /** thread_sleep, up to the switch, called from the given place. */
    method ThreadSleep(place: Cont)
      requires curthread.Some? && WaitAddr(place).Some?
      modifies this`curthread, this`runqueue, this`sleepers, this`zombies, this`cont
      ensures State() == Sleep(old(State()), old(curthread).value, place)
    {
      cont := cont[curthread.value := place];
      GiveUp(Asleep(WaitAddr(place).value));
    }

    /** One turn of the loop of P. */
    method Down(s: nat)
      requires curthread.Some? && s in sems
      modifies this`curthread, this`runqueue, this`sleepers, this`zombies, this`cont, this`sems
      ensures State() == TryP(old(State()), old(curthread).value, s)
    {
      if sems[s] == 0 {
        ThreadSleep(InP(s));
      } else {
        sems := sems[s := sems[s] - 1];
        cont := cont[curthread.value := Plain];
      }
    }

    /** One turn of the loop of lock_acquire. */
    method Take(l: nat)
      requires curthread.Some? && l in owners
      modifies this`curthread, this`runqueue, this`sleepers, this`zombies, this`cont, this`owners
      ensures State() == TryAcquire(old(State()), old(curthread).value, l)
    {
      if owners[l] != None && owners[l] != curthread {
        ThreadSleep(InAcquire(l));
      } else {
        owners := owners[l := curthread];
        cont := cont[curthread.value := Plain];
      }
    }

    /** P */
    method SemP(s: nat)
      requires Valid() && Enabled(State(), P(s))
      modifies this
      ensures State() == Apply(old(State()), P(s)) && Valid()
    {
      StepInv(State(), P(s));
      Down(s);
    }

    /** V, by a thread or an interrupt handler */
    method SemV(s: nat)
      requires Valid() && Enabled(State(), V(s))
      modifies this
      ensures State() == Apply(old(State()), V(s)) && Valid()
    {
      StepInv(State(), V(s));
      sems := sems[s := sems[s] + 1];
      Wakeup(Sem(s));
    }

    /** lock_acquire */
    method LockAcquire(l: nat)
      requires Valid() && Enabled(State(), Acquire(l))
      modifies this
      ensures State() == Apply(old(State()), Acquire(l)) && Valid()
    {
      StepInv(State(), Acquire(l));
      Take(l);
    }

    /** The body of lock_release. */
    method Drop(l: nat)
      requires curthread.Some? && l in owners
      modifies this`runqueue, this`sleepers, this`owners
      ensures State() == DoRelease(old(State()), curthread.value, l)
    {
      if owners[l] == curthread {
        owners := owners[l := None];
        Wakeup(Lock(l));
      }
    }

    /** lock_release */
    method LockRelease(l: nat)
      requires Valid() && Enabled(State(), Release(l))
      modifies this
      ensures State() == Apply(old(State()), Release(l)) && Valid()
    {
      StepInv(State(), Release(l));
      Drop(l);
    }

    /** The first line of cv_wait, before interrupts are turned off. */
    method CvWaitQueue(c: nat, l: nat)
      requires Valid() && Enabled(State(), CvQueue(c, l))
      modifies this
      ensures State() == Apply(old(State()), CvQueue(c, l)) && Valid()
    {
      StepInv(State(), CvQueue(c, l));
      queues := queues[c := queues[c] + [curthread.value]];
      cont := cont[curthread.value := Queued(c, l)];
    }

    /** The rest of cv_wait up to the sleep. */
    method CvWaitSleep(c: nat, l: nat)
      requires Valid() && Enabled(State(), CvSleep(c, l))
      modifies this
      ensures State() == Apply(old(State()), CvSleep(c, l)) && Valid()
    {
      ghost var k := State();
      Drop(l);
      ThreadSleep(Waiting(c, l));
      StepInv(k, CvSleep(c, l));
    }

    /** cv_signal */
    method Signal(c: nat)
      requires Valid() && Enabled(State(), CvSignal(c))
      modifies this
      ensures State() == Apply(old(State()), CvSignal(c)) && Valid()
    {
      StepInv(State(), CvSignal(c));
      if queues[c] == [] {
        return;
      }
      WakeupHead(c);
    }

    /** cv_broadcast: wakes everyone asleep on c, and leaves the queue as it is. */
    method Broadcast(c: nat)
      requires Valid() && Enabled(State(), CvBroadcast(c))
      modifies this
      ensures State() == Apply(old(State()), CvBroadcast(c)) && Valid()
    {
      StepInv(State(), CvBroadcast(c));
      Wakeup(Cv(c));
    }

    /** thread_fork, once the new thread structure exists */
    method ThreadFork(child: Tid)
      requires Valid() && Enabled(State(), Fork(child))
      modifies this
      ensures State() == Apply(old(State()), Fork(child)) && Valid()
    {
      StepInv(State(), Fork(child));
      cont := cont[child := Starting];
      runqueue := runqueue + [child];
      numthreads := numthreads + 1;
    }

    /** thread_yield, voluntary or by the timer interrupt */
    method ThreadYield()
      requires Valid() && Enabled(State(), Yield)
      modifies this
      ensures State() == Apply(old(State()), Yield) && Valid()
    {
      StepInv(State(), Yield);
      GiveUp(Ready);
    }

    /** thread_exit */
    method ThreadExit()
      requires Valid() && Enabled(State(), Exit)
      modifies this
      ensures State() == Apply(old(State()), Exit) && Valid()
    {
      StepInv(State(), Exit);
      numthreads := numthreads - 1;
      cont := cont - {curthread.value};
      GiveUp(Zombie);
    }

    /** What the running thread does when it comes back from a switch, or starts. */
    method Continue()
      requires curthread.Some? && curthread.value in cont && ContKnown(State(), cont[curthread.value])
      requires forall t :: t in zombies ==> curthread != Some(t)
      modifies this`curthread, this`runqueue, this`sleepers, this`zombies, this`cont, this`sems, this`owners
      ensures State() == Resume(old(State()), old(curthread).value)
    {
      var next := curthread.value;
      if cont[next] == Starting {
        cont := cont[next := Plain];
        return;
      }
      Exorcise();
      match cont[next] {
        case InP(s) => Down(s);
        case InAcquire(l) => Take(l);
        case Waiting(_, l) => Take(l);
        case _ =>
      }
    }

    /** The second half of mi_switch and what the thread switched to does next. */
    method SwitchTo()
      requires Valid() && Enabled(State(), Dispatch)
      modifies this
      ensures State() == Apply(old(State()), Dispatch) && Valid()
    {
      StepInv(State(), Dispatch);
      assert forall t :: t in zombies ==> runqueue[0] != t by { PopPlacement(State()); }
      var next := runqueue[0];
      runqueue := runqueue[1..];
      curthread := Some(next);
      Continue();
    }
  }

  /** n sleepers of s have been looked at, and i of them kept; q were ready before, rq are now. */
  ghost predicate Waking(s: seq<Sleeper>, n: nat, a: Addr, i: int, sl: seq<Sleeper>, q: seq<Tid>, rq: seq<Tid>) {
    && n <= |s| && i == |Off(s[..n], a)|
    && sl == Off(s[..n], a) + s[n..]
    && rq == q + On(s[..n], a)
  }

  lemma WakeStart(s: seq<Sleeper>, a: Addr, q: seq<Tid>)
    ensures Waking(s, 0, a, 0, s, q, q)
  {
    assert s[..0] == [] && s[0..] == s;
  }

  /** One turn of the wakeup loop. */
  lemma WakeStep(s: seq<Sleeper>, n: nat, a: Addr, i: int, sl: seq<Sleeper>, q: seq<Tid>, rq: seq<Tid>)
    requires Waking(s, n, a, i, sl, q, rq) && i < |sl|
    ensures n < |s| && 0 <= i
    ensures if sl[i].addr == a then Waking(s, n + 1, a, i, sl[..i] + sl[i + 1..], q, rq + [sl[i].t])
            else Waking(s, n + 1, a, i + 1, sl, q, rq)
  {
    var kept := Off(s[..n], a);
    Middle(kept, s, n);
    OnAppend(s[..n], s[n], a);
    assert (q + On(s[..n], a)) + [s[n].t] == q + (On(s[..n], a) + [s[n].t]);
  }

  lemma WakeEnd(s: seq<Sleeper>, n: nat, a: Addr, i: int, sl: seq<Sleeper>, q: seq<Tid>, rq: seq<Tid>)
    requires Waking(s, n, a, i, sl, q, rq) && i >= |sl|
    ensures sl == Off(s, a) && rq == q + On(s, a)
  {
    assert s[..n] == s;
    assert sl == Off(s[..n], a) + [];
  }

  lemma Middle(xs: seq<Sleeper>, s: seq<Sleeper>, n: nat)
    requires n < |s|
    ensures (xs + s[n..])[|xs|] == s[n] && s[..n + 1] == s[..n] + [s[n]]
    ensures (xs + s[n..])[..|xs|] + (xs + s[n..])[|xs| + 1..] == xs + s[n + 1..]
    ensures xs + s[n..] == (xs + [s[n]]) + s[n + 1..]
  {
  }

  lemma {:induction false} RemoveAt(sl: seq<Sleeper>, i: nat)
    requires Once(sl) && i < |sl|
    ensures Remove(sl, sl[i]) == sl[..i] + sl[i + 1..]
    decreases |sl|
  {
    var y, front := sl[|sl| - 1], sl[..|sl| - 1];
    if i == |front| {
      RemoveAbsent(front, sl[i]);
      assert sl[i + 1..] == [];
    } else {
      RemoveAt(front, i);
      assert sl[..i] + sl[i + 1..] == (front[..i] + front[i + 1..]) + [y];
    }
  }

  lemma {:induction false} RemoveAbsent(sl: seq<Sleeper>, x: Sleeper)
    requires x !in sl
    ensures Remove(sl, x) == sl
  {
    if sl != [] {
      RemoveAbsent(sl[..|sl| - 1], x);
    }
  }
}

/**
 Console output through the serial driver: threads that print with interrupts on, polled output by
 code that runs with interrupts off, and the device's write-done interrupt, in any interleaving.
 */
module Console {
  import opened Collections

  type Tid = nat
  type Char = int

  /** Where a thread is in putch_intr. */
  datatype Writer = Waiting(ch: Char) | Holding(ch: Char) | Done

  datatype State = State(
    writers: map<Tid, Writer>,
    wsem: nat,               // cs_wsem's count
    wbusy: bool,             // ls_wbusy
    sending: Option<Char>,   // the character the device is transmitting
    active: bool,            // LSER_IRQ_ACTIVE in the write interrupt register
    out: seq<Char>,          // history: transmitted
    sent: seq<Char>)         // history: handed to the device

  datatype Step =
    | Begin(t: Tid, ch: Char)   // putch with interrupts on
    | P(t: Tid)
    | Send(t: Tid)              // lser_write
    | Polled(ch: Char)          // lser_writepolled, with interrupts off throughout
    | Transmitted               // the device finishes a character
    | Interrupt                 // lser_irq

  /** lser_write panics when it finds the device busy; polled output spins until a pending character is out. */
  ghost predicate Enabled(s: State, step: Step) {
    match step
    case Begin(t, _) => t in s.writers ==> s.writers[t].Done?
    case P(t) => t in s.writers && s.writers[t].Waiting? && s.wsem > 0
    case Send(t) => t in s.writers && s.writers[t].Holding?
    case Polled(_) => SpinEnds(s)
    case Transmitted => s.sending.Some?
    case Interrupt => true
  }

  ghost predicate Panics(s: State, step: Step) {
    step.Send? && Enabled(s, step) && s.wbusy
  }

  /** lser_spin_until_write, when it is entered at all, sees the ready condition sooner or later. */
  ghost predicate SpinEnds(s: State) {
    s.wbusy ==> s.sending.Some? || s.active
  }

  function Pending(s: State): seq<Char> {
    if s.sending.Some? then [s.sending.value] else []
  }

  function Apply(s: State, step: Step): State
    requires Enabled(s, step) && !Panics(s, step)
  {
    match step
    case Begin(t, ch) => s.(writers := s.writers[t := Waiting(ch)])
    case P(t) => s.(wsem := s.wsem - 1, writers := s.writers[t := Holding(s.writers[t].ch)])
    case Send(t) =>
      var ch := s.writers[t].ch;
      s.(wbusy := true, sending := Some(ch), sent := s.sent + [ch], writers := s.writers[t := Done])
    case Polled(ch) =>
      // A pending character is waited for; its interrupt is left pending.
      var before := if s.wbusy then s.out + Pending(s) else s.out;
      s.(sending := None, active := s.wbusy, out := before + [ch], sent := s.sent + [ch])
    case Transmitted => s.(sending := None, active := true, out := s.out + [s.sending.value])
    case Interrupt => if s.active then s.(active := false, wbusy := false, wsem := s.wsem + 1) else s
  }

  ghost function Holders(s: State): set<Tid> {
    set t | t in s.writers && s.writers[t].Holding?
  }

  function Bit(b: bool): nat { if b then 1 else 0 }

  ghost predicate Inv(s: State) {
    && s.wsem + |Holders(s)| + Bit(s.wbusy) == 1
    && (s.wbusy <==> s.sending.Some? || s.active)
    && !(s.sending.Some? && s.active)
    && s.out + Pending(s) == s.sent
  }

  /** After config_lser and the creation of the console. */
  ghost predicate Init(s: State) {
    s.writers == map[] && s.wsem == 1 && !s.wbusy && s.sending == None && !s.active && s.out == s.sent == []
  }

  /** "Not clear to write" cannot happen. */
  lemma NoPanic(s: State, step: Step)
    requires Inv(s)
    ensures !Panics(s, step)
  {
    if step.Send? && Enabled(s, step) {
      assert step.t in Holders(s);
    }
  }

  lemma StepCount(s: State, step: Step)
    requires Inv(s) && Enabled(s, step) && !Panics(s, step)
    ensures var s' := Apply(s, step); s'.wsem + |Holders(s')| + Bit(s'.wbusy) == 1
  {
    var s' := Apply(s, step);
    match step {
      case P(t) => assert Holders(s') == Holders(s) + {t};
      case Send(t) => assert Holders(s') == Holders(s) - {t} && t in Holders(s);
      case _ => assert Holders(s') == Holders(s);
    }
  }

  lemma StepInv(s: State, step: Step)
    requires Inv(s) && Enabled(s, step) && !Panics(s, step)
    ensures Inv(Apply(s, step))
  {
    StepCount(s, step);
    if step.Send? {
      assert step.t in Holders(s);
      assert !s.wbusy;
    }
  }

  ghost predicate CanRun(s: State, steps: seq<Step>)
    decreases |steps|
  {
    steps == [] || (Enabled(s, steps[0]) && (Panics(s, steps[0]) || CanRun(Apply(s, steps[0]), steps[1..])))
  }

  /** The state after a run, or None if the driver panicked on the way. */
  ghost function Run(s: State, steps: seq<Step>): Option<State>
    requires CanRun(s, steps)
    decreases |steps|
  {
    if steps == [] then Some(s)
    else if Panics(s, steps[0]) then None
    else Run(Apply(s, steps[0]), steps[1..])
  }

  /**
   In every interleaving the driver never panics, the semaphore count, the writers that hold it and
   the busy flag add up to one, and the characters come out once each in the order in which they were
   handed over.
   */
  lemma {:induction false} RunSafe(s: State, steps: seq<Step>)
    requires Inv(s) && CanRun(s, steps)
    ensures Run(s, steps).Some? && Inv(Run(s, steps).value)
    decreases |steps|
  {
    if steps != [] {
      NoPanic(s, steps[0]);
      StepInv(s, steps[0]);
      RunSafe(Apply(s, steps[0]), steps[1..]);
    }
  }

  /** Polled output never spins for ever, from whatever state it is called. */
  lemma PolledReturns(s: State, steps: seq<Step>)
    requires Init(s) && CanRun(s, steps)
    ensures Run(s, steps).Some? && SpinEnds(Run(s, steps).value)
    ensures var r := Run(s, steps).value; r.out <= r.sent && |r.sent| <= |r.out| + 1
  {
    assert Holders(s) == {};
    RunSafe(s, steps);
  }

  /** The characters that a run hands to the device, in order; last says what each thread was last asked to write. */
  ghost function HandedOver(last: map<Tid, Char>, steps: seq<Step>): seq<Char>
    decreases |steps|
  {
    if steps == [] then []
    else
      match steps[0]
      case Begin(t, ch) => HandedOver(last[t := ch], steps[1..])
      case Send(t) => (if t in last then [last[t]] else []) + HandedOver(last, steps[1..])
      case Polled(ch) => [ch] + HandedOver(last, steps[1..])
      case _ => HandedOver(last, steps[1..])
  }

  /** Every writer on its way carries the character it was last asked to write. */
  ghost predicate Asked(s: State, last: map<Tid, Char>) {
    forall t :: t in s.writers && !s.writers[t].Done? ==> t in last && last[t] == s.writers[t].ch
  }

  lemma {:induction false} SentIsHandedOver(s: State, steps: seq<Step>, last: map<Tid, Char>)
    requires Inv(s) && CanRun(s, steps) && Asked(s, last)
    ensures Run(s, steps).Some? && Run(s, steps).value.sent == s.sent + HandedOver(last, steps)
    decreases |steps|
  {
    if steps != [] {
      NoPanic(s, steps[0]);
      StepInv(s, steps[0]);
      var last' := if steps[0].Begin? then last[steps[0].t := steps[0].ch] else last;
      SentIsHandedOver(Apply(s, steps[0]), steps[1..], last');
    }
  }

  /**
   In every interleaving, what has come out of the device, with the character it is working on, is exactly
   what the writers asked for, each character in the place of its writer's turn: nothing is lost, repeated,
   altered or out of order.
   */
  lemma OutputIsAsked(s: State, steps: seq<Step>)
    requires Init(s) && CanRun(s, steps)
    ensures Run(s, steps).Some? && var r := Run(s, steps).value; r.out + Pending(r) == HandedOver(map[], steps)
  {
    assert Holders(s) == {};
    RunSafe(s, steps);
    SentIsHandedOver(s, steps, map[]);
  }
}

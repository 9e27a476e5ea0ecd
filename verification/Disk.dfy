/**
 The disk driver: any number of threads in lhd_io, the disk, and its interrupt handler, as a
 step machine. The semaphores are the kernel's: P waits for a count, V adds one.
 */
module Disk {
  import opened Collections

  type Tid = nat
  type Data = int

  const SECTSIZE := 512
  const EINVAL := 1
  const EIO := 5

  datatype Op = Read | Write

  /** Result codes of the device. */
  datatype Code = Ok | InvalidSector | MediaError {
    /** lhd_code_to_errno */
    function Errno(): int {
      match this case Ok => 0 case InvalidSector => EINVAL case MediaError => EIO
    }
  }

  /** The status register. */
  datatype Status = Idle | Working(op: Op) | Finished(code: Code)

  /** An I/O request in sectors; data is what a write transfers. */
  datatype Request = Request(op: Op, first: nat, len: nat, data: seq<Data>)

  /** Where a thread is in lhd_io, with the index of the sector it is at. */
  datatype Pc =
    | Waiting(i: nat)              // at P(lh_clear)
    | Cleared(i: nat)              // past it
    | Ready(i: nat)                // buffer loaded, if writing
    | Addressed(i: nat)            // sector register written
    | Started(i: nat)              // status register written, at P(lh_done)
    | Woken(i: nat)                // past it
    | Judged(i: nat, err: int)     // result read
    | Leaving(i: nat, err: int)    // buffer copied out, if reading; at V(lh_clear)
    | Returned(err: int)

  /**
   got: sectors read so far. History: since is how many commands the disk had completed when lhd_io was
   called, and refs says which completed commands were this request's, in order.
   */
  datatype Thread = Thread(req: Request, pc: Pc, got: seq<Data>, refs: seq<nat>, since: nat)

  /** A completed command; data is what was read, or what the sector holds after a write. */
  datatype Entry = Entry(t: Tid, op: Op, sector: nat, code: Code, data: Data)

  datatype State = State(
    threads: map<Tid, Thread>,
    clear: nat,            // lh_clear's count
    done: nat,             // lh_done's count
    result: int,           // lh_result
    status: Status,
    sect: nat,
    buf: Data,
    disk: map<nat, Data>,
    holder: Option<Tid>,   // history: who is between P and V on lh_clear
    log: seq<Entry>)       // history: the commands the disk has completed

  datatype Step =
    | Begin(t: Tid, op: Op, offset: nat, resid: nat, data: seq<Data>)
    | PClear(t: Tid)
    | MoveIn(t: Tid, err: int)     // uiomove before a write; err is its result
    | SetSector(t: Tid)
    | Start(t: Tid)
    | PDone(t: Tid)
    | GetResult(t: Tid)
    | MoveOut(t: Tid, err: int)    // uiomove after a read
    | VClear(t: Tid)
    | Complete(code: Code, junk: Data)  // the disk finishes; junk is what a failure leaves behind
    | Interrupt

  ghost predicate Enabled(s: State, step: Step) {
    match step
    case Begin(t, _, _, resid, data) => (t in s.threads ==> s.threads[t].pc.Returned?) && |data| == resid / SECTSIZE
    case PClear(t) => t in s.threads && s.threads[t].pc.Waiting? && s.clear > 0
    case MoveIn(t, _) => t in s.threads && s.threads[t].pc.Cleared?
    case SetSector(t) => t in s.threads && s.threads[t].pc.Ready?
    case Start(t) => t in s.threads && s.threads[t].pc.Addressed?
    case PDone(t) => t in s.threads && s.threads[t].pc.Started? && s.done > 0
    case GetResult(t) => t in s.threads && s.threads[t].pc.Woken?
    case MoveOut(t, _) => t in s.threads && s.threads[t].pc.Judged?
    case VClear(t) => t in s.threads && s.threads[t].pc.Leaving?
    case Complete(_, _) => s.status.Working? && s.sect in s.disk && s.holder.Some?
    case Interrupt => true
  }

  function Put(s: State, t: Tid, th: Thread): State { s.(threads := s.threads[t := th]) }

  function Go(s: State, t: Tid, pc: Pc): State
    requires t in s.threads
  {
    Put(s, t, s.threads[t].(pc := pc))
  }

  /** The checks at the start of lhd_io. */
  function Entering(blocks: nat, op: Op, offset: nat, resid: nat, data: seq<Data>, since: nat): Thread {
    var req := Request(op, offset / SECTSIZE, resid / SECTSIZE, data);
    var pc := if offset % SECTSIZE != 0 || resid % SECTSIZE != 0 then Returned(EINVAL)
              else if req.first + req.len > blocks then Returned(EINVAL)
              else if req.len == 0 then Returned(0)
              else Waiting(0);
    Thread(req, pc, [], [], since)
  }

  /** What uiomove copies to the on-card buffer for sector i. */
  function Outgoing(req: Request, i: nat): Data {
    if i < |req.data| then req.data[i] else 0
  }

  function Apply(s: State, step: Step): State
    requires Enabled(s, step)
  {
    match step
    case Begin(t, op, offset, resid, data) => Put(s, t, Entering(|s.disk|, op, offset, resid, data, |s.log|))
    case PClear(t) => Go(s, t, Cleared(s.threads[t].pc.i)).(clear := s.clear - 1, holder := Some(t))
    case MoveIn(t, err) =>
      var th := s.threads[t];
      if th.req.op == Read then Go(s, t, Ready(th.pc.i))
      else if err != 0 then Go(s, t, Returned(err)).(clear := s.clear + 1, holder := None)
      else Go(s, t, Ready(th.pc.i)).(buf := Outgoing(th.req, th.pc.i))
    case SetSector(t) => Go(s, t, Addressed(s.threads[t].pc.i)).(sect := s.threads[t].req.first + s.threads[t].pc.i)
    case Start(t) => Go(s, t, Started(s.threads[t].pc.i)).(status := Working(s.threads[t].req.op))
    case PDone(t) => Go(s, t, Woken(s.threads[t].pc.i)).(done := s.done - 1)
    case GetResult(t) =>
      var th := s.threads[t];
      Put(s, t, th.(pc := Judged(th.pc.i, s.result), refs := if s.result == 0 && |s.log| > 0 then th.refs + [|s.log| - 1] else th.refs))
    case MoveOut(t, err) =>
      var th := s.threads[t];
      if th.pc.err != 0 || th.req.op == Write then Go(s, t, Leaving(th.pc.i, th.pc.err))
      else Put(s, t, th.(pc := Leaving(th.pc.i, err), got := th.got + [s.buf]))
    case VClear(t) =>
      var th := s.threads[t];
      var pc := if th.pc.err != 0 then Returned(th.pc.err)
                else if th.pc.i + 1 < th.req.len then Waiting(th.pc.i + 1) else Returned(0);
      Go(s, t, pc).(clear := s.clear + 1, holder := None)
    case Complete(code, junk) =>
      var op := s.status.op;
      var data := if code != Ok then junk else if op == Write then s.buf else s.disk[s.sect];
      s.(status := Finished(code),
         disk := if op == Write then s.disk[s.sect := data] else s.disk,
         buf := if op == Read then data else s.buf,
         log := s.log + [Entry(s.holder.value, op, s.sect, code, data)])
    case Interrupt =>
      if s.status.Finished? then s.(status := Idle, result := s.status.code.Errno(), done := s.done + 1) else s
  }

  // ---------------------------------------------------------------- the invariant

  ghost predicate InSection(pc: Pc) {
    !pc.Waiting? && !pc.Returned?
  }

  /** lh_clear admits one thread at a time. */
  ghost predicate Exclusive(s: State) {
    && s.clear == (if s.holder == None then 1 else 0)
    && forall t :: t in s.threads && InSection(s.threads[t].pc) <==> s.holder == Some(t)
  }

  ghost predicate Commanding(s: State) {
    s.holder.Some? && s.holder.value in s.threads && s.threads[s.holder.value].pc.Started?
  }

  /**
   At most one command is outstanding: while the holder waits, either the disk is busy or done with
   its command and lh_done is 0, or the interrupt has been taken and lh_done is 1; otherwise the
   disk is idle.
   */
  ghost predicate OneCommand(s: State) {
    if Commanding(s) then if s.status.Idle? then s.done == 1 else s.done == 0
    else s.status.Idle? && s.done == 0
  }

  /** The holder's registers, buffer and result belong to its own request. */
  ghost predicate HolderOk(s: State, t: Tid, th: Thread) {
    match th.pc
    case Waiting(_) => true
    case Returned(_) => true
    case Cleared(_) => true
    case Ready(i) => Loaded(s, th, i)
    case Addressed(i) => Loaded(s, th, i) && s.sect == th.req.first + i
    case Started(i) =>
      if s.status.Working? then s.status.op == th.req.op && Loaded(s, th, i) && s.sect == th.req.first + i
      else LastIsMine(s, t, th, i) && LastIsNew(s, th) && (if s.status.Finished? then s.status.code == Last(s).code else s.result == Last(s).code.Errno())
    case Woken(i) => LastIsMine(s, t, th, i) && LastIsNew(s, th) && s.result == Last(s).code.Errno()
    case Judged(i, err) =>
      && LastIsMine(s, t, th, i) && err == Last(s).code.Errno()
      && (err == 0 ==> th.refs != [] && th.refs[|th.refs| - 1] == |s.log| - 1)
    case Leaving(_, _) => true
  }

  ghost function Last(s: State): Entry
    requires s.log != []
  {
    s.log[|s.log| - 1]
  }

  ghost predicate Loaded(s: State, th: Thread, i: nat) {
    th.req.op == Write ==> i < |th.req.data| && s.buf == th.req.data[i]
  }

  /** The command completed last is t's for sector i, and the buffer still holds what it read. */
  ghost predicate LastIsMine(s: State, t: Tid, th: Thread, i: nat) {
    && s.log != [] && Last(s).t == t && Last(s).op == th.req.op && Last(s).sector == th.req.first + i
    && (th.req.op == Read ==> s.buf == Last(s).data)
    && (th.req.op == Write && Last(s).code == Ok ==> i < |th.req.data| && Last(s).data == th.req.data[i])
  }

  /** The command completed last is none of those the request has already accounted for. */
  ghost predicate LastIsNew(s: State, th: Thread) {
    th.since < |s.log| && forall j :: 0 <= j < |th.refs| ==> th.refs[j] < |s.log| - 1
  }

  ghost predicate Rising(refs: seq<nat>) {
    forall i, j :: 0 <= i < j < |refs| ==> refs[i] < refs[j]
  }

  /** refs names, sector by sector, this request's own successful commands; what was read is what they read. */
  ghost predicate Mine(log: seq<Entry>, t: Tid, th: Thread) {
    && th.since <= |log| && Rising(th.refs) && (forall j :: 0 <= j < |th.refs| ==> th.since <= th.refs[j])
    && (forall j :: 0 <= j < |th.refs| ==> MyEntry(log, t, th.req, th.refs[j], j))
    && (th.req.op == Read ==> |th.got| <= |th.refs| && forall j :: 0 <= j < |th.got| ==> th.refs[j] < |log| && th.got[j] == log[th.refs[j]].data)
  }

  ghost predicate MyEntry(log: seq<Entry>, t: Tid, req: Request, k: nat, j: nat) {
    && k < |log| && log[k].t == t && log[k].op == req.op && log[k].sector == req.first + j && log[k].code == Ok
    && (req.op == Write ==> j < |req.data| && log[k].data == req.data[j])
  }

  /** How far a thread has come agrees with what it has recorded. */
  ghost predicate Progress(th: Thread) {
    && |th.req.data| == th.req.len
    && match th.pc
       case Judged(i, err) =>
         i < th.req.len && |th.refs| == (if err == 0 then i + 1 else i) && (th.req.op == Read ==> |th.got| == i)
       case Leaving(i, err) =>
         i < th.req.len && (err == 0 ==> |th.refs| == i + 1 && (th.req.op == Read ==> |th.got| == i + 1))
       case Returned(err) => err == 0 ==> |th.refs| == th.req.len && (th.req.op == Read ==> |th.got| == th.req.len)
       case _ => th.pc.i < th.req.len && |th.refs| == th.pc.i && (th.req.op == Read ==> |th.got| == th.pc.i)
  }

  ghost predicate ThreadOk(s: State, t: Tid)
    requires t in s.threads
  {
    HolderOk(s, t, s.threads[t]) && Mine(s.log, t, s.threads[t]) && Progress(s.threads[t])
  }

  /** The disk after the first n completed commands. */
  ghost function Replay(disk: map<nat, Data>, log: seq<Entry>): map<nat, Data> {
    if log == [] then disk
    else
      var e, before := log[|log| - 1], Replay(disk, log[..|log| - 1]);
      if e.op == Write then before[e.sector := e.data] else before
  }

  /** Every successful read returned what the commands before it left on the sector. */
  ghost predicate ReadsRight(disk: map<nat, Data>, log: seq<Entry>) {
    forall k :: 0 <= k < |log| && log[k].op == Read && log[k].code == Ok ==>
      log[k].sector in Replay(disk, log[..k]) && log[k].data == Replay(disk, log[..k])[log[k].sector]
  }

  ghost predicate Inv(s: State, disk0: map<nat, Data>) {
    && Exclusive(s) && OneCommand(s)
    && (forall t :: t in s.threads ==> ThreadOk(s, t))
    && s.disk == Replay(disk0, s.log) && ReadsRight(disk0, s.log)
  }

  // ---------------------------------------------------------------- every step keeps it

  lemma MineGrows(log: seq<Entry>, log': seq<Entry>, t: Tid, th: Thread)
    requires Mine(log, t, th) && log <= log'
    ensures Mine(log', t, th)
  {
    forall j | 0 <= j < |th.refs|
      ensures MyEntry(log', t, th.req, th.refs[j], j)
    {
      assert MyEntry(log, t, th.req, th.refs[j], j);
    }
  }

  /** Threads that are not in the critical section do not notice what the holder and the disk do. */
  lemma Bystander(s: State, s': State, u: Tid)
    requires u in s.threads && ThreadOk(s, u) && !InSection(s.threads[u].pc) && s.log <= s'.log
    requires u in s'.threads && s'.threads[u] == s.threads[u]
    ensures ThreadOk(s', u)
  {
    MineGrows(s.log, s'.log, u, s.threads[u]);
  }

  /** A step of thread t, which is the holder before or after, leaves the others right. */
  lemma OthersOk(s: State, s': State, t: Tid)
    requires Exclusive(s) && (forall u :: u in s.threads ==> ThreadOk(s, u)) && s.log <= s'.log
    requires forall u :: u in s'.threads && u != t ==> u in s.threads && s'.threads[u] == s.threads[u]
    requires s.holder == None || s.holder == Some(t)
    ensures forall u :: u in s'.threads && u != t ==> ThreadOk(s', u)
  {
    forall u | u in s'.threads && u != t
      ensures ThreadOk(s', u)
    {
      assert !InSection(s.threads[u].pc);
      Bystander(s, s', u);
    }
  }

  ghost predicate ThreadsOk(s: State) {
    Exclusive(s) && OneCommand(s) && forall t :: t in s.threads ==> ThreadOk(s, t)
  }

  /** A step that changes thread t alone is right if it is right for t. */
  lemma Assemble(s: State, s': State, t: Tid)
    requires ThreadsOk(s) && Exclusive(s') && OneCommand(s') && s.log <= s'.log && (s.holder == None || s.holder == Some(t))
    requires forall u :: u in s'.threads && u != t ==> u in s.threads && s'.threads[u] == s.threads[u]
    requires t in s'.threads ==> ThreadOk(s', t)
    ensures ThreadsOk(s')
  {
    OthersOk(s, s', t);
  }

  /** A step inside the section. */
  lemma StaysInside(s: State, s': State, t: Tid, th: Thread)
    requires Exclusive(s) && s.holder == Some(t) && t in s.threads && InSection(th.pc)
    requires s'.threads == s.threads[t := th] && s'.holder == s.holder && s'.clear == s.clear
    ensures Exclusive(s')
  {
  }

  /** The running thread of such a step is the holder. */
  lemma InsideHolds(s: State, t: Tid)
    requires ThreadsOk(s) && t in s.threads && InSection(s.threads[t].pc)
    ensures s.holder == Some(t) && ThreadOk(s, t)
    ensures !s.threads[t].pc.Started? ==> s.status.Idle? && s.done == 0
  {
  }

  /** A step inside the section by a thread with no command out before or after. */
  lemma InsideStep(s: State, s': State, t: Tid)
    requires ThreadsOk(s) && t in s.threads && t in s'.threads && ThreadOk(s', t)
    requires var pc, pc' := s.threads[t].pc, s'.threads[t].pc;
             InSection(pc) && !pc.Started? && InSection(pc') && !pc'.Started?
    requires s' == s.(threads := s.threads[t := s'.threads[t]], sect := s'.sect, buf := s'.buf)
    ensures ThreadsOk(s')
  {
    InsideHolds(s, t);
    StaysInside(s, s', t, s'.threads[t]);
    Assemble(s, s', t);
  }

  lemma BeginOk(s: State, step: Step)
    requires ThreadsOk(s) && Enabled(s, step) && step.Begin?
    ensures ThreadsOk(Apply(s, step))
  {
    var s', t := Apply(s, step), step.t;
    assert t in s.threads ==> !InSection(s.threads[t].pc);
    assert s'.threads[t].pc.Waiting? || s'.threads[t].pc.Returned?;
    Elsewhere(s, s', t);
  }

  /** A thread outside the section that stays outside does not matter to the others. */
  lemma Elsewhere(s: State, s': State, t: Tid)
    requires ThreadsOk(s) && t in s'.threads && s' == s.(threads := s.threads[t := s'.threads[t]])
    requires (t in s.threads ==> !InSection(s.threads[t].pc)) && !InSection(s'.threads[t].pc) && ThreadOk(s', t)
    ensures ThreadsOk(s')
  {
    forall u | u in s'.threads
      ensures ThreadOk(s', u)
    {
      if u != t { SameView(s, s', u); }
    }
  }

  lemma SameView(s: State, s': State, u: Tid)
    requires u in s.threads && ThreadOk(s, u) && u in s'.threads && s'.threads[u] == s.threads[u]
    requires s' == s.(threads := s'.threads)
    ensures ThreadOk(s', u)
  {
    assert HolderOk(s', u, s'.threads[u]);
  }

  lemma PClearOk(s: State, t: Tid)
    requires ThreadsOk(s) && Enabled(s, PClear(t))
    ensures ThreadsOk(Apply(s, PClear(t)))
  {
    assert ThreadOk(s, t);
    Assemble(s, Apply(s, PClear(t)), t);
  }

  lemma AddressOk(s: State, t: Tid)
    requires ThreadsOk(s) && Enabled(s, SetSector(t))
    ensures ThreadsOk(Apply(s, SetSector(t)))
  {
    assert ThreadOk(s, t);
    InsideStep(s, Apply(s, SetSector(t)), t);
  }

  lemma StartOk(s: State, t: Tid)
    requires ThreadsOk(s) && Enabled(s, Start(t))
    ensures ThreadsOk(Apply(s, Start(t)))
  {
    var s' := Apply(s, Start(t));
    InsideHolds(s, t);
    StaysInside(s, s', t, s'.threads[t]);
    assert Commanding(s');
    Assemble(s, s', t);
  }

  lemma MoveInOk(s: State, t: Tid, err: int)
    requires ThreadsOk(s) && Enabled(s, MoveIn(t, err))
    ensures ThreadsOk(Apply(s, MoveIn(t, err)))
  {
    var s' := Apply(s, MoveIn(t, err));
    InsideHolds(s, t);
    if s'.holder == None { Leaves(s, s', t, s'.threads[t]); } else { StaysInside(s, s', t, s'.threads[t]); }
    Assemble(s, s', t);
  }

  /** V(lh_clear) by the holder. */
  lemma Leaves(s: State, s': State, t: Tid, th: Thread)
    requires ThreadsOk(s) && s.holder == Some(t) && t in s.threads && !s.threads[t].pc.Started? && !InSection(th.pc)
    requires s'.threads == s.threads[t := th] && s'.holder == None && s'.clear == s.clear + 1
    requires s'.status == s.status && s'.done == s.done
    ensures Exclusive(s') && OneCommand(s')
  {
  }

  lemma PDoneOk(s: State, t: Tid)
    requires ThreadsOk(s) && Enabled(s, PDone(t))
    ensures ThreadsOk(Apply(s, PDone(t)))
  {
    var s' := Apply(s, PDone(t));
    InsideHolds(s, t);
    assert Commanding(s);
    StaysInside(s, s', t, s'.threads[t]);
    Assemble(s, s', t);
  }

  lemma GetResultOk(s: State, t: Tid)
    requires ThreadsOk(s) && Enabled(s, GetResult(t))
    ensures ThreadsOk(Apply(s, GetResult(t)))
  {
    assert ThreadOk(s, t);
    GetResultSelf(s, t);
    InsideStep(s, Apply(s, GetResult(t)), t);
  }

  lemma GetResultSelf(s: State, t: Tid)
    requires Enabled(s, GetResult(t)) && ThreadOk(s, t)
    ensures ThreadOk(Apply(s, GetResult(t)), t)
  {
    var th, th' := s.threads[t], Apply(s, GetResult(t)).threads[t];
    if s.result == 0 { MineExtended(s.log, t, th, |s.log| - 1, th'); }
  }

  lemma MineExtended(log: seq<Entry>, t: Tid, th: Thread, k: nat, th': Thread)
    requires Mine(log, t, th) && MyEntry(log, t, th.req, k, |th.refs|)
    requires th'.req == th.req && th'.got == th.got && th'.refs == th.refs + [k] && th'.since == th.since
    requires th.since <= k && forall j :: 0 <= j < |th.refs| ==> th.refs[j] < k
    ensures Mine(log, t, th')
  {
    forall j | 0 <= j < |th'.refs|
      ensures MyEntry(log, t, th'.req, th'.refs[j], j)
    {
      if j < |th.refs| { assert MyEntry(log, t, th.req, th.refs[j], j); }
    }
  }

  lemma MoveOutOk(s: State, t: Tid, err: int)
    requires ThreadsOk(s) && Enabled(s, MoveOut(t, err))
    ensures ThreadsOk(Apply(s, MoveOut(t, err)))
  {
    assert ThreadOk(s, t);
    MoveOutSelf(s, t, err);
    InsideStep(s, Apply(s, MoveOut(t, err)), t);
  }

  lemma MoveOutSelf(s: State, t: Tid, err: int)
    requires Enabled(s, MoveOut(t, err)) && ThreadOk(s, t)
    ensures ThreadOk(Apply(s, MoveOut(t, err)), t)
  {
    var th, th' := s.threads[t], Apply(s, MoveOut(t, err)).threads[t];
    MineGot(s.log, t, th, th', s.buf);
  }

  lemma MineGot(log: seq<Entry>, t: Tid, th: Thread, th': Thread, buf: Data)
    requires Mine(log, t, th) && th'.req == th.req && th'.refs == th.refs && th'.since == th.since
    requires th'.got == th.got || th'.got == th.got + [buf]
    requires th.req.op == Read && th'.got != th.got ==>
               |th.got| < |th.refs| && th.refs[|th.got|] < |log| && log[th.refs[|th.got|]].data == buf
    ensures Mine(log, t, th')
  {
    assert forall j :: 0 <= j < |th.refs| ==> MyEntry(log, t, th.req, th.refs[j], j);
  }

  lemma VClearOk(s: State, t: Tid)
    requires ThreadsOk(s) && Enabled(s, VClear(t))
    ensures ThreadsOk(Apply(s, VClear(t)))
  {
    var s' := Apply(s, VClear(t));
    InsideHolds(s, t);
    Leaves(s, s', t, s'.threads[t]);
    assert Mine(s'.log, t, s'.threads[t]);
    Assemble(s, s', t);
  }

  lemma CompleteOk(s: State, code: Code, junk: Data)
    requires ThreadsOk(s) && Enabled(s, Complete(code, junk))
    ensures ThreadsOk(Apply(s, Complete(code, junk)))
  {
    var s', t := Apply(s, Complete(code, junk)), s.holder.value;
    assert Commanding(s) && ThreadOk(s, t);
    MineGrows(s.log, s'.log, t, s.threads[t]);
    assert Last(s') == s'.log[|s.log|];
    assert LastIsNew(s', s'.threads[t]) by {
      assert forall j :: 0 <= j < |s.threads[t].refs| ==> MyEntry(s.log, t, s.threads[t].req, s.threads[t].refs[j], j);
    }
    Assemble(s, s', t);
  }

  lemma InterruptOk(s: State)
    requires ThreadsOk(s)
    ensures ThreadsOk(Apply(s, Interrupt))
  {
    var s' := Apply(s, Interrupt);
    if s.status.Finished? {
      var t := s.holder.value;
      assert Commanding(s) && ThreadOk(s, t);
      Assemble(s, s', t);
    }
  }

  lemma StepThreads(s: State, step: Step)
    requires ThreadsOk(s) && Enabled(s, step)
    ensures ThreadsOk(Apply(s, step))
  {
    match step {
      case Begin(_, _, _, _, _) => BeginOk(s, step);
      case PClear(t) => PClearOk(s, t);
      case MoveIn(t, err) => MoveInOk(s, t, err);
      case SetSector(t) => AddressOk(s, t);
      case Start(t) => StartOk(s, t);
      case PDone(t) => PDoneOk(s, t);
      case GetResult(t) => GetResultOk(s, t);
      case MoveOut(t, err) => MoveOutOk(s, t, err);
      case VClear(t) => VClearOk(s, t);
      case Complete(code, junk) => CompleteOk(s, code, junk);
      case Interrupt => InterruptOk(s);
    }
  }

  lemma ReplayAppend(disk: map<nat, Data>, log: seq<Entry>, e: Entry)
    ensures Replay(disk, log + [e]) == if e.op == Write then Replay(disk, log)[e.sector := e.data] else Replay(disk, log)
  {
    assert (log + [e])[..|log|] == log;
  }

  ghost predicate ReadRight(disk: map<nat, Data>, e: Entry) {
    e.op == Read && e.code == Ok ==> e.sector in disk && e.data == disk[e.sector]
  }

  lemma ReadsAppend(disk: map<nat, Data>, log: seq<Entry>, e: Entry)
    requires ReadsRight(disk, log) && ReadRight(Replay(disk, log), e)
    ensures ReadsRight(disk, log + [e])
  {
    var log' := log + [e];
    forall k | 0 <= k < |log'| && log'[k].op == Read && log'[k].code == Ok
      ensures log'[k].sector in Replay(disk, log'[..k]) && log'[k].data == Replay(disk, log'[..k])[log'[k].sector]
    {
      if k < |log| { assert log'[..k] == log[..k] && log'[k] == log[k]; } else { assert log'[..k] == log; }
    }
  }

  lemma StepDisk(s: State, step: Step, disk0: map<nat, Data>)
    requires s.disk == Replay(disk0, s.log) && ReadsRight(disk0, s.log) && Enabled(s, step)
    ensures var s' := Apply(s, step); s'.disk == Replay(disk0, s'.log) && ReadsRight(disk0, s'.log)
  {
    if step.Complete? {
      var e := Apply(s, step).log[|s.log|];
      assert Apply(s, step).log == s.log + [e];
      ReplayAppend(disk0, s.log, e);
      ReadsAppend(disk0, s.log, e);
    }
  }

  ghost predicate CanRun(s: State, steps: seq<Step>)
    decreases |steps|
  {
    steps == [] || (Enabled(s, steps[0]) && CanRun(Apply(s, steps[0]), steps[1..]))
  }

  ghost function Run(s: State, steps: seq<Step>): State
    requires CanRun(s, steps)
    decreases |steps|
  {
    if steps == [] then s else Run(Apply(s, steps[0]), steps[1..])
  }

  /** After config_lhd: no thread in the driver, the disk idle, lh_clear 1 and lh_done 0. */
  ghost predicate Init(s: State) {
    s.threads == map[] && s.clear == 1 && s.done == 0 && s.status == Idle && s.holder == None && s.log == []
  }

  lemma {:induction false} RunInv(s: State, steps: seq<Step>, disk0: map<nat, Data>)
    requires Inv(s, disk0) && CanRun(s, steps)
    ensures Inv(Run(s, steps), disk0)
    decreases |steps|
  {
    if steps != [] {
      assert ThreadsOk(s);
      StepThreads(s, steps[0]);
      StepDisk(s, steps[0], disk0);
      RunInv(Apply(s, steps[0]), steps[1..], disk0);
    }
  }

  /** In every interleaving from the start, at most one thread is in the critical section and one command is out. */
  lemma OneAtATime(s: State, steps: seq<Step>, t: Tid, u: Tid)
    requires Init(s) && CanRun(s, steps)
    ensures var r := Run(s, steps);
            && (t in r.threads && u in r.threads && InSection(r.threads[t].pc) && InSection(r.threads[u].pc) ==> t == u)
            && r.clear <= 1 && r.done <= 1
            && (r.status != Idle ==> r.done == 0 && exists h :: h in r.threads && r.threads[h].pc.Started?)
  {
    RunInv(s, steps, s.disk);
    var r := Run(s, steps);
    if r.status != Idle { assert Commanding(r); }
  }

  // ---------------------------------------------------------------- calls, as the caller made them

  ghost predicate BeginsFor(step: Step, t: Tid) { step.Begin? && step.t == t }

  /** Step i is thread t's last call of lhd_io. */
  ghost predicate LastCall(steps: seq<Step>, t: Tid, i: nat) {
    i < |steps| && BeginsFor(steps[i], t) && forall j :: i < j < |steps| ==> !BeginsFor(steps[j], t)
  }

  /** A request that lhd_io turns down: not in whole sectors, or past the end of a disk of that many sectors. */
  predicate TurnedDown(offset: nat, resid: nat, blocks: nat) {
    offset % 512 != 0 || resid % 512 != 0 || offset + resid > 512 * blocks
  }

  /** The thread's request is this call, made when the log was that long. */
  ghost predicate Carries(th: Thread, call: Step, since: nat)
    requires call.Begin?
  {
    && th.since == since && th.req.op == call.op && th.req.data == call.data
    && 512 * th.req.first <= call.offset < 512 * th.req.first + 512
    && 512 * th.req.len <= call.resid < 512 * th.req.len + 512
  }

  /** EINVAL at once exactly for a request turned down, 0 at once exactly for an empty one that is not. */
  lemma CallDecided(s: State, call: Step)
    requires Enabled(s, call) && call.Begin?
    ensures var s' := Apply(s, call); var bad := TurnedDown(call.offset, call.resid, |s.disk|);
            && call.t in s'.threads && s'.log == s.log && Carries(s'.threads[call.t], call, |s.log|)
            && (s'.threads[call.t].pc == Returned(1) <==> bad)
            && (s'.threads[call.t].pc == Returned(0) <==> !bad && call.resid == 0)
            && (s'.threads[call.t].pc == Waiting(0) <==> !bad && call.resid != 0)
  {
  }

  lemma StepKeepsCall(s: State, step: Step, t: Tid)
    requires Enabled(s, step) && !BeginsFor(step, t) && t in s.threads
    ensures var s' := Apply(s, step);
            && t in s'.threads && s'.threads[t].req == s.threads[t].req && s'.threads[t].since == s.threads[t].since
            && (s.threads[t].pc.Returned? ==> s'.threads[t] == s.threads[t]) && s'.disk.Keys == s.disk.Keys && s.log <= s'.log
  {
  }

  lemma {:induction false} RunKeepsCall(s: State, steps: seq<Step>, t: Tid)
    requires CanRun(s, steps) && t in s.threads && forall j :: 0 <= j < |steps| ==> !BeginsFor(steps[j], t)
    ensures var r := Run(s, steps);
            && t in r.threads && r.threads[t].req == s.threads[t].req && r.threads[t].since == s.threads[t].since
            && (s.threads[t].pc.Returned? ==> r.threads[t] == s.threads[t]) && s.log <= r.log
    decreases |steps|
  {
    if steps != [] {
      StepKeepsCall(s, steps[0], t);
      RunKeepsCall(Apply(s, steps[0]), steps[1..], t);
    }
  }

  lemma {:induction false} RunSplits(s: State, steps: seq<Step>, i: nat)
    requires CanRun(s, steps) && i < |steps|
    ensures CanRun(s, steps[..i]) && Enabled(Run(s, steps[..i]), steps[i])
    ensures var s' := Apply(Run(s, steps[..i]), steps[i]); CanRun(s', steps[i + 1..]) && Run(s', steps[i + 1..]) == Run(s, steps)
    ensures Run(s, steps[..i]).disk.Keys == s.disk.Keys
    decreases |steps|
  {
    if i > 0 {
      var rest := steps[1..];
      RunSplits(Apply(s, steps[0]), rest, i - 1);
      assert steps[..i][1..] == rest[..i - 1] && steps[i + 1..] == rest[i..];
      DiskKeys(s, steps[0]);
    }
  }

  lemma DiskKeys(s: State, step: Step)
    requires Enabled(s, step)
    ensures Apply(s, step).disk.Keys == s.disk.Keys
  {
  }

  /** The request of a thread is its last call, and a call turned down stays so: nothing was done for it. */
  lemma CalledWith(s: State, steps: seq<Step>, t: Tid, i: nat)
    requires CanRun(s, steps) && LastCall(steps, t, i)
    ensures CanRun(s, steps[..i]) && t in Run(s, steps).threads
    ensures var th, call := Run(s, steps).threads[t], steps[i];
            && Carries(th, call, |Run(s, steps[..i]).log|)
            && (TurnedDown(call.offset, call.resid, |s.disk|) ==> th.pc == Returned(1) && th.refs == [] && th.got == [])
  {
    RunSplits(s, steps, i);
    var before := Run(s, steps[..i]);
    assert |before.disk| == |before.disk.Keys| == |s.disk.Keys| == |s.disk|;
    CallDecided(before, steps[i]);
    var later := steps[i + 1..];
    forall j | 0 <= j < |later|
      ensures !BeginsFor(later[j], t)
    {
      assert later[j] == steps[i + 1 + j];
    }
    RunKeepsCall(Apply(before, steps[i]), later, t);
  }

  /**
   A call that returns success was for whole sectors of the disk, and has had every one of them transferred
   by a command of its own, completed after the call was made and after the commands for its earlier
   sectors: sector j of the call is the one at offset + 512 * j, and a write puts the caller's data there.
   */
  lemma SuccessMeansTransferred(s: State, steps: seq<Step>, t: Tid, i: nat, j: nat)
    requires Init(s) && CanRun(s, steps) && LastCall(steps, t, i) && t in Run(s, steps).threads
    requires Run(s, steps).threads[t].pc == Returned(0) && 512 * j < steps[i].resid
    ensures var r, call := Run(s, steps), steps[i]; var th := r.threads[t];
            && !TurnedDown(call.offset, call.resid, |s.disk|) && CanRun(s, steps[..i])
            && j < |th.refs| && |Run(s, steps[..i]).log| <= th.refs[j] < |r.log| && (forall h :: 0 <= h < j ==> th.refs[h] < th.refs[j])
            && var k, e := th.refs[j], r.log[th.refs[j]];
               && e.t == t && e.op == call.op && 512 * e.sector == call.offset + 512 * j && e.code == Ok
               && (call.op == Write ==> j < |call.data| && e.data == call.data[j])
               && (call.op == Read ==> j < |th.got| && e.sector in Replay(s.disk, r.log[..k])
                                       && th.got[j] == Replay(s.disk, r.log[..k])[e.sector])
  {
    RunInv(s, steps, s.disk);
    CalledWith(s, steps, t, i);
    var r := Run(s, steps);
    assert ThreadOk(r, t);
    WholeSectors(r.threads[t].req, steps[i], |s.disk|, j);
    Transferred(r, s.disk, t, j);
  }

  /** In whole sectors, sector j of the request is where the call says. */
  lemma WholeSectors(req: Request, call: Step, blocks: nat, j: nat)
    requires call.Begin? && !TurnedDown(call.offset, call.resid, blocks)
    requires 512 * req.first <= call.offset < 512 * req.first + 512 && 512 * req.len <= call.resid < 512 * req.len + 512
    ensures 512 * (req.first + j) == call.offset + 512 * j && (512 * j < call.resid <==> j < req.len)
  {
  }

  lemma Transferred(r: State, disk0: map<nat, Data>, t: Tid, j: nat)
    requires t in r.threads && ThreadOk(r, t) && ReadsRight(disk0, r.log)
    requires r.threads[t].pc == Returned(0) && j < r.threads[t].req.len
    ensures var th := r.threads[t];
            && j < |th.refs| && th.since <= th.refs[j] < |r.log| && (forall h :: 0 <= h < j ==> th.refs[h] < th.refs[j])
            && var k, e := th.refs[j], r.log[th.refs[j]];
               && e.t == t && e.op == th.req.op && e.sector == th.req.first + j && e.code == Ok
               && (th.req.op == Write ==> j < |th.req.data| && e.data == th.req.data[j])
               && (th.req.op == Read ==> j < |th.got| && e.sector in Replay(disk0, r.log[..k])
                                         && th.got[j] == Replay(disk0, r.log[..k])[e.sector])
  {
    assert MyEntry(r.log, t, r.threads[t].req, r.threads[t].refs[j], j);
  }

  ghost predicate Writes(e: Entry, sector: nat) { e.op == Write && e.sector == sector }

  /** Entry k is the last write to the sector. */
  ghost predicate LastWrite(log: seq<Entry>, sector: nat, k: int) {
    0 <= k < |log| && Writes(log[k], sector) && forall i :: k < i < |log| ==> !Writes(log[i], sector)
  }

  /** What Replay says of a sector is its last write, if there has been one. */
  lemma {:induction false} ReplayIsLastWrite(disk: map<nat, Data>, log: seq<Entry>, k: nat)
    requires k < |log| && LastWrite(log, log[k].sector, k)
    ensures log[k].sector in Replay(disk, log) && Replay(disk, log)[log[k].sector] == log[k].data
    decreases |log|
  {
    if k < |log| - 1 {
      assert !Writes(log[|log| - 1], log[k].sector);
      ReplayIsLastWrite(disk, log[..|log| - 1], k);
    }
  }

  /** And what was there at first, if there has been none. */
  lemma {:induction false} ReplayUnwritten(disk: map<nat, Data>, log: seq<Entry>, sector: nat)
    requires forall i :: 0 <= i < |log| ==> !Writes(log[i], sector)
    ensures sector in Replay(disk, log) <==> sector in disk
    ensures sector in disk ==> Replay(disk, log)[sector] == disk[sector]
  {
    if log != [] {
      assert !Writes(log[|log| - 1], sector);
      ReplayUnwritten(disk, log[..|log| - 1], sector);
    }
  }

  /**
   What a successful read delivers for the sector at offset + 512 * j is the data of the last write to it that
   completed before the read's own command, which ran during the call; or the disk's first contents, if
   nothing was written there.
   */
  lemma ReadsLastWrite(s: State, steps: seq<Step>, t: Tid, i: nat, j: nat)
    requires Init(s) && CanRun(s, steps) && LastCall(steps, t, i) && t in Run(s, steps).threads
    requires Run(s, steps).threads[t].pc == Returned(0) && steps[i].op == Read && 512 * j < steps[i].resid
    ensures var r, sector := Run(s, steps), steps[i].offset / 512 + j; var th := r.threads[t];
            && CanRun(s, steps[..i]) && j < |th.refs| && j < |th.got| && |Run(s, steps[..i]).log| <= th.refs[j] < |r.log|
            && (forall k :: LastWrite(r.log[..th.refs[j]], sector, k) ==> th.got[j] == r.log[k].data)
            && ((forall k :: 0 <= k < th.refs[j] ==> !Writes(r.log[k], sector)) ==>
                sector in s.disk && th.got[j] == s.disk[sector])
  {
    SuccessMeansTransferred(s, steps, t, i, j);
    var r := Run(s, steps);
    var th := r.threads[t];
    var before, sector := r.log[..th.refs[j]], r.log[th.refs[j]].sector;
    assert sector == steps[i].offset / 512 + j;
    forall k | LastWrite(before, sector, k)
      ensures th.got[j] == r.log[k].data
    {
      assert before[k] == r.log[k];
      ReplayIsLastWrite(s.disk, before, k);
    }
    if forall k :: 0 <= k < th.refs[j] ==> !Writes(r.log[k], sector) {
      ReplayUnwritten(s.disk, before, sector);
    }
  }

  // ---------------------------------------------------------------- errors

  /** What lhd_io returns for a failed command. */
  ghost predicate Reports(code: Code, err: int) {
    match code case Ok => err == 0 case InvalidSector => err == 1 case MediaError => err == 5
  }

  /** A command of the call has failed, the k-th the disk completed. */
  ghost predicate Failed(log: seq<Entry>, t: Tid, th: Thread, k: int) {
    th.since <= k < |log| && log[k].t == t && log[k].code != Ok
  }

  /** A failed command is the last of its call, and its error is on its way to the caller. */
  ghost predicate FaultOk(s: State, t: Tid, th: Thread) {
    forall k :: Failed(s.log, t, th, k) ==>
      match th.pc
      case Started(_) => k == |s.log| - 1 && !s.status.Working?
      case Woken(_) => k == |s.log| - 1
      case Judged(_, err) => Reports(s.log[k].code, err)
      case Leaving(_, err) => Reports(s.log[k].code, err)
      case Returned(err) => Reports(s.log[k].code, err)
      case _ => false
  }

  ghost predicate FaultsOk(s: State) {
    forall t :: t in s.threads ==> FaultOk(s, t, s.threads[t])
  }

  /** Entries of others do not matter. */
  lemma SameFailures(log: seq<Entry>, log': seq<Entry>, t: Tid, th: Thread, k: int)
    requires log <= log' && forall j :: |log| <= j < |log'| ==> log'[j].t != t
    ensures Failed(log', t, th, k) <==> Failed(log, t, th, k)
  {
  }

  /** A thread while a step of others leaves it, and the disk's state if it waits for the disk, as they were. */
  lemma OtherFault(s: State, s': State, u: Tid)
    requires u in s.threads && FaultOk(s, u, s.threads[u]) && u in s'.threads && s'.threads[u] == s.threads[u]
    requires s.log <= s'.log && (forall j :: |s.log| <= j < |s'.log| ==> s'.log[j].t != u)
    requires s.threads[u].pc.Started? || s.threads[u].pc.Woken? ==> s'.log == s.log && s'.status == s.status
    ensures FaultOk(s', u, s'.threads[u])
  {
    var th := s.threads[u];
    forall k | Failed(s'.log, u, th, k)
      ensures Failed(s.log, u, th, k)
    {
      SameFailures(s.log, s'.log, u, th, k);
    }
  }

  /** The holder while the disk or the interrupt handler moves. */
  lemma DeviceFault(s: State, step: Step, t: Tid)
    requires ThreadsOk(s) && Enabled(s, step) && (step.Complete? || step.Interrupt?)
    requires s.holder == Some(t) && t in s.threads && FaultOk(s, t, s.threads[t])
    ensures FaultOk(Apply(s, step), t, s.threads[t])
  {
    var s', th := Apply(s, step), s.threads[t];
    assert ThreadOk(s, t);
    forall k | Failed(s'.log, t, th, k)
      ensures k < |s.log| ==> Failed(s.log, t, th, k)
    {
      assert k < |s.log| ==> s'.log[k] == s.log[k];
    }
  }

  /** What a thread's own step makes of a failure it knows of. */
  lemma OwnFault(s: State, step: Step, t: Tid)
    requires Enabled(s, step) && t in s.threads && ThreadOk(s, t) && FaultOk(s, t, s.threads[t])
    requires !step.Begin? && !step.Complete? && !step.Interrupt? && step.t == t
    ensures FaultOk(Apply(s, step), t, Apply(s, step).threads[t])
  {
    var s' := Apply(s, step);
    var th, th' := s.threads[t], s'.threads[t];
    assert s'.log == s.log && th'.since == th.since;
    forall k | Failed(s'.log, t, th', k)
      ensures Failed(s.log, t, th, k)
    {
    }
  }

  /** The steps of threads. */
  lemma ThreadStepFaults(s: State, step: Step, u: Tid)
    requires ThreadsOk(s) && FaultsOk(s) && Enabled(s, step) && !step.Complete? && !step.Interrupt?
    requires u in Apply(s, step).threads
    ensures FaultOk(Apply(s, step), u, Apply(s, step).threads[u])
  {
    var s' := Apply(s, step);
    if step.t != u {
      StartsAlone(s, step, u);
      OtherFault(s, s', u);
    } else if step.Begin? {
      assert s'.threads[u].since == |s'.log|;
    } else {
      assert ThreadOk(s, u);
      OwnFault(s, step, u);
    }
  }

  /** No thread but the holder touches the disk, so one that waits for it sees it unchanged. */
  lemma StartsAlone(s: State, step: Step, u: Tid)
    requires Exclusive(s) && Enabled(s, step) && !step.Complete? && !step.Interrupt? && step.t != u && u in s.threads
    ensures var s' := Apply(s, step);
            && u in s'.threads && s'.threads[u] == s.threads[u] && s'.log == s.log
            && (InSection(s.threads[u].pc) ==> s'.status == s.status)
  {
  }

  /** The steps of the disk and the interrupt handler. */
  lemma DeviceStepFaults(s: State, step: Step, u: Tid)
    requires ThreadsOk(s) && FaultsOk(s) && Enabled(s, step) && (step.Complete? || step.Interrupt?) && u in s.threads
    ensures u in Apply(s, step).threads && FaultOk(Apply(s, step), u, Apply(s, step).threads[u])
  {
    if s.holder == Some(u) {
      DeviceFault(s, step, u);
    } else {
      assert !InSection(s.threads[u].pc);
      OtherFault(s, Apply(s, step), u);
    }
  }

  lemma StepFaults(s: State, step: Step)
    requires ThreadsOk(s) && FaultsOk(s) && Enabled(s, step)
    ensures FaultsOk(Apply(s, step))
  {
    forall u | u in Apply(s, step).threads
      ensures FaultOk(Apply(s, step), u, Apply(s, step).threads[u])
    {
      if step.Complete? || step.Interrupt? { DeviceStepFaults(s, step, u); } else { ThreadStepFaults(s, step, u); }
    }
  }

  lemma {:induction false} RunFaults(s: State, steps: seq<Step>)
    requires ThreadsOk(s) && FaultsOk(s) && CanRun(s, steps)
    ensures FaultsOk(Run(s, steps))
    decreases |steps|
  {
    if steps != [] {
      StepThreads(s, steps[0]);
      StepFaults(s, steps[0]);
      RunFaults(Apply(s, steps[0]), steps[1..]);
    }
  }

  /**
   If a command of a call has failed, the call, once it has returned, has returned the error of that command:
   1 for an invalid sector and 5 for a media error.
   */
  lemma FailureIsReported(s: State, steps: seq<Step>, t: Tid, i: nat, k: nat)
    requires Init(s) && CanRun(s, steps) && LastCall(steps, t, i) && t in Run(s, steps).threads
    requires CanRun(s, steps[..i]) && |Run(s, steps[..i]).log| <= k < |Run(s, steps).log|
    requires var e := Run(s, steps).log[k]; e.t == t && e.code != Ok
    requires Run(s, steps).threads[t].pc.Returned?
    ensures Run(s, steps).threads[t].pc == Returned(if Run(s, steps).log[k].code == InvalidSector then 1 else 5)
  {
    CalledWith(s, steps, t, i);
    RunFaults(s, steps);
    assert Failed(Run(s, steps).log, t, Run(s, steps).threads[t], k);
  }

  // ---------------------------------------------------------------- no error without a cause

  /** A call of uiomove by t. */
  ghost predicate MovesFor(step: Step, t: Tid) { (step.MoveIn? || step.MoveOut?) && step.t == t }

  /** A command of the call failed, and this is the error for it. */
  ghost predicate FailedWith(log: seq<Entry>, t: Tid, since: nat, err: int) {
    exists k :: since <= k < |log| && log[k].t == t && log[k].code != Ok && Reports(log[k].code, err)
  }

  /** An error that t has in hand, or has returned, comes from its uiomove calls or from a command of its own. */
  ghost predicate Caused(log: seq<Entry>, t: Tid, th: Thread, moved: set<int>) {
    (th.pc.Judged? || th.pc.Leaving? || th.pc.Returned?) && th.pc.err != 0 ==>
      th.pc.err in moved || FailedWith(log, t, th.since, th.pc.err)
  }

  lemma FailedWithGrows(log: seq<Entry>, log': seq<Entry>, t: Tid, since: nat, err: int)
    requires FailedWith(log, t, since, err) && log <= log'
    ensures FailedWith(log', t, since, err)
  {
    var k :| since <= k < |log| && log[k].t == t && log[k].code != Ok && Reports(log[k].code, err);
    assert log'[k] == log[k];
  }

  lemma CausedGrows(log: seq<Entry>, log': seq<Entry>, t: Tid, th: Thread, moved: set<int>)
    requires Caused(log, t, th, moved) && log <= log'
    ensures Caused(log', t, th, moved)
  {
    if (th.pc.Judged? || th.pc.Leaving? || th.pc.Returned?) && FailedWith(log, t, th.since, th.pc.err) {
      FailedWithGrows(log, log', t, th.since, th.pc.err);
    }
  }

  /** The result that t reads is that of its own command. */
  lemma ResultCaused(s: State, t: Tid)
    requires t in s.threads && ThreadOk(s, t) && s.threads[t].pc.Woken?
    ensures s.result == 0 || FailedWith(s.log, t, s.threads[t].since, s.result)
  {
    var k := |s.log| - 1;
    assert s.log[k] == Last(s);
  }

  lemma StepCaused(s: State, step: Step, t: Tid, moved: set<int>)
    requires ThreadsOk(s) && Enabled(s, step) && t in s.threads && !BeginsFor(step, t)
    requires Caused(s.log, t, s.threads[t], moved) && (MovesFor(step, t) ==> step.err in moved)
    ensures var s' := Apply(s, step); t in s'.threads && Caused(s'.log, t, s'.threads[t], moved)
  {
    var s' := Apply(s, step);
    StepKeepsCall(s, step, t);
    if s'.threads[t] == s.threads[t] {
      CausedGrows(s.log, s'.log, t, s.threads[t], moved);
    } else {
      assert ThreadOk(s, t);
      OwnCaused(s, step, t, moved);
    }
  }

  lemma OwnCaused(s: State, step: Step, t: Tid, moved: set<int>)
    requires Enabled(s, step) && t in s.threads && ThreadOk(s, t) && !step.Begin? && !step.Complete? && !step.Interrupt? && step.t == t
    requires Caused(s.log, t, s.threads[t], moved) && (MovesFor(step, t) ==> step.err in moved)
    ensures Caused(Apply(s, step).log, t, Apply(s, step).threads[t], moved)
  {
    if step.GetResult? { ResultCaused(s, t); }
  }

  lemma {:induction false} RunCaused(s: State, steps: seq<Step>, t: Tid, moved: set<int>)
    requires ThreadsOk(s) && CanRun(s, steps) && t in s.threads && Caused(s.log, t, s.threads[t], moved)
    requires forall j :: 0 <= j < |steps| ==> !BeginsFor(steps[j], t) && (MovesFor(steps[j], t) ==> steps[j].err in moved)
    ensures t in Run(s, steps).threads && Caused(Run(s, steps).log, t, Run(s, steps).threads[t], moved)
    decreases |steps|
  {
    if steps != [] {
      StepThreads(s, steps[0]);
      StepCaused(s, steps[0], t, moved);
      RunCaused(Apply(s, steps[0]), steps[1..], t, moved);
    }
  }

  /**
   An accepted call that returns an error returns one that a uiomove of the call gave, or the error of a command
   of the call that failed. So a call with no such fault, once it has returned, has returned success.
   */
  lemma ErrorHasCause(s: State, steps: seq<Step>, t: Tid, i: nat)
    requires Init(s) && CanRun(s, steps) && LastCall(steps, t, i) && t in Run(s, steps).threads
    requires !TurnedDown(steps[i].offset, steps[i].resid, |s.disk|)
    requires var pc := Run(s, steps).threads[t].pc; pc.Returned? && pc.err != 0
    ensures CanRun(s, steps[..i])
    ensures var r := Run(s, steps); var err := r.threads[t].pc.err;
            || (exists j :: i < j < |steps| && MovesFor(steps[j], t) && steps[j].err == err)
            || FailedWith(r.log, t, |Run(s, steps[..i]).log|, err)
  {
    RunSplits(s, steps, i);
    CalledWith(s, steps, t, i);
    var before, later := Run(s, steps[..i]), steps[i + 1..];
    assert |before.disk| == |before.disk.Keys| == |s.disk.Keys| == |s.disk|;
    CallDecided(before, steps[i]);
    RunThreads(s, steps[..i]);
    StepThreads(before, steps[i]);
    var moved := set j | i < j < |steps| && MovesFor(steps[j], t) :: steps[j].err;
    forall j | 0 <= j < |later|
      ensures !BeginsFor(later[j], t) && (MovesFor(later[j], t) ==> later[j].err in moved)
    {
      assert later[j] == steps[i + 1 + j];
    }
    RunCaused(Apply(before, steps[i]), later, t, moved);
  }

  lemma {:induction false} RunThreads(s: State, steps: seq<Step>)
    requires ThreadsOk(s) && CanRun(s, steps)
    ensures ThreadsOk(Run(s, steps))
    decreases |steps|
  {
    if steps != [] {
      StepThreads(s, steps[0]);
      RunThreads(Apply(s, steps[0]), steps[1..]);
    }
  }
}

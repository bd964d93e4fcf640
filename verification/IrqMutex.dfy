/** The IRQ-safe spinlock around the receive buffer, as a step system: any
    number of CPUs, each with a main context and, while an interrupt is being
    handled, a handler context on top of it. Reading DAIF, masking, each
    compare-exchange and each access to the buffer are separate steps, so an
    interrupt or another CPU can act between any two of them. */
module IrqMutex {
  import opened Bytes
  import opened RingBuffer

  /** The interrupt mask bits of PSTATE. */
  datatype Daif = Daif(d: bool, a: bool, i: bool, f: bool)

  /** What hardware sets on exception entry. */
  const ALL_MASKED := Daif(true, true, true, true)

  datatype Op = Push(byte: Byte) | Pop
  datatype Result = Pushed(ok: bool) | Popped(byte: Option<Byte>)

  /** Progress inside the closure that runs under the lock: one constructor per
      access to the buffer already made. */
  datatype Stage =
    | Start
    | HeadLoaded(head: nat)
    | RoomSeen(head: nat)
    | ByteWritten(head: nat)
    | TailLoaded(tail: nat)
    | ByteSeen(tail: nat)
    | ByteRead(tail: nat, byte: Byte)
    | Done(result: Result)

  /** Where a context is in lock_irqsafe; `entry` is the DAIF its caller had. */
  datatype Pc =
    | Idle
    | Called(op: Op, entry: Daif)
    | DaifRead(op: Op, entry: Daif, saved: Daif)
    | Trying(op: Op, entry: Daif, saved: Daif)
    | Critical(op: Op, entry: Daif, saved: Daif, stage: Stage)
    | Released(entry: Daif, saved: Daif, result: Result)

  /** `spsr` is the mask saved by hardware when a handler context was entered. */
  datatype Context = Context(pc: Pc, spsr: Daif)

  datatype Cpu = Cpu(daif: Daif, stack: seq<Context>) {
    function Top(): Context
      requires stack != []
    {
      stack[|stack| - 1]
    }

    function WithTop(c: Context): Cpu
      requires stack != []
    {
      this.(stack := stack[|stack| - 1 := c])
    }
  }

  datatype Event = Event(op: Op, result: Result)

  /** `log` records each operation at the step where it takes effect. */
  datatype Sys = Sys(cpus: seq<Cpu>, locked: bool, buf: seq<Byte>, head: nat, tail: nat, log: seq<Event>)

  datatype Label =
    | Call(op: Op)
    | ReadDaif
    | SetMask
    | CompareExchange
    | Body
    | Unlock
    | Restore
    | Interrupt
    | Eret
    | ChangeMask(daif: Daif)

  ghost predicate Shape(s: Sys) {
    && |s.buf| == SIZE && s.head < SIZE && s.tail < SIZE
    && forall c :: 0 <= c < |s.cpus| ==> s.cpus[c].stack != []
  }

  /** One buffer access by the context that holds the lock. */
  function BodyStep(s: Sys, op: Op, stage: Stage): Option<(Sys, Stage)>
    requires Shape(s)
  {
    match (op, stage)
    case (Push(b), Start) => Some((s, HeadLoaded(s.head)))
    case (Push(b), HeadLoaded(h)) =>
      if h < SIZE && Next(h) == s.tail
      then Some((s.(log := s.log + [Event(op, Pushed(false))]), Done(Pushed(false))))
      else Some((s, RoomSeen(h)))
    case (Push(b), RoomSeen(h)) =>
      if h < SIZE then Some((s.(buf := s.buf[h := b]), ByteWritten(h))) else None
    case (Push(b), ByteWritten(h)) =>
      if h < SIZE
      then Some((s.(head := Next(h), log := s.log + [Event(op, Pushed(true))]), Done(Pushed(true))))
      else None
    case (Pop, Start) => Some((s, TailLoaded(s.tail)))
    case (Pop, TailLoaded(t)) =>
      if s.head == t
      then Some((s.(log := s.log + [Event(op, Popped(None))]), Done(Popped(None))))
      else Some((s, ByteSeen(t)))
    case (Pop, ByteSeen(t)) =>
      if t < SIZE then Some((s, ByteRead(t, s.buf[t]))) else None
    case (Pop, ByteRead(t, b)) =>
      if t < SIZE
      then Some((s.(tail := Next(t), log := s.log + [Event(op, Popped(Some(b)))]), Done(Popped(Some(b)))))
      else None
    case _ => None
  }

  /** The CPU-local part of a step of CPU `cpu`, None when it is not enabled. */
  function LocalStep(cpu: Cpu, l: Label): Option<Cpu>
    requires cpu.stack != []
  {
    var top := cpu.Top();
    match (l, top.pc)
    case (Call(op), Idle) => Some(cpu.WithTop(top.(pc := Called(op, cpu.daif))))
    case (ReadDaif, Called(op, entry)) => Some(cpu.WithTop(top.(pc := DaifRead(op, entry, cpu.daif))))
    case (SetMask, DaifRead(op, entry, saved)) =>
      Some(cpu.WithTop(top.(pc := Trying(op, entry, saved))).(daif := cpu.daif.(i := true)))
    case (Restore, Released(entry, saved, _)) => Some(cpu.WithTop(top.(pc := Idle)).(daif := saved))
    case (Interrupt, _) =>
      if cpu.daif.i then None
      else Some(Cpu(ALL_MASKED, cpu.stack + [Context(Idle, cpu.daif)]))
    case (Eret, Idle) =>
      if |cpu.stack| < 2 then None
      else Some(Cpu(top.spsr, cpu.stack[..|cpu.stack| - 1]))
    case (ChangeMask(daif), Idle) => if |cpu.stack| == 1 then Some(cpu.(daif := daif)) else None
    case _ => None
  }

  /** A step of CPU `c`, None when it is not enabled. */
  function Step(s: Sys, c: nat, l: Label): Option<Sys>
    requires Shape(s) && c < |s.cpus|
  {
    var cpu := s.cpus[c];
    var top := cpu.Top();
    match (l, top.pc)
    case (CompareExchange, Trying(op, entry, saved)) =>
      if s.locked then Some(s)
      else Some(s.(cpus := s.cpus[c := cpu.WithTop(top.(pc := Critical(op, entry, saved, Start)))], locked := true))
    case (Body, Critical(op, entry, saved, stage)) =>
      (match BodyStep(s, op, stage)
       case None => None
       case Some((s', stage')) =>
         Some(s'.(cpus := s.cpus[c := cpu.WithTop(top.(pc := Critical(op, entry, saved, stage')))])))
    case (Unlock, Critical(_, entry, saved, Done(result))) =>
      Some(s.(cpus := s.cpus[c := cpu.WithTop(top.(pc := Released(entry, saved, result)))], locked := false))
    case _ =>
      (match LocalStep(cpu, l)
       case None => None
       case Some(cpu') => Some(s.(cpus := s.cpus[c := cpu'])))
  }

  // ---------- The invariant ----------

  /** The mask in force for a context: the CPU's for the top one, and the one
      saved by the handler above for an interrupted one. */
  function MaskOf(cpu: Cpu, k: nat): Daif
    requires k < |cpu.stack|
  {
    if k + 1 < |cpu.stack| then cpu.stack[k + 1].spsr else cpu.daif
  }

  predicate ContextOk(pc: Pc, mask: Daif) {
    match pc
    case Idle => true
    case Called(_, entry) => mask == entry
    case DaifRead(_, entry, saved) => mask == entry == saved
    case Trying(_, entry, saved) => saved == entry && mask == entry.(i := true)
    case Critical(_, entry, saved, _) => saved == entry && mask == entry.(i := true)
    case Released(entry, saved, _) => saved == entry && mask == entry.(i := true)
  }

  /** A handler runs with interrupts masked from start to end. */
  predicate HandlerOk(c: Context) {
    && !c.spsr.i
    && (!c.pc.Idle? ==> c.pc.entry.i)
  }

  predicate CpuOk(cpu: Cpu) {
    && 1 <= |cpu.stack| <= 2
    && (forall k :: 0 <= k < |cpu.stack| ==> ContextOk(cpu.stack[k].pc, MaskOf(cpu, k)))
    && (|cpu.stack| == 2 ==> cpu.daif.i && HandlerOk(cpu.stack[1]))
  }

  predicate Holds(cpu: Cpu) {
    cpu.stack != [] && cpu.Top().pc.Critical?
  }

  /** What the holder has loaded is still what the buffer has, and the result it
      is about to return is that of its operation, the last one logged. */
  predicate StageOk(s: Sys, op: Op, stage: Stage)
    requires |s.buf| == SIZE && s.head < SIZE && s.tail < SIZE
  {
    match stage
    case Start => true
    case Done(result) => s.log != [] && s.log[|s.log| - 1] == Event(op, result)
    case HeadLoaded(h) => op.Push? && h == s.head
    case RoomSeen(h) => op.Push? && h == s.head && Next(h) != s.tail
    case ByteWritten(h) => op.Push? && h == s.head && Next(h) != s.tail && s.buf[h] == op.byte
    case TailLoaded(t) => op.Pop? && t == s.tail
    case ByteSeen(t) => op.Pop? && t == s.tail && s.head != t
    case ByteRead(t, b) => op.Pop? && t == s.tail && s.head != t && b == s.buf[t]
  }

  // ---------- The bounded FIFO ----------

  /** The sequential specification: a queue of at most 255 bytes. None when the
      event is not possible on that queue. */
  function Replay(log: seq<Event>): (q: Option<seq<Byte>>)
  {
    if log == [] then Some([])
    else
      match Replay(log[..|log| - 1])
      case None => None
      case Some(q) => ReplayEvent(q, log[|log| - 1])
  }

  function ReplayEvent(q: seq<Byte>, e: Event): Option<seq<Byte>> {
    match (e.op, e.result)
    case (Push(b), Pushed(true)) => if |q| < 255 then Some(q + [b]) else None
    case (Push(b), Pushed(false)) => if |q| == 255 then Some(q) else None
    case (Pop, Popped(Some(b))) => if q != [] && q[0] == b then Some(q[1..]) else None
    case (Pop, Popped(None)) => if q == [] then Some(q) else None
    case _ => None
  }

  ghost predicate Inv(s: Sys) {
    && Shape(s)
    && (forall c :: 0 <= c < |s.cpus| ==> CpuOk(s.cpus[c]))
    && (forall c :: 0 <= c < |s.cpus| && Holds(s.cpus[c]) ==>
          s.locked && StageOk(s, s.cpus[c].Top().pc.op, s.cpus[c].Top().pc.stage))
    && (forall c, d :: 0 <= c < d < |s.cpus| ==> !(Holds(s.cpus[c]) && Holds(s.cpus[d])))
    && (s.locked ==> exists c :: 0 <= c < |s.cpus| && Holds(s.cpus[c]))
    && Replay(s.log) == Some(Contents(s.buf, s.head, s.tail))
  }

  // ---------- Every step keeps it ----------

  lemma ReplayAppend(log: seq<Event>, e: Event)
    ensures Replay(log + [e]) ==
      match Replay(log) { case None => None case Some(q) => ReplayEvent(q, e) }
  {
    assert (log + [e])[..|log|] == log;
  }

  /** A step inside the critical section keeps the loaded values current, and
      the log replays to the buffer's contents. */
  lemma BodyKeeps(s: Sys, op: Op, stage: Stage)
    requires Shape(s) && StageOk(s, op, stage) && Replay(s.log) == Some(Contents(s.buf, s.head, s.tail))
    requires BodyStep(s, op, stage).Some?
    ensures var (s', stage') := BodyStep(s, op, stage).value;
      && Shape(s') && StageOk(s', op, stage') && s'.cpus == s.cpus && s'.locked == s.locked
      && Replay(s'.log) == Some(Contents(s'.buf, s'.head, s'.tail))
  {
    var (s', stage') := BodyStep(s, op, stage).value;
    Occupancy(s.buf, s.head, s.tail);
    if s'.log != s.log {
      ReplayAppend(s.log, s'.log[|s.log|]);
    }
    match stage
    case RoomSeen(h) => WriteFree(s.buf, h, s.tail, op.byte);
    case ByteWritten(h) => AdvanceHead(s.buf, h, s.tail);
    case ByteRead(t, b) => AdvanceTail(s.buf, s.head, t);
    case _ =>
  }

  /** A local step is never taken by the holder and never makes one. */
  lemma LocalKeeps(cpu: Cpu, l: Label)
    requires CpuOk(cpu) && LocalStep(cpu, l).Some?
    ensures CpuOk(LocalStep(cpu, l).value)
    ensures !Holds(cpu) && !Holds(LocalStep(cpu, l).value)
  {
    var cpu' := LocalStep(cpu, l).value;
    var n := |cpu.stack|;
    assert ContextOk(cpu.Top().pc, MaskOf(cpu, n - 1));
    if n == 2 {
      assert ContextOk(cpu.stack[0].pc, MaskOf(cpu, 0));
    }
  }

  /** Replacing one CPU keeps the invariant when the new CPU is in order and
      the lock still has the holder it says it has. */
  lemma ReplaceCpu(s: Sys, s': Sys, c: nat, cpu': Cpu)
    requires Inv(s) && c < |s.cpus| && CpuOk(cpu') && s'.cpus == s.cpus[c := cpu'] && Shape(s')
    requires Replay(s'.log) == Some(Contents(s'.buf, s'.head, s'.tail))
    requires Holds(cpu') ==> s'.locked && StageOk(s', cpu'.Top().pc.op, cpu'.Top().pc.stage)
    requires Holds(cpu') || Holds(s.cpus[c]) ==> forall d :: 0 <= d < |s.cpus| && d != c ==> !Holds(s.cpus[d])
    requires
      if Holds(s.cpus[c]) then s'.locked == Holds(cpu')
      else (s'.locked <==> s.locked || Holds(cpu')) && s'.(cpus := s.cpus, locked := s.locked) == s
    ensures Inv(s')
  {
    hide CpuOk, Replay, Contents;
    if s'.locked && !Holds(cpu') {
      var d :| 0 <= d < |s.cpus| && Holds(s.cpus[d]);
      assert Holds(s'.cpus[d]);
    }
    if Holds(cpu') {
      assert Holds(s'.cpus[c]);
    }
  }

  lemma OnlyHolder(s: Sys, c: nat)
    requires Inv(s) && c < |s.cpus| && (Holds(s.cpus[c]) || !s.locked)
    ensures forall d :: 0 <= d < |s.cpus| && d != c ==> !Holds(s.cpus[d])
  {
  }

  lemma TopKeeps(cpu: Cpu, pc: Pc)
    requires CpuOk(cpu) && !cpu.Top().pc.Idle? && !pc.Idle?
    requires pc.entry == cpu.Top().pc.entry && ContextOk(pc, cpu.daif)
    ensures CpuOk(cpu.WithTop(cpu.Top().(pc := pc)))
  {
  }

  lemma AcquireKeeps(s: Sys, c: nat)
    requires Inv(s) && c < |s.cpus| && s.cpus[c].Top().pc.Trying? && !s.locked
    ensures Step(s, c, CompareExchange).Some? && Inv(Step(s, c, CompareExchange).value)
  {
    var cpu, s' := s.cpus[c], Step(s, c, CompareExchange).value;
    var pc := s'.cpus[c].Top().pc;
    TopKeeps(cpu, pc);
    OnlyHolder(s, c);
    ReplaceCpu(s, s', c, cpu.WithTop(cpu.Top().(pc := pc)));
  }

  lemma HolderKeeps(s: Sys, c: nat, l: Label)
    requires Inv(s) && c < |s.cpus| && Holds(s.cpus[c]) && (l.Body? || l.Unlock?)
    requires Step(s, c, l).Some?
    ensures Inv(Step(s, c, l).value)
  {
    var cpu, s' := s.cpus[c], Step(s, c, l).value;
    var pc := cpu.Top().pc;
    if l.Body? {
      BodyKeeps(s, pc.op, pc.stage);
    }
    var cpu' := s'.cpus[c];
    TopKeeps(cpu, cpu'.Top().pc);
    OnlyHolder(s, c);
    ReplaceCpu(s, s', c, cpu');
  }

  lemma StepKeepsInv(s: Sys, c: nat, l: Label)
    requires Inv(s) && c < |s.cpus| && Step(s, c, l).Some?
    ensures Inv(Step(s, c, l).value) && |Step(s, c, l).value.cpus| == |s.cpus|
  {
    var cpu, s' := s.cpus[c], Step(s, c, l).value;
    if l.CompareExchange? && cpu.Top().pc.Trying? {
      if !s.locked {
        AcquireKeeps(s, c);
      }
    } else if (l.Body? || l.Unlock?) && Holds(cpu) {
      HolderKeeps(s, c, l);
    } else {
      LocalKeeps(cpu, l);
      ReplaceCpu(s, s', c, s'.cpus[c]);
    }
  }

  // ---------- Whole runs ----------

  /** Any number of CPUs, each in its main context outside the lock, any masks, empty buffer. */
  ghost predicate Init(s: Sys) {
    && |s.buf| == SIZE && s.head == s.tail == 0 && s.log == [] && !s.locked
    && forall c :: 0 <= c < |s.cpus| ==> |s.cpus[c].stack| == 1 && s.cpus[c].stack[0].pc.Idle?
  }

  lemma InitInv(s: Sys)
    requires Init(s)
    ensures Inv(s)
  {
  }

  datatype Move = Move(cpu: nat, act: Label)

  /** The state after a sequence of moves, None when one is not enabled. */
  ghost function Run(s: Sys, moves: seq<Move>): (r: Option<Sys>)
    requires Inv(s)
    ensures r.Some? ==> Inv(r.value) && |r.value.cpus| == |s.cpus|
    decreases |moves|
  {
    if moves == [] then Some(s)
    else if moves[0].cpu >= |s.cpus| then None
    else
      match Step(s, moves[0].cpu, moves[0].act)
      case None => None
      case Some(s') =>
        StepKeepsInv(s, moves[0].cpu, moves[0].act);
        Run(s', moves[1..])
  }

  predicate InCritical(s: Sys, c: nat, k: nat) {
    c < |s.cpus| && k < |s.cpus[c].stack| && s.cpus[c].stack[k].pc.Critical?
  }

  predicate IsTop(s: Sys, c: nat, k: nat) {
    c < |s.cpus| && k + 1 == |s.cpus[c].stack|
  }

  /** Mutual exclusion; nobody spins on a context of its own CPU, and whoever
      is spun on is running; at most one handler per CPU; the buffer is the FIFO
      its log describes. */
  ghost predicate Safe(s: Sys) {
    && (forall c, k, d, m :: InCritical(s, c, k) && InCritical(s, d, m) ==> c == d && k == m)
    && (forall c, k :: InCritical(s, c, k) ==> IsTop(s, c, k) && s.locked)
    && (forall c, k :: 0 <= c < |s.cpus| && 0 <= k < |s.cpus[c].stack| && s.cpus[c].stack[k].pc.Trying? ==>
          IsTop(s, c, k) && (s.locked ==> exists d, m :: d != c && InCritical(s, d, m) && IsTop(s, d, m)))
    && (forall c :: 0 <= c < |s.cpus| ==> |s.cpus[c].stack| <= 2)
    && |s.buf| == SIZE && s.head < SIZE && s.tail < SIZE
    && Replay(s.log) == Some(Contents(s.buf, s.head, s.tail))
  }

  /** A context that has masked interrupts is the top one. */
  lemma MaskedIsTop(s: Sys, c: nat, k: nat)
    requires Inv(s) && c < |s.cpus| && k < |s.cpus[c].stack|
    requires var pc := s.cpus[c].stack[k].pc; pc.Trying? || pc.Critical? || pc.Released?
    ensures IsTop(s, c, k)
  {
    var cpu := s.cpus[c];
    assert CpuOk(cpu) && ContextOk(cpu.stack[k].pc, MaskOf(cpu, k));
  }

  lemma InvIsSafe(s: Sys)
    requires Inv(s)
    ensures Safe(s)
  {
    forall c: nat, k: nat | InCritical(s, c, k) ensures IsTop(s, c, k) && s.locked && Holds(s.cpus[c]) {
      MaskedIsTop(s, c, k);
    }
    forall c, k | 0 <= c < |s.cpus| && 0 <= k < |s.cpus[c].stack| && s.cpus[c].stack[k].pc.Trying?
      ensures IsTop(s, c, k) && (s.locked ==> exists d, m :: d != c && InCritical(s, d, m) && IsTop(s, d, m))
    {
      MaskedIsTop(s, c, k);
      if s.locked {
        var d :| 0 <= d < |s.cpus| && Holds(s.cpus[d]);
        var m := |s.cpus[d].stack| - 1;
        assert InCritical(s, d, m) && IsTop(s, d, m);
      }
    }
    forall c | 0 <= c < |s.cpus| ensures |s.cpus[c].stack| <= 2 {
      assert CpuOk(s.cpus[c]);
    }
  }

  /** The moves lead from an initial state to `s`. */
  ghost predicate Reaches(start: Sys, moves: seq<Move>, s: Sys) {
    Init(start) && (InitInv(start); Run(start, moves) == Some(s))
  }

  /** Every state of every run is safe. */
  lemma RunsAreSafe(start: Sys, moves: seq<Move>, s: Sys)
    requires Reaches(start, moves, s)
    ensures Safe(s)
  {
    InvIsSafe(s);
  }

  /** A context that finds the lock taken waits for the running context of
      another CPU, never for a context that it interrupted. */
  lemma SpinnerWaitsForAnotherCpu(start: Sys, moves: seq<Move>, s: Sys, c: nat, k: nat)
    requires Reaches(start, moves, s) && c < |s.cpus| && k < |s.cpus[c].stack|
    requires s.cpus[c].stack[k].pc.Trying? && s.locked
    ensures exists d, m :: d != c && InCritical(s, d, m) && IsTop(s, d, m)
  {
    InvIsSafe(s);
  }

  /** On one CPU a compare-exchange never fails. */
  lemma SingleCpuNeverSpins(start: Sys, moves: seq<Move>, s: Sys)
    requires Reaches(start, moves, s) && |s.cpus| == 1 && s.cpus[0].Top().pc.Trying?
    ensures !s.locked
  {
    InvIsSafe(s);
  }

  // ---------- Masks ----------

  predicate Busy(s: Sys, c: nat, k: nat) {
    c < |s.cpus| && k < |s.cpus[c].stack| && !s.cpus[c].stack[k].pc.Idle?
  }

  /** While a context is inside lock_irqsafe no step changes its record of its caller's mask. */
  lemma EntryKept(s: Sys, m: Move, c: nat, k: nat)
    requires Inv(s) && m.cpu < |s.cpus| && Step(s, m.cpu, m.act).Some? && Busy(s, c, k)
    ensures var s' := Step(s, m.cpu, m.act).value;
      Busy(s', c, k) ==> s'.cpus[c].stack[k].pc.entry == s.cpus[c].stack[k].pc.entry
  {
    assert CpuOk(s.cpus[c]);
  }

  /** The context stays inside lock_irqsafe through all the moves. */
  ghost predicate StaysBusy(s: Sys, moves: seq<Move>, c: nat, k: nat)
    requires Inv(s)
    decreases |moves|
  {
    && Busy(s, c, k)
    && (moves != [] ==>
          && moves[0].cpu < |s.cpus| && Step(s, moves[0].cpu, moves[0].act).Some?
          && (StepKeepsInv(s, moves[0].cpu, moves[0].act);
              StaysBusy(Step(s, moves[0].cpu, moves[0].act).value, moves[1..], c, k)))
  }

  lemma {:induction false} EntryKeptThroughout(s: Sys, moves: seq<Move>, c: nat, k: nat)
    requires Inv(s) && StaysBusy(s, moves, c, k)
    ensures Run(s, moves).Some? && Busy(Run(s, moves).value, c, k)
    ensures Run(s, moves).value.cpus[c].stack[k].pc.entry == s.cpus[c].stack[k].pc.entry
    decreases |moves|
  {
    if moves != [] {
      EntryKept(s, moves[0], c, k);
      StepKeepsInv(s, moves[0].cpu, moves[0].act);
      EntryKeptThroughout(Step(s, moves[0].cpu, moves[0].act).value, moves[1..], c, k);
    }
  }

  /** Whatever happens between a call of lock_irqsafe and its return -- any
      steps of other CPUs, and interrupts taken on this one before it masks
      them -- the call returns with the mask its caller had. */
  lemma CallReturnsWithCallersMask(s: Sys, c: nat, op: Op, moves: seq<Move>)
    requires Inv(s) && c < |s.cpus| && Step(s, c, Call(op)).Some?
    requires var k := |s.cpus[c].stack| - 1;
      var s1 := Step(s, c, Call(op)).value;
      Inv(s1) && StaysBusy(s1, moves, c, k)
      && Run(s1, moves).Some? && IsTop(Run(s1, moves).value, c, k)
      && Step(Run(s1, moves).value, c, Restore).Some?
    ensures var s1 := Step(s, c, Call(op)).value;
      Step(Run(s1, moves).value, c, Restore).value.cpus[c].daif == s.cpus[c].daif
  {
    var k := |s.cpus[c].stack| - 1;
    var s1 := Step(s, c, Call(op)).value;
    EntryKeptThroughout(s1, moves, c, k);
    assert CpuOk(Run(s1, moves).value.cpus[c]);
  }

  // ---------- Progress ----------

  /** Upper bound on the holder's remaining steps, the unlock included. */
  function Rank(stage: Stage): nat {
    match stage
    case Start => 5
    case HeadLoaded(_) => 4
    case RoomSeen(_) => 3
    case ByteWritten(_) => 2
    case TailLoaded(_) => 4
    case ByteSeen(_) => 3
    case ByteRead(_, _) => 2
    case Done(_) => 1
  }

  /** The holder is never interrupted and never waits: it has an enabled step,
      and each of its steps lowers its rank or releases the lock. */
  lemma HolderAdvances(s: Sys, c: nat, l: Label)
    requires Inv(s) && c < |s.cpus| && Holds(s.cpus[c])
    ensures Step(s, c, Interrupt).None?
    ensures Step(s, c, Body).Some? || Step(s, c, Unlock).Some?
    ensures Step(s, c, l).Some? ==>
      var s' := Step(s, c, l).value;
      if Holds(s'.cpus[c]) then Rank(s'.cpus[c].Top().pc.stage) < Rank(s.cpus[c].Top().pc.stage)
      else !s'.locked
  {
    assert CpuOk(s.cpus[c]) && ContextOk(s.cpus[c].Top().pc, MaskOf(s.cpus[c], |s.cpus[c].stack| - 1));
  }

  lemma OthersKept(s: Sys, c: nat, l: Label, d: nat)
    requires Shape(s) && c < |s.cpus| && d < |s.cpus| && c != d && Step(s, c, l).Some?
    ensures |Step(s, c, l).value.cpus| == |s.cpus| && Step(s, c, l).value.cpus[d] == s.cpus[d]
  {
    hide LocalStep;
  }

  lemma RankBounds(stage: Stage)
    ensures 1 <= Rank(stage) <= 5
  {
  }

  function MovesOf(moves: seq<Move>, c: nat): nat
  {
    if moves == [] then 0 else (if moves[0].cpu == c then 1 else 0) + MovesOf(moves[1..], c)
  }

  ghost predicate HoldsThroughout(s: Sys, moves: seq<Move>, c: nat)
    requires Inv(s)
    decreases |moves|
  {
    && c < |s.cpus| && Holds(s.cpus[c])
    && (moves != [] ==>
          && moves[0].cpu < |s.cpus| && Step(s, moves[0].cpu, moves[0].act).Some?
          && (StepKeepsInv(s, moves[0].cpu, moves[0].act);
              HoldsThroughout(Step(s, moves[0].cpu, moves[0].act).value, moves[1..], c)))
  }

  /** However the CPUs interleave, the lock is held for fewer steps of its
      holder's CPU than the holder's rank, so at most four of them. */
  lemma {:induction false} LockIsHeldBriefly(s: Sys, moves: seq<Move>, c: nat)
    requires Inv(s) && HoldsThroughout(s, moves, c)
    ensures MovesOf(moves, c) < Rank(s.cpus[c].Top().pc.stage) <= 5
    decreases |moves|
  {
    hide Step, Rank, CpuOk, StageOk, Replay;
    RankBounds(s.cpus[c].Top().pc.stage);
    if moves != [] {
      var m := moves[0];
      StepKeepsInv(s, m.cpu, m.act);
      if m.cpu == c {
        HolderAdvances(s, c, m.act);
      } else {
        OthersKept(s, m.cpu, m.act, c);
      }
      LockIsHeldBriefly(Step(s, m.cpu, m.act).value, moves[1..], c);
    }
  }

  // ---------- Every call can complete ----------

  /** A CPU with its top context at `pc` and its mask at `daif`. */
  function At(cpu: Cpu, pc: Pc, daif: Daif): Cpu
    requires cpu.stack != []
  {
    Cpu(daif, cpu.stack[..|cpu.stack| - 1] + [Context(pc, cpu.Top().spsr)])
  }

  /** The system with that CPU in place of CPU `c`, and the lock as given. */
  function Placed(s: Sys, c: nat, pc: Pc, daif: Daif, locked: bool): Sys
    requires Shape(s) && c < |s.cpus|
  {
    s.(cpus := s.cpus[c := At(s.cpus[c], pc, daif)], locked := locked)
  }

  lemma PlacedTwice(s: Sys, c: nat, pc: Pc, daif: Daif, locked: bool, pc': Pc, daif': Daif, locked': bool)
    requires Shape(s) && c < |s.cpus|
    ensures Shape(Placed(s, c, pc, daif, locked)) && Placed(s, c, pc, daif, locked).cpus[c].Top().pc == pc
    ensures Placed(Placed(s, c, pc, daif, locked), c, pc', daif', locked') == Placed(s, c, pc', daif', locked')
  {
    var cpu := s.cpus[c];
    assert At(cpu, pc, daif).stack[..|cpu.stack| - 1] == cpu.stack[..|cpu.stack| - 1];
    assert At(At(cpu, pc, daif), pc', daif') == At(cpu, pc', daif');
  }

  lemma PlacedBack(s: Sys, c: nat)
    requires Shape(s) && c < |s.cpus|
    ensures Placed(s, c, s.cpus[c].Top().pc, s.cpus[c].daif, s.locked) == s
  {
    var cpu := s.cpus[c];
    assert At(cpu, cpu.Top().pc, cpu.daif).stack == cpu.stack;
  }

  lemma WithTopIsAt(cpu: Cpu, pc: Pc)
    requires cpu.stack != []
    ensures cpu.WithTop(cpu.Top().(pc := pc)) == At(cpu, pc, cpu.daif)
  {
    assert cpu.stack == cpu.stack[..|cpu.stack| - 1] + [cpu.Top()];
  }

  /** lock_irqsafe up to the lock: the call, the read of DAIF and the masking are
      always enabled; only the I bit of the mask changes. */
  lemma EntrySteps(s: Sys, c: nat, l: Label)
    requires Shape(s) && c < |s.cpus|
    ensures var cpu := s.cpus[c];
      match (l, cpu.Top().pc)
      case (Call(op), Idle) => Step(s, c, l) == Some(Placed(s, c, Called(op, cpu.daif), cpu.daif, s.locked))
      case (ReadDaif, Called(op, entry)) =>
        Step(s, c, l) == Some(Placed(s, c, DaifRead(op, entry, cpu.daif), cpu.daif, s.locked))
      case (SetMask, DaifRead(op, entry, saved)) =>
        var masked := Daif(cpu.daif.d, cpu.daif.a, true, cpu.daif.f);
        Step(s, c, l) == Some(Placed(s, c, Trying(op, entry, saved), masked, s.locked))
      case (Restore, Released(entry, saved, _)) => Step(s, c, l) == Some(Placed(s, c, Idle, saved, s.locked))
      case _ => true
  {
    var cpu := s.cpus[c];
    match (l, cpu.Top().pc)
    case (Call(op), Idle) => WithTopIsAt(cpu, Called(op, cpu.daif));
    case (ReadDaif, Called(op, entry)) => WithTopIsAt(cpu, DaifRead(op, entry, cpu.daif));
    case (SetMask, DaifRead(op, entry, saved)) => WithTopIsAt(cpu, Trying(op, entry, saved));
    case (Restore, Released(_, _, _)) => WithTopIsAt(cpu, Idle);
    case _ =>
  }

  /** The compare-exchange: on a free lock it takes the lock and makes the context
      critical, and changes nothing else; on a taken lock it changes nothing. */
  lemma CompareExchangeMeaning(s: Sys, c: nat)
    requires Shape(s) && c < |s.cpus| && s.cpus[c].Top().pc.Trying?
    ensures var cpu, pc := s.cpus[c], s.cpus[c].Top().pc;
      Step(s, c, CompareExchange) ==
        Some(if s.locked then s else Placed(s, c, Critical(pc.op, pc.entry, pc.saved, Start), cpu.daif, true))
  {
    var pc := s.cpus[c].Top().pc;
    WithTopIsAt(s.cpus[c], Critical(pc.op, pc.entry, pc.saved, Start));
  }

  /** The unlock frees the lock and keeps the result for the caller. */
  lemma UnlockMeaning(s: Sys, c: nat)
    requires Shape(s) && c < |s.cpus| && s.cpus[c].Top().pc.Critical? && s.cpus[c].Top().pc.stage.Done?
    ensures var cpu, pc := s.cpus[c], s.cpus[c].Top().pc;
      Step(s, c, Unlock) == Some(Placed(s, c, Released(pc.entry, pc.saved, pc.stage.result), cpu.daif, false))
  {
    var pc := s.cpus[c].Top().pc;
    WithTopIsAt(s.cpus[c], Released(pc.entry, pc.saved, pc.stage.result));
  }

  /** A step inside the closure is enabled until the result is there; it moves
      only its own context and the buffer, and logs the operation with its result
      exactly when the result is there. */
  lemma BodyMeaning(s: Sys, c: nat)
    requires Inv(s) && c < |s.cpus| && Holds(s.cpus[c]) && !s.cpus[c].Top().pc.stage.Done?
    ensures Step(s, c, Body).Some?
    ensures var cpu, pc, s' := s.cpus[c], s.cpus[c].Top().pc, Step(s, c, Body).value;
      && Holds(s'.cpus[c])
      && s' == Placed(s, c, s'.cpus[c].Top().pc, cpu.daif, s.locked).(
           buf := s'.buf, head := s'.head, tail := s'.tail, log := s'.log)
      && s'.cpus[c].Top().pc == Critical(pc.op, pc.entry, pc.saved, s'.cpus[c].Top().pc.stage)
      && Rank(s'.cpus[c].Top().pc.stage) < Rank(pc.stage)
      && s'.log == match s'.cpus[c].Top().pc.stage
         case Done(result) => s.log + [Event(pc.op, result)]
         case _ => s.log
  {
    hide CpuOk, Replay, Contents;
    var pc := s.cpus[c].Top().pc;
    var (s1, stage') := BodyStep(s, pc.op, pc.stage).value;
    WithTopIsAt(s.cpus[c], Critical(pc.op, pc.entry, pc.saved, stage'));
  }

  lemma {:induction false} RunConcat(s: Sys, a: seq<Move>, b: seq<Move>)
    requires Inv(s)
    ensures Run(s, a).Some? ==> Run(s, a + b) == Run(Run(s, a).value, b)
    decreases |a|
  {
    hide Step, CpuOk, StageOk, Replay;
    if a == [] {
      assert a + b == b;
    } else if a[0].cpu < |s.cpus| && Step(s, a[0].cpu, a[0].act).Some? {
      assert (a + b)[0] == a[0] && (a + b)[1..] == a[1..] + b;
      StepKeepsInv(s, a[0].cpu, a[0].act);
      RunConcat(Step(s, a[0].cpu, a[0].act).value, a[1..], b);
    }
  }

  lemma RunSnoc(s: Sys, a: seq<Move>, s1: Sys, m: Move, s2: Sys)
    requires Inv(s) && Run(s, a) == Some(s1) && m.cpu < |s1.cpus| && Step(s1, m.cpu, m.act) == Some(s2)
    ensures Run(s, a + [m]) == Some(s2)
  {
    hide Step, CpuOk, StageOk, Replay;
    RunConcat(s, a, [m]);
    StepKeepsInv(s1, m.cpu, m.act);
    assert [m][1..] == [];
  }

  ghost predicate AllOf(moves: seq<Move>, c: nat) {
    forall k :: 0 <= k < |moves| ==> moves[k].cpu == c
  }

  /** The holder alone reaches its result, and logs its operation with it, once. */
  lemma {:induction false} HolderFinishes(s: Sys, c: nat) returns (more: seq<Move>, result: Result)
    requires Inv(s) && c < |s.cpus| && Holds(s.cpus[c]) && !s.cpus[c].Top().pc.stage.Done?
    ensures AllOf(more, c) && Run(s, more).Some?
    ensures var cpu, pc, s' := s.cpus[c], s.cpus[c].Top().pc, Run(s, more).value;
      && s'.cpus == s.cpus[c := At(cpu, Critical(pc.op, pc.entry, pc.saved, Done(result)), cpu.daif)]
      && s'.locked == s.locked && s'.log == s.log + [Event(pc.op, result)]
    decreases Rank(s.cpus[c].Top().pc.stage)
  {
    hide Step, CpuOk, StageOk, Replay, At, Rank;
    BodyMeaning(s, c);
    var cpu, pc, s1 := s.cpus[c], s.cpus[c].Top().pc, Step(s, c, Body).value;
    StepKeepsInv(s, c, Body);
    var stage := s1.cpus[c].Top().pc.stage;
    if stage.Done? {
      more, result := [Move(c, Body)], stage.result;
      assert more[1..] == [];
    } else {
      var rest;
      rest, result := HolderFinishes(s1, c);
      more := [Move(c, Body)] + rest;
      assert more[1..] == rest;
      var done := Critical(pc.op, pc.entry, pc.saved, Done(result));
      PlacedLog(s, c, s1.cpus[c].Top().pc, cpu.daif, s.locked);
      PlacedFrom(s, s1, c, s1.cpus[c].Top().pc, cpu.daif, done, cpu.daif, s.locked);
      PlacedLog(s1, c, done, cpu.daif, s.locked);
    }
  }

  /** From the call to the critical section, on a free lock. */
  lemma EntersCritical(s: Sys, c: nat, op: Op) returns (entry: seq<Move>)
    requires Inv(s) && c < |s.cpus| && s.cpus[c].Top().pc.Idle? && !s.locked
    ensures AllOf(entry, c)
    ensures var d := s.cpus[c].daif;
      Run(s, entry) == Some(Placed(s, c, Critical(op, d, d, Start), Daif(d.d, d.a, true, d.f), true))
  {
    hide Step, CpuOk, StageOk, Replay, Placed, Run;
    var d := s.cpus[c].daif;
    var masked := Daif(d.d, d.a, true, d.f);
    var s1, s2 := Placed(s, c, Called(op, d), d, false), Placed(s, c, DaifRead(op, d, d), d, false);
    var s3, s4 := Placed(s, c, Trying(op, d, d), masked, false), Placed(s, c, Critical(op, d, d, Start), masked, true);
    PlacedFacts(s, c, Called(op, d), d, false);
    PlacedFacts(s, c, DaifRead(op, d, d), d, false);
    PlacedFacts(s, c, Trying(op, d, d), masked, false);
    EntrySteps(s, c, Call(op));
    EntrySteps(s1, c, ReadDaif);
    EntrySteps(s2, c, SetMask);
    CompareExchangeMeaning(s3, c);
    PlacedTwice(s, c, Called(op, d), d, false, DaifRead(op, d, d), d, false);
    PlacedTwice(s, c, DaifRead(op, d, d), d, false, Trying(op, d, d), masked, false);
    PlacedTwice(s, c, Trying(op, d, d), masked, false, Critical(op, d, d, Start), masked, true);
    RunNothing(s);
    RunSnoc(s, [], s, Move(c, Call(op)), s1);
    RunSnoc(s, [] + [Move(c, Call(op))], s1, Move(c, ReadDaif), s2);
    RunSnoc(s, [] + [Move(c, Call(op))] + [Move(c, ReadDaif)], s2, Move(c, SetMask), s3);
    RunSnoc(s, [] + [Move(c, Call(op))] + [Move(c, ReadDaif)] + [Move(c, SetMask)], s3, Move(c, CompareExchange), s4);
    entry := [] + [Move(c, Call(op))] + [Move(c, ReadDaif)] + [Move(c, SetMask)] + [Move(c, CompareExchange)];
  }

  lemma RunNothing(s: Sys)
    requires Inv(s)
    ensures Run(s, []) == Some(s)
  {
  }

  lemma PlacedFacts(s: Sys, c: nat, pc: Pc, daif: Daif, locked: bool)
    requires Shape(s) && c < |s.cpus|
    ensures var s' := Placed(s, c, pc, daif, locked);
      Shape(s') && c < |s'.cpus| && s'.cpus[c].Top().pc == pc && s'.cpus[c].daif == daif && s'.locked == locked
  {
  }

  /** What a queue of at most 255 bytes answers, and what it holds afterwards. */
  function FifoResult(op: Op, q: seq<Byte>): Result {
    match op
    case Push(_) => Pushed(|q| < 255)
    case Pop => Popped(if q == [] then None else Some(q[0]))
  }

  function FifoAfter(op: Op, q: seq<Byte>): seq<Byte> {
    match op
    case Push(b) => if |q| < 255 then q + [b] else q
    case Pop => if q == [] then q else q[1..]
  }

  lemma LoggedResult(s: Sys, s': Sys, op: Op, result: Result)
    requires Inv(s) && Inv(s') && s'.log == s.log + [Event(op, result)]
    ensures var q := Contents(s.buf, s.head, s.tail);
      result == FifoResult(op, q) && Contents(s'.buf, s'.head, s'.tail) == FifoAfter(op, q)
  {
    hide CpuOk, StageOk, Contents, Replay;
    ReplayAppend(s.log, Event(op, result));
  }

  /** Completion: in every reachable state with the lock free, a CPU whose top
      context is idle can call lock_irqsafe with any operation and, by steps of
      its own alone, return from it: the operation is logged once, the call
      returns the logged result, which is the FIFO's, the buffer holds what the
      FIFO then holds, the lock is free again, and every CPU, with its mask and
      contexts, is as it was. */
  lemma CallCompletes(start: Sys, moves: seq<Move>, s: Sys, c: nat, op: Op) returns (more: seq<Move>, result: Result)
    requires Reaches(start, moves, s) && c < |s.cpus| && s.cpus[c].Top().pc.Idle? && !s.locked
    ensures Inv(s) && AllOf(more, c) && Run(s, more + [Move(c, Restore)]).Some?
    ensures var s' := Run(s, more + [Move(c, Restore)]).value;
      s'.cpus == s.cpus && !s'.locked && s'.log == s.log + [Event(op, result)]
    ensures var q, s' := Contents(s.buf, s.head, s.tail), Run(s, more + [Move(c, Restore)]).value;
      result == FifoResult(op, q) && Contents(s'.buf, s'.head, s'.tail) == FifoAfter(op, q)
    ensures Run(s, more).Some?
    ensures var pc := Run(s, more).value.cpus[c].Top().pc; pc.Released? && pc.result == result
  {
    hide Step, CpuOk, StageOk, Replay, Placed, At, Run, Reaches;
    ReachesInv(start, moves, s);
    var d := s.cpus[c].daif;
    var masked := Daif(d.d, d.a, true, d.f);
    var entry := EntersCritical(s, c, op);
    var s1 := Placed(s, c, Critical(op, d, d, Start), masked, true);
    PlacedFacts(s, c, Critical(op, d, d, Start), masked, true);
    PlacedLog(s, c, Critical(op, d, d, Start), masked, true);
    var body;
    body, result := HolderFinishes(s1, c);
    var s2 := Run(s1, body).value;
    RunConcat(s, entry, body);
    var done := Critical(op, d, d, Done(result));
    AtTwice(s, c, Critical(op, d, d, Start), masked, true, done, masked);
    assert s2.cpus == s.cpus[c := At(s.cpus[c], done, masked)];
    PlacedFrom(s, s2, c, done, masked, Released(d, d, result), masked, false);
    UnlockMeaning(s2, c);
    var s3 := Placed(s2, c, Released(d, d, result), masked, false);
    RunSnoc(s, entry + body, s2, Move(c, Unlock), s3);
    more := entry + body + [Move(c, Unlock)];
    EntrySteps(s3, c, Restore);
    PlacedFrom(s, s3, c, Released(d, d, result), masked, Idle, d, false);
    var s4 := Placed(s3, c, Idle, d, false);
    RunSnoc(s, more, s3, Move(c, Restore), s4);
    PlacedBackAt(s, c);
    LoggedResult(s, s4, op, result);
  }

  /** No deadlock: from every reachable state in which a context is trying, it
      gets the lock after steps of its own and of the holder's CPU alone. */
  lemma SpinnerCanProceed(start: Sys, moves: seq<Move>, s: Sys, c: nat) returns (more: seq<Move>, d: nat)
    requires Reaches(start, moves, s) && c < |s.cpus| && s.cpus[c].Top().pc.Trying?
    ensures Inv(s) && Run(s, more).Some? && Holds(Run(s, more).value.cpus[c])
    ensures forall k :: 0 <= k < |more| ==> more[k].cpu == c || more[k].cpu == d
    ensures more != [Move(c, CompareExchange)] ==> s.locked && d < |s.cpus| && d != c && Holds(s.cpus[d])
  {
    hide Step, CpuOk, StageOk, Replay, Placed, At, Run, Reaches;
    ReachesInv(start, moves, s);
    RunNothing(s);
    if !s.locked {
      d := c;
      more := Acquires(s, [], s, c);
    } else {
      d :| 0 <= d < |s.cpus| && Holds(s.cpus[d]);
      var release, s1 := HolderReleases(s, d);
      more := Acquires(s, release, s1, c);
    }
  }

  lemma Acquires(s: Sys, before: seq<Move>, s1: Sys, c: nat) returns (more: seq<Move>)
    requires Inv(s) && Run(s, before) == Some(s1) && c < |s1.cpus| && s1.cpus[c].Top().pc.Trying? && !s1.locked
    ensures more == before + [Move(c, CompareExchange)] && Run(s, more).Some? && Holds(Run(s, more).value.cpus[c])
  {
    hide Step, CpuOk, StageOk, Replay, Run;
    CompareExchangeMeaning(s1, c);
    var pc := s1.cpus[c].Top().pc;
    var s2 := Placed(s1, c, Critical(pc.op, pc.entry, pc.saved, Start), s1.cpus[c].daif, true);
    RunSnoc(s, before, s1, Move(c, CompareExchange), s2);
    more := before + [Move(c, CompareExchange)];
  }

  lemma HolderReleases(s: Sys, d: nat) returns (more: seq<Move>, s': Sys)
    requires Inv(s) && d < |s.cpus| && Holds(s.cpus[d])
    ensures AllOf(more, d) && Run(s, more) == Some(s') && !s'.locked && |s'.cpus| == |s.cpus|
    ensures forall e :: 0 <= e < |s.cpus| && e != d ==> s'.cpus[e] == s.cpus[e]
  {
    hide Step, CpuOk, StageOk, Replay, At, Run;
    RunNothing(s);
    var body, s1 := [], s;
    if !s.cpus[d].Top().pc.stage.Done? {
      var result;
      body, result := HolderFinishes(s, d);
      s1 := Run(s, body).value;
      var pc := s.cpus[d].Top().pc;
      var done := Critical(pc.op, pc.entry, pc.saved, Done(result));
      PlacedFrom(s, s1, d, done, s.cpus[d].daif, Idle, s.cpus[d].daif, false);
    }
    UnlockMeaning(s1, d);
    var pc := s1.cpus[d].Top().pc;
    s' := Placed(s1, d, Released(pc.entry, pc.saved, pc.stage.result), s1.cpus[d].daif, false);
    RunSnoc(s, body, s1, Move(d, Unlock), s');
    more := body + [Move(d, Unlock)];
  }

  lemma ReachesInv(start: Sys, moves: seq<Move>, s: Sys)
    requires Reaches(start, moves, s)
    ensures Inv(s)
  {
  }

  lemma PlacedLog(s: Sys, c: nat, pc: Pc, daif: Daif, locked: bool)
    requires Shape(s) && c < |s.cpus|
    ensures var s' := Placed(s, c, pc, daif, locked);
      s'.log == s.log && s'.cpus == s.cpus[c := At(s.cpus[c], pc, daif)]
  {
  }

  lemma AtTwice(s: Sys, c: nat, pc: Pc, daif: Daif, locked: bool, pc': Pc, daif': Daif)
    requires Shape(s) && c < |s.cpus|
    ensures var s' := Placed(s, c, pc, daif, locked);
      |s'.cpus| == |s.cpus| && s'.cpus[c].stack != []
      && s'.cpus[c := At(s'.cpus[c], pc', daif')] == s.cpus[c := At(s.cpus[c], pc', daif')]
  {
    PlacedTwice(s, c, pc, daif, locked, pc', daif', locked);
  }

  /** Moving the top context of CPU `c` on, from a state that differs from `s` there. */
  lemma PlacedFrom(s: Sys, s1: Sys, c: nat, pc: Pc, daif: Daif, pc': Pc, daif': Daif, locked: bool)
    requires Shape(s) && Shape(s1) && c < |s.cpus| && s1.cpus == s.cpus[c := At(s.cpus[c], pc, daif)]
    ensures s1.cpus[c].Top().pc == pc && s1.cpus[c].daif == daif
    ensures var s2 := Placed(s1, c, pc', daif', locked);
      && Shape(s2) && s2.locked == locked && s2.log == s1.log
      && s2.cpus == s.cpus[c := At(s.cpus[c], pc', daif')]
  {
    PlacedTwice(s, c, pc, daif, locked, pc', daif', locked);
  }

  lemma PlacedBackAt(s: Sys, c: nat)
    requires Shape(s) && c < |s.cpus|
    ensures s.cpus[c := At(s.cpus[c], s.cpus[c].Top().pc, s.cpus[c].daif)] == s.cpus
  {
    PlacedBack(s, c);
  }

  // ---------- Interrupts ----------

  /** An interrupt is taken exactly where IRQs are not masked, between any two
      steps of the context below. It starts a handler with everything masked; a
      return from it restores the interrupted context and its mask, and is
      possible exactly from a handler outside lock_irqsafe. */
  lemma InterruptReturns(s: Sys, c: nat)
    requires Inv(s) && c < |s.cpus|
    ensures Step(s, c, Interrupt).Some? <==> !s.cpus[c].daif.i
    ensures Step(s, c, Eret).Some? <==> |s.cpus[c].stack| == 2 && s.cpus[c].Top().pc.Idle?
    ensures Step(s, c, Interrupt).Some? ==>
      var s', cpu := Step(s, c, Interrupt).value, s.cpus[c];
      && s' == s.(cpus := s.cpus[c := Cpu(Daif(true, true, true, true), cpu.stack + [Context(Idle, cpu.daif)])])
      && Shape(s') && Step(s', c, Eret) == Some(s)
  {
    var cpu := s.cpus[c];
    assert CpuOk(cpu);
    if Step(s, c, Interrupt).Some? {
      var s' := Step(s, c, Interrupt).value;
      assert s'.cpus[c].stack[..|cpu.stack|] == cpu.stack;
      assert s'.cpus[c := cpu] == s.cpus;
    }
  }

  // ---------- What the FIFO log says ----------

  /** The bytes accepted by pushes, and the bytes returned by pops, in order. */
  function Accepted(log: seq<Event>): seq<Byte> {
    if log == [] then []
    else
      var e := log[|log| - 1];
      Accepted(log[..|log| - 1]) + (if e.op.Push? && e.result == Pushed(true) then [e.op.byte] else [])
  }

  function PoppedBytes(log: seq<Event>): seq<Byte> {
    if log == [] then []
    else
      var e := log[|log| - 1];
      PoppedBytes(log[..|log| - 1]) +
        (if e.op.Pop? && e.result.Popped? && e.result.byte.Some? then [e.result.byte.value] else [])
  }

  lemma {:induction false} AcceptedIsPoppedThenHeld(log: seq<Event>)
    requires Replay(log).Some?
    ensures Accepted(log) == PoppedBytes(log) + Replay(log).value
  {
    if log != [] {
      AcceptedIsPoppedThenHeld(log[..|log| - 1]);
    }
  }

  /** In every run the accepted bytes are the popped bytes followed by the bytes held. */
  lemma FifoInEveryRun(start: Sys, moves: seq<Move>, s: Sys)
    requires Reaches(start, moves, s)
    ensures Accepted(s.log) == PoppedBytes(s.log) + Contents(s.buf, s.head, s.tail)
  {
    AcceptedIsPoppedThenHeld(s.log);
  }
}

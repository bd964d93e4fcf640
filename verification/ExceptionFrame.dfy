/** Exception entry and exit: an interpreter for the instructions of the vector
    code, and the frame they save and restore. */
module ExceptionFrame {

  /** Register 31 in a load or store pair is the zero register. */
  const XZR: nat := 31

  datatype SysReg = Esr | Elr | Spsr

  /** `x` holds x0 to x30. Memory is addressed in bytes, one word at each
      address that the code uses. */
  datatype Machine<W> = Machine(x: seq<W>, sp: int, elr: W, spsr: W, esr: W, mem: int -> W) {
    ghost predicate Valid() {
      |x| == 31
    }
  }

  datatype Instr =
    | Stp(a: nat, b: nat)          // stp a, b, [sp, #-16]!
    | Ldp(a: nat, b: nat)          // ldp a, b, [sp], #16
    | Mrs(d: nat, r: SysReg)
    | Msr(r: SysReg, s: nat)

  predicate Encodable(i: Instr) {
    match i
    case Stp(a, b) => a <= XZR && b <= XZR
    case Ldp(a, b) => a <= XZR && b <= XZR && (a == b ==> a == XZR)
    case Mrs(d, _) => d < XZR
    case Msr(_, s) => s < XZR
  }

  /** The value of a register; the zero register reads as `zero`. */
  function Get<W>(m: Machine<W>, r: nat, zero: W): W
    requires m.Valid() && r <= XZR
  {
    if r == XZR then zero else m.x[r]
  }

  /** A register write; writes to the zero register are discarded. */
  function Put<W>(x: seq<W>, r: nat, v: W): seq<W>
    requires |x| == 31 && r <= XZR
  {
    if r == XZR then x else x[r := v]
  }

  function Poke<W>(mem: int -> W, at: int, v: W): int -> W {
    a => if a == at then v else mem(a)
  }

  function Exec<W>(i: Instr, m: Machine<W>, zero: W): (r: Machine<W>)
    requires m.Valid() && Encodable(i)
    ensures r.Valid()
  {
    match i
    case Stp(a, b) =>
      var sp := m.sp - 16;
      m.(sp := sp, mem := Poke(Poke(m.mem, sp, Get(m, a, zero)), sp + 8, Get(m, b, zero)))
    case Ldp(a, b) =>
      m.(sp := m.sp + 16, x := Put(Put(m.x, a, m.mem(m.sp)), b, m.mem(m.sp + 8)))
    case Mrs(d, r) =>
      m.(x := m.x[d := match r { case Esr => m.esr case Elr => m.elr case Spsr => m.spsr }])
    case Msr(r, s) =>
      match r
      case Esr => m.(esr := m.x[s])
      case Elr => m.(elr := m.x[s])
      case Spsr => m.(spsr := m.x[s])
  }

  ghost predicate AllEncodable(prog: seq<Instr>) {
    forall k :: 0 <= k < |prog| ==> Encodable(prog[k])
  }

  function ExecAll<W>(prog: seq<Instr>, m: Machine<W>, zero: W): (r: Machine<W>)
    requires m.Valid() && AllEncodable(prog)
    ensures r.Valid()
    decreases |prog|
  {
    if prog == [] then m else ExecAll(prog[1..], Exec(prog[0], m, zero), zero)
  }

  // ---------- Pushing and popping pairs ----------

  type Pair = p: (nat, nat) | p.0 <= XZR && p.1 <= XZR && (p.0 == p.1 ==> p.0 == XZR) witness (0, 1)

  function Pushes(ps: seq<Pair>): (prog: seq<Instr>)
    ensures AllEncodable(prog)
  {
    if ps == [] then [] else [Stp(ps[0].0, ps[0].1)] + Pushes(ps[1..])
  }

  function Pops(ps: seq<Pair>): (prog: seq<Instr>)
    ensures AllEncodable(prog)
  {
    if ps == [] then [] else [Ldp(ps[0].0, ps[0].1)] + Pops(ps[1..])
  }

  /** Memory at `sp` holds the pairs' register values, the first pair lowest. */
  ghost predicate Frame<W>(mem: int -> W, sp: int, x: seq<W>, ps: seq<Pair>)
    requires |x| == 31
    decreases |ps|
  {
    ps == [] ||
    ((ps[0].0 != XZR ==> mem(sp) == x[ps[0].0])
     && (ps[0].1 != XZR ==> mem(sp + 8) == x[ps[0].1])
     && Frame(mem, sp + 16, x, ps[1..]))
  }

  /** Memory from `sp` up is the same. */
  ghost predicate SameFrom<W>(m: int -> W, n: int -> W, sp: int) {
    forall a :: a >= sp ==> m(a) == n(a)
  }

  lemma {:induction false} FrameDependsFrom<W>(m: int -> W, n: int -> W, sp: int, x: seq<W>, ps: seq<Pair>)
    requires |x| == 31 && SameFrom(m, n, sp) && Frame(m, sp, x, ps)
    ensures Frame(n, sp, x, ps)
    decreases |ps|
  {
    if ps != [] {
      FrameDependsFrom(m, n, sp + 16, x, ps[1..]);
    }
  }

  function Reversed(ps: seq<Pair>): (r: seq<Pair>)
    ensures |r| == |ps|
  {
    if ps == [] then [] else Reversed(ps[1..]) + [ps[0]]
  }

  lemma {:induction false} FrameAppend<W>(mem: int -> W, sp: int, x: seq<W>, ps: seq<Pair>, p: Pair)
    requires |x| == 31 && Frame(mem, sp, x, ps)
    requires p.0 != XZR ==> mem(sp + 16 * |ps|) == x[p.0]
    requires p.1 != XZR ==> mem(sp + 16 * |ps| + 8) == x[p.1]
    ensures Frame(mem, sp, x, ps + [p])
    decreases |ps|
  {
    if ps == [] {
      assert (ps + [p])[1..] == [];
    } else {
      FrameAppend(mem, sp + 16, x, ps[1..], p);
      assert (ps + [p])[0] == ps[0] && (ps + [p])[1..] == ps[1..] + [p];
    }
  }

  /** Pushing pairs leaves the registers alone and builds their frame, the last
      pushed lowest, without touching memory from the old stack pointer up. */
  lemma {:induction false} PushesBuildFrame<W>(ps: seq<Pair>, m: Machine<W>, zero: W)
    requires m.Valid()
    ensures var r := ExecAll(Pushes(ps), m, zero);
      && r == m.(sp := m.sp - 16 * |ps|, mem := r.mem)
      && Frame(r.mem, r.sp, m.x, Reversed(ps))
      && SameFrom(r.mem, m.mem, m.sp)
    decreases |ps|
  {
    if ps != [] {
      var m1 := Exec(Pushes(ps)[0], m, zero);
      assert Pushes(ps)[1..] == Pushes(ps[1..]);
      PushesBuildFrame(ps[1..], m1, zero);
      var r := ExecAll(Pushes(ps[1..]), m1, zero);
      assert r.mem(m1.sp) == m1.mem(m1.sp) && r.mem(m1.sp + 8) == m1.mem(m1.sp + 8);
      FrameAppend(r.mem, r.sp, m.x, Reversed(ps[1..]), ps[0]);
    }
  }

  /** The registers that a list of pairs restores. */
  function Registers(ps: seq<Pair>): set<nat> {
    if ps == [] then {} else {ps[0].0, ps[0].1} + Registers(ps[1..])
  }

  /** Popping a frame restores every register it holds, and no other. */
  lemma {:induction false} PopsRestoreFrame<W>(ps: seq<Pair>, m: Machine<W>, x: seq<W>, zero: W)
    requires m.Valid() && |x| == 31 && Frame(m.mem, m.sp, x, ps)
    ensures var r := ExecAll(Pops(ps), m, zero);
      && r == m.(sp := m.sp + 16 * |ps|, x := r.x)
      && forall k :: 0 <= k < 31 ==> r.x[k] == if k in Registers(ps) then x[k] else m.x[k]
    decreases |ps|
  {
    if ps != [] {
      var m1 := Exec(Pops(ps)[0], m, zero);
      assert Pops(ps)[1..] == Pops(ps[1..]);
      PopsRestoreFrame(ps[1..], m1, x, zero);
    }
  }

  lemma {:induction false} RegistersOf(ps: seq<Pair>, j: nat)
    requires j < |ps|
    ensures ps[j].0 in Registers(ps) && ps[j].1 in Registers(ps)
  {
    if j > 0 {
      RegistersOf(ps[1..], j - 1);
    }
  }

  lemma {:induction false} NotARegister(ps: seq<Pair>, k: nat)
    requires forall j :: 0 <= j < |ps| ==> ps[j].0 != k && ps[j].1 != k
    ensures k !in Registers(ps)
  {
    if ps != [] {
      NotARegister(ps[1..], k);
    }
  }

  lemma {:induction false} ReversedAt(ps: seq<Pair>, k: nat)
    requires k < |ps|
    ensures Reversed(ps)[k] == ps[|ps| - 1 - k]
  {
    if k < |ps| - 1 {
      ReversedAt(ps[1..], k);
    }
  }

  lemma {:induction false} ExecAllConcat<W>(a: seq<Instr>, b: seq<Instr>, m: Machine<W>, zero: W)
    requires m.Valid() && AllEncodable(a) && AllEncodable(b)
    ensures AllEncodable(a + b) && ExecAll(a + b, m, zero) == ExecAll(b, ExecAll(a, m, zero), zero)
    decreases |a|
  {
    if a == [] {
      assert a + b == b;
    } else {
      assert (a + b)[0] == a[0] && (a + b)[1..] == a[1..] + b;
      ExecAllConcat(a[1..], b, Exec(a[0], m, zero), zero);
    }
  }

  // ---------- The vector code ----------

  /** save_gpr_regs_on_exc, in program order. */
  const GPR_SAVE: seq<Pair> := [
    (27, 28), (25, 26), (23, 24), (21, 22), (19, 20), (17, 18), (15, 16), (13, 14),
    (11, 12), (9, 10), (7, 8), (5, 6), (3, 4), (1, 2), (0, XZR)]

  /** restore_gpr_regs_on_exc, in program order. */
  const GPR_RESTORE: seq<Pair> := [
    (0, XZR), (1, 2), (3, 4), (5, 6), (7, 8), (9, 10), (11, 12), (13, 14),
    (15, 16), (17, 18), (19, 20), (21, 22), (23, 24), (25, 26), (27, 28)]

  /** restore_gpr_regs_on_swi: x0 is not restored. */
  const GPR_RESTORE_SWI: seq<Pair> := [
    (XZR, XZR), (1, 2), (3, 4), (5, 6), (7, 8), (9, 10), (11, 12), (13, 14),
    (15, 16), (17, 18), (19, 20), (21, 22), (23, 24), (25, 26), (27, 28)]

  /** save_regs after the general registers: ESR, ELR and SPSR. */
  const SAVE_SYSTEM: seq<Instr> := [Mrs(1, Esr), Mrs(2, Elr), Mrs(3, Spsr), Stp(1, XZR), Stp(2, 3)]

  /** The exit code before the general registers. */
  const RESTORE_SYSTEM: seq<Instr> := [Ldp(3, 2), Ldp(XZR, XZR), Msr(Spsr, 2), Msr(Elr, 3)]

  lemma RestoreReversesSave()
    ensures Reversed(GPR_SAVE) == GPR_RESTORE
  {
    forall k | 0 <= k < 15 ensures Reversed(GPR_SAVE)[k] == GPR_RESTORE[k] {
      ReversedAt(GPR_SAVE, k);
    }
  }

  lemma RestoredOnReturn()
    ensures forall k :: 0 <= k < 29 ==> k in Registers(GPR_RESTORE)
  {
    hide Registers;
    forall k | 0 <= k < 29 ensures k in Registers(GPR_RESTORE) {
      RegistersOf(GPR_RESTORE, (k + 1) / 2);
    }
  }

  lemma RestoredOnSyscall()
    ensures forall k :: 1 <= k < 29 ==> k in Registers(GPR_RESTORE_SWI)
    ensures 0 !in Registers(GPR_RESTORE_SWI)
  {
    hide Registers;
    forall k | 1 <= k < 29 ensures k in Registers(GPR_RESTORE_SWI) {
      RegistersOf(GPR_RESTORE_SWI, (k + 1) / 2);
    }
    NotARegister(GPR_RESTORE_SWI, 0);
  }

  // ---------- Entry, handler, exit ----------

  /** From the vector entry to the handler: push x29 and x30, `bl save_regs`
      (which puts `ra` in x30), save everything, and leave `frame` in x0. */
  function Enter<W>(m: Machine<W>, ra: W, frame: W, zero: W): (r: Machine<W>)
    requires m.Valid()
    ensures r.Valid()
  {
    var m1 := Exec(Stp(29, 30), m, zero);
    var m2 := m1.(x := m1.x[30 := ra]);
    var m3 := ExecAll(SAVE_SYSTEM, ExecAll(Pushes(GPR_SAVE), m2, zero), zero);
    m3.(x := m3.x[0 := frame])
  }

  /** From the handler's return to eret, with the general registers in `ps`. */
  function Leave<W>(m: Machine<W>, ps: seq<Pair>, zero: W): (r: Machine<W>)
    requires m.Valid()
    ensures r.Valid()
  {
    Exec(Ldp(29, 30), ExecAll(Pops(ps), ExecAll(RESTORE_SYSTEM, m, zero), zero), zero)
  }

  /** A handler may change every register, ELR_EL1 and SPSR_EL1, and memory
      below its stack pointer; it returns with the stack pointer it was given. */
  ghost predicate HandlerRan<W>(before: Machine<W>, after: Machine<W>) {
    after.Valid() && after.sp == before.sp && SameFrom(after.mem, before.mem, before.sp)
  }

  const FRAME_SIZE: nat := 288

  /** The whole frame below the interrupted stack pointer. */
  ghost predicate Saved<W>(m: Machine<W>, mem: int -> W)
    requires m.Valid()
  {
    var sp := m.sp - FRAME_SIZE;
    && mem(sp) == m.elr && mem(sp + 8) == m.spsr && mem(sp + 16) == m.esr
    && Frame(mem, sp + 32, m.x, GPR_RESTORE)
    && mem(m.sp - 16) == m.x[29] && mem(m.sp - 8) == m.x[30]
  }

  lemma EnterSaves<W>(m: Machine<W>, ra: W, frame: W, zero: W)
    requires m.Valid()
    ensures var r := Enter(m, ra, frame, zero);
      && r.sp == m.sp - FRAME_SIZE && r.elr == m.elr && r.spsr == m.spsr
      && Saved(m, r.mem) && SameFrom(r.mem, m.mem, m.sp)
  {
    hide ExecAll, Frame, Registers;
    var m1 := Exec(Stp(29, 30), m, zero);
    var m2 := m1.(x := m1.x[30 := ra]);
    PushesBuildFrame(GPR_SAVE, m2, zero);
    RestoreReversesSave();
    var m3 := ExecAll(Pushes(GPR_SAVE), m2, zero);
    SaveSystem(m3, zero);
    var r := Enter(m, ra, frame, zero);
    FrameDependsFrom(m3.mem, r.mem, m3.sp, m2.x, GPR_RESTORE);
    NotARegister(GPR_RESTORE, 30);
    FrameOfOthers(r.mem, m3.sp, m2.x, m.x, GPR_RESTORE);
  }

  /** Frames of registers other than x30 do not depend on x30. */
  lemma {:induction false} FrameOfOthers<W>(mem: int -> W, sp: int, x: seq<W>, y: seq<W>, ps: seq<Pair>)
    requires |x| == 31 && |y| == 31 && Frame(mem, sp, x, ps)
    requires forall k :: 0 <= k < 31 && k in Registers(ps) ==> x[k] == y[k]
    ensures Frame(mem, sp, y, ps)
    decreases |ps|
  {
    if ps != [] {
      FrameOfOthers(mem, sp + 16, x, y, ps[1..]);
    }
  }

  lemma ExecAllCons<W>(i: Instr, prog: seq<Instr>, m: Machine<W>, zero: W)
    requires m.Valid() && Encodable(i) && AllEncodable(prog)
    ensures AllEncodable([i] + prog) && ExecAll([i] + prog, m, zero) == ExecAll(prog, Exec(i, m, zero), zero)
  {
    assert ([i] + prog)[0] == i && ([i] + prog)[1..] == prog;
  }

  lemma FourSteps<W>(a: Instr, b: Instr, c: Instr, d: Instr, m: Machine<W>, zero: W)
    requires m.Valid() && Encodable(a) && Encodable(b) && Encodable(c) && Encodable(d)
    ensures ExecAll([a, b, c, d], m, zero) == Exec(d, Exec(c, Exec(b, Exec(a, m, zero), zero), zero), zero)
  {
    hide Exec, Encodable;
    assert [a, b, c, d] == [a] + ([b] + ([c] + ([d] + [])));
    var m1 := Exec(a, m, zero);
    var m2 := Exec(b, m1, zero);
    var m3 := Exec(c, m2, zero);
    ExecAllCons(d, [], m3, zero);
    ExecAllCons(c, [d] + [], m2, zero);
    ExecAllCons(b, [c] + ([d] + []), m1, zero);
    ExecAllCons(a, [b] + ([c] + ([d] + [])), m, zero);
  }

  lemma SaveSystem<W>(m: Machine<W>, zero: W)
    requires m.Valid()
    ensures var r := ExecAll(SAVE_SYSTEM, m, zero);
      && r.sp == m.sp - 32 && r.elr == m.elr && r.spsr == m.spsr
      && r.mem(r.sp) == m.elr && r.mem(r.sp + 8) == m.spsr && r.mem(r.sp + 16) == m.esr
      && SameFrom(r.mem, m.mem, m.sp)
  {
    var rest := [Mrs(2, Elr), Mrs(3, Spsr), Stp(1, XZR), Stp(2, 3)];
    assert SAVE_SYSTEM == [Mrs(1, Esr)] + rest;
    hide ExecAll;
    ExecAllCons(Mrs(1, Esr), rest, m, zero);
    FourSteps(Mrs(2, Elr), Mrs(3, Spsr), Stp(1, XZR), Stp(2, 3), Exec(Mrs(1, Esr), m, zero), zero);
  }

  lemma RestoreSystem<W>(m: Machine<W>, zero: W)
    requires m.Valid()
    ensures var r := ExecAll(RESTORE_SYSTEM, m, zero);
      && r == m.(sp := m.sp + 32, elr := m.mem(m.sp), spsr := m.mem(m.sp + 8), x := r.x)
      && r.x == m.x[3 := m.mem(m.sp)][2 := m.mem(m.sp + 8)]
  {
    hide ExecAll;
    FourSteps(Ldp(3, 2), Ldp(XZR, XZR), Msr(Spsr, 2), Msr(Elr, 3), m, zero);
  }

  /** What the exit code leaves in register `k` when the restore macro does not load it. */
  function Left<W>(m: Machine<W>, h: Machine<W>, k: nat): W
    requires m.Valid() && h.Valid() && k < 31
  {
    if k == 2 then m.spsr else if k == 3 then m.elr else h.x[k]
  }

  /** What the exit code leaves, for the pairs of either restore macro. */
  lemma LeaveRestores<W>(m: Machine<W>, h: Machine<W>, ps: seq<Pair>, zero: W)
    requires m.Valid() && h.Valid() && h.sp == m.sp - FRAME_SIZE && Saved(m, h.mem)
    requires |ps| == 15 && Frame(h.mem, h.sp + 32, m.x, ps)
    ensures var r := Leave(h, ps, zero);
      && r.sp == m.sp && r.elr == m.elr && r.spsr == m.spsr && r.mem == h.mem
      && r.x[29] == m.x[29] && r.x[30] == m.x[30]
      && forall k :: 0 <= k < 29 ==> r.x[k] == (if k in Registers(ps) then m.x[k] else Left(m, h, k))
  {
    hide ExecAll, Frame, Registers;
    RestoreSystem(h, zero);
    var m1 := ExecAll(RESTORE_SYSTEM, h, zero);
    PopsRestoreFrame(ps, m1, m.x, zero);
    var m2 := ExecAll(Pops(ps), m1, zero);
    assert m2.sp == m.sp - 16;
  }

  /** IRQ path: whatever a well-behaved handler did, every general register, the
      stack pointer, ELR_EL1 and SPSR_EL1 are what they were at the interrupt,
      and so is memory from the interrupted stack pointer up. */
  lemma IrqReturnsIdentity<W>(m: Machine<W>, ra: W, frame: W, h: Machine<W>, zero: W)
    requires m.Valid() && HandlerRan(Enter(m, ra, frame, zero), h)
    ensures var r := Leave(h, GPR_RESTORE, zero);
      && r.x == m.x && r.sp == m.sp && r.elr == m.elr && r.spsr == m.spsr
      && SameFrom(r.mem, m.mem, m.sp)
  {
    HandlerKeepsFrame(m, ra, frame, h, zero);
    LeaveRestores(m, h, GPR_RESTORE, zero);
    RestoredOnReturn();
    var r := Leave(h, GPR_RESTORE, zero);
    assert forall k :: 0 <= k < 31 ==> r.x[k] == m.x[k];
  }

  /** Syscall path: the same, except that x0 is what the handler left in it. */
  lemma SyscallReturnsResult<W>(m: Machine<W>, ra: W, frame: W, h: Machine<W>, zero: W)
    requires m.Valid() && HandlerRan(Enter(m, ra, frame, zero), h)
    ensures var r := Leave(h, GPR_RESTORE_SWI, zero);
      && r.x == m.x[0 := h.x[0]] && r.sp == m.sp && r.elr == m.elr && r.spsr == m.spsr
      && SameFrom(r.mem, m.mem, m.sp)
  {
    HandlerKeepsFrame(m, ra, frame, h, zero);
    SwiFrame(h.mem, h.sp + 32, m.x);
    LeaveRestores(m, h, GPR_RESTORE_SWI, zero);
    RestoredOnSyscall();
    var r, expected := Leave(h, GPR_RESTORE_SWI, zero), m.x[0 := h.x[0]];
    assert forall k :: 0 <= k < 31 ==> r.x[k] == expected[k];
  }

  lemma HandlerKeepsFrame<W>(m: Machine<W>, ra: W, frame: W, h: Machine<W>, zero: W)
    requires m.Valid() && HandlerRan(Enter(m, ra, frame, zero), h)
    ensures h.sp == m.sp - FRAME_SIZE && Saved(m, h.mem) && SameFrom(h.mem, m.mem, m.sp)
  {
    EnterSaves(m, ra, frame, zero);
    FrameDependsFrom(Enter(m, ra, frame, zero).mem, h.mem, h.sp + 32, m.x, GPR_RESTORE);
  }

  lemma SwiFrame<W>(mem: int -> W, sp: int, x: seq<W>)
    requires |x| == 31 && Frame(mem, sp, x, GPR_RESTORE)
    ensures Frame(mem, sp, x, GPR_RESTORE_SWI)
  {
    assert GPR_RESTORE_SWI[1..] == GPR_RESTORE[1..];
  }

  lemma {:induction false} FrameAt<W>(mem: int -> W, sp: int, x: seq<W>, ps: seq<Pair>, j: nat)
    requires |x| == 31 && Frame(mem, sp, x, ps) && j < |ps|
    ensures ps[j].0 != XZR ==> mem(sp + 16 * j) == x[ps[j].0]
    ensures ps[j].1 != XZR ==> mem(sp + 16 * j + 8) == x[ps[j].1]
    decreases |ps|
  {
    if j > 0 {
      FrameAt(mem, sp + 16, x, ps[1..], j - 1);
    }
  }

  /** The system call number is read from 104 bytes into the frame: that is the
      caller's x8. */
  lemma SyscallNumberIsX8<W>(m: Machine<W>, ra: W, frame: W, zero: W)
    requires m.Valid()
    ensures var r := Enter(m, ra, frame, zero);
      r.mem(r.sp + 104) == m.x[8]
  {
    EnterSaves(m, ra, frame, zero);
    var r := Enter(m, ra, frame, zero);
    FrameAt(r.mem, r.sp + 32, m.x, GPR_RESTORE, 4);
  }

  lemma PairOf(k: nat)
    requires k < 15
    ensures GPR_RESTORE[k].0 == (if k == 0 then 0 else 2 * k - 1) && GPR_RESTORE[k].1 == (if k == 0 then XZR else 2 * k)
  {
  }

  /** The frame, from the stack pointer that the handler is given: ELR, SPSR, ESR,
      then x0 at 32, x1 to x28 in order from 48, and x29 and x30 at 272; 288 bytes
      in all below the interrupted stack pointer. */
  lemma FrameLayout<W>(m: Machine<W>, ra: W, frame: W, zero: W, k: nat)
    requires m.Valid()
    ensures var r := Enter(m, ra, frame, zero);
      && r.sp == m.sp - 288
      && r.mem(r.sp) == m.elr && r.mem(r.sp + 8) == m.spsr && r.mem(r.sp + 16) == m.esr
      && r.mem(r.sp + 32) == m.x[0]
      && (1 <= k <= 28 ==> r.mem(r.sp + 40 + 8 * k) == m.x[k])
      && r.mem(r.sp + 272) == m.x[29] && r.mem(r.sp + 280) == m.x[30]
  {
    hide Enter, Frame;
    EnterSaves(m, ra, frame, zero);
    var r := Enter(m, ra, frame, zero);
    FrameAt(r.mem, r.sp + 32, m.x, GPR_RESTORE, 0);
    if 1 <= k <= 28 {
      FrameAt(r.mem, r.sp + 32, m.x, GPR_RESTORE, (k + 1) / 2);
      PairOf((k + 1) / 2);
    }
  }
}

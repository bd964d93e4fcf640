/** The setup functions of the drivers over the parsed tables, run in the order
    of the initialisation trace. */
module Setup {
  import opened Bytes
  import opened DeviceTable
  import opened Fdt
  import opened Lookup
  import opened Readers
  import opened Cells
  import opened Probe
  import opened Gic
  import opened GicDriver

  /** The GIC's state as the kernel sees it, its registers, and the UART's base and clock. */
  datatype Soc = Soc(gic: Gicv3, mmio: Mmio, uartBase: nat, uartClock: nat)

  function AddrWord(a: nat): bv64
    requires a < U64_LIMIT
  {
    a as bv64
  }

  function IdWord(id: nat): bv32
    requires id < U32_LIMIT
  {
    id as bv32
  }

  ghost predicate Ready(t: Tables<nat>, i: nat) {
    Linked(t) && i < t.deviceCount
  }

  /** The base address in device `i`'s "reg": entry 0, made of `cells` cells. */
  ghost function RegBase(t: Tables<nat>, blob: seq<Byte>, i: nat, offset: nat, cells: nat): Outcome<nat>
    requires Ready(t, i)
  {
    match Find<nat>(t.devices[i], "reg")
    case None => Ok(0)
    case Some(p) =>
      match p.value
      case None => Fault
      case Some(at) => DecodeCells(blob, at + 4 * offset, cells)
  }

  // ---------- The GIC ----------

  /** The distributor and redistributor addresses: entries 0 and 1 of "reg", or
      None when no "reg" is found. */
  ghost function GicBases(t: Tables<nat>, blob: seq<Byte>, i: nat): Outcome<Option<Gicv3>>
    requires Ready(t, i)
  {
    var cells :- ParentCells(t, blob, t.devices[i].parent);
    if Find<nat>(t.devices[i], "reg").None? then Ok(None)
    else
      var dist :- RegBase(t, blob, i, 0, cells.0);
      if cells.0 + cells.1 >= U32_LIMIT then Panic
      else
        var redist :- RegBase(t, blob, i, cells.0 + cells.1, cells.0);
        Ok(Some(Gicv3(AddrWord(dist), AddrWord(redist))))
  }

  ghost function SetupGic(t: Tables<nat>, blob: seq<Byte>, hw: Gicv3, i: nat, s: Soc): Outcome<Soc>
    requires Ready(t, i)
  {
    var bases :- GicBases(t, blob, i);
    match bases
    case None => Ok(s)
    case Some(g) => Ok(s.(gic := g, mmio := InitWrites(hw, g, s.mmio)))
  }

  // ---------- Interrupt specifiers ----------

  const MAX_INTERRUPT_CELLS: nat := 4

  /** `interrupt_info` after reading `n` cells at `at`; the other entries stay 0. */
  function InterruptInfo(blob: seq<Byte>, at: nat, n: nat): (r: Outcome<seq<nat>>)
    ensures r.Ok? ==> |r.value| == MAX_INTERRUPT_CELLS && forall k :: 0 <= k < 4 ==> r.value[k] < U32_LIMIT
  {
    if n > 0 && at + 4 * n > |blob| then Fault
    else Ok(seq(MAX_INTERRUPT_CELLS, k requires 0 <= k < 4 =>
      if k < n && at + 4 * k + 4 <= |blob| then ReadCell(blob, at + 4 * k) else 0))
  }

  /** The number of cells of a specifier for interrupt controller `d`. */
  ghost function InterruptCells(t: Tables<nat>, blob: seq<Byte>, d: nat): Outcome<nat>
    requires t.Valid() && d < MAX_DEVICES && t.devices[d].propCount <= MAX_PROPS
  {
    match Find<nat>(t.devices[d], "#interrupt-cells")
    case None => Ok(3)
    case Some(p) => ReadValue(blob, p)
  }

  /** The first or second specifier of device `i`'s "interrupts", or None when
      there is no such property or no interrupt parent. */
  ghost function Specifier(t: Tables<nat>, blob: seq<Byte>, i: nat, second: bool): (r: Outcome<Option<seq<nat>>>)
    requires Ready(t, i)
    ensures r.Ok? && r.value.Some? ==>
      |r.value.value| == MAX_INTERRUPT_CELLS && forall k :: 0 <= k < 4 ==> r.value.value[k] < U32_LIMIT
  {
    match Find<nat>(t.devices[i], "interrupts")
    case None => Ok(None)
    case Some(p) =>
      var intc :- InterruptParent(t, blob, t.devices[i].parent);
      match intc
      case None => Ok(None)
      case Some(d) =>
        if d >= t.deviceCount then Fault
        else
          var cells :- InterruptCells(t, blob, d);
          match p.value
          case None => Fault
          case Some(at) =>
            var info :- InterruptInfo(blob, if second then at + 4 * cells else at, if cells < 4 then cells else 4);
            Ok(Some(info))
  }

  /** The interrupt id that a setup configures, if it does, and whether as edge-triggered:
      SPI for the UART, PPI for the timer. Ids that overflow 32 bits, and PPI
      ids from 32 up, stop the kernel. */
  ghost function Target(t: Tables<nat>, blob: seq<Byte>, c: SetupCall): Outcome<Option<(bv32, bool)>>
    requires Ready(t, c.device)
  {
    match c.driver
    case GicV3 => Ok(None)
    case Pl011 =>
      var info :- Specifier(t, blob, c.device, false);
      (match info
       case None => Ok(None)
       case Some(v) =>
         if v[0] != 0 then Ok(None)
         else if 32 + v[1] >= U32_LIMIT then Panic
         else Ok(Some((IdWord(32 + v[1]), v[2] % 4 != 0))))
    case ArchTimer =>
      var info :- Specifier(t, blob, c.device, true);
      (match info
       case None => Ok(None)
       case Some(v) =>
         if v[0] != 1 then Ok(None)
         else if 16 + v[1] >= U32_LIMIT || IdWord(16 + v[1]) >= FIRST_SPI then Panic
         else Ok(Some((IdWord(16 + v[1]), v[2] % 4 != 0))))
  }

  // ---------- The UART ----------

  /** The clock frequency through the "clocks" phandle, 0 when not found. */
  ghost function ClockOf(t: Tables<nat>, blob: seq<Byte>, i: nat): Outcome<nat>
    requires Ready(t, i)
  {
    match Find<nat>(t.devices[i], "clocks")
    case None => Ok(0)
    case Some(p) =>
      var phandle :- ReadValue(blob, p);
      match DeviceByPhandle(t, phandle)
      case None => Ok(0)
      case Some(d) =>
        if d >= t.deviceCount then Fault
        else
          match Find<nat>(t.devices[d], "clock-frequency")
          case None => Ok(0)
          case Some(q) => ReadValue(blob, q)
  }

  ghost function SetupUart(t: Tables<nat>, blob: seq<Byte>, hw: Gicv3, i: nat, s: Soc): Outcome<Soc>
    requires Ready(t, i)
  {
    var cells :- ParentCells(t, blob, t.devices[i].parent);
    var base :- RegBase(t, blob, i, 0, cells.0);
    var target :- Target(t, blob, SetupCall(i, Pl011));
    var mmio := if target.None? then s.mmio else ConfigureSpi(hw, s.gic, s.mmio, target.value.0, target.value.1);
    var clock :- ClockOf(t, blob, i);
    Ok(Soc(s.gic, mmio, base, clock))
  }

  // ---------- The timer ----------

  ghost function SetupTimer(t: Tables<nat>, blob: seq<Byte>, hw: Gicv3, i: nat, s: Soc): Outcome<Soc>
    requires Ready(t, i)
  {
    var target :- Target(t, blob, SetupCall(i, ArchTimer));
    Ok(if target.None? then s else s.(mmio := ConfigurePpi(hw, s.gic, s.mmio, target.value.0, target.value.1)))
  }

  // ---------- All of them ----------

  ghost function RunSetup(t: Tables<nat>, blob: seq<Byte>, hw: Gicv3, c: SetupCall, s: Soc): Outcome<Soc>
    requires Ready(t, c.device)
  {
    match c.driver
    case GicV3 => SetupGic(t, blob, hw, c.device, s)
    case Pl011 => SetupUart(t, blob, hw, c.device, s)
    case ArchTimer => SetupTimer(t, blob, hw, c.device, s)
  }

  ghost predicate AllReady(t: Tables<nat>, calls: seq<SetupCall>) {
    Linked(t) && forall k :: 0 <= k < |calls| ==> calls[k].device < t.deviceCount
  }

  ghost function RunSetups(t: Tables<nat>, blob: seq<Byte>, hw: Gicv3, calls: seq<SetupCall>, s: Soc): Outcome<Soc>
    requires AllReady(t, calls)
  {
    if calls == [] then Ok(s)
    else
      var s' :- RunSetups(t, blob, hw, calls[..|calls| - 1], s);
      RunSetup(t, blob, hw, calls[|calls| - 1], s')
  }

  // ---------- The setup functions themselves ----------

  /** The drivers' static state. */
  class Board {
    const driver: Driver
    var uartBase: nat
    var uartClock: nat

    constructor (driver: Driver)
      ensures this.driver == driver && uartBase == 0 && uartClock == 0
    {
      this.driver, uartBase, uartClock := driver, 0, 0;
    }

    ghost function Now(): Soc
      reads this, driver
    {
      Soc(driver.bases, driver.mmio, uartBase, uartClock)
    }

    ghost function Hw(): Gicv3 {
      driver.hw
    }

    method ReadReg(dt: DeviceTree, blob: seq<Byte>, i: nat, offset: nat, cells: nat) returns (r: Outcome<nat>)
      requires dt.Valid() && Ready(dt.Snapshot(), i)
      ensures r == RegBase(dt.Snapshot(), blob, i, offset, cells)
    {
      var reg := FindProperty<nat>(dt.devices[i], "reg");
      if reg.None? {
        return Ok(0);
      }
      if reg.value.value.None? {
        return Fault;
      }
      r := ReadCells(blob, reg.value.value.value + 4 * offset, cells);
    }

    /** The decoding part of gicv3::setup. */
    method ReadGicBases(dt: DeviceTree, blob: seq<Byte>, i: nat) returns (r: Outcome<Option<Gicv3>>)
      requires dt.Valid() && Ready(dt.Snapshot(), i)
      ensures r == GicBases(dt.Snapshot(), blob, i)
    {
      hide ParentCells, AddrWord;
      var cells := GetParentCells(dt, blob, dt.devices[i].parent);
      if cells.IsFailure() {
        return cells.PropagateFailure();
      }
      var (addrCells, sizeCells) := cells.value;
      var reg := FindProperty<nat>(dt.devices[i], "reg");
      if reg.None? {
        return Ok(None);
      }
      var dist := ReadReg(dt, blob, i, 0, addrCells);
      if dist.IsFailure() {
        return dist.PropagateFailure();
      }
      if addrCells + sizeCells >= U32_LIMIT {
        return Panic;
      }
      var redist := ReadReg(dt, blob, i, addrCells + sizeCells, addrCells);
      if redist.IsFailure() {
        return redist.PropagateFailure();
      }
      r := Ok(Some(Gicv3(AddrWord(dist.value), AddrWord(redist.value))));
    }

    /** gicv3::setup. */
    method SetupGicDevice(dt: DeviceTree, blob: seq<Byte>, i: nat) returns (r: Outcome<()>)
      requires dt.Valid() && Ready(dt.Snapshot(), i)
      modifies driver
      ensures match SetupGic(dt.Snapshot(), blob, Hw(), i, old(Now()))
        case Ok(s) => r.Ok? && Now() == s
        case Panic => r.Panic?
        case Fault => r.Fault?
    {
      hide InitWrites, GicBases;
      var bases := ReadGicBases(dt, blob, i);
      if bases.IsFailure() {
        return bases.PropagateFailure();
      }
      if bases.value.Some? {
        driver.InitGic(bases.value.value.dist, bases.value.value.redist);
      }
      r := Ok(());
    }

    /** The specifier-reading part shared by pl011::setup and arch_timer::setup. */
    method ReadSpecifier(dt: DeviceTree, blob: seq<Byte>, i: nat, second: bool) returns (r: Outcome<Option<seq<nat>>>)
      requires dt.Valid() && Ready(dt.Snapshot(), i)
      ensures r == Specifier(dt.Snapshot(), blob, i, second)
    {
      hide InterruptParent, InterruptInfo, FirstSlot;
      var prop := FindProperty<nat>(dt.devices[i], "interrupts");
      if prop.None? {
        return Ok(None);
      }
      var intc := FindInterruptParent(dt, blob, dt.devices[i].parent);
      if intc.IsFailure() {
        return intc.PropagateFailure();
      }
      if intc.value.None? {
        return Ok(None);
      }
      var d := intc.value.value;
      if d >= dt.deviceCount {
        return Fault;
      }
      var cells: nat := 3;
      var cellsProp := FindProperty<nat>(dt.devices[d], "#interrupt-cells");
      if cellsProp.Some? {
        var w := ReadValue(blob, cellsProp.value);
        if w.IsFailure() {
          return w.PropagateFailure();
        }
        cells := w.value;
      }
      if prop.value.value.None? {
        return Fault;
      }
      var at := prop.value.value.value;
      if second {
        at := at + 4 * cells;
      }
      var info := ReadInfo(blob, at, if cells < 4 then cells else 4);
      r := if info.IsFailure() then info.PropagateFailure() else Ok(Some(info.value));
    }

    /** The loop that fills `interrupt_info`. */
    method ReadInfo(blob: seq<Byte>, at: nat, n: nat) returns (r: Outcome<seq<nat>>)
      requires n <= MAX_INTERRUPT_CELLS
      ensures r == InterruptInfo(blob, at, n)
    {
      var info: seq<nat> := [0, 0, 0, 0];
      var k := 0;
      while k < n
        invariant k <= n && |info| == 4
        invariant k > 0 ==> at + 4 * k <= |blob|
        invariant forall j :: 0 <= j < k ==> info[j] == ReadCell(blob, at + 4 * j)
        invariant forall j :: k <= j < 4 ==> info[j] == 0
      {
        if at + 4 * k + 4 > |blob| {
          return Fault;
        }
        info := info[k := ReadCell(blob, at + 4 * k)];
        k := k + 1;
      }
      assert info == InterruptInfo(blob, at, n).value;
      r := Ok(info);
    }

    /** Configures one SPI, in the order pl011::setup makes the calls. */
    method ConfigureSpiCalls(id: bv32, edge: bool)
      modifies driver
      ensures Now() ==
        old(Now()).(mmio := ConfigureSpi(Hw(), old(driver.bases), old(driver.mmio), id, edge))
    {
      hide Store, WriteFor, Route;
      if edge {
        driver.SetTriggerEdge(driver.bases.dist, false, id);
      } else {
        driver.SetTriggerLevel(driver.bases.dist, false, id);
      }
      driver.SetPriority(driver.bases.dist, false, id, 0);
      driver.SetSpiGroup(id);
      driver.SetSpiRouting(id);
      driver.EnableSpi(id);
    }

    /** Configures one PPI, in the order arch_timer::setup makes the calls. */
    method ConfigurePpiCalls(id: bv32, edge: bool) returns (ok: bool)
      modifies driver
      ensures ok <==> id < FIRST_SPI
      ensures ok ==>
        Now() == old(Now()).(mmio := ConfigurePpi(Hw(), old(driver.bases), old(driver.mmio), id, edge))
    {
      hide Store, WriteFor;
      if edge {
        driver.SetTriggerEdge(driver.bases.Sgi(), true, id);
      } else {
        driver.SetTriggerLevel(driver.bases.Sgi(), true, id);
      }
      driver.SetPriority(driver.bases.Sgi(), true, id, 0);
      ok := driver.SetPpiGroup(id);
      if ok {
        ok := driver.EnablePpi(id);
      }
    }

    /** pl011::setup up to the UART's own registers. */
    method SetupUartDevice(dt: DeviceTree, blob: seq<Byte>, i: nat) returns (r: Outcome<()>)
      requires dt.Valid() && Ready(dt.Snapshot(), i)
      modifies this, driver
      ensures match SetupUart(dt.Snapshot(), blob, Hw(), i, old(Now()))
        case Ok(s) => r.Ok? && Now() == s
        case Panic => r.Panic?
        case Fault => r.Fault?
    {
      hide ConfigureSpi, ParentCells, Specifier, ClockOf, RegBase, AddrWord, IdWord;
      var cells := GetParentCells(dt, blob, dt.devices[i].parent);
      if cells.IsFailure() {
        return cells.PropagateFailure();
      }
      var base := ReadReg(dt, blob, i, 0, cells.value.0);
      if base.IsFailure() {
        return base.PropagateFailure();
      }
      var info := ReadSpecifier(dt, blob, i, false);
      if info.IsFailure() {
        return info.PropagateFailure();
      }
      if info.value.Some? && info.value.value[0] == 0 {
        var number := info.value.value[1];
        if 32 + number >= U32_LIMIT {
          return Panic;
        }
        ConfigureSpiCalls(IdWord(32 + number), info.value.value[2] % 4 != 0);
      }
      var clock := ReadClock(dt, blob, i);
      if clock.IsFailure() {
        return clock.PropagateFailure();
      }
      uartBase, uartClock := base.value, clock.value;
      r := Ok(());
    }

    method ReadClock(dt: DeviceTree, blob: seq<Byte>, i: nat) returns (r: Outcome<nat>)
      requires dt.Valid() && Ready(dt.Snapshot(), i)
      ensures r == ClockOf(dt.Snapshot(), blob, i)
    {
      var clocks := FindProperty<nat>(dt.devices[i], "clocks");
      if clocks.None? {
        return Ok(0);
      }
      var phandle := ReadValue(blob, clocks.value);
      if phandle.IsFailure() {
        return phandle;
      }
      var d := FindDeviceByPhandle(dt, phandle.value);
      if d.None? {
        return Ok(0);
      }
      if d.value >= dt.deviceCount {
        return Fault;
      }
      var freq := FindProperty<nat>(dt.devices[d.value], "clock-frequency");
      r := if freq.None? then Ok(0) else ReadValue(blob, freq.value);
    }

    /** arch_timer::setup. */
    method SetupTimerDevice(dt: DeviceTree, blob: seq<Byte>, i: nat) returns (r: Outcome<()>)
      requires dt.Valid() && Ready(dt.Snapshot(), i)
      modifies driver
      ensures match SetupTimer(dt.Snapshot(), blob, Hw(), i, old(Now()))
        case Ok(s) => r.Ok? && Now() == s
        case Panic => r.Panic?
        case Fault => r.Fault?
    {
      hide ConfigurePpi, Specifier, IdWord;
      var info := ReadSpecifier(dt, blob, i, true);
      if info.IsFailure() {
        return info.PropagateFailure();
      }
      if info.value.Some? && info.value.value[0] == 1 {
        var number := info.value.value[1];
        if 16 + number >= U32_LIMIT {
          return Panic;
        }
        var ok := ConfigurePpiCalls(IdWord(16 + number), info.value.value[2] % 4 != 0);
        if !ok {
          return Panic;
        }
      }
      r := Ok(());
    }

    method SetupDevice(dt: DeviceTree, blob: seq<Byte>, c: SetupCall) returns (r: Outcome<()>)
      requires dt.Valid() && Ready(dt.Snapshot(), c.device)
      modifies this, driver
      ensures match RunSetup(dt.Snapshot(), blob, Hw(), c, old(Now()))
        case Ok(s) => r.Ok? && Now() == s
        case Panic => r.Panic?
        case Fault => r.Fault?
    {
      hide SetupGic, SetupUart, SetupTimer;
      match c.driver {
        case GicV3 => r := SetupGicDevice(dt, blob, c.device);
        case Pl011 => r := SetupUartDevice(dt, blob, c.device);
        case ArchTimer => r := SetupTimerDevice(dt, blob, c.device);
      }
    }

    /** One pass of init_devices over the table. */
    method InitPass(dt: DeviceTree, blob: seq<Byte>, gic: bool) returns (r: Outcome<()>)
      requires dt.Valid() && Linked(dt.Snapshot())
      modifies this, driver
      ensures AllReady(dt.Snapshot(), Pass(dt.Snapshot(), blob, gic, dt.deviceCount))
      ensures match RunSetups(dt.Snapshot(), blob, Hw(), Pass(dt.Snapshot(), blob, gic, dt.deviceCount), old(Now()))
        case Ok(s) => r.Ok? && Now() == s
        case Panic => r.Panic?
        case Fault => r.Fault?
    {
      hide RunSetup, RunSetups, Selected, Linked;
      ghost var t := dt.Snapshot();
      ghost var start := Now();
      PassReady(t, blob, gic, 0);
      RunNone(t, blob, Hw(), start);
      var i := 0;
      while i < dt.deviceCount
        invariant i <= dt.deviceCount && dt.Valid() && dt.Snapshot() == t
        invariant AllReady(t, Pass(t, blob, gic, i))
        invariant RunSetups(t, blob, Hw(), Pass(t, blob, gic, i), start) == Ok(Now())
      {
        var kind := ProbeDevice(dt, blob, i, gic);
        PassReady(t, blob, gic, i + 1);
        assert kind.None? ==> Pass(t, blob, gic, i + 1) == Pass(t, blob, gic, i);
        if kind.Some? {
          RunSetupsAppend(t, blob, Hw(), Pass(t, blob, gic, i), SetupCall(i, kind.value), start);
          r := SetupDevice(dt, blob, SetupCall(i, kind.value));
          if r.IsFailure() {
            PassReady(t, blob, gic, dt.deviceCount);
            RunSetupsStops(t, blob, Hw(), gic, i + 1, dt.deviceCount, start);
            return;
          }
        }
        i := i + 1;
      }
      r := Ok(());
    }

    /** init_devices: the interrupt controllers first, then everything else. */
    method InitDevices(dt: DeviceTree, blob: seq<Byte>) returns (r: Outcome<()>)
      requires dt.Valid() && Linked(dt.Snapshot())
      modifies this, driver
      ensures AllReady(dt.Snapshot(), Trace(dt.Snapshot(), blob))
      ensures match RunSetups(dt.Snapshot(), blob, Hw(), Trace(dt.Snapshot(), blob), old(Now()))
        case Ok(s) => r.Ok? && Now() == s
        case Panic => r.Panic?
        case Fault => r.Fault?
    {
      hide Pass, RunSetups;
      ghost var t := dt.Snapshot();
      PassReady(t, blob, true, t.deviceCount);
      PassReady(t, blob, false, t.deviceCount);
      RunSetupsConcat(t, blob, Hw(), Pass(t, blob, true, t.deviceCount), Pass(t, blob, false, t.deviceCount), Now());
      r := InitPass(dt, blob, true);
      if r.IsFailure() {
        return;
      }
      r := InitPass(dt, blob, false);
    }
  }

  lemma PassReady(t: Tables<nat>, blob: seq<Byte>, gic: bool, n: nat)
    requires Linked(t) && n <= t.deviceCount
    ensures Counted(t) && AllReady(t, Pass(t, blob, gic, n))
  {
    PassOrdered(t, blob, gic, n);
  }

  lemma RunNone(t: Tables<nat>, blob: seq<Byte>, hw: Gicv3, s: Soc)
    requires Linked(t)
    ensures RunSetups(t, blob, hw, [], s) == Ok(s)
  {
  }

  lemma RunSetupsAppend(t: Tables<nat>, blob: seq<Byte>, hw: Gicv3, calls: seq<SetupCall>, c: SetupCall, s: Soc)
    requires AllReady(t, calls) && Ready(t, c.device)
    ensures AllReady(t, calls + [c])
    ensures RunSetups(t, blob, hw, calls + [c], s) ==
      match RunSetups(t, blob, hw, calls, s)
      case Ok(s') => RunSetup(t, blob, hw, c, s')
      case Panic => Panic
      case Fault => Fault
  {
    hide RunSetup;
    assert (calls + [c])[..|calls|] == calls;
  }

  lemma {:induction false} RunSetupsConcat(t: Tables<nat>, blob: seq<Byte>, hw: Gicv3, a: seq<SetupCall>,
          b: seq<SetupCall>, s: Soc)
    requires AllReady(t, a) && AllReady(t, b)
    ensures AllReady(t, a + b)
    ensures RunSetups(t, blob, hw, a + b, s) ==
      match RunSetups(t, blob, hw, a, s)
      case Ok(s') => RunSetups(t, blob, hw, b, s')
      case Panic => Panic
      case Fault => Fault
    decreases |b|
  {
    hide RunSetup;
    if b == [] {
      assert a + b == a;
    } else {
      var b', c := b[..|b| - 1], b[|b| - 1];
      RunSetupsConcat(t, blob, hw, a, b', s);
      assert a + b == (a + b') + [c] && (a + b)[..|a + b| - 1] == a + b';
    }
  }

  /** A setup that stops the kernel stops the pass. */
  lemma {:induction false} RunSetupsStops(t: Tables<nat>, blob: seq<Byte>, hw: Gicv3, gic: bool, i: nat, n: nat, s: Soc)
    requires Linked(t) && i <= n <= t.deviceCount && AllReady(t, Pass(t, blob, gic, i))
      && AllReady(t, Pass(t, blob, gic, n))
    requires !RunSetups(t, blob, hw, Pass(t, blob, gic, i), s).Ok?
    ensures RunSetups(t, blob, hw, Pass(t, blob, gic, n), s) == RunSetups(t, blob, hw, Pass(t, blob, gic, i), s)
    decreases n
  {
    hide RunSetup, RunSetups, Selected, Linked;
    if i < n {
      PassReady(t, blob, gic, n - 1);
      RunSetupsStops(t, blob, hw, gic, i, n - 1, s);
      var q := Pass(t, blob, gic, n - 1);
      match Selected(t, blob, gic, n - 1)
      case None =>
        assert Pass(t, blob, gic, n) == q;
      case Some(d) =>
        RunSetupsAppend(t, blob, hw, q, SetupCall(n - 1, d), s);
    }
  }
}

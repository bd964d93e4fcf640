/** What the whole of init_devices leaves in the interrupt controller. */
module Initialisation {
  import opened Bytes
  import opened DeviceTable
  import opened Fdt
  import opened Lookup
  import opened Readers
  import opened Cells
  import opened Probe
  import opened Gic
  import opened GicDriver
  import opened Setup
  import opened Decoding

  // ---------- One GIC ----------

  ghost predicate OneGic(t: Tables<nat>, blob: seq<Byte>, g: nat)
    requires Counted(t)
  {
    g < t.deviceCount && forall i :: 0 <= i < t.deviceCount ==> (IsGic(t, blob, i) <==> i == g)
  }

  /** The table has exactly one GIC, `g`, and its visible "reg" decodes to `bases`. */
  ghost predicate OneGicAt(t: Tables<nat>, blob: seq<Byte>, g: nat, bases: Gicv3)
    requires Linked(t)
  {
    OneGic(t, blob, g) && GicBases(t, blob, g) == Ok(Some(bases))
  }

  /** With one GIC the first pass sets up that device and nothing else. */
  lemma {:induction false} FirstPassIsTheGic(t: Tables<nat>, blob: seq<Byte>, g: nat, n: nat)
    requires Counted(t) && n <= t.deviceCount && OneGic(t, blob, g)
    ensures Pass(t, blob, true, n) == if g < n then [SetupCall(g, GicV3)] else []
  {
    hide IsGic, DriverOf;
    if n > 0 {
      FirstPassIsTheGic(t, blob, g, n - 1);
      GicDriverForGics(t, blob, n - 1);
    }
  }

  /** The calls of the second pass, over a parsed table. */
  ghost function OtherCalls(t: Tables<nat>, blob: seq<Byte>): (calls: seq<SetupCall>)
    requires Linked(t)
    ensures Counted(t) && AllReady(t, calls)
  {
    PassReady(t, blob, false, t.deviceCount);
    Pass(t, blob, false, t.deviceCount)
  }

  ghost predicate NoGicCalls(calls: seq<SetupCall>) {
    forall k :: 0 <= k < |calls| ==> calls[k].driver != GicV3
  }

  /** The second pass sets up no GIC. */
  lemma SecondPassHasNoGic(t: Tables<nat>, blob: seq<Byte>)
    requires Counted(t)
    ensures NoGicCalls(Pass(t, blob, false, t.deviceCount))
  {
    hide IsGic, DriverOf, Pass;
    var calls := Pass(t, blob, false, t.deviceCount);
    forall k | 0 <= k < |calls| ensures calls[k].driver != GicV3 {
      assert calls[k] in calls;
      PassMembers(t, blob, false, t.deviceCount, calls[k]);
      GicDriverForGics(t, blob, calls[k].device);
    }
  }

  // ---------- Where the writes go ----------

  ghost predicate InFrames(w: Write, g: Gicv3) {
    w.address.base == g.dist || w.address.base == g.Sgi()
  }

  /** `m'` is `m` after more writes, all of them in the interrupt frames of `g`. */
  ghost predicate WritesTo(m: Mmio, m': Mmio, g: Gicv3) {
    m.writes <= m'.writes && forall k :: |m.writes| <= k < |m'.writes| ==> InFrames(m'.writes[k], g)
  }

  lemma WritesToTrans(a: Mmio, b: Mmio, c: Mmio, g: Gicv3)
    requires WritesTo(a, b, g) && WritesTo(b, c, g)
    ensures WritesTo(a, c, g)
  {
    hide InFrames;
    forall k | |a.writes| <= k < |c.writes| ensures InFrames(c.writes[k], g) {
      assert k < |b.writes| ==> c.writes[k] == b.writes[k];
    }
  }

  lemma StoreWritesTo(hw: Gicv3, m: Mmio, a: Address, v: bv32, g: Gicv3)
    requires InFrames(Write(a, v), g)
    ensures WritesTo(m, Store(hw, m, a, v), g)
  {
    hide InFrames, IsSetEnable, WithBits;
  }

  lemma SettingWritesTo(hw: Gicv3, m: Mmio, frame: bv64, ppi: bool, id: bv32, s: Setting, g: Gicv3)
    requires frame == g.dist || frame == g.Sgi()
    ensures WritesTo(m, Perform(hw, m, WriteFor(m, frame, ppi, id, s)), g)
  {
    hide Store, PriorityShift, TriggerShift, BitOf, WithField, WithBits, WritesTo, Gicv3.Sgi;
    var w := WriteFor(m, frame, ppi, id, s);
    StoreWritesTo(hw, m, w.address, w.value, g);
  }

  lemma RouteWritesTo(hw: Gicv3, m: Mmio, id: bv32, g: Gicv3)
    ensures WritesTo(m, Route(hw, g.dist, m, id), g)
  {
    hide Store, WritesTo, Gicv3.Sgi;
    var a := RouterAddr(g.dist, id);
    StoreWritesTo(hw, m, a, 0, g);
    StoreWritesTo(hw, Store(hw, m, a, 0), Address(g.dist, a.offset + 4), 0, g);
    WritesToTrans(m, Store(hw, m, a, 0), Route(hw, g.dist, m, id), g);
  }

  lemma SpiWritesTo(hw: Gicv3, g: Gicv3, m: Mmio, id: bv32, edge: bool)
    ensures WritesTo(m, ConfigureSpi(hw, g, m, id, edge), g)
  {
    hide WriteFor, Perform, Route, WritesTo, Gicv3.Sgi;
    var m1 := Perform(hw, m, WriteFor(m, g.dist, false, id, Trigger(ModeOf(edge))));
    var m2 := Perform(hw, m1, WriteFor(m1, g.dist, false, id, Priority(0)));
    var m3 := Perform(hw, m2, WriteFor(m2, g.dist, false, id, Group1));
    var m4 := Route(hw, g.dist, m3, id);
    SettingWritesTo(hw, m, g.dist, false, id, Trigger(ModeOf(edge)), g);
    SettingWritesTo(hw, m1, g.dist, false, id, Priority(0), g);
    SettingWritesTo(hw, m2, g.dist, false, id, Group1, g);
    RouteWritesTo(hw, m3, id, g);
    SettingWritesTo(hw, m4, g.dist, false, id, Enable, g);
    WritesToTrans(m, m1, m2, g);
    WritesToTrans(m, m2, m3, g);
    WritesToTrans(m, m3, m4, g);
    WritesToTrans(m, m4, ConfigureSpi(hw, g, m, id, edge), g);
  }

  lemma PpiWritesTo(hw: Gicv3, g: Gicv3, m: Mmio, id: bv32, edge: bool)
    ensures WritesTo(m, ConfigurePpi(hw, g, m, id, edge), g)
  {
    hide WriteFor, Perform, WritesTo, Gicv3.Sgi;
    var m1 := Perform(hw, m, WriteFor(m, g.Sgi(), true, id, Trigger(ModeOf(edge))));
    var m2 := Perform(hw, m1, WriteFor(m1, g.Sgi(), true, id, Priority(0)));
    var m3 := Perform(hw, m2, WriteFor(m2, g.Sgi(), true, id, Group1));
    SettingWritesTo(hw, m, g.Sgi(), true, id, Trigger(ModeOf(edge)), g);
    SettingWritesTo(hw, m1, g.Sgi(), true, id, Priority(0), g);
    SettingWritesTo(hw, m2, g.Sgi(), true, id, Group1, g);
    SettingWritesTo(hw, m3, g.Sgi(), true, id, Enable, g);
    WritesToTrans(m, m1, m2, g);
    WritesToTrans(m, m2, m3, g);
    WritesToTrans(m, m3, ConfigurePpi(hw, g, m, id, edge), g);
  }

  // ---------- What a setup call does to the GIC ----------

  /** A setup other than the GIC's leaves the base addresses, and configures its
      target or nothing. */
  lemma SetupUsesBases(t: Tables<nat>, blob: seq<Byte>, hw: Gicv3, c: SetupCall, s: Soc)
    requires Ready(t, c.device) && c.driver != GicV3
    ensures var r := RunSetup(t, blob, hw, c, s);
      r.Ok? ==>
        && Target(t, blob, c).Ok? && r.value.gic == s.gic
        && r.value.mmio == match Target(t, blob, c).value
             case None => s.mmio
             case Some(u) =>
               if c.driver == Pl011 then ConfigureSpi(hw, s.gic, s.mmio, u.0, u.1)
               else ConfigurePpi(hw, s.gic, s.mmio, u.0, u.1)
  {
    hide ParentCells, RegBase, ClockOf, Target, ConfigureSpi, ConfigurePpi;
  }

  lemma IdWordAbove(n: nat)
    requires 32 <= n < U32_LIMIT
    ensures IdWord(n) >= FIRST_SPI
  {
  }

  /** The UART configures an SPI, the timer a PPI. */
  lemma TargetKind(t: Tables<nat>, blob: seq<Byte>, c: SetupCall)
    requires Ready(t, c.device) && Target(t, blob, c).Ok? && Target(t, blob, c).value.Some?
    ensures var u := Target(t, blob, c).value.value;
      c.driver == Pl011 <==> u.0 >= FIRST_SPI
  {
    hide Specifier, IdWord;
    if c.driver == Pl011 {
      IdWordAbove(32 + Specifier(t, blob, c.device, false).value.value[1]);
    }
  }

  /** The configuration of interrupt `j` after a setup call, given it before. */
  ghost function ConfigureOne(t: Tables<nat>, blob: seq<Byte>, call: SetupCall, j: bv32, c: IrqConfig): IrqConfig
    requires Ready(t, call.device)
  {
    match Target(t, blob, call)
    case Ok(Some(u)) => if u.0 == j then IrqConfig(0, if u.1 then 2 else 0, true, true) else c
    case _ => c
  }

  ghost predicate ValidTarget(t: Tables<nat>, blob: seq<Byte>, call: SetupCall)
    requires Ready(t, call.device)
  {
    match Target(t, blob, call)
    case Ok(Some(u)) => u.0 < ID_LIMIT
    case _ => true
  }

  lemma SetupConfigures(t: Tables<nat>, blob: seq<Byte>, hw: Gicv3, c: SetupCall, s: Soc, j: bv32)
    requires Ready(t, c.device) && c.driver != GicV3 && ValidTarget(t, blob, c)
    requires s.gic == hw && hw.dist != hw.Sgi() && j < ID_LIMIT
    requires RunSetup(t, blob, hw, c, s).Ok?
    ensures Decode(hw, RunSetup(t, blob, hw, c, s).value.mmio, j) == ConfigureOne(t, blob, c, j, Decode(hw, s.mmio, j))
  {
    hide RunSetup, Target, ConfigureSpi, ConfigurePpi, Decode, Gicv3.Sgi;
    SetupUsesBases(t, blob, hw, c, s);
    if Target(t, blob, c).value.Some? {
      TargetKind(t, blob, c);
      var u := Target(t, blob, c).value.value;
      if c.driver == Pl011 {
        SpiConfigured(hw, s.mmio, u.0, u.1, j);
      } else {
        PpiConfigured(hw, s.mmio, u.0, u.1, j);
      }
    }
  }

  lemma SetupWrites(t: Tables<nat>, blob: seq<Byte>, hw: Gicv3, c: SetupCall, s: Soc)
    requires Ready(t, c.device) && c.driver != GicV3 && RunSetup(t, blob, hw, c, s).Ok?
    ensures var s' := RunSetup(t, blob, hw, c, s).value;
      s'.gic == s.gic && WritesTo(s.mmio, s'.mmio, s.gic)
  {
    hide RunSetup, Target, ConfigureSpi, ConfigurePpi, InFrames;
    SetupUsesBases(t, blob, hw, c, s);
    if Target(t, blob, c).value.Some? {
      var u := Target(t, blob, c).value.value;
      SpiWritesTo(hw, s.gic, s.mmio, u.0, u.1);
      PpiWritesTo(hw, s.gic, s.mmio, u.0, u.1);
    }
  }

  // ---------- All the setup calls of the second pass ----------

  ghost function Configured(t: Tables<nat>, blob: seq<Byte>, calls: seq<SetupCall>, j: bv32, c: IrqConfig): IrqConfig
    requires AllReady(t, calls)
  {
    if calls == [] then c
    else
      var n := |calls| - 1;
      ConfigureOne(t, blob, calls[n], j, Configured(t, blob, calls[..n], j, c))
  }

  ghost predicate ValidTargets(t: Tables<nat>, blob: seq<Byte>, calls: seq<SetupCall>)
    requires AllReady(t, calls)
  {
    forall k :: 0 <= k < |calls| ==> ValidTarget(t, blob, calls[k])
  }

  lemma {:induction false} SetupsWrite(t: Tables<nat>, blob: seq<Byte>, hw: Gicv3, calls: seq<SetupCall>, s: Soc)
    requires AllReady(t, calls) && NoGicCalls(calls) && RunSetups(t, blob, hw, calls, s).Ok?
    ensures var s' := RunSetups(t, blob, hw, calls, s).value;
      s'.gic == s.gic && WritesTo(s.mmio, s'.mmio, s.gic)
    decreases |calls|
  {
    hide RunSetup, WritesTo;
    if calls == [] {
      WritesNothing(s.mmio, s.gic);
    } else {
      var before := calls[..|calls| - 1];
      SetupsWrite(t, blob, hw, before, s);
      var s1 := RunSetups(t, blob, hw, before, s).value;
      SetupWrites(t, blob, hw, calls[|calls| - 1], s1);
      WritesToTrans(s.mmio, s1.mmio, RunSetups(t, blob, hw, calls, s).value.mmio, s.gic);
    }
  }

  lemma WritesNothing(m: Mmio, g: Gicv3)
    ensures WritesTo(m, m, g)
  {
  }

  lemma {:induction false} SetupsConfigure(t: Tables<nat>, blob: seq<Byte>, hw: Gicv3, calls: seq<SetupCall>,
          s: Soc, j: bv32)
    requires AllReady(t, calls) && NoGicCalls(calls) && RunSetups(t, blob, hw, calls, s).Ok?
      && ValidTargets(t, blob, calls)
    requires s.gic == hw && hw.dist != hw.Sgi() && j < ID_LIMIT
    ensures RunSetups(t, blob, hw, calls, s).value.gic == hw
    ensures
      Decode(hw, RunSetups(t, blob, hw, calls, s).value.mmio, j) == Configured(t, blob, calls, j, Decode(hw, s.mmio, j))
    decreases |calls|
  {
    hide RunSetup, Decode, ConfigureOne, ValidTarget, Gicv3.Sgi, WritesTo;
    if calls != [] {
      var before := calls[..|calls| - 1];
      SetupsConfigure(t, blob, hw, before, s, j);
      var s1 := RunSetups(t, blob, hw, before, s).value;
      SetupConfigures(t, blob, hw, calls[|calls| - 1], s1, j);
      SetupWrites(t, blob, hw, calls[|calls| - 1], s1);
    }
  }

  ghost predicate Targets(t: Tables<nat>, blob: seq<Byte>, call: SetupCall, j: bv32)
    requires Ready(t, call.device)
  {
    match Target(t, blob, call)
    case Ok(Some(u)) => u.0 == j
    case _ => false
  }

  /** Call `k` is the last of the calls that configures interrupt `j`, with trigger `edge`. */
  ghost predicate LastTarget(t: Tables<nat>, blob: seq<Byte>, calls: seq<SetupCall>, j: bv32, k: nat, edge: bool)
    requires AllReady(t, calls)
  {
    && k < |calls| && Target(t, blob, calls[k]) == Ok(Some((j, edge)))
    && forall i :: k < i < |calls| ==> !Targets(t, blob, calls[i], j)
  }

  /** An interrupt that some call configures ends as the last such call left it;
      any other keeps its configuration. */
  lemma {:induction false} ConfiguredMeaning(t: Tables<nat>, blob: seq<Byte>, calls: seq<SetupCall>, j: bv32,
          c: IrqConfig)
    requires AllReady(t, calls)
    ensures forall k, edge :: LastTarget(t, blob, calls, j, k, edge) ==>
      Configured(t, blob, calls, j, c) == IrqConfig(0, if edge then 2 else 0, true, true)
    ensures (forall k :: 0 <= k < |calls| ==> !Targets(t, blob, calls[k], j)) ==> Configured(t, blob, calls, j, c) == c
    decreases |calls|
  {
    hide Target;
    if calls != [] {
      var n := |calls| - 1;
      ConfiguredMeaning(t, blob, calls[..n], j, c);
      forall k: nat, edge | LastTarget(t, blob, calls, j, k, edge)
        ensures Configured(t, blob, calls, j, c) == IrqConfig(0, if edge then 2 else 0, true, true)
      {
        if k < n {
          assert LastTarget(t, blob, calls[..n], j, k, edge);
        }
      }
    }
  }

  // ---------- The whole of init_devices ----------

  lemma InitKeepsConfig(hw: Gicv3, m: Mmio, j: bv32)
    requires hw.Apart() && j < ID_LIMIT
    ensures Decode(hw, InitWrites(hw, hw, m), j) == Decode(hw, m, j)
  {
    hide Store, Decode, WithBits, WithoutBits;
    var ctlr, waker := Address(hw.dist, GICD_CTLR), Address(hw.redist, GICR_WAKER);
    var m1 := Store(hw, m, ctlr, WithBits(m.cells(ctlr), GRP1_BITS));
    StoreElsewhereKeeps(hw, m, ctlr, WithBits(m.cells(ctlr), GRP1_BITS), j);
    StoreElsewhereKeeps(hw, m1, waker, WithoutBits(m1.cells(waker), GICR_WAKER_PSLEEP), j);
  }

  /** The state after the GIC's own setup, when its "reg" is visible. */
  function AfterGic(hw: Gicv3, g: Gicv3, s: Soc): Soc {
    s.(gic := g, mmio := InitWrites(hw, g, s.mmio))
  }

  /** With one GIC whose "reg" is visible, everything else is set up after it,
      from the state its setup leaves. */
  lemma InitAfterGic(t: Tables<nat>, blob: seq<Byte>, hw: Gicv3, g: nat, bases: Gicv3, s: Soc)
    requires Linked(t) && OneGicAt(t, blob, g, bases)
    ensures var calls := OtherCalls(t, blob);
      && AllReady(t, Trace(t, blob)) && NoGicCalls(calls)
      && RunSetups(t, blob, hw, Trace(t, blob), s) == RunSetups(t, blob, hw, calls, AfterGic(hw, bases, s))
  {
    hide GicBases, InitWrites, Linked;
    var n := t.deviceCount;
    PassReady(t, blob, true, n);
    PassReady(t, blob, false, n);
    FirstPassIsTheGic(t, blob, g, n);
    SecondPassHasNoGic(t, blob);
    var first := Pass(t, blob, true, n);
    RunSetupsConcat(t, blob, hw, first, Pass(t, blob, false, n), s);
    assert first[..0] == [];
    assert RunSetups(t, blob, hw, first[..0], s) == Ok(s);
    assert RunSetups(t, blob, hw, first, s) == Ok(AfterGic(hw, bases, s));
  }

  /** Wherever the hardware is: after the two writes of the GIC's own setup,
      every register write of the other setups uses the base addresses decoded
      from the GIC's "reg", and they still hold at the end. */
  lemma WritesUseDecodedBases(t: Tables<nat>, blob: seq<Byte>, hw: Gicv3, g: nat, bases: Gicv3, s: Soc)
    requires Linked(t) && OneGicAt(t, blob, g, bases)
    ensures AllReady(t, Trace(t, blob))
    ensures var r := RunSetups(t, blob, hw, Trace(t, blob), s);
      r.Ok? ==> r.value.gic == bases && WritesTo(InitWrites(hw, bases, s.mmio), r.value.mmio, bases)
  {
    hide OneGicAt, InitWrites, Linked, RunSetups, WritesTo, Trace, OtherCalls;
    InitAfterGic(t, blob, hw, g, bases, s);
    var calls := OtherCalls(t, blob);
    if RunSetups(t, blob, hw, Trace(t, blob), s).Ok? {
      SetupsWrite(t, blob, hw, calls, AfterGic(hw, bases, s));
    }
  }

  /** Interrupt `j` ends as init_devices promises, for hardware at `hw`: if a
      UART or timer setup reaches it, in group 1, at priority 0, enabled, with the
      trigger the last such setup chose; otherwise as it was. */
  ghost predicate EndsConfigured(t: Tables<nat>, blob: seq<Byte>, hw: Gicv3, before: Mmio, after: Mmio, j: bv32)
    requires Linked(t)
  {
    var calls := OtherCalls(t, blob);
    && (forall k, edge :: LastTarget(t, blob, calls, j, k, edge) ==>
          Decode(hw, after, j) == IrqConfig(0, if edge then 2 else 0, true, true))
    && ((forall k :: 0 <= k < |calls| ==> !Targets(t, blob, calls[k], j)) ==>
          Decode(hw, after, j) == Decode(hw, before, j))
  }

  /** The one GIC of the table is where the hardware is, and all ids are valid. */
  ghost predicate DescribesHardware(t: Tables<nat>, blob: seq<Byte>, hw: Gicv3, g: nat)
    requires Linked(t)
  {
    && OneGicAt(t, blob, g, hw) && hw.Apart()
    && ValidTargets(t, blob, OtherCalls(t, blob))
  }

  /** End to end: init_devices over a table that describes the hardware leaves
      every valid interrupt as promised. */
  lemma InitConfigures(t: Tables<nat>, blob: seq<Byte>, hw: Gicv3, g: nat, s: Soc, j: bv32)
    requires Linked(t) && DescribesHardware(t, blob, hw, g) && j < ID_LIMIT
    ensures AllReady(t, Trace(t, blob))
    ensures var r := RunSetups(t, blob, hw, Trace(t, blob), s);
      r.Ok? ==> EndsConfigured(t, blob, hw, s.mmio, r.value.mmio, j)
  {
    hide OneGicAt, InitWrites, Linked, RunSetups, Decode, Trace, ValidTargets, OtherCalls, Configured,
      LastTarget, Targets;
    InitAfterGic(t, blob, hw, g, hw, s);
    var calls := OtherCalls(t, blob);
    if RunSetups(t, blob, hw, Trace(t, blob), s).Ok? {
      SetupsConfigure(t, blob, hw, calls, AfterGic(hw, hw, s), j);
      InitKeepsConfig(hw, s.mmio, j);
      ConfiguredMeaning(t, blob, calls, j, Decode(hw, s.mmio, j));
    }
  }

  // ---------- parse_dtb, with the call of init_devices at its end ----------

  /** When the kernel gets through parse_dtb, the tables are linked, every
      setup ran in trace order over them, the UART has the base address and the
      clock that the last UART device describes, and, if the blob describes the
      hardware, every valid interrupt is configured as it says. */
  method ParseDtb(dt: DeviceTree, board: Board, blob: seq<Byte>) returns (r: Outcome<()>)
    requires dt.Valid() && dt.deviceCount == 0 && dt.phandleCount == 0
    modifies dt, dt.devices, dt.phandles, board, board.driver
    ensures dt.Valid()
    ensures Parsed(blob, old(dt.Snapshot())).Panic? ==> r.Panic?
    ensures Parsed(blob, old(dt.Snapshot())).Fault? ==> r.Fault?
    ensures r.Ok? ==>
      var t, hw, s := dt.Snapshot(), board.Hw(), old(board.Now());
      && Parsed(blob, old(dt.Snapshot())).Ok? && t == Parsed(blob, old(dt.Snapshot())).value.state.tables
      && Linked(t) && ValuesInside(blob, t) && AllReady(t, Trace(t, blob))
      && RunSetups(t, blob, hw, Trace(t, blob), s) == Ok(board.Now())
      && UartDescribed(t, blob, Trace(t, blob), s, board.Now())
      && (forall g: nat, bases :: OneGicAt(t, blob, g, bases) ==>
            board.driver.bases == bases && WritesTo(InitWrites(hw, bases, s.mmio), board.driver.mmio, bases))
      && (forall g: nat, j :: DescribesHardware(t, blob, hw, g) && j < ID_LIMIT ==>
            EndsConfigured(t, blob, hw, s.mmio, board.driver.mmio, j))
  {
    hide Parsed, ValuesInside, Linked, Trace, RunSetups, OneGicAt, InitWrites, WritesTo, DescribesHardware,
      EndsConfigured, UartDescribed;
    ParsedTablesAreSafe(blob, dt.Snapshot());
    var at := dt.Parse(blob);
    if at.IsFailure() {
      return at.PropagateFailure();
    }
    ghost var t, s := dt.Snapshot(), board.Now();
    r := board.InitDevices(dt, blob);
    if r.IsFailure() {
      return;
    }
    assert dt.Snapshot() == t;
    UartAfterSetups(t, blob, board.Hw(), Trace(t, blob), s);
    forall g: nat, bases | OneGicAt(t, blob, g, bases)
      ensures board.driver.bases == bases && WritesTo(InitWrites(board.Hw(), bases, s.mmio), board.driver.mmio, bases)
    {
      WritesUseDecodedBases(t, blob, board.Hw(), g, bases, s);
    }
    forall g: nat, j: bv32 | DescribesHardware(t, blob, board.Hw(), g) && j < ID_LIMIT
      ensures EndsConfigured(t, blob, board.Hw(), s.mmio, board.driver.mmio, j)
    {
      InitConfigures(t, blob, board.Hw(), g, s, j);
    }
  }
}
